/**
  Reference counting of GPU resources: handles (include/Teide/Handle.h) over resource maps
  (src/Teide/Util/ResourceMap.h), with parameter blocks that hold texture handles
  (src/Teide/VulkanParameterBlock.h), so that the death of a block releases its textures.
 */
module RefCount {
  import opened Wrappers

  const UINT32_RANGE := 0x1_0000_0000

  datatype Slot<+R> = Slot(refCount: nat, resource: Option<R>)

  // ---------------------------------------------------------------- one resource map

  /** A new slot starts with one reference; slots are never reused. */
  function InsertSlot<R>(slots: seq<Slot<R>>, resource: R): seq<Slot<R>> {
    slots + [Slot(1, Some(resource))]
  }

  function AddRefSlot<R>(slots: seq<Slot<R>>, index: nat): seq<Slot<R>>
    requires index < |slots|
  {
    slots[index := slots[index].(refCount := (slots[index].refCount + 1) % UINT32_RANGE)]
  }

  /** The last reference resets the slot to a default one, whose count is 1 again. */
  function DecRefSlot<R>(slots: seq<Slot<R>>, index: nat): seq<Slot<R>>
    requires index < |slots|
  {
    var count := (slots[index].refCount + UINT32_RANGE - 1) % UINT32_RANGE;
    slots[index := if count == 0 then Slot(1, None) else slots[index].(refCount := count)]
  }

  class ResourceMap<R> {
    var list: seq<Slot<R>>

    constructor ()
      ensures list == []
    {
      list := [];
    }

    method Insert(resource: R) returns (index: nat)
      modifies this
      ensures list == InsertSlot(old(list), resource) && index == |old(list)|
    {
      index := |list|;
      list := list + [Slot(1, Some(resource))];
    }

    method AddRef(index: nat)
      requires index < |list|
      modifies this
      ensures list == AddRefSlot(old(list), index)
    {
      list := list[index := list[index].(refCount := (list[index].refCount + 1) % UINT32_RANGE)];
    }

    method DecRef(index: nat)
      requires index < |list|
      modifies this
      ensures list == DecRefSlot(old(list), index)
    {
      list := list[index := list[index].(refCount := (list[index].refCount + UINT32_RANGE - 1) % UINT32_RANGE)];
      if list[index].refCount == 0 {
        list := list[index := Slot(1, None)];
      }
    }
  }

  /** A handle variable; a moved-from one has no owner. */
  class Handle<R> {
    var index: nat
    var owner: ResourceMap?<R>

    ghost predicate Valid()
      reads this, owner
    {
      owner != null ==> index < |owner.list|
    }

    constructor Create(index: nat, owner: ResourceMap<R>)
      ensures this.index == index && this.owner == owner
    {
      this.index, this.owner := index, owner;
    }

    constructor Copy(other: Handle<R>)
      requires other.Valid() && other.owner != null
      modifies other.owner
      ensures index == other.index && owner == other.owner == old(other.owner)
      ensures owner.list == AddRefSlot(old(other.owner.list), other.index)
    {
      index, owner := other.index, other.owner;
      new;
      owner.AddRef(index);
    }

    constructor Move(other: Handle<R>)
      modifies other`owner
      ensures index == other.index && owner == old(other.owner) && other.owner == null
    {
      index, owner := other.index, other.owner;
      new;
      other.owner := null;
    }

    method Destroy()
      requires Valid()
      modifies owner
      ensures owner != null ==> owner.list == DecRefSlot(old(owner.list), index)
    {
      if owner != null {
        owner.DecRef(index);
      }
    }

    /** Adding before releasing makes `h = h` harmless. */
    method CopyAssign(other: Handle<R>)
      requires Valid() && other.Valid() && other.owner != null
      modifies this, owner, other.owner
      ensures index == old(other.index) && owner == old(other.owner)
      ensures old(owner) == null ==> owner.list == AddRefSlot(old(other.owner.list), index)
      ensures old(owner) == owner ==>
                owner.list == DecRefSlot(AddRefSlot(old(other.owner.list), index), old(index))
      ensures old(owner) != null && old(owner) != owner ==>
                && owner.list == AddRefSlot(old(other.owner.list), index)
                && old(owner).list == DecRefSlot(old(owner.list), old(index))
    {
      other.owner.AddRef(other.index);
      Destroy();
      index, owner := other.index, other.owner;
    }

    method MoveAssign(other: Handle<R>)
      requires Valid() && other.Valid()
      modifies this, other, owner
      ensures index == old(other.index) && owner == old(other.owner)
      ensures this != other ==> other.owner == null
      ensures this != other && old(owner) != null ==> old(owner).list == DecRefSlot(old(owner.list), old(index))
      ensures this == other && owner != null ==> owner.list == old(owner.list)
    {
      if this != other {
        Destroy();
        index, owner := other.index, other.owner;
        other.owner := null;
      }
    }
  }

  // ---------------------------------------------------------------- the world of handles

  datatype Kind = Texture | Block

  /** A variable of a handle type; `owned` is false once it has been moved from. */
  datatype Var = Var(kind: Kind, index: nat, owned: bool)

  datatype World = World(
    textures: seq<Slot<int>>,
    blocks: seq<Slot<seq<nat>>>,   // a block's resource: the textures it holds
    handles: map<nat, Var>)

  datatype Step =
    | InsertTexture(h: nat, contents: int)
    | InsertBlock(h: nat, sources: seq<nat>)
    | Copy(h: nat, other: nat)
    | Move(h: nat, other: nat)
    | CopyAssign(h: nat, other: nat)
    | MoveAssign(h: nat, other: nat)
    | Destroy(h: nat)

  function Size(w: World, kind: Kind): nat {
    if kind.Texture? then |w.textures| else |w.blocks|
  }

  function CountOf(w: World, kind: Kind, i: nat): nat
    requires i < Size(w, kind)
  {
    if kind.Texture? then w.textures[i].refCount else w.blocks[i].refCount
  }

  predicate Live(w: World, kind: Kind, i: nat)
    requires i < Size(w, kind)
  {
    if kind.Texture? then w.textures[i].resource.Some? else w.blocks[i].resource.Some?
  }

  function AddRef(w: World, kind: Kind, i: nat): World
    requires i < Size(w, kind)
  {
    if kind.Texture? then w.(textures := AddRefSlot(w.textures, i)) else w.(blocks := AddRefSlot(w.blocks, i))
  }

  function ReleaseAll(textures: seq<Slot<int>>, held: seq<nat>): seq<Slot<int>>
    requires forall k :: 0 <= k < |held| ==> held[k] < |textures|
    decreases |held|
  {
    if held == [] then textures else ReleaseAll(DecRefSlot(textures, held[0]), held[1..])
  }

  /** Dropping a reference to a block may reset it, and that destroys the texture handles it holds. */
  function DecRef(w: World, kind: Kind, i: nat): World
    requires i < Size(w, kind) && HeldInRange(w)
  {
    if kind.Texture? then w.(textures := DecRefSlot(w.textures, i))
    else
      var blocks := DecRefSlot(w.blocks, i);
      if blocks[i].resource.None? && w.blocks[i].resource.Some?
      then w.(blocks := blocks, textures := ReleaseAll(w.textures, w.blocks[i].resource.value))
      else w.(blocks := blocks)
  }

  predicate HeldInRange(w: World) {
    forall b, k :: 0 <= b < |w.blocks| && w.blocks[b].resource.Some? && 0 <= k < |w.blocks[b].resource.value| ==>
      w.blocks[b].resource.value[k] < |w.textures|
  }

  predicate HandlesInRange(w: World) {
    forall h :: h in w.handles && w.handles[h].owned ==> w.handles[h].index < Size(w, w.handles[h].kind)
  }

  /** Copying texture handles into a new block. */
  function AcquireAll(textures: seq<Slot<int>>, held: seq<nat>): seq<Slot<int>>
    requires forall k :: 0 <= k < |held| ==> held[k] < |textures|
    decreases |held|
  {
    if held == [] then textures else AcquireAll(AddRefSlot(textures, held[0]), held[1..])
  }

  predicate Owns(w: World, h: nat, kind: Kind) {
    h in w.handles && w.handles[h].owned && w.handles[h].kind == kind
  }

  /** One more reference to each of them stays within 32 bits. */
  predicate RoomFor(w: World, kind: Kind, i: nat, more: nat)
    requires i < Size(w, kind)
  {
    CountOf(w, kind, i) + more < UINT32_RANGE
  }

  /** New variables are fresh, copies come from handles not moved from, and assignments relate handles of one type. */
  predicate Enabled(w: World, step: Step)
    requires HandlesInRange(w)
  {
    match step
    case InsertTexture(h, _) => h !in w.handles
    case InsertBlock(h, sources) =>
      && h !in w.handles
      && forall k :: 0 <= k < |sources| ==>
           Owns(w, sources[k], Texture) && RoomFor(w, Texture, w.handles[sources[k]].index, |sources|)
    case Copy(h, other) =>
      && h !in w.handles && other in w.handles && w.handles[other].owned
      && RoomFor(w, w.handles[other].kind, w.handles[other].index, 1)
    case Move(h, other) => h !in w.handles && other in w.handles
    case CopyAssign(h, other) =>
      && h in w.handles && other in w.handles && w.handles[other].owned && w.handles[h].kind == w.handles[other].kind
      && RoomFor(w, w.handles[other].kind, w.handles[other].index, 1)
    case MoveAssign(h, other) => h in w.handles && other in w.handles && w.handles[h].kind == w.handles[other].kind
    case Destroy(h) => h in w.handles
  }

  /** Handle::Destroy. */
  function Release(w: World, v: Var): World
    requires HeldInRange(w) && (v.owned ==> v.index < Size(w, v.kind))
  {
    if v.owned then DecRef(w, v.kind, v.index) else w
  }

  function Held(blocks: seq<Slot<seq<nat>>>, i: nat): nat {
    if blocks == [] then 0
    else
      var last := blocks[|blocks| - 1];
      Held(blocks[..|blocks| - 1], i) + if last.resource.Some? then multiset(last.resource.value)[i] else 0
  }

  /** The handle variables that own slot `i`. */
  function Holders(handles: map<nat, Var>, kind: Kind, i: nat): set<nat> {
    set h | h in handles && handles[h] == Var(kind, i, true)
  }

  /**
    Everything that owns a reference to slot `i`: handle variables and, for a texture, the handles inside live
    blocks.
   */
  function Owners(w: World, kind: Kind, i: nat): nat {
    |Holders(w.handles, kind, i)| + if kind.Texture? then Held(w.blocks, i) else 0
  }

  /** The textures that handle variables name. */
  function HeldFrom(w: World, sources: seq<nat>): seq<nat> {
    seq(|sources|, k requires 0 <= k < |sources| => if sources[k] in w.handles then w.handles[sources[k]].index else 0)
  }

  function Next(w: World, step: Step): World
    requires HandlesInRange(w) && HeldInRange(w) && Enabled(w, step)
  {
    match step
    case InsertTexture(h, contents) =>
      w.(textures := InsertSlot(w.textures, contents), handles := w.handles[h := Var(Texture, |w.textures|, true)])
    case InsertBlock(h, sources) =>
      var held := HeldFrom(w, sources);
      World(AcquireAll(w.textures, held), InsertSlot(w.blocks, held), w.handles[h := Var(Block, |w.blocks|, true)])
    case Copy(h, other) =>
      var v := w.handles[other];
      AddRef(w, v.kind, v.index).(handles := w.handles[h := v])
    case Move(h, other) =>
      w.(handles := w.handles[h := w.handles[other]][other := w.handles[other].(owned := false)])
    case CopyAssign(h, other) =>
      var v := w.handles[other];
      Release(AddRef(w, v.kind, v.index), w.handles[h]).(handles := w.handles[h := v])
    case MoveAssign(h, other) =>
      if h == other then w
      else
        var v := w.handles[other];
        Release(w, w.handles[h]).(handles := w.handles[h := v][other := v.(owned := false)])
    case Destroy(h) =>
      Release(w, w.handles[h]).(handles := w.handles - {h})
  }

  ghost predicate Reaches(w: World, steps: seq<Step>, w': World)
    decreases |steps|
  {
    if steps == [] then w == w'
    else HandlesInRange(w) && HeldInRange(w) && Enabled(w, steps[0]) && Reaches(Next(w, steps[0]), steps[1..], w')
  }

  // ---------------------------------------------------------------- conservation of references

  /** A reference in the middle of an operation, owned by no variable. */
  datatype Token = Token(kind: Kind, index: nat)

  /** A live slot's count is the number of its owners; a dead slot has none and a count of one. */
  ghost predicate SlotOk(count: nat, live: bool, owners: nat) {
    if live then count == owners && 0 < owners < UINT32_RANGE else owners == 0 && count == 1
  }

  ghost predicate SlotBalanced(w: World, loose: multiset<Token>, kind: Kind, i: nat)
    requires i < Size(w, kind)
  {
    SlotOk(CountOf(w, kind, i), Live(w, kind, i), Owners(w, kind, i) + loose[Token(kind, i)])
  }

  ghost predicate Balanced(w: World, loose: multiset<Token>) {
    && HandlesInRange(w) && HeldInRange(w)
    && (forall t :: t in loose ==> t.index < Size(w, t.kind))
    && (forall kind, i: nat :: i < Size(w, kind) ==> SlotBalanced(w, loose, kind, i))
  }

  lemma {:induction false} DecRefCounts<R>(slots: seq<Slot<R>>, i: nat)
    requires i < |slots| && 0 < slots[i].refCount < UINT32_RANGE
    ensures DecRefSlot(slots, i) ==
              slots[i := if slots[i].refCount == 1 then Slot(1, None) else slots[i].(refCount := slots[i].refCount - 1)]
  {
  }

  lemma {:induction false} AddRefBalances(w: World, loose: multiset<Token>, kind: Kind, i: nat)
    requires Balanced(w, loose) && i < Size(w, kind) && Live(w, kind, i) && RoomFor(w, kind, i, 1)
    ensures Balanced(AddRef(w, kind, i), loose + multiset{Token(kind, i)})
  {
    var w', loose' := AddRef(w, kind, i), loose + multiset{Token(kind, i)};
    HeldDependsOnResources(w.blocks, w'.blocks);
    forall k, j: nat | j < Size(w', k) ensures SlotBalanced(w', loose', k, j) {
      assert SlotBalanced(w, loose, k, j);
    }
  }

  /** What blocks hold depends on their resources only, not on their counts. */
  lemma {:induction false} HeldDependsOnResources(a: seq<Slot<seq<nat>>>, b: seq<Slot<seq<nat>>>)
    requires |a| == |b| && forall k :: 0 <= k < |a| ==> a[k].resource == b[k].resource
    ensures forall i :: Held(a, i) == Held(b, i)
    decreases |a|
  {
    if a != [] {
      HeldDependsOnResources(a[..|a| - 1], b[..|b| - 1]);
    }
  }

  lemma {:induction false} DropTextureBalances(w: World, loose: multiset<Token>, i: nat)
    requires Balanced(w, loose) && Token(Texture, i) in loose
    ensures Balanced(w.(textures := DecRefSlot(w.textures, i)), loose - multiset{Token(Texture, i)})
  {
    var w', loose' := w.(textures := DecRefSlot(w.textures, i)), loose - multiset{Token(Texture, i)};
    assert SlotBalanced(w, loose, Texture, i);
    DecRefCounts(w.textures, i);
    forall k, j: nat | j < Size(w', k) ensures SlotBalanced(w', loose', k, j) {
      assert SlotBalanced(w, loose, k, j);
    }
  }

  function Tokens(held: seq<nat>): multiset<Token> {
    if held == [] then multiset{} else multiset{Token(Texture, held[0])} + Tokens(held[1..])
  }

  lemma {:induction false} TokensCount(held: seq<nat>, t: Token)
    ensures Tokens(held)[t] == if t.kind.Texture? then multiset(held)[t.index] else 0
  {
    if held != [] {
      TokensCount(held[1..], t);
      assert held == [held[0]] + held[1..];
    }
  }

  lemma {:induction false} ReleaseAllBalances(w: World, loose: multiset<Token>, held: seq<nat>)
    requires Balanced(w, loose + Tokens(held)) && forall k :: 0 <= k < |held| ==> held[k] < |w.textures|
    ensures Balanced(w.(textures := ReleaseAll(w.textures, held)), loose)
    decreases |held|
  {
    if held == [] {
      assert loose + Tokens(held) == loose;
      assert w.(textures := ReleaseAll(w.textures, held)) == w;
    } else {
      var t := Token(Texture, held[0]);
      DropTextureBalances(w, loose + Tokens(held), held[0]);
      assert loose + Tokens(held) - multiset{t} == loose + Tokens(held[1..]);
      ReleaseAllBalances(w.(textures := DecRefSlot(w.textures, held[0])), loose, held[1..]);
    }
  }

  /** Clearing block `b` takes exactly its textures out of what blocks hold. */
  lemma {:induction false} HeldWithout(blocks: seq<Slot<seq<nat>>>, b: nat, slot: Slot<seq<nat>>, i: nat)
    requires b < |blocks| && blocks[b].resource.Some? && slot.resource.None?
    ensures Held(blocks, i) == Held(blocks[b := slot], i) + multiset(blocks[b].resource.value)[i]
    decreases |blocks|
  {
    var n := |blocks| - 1;
    if b == n {
      assert blocks[b := slot][..n] == blocks[..n];
    } else {
      assert blocks[b := slot][..n] == blocks[..n][b := slot];
      HeldWithout(blocks[..n], b, slot, i);
    }
  }

  /** The cascade: the textures of a dying block become loose references. */
  lemma {:induction false} ClearBlockBalances(w: World, loose: multiset<Token>, b: nat)
    requires Balanced(w, loose) && Token(Block, b) in loose && b < |w.blocks|
    requires w.blocks[b].resource.Some? && DecRefSlot(w.blocks, b)[b].resource.None?
    ensures Balanced(w.(blocks := DecRefSlot(w.blocks, b)),
                     loose - multiset{Token(Block, b)} + Tokens(w.blocks[b].resource.value))
  {
    var held := w.blocks[b].resource.value;
    var w' := w.(blocks := DecRefSlot(w.blocks, b));
    var loose' := loose - multiset{Token(Block, b)} + Tokens(held);
    assert SlotBalanced(w, loose, Block, b);
    DecRefCounts(w.blocks, b);
    forall t | t in loose' ensures t.index < Size(w', t.kind) {
      TokensCount(held, t);
      if t !in loose { assert t.index in held; }
    }
    forall k, j: nat | j < Size(w', k) ensures SlotBalanced(w', loose', k, j) {
      assert SlotBalanced(w, loose, k, j);
      TokensCount(held, Token(k, j));
      HeldWithout(w.blocks, b, Slot(1, None), j);
    }
  }

  lemma {:induction false} DropBlockBalances(w: World, loose: multiset<Token>, b: nat)
    requires Balanced(w, loose) && Token(Block, b) in loose && b < |w.blocks|
    requires DecRefSlot(w.blocks, b)[b].resource == w.blocks[b].resource
    ensures Balanced(w.(blocks := DecRefSlot(w.blocks, b)), loose - multiset{Token(Block, b)})
  {
    var w', loose' := w.(blocks := DecRefSlot(w.blocks, b)), loose - multiset{Token(Block, b)};
    assert SlotBalanced(w, loose, Block, b);
    DecRefCounts(w.blocks, b);
    HeldDependsOnResources(w.blocks, w'.blocks);
    forall k, j: nat | j < Size(w', k) ensures SlotBalanced(w', loose', k, j) {
      assert SlotBalanced(w, loose, k, j);
    }
  }

  lemma {:induction false} DecRefBalances(w: World, loose: multiset<Token>, kind: Kind, i: nat)
    requires Balanced(w, loose) && Token(kind, i) in loose
    ensures Balanced(DecRef(w, kind, i), loose - multiset{Token(kind, i)})
  {
    if kind.Texture? {
      DropTextureBalances(w, loose, i);
    } else {
      assert SlotBalanced(w, loose, Block, i);
      DecRefCounts(w.blocks, i);
      var blocks := DecRefSlot(w.blocks, i);
      if blocks[i].resource.None? {
        ClearBlockBalances(w, loose, i);
        ReleaseAllBalances(w.(blocks := blocks), loose - multiset{Token(Block, i)}, w.blocks[i].resource.value);
      } else {
        DropBlockBalances(w, loose, i);
      }
    }
  }

  /** The reference a variable owns, if any. */
  function Owned(v: Var): multiset<Token> {
    if v.owned then multiset{Token(v.kind, v.index)} else multiset{}
  }

  function OwnedBy(handles: map<nat, Var>, h: nat): multiset<Token> {
    if h in handles then Owned(handles[h]) else multiset{}
  }

  /** Changing what a variable owns moves references between it and the loose ones. */
  lemma {:induction false} Rebind(w: World, loose: multiset<Token>, h: nat, v: Var, loose': multiset<Token>)
    requires Balanced(w, loose) && loose' + Owned(v) == loose + OwnedBy(w.handles, h)
    ensures Balanced(w.(handles := w.handles[h := v]), loose')
  {
    var w' := w.(handles := w.handles[h := v]);
    assert forall t :: t in loose' ==> t in loose' + Owned(v);
    assert v.owned ==> Token(v.kind, v.index) in loose + OwnedBy(w.handles, h);
    forall k, j: nat | j < Size(w', k) ensures SlotBalanced(w', loose', k, j) {
      RebindSlot(w, loose, h, v, loose', k, j);
    }
  }

  lemma {:induction false} RebindSlot(
      w: World, loose: multiset<Token>, h: nat, v: Var, loose': multiset<Token>, k: Kind, j: nat)
    requires j < Size(w, k) && SlotBalanced(w, loose, k, j) && loose' + Owned(v) == loose + OwnedBy(w.handles, h)
    ensures SlotBalanced(w.(handles := w.handles[h := v]), loose', k, j)
  {
    HoldersRebound(w.handles, h, v, k, j);
    var t := Token(k, j);
    assert (loose' + Owned(v))[t] == loose'[t] + Owned(v)[t];
    assert (loose + OwnedBy(w.handles, h))[t] == loose[t] + OwnedBy(w.handles, h)[t];
  }

  lemma {:induction false} HoldersRebound(handles: map<nat, Var>, h: nat, v: Var, kind: Kind, i: nat)
    ensures |Holders(handles[h := v], kind, i)| + OwnedBy(handles, h)[Token(kind, i)]
              == |Holders(handles, kind, i)| + Owned(v)[Token(kind, i)]
  {
    var others := Holders(handles, kind, i) - {h};
    assert Holders(handles, kind, i) ==
      if h in handles && handles[h] == Var(kind, i, true) then others + {h} else others;
    assert Holders(handles[h := v], kind, i) == if v == Var(kind, i, true) then others + {h} else others;
  }

  lemma {:induction false} Forget(w: World, loose: multiset<Token>, h: nat)
    requires Balanced(w, loose) && h in w.handles && !w.handles[h].owned
    ensures Balanced(w.(handles := w.handles - {h}), loose)
  {
    var w' := w.(handles := w.handles - {h});
    forall k, j: nat | j < Size(w', k) ensures SlotBalanced(w', loose, k, j) {
      assert SlotBalanced(w, loose, k, j);
      assert Holders(w'.handles, k, j) == Holders(w.handles, k, j);
    }
  }

  // ---------------------------------------------------------------- insertion

  lemma {:induction false} HeldInBounds(blocks: seq<Slot<seq<nat>>>, n: nat)
    requires forall b, k :: 0 <= b < |blocks| && blocks[b].resource.Some? && 0 <= k < |blocks[b].resource.value| ==>
               blocks[b].resource.value[k] < n
    ensures Held(blocks, n) == 0
    decreases |blocks|
  {
    if blocks != [] {
      var last := blocks[|blocks| - 1];
      HeldInBounds(blocks[..|blocks| - 1], n);
      assert last.resource.Some? ==> n !in last.resource.value;
    }
  }

  lemma {:induction false} InsertTextureBalances(w: World, contents: int)
    requires Balanced(w, multiset{})
    ensures Balanced(w.(textures := InsertSlot(w.textures, contents)), multiset{Token(Texture, |w.textures|)})
  {
    var n := |w.textures|;
    var w' := w.(textures := InsertSlot(w.textures, contents));
    var loose := multiset{Token(Texture, n)};
    HeldInBounds(w.blocks, n);
    assert Holders(w.handles, Texture, n) == {};
    forall k, j: nat | j < Size(w', k) ensures SlotBalanced(w', loose, k, j) {
      if j < Size(w, k) { assert SlotBalanced(w, multiset{}, k, j); }
    }
  }

  lemma {:induction false} AcquireAllBalances(w: World, loose: multiset<Token>, held: seq<nat>)
    requires Balanced(w, loose)
    requires forall k :: 0 <= k < |held| ==>
               && held[k] < |w.textures| && w.textures[held[k]].resource.Some?
               && w.textures[held[k]].refCount + |held| < UINT32_RANGE
    ensures Balanced(w.(textures := AcquireAll(w.textures, held)), loose + Tokens(held))
    ensures |AcquireAll(w.textures, held)| == |w.textures|
    decreases |held|
  {
    if held == [] {
      assert loose + Tokens(held) == loose;
      assert w.(textures := AcquireAll(w.textures, held)) == w;
    } else {
      var t := Token(Texture, held[0]);
      AddRefBalances(w, loose, Texture, held[0]);
      var w1 := AddRef(w, Texture, held[0]);
      AcquireAllBalances(w1, loose + multiset{t}, held[1..]);
      assert loose + multiset{t} + Tokens(held[1..]) == loose + Tokens(held);
      assert w1.(textures := AcquireAll(w1.textures, held[1..])) == w.(textures := AcquireAll(w.textures, held));
    }
  }

  lemma {:induction false} InsertBlockBalances(w: World, held: seq<nat>)
    requires Balanced(w, Tokens(held)) && forall k :: 0 <= k < |held| ==> held[k] < |w.textures|
    ensures Balanced(w.(blocks := InsertSlot(w.blocks, held)), multiset{Token(Block, |w.blocks|)})
  {
    var n := |w.blocks|;
    var w' := w.(blocks := InsertSlot(w.blocks, held));
    var loose := multiset{Token(Block, n)};
    assert w'.blocks[..n] == w.blocks;
    assert Holders(w.handles, Block, n) == {};
    forall k, j: nat | j < Size(w', k) ensures SlotBalanced(w', loose, k, j) {
      if j < Size(w, k) { assert SlotBalanced(w, Tokens(held), k, j); }
      TokensCount(held, Token(k, j));
    }
  }

  // ---------------------------------------------------------------- steps

  ghost predicate Inv(w: World) {
    Balanced(w, multiset{})
  }

  /** An owned handle's resource is there. */
  lemma {:induction false} OwnedIsLive(w: World, h: nat)
    requires Inv(w) && h in w.handles && w.handles[h].owned
    ensures w.handles[h].index < Size(w, w.handles[h].kind) && Live(w, w.handles[h].kind, w.handles[h].index)
  {
    var v := w.handles[h];
    assert SlotBalanced(w, multiset{}, v.kind, v.index);
    assert h in Holders(w.handles, v.kind, v.index);
  }

  lemma {:induction false} ReleaseBalances(w: World, loose: multiset<Token>, h: nat)
    requires Balanced(w, loose) && h in w.handles
    ensures Balanced(Release(w, w.handles[h]).(handles := w.handles[h := w.handles[h].(owned := false)]), loose)
  {
    var v := w.handles[h];
    var gone := v.(owned := false);
    Rebind(w, loose, h, gone, loose + Owned(v));
    var w1 := w.(handles := w.handles[h := gone]);
    if v.owned {
      DecRefBalances(w1, loose + Owned(v), v.kind, v.index);
      assert loose + Owned(v) - multiset{Token(v.kind, v.index)} == loose;
    } else {
      assert loose + Owned(v) == loose;
    }
  }

  lemma {:induction false} InsertKeepsInv(w: World, step: Step)
    requires Inv(w) && Enabled(w, step) && (step.InsertTexture? || step.InsertBlock?)
    ensures Inv(Next(w, step))
  {
    var empty: multiset<Token> := multiset{};
    if step.InsertTexture? {
      var v := Var(Texture, |w.textures|, true);
      InsertTextureBalances(w, step.contents);
      Rebind(w.(textures := InsertSlot(w.textures, step.contents)), Owned(v), step.h, v, empty);
    } else {
      var sources := step.sources;
      var held := HeldFrom(w, sources);
      forall k | 0 <= k < |held| ensures held[k] < |w.textures| && w.textures[held[k]].resource.Some? {
        assert Owns(w, sources[k], Texture);
        OwnedIsLive(w, sources[k]);
      }
      AcquireAllBalances(w, empty, held);
      assert empty + Tokens(held) == Tokens(held);
      var w1 := w.(textures := AcquireAll(w.textures, held));
      InsertBlockBalances(w1, held);
      var v := Var(Block, |w.blocks|, true);
      Rebind(w1.(blocks := InsertSlot(w.blocks, held)), Owned(v), step.h, v, empty);
    }
  }

  lemma {:induction false} CopyKeepsInv(w: World, h: nat, other: nat)
    requires Inv(w) && Enabled(w, Copy(h, other))
    ensures Inv(Next(w, Copy(h, other)))
  {
    var v := w.handles[other];
    var empty: multiset<Token> := multiset{};
    OwnedIsLive(w, other);
    AddRefBalances(w, empty, v.kind, v.index);
    assert empty + multiset{Token(v.kind, v.index)} == Owned(v);
    Rebind(AddRef(w, v.kind, v.index), Owned(v), h, v, empty);
  }

  lemma {:induction false} MoveKeepsInv(w: World, h: nat, other: nat)
    requires Inv(w) && Enabled(w, Move(h, other))
    ensures Inv(Next(w, Move(h, other)))
  {
    var v := w.handles[other];
    var gone := v.(owned := false);
    var empty: multiset<Token> := multiset{};
    Rebind(w, empty, other, gone, Owned(v));
    Rebind(w.(handles := w.handles[other := gone]), Owned(v), h, v, empty);
    assert w.handles[other := gone][h := v] == w.handles[h := v][other := gone];
  }

  lemma {:induction false} CopyAssignKeepsInv(w: World, h: nat, other: nat)
    requires Inv(w) && Enabled(w, CopyAssign(h, other))
    ensures Inv(Next(w, CopyAssign(h, other)))
  {
    var v := w.handles[other];
    var empty: multiset<Token> := multiset{};
    OwnedIsLive(w, other);
    AddRefBalances(w, empty, v.kind, v.index);
    assert empty + multiset{Token(v.kind, v.index)} == Owned(v);
    var w1 := AddRef(w, v.kind, v.index);
    ReleaseBalances(w1, Owned(v), h);
    var w2 := Release(w1, w.handles[h]).(handles := w.handles[h := w.handles[h].(owned := false)]);
    Rebind(w2, Owned(v), h, v, empty);
    assert w2.handles[h := v] == w.handles[h := v];
  }

  lemma {:induction false} MoveAssignKeepsInv(w: World, h: nat, other: nat)
    requires Inv(w) && Enabled(w, MoveAssign(h, other))
    ensures Inv(Next(w, MoveAssign(h, other)))
  {
    if h != other {
      var v := w.handles[other];
      var gone := v.(owned := false);
      var empty: multiset<Token> := multiset{};
      ReleaseBalances(w, empty, h);
      var w1 := Release(w, w.handles[h]).(handles := w.handles[h := w.handles[h].(owned := false)]);
      Rebind(w1, empty, other, gone, Owned(v));
      var w2 := w1.(handles := w1.handles[other := gone]);
      Rebind(w2, Owned(v), h, v, empty);
      assert w2.handles[h := v] == w.handles[h := v][other := gone];
    }
  }

  lemma {:induction false} DestroyKeepsInv(w: World, h: nat)
    requires Inv(w) && Enabled(w, Destroy(h))
    ensures Inv(Next(w, Destroy(h)))
  {
    var empty: multiset<Token> := multiset{};
    ReleaseBalances(w, empty, h);
    var w1 := Release(w, w.handles[h]).(handles := w.handles[h := w.handles[h].(owned := false)]);
    Forget(w1, empty, h);
    assert w1.handles - {h} == w.handles - {h};
  }

  lemma {:induction false} StepKeepsInv(w: World, step: Step)
    requires Inv(w) && Enabled(w, step)
    ensures Inv(Next(w, step))
  {
    match step
    case InsertTexture(_, _) => InsertKeepsInv(w, step);
    case InsertBlock(_, _) => InsertKeepsInv(w, step);
    case Copy(h, other) => CopyKeepsInv(w, h, other);
    case Move(h, other) => MoveKeepsInv(w, h, other);
    case CopyAssign(h, other) => CopyAssignKeepsInv(w, h, other);
    case MoveAssign(h, other) => MoveAssignKeepsInv(w, h, other);
    case Destroy(h) => DestroyKeepsInv(w, h);
  }

  lemma {:induction false} ReachedKeepsInv(w: World, steps: seq<Step>, w': World)
    requires Inv(w) && Reaches(w, steps, w')
    ensures Inv(w')
    decreases |steps|
  {
    if steps != [] {
      StepKeepsInv(w, steps[0]);
      ReachedKeepsInv(Next(w, steps[0]), steps[1..], w');
    }
  }

  /**
    Reference counting, over every sequence of operations: a resource is there exactly as long as something
    owns it, its count is then the number of its owners, and a released slot is left with a count of one.
   */
  lemma CountsAreOwners(steps: seq<Step>, w: World, kind: Kind, i: nat)
    requires Reaches(World([], [], map[]), steps, w) && i < Size(w, kind)
    ensures Live(w, kind, i) <==> Owners(w, kind, i) > 0
    ensures CountOf(w, kind, i) == if Live(w, kind, i) then Owners(w, kind, i) else 1
  {
    var start := World([], [], map[]);
    assert Balanced(start, multiset{});
    ReachedKeepsInv(start, steps, w);
    assert SlotBalanced(w, multiset{}, kind, i);
  }

  // ---------------------------------------------------------------- slots over time

  /** `w'` has the slots of `w`, those that were dead still dead, those alive with the same resource or reset. */
  ghost predicate SlotsAge(w: World, w': World) {
    && |w.textures| <= |w'.textures| && |w.blocks| <= |w'.blocks|
    && (forall i :: 0 <= i < |w.textures| ==>
        w'.textures[i].resource == w.textures[i].resource || w'.textures[i].resource.None?)
    && (forall i :: 0 <= i < |w.blocks| ==>
        w'.blocks[i].resource == w.blocks[i].resource || w'.blocks[i].resource.None?)
  }

  lemma {:induction false} ReleaseAllAges(textures: seq<Slot<int>>, held: seq<nat>)
    requires forall k :: 0 <= k < |held| ==> held[k] < |textures|
    ensures |ReleaseAll(textures, held)| == |textures|
    ensures forall i :: 0 <= i < |textures| ==>
              || ReleaseAll(textures, held)[i].resource == textures[i].resource
              || ReleaseAll(textures, held)[i].resource.None?
    decreases |held|
  {
    if held != [] { ReleaseAllAges(DecRefSlot(textures, held[0]), held[1..]); }
  }

  lemma {:induction false} AcquireAllAges(textures: seq<Slot<int>>, held: seq<nat>)
    requires forall k :: 0 <= k < |held| ==> held[k] < |textures|
    ensures |AcquireAll(textures, held)| == |textures|
    ensures forall i :: 0 <= i < |textures| ==> AcquireAll(textures, held)[i].resource == textures[i].resource
    decreases |held|
  {
    if held != [] { AcquireAllAges(AddRefSlot(textures, held[0]), held[1..]); }
  }

  lemma {:induction false} ReleaseAges(w: World, v: Var)
    requires HeldInRange(w) && (v.owned ==> v.index < Size(w, v.kind))
    ensures SlotsAge(w, Release(w, v))
  {
    if v.owned && v.kind.Block? && w.blocks[v.index].resource.Some? {
      ReleaseAllAges(w.textures, w.blocks[v.index].resource.value);
    }
  }

  /** Indices are never reused: no step revives a slot or replaces its resource. */
  lemma {:induction false} StepAges(w: World, step: Step)
    requires HandlesInRange(w) && HeldInRange(w) && Enabled(w, step)
    ensures SlotsAge(w, Next(w, step))
  {
    match step
    case InsertTexture(_, _) =>
    case InsertBlock(_, sources) =>
      AcquireAllAges(w.textures, HeldFrom(w, sources));
    case Copy(_, _) =>
    case Move(_, _) =>
    case CopyAssign(h, other) =>
      var w1 := AddRef(w, w.handles[other].kind, w.handles[other].index);
      ReleaseAges(w1, w.handles[h]);
    case MoveAssign(h, _) => ReleaseAges(w, w.handles[h]);
    case Destroy(h) => ReleaseAges(w, w.handles[h]);
  }

  /** A step resets a resource exactly when it takes the last owner away; a slot once released stays released. */
  lemma ResetExactlyAtLast(w: World, step: Step, kind: Kind, i: nat)
    requires Inv(w) && Enabled(w, step) && i < Size(w, kind)
    ensures i < Size(Next(w, step), kind)
    ensures Live(w, kind, i) && !Live(Next(w, step), kind, i) <==>
              Owners(w, kind, i) > 0 && Owners(Next(w, step), kind, i) == 0
    ensures !Live(w, kind, i) ==> !Live(Next(w, step), kind, i)
  {
    StepKeepsInv(w, step);
    StepAges(w, step);
    assert SlotBalanced(w, multiset{}, kind, i) && SlotBalanced(Next(w, step), multiset{}, kind, i);
  }

  /** Self-assignment, by copy or by move, changes nothing. */
  lemma SelfAssignment(w: World, h: nat)
    requires Inv(w) && h in w.handles
    ensures Next(w, MoveAssign(h, h)) == w
    ensures w.handles[h].owned && Enabled(w, CopyAssign(h, h)) ==> Next(w, CopyAssign(h, h)) == w
  {
    var v := w.handles[h];
    if v.owned && Enabled(w, CopyAssign(h, h)) {
      OwnedIsLive(w, h);
      assert SlotBalanced(w, multiset{}, v.kind, v.index);
      assert w.handles[h := v] == w.handles;
      if v.kind.Texture? {
        DecRefCounts(AddRefSlot(w.textures, v.index), v.index);
      } else {
        DecRefCounts(AddRefSlot(w.blocks, v.index), v.index);
      }
    }
  }

  // ---------------------------------------------------------------- what a block holds

  /** How many of the sources are handles of texture `i`. */
  ghost function Among(w: World, sources: seq<nat>, i: nat): set<nat> {
    set k | 0 <= k < |sources| && sources[k] in w.handles && w.handles[sources[k]].index == i
  }

  lemma {:induction false} AmongCounts(w: World, sources: seq<nat>, i: nat)
    requires forall k :: 0 <= k < |sources| ==> sources[k] in w.handles
    ensures multiset(HeldFrom(w, sources))[i] == |Among(w, sources, i)|
  {
    if sources != [] {
      var n := |sources| - 1;
      AmongCounts(w, sources[..n], i);
      var last := w.handles[sources[n]].index;
      assert HeldFrom(w, sources) == HeldFrom(w, sources[..n]) + [last];
      assert multiset(HeldFrom(w, sources)) == multiset(HeldFrom(w, sources[..n])) + multiset{last};
      assert Among(w, sources, i) == if last == i then Among(w, sources[..n], i) + {n} else Among(w, sources[..n], i);
    }
  }

  /** A new block owns a reference to a texture for each handle of it that it is given, and changes no other owner. */
  lemma {:induction false} InsertBlockOwns(w: World, h: nat, sources: seq<nat>, i: nat)
    requires Inv(w) && Enabled(w, InsertBlock(h, sources)) && i < |w.textures|
    ensures var w' := Next(w, InsertBlock(h, sources));
            && |w'.textures| == |w.textures| && |w'.blocks| == |w.blocks| + 1
            && w'.handles == w.handles[h := Var(Block, |w.blocks|, true)]
            && Owners(w', Texture, i) == Owners(w, Texture, i) + |Among(w, sources, i)|
  {
    var w' := Next(w, InsertBlock(h, sources));
    var held := HeldFrom(w, sources);
    AmongCounts(w, sources, i);
    assert w'.blocks == w.blocks + [Slot(1, Some(held))];
    assert w'.blocks[..|w.blocks|] == w.blocks;
    AcquireAllAges(w.textures, held);
    assert Holders(w'.handles, Texture, i) == Holders(w.handles, Texture, i);
  }

  lemma {:induction false} HeldByLive(blocks: seq<Slot<seq<nat>>>, b: nat, i: nat)
    requires b < |blocks| && blocks[b].resource.Some? && i in blocks[b].resource.value
    ensures Held(blocks, i) > 0
  {
    var n := |blocks| - 1;
    if b < n { HeldByLive(blocks[..n], b, i); }
  }

  lemma {:induction false} SlotsAgeOver(w: World, steps: seq<Step>, w': World)
    requires Inv(w) && Reaches(w, steps, w')
    ensures SlotsAge(w, w')
    decreases |steps|
  {
    if steps != [] {
      StepKeepsInv(w, steps[0]);
      StepAges(w, steps[0]);
      SlotsAgeOver(Next(w, steps[0]), steps[1..], w');
    }
  }

  /** Whatever happens afterwards, the textures a block was given are there, unchanged, as long as the block is. */
  lemma {:induction false} BlockKeepsTextures(
      w: World, h: nat, sources: seq<nat>, steps: seq<Step>, w': World, k: nat)
    requires Inv(w) && Enabled(w, InsertBlock(h, sources)) && Reaches(Next(w, InsertBlock(h, sources)), steps, w')
    requires k < |sources|
    ensures var i := w.handles[sources[k]].index;
            && |w.blocks| < |w'.blocks| && i < |w.textures| <= |w'.textures|
            && (Live(w', Block, |w.blocks|) ==>
                  Live(w', Texture, i) && w'.textures[i].resource == w.textures[i].resource)
  {
    var i, w1 := w.handles[sources[k]].index, Next(w, InsertBlock(h, sources));
    StepKeepsInv(w, InsertBlock(h, sources));
    StepAges(w, InsertBlock(h, sources));
    SlotsAgeOver(w1, steps, w');
    ReachedKeepsInv(w1, steps, w');
    if Live(w', Block, |w.blocks|) {
      assert w1.blocks[|w.blocks|].resource == Some(HeldFrom(w, sources));
      assert HeldFrom(w, sources)[k] == i;
      HeldByLive(w'.blocks, |w.blocks|, i);
      assert SlotBalanced(w', multiset{}, Texture, i);
    }
  }

  // ---------------------------------------------------------------- what a variable names

  /** The variables a step writes to. */
  function Written(step: Step): set<nat> {
    match step
    case InsertTexture(h, _) => {h}
    case InsertBlock(h, _) => {h}
    case Copy(h, _) => {h}
    case Move(h, other) => {h, other}
    case CopyAssign(h, _) => {h}
    case MoveAssign(h, other) => {h, other}
    case Destroy(h) => {h}
  }

  /** Variables a step does not write to keep their slot, and the resource in it. */
  lemma {:induction false} OtherVariablesKeep(w: World, step: Step, h: nat)
    requires Inv(w) && Enabled(w, step) && h !in Written(step) && h in w.handles
    ensures h in Next(w, step).handles && Next(w, step).handles[h] == w.handles[h]
  {
  }

  /** A copy names what its source names, both owning it; a move hands it over. */
  lemma {:induction false} CopyAndMoveName(w: World, h: nat, other: nat, step: Step)
    requires Inv(w) && Enabled(w, step) && h != other
    requires step in {Copy(h, other), Move(h, other), CopyAssign(h, other), MoveAssign(h, other)}
    ensures var handles := Next(w, step).handles;
            && h in handles && other in handles && handles[h] == w.handles[other]
            && handles[other] == if step.Move? || step.MoveAssign? then w.handles[other].(owned := false)
                                 else w.handles[other]
  {
  }

  /** What a texture variable reads, over every continuation that does not write to it, is what was inserted. */
  lemma {:induction false} TextureStays(w: World, h: nat, contents: int, steps: seq<Step>, w': World)
    requires Inv(w) && Enabled(w, InsertTexture(h, contents)) && Reaches(Next(w, InsertTexture(h, contents)), steps, w')
    requires forall k :: 0 <= k < |steps| ==> h !in Written(steps[k])
    ensures h in w'.handles && w'.handles[h] == Var(Texture, |w.textures|, true)
    ensures |w.textures| < |w'.textures| && w'.textures[|w.textures|].resource == Some(contents)
  {
    var w1 := Next(w, InsertTexture(h, contents));
    StepKeepsInv(w, InsertTexture(h, contents));
    VariableStays(w1, h, steps, w');
    SlotsAgeOver(w1, steps, w');
    ReachedKeepsInv(w1, steps, w');
    OwnedIsLive(w', h);
  }

  lemma {:induction false} VariableStays(w: World, h: nat, steps: seq<Step>, w': World)
    requires Inv(w) && h in w.handles && Reaches(w, steps, w')
    requires forall k :: 0 <= k < |steps| ==> h !in Written(steps[k])
    ensures h in w'.handles && w'.handles[h] == w.handles[h]
    decreases |steps|
  {
    if steps != [] {
      assert h !in Written(steps[0]);
      StepKeepsInv(w, steps[0]);
      OtherVariablesKeep(w, steps[0], h);
      VariableStays(Next(w, steps[0]), h, steps[1..], w');
    }
  }
}
