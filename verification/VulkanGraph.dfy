/**
  The graph object of src/Teide/VulkanGraph.h and the passes over it in src/Teide/VulkanGraph.cpp.

  Commands live in five lists, one per kind, and carry the index under which they execute.  BuildGraph and
  RecordCommands walk the lists kind by kind; what they produce is proved to depend on the indices alone.
 */
module VulkanGraphs {
  import opened Wrappers
  import opened RenderGraph

  datatype WriteNode = WriteNode(index: nat, source: Ref, target: Ref)
  datatype ReadNode = ReadNode(index: nat, source: Ref, expired: bool)
  datatype RenderObject = RenderObject(objectTextures: seq<nat>, materialTextures: seq<nat>)

  /** `dependencies` and, among them, those its materials bind are found by BuildGraph. */
  datatype RenderNode = RenderNode(
    index: nat, viewTextures: seq<nat>, objects: seq<RenderObject>,
    colorTarget: Option<Ref>, depthStencilTarget: Option<Ref>, dependencies: seq<Ref>, sampled: seq<Ref>)

  datatype DispatchNode = DispatchNode(index: nat, dependencies: seq<Ref>, outputs: seq<Ref>)
  datatype PresentNode = PresentNode(index: nat, source: Ref)
  datatype TextureNode = TextureNode(image: Image, stateChanges: seq<StateChange>)

  /** A command buffer: its contents, and how often it has been recorded. */
  datatype CommandBuffer = CommandBuffer(ops: seq<Op>, times: nat)

  datatype CommandRef =
    | WriteRef(i: nat)
    | ReadRef(i: nat)
    | RenderRef(i: nat)
    | DispatchRef(i: nat)
    | PresentRef(i: nat)

  datatype Lists = Lists(
    writes: seq<WriteNode>, readBacks: seq<ReadNode>, renders: seq<RenderNode>,
    dispatches: seq<DispatchNode>, presents: seq<PresentNode>)

  predicate InLists(l: Lists, ref: CommandRef) {
    match ref
    case WriteRef(i) => i < |l.writes|
    case ReadRef(i) => i < |l.readBacks|
    case RenderRef(i) => i < |l.renders|
    case DispatchRef(i) => i < |l.dispatches|
    case PresentRef(i) => i < |l.presents|
  }

  function IndexOf(l: Lists, ref: CommandRef): nat
    requires InLists(l, ref)
  {
    match ref
    case WriteRef(i) => l.writes[i].index
    case ReadRef(i) => l.readBacks[i].index
    case RenderRef(i) => l.renders[i].index
    case DispatchRef(i) => l.dispatches[i].index
    case PresentRef(i) => l.presents[i].index
  }

  function RenderOf(node: RenderNode): Command {
    Render(node.dependencies, node.sampled, node.colorTarget, node.depthStencilTarget)
  }

  function CommandOf(l: Lists, ref: CommandRef): Command
    requires InLists(l, ref)
  {
    match ref
    case WriteRef(i) => Write(l.writes[i].target)
    case ReadRef(i) => Read(l.readBacks[i].source, l.readBacks[i].expired)
    case RenderRef(i) => RenderOf(l.renders[i])
    case DispatchRef(i) => Dispatch(l.dispatches[i].dependencies, l.dispatches[i].outputs)
    case PresentRef(i) => Present(l.presents[i].source)
  }

  /** The indices of all nodes are a permutation of 0..|order|-1, and `order` is its inverse. */
  ghost predicate Indexed(l: Lists, order: seq<CommandRef>) {
    && (forall i :: 0 <= i < |order| ==> InLists(l, order[i]) && IndexOf(l, order[i]) == i)
    && (forall ref :: InLists(l, ref) ==> IndexOf(l, ref) < |order| && order[IndexOf(l, ref)] == ref)
  }

  function CommandsOf(l: Lists, order: seq<CommandRef>): seq<Command>
    requires forall i :: 0 <= i < |order| ==> InLists(l, order[i])
  {
    seq(|order|, i requires 0 <= i < |order| => CommandOf(l, order[i]))
  }

  /** `l'` is `l` with one more node, `ref`. */
  ghost predicate Extends(l: Lists, l': Lists, ref: CommandRef) {
    && InLists(l', ref) && !InLists(l, ref)
    && (forall r :: InLists(l', r) && r != ref ==> InLists(l, r))
    && (forall r :: InLists(l, r) ==>
        InLists(l', r) && IndexOf(l', r) == IndexOf(l, r) && CommandOf(l', r) == CommandOf(l, r))
  }

  /** A node added under the next free index keeps the numbering a permutation and appends its command. */
  lemma {:induction false} ExtendsIndexed(l: Lists, l': Lists, order: seq<CommandRef>, ref: CommandRef)
    requires Indexed(l, order) && Extends(l, l', ref) && IndexOf(l', ref) == |order|
    ensures Indexed(l', order + [ref])
    ensures CommandsOf(l', order + [ref]) == CommandsOf(l, order) + [CommandOf(l', ref)]
  {
  }

  /** FindTexture: the first texture node of the given texture. */
  function Find(images: seq<Image>, texture: nat, from: nat): Option<nat>
    requires from <= |images|
    decreases |images| - from
  {
    if from == |images| then None
    else if images[from].texture == texture then Some(from)
    else Find(images, texture, from + 1)
  }

  function Resolve(images: seq<Image>, textures: seq<nat>): seq<Ref> {
    if textures == [] then []
    else
      var n := |textures| - 1;
      var found := Find(images, textures[n], 0);
      Resolve(images, textures[..n]) + if found.Some? then [TextureRef(found.value)] else []
  }

  function ResolveObjects(images: seq<Image>, objects: seq<RenderObject>): seq<Ref> {
    if objects == [] then []
    else
      var n := |objects| - 1;
      ResolveObjects(images, objects[..n])
      + Resolve(images, objects[n].objectTextures) + Resolve(images, objects[n].materialTextures)
  }

  lemma {:induction false} ResolveObjectsStep(images: seq<Image>, objects: seq<RenderObject>, k: nat, start: seq<Ref>)
    requires k < |objects|
    ensures start + ResolveObjects(images, objects[..k + 1]) ==
            (start + ResolveObjects(images, objects[..k])) + Resolve(images, objects[k].objectTextures)
            + Resolve(images, objects[k].materialTextures)
  {
    assert objects[..k + 1][..k] == objects[..k];
    var a, b, c :=
        ResolveObjects(images, objects[..k]), Resolve(images, objects[k].objectTextures),
            Resolve(images, objects[k].materialTextures);
    assert ResolveObjects(images, objects[..k + 1]) == a + b + c;
    assert start + (a + b + c) == (start + a) + b + c;
  }

  function Dependencies(images: seq<Image>, node: RenderNode): seq<Ref> {
    node.dependencies + Resolve(images, node.viewTextures) + ResolveObjects(images, node.objects)
  }

  /** The textures bound through materials. */
  function MaterialRefs(images: seq<Image>, objects: seq<RenderObject>): seq<Ref> {
    if objects == [] then []
    else
      var n := |objects| - 1;
      MaterialRefs(images, objects[..n]) + Resolve(images, objects[n].materialTextures)
  }

  function FoundFor(images: seq<Image>, node: RenderNode): RenderNode {
    node.(dependencies := Dependencies(images, node), sampled := MaterialRefs(images, node.objects))
  }

  /** The lists with the dependencies of every render node found. */
  function Resolved(images: seq<Image>, l: Lists): Lists {
    l.(renders := seq(|l.renders|, j requires 0 <= j < |l.renders| => FoundFor(images, l.renders[j])))
  }

  // ---------------------------------------------------------------- what a render node was given

  /** `t` is the first node of the texture. */
  ghost predicate FirstNode(images: seq<Image>, texture: nat, t: nat) {
    t < |images| && images[t].texture == texture && forall s :: 0 <= s < t ==> images[s].texture != texture
  }

  ghost predicate BoundBy(objects: seq<RenderObject>, texture: nat) {
    exists k :: 0 <= k < |objects| && texture in objects[k].materialTextures
  }

  ghost predicate NamedBy(viewTextures: seq<nat>, objects: seq<RenderObject>, texture: nat) {
    || texture in viewTextures
    || (exists k :: 0 <= k < |objects| && texture in objects[k].objectTextures)
    || BoundBy(objects, texture)
  }

  /** Every texture named, as often as it is named. */
  function Listed(viewTextures: seq<nat>, objects: seq<RenderObject>): multiset<nat> {
    if objects == [] then multiset(viewTextures)
    else
      var last := objects[|objects| - 1];
      Listed(viewTextures, objects[..|objects| - 1]) + multiset(last.objectTextures) + multiset(last.materialTextures)
  }

  /**
    `c` is the pass of a render node with these arguments: it depends on the first nodes of the textures named,
    once for each time they are named, and samples those of the textures that materials bind.
   */
  ghost predicate PassOf(
      images: seq<Image>, viewTextures: seq<nat>, objects: seq<RenderObject>, colorTarget: Option<Ref>,
      depthStencilTarget: Option<Ref>, c: Command) {
    && c.Render? && c.color == colorTarget && c.depth == depthStencilTarget
    && OnlyTextures(c.dependencies) && OnlyTextures(c.sampled)
    && DependsOnNamed(images, viewTextures, objects, c.dependencies)
    && SamplesBound(images, objects, c.sampled)
    && CountsNamed(images, viewTextures, objects, c.dependencies)
  }

  ghost predicate OnlyTextures(refs: seq<Ref>) {
    forall r :: r in refs ==> r.TextureRef?
  }

  ghost predicate DependsOnNamed(
      images: seq<Image>, viewTextures: seq<nat>, objects: seq<RenderObject>, dependencies: seq<Ref>) {
    forall t: nat :: TextureRef(t) in dependencies <==>
      exists x :: NamedBy(viewTextures, objects, x) && FirstNode(images, x, t)
  }

  ghost predicate SamplesBound(images: seq<Image>, objects: seq<RenderObject>, sampled: seq<Ref>) {
    forall t: nat :: TextureRef(t) in sampled <==> exists x :: BoundBy(objects, x) && FirstNode(images, x, t)
  }

  ghost predicate CountsNamed(
      images: seq<Image>, viewTextures: seq<nat>, objects: seq<RenderObject>, dependencies: seq<Ref>) {
    forall t: nat, x: nat :: FirstNode(images, x, t) ==>
      multiset(dependencies)[TextureRef(t)] == Listed(viewTextures, objects)[x]
  }

  lemma {:induction false} FindIsFirst(images: seq<Image>, texture: nat, from: nat, t: nat)
    requires from <= |images| && forall s :: 0 <= s < from ==> images[s].texture != texture
    ensures Find(images, texture, from) == Some(t) <==> FirstNode(images, texture, t)
    decreases |images| - from
  {
    if from < |images| && images[from].texture != texture {
      FindIsFirst(images, texture, from + 1, t);
    }
  }

  /** A node is listed as often as its texture, if it is the first node of it. */
  lemma {:induction false} ResolveCounts(images: seq<Image>, textures: seq<nat>, x: nat, t: nat)
    requires FirstNode(images, x, t)
    ensures multiset(Resolve(images, textures))[TextureRef(t)] == multiset(textures)[x]
  {
    if textures != [] {
      var n := |textures| - 1;
      ResolveCounts(images, textures[..n], x, t);
      FindIsFirst(images, textures[n], 0, t);
      var last := Find(images, textures[n], 0);
      var found := if last.Some? then [TextureRef(last.value)] else [];
      assert textures == textures[..n] + [textures[n]];
      assert multiset(Resolve(images, textures)) == multiset(Resolve(images, textures[..n])) + multiset(found);
    }
  }

  lemma {:induction false} ResolveNames(images: seq<Image>, textures: seq<nat>, r: Ref)
    ensures r in Resolve(images, textures) <==>
            r.TextureRef? && exists x :: x in textures && FirstNode(images, x, r.index)
  {
    if textures != [] {
      var n := |textures| - 1;
      ResolveNames(images, textures[..n], r);
      assert textures == textures[..n] + [textures[n]];
      if r.TextureRef? { FindIsFirst(images, textures[n], 0, r.index); }
    }
  }

  lemma {:induction false} MaterialsNamed(images: seq<Image>, objects: seq<RenderObject>, r: Ref)
    ensures r in MaterialRefs(images, objects) <==>
            r.TextureRef? && exists x :: BoundBy(objects, x) && FirstNode(images, x, r.index)
  {
    if objects != [] {
      var n := |objects| - 1;
      MaterialsNamed(images, objects[..n], r);
      ResolveNames(images, objects[n].materialTextures, r);
      forall x ensures BoundBy(objects, x) <==> BoundBy(objects[..n], x) || x in objects[n].materialTextures {
        BoundByLast(objects, x);
      }
    }
  }

  lemma {:induction false} BoundByLast(objects: seq<RenderObject>, x: nat)
    requires objects != []
    ensures BoundBy(objects, x) <==>
              BoundBy(objects[..|objects| - 1], x) || x in objects[|objects| - 1].materialTextures
  {
    var n := |objects| - 1;
    if BoundBy(objects[..n], x) {
      var k :| 0 <= k < n && x in objects[..n][k].materialTextures;
      assert x in objects[k].materialTextures;
    }
    if BoundBy(objects, x) && x !in objects[n].materialTextures {
      var k :| 0 <= k < |objects| && x in objects[k].materialTextures;
      assert x in objects[..n][k].materialTextures;
    }
  }

  lemma {:induction false} ListedIffNamed(viewTextures: seq<nat>, objects: seq<RenderObject>, x: nat)
    ensures x in Listed(viewTextures, objects) <==> NamedBy(viewTextures, objects, x)
  {
    if objects != [] {
      var n := |objects| - 1;
      var before, last := objects[..n], objects[n];
      ListedIffNamed(viewTextures, before, x);
      BoundByLast(objects, x);
      if exists k :: 0 <= k < |before| && x in before[k].objectTextures {
        var k :| 0 <= k < |before| && x in before[k].objectTextures;
        assert x in objects[k].objectTextures;
      }
      if (exists k :: 0 <= k < |objects| && x in objects[k].objectTextures) && x !in last.objectTextures {
        var k :| 0 <= k < |objects| && x in objects[k].objectTextures;
        assert x in before[k].objectTextures;
      }
    }
  }

  lemma {:induction false} ObjectsCounted(
      images: seq<Image>, viewTextures: seq<nat>, objects: seq<RenderObject>, x: nat, t: nat)
    requires FirstNode(images, x, t)
    ensures multiset(Resolve(images, viewTextures))[TextureRef(t)] +
              multiset(ResolveObjects(images, objects))[TextureRef(t)] ==
            Listed(viewTextures, objects)[x]
  {
    if objects == [] {
      ResolveCounts(images, viewTextures, x, t);
    } else {
      var n := |objects| - 1;
      ObjectsCounted(images, viewTextures, objects[..n], x, t);
      ResolveCounts(images, objects[n].objectTextures, x, t);
      ResolveCounts(images, objects[n].materialTextures, x, t);
      var a, b, c :=
        ResolveObjects(images, objects[..n]), Resolve(images, objects[n].objectTextures),
        Resolve(images, objects[n].materialTextures);
      assert multiset(a + b + c) == multiset(a) + multiset(b) + multiset(c);
    }
  }

  lemma {:induction false} ObjectsResolveToNodes(images: seq<Image>, objects: seq<RenderObject>, r: Ref)
    requires r in ResolveObjects(images, objects)
    ensures r.TextureRef? && r.index < |images| && FirstNode(images, images[r.index].texture, r.index)
  {
    var n := |objects| - 1;
    if r in ResolveObjects(images, objects[..n]) {
      ObjectsResolveToNodes(images, objects[..n], r);
    } else {
      ResolveNames(images, objects[n].objectTextures, r);
      ResolveNames(images, objects[n].materialTextures, r);
    }
  }

  /** A texture's first node is depended on as often as the texture is listed. */
  lemma {:induction false} NameCounted(images: seq<Image>, node: RenderNode, x: nat, t: nat)
    requires node.dependencies == [] && FirstNode(images, x, t)
    ensures multiset(Dependencies(images, node))[TextureRef(t)] == Listed(node.viewTextures, node.objects)[x]
  {
    ObjectsCounted(images, node.viewTextures, node.objects, x, t);
    CountBoth(node.dependencies, Resolve(images, node.viewTextures), ResolveObjects(images, node.objects),
              TextureRef(t));
  }

  lemma {:induction false} CountBoth(none: seq<Ref>, a: seq<Ref>, b: seq<Ref>, r: Ref)
    requires none == []
    ensures multiset(none + a + b)[r] == multiset(a)[r] + multiset(b)[r]
  {
    assert none + a == a;
    assert multiset(a + b) == multiset(a) + multiset(b);
  }

  lemma {:induction false} DependencyIsNode(images: seq<Image>, node: RenderNode, r: Ref) returns (x: nat)
    requires node.dependencies == [] && r in Dependencies(images, node) && r.TextureRef?
    ensures FirstNode(images, x, r.index)
  {
    var view, objects := Resolve(images, node.viewTextures), ResolveObjects(images, node.objects);
    assert Dependencies(images, node) == view + objects;
    if r in view {
      ResolveNames(images, node.viewTextures, r);
      x :| x in node.viewTextures && FirstNode(images, x, r.index);
    } else {
      ObjectsResolveToNodes(images, node.objects, r);
      x := images[r.index].texture;
    }
  }

  lemma {:induction false} DependsIffNamed(images: seq<Image>, node: RenderNode, t: nat)
    requires node.dependencies == []
    ensures TextureRef(t) in Dependencies(images, node) <==>
            exists x :: NamedBy(node.viewTextures, node.objects, x) && FirstNode(images, x, t)
  {
    var r, all := TextureRef(t), Dependencies(images, node);
    assert r in all <==> multiset(all)[r] > 0;
    if r in all {
      var x := DependencyIsNode(images, node, r);
      NameCounted(images, node, x, t);
      ListedIffNamed(node.viewTextures, node.objects, x);
    }
    if exists x :: NamedBy(node.viewTextures, node.objects, x) && FirstNode(images, x, t) {
      var x :| NamedBy(node.viewTextures, node.objects, x) && FirstNode(images, x, t);
      NameCounted(images, node, x, t);
      ListedIffNamed(node.viewTextures, node.objects, x);
    }
  }

  /** What BuildGraph makes of a render node is the pass of the arguments the node holds. */
  lemma {:induction false} FoundIsPass(images: seq<Image>, node: RenderNode)
    requires node.dependencies == []
    ensures PassOf(images, node.viewTextures, node.objects, node.colorTarget, node.depthStencilTarget,
                   RenderOf(FoundFor(images, node)))
  {
    DependenciesInRange(images, node);
    MaterialsSampled(images, node.objects);
    forall t: nat
      ensures TextureRef(t) in Dependencies(images, node) <==>
                exists x :: NamedBy(node.viewTextures, node.objects, x) && FirstNode(images, x, t)
    {
      DependsIffNamed(images, node, t);
    }
    NamesCounted(images, node);
  }

  lemma {:induction false} MaterialsSampled(images: seq<Image>, objects: seq<RenderObject>)
    ensures OnlyTextures(MaterialRefs(images, objects)) && SamplesBound(images, objects, MaterialRefs(images, objects))
  {
    forall r ensures r in MaterialRefs(images, objects) <==>
                       r.TextureRef? && exists x :: BoundBy(objects, x) && FirstNode(images, x, r.index)
    {
      MaterialsNamed(images, objects, r);
    }
  }

  lemma {:induction false} NamesCounted(images: seq<Image>, node: RenderNode)
    requires node.dependencies == []
    ensures CountsNamed(images, node.viewTextures, node.objects, Dependencies(images, node))
  {
    forall t: nat, x: nat | FirstNode(images, x, t)
      ensures multiset(Dependencies(images, node))[TextureRef(t)] == Listed(node.viewTextures, node.objects)[x]
    {
      NameCounted(images, node, x, t);
    }
  }

  lemma {:induction false} MaterialRefsStep(images: seq<Image>, objects: seq<RenderObject>, k: nat)
    requires k < |objects|
    ensures MaterialRefs(images, objects[..k + 1]) ==
            MaterialRefs(images, objects[..k]) + Resolve(images, objects[k].materialTextures)
  {
    assert objects[..k + 1][..k] == objects[..k];
  }

  /** How many nodes of each list have been visited. */
  datatype Progress = Progress(writes: nat, readBacks: nat, renders: nat, dispatches: nat, presents: nat)

  predicate Done(ref: CommandRef, p: Progress) {
    match ref
    case WriteRef(i) => i < p.writes
    case ReadRef(i) => i < p.readBacks
    case RenderRef(i) => i < p.renders
    case DispatchRef(i) => i < p.dispatches
    case PresentRef(i) => i < p.presents
  }

  /** Rows of visited commands are complete, the others empty. */
  ghost predicate RowsAre(
      rows: seq<seq<seq<StateChange>>>, commands: seq<Command>, order: seq<CommandRef>, p: Progress) {
    && |commands| == |order|
    && forall t :: 0 <= t < |rows| ==>
         |rows[t]| == |order| &&
         forall i :: 0 <= i < |order| ==> rows[t][i] == if Done(order[i], p) then Entries(commands[i], t, i) else []
  }

  ghost predicate Tabulated(textures: seq<TextureNode>, rows: seq<seq<seq<StateChange>>>, count: nat) {
    && |rows| == |textures|
    && forall t :: 0 <= t < |rows| ==>
         |rows[t]| == count && RowsIndexed(rows[t]) && textures[t].stateChanges == Flatten(rows[t])
  }

  ghost function Images(textures: seq<TextureNode>): seq<Image> {
    seq(|textures|, t requires 0 <= t < |textures| => textures[t].image)
  }

  ghost function PutFront(rows: seq<seq<seq<StateChange>>>, ref: Ref, change: StateChange): seq<seq<seq<StateChange>>>
    requires forall t :: 0 <= t < |rows| ==> change.nodeIndex < |rows[t]|
  {
    if ref.TextureRef? && ref.index < |rows|
    then rows[ref.index := rows[ref.index][change.nodeIndex := [change] + rows[ref.index][change.nodeIndex]]]
    else rows
  }

  lemma {:induction false} ResolvedRefs(images: seq<Image>, textures: seq<nat>, k: nat)
    requires k < |Resolve(images, textures)|
    ensures Resolve(images, textures)[k].TextureRef? && Resolve(images, textures)[k].index < |images|
  {
    var n := |textures| - 1;
    if k < |Resolve(images, textures[..n])| {
      ResolvedRefs(images, textures[..n], k);
    } else {
      FindInRange(images, textures[n], 0);
    }
  }

  lemma {:induction false} FindInRange(images: seq<Image>, texture: nat, from: nat)
    requires from <= |images|
    ensures var r := Find(images, texture, from);
            if r.Some? then from <= r.value < |images| && images[r.value].texture == texture
            else forall t :: from <= t < |images| ==> images[t].texture != texture
    decreases |images| - from
  {
    if from < |images| && images[from].texture != texture {
      FindInRange(images, texture, from + 1);
    }
  }

  lemma {:induction false} ResolvedObjectRefs(images: seq<Image>, objects: seq<RenderObject>, k: nat)
    requires k < |ResolveObjects(images, objects)|
    ensures ResolveObjects(images, objects)[k].TextureRef? && ResolveObjects(images, objects)[k].index < |images|
  {
    var n := |objects| - 1;
    var a, b := ResolveObjects(images, objects[..n]), Resolve(images, objects[n].objectTextures);
    if k < |a| {
      ResolvedObjectRefs(images, objects[..n], k);
    } else if k < |a| + |b| {
      ResolvedRefs(images, objects[n].objectTextures, k - |a|);
    } else {
      ResolvedRefs(images, objects[n].materialTextures, k - |a| - |b|);
    }
  }

  /** What is bound is also depended on. */
  lemma {:induction false} MaterialsAreDependencies(images: seq<Image>, objects: seq<RenderObject>, k: nat)
    requires k < |MaterialRefs(images, objects)|
    ensures MaterialRefs(images, objects)[k] in ResolveObjects(images, objects)
  {
    var n := |objects| - 1;
    var a, b := MaterialRefs(images, objects[..n]), Resolve(images, objects[n].materialTextures);
    if k < |a| {
      MaterialsAreDependencies(images, objects[..n], k);
      assert a[k] in ResolveObjects(images, objects[..n]);
    } else {
      assert b[k - |a|] in b;
    }
  }

  ghost predicate TexturesInRange(refs: seq<Ref>, textures: nat) {
    forall k :: 0 <= k < |refs| ==> refs[k].TextureRef? && refs[k].index < textures
  }

  lemma {:induction false} DependenciesInRange(images: seq<Image>, node: RenderNode)
    requires node.dependencies == []
    ensures TexturesInRange(Dependencies(images, node), |images|)
  {
    var a, b := Resolve(images, node.viewTextures), ResolveObjects(images, node.objects);
    forall k | 0 <= k < |a| + |b|
      ensures Dependencies(images, node)[k].TextureRef? && Dependencies(images, node)[k].index < |images|
    {
      if k < |a| {
        ResolvedRefs(images, node.viewTextures, k);
      } else {
        ResolvedObjectRefs(images, node.objects, k - |a|);
      }
    }
  }

  lemma {:induction false} FoundInRange(images: seq<Image>, node: RenderNode)
    requires node.dependencies == []
    requires node.colorTarget.Some? ==> node.colorTarget.value.TextureRef? && node.colorTarget.value.index < |images|
    requires node.depthStencilTarget.Some? ==>
               node.depthStencilTarget.value.TextureRef? && node.depthStencilTarget.value.index < |images|
    ensures RefsInRange(RenderOf(FoundFor(images, node)), |images|)
  {
    var found := FoundFor(images, node);
    DependenciesInRange(images, node);
    forall k | 0 <= k < |found.sampled|
      ensures found.sampled[k].TextureRef? && found.sampled[k].index < |images|
      ensures found.sampled[k] in found.dependencies
    {
      MaterialsAreDependencies(images, node.objects, k);
      var view, objects := Resolve(images, node.viewTextures), ResolveObjects(images, node.objects);
      var i :| 0 <= i < |objects| && objects[i] == found.sampled[k];
      assert found.dependencies[|view| + i] == objects[i];
      var j :| 0 <= j < |found.dependencies| && found.dependencies[j] == found.sampled[k];
    }
  }

  /** `rows'` differs from `rows` only at index `at`, where it holds what `c` contributes. */
  ghost predicate RowReplaced(
      rows: seq<seq<seq<StateChange>>>, rows': seq<seq<seq<StateChange>>>, at: nat, c: Command) {
    && |rows'| == |rows|
    && forall t :: 0 <= t < |rows| ==>
         && |rows'[t]| == |rows[t]|
         && forall i :: 0 <= i < |rows[t]| ==> rows'[t][i] == if i == at then Entries(c, t, at) else rows[t][i]
  }

  lemma {:induction false} RowsAdvance(
      rows: seq<seq<seq<StateChange>>>, rows': seq<seq<seq<StateChange>>>, l: Lists, order: seq<CommandRef>,
      commands: seq<Command>, ref: CommandRef, p: Progress, p': Progress)
    requires Indexed(l, order) && InLists(l, ref) && RowsAre(rows, commands, order, p)
    requires forall r :: InLists(l, r) ==> (Done(r, p') <==> Done(r, p) || r == ref)
    requires RowReplaced(rows, rows', IndexOf(l, ref), commands[IndexOf(l, ref)])
    ensures RowsAre(rows', commands, order, p')
  {
  }

  /** A row not visited yet is empty. */
  lemma {:induction false} RowEmpty(
      rows: seq<seq<seq<StateChange>>>, l: Lists, order: seq<CommandRef>, commands: seq<Command>, ref: CommandRef,
          p: Progress)
    requires Indexed(l, order) && InLists(l, ref) && RowsAre(rows, commands, order, p) && !Done(ref, p)
    ensures IndexOf(l, ref) < |commands| && order[IndexOf(l, ref)] == ref
    ensures forall t :: 0 <= t < |rows| ==> IndexOf(l, ref) < |rows[t]| && rows[t][IndexOf(l, ref)] == []
  {
  }

  /** A command that names one texture puts one change in its row. */
  lemma {:induction false} SingleRow(
      rows: seq<seq<seq<StateChange>>>, ref: Ref, state: TextureState, i: nat, c: Command)
    requires forall t :: 0 <= t < |rows| ==> i < |rows[t]| && rows[t][i] == []
    requires || (c == Write(ref) && state == COPY_DST)
             || (c.Read? && c.source == ref && state == COPY_SRC)
             || (c == Present(ref) && state == PRESENTED)
    ensures RowReplaced(rows, PutFront(rows, ref, Holds(i, state)), i, c)
  {
    var rows' := PutFront(rows, ref, Holds(i, state));
    forall t | 0 <= t < |rows| ensures |rows'[t]| == |rows[t]| && rows'[t][i] == Entries(c, t, i) {
      assert [Holds(i, state)] + [] == [Holds(i, state)];
    }
  }

  class VulkanGraph {
    var writeNodes: seq<WriteNode>
    var readNodes: seq<ReadNode>
    var renderNodes: seq<RenderNode>
    var dispatchNodes: seq<DispatchNode>
    var presentNodes: seq<PresentNode>
    var commandNodeCount: nat
    var textureNodes: seq<TextureNode>
    ghost var order: seq<CommandRef>             // the command behind each index
    ghost var rows: seq<seq<seq<StateChange>>>   // while building: per texture node, per command index

    ghost function Nodes(): Lists
      reads this
    {
      Lists(writeNodes, readNodes, renderNodes, dispatchNodes, presentNodes)
    }

    ghost predicate Valid()
      reads this
    {
      Indexed(Nodes(), order) && |order| == commandNodeCount
    }

    /** Nothing has been built yet. */
    ghost predicate Unbuilt()
      reads this
    {
      && (forall t :: 0 <= t < |textureNodes| ==> textureNodes[t].stateChanges == [])
      && (forall j :: 0 <= j < |renderNodes| ==> renderNodes[j].dependencies == [] && renderNodes[j].sampled == [])
    }

    ghost function Commands(): seq<Command>
      requires Valid()
      reads this
    {
      CommandsOf(Nodes(), order)
    }

    constructor ()
      ensures Valid() && Unbuilt() && Commands() == [] && textureNodes == []
    {
      writeNodes, readNodes, renderNodes, dispatchNodes, presentNodes := [], [], [], [], [];
      commandNodeCount, textureNodes, order, rows := 0, [], [], [];
    }

    method AddTextureNode(image: Image) returns (ref: Ref)
      requires Valid() && Unbuilt()
      modifies this`textureNodes
      ensures Valid() && Unbuilt() && ref == TextureRef(|old(textureNodes)|)
      ensures textureNodes == old(textureNodes) + [TextureNode(image, [])]
    {
      textureNodes := textureNodes + [TextureNode(image, [])];
      ref := TextureRef(|textureNodes| - 1);
    }

    method AddWriteNode(source: Ref, target: Ref) returns (ref: CommandRef)
      requires Valid() && Unbuilt()
      modifies this`writeNodes, this`commandNodeCount, this`order
      ensures Valid() && Unbuilt() && Commands() == old(Commands()) + [Write(target)]
      ensures writeNodes == old(writeNodes) + [WriteNode(|old(Commands())|, source, target)]
      ensures ref == WriteRef(|old(writeNodes)|)
    {
      writeNodes := writeNodes + [WriteNode(commandNodeCount, source, target)];
      commandNodeCount := commandNodeCount + 1;
      ref := WriteRef(|writeNodes| - 1);
      assert Extends(old(Nodes()), Nodes(), ref);
      ExtendsIndexed(old(Nodes()), Nodes(), order, ref);
      order := order + [ref];
    }

    method AddReadNode(source: Ref, expired: bool)
      requires Valid() && Unbuilt()
      modifies this`readNodes, this`commandNodeCount, this`order
      ensures Valid() && Unbuilt() && Commands() == old(Commands()) + [Read(source, expired)]
      ensures readNodes == old(readNodes) + [ReadNode(|old(Commands())|, source, expired)]
    {
      readNodes := readNodes + [ReadNode(commandNodeCount, source, expired)];
      commandNodeCount := commandNodeCount + 1;
      ghost var ref := ReadRef(|readNodes| - 1);
      assert Extends(old(Nodes()), Nodes(), ref);
      ExtendsIndexed(old(Nodes()), Nodes(), order, ref);
      order := order + [ref];
    }

    method AddRenderNode(
        viewTextures: seq<nat>, objects: seq<RenderObject>, colorTarget: Option<Ref>,
        depthStencilTarget: Option<Ref>)
      returns (ref: CommandRef)
      requires Valid() && Unbuilt()
      modifies this`renderNodes, this`commandNodeCount, this`order
      ensures Valid() && Unbuilt() && Commands() == old(Commands()) + [Render([], [], colorTarget, depthStencilTarget)]
      ensures ref == RenderRef(|old(renderNodes)|)
      ensures |renderNodes| == |old(renderNodes)| + 1 && renderNodes[..|old(renderNodes)|] == old(renderNodes)
      ensures var node := renderNodes[|old(renderNodes)|];
              node.index == |old(Commands())| && node.viewTextures == viewTextures && node.objects == objects
      ensures |BuiltCommands()| == |old(Commands())| + 1
      ensures PassOf(Images(textureNodes), viewTextures, objects, colorTarget, depthStencilTarget,
                     BuiltCommands()[|old(Commands())|])
    {
      ref := RenderRef(|renderNodes|);
      renderNodes := renderNodes +
          [RenderNode(commandNodeCount, viewTextures, objects, colorTarget, depthStencilTarget, [], [])];
      commandNodeCount := commandNodeCount + 1;
      assert Extends(old(Nodes()), Nodes(), ref);
      ExtendsIndexed(old(Nodes()), Nodes(), order, ref);
      order := order + [ref];
      FoundIsPass(Images(textureNodes), renderNodes[|renderNodes| - 1]);
    }

    method AddDispatchNode(inputs: seq<Ref>, outputs: seq<Ref>) returns (ref: CommandRef)
      requires Valid() && Unbuilt()
      modifies this`dispatchNodes, this`commandNodeCount, this`order
      ensures Valid() && Unbuilt() && Commands() == old(Commands()) + [Dispatch(inputs, outputs)]
      ensures ref == DispatchRef(|old(dispatchNodes)|)
    {
      dispatchNodes := dispatchNodes + [DispatchNode(commandNodeCount, inputs, outputs)];
      commandNodeCount := commandNodeCount + 1;
      ref := DispatchRef(|dispatchNodes| - 1);
      assert Extends(old(Nodes()), Nodes(), ref);
      ExtendsIndexed(old(Nodes()), Nodes(), order, ref);
      order := order + [ref];
    }

    method AddPresentNode(source: Ref) returns (ref: CommandRef)
      requires Valid() && Unbuilt()
      modifies this`presentNodes, this`commandNodeCount, this`order
      ensures Valid() && Unbuilt() && Commands() == old(Commands()) + [Present(source)]
      ensures ref == PresentRef(|old(presentNodes)|)
    {
      presentNodes := presentNodes + [PresentNode(commandNodeCount, source)];
      commandNodeCount := commandNodeCount + 1;
      ref := PresentRef(|presentNodes| - 1);
      assert Extends(old(Nodes()), Nodes(), ref);
      ExtendsIndexed(old(Nodes()), Nodes(), order, ref);
      order := order + [ref];
    }

    /** The change goes in front of the texture's changes for the same command; other resources ignore it. */
    method AddStateChange(ref: Ref, change: StateChange)
      requires Tabulated(textureNodes, rows, commandNodeCount) && change.nodeIndex < commandNodeCount
      requires ref.TextureRef? ==> ref.index < |textureNodes|
      modifies this`textureNodes, this`rows
      ensures Tabulated(textureNodes, rows, commandNodeCount) && rows == PutFront(old(rows), ref, change)
      ensures Images(textureNodes) == Images(old(textureNodes))
    {
      if ref.TextureRef? {
        var node := textureNodes[ref.index];
        InsertIntoRow(rows[ref.index], change);
        textureNodes := textureNodes[ref.index := node.(stateChanges := Insert(node.stateChanges, change))];
        rows := PutFront(rows, ref, change);
      }
    }

    /** The same change for every resource in a list. */
    method AddStateChanges(refs: seq<Ref>, change: StateChange)
      requires Tabulated(textureNodes, rows, commandNodeCount) && change.nodeIndex < commandNodeCount
      requires forall k :: 0 <= k < |refs| && refs[k].TextureRef? ==> refs[k].index < |textureNodes|
      modifies this`textureNodes, this`rows
      ensures Tabulated(textureNodes, rows, commandNodeCount) && Images(textureNodes) == Images(old(textureNodes))
      ensures RowsPrepended(old(rows), rows, change, refs)
    {
      var k := 0;
      assert refs[..0] == [];
      while k < |refs|
        invariant 0 <= k <= |refs|
        invariant Tabulated(textureNodes, rows, commandNodeCount) && Images(textureNodes) == Images(old(textureNodes))
        invariant |textureNodes| == |old(textureNodes)|
        invariant RowsPrepended(old(rows), rows, change, refs[..k])
      {
        ghost var before := rows;
        AddStateChange(refs[k], change);
        PrependOne(old(rows), before, rows, change, refs[..k], refs[k]);
        assert refs[..k + 1] == refs[..k] + [refs[k]];
        assert |Images(textureNodes)| == |textureNodes|;
        k := k + 1;
      }
      assert refs[..k] == refs;
    }

    /** The graph, the state-change table so far, and the commands it is being built for. */
    ghost predicate Building(commands: seq<Command>, p: Progress)
      reads this
    {
      && Valid() && Tabulated(textureNodes, rows, commandNodeCount) && RowsAre(rows, commands, order, p)
      && forall i :: 0 <= i < |commands| ==> RefsInRange(commands[i], |textureNodes|)
    }

    /** The one state change of a node that names a single texture. */
    method AddOwnChange(
        ghost ref: CommandRef, index: nat, target: Ref, state: TextureState,
        ghost commands: seq<Command>, ghost p: Progress, ghost p': Progress)
      requires Building(commands, p) && InLists(Nodes(), ref) && IndexOf(Nodes(), ref) == index && !Done(ref, p)
      requires forall r :: InLists(Nodes(), r) ==> (Done(r, p') <==> Done(r, p) || r == ref)
      requires index < |commands|
      requires var c := commands[index];
               || (c == Write(target) && state == COPY_DST)
               || (c.Read? && c.source == target && state == COPY_SRC)
               || (c == Present(target) && state == PRESENTED)
      modifies this`textureNodes, this`rows
      ensures Building(commands, p') && Images(textureNodes) == Images(old(textureNodes))
    {
      ghost var before := rows;
      RowEmpty(rows, Nodes(), order, commands, ref, p);
      SingleRow(rows, target, state, index, commands[index]);
      assert RefsInRange(commands[index], |textureNodes|);
      AddStateChange(target, Holds(index, state));
      assert |Images(textureNodes)| == |textureNodes|;
      RowsAdvance(before, rows, Nodes(), order, commands, ref, p, p');
    }

    method BuildWrites(ghost commands: seq<Command>)
      requires Building(commands, Progress(0, 0, 0, 0, 0))
      requires forall i :: 0 <= i < |order| && order[i].WriteRef? ==> commands[i] == CommandOf(Nodes(), order[i])
      modifies this`textureNodes, this`rows
      ensures Building(commands, Progress(|writeNodes|, 0, 0, 0, 0))
      ensures Images(textureNodes) == Images(old(textureNodes))
    {
      var j := 0;
      while j < |writeNodes|
        invariant 0 <= j <= |writeNodes|
        invariant Building(commands, Progress(j, 0, 0, 0, 0)) && Images(textureNodes) == Images(old(textureNodes))
      {
        var node := writeNodes[j];
        ghost var p := Progress(j, 0, 0, 0, 0);
        AddOwnChange(WriteRef(j), node.index, node.target, COPY_DST, commands, p, p.(writes := j + 1));
        j := j + 1;
      }
    }

    method BuildReads(ghost commands: seq<Command>)
      requires Building(commands, Progress(|writeNodes|, 0, 0, 0, 0))
      requires forall i :: 0 <= i < |order| && order[i].ReadRef? ==> commands[i] == CommandOf(Nodes(), order[i])
      modifies this`textureNodes, this`rows
      ensures Building(commands, Progress(|writeNodes|, |readNodes|, 0, 0, 0))
      ensures Images(textureNodes) == Images(old(textureNodes))
    {
      var j := 0;
      while j < |readNodes|
        invariant 0 <= j <= |readNodes|
        invariant Building(commands, Progress(|writeNodes|, j, 0, 0, 0))
        invariant Images(textureNodes) == Images(old(textureNodes))
      {
        var node := readNodes[j];
        ghost var p := Progress(|writeNodes|, j, 0, 0, 0);
        AddOwnChange(ReadRef(j), node.index, node.source, COPY_SRC, commands, p, p.(readBacks := j + 1));
        j := j + 1;
      }
    }

    /** The state changes of one render node: its dependencies first, then its targets. */
    method BuildRender(node: RenderNode)
      requires Tabulated(textureNodes, rows, commandNodeCount) && node.index < commandNodeCount
      requires RefsInRange(RenderOf(node), |textureNodes|)
      requires forall t :: 0 <= t < |rows| ==> rows[t][node.index] == []
      modifies this`textureNodes, this`rows
      ensures Tabulated(textureNodes, rows, commandNodeCount) && Images(textureNodes) == Images(old(textureNodes))
      ensures RowReplaced(old(rows), rows, node.index, RenderOf(node))
    {
      AddStateChanges(node.dependencies, Holds(node.index, SAMPLED));
      assert |Images(textureNodes)| == |textureNodes|;
      ghost var sampled := rows;
      if node.colorTarget.Some? {
        AddStateChange(node.colorTarget.value, StateChange(node.index, FRESH, COLOR));
        assert |Images(textureNodes)| == |textureNodes|;
      }
      ghost var colored := rows;
      if node.depthStencilTarget.Some? {
        AddStateChange(node.depthStencilTarget.value, StateChange(node.index, FRESH, DEPTH));
      }
      TargetRows(old(rows), sampled, colored, rows, node);
    }

    method BuildRenders(ghost commands: seq<Command>)
      requires Building(commands, Progress(|writeNodes|, |readNodes|, 0, 0, 0))
      requires forall j :: 0 <= j < |renderNodes| ==> renderNodes[j].dependencies == [] && renderNodes[j].sampled == []
      requires forall i :: 0 <= i < |order| && order[i].RenderRef? ==>
                 commands[i] == CommandOf(Resolved(Images(textureNodes), Nodes()), order[i])
      modifies this`textureNodes, this`rows, this`renderNodes
      ensures Building(commands, Progress(|writeNodes|, |readNodes|, |renderNodes|, 0, 0))
      ensures Images(textureNodes) == Images(old(textureNodes))
      ensures Nodes() == Resolved(Images(old(textureNodes)), old(Nodes()))
    {
      ghost var images := Images(textureNodes);
      ghost var resolved := Resolved(images, Nodes());
      var j := 0;
      while j < |renderNodes|
        invariant 0 <= j <= |renderNodes| == |old(renderNodes)|
        invariant Building(commands, Progress(|writeNodes|, |readNodes|, j, 0, 0)) && Images(textureNodes) == images
        invariant forall k :: 0 <= k < |renderNodes| ==>
                    renderNodes[k] == if k < j then resolved.renders[k] else old(renderNodes)[k]
      {
        RowEmpty(rows, Nodes(), order, commands, RenderRef(j), Progress(|writeNodes|, |readNodes|, j, 0, 0));
        BuildRenderNode(j, commands);
        j := j + 1;
      }
      assert renderNodes == resolved.renders;
    }

    method BuildRenderNode(j: nat, ghost commands: seq<Command>)
      requires j < |renderNodes| && Building(commands, Progress(|writeNodes|, |readNodes|, j, 0, 0))
      requires renderNodes[j].index < |commands|
      requires commands[renderNodes[j].index] == RenderOf(FoundFor(Images(textureNodes), renderNodes[j]))
      modifies this`textureNodes, this`rows, this`renderNodes
      ensures Building(commands, Progress(|writeNodes|, |readNodes|, j + 1, 0, 0))
      ensures Images(textureNodes) == Images(old(textureNodes))
      ensures renderNodes == old(renderNodes)[j := FoundFor(Images(old(textureNodes)), old(renderNodes[j]))]
    {
      ghost var before, p, l := rows, Progress(|writeNodes|, |readNodes|, j, 0, 0), Nodes();
      var node := renderNodes[j];
      var found, bound := FindDependencies(node);
      node := node.(dependencies := found, sampled := bound);
      RowEmpty(rows, l, order, commands, RenderRef(j), p);
      BuildRender(node);
      assert |Images(textureNodes)| == |textureNodes|;
      RowsAdvance(before, rows, l, order, commands, RenderRef(j), p, p.(renders := j + 1));
      renderNodes := renderNodes[j := node];
      RenderReplaced(l, order, j, node);
    }

    /**
      AddTextureDependencies over the view's textures and each object's own and material textures; `bound` are
      those of the materials, whose descriptor sets the pass binds.
     */
    method FindDependencies(node: RenderNode) returns (found: seq<Ref>, bound: seq<Ref>)
      ensures found == Dependencies(Images(textureNodes), node)
      ensures bound == MaterialRefs(Images(textureNodes), node.objects)
    {
      bound := [];
      ghost var images := Images(textureNodes);
      var refs := FindAll(node.viewTextures);
      found := node.dependencies + refs;
      var k := 0;
      assert node.objects[..0] == [];
      ghost var start := found;
      while k < |node.objects|
        invariant 0 <= k <= |node.objects|
        invariant found == start + ResolveObjects(images, node.objects[..k])
        invariant bound == MaterialRefs(images, node.objects[..k])
      {
        refs := FindAll(node.objects[k].objectTextures);
        found := found + refs;
        refs := FindAll(node.objects[k].materialTextures);
        found := found + refs;
        bound := bound + refs;
        MaterialRefsStep(images, node.objects, k);
        ResolveObjectsStep(images, node.objects, k, start);
        k := k + 1;
      }
      assert node.objects[..k] == node.objects;
    }

    method FindAll(textures: seq<nat>) returns (refs: seq<Ref>)
      ensures refs == Resolve(Images(textureNodes), textures)
    {
      refs := [];
      var k := 0;
      assert textures[..0] == [];
      while k < |textures|
        invariant 0 <= k <= |textures|
        invariant refs == Resolve(Images(textureNodes), textures[..k])
      {
        var found := FindTexture(textures[k]);
        if found.Some? {
          refs := refs + [TextureRef(found.value)];
        }
        assert textures[..k + 1][..k] == textures[..k];
        k := k + 1;
      }
      assert textures[..k] == textures;
    }

    method FindTexture(texture: nat) returns (found: Option<nat>)
      ensures found == Find(Images(textureNodes), texture, 0)
    {
      var t := 0;
      while t < |textureNodes|
        invariant 0 <= t <= |textureNodes|
        invariant Find(Images(textureNodes), texture, 0) == Find(Images(textureNodes), texture, t)
      {
        if textureNodes[t].image.texture == texture {
          return Some(t);
        }
        t := t + 1;
      }
      return None;
    }

    method BuildDispatches(ghost commands: seq<Command>)
      requires Building(commands, Progress(|writeNodes|, |readNodes|, |renderNodes|, 0, 0))
      requires forall i :: 0 <= i < |order| && order[i].DispatchRef? ==> commands[i] == CommandOf(Nodes(), order[i])
      modifies this`textureNodes, this`rows
      ensures Building(commands, Progress(|writeNodes|, |readNodes|, |renderNodes|, |dispatchNodes|, 0))
      ensures Images(textureNodes) == Images(old(textureNodes))
    {
      var j := 0;
      while j < |dispatchNodes|
        invariant 0 <= j <= |dispatchNodes|
        invariant Building(commands, Progress(|writeNodes|, |readNodes|, |renderNodes|, j, 0))
        invariant Images(textureNodes) == Images(old(textureNodes))
      {
        RowEmpty(rows, Nodes(), order, commands, DispatchRef(j),
            Progress(|writeNodes|, |readNodes|, |renderNodes|, j, 0));
        BuildDispatchNode(j, commands);
        j := j + 1;
      }
    }

    method BuildDispatchNode(j: nat, ghost commands: seq<Command>)
      requires j < |dispatchNodes| && Building(commands, Progress(|writeNodes|, |readNodes|, |renderNodes|, j, 0))
      requires dispatchNodes[j].index < |commands|
      requires commands[dispatchNodes[j].index] == Dispatch(dispatchNodes[j].dependencies, dispatchNodes[j].outputs)
      modifies this`textureNodes, this`rows
      ensures Building(commands, Progress(|writeNodes|, |readNodes|, |renderNodes|, j + 1, 0))
      ensures Images(textureNodes) == Images(old(textureNodes))
    {
      var node := dispatchNodes[j];
      ghost var before, p := rows, Progress(|writeNodes|, |readNodes|, |renderNodes|, j, 0);
      RowEmpty(rows, Nodes(), order, commands, DispatchRef(j), p);
      assert RefsInRange(commands[node.index], |textureNodes|);
      AddStateChanges(node.dependencies, Holds(node.index, KERNEL_IN));
      assert |Images(textureNodes)| == |textureNodes|;
      ghost var inputs := rows;
      AddStateChanges(node.outputs, Holds(node.index, KERNEL_OUT));
      assert |Images(textureNodes)| == |textureNodes|;
      KernelRows(before, inputs, rows, node);
      RowsAdvance(before, rows, Nodes(), order, commands, DispatchRef(j), p, p.(dispatches := j + 1));
    }

    method BuildPresents(ghost commands: seq<Command>)
      requires Building(commands, Progress(|writeNodes|, |readNodes|, |renderNodes|, |dispatchNodes|, 0))
      requires forall i :: 0 <= i < |order| && order[i].PresentRef? ==> commands[i] == CommandOf(Nodes(), order[i])
      modifies this`textureNodes, this`rows
      ensures Building(commands, Progress(|writeNodes|, |readNodes|, |renderNodes|, |dispatchNodes|, |presentNodes|))
      ensures Images(textureNodes) == Images(old(textureNodes))
    {
      var j := 0;
      while j < |presentNodes|
        invariant 0 <= j <= |presentNodes|
        invariant Building(commands, Progress(|writeNodes|, |readNodes|, |renderNodes|, |dispatchNodes|, j))
        invariant Images(textureNodes) == Images(old(textureNodes))
      {
        var node := presentNodes[j];
        ghost var p := Progress(|writeNodes|, |readNodes|, |renderNodes|, |dispatchNodes|, j);
        AddOwnChange(PresentRef(j), node.index, node.source, PRESENTED, commands, p, p.(presents := j + 1));
        j := j + 1;
      }
    }

    /** The commands as BuildGraph leaves them: render nodes know the texture nodes they sample. */
    ghost function BuiltCommands(): seq<Command>
      requires Valid()
      reads this
    {
      ResolvedIndexed(Images(textureNodes), Nodes(), order);
      CommandsOf(Resolved(Images(textureNodes), Nodes()), order)
    }

    ghost method StartTable()
      requires Valid() && Unbuilt()
      modifies this`rows
      ensures Tabulated(textureNodes, rows, commandNodeCount)
      ensures forall t, i :: 0 <= t < |rows| && 0 <= i < commandNodeCount ==> rows[t][i] == []
    {
      var n := commandNodeCount;
      rows := seq(|textureNodes|, _ => seq(n, _ => []));
      FlattenEmpty(n);
    }

    /**
      Each texture's state changes come out sorted by command index and independent of the order in which
      the five loops add them.
     */
    method BuildGraph()
      requires Valid() && Unbuilt() && forall i :: 0 <= i < |Commands()| ==> RefsInRange(Commands()[i], |textureNodes|)
      modifies this`textureNodes, this`rows, this`renderNodes
      ensures Valid() && Commands() == old(BuiltCommands()) && Images(textureNodes) == Images(old(textureNodes))
      ensures forall t :: 0 <= t < |textureNodes| ==> textureNodes[t].stateChanges == Changes(Commands(), t)
      ensures forall i :: 0 <= i < |Commands()| ==> RefsInRange(Commands()[i], |textureNodes|)
      ensures forall j :: 0 <= j < |old(renderNodes)| ==>
                var node := old(renderNodes)[j];
                && node.index < |Commands()|
                && PassOf(Images(old(textureNodes)), node.viewTextures, node.objects, node.colorTarget,
                          node.depthStencilTarget, Commands()[node.index])
    {
      BuiltPasses(Images(textureNodes), Nodes(), order);
      ghost var commands := BuiltCommands();
      assert |Images(textureNodes)| == |textureNodes|;
      forall i | 0 <= i < |order| ensures RefsInRange(CommandsOf(Nodes(), order)[i], |Images(textureNodes)|) {
        assert i < |Commands()|;
      }
      BuiltInRange(Images(textureNodes), Nodes(), order);
      ResolvedIndexed(Images(textureNodes), Nodes(), order);
      StartTable();
      assert |Images(textureNodes)| == |textureNodes|;
      BuildWrites(commands);
      assert |Images(textureNodes)| == |textureNodes|;
      BuildReads(commands);
      assert |Images(textureNodes)| == |textureNodes|;
      BuildRenders(commands);
      BuildDispatches(commands);
      BuildPresents(commands);
      assert |Images(textureNodes)| == |textureNodes|;
      RowsComplete(rows, Nodes(), order, commands);
    }

    /** What each kind of node records into its command buffer. */
    method Process(c: Command, index: nat) returns (ops: seq<Op>)
      requires RefsInRange(c, |textureNodes|)
      ensures ops == Record(c, Images(textureNodes), TransitionsAt(StateChanges(textureNodes), index))
    {
      match c
      case Write(target) =>
        var node := textureNodes[target.index];
        ops := TransitionOps(node.image.texture, GetStateTransition(node.stateChanges, index)) +
            [CopyToImage(node.image.texture)];
      case Read(source, expired) =>
        if expired {
          return [];
        }
        var node := textureNodes[source.index];
        ops := TransitionOps(node.image.texture, GetStateTransition(node.stateChanges, index)) +
            [CopyFromImage(node.image.texture)];
      case Render(dependencies, sampled, color, depth) =>
        var barriers := ProcessDependencies(dependencies, index);
        var samples := BindTextures(sampled);
        var colorImage := if color.Some? then Some(textureNodes[color.value.index].image.texture) else None;
        var depthImage := if depth.Some? then Some(textureNodes[depth.value.index].image.texture) else None;
        ops := barriers + [RenderPass(samples, colorImage, depthImage)];
      case Dispatch(_, _) => ops := [];
      case Present(_) => ops := [];
    }

    method ProcessDependencies(dependencies: seq<Ref>, index: nat) returns (barriers: seq<Op>)
      requires TexturesInRange(dependencies, |textureNodes|)
      ensures barriers ==
                DependencyOps(dependencies, Images(textureNodes), TransitionsAt(StateChanges(textureNodes), index))
    {
      barriers := [];
      var k := 0;
      assert dependencies[..0] == [];
      while k < |dependencies|
        invariant 0 <= k <= |dependencies|
        invariant barriers ==
                    DependencyOps(dependencies[..k], Images(textureNodes),
                        TransitionsAt(StateChanges(textureNodes), index))
      {
        var node := textureNodes[dependencies[k].index];
        barriers := barriers + TransitionOps(node.image.texture, GetStateTransition(node.stateChanges, index));
        assert dependencies[..k + 1][..k] == dependencies[..k];
        k := k + 1;
      }
      assert dependencies[..k] == dependencies;
    }

    /** The descriptors of the materials' textures. */
    method BindTextures(sampled: seq<Ref>) returns (samples: seq<Sample>)
      requires TexturesInRange(sampled, |textureNodes|)
      ensures samples == Samples(sampled, Images(textureNodes))
    {
      samples := [];
      var k := 0;
      while k < |sampled|
        invariant 0 <= k <= |sampled|
        invariant samples == Samples(sampled[..k], Images(textureNodes))
      {
        samples := samples + [SampleOf(textureNodes[sampled[k].index].image)];
        k := k + 1;
      }
      assert sampled[..k] == sampled;
    }

    /** The graph is ready to record, and `want` is what its command buffers should hold. */
    ghost predicate Recording(want: seq<seq<Op>>)
      reads this
    {
      && Valid() && (forall i :: 0 <= i < |Commands()| ==> RefsInRange(Commands()[i], |textureNodes|))
      && want == Recorded(Commands(), Images(textureNodes), StateChanges(textureNodes))
    }

    method RecordNode(
        ghost ref: CommandRef, c: Command, index: nat, cmdBuffers: seq<CommandBuffer>, ghost want: seq<seq<Op>>,
        ghost p: Progress, ghost p': Progress)
      returns (r: seq<CommandBuffer>)
      requires Recording(want)
      requires InLists(Nodes(), ref) && CommandOf(Nodes(), ref) == c && IndexOf(Nodes(), ref) == index
      requires BuffersAre(cmdBuffers, want, order, p) && !Done(ref, p)
      requires forall r :: InLists(Nodes(), r) ==> (Done(r, p') <==> Done(r, p) || r == ref)
      ensures BuffersAre(r, want, order, p')
    {
      OrderOf(Nodes(), order, ref);
      var ops := Process(c, index);
      r := cmdBuffers[index := cmdBuffers[index].(ops := ops, times := cmdBuffers[index].times + 1)];
    }

    /** Kind by kind, every allocated command buffer is recorded exactly once, by the command of its index. */
    method RecordCommands() returns (cmdBuffers: seq<CommandBuffer>)
      requires Valid() && forall i :: 0 <= i < |Commands()| ==> RefsInRange(Commands()[i], |textureNodes|)
      ensures cmdBuffers == RecordedOnce(Recorded(Commands(), Images(textureNodes), StateChanges(textureNodes)))
    {
      ghost var want := Recorded(Commands(), Images(textureNodes), StateChanges(textureNodes));
      cmdBuffers := seq(commandNodeCount, _ => CommandBuffer([], 0));
      cmdBuffers := RecordCopies(cmdBuffers, want);
      cmdBuffers := RecordPasses(cmdBuffers, want);
      assert forall i :: 0 <= i < |order| ==> InLists(Nodes(), order[i]);
    }

    method RecordCopies(buffers: seq<CommandBuffer>, ghost want: seq<seq<Op>>) returns (cmdBuffers: seq<CommandBuffer>)
      requires Recording(want) && BuffersAre(buffers, want, order, Progress(0, 0, 0, 0, 0))
      ensures BuffersAre(cmdBuffers, want, order, Progress(|writeNodes|, |readNodes|, 0, 0, 0))
    {
      cmdBuffers := buffers;
      var j := 0;
      while j < |writeNodes|
        invariant 0 <= j <= |writeNodes|
        invariant BuffersAre(cmdBuffers, want, order, Progress(j, 0, 0, 0, 0))
      {
        ghost var p := Progress(j, 0, 0, 0, 0);
        cmdBuffers :=
            RecordNode(WriteRef(j), Write(writeNodes[j].target), writeNodes[j].index, cmdBuffers, want, p,
                p.(writes := j + 1));
        j := j + 1;
      }
      j := 0;
      while j < |readNodes|
        invariant 0 <= j <= |readNodes|
        invariant BuffersAre(cmdBuffers, want, order, Progress(|writeNodes|, j, 0, 0, 0))
      {
        ghost var p := Progress(|writeNodes|, j, 0, 0, 0);
        cmdBuffers :=
            RecordNode(ReadRef(j), Read(readNodes[j].source, readNodes[j].expired), readNodes[j].index, cmdBuffers,
                want, p, p.(readBacks := j + 1));
        j := j + 1;
      }
    }

    method RecordPasses(buffers: seq<CommandBuffer>, ghost want: seq<seq<Op>>) returns (cmdBuffers: seq<CommandBuffer>)
      requires Recording(want) && BuffersAre(buffers, want, order, Progress(|writeNodes|, |readNodes|, 0, 0, 0))
      ensures BuffersAre(cmdBuffers, want, order,
                Progress(|writeNodes|, |readNodes|, |renderNodes|, |dispatchNodes|, |presentNodes|))
    {
      cmdBuffers := buffers;
      var j := 0;
      while j < |renderNodes|
        invariant 0 <= j <= |renderNodes|
        invariant BuffersAre(cmdBuffers, want, order, Progress(|writeNodes|, |readNodes|, j, 0, 0))
      {
        var node := renderNodes[j];
        ghost var p := Progress(|writeNodes|, |readNodes|, j, 0, 0);
        cmdBuffers := RecordNode(RenderRef(j), RenderOf(node), node.index, cmdBuffers, want, p, p.(renders := j + 1));
        j := j + 1;
      }
      j := 0;
      while j < |dispatchNodes|
        invariant 0 <= j <= |dispatchNodes|
        invariant BuffersAre(cmdBuffers, want, order, Progress(|writeNodes|, |readNodes|, |renderNodes|, j, 0))
      {
        ghost var p := Progress(|writeNodes|, |readNodes|, |renderNodes|, j, 0);
        cmdBuffers :=
            RecordNode(DispatchRef(j), Dispatch(dispatchNodes[j].dependencies, dispatchNodes[j].outputs),
                dispatchNodes[j].index, cmdBuffers, want, p, p.(dispatches := j + 1));
        j := j + 1;
      }
      j := 0;
      while j < |presentNodes|
        invariant 0 <= j <= |presentNodes|
        invariant BuffersAre(cmdBuffers, want, order,
                  Progress(|writeNodes|, |readNodes|, |renderNodes|, |dispatchNodes|, j))
      {
        ghost var p := Progress(|writeNodes|, |readNodes|, |renderNodes|, |dispatchNodes|, j);
        cmdBuffers :=
            RecordNode(PresentRef(j), Present(presentNodes[j].source), presentNodes[j].index, cmdBuffers, want, p,
                p.(presents := j + 1));
        j := j + 1;
      }
    }

    /** The buffers of a graph get through the queue without a layout mismatch iff each command is properly fed. */
    method ExecuteGraph() returns (cmdBuffers: seq<seq<Op>>)
      requires Valid() && Unbuilt() && WellFormed(BuiltCommands(), Images(textureNodes))
      modifies this`textureNodes, this`rows, this`renderNodes
      ensures WellFormed(old(BuiltCommands()), Images(old(textureNodes)))
      ensures cmdBuffers == Buffers(old(BuiltCommands()), Images(old(textureNodes)))
      ensures forall layouts: Layouts :: JustCreated(layouts, Images(old(textureNodes))) ==>
                (ReplayAll(cmdBuffers, layouts).Some? <==>
                   AllFed(old(BuiltCommands()), Images(old(textureNodes)), |old(BuiltCommands())|))
    {
      ghost var commands, images := BuiltCommands(), Images(textureNodes);
      UnbuiltInRange(images, Nodes(), order);
      BuildGraph();
      assert |Images(textureNodes)| == |textureNodes|;
      var recorded := RecordCommands();
      cmdBuffers := seq(|recorded|, i requires 0 <= i < |recorded| => recorded[i].ops);
      assert StateChanges(textureNodes) == AllChanges(commands, |images|);
      assert cmdBuffers == Buffers(commands, images);
      forall layouts: Layouts | JustCreated(layouts, images)
        ensures ReplayAll(cmdBuffers, layouts).Some? <==> AllFed(commands, images, |commands|)
      {
        BarriersMatchIff(commands, images, layouts);
      }
    }
  }

  ghost function StateChanges(textures: seq<TextureNode>): seq<seq<StateChange>> {
    seq(|textures|, t requires 0 <= t < |textures| => textures[t].stateChanges)
  }

  ghost function Recorded(commands: seq<Command>, images: seq<Image>, changes: seq<seq<StateChange>>): seq<seq<Op>>
    requires |changes| == |images| && forall i :: 0 <= i < |commands| ==> RefsInRange(commands[i], |images|)
  {
    seq(|commands|, i requires 0 <= i < |commands| => Record(commands[i], images, TransitionsAt(changes, i)))
  }

  /** Each buffer holding what it should, after a single recording. */
  ghost function RecordedOnce(want: seq<seq<Op>>): seq<CommandBuffer> {
    seq(|want|, i requires 0 <= i < |want| => CommandBuffer(want[i], 1))
  }

  /** The buffers of visited commands have been recorded once and hold what they should; the others are untouched. */
  ghost predicate BuffersAre(buffers: seq<CommandBuffer>, want: seq<seq<Op>>, order: seq<CommandRef>, p: Progress) {
    && |buffers| == |want| == |order|
    && forall i :: 0 <= i < |order| ==>
         buffers[i] == if Done(order[i], p) then CommandBuffer(want[i], 1) else CommandBuffer([], 0)
  }

  lemma {:induction false} OrderOf(l: Lists, order: seq<CommandRef>, ref: CommandRef)
    requires Indexed(l, order) && InLists(l, ref)
    ensures IndexOf(l, ref) < |order| && order[IndexOf(l, ref)] == ref
    ensures forall i :: 0 <= i < |order| && order[i] == ref ==> i == IndexOf(l, ref)
    ensures CommandsOf(l, order)[IndexOf(l, ref)] == CommandOf(l, ref)
  {
  }

  lemma {:induction false} ResolvedIndexed(images: seq<Image>, l: Lists, order: seq<CommandRef>)
    requires Indexed(l, order)
    ensures Indexed(Resolved(images, l), order)
  {
    SameIndices(l, Resolved(images, l), order);
  }

  /** Every render node is built into the pass of what it holds, at its own index. */
  lemma {:induction false} BuiltPasses(images: seq<Image>, l: Lists, order: seq<CommandRef>)
    requires Indexed(l, order) && forall j :: 0 <= j < |l.renders| ==> l.renders[j].dependencies == []
    ensures Indexed(Resolved(images, l), order)
    ensures forall j :: 0 <= j < |l.renders| ==>
              var node := l.renders[j];
              && node.index < |order|
              && PassOf(images, node.viewTextures, node.objects, node.colorTarget, node.depthStencilTarget,
                        CommandsOf(Resolved(images, l), order)[node.index])
  {
    ResolvedIndexed(images, l, order);
    forall j | 0 <= j < |l.renders|
      ensures IndexOf(l, RenderRef(j)) < |order| && order[IndexOf(l, RenderRef(j))] == RenderRef(j)
      ensures var node := l.renders[j];
              PassOf(images, node.viewTextures, node.objects, node.colorTarget, node.depthStencilTarget,
                     RenderOf(FoundFor(images, node)))
    {
      OrderOf(l, order, RenderRef(j));
      FoundIsPass(images, l.renders[j]);
    }
  }

  lemma {:induction false} FlattenEmpty(n: nat)
    ensures Flatten(seq(n, _ => [])) == [] && RowsIndexed(seq(n, _ => []))
  {
    var rows: seq<seq<StateChange>> := seq(n, _ => []);
    if n > 0 {
      assert rows[..n - 1] == seq(n - 1, _ => []);
      FlattenEmpty(n - 1);
    }
  }

  lemma {:induction false} BuiltInRange(images: seq<Image>, l: Lists, order: seq<CommandRef>)
    requires Indexed(l, order)
    requires forall j :: 0 <= j < |l.renders| ==> l.renders[j].dependencies == [] && l.renders[j].sampled == []
    requires forall i :: 0 <= i < |order| ==> RefsInRange(CommandsOf(l, order)[i], |images|)
    ensures forall i :: 0 <= i < |order| ==> InLists(Resolved(images, l), order[i])
    ensures forall i :: 0 <= i < |order| ==> RefsInRange(CommandsOf(Resolved(images, l), order)[i], |images|)
  {
    forall i | 0 <= i < |order|
      ensures InLists(Resolved(images, l), order[i]) && RefsInRange(CommandOf(Resolved(images, l), order[i]), |images|)
    {
      assert RefsInRange(CommandsOf(l, order)[i], |images|);
      if order[i].RenderRef? { FoundInRange(images, l.renders[order[i].i]); }
    }
  }

  /** Conversely, commands in range after building were in range before. */
  lemma {:induction false} UnbuiltInRange(images: seq<Image>, l: Lists, order: seq<CommandRef>)
    requires Indexed(l, order)
    requires forall j :: 0 <= j < |l.renders| ==> l.renders[j].dependencies == [] && l.renders[j].sampled == []
    requires forall i :: 0 <= i < |order| ==> InLists(Resolved(images, l), order[i])
    requires forall i :: 0 <= i < |order| ==> RefsInRange(CommandsOf(Resolved(images, l), order)[i], |images|)
    ensures forall i :: 0 <= i < |order| ==> RefsInRange(CommandsOf(l, order)[i], |images|)
  {
    forall i | 0 <= i < |order| ensures RefsInRange(CommandsOf(l, order)[i], |images|) {
      assert RefsInRange(CommandsOf(Resolved(images, l), order)[i], |images|);
    }
  }

  lemma {:induction false} RowsComplete(
      rows: seq<seq<seq<StateChange>>>, l: Lists, order: seq<CommandRef>, commands: seq<Command>)
    requires Indexed(l, order)
    requires RowsAre(rows, commands, order,
              Progress(|l.writes|, |l.readBacks|, |l.renders|, |l.dispatches|, |l.presents|))
    ensures forall t :: 0 <= t < |rows| ==> rows[t] == Rows(commands, t)
  {
    forall t | 0 <= t < |rows| ensures rows[t] == Rows(commands, t) {
      forall i | 0 <= i < |order| ensures rows[t][i] == Entries(commands[i], t, i) {
        assert InLists(l, order[i]);
      }
    }
  }

  /** Replacing nodes by ones with the same indices keeps the numbering. */
  lemma {:induction false} RenderReplaced(l: Lists, order: seq<CommandRef>, j: nat, node: RenderNode)
    requires Indexed(l, order) && j < |l.renders| && node.index == l.renders[j].index
    ensures Indexed(l.(renders := l.renders[j := node]), order)
  {
    SameIndices(l, l.(renders := l.renders[j := node]), order);
  }

  lemma {:induction false} SameIndices(l: Lists, l': Lists, order: seq<CommandRef>)
    requires Indexed(l, order)
    requires forall r :: InLists(l', r) <==> InLists(l, r)
    requires forall r :: InLists(l, r) ==> IndexOf(l', r) == IndexOf(l, r)
    ensures Indexed(l', order)
  {
  }

  /** Dependencies, then the colour target, then the depth target, each in front of the row. */
  lemma {:induction false} TargetRows(
      rows: seq<seq<seq<StateChange>>>, sampled: seq<seq<seq<StateChange>>>, colored: seq<seq<seq<StateChange>>>,
      rows': seq<seq<seq<StateChange>>>, node: RenderNode)
    requires forall t :: 0 <= t < |rows| ==> node.index < |rows[t]| && rows[t][node.index] == []
    requires RowsPrepended(rows, sampled, Holds(node.index, SAMPLED), node.dependencies)
    requires colored == if node.colorTarget.Some?
              then PutFront(sampled, node.colorTarget.value, StateChange(node.index, FRESH, COLOR)) else sampled
    requires rows' == if node.depthStencilTarget.Some?
              then PutFront(colored, node.depthStencilTarget.value, StateChange(node.index, FRESH, DEPTH)) else colored
    ensures RowReplaced(rows, rows', node.index, RenderOf(node))
  {
    var i := node.index;
    var c := RenderOf(node);
    forall t | 0 <= t < |rows|
      ensures && |rows'[t]| == |rows[t]|
              && forall k :: 0 <= k < |rows[t]| ==> rows'[t][k] == if k == i then Entries(c, t, i) else rows[t][k]
    {
      var third := Repeat(Holds(i, SAMPLED), multiset(node.dependencies)[TextureRef(t)]);
      assert sampled[t][i] == third + [] == third;
      FrontOf(sampled, colored, node.colorTarget, StateChange(i, FRESH, COLOR), t);
      FrontOf(colored, rows', node.depthStencilTarget, StateChange(i, FRESH, DEPTH), t);
    }
  }

  /** Putting a change in front for a target, if there is one, as seen by one texture. */
  lemma {:induction false} FrontOf(
      rows: seq<seq<seq<StateChange>>>, rows': seq<seq<seq<StateChange>>>, target: Option<Ref>, change: StateChange,
      t: nat)
    requires t < |rows| && forall t :: 0 <= t < |rows| ==> change.nodeIndex < |rows[t]|
    requires rows' == if target.Some? then PutFront(rows, target.value, change) else rows
    ensures |rows'| == |rows| && |rows'[t]| == |rows[t]|
    ensures rows'[t][change.nodeIndex] ==
            (if target == Some(TextureRef(t)) then [change] else []) + rows[t][change.nodeIndex]
    ensures forall k :: 0 <= k < |rows[t]| && k != change.nodeIndex ==> rows'[t][k] == rows[t][k]
  {
    assert [] + rows[t][change.nodeIndex] == rows[t][change.nodeIndex];
  }

  lemma {:induction false} KernelRows(
      rows: seq<seq<seq<StateChange>>>, inputs: seq<seq<seq<StateChange>>>, rows': seq<seq<seq<StateChange>>>,
          node: DispatchNode)
    requires forall t :: 0 <= t < |rows| ==> node.index < |rows[t]| && rows[t][node.index] == []
    requires RowsPrepended(rows, inputs, Holds(node.index, KERNEL_IN), node.dependencies)
    requires RowsPrepended(inputs, rows', Holds(node.index, KERNEL_OUT), node.outputs)
    ensures RowReplaced(rows, rows', node.index, Dispatch(node.dependencies, node.outputs))
  {
    var i := node.index;
    forall t | 0 <= t < |rows| ensures rows'[t][i] == Entries(Dispatch(node.dependencies, node.outputs), t, i) {
      var second := Repeat(Holds(i, KERNEL_IN), multiset(node.dependencies)[TextureRef(t)]);
      assert inputs[t][i] == second + [] == second;
    }
  }

  /** The row of `change` in `rows'` starts with one copy of it per occurrence of the texture in `refs`. */
  ghost predicate RowsPrepended(
      rows: seq<seq<seq<StateChange>>>, rows': seq<seq<seq<StateChange>>>, change: StateChange, refs: seq<Ref>) {
    && |rows'| == |rows|
    && forall t :: 0 <= t < |rows| ==>
         && |rows'[t]| == |rows[t]|
         && forall i :: 0 <= i < |rows[t]| ==>
              rows'[t][i] ==
                if i == change.nodeIndex then Repeat(change, multiset(refs)[TextureRef(t)]) + rows[t][i] else rows[t][i]
  }

  lemma {:induction false} PrependOne(
      rows0: seq<seq<seq<StateChange>>>, rows: seq<seq<seq<StateChange>>>, rows': seq<seq<seq<StateChange>>>,
      change: StateChange, refs: seq<Ref>, ref: Ref)
    requires RowsPrepended(rows0, rows, change, refs)
    requires forall t :: 0 <= t < |rows| ==> change.nodeIndex < |rows[t]|
    requires rows' == PutFront(rows, ref, change)
    ensures RowsPrepended(rows0, rows', change, refs + [ref])
  {
    forall t | 0 <= t < |rows|
      ensures |rows'[t]| == |rows0[t]|
      ensures rows'[t][change.nodeIndex] == Repeat(change, multiset(refs + [ref])[TextureRef(t)]) +
                rows0[t][change.nodeIndex]
    {
      PrependAt(rows0[t][change.nodeIndex], change, refs, ref, t);
    }
  }

  lemma {:induction false} PrependAt(row: seq<StateChange>, change: StateChange, refs: seq<Ref>, ref: Ref, t: nat)
    ensures Repeat(change, multiset(refs + [ref])[TextureRef(t)]) + row ==
            (if ref == TextureRef(t) then [change] else []) + (Repeat(change, multiset(refs)[TextureRef(t)]) + row)
  {
    var n := multiset(refs)[TextureRef(t)];
    assert multiset(refs + [ref]) == multiset(refs) + multiset{ref};
    if ref == TextureRef(t) {
      assert Repeat(change, n + 1) == [change] + Repeat(change, n);
      assert [change] + Repeat(change, n) + row == [change] + (Repeat(change, n) + row);
    } else {
      assert [] + (Repeat(change, n) + row) == Repeat(change, n) + row;
    }
  }
}
