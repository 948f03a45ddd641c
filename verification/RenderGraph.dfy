/**
  The render graph as a compiler from commands to image barriers (src/Teide/VulkanGraph.cpp), and the
  machine that executes its output.

  Every texture node collects a list of expected and ensured states, sorted by command index.  Barriers
  are derived from neighbours in that list.  The machine holds one layout per image and gets stuck when a
  barrier's old layout, a copy or a sample does not match it.  The theorem says exactly when it never does.
 */
module RenderGraph {
  import opened Wrappers

  datatype Layout =
    | Undefined | TransferDst | TransferSrc | ShaderReadOnly | DepthStencilReadOnly
    | ColorAttachment | DepthStencilAttachment | General | PresentSrc

  datatype Stage = TopOfPipe | Transfer | FragmentShader | ColorAttachmentOutput | FragmentTests | ComputeShader

  datatype TextureState = TextureState(layout: Layout, stage: Stage)

  const FRESH := TextureState(Undefined, TopOfPipe)
  const COPY_DST := TextureState(TransferDst, Transfer)
  const COPY_SRC := TextureState(TransferSrc, Transfer)
  const SAMPLED := TextureState(ShaderReadOnly, FragmentShader)
  const COLOR := TextureState(ColorAttachment, ColorAttachmentOutput)
  const DEPTH := TextureState(DepthStencilAttachment, FragmentTests)
  const KERNEL_IN := TextureState(ShaderReadOnly, ComputeShader)
  const KERNEL_OUT := TextureState(General, ComputeShader)
  const PRESENTED := TextureState(PresentSrc, TopOfPipe)

  datatype Ref = TextureRef(index: nat) | TextureDataRef(index: nat)

  /**
    A command, its position in the graph being its index.  A render pass depends on all textures its view, objects
    and materials name, but binds, and so samples, only those of its materials.
   */
  datatype Command =
    | Write(target: Ref)
    | Read(source: Ref, expired: bool)
    | Render(dependencies: seq<Ref>, sampled: seq<Ref>, color: Option<Ref>, depth: Option<Ref>)
    | Dispatch(inputs: seq<Ref>, outputs: seq<Ref>)
    | Present(source: Ref)

  datatype StateChange = StateChange(nodeIndex: nat, expected: TextureState, ensured: TextureState)

  /** The image behind a texture node, and whether its format has a depth or stencil component. */
  datatype Image = Image(texture: nat, depthFormat: bool)

  // ---------------------------------------------------------------- state changes

  function LowerBound(changes: seq<StateChange>, nodeIndex: nat): (p: nat)
    ensures p <= |changes|
  {
    if changes == [] || changes[0].nodeIndex >= nodeIndex then 0 else 1 + LowerBound(changes[1..], nodeIndex)
  }

  function Insert(changes: seq<StateChange>, change: StateChange): seq<StateChange> {
    var p := LowerBound(changes, change.nodeIndex);
    changes[..p] + [change] + changes[p..]
  }

  datatype Transition = Transition(from: TextureState, to: TextureState)

  function GetStateTransition(changes: seq<StateChange>, nodeIndex: nat): Option<Transition> {
    var p := LowerBound(changes, nodeIndex);
    if p == |changes| then None
    else Some(Transition(if p == 0 then FRESH else changes[p - 1].ensured, changes[p].expected))
  }

  function Repeat(change: StateChange, n: nat): seq<StateChange> {
    seq(n, _ => change)
  }

  function Holds(nodeIndex: nat, state: TextureState): StateChange {
    StateChange(nodeIndex, state, state)
  }

  /** The changes command `i` contributes to texture node `t`: what is added later comes first. */
  function Entries(c: Command, t: nat, i: nat): seq<StateChange> {
    var ref := TextureRef(t);
    match c
    case Write(target) => if target == ref then [Holds(i, COPY_DST)] else []
    case Read(source, _) => if source == ref then [Holds(i, COPY_SRC)] else []
    case Render(dependencies, _, color, depth) =>
      (if depth == Some(ref) then [StateChange(i, FRESH, DEPTH)] else []) +
      (if color == Some(ref) then [StateChange(i, FRESH, COLOR)] else []) +
      Repeat(Holds(i, SAMPLED), multiset(dependencies)[ref])
    case Dispatch(inputs, outputs) =>
      Repeat(Holds(i, KERNEL_OUT), multiset(outputs)[ref]) + Repeat(Holds(i, KERNEL_IN), multiset(inputs)[ref])
    case Present(source) => if source == ref then [Holds(i, PRESENTED)] else []
  }

  function Flatten(rows: seq<seq<StateChange>>): seq<StateChange> {
    if rows == [] then [] else Flatten(rows[..|rows| - 1]) + rows[|rows| - 1]
  }

  function Rows(commands: seq<Command>, t: nat): seq<seq<StateChange>> {
    seq(|commands|, i requires 0 <= i < |commands| => Entries(commands[i], t, i))
  }

  /** The state changes of texture node `t`, by command index: independent of the order they were added in. */
  function Changes(commands: seq<Command>, t: nat): seq<StateChange> {
    Flatten(Rows(commands, t))
  }

  /** Row `k` holds the changes of command `k` only. */
  ghost predicate RowsIndexed(rows: seq<seq<StateChange>>) {
    forall k, j :: 0 <= k < |rows| && 0 <= j < |rows[k]| ==> rows[k][j].nodeIndex == k
  }

  lemma {:induction false} FlattenConcat(a: seq<seq<StateChange>>, b: seq<seq<StateChange>>)
    ensures Flatten(a + b) == Flatten(a) + Flatten(b)
    decreases |b|
  {
    if b == [] {
      assert a + b == a;
    } else {
      var n := |b| - 1;
      assert (a + b)[..|a + b| - 1] == a + b[..n] && (a + b)[|a + b| - 1] == b[n];
      FlattenConcat(a, b[..n]);
      assert Flatten(a + b) == Flatten(a + b[..n]) + b[n];
      assert Flatten(a) + Flatten(b[..n]) + b[n] == Flatten(a) + (Flatten(b[..n]) + b[n]);
    }
  }

  lemma {:induction false} FlattenBounds(rows: seq<seq<StateChange>>, base: nat, p: nat)
    requires forall k, j :: 0 <= k < |rows| && 0 <= j < |rows[k]| ==> rows[k][j].nodeIndex == base + k
    requires p < |Flatten(rows)|
    ensures base <= Flatten(rows)[p].nodeIndex < base + |rows|
  {
    var n := |rows| - 1;
    if p < |Flatten(rows[..n])| {
      FlattenBounds(rows[..n], base, p);
    }
  }

  lemma {:induction false} LowerBoundSplits(a: seq<StateChange>, b: seq<StateChange>, i: nat)
    requires forall p :: 0 <= p < |a| ==> a[p].nodeIndex < i
    requires forall p :: 0 <= p < |b| ==> b[p].nodeIndex >= i
    ensures LowerBound(a + b, i) == |a|
  {
    if a != [] {
      assert (a + b)[1..] == a[1..] + b;
      LowerBoundSplits(a[1..], b, i);
    } else {
      assert a + b == b;
    }
  }

  lemma {:induction false} SplitAtRow(rows: seq<seq<StateChange>>, i: nat)
    requires i < |rows|
    ensures Flatten(rows) == Flatten(rows[..i]) + (rows[i] + Flatten(rows[i + 1..]))
    ensures Flatten(rows[i..]) == rows[i] + Flatten(rows[i + 1..])
  {
    assert rows == rows[..i] + rows[i..];
    FlattenConcat(rows[..i], rows[i..]);
    assert rows[i..] == [rows[i]] + rows[i + 1..];
    FlattenConcat([rows[i]], rows[i + 1..]);
    assert Flatten([rows[i]]) == rows[i] by { assert [rows[i]][..0] == []; }
  }

  /** The lower bound of `i` is where row `i` starts. */
  lemma {:induction false} LowerBoundOfRow(rows: seq<seq<StateChange>>, i: nat)
    requires RowsIndexed(rows) && i < |rows|
    ensures LowerBound(Flatten(rows), i) == |Flatten(rows[..i])|
  {
    var a, b := Flatten(rows[..i]), Flatten(rows[i..]);
    SplitAtRow(rows, i);
    forall p | 0 <= p < |a| ensures a[p].nodeIndex < i {
      FlattenBounds(rows[..i], 0, p);
    }
    forall p | 0 <= p < |b| ensures b[p].nodeIndex >= i {
      FlattenBounds(rows[i..], i, p);
    }
    LowerBoundSplits(a, b, i);
  }

  /** Adding a change puts it in front of its row and leaves every other row alone. */
  lemma {:induction false} InsertIntoRow(rows: seq<seq<StateChange>>, change: StateChange)
    requires RowsIndexed(rows) && change.nodeIndex < |rows|
    ensures var rows' := rows[change.nodeIndex := [change] + rows[change.nodeIndex]];
            RowsIndexed(rows') && Insert(Flatten(rows), change) == Flatten(rows')
  {
    var i := change.nodeIndex;
    var rows' := rows[i := [change] + rows[i]];
    LowerBoundOfRow(rows, i);
    SplitAtRow(rows, i);
    SplitAtRow(rows', i);
    assert rows'[..i] == rows[..i] && rows'[i + 1..] == rows[i + 1..];
    var a, b := Flatten(rows[..i]), rows[i] + Flatten(rows[i + 1..]);
    assert Flatten(rows)[..|a|] == a && Flatten(rows)[|a|..] == b;
    assert [change] + rows[i] + Flatten(rows[i + 1..]) == [change] + b;
    assert a + ([change] + b) == a + [change] + b;
  }

  /** A texture's state changes are sorted by command index. */
  lemma {:induction false} ChangesSorted(commands: seq<Command>, t: nat, p: nat, q: nat)
    requires p < q < |Changes(commands, t)|
    ensures Changes(commands, t)[p].nodeIndex <= Changes(commands, t)[q].nodeIndex
  {
    FlattenSorted(Rows(commands, t), p, q);
  }

  lemma {:induction false} FlattenSorted(rows: seq<seq<StateChange>>, p: nat, q: nat)
    requires RowsIndexed(rows) && p < q < |Flatten(rows)|
    ensures Flatten(rows)[p].nodeIndex <= Flatten(rows)[q].nodeIndex
  {
    var n := |rows| - 1;
    var before := Flatten(rows[..n]);
    if q < |before| {
      FlattenSorted(rows[..n], p, q);
    } else if p < |before| {
      FlattenBounds(rows[..n], 0, p);
    }
  }

  // ---------------------------------------------------------------- recording

  datatype Sample = Sample(texture: nat, layout: Layout)

  datatype Op =
    | Barrier(texture: nat, from: Layout, to: Layout)
    | CopyToImage(texture: nat)
    | CopyFromImage(texture: nat)
    | RenderPass(samples: seq<Sample>, color: Option<nat>, depth: Option<nat>)

  /** A barrier is recorded only when the state changes, but then also when only its stage does. */
  function TransitionOps(texture: nat, transition: Option<Transition>): seq<Op> {
    if transition.Some? && transition.value.from != transition.value.to
    then [Barrier(texture, transition.value.from.layout, transition.value.to.layout)] else []
  }

  ghost predicate RefsInRange(c: Command, textures: nat) {
    match c
    case Write(target) => target.TextureRef? && target.index < textures
    case Read(source, _) => source.TextureRef? && source.index < textures
    case Render(dependencies, sampled, color, depth) =>
      && (forall i :: 0 <= i < |dependencies| ==> dependencies[i].TextureRef? && dependencies[i].index < textures)
      && (forall i :: 0 <= i < |sampled| ==>
            sampled[i].TextureRef? && sampled[i].index < textures && sampled[i] in dependencies)
      && (color.Some? ==> color.value.TextureRef? && color.value.index < textures)
      && (depth.Some? ==> depth.value.TextureRef? && depth.value.index < textures)
    case Dispatch(inputs, outputs) =>
      && (forall i :: 0 <= i < |inputs| && inputs[i].TextureRef? ==> inputs[i].index < textures)
      && (forall i :: 0 <= i < |outputs| && outputs[i].TextureRef? ==> outputs[i].index < textures)
    case Present(source) => source.TextureRef? ==> source.index < textures
  }

  /** The descriptor of a sampled image names its layout by format. */
  function SampleOf(image: Image): Sample {
    Sample(image.texture, if image.depthFormat then DepthStencilReadOnly else ShaderReadOnly)
  }

  function DependencyOps(dependencies: seq<Ref>, images: seq<Image>, transitions: seq<Option<Transition>>): seq<Op>
    requires |transitions| == |images|
    requires forall k :: 0 <= k < |dependencies| ==> dependencies[k].index < |images|
  {
    if dependencies == [] then []
    else
      var n := |dependencies| - 1;
      var t := dependencies[n].index;
      DependencyOps(dependencies[..n], images, transitions) + TransitionOps(images[t].texture, transitions[t])
  }

  function Samples(sampled: seq<Ref>, images: seq<Image>): seq<Sample>
    requires forall k :: 0 <= k < |sampled| ==> sampled[k].index < |images|
  {
    seq(|sampled|, k requires 0 <= k < |sampled| => SampleOf(images[sampled[k].index]))
  }

  function ImageOf(ref: Option<Ref>, images: seq<Image>): Option<nat>
    requires ref.Some? ==> ref.value.index < |images|
  {
    if ref.Some? then Some(images[ref.value.index].texture) else None
  }

  /** What a command records into its own command buffer, given each texture's transition at its index. */
  function Record(c: Command, images: seq<Image>, transitions: seq<Option<Transition>>): seq<Op>
    requires RefsInRange(c, |images|) && |transitions| == |images|
  {
    match c
    case Write(target) =>
      var image := images[target.index].texture;
      TransitionOps(image, transitions[target.index]) + [CopyToImage(image)]
    case Read(source, expired) =>
      var image := images[source.index].texture;
      if expired then [] else TransitionOps(image, transitions[source.index]) + [CopyFromImage(image)]
    case Render(dependencies, sampled, color, depth) =>
      DependencyOps(dependencies, images, transitions) +
      [RenderPass(Samples(sampled, images), ImageOf(color, images), ImageOf(depth, images))]
    case Dispatch(_, _) => []
    case Present(_) => []
  }

  // ---------------------------------------------------------------- the executing machine

  type Layouts = map<nat, Layout>

  /** One operation; None when the image is not in the layout the operation names. */
  function Execute(op: Op, layouts: Layouts): Option<Layouts> {
    match op
    case Barrier(x, from, to) => if x in layouts && layouts[x] == from then Some(layouts[x := to]) else None
    case CopyToImage(x) => if x in layouts && layouts[x] == TransferDst then Some(layouts) else None
    case CopyFromImage(x) => if x in layouts && layouts[x] == TransferSrc then Some(layouts) else None
    case RenderPass(samples, color, depth) =>
      if forall k :: 0 <= k < |samples| ==>
          samples[k].texture in layouts && layouts[samples[k].texture] == samples[k].layout
      then
        var afterColor := if color.Some? then layouts[color.value := ColorAttachment] else layouts;
        Some(if depth.Some? then afterColor[depth.value := DepthStencilAttachment] else afterColor)
      else None
  }

  function Replay(ops: seq<Op>, layouts: Layouts): Option<Layouts> {
    if ops == [] then Some(layouts)
    else
      var before := Replay(ops[..|ops| - 1], layouts);
      if before.Some? then Execute(ops[|ops| - 1], before.value) else None
  }

  function ReplayAll(buffers: seq<seq<Op>>, layouts: Layouts): Option<Layouts> {
    if buffers == [] then Some(layouts)
    else
      var before := ReplayAll(buffers[..|buffers| - 1], layouts);
      if before.Some? then Replay(buffers[|buffers| - 1], before.value) else None
  }

  lemma {:induction false} ReplayConcat(a: seq<Op>, b: seq<Op>, layouts: Layouts)
    ensures Replay(a + b, layouts) == if Replay(a, layouts).Some? then Replay(b, Replay(a, layouts).value) else None
    decreases |b|
  {
    if b == [] {
      assert a + b == a;
    } else {
      var n := |b| - 1;
      assert (a + b)[..|a + b| - 1] == a + b[..n];
      ReplayConcat(a, b[..n], layouts);
    }
  }

  lemma {:induction false} ReplayOne(op: Op, layouts: Layouts)
    ensures Replay([op], layouts) == Execute(op, layouts)
  {
    assert [op][..0] == [];
  }

  // ---------------------------------------------------------------- the exact condition

  /** The state a command claims to leave texture `t` in, if it names it. */
  function Claim(c: Command, t: nat): Option<TextureState> {
    var ref := TextureRef(t);
    match c
    case Write(target) => if target == ref then Some(COPY_DST) else None
    case Read(source, _) => if source == ref then Some(COPY_SRC) else None
    case Render(dependencies, _, color, depth) =>
      if ref in dependencies then Some(SAMPLED)
      else if color == Some(ref) then Some(COLOR)
      else if depth == Some(ref) then Some(DEPTH) else None
    case Dispatch(inputs, outputs) =>
      if ref in inputs then Some(KERNEL_IN) else if ref in outputs then Some(KERNEL_OUT) else None
    case Present(source) => if source == ref then Some(PRESENTED) else None
  }

  /** The state the recorder takes texture `t` to be in before command `i`: what the last command naming it claims. */
  function Claimed(commands: seq<Command>, t: nat, i: nat): TextureState
    requires i <= |commands|
  {
    if i == 0 then FRESH
    else if Claim(commands[i - 1], t).Some? then Claim(commands[i - 1], t).value
    else Claimed(commands, t, i - 1)
  }

  /** The layout a command leaves texture `t` in, if it records anything for it. */
  function Leaves(c: Command, t: nat): Option<Layout> {
    var ref := TextureRef(t);
    match c
    case Write(target) => if target == ref then Some(TransferDst) else None
    case Read(source, expired) => if source == ref && !expired then Some(TransferSrc) else None
    case Render(dependencies, _, color, depth) =>
      if color == Some(ref) then Some(ColorAttachment)
      else if depth == Some(ref) then Some(DepthStencilAttachment)
      else if ref in dependencies then Some(ShaderReadOnly) else None
    case Dispatch(_, _) => None
    case Present(_) => None
  }

  /** What the last command that really touched `t` left. */
  function Left(commands: seq<Command>, t: nat, i: nat): Layout
    requires i <= |commands|
  {
    if i == 0 then Undefined
    else if Leaves(commands[i - 1], t).Some? then Leaves(commands[i - 1], t).value
    else Left(commands, t, i - 1)
  }

  predicate NeedsTexture(c: Command, t: nat) {
    c.Render? && TextureRef(t) in c.dependencies
  }

  predicate SamplesTexture(c: Command, t: nat) {
    c.Render? && TextureRef(t) in c.sampled
  }

  /** The command copies `t` or depends on it, so it relies on a barrier for it. */
  predicate Transitions(c: Command, t: nat) {
    c == Write(TextureRef(t)) || c == Read(TextureRef(t), false) || NeedsTexture(c, t)
  }

  /**
    A command is fed properly when the last claim about each texture it copies or depends on is true, when
    what it samples is not of a depth format, and when it depends on a texture several times only if it is
    already readable.
   */
  ghost predicate FedBy(c: Command, t: nat, image: Image, claim: TextureState, left: Layout) {
    && (Transitions(c, t) ==> claim.layout == left)
    && (SamplesTexture(c, t) ==> !image.depthFormat)
    && (NeedsTexture(c, t) && multiset(c.dependencies)[TextureRef(t)] > 1 ==> claim.layout == ShaderReadOnly)
  }

  ghost predicate Fed(commands: seq<Command>, images: seq<Image>, i: nat, t: nat)
    requires i < |commands| && t < |images|
  {
    FedBy(commands[i], t, images[t], Claimed(commands, t, i), Left(commands, t, i))
  }

  ghost predicate AllFed(commands: seq<Command>, images: seq<Image>, n: nat)
    requires n <= |commands|
  {
    forall i, t :: 0 <= i < n && 0 <= t < |images| ==> Fed(commands, images, i, t)
  }

  /** Texture nodes stand for distinct images, and a render pass neither samples its targets nor uses one twice. */
  ghost predicate WellFormed(commands: seq<Command>, images: seq<Image>) {
    && Distinct(images)
    && (forall i :: 0 <= i < |commands| ==> RefsInRange(commands[i], |images|))
    && (forall i :: 0 <= i < |commands| && commands[i].Render? ==> TargetsApart(commands[i]))
  }

  ghost predicate TargetsApart(c: Command)
    requires c.Render?
  {
    && (c.color.Some? ==> c.color.value !in c.dependencies && c.color != c.depth)
    && (c.depth.Some? ==> c.depth.value !in c.dependencies)
  }

  function AllChanges(commands: seq<Command>, textures: nat): seq<seq<StateChange>> {
    seq(textures, t requires 0 <= t < textures => Changes(commands, t))
  }

  function TransitionsAt(changes: seq<seq<StateChange>>, i: nat): seq<Option<Transition>> {
    seq(|changes|, t requires 0 <= t < |changes| => GetStateTransition(changes[t], i))
  }

  function Buffers(commands: seq<Command>, images: seq<Image>): seq<seq<Op>>
    requires WellFormed(commands, images)
  {
    var changes := AllChanges(commands, |images|);
    seq(|commands|, i requires 0 <= i < |commands| => Record(commands[i], images, TransitionsAt(changes, i)))
  }

  // ---------------------------------------------------------------- what the recorder derives

  lemma {:induction false} RowsAreIndexed(commands: seq<Command>, t: nat)
    ensures RowsIndexed(Rows(commands, t))
  {
  }

  lemma {:induction false} ClaimIsLastEntry(c: Command, t: nat, i: nat)
    ensures var es := Entries(c, t, i); Claim(c, t) == if es == [] then None else Some(es[|es| - 1].ensured)
  {
    var ref := TextureRef(t);
    if c.Render? {
      assert ref in c.dependencies <==> multiset(c.dependencies)[ref] > 0;
    } else if c.Dispatch? {
      assert ref in c.inputs <==> multiset(c.inputs)[ref] > 0;
      assert ref in c.outputs <==> multiset(c.outputs)[ref] > 0;
    }
  }

  /** The state ensured last among the first `i` rows. */
  function EnsuredBefore(rows: seq<seq<StateChange>>, i: nat): TextureState
    requires i <= |rows|
  {
    if i == 0 then FRESH
    else if rows[i - 1] != [] then rows[i - 1][|rows[i - 1]| - 1].ensured
    else EnsuredBefore(rows, i - 1)
  }

  /** The row ends with what its command claims, and is empty if that claims nothing. */
  ghost predicate EndsInClaim(row: seq<StateChange>, claim: Option<TextureState>) {
    claim == if row == [] then None else Some(row[|row| - 1].ensured)
  }

  lemma {:induction false} RowsEndInClaims(commands: seq<Command>, t: nat)
    ensures |Rows(commands, t)| == |commands|
    ensures forall k :: 0 <= k < |commands| ==> EndsInClaim(Rows(commands, t)[k], Claim(commands[k], t))
  {
    forall k | 0 <= k < |commands| ensures EndsInClaim(Rows(commands, t)[k], Claim(commands[k], t)) {
      ClaimIsLastEntry(commands[k], t, k);
    }
  }

  lemma {:induction false} EnsuredIsClaimed(commands: seq<Command>, t: nat, rows: seq<seq<StateChange>>, i: nat)
    requires i <= |commands| == |rows|
    requires forall k :: 0 <= k < |commands| ==> EndsInClaim(rows[k], Claim(commands[k], t))
    ensures EnsuredBefore(rows, i) == Claimed(commands, t, i)
  {
    if i > 0 {
      EnsuredIsClaimed(commands, t, rows, i - 1);
      assert EndsInClaim(rows[i - 1], Claim(commands[i - 1], t));
    }
  }

  lemma {:induction false} EnsuredIsLast(rows: seq<seq<StateChange>>, i: nat)
    requires i <= |rows|
    ensures var before := Flatten(rows[..i]);
            EnsuredBefore(rows, i) == if before == [] then FRESH else before[|before| - 1].ensured
  {
    if i > 0 {
      EnsuredIsLast(rows, i - 1);
      OneMoreRow(rows, i);
    }
  }

  /** The last change among the first `i` rows is that of row i - 1, or lies in an earlier one if that is empty. */
  lemma {:induction false} OneMoreRow(rows: seq<seq<StateChange>>, i: nat)
    requires 0 < i <= |rows|
    ensures var before, after, last := Flatten(rows[..i - 1]), Flatten(rows[..i]), rows[i - 1];
            if last == [] then after == before else after != [] && after[|after| - 1] == last[|last| - 1]
  {
    assert rows[..i][..i - 1] == rows[..i - 1];
    var before, last := Flatten(rows[..i - 1]), rows[i - 1];
    assert Flatten(rows[..i]) == before + last;
    assert last == [] ==> before + last == before;
  }

  /** The last ensured state among the first `i` rows is what the commands claim. */
  lemma {:induction false} LastEnsured(commands: seq<Command>, t: nat, i: nat)
    requires i <= |commands|
    ensures var before := Flatten(Rows(commands, t)[..i]);
            Claimed(commands, t, i) == if before == [] then FRESH else before[|before| - 1].ensured
  {
    RowsEndInClaims(commands, t);
    EnsuredIsClaimed(commands, t, Rows(commands, t), i);
    EnsuredIsLast(Rows(commands, t), i);
  }

  /** A command that names a texture gets the transition from the last claim to its own expectation. */
  lemma {:induction false} TransitionIsClaim(commands: seq<Command>, t: nat, i: nat)
    requires i < |commands| && Entries(commands[i], t, i) != []
    ensures GetStateTransition(Changes(commands, t), i)
              == Some(Transition(Claimed(commands, t, i), Entries(commands[i], t, i)[0].expected))
  {
    var rows := Rows(commands, t);
    RowsAreIndexed(commands, t);
    LowerBoundOfRow(rows, i);
    LastEnsured(commands, t, i);
    SplitAtRow(rows, i);
    var before := Flatten(rows[..i]);
    assert Flatten(rows)[|before|] == rows[i][0];
  }

  lemma {:induction false} EntriesOfSample(c: Command, t: nat, i: nat)
    requires c.Render? && TargetsApart(c) && TextureRef(t) in c.dependencies
    ensures Entries(c, t, i) != [] && Entries(c, t, i)[0].expected == SAMPLED
  {
    assert multiset(c.dependencies)[TextureRef(t)] > 0;
  }

  // ---------------------------------------------------------------- one command

  /** The machine agrees with `lefts`, the layouts left by the commands so far. */
  ghost predicate Tracks(layouts: Layouts, images: seq<Image>, lefts: seq<Layout>) {
    |lefts| == |images| && forall t :: 0 <= t < |images| ==>
        images[t].texture in layouts && layouts[images[t].texture] == lefts[t]
  }

  ghost predicate Distinct(images: seq<Image>) {
    forall s, t :: 0 <= s < t < |images| ==> images[s].texture != images[t].texture
  }

  function LeftAfter(c: Command, lefts: seq<Layout>): seq<Layout> {
    seq(|lefts|, t requires 0 <= t < |lefts| => if Leaves(c, t).Some? then Leaves(c, t).value else lefts[t])
  }

  function Wanted(c: Command): TextureState {
    if c.Write? then COPY_DST else if c.Read? then COPY_SRC else SAMPLED
  }

  /** The recorder hands each transitioning command the step from the last claim to what it wants. */
  ghost predicate Supplied(c: Command, claims: seq<TextureState>, transitions: seq<Option<Transition>>) {
    && |transitions| == |claims|
    && forall t: nat :: t < |claims| && Transitions(c, t) ==> transitions[t] == Some(Transition(claims[t], Wanted(c)))
  }

  ghost predicate FedByAll(c: Command, images: seq<Image>, claims: seq<TextureState>, lefts: seq<Layout>)
    requires |claims| == |lefts| == |images|
  {
    forall t: nat :: t < |images| ==> FedBy(c, t, images[t], claims[t], lefts[t])
  }

  /** Executing one transition and then an operation that needs its target layout. */
  lemma {:induction false} TransitionThen(x: nat, claim: TextureState, want: TextureState, op: Op, layouts: Layouts)
    requires x in layouts
    requires forall l: Layouts :: x in l ==> Execute(op, l) == if l[x] == want.layout then Some(l) else None
    ensures var ops := TransitionOps(x, Some(Transition(claim, want))) + [op];
            Replay(ops, layouts) == if layouts[x] == claim.layout then Some(layouts[x := want.layout]) else None
  {
    var barrier := TransitionOps(x, Some(Transition(claim, want)));
    ReplayConcat(barrier, [op], layouts);
    if claim != want {
      ReplayOne(Barrier(x, claim.layout, want.layout), layouts);
      if layouts[x] == claim.layout {
        ReplayOne(op, layouts[x := want.layout]);
      }
    } else {
      ReplayOne(op, layouts);
      if layouts[x] == want.layout {
        assert layouts[x := want.layout] == layouts;
      }
    }
  }

  lemma {:induction false} CopyCommand(
      c: Command, t: nat, images: seq<Image>, claims: seq<TextureState>, lefts: seq<Layout>,
      transitions: seq<Option<Transition>>, layouts: Layouts)
    requires Distinct(images) && |claims| == |images| && t < |images| && Tracks(layouts, images, lefts)
    requires c == Write(TextureRef(t)) || c == Read(TextureRef(t), false)
    requires Supplied(c, claims, transitions)
    ensures var r := Replay(Record(c, images, transitions), layouts);
            && (r.Some? <==> FedByAll(c, images, claims, lefts))
            && (r.Some? ==> Tracks(r.value, images, LeftAfter(c, lefts)))
  {
    var x := images[t].texture;
    var op := if c.Write? then CopyToImage(x) else CopyFromImage(x);
    assert Transitions(c, t);
    TransitionThen(x, claims[t], Wanted(c), op, layouts);
    assert FedByAll(c, images, claims, lefts) <==> FedBy(c, t, images[t], claims[t], lefts[t]);
  }

  /** After their barriers, the dependencies that needed one are readable. */
  ghost predicate Readied(
      layouts: Layouts, images: seq<Image>, dependencies: seq<Ref>, claims: seq<TextureState>, lefts: seq<Layout>)
    requires |claims| == |lefts| == |images|
  {
    forall t :: 0 <= t < |images| ==>
      && images[t].texture in layouts
      && layouts[images[t].texture] ==
           if TextureRef(t) in dependencies && claims[t] != SAMPLED then ShaderReadOnly else lefts[t]
  }

  /** The barriers of texture `t` go through. */
  ghost predicate BarriersPass(dependencies: seq<Ref>, t: nat, claim: TextureState, left: Layout) {
    var times := multiset(dependencies)[TextureRef(t)];
    && (times > 0 && claim != SAMPLED ==> claim.layout == left)
    && (times > 1 && claim != SAMPLED ==> claim.layout == ShaderReadOnly)
  }

  ghost predicate AllBarriersPass(dependencies: seq<Ref>, claims: seq<TextureState>, lefts: seq<Layout>)
    requires |claims| == |lefts|
  {
    forall t: nat :: t < |claims| ==> BarriersPass(dependencies, t, claims[t], lefts[t])
  }

  /** All dependencies are texture nodes whose transition leads to the sampled state. */
  ghost predicate Sampling(dependencies: seq<Ref>, claims: seq<TextureState>, transitions: seq<Option<Transition>>) {
    && |transitions| == |claims|
    && forall k :: 0 <= k < |dependencies| ==>
         && dependencies[k].TextureRef? && dependencies[k].index < |claims|
         && transitions[dependencies[k].index] == Some(Transition(claims[dependencies[k].index], SAMPLED))
  }

  lemma {:induction false} DependencyBarriers(
      dependencies: seq<Ref>, images: seq<Image>, claims: seq<TextureState>, lefts: seq<Layout>,
      transitions: seq<Option<Transition>>, layouts: Layouts)
    requires Distinct(images) && |claims| == |images| && Tracks(layouts, images, lefts)
    requires Sampling(dependencies, claims, transitions)
    ensures var r := Replay(DependencyOps(dependencies, images, transitions), layouts);
            && (r.Some? <==> AllBarriersPass(dependencies, claims, lefts))
            && (r.Some? ==> Readied(r.value, images, dependencies, claims, lefts))
  {
    if dependencies != [] {
      var n := |dependencies| - 1;
      var before, t := dependencies[..n], dependencies[n].index;
      DependencyBarriers(before, images, claims, lefts, transitions, layouts);
      OneMoreBarrier(before, t, claims, lefts);
      assert dependencies == before + [TextureRef(t)];
      var first, last := DependencyOps(before, images, transitions), TransitionOps(images[t].texture, transitions[t]);
      assert DependencyOps(dependencies, images, transitions) == first + last;
      assert transitions[t] == Some(Transition(claims[t], SAMPLED));
      ReplayConcat(first, last, layouts);
      var r := Replay(first, layouts);
      if r.Some? {
        LastBarrier(before, t, images, claims, lefts, r.value);
      }
    }
  }

  /** What the barrier of `t` needs after those of `before`. */
  ghost predicate LastPasses(before: seq<Ref>, t: nat, claim: TextureState, left: Layout) {
    claim == SAMPLED || claim.layout == if TextureRef(t) in before then ShaderReadOnly else left
  }

  lemma {:induction false} LastBarrier(
      before: seq<Ref>, t: nat, images: seq<Image>, claims: seq<TextureState>, lefts: seq<Layout>, layouts: Layouts)
    requires Distinct(images) && |claims| == |lefts| == |images| && t < |images|
    requires Readied(layouts, images, before, claims, lefts)
    ensures var r := Replay(TransitionOps(images[t].texture, Some(Transition(claims[t], SAMPLED))), layouts);
            && (r.Some? <==> LastPasses(before, t, claims[t], lefts[t]))
            && (r.Some? ==> Readied(r.value, images, before + [TextureRef(t)], claims, lefts))
  {
    if claims[t] != SAMPLED {
      ReplayOne(Barrier(images[t].texture, claims[t].layout, ShaderReadOnly), layouts);
    }
  }

  lemma {:induction false} OneMoreBarrier(before: seq<Ref>, t: nat, claims: seq<TextureState>, lefts: seq<Layout>)
    requires |claims| == |lefts| && t < |claims|
    ensures AllBarriersPass(before + [TextureRef(t)], claims, lefts) <==>
              AllBarriersPass(before, claims, lefts) && LastPasses(before, t, claims[t], lefts[t])
  {
    var all := before + [TextureRef(t)];
    assert multiset(all) == multiset(before) + multiset{TextureRef(t)};
    assert TextureRef(t) in before <==> multiset(before)[TextureRef(t)] > 0;
    forall s: nat | s < |claims| && s != t
      ensures BarriersPass(all, s, claims[s], lefts[s]) <==> BarriersPass(before, s, claims[s], lefts[s])
    {
      assert TextureRef(s) != TextureRef(t);
    }
    assert BarriersPass(all, t, claims[t], lefts[t]) <==>
      BarriersPass(before, t, claims[t], lefts[t]) && LastPasses(before, t, claims[t], lefts[t]);
  }

  lemma {:induction false} RenderCommand(
      c: Command, images: seq<Image>, claims: seq<TextureState>, lefts: seq<Layout>,
      transitions: seq<Option<Transition>>, layouts: Layouts)
    requires Distinct(images) && |claims| == |images| && Tracks(layouts, images, lefts) && DepthReadOnlyFree(lefts)
    requires SampledLeft(claims, lefts)
    requires c.Render? && TargetsApart(c) && RefsInRange(c, |images|) && Supplied(c, claims, transitions)
    ensures var r := Replay(Record(c, images, transitions), layouts);
            && (r.Some? <==> FedByAll(c, images, claims, lefts))
            && (r.Some? ==> Tracks(r.value, images, LeftAfter(c, lefts)))
  {
    DependencyBarriers(c.dependencies, images, claims, lefts, transitions, layouts);
    var barriers := DependencyOps(c.dependencies, images, transitions);
    var pass := RenderPass(Samples(c.sampled, images), ImageOf(c.color, images), ImageOf(c.depth, images));
    assert Record(c, images, transitions) == barriers + [pass];
    ReplayConcat(barriers, [pass], layouts);
    var r := Replay(barriers, layouts);
    if r.Some? {
      ReplayOne(pass, r.value);
      PassOutcome(c, images, claims, lefts, r.value);
    } else {
      BlockedIsUnfed(c, images, claims, lefts);
    }
  }

  lemma {:induction false} PassOutcome(
      c: Command, images: seq<Image>, claims: seq<TextureState>, lefts: seq<Layout>, layouts: Layouts)
    requires Distinct(images) && c.Render? && TargetsApart(c) && RefsInRange(c, |images|)
    requires |claims| == |lefts| == |images|
    requires DepthReadOnlyFree(lefts) && SampledLeft(claims, lefts)
    requires Readied(layouts, images, c.dependencies, claims, lefts)
    requires AllBarriersPass(c.dependencies, claims, lefts)
    ensures var r :=
              Execute(RenderPass(Samples(c.sampled, images), ImageOf(c.color, images), ImageOf(c.depth, images)),
                  layouts);
            && (r.Some? <==> FedByAll(c, images, claims, lefts))
            && (r.Some? ==> Tracks(r.value, images, LeftAfter(c, lefts)))
  {
    PassNeeds(c, images, claims, lefts, layouts);
    if FedByAll(c, images, claims, lefts) {
      PassLeaves(c, images, claims, lefts, layouts);
    }
  }

  lemma {:induction false} BlockedIsUnfed(c: Command, images: seq<Image>, claims: seq<TextureState>, lefts: seq<Layout>)
    requires c.Render? && |claims| == |lefts| == |images| && !AllBarriersPass(c.dependencies, claims, lefts)
    ensures !FedByAll(c, images, claims, lefts)
  {
    var t: nat :| t < |claims| && !BarriersPass(c.dependencies, t, claims[t], lefts[t]);
    assert TextureRef(t) in c.dependencies;
    assert !FedBy(c, t, images[t], claims[t], lefts[t]);
  }

  /** No recorded command leaves an image in the layout that depth-format descriptors name. */
  ghost predicate DepthReadOnlyFree(lefts: seq<Layout>) {
    forall t :: 0 <= t < |lefts| ==> lefts[t] != DepthStencilReadOnly
  }

  /** What was last claimed to be sampled has been left readable. */
  ghost predicate SampledLeft(claims: seq<TextureState>, lefts: seq<Layout>) {
    |claims| == |lefts| && forall t :: 0 <= t < |claims| && claims[t] == SAMPLED ==> lefts[t] == ShaderReadOnly
  }

  ghost predicate SamplesMatch(samples: seq<Sample>, layouts: Layouts) {
    forall k :: 0 <= k < |samples| ==> samples[k].texture in layouts && layouts[samples[k].texture] == samples[k].layout
  }

  lemma {:induction false} PassNeeds(
      c: Command, images: seq<Image>, claims: seq<TextureState>, lefts: seq<Layout>, layouts: Layouts)
    requires c.Render? && RefsInRange(c, |images|) && |claims| == |lefts| == |images| && DepthReadOnlyFree(lefts)
    requires SampledLeft(claims, lefts)
    requires Readied(layouts, images, c.dependencies, claims, lefts) && AllBarriersPass(c.dependencies, claims, lefts)
    ensures SamplesMatch(Samples(c.sampled, images), layouts) <==> FedByAll(c, images, claims, lefts)
  {
    var samples := Samples(c.sampled, images);
    if SamplesMatch(samples, layouts) {
      forall t: nat | t < |images| ensures FedBy(c, t, images[t], claims[t], lefts[t]) {
        assert BarriersPass(c.dependencies, t, claims[t], lefts[t]);
        assert NeedsTexture(c, t) <==> multiset(c.dependencies)[TextureRef(t)] > 0;
        if SamplesTexture(c, t) {
          var k :| 0 <= k < |c.sampled| && c.sampled[k] == TextureRef(t);
          assert samples[k] == SampleOf(images[t]);
        }
      }
    } else {
      var k :|
        0 <= k < |samples| && !(samples[k].texture in layouts && layouts[samples[k].texture] == samples[k].layout);
      var t := c.sampled[k].index;
      assert c.sampled[k] == TextureRef(t);
      assert !FedBy(c, t, images[t], claims[t], lefts[t]);
    }
  }

  lemma {:induction false} PassLeaves(
      c: Command, images: seq<Image>, claims: seq<TextureState>, lefts: seq<Layout>, layouts: Layouts)
    requires Distinct(images) && c.Render? && TargetsApart(c) && RefsInRange(c, |images|)
    requires |claims| == |lefts| == |images|
    requires Readied(layouts, images, c.dependencies, claims, lefts) && FedByAll(c, images, claims, lefts)
    requires SamplesMatch(Samples(c.sampled, images), layouts)
    ensures var r :=
              Execute(RenderPass(Samples(c.sampled, images), ImageOf(c.color, images), ImageOf(c.depth, images)),
                  layouts);
            r.Some? && Tracks(r.value, images, LeftAfter(c, lefts))
  {
    var r := Execute(RenderPass(Samples(c.sampled, images), ImageOf(c.color, images), ImageOf(c.depth, images)),
        layouts);
    forall t | 0 <= t < |images|
      ensures images[t].texture in r.value && r.value[images[t].texture] == LeftAfter(c, lefts)[t]
    {
      assert FedBy(c, t, images[t], claims[t], lefts[t]);
      if c.color.Some? && c.color.value.index != t { assert images[c.color.value.index].texture != images[t].texture; }
      if c.depth.Some? && c.depth.value.index != t { assert images[c.depth.value.index].texture != images[t].texture; }
    }
  }

  lemma {:induction false} AnyCommand(
      c: Command, images: seq<Image>, claims: seq<TextureState>, lefts: seq<Layout>,
      transitions: seq<Option<Transition>>, layouts: Layouts)
    requires Distinct(images) && |claims| == |images| && Tracks(layouts, images, lefts) && DepthReadOnlyFree(lefts)
    requires SampledLeft(claims, lefts)
    requires RefsInRange(c, |images|) && (c.Render? ==> TargetsApart(c)) && Supplied(c, claims, transitions)
    ensures var r := Replay(Record(c, images, transitions), layouts);
            && (r.Some? <==> FedByAll(c, images, claims, lefts))
            && (r.Some? ==> Tracks(r.value, images, LeftAfter(c, lefts)))
  {
    match c
    case Render(_, _, _, _) => RenderCommand(c, images, claims, lefts, transitions, layouts);
    case Write(target) => CopyCommand(c, target.index, images, claims, lefts, transitions, layouts);
    case Read(source, expired) =>
      if !expired { CopyCommand(c, source.index, images, claims, lefts, transitions, layouts); }
    case Dispatch(_, _) =>
    case Present(_) =>
  }

  // ---------------------------------------------------------------- the whole graph

  function ClaimsAt(commands: seq<Command>, textures: nat, i: nat): seq<TextureState>
    requires i <= |commands|
  {
    seq(textures, t requires 0 <= t < textures => Claimed(commands, t, i))
  }

  function LeftsAt(commands: seq<Command>, textures: nat, i: nat): seq<Layout>
    requires i <= |commands|
  {
    seq(textures, t requires 0 <= t < textures => Left(commands, t, i))
  }

  lemma {:induction false} NeverDepthReadOnly(commands: seq<Command>, textures: nat, i: nat)
    requires i <= |commands|
    ensures DepthReadOnlyFree(LeftsAt(commands, textures, i))
  {
    if i > 0 {
      NeverDepthReadOnly(commands, textures, i - 1);
      forall t | 0 <= t < textures ensures Left(commands, t, i) != DepthStencilReadOnly {
        assert LeftsAt(commands, textures, i - 1)[t] == Left(commands, t, i - 1);
      }
    }
  }

  lemma {:induction false} SampledIsLeft(commands: seq<Command>, images: seq<Image>, t: nat, i: nat)
    requires WellFormed(commands, images) && i <= |commands|
    ensures Claimed(commands, t, i) == SAMPLED ==> Left(commands, t, i) == ShaderReadOnly
  {
    if i > 0 { SampledIsLeft(commands, images, t, i - 1); }
  }

  lemma {:induction false} RecorderSupplies(commands: seq<Command>, images: seq<Image>, i: nat)
    requires WellFormed(commands, images) && i < |commands|
    ensures Supplied(commands[i], ClaimsAt(commands, |images|, i), TransitionsAt(AllChanges(commands, |images|), i))
  {
    forall t: nat | t < |images| && Transitions(commands[i], t)
      ensures GetStateTransition(Changes(commands, t), i) ==
                Some(Transition(Claimed(commands, t, i), Wanted(commands[i])))
    {
      if commands[i].Render? { EntriesOfSample(commands[i], t, i); }
      TransitionIsClaim(commands, t, i);
    }
  }

  lemma {:induction false} OneCommand(commands: seq<Command>, images: seq<Image>, i: nat, layouts: Layouts)
    requires WellFormed(commands, images) && i < |commands| && Tracks(layouts, images, LeftsAt(commands, |images|, i))
    ensures var r := Replay(Buffers(commands, images)[i], layouts);
            && (r.Some? <==>
                FedByAll(commands[i], images, ClaimsAt(commands, |images|, i), LeftsAt(commands, |images|, i)))
            && (r.Some? ==> Tracks(r.value, images, LeftsAt(commands, |images|, i + 1)))
  {
    RecorderSupplies(commands, images, i);
    forall t | 0 <= t < |images| ensures Claimed(commands, t, i) == SAMPLED ==> Left(commands, t, i) == ShaderReadOnly {
      SampledIsLeft(commands, images, t, i);
    }
    NeverDepthReadOnly(commands, |images|, i);
    AnyCommand(commands[i], images, ClaimsAt(commands, |images|, i), LeftsAt(commands, |images|, i),
               TransitionsAt(AllChanges(commands, |images|), i), layouts);
    assert LeftAfter(commands[i], LeftsAt(commands, |images|, i)) == LeftsAt(commands, |images|, i + 1);
  }

  /** The images as they are created: every one of them undefined. */
  ghost predicate JustCreated(layouts: Layouts, images: seq<Image>) {
    forall t :: 0 <= t < |images| ==> images[t].texture in layouts && layouts[images[t].texture] == Undefined
  }

  lemma {:induction false} FirstCommands(commands: seq<Command>, images: seq<Image>, n: nat, layouts: Layouts)
    requires WellFormed(commands, images) && n <= |commands| && JustCreated(layouts, images)
    ensures var r := ReplayAll(Buffers(commands, images)[..n], layouts);
            && (r.Some? <==> AllFed(commands, images, n))
            && (r.Some? ==> Tracks(r.value, images, LeftsAt(commands, |images|, n)))
  {
    var buffers := Buffers(commands, images);
    if n > 0 {
      FirstCommands(commands, images, n - 1, layouts);
      assert buffers[..n][..n - 1] == buffers[..n - 1];
      var before := ReplayAll(buffers[..n - 1], layouts);
      if before.Some? {
        OneCommand(commands, images, n - 1, before.value);
      }
      OneMoreFed(commands, images, n);
    }
  }

  lemma {:induction false} OneMoreFed(commands: seq<Command>, images: seq<Image>, n: nat)
    requires 0 < n <= |commands|
    ensures AllFed(commands, images, n) <==>
              && AllFed(commands, images, n - 1)
              && FedByAll(commands[n - 1], images, ClaimsAt(commands, |images|, n - 1),
                  LeftsAt(commands, |images|, n - 1))
  {
    var claims, lefts := ClaimsAt(commands, |images|, n - 1), LeftsAt(commands, |images|, n - 1);
    forall t: nat | t < |images|
      ensures Fed(commands, images, n - 1, t) <==> FedBy(commands[n - 1], t, images[t], claims[t], lefts[t])
    {
    }
  }

  /**
    Barrier correctness.  Executed in index order on freshly created images, the recorded buffers find every
    image in the layout each barrier, copy and sample names, if and only if every command is properly fed.
   */
  lemma BarriersMatchIff(commands: seq<Command>, images: seq<Image>, layouts: Layouts)
    requires WellFormed(commands, images) && JustCreated(layouts, images)
    ensures ReplayAll(Buffers(commands, images), layouts).Some? <==> AllFed(commands, images, |commands|)
  {
    FirstCommands(commands, images, |commands|, layouts);
    assert Buffers(commands, images)[..|commands|] == Buffers(commands, images);
  }

  // ---------------------------------------------------------------- the work recorded

  /** The buffer ends with the given operation, behind nothing but barriers of textures the command relies on. */
  ghost predicate EndsIn(c: Command, images: seq<Image>, buffer: seq<Op>, op: Op) {
    && buffer != [] && buffer[|buffer| - 1] == op
    && forall k :: 0 <= k < |buffer| - 1 ==> ReliedOn(c, images, buffer[k])
  }

  ghost predicate ReliedOn(c: Command, images: seq<Image>, op: Op) {
    op.Barrier? && exists t :: 0 <= t < |images| && images[t].texture == op.texture && Transitions(c, t)
  }

  /** The pass binds the image of each sampled texture in turn, as its format asks, and draws to the targets' images. */
  ghost predicate PassFor(sampled: seq<Ref>, color: Option<Ref>, depth: Option<Ref>, images: seq<Image>, op: Op) {
    && op.RenderPass? && |op.samples| == |sampled|
    && (forall k :: 0 <= k < |sampled| ==> SampledAs(images, sampled[k], op.samples[k]))
    && TargetIs(images, color, op.color) && TargetIs(images, depth, op.depth)
  }

  predicate SampledAs(images: seq<Image>, ref: Ref, sample: Sample) {
    && ref.index < |images| && sample.texture == images[ref.index].texture
    && (sample.layout == DepthStencilReadOnly <==> images[ref.index].depthFormat)
    && (sample.layout == ShaderReadOnly <==> !images[ref.index].depthFormat)
  }

  predicate TargetIs(images: seq<Image>, ref: Option<Ref>, target: Option<nat>) {
    && (ref.Some? <==> target.Some?)
    && (ref.Some? ==> ref.value.index < |images| && target.value == images[ref.value.index].texture)
  }

  /** The one copy or pass a command stands for; an expired read, a dispatch and a present record nothing. */
  ghost predicate WorkOf(c: Command, images: seq<Image>, buffer: seq<Op>)
    requires RefsInRange(c, |images|)
  {
    match c
    case Write(target) => EndsIn(c, images, buffer, CopyToImage(images[target.index].texture))
    case Read(source, expired) =>
      if expired then buffer == [] else EndsIn(c, images, buffer, CopyFromImage(images[source.index].texture))
    case Render(_, sampled, color, depth) =>
      && buffer != [] && EndsIn(c, images, buffer, buffer[|buffer| - 1])
      && PassFor(sampled, color, depth, images, buffer[|buffer| - 1])
    case _ => buffer == []
  }

  lemma {:induction false} DependencyOpsAreBarriers(
      c: Command, dependencies: seq<Ref>, images: seq<Image>, transitions: seq<Option<Transition>>)
    requires |transitions| == |images| && forall k :: 0 <= k < |dependencies| ==> dependencies[k].index < |images|
    requires forall k :: 0 <= k < |dependencies| ==> NeedsTexture(c, dependencies[k].index)
    ensures forall op :: op in DependencyOps(dependencies, images, transitions) ==> ReliedOn(c, images, op)
  {
    if dependencies != [] {
      var n := |dependencies| - 1;
      DependencyOpsAreBarriers(c, dependencies[..n], images, transitions);
      var t := dependencies[n].index;
      forall op | op in TransitionOps(images[t].texture, transitions[t]) ensures ReliedOn(c, images, op) {
        assert Transitions(c, t) by { assert NeedsTexture(c, dependencies[n].index); }
      }
    }
  }

  /** Every command records its work: one copy or pass, on the images it names, after its barriers and no others. */
  lemma {:induction false} WorkIsRecorded(commands: seq<Command>, images: seq<Image>, i: nat)
    requires WellFormed(commands, images) && i < |commands|
    ensures |Buffers(commands, images)| == |commands| && WorkOf(commands[i], images, Buffers(commands, images)[i])
  {
    RecordsWork(commands[i], images, TransitionsAt(AllChanges(commands, |images|), i));
  }

  lemma {:induction false} RecordsWork(c: Command, images: seq<Image>, transitions: seq<Option<Transition>>)
    requires RefsInRange(c, |images|) && |transitions| == |images|
    ensures WorkOf(c, images, Record(c, images, transitions))
  {
    var buffer := Record(c, images, transitions);
    match c
    case Write(target) =>
      assert Transitions(c, target.index) by { assert target == TextureRef(target.index); }
    case Read(source, expired) =>
      assert expired || Transitions(c, source.index) by { assert source == TextureRef(source.index); }
    case Render(dependencies, _, _, _) =>
      forall k | 0 <= k < |dependencies| ensures NeedsTexture(c, dependencies[k].index) {
        assert dependencies[k] == TextureRef(dependencies[k].index);
      }
      DependencyOpsAreBarriers(c, dependencies, images, transitions);
      var barriers := DependencyOps(dependencies, images, transitions);
      forall k | 0 <= k < |buffer| - 1 ensures ReliedOn(c, images, buffer[k]) {
        assert buffer[k] == barriers[k] && barriers[k] in barriers;
      }
    case _ =>
  }

  /** The command is a write, a live read, or a render pass that names each texture once and samples no depth format. */
  ghost predicate Plain(c: Command, images: seq<Image>) {
    match c
    case Write(_) => true
    case Read(_, expired) => !expired
    case Render(dependencies, sampled, _, _) =>
      forall t :: 0 <= t < |images| ==>
        multiset(dependencies)[TextureRef(t)] <= 1 && (TextureRef(t) in sampled ==> !images[t].depthFormat)
    case Dispatch(_, _) => false
    case Present(_) => false
  }

  lemma {:induction false} PlainRunsTrue(commands: seq<Command>, images: seq<Image>, t: nat, i: nat)
    requires forall k :: 0 <= k < |commands| ==> PlainApart(commands[k], images)
    requires t < |images| && i <= |commands|
    ensures Claimed(commands, t, i).layout == Left(commands, t, i)
  {
    if i > 0 {
      PlainRunsTrue(commands, images, t, i - 1);
      assert PlainApart(commands[i - 1], images);
    }
  }

  ghost predicate PlainApart(c: Command, images: seq<Image>) {
    Plain(c, images) && (c.Render? ==> TargetsApart(c))
  }

  /** The main case: no expired read, no repeated sample, no depth-format sample, nothing dispatched or presented. */
  lemma PlainGraphsExecute(commands: seq<Command>, images: seq<Image>, layouts: Layouts)
    requires WellFormed(commands, images) && (forall k :: 0 <= k < |commands| ==> Plain(commands[k], images))
    requires JustCreated(layouts, images)
    ensures ReplayAll(Buffers(commands, images), layouts).Some?
  {
    BarriersMatchIff(commands, images, layouts);
    forall i, t | 0 <= i < |commands| && 0 <= t < |images| ensures Fed(commands, images, i, t) {
      PlainRunsTrue(commands, images, t, i);
    }
  }

  // ---------------------------------------------------------------- graphs that fail

  lemma UnfedFails(commands: seq<Command>, images: seq<Image>, layouts: Layouts, i: nat, t: nat)
    requires WellFormed(commands, images) && JustCreated(layouts, images)
    requires i < |commands| && t < |images| && !Fed(commands, images, i, t)
    ensures ReplayAll(Buffers(commands, images), layouts).None?
  {
    BarriersMatchIff(commands, images, layouts);
  }

  /** After an expired read, the next write's barrier assumes a layout nobody established. */
  lemma ExpiredReadFails()
    ensures var commands, images :=
              [Write(TextureRef(0)), Read(TextureRef(0), true), Write(TextureRef(0))], [Image(7, false)];
            WellFormed(commands, images) && ReplayAll(Buffers(commands, images), map[7 := Undefined]).None?
  {
    var commands, images := [Write(TextureRef(0)), Read(TextureRef(0), true), Write(TextureRef(0))], [Image(7, false)];
    assert Claimed(commands, 0, 2) == COPY_SRC;
    assert Left(commands, 0, 2) == TransferDst by { assert Left(commands, 0, 1) == TransferDst; }
    UnfedFails(commands, images, map[7 := Undefined], 2, 0);
  }

  /** A texture named twice by one render pass gets the same barrier twice, the second from a stale layout. */
  lemma RepeatedSampleFails()
    ensures var commands :=
              [Write(TextureRef(0)),
                  Render([TextureRef(0), TextureRef(0)], [TextureRef(0)], Some(TextureRef(1)), None)];
            var images := [Image(7, false), Image(8, false)];
            && WellFormed(commands, images)
            && ReplayAll(Buffers(commands, images), map[7 := Undefined, 8 := Undefined]).None?
  {
    var commands :=
        [Write(TextureRef(0)), Render([TextureRef(0), TextureRef(0)], [TextureRef(0)], Some(TextureRef(1)), None)];
    var images := [Image(7, false), Image(8, false)];
    assert Claimed(commands, 0, 1) == COPY_DST;
    assert multiset(commands[1].dependencies)[TextureRef(0)] == 2;
    UnfedFails(commands, images, map[7 := Undefined, 8 := Undefined], 1, 0);
  }

  /** A kernel's output is claimed to be in the General layout although nothing is recorded for it. */
  lemma DispatchedOutputFails()
    ensures var commands, images := [Dispatch([], [TextureRef(0)]), Read(TextureRef(0), false)], [Image(7, false)];
            WellFormed(commands, images) && ReplayAll(Buffers(commands, images), map[7 := Undefined]).None?
  {
    var commands, images := [Dispatch([], [TextureRef(0)]), Read(TextureRef(0), false)], [Image(7, false)];
    assert multiset(commands[0].outputs)[TextureRef(0)] == 1;
    assert Claimed(commands, 0, 1) == KERNEL_OUT;
    assert Left(commands, 0, 1) == Undefined;
    UnfedFails(commands, images, map[7 := Undefined], 1, 0);
  }

  /** The command names texture `t` at all. */
  predicate Names(c: Command, t: nat) {
    var ref := TextureRef(t);
    match c
    case Write(target) => target == ref
    case Read(source, _) => source == ref
    case Render(dependencies, _, color, depth) => ref in dependencies || color == Some(ref) || depth == Some(ref)
    case Dispatch(inputs, outputs) => ref in inputs || ref in outputs
    case Present(source) => source == ref
  }

  /** Command `j` is the first after `i` to name `t`, and relies on a barrier for it. */
  ghost predicate UsedNext(commands: seq<Command>, i: nat, j: nat, t: nat) {
    && i < j < |commands| && Transitions(commands[j], t)
    && forall k :: i < k < j ==> !Names(commands[k], t)
  }

  lemma {:induction false} ClaimLasts(commands: seq<Command>, i: nat, j: nat, t: nat)
    requires i < j <= |commands| && Claim(commands[i], t).Some? && Leaves(commands[i], t).None?
    requires forall k :: i < k < j ==> !Names(commands[k], t)
    ensures Claimed(commands, t, j) == Claim(commands[i], t).value && Left(commands, t, j) == Left(commands, t, i)
  {
    if i + 1 < j {
      ClaimLasts(commands, i, j - 1, t);
      assert !Names(commands[j - 1], t);
    }
  }

  lemma {:induction false} NeverLeft(commands: seq<Command>, t: nat, i: nat)
    requires i <= |commands|
    ensures Left(commands, t, i) != General && Left(commands, t, i) != PresentSrc
  {
    if i > 0 { NeverLeft(commands, t, i - 1); }
  }

  /**
    In every graph, what a dispatch has put out or what was presented cannot be copied or depended on next, and what
    a dispatch has read can only if it was readable before: the graph claims layouts that nothing establishes.
   */
  lemma UnrecordedUseFails(
      commands: seq<Command>, images: seq<Image>, layouts: Layouts, i: nat, j: nat, t: nat)
    requires WellFormed(commands, images) && JustCreated(layouts, images)
    requires t < |images| && UsedNext(commands, i, j, t)
    ensures commands[i] == Present(TextureRef(t)) ==> ReplayAll(Buffers(commands, images), layouts).None?
    ensures commands[i].Dispatch? && TextureRef(t) in commands[i].outputs && TextureRef(t) !in commands[i].inputs ==>
              ReplayAll(Buffers(commands, images), layouts).None?
    ensures commands[i].Dispatch? && TextureRef(t) in commands[i].inputs && Left(commands, t, i) != ShaderReadOnly ==>
              ReplayAll(Buffers(commands, images), layouts).None?
    ensures commands[i] == Read(TextureRef(t), true) && Left(commands, t, i) != TransferSrc ==>
              ReplayAll(Buffers(commands, images), layouts).None?
  {
    if (commands[i].Present? || commands[i].Dispatch? || (commands[i].Read? && commands[i].expired))
      && Names(commands[i], t)
    {
      ClaimLasts(commands, i, j, t);
      NeverLeft(commands, t, i);
      if Claim(commands[i], t).value.layout != Left(commands, t, i) {
        UnfedFails(commands, images, layouts, j, t);
      }
    }
  }

  /**
    Binding a depth-format texture through a material fails in every graph: its descriptor names a layout no
    command establishes.
   */
  lemma DepthSampleFails(commands: seq<Command>, images: seq<Image>, layouts: Layouts, i: nat, t: nat)
    requires WellFormed(commands, images) && JustCreated(layouts, images)
    requires i < |commands| && t < |images| && SamplesTexture(commands[i], t) && images[t].depthFormat
    ensures ReplayAll(Buffers(commands, images), layouts).None?
  {
    UnfedFails(commands, images, layouts, i, t);
  }
}
