/**
  Layouts of the mip levels of a texture while it is created and its mip chain generated
  (src/Teide/VulkanTexture.cpp, src/Teide/VulkanDevice.cpp).  The device is a layout for each level;
  commands that find a level in another layout than they name make the replay fail.
 */
module MipLayouts {
  import opened Wrappers
  import opened RenderGraph
  import opened MipChain

  datatype MipCommand =
    | LevelBarrier(level: nat, from: Layout, to: Layout)
    | ImageBarrier(from: Layout, to: Layout)
    | Blit(source: nat, width: int, height: int, target: nat, targetWidth: int, targetHeight: int)
    | Upload(target: nat)

  // ---------------------------------------------------------------- the device

  /** A barrier may name the layout a level is in, or none. */
  predicate Names(from: Layout, current: Layout) {
    from == current || from == Undefined
  }

  predicate Allowed(levels: seq<Layout>, c: MipCommand) {
    match c
    case LevelBarrier(level, from, to) => level < |levels| && Names(from, levels[level])
    case ImageBarrier(from, to) => forall i :: 0 <= i < |levels| ==> Names(from, levels[i])
    case Blit(source, _, _, target, _, _) =>
      source < |levels| && target < |levels| && levels[source] == TransferSrc && levels[target] == TransferDst
    case Upload(target) => target < |levels| && levels[target] == TransferDst
  }

  function Execute(levels: seq<Layout>, c: MipCommand): seq<Layout>
    requires Allowed(levels, c)
  {
    match c
    case LevelBarrier(level, _, to) => levels[level := to]
    case ImageBarrier(_, to) => seq(|levels|, i => to)
    case _ => levels
  }

  /** The layouts after all commands, or None as soon as one finds a level in a layout it did not name. */
  function Replay(levels: seq<Layout>, commands: seq<MipCommand>): Option<seq<Layout>>
    decreases |commands|
  {
    if commands == [] then Some(levels)
    else if !Allowed(levels, commands[0]) then None
    else Replay(Execute(levels, commands[0]), commands[1..])
  }

  lemma {:induction false} ReplayConcat(levels: seq<Layout>, a: seq<MipCommand>, b: seq<MipCommand>)
    ensures Replay(levels, a + b) == if Replay(levels, a).None? then None else Replay(Replay(levels, a).value, b)
    decreases |a|
  {
    if a == [] {
      assert a + b == b;
    } else {
      assert (a + b)[1..] == a[1..] + b;
      if Allowed(levels, a[0]) { ReplayConcat(Execute(levels, a[0]), a[1..], b); }
    }
  }

  // ---------------------------------------------------------------- generating the chain

  function ToInt32(x: nat): int {
    if x % 0x1_0000_0000 < 0x8000_0000 then x % 0x1_0000_0000 else x % 0x1_0000_0000 - 0x1_0000_0000
  }

  /** One halving, as the signed comparison writes it. */
  function HalfSigned(x: int): int {
    if x > 1 then x / 2 else 1
  }

  function SideSigned(x: nat, level: nat): int {
    if level == 0 then ToInt32(x) else HalfSigned(SideSigned(x, level - 1))
  }

  /** What the turn for level i records. */
  function LevelCommands(w: nat, h: nat, i: nat): seq<MipCommand>
    requires i > 0
  {
    [LevelBarrier(i - 1, TransferDst, TransferSrc),
     Blit(i - 1, SideSigned(w, i - 1), SideSigned(h, i - 1), i, SideSigned(w, i), SideSigned(h, i)),
     LevelBarrier(i - 1, TransferSrc, ShaderReadOnly)]
  }

  /** The turns for levels 1 to n - 1. */
  function LoopCommands(w: nat, h: nat, n: nat): seq<MipCommand> {
    if n <= 1 then [] else LoopCommands(w, h, n - 1) + LevelCommands(w, h, n - 1)
  }

  function MipCommands(w: nat, h: nat, n: nat): seq<MipCommand>
    requires n > 0
  {
    LoopCommands(w, h, n) + [LevelBarrier(n - 1, TransferDst, ShaderReadOnly)]
  }

  method GenerateMipmaps(w: nat, h: nat, mipLevelCount: nat, state: TextureState)
    returns (commands: seq<MipCommand>, state': TextureState)
    requires mipLevelCount > 0
    ensures commands == MipCommands(w, h, mipLevelCount) && state' == state.(layout := ShaderReadOnly)
  {
    commands := [];
    var prevWidth, prevHeight := ToInt32(w), ToInt32(h);
    var i := 1;
    while i < mipLevelCount
      invariant 1 <= i <= mipLevelCount && commands == LoopCommands(w, h, i)
      invariant prevWidth == SideSigned(w, i - 1) && prevHeight == SideSigned(h, i - 1)
    {
      var width := if prevWidth > 1 then prevWidth / 2 else 1;
      var height := if prevHeight > 1 then prevHeight / 2 else 1;
      var turn := [LevelBarrier(i - 1, TransferDst, TransferSrc)];
      turn := turn + [Blit(i - 1, prevWidth, prevHeight, i, width, height)];
      turn := turn + [LevelBarrier(i - 1, TransferSrc, ShaderReadOnly)];
      commands := commands + turn;
      prevWidth, prevHeight := width, height;
      i := i + 1;
    }
    commands := commands + [LevelBarrier(mipLevelCount - 1, TransferDst, ShaderReadOnly)];
    state' := state.(layout := ShaderReadOnly);
  }

  /** For images whose sides fit a signed 32-bit number, the blits use the sizes the byte counts are based on. */
  lemma {:induction false} SignedSides(x: nat, level: nat)
    requires 1 <= x < 0x8000_0000
    ensures SideSigned(x, level) == Side(x, level) >= 1
  {
    if level > 0 { SignedSides(x, level - 1); }
  }

  // ---------------------------------------------------------------- layouts during the loop

  /** Levels below `done` are readable, the others still to be written to. */
  function Progress(n: nat, done: nat): (levels: seq<Layout>)
    ensures |levels| == n
  {
    seq(n, i => if i < done then ShaderReadOnly else TransferDst)
  }

  lemma {:induction false} TurnAdvances(w: nat, h: nat, n: nat, i: nat)
    requires 0 < i < n
    ensures Replay(Progress(n, i - 1), LevelCommands(w, h, i)) == Some(Progress(n, i))
  {
    var l0, c := Progress(n, i - 1), LevelCommands(w, h, i);
    var l1 := Execute(l0, c[0]);
    assert Allowed(l1, c[1]);
    var l2 := Execute(l1, c[2]);
    assert l2 == Progress(n, i);
    assert c[1..][0] == c[1] && c[1..][1..] == [c[2]] && [c[2]][1..] == [];
    assert Replay(l1, [c[2]]) == Some(l2);
    assert Replay(l1, c[1..]) == Replay(l1, [c[2]]);
  }

  lemma {:induction false} LoopAdvances(w: nat, h: nat, n: nat, i: nat)
    requires 0 < i <= n
    ensures Replay(Progress(n, 0), LoopCommands(w, h, i)) == Some(Progress(n, i - 1))
  {
    if i > 1 {
      LoopAdvances(w, h, n, i - 1);
      TurnAdvances(w, h, n, i - 1);
      ReplayConcat(Progress(n, 0), LoopCommands(w, h, i - 1), LevelCommands(w, h, i - 1));
    }
  }

  /**
    From all levels in TransferDst, for any number of levels: every barrier names the layout its level is
    in, every blit reads a TransferSrc level and writes a TransferDst level, and all levels end readable.
   */
  lemma {:induction false} MipmapsReplay(w: nat, h: nat, n: nat)
    requires n > 0
    ensures Replay(Progress(n, 0), MipCommands(w, h, n)) == Some(Progress(n, n))
  {
    LoopAdvances(w, h, n, n);
    var last := [LevelBarrier(n - 1, TransferDst, ShaderReadOnly)];
    ReplayConcat(Progress(n, 0), LoopCommands(w, h, n), last);
    assert last[1..] == [];
    assert Execute(Progress(n, n - 1), last[0]) == Progress(n, n);
  }

  // ---------------------------------------------------------------- creating a texture

  /** The layout a texture is left in for sampling. */
  function ShaderInput(depthFormat: bool): Layout {
    if depthFormat then DepthStencilReadOnly else ShaderReadOnly
  }

  function UploadCommands(hasPixels: bool): seq<MipCommand> {
    if hasPixels then [ImageBarrier(Undefined, TransferDst), Upload(0)] else []
  }

  function CreateCommands(w: nat, h: nat, n: nat, hasPixels: bool, depthFormat: bool): seq<MipCommand> {
    UploadCommands(hasPixels) +
    if n > 1 then MipCommands(w, h, n)
    else [ImageBarrier(if hasPixels then TransferDst else Undefined, ShaderInput(depthFormat))]
  }

  method CreateTexture(w: nat, h: nat, mipLevelCount: nat, hasPixels: bool, depthFormat: bool)
    returns (commands: seq<MipCommand>, state: TextureState)
    ensures commands == CreateCommands(w, h, mipLevelCount, hasPixels, depthFormat)
    ensures state.layout == if mipLevelCount > 1 then ShaderReadOnly else ShaderInput(depthFormat)
  {
    commands, state := [], TextureState(Undefined, TopOfPipe);
    if hasPixels {
      commands := [ImageBarrier(state.layout, TransferDst)];
      state := TextureState(TransferDst, Transfer);
      commands := commands + [Upload(0)];
    }
    if mipLevelCount > 1 {
      var turns;
      turns, state := GenerateMipmaps(w, h, mipLevelCount, state);
      commands := commands + turns;
    } else {
      var newLayout := if depthFormat then DepthStencilReadOnly else ShaderReadOnly;
      if !(newLayout == state.layout && FragmentShader == state.stage) {
        commands := commands + [ImageBarrier(state.layout, newLayout)];
        state := TextureState(newLayout, FragmentShader);
      }
    }
  }

  function Uniform(n: nat, layout: Layout): (levels: seq<Layout>)
    ensures |levels| == n
  {
    seq(n, i => layout)
  }

  lemma {:induction false} UploadReplays(n: nat)
    requires n > 0
    ensures Replay(Uniform(n, Undefined), UploadCommands(true)) == Some(Uniform(n, TransferDst))
  {
    var c, dst := UploadCommands(true), Uniform(n, TransferDst);
    assert Execute(Uniform(n, Undefined), c[0]) == dst;
    assert c[1..] == [c[1]] && [c[1]][1..] == [];
    assert Allowed(dst, c[1]) && Execute(dst, c[1]) == dst;
    assert Replay(dst, [c[1]]) == Replay(dst, []);
  }

  /**
    Creating a texture of at least one level replays without a wrong layout exactly when pixels are given
    or there is a single level; it then leaves every level in the layout of the state it returns.
   */
  lemma {:induction false} CreateReplaysIff(w: nat, h: nat, n: nat, hasPixels: bool, depthFormat: bool)
    requires n > 0
    ensures Replay(Uniform(n, Undefined), CreateCommands(w, h, n, hasPixels, depthFormat)) ==
            if hasPixels || n == 1
            then Some(Uniform(n, if n > 1 then ShaderReadOnly else ShaderInput(depthFormat)))
            else None
  {
    var start := Uniform(n, Undefined);
    var rest := if n > 1 then MipCommands(w, h, n)
                else [ImageBarrier(if hasPixels then TransferDst else Undefined, ShaderInput(depthFormat))];
    ReplayConcat(start, UploadCommands(hasPixels), rest);
    if hasPixels { UploadReplays(n); }
    var now := if hasPixels then Uniform(n, TransferDst) else start;
    if n > 1 {
      assert Progress(n, 0) == Uniform(n, TransferDst) && Progress(n, n) == Uniform(n, ShaderReadOnly);
      MipmapsReplay(w, h, n);
      FirstCommand(w, h, n);
    } else {
      assert rest[1..] == [];
      assert Execute(now, rest[0]) == Uniform(n, ShaderInput(depthFormat));
    }
  }

  lemma {:induction false} FirstCommand(w: nat, h: nat, n: nat)
    requires n > 1
    ensures |LoopCommands(w, h, n)| > 0 && LoopCommands(w, h, n)[0] == LevelBarrier(0, TransferDst, TransferSrc)
  {
    if n > 2 {
      FirstCommand(w, h, n - 1);
    } else {
      assert LoopCommands(w, h, 1) == [];
    }
  }

  // ---------------------------------------------------------------- sizes and contents

  lemma {:induction false} LoopLength(w: nat, h: nat, n: nat)
    requires n > 0
    ensures |LoopCommands(w, h, n)| == 3 * (n - 1)
  {
    if n > 1 { LoopLength(w, h, n - 1); }
  }

  lemma {:induction false} BlitOfLevel(w: nat, h: nat, n: nat, i: nat)
    requires 0 < i < n
    ensures |LoopCommands(w, h, n)| == 3 * (n - 1)
    ensures LoopCommands(w, h, n)[3 * (i - 1) + 1] == LevelCommands(w, h, i)[1]
  {
    LoopLength(w, h, n);
    LoopLength(w, h, n - 1);
    if i < n - 1 { BlitOfLevel(w, h, n - 1, i); }
  }

  /** Each level is blitted, whole, from the whole of the level before it. */
  lemma {:induction false} BlitsWholeLevels(w: nat, h: nat, n: nat, i: nat)
    requires 1 <= w < 0x8000_0000 && 1 <= h < 0x8000_0000 && 0 < i < n
    ensures |MipCommands(w, h, n)| == 3 * (n - 1) + 1 && Pow2(i - 1) >= 1 && Pow2(i) >= 1
    ensures MipCommands(w, h, n)[3 * (i - 1) + 1] ==
              Blit(i - 1, Max(1, w / Pow2(i - 1)), Max(1, h / Pow2(i - 1)), i, Max(1, w / Pow2(i)), Max(1, h / Pow2(i)))
  {
    BlitOfLevel(w, h, n, i);
    SignedSides(w, i - 1);
    SignedSides(h, i - 1);
    SignedSides(w, i);
    SignedSides(h, i);
    SideIsQuotient(w, i - 1);
    SideIsQuotient(h, i - 1);
    SideIsQuotient(w, i);
    SideIsQuotient(h, i);
  }

  /** Which levels hold pixels after the commands; None when a blit reads a level that holds none. */
  function Filled(levels: set<nat>, commands: seq<MipCommand>): Option<set<nat>>
    decreases |commands|
  {
    if commands == [] then Some(levels)
    else
      match commands[0]
      case Upload(target) => Filled(levels + {target}, commands[1..])
      case Blit(source, _, _, target, _, _) =>
        if source in levels then Filled(levels + {target}, commands[1..]) else None
      case _ => Filled(levels, commands[1..])
  }

  lemma {:induction false} FilledConcat(levels: set<nat>, a: seq<MipCommand>, b: seq<MipCommand>)
    ensures Filled(levels, a + b) == if Filled(levels, a).None? then None else Filled(Filled(levels, a).value, b)
    decreases |a|
  {
    if a == [] {
      assert a + b == b;
    } else {
      assert (a + b)[0] == a[0] && (a + b)[1..] == a[1..] + b;
      match a[0]
      case Upload(target) => FilledConcat(levels + {target}, a[1..], b);
      case Blit(source, _, _, target, _, _) =>
        if source in levels { FilledConcat(levels + {target}, a[1..], b); }
      case _ => FilledConcat(levels, a[1..], b);
    }
  }

  /** The first n levels. */
  function Below(n: nat): (levels: set<nat>)
    ensures forall i: nat :: i in levels <==> i < n
  {
    if n == 0 then {} else Below(n - 1) + {n - 1}
  }

  lemma {:induction false} TurnFills(w: nat, h: nat, i: nat)
    requires i > 0
    ensures Filled(Below(i), LevelCommands(w, h, i)) == Some(Below(i + 1))
  {
    var c := LevelCommands(w, h, i);
    assert Below(i) + {i} == Below(i + 1);
    assert c[1..][0] == c[1] && c[1..][1..] == [c[2]] && [c[2]][1..] == [];
    assert Filled(Below(i + 1), [c[2]]) == Some(Below(i + 1));
    assert Filled(Below(i), c[1..]) == Filled(Below(i + 1), [c[2]]);
  }

  lemma {:induction false} LoopFills(w: nat, h: nat, n: nat)
    requires n > 0
    ensures Filled(Below(1), LoopCommands(w, h, n)) == Some(Below(n))
  {
    if n > 1 {
      LoopFills(w, h, n - 1);
      TurnFills(w, h, n - 1);
      FilledConcat(Below(1), LoopCommands(w, h, n - 1), LevelCommands(w, h, n - 1));
    }
  }

  /** A texture created with pixels gets contents in every level, each from the one before it. */
  lemma {:induction false} CreateFillsAllLevels(w: nat, h: nat, n: nat, depthFormat: bool)
    requires n > 0
    ensures Filled({}, CreateCommands(w, h, n, true, depthFormat)) == Some(Below(n))
  {
    var upload := UploadCommands(true);
    var rest := if n > 1 then MipCommands(w, h, n) else [ImageBarrier(TransferDst, ShaderInput(depthFormat))];
    FilledConcat({}, upload, rest);
    assert upload[1..] == [upload[1]] && [upload[1]][1..] == [];
    assert {} + {0} == Below(1);
    assert Filled({}, [upload[1]]) == Filled(Below(1), []);
    if n > 1 {
      var last := [LevelBarrier(n - 1, TransferDst, ShaderReadOnly)];
      LoopFills(w, h, n);
      FilledConcat(Below(1), LoopCommands(w, h, n), last);
      assert last[1..] == [];
    } else {
      assert rest[1..] == [];
    }
  }
}
