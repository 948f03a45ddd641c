/**
  Uniform offsets of a parameter block (src/Teide/ShaderData.cpp), in the 32-bit unsigned arithmetic the
  code uses.
 */
module ShaderLayout {
  const MaxPushConstantSize := 128

  type uint32 = x: int | 0 <= x < 0x1_0000_0000
  type Positive = x: int | 0 < x < 0x1_0000_0000 witness 1

  datatype BaseType = Float | Vector2 | Vector3 | Vector4 | Matrix4 | Texture2D | Texture2DShadow | RWTexture2D

  datatype Variable = Variable(name: string, base: BaseType, arraySize: uint32)

  datatype UniformDesc = UniformDesc(variable: Variable, offset: uint32)

  datatype Layout = Layout(
    uniformsSize: uint32, uniforms: seq<UniformDesc>, resources: seq<BaseType>, isPushConstant: bool)

  predicate IsResource(base: BaseType) {
    base.Texture2D? || base.Texture2DShadow? || base.RWTexture2D?
  }

  // ---------------------------------------------------------------- rounding up

  function Wrap(x: int): uint32 {
    x % 0x1_0000_0000
  }

  /** The code's formula, every operation modulo 2^32. */
  function RoundUp(a: uint32, b: Positive): uint32 {
    Wrap(Wrap(Wrap(a - 1) / b + 1) * b)
  }

  /** The alignments in use. */
  predicate IsAlignment(b: int) {
    b == 4 || b == 8 || b == 12 || b == 16
  }

  /** A number that has passed 2^32 at most once. */
  function WrapOnce(x: nat): nat {
    if x < 0x1_0000_0000 then x else x - 0x1_0000_0000
  }

  predicate IsMultiple(x: nat, b: nat)
    requires b > 0
  {
    x % b == 0
  }

  ghost predicate LeastMultiple(x: nat, from: nat, b: nat)
    requires b > 0
  {
    IsMultiple(x, b) && from <= x && forall y: nat :: from <= y && IsMultiple(y, b) ==> x <= y
  }

  lemma {:induction false} DivBounds(x: nat, b: nat)
    requires b > 0
    ensures (x / b) * b <= x < (x / b + 1) * b
  {
  }

  lemma {:induction false} MulMonotone(x: nat, y: nat, b: nat)
    requires x <= y
    ensures x * b <= y * b
  {
  }

  lemma {:induction false} ProductIsMultiple(q: nat, b: nat)
    requires b > 0
    ensures IsMultiple(q * b, b)
  {
    DivBounds(q * b, b);
    var k := q * b / b;
    if k < q { MulMonotone(k + 1, q, b); } else if q < k { MulMonotone(q + 1, k, b); }
    assert q * b == k * b + (q * b) % b;
  }

  lemma {:induction false} MultipleBeyond(y: nat, q: nat, b: nat)
    requires b > 0 && IsMultiple(y, b) && q * b < y
    ensures (q + 1) * b <= y
  {
    var k := y / b;
    assert y == k * b;
    if k <= q {
      MulMonotone(k, q, b);
    } else {
      MulMonotone(q + 1, k, b);
    }
  }

  /** The formula without wrap-around gives the least multiple. */
  lemma {:induction false} FormulaIsLeast(a: nat, b: nat)
    requires a > 0 && b > 0
    ensures LeastMultiple(((a - 1) / b + 1) * b, a, b) && ((a - 1) / b + 1) * b < a + b
  {
    var q := (a - 1) / b;
    var up := (q + 1) * b;
    DivBounds(a - 1, b);
    ProductIsMultiple(q + 1, b);
    assert up == q * b + b;
    forall y: nat | a <= y && IsMultiple(y, b) ensures up <= y {
      MultipleBeyond(y, q, b);
    }
  }

  /** The least multiple of `b` not below `a`. */
  ghost function Up(a: nat, b: nat): nat
    requires a > 0 && b > 0
  {
    FormulaIsLeast(a, b);
    var x: nat :| LeastMultiple(x, a, b) && x < a + b;
    x
  }

  /** What RoundUp is meant to give, and the one case where it does not: zero goes to 8 for an alignment of 12. */
  ghost function Above(a: nat, b: nat): nat
    requires b > 0
  {
    if a == 0 then (if b == 12 then 8 else 0) else Up(a, b)
  }

  lemma {:induction false} AboveIsLeast(a: nat, b: nat)
    requires IsAlignment(b)
    ensures a <= Above(a, b) < a + 16
    ensures a > 0 || b != 12 ==> LeastMultiple(Above(a, b), a, b)
  {
    if a == 0 { assert IsMultiple(0, b); }
  }

  lemma {:induction false} QuotientSmall(a: nat, b: nat, q: nat)
    requires b >= 4 && q * b <= a
    ensures 4 * q <= a
  {
    MulMonotone(4, b, q);
  }

  lemma {:induction false} RoundUpZero4() ensures RoundUp(0, 4) == 0 {}
  lemma {:induction false} RoundUpZero8() ensures RoundUp(0, 8) == 0 {}
  lemma {:induction false} RoundUpZero12() ensures RoundUp(0, 12) == 8 {}
  lemma {:induction false} RoundUpZero16() ensures RoundUp(0, 16) == 0 {}

  lemma {:induction false} RoundUpPositive(a: uint32, b: Positive)
    requires a > 0 && 4 <= b <= 16
    ensures RoundUp(a, b) == Wrap(Up(a, b)) && Up(a, b) < 0x1_0000_0000 + 16
  {
    assert Wrap(a - 1) == a - 1;
    DivBounds(a - 1, b);
    QuotientSmall(a - 1, b, (a - 1) / b);
    assert Wrap((a - 1) / b + 1) == (a - 1) / b + 1;
    FormulaIsLeast(a, b);
    assert Up(a, b) == ((a - 1) / b + 1) * b;
  }

  /** In 32 bits the result is the same when it fits; otherwise it restarts near zero. */
  lemma {:induction false} RoundUpIs(a: uint32, b: Positive)
    requires IsAlignment(b)
    ensures RoundUp(a, b) == WrapOnce(Above(a, b))
  {
    if a > 0 {
      RoundUpPositive(a, b);
      WrapIsOnce(Up(a, b));
    } else {
      RoundUpZero(b);
    }
  }

  lemma {:induction false} RoundUpZero(b: Positive)
    requires IsAlignment(b)
    ensures RoundUp(0, b) == if b == 12 then 8 else 0
  {
    if b == 4 {
      RoundUpZero4();
    } else if b == 8 {
      RoundUpZero8();
    } else if b == 12 {
      RoundUpZero12();
    } else {
      RoundUpZero16();
    }
  }

  lemma {:induction false} WrapIsOnce(x: nat)
    requires x < 0x2_0000_0000
    ensures Wrap(x) == WrapOnce(x)
  {
  }

  // ---------------------------------------------------------------- building the layout

  function Elements(arraySize: uint32): Positive {
    if arraySize < 1 then 1 else arraySize
  }

  /** A scalar or vector is aligned to its size, a matrix to a column; a vec3 that is not an array counts as a vec4. */
  function Alignment(v: Variable): (b: Positive)
    ensures IsAlignment(b)
  {
    match v.base
    case Float => 4
    case Vector2 => 8
    case Vector3 => if v.arraySize != 0 then 12 else 16
    case _ => 16
  }

  /** The bytes a uniform occupies, as an unbounded number. */
  function Extent(v: Variable): (n: nat)
    ensures n >= 4
  {
    match v.base
    case Float => 4 * Elements(v.arraySize)
    case Vector2 => 8 * Elements(v.arraySize)
    case Vector3 => if v.arraySize != 0 then 12 * v.arraySize else 16
    case Vector4 => 16 * Elements(v.arraySize)
    case _ => 64 * Elements(v.arraySize)
  }

  /** One turn of the loop over the parameters. */
  ghost function AddParameter(l: Layout, v: Variable): Layout {
    if IsResource(v.base) then l.(resources := l.resources + [v.base])
    else AddAt(l, v, OffsetAt(l.uniformsSize, v))
  }

  function AddAt(l: Layout, v: Variable, offset: uint32): Layout {
    l.(uniforms := l.uniforms + [UniformDesc(v, offset)], uniformsSize := Wrap(offset + Extent(v)))
  }

  ghost function Added(parameters: seq<Variable>): Layout {
    if parameters == [] then Layout(0, [], [], false)
    else AddParameter(Added(parameters[..|parameters| - 1]), parameters[|parameters| - 1])
  }

  ghost function LayoutOf(parameters: seq<Variable>, index: int): Layout {
    var l := Added(parameters);
    if index == 3 && l.uniformsSize <= MaxPushConstantSize then l.(isPushConstant := true) else l
  }

  method BuildParameterBlockLayout(parameters: seq<Variable>, index: int) returns (bindings: Layout)
    ensures bindings == LayoutOf(parameters, index)
  {
    bindings := Layout(0, [], [], false);
    var i := 0;
    while i < |parameters|
      invariant 0 <= i <= |parameters| && bindings == Added(parameters[..i])
    {
      assert parameters[..i + 1][..i] == parameters[..i];
      bindings := AddBinding(bindings, parameters[i]);
      i := i + 1;
    }
    assert parameters[..i] == parameters;
    if index == 3 && bindings.uniformsSize <= MaxPushConstantSize {
      bindings := bindings.(isPushConstant := true);
    }
  }

  method AddBinding(bindings: Layout, v: Variable) returns (r: Layout)
    ensures r == AddParameter(bindings, v)
  {
    match v.base {
      case Float => r := AddUniformBinding(bindings, v, 4, 4);
      case Vector2 => r := AddUniformBinding(bindings, v, 8, 8);
      case Vector3 =>
        if v.arraySize != 0 {
          r := AddUniformBinding(bindings, v, 12, 12);
        } else {
          r := AddUniformBinding(bindings, v, 16, 16);
        }
      case Vector4 => r := AddUniformBinding(bindings, v, 16, 16);
      case Matrix4 => r := AddUniformBinding(bindings, v, 64, 16);
      case _ => r := bindings.(resources := bindings.resources + [v.base]);
    }
  }

  method AddUniformBinding(bindings: Layout, v: Variable, size: Positive, alignment: Positive) returns (r: Layout)
    requires !IsResource(v.base) && size * Elements(v.arraySize) == Extent(v) && alignment == Alignment(v)
    ensures r == AddParameter(bindings, v)
  {
    var offset := NextOffset(bindings.uniformsSize, v, alignment);
    var bytes := Wrap(size * Elements(v.arraySize));
    AddedIs(bindings, v, offset, bytes);
    r := bindings.(uniforms := bindings.uniforms + [UniformDesc(v, offset)],
                   uniformsSize := Wrap(offset as int + bytes));
  }

  method NextOffset(end: uint32, v: Variable, alignment: Positive) returns (offset: uint32)
    requires alignment == Alignment(v)
    ensures offset == OffsetAt(end, v)
  {
    offset := RoundUp(end, alignment);
    OffsetIs(end, v);
  }

  lemma {:induction false} AddedIs(l: Layout, v: Variable, offset: uint32, bytes: uint32)
    requires !IsResource(v.base) && offset == OffsetAt(l.uniformsSize, v) && bytes == Wrap(Extent(v))
    ensures AddParameter(l, v) ==
              l.(uniforms := l.uniforms + [UniformDesc(v, offset)], uniformsSize := Wrap(offset as int + bytes))
  {
    WrapAdds(offset, Extent(v));
  }

  lemma {:induction false} WrapAdds(x: int, y: int)
    ensures Wrap(x + Wrap(y)) == Wrap(x + y)
  {
  }

  ghost function OffsetAt(end: uint32, v: Variable): uint32 {
    AboveIsLeast(end, Alignment(v));
    WrapOnce(Above(end, Alignment(v)))
  }

  lemma {:induction false} OffsetIs(end: uint32, v: Variable)
    ensures RoundUp(end, Alignment(v)) == OffsetAt(end, v)
  {
    RoundUpIs(end, Alignment(v));
  }

  lemma {:induction false} OffsetRestarts(end: uint32, v: Variable)
    ensures || OffsetAt(end, v) == Above(end, Alignment(v))
            || (Above(end, Alignment(v)) >= 0x1_0000_0000 && OffsetAt(end, v) < 16)
  {
    AboveIsLeast(end, Alignment(v));
  }

  // ---------------------------------------------------------------- what a layout should be

  /** Where the uniforms before the i-th end. */
  function EndBefore(uniforms: seq<UniformDesc>, i: nat): nat
    requires i <= |uniforms|
  {
    if i == 0 then 0 else uniforms[i - 1].offset + Extent(uniforms[i - 1].variable)
  }

  ghost predicate StartsAfter(uniforms: seq<UniformDesc>, i: nat) {
    i < |uniforms| ==> EndBefore(uniforms, i) <= uniforms[i].offset
  }

  /** In order, without overlap, and inside the reported size. */
  ghost predicate WellPlaced(l: Layout) {
    && (forall i: nat :: StartsAfter(l.uniforms, i))
    && EndBefore(l.uniforms, |l.uniforms|) <= l.uniformsSize
  }

  /** Ranges placed in order overlap nowhere. */
  lemma {:induction false} OrderedAreDisjoint(l: Layout, i: nat, j: nat)
    requires WellPlaced(l) && i < j <= |l.uniforms|
    ensures l.uniforms[i].offset + Extent(l.uniforms[i].variable) <=
              if j < |l.uniforms| then l.uniforms[j].offset else l.uniformsSize
  {
    assert StartsAfter(l.uniforms, j);
    if i + 1 < j {
      OrderedAreDisjoint(l, i, j - 1);
    }
  }

  /** The rule for one uniform, with its exception: an array of vec3 that comes first starts at byte 8. */
  ghost predicate AlignedAt(uniforms: seq<UniformDesc>, i: nat) {
    i < |uniforms| ==>
      if i == 0 && Alignment(uniforms[i].variable) == 12 then uniforms[i].offset == 8
      else LeastMultiple(uniforms[i].offset, EndBefore(uniforms, i), Alignment(uniforms[i].variable))
  }

  /** The size the same rule gives in unbounded arithmetic. */
  ghost function TotalSize(parameters: seq<Variable>): nat {
    if parameters == [] then 0
    else
      var v, end := parameters[|parameters| - 1], TotalSize(parameters[..|parameters| - 1]);
      if IsResource(v.base) then end else Above(end, Alignment(v)) + Extent(v)
  }

  // ---------------------------------------------------------------- adding one uniform

  /** Ordered, aligned, and ending at `end`. */
  ghost predicate Packed(uniforms: seq<UniformDesc>, end: nat) {
    && EndBefore(uniforms, |uniforms|) == end
    && (forall i: nat :: StartsAfter(uniforms, i))
    && (forall i: nat :: AlignedAt(uniforms, i))
  }

  /** A place that no later uniform can mend: a range past 2^32, or one that starts before its predecessor ends. */
  ghost predicate BrokenAt(uniforms: seq<UniformDesc>, i: nat) {
    i <= |uniforms| && (EndBefore(uniforms, i) >= 0x1_0000_0000 || !StartsAfter(uniforms, i))
  }

  lemma {:induction false} EndBeforeAppend(uniforms: seq<UniformDesc>, d: UniformDesc, i: nat)
    requires i <= |uniforms|
    ensures EndBefore(uniforms + [d], i) == EndBefore(uniforms, i)
    ensures EndBefore(uniforms + [d], |uniforms| + 1) == d.offset + Extent(d.variable)
  {
  }

  lemma {:induction false} BrokenStays(uniforms: seq<UniformDesc>, d: UniformDesc, i: nat)
    requires BrokenAt(uniforms, i)
    ensures BrokenAt(uniforms + [d], i)
  {
    EndBeforeAppend(uniforms, d, i);
  }

  lemma {:induction false} PackedAppend(uniforms: seq<UniformDesc>, end: nat, v: Variable, offset: uint32)
    requires Packed(uniforms, end) && offset == Above(end, Alignment(v))
    ensures Packed(uniforms + [UniformDesc(v, offset)], offset + Extent(v))
  {
    var d := UniformDesc(v, offset);
    var all := uniforms + [d];
    EndBeforeAppend(uniforms, d, |uniforms|);
    AboveIsLeast(end, Alignment(v));
    forall i: nat ensures StartsAfter(all, i) && AlignedAt(all, i) {
      if i < |uniforms| {
        EndBeforeAppend(uniforms, d, i);
        assert StartsAfter(uniforms, i) && AlignedAt(uniforms, i);
      }
    }
  }

  lemma {:induction false} BrokenAppend(
      uniforms: seq<UniformDesc>, end: nat, v: Variable, offset: uint32)
    returns (i: nat)
    requires EndBefore(uniforms, |uniforms|) == end
    requires offset < end || offset + Extent(v) >= 0x1_0000_0000
    ensures BrokenAt(uniforms + [UniformDesc(v, offset)], i)
  {
    EndBeforeAppend(uniforms, UniformDesc(v, offset), |uniforms|);
    i := if offset < end then |uniforms| else |uniforms| + 1;
  }

  // ---------------------------------------------------------------- main results

  lemma {:induction false} PackedAdd(l: Layout, v: Variable)
    requires !IsResource(v.base) && Packed(l.uniforms, l.uniformsSize)
    requires Above(l.uniformsSize, Alignment(v)) + Extent(v) < 0x1_0000_0000
    ensures var end := Above(l.uniformsSize, Alignment(v)) + Extent(v);
            AddParameter(l, v).uniformsSize == end && Packed(AddParameter(l, v).uniforms, end)
  {
    OffsetRestarts(l.uniformsSize, v);
    PackedAppend(l.uniforms, l.uniformsSize, v, Above(l.uniformsSize, Alignment(v)));
  }

  lemma {:induction false} PackedWhenFits(parameters: seq<Variable>)
    requires TotalSize(parameters) < 0x1_0000_0000
    ensures Added(parameters).uniformsSize == TotalSize(parameters)
    ensures Packed(Added(parameters).uniforms, TotalSize(parameters))
  {
    if parameters != [] {
      var n := |parameters| - 1;
      var v, l := parameters[n], Added(parameters[..n]);
      if IsResource(v.base) {
        PackedWhenFits(parameters[..n]);
      } else {
        AboveIsLeast(TotalSize(parameters[..n]), Alignment(v));
        PackedWhenFits(parameters[..n]);
        PackedAdd(l, v);
      }
    }
  }

  lemma {:induction false} BrokenWhenNot(parameters: seq<Variable>) returns (i: nat)
    requires TotalSize(parameters) >= 0x1_0000_0000
    ensures BrokenAt(Added(parameters).uniforms, i)
  {
    var n := |parameters| - 1;
    var v, l, l' := parameters[n], Added(parameters[..n]), Added(parameters);
    if IsResource(v.base) {
      i := BrokenWhenNot(parameters[..n]);
    } else {
      var d := l'.uniforms[|l.uniforms|];
      if TotalSize(parameters[..n]) >= 0x1_0000_0000 {
        i := BrokenWhenNot(parameters[..n]);
        BrokenStays(l.uniforms, d, i);
      } else {
        PackedWhenFits(parameters[..n]);
        AboveIsLeast(l.uniformsSize, Alignment(v));
        OffsetRestarts(l.uniformsSize, v);
        i := BrokenAppend(l.uniforms, l.uniformsSize, v, d.offset);
      }
    }
  }

  /**
    The uniforms of a block are placed in order, apart from each other and inside the size reported, exactly
    when the total in unbounded arithmetic is below 2^32.
   */
  lemma {:induction false} PlacementIff(parameters: seq<Variable>, index: int)
    ensures WellPlaced(LayoutOf(parameters, index)) <==> TotalSize(parameters) < 0x1_0000_0000
  {
    if TotalSize(parameters) < 0x1_0000_0000 {
      PackedWhenFits(parameters);
    } else {
      var i := BrokenWhenNot(parameters);
      var l := LayoutOf(parameters, index);
      assert BrokenAt(l.uniforms, i);
      assert StartsAfter(l.uniforms, i) ==> EndBefore(l.uniforms, i) >= 0x1_0000_0000;
    }
  }

  /**
    Then every offset is the least multiple of its alignment after the uniform before it, except that a leading
    vec3 array starts at 8.
   */
  lemma {:induction false} OffsetsAligned(parameters: seq<Variable>, index: int, i: nat)
    requires TotalSize(parameters) < 0x1_0000_0000 && i < |LayoutOf(parameters, index).uniforms|
    ensures AlignedAt(LayoutOf(parameters, index).uniforms, i)
    ensures LayoutOf(parameters, index).uniformsSize == TotalSize(parameters)
  {
    PackedWhenFits(parameters);
  }

  /** The parameters that are not resources, and the types of those that are, in order. */
  function UniformsIn(parameters: seq<Variable>): seq<Variable> {
    if parameters == [] then []
    else (if IsResource(parameters[0].base) then [] else [parameters[0]]) + UniformsIn(parameters[1..])
  }

  function ResourcesIn(parameters: seq<Variable>): seq<BaseType> {
    if parameters == [] then []
    else (if IsResource(parameters[0].base) then [parameters[0].base] else []) + ResourcesIn(parameters[1..])
  }

  function VariablesOf(uniforms: seq<UniformDesc>): seq<Variable> {
    seq(|uniforms|, i requires 0 <= i < |uniforms| => uniforms[i].variable)
  }

  lemma {:induction false} UniformsInAppend(parameters: seq<Variable>, v: Variable)
    ensures UniformsIn(parameters + [v]) == UniformsIn(parameters) + if IsResource(v.base) then [] else [v]
    ensures ResourcesIn(parameters + [v]) == ResourcesIn(parameters) + if IsResource(v.base) then [v.base] else []
  {
    if parameters == [] {
      assert (parameters + [v])[1..] == [];
    } else {
      assert (parameters + [v])[1..] == parameters[1..] + [v];
      UniformsInAppend(parameters[1..], v);
    }
  }

  /** Every parameter is listed once, in order: as a uniform or as a resource. */
  lemma {:induction false} EveryParameterListed(parameters: seq<Variable>)
    ensures VariablesOf(Added(parameters).uniforms) == UniformsIn(parameters)
    ensures Added(parameters).resources == ResourcesIn(parameters)
  {
    if parameters != [] {
      var n := |parameters| - 1;
      EveryParameterListed(parameters[..n]);
      UniformsInAppend(parameters[..n], parameters[n]);
      assert parameters == parameters[..n] + [parameters[n]];
      var l, l' := Added(parameters[..n]), Added(parameters);
      if !IsResource(parameters[n].base) {
        assert VariablesOf(l'.uniforms) == VariablesOf(l.uniforms) + [parameters[n]];
      }
    }
  }

  /** A block that starts with an array of vec3 leaves its first 8 bytes unused. */
  lemma {:induction false} LeadingVector3Array(name: string, n: Positive)
    ensures Added([Variable(name, Vector3, n)]).uniforms == [UniformDesc(Variable(name, Vector3, n), 8)]
  {
    var parameters := [Variable(name, Vector3, n)];
    assert parameters[..0] == [];
    assert Added(parameters) == AddParameter(Added([]), parameters[0]);
  }

  // ---------------------------------------------------------------- sizes and alignments as laid out

  /** The bytes from the offset of the last of these parameters to the size of the block that ends with it. */
  ghost function SpanAfter(parameters: seq<Variable>, v: Variable): int
    requires !IsResource(v.base)
  {
    var l := Added(parameters + [v]);
    LastIsAdded(parameters, v);
    l.uniformsSize as int - l.uniforms[|l.uniforms| - 1].offset as int
  }

  lemma {:induction false} LastIsAdded(parameters: seq<Variable>, v: Variable)
    requires !IsResource(v.base)
    ensures Added(parameters + [v]) == AddParameter(Added(parameters), v)
    ensures |Added(parameters + [v]).uniforms| > 0
  {
    assert (parameters + [v])[..|parameters|] == parameters;
  }

  lemma {:induction false} SpanIsExtent(parameters: seq<Variable>, v: Variable)
    requires !IsResource(v.base) && TotalSize(parameters + [v]) < 0x1_0000_0000
    ensures SpanAfter(parameters, v) == Extent(v)
  {
    LastIsAdded(parameters, v);
    PackedWhenFits(parameters + [v]);
  }

  /** A variable of each type that is not an array, or an array of it. */
  function Of(base: BaseType, n: uint32): Variable {
    Variable("", base, n)
  }

  /** There is room for one more uniform that is not an array. */
  ghost predicate RoomAfter(parameters: seq<Variable>) {
    TotalSize(parameters) < 0xFFFF_FF00
  }

  lemma {:induction false} OneFits(parameters: seq<Variable>, v: Variable)
    requires RoomAfter(parameters) && !IsResource(v.base) && v.arraySize <= 1
    ensures TotalSize(parameters + [v]) < 0x1_0000_0000
  {
    assert (parameters + [v])[..|parameters|] == parameters;
    AboveIsLeast(TotalSize(parameters), Alignment(v));
  }

  /**
    Sizes in any block: a float takes 4 bytes, a vec4 four floats or two vec2, a matrix four vec4, and a vec3
    that is not an array as much as a vec4.
   */
  lemma {:induction false} SizeLaws(parameters: seq<Variable>)
    requires RoomAfter(parameters)
    ensures SpanAfter(parameters, Of(Float, 0)) == 4
    ensures SpanAfter(parameters, Of(Vector4, 0)) == 4 * SpanAfter(parameters, Of(Float, 0))
    ensures SpanAfter(parameters, Of(Vector4, 0)) == 2 * SpanAfter(parameters, Of(Vector2, 0))
    ensures SpanAfter(parameters, Of(Matrix4, 0)) == 4 * SpanAfter(parameters, Of(Vector4, 0))
    ensures SpanAfter(parameters, Of(Vector3, 0)) == SpanAfter(parameters, Of(Vector4, 0))
    ensures SpanAfter(parameters, Of(Vector3, 1)) == 3 * SpanAfter(parameters, Of(Float, 0))
  {
    OneSpan(parameters, Of(Float, 0));
    OneSpan(parameters, Of(Vector2, 0));
    OneSpan(parameters, Of(Vector3, 0));
    OneSpan(parameters, Of(Vector4, 0));
    OneSpan(parameters, Of(Matrix4, 0));
    OneSpan(parameters, Of(Vector3, 1));
  }

  lemma {:induction false} OneSpan(parameters: seq<Variable>, v: Variable)
    requires RoomAfter(parameters) && !IsResource(v.base) && v.arraySize <= 1
    ensures SpanAfter(parameters, v) == Extent(v)
  {
    OneFits(parameters, v);
    SpanIsExtent(parameters, v);
  }

  /** An array of n takes n times what an array of one takes, and one is a single element except for a vec3. */
  lemma {:induction false} ArraySizeLaw(parameters: seq<Variable>, base: BaseType, n: Positive)
    requires !IsResource(base) && RoomAfter(parameters) && TotalSize(parameters + [Of(base, n)]) < 0x1_0000_0000
    ensures SpanAfter(parameters, Of(base, n)) == n * SpanAfter(parameters, Of(base, 1))
    ensures !base.Vector3? ==> SpanAfter(parameters, Of(base, 1)) == SpanAfter(parameters, Of(base, 0))
  {
    SpanIsExtent(parameters, Of(base, n));
    OneSpan(parameters, Of(base, 1));
    OneSpan(parameters, Of(base, 0));
    ExtentScales(base, n);
    var one := SpanAfter(parameters, Of(base, 1));
    assert one == Extent(Of(base, 1));
  }

  lemma {:induction false} ExtentScales(base: BaseType, n: Positive)
    requires !IsResource(base)
    ensures Extent(Of(base, n)) == n * Extent(Of(base, 1))
  {
  }

  /** A scalar or vector is aligned to the size of one element, a matrix to that of a column. */
  lemma {:induction false} AlignmentLaws(parameters: seq<Variable>, v: Variable)
    requires RoomAfter(parameters) && !IsResource(v.base)
    ensures !v.base.Matrix4? ==>
              Alignment(v) == SpanAfter(parameters, Of(v.base, if v.arraySize == 0 then 0 else 1))
    ensures v.base.Matrix4? ==> Alignment(v) == SpanAfter(parameters, Of(Vector4, 0))
  {
    OneSpan(parameters, Of(v.base, if v.arraySize == 0 then 0 else 1));
    OneSpan(parameters, Of(Vector4, 0));
  }

  /** The object's block, and only that, becomes a push constant, up to 128 bytes of uniforms. */
  lemma {:induction false} PushConstantIff(parameters: seq<Variable>, index: int)
    requires TotalSize(parameters) < 0x1_0000_0000
    ensures LayoutOf(parameters, index).isPushConstant <==> index == 3 && TotalSize(parameters) <= 128
  {
    PackedWhenFits(parameters);
    NeverPushed(parameters);
  }

  lemma {:induction false} NeverPushed(parameters: seq<Variable>)
    ensures !Added(parameters).isPushConstant
  {
    if parameters != [] { NeverPushed(parameters[..|parameters| - 1]); }
  }
}
