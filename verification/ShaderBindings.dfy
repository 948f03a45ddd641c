/**
  The two generators of binding numbers: the shader compiler declares bindings in the source it generates
  (src/ShaderCompiler/ShaderCompiler.cpp), and the device builds descriptor set layouts
  (src/Teide/VulkanParameterBlock.cpp).  Each counts its own slots; they have to agree.
 */
module ShaderBindings {
  import opened Wrappers
  import opened ShaderLayout

  // ---------------------------------------------------------------- the generated source

  /** The type keyword printed in a declaration. */
  datatype Keyword = Sampler2D | Sampler2DShadow | Image2D

  datatype Declaration =
    | PushConstantBlock(members: seq<Variable>)
    | UniformBlock(index: int, slot: nat, members: seq<Variable>)
    | ResourceDeclaration(index: int, slot: nat, keyword: Keyword, name: string)

  function ToKeyword(base: BaseType): Keyword
    requires IsResource(base)
  {
    match base
    case Texture2D => Sampler2D
    case Texture2DShadow => Sampler2DShadow
    case RWTexture2D => Image2D
  }

  ghost function UniformDeclarations(parameters: seq<Variable>, index: int): seq<Declaration> {
    if UniformsIn(parameters) == [] then []
    else if LayoutOf(parameters, index).isPushConstant then [PushConstantBlock(UniformsIn(parameters))]
    else [UniformBlock(index, 0, UniformsIn(parameters))]
  }

  function ResourceDeclarations(parameters: seq<Variable>, index: int, slot: nat): seq<Declaration> {
    if parameters == [] then []
    else if IsResource(parameters[0].base)
    then [ResourceDeclaration(index, slot, ToKeyword(parameters[0].base), parameters[0].name)] +
        ResourceDeclarations(parameters[1..], index, slot + 1)
    else ResourceDeclarations(parameters[1..], index, slot)
  }

  ghost function Declarations(parameters: seq<Variable>, index: int): seq<Declaration> {
    UniformDeclarations(parameters, index) + ResourceDeclarations(parameters, index, 1)
  }

  method BuildBindings(parameters: seq<Variable>, index: int) returns (source: seq<Declaration>)
    ensures source == Declarations(parameters, index)
  {
    var block := BuildUniformBuffer(parameters, index);
    var resources := BuildResourceBindings(parameters, index);
    source := block + resources;
  }

  method BuildUniformBuffer(parameters: seq<Variable>, index: int) returns (source: seq<Declaration>)
    ensures source == UniformDeclarations(parameters, index)
  {
    var members: seq<Variable> := [];
    var i := 0;
    while i < |parameters|
      invariant 0 <= i <= |parameters| && members == UniformsIn(parameters[..i])
    {
      UniformsInAppend(parameters[..i], parameters[i]);
      assert parameters[..i + 1] == parameters[..i] + [parameters[i]];
      if !IsResource(parameters[i].base) {
        members := members + [parameters[i]];
      }
      i := i + 1;
    }
    assert parameters[..i] == parameters;
    if members == [] {
      return [];
    }
    var layout := BuildParameterBlockLayout(parameters, index);
    if layout.isPushConstant {
      source := [PushConstantBlock(members)];
    } else {
      source := [UniformBlock(index, 0, members)];
    }
  }

  method BuildResourceBindings(parameters: seq<Variable>, index: int) returns (source: seq<Declaration>)
    ensures source == ResourceDeclarations(parameters, index, 1)
  {
    source := [];
    var slot, i := 1, 0;
    while i < |parameters|
      invariant 0 <= i <= |parameters|
      invariant source + ResourceDeclarations(parameters[i..], index, slot) ==
                ResourceDeclarations(parameters, index, 1)
    {
      assert parameters[i..][1..] == parameters[i + 1..];
      if IsResource(parameters[i].base) {
        source := source + [ResourceDeclaration(index, slot, ToKeyword(parameters[i].base), parameters[i].name)];
        slot := slot + 1;
      }
      i := i + 1;
    }
  }

  // ---------------------------------------------------------------- the descriptor set layout

  datatype Descriptor = UniformBuffer | CombinedImageSampler | StorageImage

  datatype Binding = Binding(slot: nat, descriptor: Descriptor)

  datatype SetLayout = SetLayout(bindings: seq<Binding>, uniformBufferSize: uint32, pushConstantSize: Option<uint32>)

  /** ToVulkan for the resource types. */
  function ToDescriptor(base: BaseType): Descriptor {
    match base
    case Texture2D => CombinedImageSampler
    case Texture2DShadow => CombinedImageSampler
    case _ => StorageImage
  }

  function ResourceBindings(resources: seq<BaseType>, i: nat): seq<Binding> {
    if resources == [] then []
    else [Binding(i + 1, ToDescriptor(resources[0]))] + ResourceBindings(resources[1..], i + 1)
  }

  function SetLayoutOf(data: Layout): SetLayout {
    var hasBuffer := data.uniformsSize > 0 && !data.isPushConstant;
    SetLayout((if hasBuffer then [Binding(0, UniformBuffer)] else []) + ResourceBindings(data.resources, 0),
              if hasBuffer then data.uniformsSize else 0,
              if data.uniformsSize > 0 && data.isPushConstant then Some(data.uniformsSize) else None)
  }

  method MakeSetLayout(data: Layout) returns (layout: SetLayout)
    ensures layout == SetLayoutOf(data)
  {
    layout := SetLayout([], 0, None);
    if data.uniformsSize > 0 {
      if data.isPushConstant {
        layout := layout.(pushConstantSize := Some(data.uniformsSize));
      } else {
        layout := layout.(bindings := [Binding(0, UniformBuffer)], uniformBufferSize := data.uniformsSize);
      }
    }
    var textures: seq<Binding> := [];
    var i := 0;
    while i < |data.resources|
      invariant 0 <= i <= |data.resources|
      invariant textures + ResourceBindings(data.resources[i..], i) == ResourceBindings(data.resources, 0)
    {
      assert data.resources[i..][1..] == data.resources[i + 1..];
      textures := textures + [Binding(i + 1, ToDescriptor(data.resources[i]))];
      i := i + 1;
    }
    layout := layout.(bindings := layout.bindings + textures);
  }

  // ---------------------------------------------------------------- agreement

  /** The descriptor a declaration needs, as the language defines its type. */
  function Needs(keyword: Keyword): Descriptor {
    match keyword
    case Sampler2D => CombinedImageSampler
    case Sampler2DShadow => CombinedImageSampler
    case Image2D => StorageImage
  }

  /** The bindings a source declares, in order. */
  function Declared(source: seq<Declaration>): seq<Binding> {
    if source == [] then []
    else
      (match source[0]
       case PushConstantBlock(_) => []
       case UniformBlock(_, slot, _) => [Binding(slot, UniformBuffer)]
       case ResourceDeclaration(_, slot, keyword, _) => [Binding(slot, Needs(keyword))]) + Declared(source[1..])
  }

  /**
    The declarations are of the given set, and have the same bindings as its layout in number, order and kind,
    and a push-constant block exactly where the layout has a range.
   */
  ghost predicate Agree(source: seq<Declaration>, index: int, layout: SetLayout) {
    && OfSet(source, index)
    && Declared(source) == layout.bindings
    && (DeclaresPushConstants(source) <==> layout.pushConstantSize.Some?)
  }

  ghost predicate OfSet(source: seq<Declaration>, index: int) {
    forall k :: 0 <= k < |source| && !source[k].PushConstantBlock? ==> source[k].index == index
  }

  ghost predicate DeclaresPushConstants(source: seq<Declaration>) {
    exists k :: 0 <= k < |source| && source[k].PushConstantBlock?
  }

  ghost predicate OnlyResources(source: seq<Declaration>) {
    forall k :: 0 <= k < |source| ==> source[k].ResourceDeclaration?
  }

  /** Both generators count resources alike. */
  lemma {:induction false} ResourcesAgree(parameters: seq<Variable>, index: int, slot: nat)
    ensures Declared(ResourceDeclarations(parameters, index, slot + 1)) ==
              ResourceBindings(ResourcesIn(parameters), slot)
    ensures OnlyResources(ResourceDeclarations(parameters, index, slot + 1))
    ensures OfSet(ResourceDeclarations(parameters, index, slot + 1), index)
  {
    if parameters != [] {
      var next := if IsResource(parameters[0].base) then slot + 1 else slot;
      ResourcesAgree(parameters[1..], index, next);
      var rest := ResourceDeclarations(parameters[1..], index, next + 1);
      var all := ResourceDeclarations(parameters, index, slot + 1);
      if IsResource(parameters[0].base) {
        assert all[1..] == rest;
        assert ResourcesIn(parameters)[0] == parameters[0].base;
        assert ResourcesIn(parameters)[1..] == ResourcesIn(parameters[1..]);
      } else {
        assert ResourcesIn(parameters) == ResourcesIn(parameters[1..]);
      }
    }
  }

  lemma {:induction false} NoUniformsNoSize(parameters: seq<Variable>)
    requires UniformsIn(parameters) == []
    ensures Added(parameters).uniformsSize == 0
  {
    if parameters != [] {
      var n := |parameters| - 1;
      assert parameters == parameters[..n] + [parameters[n]];
      UniformsInAppend(parameters[..n], parameters[n]);
      NoUniformsNoSize(parameters[..n]);
    }
  }

  lemma {:induction false} UniformsHaveSize(parameters: seq<Variable>)
    requires UniformsIn(parameters) != [] && TotalSize(parameters) < 0x1_0000_0000
    ensures Added(parameters).uniformsSize > 0
  {
    PackedWhenFits(parameters);
    EveryParameterListed(parameters);
    var uniforms := Added(parameters).uniforms;
    assert |VariablesOf(uniforms)| == |uniforms|;
    assert EndBefore(uniforms, |uniforms|) >= 4;
  }

  /**
    For every parameter block and set index the generated source and the descriptor set layout agree, except
    exactly when the block has uniforms whose 32-bit size has wrapped around to zero.
   */
  lemma {:induction false} BindingsAgreeIff(parameters: seq<Variable>, index: int)
    ensures Agree(Declarations(parameters, index), index, SetLayoutOf(LayoutOf(parameters, index))) <==>
            !(UniformsIn(parameters) != [] && LayoutOf(parameters, index).uniformsSize == 0)
  {
    var block, resources := UniformDeclarations(parameters, index), ResourceDeclarations(parameters, index, 1);
    ResourcesAgree(parameters, index, 0);
    EveryParameterListed(parameters);
    if UniformsIn(parameters) == [] {
      NoUniformsNoSize(parameters);
      assert Declarations(parameters, index) == resources;
      WithoutBlock(resources, index, LayoutOf(parameters, index));
    } else {
      WithBlock(block[0], resources, index, LayoutOf(parameters, index));
      assert Declarations(parameters, index) == [block[0]] + resources;
    }
  }

  lemma {:induction false} WithoutBlock(resources: seq<Declaration>, index: int, data: Layout)
    requires OfSet(resources, index)
    requires OnlyResources(resources) && Declared(resources) == ResourceBindings(data.resources, 0)
    requires data.uniformsSize == 0
    ensures Agree(resources, index, SetLayoutOf(data))
  {
    assert SetLayoutOf(data).bindings == ResourceBindings(data.resources, 0);
  }

  lemma {:induction false} WithBlock(d: Declaration, resources: seq<Declaration>, index: int, data: Layout)
    requires OfSet([d] + resources, index)
    requires OnlyResources(resources) && Declared(resources) == ResourceBindings(data.resources, 0)
    requires if data.isPushConstant then d.PushConstantBlock? else d.UniformBlock? && d.slot == 0
    ensures Agree([d] + resources, index, SetLayoutOf(data)) <==> data.uniformsSize > 0
  {
    var source, tail := [d] + resources, ResourceBindings(data.resources, 0);
    assert source[1..] == resources;
    assert DeclaresPushConstants(source) <==> data.isPushConstant by {
      assert source[0] == d;
      assert forall k :: 0 < k < |source| ==> source[k] == resources[k - 1];
    }
    if !data.isPushConstant {
      assert Declared(source) == [Binding(0, UniformBuffer)] + tail;
      assert data.uniformsSize == 0 ==> |SetLayoutOf(data).bindings| == |tail|;
    } else {
      assert Declared(source) == tail;
    }
  }

  /** A block is declared exactly for uniforms, and with the members that the layout places, in its order. */
  ghost predicate MembersAgree(source: seq<Declaration>, data: Layout) {
    && (forall k :: 0 <= k < |source| && !source[k].ResourceDeclaration? ==>
          source[k].members == VariablesOf(data.uniforms))
    && (data.uniforms != [] <==> exists k :: 0 <= k < |source| && !source[k].ResourceDeclaration?)
  }

  /** Sizes are those of the uniforms, in the buffer or in the push-constant range, never in both. */
  ghost predicate SizesAgree(layout: SetLayout, size: nat, pushed: bool) {
    && layout.uniformBufferSize as nat == (if pushed then 0 else size)
    && (layout.pushConstantSize.Some? <==> pushed && size > 0)
    && (layout.pushConstantSize.Some? ==> layout.pushConstantSize.value as nat == size)
  }

  lemma {:induction false} DeclaredMembers(parameters: seq<Variable>, index: int)
    ensures MembersAgree(Declarations(parameters, index), LayoutOf(parameters, index))
  {
    ResourcesAgree(parameters, index, 0);
    EveryParameterListed(parameters);
    assert |VariablesOf(LayoutOf(parameters, index).uniforms)| == |LayoutOf(parameters, index).uniforms|;
    BlockThenResources(UniformDeclarations(parameters, index), ResourceDeclarations(parameters, index, 1),
                       LayoutOf(parameters, index));
  }

  lemma {:induction false} BlockThenResources(block: seq<Declaration>, resources: seq<Declaration>, data: Layout)
    requires OnlyResources(resources) && |block| == (if data.uniforms == [] then 0 else 1)
    requires block != [] ==> !block[0].ResourceDeclaration? && block[0].members == VariablesOf(data.uniforms)
    ensures MembersAgree(block + resources, data)
  {
    var source := block + resources;
    assert forall k :: |block| <= k < |source| ==> source[k] == resources[k - |block|];
    assert block != [] ==> source[0] == block[0];
  }

  /**
    So they agree whenever the uniforms fit 32 bits.  The members declared are then those the layout places, the
    buffer or the range is as large as they need, and it is a range exactly in set 3 up to 128 bytes.
   */
  lemma {:induction false} BindingsAgree(parameters: seq<Variable>, index: int)
    requires TotalSize(parameters) < 0x1_0000_0000
    ensures Agree(Declarations(parameters, index), index, SetLayoutOf(LayoutOf(parameters, index)))
    ensures MembersAgree(Declarations(parameters, index), LayoutOf(parameters, index))
    ensures UniformsIn(parameters) == VariablesOf(LayoutOf(parameters, index).uniforms)
    ensures SizesAgree(SetLayoutOf(LayoutOf(parameters, index)), TotalSize(parameters),
                       index == 3 && TotalSize(parameters) <= 128)
  {
    BindingsAgreeIff(parameters, index);
    EveryParameterListed(parameters);
    DeclaredMembers(parameters, index);
    PackedWhenFits(parameters);
    PushConstantIff(parameters, index);
    if UniformsIn(parameters) != [] { UniformsHaveSize(parameters); }
  }

  /** Both texture types are one kind of descriptor, a writable image is another, and each has its own keyword. */
  lemma KindsApart(a: BaseType, b: BaseType)
    requires IsResource(a) && IsResource(b)
    ensures ToKeyword(a) == ToKeyword(b) <==> a == b
    ensures ToDescriptor(a) == ToDescriptor(b) <==> (a == RWTexture2D <==> b == RWTexture2D)
    ensures Needs(ToKeyword(a)) == ToDescriptor(a) && ToDescriptor(a) != UniformBuffer
  {
  }

  /** An array of 2^30 floats has size zero: a uniform is declared that the layout does not have. */
  lemma {:induction false} WrappedSizeDisagrees(name: string, index: int)
    ensures !Agree(Declarations([Variable(name, Float, 0x4000_0000)], index), index,
                   SetLayoutOf(LayoutOf([Variable(name, Float, 0x4000_0000)], index)))
  {
    var v := Variable(name, Float, 0x4000_0000);
    assert [v][..0] == [] && [v][1..] == [];
    assert Added([v]) == AddParameter(Added([]), v);
    assert UniformsIn([v]) == [v];
    BindingsAgreeIff([v], index);
  }

  // ---------------------------------------------------------------- kernel outputs

  /** The images a kernel's outputs are stored through. */
  function KernelDeclarations(outputs: seq<string>, slot: nat): seq<Declaration> {
    if outputs == [] then []
    else [ResourceDeclaration(2, slot, Image2D, ImageName(outputs[0]))] + KernelDeclarations(outputs[1..], slot + 1)
  }

  function ImageName(output: string): string {
    "_" + output + "_image_"
  }

  function KernelParameters(outputs: seq<string>): seq<Variable> {
    if outputs == [] then []
    else KernelParameters(outputs[..|outputs| - 1]) + [Variable(ImageName(outputs[|outputs| - 1]), RWTexture2D, 0)]
  }

  /** Declares one image for each output, and lists the images as parameters of the kernel's own block. */
  method BuildKernelEntrypoint(outputs: seq<string>) returns (source: seq<Declaration>, parameters: seq<Variable>)
    ensures source == KernelDeclarations(outputs, 1) && parameters == KernelParameters(outputs)
  {
    source, parameters := [], [];
    var slot, i := 1, 0;
    while i < |outputs|
      invariant 0 <= i <= |outputs| && slot == i + 1
      invariant source + KernelDeclarations(outputs[i..], slot) == KernelDeclarations(outputs, 1)
    {
      assert outputs[i..][1..] == outputs[i + 1..];
      source := source + [ResourceDeclaration(2, slot, Image2D, ImageName(outputs[i]))];
      slot := slot + 1;
      i := i + 1;
    }
    i := 0;
    while i < |outputs|
      invariant 0 <= i <= |outputs| && parameters == KernelParameters(outputs[..i])
    {
      assert outputs[..i + 1][..i] == outputs[..i];
      parameters := parameters + [Variable(ImageName(outputs[i]), RWTexture2D, 0)];
      i := i + 1;
    }
    assert outputs[..i] == outputs;
  }

  lemma {:induction false} KernelParametersHead(outputs: seq<string>)
    requires outputs != []
    ensures KernelParameters(outputs) == [Variable(ImageName(outputs[0]), RWTexture2D, 0)] +
              KernelParameters(outputs[1..])
  {
    var n := |outputs| - 1;
    if n > 0 {
      KernelParametersHead(outputs[..n]);
      assert outputs[..n][1..] == outputs[1..][..n - 1];
    } else {
      assert outputs[..n] == [] && outputs[1..] == [];
    }
  }

  lemma {:induction false} KernelSourcesAgree(outputs: seq<string>, slot: nat)
    ensures KernelDeclarations(outputs, slot) == ResourceDeclarations(KernelParameters(outputs), 2, slot)
    ensures UniformsIn(KernelParameters(outputs)) == []
  {
    if outputs != [] {
      KernelParametersHead(outputs);
      KernelSourcesAgree(outputs[1..], slot + 1);
      assert KernelParameters(outputs)[1..] == KernelParameters(outputs[1..]);
    }
  }

  /** The images a kernel declares are the bindings of its parameter block's layout. */
  lemma {:induction false} KernelBindingsAgree(outputs: seq<string>)
    ensures Agree(KernelDeclarations(outputs, 1), 2, SetLayoutOf(LayoutOf(KernelParameters(outputs), 2)))
  {
    KernelSourcesAgree(outputs, 1);
    BindingsAgreeIff(KernelParameters(outputs), 2);
    assert Declarations(KernelParameters(outputs), 2) == KernelDeclarations(outputs, 1);
  }
}
