// The parts of processor/src/nodes/*.rs that work step by step: a map node
// whose bindings are inserted in place (`MapNode::add_binding`), and the
// subcomponent node, found by a search loop over the manifest's components
// and expanded by a loop over the dependencies its graph is missing.
module NodeState {
  import opened Outcomes
  import opened Types
  import CommonManifest
  import opened NodeAlgebra

  // ---------------------------------------------------------------------------
  // Map nodes built in place

  /// `MapNode` as the graph builder holds it while adding bindings.
  class MapNodeCell {
    var ty: TypeData
    var bindings: map<CommonManifest.MapKey, TypeData>

    /// The node this cell currently stands for.
    function Value(): Node
      reads this
    {
      Node(MapKind(bindings), ty, [], false)
    }

    /// `MapNode::with_key_type`: an empty map node.
    constructor (keyType: TypeData, valueType: TypeData)
      ensures Value() == MapWithKeyType(keyType, valueType)
    {
      ty := MapType(keyType, valueType);
      bindings := map[];
    }

    /// `add_binding`: the key is bound to `valueType`, replacing an earlier
    /// value under the same key; the type does not change.
    method AddBinding(k: CommonManifest.MapKey, valueType: TypeData)
      modifies this
      ensures Value() == NodeAlgebra.AddBinding(old(Value()), k, valueType)
    {
      bindings := bindings[k := valueType];
    }
  }

  /// `MapNode::new`: an error for a missing key kind, else an empty map
  /// node whose key type comes from the key.
  method NewMapNodeCell(k: CommonManifest.MapKey, valueType: TypeData) returns (r: Result<MapNodeCell>)
    ensures r.Err? <==> MapNew(k, valueType).Err?
    ensures r.Err? ==> r.msg == MapNew(k, valueType).msg
    ensures r.Ok? ==> fresh(r.value) && r.value.Value() == MapNew(k, valueType).value
  {
    var kt := MapKeyType(k);
    if kt.Err? {
      return Err(kt.msg);
    }
    var cell := new MapNodeCell(kt.value, valueType);
    return Ok(cell);
  }

  // ---------------------------------------------------------------------------
  // Subcomponents

  /// `find_component`: the first component of the manifest whose type has
  /// the requested identifier.
  method FindComponent(components: seq<CommonManifest.Component>, t: TypeData)
    returns (r: Option<CommonManifest.Component>)
    requires Rooted(t) && forall i :: 0 <= i < |components| ==> Rooted(components[i].ty)
    ensures r.None? <==> forall i :: 0 <= i < |components| ==> KeyOf(components[i].ty) != KeyOf(t)
    ensures r.Some? ==>
              exists i :: 0 <= i < |components| && components[i] == r.value
                          && KeyOf(components[i].ty) == KeyOf(t)
                          && forall j :: 0 <= j < i ==> KeyOf(components[j].ty) != KeyOf(t)
  {
    var k := KeyOf(t);
    var i := 0;
    while i < |components|
      invariant i <= |components|
      invariant forall j :: 0 <= j < i ==> KeyOf(components[j].ty) != k
    {
      if KeyOf(components[i].ty) == k {
        return Some(components[i]);
      }
      i := i + 1;
    }
    return None;
  }

  const MissingComponentPrefix := "unable to find component "
  const IndexPanic := "panic: index out of bounds"

  /// The builder trait of a subcomponent: its path with "Builder" appended,
  /// as a trait object.
  function BuilderType(componentType: TypeData): (r: TypeData)
    ensures r.path == componentType.path + "Builder" && r.traitObject
    ensures r.(path := componentType.path, traitObject := componentType.traitObject) == componentType
  {
    componentType.(path := componentType.path + "Builder", traitObject := true)
  }

  /// The node that provides `Cl<dyn <Component>Builder>` and depends on
  /// every dependency the subcomponent's graph is missing, in order.
  function SubcomponentNode(componentType: TypeData, missing: seq<MissingDependency>): (r: Node)
    ensures r.kind == SubcomponentKind(BuilderType(componentType))
    ensures r.ty == Wrapped(ClPath, BuilderType(componentType)) && !r.scoped
    ensures |r.deps| == |missing| && forall i :: 0 <= i < |missing| ==> r.deps[i] == missing[i].ty
  {
    var b := BuilderType(componentType);
    Node(SubcomponentKind(b), Wrapped(ClPath, b), seq(|missing|, i requires 0 <= i < |missing| => missing[i].ty), false)
  }

  /// The empty multibinding a missing dependency asks the parent for: a
  /// `Vec<T>` for `Vec<T>` into-vec dependencies, a `HashMap<K, V>` for
  /// into-map ones, nothing for the rest. A type without the arguments its
  /// kind reads is an index panic.
  function ExpandOne(md: MissingDependency): (r: Result<seq<Node>>)
    ensures r.Err? <==>
              (md.multibindingType == CommonManifest.IntoVec && |md.ty.args| < 1)
              || (md.multibindingType == CommonManifest.IntoMap && |md.ty.args| < 2)
    ensures r.Ok? ==> |r.value| <= 1
    ensures r.Ok? && md.multibindingType == CommonManifest.IntoVec ==> r.value == [VecNew(md.ty.args[0])]
    ensures r.Ok? && md.multibindingType == CommonManifest.IntoMap ==>
              r.value == [MapWithKeyType(md.ty.args[0], md.ty.args[1])]
    ensures md.multibindingType != CommonManifest.IntoVec && md.multibindingType != CommonManifest.IntoMap ==>
              r == Ok([])
  {
    match md.multibindingType
    case IntoVec => if |md.ty.args| < 1 then Err(IndexPanic) else Ok([VecNew(md.ty.args[0])])
    case IntoMap =>
      if |md.ty.args| < 2 then Err(IndexPanic) else Ok([MapWithKeyType(md.ty.args[0], md.ty.args[1])])
    case _ => Ok([])
  }

  /// The expansions of `missing[i..]`, in order.
  function Expansion(missing: seq<MissingDependency>, i: nat): Result<seq<Node>>
    requires i <= |missing|
    decreases |missing| - i
  {
    if i == |missing| then Ok([])
    else
      var head :- ExpandOne(missing[i]);
      var rest :- Expansion(missing, i + 1);
      Ok(head + rest)
  }

  /// An outcome with `xs` in front of its nodes; an error stays as it is.
  function PrependNodes(xs: seq<Node>, r: Result<seq<Node>>): Result<seq<Node>>
  {
    if r.Ok? then Ok(xs + r.value) else r
  }

  /// Every node of an expansion is an empty multibinding, so when it meets
  /// the parent's node for the same key the parent's contents survive the
  /// merge; and there is one node per multibinding dependency.
  lemma {:induction false} ExpansionIsEmptyMultibindings(missing: seq<MissingDependency>, i: nat)
    requires i <= |missing|
    requires Expansion(missing, i).Ok?
    ensures |Expansion(missing, i).value| <= |missing| - i
    ensures forall n :: n in Expansion(missing, i).value ==>
              (n.kind == VecKind && n.deps == []) || n.kind == MapKind(map[])
    decreases |missing| - i
  {
    if i < |missing| {
      var next: nat := i + 1;
      ExpansionIsEmptyMultibindings(missing, next);
    }
  }

  /// `SubcomponentNode::new` against a manifest. What `build_graph` and
  /// `generate_component` do for the subcomponent is not part of this
  /// model: `built` is their outcome, the dependencies the subcomponent's
  /// graph is missing or their error.
  function SubcomponentNodes(manifest: CommonManifest.ManifestData, componentType: TypeData,
                             built: Result<seq<MissingDependency>>): (r: Result<seq<Node>>)
    requires Rooted(componentType)
    requires forall i :: 0 <= i < |manifest.components| ==> Rooted(manifest.components[i].ty)
  {
    if !HasComponent(manifest.components, componentType) then
      Err(MissingComponentPrefix + ReadableOf(componentType))
    else if built.Err? then Err(built.msg)
    else PrependNodes([SubcomponentNode(componentType, built.value)], Expansion(built.value, 0))
  }

  /// Some component of the manifest has the identifier of `t`.
  predicate HasComponent(components: seq<CommonManifest.Component>, t: TypeData)
    requires Rooted(t) && forall i :: 0 <= i < |components| ==> Rooted(components[i].ty)
  {
    exists i :: 0 <= i < |components| && KeyOf(components[i].ty) == KeyOf(t)
  }

  lemma ExpansionEnd(missing: seq<MissingDependency>, nodes: seq<Node>)
    ensures PrependNodes(nodes, Expansion(missing, |missing|)) == Ok(nodes)
  {
    assert nodes + [] == nodes;
  }

  lemma ExpansionStep(missing: seq<MissingDependency>, i: nat, next: nat, nodes: seq<Node>)
    requires i < |missing| && next == i + 1
    ensures ExpandOne(missing[i]).Err? ==> Expansion(missing, i) == Err(ExpandOne(missing[i]).msg)
    ensures ExpandOne(missing[i]).Ok? ==>
              PrependNodes(nodes, Expansion(missing, i))
              == PrependNodes(nodes + ExpandOne(missing[i]).value, Expansion(missing, next))
  {
    if ExpandOne(missing[i]).Ok? && Expansion(missing, next).Ok? {
      var head := ExpandOne(missing[i]).value;
      var rest := Expansion(missing, next).value;
      assert nodes + (head + rest) == (nodes + head) + rest;
    }
  }

  /// `SubcomponentNode::new`: find the component ("unable to find component"
  /// otherwise), then the builder node followed by one empty multibinding per
  /// missing multibinding dependency.
  method NewSubcomponent(manifest: CommonManifest.ManifestData, componentType: TypeData,
                         built: Result<seq<MissingDependency>>) returns (r: Result<seq<Node>>)
    requires Rooted(componentType)
    requires forall i :: 0 <= i < |manifest.components| ==> Rooted(manifest.components[i].ty)
    ensures r == SubcomponentNodes(manifest, componentType, built)
  {
    var found := FindComponent(manifest.components, componentType);
    if found.None? {
      return Err(MissingComponentPrefix + ReadableOf(componentType));
    }
    if built.Err? {
      return Err(built.msg);
    }
    var missing := built.value;
    var nodes := [SubcomponentNode(componentType, missing)];
    var i := 0;
    while i < |missing|
      invariant i <= |missing|
      invariant PrependNodes(nodes, Expansion(missing, i))
             == PrependNodes([SubcomponentNode(componentType, missing)], Expansion(missing, 0))
    {
      var next: nat := i + 1;
      ExpansionStep(missing, i, next, nodes);
      var e := ExpandOne(missing[i]);
      if e.Err? {
        return Err(e.msg);
      }
      nodes := nodes + e.value;
      i := next;
    }
    ExpansionEnd(missing, nodes);
    return Ok(nodes);
  }

  /// The first node of a subcomponent is its builder, which asks for every
  /// missing dependency; the nodes after it are empty multibindings.
  lemma SubcomponentNodesShape(manifest: CommonManifest.ManifestData, componentType: TypeData,
                               missing: seq<MissingDependency>)
    requires Rooted(componentType)
    requires forall i :: 0 <= i < |manifest.components| ==> Rooted(manifest.components[i].ty)
    requires SubcomponentNodes(manifest, componentType, Ok(missing)).Ok?
    ensures var ns := SubcomponentNodes(manifest, componentType, Ok(missing)).value;
            && 1 <= |ns| <= |missing| + 1
            && ns[0] == SubcomponentNode(componentType, missing)
            && forall j :: 1 <= j < |ns| ==> (ns[j].kind == VecKind && ns[j].deps == []) || ns[j].kind == MapKind(map[])
  {
    var r := SubcomponentNodes(manifest, componentType, Ok(missing));
    assert r == PrependNodes([SubcomponentNode(componentType, missing)], Expansion(missing, 0));
    BuilderThenExpansion(SubcomponentNode(componentType, missing), missing);
  }

  /// The builder node in front of an expansion's empty multibindings.
  lemma BuilderThenExpansion(builder: Node, missing: seq<MissingDependency>)
    requires Expansion(missing, 0).Ok?
    ensures var ns := PrependNodes([builder], Expansion(missing, 0)).value;
            && 1 <= |ns| <= |missing| + 1
            && ns[0] == builder
            && forall j :: 1 <= j < |ns| ==> (ns[j].kind == VecKind && ns[j].deps == []) || ns[j].kind == MapKind(map[])
  {
    ExpansionIsEmptyMultibindings(missing, 0);
    var ex := Expansion(missing, 0).value;
    var ns := [builder] + ex;
    forall j | 1 <= j < |ns|
      ensures (ns[j].kind == VecKind && ns[j].deps == []) || ns[j].kind == MapKind(map[])
    {
      assert ns[j] == ex[j - 1] && ex[j - 1] in ex;
    }
  }
}
