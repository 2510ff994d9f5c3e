// The serde manifest of the newer generation (common/src/manifest.rs): the
// records a crate's attributes produce, and the `Manifest` that collects
// them. The records are values; `Manifest` itself is updated in place by
// `merge_from` and `clear`, so it is a class (see `ManifestStore`).
module CommonManifest {
  import opened Outcomes
  import opened Types
  import TypeRender

  datatype Dependency = Dependency(name: string, ty: TypeData)

  datatype Injectable = Injectable(
    ty: TypeData,
    ctorName: string,
    dependencies: seq<Dependency>,
    container: Option<TypeData>)

  datatype ComponentType = ComponentKind | SubcomponentKind

  datatype Component = Component(
    name: string,
    ty: TypeData,
    componentType: ComponentType,
    provisions: seq<Dependency>,
    builderModules: Option<TypeData>,
    modules: seq<TypeData>,
    definitionOnly: bool,
    address: TypeData)

  datatype EntryPoint = EntryPoint(
    ty: TypeData,
    component: TypeData,
    provisions: seq<Dependency>,
    address: TypeData)

  datatype BuilderModules = BuilderModules(ty: Option<TypeData>, builderModules: seq<Dependency>)

  datatype BindingType = ProvidesBinding | BindsBinding | BindsOptionOfBinding | MultibindsBinding

  datatype MultibindingType = NoMultibinding | IntoVec | ElementsIntoVec | IntoMap

  /// `MultibindingMapKey`. An `I32` key holds an `i32`; the range is checked
  /// where the key is parsed (`I32Range`).
  datatype MapKey = NoKey | StringKey(s: string) | I32Key(v: int) | EnumKey(enumType: TypeData, value: TypeData)

  predicate I32Range(v: int)
  {
    -0x8000_0000 <= v < 0x8000_0000
  }

  /// A `HashSet<TypeData>`. `TypeData` hashes and compares by its identifier
  /// string, so the set is a map from identifier to the element first
  /// inserted under it.
  type TypeSet = map<string, TypeData>

  /// Every entry is filed under its own identifier.
  predicate KeyedByIdentifier(s: TypeSet)
  {
    forall k :: k in s ==> TypeRender.Identifier(s[k]) == Some(k)
  }

  /// The panic `identifier_string` raises, through `canonical_string_path`,
  /// when hashing a type whose root is UNSPECIFIED.
  const RootUnspecifiedPanic := "panic: canonical_string_path: root unspecified"

  /// `HashSet::from([t])`: hashing `t` renders its identifier, which panics
  /// when one of its roots is UNSPECIFIED.
  function Singleton(t: TypeData): (r: Result<TypeSet>)
    ensures r.Ok? <==> TypeRender.Identifier(t).Some?
    ensures r.Err? ==> r.msg == RootUnspecifiedPanic
    ensures r.Ok? ==> KeyedByIdentifier(r.value) && r.value.Values == {t}
  {
    match TypeRender.Identifier(t)
    case None => Err(RootUnspecifiedPanic)
    case Some(k) =>
      assert map[k := t].Values == {t} by {
        assert map[k := t][k] == t;
      }
      Ok(map[k := t])
  }

  /// `HashSet::from_iter(types[i..])` continued from `acc`: each type is
  /// hashed (panicking on an UNSPECIFIED root) and inserted under its
  /// identifier unless an element is there already.
  function InsertAll(types: seq<TypeData>, i: nat, acc: TypeSet): (r: Result<TypeSet>)
    requires i <= |types|
    ensures r.Ok? <==> forall j :: i <= j < |types| ==> TypeRender.Identifier(types[j]).Some?
    ensures r.Err? ==> r.msg == RootUnspecifiedPanic
    decreases |types| - i
  {
    if i == |types| then Ok(acc)
    else
      match TypeRender.Identifier(types[i])
      case None => Err(RootUnspecifiedPanic)
      case Some(k) => InsertAll(types, i + 1, if k in acc then acc else acc[k := types[i]])
  }

  /// The set is filed by identifier, keeps what `acc` held, holds every
  /// type inserted, and holds nothing else.
  lemma InsertAllMembers(types: seq<TypeData>, i: nat, acc: TypeSet)
    requires i <= |types|
    requires KeyedByIdentifier(acc)
    requires InsertAll(types, i, acc).Ok?
    ensures var r := InsertAll(types, i, acc).value;
            && KeyedByIdentifier(r)
            && (forall k :: k in acc ==> k in r && r[k] == acc[k])
            && (forall j :: i <= j < |types| ==> TypeRender.Identifier(types[j]).value in r)
            && (forall k :: k in r && k !in acc ==> exists j :: i <= j < |types| && r[k] == types[j])
  {
    var r := InsertAll(types, i, acc).value;
    forall k | k in r
      ensures TypeRender.Identifier(r[k]) == Some(k)
    {
      if k in acc {
        InsertAllKeeps(types, i, acc, k);
      } else {
        var j := InsertAllOnly(types, i, acc, k);
      }
    }
    forall k | k in acc
      ensures k in r && r[k] == acc[k]
    {
      InsertAllKeeps(types, i, acc, k);
    }
    forall j | i <= j < |types|
      ensures TypeRender.Identifier(types[j]).value in r
    {
      InsertAllHas(types, i, acc, j);
    }
    forall k | k in r && k !in acc
      ensures exists j :: i <= j < |types| && r[k] == types[j]
    {
      var j := InsertAllOnly(types, i, acc, k);
    }
  }

  lemma {:induction false} InsertAllKeeps(types: seq<TypeData>, i: nat, acc: TypeSet, k: string)
    requires i <= |types|
    requires InsertAll(types, i, acc).Ok?
    requires k in acc
    ensures k in InsertAll(types, i, acc).value && InsertAll(types, i, acc).value[k] == acc[k]
    decreases |types| - i
  {
    if i < |types| {
      var key := TypeRender.Identifier(types[i]).value;
      InsertAllKeeps(types, i + 1, if key in acc then acc else acc[key := types[i]], k);
    }
  }

  lemma {:induction false} InsertAllHas(types: seq<TypeData>, i: nat, acc: TypeSet, j: nat)
    requires i <= j < |types|
    requires InsertAll(types, i, acc).Ok?
    ensures TypeRender.Identifier(types[j]).value in InsertAll(types, i, acc).value
    decreases |types| - i
  {
    var key := TypeRender.Identifier(types[i]).value;
    var acc' := if key in acc then acc else acc[key := types[i]];
    if i == j {
      InsertAllKeeps(types, i + 1, acc', key);
    } else {
      InsertAllHas(types, i + 1, acc', j);
    }
  }

  /// An entry not in `acc` is a type of `types[i..]` filed under its own
  /// identifier.
  lemma {:induction false} InsertAllOnly(types: seq<TypeData>, i: nat, acc: TypeSet, k: string)
    returns (j: nat)
    requires i <= |types|
    requires InsertAll(types, i, acc).Ok?
    requires k in InsertAll(types, i, acc).value && k !in acc
    ensures i <= j < |types| && InsertAll(types, i, acc).value[k] == types[j]
    ensures TypeRender.Identifier(types[j]) == Some(k)
    decreases |types| - i
  {
    var key := TypeRender.Identifier(types[i]).value;
    var acc' := if key in acc then acc else acc[key := types[i]];
    if k in acc' {
      InsertAllKeeps(types, i + 1, acc', k);
      j := i;
    } else {
      j := InsertAllOnly(types, i + 1, acc', k);
    }
  }

  datatype Binding = Binding(
    name: string,
    ty: TypeData,
    dependencies: seq<Dependency>,
    isStatic: bool,
    bindingType: BindingType,
    multibindingType: MultibindingType,
    mapKey: MapKey)

  datatype Module = Module(
    ty: TypeData,
    bindings: seq<Binding>,
    subcomponents: TypeSet,
    installIn: TypeSet)

  datatype ExpandedVisibility = ExpandedVisibility(exportedName: TypeData, crateLocalName: TypeData)

  /// The value of a `Manifest`.
  datatype ManifestData = ManifestData(
    injectables: seq<Injectable>,
    components: seq<Component>,
    mergedCrates: seq<string>,
    modules: seq<Module>,
    builderModules: seq<BuilderModules>,
    qualifiers: seq<TypeData>,
    entryPoints: seq<EntryPoint>,
    root: bool,
    expandedVisibilities: map<string, ExpandedVisibility>,
    lifetimedTypes: TypeSet)

  /// `Manifest::new()` (`Default`): every collection empty, `root` false.
  function EmptyManifest(): ManifestData
  {
    ManifestData([], [], [], [], [], [], [], false, map[], map[])
  }

  /// `Binding::new(binding_type)`: the given kind, `field_static` true, and
  /// every other field at its default (`MultibindingType::None`,
  /// `MultibindingMapKey::None`, an UNSPECIFIED type).
  function NewBinding(bt: BindingType): (b: Binding)
    ensures b.bindingType == bt && b.isStatic
    ensures b.name == "" && b.ty == NewType() && b.dependencies == []
    ensures b.multibindingType == NoMultibinding && b.mapKey == NoKey
  {
    Binding("", NewType(), [], true, bt, NoMultibinding, NoKey)
  }

  /// The value `merge_from` leaves behind: every list of `other` after the
  /// existing elements, `other`'s visibility entries winning a key collision
  /// (`HashMap::extend` overwrites), the lifetimed types the union of both
  /// sets with the existing element kept on a collision (`HashSet::extend`
  /// keeps it), and `root` untouched.
  function Merged(m: ManifestData, other: ManifestData): (r: ManifestData)
    ensures |r.injectables| == |m.injectables| + |other.injectables|
    ensures |r.components| == |m.components| + |other.components|
    ensures |r.modules| == |m.modules| + |other.modules|
    ensures r.root == m.root
  {
    ManifestData(
      m.injectables + other.injectables,
      m.components + other.components,
      m.mergedCrates + other.mergedCrates,
      m.modules + other.modules,
      m.builderModules + other.builderModules,
      m.qualifiers + other.qualifiers,
      m.entryPoints + other.entryPoints,
      m.root,
      m.expandedVisibilities + other.expandedVisibilities,
      other.lifetimedTypes + m.lifetimedTypes)
  }

  // ---------------------------------------------------------------------------
  // Properties of merging

  /// Merging keeps every existing element at its index and puts `other`'s
  /// elements after them, in order.
  lemma MergedKeepsOrder(m: ManifestData, other: ManifestData)
    ensures Merged(m, other).injectables[..|m.injectables|] == m.injectables
    ensures Merged(m, other).injectables[|m.injectables|..] == other.injectables
    ensures Merged(m, other).entryPoints[..|m.entryPoints|] == m.entryPoints
    ensures Merged(m, other).entryPoints[|m.entryPoints|..] == other.entryPoints
    ensures |Merged(m, other).qualifiers| == |m.qualifiers| + |other.qualifiers|
    ensures |Merged(m, other).mergedCrates| == |m.mergedCrates| + |other.mergedCrates|
  {
  }

  /// On a visibility key both manifests hold, `other`'s entry wins; every
  /// other key keeps the entry of the manifest that has it.
  lemma MergedVisibilities(m: ManifestData, other: ManifestData, k: string)
    ensures k in Merged(m, other).expandedVisibilities <==>
            k in m.expandedVisibilities || k in other.expandedVisibilities
    ensures k in other.expandedVisibilities ==>
            Merged(m, other).expandedVisibilities[k] == other.expandedVisibilities[k]
    ensures k in m.expandedVisibilities && k !in other.expandedVisibilities ==>
            Merged(m, other).expandedVisibilities[k] == m.expandedVisibilities[k]
  {
  }

  /// The lifetimed types of a merge are the union of both sets, an existing
  /// element staying put, and the set stays keyed by identifier.
  lemma MergedLifetimed(m: ManifestData, other: ManifestData)
    requires KeyedByIdentifier(m.lifetimedTypes) && KeyedByIdentifier(other.lifetimedTypes)
    ensures Merged(m, other).lifetimedTypes.Keys == m.lifetimedTypes.Keys + other.lifetimedTypes.Keys
    ensures forall k :: k in m.lifetimedTypes ==> Merged(m, other).lifetimedTypes[k] == m.lifetimedTypes[k]
    ensures KeyedByIdentifier(Merged(m, other).lifetimedTypes)
  {
  }

  /// Merging an empty manifest changes nothing.
  lemma MergeEmptyIsNoop(m: ManifestData)
    ensures Merged(m, EmptyManifest()) == m
  {
    assert m.injectables + [] == m.injectables;
    assert m.components + [] == m.components;
    assert m.mergedCrates + [] == m.mergedCrates;
    assert m.modules + [] == m.modules;
    assert m.builderModules + [] == m.builderModules;
    assert m.qualifiers + [] == m.qualifiers;
    assert m.entryPoints + [] == m.entryPoints;
    assert m.expandedVisibilities + map[] == m.expandedVisibilities;
    assert map[] + m.lifetimedTypes == m.lifetimedTypes;
  }

  /// Merging into a cleared manifest copies `other`, except that `root`
  /// stays false.
  lemma MergeIntoEmpty(other: ManifestData)
    ensures Merged(EmptyManifest(), other) == other.(root := false)
  {
    assert [] + other.injectables == other.injectables;
    assert [] + other.components == other.components;
    assert [] + other.mergedCrates == other.mergedCrates;
    assert [] + other.modules == other.modules;
    assert [] + other.builderModules == other.builderModules;
    assert [] + other.qualifiers == other.qualifiers;
    assert [] + other.entryPoints == other.entryPoints;
    assert map[] + other.expandedVisibilities == other.expandedVisibilities;
    assert other.lifetimedTypes + map[] == other.lifetimedTypes;
  }

  /// Merging two manifests one after the other is merging their merge.
  lemma MergeAssociative(a: ManifestData, b: ManifestData, c: ManifestData)
    ensures Merged(Merged(a, b), c) == Merged(a, Merged(b, c))
  {
    assert (a.injectables + b.injectables) + c.injectables == a.injectables + (b.injectables + c.injectables);
    assert (a.components + b.components) + c.components == a.components + (b.components + c.components);
    assert (a.mergedCrates + b.mergedCrates) + c.mergedCrates == a.mergedCrates + (b.mergedCrates + c.mergedCrates);
    assert (a.modules + b.modules) + c.modules == a.modules + (b.modules + c.modules);
    assert (a.builderModules + b.builderModules) + c.builderModules
        == a.builderModules + (b.builderModules + c.builderModules);
    assert (a.qualifiers + b.qualifiers) + c.qualifiers == a.qualifiers + (b.qualifiers + c.qualifiers);
    assert (a.entryPoints + b.entryPoints) + c.entryPoints == a.entryPoints + (b.entryPoints + c.entryPoints);
    assert (a.expandedVisibilities + b.expandedVisibilities) + c.expandedVisibilities
        == a.expandedVisibilities + (b.expandedVisibilities + c.expandedVisibilities);
    assert c.lifetimedTypes + (b.lifetimedTypes + a.lifetimedTypes)
        == (c.lifetimedTypes + b.lifetimedTypes) + a.lifetimedTypes;
  }

  // ---------------------------------------------------------------------------
  // The manifest as updated in place

  class ManifestStore {
    var injectables: seq<Injectable>
    var components: seq<Component>
    var mergedCrates: seq<string>
    var modules: seq<Module>
    var builderModules: seq<BuilderModules>
    var qualifiers: seq<TypeData>
    var entryPoints: seq<EntryPoint>
    var root: bool
    var expandedVisibilities: map<string, ExpandedVisibility>
    var lifetimedTypes: TypeSet

    function Data(): ManifestData
      reads this
    {
      ManifestData(injectables, components, mergedCrates, modules, builderModules,
                   qualifiers, entryPoints, root, expandedVisibilities, lifetimedTypes)
    }

    /// `Manifest::new()`.
    constructor ()
      ensures Data() == EmptyManifest()
    {
      injectables, components, mergedCrates, modules := [], [], [], [];
      builderModules, qualifiers, entryPoints := [], [], [];
      root := false;
      expandedVisibilities, lifetimedTypes := map[], map[];
    }

    /// `clear`: every collection emptied and `root` reset.
    method Clear()
      modifies this
      ensures Data() == EmptyManifest()
    {
      injectables, components, mergedCrates, modules := [], [], [], [];
      builderModules, qualifiers, entryPoints := [], [], [];
      root := false;
      expandedVisibilities, lifetimedTypes := map[], map[];
    }

    /// `merge_from`: `other` appended field by field.
    method MergeFrom(other: ManifestData)
      modifies this
      ensures Data() == Merged(old(Data()), other)
    {
      var lifetimed := LifetimedUnion(lifetimedTypes, other.lifetimedTypes);
      injectables := injectables + other.injectables;
      components := components + other.components;
      mergedCrates := mergedCrates + other.mergedCrates;
      modules := modules + other.modules;
      builderModules := builderModules + other.builderModules;
      qualifiers := qualifiers + other.qualifiers;
      entryPoints := entryPoints + other.entryPoints;
      expandedVisibilities := expandedVisibilities + other.expandedVisibilities;
      lifetimedTypes := lifetimed;
    }

    /// `expanded_visibilities.insert(key, v)`: the entry under `key` replaced.
    method InsertVisibility(key: string, v: ExpandedVisibility)
      modifies this
      ensures Data() == old(Data()).(expandedVisibilities := old(expandedVisibilities)[key := v])
    {
      expandedVisibilities := expandedVisibilities[key := v];
    }

    /// `entry_points.push(e)`.
    method PushEntryPoint(e: EntryPoint)
      modifies this
      ensures Data() == old(Data()).(entryPoints := old(entryPoints) + [e])
    {
      entryPoints := entryPoints + [e];
    }
  }

  /// The manifest holding one visibility entry and one entry point, as the
  /// common handler of `#[entry_point]` returns it.
  function EntryPointOnly(key: string, v: ExpandedVisibility, e: EntryPoint): ManifestData
  {
    EmptyManifest().(expandedVisibilities := map[key := v], entryPoints := [e])
  }

  /// Inserting the entry and pushing the entry point in place, as the
  /// processor does, leaves the manifest that merging the one-entry manifest
  /// into it would leave.
  lemma InsertAndPushIsMerge(d: ManifestData, key: string, v: ExpandedVisibility, e: EntryPoint)
    ensures Merged(d, EntryPointOnly(key, v, e))
            == d.(expandedVisibilities := d.expandedVisibilities[key := v], entryPoints := d.entryPoints + [e])
  {
    assert d.injectables + [] == d.injectables;
    assert d.components + [] == d.components;
    assert d.mergedCrates + [] == d.mergedCrates;
    assert d.modules + [] == d.modules;
    assert d.builderModules + [] == d.builderModules;
    assert d.qualifiers + [] == d.qualifiers;
    assert d.expandedVisibilities + map[key := v] == d.expandedVisibilities[key := v];
    assert map[] + d.lifetimedTypes == d.lifetimedTypes;
  }

  /// `HashSet::extend` on the lifetimed types: each element of `added`
  /// whose identifier is new is inserted; an existing one is kept.
  method LifetimedUnion(existing: TypeSet, added: TypeSet) returns (r: TypeSet)
    ensures r == added + existing
  {
    r := existing;
    var rest := added.Keys;
    while rest != {}
      invariant rest <= added.Keys
      invariant r == (map k | k in added.Keys - rest :: added[k]) + existing
      decreases |rest|
    {
      var k :| k in rest;
      ghost var done := map j | j in added.Keys - rest :: added[j];
      ghost var done' := map j | j in added.Keys - (rest - {k}) :: added[j];
      assert done' == done[k := added[k]];
      if k !in r {
        r := r[k := added[k]];
      }
      rest := rest - {k};
    }
    assert (map k | k in added.Keys - rest :: added[k]) == added;
  }
}
