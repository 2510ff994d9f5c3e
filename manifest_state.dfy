// The serde manifest of processor/src/manifest.rs as the processor holds it:
// five lists that `merge_from` extends in place and `clear` empties. The
// element records are the ones of `ProtoManifest`; `merge_from` and `clear`
// never look inside them.
module ProcessorManifest {
  import opened Types
  import opened ProtoManifest

  /// `Provider::new()`: a static, non-binds provider with every other field
  /// at its default.
  function NewProvider(): (r: Provider)
    ensures r.isStatic && !r.binds
    ensures r.name == "" && r.deps == [] && r.ty == NewType()
  {
    Provider("", NewType(), [], true, false)
  }

  /// `Manifest::new()`: every list empty.
  function EmptyManifest(): (r: Manifest)
    ensures r.injectables == [] && r.components == [] && r.modules == []
    ensures r.componentModuleManifests == [] && r.mergedCrates == []
  {
    Manifest([], [], [], [], [])
  }

  /// The manifest `merge_from` leaves behind: each list of `other` after
  /// the existing one.
  function Merged(m: Manifest, other: Manifest): (r: Manifest)
    ensures |r.injectables| == |m.injectables| + |other.injectables|
    ensures |r.components| == |m.components| + |other.components|
    ensures |r.modules| == |m.modules| + |other.modules|
    ensures |r.componentModuleManifests| == |m.componentModuleManifests| + |other.componentModuleManifests|
    ensures |r.mergedCrates| == |m.mergedCrates| + |other.mergedCrates|
  {
    Manifest(m.injectables + other.injectables,
             m.components + other.components,
             m.modules + other.modules,
             m.componentModuleManifests + other.componentModuleManifests,
             m.mergedCrates + other.mergedCrates)
  }

  /// Merging keeps the existing entries as a prefix and puts `other`'s
  /// entries after them, in their order.
  lemma MergedKeepsOrder(m: Manifest, other: Manifest)
    ensures Merged(m, other).injectables[..|m.injectables|] == m.injectables
    ensures Merged(m, other).injectables[|m.injectables|..] == other.injectables
    ensures Merged(m, other).components[..|m.components|] == m.components
    ensures Merged(m, other).components[|m.components|..] == other.components
    ensures Merged(m, other).modules[..|m.modules|] == m.modules
    ensures Merged(m, other).modules[|m.modules|..] == other.modules
    ensures Merged(m, other).componentModuleManifests[..|m.componentModuleManifests|] == m.componentModuleManifests
    ensures Merged(m, other).componentModuleManifests[|m.componentModuleManifests|..] == other.componentModuleManifests
    ensures Merged(m, other).mergedCrates[..|m.mergedCrates|] == m.mergedCrates
    ensures Merged(m, other).mergedCrates[|m.mergedCrates|..] == other.mergedCrates
  {
  }

  /// Merging an empty manifest changes nothing, and merging into an empty
  /// manifest copies the other one.
  lemma MergeEmpty(m: Manifest)
    ensures Merged(m, EmptyManifest()) == m
    ensures Merged(EmptyManifest(), m) == m
  {
    assert m.injectables + [] == m.injectables == [] + m.injectables;
    assert m.components + [] == m.components == [] + m.components;
    assert m.modules + [] == m.modules == [] + m.modules;
    assert m.componentModuleManifests + [] == m.componentModuleManifests == [] + m.componentModuleManifests;
    assert m.mergedCrates + [] == m.mergedCrates == [] + m.mergedCrates;
  }

  /// Merging `b` then `c` is merging their merge.
  lemma MergeAssociative(a: Manifest, b: Manifest, c: Manifest)
    ensures Merged(Merged(a, b), c) == Merged(a, Merged(b, c))
  {
    assert (a.injectables + b.injectables) + c.injectables == a.injectables + (b.injectables + c.injectables);
    assert (a.components + b.components) + c.components == a.components + (b.components + c.components);
    assert (a.modules + b.modules) + c.modules == a.modules + (b.modules + c.modules);
    assert (a.componentModuleManifests + b.componentModuleManifests) + c.componentModuleManifests
        == a.componentModuleManifests + (b.componentModuleManifests + c.componentModuleManifests);
    assert (a.mergedCrates + b.mergedCrates) + c.mergedCrates == a.mergedCrates + (b.mergedCrates + c.mergedCrates);
  }

  /// The `Manifest` struct, updated in place.
  class ManifestStore {
    var injectables: seq<Injectable>
    var components: seq<Component>
    var mergedCrates: seq<string>
    var modules: seq<Module>
    var componentModuleManifests: seq<ComponentModuleManifest>

    /// The manifest value this store holds.
    function Data(): Manifest
      reads this
    {
      Manifest(injectables, components, modules, componentModuleManifests, mergedCrates)
    }

    /// `Manifest::new()`.
    constructor ()
      ensures Data() == EmptyManifest()
    {
      injectables := [];
      components := [];
      mergedCrates := [];
      modules := [];
      componentModuleManifests := [];
    }

    /// `clear`: all five lists become empty.
    method Clear()
      modifies this
      ensures Data() == EmptyManifest()
    {
      injectables := [];
      components := [];
      mergedCrates := [];
      modules := [];
      componentModuleManifests := [];
    }

    /// `merge_from`: each list of `other` is appended to this one's.
    method MergeFrom(other: Manifest)
      modifies this
      ensures Data() == Merged(old(Data()), other)
    {
      injectables := injectables + other.injectables;
      components := components + other.components;
      mergedCrates := mergedCrates + other.mergedCrates;
      modules := modules + other.modules;
      componentModuleManifests := componentModuleManifests + other.componentModuleManifests;
    }
  }
}
