// The protobuf messages of the first-generation manifest
// (`crate::protos::manifest`), with the fields that processor/src/graph.rs,
// processor/src/injectables.rs and processor/src/components.rs read and
// write. The `.proto` schema itself is not part of this model; an unset
// optional message field is `None`.
module ProtoManifest {
  import opened Outcomes
  import opened Types

  datatype Field = Field(name: string, ty: TypeData, injected: bool)

  datatype Injectable = Injectable(ty: TypeData, fieldCrate: string, fields: seq<Field>)

  datatype Dependency = Dependency(name: string, ty: TypeData)

  datatype Provider = Provider(
    name: string,
    ty: TypeData,
    deps: seq<Dependency>,
    isStatic: bool,
    binds: bool)

  datatype Module = Module(ty: TypeData, providers: seq<Provider>)

  datatype ComponentModuleManifest = ComponentModuleManifest(
    ty: TypeData,
    builderModules: seq<Dependency>,
    modules: seq<TypeData>)

  datatype Component = Component(
    ty: TypeData,
    provisions: seq<Dependency>,
    moduleManifest: Option<TypeData>)

  datatype Manifest = Manifest(
    injectables: seq<Injectable>,
    components: seq<Component>,
    modules: seq<Module>,
    componentModuleManifests: seq<ComponentModuleManifest>,
    mergedCrates: seq<string>)

  /// `ComponentModuleManifest::new()`: no modules; the type is the default
  /// (UNSPECIFIED) one.
  function EmptyModuleManifest(): (r: ComponentModuleManifest)
    ensures r.builderModules == [] && r.modules == [] && r.ty.root == Unspecified
  {
    ComponentModuleManifest(NewType(), [], [])
  }

  /// The types a manifest stores are all rooted: every type in it was built
  /// by `type_from_path` (see `ProtoTypes.FromSynTypeRooted`) or by a
  /// `generate_manifest` that sets the root.
  ghost predicate RootedDeps(ds: seq<Dependency>)
  {
    forall i :: 0 <= i < |ds| ==> Rooted(ds[i].ty)
  }

  ghost predicate RootedProvider(p: Provider)
  {
    Rooted(p.ty) && RootedDeps(p.deps)
  }

  ghost predicate RootedInjectable(inj: Injectable)
  {
    Rooted(inj.ty) && forall i :: 0 <= i < |inj.fields| ==> Rooted(inj.fields[i].ty)
  }

  ghost predicate RootedModuleManifest(mm: ComponentModuleManifest)
  {
    RootedDeps(mm.builderModules) && forall i :: 0 <= i < |mm.modules| ==> Rooted(mm.modules[i])
  }

  ghost predicate RootedManifest(m: Manifest)
  {
    && (forall i :: 0 <= i < |m.injectables| ==> RootedInjectable(m.injectables[i]))
    && (forall i :: 0 <= i < |m.modules| ==>
          Rooted(m.modules[i].ty)
          && forall j :: 0 <= j < |m.modules[i].providers| ==> RootedProvider(m.modules[i].providers[j]))
    && (forall i :: 0 <= i < |m.componentModuleManifests| ==>
          Rooted(m.componentModuleManifests[i].ty)
          && RootedModuleManifest(m.componentModuleManifests[i]))
  }

  ghost predicate RootedComponent(c: Component)
  {
    Rooted(c.ty) && RootedDeps(c.provisions)
    && (c.moduleManifest.Some? ==> Rooted(c.moduleManifest.value))
  }
}
