// processor/src/components.rs: `#[component]` and
// `#[component_module_manifest]` in the older, per-file generation. Both
// handlers record the item in a thread-local list under its bare name; the
// epilogue turns each list into manifest entries at the file's base path
// and empties it; `generate_components` writes every component of the
// current crate.
module ProcessorComponents {
  import opened Outcomes
  import opened Types
  import opened Syn
  import SynItems
  import Parsing
  import ProcessorParsing
  import ProtoTypes
  import opened ProtoManifest
  import Epilogue
  import Strs
  import BindingGraph
  import GraphState

  const TraitExpectedMsg := "trait expected"
  const ProvisionReturnMsg := "return type expected for component provisions"
  const ModulesPathMsg := "path expected for modules"
  const StructExpectedMsg := "struct expected"
  const BuilderOnlyMsg := "lockjaw::component_module_manifest struct fields can only have 'builder' attribute"
  const TupleBuilderMsg := "tuples module manifests cannot have builders"

  /// What the component handler knows before the base path is resolved.
  datatype LocalComponent = LocalComponent(
    name: string,
    provisions: seq<Dependency>,
    additionalPath: Option<string>,
    moduleManifest: Option<TypeData>)

  /// What the module-manifest handler knows before the base path is resolved.
  datatype LocalModuleManifest = LocalModuleManifest(
    name: string,
    additionalPath: Option<string>,
    builderModules: seq<Dependency>,
    modules: seq<TypeData>)

  // ---------------------------------------------------------------------------
  // #[component]

  /// A provision: the method's name and its return type, which it must have.
  function Provision(f: SynItems.TraitMethod, currentCrate: string): Result<Dependency>
  {
    if f.sig.output.DefaultReturn? then Err(ProvisionReturnMsg)
    else
      var t :- ProtoTypes.FromSynType(f.sig.output.ty, currentCrate);
      Ok(Dependency(f.sig.ident, t))
  }

  /// The provision loop over `items[i..]`: one provision per method, in
  /// order, the first failing method's error otherwise.
  function Provisions(items: seq<SynItems.TraitItem>, i: nat, currentCrate: string): Result<seq<Dependency>>
    requires i <= |items|
  {
    SynItems.MapTraitMethods(items, i, (f: SynItems.TraitMethod) => Provision(f, currentCrate))
  }

  /// The loop succeeds exactly when every method's provision does, and then
  /// holds the methods' provisions in order; otherwise it fails with the
  /// first failing method's error.
  lemma ProvisionsMeaning(items: seq<SynItems.TraitItem>, i: nat, currentCrate: string)
    requires i <= |items|
    ensures var fs := SynItems.TraitMethods(items, i);
            var r := Provisions(items, i, currentCrate);
            && (r.Ok? <==> forall j :: 0 <= j < |fs| ==> Provision(fs[j], currentCrate).Ok?)
            && (r.Ok? ==> |r.value| == |fs| && forall j :: 0 <= j < |fs| ==> Provision(fs[j], currentCrate) == Ok(r.value[j]))
            && (r.Err? ==> exists j :: 0 <= j < |fs| && Provision(fs[j], currentCrate) == Err(r.msg)
                                      && forall k :: 0 <= k < j ==> Provision(fs[k], currentCrate).Ok?)
  {
    SynItems.MapTraitMethodsMeaning(items, i, (f: SynItems.TraitMethod) => Provision(f, currentCrate));
  }

  /// The `modules` attribute, read as a path and then as a type.
  function ModuleManifestType(attributes: map<string, string>, env: ProcessorParsing.Env)
    : (r: Result<Option<TypeData>>)
    ensures "modules" !in attributes ==> r == Ok(None)
    ensures "modules" in attributes && env.parsePath(attributes["modules"]).None? ==> r == Err(ModulesPathMsg)
    ensures "modules" in attributes && env.parsePath(attributes["modules"]).Some? ==>
              var t := ProtoTypes.FromPath(env.parsePath(attributes["modules"]).value, env.currentCrate);
              (r.Ok? <==> t.Ok?) && (r.Ok? ==> r.value == Some(t.value))
  {
    if "modules" in attributes then
      var p :- OrError(env.parsePath(attributes["modules"]), ModulesPathMsg);
      var t :- ProtoTypes.FromPath(p, env.currentCrate);
      Ok(Some(t))
    else Ok(None)
  }

  /// `handle_component_attribute`: the trait, its provisions, then the
  /// attributes.
  function HandleComponent(attr: ProcessorParsing.TokenParse, input: SynItems.Item, env: ProcessorParsing.Env)
    : Result<LocalComponent>
  {
    if !input.TraitItemDecl? then Err(TraitExpectedMsg)
    else
      var provisions :- Provisions(input.t.items, 0, env.currentCrate);
      var attributes :- ProcessorParsing.GetAttributes(attr);
      var mm :- ModuleManifestType(attributes, env);
      Ok(LocalComponent(input.t.ident, provisions, ProcessorParsing.Get(attributes, "path"), mm))
  }

  /// A successful handler records the trait's name, one provision per trait
  /// method in order, the `path` value and the `modules` type; a trait
  /// method without a return type makes it fail.
  lemma ComponentRecord(attr: ProcessorParsing.TokenParse, input: SynItems.Item, env: ProcessorParsing.Env)
    ensures !input.TraitItemDecl? ==> HandleComponent(attr, input, env) == Err(TraitExpectedMsg)
    ensures input.TraitItemDecl? && (exists j :: 0 <= j < |input.t.items| && input.t.items[j].TraitFn?
                                                  && input.t.items[j].f.sig.output.DefaultReturn?)
            ==> HandleComponent(attr, input, env).Err?
    ensures HandleComponent(attr, input, env).Ok? ==>
              var c := HandleComponent(attr, input, env).value;
              var fs := SynItems.TraitMethods(input.t.items, 0);
              && ProcessorParsing.GetAttributes(attr).Ok?
              && var attributes := ProcessorParsing.GetAttributes(attr).value;
              && c.name == input.t.ident
              && |c.provisions| == |fs|
              && (forall j :: 0 <= j < |fs| ==>
                    && c.provisions[j].name == fs[j].sig.ident
                    && fs[j].sig.output.ReturnsType?
                    && ProtoTypes.FromSynType(fs[j].sig.output.ty, env.currentCrate) == Ok(c.provisions[j].ty))
              && c.additionalPath == ProcessorParsing.Get(attributes, "path")
              && (c.moduleManifest.Some? <==> "modules" in attributes)
  {
    if input.TraitItemDecl? {
      ProvisionsMeaning(input.t.items, 0, env.currentCrate);
    }
    if input.TraitItemDecl? && (exists j :: 0 <= j < |input.t.items| && input.t.items[j].TraitFn?
                                              && input.t.items[j].f.sig.output.DefaultReturn?) {
      var j :| 0 <= j < |input.t.items| && input.t.items[j].TraitFn? && input.t.items[j].f.sig.output.DefaultReturn?;
      SynItems.TraitMethodsHas(input.t.items, 0, j);
      var fs := SynItems.TraitMethods(input.t.items, 0);
      var k :| 0 <= k < |fs| && fs[k] == input.t.items[j].f;
      assert Provision(fs[k], env.currentCrate).Err?;
    }
  }

  /// The provision loop: the trait's items in order, non-methods skipped.
  method ReadProvisions(items: seq<SynItems.TraitItem>, currentCrate: string) returns (r: Result<seq<Dependency>>)
    ensures r == Provisions(items, 0, currentCrate)
  {
    var done: seq<Dependency> := [];
    var i := 0;
    PrependNothing(Provisions(items, 0, currentCrate));
    while i < |items|
      invariant i <= |items|
      invariant Provisions(items, 0, currentCrate) == PrependValues(done, Provisions(items, i, currentCrate))
    {
      if items[i].TraitFn? {
        var f := items[i].f;
        if f.sig.output.DefaultReturn? {
          return Err(ProvisionReturnMsg);
        }
        var t := ProtoTypes.FromSynType(f.sig.output.ty, currentCrate);
        if t.Err? {
          return Err(t.msg);
        }
        var p := Dependency(f.sig.ident, t.value);
        assert Provision(f, currentCrate) == Ok(p);
        PrependValuesTwice(done, p, Provisions(items, i + 1, currentCrate));
        done := done + [p];
      }
      i := i + 1;
    }
    assert done + [] == done;
    return Ok(done);
  }

  // ---------------------------------------------------------------------------
  // #[component_module_manifest]

  /// `is_attribute(attr, "builder")`.
  predicate IsBuilder(a: Parsing.Attribute)
  {
    ProcessorParsing.IsAttribute(a.meta.path, "builder")
  }

  /// The attribute loop of a field: a field may carry `builder` and
  /// nothing else, and is a builder field when it carries any attribute.
  function BuilderField(attrs: seq<Parsing.Attribute>): (r: Result<bool>)
    ensures r.Ok? <==> forall j :: 0 <= j < |attrs| ==> IsBuilder(attrs[j])
    ensures r.Err? ==> r.msg == BuilderOnlyMsg
    ensures r.Ok? ==> (r.value <==> |attrs| > 0)
  {
    if forall j :: 0 <= j < |attrs| ==> IsBuilder(attrs[j]) then Ok(|attrs| > 0) else Err(BuilderOnlyMsg)
  }

  /// The lists the field loop builds: the builder modules, the other
  /// modules, and the fields of the emitted struct.
  datatype Gathered = Gathered(builders: seq<Dependency>, modules: seq<TypeData>, emitted: seq<SynItems.Field>)

  /// One field: a builder field needs a name and becomes a builder module
  /// and a field of the emitted struct; any other field is a module.
  function GatherField(f: SynItems.Field, currentCrate: string, acc: Gathered): Result<Gathered>
  {
    var isBuilder :- BuilderField(f.attrs);
    if isBuilder then
      var name :- OrError(f.ident, TupleBuilderMsg);
      var t :- ProtoTypes.FromSynType(f.ty, currentCrate);
      Ok(acc.(builders := acc.builders + [Dependency(name, t)],
              emitted := acc.emitted + [SynItems.Field([], Some(name), f.ty)]))
    else
      var t :- ProtoTypes.FromSynType(f.ty, currentCrate);
      Ok(acc.(modules := acc.modules + [t]))
  }

  /// The field loop over `fs[i..]`, continuing from `acc`.
  function GatherFrom(fs: seq<SynItems.Field>, i: nat, currentCrate: string, acc: Gathered): Result<Gathered>
    requires i <= |fs|
    decreases |fs| - i
  {
    if i == |fs| then Ok(acc)
    else
      var a :- GatherField(fs[i], currentCrate, acc);
      GatherFrom(fs, i + 1, currentCrate, a)
  }

  /// The number of builder fields (those carrying an attribute) in `fs[i..]`.
  function BuilderCount(fs: seq<SynItems.Field>, i: nat): (n: nat)
    requires i <= |fs|
    ensures n <= |fs| - i
    decreases |fs| - i
  {
    if i == |fs| then 0 else (if |fs[i].attrs| > 0 then 1 else 0) + BuilderCount(fs, i + 1)
  }

  /// The emitted struct holds exactly the builder fields, each under the
  /// builder module's name and without attributes.
  predicate Aligned(g: Gathered)
  {
    |g.emitted| == |g.builders|
    && forall k :: 0 <= k < |g.emitted| ==> g.emitted[k].attrs == [] && g.emitted[k].ident == Some(g.builders[k].name)
  }

  /// A successful field loop keeps what was gathered before, adds one
  /// builder module per builder field and one module per other field, only
  /// accepts fields whose attributes are all `builder`, and keeps the
  /// emitted struct aligned with the builder modules.
  lemma {:induction false} GatherMeaning(fs: seq<SynItems.Field>, i: nat, currentCrate: string, acc: Gathered)
    requires i <= |fs|
    requires Aligned(acc)
    ensures var r := GatherFrom(fs, i, currentCrate, acc);
            r.Ok? ==>
              && Aligned(r.value)
              && |acc.builders| <= |r.value.builders| && |acc.modules| <= |r.value.modules|
              && r.value.builders[..|acc.builders|] == acc.builders
              && r.value.modules[..|acc.modules|] == acc.modules
              && |r.value.builders| == |acc.builders| + BuilderCount(fs, i)
              && |r.value.builders| + |r.value.modules| == |acc.builders| + |acc.modules| + |fs| - i
              && forall j :: i <= j < |fs| ==> BuilderField(fs[j].attrs).Ok?
    decreases |fs| - i
  {
    if i < |fs| {
      var a := GatherField(fs[i], currentCrate, acc);
      if a.Ok? {
        assert Aligned(a.value);
        GatherMeaning(fs, i + 1, currentCrate, a.value);
        var r := GatherFrom(fs, i + 1, currentCrate, a.value);
        if r.Ok? {
          assert r.value.builders[..|acc.builders|] == r.value.builders[..|a.value.builders|][..|acc.builders|];
          assert r.value.modules[..|acc.modules|] == r.value.modules[..|a.value.modules|][..|acc.modules|];
        }
      }
    }
  }

  /// A field carrying an attribute other than `builder` stops the loop
  /// with the builder-only error when every field before it is accepted.
  lemma {:induction false} GatherRejects(fs: seq<SynItems.Field>, i: nat, j: nat, currentCrate: string, acc: Gathered)
    requires i <= j < |fs|
    requires exists k :: 0 <= k < |fs[j].attrs| && !IsBuilder(fs[j].attrs[k])
    ensures GatherFrom(fs, i, currentCrate, acc).Err?
    decreases j - i
  {
    if i < j {
      var a := GatherField(fs[i], currentCrate, acc);
      if a.Ok? {
        GatherRejects(fs, i + 1, j, currentCrate, a.value);
      }
    }
  }

  const NoneGathered := Gathered([], [], [])

  /// `handle_component_module_manifest_attribute`: the record and the
  /// emitted struct.
  function HandleModuleManifest(attr: ProcessorParsing.TokenParse, input: SynItems.Item, env: ProcessorParsing.Env)
    : Result<(LocalModuleManifest, SynItems.ItemStruct)>
  {
    if !input.StructItem? then Err(StructExpectedMsg)
    else
      var attributes :- ProcessorParsing.GetAttributes(attr);
      var g :- GatherFrom(input.s.fields, 0, env.currentCrate, NoneGathered);
      Ok((LocalModuleManifest(input.s.ident, ProcessorParsing.Get(attributes, "path"), g.builders, g.modules),
          SynItems.ItemStruct(input.s.ident, g.emitted)))
  }

  /// A successful handler records the struct's name and `path`, one builder
  /// module per field carrying `#[builder]` and one module per other field,
  /// and emits a struct of the builder fields only.
  lemma ModuleManifestRecord(attr: ProcessorParsing.TokenParse, input: SynItems.Item, env: ProcessorParsing.Env)
    ensures !input.StructItem? ==> HandleModuleManifest(attr, input, env) == Err(StructExpectedMsg)
    ensures HandleModuleManifest(attr, input, env).Ok? ==>
              var (l, s) := HandleModuleManifest(attr, input, env).value;
              var fs := input.s.fields;
              && l.name == input.s.ident && s.ident == input.s.ident
              && |l.builderModules| == BuilderCount(fs, 0)
              && |l.builderModules| + |l.modules| == |fs|
              && |s.fields| == |l.builderModules|
              && (forall k :: 0 <= k < |s.fields| ==> s.fields[k].attrs == [] && s.fields[k].ident == Some(l.builderModules[k].name))
              && (forall j :: 0 <= j < |fs| ==> forall a :: a in fs[j].attrs ==> IsBuilder(a))
  {
    if input.StructItem? && ProcessorParsing.GetAttributes(attr).Ok? {
      GatherMeaning(input.s.fields, 0, env.currentCrate, NoneGathered);
    }
  }

  /// The field loop of the module-manifest handler.
  method GatherFields(fs: seq<SynItems.Field>, currentCrate: string) returns (r: Result<Gathered>)
    ensures r == GatherFrom(fs, 0, currentCrate, NoneGathered)
  {
    var acc := NoneGathered;
    var i := 0;
    while i < |fs|
      invariant i <= |fs|
      invariant GatherFrom(fs, i, currentCrate, acc) == GatherFrom(fs, 0, currentCrate, NoneGathered)
    {
      var f := fs[i];
      var isBuilder := false;
      var j := 0;
      while j < |f.attrs|
        invariant j <= |f.attrs|
        invariant forall k :: 0 <= k < j ==> IsBuilder(f.attrs[k])
        invariant isBuilder <==> j > 0
      {
        if ProcessorParsing.IsAttribute(f.attrs[j].meta.path, "builder") {
          isBuilder := true;
        } else {
          return Err(BuilderOnlyMsg);
        }
        j := j + 1;
      }
      if isBuilder {
        if f.ident.None? {
          return Err(TupleBuilderMsg);
        }
        var t := ProtoTypes.FromSynType(f.ty, currentCrate);
        if t.Err? {
          return Err(t.msg);
        }
        acc := acc.(builders := acc.builders + [Dependency(f.ident.value, t.value)],
                    emitted := acc.emitted + [SynItems.Field([], f.ident, f.ty)]);
      } else {
        var t := ProtoTypes.FromSynType(f.ty, currentCrate);
        if t.Err? {
          return Err(t.msg);
        }
        acc := acc.(modules := acc.modules + [t.value]);
      }
      i := i + 1;
    }
    return Ok(acc);
  }

  // ---------------------------------------------------------------------------
  // The epilogue

  function ComponentOf(l: LocalComponent, basePath: string, currentCrate: string): Component
  {
    Component(Epilogue.EpilogueType(basePath, l.additionalPath, l.name, currentCrate), l.provisions, l.moduleManifest)
  }

  function ModuleManifestOf(l: LocalModuleManifest, basePath: string, currentCrate: string): ComponentModuleManifest
  {
    ComponentModuleManifest(Epilogue.EpilogueType(basePath, l.additionalPath, l.name, currentCrate), l.builderModules, l.modules)
  }

  /// The component entries of the whole list, in order.
  function ComponentsOf(ls: seq<LocalComponent>, basePath: string, currentCrate: string): (r: seq<Component>)
    ensures |r| == |ls|
    ensures forall k :: 0 <= k < |ls| ==> r[k] == ComponentOf(ls[k], basePath, currentCrate)
  {
    if ls == [] then []
    else
      var rest := ComponentsOf(ls[1..], basePath, currentCrate);
      assert forall k :: 1 <= k < |ls| ==> ([ComponentOf(ls[0], basePath, currentCrate)] + rest)[k] == rest[k - 1];
      [ComponentOf(ls[0], basePath, currentCrate)] + rest
  }

  /// The module-manifest entries of the whole list, in order.
  function ModuleManifestsOf(ls: seq<LocalModuleManifest>, basePath: string, currentCrate: string)
    : (r: seq<ComponentModuleManifest>)
    ensures |r| == |ls|
    ensures forall k :: 0 <= k < |ls| ==> r[k] == ModuleManifestOf(ls[k], basePath, currentCrate)
  {
    if ls == [] then []
    else
      var rest := ModuleManifestsOf(ls[1..], basePath, currentCrate);
      assert forall k :: 1 <= k < |ls| ==> ([ModuleManifestOf(ls[0], basePath, currentCrate)] + rest)[k] == rest[k - 1];
      [ModuleManifestOf(ls[0], basePath, currentCrate)] + rest
  }

  /// A component the handler records becomes, at the epilogue, a component
  /// whose types are all rooted, which is what the graph builder asks of
  /// it, named by a CRATE path of the current crate ending in the trait's
  /// name.
  lemma RecordedComponentRooted(attr: ProcessorParsing.TokenParse, input: SynItems.Item, env: ProcessorParsing.Env,
                                basePath: string)
    requires HandleComponent(attr, input, env).Ok?
    ensures var c := ComponentOf(HandleComponent(attr, input, env).value, basePath, env.currentCrate);
            && RootedComponent(c)
            && c.ty.root == Crate && c.ty.fieldCrate == env.currentCrate
            && Strs.EndsWith(c.ty.path, input.t.ident)
  {
    var l := HandleComponent(attr, input, env).value;
    ComponentRecord(attr, input, env);
    var fs := SynItems.TraitMethods(input.t.items, 0);
    forall j | 0 <= j < |l.provisions|
      ensures Rooted(l.provisions[j].ty)
    {
      ProtoTypes.FromSynTypeRooted(fs[j].sig.output.ty, env.currentCrate);
    }
    if l.moduleManifest.Some? {
      var attributes := ProcessorParsing.GetAttributes(attr).value;
      ProtoTypes.FromPathRooted(env.parsePath(attributes["modules"]).value, env.currentCrate);
    }
  }

  /// The same for a recorded module manifest: its types are all rooted.
  lemma RecordedModuleManifestRooted(attr: ProcessorParsing.TokenParse, input: SynItems.Item, env: ProcessorParsing.Env,
                                     basePath: string)
    requires HandleModuleManifest(attr, input, env).Ok?
    ensures var mm := ModuleManifestOf(HandleModuleManifest(attr, input, env).value.0, basePath, env.currentCrate);
            && Rooted(mm.ty) && RootedModuleManifest(mm)
  {
    GatherRooted(input.s.fields, 0, env.currentCrate, NoneGathered);
  }

  ghost predicate GatheredRooted(g: Gathered)
  {
    RootedDeps(g.builders) && forall k :: 0 <= k < |g.modules| ==> Rooted(g.modules[k])
  }

  lemma {:induction false} GatherRooted(fs: seq<SynItems.Field>, i: nat, currentCrate: string, acc: Gathered)
    requires i <= |fs|
    requires GatheredRooted(acc)
    ensures GatherFrom(fs, i, currentCrate, acc).Ok? ==> GatheredRooted(GatherFrom(fs, i, currentCrate, acc).value)
    decreases |fs| - i
  {
    if i < |fs| {
      ProtoTypes.FromSynTypeRooted(fs[i].ty, currentCrate);
      var a := GatherField(fs[i], currentCrate, acc);
      if a.Ok? {
        GatherRooted(fs, i + 1, currentCrate, a.value);
      }
    }
  }

  // ---------------------------------------------------------------------------
  // generate_components

  /// What `generate_components` writes for `cs[i..]`: each component of the
  /// current crate, in order; the first failure is the result.
  function GeneratedComponents(manifest: Manifest, cs: seq<Component>, i: nat, currentCrate: string)
    : (r: Result<seq<seq<string>>>)
    requires i <= |cs|
    requires RootedManifest(manifest) && forall k :: 0 <= k < |cs| ==> RootedComponent(cs[k])
    ensures r.Ok? ==> |r.value| <= |cs| - i
    decreases |cs| - i
  {
    if i == |cs| then Ok([])
    else if cs[i].ty.fieldCrate != currentCrate then GeneratedComponents(manifest, cs, i + 1, currentCrate)
    else
      var out :- BindingGraph.ComponentOutput(manifest, cs[i]);
      var rest :- GeneratedComponents(manifest, cs, i + 1, currentCrate);
      Ok([out] + rest)
  }

  /// Components of other crates contribute nothing: with none of the
  /// current crate there is nothing to write and nothing can fail.
  lemma {:induction false} ForeignComponentsSkipped(manifest: Manifest, cs: seq<Component>, i: nat, currentCrate: string)
    requires i <= |cs|
    requires RootedManifest(manifest) && forall k :: 0 <= k < |cs| ==> RootedComponent(cs[k])
    requires forall k :: i <= k < |cs| ==> cs[k].ty.fieldCrate != currentCrate
    ensures GeneratedComponents(manifest, cs, i, currentCrate) == Ok([])
    decreases |cs| - i
  {
    if i < |cs| {
      ForeignComponentsSkipped(manifest, cs, i + 1, currentCrate);
    }
  }

  /// One step of the component loop.
  lemma GeneratedStep(manifest: Manifest, cs: seq<Component>, i: nat, currentCrate: string)
    requires i < |cs|
    requires RootedManifest(manifest) && forall k :: 0 <= k < |cs| ==> RootedComponent(cs[k])
    ensures cs[i].ty.fieldCrate != currentCrate ==>
              GeneratedComponents(manifest, cs, i, currentCrate) == GeneratedComponents(manifest, cs, i + 1, currentCrate)
    ensures cs[i].ty.fieldCrate == currentCrate ==>
              var out := BindingGraph.ComponentOutput(manifest, cs[i]);
              GeneratedComponents(manifest, cs, i, currentCrate)
              == if out.Err? then Err(out.msg)
                 else PrependValues([out.value], GeneratedComponents(manifest, cs, i + 1, currentCrate))
  {
  }

  /// The loop's step at a component of the current crate: its failure is
  /// the result, and its output is appended otherwise.
  lemma ComponentStep(manifest: Manifest, cs: seq<Component>, i: nat, currentCrate: string, done: seq<seq<string>>,
                      out: Result<seq<string>>)
    requires i < |cs| && cs[i].ty.fieldCrate == currentCrate
    requires RootedManifest(manifest) && forall k :: 0 <= k < |cs| ==> RootedComponent(cs[k])
    requires out == BindingGraph.ComponentOutput(manifest, cs[i])
    requires GeneratedComponents(manifest, cs, 0, currentCrate) == PrependValues(done, GeneratedComponents(manifest, cs, i, currentCrate))
    ensures out.Err? ==> GeneratedComponents(manifest, cs, 0, currentCrate) == Err(out.msg)
    ensures out.Ok? ==> GeneratedComponents(manifest, cs, 0, currentCrate)
                        == PrependValues(done + [out.value], GeneratedComponents(manifest, cs, i + 1, currentCrate))
  {
    GeneratedStep(manifest, cs, i, currentCrate);
    if out.Ok? {
      PrependValuesTwice(done, out.value, GeneratedComponents(manifest, cs, i + 1, currentCrate));
    }
  }

  /// One turn of the loop of `generate_components`: a component of another
  /// crate is skipped, and one of the current crate either ends the loop
  /// with its failure or appends its output to `done`.
  method GenerateComponentStep(manifest: Manifest, cs: seq<Component>, i: nat, currentCrate: string,
                               done: seq<seq<string>>)
    returns (r: Result<seq<seq<string>>>)
    requires i < |cs|
    requires RootedManifest(manifest) && forall k :: 0 <= k < |cs| ==> RootedComponent(cs[k])
    requires GeneratedComponents(manifest, cs, 0, currentCrate) == PrependValues(done, GeneratedComponents(manifest, cs, i, currentCrate))
    ensures r.Err? ==> GeneratedComponents(manifest, cs, 0, currentCrate) == Err(r.msg)
    ensures r.Ok? ==> GeneratedComponents(manifest, cs, 0, currentCrate)
                      == PrependValues(r.value, GeneratedComponents(manifest, cs, i + 1, currentCrate))
  {
    if cs[i].ty.fieldCrate != currentCrate {
      GeneratedStep(manifest, cs, i, currentCrate);
      return Ok(done);
    }
    var tokens := GraphState.GenerateComponent(manifest, cs[i]);
    ComponentStep(manifest, cs, i, currentCrate, done, tokens);
    if tokens.Err? {
      return Err(tokens.msg);
    }
    return Ok(done + [tokens.value]);
  }

  /// `generate_components`.
  method GenerateComponents(manifest: Manifest, currentCrate: string) returns (r: Result<seq<seq<string>>>)
    requires RootedManifest(manifest) && forall k :: 0 <= k < |manifest.components| ==> RootedComponent(manifest.components[k])
    ensures r == GeneratedComponents(manifest, manifest.components, 0, currentCrate)
  {
    var cs := manifest.components;
    var done: seq<seq<string>> := [];
    var i := 0;
    PrependNothing(GeneratedComponents(manifest, cs, 0, currentCrate));
    while i < |cs|
      invariant i <= |cs|
      invariant GeneratedComponents(manifest, cs, 0, currentCrate) == PrependValues(done, GeneratedComponents(manifest, cs, i, currentCrate))
    {
      var step := GenerateComponentStep(manifest, cs, i, currentCrate, done);
      if step.Err? {
        return Err(step.msg);
      }
      done := step.value;
      i := i + 1;
    }
    assert done + [] == done;
    return Ok(done);
  }

  /// The thread-local `COMPONENTS` and `COMPONENT_MODULE_MANIFESTS` lists.
  class ComponentRegistry {
    var components: seq<LocalComponent>
    var moduleManifests: seq<LocalModuleManifest>

    constructor ()
      ensures components == [] && moduleManifests == []
    {
      components := [];
      moduleManifests := [];
    }

    /// `handle_component_attribute`: a successful call appends the record
    /// and returns the trait unchanged; a failing one changes nothing.
    method HandleComponentAttribute(attr: ProcessorParsing.TokenParse, input: SynItems.Item, env: ProcessorParsing.Env)
      returns (r: Result<SynItems.ItemTrait>)
      modifies this
      ensures var h := HandleComponent(attr, input, env);
              && (h.Ok? ==> r == Ok(input.t) && components == old(components) + [h.value])
              && (h.Err? ==> r == Err(h.msg) && components == old(components))
      ensures moduleManifests == old(moduleManifests)
    {
      if !input.TraitItemDecl? {
        return Err(TraitExpectedMsg);
      }
      var provisions := ReadProvisions(input.t.items, env.currentCrate);
      if provisions.Err? {
        return Err(provisions.msg);
      }
      var attributes := ProcessorParsing.GetAttributes(attr);
      if attributes.Err? {
        return Err(attributes.msg);
      }
      var mm: Option<TypeData> := None;
      if "modules" in attributes.value {
        var p := env.parsePath(attributes.value["modules"]);
        if p.None? {
          return Err(ModulesPathMsg);
        }
        var t := ProtoTypes.FromPath(p.value, env.currentCrate);
        if t.Err? {
          return Err(t.msg);
        }
        mm := Some(t.value);
      }
      components := components + [LocalComponent(input.t.ident, provisions.value,
                                                 ProcessorParsing.Get(attributes.value, "path"), mm)];
      return Ok(input.t);
    }

    /// `handle_component_module_manifest_attribute`: a successful call
    /// appends the record and returns the struct of builder fields; a
    /// failing one changes nothing.
    method HandleComponentModuleManifestAttribute(attr: ProcessorParsing.TokenParse, input: SynItems.Item,
                                                  env: ProcessorParsing.Env)
      returns (r: Result<SynItems.ItemStruct>)
      modifies this
      ensures var h := HandleModuleManifest(attr, input, env);
              && (h.Ok? ==> r == Ok(h.value.1) && moduleManifests == old(moduleManifests) + [h.value.0])
              && (h.Err? ==> r == Err(h.msg) && moduleManifests == old(moduleManifests))
      ensures components == old(components)
    {
      if !input.StructItem? {
        return Err(StructExpectedMsg);
      }
      var attributes := ProcessorParsing.GetAttributes(attr);
      if attributes.Err? {
        return Err(attributes.msg);
      }
      var g := GatherFields(input.s.fields, env.currentCrate);
      if g.Err? {
        return Err(g.msg);
      }
      moduleManifests := moduleManifests + [LocalModuleManifest(input.s.ident, ProcessorParsing.Get(attributes.value, "path"),
                                                                g.value.builders, g.value.modules)];
      return Ok(SynItems.ItemStruct(input.s.ident, g.value.emitted));
    }

    /// `generate_component_manifest`: one entry per record, in order; the
    /// component list is emptied.
    method GenerateComponentManifest(basePath: string, currentCrate: string) returns (r: seq<Component>)
      modifies this
      ensures r == ComponentsOf(old(components), basePath, currentCrate)
      ensures components == [] && moduleManifests == old(moduleManifests)
    {
      r := [];
      var i := 0;
      while i < |components|
        invariant i <= |components|
        invariant |r| == i
        invariant forall k :: 0 <= k < i ==> r[k] == ComponentOf(components[k], basePath, currentCrate)
      {
        var l := components[i];
        var t := Epilogue.EpilogueType(basePath, l.additionalPath, l.name, currentCrate);
        r := r + [Component(t, l.provisions, l.moduleManifest)];
        i := i + 1;
      }
      assert r == ComponentsOf(components, basePath, currentCrate);
      components := [];
    }

    /// `generate_component_module_manifest`: one entry per record, in
    /// order; the module-manifest list is emptied.
    method GenerateComponentModuleManifest(basePath: string, currentCrate: string)
      returns (r: seq<ComponentModuleManifest>)
      modifies this
      ensures r == ModuleManifestsOf(old(moduleManifests), basePath, currentCrate)
      ensures moduleManifests == [] && components == old(components)
    {
      r := [];
      var i := 0;
      while i < |moduleManifests|
        invariant i <= |moduleManifests|
        invariant |r| == i
        invariant forall k :: 0 <= k < i ==> r[k] == ModuleManifestOf(moduleManifests[k], basePath, currentCrate)
      {
        var l := moduleManifests[i];
        var t := Epilogue.EpilogueType(basePath, l.additionalPath, l.name, currentCrate);
        r := r + [ComponentModuleManifest(t, l.builderModules, l.modules)];
        i := i + 1;
      }
      assert r == ModuleManifestsOf(moduleManifests, basePath, currentCrate);
      moduleManifests := [];
    }
  }
}
