// common/src/attributes/components.rs: `#[component]`/`#[subcomponent]`
// (and their definition-only forms) read a trait into a `Component` record,
// and `#[builder_modules]` reads a struct into a `BuilderModules` record.
// Paths are read in the scope of the module the attribute stands in.
module ComponentAttrs {
  import opened Outcomes
  import opened Types
  import opened Syn
  import Parsing
  import TypeParse
  import UsePaths
  import LocalTypes
  import TypeRender
  import CM = CommonManifest
  import SynItems
  import AttributeKeys

  const TraitExpectedMsg := "trait expected"
  const StructExpectedMsg := "struct expected"
  const NoReturnMsg := "return type expected for component provisions"
  const ModulesPathMsg := "path expected for modules"
  const ParentPathMsg := "path expected for parent"
  const TupleFieldMsg := "#[builder_modules] cannot be tuples"
  /// `require_list().unwrap()` on a `#[qualified]` that is not a list.
  const NotListPanic := "panic: called `Result::unwrap()` on an `Err` value"
  const AddrPrefix := "LOCKJAW_COMPONENT_BUILDER_ADDR_"
  const ParentModulePrefix := "lockjaw_parent_module_"

  /// `build_script_fatal!` for a provision returning a trait object with no
  /// lifetime bound: the message names the component and the method.
  function TraitObjectFatal(component: string, m: UsePaths.Mod, fn: string): string
  {
    "fatal: in " + LocalTypes.LocalCanonical(component, m) + "::" + fn
    + ":\ntrait object return type may depend on scoped objects, and must have lifetime bounded by the component"
  }

  // ---------------------------------------------------------------------------
  // Metadata keys

  /// The keys a component accepts: `modules` and `builder_modules`, and
  /// `parent` as well for a subcomponent.
  function AllowedKeys(ct: CM.ComponentType): (r: set<string>)
    ensures "modules" in r && "builder_modules" in r
    ensures "parent" in r <==> ct == CM.SubcomponentKind
    ensures forall k :: k in r ==> k in {"modules", "builder_modules", "parent"}
  {
    if ct == CM.SubcomponentKind then {"modules", "builder_modules", "parent"}
    else {"modules", "builder_modules"}
  }

  // ---------------------------------------------------------------------------
  // Provisions

  /// The type named by one `#[qualified(Q)]` attribute.
  function QualifierType(a: Parsing.Attribute, sc: TypeParse.Scope): (r: Result<TypeData>)
    ensures !a.meta.MetaList? ==> r == Err(NotListPanic)
    ensures a.meta.MetaList? ==> r == Parsing.GetType(a.meta.asPath, sc)
  {
    if !a.meta.MetaList? then Err(NotListPanic) else Parsing.GetType(a.meta.asPath, sc)
  }

  /// The attribute loop of `get_provisions` from attribute `i` on, with the
  /// qualifier `acc` found so far: each `#[qualified]` replaces it, and the
  /// first one that cannot be read is the error.
  function QualifierFrom(attrs: seq<Parsing.Attribute>, i: nat, acc: Option<TypeData>, sc: TypeParse.Scope)
    : Result<Option<TypeData>>
    requires i <= |attrs|
    decreases |attrs| - i
  {
    if i == |attrs| then Ok(acc)
    else if Parsing.GetAttribute(attrs[i]) == "qualified" then
      var q :- QualifierType(attrs[i], sc);
      QualifierFrom(attrs, i + 1, Some(q), sc)
    else QualifierFrom(attrs, i + 1, acc, sc)
  }

  ghost predicate IsQualified(a: Parsing.Attribute)
  {
    Parsing.GetAttribute(a) == "qualified"
  }

  /// Attribute `j` is the last `#[qualified]` one.
  ghost predicate LastQualified(attrs: seq<Parsing.Attribute>, j: int)
  {
    0 <= j < |attrs| && IsQualified(attrs[j])
    && forall j' :: j < j' < |attrs| ==> !IsQualified(attrs[j'])
  }

  /// The loop succeeds exactly when every `#[qualified]` attribute names a
  /// type.
  lemma {:induction false} QualifierAccepts(attrs: seq<Parsing.Attribute>, i: nat, acc: Option<TypeData>, sc: TypeParse.Scope)
    requires i <= |attrs|
    ensures QualifierFrom(attrs, i, acc, sc).Ok? <==>
              forall j :: i <= j < |attrs| && IsQualified(attrs[j]) ==> QualifierType(attrs[j], sc).Ok?
    decreases |attrs| - i
  {
    if i < |attrs| {
      if IsQualified(attrs[i]) {
        if QualifierType(attrs[i], sc).Ok? {
          QualifierAccepts(attrs, i + 1, Some(QualifierType(attrs[i], sc).value), sc);
        }
      } else {
        QualifierAccepts(attrs, i + 1, acc, sc);
      }
    }
  }

  /// The qualifier is the type of the last `#[qualified]` attribute.
  lemma {:induction false} QualifierLast(attrs: seq<Parsing.Attribute>, i: nat, acc: Option<TypeData>, sc: TypeParse.Scope,
                                         j: nat)
    requires i <= j && LastQualified(attrs, j)
    requires QualifierFrom(attrs, i, acc, sc).Ok?
    ensures QualifierType(attrs[j], sc).Ok?
    ensures QualifierFrom(attrs, i, acc, sc).value == Some(QualifierType(attrs[j], sc).value)
    decreases |attrs| - i
  {
    if IsQualified(attrs[i]) {
      var q := QualifierType(attrs[i], sc).value;
      if i == j {
        QualifierNone(attrs, i + 1, Some(q), sc);
      } else {
        QualifierLast(attrs, i + 1, Some(q), sc, j);
      }
    } else {
      QualifierLast(attrs, i + 1, acc, sc, j);
    }
  }

  /// With no `#[qualified]` attribute left, the qualifier found so far stays.
  lemma {:induction false} QualifierNone(attrs: seq<Parsing.Attribute>, i: nat, acc: Option<TypeData>, sc: TypeParse.Scope)
    requires i <= |attrs|
    requires forall j :: i <= j < |attrs| ==> !IsQualified(attrs[j])
    ensures QualifierFrom(attrs, i, acc, sc) == Ok(acc)
    decreases |attrs| - i
  {
    if i < |attrs| {
      QualifierNone(attrs, i + 1, acc, sc);
    }
  }

  /// The attribute loop of `get_provisions`.
  method GetQualifier(attrs: seq<Parsing.Attribute>, sc: TypeParse.Scope) returns (r: Result<Option<TypeData>>)
    ensures r == QualifierFrom(attrs, 0, None, sc)
  {
    var qualifier: Option<TypeData> := None;
    var i := 0;
    while i < |attrs|
      invariant i <= |attrs|
      invariant QualifierFrom(attrs, i, qualifier, sc) == QualifierFrom(attrs, 0, None, sc)
    {
      if Parsing.GetAttribute(attrs[i]) == "qualified" {
        var q := QualifierType(attrs[i], sc);
        if q.Err? {
          return Err(q.msg);
        }
        qualifier := Some(q.value);
      }
      i := i + 1;
    }
    return Ok(qualifier);
  }

  /// `is_trait_object_without_lifetime`: a `Cl<...>` never is; otherwise
  /// the type's tokens must contain `dyn` and no lifetime tick `'`.
  function IsTraitObjectWithoutLifetime(ty: SynType, tokens: seq<string>, sc: TypeParse.Scope): (r: Result<bool>)
    ensures r.Ok? <==> TypeParse.FromSynType(ty, sc).Ok?
    ensures r.Err? ==> r == Err(TypeParse.FromSynType(ty, sc).msg)
    ensures r.Ok? ==>
              var t := TypeParse.FromSynType(ty, sc).value;
              (r.value <==> !(t.root == Global && t.path == "lockjaw::Cl") && "dyn" in tokens && "'" !in tokens)
  {
    var t :- TypeParse.FromSynType(ty, sc);
    if t.root == Global && t.path == "lockjaw::Cl" then Ok(false)
    else if "dyn" !in tokens then Ok(false)
    else Ok("'" !in tokens)
  }

  /// One provision of `get_provisions`: the method's name and return type,
  /// carrying the qualifier its attributes name.
  function ProvisionOf(component: string, f: SynItems.TraitMethod, m: UsePaths.Mod): Result<CM.Dependency>
  {
    var sc := LocalTypes.ModScope(m);
    var q :- QualifierFrom(f.attrs, 0, None, sc);
    match f.sig.output
    case DefaultReturn => Err(NoReturnMsg)
    case ReturnsType(ty, tokens) =>
      var bare :- IsTraitObjectWithoutLifetime(ty, tokens, sc);
      if bare then Err(TraitObjectFatal(component, m, f.sig.ident))
      else
        var t :- TypeParse.FromSynType(ty, sc);
        Ok(CM.Dependency(f.sig.ident, t.(qualifier := q)))
  }

  /// A provision is named after its method and typed by the declared return
  /// type; a method without a return type is rejected.
  lemma ProvisionShape(component: string, f: SynItems.TraitMethod, m: UsePaths.Mod)
    ensures var r := ProvisionOf(component, f, m);
            && (r.Ok? ==> r.value.name == f.sig.ident && f.sig.output.ReturnsType?
                          && TypeParse.FromSynType(f.sig.output.ty, LocalTypes.ModScope(m)).Ok?
                          && r.value.ty.(qualifier := None)
                             == TypeParse.FromSynType(f.sig.output.ty, LocalTypes.ModScope(m)).value.(qualifier := None))
            && (f.sig.output.DefaultReturn? ==> r.Err?)
  {
  }

  /// The provision's qualifier is the type named by the method's last
  /// `#[qualified]` attribute.
  lemma ProvisionQualified(component: string, f: SynItems.TraitMethod, m: UsePaths.Mod, j: nat)
    requires LastQualified(f.attrs, j) && ProvisionOf(component, f, m).Ok?
    ensures QualifierType(f.attrs[j], LocalTypes.ModScope(m)).Ok?
    ensures ProvisionOf(component, f, m).value.ty.qualifier
            == Some(QualifierType(f.attrs[j], LocalTypes.ModScope(m)).value)
  {
    QualifierLast(f.attrs, 0, None, LocalTypes.ModScope(m), j);
  }

  /// A method with no `#[qualified]` attribute provides an unqualified type.
  lemma ProvisionUnqualified(component: string, f: SynItems.TraitMethod, m: UsePaths.Mod)
    requires forall j :: 0 <= j < |f.attrs| ==> !IsQualified(f.attrs[j])
    requires ProvisionOf(component, f, m).Ok?
    ensures ProvisionOf(component, f, m).value.ty.qualifier == None
  {
    QualifierNone(f.attrs, 0, None, LocalTypes.ModScope(m));
  }

  /// `get_provisions` over `items[i..]`: one provision per method, in order,
  /// the first failing method's error otherwise.
  function Provisions(component: string, items: seq<SynItems.TraitItem>, i: nat, m: UsePaths.Mod)
    : Result<seq<CM.Dependency>>
    requires i <= |items|
  {
    SynItems.MapTraitMethods(items, i, (f: SynItems.TraitMethod) => ProvisionOf(component, f, m))
  }

  /// The loop succeeds exactly when every method's provision does, and then
  /// holds the methods' provisions in order; otherwise it fails with the
  /// first failing method's error.
  lemma ProvisionsMeaning(component: string, items: seq<SynItems.TraitItem>, i: nat, m: UsePaths.Mod)
    requires i <= |items|
    ensures var fs := SynItems.TraitMethods(items, i);
            var r := Provisions(component, items, i, m);
            && (r.Ok? <==> forall j :: 0 <= j < |fs| ==> ProvisionOf(component, fs[j], m).Ok?)
            && (r.Ok? ==> |r.value| == |fs|
                          && forall j :: 0 <= j < |fs| ==> ProvisionOf(component, fs[j], m) == Ok(r.value[j]))
            && (r.Err? ==> exists j :: 0 <= j < |fs| && ProvisionOf(component, fs[j], m) == Err(r.msg)
                                      && forall k :: 0 <= k < j ==> ProvisionOf(component, fs[k], m).Ok?)
  {
    SynItems.MapTraitMethodsMeaning(items, i, (f: SynItems.TraitMethod) => ProvisionOf(component, f, m));
  }

  /// One step of the provision loop.
  lemma ProvisionsStep(component: string, items: seq<SynItems.TraitItem>, i: nat, m: UsePaths.Mod)
    requires i < |items|
    ensures Provisions(component, items, i, m)
            == if !items[i].TraitFn? then Provisions(component, items, i + 1, m)
               else
                 var p := ProvisionOf(component, items[i].f, m);
                 if p.Err? then Err(p.msg)
                 else PrependValues([p.value], Provisions(component, items, i + 1, m))
  {
  }

  /// The loop of `get_provisions`, with the attribute loop of each method.
  method GetProvisions(t: SynItems.ItemTrait, m: UsePaths.Mod) returns (r: Result<seq<CM.Dependency>>)
    ensures r == Provisions(t.ident, t.items, 0, m)
  {
    var sc := LocalTypes.ModScope(m);
    var provisions: seq<CM.Dependency> := [];
    var i := 0;
    PrependNothing(Provisions(t.ident, t.items, 0, m));
    while i < |t.items|
      invariant i <= |t.items|
      invariant Provisions(t.ident, t.items, 0, m) == PrependValues(provisions, Provisions(t.ident, t.items, i, m))
    {
      ProvisionsStep(t.ident, t.items, i, m);
      if t.items[i].TraitFn? {
        var f := t.items[i].f;
        var q := GetQualifier(f.attrs, sc);
        if q.Err? {
          return Err(q.msg);
        }
        if f.sig.output.DefaultReturn? {
          return Err(NoReturnMsg);
        }
        var bare := IsTraitObjectWithoutLifetime(f.sig.output.ty, f.sig.output.tokens, sc);
        if bare.Err? {
          return Err(bare.msg);
        }
        if bare.value {
          return Err(TraitObjectFatal(t.ident, m, f.sig.ident));
        }
        // The second reading of the return type cannot fail: the first succeeded.
        var ty := TypeParse.FromSynType(f.sig.output.ty, sc).value;
        var p := CM.Dependency(f.sig.ident, ty.(qualifier := q.value));
        assert ProvisionOf(t.ident, f, m) == Ok(p);
        PrependValuesTwice(provisions, p, Provisions(t.ident, t.items, i + 1, m));
        provisions := provisions + [p];
      }
      i := i + 1;
    }
    assert provisions + [] == provisions;
    return Ok(provisions);
  }

  // ---------------------------------------------------------------------------
  // Metadata values

  /// `builder_modules`: absent gives none, a path its type; anything else
  /// is rejected (with the message the source shares with `modules`).
  function BuilderModulesOf(v: Option<Parsing.FieldValue>, sc: TypeParse.Scope): (r: Result<Option<TypeData>>)
    ensures v.None? ==> r == Ok(None)
    ensures v.Some? && !v.value.PathValue? ==> r == Err(ModulesPathMsg)
    ensures v.Some? && v.value.PathValue? ==>
              (r.Ok? <==> TypeParse.FromPath(v.value.path, sc).Ok?)
              && (r.Ok? ==> r.value == Some(TypeParse.FromPath(v.value.path, sc).value))
  {
    match v
    case None => Ok(None)
    case Some(PathValue(p)) =>
      var t :- TypeParse.FromPath(p, sc);
      Ok(Some(t))
    case Some(_) => Err(ModulesPathMsg)
  }

  /// The array loop of `modules` over `items[i..]`: every element must be a
  /// path, read as a type in order.
  function ArrayModules(items: seq<Parsing.FieldValue>, i: nat, sc: TypeParse.Scope): (r: Result<seq<TypeData>>)
    requires i <= |items|
    ensures r.Ok? <==> forall j :: i <= j < |items| ==>
                         items[j].PathValue? && TypeParse.FromPath(items[j].path, sc).Ok?
    ensures r.Ok? ==> |r.value| == |items| - i
                      && forall j :: i <= j < |items| ==> r.value[j - i] == TypeParse.FromPath(items[j].path, sc).value
    decreases |items| - i
  {
    if i == |items| then Ok([])
    else if !items[i].PathValue? then Err(ModulesPathMsg)
    else
      var t :- TypeParse.FromPath(items[i].path, sc);
      var rest :- ArrayModules(items, i + 1, sc);
      Ok([t] + rest)
  }

  /// `modules`: a path is one module, an array of paths the modules in
  /// order; anything else is rejected.
  function ModulesOf(v: Parsing.FieldValue, sc: TypeParse.Scope): (r: Result<seq<TypeData>>)
  {
    match v
    case PathValue(p) =>
      var t :- TypeParse.FromPath(p, sc);
      Ok([t])
    case ArrayValue(items) => ArrayModules(items, 0, sc)
    case _ => Err(ModulesPathMsg)
  }

  /// `modules` accepts exactly what `parsing::get_types` accepts and yields
  /// the same types; only the messages of the rejections differ.
  lemma ModulesAgreeWithGetTypes(v: Parsing.FieldValue, sc: TypeParse.Scope)
    ensures ModulesOf(v, sc).Ok? <==> Parsing.GetTypes(Some(v), sc).Ok?
    ensures ModulesOf(v, sc).Ok? ==> ModulesOf(v, sc) == Parsing.GetTypes(Some(v), sc)
  {
    if v.ArrayValue? {
      Parsing.ArrayTypesMeaning(v.items, sc);
      var a := ArrayModules(v.items, 0, sc);
      var b := Parsing.ArrayTypes(v.items, sc);
      if a.Ok? && b.Ok? {
        assert a.value == b.value;
      }
    }
  }

  /// The array loop of `modules`.
  method ArrayModulesLoop(items: seq<Parsing.FieldValue>, sc: TypeParse.Scope) returns (r: Result<seq<TypeData>>)
    ensures r == ArrayModules(items, 0, sc)
  {
    var result: seq<TypeData> := [];
    var i := 0;
    PrependNothing(ArrayModules(items, 0, sc));
    while i < |items|
      invariant i <= |items|
      invariant ArrayModules(items, 0, sc) == PrependValues(result, ArrayModules(items, i, sc))
    {
      if !items[i].PathValue? {
        return Err(ModulesPathMsg);
      }
      var t := TypeParse.FromPath(items[i].path, sc);
      if t.Err? {
        return Err(t.msg);
      }
      PrependValuesTwice(result, t.value, ArrayModules(items, i + 1, sc));
      result := result + [t.value];
      i := i + 1;
    }
    assert result + [] == result;
    return Ok(result);
  }

  // ---------------------------------------------------------------------------
  // The component record and its manifest

  /// The steps of `handle_component_attribute` before the key check: the
  /// input must be a trait, its provisions are read, then the metadata.
  function HandlerInputs(attr: Parsing.FieldTokens, input: SynItems.Item, m: UsePaths.Mod)
    : Result<(SynItems.ItemTrait, seq<CM.Dependency>, map<string, Parsing.FieldValue>)>
  {
    if !input.TraitItemDecl? then Err(TraitExpectedMsg)
    else
      var provisions :- Provisions(input.t.ident, input.t.items, 0, m);
      var attributes :- Parsing.GetAttributeFieldValues(attr);
      Ok((input.t, provisions, attributes))
  }

  /// The component's builder address type, `LOCKJAW_COMPONENT_BUILDER_ADDR_<Name>`.
  function Address(name: string, m: UsePaths.Mod): TypeData
  {
    LocalTypes.ModFromLocal(AddrPrefix + name, m)
  }

  /// The visibility entry of a component's builder address: filed under the
  /// address's canonical path, exported as the CRATE path named by its
  /// identifier in the current package.
  function AddressVisibility(name: string, m: UsePaths.Mod, currentPackage: string): (r: map<string, CM.ExpandedVisibility>)
    ensures r.Keys == {LocalTypes.LocalCanonical(AddrPrefix + name, m)}
  {
    var exported := NewType().(root := Crate, path := LocalTypes.LocalIdentifier(AddrPrefix + name, m), fieldCrate := currentPackage);
    map[LocalTypes.LocalCanonical(AddrPrefix + name, m) := CM.ExpandedVisibility(exported, Address(name, m))]
  }

  /// The module a `parent` metadata synthesizes: `lockjaw_parent_module_<Name>`
  /// with no bindings, the component as its only subcomponent, installed in
  /// the parent.
  function ParentModule(name: string, parent: Parsing.FieldValue, m: UsePaths.Mod): (r: Result<CM.Module>)
  {
    if !parent.PathValue? then Err(ParentPathMsg)
    else
      var sub :- CM.Singleton(LocalTypes.ModFromLocal(name, m));
      var p :- TypeParse.FromPath(parent.path, LocalTypes.ModScope(m));
      var installIn :- CM.Singleton(p);
      Ok(CM.Module(LocalTypes.ModFromLocal(ParentModulePrefix + name, m), [], sub, installIn))
  }

  /// The manifest `handle_component_attribute` returns once the keys are
  /// accepted.
  function ComponentManifest(t: SynItems.ItemTrait, provisions: seq<CM.Dependency>,
                             attributes: map<string, Parsing.FieldValue>, ct: CM.ComponentType,
                             definitionOnly: bool, m: UsePaths.Mod, currentPackage: string)
    : (r: Result<CM.ManifestData>)
    ensures r.Ok? ==> |r.value.components| == 1 && r.value.components[0].ty == LocalTypes.ModFromLocal(t.ident, m)
                      && r.value.components[0].provisions == provisions && r.value.components[0].componentType == ct
    ensures r.Ok? ==> |r.value.modules| <= 1 && r.value.entryPoints == [] && r.value.injectables == []
  {
    var sc := LocalTypes.ModScope(m);
    var builderModules :- BuilderModulesOf(if "builder_modules" in attributes then Some(attributes["builder_modules"]) else None, sc);
    var modules :- if "modules" in attributes then ModulesOf(attributes["modules"], sc) else Ok([]);
    var component := CM.Component(t.ident, LocalTypes.ModFromLocal(t.ident, m), ct, provisions, builderModules,
                                  modules, definitionOnly, Address(t.ident, m));
    var visibilities := if ct == CM.ComponentKind then AddressVisibility(t.ident, m, currentPackage) else map[];
    var parentModules :- if "parent" in attributes then
                           var pm :- ParentModule(t.ident, attributes["parent"], m);
                           Ok([pm])
                         else Ok([]);
    Ok(CM.EmptyManifest().(expandedVisibilities := visibilities, modules := parentModules, components := [component]))
  }

  /// `handle_component_attribute`.
  method HandleComponentAttribute(attr: Parsing.FieldTokens, input: SynItems.Item, ct: CM.ComponentType,
                                  definitionOnly: bool, m: UsePaths.Mod, currentPackage: string)
    returns (r: Result<CM.ManifestData>)
    ensures var pre := HandlerInputs(attr, input, m);
            pre.Err? ==> r == Err(pre.msg)
    ensures var pre := HandlerInputs(attr, input, m);
            pre.Ok? && !(pre.value.2.Keys <= AllowedKeys(ct)) ==>
              r.Err? && exists k :: k in pre.value.2 && k !in AllowedKeys(ct) && r.msg == AttributeKeys.UnknownKeyMsg(k)
    ensures var pre := HandlerInputs(attr, input, m);
            pre.Ok? && pre.value.2.Keys <= AllowedKeys(ct) ==>
              r == ComponentManifest(pre.value.0, pre.value.1, pre.value.2, ct, definitionOnly, m, currentPackage)
  {
    if !input.TraitItemDecl? {
      return Err(TraitExpectedMsg);
    }
    var provisions := GetProvisions(input.t, m);
    if provisions.Err? {
      return Err(provisions.msg);
    }
    var attributes := Parsing.GetAttributeFieldValues(attr);
    if attributes.Err? {
      return Err(attributes.msg);
    }
    var keys := AttributeKeys.CheckKeys(attributes.value, AllowedKeys(ct));
    if keys.Err? {
      return Err(keys.msg);
    }
    r := ComponentManifest(input.t, provisions.value, attributes.value, ct, definitionOnly, m, currentPackage);
  }

  /// The manifest holds exactly one component: named after the trait, of
  /// the declared kind, at the trait's local path, with the provisions given,
  /// and with its builder address at `LOCKJAW_COMPONENT_BUILDER_ADDR_<Name>`.
  lemma ComponentRecord(t: SynItems.ItemTrait, provisions: seq<CM.Dependency>,
                        attributes: map<string, Parsing.FieldValue>, ct: CM.ComponentType,
                        definitionOnly: bool, m: UsePaths.Mod, currentPackage: string)
    requires ComponentManifest(t, provisions, attributes, ct, definitionOnly, m, currentPackage).Ok?
    ensures var r := ComponentManifest(t, provisions, attributes, ct, definitionOnly, m, currentPackage).value;
            && |r.components| == 1
            && r.components[0].name == t.ident
            && r.components[0].ty == LocalTypes.ModFromLocal(t.ident, m)
            && r.components[0].componentType == ct
            && r.components[0].provisions == provisions
            && r.components[0].definitionOnly == definitionOnly
            && r.components[0].address == LocalTypes.ModFromLocal(AddrPrefix + t.ident, m)
            && ("modules" !in attributes ==> r.components[0].modules == [])
            && ("builder_modules" !in attributes ==> r.components[0].builderModules == None)
            && r.injectables == [] && r.entryPoints == [] && r.builderModules == []
  {
  }

  /// Only a component, never a subcomponent, exports its builder address:
  /// the entry is filed under the address's canonical path, maps back to the
  /// address, and is exported under the address's identifier.
  lemma ComponentVisibility(t: SynItems.ItemTrait, provisions: seq<CM.Dependency>,
                            attributes: map<string, Parsing.FieldValue>, ct: CM.ComponentType,
                            definitionOnly: bool, m: UsePaths.Mod, currentPackage: string)
    requires ComponentManifest(t, provisions, attributes, ct, definitionOnly, m, currentPackage).Ok?
    ensures var v := ComponentManifest(t, provisions, attributes, ct, definitionOnly, m, currentPackage)
                       .value.expandedVisibilities;
            var key := LocalTypes.LocalCanonical(AddrPrefix + t.ident, m);
            && (ct == CM.SubcomponentKind ==> v == map[])
            && (ct == CM.ComponentKind ==>
                  && v.Keys == {key}
                  && TypeRender.Canonical(v[key].crateLocalName) == Some(key)
                  && v[key].crateLocalName == LocalTypes.ModFromLocal(AddrPrefix + t.ident, m)
                  && v[key].exportedName.root == Crate
                  && v[key].exportedName.fieldCrate == currentPackage
                  && TypeRender.Identifier(v[key].crateLocalName) == Some(v[key].exportedName.path))
  {
  }

  /// `parent` adds the module `lockjaw_parent_module_<Name>`: no bindings,
  /// the component itself as its only subcomponent, installed only in the
  /// parent. Without `parent` no module is added.
  lemma ParentModuleSynthesized(t: SynItems.ItemTrait, provisions: seq<CM.Dependency>,
                                attributes: map<string, Parsing.FieldValue>, ct: CM.ComponentType,
                                definitionOnly: bool, m: UsePaths.Mod, currentPackage: string)
    requires ComponentManifest(t, provisions, attributes, ct, definitionOnly, m, currentPackage).Ok?
    ensures var r := ComponentManifest(t, provisions, attributes, ct, definitionOnly, m, currentPackage).value;
            && ("parent" !in attributes ==> r.modules == [])
            && ("parent" in attributes ==>
                  && attributes["parent"].PathValue?
                  && var parent := TypeParse.FromPath(attributes["parent"].path, LocalTypes.ModScope(m));
                     && parent.Ok?
                     && |r.modules| == 1
                     && r.modules[0].ty == LocalTypes.ModFromLocal(ParentModulePrefix + t.ident, m)
                     && r.modules[0].bindings == []
                     && r.modules[0].subcomponents.Values == {LocalTypes.ModFromLocal(t.ident, m)}
                     && r.modules[0].installIn.Values == {parent.value})
  {
  }

  // ---------------------------------------------------------------------------
  // #[builder_modules]

  /// The field loop of `handle_builder_modules_attribute` over
  /// `fields[i..]`: each field must be named, and becomes a dependency with
  /// its name and type, in order.
  function FieldDependencies(fields: seq<SynItems.Field>, i: nat, sc: TypeParse.Scope): (r: Result<seq<CM.Dependency>>)
    requires i <= |fields|
    ensures r.Ok? <==> forall j :: i <= j < |fields| ==>
                         fields[j].ident.Some? && TypeParse.FromSynType(fields[j].ty, sc).Ok?
    ensures r.Ok? ==> |r.value| == |fields| - i
                      && forall j :: i <= j < |fields| ==>
                           r.value[j - i] == CM.Dependency(fields[j].ident.value, TypeParse.FromSynType(fields[j].ty, sc).value)
    decreases |fields| - i
  {
    if i == |fields| then Ok([])
    else
      var name :- OrError(fields[i].ident, TupleFieldMsg);
      var t :- TypeParse.FromSynType(fields[i].ty, sc);
      var rest :- FieldDependencies(fields, i + 1, sc);
      Ok([CM.Dependency(name, t)] + rest)
  }

  /// `handle_builder_modules_attribute` as a value.
  function BuilderModulesManifest(input: SynItems.Item, m: UsePaths.Mod): (r: Result<CM.ManifestData>)
    ensures !input.StructItem? ==> r == Err(StructExpectedMsg)
    ensures input.StructItem? ==>
              var deps := FieldDependencies(input.s.fields, 0, LocalTypes.ModScope(m));
              (r.Ok? <==> deps.Ok?)
              && (r.Ok? ==> r.value == CM.EmptyManifest().(builderModules :=
                                         [CM.BuilderModules(Some(LocalTypes.ModFromLocal(input.s.ident, m)), deps.value)]))
  {
    if !input.StructItem? then Err(StructExpectedMsg)
    else
      var deps :- FieldDependencies(input.s.fields, 0, LocalTypes.ModScope(m));
      Ok(CM.EmptyManifest().(builderModules := [CM.BuilderModules(Some(LocalTypes.ModFromLocal(input.s.ident, m)), deps)]))
  }

  /// `handle_builder_modules_attribute`: the loop over the struct's fields.
  method HandleBuilderModulesAttribute(input: SynItems.Item, m: UsePaths.Mod) returns (r: Result<CM.ManifestData>)
    ensures r == BuilderModulesManifest(input, m)
  {
    if !input.StructItem? {
      return Err(StructExpectedMsg);
    }
    var sc := LocalTypes.ModScope(m);
    var fields := input.s.fields;
    var modules: seq<CM.Dependency> := [];
    var i := 0;
    PrependNothing(FieldDependencies(fields, 0, sc));
    while i < |fields|
      invariant i <= |fields|
      invariant FieldDependencies(fields, 0, sc) == PrependValues(modules, FieldDependencies(fields, i, sc))
    {
      if fields[i].ident.None? {
        return Err(TupleFieldMsg);
      }
      var t := TypeParse.FromSynType(fields[i].ty, sc);
      if t.Err? {
        return Err(t.msg);
      }
      var dep := CM.Dependency(fields[i].ident.value, t.value);
      PrependValuesTwice(modules, dep, FieldDependencies(fields, i + 1, sc));
      modules := modules + [dep];
      i := i + 1;
    }
    assert modules + [] == modules;
    r := Ok(CM.EmptyManifest().(builderModules := [CM.BuilderModules(Some(LocalTypes.ModFromLocal(input.s.ident, m)), modules)]));
  }
}
