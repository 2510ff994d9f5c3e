// src/attributes/injectables.rs: `#[injectable]` on an impl block. Exactly
// one method is marked `#[inject]` (a constructor whose parameters are the
// dependencies) or `#[factory]` (a factory type `<Name>Factory` whose
// non-runtime parameters are injected as providers). Paths are read in the
// scope of the module the attribute stands in.
module InjectableAttrs {
  import opened Outcomes
  import opened Types
  import opened Syn
  import opened Strs
  import Parsing
  import TypeParse
  import UsePaths
  import LocalTypes
  import TypeRender
  import CM = CommonManifest
  import SynItems
  import AttributeKeys
  import ComponentAttrs

  /// `INJECTABLE_METADATA_KEYS`.
  const InjectableKeys: set<string> := {"scope", "container"}
  /// `FACTORY_METADATA_KEYS`.
  const FactoryKeys: set<string> := {"implementing", "visibility"}

  const ImplBlockMsg := "impl block expected"
  const OnlyOneCtorMsg := "only one method can be marked with #[inject]/#[factory]"
  const NoCtorMsg := "must have one method marked with #[inject]/#[factory]"
  const ShouldHaveCtorPanic := "panic: should have ctor"
  const SelfMsg := "self not allowed"
  const IdentifierExpectedMsg := "identifier expected"
  const PathExpectedMsg := "path expected"
  const ContainerScopeMsg := "the 'container' metadata should only be used with an injectable that also has 'scope'"
  const ContainerPathMsg := "path expected for 'container'"
  /// `segments.last().unwrap()` on a path without segments.
  const UnwrapPanic := "panic: called `Option::unwrap()` on a `None` value"
  const FactoryCtorName := "lockjaw_new_factory"
  const ProviderPath := "lockjaw::Provider"

  function Lookup(attributes: map<string, Parsing.FieldValue>, key: string): Option<Parsing.FieldValue>
  {
    if key in attributes then Some(attributes[key]) else None
  }

  /// `provider_type`: GLOBAL `lockjaw::Provider<T>`.
  function ProviderType(t: TypeData): (r: TypeData)
    ensures r.root == Global && r.path == ProviderPath && r.args == [t]
    ensures r.(args := []) == NewType().(root := Global, path := ProviderPath)
  {
    NewType().(root := Global, path := ProviderPath, args := [t])
  }

  // ---------------------------------------------------------------------------
  // get_ctor

  datatype CtorKind = InjectCtor | FactoryCtor

  /// The constructor `get_ctor` picks: the item's position, the method with
  /// its marker removed, and the marker's metadata.
  datatype Ctor = Ctor(kind: CtorKind, index: nat, ctorFn: SynItems.Method, fields: map<string, Parsing.FieldValue>)

  /// A method marked `#[inject]` or `#[factory]`.
  predicate Marked(it: SynItems.ImplItem)
  {
    it.ImplFn? && (Parsing.HasAttribute(it.m.attrs, "inject") || Parsing.HasAttribute(it.m.attrs, "factory"))
  }

  /// The number of marked methods among `items[i..]`.
  function MarkedCount(items: seq<SynItems.ImplItem>, i: nat): nat
    requires i <= |items|
    decreases |items| - i
  {
    if i == |items| then 0 else (if Marked(items[i]) then 1 else 0) + MarkedCount(items, i + 1)
  }

  /// The first marked method among `items[i..]`.
  function FirstMarked(items: seq<SynItems.ImplItem>, i: nat): (r: Option<nat>)
    requires i <= |items|
    ensures r.None? <==> MarkedCount(items, i) == 0
    ensures r.Some? ==> i <= r.value < |items| && Marked(items[r.value])
    ensures r.Some? ==> forall j :: i <= j < r.value ==> !Marked(items[j])
    decreases |items| - i
  {
    if i == |items| then None else if Marked(items[i]) then Some(i) else FirstMarked(items, i + 1)
  }

  /// `Vec::remove(k)`.
  function RemoveAt<T>(s: seq<T>, k: nat): (r: seq<T>)
    requires k < |s|
    ensures |r| == |s| - 1
    ensures forall j :: 0 <= j < k ==> r[j] == s[j]
    ensures forall j :: k <= j < |r| ==> r[j] == s[j + 1]
  {
    s[..k] + s[k + 1..]
  }

  /// `get_ctor`: two marked methods are one too many and none is too few;
  /// the only one is an `#[inject]` constructor if it carries that marker,
  /// else a factory, and its first marker is removed.
  function GetCtor(items: seq<SynItems.ImplItem>): (r: Result<Ctor>)
    ensures MarkedCount(items, 0) >= 2 ==> r == Err(OnlyOneCtorMsg)
    ensures MarkedCount(items, 0) == 0 ==> r == Err(NoCtorMsg)
    ensures r.Ok? ==> r.value.index < |items| && Marked(items[r.value.index])
    ensures r.Ok? ==> (r.value.kind == InjectCtor <==> Parsing.HasAttribute(items[r.value.index].m.attrs, "inject"))
  {
    if MarkedCount(items, 0) >= 2 then Err(OnlyOneCtorMsg)
    else if MarkedCount(items, 0) == 0 then Err(NoCtorMsg)
    else
      var k := FirstMarked(items, 0).value;
      var f := items[k].m;
      var kind := if Parsing.HasAttribute(f.attrs, "inject") then InjectCtor else FactoryCtor;
      var marker := if kind == InjectCtor then "inject" else "factory";
      var index := Parsing.FindAttribute(f.attrs, marker, 0).value;
      var fields :- Parsing.GetParenthesizedFieldValues(f.attrs[index].meta);
      Ok(Ctor(kind, k, f.(attrs := RemoveAt(f.attrs, index)), fields))
  }

  /// The marked method that comes first is counted once, before the rest.
  lemma {:induction false} FirstMarkedCount(items: seq<SynItems.ImplItem>, i: nat)
    requires i <= |items| && FirstMarked(items, i).Some?
    ensures MarkedCount(items, i) == 1 + MarkedCount(items, FirstMarked(items, i).value + 1)
    decreases |items| - i
  {
    if !Marked(items[i]) {
      FirstMarkedCount(items, i + 1);
    }
  }

  /// Nothing is marked where none is counted.
  lemma {:induction false} NoneMarked(items: seq<SynItems.ImplItem>, i: nat, j: nat)
    requires i <= j < |items| && MarkedCount(items, i) == 0
    ensures !Marked(items[j])
    decreases j - i
  {
    if i < j {
      NoneMarked(items, i + 1, j);
    }
  }

  /// A constructor is found exactly when one method is marked; it is that
  /// method and no other is marked.
  lemma CtorUnique(items: seq<SynItems.ImplItem>)
    ensures MarkedCount(items, 0) != 1 ==> GetCtor(items).Err?
    ensures var r := GetCtor(items);
            r.Ok? ==>
              var c := r.value;
              && MarkedCount(items, 0) == 1
              && c.index < |items| && items[c.index].ImplFn? && Marked(items[c.index])
              && (forall j :: 0 <= j < |items| && j != c.index ==> !Marked(items[j]))
  {
    if GetCtor(items).Ok? {
      CtorIsFirstMarked(items);
      OnlyFirstMarked(items);
    }
  }

  /// A constructor found is the first marked method, and the only one.
  lemma CtorIsFirstMarked(items: seq<SynItems.ImplItem>)
    requires GetCtor(items).Ok?
    ensures MarkedCount(items, 0) == 1 && GetCtor(items).value.index == FirstMarked(items, 0).value
  {
  }

  /// With one method marked, the first marked one is the only one.
  lemma OnlyFirstMarked(items: seq<SynItems.ImplItem>)
    requires MarkedCount(items, 0) == 1
    ensures var k := FirstMarked(items, 0).value;
            forall j :: 0 <= j < |items| && j != k ==> !Marked(items[j])
  {
    var k := FirstMarked(items, 0).value;
    FirstMarkedCount(items, 0);
    forall j | 0 <= j < |items| && j != k
      ensures !Marked(items[j])
    {
      if j > k {
        NoneMarked(items, k + 1, j);
      }
    }
  }

  /// The constructor's kind is `#[inject]` exactly when the method carries
  /// that marker, and the method loses its first marker and nothing else.
  lemma CtorShape(items: seq<SynItems.ImplItem>)
    ensures var r := GetCtor(items);
            r.Ok? ==>
              var c := r.value;
              && c.index < |items| && items[c.index].ImplFn?
              && (c.kind == InjectCtor <==> Parsing.HasAttribute(items[c.index].m.attrs, "inject"))
              && var f := items[c.index].m;
                 var marker := if c.kind == InjectCtor then "inject" else "factory";
                 && Parsing.FindAttribute(f.attrs, marker, 0).Some?
                 && var p := Parsing.FindAttribute(f.attrs, marker, 0).value;
                    && Parsing.IsAttribute(f.attrs[p], marker)
                    && (forall j :: 0 <= j < p ==> !Parsing.IsAttribute(f.attrs[j], marker))
                    && c.ctorFn == f.(attrs := RemoveAt(f.attrs, p))
                    && Parsing.GetParenthesizedFieldValues(f.attrs[p].meta) == Ok(c.fields)
  {
  }

  /// `get_ctor` with its counting loop and its search loop; the marker is
  /// removed from the item list in place.
  method GetCtorLoop(items: seq<SynItems.ImplItem>) returns (r: Result<Ctor>, items': seq<SynItems.ImplItem>)
    ensures r == GetCtor(items)
    ensures r.Ok? ==> r.value.index < |items| && items' == items[r.value.index := SynItems.ImplFn(r.value.ctorFn)]
    ensures r.Err? ==> items' == items
  {
    var ctors := 0;
    var i := 0;
    while i < |items|
      invariant i <= |items| && ctors <= 1
      invariant ctors + MarkedCount(items, i) == MarkedCount(items, 0)
    {
      if Marked(items[i]) {
        ctors := ctors + 1;
        if ctors == 2 {
          return Err(OnlyOneCtorMsg), items;
        }
      }
      i := i + 1;
    }
    if ctors == 0 {
      return Err(NoCtorMsg), items;
    }
    i := 0;
    while i < |items|
      invariant i <= |items|
      invariant FirstMarked(items, i) == FirstMarked(items, 0)
    {
      if items[i].ImplFn? {
        var f := items[i].m;
        var marker := "";
        if Parsing.HasAttribute(f.attrs, "inject") {
          marker := "inject";
        } else if Parsing.HasAttribute(f.attrs, "factory") {
          marker := "factory";
        }
        if marker != "" {
          var index := Parsing.FindAttribute(f.attrs, marker, 0).value;
          var fields := Parsing.GetParenthesizedFieldValues(f.attrs[index].meta);
          if fields.Err? {
            return Err(fields.msg), items;
          }
          var g := f.(attrs := RemoveAt(f.attrs, index));
          var kind := if marker == "inject" then InjectCtor else FactoryCtor;
          return Ok(Ctor(kind, i, g, fields.value)), items[i := SynItems.ImplFn(g)];
        }
      }
      i := i + 1;
    }
    assert false;
    return Err(ShouldHaveCtorPanic), items;
  }

  // ---------------------------------------------------------------------------
  // Constructor parameters

  /// One parameter of an `#[inject]` constructor: `self` is rejected, the
  /// name must be an identifier, and the last `#[qualified]` attribute sets
  /// the qualifier.
  function InjectDependency(a: SynItems.FnArg, sc: TypeParse.Scope): Result<CM.Dependency>
  {
    match a
    case Receiver(_) => Err(SelfMsg)
    case Typed(attrs, pat, ty) =>
      if pat.None? then Err(IdentifierExpectedMsg)
      else
        var t :- TypeParse.FromSynType(ty, sc);
        var q :- ComponentAttrs.QualifierFrom(attrs, 0, t.qualifier, sc);
        Ok(CM.Dependency(pat.value, t.(qualifier := q)))
  }

  /// A dependency carries the parameter's name and type, qualified by the
  /// parameter's last `#[qualified]` attribute or, without one, as the type
  /// was read.
  lemma InjectDependencyMeaning(a: SynItems.FnArg, sc: TypeParse.Scope, j: nat)
    ensures a.Receiver? ==> InjectDependency(a, sc) == Err(SelfMsg)
    ensures InjectDependency(a, sc).Ok? ==>
              && a.Typed? && a.pat.Some? && TypeParse.FromSynType(a.ty, sc).Ok?
              && var t := TypeParse.FromSynType(a.ty, sc).value;
                 var d := InjectDependency(a, sc).value;
                 && d.name == a.pat.value && d.ty.(qualifier := t.qualifier) == t
                 && (ComponentAttrs.LastQualified(a.attrs, j) ==>
                       && ComponentAttrs.QualifierType(a.attrs[j], sc).Ok?
                       && d.ty.qualifier == Some(ComponentAttrs.QualifierType(a.attrs[j], sc).value))
                 && ((forall k :: 0 <= k < |a.attrs| ==> !ComponentAttrs.IsQualified(a.attrs[k])) ==>
                       d.ty == t)
  {
    if InjectDependency(a, sc).Ok? {
      var t := TypeParse.FromSynType(a.ty, sc).value;
      if ComponentAttrs.LastQualified(a.attrs, j) {
        ComponentAttrs.QualifierLast(a.attrs, 0, t.qualifier, sc, j);
      }
      if forall k :: 0 <= k < |a.attrs| ==> !ComponentAttrs.IsQualified(a.attrs[k]) {
        ComponentAttrs.QualifierNone(a.attrs, 0, t.qualifier, sc);
      }
    }
  }

  /// The parameters `inputs[i..]` of an `#[inject]` constructor: one
  /// dependency each, in order, or the first parameter's error.
  function InjectDependencies(inputs: seq<SynItems.FnArg>, i: nat, sc: TypeParse.Scope): (r: Result<seq<CM.Dependency>>)
    requires i <= |inputs|
    ensures r.Ok? <==> forall j :: i <= j < |inputs| ==> InjectDependency(inputs[j], sc).Ok?
    ensures r.Ok? ==> |r.value| == |inputs| - i
                      && forall j :: i <= j < |inputs| ==> r.value[j - i] == InjectDependency(inputs[j], sc).value
    decreases |inputs| - i
  {
    if i == |inputs| then Ok([])
    else
      var d :- InjectDependency(inputs[i], sc);
      var rest :- InjectDependencies(inputs, i + 1, sc);
      Ok([d] + rest)
  }

  /// The parameter loop of `handle_injectable_attribute`.
  method ReadInjectDependencies(inputs: seq<SynItems.FnArg>, sc: TypeParse.Scope) returns (r: Result<seq<CM.Dependency>>)
    ensures r == InjectDependencies(inputs, 0, sc)
  {
    var done: seq<CM.Dependency> := [];
    var i := 0;
    PrependNothing(InjectDependencies(inputs, 0, sc));
    while i < |inputs|
      invariant i <= |inputs|
      invariant InjectDependencies(inputs, 0, sc) == PrependValues(done, InjectDependencies(inputs, i, sc))
    {
      var d := InjectDependency(inputs[i], sc);
      if d.Err? {
        return Err(d.msg);
      }
      PrependValuesTwice(done, d.value, InjectDependencies(inputs, i + 1, sc));
      done := done + [d.value];
      i := i + 1;
    }
    assert done + [] == done;
    return Ok(done);
  }

  /// A parameter `handle_factory` accepts: a named, non-`self` one whose
  /// type reads unless it is a `#[runtime]` parameter.
  predicate FactoryArgAccepted(a: SynItems.FnArg, sc: TypeParse.Scope)
  {
    a.Typed? && a.pat.Some? && (Parsing.HasAttribute(a.attrs, "runtime") || TypeParse.FromSynType(a.ty, sc).Ok?)
  }

  /// A parameter the factory's provider injects.
  predicate Injected(a: SynItems.FnArg)
  {
    a.Typed? && !Parsing.HasAttribute(a.attrs, "runtime")
  }

  /// The injected parameters among `inputs[i..]`, in order.
  function InjectedArgs(inputs: seq<SynItems.FnArg>, i: nat): (r: seq<SynItems.FnArg>)
    requires i <= |inputs|
    ensures |r| <= |inputs| - i
    ensures forall k :: 0 <= k < |r| ==> Injected(r[k])
    decreases |inputs| - i
  {
    if i == |inputs| then []
    else if Injected(inputs[i]) then [inputs[i]] + InjectedArgs(inputs, i + 1)
    else InjectedArgs(inputs, i + 1)
  }

  /// The parameters `inputs[i..]` of a factory: every parameter must be
  /// accepted, `#[runtime]` ones are passed by the caller, and each other
  /// one becomes a `Provider` dependency, in order.
  function FactoryDependencies(inputs: seq<SynItems.FnArg>, i: nat, sc: TypeParse.Scope)
    : (r: Result<seq<CM.Dependency>>)
    requires i <= |inputs|
    ensures r.Ok? <==> forall j :: i <= j < |inputs| ==> FactoryArgAccepted(inputs[j], sc)
    ensures var injected := InjectedArgs(inputs, i);
            r.Ok? ==>
              && |r.value| == |injected|
              && forall k :: 0 <= k < |injected| ==>
                   && injected[k].pat.Some? && TypeParse.FromSynType(injected[k].ty, sc).Ok?
                   && r.value[k] == CM.Dependency(injected[k].pat.value, ProviderType(TypeParse.FromSynType(injected[k].ty, sc).value))
    decreases |inputs| - i
  {
    if i == |inputs| then Ok([])
    else if inputs[i].Receiver? then Err(SelfMsg)
    else if inputs[i].pat.None? then Err(IdentifierExpectedMsg)
    else if Parsing.HasAttribute(inputs[i].attrs, "runtime") then
      assert InjectedArgs(inputs, i) == InjectedArgs(inputs, i + 1);
      FactoryDependencies(inputs, i + 1, sc)
    else
      var t :- TypeParse.FromSynType(inputs[i].ty, sc);
      ghost var injected := InjectedArgs(inputs, i);
      ghost var tail := InjectedArgs(inputs, i + 1);
      assert injected == [inputs[i]] + tail;
      assert forall k :: 0 <= k < |tail| ==> injected[k + 1] == tail[k];
      var rest :- FactoryDependencies(inputs, i + 1, sc);
      Ok([CM.Dependency(inputs[i].pat.value, ProviderType(t))] + rest)
  }

  /// The parameter loop of `handle_factory`.
  method ReadFactoryDependencies(inputs: seq<SynItems.FnArg>, sc: TypeParse.Scope) returns (r: Result<seq<CM.Dependency>>)
    ensures r == FactoryDependencies(inputs, 0, sc)
  {
    var done: seq<CM.Dependency> := [];
    var i := 0;
    PrependNothing(FactoryDependencies(inputs, 0, sc));
    while i < |inputs|
      invariant i <= |inputs|
      invariant FactoryDependencies(inputs, 0, sc) == PrependValues(done, FactoryDependencies(inputs, i, sc))
    {
      var a := inputs[i];
      if a.Receiver? {
        return Err(SelfMsg);
      }
      if a.pat.None? {
        return Err(IdentifierExpectedMsg);
      }
      if !Parsing.HasAttribute(a.attrs, "runtime") {
        var t := TypeParse.FromSynType(a.ty, sc);
        if t.Err? {
          return Err(t.msg);
        }
        var d := CM.Dependency(a.pat.value, ProviderType(t.value));
        PrependValuesTwice(done, d, FactoryDependencies(inputs, i + 1, sc));
        done := done + [d];
      }
      i := i + 1;
    }
    assert done + [] == done;
    return Ok(done);
  }

  // ---------------------------------------------------------------------------
  // The injectable type

  /// Whether the self type's last segment has a lifetime argument; a path
  /// without segments panics on `last().unwrap()`.
  function LastHasLifetime(p: SynPath): (r: Result<bool>)
    ensures r.Err? <==> p.segments == []
    ensures r.Ok? ==> var a := p.segments[|p.segments| - 1].arguments;
                      (r.value <==> a.Angle? && exists j :: 0 <= j < |a.args| && a.args[j].LifetimeArg?)
  {
    if p.segments == [] then Err(UnwrapPanic)
    else Ok(HasLifetimeFrom(p.segments[|p.segments| - 1].arguments, 0))
  }

  function HasLifetimeFrom(a: PathArgs, i: nat): (r: bool)
    ensures r <==> a.Angle? && exists j :: i <= j < |a.args| && a.args[j].LifetimeArg?
    decreases if a.Angle? then |a.args| - i else 0
  {
    if !a.Angle? || i >= |a.args| then false
    else a.args[i].LifetimeArg? || HasLifetimeFrom(a, i + 1)
  }

  /// The lifetime search loop of `handle_injectable_attribute`.
  method FindLifetime(p: SynPath) returns (r: Result<bool>)
    ensures r == LastHasLifetime(p)
  {
    if p.segments == [] {
      return Err(UnwrapPanic);
    }
    var a := p.segments[|p.segments| - 1].arguments;
    var found := false;
    if a.Angle? {
      var i := 0;
      while i < |a.args|
        invariant i <= |a.args|
        invariant !found
        invariant forall j :: 0 <= j < i ==> !a.args[j].LifetimeArg?
      {
        if a.args[i].LifetimeArg? {
          found := true;
          break;
        }
        i := i + 1;
      }
    }
    return Ok(found);
  }

  /// `get_container`: `container` needs a non-empty `scope` and a path.
  function GetContainer(attributes: map<string, Parsing.FieldValue>, scopes: seq<TypeData>, sc: TypeParse.Scope)
    : (r: Result<Option<TypeData>>)
    ensures "container" !in attributes ==> r == Ok(None)
    ensures r.Ok? ==> (r.value.Some? <==> "container" in attributes)
    ensures "container" in attributes && !attributes["container"].PathValue? ==> r == Err(ContainerPathMsg)
    ensures "container" in attributes && attributes["container"].PathValue? && scopes == [] ==>
              r == Err(ContainerScopeMsg)
    ensures r.Ok? && r.value.Some? ==>
              && "container" in attributes && scopes != [] && attributes["container"].PathValue?
              && Ok(r.value.value) == TypeParse.FromPath(attributes["container"].path, sc)
  {
    if "container" !in attributes then Ok(None)
    else
      match attributes["container"]
      case PathValue(p) =>
        if scopes == [] then Err(ContainerScopeMsg)
        else
          var c :- TypeParse.FromPath(p, sc);
          Ok(Some(c))
      case _ => Err(ContainerPathMsg)
  }

  /// The manifest of an `#[inject]` constructor, once the metadata keys are
  /// checked: one injectable at the self type's local path with the `scope`
  /// types appended, recorded as lifetimed when the self type's last
  /// segment has a lifetime argument.
  function InjectManifest(item: SynItems.ItemImpl, attributes: map<string, Parsing.FieldValue>, ctor: Ctor,
                          m: UsePaths.Mod): Result<CM.ManifestData>
  {
    var sc := LocalTypes.ModScope(m);
    var dependencies :- InjectDependencies(ctor.ctorFn.sig.inputs, 0, sc);
    if !item.selfTy.PathType? then Err(PathExpectedMsg)
    else
      var p := item.selfTy.path;
      var hasLifetime :- LastHasLifetime(p);
      var ty := LocalTypes.ModFromLocal(Join(Idents(p.segments), "::"), m);
      var scopes :- Parsing.GetTypes(Lookup(attributes, "scope"), sc);
      var container :- GetContainer(attributes, scopes, sc);
      var t := ty.(scopes := ty.scopes + scopes);
      LocalTypes.LocalRenders(t);
      var injectable := CM.Injectable(t, ctor.ctorFn.sig.ident, dependencies, container);
      Ok(CM.EmptyManifest().(injectables := [injectable],
                             lifetimedTypes := if hasLifetime then map[TypeRender.Identifier(t).value := t] else map[]))
  }

  /// An injectable record is the manifest's only injectable: at the self
  /// type's local path with the `scope` types, built by the constructor with
  /// one dependency per parameter in order, with a container only beside a
  /// scope, and lifetimed (as itself) exactly when its last segment has a
  /// lifetime argument.
  lemma InjectRecord(item: SynItems.ItemImpl, attributes: map<string, Parsing.FieldValue>, ctor: Ctor, m: UsePaths.Mod)
    requires InjectManifest(item, attributes, ctor, m).Ok?
    ensures var r := InjectManifest(item, attributes, ctor, m).value;
            var sc := LocalTypes.ModScope(m);
            var inputs := ctor.ctorFn.sig.inputs;
            && item.selfTy.PathType? && item.selfTy.path.segments != []
            && Parsing.GetTypes(Lookup(attributes, "scope"), sc).Ok?
            && var scopes := Parsing.GetTypes(Lookup(attributes, "scope"), sc).value;
               var ty := LocalTypes.ModFromLocal(Join(Idents(item.selfTy.path.segments), "::"), m);
               && r.components == [] && r.modules == [] && r.entryPoints == [] && r.expandedVisibilities == map[]
               && |r.injectables| == 1
               && var inj := r.injectables[0];
                  && inj.ty == ty.(scopes := ty.scopes + scopes)
                  && inj.ctorName == ctor.ctorFn.sig.ident
                  && |inj.dependencies| == |inputs|
                  && (forall j :: 0 <= j < |inputs| ==> InjectDependency(inputs[j], sc) == Ok(inj.dependencies[j]))
                  && (inj.container.Some? ==> "container" in attributes && scopes != [])
                  && ("container" in attributes <==> inj.container.Some?)
                  && (r.lifetimedTypes != map[] <==> LastHasLifetime(item.selfTy.path).value)
                  && (forall k :: k in r.lifetimedTypes ==> r.lifetimedTypes[k] == inj.ty)
                  && CM.KeyedByIdentifier(r.lifetimedTypes)
  {
    var p := item.selfTy.path;
    var sc := LocalTypes.ModScope(m);
    var scopes := Parsing.GetTypes(Lookup(attributes, "scope"), sc).value;
    var ty := LocalTypes.ModFromLocal(Join(Idents(p.segments), "::"), m);
    var t := ty.(scopes := ty.scopes + scopes);
    LocalTypes.LocalRenders(t);
    var r := InjectManifest(item, attributes, ctor, m).value;
    if LastHasLifetime(p).value {
      assert TypeRender.Identifier(t).value in r.lifetimedTypes;
    }
  }

  /// The factory's path: the self path with its last segment renamed
  /// `<Name>Factory` and stripped of its arguments.
  function FactoryPath(p: SynPath): (r: SynPath)
    requires p.segments != []
    ensures |r.segments| == |p.segments| && r.leadingColon == p.leadingColon
    ensures forall j :: 0 <= j < |p.segments| - 1 ==> r.segments[j] == p.segments[j]
    ensures r.segments[|r.segments| - 1] == Segment(p.segments[|p.segments| - 1].ident + "Factory", NoArgs)
  {
    var n := |p.segments|;
    p.(segments := p.segments[..n - 1] + [Segment(p.segments[n - 1].ident + "Factory", NoArgs)])
  }

  /// The manifest of a factory, once its metadata keys are checked: one
  /// injectable of the factory type, built by `lockjaw_new_factory`, with no
  /// container, and always lifetimed.
  function FactoryManifest(selfTy: SynType, ctorFn: SynItems.Method, m: UsePaths.Mod): Result<CM.ManifestData>
  {
    var sc := LocalTypes.ModScope(m);
    var dependencies :- FactoryDependencies(ctorFn.sig.inputs, 0, sc);
    if !selfTy.PathType? then Err(PathExpectedMsg)
    else if selfTy.path.segments == [] then Err(UnwrapPanic)
    else
      var t :- TypeParse.FromSynType(PathType(FactoryPath(selfTy.path)), sc);
      var id :- OrError(TypeRender.Identifier(t), CM.RootUnspecifiedPanic);
      var injectable := CM.Injectable(t, FactoryCtorName, dependencies, None);
      Ok(CM.EmptyManifest().(injectables := [injectable], lifetimedTypes := map[id := t]))
  }

  /// A factory record is the manifest's only injectable: the factory type
  /// read in the module, a `Provider` dependency per injected parameter in
  /// order, and that type as the only lifetimed type.
  lemma FactoryRecord(selfTy: SynType, ctorFn: SynItems.Method, m: UsePaths.Mod)
    requires FactoryManifest(selfTy, ctorFn, m).Ok?
    ensures var r := FactoryManifest(selfTy, ctorFn, m).value;
            var sc := LocalTypes.ModScope(m);
            var injected := InjectedArgs(ctorFn.sig.inputs, 0);
            && selfTy.PathType? && selfTy.path.segments != []
            && TypeParse.FromSynType(PathType(FactoryPath(selfTy.path)), sc).Ok?
            && var t := TypeParse.FromSynType(PathType(FactoryPath(selfTy.path)), sc).value;
               && r.components == [] && r.modules == [] && r.entryPoints == [] && r.expandedVisibilities == map[]
               && r.injectables == [CM.Injectable(t, FactoryCtorName, r.injectables[0].dependencies, None)]
               && |r.injectables[0].dependencies| == |injected|
               && (forall k :: 0 <= k < |injected| ==>
                     r.injectables[0].dependencies[k].ty == ProviderType(TypeParse.FromSynType(injected[k].ty, sc).value))
               && r.lifetimedTypes.Values == {t}
               && CM.KeyedByIdentifier(r.lifetimedTypes)
  {
    var r := FactoryManifest(selfTy, ctorFn, m).value;
    var t := TypeParse.FromSynType(PathType(FactoryPath(selfTy.path)), LocalTypes.ModScope(m)).value;
    var id := TypeRender.Identifier(t).value;
    assert r.lifetimedTypes == map[id := t];
    assert id in r.lifetimedTypes;
  }

  // ---------------------------------------------------------------------------
  // Handlers

  /// `handle_factory`: the marker's metadata keys are checked first.
  method HandleFactory(selfTy: SynType, ctorFn: SynItems.Method, metadata: map<string, Parsing.FieldValue>,
                       m: UsePaths.Mod) returns (r: Result<CM.ManifestData>)
    ensures !(metadata.Keys <= FactoryKeys) ==>
              r.Err? && exists k :: k in metadata && k !in FactoryKeys && r.msg == AttributeKeys.UnknownKeyMsg(k)
    ensures metadata.Keys <= FactoryKeys ==> r == FactoryManifest(selfTy, ctorFn, m)
  {
    var keys := AttributeKeys.CheckKeys(metadata, FactoryKeys);
    if keys.Err? {
      return Err(keys.msg);
    }
    var sc := LocalTypes.ModScope(m);
    var dependencies := ReadFactoryDependencies(ctorFn.sig.inputs, sc);
    if dependencies.Err? {
      return Err(dependencies.msg);
    }
    if !selfTy.PathType? {
      return Err(PathExpectedMsg);
    }
    if selfTy.path.segments == [] {
      return Err(UnwrapPanic);
    }
    var t := TypeParse.FromSynType(PathType(FactoryPath(selfTy.path)), sc);
    if t.Err? {
      return Err(t.msg);
    }
    var id := TypeRender.Identifier(t.value);
    if id.None? {
      return Err(CM.RootUnspecifiedPanic);
    }
    var injectable := CM.Injectable(t.value, FactoryCtorName, dependencies.value, None);
    r := Ok(CM.EmptyManifest().(injectables := [injectable], lifetimedTypes := map[id.value := t.value]));
  }

  /// The `#[inject]` branch of `handle_injectable_attribute`.
  method HandleInject(item: SynItems.ItemImpl, attributes: map<string, Parsing.FieldValue>, ctor: Ctor,
                      m: UsePaths.Mod) returns (r: Result<CM.ManifestData>)
    ensures r == InjectManifest(item, attributes, ctor, m)
  {
    var sc := LocalTypes.ModScope(m);
    var dependencies := ReadInjectDependencies(ctor.ctorFn.sig.inputs, sc);
    if dependencies.Err? {
      return Err(dependencies.msg);
    }
    if !item.selfTy.PathType? {
      return Err(PathExpectedMsg);
    }
    var p := item.selfTy.path;
    var hasLifetime := FindLifetime(p);
    if hasLifetime.Err? {
      return Err(hasLifetime.msg);
    }
    var ty := LocalTypes.ModFromLocal(Join(Idents(p.segments), "::"), m);
    var scopes := Parsing.GetTypes(Lookup(attributes, "scope"), sc);
    if scopes.Err? {
      return Err(scopes.msg);
    }
    var container := GetContainer(attributes, scopes.value, sc);
    if container.Err? {
      return Err(container.msg);
    }
    var t := ty.(scopes := ty.scopes + scopes.value);
    LocalTypes.LocalRenders(t);
    var injectable := CM.Injectable(t, ctor.ctorFn.sig.ident, dependencies.value, container.value);
    var lifetimed: CM.TypeSet := map[];
    if hasLifetime.value {
      lifetimed := lifetimed[TypeRender.Identifier(t).value := t];
    }
    r := Ok(CM.EmptyManifest().(injectables := [injectable], lifetimedTypes := lifetimed));
  }

  /// `handle_injectable_attribute`: the item must be an impl block, then
  /// the metadata keys are checked and the constructor is picked.
  method HandleInjectableAttribute(attr: Parsing.FieldTokens, input: SynItems.Item, m: UsePaths.Mod)
    returns (r: Result<CM.ManifestData>)
    ensures !input.ImplItemDecl? ==> r == Err(ImplBlockMsg)
    ensures var attrs := Parsing.GetAttributeFieldValues(attr);
            input.ImplItemDecl? && attrs.Err? ==> r == Err(attrs.msg)
    ensures var attrs := Parsing.GetAttributeFieldValues(attr);
            input.ImplItemDecl? && attrs.Ok? && !(attrs.value.Keys <= InjectableKeys) ==>
              r.Err? && exists k :: k in attrs.value && k !in InjectableKeys && r.msg == AttributeKeys.UnknownKeyMsg(k)
    ensures input.ImplItemDecl? ==>
            var attrs := Parsing.GetAttributeFieldValues(attr);
            var ctor := GetCtor(input.i.items);
            attrs.Ok? && attrs.value.Keys <= InjectableKeys ==>
              && (ctor.Err? ==> r == Err(ctor.msg))
              && (ctor.Ok? && ctor.value.kind == InjectCtor ==> r == InjectManifest(input.i, attrs.value, ctor.value, m))
              && (ctor.Ok? && ctor.value.kind == FactoryCtor && ctor.value.fields.Keys <= FactoryKeys ==>
                    r == FactoryManifest(input.i.selfTy, ctor.value.ctorFn, m))
              && (ctor.Ok? && ctor.value.kind == FactoryCtor && !(ctor.value.fields.Keys <= FactoryKeys) ==>
                    r.Err? && exists k :: k in ctor.value.fields && k !in FactoryKeys
                                          && r.msg == AttributeKeys.UnknownKeyMsg(k))
  {
    if !input.ImplItemDecl? {
      return Err(ImplBlockMsg);
    }
    var item := input.i;
    var attributes := Parsing.GetAttributeFieldValues(attr);
    if attributes.Err? {
      return Err(attributes.msg);
    }
    var keys := AttributeKeys.CheckKeys(attributes.value, InjectableKeys);
    if keys.Err? {
      return Err(keys.msg);
    }
    var ctor, items := GetCtorLoop(item.items);
    if ctor.Err? {
      return Err(ctor.msg);
    }
    if ctor.value.kind == FactoryCtor {
      r := HandleFactory(item.selfTy, ctor.value.ctorFn, ctor.value.fields, m);
      return;
    }
    r := HandleInject(item, attributes.value, ctor.value, m);
  }
}
