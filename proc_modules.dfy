// processor/src/modules.rs: `#[module]` in the older, per-file generation.
// The handler records each annotated impl block in a thread-local map keyed
// by the text of its self type, collecting one provider per `#[provides]`
// or `#[binds]` method; a `#[binds]` method is given an `unimplemented!()`
// body, a `'static` lifetime on its return type and `#[allow(dead_code)]`.
// The epilogue turns the map into manifest modules at the file's base path
// and empties it.
module ProcessorModules {
  import opened Outcomes
  import opened Types
  import opened Syn
  import SynItems
  import Parsing
  import ProcessorParsing
  import ProtoTypes
  import opened ProtoManifest
  import ProcessorManifest
  import Epilogue
  import AttributeKeys
  import ModuleAttrs

  const ModuleKeys: set<string> := {"path"}

  const ImplExpectedMsg := "impl expected"
  const PathExpectedMsg := "path expected"
  const AlreadyDeclaredMsg := "module was already declared"
  const ReturnExpectedMsg := "return type expected"
  const ConsumeSelfMsg := "modules should not consume self"
  const IdentifierExpectedMsg := "identifier expected"
  const BindsBodyMsg := "#[binds] methods must have empty body"
  const BindsReturnMsg := "#[binds] methods must return MaybeScoped<T>"
  const BindsParamMsg := "binds method must only take the binding type as parameter"
  /// `return_type.args[0]` on a type without arguments.
  const IndexPanic := "panic: index out of bounds"

  /// What the handler knows of a module before the base path is resolved.
  datatype LocalModule = LocalModule(name: string, providers: seq<Provider>, additionalPath: Option<string>)

  /// What the processor reads from its environment, together with
  /// `get_parenthesized_attribute_metadata` applied to a method attribute.
  datatype ModuleEnv = ModuleEnv(env: ProcessorParsing.Env, metadata: Parsing.Attribute -> Result<map<string, string>>)

  /// The `'static` lifetime `handle_binds` adds.
  const StaticLifetime: GenericArg := LifetimeArg

  /// `#[allow(dead_code)]`, which replaces `#[binds]`.
  const AllowDeadCode := Parsing.Attribute(Parsing.MetaList(SynPath(false, [Segment("allow", NoArgs)]), Parsing.NotFields,
                                                            Some(SynPath(false, [Segment("dead_code", NoArgs)]))))

  /// The scopes of a method attribute: its `scope` value read as types.
  function ScopesOf(a: Parsing.Attribute, me: ModuleEnv): Result<seq<TypeData>>
  {
    var meta :- me.metadata(a);
    ProcessorParsing.GetTypes(ProcessorParsing.Get(meta, "scope"), me.env.parsePath, me.env.currentCrate)
  }

  // ---------------------------------------------------------------------------
  // handle_provides

  /// What the parameter loop collects: whether the method is static, and
  /// the dependencies.
  datatype ArgsRead = ArgsRead(isStatic: bool, deps: seq<Dependency>)

  /// The parameter loop over `inputs[i..]`, continuing from `acc`: `&self`
  /// makes the provider non-static, `self` is refused, a named parameter
  /// is a dependency.
  function ProvidesArgs(inputs: seq<SynItems.FnArg>, i: nat, acc: ArgsRead, currentCrate: string): Result<ArgsRead>
    requires i <= |inputs|
    decreases |inputs| - i
  {
    if i == |inputs| then Ok(acc)
    else match inputs[i]
      case Receiver(isRef) =>
        if !isRef then Err(ConsumeSelfMsg)
        else ProvidesArgs(inputs, i + 1, acc.(isStatic := false), currentCrate)
      case Typed(_, pat, ty) =>
        var name :- OrError(pat, IdentifierExpectedMsg);
        var t :- ProtoTypes.FromSynType(ty, currentCrate);
        ProvidesArgs(inputs, i + 1, acc.(deps := acc.deps + [Dependency(name, t)]), currentCrate)
  }

  /// A successful parameter loop keeps what was read before, adds one
  /// dependency per named parameter, and leaves the provider static
  /// exactly when it was and no `&self` is among the parameters.
  lemma {:induction false} ProvidesArgsMeaning(inputs: seq<SynItems.FnArg>, i: nat, acc: ArgsRead, currentCrate: string)
    requires i <= |inputs|
    ensures var r := ProvidesArgs(inputs, i, acc, currentCrate);
            r.Ok? ==>
              && (r.value.isStatic <==> acc.isStatic && forall j :: i <= j < |inputs| ==> !inputs[j].Receiver?)
              && |acc.deps| <= |r.value.deps|
              && r.value.deps[..|acc.deps|] == acc.deps
              && (forall j :: i <= j < |inputs| ==> inputs[j].Receiver? ==> inputs[j].isRef)
              && (forall j :: i <= j < |inputs| ==> inputs[j].Typed? ==> inputs[j].pat.Some?)
    decreases |inputs| - i
  {
    if i < |inputs| {
      match inputs[i]
      case Receiver(isRef) =>
        ProvidesArgsMeaning(inputs, i + 1, acc.(isStatic := false), currentCrate);
      case Typed(_, pat, ty) =>
        if pat.Some? && ProtoTypes.FromSynType(ty, currentCrate).Ok? {
          var t := ProtoTypes.FromSynType(ty, currentCrate).value;
          var acc' := acc.(deps := acc.deps + [Dependency(pat.value, t)]);
          ProvidesArgsMeaning(inputs, i + 1, acc', currentCrate);
          var r := ProvidesArgs(inputs, i + 1, acc', currentCrate);
          if r.Ok? {
            assert r.value.deps[..|acc.deps|] == r.value.deps[..|acc'.deps|][..|acc.deps|];
          }
        }
    }
  }

  /// `handle_provides`: the return type, the parameters, then the scopes
  /// of the attribute.
  function ProvidesProvider(a: Parsing.Attribute, sig: SynItems.Signature, me: ModuleEnv): Result<Provider>
  {
    if sig.output.DefaultReturn? then Err(ReturnExpectedMsg)
    else
      var cc := me.env.currentCrate;
      var t :- ProtoTypes.FromSynType(sig.output.ty, cc);
      var args :- ProvidesArgs(sig.inputs, 0, ArgsRead(true, []), cc);
      var scopes :- ScopesOf(a, me);
      Ok(ProcessorManifest.NewProvider().(name := sig.ident, ty := t.(scopes := t.scopes + scopes),
                                          deps := args.deps, isStatic := args.isStatic))
  }

  method ReadProvidesArgs(inputs: seq<SynItems.FnArg>, currentCrate: string) returns (r: Result<ArgsRead>)
    ensures r == ProvidesArgs(inputs, 0, ArgsRead(true, []), currentCrate)
  {
    var acc := ArgsRead(true, []);
    var i := 0;
    while i < |inputs|
      invariant i <= |inputs|
      invariant ProvidesArgs(inputs, i, acc, currentCrate) == ProvidesArgs(inputs, 0, ArgsRead(true, []), currentCrate)
    {
      match inputs[i] {
        case Receiver(isRef) =>
          if !isRef {
            return Err(ConsumeSelfMsg);
          }
          acc := acc.(isStatic := false);
        case Typed(_, pat, ty) =>
          if pat.None? {
            return Err(IdentifierExpectedMsg);
          }
          var t := ProtoTypes.FromSynType(ty, currentCrate);
          if t.Err? {
            return Err(t.msg);
          }
          acc := acc.(deps := acc.deps + [Dependency(pat.value, t.value)]);
      }
      i := i + 1;
    }
    return Ok(acc);
  }

  method HandleProvides(a: Parsing.Attribute, sig: SynItems.Signature, me: ModuleEnv) returns (r: Result<Provider>)
    ensures r == ProvidesProvider(a, sig, me)
  {
    if sig.output.DefaultReturn? {
      return Err(ReturnExpectedMsg);
    }
    var t := ProtoTypes.FromSynType(sig.output.ty, me.env.currentCrate);
    if t.Err? {
      return Err(t.msg);
    }
    var args := ReadProvidesArgs(sig.inputs, me.env.currentCrate);
    if args.Err? {
      return Err(args.msg);
    }
    var scopes := ScopesOf(a, me);
    if scopes.Err? {
      return Err(scopes.msg);
    }
    var provider := ProcessorManifest.NewProvider();
    return Ok(provider.(name := sig.ident, ty := t.value.(scopes := t.value.scopes + scopes.value),
                        deps := args.value.deps, isStatic := args.value.isStatic));
  }

  /// A provides provider is named after the method, provides its return
  /// type with the attribute's scopes appended, is not a binding, has one
  /// dependency per named parameter, and is static exactly when the method
  /// takes no `&self`.
  lemma ProvidesShape(a: Parsing.Attribute, sig: SynItems.Signature, me: ModuleEnv)
    requires ProvidesProvider(a, sig, me).Ok?
    ensures var p := ProvidesProvider(a, sig, me).value;
            && p.name == sig.ident && !p.binds
            && sig.output.ReturnsType?
            && var t := ProtoTypes.FromSynType(sig.output.ty, me.env.currentCrate);
            && t.Ok? && ScopesOf(a, me).Ok?
            && p.ty == t.value.(scopes := t.value.scopes + ScopesOf(a, me).value)
            && (p.isStatic <==> forall j :: 0 <= j < |sig.inputs| ==> !sig.inputs[j].Receiver?)
            && (forall j :: 0 <= j < |sig.inputs| ==> sig.inputs[j].Receiver? ==> sig.inputs[j].isRef)
  {
    ProvidesArgsMeaning(sig.inputs, 0, ArgsRead(true, []), me.env.currentCrate);
  }

  // ---------------------------------------------------------------------------
  // handle_binds

  /// `has_lifetime`: some argument is a lifetime.
  predicate HasLifetime(args: seq<GenericArg>)
  {
    exists j :: 0 <= j < |args| && args[j].LifetimeArg?
  }

  /// The loop of `has_lifetime`, returning at the first lifetime.
  method FindLifetime(args: seq<GenericArg>) returns (r: bool)
    ensures r == HasLifetime(args)
  {
    var i := 0;
    while i < |args|
      invariant i <= |args|
      invariant forall j :: 0 <= j < i ==> !args[j].LifetimeArg?
    {
      if args[i].LifetimeArg? {
        return true;
      }
      i := i + 1;
    }
    return false;
  }

  /// The return type after `handle_binds`: a path type whose last segment
  /// has angle-bracketed arguments without a lifetime gets `'static`
  /// appended; anything else is unchanged.
  function WithStatic(t: SynType): (r: SynType)
    ensures !t.PathType? || |t.path.segments| == 0 ==> r == t
  {
    if !t.PathType? || |t.path.segments| == 0 then t
    else
      var segs := t.path.segments;
      var last := segs[|segs| - 1];
      if last.arguments.Angle? && !HasLifetime(last.arguments.args) then
        PathType(t.path.(segments := segs[..|segs| - 1] + [last.(arguments := Angle(last.arguments.args + [StaticLifetime]))]))
      else t
  }

  /// After `WithStatic`, a last segment with angle-bracketed arguments
  /// carries a lifetime, and the other segments are untouched.
  lemma WithStaticHasLifetime(t: SynType)
    requires t.PathType? && |t.path.segments| > 0
    ensures var r := WithStatic(t);
            var n := |t.path.segments|;
            && r.PathType? && |r.path.segments| == n
            && r.path.segments[..n - 1] == t.path.segments[..n - 1]
            && r.path.segments[n - 1].ident == t.path.segments[n - 1].ident
            && (t.path.segments[n - 1].arguments.Angle? ==>
                  r.path.segments[n - 1].arguments.Angle? && HasLifetime(r.path.segments[n - 1].arguments.args))
  {
    var segs := t.path.segments;
    var last := segs[|segs| - 1];
    if last.arguments.Angle? && !HasLifetime(last.arguments.args) {
      var args := last.arguments.args + [StaticLifetime];
      assert args[|args| - 1].LifetimeArg?;
    }
  }

  /// `handle_binds`: the provider and the method as left behind (its body
  /// one statement longer, its return type with `'static`).
  function BindsProvider(a: Parsing.Attribute, f: SynItems.Method, me: ModuleEnv): Result<(Provider, SynItems.Method)>
  {
    var sig := f.sig;
    var cc := me.env.currentCrate;
    if f.stmts != 0 then Err(BindsBodyMsg)
    else if sig.output.DefaultReturn? then Err(ReturnExpectedMsg)
    else
      var rt :- ProtoTypes.FromSynType(sig.output.ty, cc);
      if rt.path != "lockjaw::MaybeScoped" && rt.path != "MaybeScoped" then Err(BindsReturnMsg)
      else if |rt.args| == 0 then Err(IndexPanic)
      else if |sig.inputs| != 1 || sig.inputs[0].Receiver? then Err(BindsParamMsg)
      else
        var name :- OrError(sig.inputs[0].pat, IdentifierExpectedMsg);
        var dt :- ProtoTypes.FromSynType(sig.inputs[0].ty, cc);
        var scopes :- ScopesOf(a, me);
        var t := rt.args[0];
        var f' := f.(stmts := 1, sig := sig.(output := sig.output.(ty := WithStatic(sig.output.ty))));
        Ok((ProcessorManifest.NewProvider().(binds := true, name := sig.ident, ty := t.(scopes := t.scopes + scopes),
                                             deps := [Dependency(name, dt)]), f'))
  }

  /// A binds provider is a static binding named after the method that
  /// provides the argument of its `MaybeScoped` return type, with the
  /// attribute's scopes appended, from exactly one dependency, the method's
  /// one parameter; its body was empty and now holds one statement.
  lemma BindsShape(a: Parsing.Attribute, f: SynItems.Method, me: ModuleEnv)
    requires BindsProvider(a, f, me).Ok?
    ensures var (p, f') := BindsProvider(a, f, me).value;
            && p.binds && p.isStatic && p.name == f.sig.ident
            && f.stmts == 0 && f'.stmts == 1 && f'.attrs == f.attrs && f'.sig.ident == f.sig.ident
            && f.sig.output.ReturnsType?
            && var rt := ProtoTypes.FromSynType(f.sig.output.ty, me.env.currentCrate);
            && rt.Ok? && rt.value.path in {"lockjaw::MaybeScoped", "MaybeScoped"} && |rt.value.args| > 0
            && ScopesOf(a, me).Ok?
            && p.ty == rt.value.args[0].(scopes := rt.value.args[0].scopes + ScopesOf(a, me).value)
            && |f.sig.inputs| == 1 && f.sig.inputs[0].Typed? && f.sig.inputs[0].pat.Some?
            && p.deps == [Dependency(f.sig.inputs[0].pat.value, ProtoTypes.FromSynType(f.sig.inputs[0].ty, me.env.currentCrate).value)]
  {
  }

  /// The guard of `handle_binds`: a method that already has a body, or
  /// whose return type is not `MaybeScoped`, is refused with the message
  /// that says so.
  lemma BindsRefuses(a: Parsing.Attribute, f: SynItems.Method, me: ModuleEnv)
    ensures f.stmts != 0 ==> BindsProvider(a, f, me) == Err(BindsBodyMsg)
    ensures f.stmts == 0 && f.sig.output.ReturnsType? ==>
              var rt := ProtoTypes.FromSynType(f.sig.output.ty, me.env.currentCrate);
              rt.Ok? && rt.value.path != "lockjaw::MaybeScoped" && rt.value.path != "MaybeScoped" ==>
                BindsProvider(a, f, me) == Err(BindsReturnMsg)
  {
  }

  method HandleBinds(a: Parsing.Attribute, f: SynItems.Method, me: ModuleEnv) returns (r: Result<(Provider, SynItems.Method)>)
    ensures r == BindsProvider(a, f, me)
  {
    var sig := f.sig;
    var cc := me.env.currentCrate;
    if f.stmts != 0 {
      return Err(BindsBodyMsg);
    }
    var stmts := f.stmts + 1;
    if sig.output.DefaultReturn? {
      return Err(ReturnExpectedMsg);
    }
    var rt := ProtoTypes.FromSynType(sig.output.ty, cc);
    if rt.Err? {
      return Err(rt.msg);
    }
    if rt.value.path != "lockjaw::MaybeScoped" && rt.value.path != "MaybeScoped" {
      return Err(BindsReturnMsg);
    }
    var ty := sig.output.ty;
    if ty.PathType? && |ty.path.segments| > 0 {
      var segs := ty.path.segments;
      var last := segs[|segs| - 1];
      if last.arguments.Angle? {
        var lifetime := FindLifetime(last.arguments.args);
        if !lifetime {
          ty := PathType(ty.path.(segments := segs[..|segs| - 1] + [last.(arguments := Angle(last.arguments.args + [StaticLifetime]))]));
        }
      }
    }
    if |rt.value.args| == 0 {
      return Err(IndexPanic);
    }
    var t := rt.value.args[0];
    if |sig.inputs| != 1 || sig.inputs[0].Receiver? {
      return Err(BindsParamMsg);
    }
    if sig.inputs[0].pat.None? {
      return Err(IdentifierExpectedMsg);
    }
    var dt := ProtoTypes.FromSynType(sig.inputs[0].ty, cc);
    if dt.Err? {
      return Err(dt.msg);
    }
    var scopes := ScopesOf(a, me);
    if scopes.Err? {
      return Err(scopes.msg);
    }
    var provider := ProcessorManifest.NewProvider();
    provider := provider.(binds := true, name := sig.ident, ty := t.(scopes := t.scopes + scopes.value),
                          deps := [Dependency(sig.inputs[0].pat.value, dt.value)]);
    return Ok((provider, f.(stmts := stmts, sig := sig.(output := sig.output.(ty := ty)))));
  }

  // ---------------------------------------------------------------------------
  // The attribute loop of a method

  /// What the attribute loop keeps: the module's providers, the method's
  /// new attributes, and the method as `handle_binds` leaves it.
  datatype MethodState = MethodState(providers: seq<Provider>, kept: seq<Parsing.Attribute>, f: SynItems.Method)

  /// One attribute: `provides` adds a provider and is dropped, `binds` adds
  /// a provider and becomes `#[allow(dead_code)]`, any other is kept.
  function AttrStep(a: Parsing.Attribute, st: MethodState, me: ModuleEnv): Result<MethodState>
  {
    if ProcessorParsing.IsAttribute(a.meta.path, "provides") then
      var p :- ProvidesProvider(a, st.f.sig, me);
      Ok(st.(providers := st.providers + [p]))
    else if ProcessorParsing.IsAttribute(a.meta.path, "binds") then
      var b :- BindsProvider(a, st.f, me);
      Ok(st.(providers := st.providers + [b.0], kept := st.kept + [AllowDeadCode], f := b.1))
    else Ok(st.(kept := st.kept + [a]))
  }

  /// The attribute loop over `attrs[i..]`, continuing from `st`.
  function AttrsFrom(attrs: seq<Parsing.Attribute>, i: nat, st: MethodState, me: ModuleEnv): Result<MethodState>
    requires i <= |attrs|
    decreases |attrs| - i
  {
    if i == |attrs| then Ok(st)
    else
      var st' :- AttrStep(attrs[i], st, me);
      AttrsFrom(attrs, i + 1, st', me)
  }

  predicate IsMarker(a: Parsing.Attribute)
  {
    ProcessorParsing.IsAttribute(a.meta.path, "provides") || ProcessorParsing.IsAttribute(a.meta.path, "binds")
  }

  /// The number of `provides`/`binds` attributes among `attrs[i..]`.
  function MarkerCount(attrs: seq<Parsing.Attribute>, i: nat): (n: nat)
    requires i <= |attrs|
    ensures n <= |attrs| - i
    decreases |attrs| - i
  {
    if i == |attrs| then 0 else (if IsMarker(attrs[i]) then 1 else 0) + MarkerCount(attrs, i + 1)
  }

  /// A successful attribute loop adds one provider per `provides`/`binds`
  /// attribute, after the ones already there, and keeps one attribute per
  /// attribute that is not `provides`.
  lemma {:induction false} AttrsFromMeaning(attrs: seq<Parsing.Attribute>, i: nat, st: MethodState, me: ModuleEnv)
    requires i <= |attrs|
    ensures var r := AttrsFrom(attrs, i, st, me);
            r.Ok? ==>
              && |r.value.providers| == |st.providers| + MarkerCount(attrs, i)
              && r.value.providers[..|st.providers|] == st.providers
              && |st.kept| <= |r.value.kept| <= |st.kept| + |attrs| - i
              && r.value.kept[..|st.kept|] == st.kept
              && r.value.f.attrs == st.f.attrs
    decreases |attrs| - i
  {
    if i < |attrs| {
      var s := AttrStep(attrs[i], st, me);
      if s.Ok? {
        if ProcessorParsing.IsAttribute(attrs[i].meta.path, "binds") && !ProcessorParsing.IsAttribute(attrs[i].meta.path, "provides") {
          BindsShape(attrs[i], st.f, me);
        }
        AttrsFromMeaning(attrs, i + 1, s.value, me);
        var r := AttrsFrom(attrs, i + 1, s.value, me);
        if r.Ok? {
          assert r.value.providers[..|st.providers|] == r.value.providers[..|s.value.providers|][..|st.providers|];
          assert r.value.kept[..|st.kept|] == r.value.kept[..|s.value.kept|][..|st.kept|];
        }
      }
    }
  }

  /// The method after its attribute loop: the providers it adds, and the
  /// method with its new attributes.
  function ProcessMethod(f: SynItems.Method, providers: seq<Provider>, me: ModuleEnv): Result<(seq<Provider>, SynItems.Method)>
  {
    var st :- AttrsFrom(f.attrs, 0, MethodState(providers, [], f), me);
    Ok((st.providers, st.f.(attrs := st.kept)))
  }

  /// A method without `provides` or `binds` adds no provider and keeps all
  /// its attributes.
  lemma {:induction false} UnmarkedMethodKept(f: SynItems.Method, providers: seq<Provider>, me: ModuleEnv)
    requires forall j :: 0 <= j < |f.attrs| ==> !IsMarker(f.attrs[j])
    ensures ProcessMethod(f, providers, me) == Ok((providers, f))
  {
    UnmarkedAttrs(f.attrs, 0, MethodState(providers, [], f), me);
    assert f.attrs[0..] == f.attrs;
    assert [] + f.attrs == f.attrs;
  }

  lemma {:induction false} UnmarkedAttrs(attrs: seq<Parsing.Attribute>, i: nat, st: MethodState, me: ModuleEnv)
    requires i <= |attrs|
    requires forall j :: i <= j < |attrs| ==> !IsMarker(attrs[j])
    ensures AttrsFrom(attrs, i, st, me) == Ok(st.(kept := st.kept + attrs[i..]))
    decreases |attrs| - i
  {
    if i < |attrs| {
      var st' := st.(kept := st.kept + [attrs[i]]);
      UnmarkedAttrs(attrs, i + 1, st', me);
      assert st.kept + attrs[i..] == st'.kept + attrs[i + 1..];
    } else {
      assert st.kept + attrs[i..] == st.kept;
    }
  }

  method ProcessMethodLoop(f: SynItems.Method, providers: seq<Provider>, me: ModuleEnv)
    returns (r: Result<(seq<Provider>, SynItems.Method)>)
    ensures r == ProcessMethod(f, providers, me)
  {
    var st := MethodState(providers, [], f);
    var i := 0;
    while i < |f.attrs|
      invariant i <= |f.attrs|
      invariant AttrsFrom(f.attrs, i, st, me) == AttrsFrom(f.attrs, 0, MethodState(providers, [], f), me)
    {
      var a := f.attrs[i];
      if ProcessorParsing.IsAttribute(a.meta.path, "provides") {
        var p := HandleProvides(a, st.f.sig, me);
        if p.Err? {
          return Err(p.msg);
        }
        st := st.(providers := st.providers + [p.value]);
      } else if ProcessorParsing.IsAttribute(a.meta.path, "binds") {
        var b := HandleBinds(a, st.f, me);
        if b.Err? {
          return Err(b.msg);
        }
        st := st.(providers := st.providers + [b.value.0], kept := st.kept + [AllowDeadCode], f := b.value.1);
      } else {
        st := st.(kept := st.kept + [a]);
      }
      i := i + 1;
    }
    return Ok((st.providers, st.f.(attrs := st.kept)));
  }

  // ---------------------------------------------------------------------------
  // The item loop and the handler

  /// The item loop over `items[i..]`, continuing from the providers and
  /// the emitted items so far: methods are processed, other items are left
  /// alone.
  function ItemsFrom(items: seq<SynItems.ImplItem>, i: nat, acc: (seq<Provider>, seq<SynItems.ImplItem>), me: ModuleEnv)
    : Result<(seq<Provider>, seq<SynItems.ImplItem>)>
    requires i <= |items|
    decreases |items| - i
  {
    if i == |items| then Ok(acc)
    else if !items[i].ImplFn? then ItemsFrom(items, i + 1, (acc.0, acc.1 + [items[i]]), me)
    else
      var m :- ProcessMethod(items[i].m, acc.0, me);
      ItemsFrom(items, i + 1, (m.0, acc.1 + [SynItems.ImplFn(m.1)]), me)
  }

  /// A successful item loop emits the items already emitted, then one item
  /// per remaining item, a method exactly where there was a method.
  lemma {:induction false} ItemsFromShape(items: seq<SynItems.ImplItem>, i: nat, acc: (seq<Provider>, seq<SynItems.ImplItem>),
                                          me: ModuleEnv)
    requires i <= |items|
    ensures var r := ItemsFrom(items, i, acc, me);
            r.Ok? ==>
              && |r.value.1| == |acc.1| + |items| - i
              && r.value.1[..|acc.1|] == acc.1
              && forall j :: |acc.1| <= j < |r.value.1| ==> (r.value.1[j].ImplFn? <==> items[i + j - |acc.1|].ImplFn?)
    decreases |items| - i
  {
    if i < |items| {
      var next: (seq<Provider>, seq<SynItems.ImplItem>);
      if !items[i].ImplFn? {
        next := (acc.0, acc.1 + [items[i]]);
      } else {
        var m := ProcessMethod(items[i].m, acc.0, me);
        if m.Err? {
          return;
        }
        next := (m.value.0, acc.1 + [SynItems.ImplFn(m.value.1)]);
      }
      assert ItemsFrom(items, i, acc, me) == ItemsFrom(items, i + 1, next, me);
      ItemsFromShape(items, i + 1, next, me);
      var r := ItemsFrom(items, i + 1, next, me);
      if r.Ok? {
        assert r.value.1[..|acc.1|] == r.value.1[..|next.1|][..|acc.1|];
        assert r.value.1[|acc.1|].ImplFn? <==> items[i].ImplFn? by {
          assert r.value.1[..|next.1|][|acc.1|] == next.1[|acc.1|];
        }
        assert |next.1| == |acc.1| + 1;
      }
    }
  }

  method ProcessItems(items: seq<SynItems.ImplItem>, me: ModuleEnv) returns (r: Result<(seq<Provider>, seq<SynItems.ImplItem>)>)
    ensures r == ItemsFrom(items, 0, ([], []), me)
  {
    var providers: seq<Provider> := [];
    var done: seq<SynItems.ImplItem> := [];
    var i := 0;
    while i < |items|
      invariant i <= |items|
      invariant ItemsFrom(items, i, (providers, done), me) == ItemsFrom(items, 0, ([], []), me)
    {
      if items[i].ImplFn? {
        var m := ProcessMethodLoop(items[i].m, providers, me);
        if m.Err? {
          return Err(m.msg);
        }
        providers := m.value.0;
        done := done + [SynItems.ImplFn(m.value.1)];
      } else {
        done := done + [items[i]];
      }
      i := i + 1;
    }
    return Ok((providers, done));
  }

  /// `handle_module_attribute` once the metadata keys are accepted: the
  /// key of the module, its record and the emitted impl block.
  function HandleModule(attributes: map<string, string>, input: SynItems.Item, me: ModuleEnv, modules: map<string, LocalModule>)
    : Result<(string, LocalModule, SynItems.ItemImpl)>
  {
    if !input.ImplItemDecl? then Err(ImplExpectedMsg)
    else if !input.i.selfTy.PathType? then Err(PathExpectedMsg)
    else
      var key := ModuleAttrs.PathText(input.i.selfTy.path);
      if key in modules then Err(AlreadyDeclaredMsg)
      else
        var r :- ItemsFrom(input.i.items, 0, ([], []), me);
        Ok((key, LocalModule(key, r.0, ProcessorParsing.Get(attributes, "path")), input.i.(items := r.1)))
  }

  /// A module is recorded under the text of its self type, which names it;
  /// that key was not taken; the emitted impl block keeps the shape of the
  /// original, method for method.
  lemma ModuleRecord(attributes: map<string, string>, input: SynItems.Item, me: ModuleEnv, modules: map<string, LocalModule>)
    requires HandleModule(attributes, input, me, modules).Ok?
    ensures var (key, l, impl) := HandleModule(attributes, input, me, modules).value;
            && input.ImplItemDecl? && input.i.selfTy.PathType?
            && key == ModuleAttrs.PathText(input.i.selfTy.path) && key !in modules
            && l.name == key && l.additionalPath == ProcessorParsing.Get(attributes, "path")
            && impl.selfTy == input.i.selfTy && |impl.items| == |input.i.items|
            && forall k :: 0 <= k < |impl.items| ==> (impl.items[k].ImplFn? <==> input.i.items[k].ImplFn?)
  {
    ItemsFromShape(input.i.items, 0, ([], []), me);
  }

  /// Declaring the same impl block twice fails the second time.
  lemma DeclaredOnce(attributes: map<string, string>, input: SynItems.Item, me: ModuleEnv, modules: map<string, LocalModule>,
                     attributes2: map<string, string>, me2: ModuleEnv)
    requires HandleModule(attributes, input, me, modules).Ok?
    ensures var (key, l, _) := HandleModule(attributes, input, me, modules).value;
            HandleModule(attributes2, input, me2, modules[key := l]) == Err(AlreadyDeclaredMsg)
  {
  }

  /// The module entry of a record at the epilogue.
  function ModuleOf(l: LocalModule, basePath: string, currentCrate: string): Module
  {
    Module(Epilogue.EpilogueType(basePath, l.additionalPath, l.name, currentCrate), l.providers)
  }

  /// Records of different names give modules of different types.
  lemma ModulesDistinct(l1: LocalModule, l2: LocalModule, basePath: string, currentCrate: string)
    requires l1.additionalPath == l2.additionalPath && l1.name != l2.name
    ensures ModuleOf(l1, basePath, currentCrate).ty != ModuleOf(l2, basePath, currentCrate).ty
  {
    Epilogue.EpiloguePathInjective(basePath, l1.additionalPath, l1.name, l2.name);
  }

  /// The thread-local `MODULES` map.
  class ModuleRegistry {
    var modules: map<string, LocalModule>

    /// Every record is filed under its own name.
    ghost predicate Valid()
      reads this
    {
      forall k :: k in modules ==> modules[k].name == k
    }

    constructor ()
      ensures modules == map[] && Valid()
    {
      modules := map[];
    }

    /// `handle_module_attribute`: read the metadata and check its keys,
    /// then record the module; a failing call changes nothing.
    method HandleModuleAttribute(attributes: Result<map<string, string>>, input: SynItems.Item, me: ModuleEnv)
      returns (r: Result<SynItems.ItemImpl>)
      requires Valid()
      modifies this
      ensures Valid()
      ensures attributes.Err? ==> r == Err(attributes.msg) && modules == old(modules)
      ensures attributes.Ok? && !(attributes.value.Keys <= ModuleKeys) ==>
                && r.Err? && modules == old(modules)
                && exists k :: k in attributes.value && k !in ModuleKeys && r.msg == AttributeKeys.UnknownKeyMsg(k)
      ensures attributes.Ok? && attributes.value.Keys <= ModuleKeys ==>
                var h := HandleModule(attributes.value, input, me, old(modules));
                && (h.Ok? ==> r == Ok(h.value.2) && modules == old(modules)[h.value.0 := h.value.1])
                && (h.Err? ==> r == Err(h.msg) && modules == old(modules))
    {
      if attributes.Err? {
        return Err(attributes.msg);
      }
      var keys := AttributeKeys.CheckKeys(attributes.value, ModuleKeys);
      if keys.Err? {
        return Err(keys.msg);
      }
      if !input.ImplItemDecl? {
        return Err(ImplExpectedMsg);
      }
      var item := input.i;
      if !item.selfTy.PathType? {
        return Err(PathExpectedMsg);
      }
      var key := ModuleAttrs.PathText(item.selfTy.path);
      if key in modules {
        return Err(AlreadyDeclaredMsg);
      }
      var processed := ProcessItems(item.items, me);
      if processed.Err? {
        return Err(processed.msg);
      }
      modules := modules[key := LocalModule(key, processed.value.0, ProcessorParsing.Get(attributes.value, "path"))];
      return Ok(item.(items := processed.value.1));
    }

    /// `generate_manifest`: one module per record, in the map's unspecified
    /// order; the map is emptied.
    method GenerateManifest(basePath: string, currentCrate: string) returns (r: seq<Module>)
      modifies this
      ensures |r| == |old(modules).Keys|
      ensures forall k :: k in old(modules) ==> ModuleOf(old(modules)[k], basePath, currentCrate) in r
      ensures forall x :: x in r ==> exists k :: k in old(modules) && x == ModuleOf(old(modules)[k], basePath, currentCrate)
      ensures modules == map[]
    {
      r := [];
      var rest := modules.Keys;
      while rest != {}
        invariant rest <= modules.Keys
        invariant |r| + |rest| == |modules.Keys|
        invariant forall k :: k in modules.Keys - rest ==> ModuleOf(modules[k], basePath, currentCrate) in r
        invariant forall x :: x in r ==> exists k :: k in modules.Keys - rest && x == ModuleOf(modules[k], basePath, currentCrate)
        decreases |rest|
      {
        var k :| k in rest;
        var l := modules[k];
        var t := Epilogue.EpilogueType(basePath, l.additionalPath, l.name, currentCrate);
        r := r + [Module(t, l.providers)];
        rest := rest - {k};
      }
      modules := map[];
    }
  }
}
