// processor/src/injectables.rs: `#[injectable]` in the older, per-file
// generation. The handler records each annotated struct in a thread-local
// list under its bare name and strips the `#[inject]` markers from its
// fields; the epilogue turns the list into manifest entries at the file's
// base path and empties it; the code generator writes a `lockjaw_new`
// constructor for every injectable of the current crate.
module ProcessorInjectables {
  import opened Outcomes
  import opened Types
  import SynItems
  import Parsing
  import ProcessorParsing
  import ProtoTypes
  import opened ProtoManifest
  import Epilogue
  import Strs

  const StructExpectedMsg := "struct expected"
  const TupleMsg := "tuple injectable not supported"

  /// What the handler knows before the base path is resolved.
  datatype LocalInjectable = LocalInjectable(
    identifier: string,
    additionalPath: Option<string>,
    scopes: seq<TypeData>,
    fields: seq<Field>)

  // ---------------------------------------------------------------------------
  // Fields

  /// `parsing::is_attribute(attr, "inject")`.
  predicate IsInject(a: Parsing.Attribute)
  {
    ProcessorParsing.IsAttribute(a.meta.path, "inject")
  }

  predicate Injected(attrs: seq<Parsing.Attribute>)
  {
    exists j :: 0 <= j < |attrs| && IsInject(attrs[j])
  }

  /// The attributes of `attrs[i..]` the field keeps: every one but `inject`,
  /// in order.
  function KeptFrom(attrs: seq<Parsing.Attribute>, i: nat): (r: seq<Parsing.Attribute>)
    requires i <= |attrs|
    ensures |r| <= |attrs| - i
    ensures forall k :: 0 <= k < |r| ==> !IsInject(r[k])
    decreases |attrs| - i
  {
    if i == |attrs| then []
    else if IsInject(attrs[i]) then KeptFrom(attrs, i + 1)
    else [attrs[i]] + KeptFrom(attrs, i + 1)
  }

  /// The kept attributes are exactly the non-`inject` ones, and nothing is
  /// dropped when no `inject` is present.
  lemma {:induction false} KeptMembers(attrs: seq<Parsing.Attribute>, i: nat)
    requires i <= |attrs|
    ensures forall x :: x in KeptFrom(attrs, i) <==> exists j :: i <= j < |attrs| && !IsInject(attrs[j]) && x == attrs[j]
    ensures |KeptFrom(attrs, i)| == |attrs| - i <==> forall j :: i <= j < |attrs| ==> !IsInject(attrs[j])
    decreases |attrs| - i
  {
    if i < |attrs| {
      KeptMembers(attrs, i + 1);
    }
  }

  /// The field as the emitted struct has it.
  function Stripped(f: SynItems.Field): SynItems.Field
  {
    f.(attrs := KeptFrom(f.attrs, 0))
  }

  function StrippedFields(fs: seq<SynItems.Field>): (r: seq<SynItems.Field>)
    ensures |r| == |fs|
    ensures forall k :: 0 <= k < |fs| ==> r[k] == Stripped(fs[k])
  {
    seq(|fs|, k requires 0 <= k < |fs| => Stripped(fs[k]))
  }

  /// One iteration of the field loop: a name is required, then a type.
  function FieldOf(f: SynItems.Field, currentCrate: string): Result<Field>
  {
    var name :- OrError(f.ident, TupleMsg);
    var ty :- ProtoTypes.FromSynType(f.ty, currentCrate);
    Ok(Field(name, ty, Injected(f.attrs)))
  }

  /// The field loop from position `i`: the first failing field ends it.
  function ReadFields(fs: seq<SynItems.Field>, i: nat, currentCrate: string): (r: Result<seq<Field>>)
    requires i <= |fs|
    ensures r.Ok? ==> |r.value| == |fs| - i
    ensures r.Ok? ==> forall k :: 0 <= k < |r.value| ==> FieldOf(fs[i + k], currentCrate) == Ok(r.value[k])
    ensures r.Err? ==> exists k :: i <= k < |fs| && FieldOf(fs[k], currentCrate) == Err(r.msg)
                                 && forall j :: i <= j < k ==> FieldOf(fs[j], currentCrate).Ok?
    decreases |fs| - i
  {
    if i == |fs| then Ok([])
    else
      var f :- FieldOf(fs[i], currentCrate);
      var rest :- ReadFields(fs, i + 1, currentCrate);
      assert forall k :: 1 <= k < 1 + |rest| ==> ([f] + rest)[k] == rest[k - 1];
      Ok([f] + rest)
  }

  // ---------------------------------------------------------------------------
  // The handler

  /// `is_attribute(attr, "inject")` over a field's attributes: whether one
  /// is present, and the others in order.
  method StripInject(attrs: seq<Parsing.Attribute>) returns (injected: bool, kept: seq<Parsing.Attribute>)
    ensures injected == Injected(attrs)
    ensures kept == KeptFrom(attrs, 0)
  {
    injected := false;
    kept := [];
    var j := 0;
    while j < |attrs|
      invariant j <= |attrs|
      invariant kept + KeptFrom(attrs, j) == KeptFrom(attrs, 0)
      invariant injected <==> exists k :: 0 <= k < j && IsInject(attrs[k])
    {
      if ProcessorParsing.IsAttribute(attrs[j].meta.path, "inject") {
        injected := true;
      } else {
        assert (kept + [attrs[j]]) + KeptFrom(attrs, j + 1) == kept + ([attrs[j]] + KeptFrom(attrs, j + 1));
        kept := kept + [attrs[j]];
      }
      j := j + 1;
    }
    assert kept + [] == kept;
  }

  /// The `iter_mut` loop over the struct's fields: the recorded fields and
  /// the fields as they are left.
  method ReadStructFields(fs: seq<SynItems.Field>, cc: string) returns (r: Result<seq<Field>>, items: seq<SynItems.Field>)
    ensures r == ReadFields(fs, 0, cc)
    ensures r.Ok? ==> items == StrippedFields(fs)
  {
    items := fs;
    var fields: seq<Field> := [];
    var i := 0;
    PrependNothing(ReadFields(fs, 0, cc));
    while i < |items|
      invariant i <= |items| == |fs|
      invariant ReadFields(fs, 0, cc) == PrependValues(fields, ReadFields(fs, i, cc))
      invariant forall k :: i <= k < |items| ==> items[k] == fs[k]
      invariant forall k :: 0 <= k < i ==> items[k] == Stripped(fs[k])
    {
      var f := items[i];
      if f.ident.None? {
        return Err(TupleMsg), items;
      }
      var ty := ProtoTypes.FromSynType(f.ty, cc);
      if ty.Err? {
        return Err(ty.msg), items;
      }
      var injected, kept := StripInject(f.attrs);
      var field := Field(f.ident.value, ty.value, injected);
      assert FieldOf(f, cc) == Ok(field);
      PrependValuesTwice(fields, field, ReadFields(fs, i + 1, cc));
      fields := fields + [field];
      items := items[i := f.(attrs := kept)];
      i := i + 1;
    }
    assert fields + [] == fields;
    assert items == StrippedFields(fs);
    return Ok(fields), items;
  }

  /// `handle_injectable_attribute`: the record and the emitted struct.
  function Handle(attr: ProcessorParsing.TokenParse, input: SynItems.Item, env: ProcessorParsing.Env)
    : Result<(LocalInjectable, SynItems.ItemStruct)>
  {
    if !input.StructItem? then Err(StructExpectedMsg)
    else
      var s := input.s;
      var attributes :- ProcessorParsing.GetAttributes(attr);
      var scopes :- ProcessorParsing.GetTypes(ProcessorParsing.Get(attributes, "scope"), env.parsePath, env.currentCrate);
      var fields :- ReadFields(s.fields, 0, env.currentCrate);
      Ok((LocalInjectable(s.ident, ProcessorParsing.Get(attributes, "path"), scopes, fields),
          s.(fields := StrippedFields(s.fields))))
  }

  /// What a successful handler records: the struct's name, the `path`
  /// value, the `scope` types, and one field per struct field, named after
  /// it, with its type and marked injected exactly when it carries
  /// `#[inject]`; the emitted struct keeps every field and every attribute
  /// but `inject`.
  lemma HandleRecord(attr: ProcessorParsing.TokenParse, input: SynItems.Item, env: ProcessorParsing.Env)
    requires Handle(attr, input, env).Ok?
    ensures input.StructItem?
    ensures var (l, s) := Handle(attr, input, env).value;
            && ProcessorParsing.GetAttributes(attr).Ok?
            && var attributes := ProcessorParsing.GetAttributes(attr).value;
            && l.identifier == input.s.ident
            && l.additionalPath == ProcessorParsing.Get(attributes, "path")
            && Ok(l.scopes) == ProcessorParsing.GetTypes(ProcessorParsing.Get(attributes, "scope"), env.parsePath, env.currentCrate)
            && |l.fields| == |input.s.fields| == |s.fields|
            && s.ident == input.s.ident
            && forall k :: 0 <= k < |l.fields| ==>
                 && Some(l.fields[k].name) == input.s.fields[k].ident
                 && Ok(l.fields[k].ty) == ProtoTypes.FromSynType(input.s.fields[k].ty, env.currentCrate)
                 && (l.fields[k].injected <==> Injected(input.s.fields[k].attrs))
                 && s.fields[k].ident == input.s.fields[k].ident && s.fields[k].ty == input.s.fields[k].ty
                 && !Injected(s.fields[k].attrs)
                 && forall x :: x in s.fields[k].attrs <==> x in input.s.fields[k].attrs && !IsInject(x)
  {
    var (l, s) := Handle(attr, input, env).value;
    var fs := input.s.fields;
    forall k | 0 <= k < |l.fields|
      ensures Some(l.fields[k].name) == fs[k].ident
      ensures Ok(l.fields[k].ty) == ProtoTypes.FromSynType(fs[k].ty, env.currentCrate)
      ensures l.fields[k].injected <==> Injected(fs[k].attrs)
      ensures !Injected(s.fields[k].attrs)
      ensures forall x :: x in s.fields[k].attrs <==> x in fs[k].attrs && !IsInject(x)
    {
      assert FieldOf(fs[0 + k], env.currentCrate) == Ok(l.fields[k]);
      var kept := s.fields[k].attrs;
      assert kept == KeptFrom(fs[k].attrs, 0);
      assert forall j :: 0 <= j < |kept| ==> !IsInject(kept[j]);
      KeptMembers(fs[k].attrs, 0);
    }
  }

  /// The handler fails on a tuple struct field reached with no earlier
  /// failure, and with "struct expected" on anything but a struct.
  lemma HandleErrors(attr: ProcessorParsing.TokenParse, input: SynItems.Item, env: ProcessorParsing.Env)
    ensures !input.StructItem? ==> Handle(attr, input, env) == Err(StructExpectedMsg)
    ensures input.StructItem? && ProcessorParsing.GetAttributes(attr).Err? ==>
              Handle(attr, input, env) == Err(ProcessorParsing.GetAttributes(attr).msg)
    ensures input.StructItem? && |input.s.fields| > 0 && input.s.fields[0].ident.None?
            && ProcessorParsing.GetAttributes(attr).Ok?
            && ProcessorParsing.GetTypes(ProcessorParsing.Get(ProcessorParsing.GetAttributes(attr).value, "scope"),
                                         env.parsePath, env.currentCrate).Ok?
            ==> Handle(attr, input, env) == Err(TupleMsg)
  {
  }

  // ---------------------------------------------------------------------------
  // The generated constructor

  /// An argument of the struct literal in `lockjaw_new`: an injected field
  /// takes its parameter, any other field `<T>::default()`.
  datatype CtorArg = Pass(name: string) | DefaultValue(name: string, ty: TypeData)

  /// `impl<'a> Name<'a> { pub fn lockjaw_new(params) -> Self { Name{args} } }`,
  /// with the lifetime only when `lifetime` holds. A parameter of reference
  /// type is written `&'a T`.
  datatype LockjawNew = LockjawNew(name: TypeData, lifetime: bool, params: seq<Dependency>, args: seq<CtorArg>)

  /// The constructor parameters for `fields[i..]`: the injected fields, in
  /// order, each under its own name and type.
  function ParamsFrom(fields: seq<Field>, i: nat): (r: seq<Dependency>)
    requires i <= |fields|
    ensures forall x :: x in r <==> exists j :: i <= j < |fields| && fields[j].injected && x == Dependency(fields[j].name, fields[j].ty)
    decreases |fields| - i
  {
    if i == |fields| then []
    else
      var rest := ParamsFrom(fields, i + 1);
      if fields[i].injected then [Dependency(fields[i].name, fields[i].ty)] + rest else rest
  }

  function CtorArgOf(f: Field): CtorArg
  {
    if f.injected then Pass(f.name) else DefaultValue(f.name, f.ty)
  }

  /// One struct-literal argument per field of `fields[i..]`, in order.
  function CtorArgsFrom(fields: seq<Field>, i: nat): (r: seq<CtorArg>)
    requires i <= |fields|
    ensures |r| == |fields| - i
    ensures forall k :: 0 <= k < |r| ==> r[k] == CtorArgOf(fields[i + k])
    decreases |fields| - i
  {
    if i == |fields| then []
    else
      var rest := CtorArgsFrom(fields, i + 1);
      assert forall k :: 1 <= k < 1 + |rest| ==> ([CtorArgOf(fields[i])] + rest)[k] == rest[k - 1];
      [CtorArgOf(fields[i])] + rest
  }

  /// `has_ref`: some injected field has a reference type.
  predicate HasRef(fields: seq<Field>)
  {
    exists j :: 0 <= j < |fields| && fields[j].injected && fields[j].ty.fieldRef
  }

  function LockjawNewOf(inj: Injectable): LockjawNew
  {
    LockjawNew(inj.ty, HasRef(inj.fields), ParamsFrom(inj.fields, 0), CtorArgsFrom(inj.fields, 0))
  }

  /// The constructor is generic over `'a` exactly when one of its
  /// parameters is a reference, and every field is initialised: the
  /// injected ones from a parameter of the same name and type, the others
  /// by default.
  lemma LockjawNewShape(inj: Injectable)
    ensures var g := LockjawNewOf(inj);
            && (g.lifetime <==> exists k :: 0 <= k < |g.params| && g.params[k].ty.fieldRef)
            && |g.args| == |inj.fields|
            && forall k :: 0 <= k < |inj.fields| ==>
                 (inj.fields[k].injected ==> g.args[k] == Pass(inj.fields[k].name)
                                             && Dependency(inj.fields[k].name, inj.fields[k].ty) in g.params)
                 && (!inj.fields[k].injected ==> g.args[k] == DefaultValue(inj.fields[k].name, inj.fields[k].ty))
  {
    var g := LockjawNewOf(inj);
    var fs := inj.fields;
    if g.lifetime {
      var j :| 0 <= j < |fs| && fs[j].injected && fs[j].ty.fieldRef;
      var x := Dependency(fs[j].name, fs[j].ty);
      assert x in g.params;
      var k :| 0 <= k < |g.params| && g.params[k] == x;
    }
    if exists k :: 0 <= k < |g.params| && g.params[k].ty.fieldRef {
      var k :| 0 <= k < |g.params| && g.params[k].ty.fieldRef;
      assert g.params[k] in g.params;
      var j :| 0 <= j < |fs| && fs[j].injected && g.params[k] == Dependency(fs[j].name, fs[j].ty);
      assert fs[j].ty.fieldRef;
    }
    forall k | 0 <= k < |fs| && fs[k].injected
      ensures Dependency(fs[k].name, fs[k].ty) in g.params
    {
    }
  }

  /// `generate_injectable`: the parameter loop, then the struct-literal loop.
  method GenerateInjectable(inj: Injectable) returns (r: LockjawNew)
    ensures r == LockjawNewOf(inj)
  {
    var fs := inj.fields;
    var hasRef := false;
    var params: seq<Dependency> := [];
    var i := 0;
    while i < |fs|
      invariant i <= |fs|
      invariant params + ParamsFrom(fs, i) == ParamsFrom(fs, 0)
      invariant hasRef <==> exists j :: 0 <= j < i && fs[j].injected && fs[j].ty.fieldRef
    {
      if fs[i].injected {
        params := params + [Dependency(fs[i].name, fs[i].ty)];
        if fs[i].ty.fieldRef {
          hasRef := true;
        }
      }
      i := i + 1;
    }
    var args: seq<CtorArg> := [];
    i := 0;
    while i < |fs|
      invariant i <= |fs|
      invariant args + CtorArgsFrom(fs, i) == CtorArgsFrom(fs, 0)
    {
      if fs[i].injected {
        args := args + [Pass(fs[i].name)];
      } else {
        args := args + [DefaultValue(fs[i].name, fs[i].ty)];
      }
      i := i + 1;
    }
    assert params + [] == params && args + [] == args;
    return LockjawNew(inj.ty, hasRef, params, args);
  }

  /// How many of `injs[i..k]` belong to the current crate.
  function CrateCount(injs: seq<Injectable>, i: nat, k: nat, currentCrate: string): nat
    requires i <= k <= |injs|
    decreases k - i
  {
    if i == k then 0
    else (if injs[i].fieldCrate == currentCrate then 1 else 0) + CrateCount(injs, i + 1, k, currentCrate)
  }

  /// The constructors `generate_injectables` writes for `injs[i..]`: one
  /// for each injectable of the current crate.
  function Generated(injs: seq<Injectable>, i: nat, currentCrate: string): (r: seq<LockjawNew>)
    requires i <= |injs|
    ensures forall x :: x in r <==> exists k :: i <= k < |injs| && injs[k].fieldCrate == currentCrate && x == LockjawNewOf(injs[k])
    decreases |injs| - i
  {
    if i == |injs| then []
    else
      var rest := Generated(injs, i + 1, currentCrate);
      if injs[i].fieldCrate == currentCrate then [LockjawNewOf(injs[i])] + rest else rest
  }

  /// The constructors come in the manifest's order: there is one per
  /// injectable of the current crate, and the one for `injs[k]` comes after
  /// those for the current crate's injectables before it.
  lemma {:induction false} GeneratedInOrder(injs: seq<Injectable>, i: nat, currentCrate: string)
    requires i <= |injs|
    ensures |Generated(injs, i, currentCrate)| == CrateCount(injs, i, |injs|, currentCrate)
    ensures forall k :: i <= k < |injs| && injs[k].fieldCrate == currentCrate ==>
              CrateCount(injs, i, k, currentCrate) < |Generated(injs, i, currentCrate)|
              && Generated(injs, i, currentCrate)[CrateCount(injs, i, k, currentCrate)] == LockjawNewOf(injs[k])
    decreases |injs| - i
  {
    if i < |injs| {
      GeneratedInOrder(injs, i + 1, currentCrate);
    }
  }

  /// `generate_injectables`: injectables of other crates are skipped.
  method GenerateInjectables(m: Manifest, currentCrate: string) returns (r: seq<LockjawNew>)
    ensures r == Generated(m.injectables, 0, currentCrate)
  {
    var injs := m.injectables;
    r := [];
    var i := 0;
    while i < |injs|
      invariant i <= |injs|
      invariant r + Generated(injs, i, currentCrate) == Generated(injs, 0, currentCrate)
    {
      if injs[i].fieldCrate != currentCrate {
        i := i + 1;
        continue;
      }
      var tokens := GenerateInjectable(injs[i]);
      r := r + [tokens];
      i := i + 1;
    }
    assert r + [] == r;
  }

  // ---------------------------------------------------------------------------
  // The epilogue

  /// The manifest entry of a recorded injectable.
  function InjectableOf(l: LocalInjectable, basePath: string, currentCrate: string): Injectable
  {
    var t := Epilogue.EpilogueType(basePath, l.additionalPath, l.identifier, currentCrate);
    Injectable(t.(scopes := l.scopes), currentCrate, l.fields)
  }

  /// The entries of the whole list, in order.
  function ManifestOf(ls: seq<LocalInjectable>, basePath: string, currentCrate: string): (r: seq<Injectable>)
    ensures |r| == |ls|
    ensures forall k :: 0 <= k < |ls| ==> r[k] == InjectableOf(ls[k], basePath, currentCrate)
  {
    if ls == [] then []
    else
      var rest := ManifestOf(ls[1..], basePath, currentCrate);
      assert forall k :: 1 <= k < |ls| ==> ([InjectableOf(ls[0], basePath, currentCrate)] + rest)[k] == rest[k - 1];
      [InjectableOf(ls[0], basePath, currentCrate)] + rest
  }

  /// Each entry is a CRATE type of the current crate, owned by it, at
  /// `[base::][path::]name`, carrying the recorded scopes and fields.
  lemma ManifestEntry(l: LocalInjectable, basePath: string, currentCrate: string)
    ensures var inj := InjectableOf(l, basePath, currentCrate);
            && inj.fieldCrate == currentCrate && inj.ty.fieldCrate == currentCrate && inj.ty.root == Crate
            && inj.ty.path == Strs.Join(Epilogue.Pieces(basePath, l.additionalPath, l.identifier), "::")
            && inj.ty.scopes == l.scopes && inj.fields == l.fields && inj.ty.args == []
  {
    Epilogue.EpiloguePathIsJoin(basePath, l.additionalPath, l.identifier);
  }

  /// The thread-local `INJECTABLES` list.
  class InjectableRegistry {
    var injectables: seq<LocalInjectable>

    constructor ()
      ensures injectables == []
    {
      injectables := [];
    }

    /// `handle_injectable_attribute`: a successful call appends the record
    /// and returns the stripped struct; a failing one leaves the list as it
    /// was.
    method HandleInjectableAttribute(attr: ProcessorParsing.TokenParse, input: SynItems.Item, env: ProcessorParsing.Env)
      returns (r: Result<SynItems.ItemStruct>)
      modifies this
      ensures var h := Handle(attr, input, env);
              && (h.Ok? ==> r == Ok(h.value.1) && injectables == old(injectables) + [h.value.0])
              && (h.Err? ==> r == Err(h.msg) && injectables == old(injectables))
    {
      if !input.StructItem? {
        return Err(StructExpectedMsg);
      }
      var s := input.s;
      var cc := env.currentCrate;
      var attributes := ProcessorParsing.GetAttributes(attr);
      if attributes.Err? {
        return Err(attributes.msg);
      }
      var scopes := ProcessorParsing.GetTypes(ProcessorParsing.Get(attributes.value, "scope"), env.parsePath, cc);
      if scopes.Err? {
        return Err(scopes.msg);
      }
      var fields, items := ReadStructFields(s.fields, cc);
      if fields.Err? {
        return Err(fields.msg);
      }
      injectables := injectables + [LocalInjectable(s.ident, ProcessorParsing.Get(attributes.value, "path"), scopes.value, fields.value)];
      return Ok(s.(fields := items));
    }

    /// `generate_manifest`: one entry per record, in order; the list is
    /// emptied.
    method GenerateManifest(basePath: string, currentCrate: string) returns (r: seq<Injectable>)
      modifies this
      ensures r == ManifestOf(old(injectables), basePath, currentCrate)
      ensures injectables == []
    {
      r := [];
      var i := 0;
      while i < |injectables|
        invariant i <= |injectables|
        invariant |r| == i
        invariant forall k :: 0 <= k < i ==> r[k] == InjectableOf(injectables[k], basePath, currentCrate)
      {
        var l := injectables[i];
        var t := Epilogue.EpilogueType(basePath, l.additionalPath, l.identifier, currentCrate);
        r := r + [Injectable(t.(scopes := l.scopes), currentCrate, l.fields)];
        i := i + 1;
      }
      assert r == ManifestOf(injectables, basePath, currentCrate);
      injectables := [];
    }
  }
}
