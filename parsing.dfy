// common/src/parsing.rs: reading an attribute's name and its
// `key: value, ...` arguments. The `syn` parse of the argument tokens is the
// `FieldTokens` input; what lockjaw does with the parsed fields is modelled.
module Parsing {
  import opened Outcomes
  import opened Syn
  import opened Types
  import TypeParse

  /// `syn::Member`: `name: value` or `0: value`.
  datatype Member = Named(name: string) | Unnamed(index: nat)

  /// The expressions a field value is written as. An integer literal is its
  /// value (a literal has no sign); a float keeps its text, since floating
  /// point is not modelled.
  datatype Expr =
    | LitStr(s: string)
    | LitBool(b: bool)
    | LitInt(value: nat)
    | LitFloat(text: string)
    | LitOther
    | ExprPath(path: SynPath)
    | ExprArray(elems: seq<Expr>)
    | ExprStruct(fields: seq<SynField>)
    | ExprOther

  datatype SynField = SynField(member: Member, expr: Expr)

  /// The tokens of an attribute's argument list: none, a list that parses as
  /// `member: expr, ...`, or tokens that do not.
  datatype FieldTokens = NoTokens | Fields(fields: seq<SynField>) | NotFields

  /// `syn::Meta`: `#[a]`, `#[a(...)]`, `#[a = ...]`. The tokens of a list
  /// are given both as a field list and as a path (`None` when they are
  /// empty or do not parse as one).
  datatype Meta =
    | MetaPath(path: SynPath)
    | MetaList(path: SynPath, tokens: FieldTokens, asPath: Option<SynPath>)
    | MetaNameValue(path: SynPath)

  datatype Attribute = Attribute(meta: Meta)

  /// `FieldValue`.
  datatype FieldValue =
    | StringLiteral(s: string)
    | IntLiteral(v: int)
    | FloatLiteral(text: string)
    | BoolLiteral(b: bool)
    | PathValue(path: SynPath)
    | ArrayValue(items: seq<FieldValue>)
    | FieldValues(fields: map<string, FieldValue>)

  const ListExpectedMsg := "list expected"
  const FieldListMsg := "FieldValue (key: value, ...) expected"
  const UnnamedMsg := "field should have named member"
  const IntParseMsg := "unable to parse integer to i64"
  /// "unable to handle literal value {:?}"; the `Debug` text is not modelled.
  const LiteralMsg := "unable to handle literal value"
  /// "invalid field value {:?}"; the `Debug` text is not modelled.
  const InvalidValueMsg := "invalid field value"
  const PathExpectedMsg := "path expected"
  const NotPathInArrayMsg := "field in array is not a path"
  const PathOrArrayMsg := "path or [path, ...] expected"

  const I64Max: int := 0x7fff_ffff_ffff_ffff

  // ---------------------------------------------------------------------------
  // Attribute names

  /// `get_attribute`: the identifier of a single-segment path, else "".
  function GetAttribute(a: Attribute): string
  {
    var segs := a.meta.path.segments;
    if |segs| != 1 then "" else segs[0].ident
  }

  /// `is_attribute`: the attribute's name is `name`. A path of several
  /// segments has the name "", so it matches "" and nothing else.
  function IsAttribute(a: Attribute, name: string): (r: bool)
    ensures var segs := a.meta.path.segments;
            r <==> (|segs| == 1 && segs[0].ident == name) || (|segs| != 1 && name == "")
  {
    GetAttribute(a) == name
  }

  /// `find_attribute` from position `i`: the first attribute named `name`.
  function FindAttribute(attrs: seq<Attribute>, name: string, i: nat): (r: Option<nat>)
    requires i <= |attrs|
    ensures r.Some? ==> i <= r.value < |attrs| && IsAttribute(attrs[r.value], name)
    ensures r.Some? ==> forall j :: i <= j < r.value ==> !IsAttribute(attrs[j], name)
    ensures r.None? ==> forall j :: i <= j < |attrs| ==> !IsAttribute(attrs[j], name)
    decreases |attrs| - i
  {
    if i == |attrs| then None
    else if IsAttribute(attrs[i], name) then Some(i)
    else FindAttribute(attrs, name, i + 1)
  }

  /// `has_attribute`: some attribute is named `name`.
  function HasAttribute(attrs: seq<Attribute>, name: string): (r: bool)
    ensures r <==> exists j :: 0 <= j < |attrs| && IsAttribute(attrs[j], name)
  {
    FindAttribute(attrs, name, 0).Some?
  }

  // ---------------------------------------------------------------------------
  // Field values

  /// `parse_field_value`.
  function ParseFieldValue(e: Expr): Result<FieldValue>
    decreases e
  {
    match e
    case LitStr(s) => Ok(StringLiteral(s))
    case LitBool(b) => Ok(BoolLiteral(b))
    case LitInt(v) => if v <= I64Max then Ok(IntLiteral(v)) else Err(IntParseMsg)
    case LitFloat(t) => Ok(FloatLiteral(t))
    case LitOther => Err(LiteralMsg)
    case ExprPath(p) => Ok(PathValue(p))
    case ExprArray(es) =>
      var vs :- ParseArray(es);
      Ok(ArrayValue(vs))
    case ExprStruct(fs) =>
      var m :- ParseFieldsInto(fs, map[]);
      Ok(FieldValues(m))
    case ExprOther => Err(InvalidValueMsg)
  }

  /// The loop over an array's elements: each parsed in order, the first
  /// error returned.
  function ParseArray(es: seq<Expr>): (r: Result<seq<FieldValue>>)
    ensures r.Ok? <==> forall j :: 0 <= j < |es| ==> ParseFieldValue(es[j]).Ok?
    ensures r.Ok? ==> |r.value| == |es| && forall j :: 0 <= j < |es| ==> r.value[j] == ParseFieldValue(es[j]).value
    decreases es
  {
    if es == [] then Ok([])
    else
      assert es[0] in es;
      var h :- ParseFieldValue(es[0]);
      var t :- ParseArray(es[1..]);
      assert forall j :: 1 <= j < |es| ==> es[j] == es[1..][j - 1];
      Ok([h] + t)
  }

  /// `parse_punctuated_field_values` continued from the map `acc`: each
  /// named field inserted in order, so a repeated key keeps its last value.
  function ParseFieldsInto(fs: seq<SynField>, acc: map<string, FieldValue>): Result<map<string, FieldValue>>
    decreases fs
  {
    if fs == [] then Ok(acc)
    else if fs[0].member.Unnamed? then Err(UnnamedMsg)
    else
      assert fs[0] in fs && fs[0].expr < fs[0];
      var v :- ParseFieldValue(fs[0].expr);
      ParseFieldsInto(fs[1..], acc[fs[0].member.name := v])
  }

  /// Field `j` is the last one with its member.
  ghost predicate LastNamed(fs: seq<SynField>, j: int)
  {
    0 <= j < |fs| && forall j' :: j < j' < |fs| ==> fs[j'].member != fs[j].member
  }

  /// The names of the named fields.
  ghost function Names(fs: seq<SynField>): set<string>
  {
    set j | 0 <= j < |fs| && fs[j].member.Named? :: fs[j].member.name
  }

  ghost function Members(fs: seq<SynField>): set<Member>
  {
    set j | 0 <= j < |fs| :: fs[j].member
  }

  /// What the field loop computes: it succeeds exactly when every member is
  /// named and every value parses; the keys are the existing ones and the
  /// field names; a name takes the value of its last field, and a key no
  /// field names keeps its value.
  lemma {:induction false} ParseFieldsMeaning(fs: seq<SynField>, acc: map<string, FieldValue>)
    ensures ParseFieldsInto(fs, acc).Ok? <==>
              forall j :: 0 <= j < |fs| ==> fs[j].member.Named? && ParseFieldValue(fs[j].expr).Ok?
    ensures ParseFieldsInto(fs, acc).Ok? ==>
              var r := ParseFieldsInto(fs, acc).value;
              && r.Keys == acc.Keys + Names(fs)
              && (forall j :: LastNamed(fs, j) ==> r[fs[j].member.name] == ParseFieldValue(fs[j].expr).value)
              && (forall k :: k in acc && Named(k) !in Members(fs) ==> r[k] == acc[k])
    decreases |fs|
  {
    if fs != [] && fs[0].member.Named? && ParseFieldValue(fs[0].expr).Ok? {
      var name := fs[0].member.name;
      var acc' := acc[name := ParseFieldValue(fs[0].expr).value];
      var tail := fs[1..];
      ParseFieldsMeaning(tail, acc');
      assert forall j :: 1 <= j < |fs| ==> fs[j] == tail[j - 1];
      if ParseFieldsInto(fs, acc).Ok? {
        var r := ParseFieldsInto(fs, acc).value;
        assert r == ParseFieldsInto(tail, acc').value;
        NamesCons(fs);
        forall j | LastNamed(fs, j)
          ensures r[fs[j].member.name] == ParseFieldValue(fs[j].expr).value
        {
          if j > 0 {
            assert LastNamed(tail, j - 1);
          } else {
            assert Named(name) !in Members(tail) by {
              forall j' | 0 <= j' < |tail|
                ensures tail[j'].member != Named(name)
              {
                assert fs[j' + 1] == tail[j'];
              }
            }
          }
        }
        forall k | k in acc && Named(k) !in Members(fs)
          ensures r[k] == acc[k]
        {
          assert fs[0].member in Members(fs);
          assert Named(k) !in Members(tail) by {
            forall j | 0 <= j < |tail|
              ensures tail[j].member != Named(k)
            {
              assert fs[j + 1] == tail[j];
              assert fs[j + 1].member in Members(fs);
            }
          }
        }
      }
    }
  }

  lemma NamesCons(fs: seq<SynField>)
    requires fs != [] && fs[0].member.Named?
    ensures Names(fs) == {fs[0].member.name} + Names(fs[1..])
  {
    var tail := fs[1..];
    forall n | n in Names(fs)
      ensures n == fs[0].member.name || n in Names(tail)
    {
      var j :| 0 <= j < |fs| && fs[j].member.Named? && fs[j].member.name == n;
      if j > 0 {
        assert tail[j - 1] == fs[j];
      }
    }
    forall n | n in Names(tail)
      ensures n in Names(fs)
    {
      var j :| 0 <= j < |tail| && tail[j].member.Named? && tail[j].member.name == n;
      assert fs[j + 1] == tail[j];
    }
  }

  /// `parse_punctuated_field_values`, the loop of the source.
  method ParsePunctuatedFieldValues(fs: seq<SynField>) returns (r: Result<map<string, FieldValue>>)
    ensures r == ParseFieldsInto(fs, map[])
  {
    var result := map[];
    var i := 0;
    while i < |fs|
      invariant i <= |fs|
      invariant ParseFieldsInto(fs[i..], result) == ParseFieldsInto(fs, map[])
    {
      assert fs[i..][0] == fs[i] && fs[i..][1..] == fs[i + 1..];
      if fs[i].member.Unnamed? {
        return Err(UnnamedMsg);
      }
      var v := ParseFieldValue(fs[i].expr);
      if v.Err? {
        return Err(v.msg);
      }
      result := result[fs[i].member.name := v.value];
      i := i + 1;
    }
    return Ok(result);
  }

  /// `get_attribute_field_values`.
  function GetAttributeFieldValues(t: FieldTokens): (r: Result<map<string, FieldValue>>)
    ensures t.NoTokens? ==> r == Ok(map[])
    ensures t.NotFields? ==> r == Err(FieldListMsg)
    ensures t.Fields? ==> r == ParseFieldsInto(t.fields, map[])
  {
    match t
    case NoTokens => Ok(map[])
    case NotFields => Err(FieldListMsg)
    case Fields(fs) => ParseFieldsInto(fs, map[])
  }

  /// `get_parenthesized_field_values`: `#[a]` has no fields, `#[a(...)]` is
  /// read as a field list, `#[a = ...]` is rejected.
  function GetParenthesizedFieldValues(m: Meta): (r: Result<map<string, FieldValue>>)
    ensures m.MetaPath? ==> r == Ok(map[])
    ensures m.MetaNameValue? ==> r == Err(ListExpectedMsg)
    ensures m.MetaList? ==> r == GetAttributeFieldValues(m.tokens)
  {
    match m
    case MetaPath(_) => Ok(map[])
    case MetaList(_, t, _) => GetAttributeFieldValues(t)
    case MetaNameValue(_) => Err(ListExpectedMsg)
  }

  /// A repeated key keeps the value written last.
  lemma RepeatedKeyKeepsLast(name: string, first: Expr, last: Expr)
    requires ParseFieldValue(first).Ok? && ParseFieldValue(last).Ok?
    ensures GetAttributeFieldValues(Fields([SynField(Named(name), first), SynField(Named(name), last)]))
            == Ok(map[name := ParseFieldValue(last).value])
  {
    var fs := [SynField(Named(name), first), SynField(Named(name), last)];
    var m1 := map[name := ParseFieldValue(first).value];
    var m2 := m1[name := ParseFieldValue(last).value];
    assert fs[1..] == [SynField(Named(name), last)];
    assert fs[1..][1..] == [];
    assert ParseFieldsInto(fs[1..][1..], m2) == Ok(m2);
    assert ParseFieldsInto(fs[1..], m1) == Ok(m2);
    assert ParseFieldsInto(fs, map[]) == Ok(m2);
    assert m2 == map[name := ParseFieldValue(last).value];
  }

  // ---------------------------------------------------------------------------
  // Paths and types

  /// `get_type`: the tokens must be a path, which is read as a type.
  function GetType(asPath: Option<SynPath>, sc: TypeParse.Scope): (r: Result<TypeData>)
    ensures asPath.None? ==> r == Err(PathExpectedMsg)
    ensures asPath.Some? ==> r == TypeParse.FromPath(asPath.value, sc)
  {
    if asPath.None? then Err(PathExpectedMsg) else TypeParse.FromPath(asPath.value, sc)
  }

  /// `FieldValue::get_paths`: a path alone, or an array all of whose
  /// elements are paths; anything else is "path expected".
  function GetPaths(v: FieldValue): (r: Result<seq<SynPath>>)
    ensures r.Err? ==> r.msg == PathExpectedMsg
    ensures v.PathValue? ==> r == Ok([v.path])
    ensures v.ArrayValue? ==>
              (r.Ok? <==> forall j :: 0 <= j < |v.items| ==> v.items[j].PathValue?)
    ensures v.ArrayValue? && r.Ok? ==>
              |r.value| == |v.items| && forall j :: 0 <= j < |v.items| ==> r.value[j] == v.items[j].path
    ensures !v.PathValue? && !v.ArrayValue? ==> r.Err?
  {
    match v
    case PathValue(p) => Ok([p])
    case ArrayValue(items) => ArrayPaths(items)
    case _ => Err(PathExpectedMsg)
  }

  function ArrayPaths(items: seq<FieldValue>): (r: Result<seq<SynPath>>)
    ensures r.Err? ==> r.msg == PathExpectedMsg
    ensures r.Ok? <==> forall j :: 0 <= j < |items| ==> items[j].PathValue?
    ensures r.Ok? ==> |r.value| == |items| && forall j :: 0 <= j < |items| ==> r.value[j] == items[j].path
  {
    if items == [] then Ok([])
    else if !items[0].PathValue? then Err(PathExpectedMsg)
    else
      var rest :- ArrayPaths(items[1..]);
      assert forall j :: 1 <= j < |items| ==> items[j] == items[1..][j - 1];
      Ok([items[0].path] + rest)
  }

  /// Each path read as a type in order, the first error returned.
  function TypesOf(ps: seq<SynPath>, sc: TypeParse.Scope): (r: Result<seq<TypeData>>)
    ensures r.Ok? <==> forall j :: 0 <= j < |ps| ==> TypeParse.FromPath(ps[j], sc).Ok?
    ensures r.Ok? ==> |r.value| == |ps| && forall j :: 0 <= j < |ps| ==> r.value[j] == TypeParse.FromPath(ps[j], sc).value
  {
    if ps == [] then Ok([])
    else
      var h :- TypeParse.FromPath(ps[0], sc);
      var rest :- TypesOf(ps[1..], sc);
      assert forall j :: 1 <= j < |ps| ==> ps[j] == ps[1..][j - 1];
      Ok([h] + rest)
  }

  /// `FieldValue::get_types`: all paths collected first, then each read as
  /// a type.
  function FieldValueTypes(v: FieldValue, sc: TypeParse.Scope): Result<seq<TypeData>>
  {
    var ps :- GetPaths(v);
    TypesOf(ps, sc)
  }

  /// `get_types`: no value gives no types, a path one type, an array one
  /// type per element in order; a non-path element is an error where it
  /// stands.
  function GetTypes(v: Option<FieldValue>, sc: TypeParse.Scope): Result<seq<TypeData>>
  {
    if v.None? then Ok([])
    else match v.value
      case PathValue(p) =>
        var t :- TypeParse.FromPath(p, sc);
        Ok([t])
      case ArrayValue(items) => ArrayTypes(items, sc)
      case _ => Err(PathOrArrayMsg)
  }

  function ArrayTypes(items: seq<FieldValue>, sc: TypeParse.Scope): Result<seq<TypeData>>
  {
    if items == [] then Ok([])
    else if !items[0].PathValue? then Err(NotPathInArrayMsg)
    else
      var h :- TypeParse.FromPath(items[0].path, sc);
      var rest :- ArrayTypes(items[1..], sc);
      Ok([h] + rest)
  }

  /// The array loop of `get_types` succeeds exactly when every element is a
  /// path that reads as a type, and then gives those types in order.
  lemma {:induction false} ArrayTypesMeaning(items: seq<FieldValue>, sc: TypeParse.Scope)
    ensures var r := ArrayTypes(items, sc);
            r.Ok? <==> forall j :: 0 <= j < |items| ==> items[j].PathValue? && TypeParse.FromPath(items[j].path, sc).Ok?
    ensures var r := ArrayTypes(items, sc);
            r.Ok? ==> |r.value| == |items|
                      && forall j :: 0 <= j < |items| ==> r.value[j] == TypeParse.FromPath(items[j].path, sc).value
  {
    if items != [] {
      ArrayTypesMeaning(items[1..], sc);
      assert forall j :: 1 <= j < |items| ==> items[j] == items[1..][j - 1];
    }
  }

  /// One step of the array loop, at position `i`.
  lemma ArrayTypesUnfold(items: seq<FieldValue>, i: nat, sc: TypeParse.Scope)
    requires i < |items|
    ensures ArrayTypes(items[i..], sc)
            == if !items[i].PathValue? then Err(NotPathInArrayMsg)
               else
                 var h := TypeParse.FromPath(items[i].path, sc);
                 if h.Err? then Err(h.msg)
                 else PrependValues([h.value], ArrayTypes(items[i + 1..], sc))
  {
    assert items[i..][0] == items[i] && items[i..][1..] == items[i + 1..];
  }

  /// The loop of `get_types`.
  method GetTypesLoop(v: Option<FieldValue>, sc: TypeParse.Scope) returns (r: Result<seq<TypeData>>)
    ensures r == GetTypes(v, sc)
  {
    if v.None? {
      return Ok([]);
    }
    match v.value {
      case PathValue(p) =>
        var t := TypeParse.FromPath(p, sc);
        if t.Err? {
          return Err(t.msg);
        }
        return Ok([t.value]);
      case ArrayValue(items) =>
        r := ArrayTypesLoop(items, sc);
      case _ =>
        return Err(PathOrArrayMsg);
    }
  }

  method ArrayTypesLoop(items: seq<FieldValue>, sc: TypeParse.Scope) returns (r: Result<seq<TypeData>>)
    ensures r == ArrayTypes(items, sc)
  {
    var result: seq<TypeData> := [];
    var i := 0;
    assert items[i..] == items;
    assert ArrayTypes(items, sc).Ok? ==> result + ArrayTypes(items, sc).value == ArrayTypes(items, sc).value;
    while i < |items|
      invariant i <= |items|
      invariant ArrayTypes(items, sc) == PrependValues(result, ArrayTypes(items[i..], sc))
    {
      ArrayTypesUnfold(items, i, sc);
      if !items[i].PathValue? {
        return Err(NotPathInArrayMsg);
      }
      var t := TypeParse.FromPath(items[i].path, sc);
      if t.Err? {
        return Err(t.msg);
      }
      PrependValuesTwice(result, t.value, ArrayTypes(items[i + 1..], sc));
      result := result + [t.value];
      i := i + 1;
    }
    assert items[i..] == [];
    assert result + [] == result;
    return Ok(result);
  }

  /// The two readers agree on what they accept and return the same types;
  /// they differ only in which error a bad array reports.
  lemma GetTypesAgree(v: FieldValue, sc: TypeParse.Scope)
    requires v.PathValue? || v.ArrayValue?
    ensures GetTypes(Some(v), sc).Ok? <==> FieldValueTypes(v, sc).Ok?
    ensures GetTypes(Some(v), sc).Ok? ==> GetTypes(Some(v), sc) == FieldValueTypes(v, sc)
  {
    if v.ArrayValue? {
      var items := v.items;
      var ps := ArrayPaths(items);
      ArrayTypesMeaning(items, sc);
      if ps.Ok? {
        var f := TypesOf(ps.value, sc);
        assert forall j :: 0 <= j < |items| ==> TypeParse.FromPath(ps.value[j], sc) == TypeParse.FromPath(items[j].path, sc);
        var g := ArrayTypes(items, sc);
        if g.Ok? && f.Ok? {
          assert g.value == f.value;
        }
      }
    } else {
      var p := v.path;
      assert [p][1..] == [];
      var t := TypeParse.FromPath(p, sc);
      if t.Ok? {
        assert TypesOf([p], sc) == Ok([t.value] + []);
        assert [t.value] + [] == [t.value];
      }
    }
  }
}
