// processor/src/parsing.rs: the older generation's attribute reading, where
// arguments are `key = "value"` pairs and type lists are comma-separated
// strings. Turning text into tokens and tokens into `syn` values is the
// `parse` and `parsePath` input.
module ProcessorParsing {
  import opened Outcomes
  import opened Syn
  import opened Types
  import opened Strs
  import ProtoTypes

  /// A literal of `key = literal`: a string, or any other kind.
  datatype Lit = StrLit(s: string) | OtherLit

  /// `syn::MetaNameValue`.
  datatype NameValue = NameValue(path: SynPath, lit: Lit)

  /// What the text inside the parentheses becomes: not tokens at all,
  /// tokens that are not a `key = literal, ...` list, or such a list.
  datatype TokenParse = NotTokens | NotNameValues | NameValues(pairs: seq<NameValue>)

  /// What the processor reads from its environment: `environment::current_crate()`
  /// and `syn::parse_str::<syn::Path>` applied to a string.
  datatype Env = Env(currentCrate: string, parsePath: string -> Option<SynPath>)

  /// `HashMap::get` on an attribute map.
  function Get(attributes: map<string, string>, key: string): Option<string>
  {
    if key in attributes then Some(attributes[key]) else None
  }

  const OpenMsg := "'(' expected at start"
  const CloseMsg := "')' expected at end"
  const TokensMsg := "cannot parse string to tokens"
  const NameValueMsg := "MetaNameValue (key=\"value\", ...) expected"
  const NotIdentMsg := "path is not an identifier"
  const StringLitMsg := "string literal expected"
  /// `syn::parse_str(..).expect("cannot parse type string")`.
  const TypeStringPanic := "panic: cannot parse type string"

  /// `is_attribute`: a single-segment path whose identifier is `name`.
  function IsAttribute(path: SynPath, name: string): (r: bool)
    ensures r ==> |path.segments| == 1
  {
    |path.segments| == 1 && path.segments[0].ident == name
  }

  /// `Path::get_ident`: the identifier of a path of one segment with no
  /// leading "::" and no arguments.
  function GetIdent(p: SynPath): (r: Option<string>)
    ensures r.Some? <==> !p.leadingColon && |p.segments| == 1 && p.segments[0].arguments.NoArgs?
  {
    if !p.leadingColon && |p.segments| == 1 && p.segments[0].arguments.NoArgs? then Some(p.segments[0].ident)
    else None
  }

  /// The loop of `get_attributes` continued from `acc`: each pair inserted
  /// in order, the first bad key or value an error.
  function InsertPairs(pairs: seq<NameValue>, acc: map<string, string>): Result<map<string, string>>
    decreases |pairs|
  {
    if pairs == [] then Ok(acc)
    else
      var key :- OrError(GetIdent(pairs[0].path), NotIdentMsg);
      if !pairs[0].lit.StrLit? then Err(StringLitMsg)
      else InsertPairs(pairs[1..], acc[key := pairs[0].lit.s])
  }

  /// `get_attributes` on what its argument tokens parse to.
  function GetAttributes(t: TokenParse): Result<map<string, string>>
  {
    match t
    case NotTokens => Err(TokensMsg)
    case NotNameValues => Err(NameValueMsg)
    case NameValues(pairs) => InsertPairs(pairs, map[])
  }

  /// `get_parenthesized_attributes`: the text of the attribute's
  /// arguments must be wrapped in parentheses, and what is inside is read by
  /// `get_attributes`; no text gives no attributes.
  function GetParenthesizedAttributes(text: string, parse: string -> TokenParse): (r: Result<map<string, string>>)
    ensures text == [] ==> r == Ok(map[])
    ensures text != [] && !StartsWith(text, "(") ==> r == Err(OpenMsg)
    ensures StartsWith(text, "(") && !EndsWith(text[1..], ")") ==> r == Err(CloseMsg)
    ensures StartsWith(text, "(") && EndsWith(text[1..], ")") ==>
              r == GetAttributes(parse(text[1..|text| - 1]))
  {
    if text == [] then Ok(map[])
    else if !StartsWith(text, "(") then Err(OpenMsg)
    else
      var inner := text[1..];
      if !EndsWith(inner, ")") then Err(CloseMsg)
      else
        assert inner[..|inner| - 1] == text[1..|text| - 1];
        GetAttributes(parse(inner[..|inner| - 1]))
  }

  /// The pair loop succeeds exactly when every key is an identifier and
  /// every value a string literal.
  lemma {:induction false} InsertPairsAccepts(pairs: seq<NameValue>, acc: map<string, string>)
    ensures InsertPairs(pairs, acc).Ok? <==>
              forall j :: 0 <= j < |pairs| ==> GetIdent(pairs[j].path).Some? && pairs[j].lit.StrLit?
    decreases |pairs|
  {
    if pairs != [] && GetIdent(pairs[0].path).Some? && pairs[0].lit.StrLit? {
      var tail := pairs[1..];
      InsertPairsAccepts(tail, acc[GetIdent(pairs[0].path).value := pairs[0].lit.s]);
      assert forall j :: 1 <= j < |pairs| ==> pairs[j] == tail[j - 1];
    }
  }

  /// A key maps to the value of the last pair that names it.
  lemma {:induction false} InsertPairsLast(pairs: seq<NameValue>, acc: map<string, string>, j: nat)
    requires InsertPairs(pairs, acc).Ok? && LastKey(pairs, j)
    ensures var r := InsertPairs(pairs, acc).value;
            pairs[j].lit.StrLit? && GetIdent(pairs[j].path).value in r
            && r[GetIdent(pairs[j].path).value] == pairs[j].lit.s
    decreases |pairs|
  {
    var key := GetIdent(pairs[0].path).value;
    var tail := pairs[1..];
    var acc' := acc[key := pairs[0].lit.s];
    assert InsertPairs(pairs, acc) == InsertPairs(tail, acc');
    if j > 0 {
      assert tail[j - 1] == pairs[j];
      assert LastKey(tail, j - 1) by {
        forall j' | j - 1 < j' < |tail|
          ensures GetIdent(tail[j'].path) != GetIdent(tail[j - 1].path)
        {
          assert tail[j'] == pairs[j' + 1];
        }
      }
      InsertPairsLast(tail, acc', j - 1);
    } else {
      assert KeyAbsent(tail, key) by {
        forall j' | 0 <= j' < |tail|
          ensures GetIdent(tail[j'].path) != Some(key)
        {
          assert pairs[j' + 1] == tail[j'];
        }
      }
      InsertPairsKeeps(tail, acc', key);
    }
  }

  /// An existing key that no pair names keeps its value.
  lemma {:induction false} InsertPairsKeeps(pairs: seq<NameValue>, acc: map<string, string>, k: string)
    requires InsertPairs(pairs, acc).Ok? && k in acc && KeyAbsent(pairs, k)
    ensures var r := InsertPairs(pairs, acc).value;
            k in r && r[k] == acc[k]
    decreases |pairs|
  {
    if pairs != [] {
      var key := GetIdent(pairs[0].path).value;
      var tail := pairs[1..];
      var acc' := acc[key := pairs[0].lit.s];
      assert InsertPairs(pairs, acc) == InsertPairs(tail, acc');
      assert KeyAbsent(tail, k) by {
        forall j | 0 <= j < |tail|
          ensures GetIdent(tail[j].path) != Some(k)
        {
          assert pairs[j + 1] == tail[j];
        }
      }
      InsertPairsKeeps(tail, acc', k);
    }
  }

  /// Pair `j` is the last one with its key.
  ghost predicate LastKey(pairs: seq<NameValue>, j: int)
  {
    0 <= j < |pairs| && GetIdent(pairs[j].path).Some?
    && forall j' :: j < j' < |pairs| ==> GetIdent(pairs[j'].path) != GetIdent(pairs[j].path)
  }

  /// No pair has the key `k`.
  ghost predicate KeyAbsent(pairs: seq<NameValue>, k: string)
  {
    forall j :: 0 <= j < |pairs| ==> GetIdent(pairs[j].path) != Some(k)
  }

  /// The loop of `get_attributes`.
  method GetAttributesLoop(t: TokenParse) returns (r: Result<map<string, string>>)
    ensures r == GetAttributes(t)
  {
    if t.NotTokens? {
      return Err(TokensMsg);
    }
    if t.NotNameValues? {
      return Err(NameValueMsg);
    }
    var pairs := t.pairs;
    var result := map[];
    var i := 0;
    while i < |pairs|
      invariant i <= |pairs|
      invariant InsertPairs(pairs[i..], result) == InsertPairs(pairs, map[])
    {
      assert pairs[i..][0] == pairs[i] && pairs[i..][1..] == pairs[i + 1..];
      var key := GetIdent(pairs[i].path);
      if key.None? {
        return Err(NotIdentMsg);
      }
      if !pairs[i].lit.StrLit? {
        return Err(StringLitMsg);
      }
      result := result[key.value := pairs[i].lit.s];
      i := i + 1;
    }
    return Ok(result);
  }

  // ---------------------------------------------------------------------------
  // get_types

  /// Each piece parsed as a path and read as a type, in order: an
  /// unparsable piece panics, the first type error is returned.
  function PieceTypes(pieces: seq<string>, parsePath: string -> Option<SynPath>, currentCrate: string)
    : (r: Result<seq<TypeData>>)
    ensures r.Ok? ==> |r.value| == |pieces|
    ensures r.Ok? ==> forall j :: 0 <= j < |pieces| ==>
                        parsePath(pieces[j]).Some?
                        && ProtoTypes.FromPath(parsePath(pieces[j]).value, currentCrate) == Ok(r.value[j])
  {
    if pieces == [] then Ok([])
    else
      var p :- OrError(parsePath(pieces[0]), TypeStringPanic);
      var h :- ProtoTypes.FromPath(p, currentCrate);
      var rest :- PieceTypes(pieces[1..], parsePath, currentCrate);
      assert forall j :: 1 <= j < |pieces| ==> pieces[j] == pieces[1..][j - 1];
      Ok([h] + rest)
  }

  /// `get_types`: no string gives no types; otherwise one type per
  /// comma-separated piece.
  function GetTypes(types: Option<string>, parsePath: string -> Option<SynPath>, currentCrate: string)
    : (r: Result<seq<TypeData>>)
    ensures types.None? ==> r == Ok([])
    ensures types.Some? && r.Ok? ==> |r.value| == |SplitChar(types.value, ',')|
  {
    if types.None? then Ok([])
    else PieceTypes(SplitChar(types.value, ','), parsePath, currentCrate)
  }

  /// A list with no comma is a single type.
  lemma GetTypesSingle(s: string, parsePath: string -> Option<SynPath>, currentCrate: string)
    requires forall i :: 0 <= i < |s| ==> s[i] != ','
    requires parsePath(s).Some? && ProtoTypes.FromPath(parsePath(s).value, currentCrate).Ok?
    ensures GetTypes(Some(s), parsePath, currentCrate)
            == Ok([ProtoTypes.FromPath(parsePath(s).value, currentCrate).value])
  {
    SplitNoSep(s, ',');
    var t := ProtoTypes.FromPath(parsePath(s).value, currentCrate).value;
    assert [s][1..] == [];
    assert PieceTypes([s][1..], parsePath, currentCrate) == Ok([]);
    assert [t] + [] == [t];
  }

  lemma {:induction false} SplitNoSep(s: string, sep: char)
    requires forall i :: 0 <= i < |s| ==> s[i] != sep
    ensures SplitChar(s, sep) == [s]
  {
    if |s| > 0 {
      SplitNoSep(s[1..], sep);
      assert [s[0]] + s[1..] == s;
    }
  }
}
