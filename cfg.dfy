// common/src/attributes/cfg.rs: the `#[cfg(...)]` predicates lockjaw
// evaluates while it walks a crate's source. The cargo environment
// (`CARGO_CFG_*`) is an explicit map from variable name to value.
module Cfg {
  import opened Outcomes
  import opened Strs

  /// The literal after `=` in an option: a string or anything else.
  datatype Lit = StrLit(value: string) | OtherLit

  /// The token shapes that can follow an identifier inside `cfg(...)`:
  /// nothing, `= <literal>`, or a parenthesized comma-separated list.
  datatype Tail = Bare | Eq(lit: Lit) | Paren(items: seq<RawCfg>)

  /// One comma-separated item of the attribute's tokens.
  datatype RawCfg = RawCfg(ident: string, tail: Tail)

  /// `ConfigurationPredicate`.
  datatype Predicate =
    | CfgOption(identifier: string, lit: Option<Lit>)
    | CfgAll(list: seq<Predicate>)
    | CfgAny(list: seq<Predicate>)
    | CfgNot(operand: Predicate)

  const ExpectedParens := "expected parentheses"
  /// syn's wording of an error at the end of the tokens being parsed.
  const EndPrefix := "unexpected end of input, "
  const ExpectedIdent := "expected identifier"
  const UnexpectedToken := "unexpected token"
  const ExpectedComma := "expected `,`"
  const NotPresentPanic := "panic: called `Result::unwrap()` on an `Err` value: NotPresent"

  // ---------------------------------------------------------------------------
  // Parsing

  /// `ConfigurationPredicate::parse`: the keywords `all`, `any` and `not`
  /// need a parenthesized list (`not` exactly one predicate); any other
  /// identifier is an option, optionally followed by `= literal`. `top`
  /// tells whether the item is parsed on its own (the whole input, or the
  /// operand of `not`), where leftover tokens are "unexpected", or as an
  /// item of a list, where a comma is expected. `atEnd` tells whether
  /// nothing follows the item where it stands, so that a missing token is
  /// reported as the end of the input.
  function Parse(raw: RawCfg, top: bool, atEnd: bool): (r: Result<Predicate>)
    ensures r.Ok? && r.value.CfgOption? ==>
              r.value.identifier == raw.ident && raw.ident != "all" && raw.ident != "any" && raw.ident != "not"
    ensures r.Ok? && raw.tail.Paren? ==> raw.ident == "all" || raw.ident == "any" || raw.ident == "not"
    ensures (raw.ident == "all" || raw.ident == "any" || raw.ident == "not") && !raw.tail.Paren? ==>
              r == Err(if atEnd && raw.tail.Bare? then EndPrefix + ExpectedParens else ExpectedParens)
    ensures raw.ident == "not" && raw.tail == Paren([]) ==> r == Err(EndPrefix + ExpectedIdent)
    decreases raw, 1
  {
    if raw.ident == "all" || raw.ident == "any" then
      if !raw.tail.Paren? then Err(if atEnd && raw.tail.Bare? then EndPrefix + ExpectedParens else ExpectedParens)
      else
        var list :- ParseList(raw.tail.items);
        Ok(if raw.ident == "all" then CfgAll(list) else CfgAny(list))
    else if raw.ident == "not" then
      if !raw.tail.Paren? then Err(if atEnd && raw.tail.Bare? then EndPrefix + ExpectedParens else ExpectedParens)
      else if |raw.tail.items| == 0 then Err(EndPrefix + ExpectedIdent)
      else
        var inner :- Parse(raw.tail.items[0], true, |raw.tail.items| == 1);
        if |raw.tail.items| > 1 then Err(UnexpectedToken) else Ok(CfgNot(inner))
    else
      match raw.tail
      case Bare => Ok(CfgOption(raw.ident, None))
      case Eq(lit) => Ok(CfgOption(raw.ident, Some(lit)))
      case Paren(_) => if top then Err(UnexpectedToken) else Err(ExpectedComma)
  }

  /// `parse_terminated` over the items of a parenthesized list.
  function ParseList(items: seq<RawCfg>): (r: Result<seq<Predicate>>)
    ensures r.Ok? ==> |r.value| == |items|
    decreases items, 0
  {
    if |items| == 0 then Ok([])
    else
      var head :- Parse(items[0], false, |items| == 1);
      var rest :- ParseList(items[1..]);
      Ok([head] + rest)
  }

  /// The parser's dispatch: the leading keyword decides the kind.
  lemma ParseDispatch(raw: RawCfg, top: bool, atEnd: bool)
    requires Parse(raw, top, atEnd).Ok?
    ensures raw.ident == "all" <==> Parse(raw, top, atEnd).value.CfgAll?
    ensures raw.ident == "any" <==> Parse(raw, top, atEnd).value.CfgAny?
    ensures raw.ident == "not" <==> Parse(raw, top, atEnd).value.CfgNot?
    ensures Parse(raw, top, atEnd).value.CfgOption? ==>
              Parse(raw, top, atEnd).value.identifier == raw.ident
              && (raw.tail.Bare? <==> Parse(raw, top, atEnd).value.lit.None?)
  {
  }

  // ---------------------------------------------------------------------------
  // Evaluation as written

  /// ASCII `to_uppercase`.
  function Upper(s: string): (r: string)
    ensures |r| == |s|
    ensures forall i :: 0 <= i < |s| ==> ('a' <= s[i] <= 'z' ==> r[i] as int == s[i] as int - 32)
    ensures forall i :: 0 <= i < |s| ==> (!('a' <= s[i] <= 'z') ==> r[i] == s[i])
  {
    if |s| == 0 then ""
    else [if 'a' <= s[0] <= 'z' then (s[0] as int - 32) as char else s[0]] + Upper(s[1..])
  }

  /// The environment variable cargo sets for a configuration key.
  function EnvName(identifier: string): (r: string)
    ensures StartsWith(r, "CARGO_CFG_")
    ensures '-' !in r[|"CARGO_CFG_"|..]
  {
    ReplaceCharRemoves(Upper(identifier), '-', '_');
    "CARGO_CFG_" + ReplaceChar(Upper(identifier), '-', '_')
  }

  /// `CfgEval::eval` as written: `test` is the test flag; `key = "v"`
  /// reads the variable with `unwrap`, which panics when it is unset;
  /// a bare key (or a non-string literal) asks whether the variable is set.
  /// `all` and `any` stop at the first false and the first true.
  function Eval(p: Predicate, cfgTest: bool, env: map<string, string>): (r: Result<bool>)
    ensures r.Err? ==> r.msg == NotPresentPanic
  {
    match p
    case CfgOption(identifier, lit) =>
      if identifier == "test" then Ok(cfgTest)
      else if lit.Some? && lit.value.StrLit? then
        if EnvName(identifier) !in env then Err(NotPresentPanic)
        else Ok(lit.value.value in SplitChar(env[EnvName(identifier)], ','))
      else Ok(EnvName(identifier) in env)
    case CfgAll(list) => EvalAll(list, cfgTest, env)
    case CfgAny(list) => EvalAny(list, cfgTest, env)
    case CfgNot(q) =>
      var b :- Eval(q, cfgTest, env);
      Ok(!b)
  }

  function EvalAll(list: seq<Predicate>, cfgTest: bool, env: map<string, string>): (r: Result<bool>)
    ensures r.Err? ==> r.msg == NotPresentPanic
  {
    if |list| == 0 then Ok(true)
    else
      var b :- Eval(list[0], cfgTest, env);
      if !b then Ok(false) else EvalAll(list[1..], cfgTest, env)
  }

  function EvalAny(list: seq<Predicate>, cfgTest: bool, env: map<string, string>): (r: Result<bool>)
    ensures r.Err? ==> r.msg == NotPresentPanic
  {
    if |list| == 0 then Ok(false)
    else
      var b :- Eval(list[0], cfgTest, env);
      if b then Ok(true) else EvalAny(list[1..], cfgTest, env)
  }

  /// A `key = "value"` option whose variable cargo did not set: the
  /// evaluation panics instead of answering false.
  lemma UnsetVariablePanicsFor(identifier: string, value: string, cfgTest: bool, env: map<string, string>)
    requires identifier != "test" && EnvName(identifier) !in env
    ensures Eval(CfgOption(identifier, Some(StrLit(value))), cfgTest, env) == Err(NotPresentPanic)
    ensures EvalFixed(CfgOption(identifier, Some(StrLit(value))), cfgTest, env) == false
  {
  }

  /// `#[cfg(feature = "x")]` in a crate built without any feature: cargo
  /// sets no `CARGO_CFG_FEATURE`, and the evaluation panics.
  lemma UnsetVariablePanics()
    ensures Eval(CfgOption("feature", Some(StrLit("x"))), false, map[]) == Err(NotPresentPanic)
    ensures EvalFixed(CfgOption("feature", Some(StrLit("x"))), false, map[]) == false
  {
    var env: map<string, string> := map[];
    assert |"feature"| != |"test"|;
    UnsetVariablePanicsFor("feature", "x", false, env);
  }

  // ---------------------------------------------------------------------------
  // Evaluation as intended

  /// The list of values a variable holds; an unset variable holds none.
  function Values(env: map<string, string>, name: string): seq<string>
  {
    if name in env then SplitChar(env[name], ',') else []
  }

  /// `eval` with an unset variable read as holding no value.
  function EvalFixed(p: Predicate, cfgTest: bool, env: map<string, string>): (r: bool)
    ensures p.CfgOption? && p.identifier != "test" && EnvName(p.identifier) !in env ==> !r
  {
    match p
    case CfgOption(identifier, lit) =>
      if identifier == "test" then cfgTest
      else if lit.Some? && lit.value.StrLit? then lit.value.value in Values(env, EnvName(identifier))
      else EnvName(identifier) in env
    case CfgAll(list) => forall i :: 0 <= i < |list| ==> EvalFixed(list[i], cfgTest, env)
    case CfgAny(list) => exists i :: 0 <= i < |list| && EvalFixed(list[i], cfgTest, env)
    case CfgNot(q) => !EvalFixed(q, cfgTest, env)
  }

  /// The fixed evaluation's meaning for each form: `all` of nothing is
  /// true, `any` of nothing is false, `not` negates, `test` is the flag,
  /// `key = "v"` holds iff v is one of the comma-separated values.
  lemma EvalFixedForms(p: Predicate, cfgTest: bool, env: map<string, string>)
    ensures p == CfgAll([]) ==> EvalFixed(p, cfgTest, env)
    ensures p == CfgAny([]) ==> !EvalFixed(p, cfgTest, env)
    ensures EvalFixed(CfgNot(CfgNot(p)), cfgTest, env) == EvalFixed(p, cfgTest, env)
    ensures p.CfgOption? && p.identifier == "test" ==> EvalFixed(p, cfgTest, env) == cfgTest
    ensures p.CfgOption? && p.identifier != "test" && p.lit.Some? && p.lit.value.StrLit? ==>
              (EvalFixed(p, cfgTest, env) <==>
                 EnvName(p.identifier) in env && p.lit.value.value in SplitChar(env[EnvName(p.identifier)], ','))
  {
  }

  /// Wherever the written evaluation returns an answer, it is the intended
  /// one; the two differ only where it panics.
  lemma {:induction false} EvalAgrees(p: Predicate, cfgTest: bool, env: map<string, string>)
    requires Eval(p, cfgTest, env).Ok?
    ensures Eval(p, cfgTest, env).value == EvalFixed(p, cfgTest, env)
    decreases p, 0
  {
    match p
    case CfgOption(_, _) =>
    case CfgAll(list) => EvalAllAgrees(list, cfgTest, env);
    case CfgAny(list) => EvalAnyAgrees(list, cfgTest, env);
    case CfgNot(q) => EvalAgrees(q, cfgTest, env);
  }

  lemma {:induction false} EvalAllAgrees(list: seq<Predicate>, cfgTest: bool, env: map<string, string>)
    requires EvalAll(list, cfgTest, env).Ok?
    ensures EvalAll(list, cfgTest, env).value <==> forall i :: 0 <= i < |list| ==> EvalFixed(list[i], cfgTest, env)
    decreases list, 1
  {
    if |list| > 0 {
      EvalAgrees(list[0], cfgTest, env);
      if Eval(list[0], cfgTest, env).value {
        EvalAllAgrees(list[1..], cfgTest, env);
        assert forall i :: 1 <= i < |list| ==> list[i] == list[1..][i - 1];
      }
    }
  }

  lemma {:induction false} EvalAnyAgrees(list: seq<Predicate>, cfgTest: bool, env: map<string, string>)
    requires EvalAny(list, cfgTest, env).Ok?
    ensures EvalAny(list, cfgTest, env).value <==> exists i :: 0 <= i < |list| && EvalFixed(list[i], cfgTest, env)
    decreases list, 1
  {
    if |list| > 0 {
      EvalAgrees(list[0], cfgTest, env);
      if !Eval(list[0], cfgTest, env).value {
        EvalAnyAgrees(list[1..], cfgTest, env);
        assert forall i :: 1 <= i < |list| ==> list[i] == list[1..][i - 1];
      }
    }
  }

  /// With every variable the predicate reads set, the written evaluation
  /// cannot panic.
  ghost predicate AllSet(p: Predicate, env: map<string, string>)
  {
    match p
    case CfgOption(identifier, lit) => identifier == "test" || EnvName(identifier) in env || !(lit.Some? && lit.value.StrLit?)
    case CfgAll(list) => forall i :: 0 <= i < |list| ==> AllSet(list[i], env)
    case CfgAny(list) => forall i :: 0 <= i < |list| ==> AllSet(list[i], env)
    case CfgNot(q) => AllSet(q, env)
  }

  lemma {:induction false} AllSetNeverPanics(p: Predicate, cfgTest: bool, env: map<string, string>)
    requires AllSet(p, env)
    ensures Eval(p, cfgTest, env).Ok?
    decreases p, 0
  {
    match p
    case CfgOption(_, _) =>
    case CfgAll(list) => ListNeverPanics(list, cfgTest, env);
    case CfgAny(list) => ListNeverPanics(list, cfgTest, env);
    case CfgNot(q) => AllSetNeverPanics(q, cfgTest, env);
  }

  lemma {:induction false} ListNeverPanics(list: seq<Predicate>, cfgTest: bool, env: map<string, string>)
    requires forall i :: 0 <= i < |list| ==> AllSet(list[i], env)
    ensures EvalAll(list, cfgTest, env).Ok? && EvalAny(list, cfgTest, env).Ok?
    decreases list, 1
  {
    if |list| > 0 {
      AllSetNeverPanics(list[0], cfgTest, env);
      assert forall i :: 0 <= i < |list[1..]| ==> list[1..][i] == list[i + 1];
      ListNeverPanics(list[1..], cfgTest, env);
    }
  }
}
