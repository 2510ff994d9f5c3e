// The `use` handling of processor/src/prologue.rs. The prologue reads the
// source file as text: a use declaration's argument is taken apart by the
// pattern `^(::)?((\w[\w\d_]*::)*)(\{[\w\d\s,]*\}|[\w\d\s,]*)$`, written
// here as explicit splitting, and the names it imports are resolved with
// the same self/super/crate walk as the manifest parsers use.
module PrologueUse {
  import opened Outcomes
  import opened Types
  import opened Strs
  import opened UsePaths

  // ---------------------------------------------------------------------------
  // Characters

  /// `\w` (and `\d`, `_`, which it includes) on ASCII.
  predicate IsWordChar(c: char)
  {
    ('a' <= c <= 'z') || ('A' <= c <= 'Z') || ('0' <= c <= '9') || c == '_'
  }

  /// `\s` and `char::is_whitespace` on ASCII.
  predicate IsSpace(c: char)
  {
    c == ' ' || c == '\t' || c == '\n' || c == '\r' || c as int == 11 || c as int == 12
  }

  /// One character of `[\w\d\s,]`.
  predicate ListChar(c: char)
  {
    IsWordChar(c) || IsSpace(c) || c == ','
  }

  predicate AllListChars(s: string)
  {
    forall i :: 0 <= i < |s| ==> ListChar(s[i])
  }

  /// A non-empty run of word characters.
  predicate Word(s: string)
  {
    |s| > 0 && forall i :: 0 <= i < |s| ==> IsWordChar(s[i])
  }

  predicate NoColon(s: string)
  {
    forall i :: 0 <= i < |s| ==> s[i] != ':'
  }

  /// The longest prefix of word characters.
  function WordRun(s: string): (r: string)
    ensures r <= s
    ensures forall i :: 0 <= i < |r| ==> IsWordChar(r[i])
    ensures |r| < |s| ==> !IsWordChar(s[|r|])
  {
    if |s| > 0 && IsWordChar(s[0]) then [s[0]] + WordRun(s[1..]) else ""
  }

  /// A word followed by a non-word character (or nothing) is the word run.
  lemma {:induction false} WordRunOfWord(w: string, rest: string)
    requires Word(w) && (rest == "" || !IsWordChar(rest[0]))
    ensures WordRun(w + rest) == w
    decreases |w|
  {
    assert (w + rest)[0] == w[0];
    assert (w + rest)[1..] == w[1..] + rest;
    if |w| > 1 {
      WordRunOfWord(w[1..], rest);
    } else {
      assert w[1..] + rest == rest;
    }
  }

  // ---------------------------------------------------------------------------
  // Matching the use pattern

  /// The text the `segments` group covers: each segment followed by `::`.
  function SegmentText(segments: seq<string>): string
  {
    if |segments| == 0 then "" else segments[0] + "::" + SegmentText(segments[1..])
  }

  lemma PeelStep(r: string, w: string, segments: seq<string>, rem: string)
    requires |w| + 2 <= |r| && r[..|w|] == w && r[|w|..|w| + 2] == "::"
    requires r[|w| + 2..] == SegmentText(segments) + rem
    ensures r == SegmentText([w] + segments) + rem
  {
    assert ([w] + segments)[1..] == segments;
    assert r == r[..|w|] + r[|w|..|w| + 2] + r[|w| + 2..];
  }

  /// The `segments` group, taken greedily: a word followed by `::`, as
  /// often as the text allows. (The rest of the pattern holds no `:`, so
  /// the greedy choice is the only one that can match.)
  function PeelSegments(r: string): (p: (seq<string>, string))
    ensures r == SegmentText(p.0) + p.1
    ensures forall i :: 0 <= i < |p.0| ==> Word(p.0[i])
    decreases |r|
  {
    var w := WordRun(r);
    if |w| > 0 && StartsWith(r[|w|..], "::") then
      var p := PeelSegments(r[|w| + 2..]);
      PeelStep(r, w, p.0, p.1);
      assert forall i :: 1 <= i < |p.0| + 1 ==> ([w] + p.0)[i] == p.0[i - 1];
      ([w] + p.0, p.1)
    else ([], r)
  }

  /// The three captures of the pattern.
  datatype UseMatch = UseMatch(globalPrefix: bool, segments: seq<string>, remainder: string)

  /// The captures, before the remainder is checked: a leading `::` is the
  /// global prefix, then the segments.
  function SplitUse(text: string): (m: UseMatch)
    ensures m.globalPrefix == StartsWith(text, "::")
    ensures text == (if m.globalPrefix then "::" else "") + SegmentText(m.segments) + m.remainder
    ensures forall i :: 0 <= i < |m.segments| ==> Word(m.segments[i])
  {
    var g := StartsWith(text, "::");
    var r := if g then text[2..] else text;
    assert g ==> text == text[..2] + r;
    var p := PeelSegments(r);
    UseMatch(g, p.0, p.1)
  }

  /// The `remainder` group as written: a brace group of `[\w\d\s,]`, or
  /// `[\w\d\s,]` characters alone.
  predicate RemainderMatches(s: string)
  {
    (|s| >= 2 && s[0] == '{' && s[|s| - 1] == '}' && AllListChars(s[1..|s| - 1])) || AllListChars(s)
  }

  /// The pattern as written.
  function MatchUse(text: string): Option<UseMatch>
  {
    var m := SplitUse(text);
    if RemainderMatches(m.remainder) then Some(m) else None
  }

  /// The language of the pattern as written, with its captures: the text
  /// is the optional `::`, the segments each followed by `::`, and a
  /// remainder of the allowed form.
  predicate PatternParts(text: string, m: UseMatch)
  {
    && text == (if m.globalPrefix then "::" else "") + SegmentText(m.segments) + m.remainder
    && (forall i :: 0 <= i < |m.segments| ==> Word(m.segments[i]))
    && RemainderMatches(m.remainder)
  }

  lemma RemainderHasNoColon(s: string)
    requires RemainderMatches(s)
    ensures NoColon(s)
  {
    if |s| >= 2 && s[0] == '{' && s[|s| - 1] == '}' && AllListChars(s[1..|s| - 1]) {
      forall i | 0 <= i < |s|
        ensures s[i] != ':'
      {
        if 0 < i < |s| - 1 {
          assert s[1..|s| - 1][i - 1] == s[i];
        }
      }
    }
  }

  /// Peeling the text of words and a remainder free of `:` gives exactly
  /// those words and that remainder back.
  lemma {:induction false} PeelUnique(segments: seq<string>, rem: string)
    requires forall i :: 0 <= i < |segments| ==> Word(segments[i])
    requires NoColon(rem)
    ensures PeelSegments(SegmentText(segments) + rem) == (segments, rem)
    decreases |segments|
  {
    var r := SegmentText(segments) + rem;
    if |segments| == 0 {
      assert r == rem;
      var w := WordRun(rem);
      if |w| < |rem| {
        assert rem[|w|] != ':';
      }
    } else {
      var s0 := segments[0];
      var tail := SegmentText(segments[1..]) + rem;
      assert r == s0 + ("::" + tail);
      WordRunOfWord(s0, "::" + tail);
      assert r[|s0|..] == "::" + tail;
      assert r[|s0| + 2..] == tail;
      PeelUnique(segments[1..], rem);
      assert [s0] + segments[1..] == segments;
    }
  }

  /// The text of words followed by `::` and a remainder free of `:` does
  /// not start with a colon.
  lemma NoLeadingColon(segments: seq<string>, rem: string)
    requires forall i :: 0 <= i < |segments| ==> Word(segments[i])
    requires NoColon(rem)
    ensures var t := SegmentText(segments) + rem; |t| == 0 || t[0] != ':'
  {
    if |segments| > 0 {
      var s0 := segments[0];
      assert Word(s0);
      assert (SegmentText(segments) + rem)[0] == s0[0];
    }
  }

  /// A text that does not start with a colon does not start with `::`.
  lemma NotDoubleColon(t: string)
    requires |t| == 0 || t[0] != ':'
    ensures !StartsWith(t, "::")
  {
    if |t| >= 2 {
      assert t[..2][0] == t[0];
    }
  }

  /// The explicit splitting matches exactly the texts the pattern matches,
  /// with the same captures.
  lemma MatchUseIsPattern(text: string, m: UseMatch)
    ensures MatchUse(text) == Some(m) <==> PatternParts(text, m)
  {
    if PatternParts(text, m) {
      PatternIsSplit(text, m);
    }
  }

  /// The captures of a text in the pattern's language are the split ones.
  lemma PatternIsSplit(text: string, m: UseMatch)
    requires PatternParts(text, m)
    ensures SplitUse(text) == m
  {
    RemainderHasNoColon(m.remainder);
    if m.globalPrefix {
      SplitGlobal(m.segments, m.remainder);
    } else {
      SplitPlain(m.segments, m.remainder);
    }
  }

  /// Words each followed by `::`, then a rest without `:`, after `::`.
  lemma SplitGlobal(segments: seq<string>, rem: string)
    requires forall i :: 0 <= i < |segments| ==> Word(segments[i])
    requires NoColon(rem)
    ensures SplitUse("::" + SegmentText(segments) + rem) == UseMatch(true, segments, rem)
  {
    var body := SegmentText(segments) + rem;
    PeelUnique(segments, rem);
    SplitGlobalBody(body, segments, rem);
    assert "::" + SegmentText(segments) + rem == "::" + body;
  }

  /// A text with a leading `::` is split after it.
  lemma SplitGlobalBody(body: string, segments: seq<string>, rem: string)
    requires PeelSegments(body) == (segments, rem)
    ensures SplitUse("::" + body) == UseMatch(true, segments, rem)
  {
    var text := "::" + body;
    assert text[..2] == "::";
    assert text[2..] == body;
  }

  /// Words each followed by `::`, then a rest without `:`.
  lemma SplitPlain(segments: seq<string>, rem: string)
    requires forall i :: 0 <= i < |segments| ==> Word(segments[i])
    requires NoColon(rem)
    ensures SplitUse(SegmentText(segments) + rem) == UseMatch(false, segments, rem)
  {
    var body := SegmentText(segments) + rem;
    PeelUnique(segments, rem);
    NoLeadingColon(segments, rem);
    NotDoubleColon(body);
  }

  /// The characters the text of the segments holds: word characters and
  /// colons.
  lemma {:induction false} SegmentTextChars(segments: seq<string>)
    requires forall i :: 0 <= i < |segments| ==> Word(segments[i])
    ensures forall i :: 0 <= i < |SegmentText(segments)| ==>
              IsWordChar(SegmentText(segments)[i]) || SegmentText(segments)[i] == ':'
    decreases |segments|
  {
    if |segments| > 0 {
      SegmentTextChars(segments[1..]);
      var s0 := segments[0];
      var t := SegmentText(segments[1..]);
      forall i | 0 <= i < |SegmentText(segments)|
        ensures IsWordChar(SegmentText(segments)[i]) || SegmentText(segments)[i] == ':'
      {
        if i >= |s0| + 2 {
          assert SegmentText(segments)[i] == t[i - |s0| - 2];
        }
      }
    }
  }

  /// A remainder of the pattern as written holds no `*`.
  lemma RemainderHasNoStar(s: string)
    requires RemainderMatches(s)
    ensures forall i :: 0 <= i < |s| ==> s[i] != '*'
  {
    if |s| >= 2 && s[0] == '{' && s[|s| - 1] == '}' && AllListChars(s[1..|s| - 1]) {
      forall i | 0 <= i < |s|
        ensures s[i] != '*'
      {
        if 0 < i < |s| - 1 {
          assert s[1..|s| - 1][i - 1] == s[i];
        }
      }
    }
  }

  /// No text in the language of the pattern as written holds a `*`.
  lemma PatternHasNoStar(text: string, m: UseMatch)
    ensures PatternParts(text, m) ==> forall k :: 0 <= k < |text| ==> text[k] != '*'
  {
    if PatternParts(text, m) {
      SegmentTextChars(m.segments);
      RemainderHasNoStar(m.remainder);
      var pre := if m.globalPrefix then "::" else "";
      var seg := SegmentText(m.segments);
      forall k | 0 <= k < |text|
        ensures text[k] != '*'
      {
        if k < |pre| {
          assert text[k] == pre[k];
        } else if k < |pre| + |seg| {
          assert text[k] == seg[k - |pre|];
        } else {
          assert text[k] == m.remainder[k - |pre| - |seg|];
        }
      }
    }
  }

  /// A `*` anywhere in the text: the pattern as written does not match,
  /// so a glob import is never reached.
  lemma GlobNeverMatches(text: string, k: nat)
    requires k < |text| && text[k] == '*'
    ensures MatchUse(text) == None
  {
    var m := SplitUse(text);
    MatchUseIsPattern(text, m);
    PatternHasNoStar(text, m);
  }

  /// `[\w\d\s,*]`: the list characters with the glob star.
  predicate AllGlobListChars(s: string)
  {
    forall i :: 0 <= i < |s| ==> ListChar(s[i]) || s[i] == '*'
  }

  /// The `remainder` group as intended: a brace group may hold `*`, and a
  /// lone `*` is a remainder.
  predicate RemainderMatchesFixed(s: string)
  {
    (|s| >= 2 && s[0] == '{' && s[|s| - 1] == '}' && AllGlobListChars(s[1..|s| - 1]))
    || AllListChars(s) || s == "*"
  }

  /// The pattern with the corrected remainder.
  function MatchUseFixed(text: string): (r: Option<UseMatch>)
  {
    var m := SplitUse(text);
    if RemainderMatchesFixed(m.remainder) then Some(m) else None
  }

  // ---------------------------------------------------------------------------
  // get_use_items

  /// `str::trim_start` on ASCII whitespace.
  function TrimStart(s: string): (r: string)
    ensures |r| <= |s| && r == s[|s| - |r|..]
    ensures r == "" || !IsSpace(r[0])
    ensures forall j :: 0 <= j < |s| - |r| ==> IsSpace(s[j])
  {
    if |s| > 0 && IsSpace(s[0]) then TrimStart(s[1..]) else s
  }

  /// `str::trim_end` on ASCII whitespace.
  function TrimEnd(s: string): (r: string)
    ensures |r| <= |s| && r == s[..|r|]
    ensures r == "" || !IsSpace(r[|r| - 1])
    ensures forall j :: |r| <= j < |s| ==> IsSpace(s[j])
  {
    if |s| > 0 && IsSpace(s[|s| - 1]) then TrimEnd(s[..|s| - 1]) else s
  }

  /// `str::trim`: neither end of the result is whitespace.
  function Trim(s: string): (r: string)
    ensures |r| <= |s|
    ensures r == "" || (!IsSpace(r[0]) && !IsSpace(r[|r| - 1]))
  {
    TrimEnd(TrimStart(s))
  }

  /// The strings of a list that are not empty, in order.
  function NonEmpty(xs: seq<string>): (r: seq<string>)
    ensures |r| <= |xs|
    ensures forall i :: 0 <= i < |r| ==> r[i] != ""
    ensures forall x :: x in r <==> x in xs && x != ""
  {
    if |xs| == 0 then []
    else if xs[0] == "" then NonEmpty(xs[1..])
    else [xs[0]] + NonEmpty(xs[1..])
  }

  function TrimAll(xs: seq<string>): (r: seq<string>)
    ensures |r| == |xs| && forall i :: 0 <= i < |xs| ==> r[i] == Trim(xs[i])
  {
    if |xs| == 0 then [] else [Trim(xs[0])] + TrimAll(xs[1..])
  }

  /// The item strings of a remainder: a brace group is split on `,`, the
  /// empty pieces dropped and the rest trimmed (so a piece of whitespace
  /// alone becomes an empty item); anything else is one item as it is. A
  /// `{` without a closing `}` is the panic of `strip_suffix(..).unwrap()`.
  function ItemTexts(remainder: string): (r: Result<seq<string>>)
    ensures !StartsWith(remainder, "{") ==> r == Ok([remainder])
  {
    if !StartsWith(remainder, "{") then Ok([remainder])
    else if |remainder| < 2 || remainder[|remainder| - 1] != '}' then Err(UnwrapNonePanic)
    else Ok(TrimAll(NonEmpty(SplitChar(remainder[1..|remainder| - 1], ','))))
  }

  const AsSeparator := " as "

  /// One item string: `a as b` is item `a` named `b`, anything else is
  /// itself under its own name.
  function ItemOf(t: string): (r: UseItem)
    ensures !Contains(t, AsSeparator) ==> r == UseItem(t, t)
  {
    if Contains(t, AsSeparator) then
      SplitOnContains(t, AsSeparator);
      var parts := SplitOn(t, AsSeparator);
      UseItem(parts[0], parts[1])
    else UseItem(t, t)
  }

  /// `get_use_items`: the items in order, a `*` item skipped.
  function ItemsOf(texts: seq<string>): (r: seq<UseItem>)
    ensures |r| <= |texts|
  {
    if |texts| == 0 then []
    else if texts[0] == "*" then ItemsOf(texts[1..])
    else [ItemOf(texts[0])] + ItemsOf(texts[1..])
  }

  /// No separator in a string whose characters never start one.
  lemma {:induction false} SplitOnShort(s: string, sep: string)
    requires |sep| > 0 && forall i :: 0 <= i < |s| ==> s[i] != sep[0]
    ensures SplitOn(s, sep) == [s]
    decreases |s|
  {
    if |s| >= |sep| {
      assert s[..|sep|][0] == s[0];
      SplitOnShort(s[1..], sep);
      assert [s[0]] + s[1..] == s;
    }
  }

  /// The first piece ends where the first separator starts.
  lemma {:induction false} SplitOnFirst(a: string, sep: string, b: string)
    requires |sep| > 0 && forall i :: 0 <= i < |a| ==> a[i] != sep[0]
    ensures SplitOn(a + sep + b, sep) == [a] + SplitOn(b, sep)
    decreases |a|
  {
    var s := a + sep + b;
    if |a| == 0 {
      assert s == sep + b;
      assert s[..|sep|] == sep && s[|sep|..] == b;
    } else {
      assert s[..|sep|][0] == a[0];
      assert s[1..] == a[1..] + sep + b;
      SplitOnFirst(a[1..], sep, b);
      assert [a[0]] + a[1..] == a;
    }
  }

  /// `a as b` for two words is item `a` named `b`.
  lemma RenameItem(a: string, b: string)
    requires Word(a) && Word(b)
    ensures ItemOf(a + AsSeparator + b) == UseItem(a, b)
  {
    var t := a + AsSeparator + b;
    assert ContainsAt(t, AsSeparator, |a|) by {
      assert t[|a|..|a| + |AsSeparator|] == AsSeparator;
    }
    SplitOnFirst(a, AsSeparator, b);
    SplitOnShort(b, AsSeparator);
  }

  /// No item name holds ` as `, so the second split `process_use` applies
  /// to names never changes one.
  lemma {:induction false} ItemNamesHaveNoSeparator(texts: seq<string>)
    ensures forall i :: 0 <= i < |ItemsOf(texts)| ==> !Contains(ItemsOf(texts)[i].name, AsSeparator)
    decreases |texts|
  {
    if |texts| > 0 {
      ItemNamesHaveNoSeparator(texts[1..]);
      if texts[0] != "*" {
        var t := texts[0];
        if Contains(t, AsSeparator) {
          SplitOnPiecesAvoid(t, AsSeparator);
          SplitOnContains(t, AsSeparator);
          assert !Contains(SplitOn(t, AsSeparator)[1], AsSeparator);
        }
        var r := ItemsOf(texts);
        assert forall i :: 1 <= i < |r| ==> r[i] == ItemsOf(texts[1..])[i - 1];
      }
    }
  }

  // ---------------------------------------------------------------------------
  // process_use

  const UnableToHandleUse := "unable to handle use expression "

  /// Where a CRATE path starts: the segments of the base path, then the
  /// parent modules.
  function CrateStart(basePath: string, parents: seq<string>): seq<string>
  {
    NonEmpty(SplitOn(basePath, "::")) + parents
  }

  /// The names one matched use declaration imports. A leading `::` or a
  /// dependency crate as first segment is GLOBAL with the segments as they
  /// are; anything else is CRATE, walked from the base path and parents.
  /// Every item is inserted, an empty name included.
  function EntriesOf(m: UseMatch, deps: set<string>, basePath: string, parents: seq<string>, crateName: string)
    : Result<map<string, UsePath>>
  {
    var global := m.globalPrefix || (|m.segments| >= 1 && m.segments[0] in deps);
    var root := if global then Global else Crate;
    var path := if global then m.segments else Walk(CrateStart(basePath, parents), m.segments, 0);
    var texts :- ItemTexts(m.remainder);
    Ok(InsertItems(false, map[], ItemsOf(texts), root, m.segments, path, crateName))
  }

  /// `process_use` as written.
  function ProcessUseText(text: string, deps: set<string>, basePath: string, parents: seq<string>, crateName: string)
    : Result<map<string, UsePath>>
  {
    var m := MatchUse(text);
    if m.None? then Err(UnableToHandleUse + text) else EntriesOf(m.value, deps, basePath, parents, crateName)
  }

  /// `process_use` with the corrected pattern.
  function ProcessUseTextFixed(text: string, deps: set<string>, basePath: string, parents: seq<string>,
                               crateName: string): Result<map<string, UsePath>>
  {
    var m := MatchUseFixed(text);
    if m.None? then Err(UnableToHandleUse + text) else EntriesOf(m.value, deps, basePath, parents, crateName)
  }

  /// `process_use`.
  method ProcessUse(text: string, deps: set<string>, basePath: string, parents: seq<string>, crateName: string)
    returns (r: Result<map<string, UsePath>>)
    ensures r == ProcessUseText(text, deps, basePath, parents, crateName)
  {
    var matched := MatchUse(text);
    if matched.None? {
      return Err(UnableToHandleUse + text);
    }
    var m := matched.value;
    var path: seq<string> := [];
    var root: Root;
    if m.globalPrefix || (|m.segments| >= 1 && m.segments[0] in deps) {
      root := Global;
      path := m.segments;
    } else {
      root := Crate;
      path := WalkSegments(CrateStart(basePath, parents), m.segments);
    }
    var texts := ItemTexts(m.remainder);
    if texts.Err? {
      return Err(texts.msg);
    }
    var items := ItemsOf(texts.value);
    assert EntriesOf(m, deps, basePath, parents, crateName)
        == Ok(InsertItems(false, map[], items, root, m.segments, path, crateName));
    var entries := InsertLoop(false, items, root, m.segments, path, crateName);
    return Ok(entries);
  }

  /// As written, a glob import is an error.
  lemma GlobImportRejected(text: string, k: nat, deps: set<string>, basePath: string, parents: seq<string>,
                           crateName: string)
    requires k < |text| && text[k] == '*'
    ensures ProcessUseText(text, deps, basePath, parents, crateName) == Err(UnableToHandleUse + text)
  {
    GlobNeverMatches(text, k);
  }

  /// Corrected, `use a::b::*;` is accepted and imports nothing.
  lemma GlobImportIgnored(segments: seq<string>, deps: set<string>, basePath: string, parents: seq<string>,
                          crateName: string)
    requires forall i :: 0 <= i < |segments| ==> Word(segments[i])
    ensures ProcessUseTextFixed(SegmentText(segments) + "*", deps, basePath, parents, crateName) == Ok(map[])
  {
    GlobMatchesFixed(segments);
    GlobEntries(UseMatch(false, segments, "*"), deps, basePath, parents, crateName);
  }

  lemma GlobMatchesFixed(segments: seq<string>)
    requires forall i :: 0 <= i < |segments| ==> Word(segments[i])
    ensures MatchUseFixed(SegmentText(segments) + "*") == Some(UseMatch(false, segments, "*"))
  {
    assert NoColon("*");
    SplitPlain(segments, "*");
  }

  lemma GlobEntries(m: UseMatch, deps: set<string>, basePath: string, parents: seq<string>, crateName: string)
    requires m.remainder == "*"
    ensures EntriesOf(m, deps, basePath, parents, crateName) == Ok(map[])
  {
    assert !StartsWith("*", "{") by {
      assert "*"[..1][0] == '*';
    }
    assert ItemTexts("*") == Ok(["*"]);
    assert ItemsOf(["*"]) == [];
  }

  /// A word is one item under its own name.
  lemma WordItem(name: string)
    requires Word(name)
    ensures ItemTexts(name) == Ok([name])
    ensures ItemsOf([name]) == [UseItem(name, name)]
  {
    assert !StartsWith(name, "{") by {
      assert name[..1][0] == name[0];
    }
    forall i | 0 <= i <= |name|
      ensures !ContainsAt(name, AsSeparator, i)
    {
      if i + |AsSeparator| <= |name| {
        assert name[i..i + |AsSeparator|][0] == name[i];
      }
    }
    assert ItemOf(name) == UseItem(name, name);
  }

  /// One item is one entry.
  lemma InsertSingle(skipEmpty: bool, item: UseItem, root: Root, segments: seq<string>, path: seq<string>,
                     crateName: string)
    requires !Skipped(skipEmpty, item.name)
    ensures InsertItems(skipEmpty, map[], [item], root, segments, path, crateName)
            == map[item.name := Entry(item, root, segments, path, crateName)]
  {
    var m := map[item.name := Entry(item, root, segments, path, crateName)];
    assert [item][1..] == [];
    assert InsertItems(skipEmpty, m, [], root, segments, path, crateName) == m;
  }

  lemma WordMatches(segments: seq<string>, name: string)
    requires forall i :: 0 <= i < |segments| ==> Word(segments[i])
    requires Word(name)
    ensures MatchUse(SegmentText(segments) + name) == Some(UseMatch(false, segments, name))
  {
    assert NoColon(name);
    SplitPlain(segments, name);
    assert AllListChars(name);
  }

  /// `use dep::a::Name;` for a dependency `dep`: the name is GLOBAL, in
  /// crate `dep`, at the segments followed by the name.
  lemma GlobalUseText(segments: seq<string>, name: string, deps: set<string>, basePath: string,
                      parents: seq<string>, crateName: string)
    requires |segments| > 0 && segments[0] in deps && forall i :: 0 <= i < |segments| ==> Word(segments[i])
    requires Word(name) && name != "self"
    ensures ProcessUseText(SegmentText(segments) + name, deps, basePath, parents, crateName)
            == Ok(map[name := UsePath(segments[0], Join(segments + [name], "::"), Global)])
  {
    WordMatches(segments, name);
    WordItem(name);
    var item := UseItem(name, name);
    EntryPath(item, Global, segments, segments, crateName);
    InsertSingle(false, item, Global, segments, segments, crateName);
  }

  /// List characters without a colon stay so when joined.
  lemma ListConcat(a: string, b: string)
    requires AllListChars(a) && NoColon(a) && AllListChars(b) && NoColon(b)
    ensures AllListChars(a + b) && NoColon(a + b)
  {
    forall i | 0 <= i < |a + b|
      ensures ListChar((a + b)[i]) && (a + b)[i] != ':'
    {
      if i >= |a| {
        assert (a + b)[i] == b[i - |a|];
      }
    }
  }

  lemma SeparatorChars()
    ensures AllListChars(AsSeparator) && NoColon(AsSeparator)
  {
    assert AsSeparator == [' ', 'a', 's', ' '];
  }

  /// `item as name` for two words is a remainder of the pattern.
  lemma RenameMatches(segments: seq<string>, item: string, name: string)
    requires forall i :: 0 <= i < |segments| ==> Word(segments[i])
    requires Word(item) && Word(name)
    ensures MatchUse(SegmentText(segments) + (item + AsSeparator + name))
            == Some(UseMatch(false, segments, item + AsSeparator + name))
  {
    SeparatorChars();
    ListConcat(item, AsSeparator);
    ListConcat(item + AsSeparator, name);
    var t := item + AsSeparator + name;
    SplitPlain(segments, t);
  }

  /// `use dep::a::Item as Name;` for a dependency `dep`: the name `Name` is
  /// GLOBAL, in crate `dep`, at the segments followed by `Item`.
  lemma GlobalRenameText(segments: seq<string>, item: string, name: string, deps: set<string>,
                         basePath: string, parents: seq<string>, crateName: string)
    requires |segments| > 0 && segments[0] in deps && forall i :: 0 <= i < |segments| ==> Word(segments[i])
    requires Word(item) && Word(name) && item != "self"
    ensures ProcessUseText(SegmentText(segments) + (item + AsSeparator + name), deps, basePath, parents, crateName)
            == Ok(map[name := UsePath(segments[0], Join(segments + [item], "::"), Global)])
  {
    RenameMatches(segments, item, name);
    RenameEntries(segments, item, name, deps, basePath, parents, crateName);
  }

  lemma RenameEntries(segments: seq<string>, item: string, name: string, deps: set<string>,
                      basePath: string, parents: seq<string>, crateName: string)
    requires |segments| > 0 && segments[0] in deps
    requires Word(item) && Word(name) && item != "self"
    ensures EntriesOf(UseMatch(false, segments, item + AsSeparator + name), deps, basePath, parents, crateName)
            == Ok(map[name := UsePath(segments[0], Join(segments + [item], "::"), Global)])
  {
    var t := item + AsSeparator + name;
    assert t[0] == item[0];
    RenameItem(item, name);
    var u := UseItem(item, name);
    SingleItemText(t, u);
    EntryPath(u, Global, segments, segments, crateName);
    InsertSingle(false, u, Global, segments, segments, crateName);
  }

  /// A text that is not a brace group and not `*` is the one item it
  /// spells.
  lemma SingleItemText(t: string, u: UseItem)
    requires |t| > 0 && t[0] != '{' && t[0] != '*' && ItemOf(t) == u
    ensures ItemTexts(t) == Ok([t]) && ItemsOf([t]) == [u]
  {
    assert !StartsWith(t, "{") by {
      assert t[..1][0] == t[0];
    }
    assert t != "*" by {
      assert "*"[0] == '*';
    }
    assert [t][1..] == [];
  }
}
