// String helpers shared by the rendering and path-resolution modules:
// joining, splitting, prefix tests and the two shapes of `str::replace` that
// the source uses (a single character, and the two-character "::").
module Strs {

  /// `parts.join(sep)`.
  function Join(parts: seq<string>, sep: string): string
  {
    if |parts| == 0 then ""
    else if |parts| == 1 then parts[0]
    else parts[0] + sep + Join(parts[1..], sep)
  }

  predicate StartsWith(s: string, p: string)
  {
    |p| <= |s| && s[..|p|] == p
  }

  predicate EndsWith(s: string, p: string)
  {
    |p| <= |s| && s[|s| - |p|..] == p
  }

  /// `s` contains `p` at some position.
  predicate ContainsAt(s: string, p: string, i: nat)
  {
    i + |p| <= |s| && s[i..i + |p|] == p
  }

  predicate Contains(s: string, p: string)
  {
    exists i :: 0 <= i <= |s| && ContainsAt(s, p, i)
  }

  /// `s.replace(c, d)` for a one-character pattern and a one-character replacement.
  function ReplaceChar(s: string, c: char, d: char): (r: string)
    ensures |r| == |s|
    ensures forall i :: 0 <= i < |s| ==> r[i] == if s[i] == c then d else s[i]
  {
    if |s| == 0 then "" else [if s[0] == c then d else s[0]] + ReplaceChar(s[1..], c, d)
  }

  /// `s.replace("::", [d])`: leftmost, non-overlapping occurrences of "::" become `d`.
  function ReplaceColons(s: string, d: char): string
  {
    if |s| < 2 then s
    else if s[0] == ':' && s[1] == ':' then [d] + ReplaceColons(s[2..], d)
    else [s[0]] + ReplaceColons(s[1..], d)
  }

  /// `s.split(sep)` for a one-character separator: always at least one piece.
  function SplitChar(s: string, sep: char): (r: seq<string>)
    ensures |r| >= 1
  {
    if |s| == 0 then [""]
    else if s[0] == sep then [""] + SplitChar(s[1..], sep)
    else
      var rest := SplitChar(s[1..], sep);
      [[s[0]] + rest[0]] + rest[1..]
  }

  /// True when the string holds no "::".
  predicate NoDoubleColon(s: string)
  {
    forall i :: 0 <= i < |s| - 1 ==> !(s[i] == ':' && s[i + 1] == ':')
  }

  lemma {:induction false} ReplaceColonsHead(s: string, d: char)
    requires |s| > 0
    ensures |ReplaceColons(s, d)| > 0
    ensures ReplaceColons(s, d)[0] == s[0] || ReplaceColons(s, d)[0] == d
    ensures s[0] != ':' ==> ReplaceColons(s, d)[0] == s[0]
  {
  }

  /// After `replace("::", d)` with a replacement that is not ':', no "::" remains.
  lemma {:induction false} ReplaceColonsRemovesAll(s: string, d: char)
    requires d != ':'
    ensures NoDoubleColon(ReplaceColons(s, d))
  {
    if |s| < 2 {
    } else if s[0] == ':' && s[1] == ':' {
      ReplaceColonsRemovesAll(s[2..], d);
    } else {
      var rest := ReplaceColons(s[1..], d);
      ReplaceColonsRemovesAll(s[1..], d);
      ReplaceColonsHead(s[1..], d);
      var r := [s[0]] + rest;
      forall i | 0 <= i < |r| - 1
        ensures !(r[i] == ':' && r[i + 1] == ':')
      {
        if i > 0 {
          assert r[i] == rest[i - 1] && r[i + 1] == rest[i];
        }
      }
    }
  }

  /// A character other than ':' and `d` survives `replace("::", d)` exactly
  /// when it was there before.
  lemma {:induction false} ReplaceColonsKeeps(s: string, d: char, x: char)
    requires x != ':' && x != d
    ensures x in ReplaceColons(s, d) <==> x in s
  {
    if |s| < 2 {
    } else if s[0] == ':' && s[1] == ':' {
      ReplaceColonsKeeps(s[2..], d, x);
      assert s == s[..2] + s[2..];
    } else {
      ReplaceColonsKeeps(s[1..], d, x);
      assert s == [s[0]] + s[1..];
    }
  }

  /// `replace(c, d)` removes every `c` (when `d` differs from it).
  lemma ReplaceCharRemoves(s: string, c: char, d: char)
    requires c != d
    ensures c !in ReplaceChar(s, c, d)
  {
    var r := ReplaceChar(s, c, d);
    forall i | 0 <= i < |r|
      ensures r[i] != c
    {
      assert r[i] == if s[i] == c then d else s[i];
    }
  }

  /// `replace(c, d)` introduces no character other than `d`.
  lemma ReplaceCharKeepsAbsent(s: string, c: char, d: char, x: char)
    requires x != d && x !in s
    ensures x !in ReplaceChar(s, c, d)
  {
    var r := ReplaceChar(s, c, d);
    forall i | 0 <= i < |r|
      ensures r[i] != x
    {
      assert r[i] == if s[i] == c then d else s[i];
      assert s[i] in s;
    }
  }

  /// `replace(c, d)` with neither being ':' cannot create a "::".
  lemma ReplaceCharKeepsNoDoubleColon(s: string, c: char, d: char)
    requires d != ':' && NoDoubleColon(s)
    ensures NoDoubleColon(ReplaceChar(s, c, d))
  {
    var r := ReplaceChar(s, c, d);
    forall i | 0 <= i < |r| - 1
      ensures !(r[i] == ':' && r[i + 1] == ':')
    {
      assert r[i] == ':' ==> s[i] == ':';
      assert r[i + 1] == ':' ==> s[i + 1] == ':';
    }
  }

  lemma JoinSingleton(p: string, sep: string)
    ensures Join([p], sep) == p
  {
  }

  /// Joining a list whose head is split off.
  lemma JoinCons(p: string, rest: seq<string>, sep: string)
    requires |rest| > 0
    ensures Join([p] + rest, sep) == p + sep + Join(rest, sep)
  {
    assert ([p] + rest)[1..] == rest;
  }

  /// `s.replace(c, rep)` for a one-character pattern and any replacement.
  function ReplaceCharWith(s: string, c: char, rep: string): (r: string)
    ensures |s| == 0 ==> r == ""
  {
    if |s| == 0 then "" else (if s[0] == c then rep else [s[0]]) + ReplaceCharWith(s[1..], c, rep)
  }

  /// Every character of the result is from the replacement, or is a
  /// character of `s` other than `c`; every character of `s` other than `c`
  /// survives.
  lemma {:induction false} ReplaceCharWithChars(s: string, c: char, rep: string, x: char)
    ensures x in ReplaceCharWith(s, c, rep) ==> x in rep || (x in s && x != c)
    ensures x in s && x != c ==> x in ReplaceCharWith(s, c, rep)
  {
    if |s| > 0 {
      ReplaceCharWithChars(s[1..], c, rep, x);
      assert s == [s[0]] + s[1..];
    }
  }

  /// A text without ':' has no "::" to replace.
  lemma {:induction false} ReplaceColonsAbsent(s: string, d: char)
    requires ':' !in s
    ensures ReplaceColons(s, d) == s
  {
    if |s| >= 2 {
      assert ':' !in s[1..];
      ReplaceColonsAbsent(s[1..], d);
      assert s == [s[0]] + s[1..];
    }
  }

  /// Replacing a character that does not occur changes nothing.
  lemma {:induction false} ReplaceCharWithAbsent(s: string, c: char, rep: string)
    requires c !in s
    ensures ReplaceCharWith(s, c, rep) == s
  {
    if |s| > 0 {
      assert c !in s[1..];
      ReplaceCharWithAbsent(s[1..], c, rep);
      assert s == [s[0]] + s[1..];
    }
  }

  /// A replacement without ':' that is never empty cannot create a "::".
  lemma {:induction false} ReplaceCharWithNoDoubleColon(s: string, c: char, rep: string)
    requires NoDoubleColon(s) && ':' !in rep && |rep| > 0
    ensures NoDoubleColon(ReplaceCharWith(s, c, rep))
    ensures |s| > 0 ==> |ReplaceCharWith(s, c, rep)| > 0
    ensures |s| > 0 && ReplaceCharWith(s, c, rep)[0] == ':' ==> s[0] == ':'
  {
    if |s| > 0 {
      assert NoDoubleColon(s[1..]) by {
        forall i | 0 <= i < |s[1..]| - 1
          ensures !(s[1..][i] == ':' && s[1..][i + 1] == ':')
        {
          assert s[1..][i] == s[i + 1] && s[1..][i + 1] == s[i + 2];
        }
      }
      ReplaceCharWithNoDoubleColon(s[1..], c, rep);
      var h := if s[0] == c then rep else [s[0]];
      var t := ReplaceCharWith(s[1..], c, rep);
      var r := h + t;
      assert r == ReplaceCharWith(s, c, rep);
      forall i | 0 <= i < |r| - 1
        ensures !(r[i] == ':' && r[i + 1] == ':')
      {
        if i + 1 < |h| {
          assert h == rep;
          assert r[i] == rep[i];
        } else if i + 1 == |h| {
          assert r[i] == h[i] && r[i + 1] == t[0];
          assert |s[1..]| > 0;
          assert t[0] == ':' ==> s[1] == ':';
          assert h[i] == ':' ==> s[0] == ':';
        } else {
          assert r[i] == t[i - |h|] && r[i + 1] == t[i + 1 - |h|];
        }
      }
    }
  }

  /// `replace(c, d)` keeps every character other than `c`.
  lemma ReplaceCharKeepsPresent(s: string, c: char, d: char, x: char)
    requires x in s && x != c
    ensures x in ReplaceChar(s, c, d)
  {
    var i :| 0 <= i < |s| && s[i] == x;
    assert ReplaceChar(s, c, d)[i] == x;
  }

  /// A concatenation starts with its first part and ends with its second.
  lemma Affixes(a: string, b: string)
    ensures StartsWith(a + b, a) && EndsWith(a + b, b)
  {
    assert (a + b)[..|a|] == a;
    assert (a + b)[|a + b| - |b|..] == b;
  }

  /// A suffix of a string's tail is a suffix of the string.
  lemma EndsWithConcat(a: string, b: string, c: string)
    requires EndsWith(b, c)
    ensures EndsWith(a + b, c)
  {
    assert (a + b)[|a + b| - |c|..] == b[|b| - |c|..];
  }

  /// `Join` of a list with one more element at the end.
  lemma {:induction false} JoinSnoc(parts: seq<string>, last: string, sep: string)
    requires |parts| > 0
    ensures Join(parts + [last], sep) == Join(parts, sep) + sep + last
  {
    if |parts| == 1 {
      assert parts + [last] == [parts[0], last];
      assert [parts[0], last][1..] == [last];
    } else {
      assert (parts + [last])[1..] == parts[1..] + [last];
      JoinSnoc(parts[1..], last, sep);
    }
  }

  /// `s.split(sep)` for a non-empty string pattern: the pieces between the
  /// occurrences of `sep`, found left to right without overlap.
  function SplitOn(s: string, sep: string): (r: seq<string>)
    requires |sep| > 0
    ensures |r| >= 1
    decreases |s|
  {
    if |s| < |sep| then [s]
    else if s[..|sep|] == sep then [""] + SplitOn(s[|sep|..], sep)
    else
      var rest := SplitOn(s[1..], sep);
      [[s[0]] + rest[0]] + rest[1..]
  }

  /// Joining the pieces with the separator gives the string back.
  lemma {:induction false} SplitOnJoin(s: string, sep: string)
    requires |sep| > 0
    ensures Join(SplitOn(s, sep), sep) == s
    decreases |s|
  {
    if |s| >= |sep| {
      if s[..|sep|] == sep {
        SplitOnJoin(s[|sep|..], sep);
        SplitOnJoinAtSep(s, sep);
      } else {
        SplitOnJoin(s[1..], sep);
        SplitOnJoinOther(s, sep);
      }
    }
  }

  lemma SplitOnJoinAtSep(s: string, sep: string)
    requires |sep| > 0 && |s| >= |sep| && s[..|sep|] == sep
    requires Join(SplitOn(s[|sep|..], sep), sep) == s[|sep|..]
    ensures Join(SplitOn(s, sep), sep) == s
  {
    var tail := s[|sep|..];
    var rest := SplitOn(tail, sep);
    assert SplitOn(s, sep) == [""] + rest;
    JoinCons("", rest, sep);
    assert s == s[..|sep|] + tail;
  }

  lemma SplitOnJoinOther(s: string, sep: string)
    requires |sep| > 0 && |s| >= |sep| && s[..|sep|] != sep
    requires Join(SplitOn(s[1..], sep), sep) == s[1..]
    ensures Join(SplitOn(s, sep), sep) == s
  {
    var rest := SplitOn(s[1..], sep);
    assert SplitOn(s, sep) == [[s[0]] + rest[0]] + rest[1..];
    JoinFrontChar(s[0], rest, sep);
    assert s == [s[0]] + s[1..];
  }

  /// A character in front of the first part is a character in front of the
  /// joined string.
  lemma JoinFrontChar(c: char, parts: seq<string>, sep: string)
    requires |parts| >= 1
    ensures Join([[c] + parts[0]] + parts[1..], sep) == [c] + Join(parts, sep)
  {
    var head := [c] + parts[0];
    if |parts| == 1 {
      assert [head] + parts[1..] == [head];
    } else {
      var k := Join(parts[1..], sep);
      assert [parts[0]] + parts[1..] == parts;
      JoinCons(parts[0], parts[1..], sep);
      JoinCons(head, parts[1..], sep);
      ConcatAssoc([c], parts[0], sep, k);
    }
  }

  lemma ConcatAssoc(a: string, b: string, c: string, d: string)
    ensures (a + b) + c + d == a + (b + c + d)
  {
  }

  /// The first piece is a prefix of the string.
  lemma {:induction false} SplitOnFirstIsPrefix(s: string, sep: string)
    requires |sep| > 0
    ensures SplitOn(s, sep)[0] <= s
    decreases |s|
  {
    if |s| >= |sep| && s[..|sep|] != sep {
      SplitOnFirstIsPrefix(s[1..], sep);
    }
  }

  /// No piece contains the separator.
  lemma {:induction false} SplitOnPiecesAvoid(s: string, sep: string)
    requires |sep| > 0
    ensures forall k :: 0 <= k < |SplitOn(s, sep)| ==> !Contains(SplitOn(s, sep)[k], sep)
    decreases |s|
  {
    var r := SplitOn(s, sep);
    if |s| < |sep| {
      assert forall i :: 0 <= i <= |s| ==> !ContainsAt(s, sep, i);
    } else if s[..|sep|] == sep {
      SplitOnPiecesAvoid(s[|sep|..], sep);
      assert forall i :: 0 <= i <= 0 ==> !ContainsAt("", sep, i);
      assert forall k :: 1 <= k < |r| ==> r[k] == SplitOn(s[|sep|..], sep)[k - 1];
    } else {
      var rest := SplitOn(s[1..], sep);
      SplitOnPiecesAvoid(s[1..], sep);
      SplitOnFirstIsPrefix(s[1..], sep);
      var p := [s[0]] + rest[0];
      assert p <= s;
      forall i | 0 <= i <= |p|
        ensures !ContainsAt(p, sep, i)
      {
        if i == 0 {
          if |sep| <= |p| {
            assert p[..|sep|] == s[..|sep|];
          }
        } else if ContainsAt(p, sep, i) {
          assert p[i..i + |sep|] == rest[0][i - 1..i - 1 + |sep|];
          assert ContainsAt(rest[0], sep, i - 1);
          assert false;
        }
      }
      assert forall k :: 1 <= k < |r| ==> r[k] == rest[k];
    }
  }

  /// A string that contains the separator splits into at least two pieces.
  lemma SplitOnContains(s: string, sep: string)
    requires |sep| > 0 && Contains(s, sep)
    ensures |SplitOn(s, sep)| >= 2
  {
    SplitOnJoin(s, sep);
    SplitOnPiecesAvoid(s, sep);
  }
}
