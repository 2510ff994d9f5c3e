// The encodings behind an entry point's getter symbol: a Rust `String`'s
// bytes are its UTF-8 encoding (RFC 3629, section 3), the bytes are written
// in the standard base64 alphabet of section 4 of RFC 4648 without the "="
// padding (as section 3.2 permits), and the two alphabet characters that are
// not valid in an identifier are spelled "_P" and "_S". Each encoding comes
// with its decoder and a round-trip lemma.
module SymbolCodec {
  import opened Outcomes
  import opened Strs

  type Byte = x: int | 0 <= x < 256

  // ---------------------------------------------------------------------------
  // UTF-8

  /// The one to four bytes of a scalar value: 7 bits in one byte, 11 in two,
  /// 16 in three and 21 in four, continuation bytes carrying six bits each.
  function Utf8Char(c: char): (r: seq<Byte>)
    ensures 1 <= |r| <= 4
    ensures (c as int < 0x80) <==> |r| == 1
  {
    var n := c as int;
    if n < 0x80 then [n]
    else if n < 0x800 then [0xC0 + n / 64, 0x80 + n % 64]
    else if n < 0x10000 then [0xE0 + n / 4096, 0x80 + (n / 64) % 64, 0x80 + n % 64]
    else [0xF0 + n / 0x40000, 0x80 + (n / 4096) % 64, 0x80 + (n / 64) % 64, 0x80 + n % 64]
  }

  /// `String::as_bytes`: the characters' encodings in order.
  function Utf8(s: string): (r: seq<Byte>)
    ensures |r| >= |s|
  {
    if s == [] then [] else Utf8Char(s[0]) + Utf8(s[1..])
  }

  predicate Continuation(b: Byte)
  {
    0x80 <= b < 0xC0
  }

  predicate Scalar(n: int)
  {
    0 <= n < 0xD800 || 0xE000 <= n < 0x110000
  }

  /// The character the bytes start with and the length of its encoding;
  /// `None` for a malformed, overlong or surrogate sequence.
  function Utf8DecodeChar(bs: seq<Byte>): (r: Option<(char, nat)>)
    ensures r.Some? ==> 1 <= r.value.1 <= |bs|
  {
    if |bs| == 0 then None
    else if bs[0] < 0x80 then Some((bs[0] as char, 1))
    else if 0xC0 <= bs[0] < 0xE0 && |bs| >= 2 && Continuation(bs[1]) then
      var n := (bs[0] as int - 0xC0) * 64 + (bs[1] as int - 0x80);
      if 0x80 <= n then Some((n as char, 2)) else None
    else if 0xE0 <= bs[0] < 0xF0 && |bs| >= 3 && Continuation(bs[1]) && Continuation(bs[2]) then
      var n := (bs[0] as int - 0xE0) * 4096 + (bs[1] as int - 0x80) * 64 + (bs[2] as int - 0x80);
      if 0x800 <= n && Scalar(n) then Some((n as char, 3)) else None
    else if 0xF0 <= bs[0] < 0xF8 && |bs| >= 4 && Continuation(bs[1]) && Continuation(bs[2]) && Continuation(bs[3]) then
      var n := (bs[0] as int - 0xF0) * 0x40000 + (bs[1] as int - 0x80) * 4096 + (bs[2] as int - 0x80) * 64 + (bs[3] as int - 0x80);
      if 0x10000 <= n && Scalar(n) then Some((n as char, 4)) else None
    else None
  }

  /// `String::from_utf8`: the characters of a well-formed byte string.
  function Utf8Decode(bs: seq<Byte>): (r: Option<string>)
    decreases |bs|
  {
    if bs == [] then Some([])
    else
      match Utf8DecodeChar(bs)
      case None => None
      case Some((c, k)) =>
        var rest := Utf8Decode(bs[k..]);
        if rest.None? then None else Some([c] + rest.value)
  }

  /// One character's encoding decodes to that character, whatever follows.
  lemma Utf8CharRoundTrip(c: char, rest: seq<Byte>)
    ensures Utf8DecodeChar(Utf8Char(c) + rest) == Some((c, |Utf8Char(c)|))
  {
    var n := c as int;
    var bs := Utf8Char(c) + rest;
    if n < 0x80 {
    } else if n < 0x800 {
      assert bs[0] == 0xC0 + n / 64 && bs[1] == 0x80 + n % 64;
      assert (bs[0] as int - 0xC0) * 64 + (bs[1] as int - 0x80) == n;
    } else if n < 0x10000 {
      assert bs[0] == 0xE0 + n / 4096 && bs[1] == 0x80 + (n / 64) % 64 && bs[2] == 0x80 + n % 64;
      DigitsOf3(n);
    } else {
      assert bs[0] == 0xF0 + n / 0x40000 && bs[1] == 0x80 + (n / 4096) % 64;
      assert bs[2] == 0x80 + (n / 64) % 64 && bs[3] == 0x80 + n % 64;
      DigitsOf4(n);
    }
  }

  lemma DigitsOf3(n: int)
    requires 0 <= n < 0x10000
    ensures (n / 4096) * 4096 + ((n / 64) % 64) * 64 + n % 64 == n
  {
    var q := n / 64;
    assert n == q * 64 + n % 64;
    assert q == (q / 64) * 64 + q % 64;
    assert q / 64 == n / 4096;
  }

  lemma DigitsOf4(n: int)
    requires 0 <= n < 0x110000
    ensures (n / 0x40000) * 0x40000 + ((n / 4096) % 64) * 4096 + ((n / 64) % 64) * 64 + n % 64 == n
  {
    var q := n / 64;
    var q2 := q / 64;
    assert n == q * 64 + n % 64;
    assert q == q2 * 64 + q % 64;
    assert q2 == (q2 / 64) * 64 + q2 % 64;
    assert q2 == n / 4096;
    assert q2 / 64 == n / 0x40000;
  }

  /// Decoding the UTF-8 of any string gives the string back; so two strings
  /// with the same bytes are equal.
  lemma {:induction false} Utf8RoundTrip(s: string)
    ensures Utf8Decode(Utf8(s)) == Some(s)
  {
    if s != [] {
      var head := Utf8Char(s[0]);
      var tail := Utf8(s[1..]);
      Utf8CharRoundTrip(s[0], tail);
      assert (head + tail)[|head|..] == tail;
      Utf8RoundTrip(s[1..]);
      assert [s[0]] + s[1..] == s;
    }
  }

  // ---------------------------------------------------------------------------
  // Base64, standard alphabet, no padding

  /// The characters of the alphabet of Table 1 of RFC 4648.
  predicate Base64Char(c: char)
  {
    ('A' <= c <= 'Z') || ('a' <= c <= 'z') || ('0' <= c <= '9') || c == '+' || c == '/'
  }

  /// Table 1 of RFC 4648: the character for a six-bit value.
  function Sextet(n: int): (c: char)
    requires 0 <= n < 64
    ensures Base64Char(c)
  {
    if n < 26 then ('A' as int + n) as char
    else if n < 52 then ('a' as int + (n - 26)) as char
    else if n < 62 then ('0' as int + (n - 52)) as char
    else if n == 62 then '+'
    else '/'
  }

  /// The six-bit value of an alphabet character.
  function SextetValue(c: char): (r: Option<int>)
    ensures r.Some? <==> Base64Char(c)
    ensures r.Some? ==> 0 <= r.value < 64 && Sextet(r.value) == c
  {
    if 'A' <= c <= 'Z' then Some(c as int - 'A' as int)
    else if 'a' <= c <= 'z' then Some(c as int - 'a' as int + 26)
    else if '0' <= c <= '9' then Some(c as int - '0' as int + 52)
    else if c == '+' then Some(62)
    else if c == '/' then Some(63)
    else None
  }

  lemma SextetRoundTrip(n: int)
    requires 0 <= n < 64
    ensures SextetValue(Sextet(n)) == Some(n)
  {
  }

  /// Three bytes as four characters.
  function EncodeGroup(b0: Byte, b1: Byte, b2: Byte): (r: string)
    ensures |r| == 4 && forall i :: 0 <= i < 4 ==> Base64Char(r[i])
  {
    [Sextet(b0 / 4), Sextet((b0 % 4) * 16 + b1 / 16), Sextet((b1 % 16) * 4 + b2 / 64), Sextet(b2 % 64)]
  }

  /// A final one or two bytes as two or three characters, the unused low
  /// bits zero and no padding.
  function EncodeTail(bs: seq<Byte>): (r: string)
    requires 1 <= |bs| <= 2
    ensures |r| == |bs| + 1 && forall i :: 0 <= i < |r| ==> Base64Char(r[i])
  {
    if |bs| == 1 then [Sextet(bs[0] / 4), Sextet((bs[0] % 4) * 16)]
    else [Sextet(bs[0] / 4), Sextet((bs[0] % 4) * 16 + bs[1] / 16), Sextet((bs[1] % 16) * 4)]
  }

  /// `BASE64_STANDARD_NO_PAD.encode`: each group of three bytes becomes four
  /// characters, a final group of one or two bytes two or three.
  function Encode(bs: seq<Byte>): (r: string)
    ensures |r| == (4 * |bs| + 2) / 3
    ensures forall i :: 0 <= i < |r| ==> Base64Char(r[i])
    decreases |bs|
  {
    if |bs| == 0 then ""
    else if |bs| <= 2 then EncodeTail(bs)
    else
      var group := EncodeGroup(bs[0], bs[1], bs[2]);
      var rest := Encode(bs[3..]);
      assert forall i :: 4 <= i < |group + rest| ==> (group + rest)[i] == rest[i - 4];
      group + rest
  }

  /// Four characters as three bytes.
  function DecodeGroup(q: string): (r: Option<seq<Byte>>)
    requires |q| == 4
  {
    var v0, v1, v2, v3 := SextetValue(q[0]), SextetValue(q[1]), SextetValue(q[2]), SextetValue(q[3]);
    if v0.None? || v1.None? || v2.None? || v3.None? then None
    else Some([v0.value * 4 + v1.value / 16, (v1.value % 16) * 16 + v2.value / 4, (v2.value % 4) * 64 + v3.value])
  }

  /// A final two or three characters as one or two bytes; `None` when the
  /// unused bits are not zero.
  function DecodeTail(t: string): (r: Option<seq<Byte>>)
    requires 2 <= |t| <= 3
  {
    var v0, v1 := SextetValue(t[0]), SextetValue(t[1]);
    if v0.None? || v1.None? then None
    else if |t| == 2 then
      if v1.value % 16 != 0 then None else Some([v0.value * 4 + v1.value / 16])
    else
      var v2 := SextetValue(t[2]);
      if v2.None? || v2.value % 4 != 0 then None
      else Some([v0.value * 4 + v1.value / 16, (v1.value % 16) * 16 + v2.value / 4])
  }

  /// The inverse of `Encode`; `None` for a character outside the alphabet,
  /// a lone final character or non-zero unused bits.
  function Decode(s: string): (r: Option<seq<Byte>>)
    decreases |s|
  {
    if |s| == 0 then Some([])
    else if |s| == 1 then None
    else if |s| <= 3 then DecodeTail(s)
    else
      var group := DecodeGroup(s[..4]);
      var rest := Decode(s[4..]);
      if group.None? || rest.None? then None else Some(group.value + rest.value)
  }

  /// A final group decodes to its bytes.
  lemma TailRoundTrip(bs: seq<Byte>)
    requires 1 <= |bs| <= 2
    ensures DecodeTail(EncodeTail(bs)) == Some(bs)
  {
    var b0 := bs[0];
    SextetRoundTrip(b0 / 4);
    if |bs| == 1 {
      assert EncodeTail(bs) == [Sextet(b0 / 4), Sextet((b0 % 4) * 16)];
      assert bs == [b0];
      SextetRoundTrip((b0 % 4) * 16);
      assert ((b0 % 4) * 16) % 16 == 0;
      assert (b0 / 4) * 4 + ((b0 % 4) * 16) / 16 == b0;
    } else {
      var b1 := bs[1];
      var s1 := (b0 % 4) * 16 + b1 / 16;
      var s2 := (b1 % 16) * 4;
      assert EncodeTail(bs) == [Sextet(b0 / 4), Sextet(s1), Sextet(s2)];
      assert bs == [b0, b1];
      SextetRoundTrip(s1);
      SextetRoundTrip(s2);
      assert s1 / 16 == b0 % 4 && s1 % 16 == b1 / 16;
      assert s2 % 4 == 0 && s2 / 4 == b1 % 16;
    }
  }

  /// A full group decodes to its three bytes.
  lemma GroupRoundTrip(b0: Byte, b1: Byte, b2: Byte)
    ensures DecodeGroup(EncodeGroup(b0, b1, b2)) == Some([b0, b1, b2])
  {
    var s1 := (b0 % 4) * 16 + b1 / 16;
    var s2 := (b1 % 16) * 4 + b2 / 64;
    SextetRoundTrip(b0 / 4);
    SextetRoundTrip(s1);
    SextetRoundTrip(s2);
    SextetRoundTrip(b2 % 64);
    GroupSextets(b0, b1, b2);
  }

  /// The bytes rebuilt from the four sextets of a group.
  lemma GroupSextets(b0: Byte, b1: Byte, b2: Byte)
    ensures var s1 := (b0 % 4) * 16 + b1 / 16;
            var s2 := (b1 % 16) * 4 + b2 / 64;
            && (b0 / 4) * 4 + s1 / 16 == b0
            && (s1 % 16) * 16 + s2 / 4 == b1
            && (s2 % 4) * 64 + b2 % 64 == b2
  {
    DivMod16(b0 % 4, b1 / 16);
    DivMod4(b1 % 16, b2 / 64);
  }

  lemma DivMod16(a: int, c: int)
    requires 0 <= c < 16
    ensures (a * 16 + c) / 16 == a && (a * 16 + c) % 16 == c
  {
  }

  lemma DivMod4(a: int, c: int)
    requires 0 <= c < 4
    ensures (a * 4 + c) / 4 == a && (a * 4 + c) % 4 == c
  {
  }

  /// Encoding three or more bytes.
  lemma EncodeCons(bs: seq<Byte>)
    requires |bs| >= 3
    ensures Encode(bs) == EncodeGroup(bs[0], bs[1], bs[2]) + Encode(bs[3..])
  {
  }

  /// Decoding a full group followed by more text.
  lemma DecodeCons(group: string, rest: string)
    requires |group| == 4
    ensures Decode(group + rest) ==
              if DecodeGroup(group).None? || Decode(rest).None? then None
              else Some(DecodeGroup(group).value + Decode(rest).value)
  {
    var e := group + rest;
    assert e[..4] == group && e[4..] == rest;
  }

  /// Decoding what `Encode` wrote gives the bytes back; so two byte strings
  /// with the same encoding are equal.
  lemma {:induction false} Base64RoundTrip(bs: seq<Byte>)
    ensures Decode(Encode(bs)) == Some(bs)
    decreases |bs|
  {
    if 1 <= |bs| <= 2 {
      TailRoundTrip(bs);
    } else if |bs| >= 3 {
      var group := EncodeGroup(bs[0], bs[1], bs[2]);
      var rest := Encode(bs[3..]);
      EncodeCons(bs);
      DecodeCons(group, rest);
      GroupRoundTrip(bs[0], bs[1], bs[2]);
      Base64RoundTrip(bs[3..]);
      FirstThree(bs);
    }
  }

  lemma FirstThree(bs: seq<Byte>)
    requires |bs| >= 3
    ensures [bs[0], bs[1], bs[2]] + bs[3..] == bs
  {
  }

  // ---------------------------------------------------------------------------
  // Identifier spelling

  /// `.replace("+", "_P").replace("/", "_S")`.
  function Mangle(s: string): string
  {
    ReplaceCharWith(ReplaceCharWith(s, '+', "_P"), '/', "_S")
  }

  /// The inverse of `Mangle` on text without '_': "_P" back to '+' and "_S"
  /// back to '/'.
  function Unmangle(s: string): string
    decreases |s|
  {
    if |s| == 0 then ""
    else if |s| >= 2 && s[0] == '_' && s[1] == 'P' then "+" + Unmangle(s[2..])
    else if |s| >= 2 && s[0] == '_' && s[1] == 'S' then "/" + Unmangle(s[2..])
    else [s[0]] + Unmangle(s[1..])
  }

  /// The two replacements as one pass over the characters.
  function MangleChars(s: string): string
  {
    if |s| == 0 then ""
    else (if s[0] == '+' then "_P" else if s[0] == '/' then "_S" else [s[0]]) + MangleChars(s[1..])
  }

  lemma {:induction false} ReplaceCharWithAppend(a: string, b: string, c: char, rep: string)
    ensures ReplaceCharWith(a + b, c, rep) == ReplaceCharWith(a, c, rep) + ReplaceCharWith(b, c, rep)
    decreases |a|
  {
    if |a| > 0 {
      assert (a + b)[0] == a[0] && (a + b)[1..] == a[1..] + b;
      ReplaceCharWithAppend(a[1..], b, c, rep);
    } else {
      assert a + b == b;
    }
  }

  /// The second replacement cannot act on what the first one inserted, so
  /// the chain is a single pass.
  lemma {:induction false} MangleIsOnePass(s: string)
    ensures Mangle(s) == MangleChars(s)
    decreases |s|
  {
    if |s| > 0 {
      var h := if s[0] == '+' then "_P" else [s[0]];
      var t := ReplaceCharWith(s[1..], '+', "_P");
      assert ReplaceCharWith(s, '+', "_P") == h + t;
      ReplaceCharWithAppend(h, t, '/', "_S");
      MangleIsOnePass(s[1..]);
      if s[0] == '+' {
        assert ReplaceCharWith(h, '/', "_S") == "_P" by {
          assert h[1..] == "P" && ("P")[1..] == "";
        }
      } else {
        assert h[1..] == "";
      }
    }
  }

  /// Undoing the spelling of text without '_' gives the text back.
  lemma {:induction false} UnmangleRoundTrip(s: string)
    requires forall i :: 0 <= i < |s| ==> s[i] != '_'
    ensures Unmangle(MangleChars(s)) == s
    decreases |s|
  {
    if |s| > 0 {
      var t := MangleChars(s[1..]);
      UnmangleRoundTrip(s[1..]);
      var m := MangleChars(s);
      var h := if s[0] == '+' then "_P" else if s[0] == '/' then "_S" else [s[0]];
      assert m == h + t;
      if s[0] == '+' || s[0] == '/' {
        assert m[2..] == t;
      } else {
        assert m[0] == s[0] && m[1..] == t;
      }
      assert [s[0]] + s[1..] == s;
    }
  }

  predicate IdentChar(c: char)
  {
    ('A' <= c <= 'Z') || ('a' <= c <= 'z') || ('0' <= c <= '9') || c == '_'
  }

  /// Spelled base64 is made of identifier characters only.
  lemma {:induction false} MangledIsIdentifier(s: string)
    requires forall i :: 0 <= i < |s| ==> Base64Char(s[i])
    ensures forall i :: 0 <= i < |MangleChars(s)| ==> IdentChar(MangleChars(s)[i])
    decreases |s|
  {
    if |s| > 0 {
      assert forall i :: 0 <= i < |s[1..]| ==> Base64Char(s[1..][i]) by {
        forall i | 0 <= i < |s[1..]| ensures Base64Char(s[1..][i]) {
          assert s[1..][i] == s[i + 1];
        }
      }
      MangledIsIdentifier(s[1..]);
      var h := if s[0] == '+' then "_P" else if s[0] == '/' then "_S" else [s[0]];
      var t := MangleChars(s[1..]);
      assert MangleChars(s) == h + t;
      forall i | 0 <= i < |h + t| ensures IdentChar((h + t)[i]) {
        if i >= |h| {
          assert (h + t)[i] == t[i - |h|];
        }
      }
    }
  }

  /// The symbol text of a string and its inverse: every character an
  /// identifier character, and the string recovered from it.
  function Spell(s: string): (r: string)
    ensures forall i :: 0 <= i < |r| ==> IdentChar(r[i])
  {
    var e := Encode(Utf8(s));
    MangleIsOnePass(e);
    MangledIsIdentifier(e);
    Mangle(e)
  }

  lemma SpellRoundTrip(s: string)
    ensures Decode(Unmangle(Spell(s))) == Some(Utf8(s))
    ensures Utf8Decode(Utf8(s)) == Some(s)
  {
    var e := Encode(Utf8(s));
    MangleIsOnePass(e);
    assert forall i :: 0 <= i < |e| ==> e[i] != '_';
    UnmangleRoundTrip(e);
    Base64RoundTrip(Utf8(s));
    Utf8RoundTrip(s);
  }

  /// Two strings with the same spelling are equal.
  lemma SpellInjective(s: string, t: string)
    requires Spell(s) == Spell(t)
    ensures s == t
  {
    SpellRoundTrip(s);
    SpellRoundTrip(t);
  }
}
