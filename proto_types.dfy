// The older `Type` of the first-generation processor: its rendering
// (`canonical_string_path`, `local_string_path`, `identifier`, `readable`,
// `path_with_args`), which processor/src/manifests.rs and
// processor/src/manifest.rs write twice with one difference in `identifier`,
// and the parser `type_from_syn_type` / `type_from_path` of
// processor/src/manifests.rs. The older `Type` has no identifier suffix and
// no qualifier; those fields of `TypeData` stay at their defaults.
module ProtoTypes {
  import opened Outcomes
  import opened Types
  import opened Strs
  import opened Syn
  import TypeRender

  // ---------------------------------------------------------------------------
  // Rendering, as written

  /// `path_with_args`: "dyn " before a trait object, then the path and, when
  /// there are arguments, their own `path_with_args` joined by "," in "<...>".
  function PathWithArgs(t: TypeData): string
    decreases t, 1
  {
    var prefix := if t.traitObject then "dyn " else "";
    if |t.args| == 0 then prefix + t.path
    else prefix + t.path + "<" + Join(ArgPaths(t, 0), ",") + ">"
  }

  function ArgPaths(t: TypeData, i: nat): (r: seq<string>)
    requires i <= |t.args|
    ensures |r| == |t.args| - i
    decreases t, 0, |t.args| - i
  {
    if i == |t.args| then []
    else
      assert t.args[i] in t.args;
      [PathWithArgs(t.args[i])] + ArgPaths(t, i + 1)
  }

  /// The j-th rendered argument is the `path_with_args` of the j-th argument.
  lemma {:induction false} ArgPathsAt(t: TypeData, i: nat)
    requires i <= |t.args|
    ensures forall j :: 0 <= j < |ArgPaths(t, i)| ==> ArgPaths(t, i)[j] == PathWithArgs(t.args[i + j])
    decreases |t.args| - i
  {
    if i < |t.args| {
      ArgPathsAt(t, i + 1);
    }
  }

  /// `canonical_string_path`; `None` is the panic on an UNSPECIFIED root.
  function Canonical(t: TypeData): (r: Option<string>)
    ensures r.Some? <==> t.root != Unspecified
    ensures r.Some? && t.root != Primitive ==> StartsWith(r.value, "::")
  {
    match t.root
    case Global => Some("::" + PathWithArgs(t))
    case Crate => Some("::" + t.fieldCrate + "::" + PathWithArgs(t))
    case Primitive => Some(t.path)
    case Unspecified => None
  }

  /// `local_string_path` in the crate `currentCrate`.
  function Local(t: TypeData, currentCrate: string): Option<string>
  {
    match t.root
    case Global => Some("::" + PathWithArgs(t))
    case Crate =>
      if currentCrate == t.fieldCrate then Some("crate::" + PathWithArgs(t))
      else Some(t.fieldCrate + "::" + PathWithArgs(t))
    case Primitive => Some(t.path)
    case Unspecified => None
  }

  /// The two copies of `identifier`: processor/src/manifests.rs (protobuf
  /// `Type`) and processor/src/manifest.rs (serde `Type`), which also removes "'".
  datatype Revision = Protobuf | Serde

  /// The replacements `identifier` applies to the canonical path, in order.
  function Escape(s: string, rev: Revision): string
  {
    var s1 := ReplaceColons(s, '_');
    var s2 := ReplaceCharWith(s1, '<', "_L_");
    var s3 := ReplaceCharWith(s2, '>', "_R_");
    var s4 := ReplaceChar(s3, ' ', '_');
    if rev == Serde then ReplaceCharWith(s4, '\'', "") else s4
  }

  /// A character that may start a Rust identifier: "_" or a letter.
  /// Characters beyond ASCII are counted as letters.
  predicate IdentStart(c: char)
  {
    c == '_' || ('A' <= c <= 'Z') || ('a' <= c <= 'z') || c as int >= 128
  }

  /// A character that may continue a Rust identifier: also a digit.
  predicate IdentContinue(c: char)
  {
    IdentStart(c) || ('0' <= c <= '9')
  }

  /// The text `Ident::new` accepts; on any other text it panics.
  predicate IsIdent(s: string)
  {
    |s| > 0 && IdentStart(s[0]) && forall i :: 1 <= i < |s| ==> IdentContinue(s[i])
  }

  /// The panic of `Ident::new` on a text that is not an identifier (its
  /// message also quotes the text).
  const NotIdentPanic := "panic: is not a valid Ident"

  /// The text `identifier` hands to `format_ident!`: "ref_" for a
  /// reference, then the escaped canonical path.
  function IdentifierText(t: TypeData, rev: Revision): (s: string)
    requires t.root != Unspecified
    ensures t.fieldRef ==> StartsWith(s, "ref_")
  {
    var s := (if t.fieldRef then "ref_" else "") + Escape(Canonical(t).value, rev);
    assert t.fieldRef ==> s[..4] == "ref_";
    s
  }

  /// `identifier`: None (a panic) on an UNSPECIFIED root, and when
  /// `format_ident!` refuses the text because it is not an identifier.
  function Identifier(t: TypeData, rev: Revision): Option<string>
  {
    if t.root == Unspecified || !IsIdent(IdentifierText(t, rev)) then None
    else Some(IdentifierText(t, rev))
  }

  /// `readable`: "ref " for a reference, then the canonical path.
  function Readable(t: TypeData): Option<string>
  {
    var c := Canonical(t);
    if c.None? then None else Some((if t.fieldRef then "ref " else "") + c.value)
  }

  // ---------------------------------------------------------------------------
  // Rendering properties

  /// The local form differs from the canonical one only for CRATE types: in
  /// the crate being compiled it starts with "crate::", elsewhere it is the
  /// canonical form without its leading "::".
  lemma LocalAgainstCanonical(t: TypeData, currentCrate: string)
    ensures t.root != Crate ==> Local(t, currentCrate) == Canonical(t)
    ensures t.root == Crate && currentCrate == t.fieldCrate ==>
              Local(t, currentCrate) == Some("crate::" + PathWithArgs(t))
              && Canonical(t) == Some("::" + currentCrate + "::" + PathWithArgs(t))
    ensures t.root == Crate && currentCrate != t.fieldCrate ==>
              Canonical(t) == Some("::" + Local(t, currentCrate).value)
  {
    if t.root == Crate && currentCrate != t.fieldCrate {
      var p := PathWithArgs(t);
      assert "::" + t.fieldCrate + "::" + p == "::" + (t.fieldCrate + "::" + p);
    }
  }

  /// The identifier exists exactly when "ref_" (for a reference) + the
  /// escaped canonical path is a Rust identifier, and is then that text; the
  /// escape leaves no "<", ">" or " " (and, in the serde copy, no "'"); the
  /// protobuf copy also leaves no "::".
  lemma IdentifierShape(t: TypeData, rev: Revision)
    requires t.root != Unspecified
    ensures Identifier(t, rev).Some? <==>
              IsIdent((if t.fieldRef then "ref_" else "") + Escape(Canonical(t).value, rev))
    ensures Identifier(t, rev).Some? ==>
              Identifier(t, rev).value == (if t.fieldRef then "ref_" else "") + Escape(Canonical(t).value, rev)
    ensures forall x :: x in "<> " ==> x !in Escape(Canonical(t).value, rev)
    ensures rev == Serde ==> '\'' !in Escape(Canonical(t).value, rev)
    ensures rev == Protobuf ==> NoDoubleColon(Escape(Canonical(t).value, rev))
  {
    EscapeRemoves(Canonical(t).value, rev);
  }

  /// A GLOBAL type without arguments whose path is made of identifier
  /// characters has the identifier "_" + its path.
  lemma PlainGlobalIdentifier(t: TypeData)
    requires t.root == Global && t.args == [] && !t.traitObject && !t.fieldRef
    requires forall i :: 0 <= i < |t.path| ==> IdentContinue(t.path[i])
    ensures Identifier(t, Protobuf) == Some("_" + t.path)
  {
    var p := t.path;
    assert PathWithArgs(t) == p by {
      assert "" + p == p;
    }
    assert ':' !in p && '<' !in p && '>' !in p && ' ' !in p;
    EscapePlain(p);
    UnderscoreIdent(p);
    assert IdentifierText(t, Protobuf) == "_" + p by {
      assert "" + ("_" + p) == "_" + p;
    }
  }

  lemma EscapePlain(p: string)
    requires ':' !in p && '<' !in p && '>' !in p && ' ' !in p
    ensures Escape("::" + p, Protobuf) == "_" + p
  {
    var c := "::" + p;
    assert c[2..] == p;
    ReplaceColonsAbsent(p, '_');
    assert ReplaceColons(c, '_') == "_" + p;
    var s1 := "_" + p;
    assert '<' !in s1 && '>' !in s1 && ' ' !in s1;
    ReplaceCharWithAbsent(s1, '<', "_L_");
    ReplaceCharWithAbsent(s1, '>', "_R_");
    assert ReplaceChar(s1, ' ', '_') == s1;
  }

  lemma UnderscoreIdent(p: string)
    requires forall i :: 0 <= i < |p| ==> IdentContinue(p[i])
    ensures IsIdent("_" + p)
  {
    var s1 := "_" + p;
    forall i | 1 <= i < |s1| ensures IdentContinue(s1[i]) {
      assert s1[i] == p[i - 1];
    }
  }

  lemma EscapeRemoves(s: string, rev: Revision)
    ensures forall x :: x in "<> " ==> x !in Escape(s, rev)
    ensures rev == Serde ==> '\'' !in Escape(s, rev)
    ensures rev == Protobuf ==> NoDoubleColon(Escape(s, rev))
  {
    var s1 := ReplaceColons(s, '_');
    var s2 := ReplaceCharWith(s1, '<', "_L_");
    var s3 := ReplaceCharWith(s2, '>', "_R_");
    var s4 := ReplaceChar(s3, ' ', '_');
    ReplaceColonsRemovesAll(s, '_');
    ReplaceCharWithNoDoubleColon(s1, '<', "_L_");
    ReplaceCharWithNoDoubleColon(s2, '>', "_R_");
    ReplaceCharKeepsNoDoubleColon(s3, ' ', '_');
    forall x | x in "<> "
      ensures x !in s4
    {
      ReplaceCharWithChars(s1, '<', "_L_", x);
      ReplaceCharWithChars(s2, '>', "_R_", x);
      if x != ' ' {
        ReplaceCharKeepsAbsent(s3, ' ', '_', x);
      } else {
        ReplaceCharRemoves(s3, ' ', '_');
      }
    }
    if rev == Serde {
      forall x | x in "<> '"
        ensures x !in ReplaceCharWith(s4, '\'', "")
      {
        ReplaceCharWithChars(s4, '\'', "", x);
      }
    }
  }

  /// `readable` is the canonical path, preceded by "ref " exactly for a
  /// reference.
  lemma ReadableShape(t: TypeData)
    ensures Readable(t).Some? <==> t.root != Unspecified
    ensures Readable(t).Some? ==> EndsWith(Readable(t).value, Canonical(t).value)
    ensures Readable(t).Some? && t.fieldRef ==> StartsWith(Readable(t).value, "ref ")
    ensures Readable(t).Some? && !t.fieldRef ==> Readable(t) == Canonical(t)
  {
  }

  // ---------------------------------------------------------------------------
  // Finding: arguments are rendered by `path_with_args`, which drops their
  // root and crate, so `Box<crate_a::Foo>` and `Box<crate_b::Foo>` render
  // alike although `crate_a::Foo` and `crate_b::Foo` do not.

  function BoxOf(t: TypeData): TypeData
  {
    GlobalType("std::boxed::Box", [t])
  }

  /// The rendering of the arguments of a Box is the rendering of its single argument.
  lemma BoxRendering(t: TypeData)
    ensures Canonical(BoxOf(t)) == Some("::" + ("std::boxed::Box" + "<" + PathWithArgs(t) + ">"))
  {
    var b := BoxOf(t);
    assert b.args == [t];
    assert ArgPaths(b, 0) == [PathWithArgs(t)];
    assert Join([PathWithArgs(t)], ",") == PathWithArgs(t);
    assert PathWithArgs(b) == "std::boxed::Box" + "<" + PathWithArgs(t) + ">";
  }

  /// Two types in different crates at the same path: their canonical paths
  /// differ, yet their boxes render to one canonical path and one identifier.
  lemma BoxedArgumentsCollide()
    ensures var a := NewType().(root := Crate, fieldCrate := "a", path := "Foo");
            var b := NewType().(root := Crate, fieldCrate := "b", path := "Foo");
            Canonical(a) != Canonical(b)
            && Canonical(BoxOf(a)) == Canonical(BoxOf(b))
            && Identifier(BoxOf(a), Protobuf) == Identifier(BoxOf(b), Protobuf)
  {
    var a := NewType().(root := Crate, fieldCrate := "a", path := "Foo");
    var b := NewType().(root := Crate, fieldCrate := "b", path := "Foo");
    assert Canonical(a).value[..3] == "::a";
    assert Canonical(b).value[..3] == "::b";
    BoxRendering(a);
    BoxRendering(b);
  }

  /// The evidently intended rendering, as the later common/src/type_data.rs
  /// writes it: each argument is rendered by the same form as the whole
  /// (canonical arguments in the canonical form, local ones in the local form).
  function FixedStringPath(t: TypeData, m: TypeRender.Mode): (r: Option<string>)
    ensures |t.args| == 0 && m.CanonicalMode? ==> r == Canonical(t)
    ensures |t.args| == 0 && m.LocalMode? ==> r == Local(t, m.currentCrate)
    decreases t, 2
  {
    match t.root
    case Unspecified => None
    case Primitive => Some(t.path)
    case Global =>
      var p := FixedPathWithArgs(t, m);
      if p.None? then None else Some("::" + p.value)
    case Crate =>
      var p := FixedPathWithArgs(t, m);
      if p.None? then None
      else match m
        case CanonicalMode => Some("::" + t.fieldCrate + "::" + p.value)
        case LocalMode(cc) =>
          if cc == t.fieldCrate then Some("crate::" + p.value)
          else Some(t.fieldCrate + "::" + p.value)
  }

  function FixedPathWithArgs(t: TypeData, m: TypeRender.Mode): (r: Option<string>)
    ensures |t.args| == 0 ==> r == Some(PathWithArgs(t))
    decreases t, 1
  {
    var prefix := if t.traitObject then "dyn " else "";
    if |t.args| == 0 then Some(prefix + t.path)
    else
      var a := FixedArgPaths(t, m, 0);
      if a.None? then None else Some(prefix + t.path + "<" + Join(a.value, ",") + ">")
  }

  function FixedArgPaths(t: TypeData, m: TypeRender.Mode, i: nat): (r: Option<seq<string>>)
    requires i <= |t.args|
    ensures r.Some? ==> |r.value| == |t.args| - i
    decreases t, 0, |t.args| - i
  {
    if i == |t.args| then Some([])
    else
      assert t.args[i] in t.args;
      var h := FixedStringPath(t.args[i], m);
      var rest := FixedArgPaths(t, m, i + 1);
      if h.None? || rest.None? then None else Some([h.value] + rest.value)
  }

  function FixedCanonical(t: TypeData): Option<string>
  {
    FixedStringPath(t, TypeRender.CanonicalMode)
  }

  /// With the fix, two boxes render alike exactly when their contents do.
  /// The corrected rendering of a Box is its content's rendering in "<...>".
  lemma FixedBoxRendering(t: TypeData)
    requires FixedCanonical(t).Some?
    ensures FixedCanonical(BoxOf(t)) == Some("::" + ("std::boxed::Box" + "<" + FixedCanonical(t).value + ">"))
  {
    var m := TypeRender.CanonicalMode;
    var b := BoxOf(t);
    var c := FixedCanonical(t).value;
    assert b.args == [t] && b.args[0] == t;
    assert FixedStringPath(b.args[0], m) == Some(c);
    assert FixedArgPaths(b, m, 1) == Some([]);
    assert [c] + [] == [c];
    assert FixedArgPaths(b, m, 0) == Some([c]);
    assert Join([c], ",") == c;
    assert FixedPathWithArgs(b, m) == Some("" + "std::boxed::Box" + "<" + c + ">");
    assert "" + "std::boxed::Box" == "std::boxed::Box";
  }

  /// With the fix, two boxes render alike exactly when their contents do.
  lemma FixedBoxDistinguishes(t1: TypeData, t2: TypeData)
    requires FixedCanonical(t1).Some? && FixedCanonical(t2).Some?
    ensures FixedCanonical(BoxOf(t1)) == FixedCanonical(BoxOf(t2)) <==>
            FixedCanonical(t1) == FixedCanonical(t2)
  {
    var pre := "::" + "std::boxed::Box" + "<";
    var c1 := FixedCanonical(t1).value;
    var c2 := FixedCanonical(t2).value;
    FixedBoxRendering(t1);
    FixedBoxRendering(t2);
    var s1 := pre + c1 + ">";
    var s2 := pre + c2 + ">";
    assert "::" + ("std::boxed::Box" + "<" + c1 + ">") == s1;
    assert "::" + ("std::boxed::Box" + "<" + c2 + ">") == s2;
    assert FixedCanonical(BoxOf(t1)) == Some(s1);
    assert FixedCanonical(BoxOf(t2)) == Some(s2);
    if s1 == s2 {
      assert |c1| == |c2|;
      assert c1 == s1[|pre|..|pre| + |c1|];
      assert c2 == s2[|pre|..|pre| + |c2|];
    }
  }

  // ---------------------------------------------------------------------------
  // Finding: `identifier` leaves "," in place, so a type with two arguments
  // (`Result<i32, String>`) gives a text `format_ident!` panics on.

  function ResultOf(a: TypeData, b: TypeData): TypeData
  {
    GlobalType("std::result::Result", [a, b])
  }

  /// A text holding "," is not an identifier.
  lemma CommaIsNotIdent(s: string)
    requires ',' in s
    ensures !IsIdent(s)
  {
    var i :| 0 <= i < |s| && s[i] == ',';
    if i > 0 {
      assert !IdentContinue(s[i]);
    }
  }

  /// Two or more arguments are joined by ",".
  lemma {:induction false} JoinKeepsSeparator(parts: seq<string>)
    requires |parts| >= 2
    ensures ',' in Join(parts, ",")
  {
    var rest := Join(parts[1..], ",");
    assert Join(parts, ",") == parts[0] + "," + rest;
    assert (parts[0] + "," + rest)[|parts[0]|] == ',';
  }

  /// As written, a GLOBAL or CRATE type with two or more arguments has no
  /// identifier: its canonical path keeps the "," between the arguments, and
  /// `format_ident!` panics on it.
  lemma ArgumentsListPanics(t: TypeData, rev: Revision)
    requires t.root == Global || t.root == Crate
    requires |t.args| >= 2
    ensures ',' in Escape(Canonical(t).value, rev)
    ensures Identifier(t, rev).None?
  {
    var j := Join(ArgPaths(t, 0), ",");
    JoinKeepsSeparator(ArgPaths(t, 0));
    var prefix := if t.traitObject then "dyn " else "";
    var p := prefix + t.path + "<" + j + ">";
    assert PathWithArgs(t) == p;
    var k :| 0 <= k < |j| && j[k] == ',';
    assert p[|prefix + t.path + "<"| + k] == ',';
    var c := Canonical(t).value;
    var head := if t.root == Global then "::" else "::" + t.fieldCrate + "::";
    assert c == head + p;
    assert c[|head| + |prefix + t.path + "<"| + k] == ',';
    EscapeKeeps(c, rev, ',');
    var text := IdentifierText(t, rev);
    var pre := if t.fieldRef then "ref_" else "";
    assert text == pre + Escape(c, rev);
    var e := Escape(c, rev);
    var q :| 0 <= q < |e| && e[q] == ',';
    assert text[|pre| + q] == ',';
    CommaIsNotIdent(text);
  }

  /// `Result<i32, String>` keeps its "," through the escape and has no
  /// identifier.
  lemma IdentifierKeepsComma(rev: Revision)
    ensures var t := ResultOf(NewType().(root := Primitive, path := "i32"),
                              GlobalType("std::string::String", []));
            ',' in Escape(Canonical(t).value, rev) && Identifier(t, rev).None?
  {
    var t := ResultOf(NewType().(root := Primitive, path := "i32"),
                      GlobalType("std::string::String", []));
    ArgumentsListPanics(t, rev);
  }

  /// A character that none of the replacements touches survives the escape.
  lemma EscapeKeeps(s: string, rev: Revision, x: char)
    requires x in s && x !in ":<> '_"
    ensures x in Escape(s, rev)
  {
    var s1 := ReplaceColons(s, '_');
    var s2 := ReplaceCharWith(s1, '<', "_L_");
    var s3 := ReplaceCharWith(s2, '>', "_R_");
    var s4 := ReplaceChar(s3, ' ', '_');
    ReplaceColonsKeeps(s, '_', x);
    ReplaceCharWithChars(s1, '<', "_L_", x);
    ReplaceCharWithChars(s2, '>', "_R_", x);
    ReplaceCharKeepsPresent(s3, ' ', '_', x);
    if rev == Serde {
      ReplaceCharWithChars(s4, '\'', "", x);
    }
  }

  /// The evidently intended escape also replaces ",", in the style of the
  /// other replacements.
  function FixedEscape(s: string): string
  {
    ReplaceCharWith(Escape(s, Protobuf), ',', "_C_")
  }

  /// The corrected identifier over the corrected canonical path: the key the
  /// binding graph files a type under.
  function Key(t: TypeData): Option<string>
  {
    var c := FixedCanonical(t);
    if c.None? then None
    else Some((if t.fieldRef then "ref_" else "") + FixedEscape(c.value))
  }

  /// The corrected escape leaves none of the separators the canonical path
  /// inserts: no "::", "<", ">", " " or ",".
  lemma FixedEscapeRemoves(s: string)
    ensures NoDoubleColon(FixedEscape(s))
    ensures forall x :: x in "<> ," ==> x !in FixedEscape(s)
  {
    var e := Escape(s, Protobuf);
    EscapeRemoves(s, Protobuf);
    ReplaceCharWithNoDoubleColon(e, ',', "_C_");
    forall x | x in "<> ,"
      ensures x !in FixedEscape(s)
    {
      ReplaceCharWithChars(e, ',', "_C_", x);
    }
  }

  /// Keys are defined on every rooted type, and a key names a reference
  /// exactly when it starts with "ref_" (a canonical path starts with "::",
  /// which escapes to "_", or is a primitive name).
  lemma KeyDefined(t: TypeData)
    requires Rooted(t)
    ensures Key(t).Some?
    ensures t.fieldRef ==> StartsWith(Key(t).value, "ref_")
  {
    FixedRenderedWhenRooted(t, TypeRender.CanonicalMode);
  }

  lemma {:induction false} FixedRenderedWhenRooted(t: TypeData, m: TypeRender.Mode)
    requires Rooted(t)
    ensures FixedStringPath(t, m).Some?
    decreases t, 1
  {
    if t.root != Primitive {
      FixedArgPathsWhenRooted(t, m, 0);
    }
  }

  lemma {:induction false} FixedArgPathsWhenRooted(t: TypeData, m: TypeRender.Mode, i: nat)
    requires i <= |t.args|
    requires forall j :: i <= j < |t.args| ==> Rooted(t.args[j])
    ensures FixedArgPaths(t, m, i).Some?
    decreases t, 0, |t.args| - i
  {
    if i < |t.args| {
      assert t.args[i] in t.args;
      FixedRenderedWhenRooted(t.args[i], m);
      FixedArgPathsWhenRooted(t, m, i + 1);
    }
  }

  // ---------------------------------------------------------------------------
  // Parsing: `type_from_syn_type` of processor/src/manifests.rs. Paths must be
  // fully qualified; only a single prelude or primitive name may stand alone.

  const FullyQualifiedMsg := "types must be fully qualified. it should either start with \"::\" or \"crate::\""
  const EmptySegmentsMsg := "empty segments"
  const ArgsNotLastMsg := "arguments only supported in the last segment of the path"
  const GenericArgMsg := "unable to handle generic argument"
  const OneTraitMsg := "one and only one trait expected"
  const UnhandledTypeMsg := "unable to handle type"

  /// `type_from_syn_type`; `currentCrate` is the crate `crate::` refers to.
  function FromSynType(t: SynType, currentCrate: string): Result<TypeData>
    decreases t
  {
    match t
    case PathType(p) => FromPath(p, currentCrate)
    case TraitObject(bs) =>
      var r :- FromBounds(bs, currentCrate);
      Ok(r.(traitObject := true))
    case ImplTrait(bs) =>
      var r :- FromBounds(bs, currentCrate);
      Ok(r.(traitObject := true))
    case Reference(e) =>
      var r :- FromSynType(e, currentCrate);
      Ok(r.(fieldRef := true))
    case OtherType => Err(UnhandledTypeMsg)
  }

  /// `type_from_type_param_bound`.
  function FromBounds(bs: seq<Bound>, currentCrate: string): Result<TypeData>
    decreases bs
  {
    if |Traits(bs)| != 1 then Err(OneTraitMsg)
    else
      var i := FirstTrait(bs);
      assert bs[i] in bs && bs[i].path < bs[i];
      FromPath(bs[i].path, currentCrate)
  }

  /// `type_from_path`.
  function FromPath(p: SynPath, currentCrate: string): Result<TypeData>
    decreases p
  {
    var segs := p.segments;
    if p.leadingColon then
      var r := NewType().(root := Global);
      if |segs| == 0 then Ok(r) else AppendSegments(r, segs, currentCrate)
    else if |segs| == 0 then Err(EmptySegmentsMsg)
    else if segs[0].ident == "crate" then
      var r := NewType().(root := Crate, fieldCrate := currentCrate);
      if |segs| == 1 then Ok(r) else AppendSegments(r, segs[1..], currentCrate)
    else if |segs| == 1 && ProtoPrelude(segs[0].ident).Some? then
      var a :- GetArgs(segs[0], currentCrate);
      Ok(NewType().(root := Global, path := ProtoPrelude(segs[0].ident).value, args := a))
    else if |segs| == 1 && IsPrimitive(segs[0].ident) then
      var a :- GetArgs(segs[0], currentCrate);
      Ok(NewType().(root := Primitive, path := segs[0].ident, args := a))
    else Err(FullyQualifiedMsg)
  }

  /// The `while let` loop of `type_from_path`.
  function AppendSegments(r: TypeData, segs: seq<Segment>, currentCrate: string): Result<TypeData>
    requires |segs| > 0
    decreases segs
  {
    if |segs| == 1 then
      var a :- GetArgs(segs[0], currentCrate);
      Ok(r.(path := r.path + segs[0].ident, args := r.args + a))
    else if !ArgsEmpty(segs[0].arguments) then Err(ArgsNotLastMsg)
    else AppendSegments(r.(path := r.path + segs[0].ident + "::"), segs[1..], currentCrate)
  }

  /// `get_args`.
  function GetArgs(seg: Segment, currentCrate: string): Result<seq<TypeData>>
    decreases seg
  {
    match seg.arguments
    case Angle(args) => AngleArgs(args, currentCrate)
    case _ => Ok([])
  }

  function AngleArgs(args: seq<GenericArg>, currentCrate: string): Result<seq<TypeData>>
    decreases args
  {
    if |args| == 0 then Ok([])
    else match args[0]
      case TypeArg(t) =>
        assert args[0] in args && t < args[0];
        var h :- FromSynType(t, currentCrate);
        var rest :- AngleArgs(args[1..], currentCrate);
        Ok([h] + rest)
      case LifetimeArg => AngleArgs(args[1..], currentCrate)
      case OtherArg => Err(GenericArgMsg)
  }

  /// `extend`: pushes every element of `v` onto `r`, in order.
  method Extend<T>(r: seq<T>, v: seq<T>) returns (res: seq<T>)
    ensures res == r + v
  {
    res := r;
    var i := 0;
    while i < |v|
      invariant 0 <= i <= |v|
      invariant res == r + v[..i]
    {
      res := res + [v[i]];
      i := i + 1;
      assert v[..i] == v[..i - 1] + [v[i - 1]];
    }
    assert v[..|v|] == v;
  }

  /// `type_from_path` as the source writes it: the classification of the
  /// head, then the loop over the remaining segments.
  method FromPathLoop(p: SynPath, currentCrate: string) returns (res: Result<TypeData>)
    ensures res == FromPath(p, currentCrate)
  {
    var segs := p.segments;
    var result: TypeData;
    var k: nat;
    if p.leadingColon {
      result := NewType().(root := Global);
      k := 0;
    } else if |segs| == 0 {
      return Err(EmptySegmentsMsg);
    } else if segs[0].ident == "crate" {
      result := NewType().(root := Crate, fieldCrate := currentCrate);
      k := 1;
    } else {
      if |segs| == 1 {
        var prelude := ProtoPrelude(segs[0].ident);
        if prelude.Some? {
          var a := GetArgs(segs[0], currentCrate);
          if a.Err? {
            return Err(a.msg);
          }
          var args := Extend([], a.value);
          assert args == a.value;
          return Ok(NewType().(root := Global, path := prelude.value, args := args));
        }
        if IsPrimitive(segs[0].ident) {
          var a := GetArgs(segs[0], currentCrate);
          if a.Err? {
            return Err(a.msg);
          }
          var args := Extend([], a.value);
          assert args == a.value;
          return Ok(NewType().(root := Primitive, path := segs[0].ident, args := args));
        }
      }
      return Err(FullyQualifiedMsg);
    }
    if k == |segs| {
      return Ok(result);
    }
    ghost var start := result;
    ghost var k0 := k;
    while true
      invariant k0 <= k < |segs|
      invariant AppendSegments(start, segs[k0..], currentCrate) ==
                AppendSegments(result, segs[k..], currentCrate)
      decreases |segs| - k
    {
      var segment := segs[k];
      result := result.(path := result.path + segment.ident);
      if k + 1 < |segs| {
        result := result.(path := result.path + "::");
        if !ArgsEmpty(segment.arguments) {
          return Err(ArgsNotLastMsg);
        }
        assert segs[k..][1..] == segs[k + 1..];
        k := k + 1;
      } else {
        var a := GetArgs(segment, currentCrate);
        if a.Err? {
          return Err(a.msg);
        }
        var args := Extend(result.args, a.value);
        return Ok(result.(args := args));
      }
    }
  }

  // ---------------------------------------------------------------------------
  // Parsing properties

  lemma {:induction false} AppendSegmentsMeaning(r: TypeData, segs: seq<Segment>, cc: string)
    requires |segs| > 0
    ensures AppendSegments(r, segs, cc).Ok? <==>
              (forall i :: 0 <= i < |segs| - 1 ==> ArgsEmpty(segs[i].arguments))
              && GetArgs(segs[|segs| - 1], cc).Ok?
    ensures AppendSegments(r, segs, cc).Ok? ==>
              AppendSegments(r, segs, cc).value ==
                r.(path := r.path + Join(Idents(segs), "::"),
                   args := r.args + GetArgs(segs[|segs| - 1], cc).value)
    decreases |segs|
  {
    if |segs| > 1 {
      var r' := r.(path := r.path + segs[0].ident + "::");
      AppendSegmentsMeaning(r', segs[1..], cc);
      assert Idents(segs) == [segs[0].ident] + Idents(segs[1..]);
      JoinCons(segs[0].ident, Idents(segs[1..]), "::");
      assert r.path + Join(Idents(segs), "::") == r'.path + Join(Idents(segs[1..]), "::");
      assert segs[1..][|segs| - 2] == segs[|segs| - 1];
      if ArgsEmpty(segs[0].arguments) {
        assert (forall i :: 0 <= i < |segs| - 1 ==> ArgsEmpty(segs[i].arguments)) <==>
               (forall i :: 0 <= i < |segs| - 2 ==> ArgsEmpty(segs[1..][i].arguments));
      }
    }
  }

  /// The four path forms `type_from_path` accepts, and the rejection of
  /// every other one.
  lemma FromPathForms(p: SynPath, cc: string)
    ensures p.leadingColon && FromPath(p, cc).Ok? ==>
              FromPath(p, cc).value.root == Global
              && FromPath(p, cc).value.path == Join(Idents(p.segments), "::")
    ensures !p.leadingColon && |p.segments| >= 1 && p.segments[0].ident == "crate"
            && FromPath(p, cc).Ok? ==>
              FromPath(p, cc).value.root == Crate
              && FromPath(p, cc).value.fieldCrate == cc
              && FromPath(p, cc).value.path == Join(Idents(p.segments[1..]), "::")
    ensures !p.leadingColon && |p.segments| == 1 && ProtoPrelude(p.segments[0].ident).Some? ==>
              (FromPath(p, cc).Ok? <==> GetArgs(p.segments[0], cc).Ok?)
              && (FromPath(p, cc).Ok? ==>
                    FromPath(p, cc).value.root == Global
                    && FromPath(p, cc).value.path == ProtoPrelude(p.segments[0].ident).value)
    ensures !p.leadingColon && |p.segments| == 1 && ProtoPrelude(p.segments[0].ident).None?
            && IsPrimitive(p.segments[0].ident) ==>
              (FromPath(p, cc).Ok? <==> GetArgs(p.segments[0], cc).Ok?)
              && (FromPath(p, cc).Ok? ==>
                    FromPath(p, cc).value.root == Primitive
                    && FromPath(p, cc).value.path == p.segments[0].ident)
    ensures !p.leadingColon && |p.segments| >= 1 && p.segments[0].ident != "crate"
            && !(|p.segments| == 1 && (ProtoPrelude(p.segments[0].ident).Some?
                                       || IsPrimitive(p.segments[0].ident))) ==>
              FromPath(p, cc) == Err(FullyQualifiedMsg)
    ensures !p.leadingColon && |p.segments| == 0 ==> FromPath(p, cc) == Err(EmptySegmentsMsg)
  {
    var segs := p.segments;
    if p.leadingColon && |segs| > 0 {
      AppendSegmentsMeaning(NewType().(root := Global), segs, cc);
    }
    if !p.leadingColon && |segs| > 1 && segs[0].ident == "crate" {
      AppendSegmentsMeaning(NewType().(root := Crate, fieldCrate := cc), segs[1..], cc);
    }
  }

  /// Every type `type_from_syn_type` accepts has its roots set, so rendering
  /// it never panics.
  lemma {:induction false} FromSynTypeRooted(t: SynType, cc: string)
    ensures FromSynType(t, cc).Ok? ==> Rooted(FromSynType(t, cc).value)
    decreases t
  {
    match t
    case PathType(p) => FromPathRooted(p, cc);
    case TraitObject(bs) => FromBoundsRooted(bs, cc);
    case ImplTrait(bs) => FromBoundsRooted(bs, cc);
    case Reference(e) => FromSynTypeRooted(e, cc);
    case OtherType =>
  }

  lemma {:induction false} FromBoundsRooted(bs: seq<Bound>, cc: string)
    ensures FromBounds(bs, cc).Ok? ==> Rooted(FromBounds(bs, cc).value)
    decreases bs
  {
    if |Traits(bs)| == 1 {
      var i := FirstTrait(bs);
      assert bs[i] in bs && bs[i].path < bs[i];
      FromPathRooted(bs[i].path, cc);
    }
  }

  lemma {:induction false} FromPathRooted(p: SynPath, cc: string)
    ensures FromPath(p, cc).Ok? ==> Rooted(FromPath(p, cc).value)
    decreases p
  {
    var segs := p.segments;
    if p.leadingColon {
      if |segs| > 0 {
        AppendSegmentsRooted(NewType().(root := Global), segs, cc);
      }
    } else if |segs| == 0 {
    } else if segs[0].ident == "crate" {
      if |segs| > 1 {
        AppendSegmentsRooted(NewType().(root := Crate, fieldCrate := cc), segs[1..], cc);
      }
    } else if |segs| == 1 {
      GetArgsRooted(segs[0], cc);
    }
  }

  lemma {:induction false} AppendSegmentsRooted(r: TypeData, segs: seq<Segment>, cc: string)
    requires Rooted(r) && |segs| > 0
    ensures AppendSegments(r, segs, cc).Ok? ==> Rooted(AppendSegments(r, segs, cc).value)
    decreases segs
  {
    if |segs| == 1 {
      GetArgsRooted(segs[0], cc);
    } else if ArgsEmpty(segs[0].arguments) {
      AppendSegmentsRooted(r.(path := r.path + segs[0].ident + "::"), segs[1..], cc);
    }
  }

  lemma {:induction false} GetArgsRooted(seg: Segment, cc: string)
    ensures GetArgs(seg, cc).Ok? ==>
              forall i :: 0 <= i < |GetArgs(seg, cc).value| ==> Rooted(GetArgs(seg, cc).value[i])
    decreases seg
  {
    if seg.arguments.Angle? {
      AngleArgsRooted(seg.arguments.args, cc);
    }
  }

  lemma {:induction false} AngleArgsRooted(args: seq<GenericArg>, cc: string)
    ensures AngleArgs(args, cc).Ok? ==>
              forall i :: 0 <= i < |AngleArgs(args, cc).value| ==> Rooted(AngleArgs(args, cc).value[i])
    decreases args
  {
    if |args| > 0 {
      match args[0]
      case TypeArg(t) =>
        assert args[0] in args && t < args[0];
        FromSynTypeRooted(t, cc);
        AngleArgsRooted(args[1..], cc);
      case LifetimeArg => AngleArgsRooted(args[1..], cc);
      case OtherArg =>
    }
  }
}
