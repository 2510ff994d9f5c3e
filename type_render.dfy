// Rendering of `TypeData` (common/src/type_data.rs): canonical and local
// string paths, the identifier string that defines equality and hashing, and
// the human-readable form. A renderer that panics on an UNSPECIFIED root
// returns `None`.
module TypeRender {
  import opened Outcomes
  import opened Types
  import opened Strs

  /// Which of the two string forms is rendered. `local_string_path` needs the
  /// name of the crate being compiled (`CARGO_CRATE_NAME`).
  datatype Mode = CanonicalMode | LocalMode(currentCrate: string)

  /// `get_prefix`: "& " for a reference, then "dyn " for a trait object.
  function Prefix(t: TypeData): string
  {
    (if t.fieldRef then "& " else "") + (if t.traitObject then "dyn " else "")
  }

  /// `canonical_string_path` (CanonicalMode) and `local_string_path` (LocalMode).
  function StringPath(t: TypeData, m: Mode): Option<string>
    decreases t, 2
  {
    match t.root
    case Unspecified => None
    case Primitive => Some(Prefix(t) + t.path)
    case Global =>
      var p := PathWithArgs(t, m);
      if p.None? then None else Some(Prefix(t) + "::" + p.value)
    case Crate =>
      var p := PathWithArgs(t, m);
      if p.None? then None
      else match m
        case CanonicalMode => Some(Prefix(t) + "::" + t.fieldCrate + "::" + p.value)
        case LocalMode(cc) =>
          if cc == t.fieldCrate then Some(Prefix(t) + "crate::" + p.value)
          else Some(Prefix(t) + t.fieldCrate + "::" + p.value)
  }

  function Canonical(t: TypeData): Option<string>
  {
    StringPath(t, CanonicalMode)
  }

  /// `path_with_args`: the bare path, or the path followed by the rendered
  /// arguments joined by "," inside "<" and ">".
  function PathWithArgs(t: TypeData, m: Mode): Option<string>
    decreases t, 1
  {
    if |t.args| == 0 then Some(t.path)
    else
      var a := ArgPaths(t, m, 0);
      if a.None? then None else Some(t.path + "<" + Join(a.value, ",") + ">")
  }

  /// The rendered arguments `t.args[i..]`, or `None` when one of them panics.
  function ArgPaths(t: TypeData, m: Mode, i: nat): (r: Option<seq<string>>)
    requires i <= |t.args|
    ensures r.Some? ==> |r.value| == |t.args| - i
    decreases t, 0, |t.args| - i
  {
    if i == |t.args| then Some([])
    else
      assert t.args[i] in t.args;
      var h := StringPath(t.args[i], m);
      var rest := ArgPaths(t, m, i + 1);
      if h.None? || rest.None? then None else Some([h.value] + rest.value)
  }

  /// `canonical_string_path_without_args`: drops the arguments of a CRATE
  /// type only.
  function CanonicalWithoutArgs(t: TypeData): Option<string>
  {
    match t.root
    case Unspecified => None
    case Primitive => Some(Prefix(t) + t.path)
    case Global =>
      var p := PathWithArgs(t, CanonicalMode);
      if p.None? then None else Some(Prefix(t) + "::" + p.value)
    case Crate => Some(Prefix(t) + "::" + t.fieldCrate + "::" + t.path)
  }

  /// The eight replacements `identifier_string` applies to the canonical path,
  /// in the source's order.
  function Escape(s: string): string
  {
    var s1 := ReplaceColons(s, 'ⵆ');
    var s2 := ReplaceChar(s1, '<', 'ᐸ');
    var s3 := ReplaceChar(s2, '>', 'ᐳ');
    var s4 := ReplaceChar(s3, '-', '_');
    var s5 := ReplaceChar(s4, ' ', '_');
    var s6 := ReplaceChar(s5, '\'', 'ᐠ');
    var s7 := ReplaceChar(s6, '&', 'ε');
    ReplaceChar(s7, ',', 'ᒧ')
  }

  /// `identifier_string`: "ᑕ<qualifier identifier>ᑐ_" when qualified, then the
  /// escaped canonical path, "_" and the identifier suffix.
  function Identifier(t: TypeData): Option<string>
    decreases t
  {
    var q := if t.qualifier.Some? then Identifier(t.qualifier.value) else Some("");
    var c := Canonical(t);
    if q.None? || c.None? then None
    else
      var qp := if t.qualifier.Some? then "ᑕ" + q.value + "ᑐ_" else "";
      Some(qp + Escape(c.value) + "_" + t.identifierSuffix)
  }

  /// `PartialEq`/`Hash` for `TypeData`: two types are the same binding key
  /// exactly when their identifier strings are equal.
  predicate SameType(a: TypeData, b: TypeData)
  {
    Identifier(a) == Identifier(b)
  }

  /// `readable`: "#[qualified(<q>)] " when qualified, "ref " for a reference,
  /// then the canonical path.
  function Readable(t: TypeData): Option<string>
    decreases t
  {
    var q := if t.qualifier.Some? then Readable(t.qualifier.value) else Some("");
    var c := Canonical(t);
    if q.None? || c.None? then None
    else
      var qp := if t.qualifier.Some? then "#[qualified(" + q.value + ")] " else "";
      Some(qp + (if t.fieldRef then "ref " else "") + c.value)
  }

  // ---------------------------------------------------------------------------
  // Properties

  /// Renders never panic on a type whose roots are all specified, and always
  /// panic on an UNSPECIFIED root.
  lemma {:induction false} RenderedWhenRooted(t: TypeData, m: Mode)
    ensures Rooted(t) ==> StringPath(t, m).Some?
    ensures t.root == Unspecified ==> StringPath(t, m).None?
    decreases t, 1
  {
    if Rooted(t) && t.root != Primitive {
      ArgPathsWhenRooted(t, m, 0);
    }
  }

  lemma {:induction false} ArgPathsWhenRooted(t: TypeData, m: Mode, i: nat)
    requires i <= |t.args|
    requires forall j :: i <= j < |t.args| ==> Rooted(t.args[j])
    ensures ArgPaths(t, m, i).Some?
    decreases t, 0, |t.args| - i
  {
    if i < |t.args| {
      assert t.args[i] in t.args;
      RenderedWhenRooted(t.args[i], m);
      ArgPathsWhenRooted(t, m, i + 1);
    }
  }

  /// The j-th rendered argument is the rendering of the j-th argument.
  lemma {:induction false} ArgPathsAt(t: TypeData, m: Mode, i: nat, j: nat)
    requires i <= j < |t.args|
    requires ArgPaths(t, m, i).Some?
    ensures StringPath(t.args[j], m).Some?
    ensures ArgPaths(t, m, i).value[j - i] == StringPath(t.args[j], m).value
    decreases |t.args| - i
  {
    if i < j {
      ArgPathsAt(t, m, i + 1, j);
    }
  }

  /// The escaped canonical path holds none of the separators a Rust identifier
  /// cannot contain: no "::", "<", ">", "-", " ", "'", "&" or ",".
  lemma EscapeRemovesSeparators(s: string)
    ensures NoDoubleColon(Escape(s))
    ensures forall x :: x in "<>- '&," ==> x !in Escape(s)
  {
    var s1 := ReplaceColons(s, 'ⵆ');
    var s2 := ReplaceChar(s1, '<', 'ᐸ');
    var s3 := ReplaceChar(s2, '>', 'ᐳ');
    var s4 := ReplaceChar(s3, '-', '_');
    var s5 := ReplaceChar(s4, ' ', '_');
    var s6 := ReplaceChar(s5, '\'', 'ᐠ');
    var s7 := ReplaceChar(s6, '&', 'ε');
    var s8 := ReplaceChar(s7, ',', 'ᒧ');
    ReplaceColonsRemovesAll(s, 'ⵆ');
    ReplaceCharKeepsNoDoubleColon(s1, '<', 'ᐸ');
    ReplaceCharKeepsNoDoubleColon(s2, '>', 'ᐳ');
    ReplaceCharKeepsNoDoubleColon(s3, '-', '_');
    ReplaceCharKeepsNoDoubleColon(s4, ' ', '_');
    ReplaceCharKeepsNoDoubleColon(s5, '\'', 'ᐠ');
    ReplaceCharKeepsNoDoubleColon(s6, '&', 'ε');
    ReplaceCharKeepsNoDoubleColon(s7, ',', 'ᒧ');
    ReplaceCharRemoves(s1, '<', 'ᐸ');
    ReplaceCharKeepsAbsent(s2, '>', 'ᐳ', '<');
    ReplaceCharKeepsAbsent(s3, '-', '_', '<');
    ReplaceCharKeepsAbsent(s4, ' ', '_', '<');
    ReplaceCharKeepsAbsent(s5, '\'', 'ᐠ', '<');
    ReplaceCharKeepsAbsent(s6, '&', 'ε', '<');
    ReplaceCharKeepsAbsent(s7, ',', 'ᒧ', '<');
    ReplaceCharRemoves(s2, '>', 'ᐳ');
    ReplaceCharKeepsAbsent(s3, '-', '_', '>');
    ReplaceCharKeepsAbsent(s4, ' ', '_', '>');
    ReplaceCharKeepsAbsent(s5, '\'', 'ᐠ', '>');
    ReplaceCharKeepsAbsent(s6, '&', 'ε', '>');
    ReplaceCharKeepsAbsent(s7, ',', 'ᒧ', '>');
    ReplaceCharRemoves(s3, '-', '_');
    ReplaceCharKeepsAbsent(s4, ' ', '_', '-');
    ReplaceCharKeepsAbsent(s5, '\'', 'ᐠ', '-');
    ReplaceCharKeepsAbsent(s6, '&', 'ε', '-');
    ReplaceCharKeepsAbsent(s7, ',', 'ᒧ', '-');
    ReplaceCharRemoves(s4, ' ', '_');
    ReplaceCharKeepsAbsent(s5, '\'', 'ᐠ', ' ');
    ReplaceCharKeepsAbsent(s6, '&', 'ε', ' ');
    ReplaceCharKeepsAbsent(s7, ',', 'ᒧ', ' ');
    ReplaceCharRemoves(s5, '\'', 'ᐠ');
    ReplaceCharKeepsAbsent(s6, '&', 'ε', '\'');
    ReplaceCharKeepsAbsent(s7, ',', 'ᒧ', '\'');
    ReplaceCharRemoves(s6, '&', 'ε');
    ReplaceCharKeepsAbsent(s7, ',', 'ᒧ', '&');
    ReplaceCharRemoves(s7, ',', 'ᒧ');
  }

  /// Shape of `identifier_string` on a rooted type: the qualifier part exactly
  /// when qualified, an escaped middle free of separators, and
  /// "_" + `identifier_suffix` at the end.
  lemma IdentifierShape(t: TypeData)
    requires Rooted(t)
    ensures Identifier(t).Some?
    ensures exists mid: string ::
      && NoDoubleColon(mid)
      && (forall x :: x in "<>- '&," ==> x !in mid)
      && Identifier(t).value ==
           (if t.qualifier.Some? then "ᑕ" + Identifier(t.qualifier.value).value + "ᑐ_" else "")
           + mid + "_" + t.identifierSuffix
  {
    RenderedWhenRooted(t, CanonicalMode);
    if t.qualifier.Some? {
      IdentifierShape(t.qualifier.value);
    }
    var mid := Escape(Canonical(t).value);
    EscapeRemovesSeparators(Canonical(t).value);
    assert NoDoubleColon(mid) && (forall x :: x in "<>- '&," ==> x !in mid);
  }

  /// Equality of `TypeData` ignores the scopes entirely.
  lemma {:induction false} ScopesIgnored(t: TypeData, s: seq<TypeData>)
    ensures Identifier(t.(scopes := s)) == Identifier(t)
    ensures SameType(t, t.(scopes := s))
  {
    var u := t.(scopes := s);
    assert u.args == t.args;
    if |t.args| > 0 {
      ArgPathsSameArgs(t, u, CanonicalMode, 0);
    }
    assert PathWithArgs(u, CanonicalMode) == PathWithArgs(t, CanonicalMode);
    assert Canonical(u) == Canonical(t);
  }

  lemma {:induction false} ArgPathsSameArgs(t: TypeData, u: TypeData, m: Mode, i: nat)
    requires t.args == u.args && i <= |t.args|
    ensures ArgPaths(t, m, i) == ArgPaths(u, m, i)
    decreases |t.args| - i
  {
    if i < |t.args| {
      ArgPathsSameArgs(t, u, m, i + 1);
    }
  }

  /// Without arguments only a CRATE type's rendering changes, and for a
  /// CRATE type without arguments the two renderings coincide.
  lemma WithoutArgsOnlyDiffersForCrate(t: TypeData)
    ensures t.root != Crate ==> CanonicalWithoutArgs(t) == Canonical(t)
    ensures t.root == Crate ==> CanonicalWithoutArgs(t) == Some(Prefix(t) + "::" + t.fieldCrate + "::" + t.path)
    ensures t.root == Crate && |t.args| == 0 ==> CanonicalWithoutArgs(t) == Canonical(t)
  {
    if |t.args| == 0 {
      assert PathWithArgs(t, CanonicalMode) == Some(t.path);
    }
  }

  /// `readable` starts with the qualifier part exactly when qualified, then
  /// "ref " exactly for a reference, and ends with the canonical path.
  lemma ReadableShape(t: TypeData)
    requires Rooted(t)
    ensures Readable(t).Some?
    ensures t.qualifier.Some? ==> StartsWith(Readable(t).value, "#[qualified(")
    ensures t.qualifier.None? ==>
              Readable(t).value == (if t.fieldRef then "ref " else "") + Canonical(t).value
    ensures EndsWith(Readable(t).value, Canonical(t).value)
  {
    RenderedWhenRooted(t, CanonicalMode);
    if t.qualifier.Some? {
      ReadableShape(t.qualifier.value);
    }
  }
}
