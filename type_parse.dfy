// Classification of a syntactic type into a `TypeData`: `from_syn_type`,
// `from_type_param_bound`, `from_path` and `get_args`. The three copies in
// common/src/type_data.rs, src/type_data.rs and processor/src/type_data.rs
// have the same text and differ only in where the crate name and the
// resolution of a bare first segment come from; that difference is the
// `Scope` parameter.
module TypeParse {
  import opened Outcomes
  import opened Types
  import opened Strs
  import opened Syn

  /// The context a path is read in: the crate a `crate::` path belongs to,
  /// and the resolution of a first segment through the enclosing module's
  /// `use` declarations (`Mod::resolve_path`, or the prologue's
  /// `resolve_path`, which can fail).
  datatype Scope = Scope(crateName: string, resolve: string -> Option<TypeData>)

  const EmptySegmentsMsg := "empty segments"
  const UnresolvedMsg := "lockjaw is unable to resolve the type, consider using fully qualified path (start with \"::\" or \"crate::\")"
  const ArgsNotLastMsg := "arguments only supported in the last segment of the path"
  const GenericArgMsg := "unable to handle generic argument"
  const OneTraitMsg := "one and only one trait expected"
  const UnhandledTypeMsg := "unable to handle type"
  /// `segment_iter.next().unwrap()` on a path that is only "::".
  const NoSegmentPanic := "panic: leading \"::\" without a segment"

  /// `from_syn_type`.
  function FromSynType(t: SynType, sc: Scope): Result<TypeData>
    decreases t
  {
    match t
    case PathType(p) => FromPath(p, sc)
    case TraitObject(bs) =>
      var r :- FromBounds(bs, sc);
      Ok(r.(traitObject := true))
    case ImplTrait(bs) =>
      var r :- FromBounds(bs, sc);
      Ok(r.(traitObject := true))
    case Reference(e) =>
      var r :- FromSynType(e, sc);
      Ok(r.(fieldRef := true))
    case OtherType => Err(UnhandledTypeMsg)
  }

  /// `from_type_param_bound`: exactly one of the bounds must be a trait.
  function FromBounds(bs: seq<Bound>, sc: Scope): Result<TypeData>
    decreases bs
  {
    var traits := Traits(bs);
    if |traits| != 1 then Err(OneTraitMsg)
    else
      var i := FirstTrait(bs);
      assert bs[i] in bs && bs[i].path < bs[i];
      FromPath(bs[i].path, sc)
  }

  /// `from_path`.
  function FromPath(p: SynPath, sc: Scope): Result<TypeData>
    decreases p
  {
    var segs := p.segments;
    if p.leadingColon then
      if |segs| == 0 then Err(NoSegmentPanic)
      else
        var r := NewType().(root := Global, path := segs[0].ident + "::");
        if |segs| == 1 then Ok(r) else AppendSegments(r, segs[1..], sc)
    else if |segs| == 0 then Err(EmptySegmentsMsg)
    else if segs[0].ident == "crate" then
      var r := NewType().(root := Crate, fieldCrate := sc.crateName);
      if |segs| == 1 then Ok(r) else AppendSegments(r, segs[1..], sc)
    else if |segs| == 1 && Prelude(segs[0].ident).Some? then
      var a :- GetArgs(segs[0], sc);
      Ok(NewType().(root := Global, path := Prelude(segs[0].ident).value, args := a))
    else if |segs| == 1 && IsPrimitive(segs[0].ident) then
      var a :- GetArgs(segs[0], sc);
      Ok(NewType().(root := Primitive, path := segs[0].ident, args := a))
    else
      match sc.resolve(segs[0].ident)
      case None => Err(UnresolvedMsg)
      case Some(r) =>
        if |segs| == 1 then
          var a :- GetArgs(segs[0], sc);
          Ok(r.(args := r.args + a))
        else AppendSegments(r.(path := r.path + "::"), segs[1..], sc)
  }

  /// The `while let` loop of `from_path`: appends each identifier, "::"
  /// between them, rejects arguments on every segment but the last and takes
  /// the last segment's arguments.
  function AppendSegments(r: TypeData, segs: seq<Segment>, sc: Scope): Result<TypeData>
    requires |segs| > 0
    decreases segs
  {
    if |segs| == 1 then
      var a :- GetArgs(segs[0], sc);
      Ok(r.(path := r.path + segs[0].ident, args := r.args + a))
    else if !ArgsEmpty(segs[0].arguments) then Err(ArgsNotLastMsg)
    else AppendSegments(r.(path := r.path + segs[0].ident + "::"), segs[1..], sc)
  }

  /// `get_args`: the type arguments of `<...>`; lifetimes are dropped, any
  /// other generic argument is an error, and `(...)` arguments give none.
  function GetArgs(seg: Segment, sc: Scope): Result<seq<TypeData>>
    decreases seg
  {
    match seg.arguments
    case Angle(args) => AngleArgs(args, sc)
    case _ => Ok([])
  }

  function AngleArgs(args: seq<GenericArg>, sc: Scope): Result<seq<TypeData>>
    decreases args
  {
    if |args| == 0 then Ok([])
    else match args[0]
      case TypeArg(t) =>
        assert args[0] in args && t < args[0];
        var h :- FromSynType(t, sc);
        var rest :- AngleArgs(args[1..], sc);
        Ok([h] + rest)
      case LifetimeArg => AngleArgs(args[1..], sc)
      case OtherArg => Err(GenericArgMsg)
  }

  /// The number of type arguments among `args`.
  function CountTypeArgs(args: seq<GenericArg>): nat
  {
    if |args| == 0 then 0 else (if args[0].TypeArg? then 1 else 0) + CountTypeArgs(args[1..])
  }

  // ---------------------------------------------------------------------------
  // The loops of the source, proved against the functions above.

  /// `from_path` as the source writes it: a classification of the head
  /// followed by a `while let` loop over the remaining segments.
  method FromPathLoop(p: SynPath, sc: Scope) returns (res: Result<TypeData>)
    ensures res == FromPath(p, sc)
  {
    var segs := p.segments;
    var result: TypeData;
    var k: nat;
    if p.leadingColon {
      if |segs| == 0 {
        return Err(NoSegmentPanic);
      }
      result := NewType().(root := Global, path := segs[0].ident + "::");
      k := 1;
    } else if |segs| == 0 {
      return Err(EmptySegmentsMsg);
    } else if segs[0].ident == "crate" {
      result := NewType().(root := Crate, fieldCrate := sc.crateName);
      k := 1;
    } else {
      if |segs| == 1 && Prelude(segs[0].ident).Some? {
        var a := GetArgs(segs[0], sc);
        if a.Err? {
          return Err(a.msg);
        }
        return Ok(NewType().(root := Global, path := Prelude(segs[0].ident).value, args := a.value));
      }
      if |segs| == 1 && IsPrimitive(segs[0].ident) {
        var a := GetArgs(segs[0], sc);
        if a.Err? {
          return Err(a.msg);
        }
        return Ok(NewType().(root := Primitive, path := segs[0].ident, args := a.value));
      }
      var resolved := sc.resolve(segs[0].ident);
      if resolved.None? {
        return Err(UnresolvedMsg);
      }
      result := resolved.value;
      if |segs| == 1 {
        var a := GetArgs(segs[0], sc);
        if a.Err? {
          return Err(a.msg);
        }
        return Ok(result.(args := result.args + a.value));
      }
      result := result.(path := result.path + "::");
      k := 1;
    }
    if k == |segs| {
      return Ok(result);
    }
    ghost var start := result;
    while true
      invariant 1 <= k < |segs|
      invariant AppendSegments(start, segs[1..], sc) == AppendSegments(result, segs[k..], sc)
      decreases |segs| - k
    {
      var segment := segs[k];
      result := result.(path := result.path + segment.ident);
      if k + 1 < |segs| {
        result := result.(path := result.path + "::");
        if !ArgsEmpty(segment.arguments) {
          return Err(ArgsNotLastMsg);
        }
        assert segs[k..][1..] == segs[k + 1..];
      } else {
        var a := GetArgs(segment, sc);
        if a.Err? {
          return Err(a.msg);
        }
        return Ok(result.(args := result.args + a.value));
      }
      k := k + 1;
    }
  }

  // ---------------------------------------------------------------------------
  // Properties

  /// The loop appends the "::"-joined identifiers and the last segment's
  /// arguments, and succeeds exactly when no earlier segment has arguments
  /// and the last one's arguments parse.
  lemma {:induction false} AppendSegmentsMeaning(r: TypeData, segs: seq<Segment>, sc: Scope)
    requires |segs| > 0
    ensures AppendSegments(r, segs, sc).Ok? <==>
              (forall i :: 0 <= i < |segs| - 1 ==> ArgsEmpty(segs[i].arguments))
              && GetArgs(segs[|segs| - 1], sc).Ok?
    ensures AppendSegments(r, segs, sc).Ok? ==>
              AppendSegments(r, segs, sc).value ==
                r.(path := r.path + Join(Idents(segs), "::"),
                   args := r.args + GetArgs(segs[|segs| - 1], sc).value)
    decreases |segs|
  {
    if |segs| > 1 {
      var r' := r.(path := r.path + segs[0].ident + "::");
      AppendSegmentsMeaning(r', segs[1..], sc);
      assert Idents(segs) == [segs[0].ident] + Idents(segs[1..]);
      JoinCons(segs[0].ident, Idents(segs[1..]), "::");
      assert r.path + Join(Idents(segs), "::") == r'.path + Join(Idents(segs[1..]), "::");
      assert segs[1..][|segs| - 2] == segs[|segs| - 1];
      if !ArgsEmpty(segs[0].arguments) {
        assert AppendSegments(r, segs, sc) == Err(ArgsNotLastMsg);
      } else {
        assert AppendSegments(r, segs, sc) == AppendSegments(r', segs[1..], sc);
        assert (forall i :: 0 <= i < |segs| - 1 ==> ArgsEmpty(segs[i].arguments)) <==>
               (forall i :: 0 <= i < |segs| - 2 ==> ArgsEmpty(segs[1..][i].arguments));
      }
    }
  }

  /// A path starting with "::" is GLOBAL and its path is the identifiers
  /// joined by "::"; with a single segment the path keeps a trailing "::".
  lemma FromPathGlobal(p: SynPath, sc: Scope)
    requires p.leadingColon && |p.segments| >= 1
    ensures |p.segments| == 1 ==>
              FromPath(p, sc) == Ok(NewType().(root := Global, path := p.segments[0].ident + "::"))
    ensures |p.segments| >= 2 && FromPath(p, sc).Ok? ==>
              FromPath(p, sc).value.root == Global
              && FromPath(p, sc).value.path == Join(Idents(p.segments), "::")
              && FromPath(p, sc).value.fieldCrate == ""
  {
    var segs := p.segments;
    if |segs| >= 2 {
      var r := NewType().(root := Global, path := segs[0].ident + "::");
      AppendSegmentsMeaning(r, segs[1..], sc);
      assert Idents(segs) == [segs[0].ident] + Idents(segs[1..]);
      JoinCons(segs[0].ident, Idents(segs[1..]), "::");
    }
  }

  /// A path whose first segment is `crate` is CRATE, belongs to the scope's
  /// crate, and its path is the remaining identifiers joined by "::".
  lemma FromPathCrate(p: SynPath, sc: Scope)
    requires !p.leadingColon && |p.segments| >= 1 && p.segments[0].ident == "crate"
    ensures FromPath(p, sc).Ok? ==>
              FromPath(p, sc).value.root == Crate
              && FromPath(p, sc).value.fieldCrate == sc.crateName
              && FromPath(p, sc).value.path ==
                   (if |p.segments| == 1 then "" else Join(Idents(p.segments[1..]), "::"))
    ensures |p.segments| >= 2 ==>
              (FromPath(p, sc).Ok? <==>
                 (forall i :: 1 <= i < |p.segments| - 1 ==> ArgsEmpty(p.segments[i].arguments))
                 && GetArgs(p.segments[|p.segments| - 1], sc).Ok?)
  {
    var segs := p.segments;
    if |segs| >= 2 {
      var r := NewType().(root := Crate, fieldCrate := sc.crateName);
      AppendSegmentsMeaning(r, segs[1..], sc);
      assert segs[1..][|segs| - 2] == segs[|segs| - 1];
      assert (forall i :: 1 <= i < |segs| - 1 ==> ArgsEmpty(segs[i].arguments)) <==>
             (forall i :: 0 <= i < |segs| - 2 ==> ArgsEmpty(segs[1..][i].arguments));
    }
  }

  /// A single prelude name is the GLOBAL path of the prelude item; a single
  /// primitive name is PRIMITIVE; both keep their own arguments.
  lemma FromPathSingleName(p: SynPath, sc: Scope)
    requires !p.leadingColon && |p.segments| == 1
    requires Prelude(p.segments[0].ident).Some? || IsPrimitive(p.segments[0].ident)
    ensures FromPath(p, sc).Ok? <==> GetArgs(p.segments[0], sc).Ok?
    ensures FromPath(p, sc).Ok? ==>
              var t := FromPath(p, sc).value;
              var n := p.segments[0].ident;
              t.args == GetArgs(p.segments[0], sc).value
              && (Prelude(n).Some? ==> t.root == Global && t.path == Prelude(n).value)
              && (Prelude(n).None? ==> t.root == Primitive && t.path == n)
  {
  }

  /// Any other head is resolved through the scope; an unresolvable head is
  /// the "unable to resolve" error, and a resolved one keeps the resolved
  /// root and crate and extends its path with the remaining identifiers.
  lemma FromPathResolved(p: SynPath, sc: Scope)
    requires !p.leadingColon && |p.segments| >= 1 && p.segments[0].ident != "crate"
    requires |p.segments| == 1 ==>
               Prelude(p.segments[0].ident).None? && !IsPrimitive(p.segments[0].ident)
    ensures sc.resolve(p.segments[0].ident).None? ==> FromPath(p, sc) == Err(UnresolvedMsg)
    ensures FromPath(p, sc).Ok? ==>
              var h := sc.resolve(p.segments[0].ident);
              h.Some?
              && FromPath(p, sc).value.root == h.value.root
              && FromPath(p, sc).value.fieldCrate == h.value.fieldCrate
              && FromPath(p, sc).value.path ==
                   (if |p.segments| == 1 then h.value.path
                    else h.value.path + "::" + Join(Idents(p.segments[1..]), "::"))
  {
    var segs := p.segments;
    var h := sc.resolve(segs[0].ident);
    if h.Some? && |segs| >= 2 {
      AppendSegmentsMeaning(h.value.(path := h.value.path + "::"), segs[1..], sc);
    }
  }

  /// `args` with its lifetime arguments removed.
  function DropLifetimes(args: seq<GenericArg>): (r: seq<GenericArg>)
    ensures forall i :: 0 <= i < |r| ==> !r[i].LifetimeArg?
  {
    if |args| == 0 then []
    else if args[0].LifetimeArg? then DropLifetimes(args[1..])
    else [args[0]] + DropLifetimes(args[1..])
  }

  /// Lifetime arguments have no effect on the parsed arguments, and a
  /// successful parse yields one type per type argument.
  lemma {:induction false} AngleArgsMeaning(args: seq<GenericArg>, sc: Scope)
    ensures AngleArgs(args, sc) == AngleArgs(DropLifetimes(args), sc)
    ensures AngleArgs(args, sc).Ok? ==> |AngleArgs(args, sc).value| == CountTypeArgs(args)
    ensures (exists i :: 0 <= i < |args| && args[i].OtherArg?) ==> AngleArgs(args, sc).Err?
  {
    if |args| > 0 {
      AngleArgsMeaning(args[1..], sc);
      if exists i :: 0 <= i < |args| && args[i].OtherArg? {
        var i :| 0 <= i < |args| && args[i].OtherArg?;
        if i > 0 {
          assert args[1..][i - 1].OtherArg?;
        }
      }
      if !args[0].LifetimeArg? {
        assert DropLifetimes(args)[1..] == DropLifetimes(args[1..]);
      }
    }
  }

  /// A reference sets `field_ref` and otherwise keeps the referenced type;
  /// `dyn` and `impl` types set `trait_object` and need exactly one trait
  /// bound; any other type form is rejected.
  lemma FromSynTypeShape(t: SynType, sc: Scope)
    ensures t.Reference? ==>
              (FromSynType(t, sc).Ok? <==> FromSynType(t.elem, sc).Ok?)
              && (FromSynType(t, sc).Ok? ==>
                    FromSynType(t, sc).value.fieldRef
                    && FromSynType(t, sc).value.(fieldRef := FromSynType(t.elem, sc).value.fieldRef)
                       == FromSynType(t.elem, sc).value)
    ensures (t.TraitObject? || t.ImplTrait?) && FromSynType(t, sc).Ok? ==>
              FromSynType(t, sc).value.traitObject && |Traits(t.bounds)| == 1
    ensures (t.TraitObject? || t.ImplTrait?) && |Traits(t.bounds)| != 1 ==>
              FromSynType(t, sc) == Err(OneTraitMsg)
    ensures t.OtherType? ==> FromSynType(t, sc).Err?
  {
  }

  /// The resolution of a bare head only gives types whose roots are set.
  ghost predicate ResolvesRooted(sc: Scope)
  {
    forall n :: sc.resolve(n).Some? ==> Rooted(sc.resolve(n).value)
  }

  /// Every type the parsers accept can be rendered: no root in it is
  /// UNSPECIFIED.
  lemma {:induction false} FromSynTypeRooted(t: SynType, sc: Scope)
    requires ResolvesRooted(sc)
    ensures FromSynType(t, sc).Ok? ==> Rooted(FromSynType(t, sc).value)
    decreases t
  {
    match t
    case PathType(p) => FromPathRooted(p, sc);
    case TraitObject(bs) => FromBoundsRooted(bs, sc);
    case ImplTrait(bs) => FromBoundsRooted(bs, sc);
    case Reference(e) => FromSynTypeRooted(e, sc);
    case OtherType =>
  }

  lemma {:induction false} FromBoundsRooted(bs: seq<Bound>, sc: Scope)
    requires ResolvesRooted(sc)
    ensures FromBounds(bs, sc).Ok? ==> Rooted(FromBounds(bs, sc).value)
    decreases bs
  {
    if |Traits(bs)| == 1 {
      var i := FirstTrait(bs);
      assert bs[i] in bs && bs[i].path < bs[i];
      FromPathRooted(bs[i].path, sc);
    }
  }

  lemma {:induction false} FromPathRooted(p: SynPath, sc: Scope)
    requires ResolvesRooted(sc)
    ensures FromPath(p, sc).Ok? ==> Rooted(FromPath(p, sc).value)
    decreases p
  {
    var segs := p.segments;
    if |segs| == 0 {
    } else if p.leadingColon {
      if |segs| > 1 {
        AppendSegmentsRooted(NewType().(root := Global, path := segs[0].ident + "::"), segs[1..], sc);
      }
    } else if segs[0].ident == "crate" {
      if |segs| > 1 {
        AppendSegmentsRooted(NewType().(root := Crate, fieldCrate := sc.crateName), segs[1..], sc);
      }
    } else if |segs| == 1 && (Prelude(segs[0].ident).Some? || IsPrimitive(segs[0].ident)) {
      GetArgsRooted(segs[0], sc);
    } else {
      var h := sc.resolve(segs[0].ident);
      if h.Some? {
        if |segs| == 1 {
          GetArgsRooted(segs[0], sc);
          RootedWithArgs(h.value, GetArgs(segs[0], sc));
        } else {
          AppendSegmentsRooted(h.value.(path := h.value.path + "::"), segs[1..], sc);
        }
      }
    }
  }

  lemma {:induction false} AppendSegmentsRooted(r: TypeData, segs: seq<Segment>, sc: Scope)
    requires ResolvesRooted(sc) && Rooted(r) && |segs| > 0
    ensures AppendSegments(r, segs, sc).Ok? ==> Rooted(AppendSegments(r, segs, sc).value)
    decreases segs
  {
    if |segs| == 1 {
      GetArgsRooted(segs[0], sc);
      RootedWithArgs(r.(path := r.path + segs[0].ident), GetArgs(segs[0], sc));
    } else if ArgsEmpty(segs[0].arguments) {
      AppendSegmentsRooted(r.(path := r.path + segs[0].ident + "::"), segs[1..], sc);
    }
  }

  lemma {:induction false} GetArgsRooted(seg: Segment, sc: Scope)
    requires ResolvesRooted(sc)
    ensures GetArgs(seg, sc).Ok? ==>
              forall i :: 0 <= i < |GetArgs(seg, sc).value| ==> Rooted(GetArgs(seg, sc).value[i])
    decreases seg
  {
    if seg.arguments.Angle? {
      AngleArgsRooted(seg.arguments.args, sc);
    }
  }

  lemma {:induction false} AngleArgsRooted(args: seq<GenericArg>, sc: Scope)
    requires ResolvesRooted(sc)
    ensures AngleArgs(args, sc).Ok? ==>
              forall i :: 0 <= i < |AngleArgs(args, sc).value| ==> Rooted(AngleArgs(args, sc).value[i])
    decreases args
  {
    if |args| > 0 {
      match args[0]
      case TypeArg(t) =>
        assert args[0] in args && t < args[0];
        FromSynTypeRooted(t, sc);
        AngleArgsRooted(args[1..], sc);
      case LifetimeArg => AngleArgsRooted(args[1..], sc);
      case OtherArg =>
    }
  }

  lemma RootedWithArgs(r: TypeData, a: Result<seq<TypeData>>)
    requires Rooted(r)
    requires a.Ok? ==> forall i :: 0 <= i < |a.value| ==> Rooted(a.value[i])
    ensures a.Ok? ==> Rooted(r.(args := r.args + a.value))
  {
  }
}
