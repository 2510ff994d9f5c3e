// The part of `syn`'s syntax tree that lockjaw's type parsers read: paths,
// their segments and generic arguments, trait bounds and the handful of
// type forms the parsers distinguish. Everything else `syn` can produce is
// collapsed into `OtherArg`, `Paren`, `LifetimeBound` and `OtherType`.
module Syn {

  datatype GenericArg = TypeArg(ty: SynType) | LifetimeArg | OtherArg

  /// `syn::PathArguments`: none, `<...>`, or `(...) -> ...`.
  datatype PathArgs = NoArgs | Angle(args: seq<GenericArg>) | Paren

  datatype Segment = Segment(ident: string, arguments: PathArgs)

  datatype SynPath = SynPath(leadingColon: bool, segments: seq<Segment>)

  /// `syn::TypeParamBound`: a trait bound, or anything else (a lifetime).
  datatype Bound = TraitBound(path: SynPath) | LifetimeBound

  datatype SynType =
    | PathType(path: SynPath)
    | TraitObject(bounds: seq<Bound>)
    | ImplTrait(bounds: seq<Bound>)
    | Reference(elem: SynType)
    | OtherType

  /// `PathArguments::is_empty`: true for no arguments and for an empty `<>`.
  predicate ArgsEmpty(a: PathArgs)
  {
    a.NoArgs? || (a.Angle? && |a.args| == 0)
  }

  function Idents(segs: seq<Segment>): (r: seq<string>)
    ensures |r| == |segs|
    ensures forall i :: 0 <= i < |segs| ==> r[i] == segs[i].ident
  {
    if |segs| == 0 then [] else [segs[0].ident] + Idents(segs[1..])
  }

  /// The trait bounds among `bounds`, in order.
  function Traits(bounds: seq<Bound>): (r: seq<SynPath>)
    ensures |r| <= |bounds|
  {
    if |bounds| == 0 then []
    else if bounds[0].TraitBound? then [bounds[0].path] + Traits(bounds[1..])
    else Traits(bounds[1..])
  }

  /// The position of the first trait bound.
  function FirstTrait(bs: seq<Bound>): (i: nat)
    requires |Traits(bs)| >= 1
    ensures i < |bs| && bs[i].TraitBound? && bs[i].path == Traits(bs)[0]
  {
    if bs[0].TraitBound? then 0 else 1 + FirstTrait(bs[1..])
  }
}
