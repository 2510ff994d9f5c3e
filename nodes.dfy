// The node algebra of processor/src/nodes/*.rs: one node kind per way a
// binding is satisfied, each with its merge rule (what happens when a second
// binding arrives for the same key) and its can-depend rule (whether it may
// take a scoped node as a dependency), and the constructors that derive the
// automatic wrapper nodes (`&T`, `MaybeScoped<T>`, `Box<T>`, `Cl<T>`,
// `Provider<T>`, `Lazy<T>`, `Option<T>`, `Vec<T>`, `HashMap<K, V>`).
//
// The files of this directory belong to two generations: node.rs,
// provides.rs, binds.rs and maybe_scoped.rs name the protobuf `Type`, the
// others the newer `TypeData`. The model uses the one `TypeData` of module
// `Types` and renders it with `TypeRender`, except in the merge of
// maybe_scoped.rs, which compares the older rendering `ProtoTypes.Canonical`
// (arguments by `path_with_args`). A node's Rust
// text (`generate_provider` / `generate_implementation`) is not modelled;
// where that text depends on a choice (`Ref` or `Val`, `Some` or `None`)
// the choice is a function here.
module NodeAlgebra {
  import opened Outcomes
  import opened Types
  import opened Strs
  import TypeRender
  import ProtoTypes
  import ProtoManifest
  import BindingGraph
  import CommonManifest

  // ---------------------------------------------------------------------------
  // Nodes

  /// What creates a node's value. The fields are those the rules read.
  datatype NodeKind =
    | InjectableKind(injectable: CommonManifest.Injectable)
    | ProvidesKind(instance: BindingGraph.ModuleInstance, provider: ProtoManifest.Provider)
    | BindsKind(instance: BindingGraph.ModuleInstance, provider: ProtoManifest.Provider)
    | ScopedKind(target: TypeData)
    | MaybeScopedKind(inner: TypeData)
    | BoxedKind(inner: TypeData)
    | ComponentLifetimeKind(inner: TypeData)
    | ProviderKind(inner: TypeData)
    | LazyKind(target: TypeData)
    | OptionKind(inner: TypeData)
    | ParentKind(parentType: TypeData)
    | SubcomponentKind(builderType: TypeData)
    | VecKind
    | MapKind(bindings: map<CommonManifest.MapKey, TypeData>)

  /// A node provides `ty` from `deps` (`get_dependencies`; a map node's
  /// dependencies are its bound values instead, see `MapDependencies`).
  datatype Node = Node(kind: NodeKind, ty: TypeData, deps: seq<TypeData>, scoped: bool)

  /// A dependency the component's own graph cannot satisfy, to be asked of
  /// the parent component.
  datatype MissingDependency = MissingDependency(ty: TypeData, multibindingType: CommonManifest.MultibindingType)

  /// The types a node's rules render.
  ghost predicate WellFormed(n: Node)
  {
    && Rooted(n.ty)
    && (forall i :: 0 <= i < |n.deps| ==> Rooted(n.deps[i]))
    && ((n.kind.ProvidesKind? || n.kind.BindsKind?) ==> Rooted(n.kind.instance.ty))
    && (n.kind.OptionKind? ==> Rooted(n.kind.inner))
    && ((n.kind.ProviderKind? || n.kind.LazyKind?) ==> |n.deps| > 0)
  }

  // ---------------------------------------------------------------------------
  // Rendering

  function CanonicalOf(t: TypeData): (s: string)
    requires Rooted(t)
    ensures TypeRender.Canonical(t) == Some(s)
  {
    TypeRender.RenderedWhenRooted(t, TypeRender.CanonicalMode);
    TypeRender.Canonical(t).value
  }

  function ReadableOf(t: TypeData): (s: string)
    requires Rooted(t)
    ensures TypeRender.Readable(t) == Some(s)
  {
    TypeRender.ReadableShape(t);
    TypeRender.Readable(t).value
  }

  /// The key a node is filed under (`get_identifier`).
  function KeyOf(t: TypeData): (k: string)
    requires Rooted(t)
    ensures TypeRender.Identifier(t) == Some(k)
  {
    TypeRender.IdentifierShape(t);
    TypeRender.Identifier(t).value
  }

  /// `get_name`: how error messages name a node's provider.
  function NameOf(n: Node): (s: string)
    requires WellFormed(n)
  {
    match n.kind
    case InjectableKind(_) => CanonicalOf(n.ty) + " (injectable)"
    case ProvidesKind(m, p) => CanonicalOf(m.ty) + "." + p.name + " (module provides)"
    case BindsKind(m, p) => CanonicalOf(m.ty) + "." + p.name + " (module binds)"
    case ScopedKind(_) => "ref " + CanonicalOf(n.ty)
    case MaybeScopedKind(_) => CanonicalOf(n.ty) + " (auto boxed)"
    case BoxedKind(_) => CanonicalOf(n.ty) + " (auto boxed)"
    case ComponentLifetimeKind(_) => "Cl" + CanonicalOf(n.ty)
    case ProviderKind(_) => "Provider<" + ReadableOf(n.deps[0]) + ">"
    case LazyKind(_) => "Lazy<" + ReadableOf(n.deps[0]) + ">"
    case OptionKind(inner) => "Option<" + ReadableOf(inner) + "> (binds_option_of)"
    case ParentKind(_) => ReadableOf(n.ty) + " (parent component access)"
    case SubcomponentKind(_) => ReadableOf(n.ty) + " (subcomponent builder)"
    case VecKind => ReadableOf(n.ty) + " (multibinding)"
    case MapKind(_) => ReadableOf(n.ty) + " (multibinding)"
  }

  // ---------------------------------------------------------------------------
  // The type builders

  /// `ref_type`: the same type as a reference.
  function RefType(t: TypeData): (r: TypeData)
    ensures r.fieldRef && r.(fieldRef := t.fieldRef) == t
  {
    t.(fieldRef := true)
  }

  const MaybeScopedPath := "lockjaw::MaybeScoped"
  const VecPath := "std::vec::Vec"
  const BoxPath := "std::boxed::Box"
  const ClPath := "lockjaw::Cl"
  const ProviderPath := "lockjaw::Provider"
  const LazyPath := "lockjaw::Lazy"
  const OptionPath := "std::option::Option"
  const MapPath := "std::collections::HashMap"

  /// A GLOBAL generic wrapper with the single argument `t`, every other
  /// field at its default: `maybe_scoped_type`, `vec_type`, `boxed_type`,
  /// `component_lifetime_type`, `provider_type`, `lazy_type`, `option_type`.
  function Wrapped(path: string, t: TypeData): (r: TypeData)
    ensures r.root == Global && r.path == path && r.args == [t]
    ensures r.scopes == [] && r.qualifier == None && !r.fieldRef && !r.traitObject
  {
    GlobalType(path, [t])
  }

  /// A wrapper renders as its path with the wrapped type's canonical path as
  /// the only argument.
  lemma WrappedRendering(path: string, t: TypeData)
    requires Rooted(t)
    ensures Rooted(Wrapped(path, t))
    ensures CanonicalOf(Wrapped(path, t)) == "::" + path + "<" + CanonicalOf(t) + ">"
  {
    var w := Wrapped(path, t);
    assert w.args[0] == t;
    TypeRender.ArgPathsWhenRooted(w, TypeRender.CanonicalMode, 0);
    TypeRender.ArgPathsAt(w, TypeRender.CanonicalMode, 0, 0);
    var a := TypeRender.ArgPaths(w, TypeRender.CanonicalMode, 0).value;
    assert a == [CanonicalOf(t)];
    JoinSingleton(CanonicalOf(t), ",");
    assert TypeRender.PathWithArgs(w, TypeRender.CanonicalMode) == Some(path + "<" + CanonicalOf(t) + ">");
    assert TypeRender.Prefix(w) == "";
  }

  // ---------------------------------------------------------------------------
  // The merge rule

  const DuplicatedPrefix := "found duplicated bindings for "
  const DuplicatedKeyPrefix := "found duplicated key "

  /// `Node::duplicated`: the path of the existing binding and the names of
  /// both providers, the existing one first.
  function DuplicatedMsg(existing: Node, added: Node): string
    requires WellFormed(existing) && WellFormed(added)
  {
    DuplicatedPrefix + CanonicalOf(existing.ty) + ", provided by:\n\t" + NameOf(existing) + "\n\t" + NameOf(added)
  }

  /// The automatic wrappers: a second request for the same wrapper is the
  /// same wrapper.
  predicate IsWrapper(k: NodeKind)
  {
    k.MaybeScopedKind? || k.BoxedKind? || k.ComponentLifetimeKind?
  }

  /// The canonical paths a wrapper's merge compares: maybe_scoped.rs
  /// compares those of the older serde `Type`, whose arguments are rendered
  /// by `path_with_args` (`ProtoTypes.Canonical`); boxed.rs and
  /// component_lifetime.rs compare those of `TypeData`.
  predicate SameWrapped(k: NodeKind, s: TypeData, t: TypeData)
    requires Rooted(s) && Rooted(t)
  {
    if k.MaybeScopedKind? then ProtoTypes.Canonical(s) == ProtoTypes.Canonical(t)
    else CanonicalOf(s) == CanonicalOf(t)
  }

  /// `merge` of every kind but the map (see `MergeMap`):
  /// - a vec node takes another vec node's dependencies after its own, and
  ///   anything else is a duplicate (vec.rs);
  /// - a wrapper stays as it is when the new node has its canonical path
  ///   (`SameWrapped`), and is a duplicate otherwise (maybe_scoped.rs,
  ///   boxed.rs, component_lifetime.rs);
  /// - every other kind is a duplicate (the default in node.rs, and
  ///   provides.rs and binds.rs).
  function MergeNode(existing: Node, added: Node): (r: Result<Node>)
    requires WellFormed(existing) && WellFormed(added) && !existing.kind.MapKind?
    ensures r.Err? ==> r.msg == DuplicatedMsg(existing, added)
    ensures r.Ok? ==> r.value.kind == existing.kind && r.value.ty == existing.ty
    ensures r.Ok? <==>
              (existing.kind.VecKind? && added.kind.VecKind?)
              || (IsWrapper(existing.kind) && SameWrapped(existing.kind, existing.ty, added.ty))
    ensures r.Ok? && existing.kind.VecKind? ==> r.value.deps == existing.deps + added.deps
    ensures r.Ok? && IsWrapper(existing.kind) ==> r.value == existing
  {
    if existing.kind.VecKind? then
      if added.kind.VecKind? then Ok(existing.(deps := existing.deps + added.deps))
      else Err(DuplicatedMsg(existing, added))
    else if IsWrapper(existing.kind) && SameWrapped(existing.kind, existing.ty, added.ty) then
      Ok(existing)
    else
      Err(DuplicatedMsg(existing, added))
  }

  /// The keys both map nodes bind.
  function SharedKeys(existing: Node, added: Node): set<CommonManifest.MapKey>
    requires existing.kind.MapKind? && added.kind.MapKind?
  {
    existing.kind.bindings.Keys * added.kind.bindings.Keys
  }

  /// `{:?}` of a map key. A key's `TypeData` fields are shown by their path
  /// only.
  function KeyText(k: CommonManifest.MapKey): string
  {
    match k
    case NoKey => "None"
    case StringKey(s) => "String(\"" + s + "\")"
    case I32Key(v) => "I32(" + IntText(v) + ")"
    case EnumKey(e, v) => "Enum(" + e.path + ", " + v.path + ")"
  }

  function IntText(v: int): string
  {
    if v < 0 then "-" + DecimalText(-v) else DecimalText(v)
  }

  function DecimalText(n: nat): string
  {
    if n < 10 then [DigitChar(n)] else DecimalText(n / 10) + [DigitChar(n % 10)]
  }

  function DigitChar(d: nat): char
    requires d < 10
  {
    "0123456789"[d]
  }

  function DuplicatedKeyMsg(k: CommonManifest.MapKey, existing: Node, added: Node): string
    requires WellFormed(existing) && WellFormed(added)
  {
    DuplicatedKeyPrefix + KeyText(k) + " for " + ReadableOf(existing.ty) + ", provided by:\n\t" + NameOf(added)
  }

  /// `merge` of a map node (map.rs): anything but a map node is a duplicate;
  /// a map node sharing a key is reported with one of the shared keys (the
  /// first the hash order visits); otherwise the result binds both maps'
  /// entries under the existing node's type.
  method MergeMap(existing: Node, added: Node) returns (r: Result<Node>)
    requires WellFormed(existing) && WellFormed(added) && existing.kind.MapKind?
    ensures !added.kind.MapKind? ==> r == Err(DuplicatedMsg(existing, added))
    ensures added.kind.MapKind? ==> (r.Err? <==> SharedKeys(existing, added) != {})
    ensures added.kind.MapKind? && r.Err? ==>
              exists k :: k in SharedKeys(existing, added) && r.msg == DuplicatedKeyMsg(k, existing, added)
    ensures r.Ok? ==>
              (added.kind.MapKind? && r.value == existing.(kind := MapKind(existing.kind.bindings + added.kind.bindings)))
  {
    if !added.kind.MapKind? {
      return Err(DuplicatedMsg(existing, added));
    }
    var keys := added.kind.bindings.Keys;
    while keys != {}
      invariant keys <= added.kind.bindings.Keys
      invariant forall k :: k in added.kind.bindings.Keys - keys ==> k !in existing.kind.bindings
      decreases |keys|
    {
      var k :| k in keys;
      if k in existing.kind.bindings {
        assert k in SharedKeys(existing, added);
        return Err(DuplicatedKeyMsg(k, existing, added));
      }
      keys := keys - {k};
    }
    assert SharedKeys(existing, added) == {};
    return Ok(existing.(kind := MapKind(existing.kind.bindings + added.kind.bindings)));
  }

  /// `get_dependencies` of a map node: the bound values.
  function MapDependencies(n: Node): (r: set<TypeData>)
    requires n.kind.MapKind?
    ensures forall t :: t in r <==> exists k :: k in n.kind.bindings && n.kind.bindings[k] == t
  {
    n.kind.bindings.Values
  }

  // ---------------------------------------------------------------------------
  // Properties of merging

  /// A kind that is neither a multibinding nor a wrapper never merges, not
  /// even with an identical node: every second binding is a duplicate.
  lemma PlainKindsNeverMerge(existing: Node, added: Node)
    requires WellFormed(existing) && WellFormed(added)
    requires !existing.kind.MapKind? && !existing.kind.VecKind? && !IsWrapper(existing.kind)
    ensures MergeNode(existing, added) == Err(DuplicatedMsg(existing, added))
    ensures StartsWith(DuplicatedMsg(existing, added), DuplicatedPrefix)
  {
    DuplicatedMsgPrefix(existing, added);
  }

  lemma DuplicatedMsgPrefix(existing: Node, added: Node)
    requires WellFormed(existing) && WellFormed(added)
    ensures StartsWith(DuplicatedMsg(existing, added), DuplicatedPrefix)
  {
    var s := DuplicatedMsg(existing, added);
    assert s[..|DuplicatedPrefix|] == DuplicatedPrefix;
  }

  /// Requesting a wrapper twice is harmless: it merges with itself into itself.
  lemma WrapperMergeIdempotent(w: Node)
    requires WellFormed(w) && IsWrapper(w.kind)
    ensures MergeNode(w, w) == Ok(w)
  {
  }

  /// `maybe_scoped_type` (node.rs) builds a protobuf `Type`, whose canonical
  /// path renders the wrapped type by `path_with_args`, without its root
  /// and crate.
  lemma MaybeScopedRendering(t: TypeData)
    requires Rooted(t)
    ensures ProtoTypes.Canonical(Wrapped(MaybeScopedPath, t))
              == Some("::" + MaybeScopedPath + "<" + ProtoTypes.PathWithArgs(t) + ">")
  {
    var w := Wrapped(MaybeScopedPath, t);
    assert w.args == [t];
    assert ProtoTypes.ArgPaths(w, 0) == [ProtoTypes.PathWithArgs(t)];
    JoinSingleton(ProtoTypes.PathWithArgs(t), ",");
    var p := ProtoTypes.PathWithArgs(t);
    assert ProtoTypes.PathWithArgs(w) == "" + MaybeScopedPath + "<" + p + ">";
    assert "::" + ("" + MaybeScopedPath + "<" + p + ">") == "::" + MaybeScopedPath + "<" + p + ">";
  }

  /// So a `MaybeScoped<a::Foo>` binding merges with a `MaybeScoped<b::Foo>`
  /// one as if they were the same wrapper, although `a::Foo` and `b::Foo`
  /// differ.
  lemma MaybeScopedMergesAcrossCrates()
    ensures var a := NewType().(root := Crate, fieldCrate := "a", path := "Foo");
            var b := NewType().(root := Crate, fieldCrate := "b", path := "Foo");
            var na := MaybeScopedOver(a, a);
            var nb := MaybeScopedOver(b, b);
            && CanonicalOf(a) != CanonicalOf(b)
            && WellFormed(na) && WellFormed(nb)
            && MergeNode(na, nb) == Ok(na)
  {
    var a := NewType().(root := Crate, fieldCrate := "a", path := "Foo");
    var b := NewType().(root := Crate, fieldCrate := "b", path := "Foo");
    assert CanonicalOf(a)[2] == 'a' && CanonicalOf(b)[2] == 'b';
    MaybeScopedRendering(a);
    MaybeScopedRendering(b);
    assert ProtoTypes.PathWithArgs(a) == ProtoTypes.PathWithArgs(b);
  }

  /// Vec contributions gather in order, and grouping does not matter.
  lemma {:induction false} VecMergeAssociative(a: Node, b: Node, c: Node)
    requires WellFormed(a) && WellFormed(b) && WellFormed(c)
    requires a.kind.VecKind? && b.kind.VecKind? && c.kind.VecKind?
    ensures MergeNode(a, b).Ok? && MergeNode(b, c).Ok?
    ensures WellFormed(MergeNode(a, b).value) && WellFormed(MergeNode(b, c).value)
    ensures MergeNode(MergeNode(a, b).value, c) == MergeNode(a, MergeNode(b, c).value)
    ensures MergeNode(MergeNode(a, b).value, c).value.deps == a.deps + b.deps + c.deps
  {
    var ab := MergeNode(a, b).value;
    var bc := MergeNode(b, c).value;
    assert ab == a.(deps := a.deps + b.deps);
    assert bc == b.(deps := b.deps + c.deps);
    assert (a.deps + b.deps) + c.deps == a.deps + (b.deps + c.deps);
  }

  /// A freshly created vec node (`VecNode::new`) is the unit of merging.
  lemma VecNewIsUnit(t: TypeData, v: Node)
    requires Rooted(t) && WellFormed(v) && v.kind.VecKind?
    ensures WellFormed(VecNew(t))
    ensures MergeNode(VecNew(t), v) == Ok(VecNew(t).(deps := v.deps))
    ensures MergeNode(v, VecNew(t)) == Ok(v)
  {
    assert [] + v.deps == v.deps;
    assert v.deps + [] == v.deps;
  }

  /// Two map nodes with disjoint keys merge to the same bindings in either
  /// order, and the union holds every entry of each.
  lemma MapMergeCommutes(a: map<CommonManifest.MapKey, TypeData>, b: map<CommonManifest.MapKey, TypeData>)
    requires a.Keys * b.Keys == {}
    ensures a + b == b + a
    ensures (a + b).Keys == a.Keys + b.Keys
    ensures forall k :: k in a ==> (a + b)[k] == a[k]
  {
    forall k | k in a + b
      ensures k in b + a && (a + b)[k] == (b + a)[k]
    {
      if k in a {
        assert k !in b by { assert k !in a.Keys * b.Keys; }
      }
    }
    assert (a + b).Keys == (b + a).Keys;
  }

  // ---------------------------------------------------------------------------
  // The can-depend rule

  const NoScopePrefix := "unable to provide scoped binding as regular type "

  /// `Node::no_scope`: the scoped node's name and the "requested by" trace.
  function NoScopeMsg(target: Node, ancestors: seq<string>): string
    requires WellFormed(target)
  {
    NoScopePrefix + NameOf(target) + "\nrequested by:" + Join(ancestors, "\nrequested by:")
  }

  /// The kinds that override `can_depend` to accept any target: the scoped
  /// wrapper (which owns the shared instance), the automatic wrappers and
  /// the subcomponent builder.
  predicate DependsOnAnything(k: NodeKind)
  {
    k.ScopedKind? || k.MaybeScopedKind? || k.BoxedKind? || k.ComponentLifetimeKind? || k.SubcomponentKind?
  }

  /// `can_depend`: a node of any other kind may not depend on a scoped node.
  function CanDepend(from: Node, target: Node, ancestors: seq<string>): (r: Result<()>)
    requires WellFormed(target)
    ensures r.Err? <==> !DependsOnAnything(from.kind) && target.scoped
    ensures r.Err? ==> r.msg == NoScopeMsg(target, ancestors)
  {
    if !DependsOnAnything(from.kind) && target.scoped then Err(NoScopeMsg(target, ancestors)) else Ok(())
  }

  // ---------------------------------------------------------------------------
  // Variants of a binding (node.rs)

  /// The `MaybeScoped<T>` wrapper around `wrapped`, depending on `dep`.
  function MaybeScopedOver(t: TypeData, dep: TypeData): (r: Node)
    ensures r.kind == MaybeScopedKind(dep) && r.ty == Wrapped(MaybeScopedPath, t)
    ensures r.deps == [dep] && !r.scoped
  {
    Node(MaybeScopedKind(dep), Wrapped(MaybeScopedPath, t), [dep], false)
  }

  /// The `&T` node that holds the one shared instance of a scoped `T`
  /// (node.rs builds it directly; scoped.rs has `for_type`).
  function ScopedOver(t: TypeData): (r: Node)
    ensures r.kind == ScopedKind(t) && r.ty == RefType(t) && r.deps == [t] && !r.scoped
  {
    Node(ScopedKind(t), RefType(t), [t], false)
  }

  /// `generate_node_variants` as written:
  /// - a scoped type yields the node itself marked scoped (only the wrappers
  ///   may reach it), the `&T` scoped node and a `MaybeScoped<T>` node, both
  ///   depending on that private node;
  /// - an unscoped type other than `lockjaw::MaybeScoped` yields the node and
  ///   a `MaybeScoped<T>` node over it;
  /// - an unscoped `lockjaw::MaybeScoped` yields only itself.
  function GenerateNodeVariants(n: Node): (r: seq<Node>)
  {
    if |n.ty.scopes| > 0 then
      var private := n.(scoped := true);
      [private, ScopedOver(private.ty), MaybeScopedOver(private.ty, private.ty)]
    else if n.ty.path != MaybeScopedPath then
      [n, MaybeScopedOver(n.ty, n.ty)]
    else
      [n]
  }

  /// `MaybeScopedNode::generate_provider` and `BindsNode::generate_provider`
  /// return `MaybeScoped::Ref` when what they wrap is a reference and
  /// `MaybeScoped::Val(Box::new(..))` otherwise: `true` is `Ref`.
  function UsesRef(wrappedType: TypeData): bool
  {
    wrappedType.fieldRef
  }

  /// The variants, case by case.
  lemma VariantsShape(n: Node)
    ensures |n.ty.scopes| > 0 ==>
              && |GenerateNodeVariants(n)| == 3
              && GenerateNodeVariants(n)[0] == n.(scoped := true)
              && GenerateNodeVariants(n)[1].kind.ScopedKind?
              && GenerateNodeVariants(n)[1].ty == RefType(n.ty)
              && GenerateNodeVariants(n)[2].kind.MaybeScopedKind?
              && GenerateNodeVariants(n)[2].ty == Wrapped(MaybeScopedPath, n.ty)
              && GenerateNodeVariants(n)[1].deps == [n.ty] && GenerateNodeVariants(n)[2].deps == [n.ty]
              && !GenerateNodeVariants(n)[1].scoped && !GenerateNodeVariants(n)[2].scoped
    ensures |n.ty.scopes| == 0 && n.ty.path != MaybeScopedPath ==>
              GenerateNodeVariants(n) == [n, MaybeScopedOver(n.ty, n.ty)]
    ensures |n.ty.scopes| == 0 && n.ty.path == MaybeScopedPath ==> GenerateNodeVariants(n) == [n]
    ensures GenerateNodeVariants(n)[0].ty == n.ty && GenerateNodeVariants(n)[0].kind == n.kind
  {
  }

  /// The variants provide pairwise different types, so none of them merges
  /// with another when they are added to the graph.
  lemma VariantsDistinctTypes(n: Node, i: nat, j: nat)
    requires i < j < |GenerateNodeVariants(n)|
    requires |n.ty.scopes| > 0 ==> !n.ty.fieldRef
    ensures GenerateNodeVariants(n)[i].ty != GenerateNodeVariants(n)[j].ty
  {
    var vs := GenerateNodeVariants(n);
    if |n.ty.scopes| > 0 {
      assert vs[0].ty == n.ty && vs[1].ty == RefType(n.ty) && vs[2].ty == Wrapped(MaybeScopedPath, n.ty);
      assert vs[0].ty.scopes != vs[2].ty.scopes;
      assert vs[1].ty.scopes != vs[2].ty.scopes;
      assert vs[0].ty.fieldRef != vs[1].ty.fieldRef;
    } else {
      assert vs[0].ty == n.ty && vs[1].ty == Wrapped(MaybeScopedPath, n.ty);
      assert vs[0].ty.path != vs[1].ty.path;
    }
  }

  /// The scoped instance is reachable only through the wrappers: both
  /// wrappers may depend on the private node, while a node of any other
  /// kind is refused by `can_depend`.
  lemma ScopedOnlyThroughWrappers(n: Node, from: Node, ancestors: seq<string>)
    requires WellFormed(n) && |n.ty.scopes| > 0
    ensures WellFormed(GenerateNodeVariants(n)[0])
    ensures CanDepend(GenerateNodeVariants(n)[1], GenerateNodeVariants(n)[0], ancestors).Ok?
    ensures CanDepend(GenerateNodeVariants(n)[2], GenerateNodeVariants(n)[0], ancestors).Ok?
    ensures !DependsOnAnything(from.kind) ==>
              CanDepend(from, GenerateNodeVariants(n)[0], ancestors) == Err(NoScopeMsg(n.(scoped := true), ancestors))
  {
  }

  /// node.rs builds the scoped node of a non-reference `T` exactly as
  /// `ScopedNode::for_type(&T)` in scoped.rs does.
  lemma VariantScopedIsForType(n: Node)
    requires |n.ty.scopes| > 0 && !n.ty.fieldRef
    ensures GenerateNodeVariants(n)[1] == ScopedForType(RefType(n.ty))
  {
    assert RefType(n.ty).(fieldRef := false) == n.ty;
  }

  /// The `MaybeScoped<T>` of a scoped `T`, as written, wraps the private
  /// node by value: `MaybeScoped::Val(Box::new(self.T()))` builds a new `T`
  /// through the private provider on every request instead of handing out
  /// the shared instance held by the `&T` node.
  lemma VariantsMaybeScopedBypassesScope(n: Node)
    requires |n.ty.scopes| > 0 && !n.ty.fieldRef
    ensures GenerateNodeVariants(n)[2].kind.inner == n.ty
    ensures !UsesRef(GenerateNodeVariants(n)[2].kind.inner)
    ensures GenerateNodeVariants(n)[2].deps != [GenerateNodeVariants(n)[1].ty]
  {
    assert RefType(n.ty) != n.ty;
  }

  /// The corrected variants: the `MaybeScoped<T>` of a scoped `T` wraps the
  /// `&T` scoped node, as `ComponentLifetimeNode::for_type` does for `Cl<T>`
  /// (component_lifetime.rs), so it hands out the shared instance by
  /// reference. Everything else is as in `GenerateNodeVariants`.
  function GenerateNodeVariantsFixed(n: Node): (r: seq<Node>)
    ensures |n.ty.scopes| == 0 ==> r == GenerateNodeVariants(n)
    ensures |n.ty.scopes| > 0 ==>
              |r| == 3 && r[..2] == GenerateNodeVariants(n)[..2]
              && r[2].ty == GenerateNodeVariants(n)[2].ty
  {
    if |n.ty.scopes| > 0 then
      var private := n.(scoped := true);
      [private, ScopedOver(private.ty), MaybeScopedOver(private.ty, RefType(private.ty))]
    else
      GenerateNodeVariants(n)
  }

  /// With the correction, `MaybeScoped<T>` of a scoped `T` depends on the
  /// `&T` node that holds the shared instance, returns it by `Ref`, and is
  /// the same node `Cl<T>` becomes once that `&T` node is in the graph.
  lemma FixedMaybeScopedSharesInstance(n: Node)
    requires WellFormed(n) && |n.ty.scopes| > 0
    ensures WellFormed(GenerateNodeVariantsFixed(n)[1])
    ensures GenerateNodeVariantsFixed(n)[2].deps == [GenerateNodeVariantsFixed(n)[1].ty]
    ensures UsesRef(GenerateNodeVariantsFixed(n)[2].kind.inner)
    ensures !GenerateNodeVariantsFixed(n)[1].scoped
    ensures CanDepend(GenerateNodeVariantsFixed(n)[2], GenerateNodeVariantsFixed(n)[1], []).Ok?
  {
  }

  // ---------------------------------------------------------------------------
  // Constructors of the kinds

  /// `ProvidesNode::new` (provides.rs): the provider's dependencies in
  /// order; a `binds` provider becomes a binds node for `MaybeScoped<T>`,
  /// any other a provides node for `T`; then the variants. The module
  /// instance comes from `get_module_instance`, whose panic is `None`.
  function ProvidesNew(mm: ProtoManifest.ComponentModuleManifest, moduleType: TypeData, p: ProtoManifest.Provider)
    : (r: Option<seq<Node>>)
    requires ProtoManifest.RootedModuleManifest(mm) && Rooted(moduleType)
  {
    var instance := BindingGraph.ModuleInstanceOf(mm, moduleType);
    if instance.None? then None
    else
      var deps := seq(|p.deps|, i requires 0 <= i < |p.deps| => p.deps[i].ty);
      var node :=
        if p.binds then Node(BindsKind(instance.value, p), Wrapped(MaybeScopedPath, p.ty), deps, false)
        else Node(ProvidesKind(instance.value, p), p.ty, deps, false);
      Some(GenerateNodeVariants(node))
  }

  /// What `ProvidesNew` yields: the dependencies in order, the provided type
  /// and, for a binds provider, a single node (its `MaybeScoped` type gets no
  /// further wrapper and carries no scope).
  lemma ProvidesNewShape(mm: ProtoManifest.ComponentModuleManifest, moduleType: TypeData, p: ProtoManifest.Provider)
    requires ProtoManifest.RootedModuleManifest(mm) && Rooted(moduleType)
    ensures ProvidesNew(mm, moduleType, p).Some? <==> BindingGraph.ModuleInstanceOf(mm, moduleType).Some?
    ensures ProvidesNew(mm, moduleType, p).Some? ==>
              var vs := ProvidesNew(mm, moduleType, p).value;
              && |vs[0].deps| == |p.deps|
              && (forall i :: 0 <= i < |p.deps| ==> vs[0].deps[i] == p.deps[i].ty)
              && (p.binds ==> |vs| == 1 && vs[0].kind.BindsKind? && vs[0].ty == Wrapped(MaybeScopedPath, p.ty))
              && (!p.binds ==>
                    (vs[0].kind.ProvidesKind? && vs[0].ty == p.ty && (|vs| == 3 <==> |p.ty.scopes| > 0)))
  {
    var instance := BindingGraph.ModuleInstanceOf(mm, moduleType);
    if instance.Some? {
      var deps := seq(|p.deps|, i requires 0 <= i < |p.deps| => p.deps[i].ty);
      var node :=
        if p.binds then Node(BindsKind(instance.value, p), Wrapped(MaybeScopedPath, p.ty), deps, false)
        else Node(ProvidesKind(instance.value, p), p.ty, deps, false);
      VariantsShape(node);
    }
  }

  /// `BindsNode::generate_provider`: the bound argument is the provider's
  /// first dependency ("binds must have one arg" panics without one, `None`);
  /// `Ref` exactly when it is a reference.
  function BindsUsesRef(p: ProtoManifest.Provider): (r: Option<bool>)
    ensures r.Some? <==> |p.deps| > 0
    ensures r.Some? ==> r.value == UsesRef(p.deps[0].ty)
  {
    if |p.deps| == 0 then None else Some(UsesRef(p.deps[0].ty))
  }

  /// Binding a scoped `&T` passes the shared instance through by reference;
  /// binding a plain `T` boxes a value.
  lemma BindsOfScopedIsRef(p: ProtoManifest.Provider, t: TypeData)
    requires |p.deps| > 0
    ensures p.deps[0].ty == ScopedOver(t).ty ==> BindsUsesRef(p) == Some(true)
    ensures p.deps[0].ty == t && !t.fieldRef ==> BindsUsesRef(p) == Some(false)
  {
  }

  /// `InjectableNode::new` (injectable.rs): with a container the node
  /// provides the container with the injectable's type appended to its
  /// arguments, otherwise the injectable's own type; the dependencies are
  /// the ctor parameters' types in order; never scoped.
  function InjectableNew(inj: CommonManifest.Injectable): (r: Node)
    ensures r.kind == InjectableKind(inj) && !r.scoped
    ensures inj.container.None? ==> r.ty == inj.ty
    ensures inj.container.Some? ==>
              r.ty == inj.container.value.(args := inj.container.value.args + [inj.ty])
    ensures |r.deps| == |inj.dependencies|
    ensures forall i :: 0 <= i < |r.deps| ==> r.deps[i] == inj.dependencies[i].ty
  {
    var ty := if inj.container.Some? then inj.container.value.(args := inj.container.value.args + [inj.ty]) else inj.ty;
    Node(InjectableKind(inj), ty, seq(|inj.dependencies|, i requires 0 <= i < |inj.dependencies| => inj.dependencies[i].ty), false)
  }

  /// A container wraps the injectable: its last argument is the injectable
  /// type and its earlier arguments are the container's own.
  lemma ContainerWrapsInjectable(inj: CommonManifest.Injectable)
    requires inj.container.Some?
    ensures var t := InjectableNew(inj).ty;
            |t.args| == |inj.container.value.args| + 1 && t.args[|t.args| - 1] == inj.ty
            && t.args[..|t.args| - 1] == inj.container.value.args && t.path == inj.container.value.path
  {
  }

  /// `ScopedNode::for_type` (scoped.rs): a node for the reference type `t`
  /// that depends on, and targets, the same type without the reference.
  /// (`clone` copies the three fields, which a value does by itself.)
  function ScopedForType(t: TypeData): (r: Node)
    ensures r.kind.ScopedKind? && r.ty == t && r.deps == [r.kind.target] && !r.scoped
    ensures !r.kind.target.fieldRef && r.kind.target.(fieldRef := t.fieldRef) == t
  {
    var nonRef := t.(fieldRef := false);
    Node(ScopedKind(nonRef), t, [nonRef], false)
  }

  /// `ScopedNode::can_depend` accepts any target, scoped or not.
  lemma ScopedAcceptsScoped(t: TypeData, target: Node, ancestors: seq<string>)
    requires WellFormed(target)
    ensures CanDepend(ScopedForType(t), target, ancestors).Ok?
  {
  }

  /// `BoxedNode::for_type` (boxed.rs): `Box<T>` for the first argument `T`
  /// of the requested type, depending on `T`; no argument panics (`None`).
  function BoxedForType(t: TypeData): (r: Option<Node>)
    ensures r.Some? <==> |t.args| > 0
    ensures r.Some? ==> r.value == Node(BoxedKind(t.args[0]), Wrapped(BoxPath, t.args[0]), [t.args[0]], false)
  {
    if |t.args| == 0 then None
    else Some(Node(BoxedKind(t.args[0]), Wrapped(BoxPath, t.args[0]), [t.args[0]], false))
  }

  /// `ProviderNode::for_type` (provider.rs): `Provider<T>` depending on `T`.
  function ProviderForType(t: TypeData): (r: Option<Node>)
    ensures r.Some? <==> |t.args| > 0
    ensures r.Some? ==> r.value == Node(ProviderKind(t.args[0]), Wrapped(ProviderPath, t.args[0]), [t.args[0]], false)
  {
    if |t.args| == 0 then None
    else Some(Node(ProviderKind(t.args[0]), Wrapped(ProviderPath, t.args[0]), [t.args[0]], false))
  }

  /// `is_runtime_dependency`: only a provider node defers its dependency to
  /// run time.
  predicate IsRuntimeDependency(n: Node)
  {
    n.kind.ProviderKind?
  }

  /// `LazyNode::for_type` (lazy.rs): `Lazy<T>` depending on `Provider<T>`.
  function LazyForType(t: TypeData): (r: Option<Node>)
    ensures r.Some? <==> |t.args| > 0
    ensures r.Some? ==>
              var p := Wrapped(ProviderPath, t.args[0]);
              r.value == Node(LazyKind(p), Wrapped(LazyPath, t.args[0]), [p], false)
  {
    if |t.args| == 0 then None
    else
      var p := Wrapped(ProviderPath, t.args[0]);
      Some(Node(LazyKind(p), Wrapped(LazyPath, t.args[0]), [p], false))
  }

  /// A `Lazy<T>` is satisfied by the provider node built for its dependency
  /// `Provider<T>`, which depends on `T` at run time only: the chain from
  /// `Lazy<T>` to `T` goes through a runtime dependency.
  lemma LazyGoesThroughProvider(t: TypeData)
    requires |t.args| > 0
    ensures var l := LazyForType(t).value;
            var p := ProviderForType(l.deps[0]).value;
            p.ty == l.deps[0] && p.deps == [t.args[0]] && IsRuntimeDependency(p)
  {
  }

  /// `ComponentLifetimeNode::for_type` (component_lifetime.rs): `Cl<T>` for
  /// the first argument `T`. When `T` is not a reference but the graph
  /// already has a node for `&T`, the node depends on `&T` instead, so a
  /// scoped `T` is handed out by reference. No argument panics (`None`).
  function ComponentLifetimeForType(graph: map<string, Node>, t: TypeData): (r: Option<Node>)
    requires |t.args| > 0 ==> Rooted(t.args[0])
    ensures r.Some? <==> |t.args| > 0
    ensures r.Some? ==>
              r.value.ty == Wrapped(ClPath, t.args[0]) && r.value.kind.ComponentLifetimeKind?
              && r.value.deps == [r.value.kind.inner] && !r.value.scoped
    ensures r.Some? ==>
              var arg := t.args[0];
              r.value.kind.inner ==
                (if !arg.fieldRef && KeyOf(RefType(arg)) in graph then RefType(arg) else arg)
  {
    if |t.args| == 0 then None
    else
      var arg := t.args[0];
      var inner := if !arg.fieldRef && KeyOf(RefType(arg)) in graph then RefType(arg) else arg;
      Some(Node(ComponentLifetimeKind(inner), Wrapped(ClPath, arg), [inner], false))
  }

  /// Once the variants of a scoped `T` are in the graph, `Cl<T>` depends on
  /// the `&T` node that holds the shared instance and returns it by `Ref`
  /// (`generate_implementation` picks `Cl::Ref` exactly for a reference).
  lemma ClOfScopedSharesInstance(graph: map<string, Node>, n: Node, t: TypeData)
    requires WellFormed(n) && |n.ty.scopes| > 0 && !n.ty.fieldRef
    requires |t.args| > 0 && t.args[0] == n.ty
    requires KeyOf(GenerateNodeVariants(n)[1].ty) in graph
    ensures ComponentLifetimeForType(graph, t).value.deps == [GenerateNodeVariants(n)[1].ty]
    ensures UsesRef(ComponentLifetimeForType(graph, t).value.kind.inner)
  {
  }

  /// `BindsOptionOfNode::new` (binds_option_of.rs): one `Option<T>` node.
  /// Its dependency on `T` is optional (`OptionalDependencies`), so it has
  /// no regular dependencies.
  function BindsOptionOfNew(b: CommonManifest.Binding): (r: seq<Node>)
    ensures |r| == 1 && r[0].ty == Wrapped(OptionPath, b.ty) && r[0].kind == OptionKind(b.ty)
    ensures r[0].deps == [] && !r[0].scoped
  {
    [Node(OptionKind(b.ty), Wrapped(OptionPath, b.ty), [], false)]
  }

  /// `get_optional_dependencies`: the option node's `T`.
  function OptionalDependencies(n: Node): (r: seq<TypeData>)
    ensures n.kind.OptionKind? ==> r == [n.kind.inner]
    ensures !n.kind.OptionKind? ==> r == []
  {
    if n.kind.OptionKind? then [n.kind.inner] else []
  }

  /// `generate_implementation` of an option node: `Some` exactly when the
  /// graph has a node for `T`, `None` otherwise.
  predicate OptionIsSome(graph: map<string, Node>, n: Node)
    requires n.kind.OptionKind? && Rooted(n.kind.inner)
  {
    KeyOf(n.kind.inner) in graph
  }

  /// A binding's `Option<T>` is `Some` iff `T` is bound.
  lemma OptionSomeIffBound(graph: map<string, Node>, b: CommonManifest.Binding)
    requires Rooted(b.ty)
    ensures BindsOptionOfNew(b)[0].kind.OptionKind? && Rooted(BindsOptionOfNew(b)[0].kind.inner)
    ensures OptionIsSome(graph, BindsOptionOfNew(b)[0]) <==> KeyOf(b.ty) in graph
    ensures OptionalDependencies(BindsOptionOfNew(b)[0]) == [b.ty]
  {
  }

  /// `ParentNode::new` (parent.rs): a node that forwards to the parent
  /// component's provider of the missing type. A multibinding's node gets
  /// the identifier suffix "_parent", so that it does not collide with the
  /// child's own multibinding node of the same type.
  function ParentNew(md: MissingDependency): (r: Node)
    ensures r.kind == ParentKind(md.ty) && r.deps == [] && !r.scoped
    ensures md.multibindingType == CommonManifest.NoMultibinding ==> r.ty == md.ty
    ensures md.multibindingType != CommonManifest.NoMultibinding ==>
              r.ty == md.ty.(identifierSuffix := md.ty.identifierSuffix + "_parent")
  {
    var ty := if md.multibindingType != CommonManifest.NoMultibinding
              then md.ty.(identifierSuffix := md.ty.identifierSuffix + "_parent")
              else md.ty;
    Node(ParentKind(md.ty), ty, [], false)
  }

  /// The parent node of a plain dependency takes the missing key itself; the
  /// parent node of a multibinding is filed under a different key whose
  /// identifier ends in "_parent".
  lemma ParentKey(md: MissingDependency)
    requires Rooted(md.ty)
    ensures Rooted(ParentNew(md).ty)
    ensures md.multibindingType == CommonManifest.NoMultibinding ==> KeyOf(ParentNew(md).ty) == KeyOf(md.ty)
    ensures md.multibindingType != CommonManifest.NoMultibinding ==>
              KeyOf(ParentNew(md).ty) == KeyOf(md.ty) + "_parent"
              && KeyOf(ParentNew(md).ty) != KeyOf(md.ty)
  {
    if md.multibindingType != CommonManifest.NoMultibinding {
      SuffixOnlyChangesTail(md.ty, md.ty.identifierSuffix + "_parent");
      SuffixOnlyChangesTail(md.ty, md.ty.identifierSuffix);
      assert md.ty.(identifierSuffix := md.ty.identifierSuffix) == md.ty;
    }
  }

  /// The part of a type's identifier before its suffix.
  function IdentifierHead(t: TypeData): string
    requires Rooted(t)
  {
    (if t.qualifier.Some? then "ᑕ" + KeyOf(t.qualifier.value) + "ᑐ_" else "")
    + TypeRender.Escape(CanonicalOf(t)) + "_"
  }

  /// Changing only the identifier suffix changes only the identifier's tail.
  lemma SuffixOnlyChangesTail(t: TypeData, s: string)
    requires Rooted(t)
    ensures Rooted(t.(identifierSuffix := s))
    ensures KeyOf(t.(identifierSuffix := s)) == IdentifierHead(t) + s
  {
    var u := t.(identifierSuffix := s);
    assert Rooted(u);
    TypeRender.ArgPathsSameArgs(t, u, TypeRender.CanonicalMode, 0);
    assert TypeRender.PathWithArgs(u, TypeRender.CanonicalMode) == TypeRender.PathWithArgs(t, TypeRender.CanonicalMode);
    assert TypeRender.Canonical(u) == TypeRender.Canonical(t);
  }

  // ---------------------------------------------------------------------------
  // Vec and map nodes

  /// `VecNode::new` (vec.rs): an empty `Vec<T>` multibinding.
  function VecNew(t: TypeData): (r: Node)
    ensures r.kind == VecKind && r.ty == Wrapped(VecPath, t) && r.deps == [] && !r.scoped
  {
    Node(VecKind, Wrapped(VecPath, t), [], false)
  }

  /// `key_type` (map.rs): a string key is `::std::string::String`, an i32
  /// key the primitive `i32`, an enum key its enum type; no key is the error
  /// "unable to handle key".
  function MapKeyType(k: CommonManifest.MapKey): (r: Result<TypeData>)
    ensures r.Err? <==> k.NoKey?
    ensures r.Err? ==> r.msg == "unable to handle key"
    ensures k.StringKey? ==> r == Ok(GlobalType("std::string::String", []))
    ensures k.I32Key? ==> r == Ok(NewType().(root := Primitive, path := "i32"))
    ensures k.EnumKey? ==> r == Ok(k.enumType)
  {
    match k
    case StringKey(_) => Ok(GlobalType("std::string::String", []))
    case I32Key(_) => Ok(NewType().(root := Primitive, path := "i32"))
    case EnumKey(e, _) => Ok(e)
    case NoKey => Err("unable to handle key")
  }

  /// `map_type`: `HashMap<K, V>`, carrying the value's qualifier so that a
  /// qualified map is a different key from an unqualified one.
  function MapType(keyType: TypeData, valueType: TypeData): (r: TypeData)
    ensures r.root == Global && r.path == MapPath && r.args == [keyType, valueType]
    ensures r.qualifier == valueType.qualifier && !r.fieldRef && !r.traitObject && r.scopes == []
  {
    GlobalType(MapPath, [keyType, valueType]).(qualifier := valueType.qualifier)
  }

  /// `MapNode::with_key_type`: an empty map of the given key and value types.
  function MapWithKeyType(keyType: TypeData, valueType: TypeData): (r: Node)
    ensures r.kind == MapKind(map[]) && r.ty == MapType(keyType, valueType) && r.deps == [] && !r.scoped
  {
    Node(MapKind(map[]), MapType(keyType, valueType), [], false)
  }

  /// `MapNode::new`: the key type of `k`, then an empty map.
  function MapNew(k: CommonManifest.MapKey, valueType: TypeData): (r: Result<Node>)
    ensures r.Err? <==> k.NoKey?
    ensures r.Ok? ==> r.value == MapWithKeyType(MapKeyType(k).value, valueType)
  {
    var kt :- MapKeyType(k);
    Ok(MapWithKeyType(kt, valueType))
  }

  /// `add_binding` on a map node's value: the key now maps to `valueType`.
  function AddBinding(n: Node, k: CommonManifest.MapKey, valueType: TypeData): (r: Node)
    requires n.kind.MapKind?
    ensures r.kind.MapKind? && r.ty == n.ty
    ensures r.kind.bindings.Keys == n.kind.bindings.Keys + {k} && r.kind.bindings[k] == valueType
    ensures forall j :: j in n.kind.bindings && j != k ==> r.kind.bindings[j] == n.kind.bindings[j]
  {
    n.(kind := MapKind(n.kind.bindings[k := valueType]))
  }

  /// A map node built key by key with distinct keys merges with another such
  /// node exactly when no key is bound in both, and depends on every value
  /// bound in either.
  lemma MapMergeDependencies(a: Node, b: Node)
    requires a.kind.MapKind? && b.kind.MapKind? && SharedKeys(a, b) == {}
    ensures var m := a.(kind := MapKind(a.kind.bindings + b.kind.bindings));
            MapDependencies(m) == MapDependencies(a) + MapDependencies(b)
  {
    var m := a.(kind := MapKind(a.kind.bindings + b.kind.bindings));
    forall t | t in MapDependencies(a) + MapDependencies(b)
      ensures t in MapDependencies(m)
    {
      if t in MapDependencies(a) {
        var k :| k in a.kind.bindings && a.kind.bindings[k] == t;
        assert k !in b.kind.bindings by { assert k !in SharedKeys(a, b); }
        assert m.kind.bindings[k] == t;
      } else {
        var k :| k in b.kind.bindings && b.kind.bindings[k] == t;
        assert m.kind.bindings[k] == t;
      }
    }
  }
}
