// The binding graph of the first-generation processor
// (processor/src/graph.rs): its nodes, the merge and can-depend rules, the
// lookup with its "requested by" trace, `has_scoped_deps`, and the
// depth-first provider generation. Types are keyed and named by the
// protobuf `Type` renderers `ProtoTypes.Identifier` and
// `ProtoTypes.Canonical`, arguments rendered by `path_with_args`; a key
// text that is not a Rust identifier is the panic of `identifier()`.
// The Rust text a provider contributes is modelled by the key of the node
// whose provider is emitted; a generation emits a sequence of keys.
module BindingGraph {
  import opened Outcomes
  import opened Types
  import opened Strs
  import opened ProtoManifest
  import ProtoTypes
  import TypeRender

  // ---------------------------------------------------------------------------
  // Nodes

  /// A module as the component holds it: its type and the component field
  /// that stores it.
  datatype ModuleInstance = ModuleInstance(ty: TypeData, name: string)

  /// `NodeType`: what creates the node's value.
  datatype NodeKind =
    | InjectableKind(injectable: Injectable)
    | ProvidesKind(owner: ModuleInstance, provider: Provider)
    | BindsKind(owner: ModuleInstance, provider: Provider)
    | BoxedKind(inner: Node)
    | ScopedKind(inner: Node)

  /// A node creates `ty` from `deps`.
  datatype Node = Node(ty: TypeData, deps: seq<TypeData>, kind: NodeKind, scoped: bool)

  /// `canonical_string_path()`.
  function CanonicalOf(t: TypeData): (s: string)
    requires Rooted(t)
    ensures ProtoTypes.Canonical(t) == Some(s)
  {
    ProtoTypes.Canonical(t).value
  }

  /// The text of the key a type is filed under in the graph
  /// (`identifier()`): "ref_" for a reference, then the escaped canonical
  /// path. `identifier()` panics when this text is not an identifier.
  function KeyOf(t: TypeData): (k: string)
    requires Rooted(t)
  {
    (if t.fieldRef then "ref_" else "") + ProtoTypes.Escape(CanonicalOf(t), ProtoTypes.Protobuf)
  }

  /// The protobuf `identifier()` of the type exists exactly when the key
  /// text is an identifier, and is then the key.
  lemma KeyIsIdentifier(t: TypeData)
    requires Rooted(t)
    ensures ProtoTypes.Identifier(t, ProtoTypes.Protobuf).Some? <==> ProtoTypes.IsIdent(KeyOf(t))
    ensures ProtoTypes.Identifier(t, ProtoTypes.Protobuf).Some? ==>
              ProtoTypes.Identifier(t, ProtoTypes.Protobuf).value == KeyOf(t)
  {
  }

  /// `readable()`: "ref " for a reference, then the canonical path.
  function ReadableOf(t: TypeData): (s: string)
    requires Rooted(t)
    ensures EndsWith(s, CanonicalOf(t))
  {
    var r := (if t.fieldRef then "ref " else "") + CanonicalOf(t);
    assert r[|r| - |CanonicalOf(t)|..] == CanonicalOf(t);
    r
  }

  /// Every type a node mentions (its own, its dependencies', its module's)
  /// can be rendered.
  ghost predicate WellFormed(n: Node)
  {
    && Rooted(n.ty)
    && (forall i :: 0 <= i < |n.deps| ==> Rooted(n.deps[i]))
    && ((n.kind.ProvidesKind? || n.kind.BindsKind?) ==> Rooted(n.kind.owner.ty))
  }

  /// `get_name` (`ProviderNameVisitor`): the human-readable name of a node's
  /// provider; each kind has its own marker.
  function NameOf(n: Node): (s: string)
    requires WellFormed(n)
    ensures n.kind.InjectableKind? ==> EndsWith(s, " (injectable)")
    ensures n.kind.ProvidesKind? ==> EndsWith(s, " (module provides)")
    ensures n.kind.BindsKind? ==> EndsWith(s, " (module binds)")
    ensures n.kind.BoxedKind? ==> EndsWith(s, " (auto boxed)")
    ensures n.kind.ScopedKind? ==> StartsWith(s, "ref ")
  {
    match n.kind
    case InjectableKind(_) =>
      var s := CanonicalOf(n.ty) + " (injectable)";
      assert s[|s| - 13..] == " (injectable)";
      s
    case ProvidesKind(m, p) =>
      var s := CanonicalOf(m.ty) + "." + p.name + " (module provides)";
      assert s[|s| - 18..] == " (module provides)";
      s
    case BindsKind(m, p) =>
      var s := CanonicalOf(m.ty) + "." + p.name + " (module binds)";
      assert s[|s| - 15..] == " (module binds)";
      s
    case BoxedKind(_) =>
      var s := CanonicalOf(n.ty) + " (auto boxed)";
      assert s[|s| - 13..] == " (auto boxed)";
      s
    case ScopedKind(_) =>
      var s := "ref " + CanonicalOf(n.ty);
      assert s[..4] == "ref ";
      s
  }

  // ---------------------------------------------------------------------------
  // The rules of each kind

  const DuplicatedPrefix := "found duplicated bindings for "

  function DuplicatedMsg(existing: Node, added: Node): string
    requires WellFormed(existing) && WellFormed(added)
  {
    DuplicatedPrefix + (CanonicalOf(existing.ty) + ", provided by:\n\t" + DuplicatedTail(existing, added))
  }

  /// The two providers a duplicate names, the existing one first.
  function DuplicatedTail(existing: Node, added: Node): string
    requires WellFormed(existing) && WellFormed(added)
  {
    NameOf(existing) + "\n\t" + NameOf(added)
  }

  /// `MergeNodeVisitor`: only an auto-boxed node may be bound twice, and
  /// only by a node with the same canonical path; it then stays as it is.
  /// Every other second binding is a duplicate naming both providers.
  function Merge(existing: Node, added: Node): (r: Result<Node>)
    requires WellFormed(existing) && WellFormed(added)
    ensures r.Ok? <==> existing.kind.BoxedKind? && CanonicalOf(existing.ty) == CanonicalOf(added.ty)
    ensures r.Ok? ==> r.value == existing
    ensures r.Err? ==> StartsWith(r.msg, DuplicatedPrefix)
    ensures r.Err? ==> EndsWith(r.msg, DuplicatedTail(existing, added))
  {
    if existing.kind.BoxedKind? && CanonicalOf(existing.ty) == CanonicalOf(added.ty) then
      Ok(existing)
    else
      var mid := CanonicalOf(existing.ty) + ", provided by:\n\t";
      var tail := DuplicatedTail(existing, added);
      Affixes(DuplicatedPrefix, mid + tail);
      Affixes(mid, tail);
      EndsWithConcat(DuplicatedPrefix, mid + tail, tail);
      Err(DuplicatedMsg(existing, added))
  }

  const NoScopePrefix := "unable to provide scoped binding as regular type "

  /// `CanDepend`: a node may depend on a scoped node only when it is itself
  /// the `Scoped` wrapper; the error names the target and the chain.
  function CanDepend(node: Node, target: Node, ancestors: seq<string>): (r: Result<()>)
    requires WellFormed(target)
    ensures r.Err? <==> target.scoped && !node.kind.ScopedKind?
    ensures r.Err? ==> r.msg == NoScopePrefix + NameOf(target) + "\nrequested by:"
                                + Join(ancestors, "\nrequested by:")
  {
    if target.scoped && !node.kind.ScopedKind? then
      Err(NoScopePrefix + NameOf(target) + "\nrequested by:" + Join(ancestors, "\nrequested by:"))
    else Ok(())
  }

  // ---------------------------------------------------------------------------
  // The map from keys to nodes

  /// Every node is well formed and filed under its own type's key, which
  /// is an identifier.
  ghost predicate ValidMap(m: map<string, Node>)
  {
    forall k :: k in m ==> WellFormed(m[k]) && KeyOf(m[k].ty) == k && ProtoTypes.IsIdent(k)
  }

  /// Every node is well formed, wherever it is filed.
  ghost predicate NodesWellFormed(m: map<string, Node>)
  {
    forall k :: k in m ==> WellFormed(m[k])
  }

  const MissingPrefix := "missing bindings for "

  /// `get_node`: the `identifier()` panic when the key text is not an
  /// identifier, else the node filed under the type's key, or "missing
  /// bindings" with the readable type and the chain of requesters.
  function GetNode(m: map<string, Node>, t: TypeData, ancestors: seq<string>): (r: Result<Node>)
    requires Rooted(t)
    ensures r.Ok? <==> ProtoTypes.IsIdent(KeyOf(t)) && KeyOf(t) in m
    ensures r.Ok? ==> r.value == m[KeyOf(t)]
    ensures !ProtoTypes.IsIdent(KeyOf(t)) ==> r == Err(ProtoTypes.NotIdentPanic)
    ensures r.Err? && ProtoTypes.IsIdent(KeyOf(t)) ==>
              r.msg == MissingPrefix + ReadableOf(t) + "\nrequested by: " + Join(ancestors, "\nrequested by: ") + " "
  {
    var k := KeyOf(t);
    if !ProtoTypes.IsIdent(k) then Err(ProtoTypes.NotIdentPanic)
    else if k in m then Ok(m[k])
    else Err(MissingPrefix + ReadableOf(t) + "\nrequested by: " + Join(ancestors, "\nrequested by: ") + " ")
  }

  /// `add_node` on the map as a value. The `identifier()` panic comes
  /// first when the key text is not an identifier. When the key is taken,
  /// the merge rule decides; its result is stored and then overwritten by
  /// the new node, so a successful insertion always leaves the new node in
  /// place.
  function Insert(m: map<string, Node>, node: Node): (r: Result<map<string, Node>>)
    requires ValidMap(m) && WellFormed(node)
    ensures r.Ok? ==> r.value == m[KeyOf(node.ty) := node] && ValidMap(r.value)
    ensures r.Err? <==> !ProtoTypes.IsIdent(KeyOf(node.ty))
                        || (KeyOf(node.ty) in m && Merge(m[KeyOf(node.ty)], node).Err?)
    ensures !ProtoTypes.IsIdent(KeyOf(node.ty)) ==> r == Err(ProtoTypes.NotIdentPanic)
  {
    var k := KeyOf(node.ty);
    if !ProtoTypes.IsIdent(k) then Err(ProtoTypes.NotIdentPanic)
    else if k in m then
      var merged :- Merge(m[k], node);
      Ok(m[KeyOf(merged.ty) := merged][k := node])
    else
      Ok(m[k := node])
  }

  /// As written, a GLOBAL or CRATE type with two or more arguments
  /// (`Result<i32, String>`) can be neither filed nor looked up: both
  /// `add_node` and `get_node` panic in `identifier()`.
  lemma ArgumentsListKeyPanics(m: map<string, Node>, node: Node, ancestors: seq<string>)
    requires ValidMap(m) && WellFormed(node)
    requires node.ty.root == Global || node.ty.root == Crate
    requires |node.ty.args| >= 2
    ensures Insert(m, node) == Err(ProtoTypes.NotIdentPanic)
    ensures GetNode(m, node.ty, ancestors) == Err(ProtoTypes.NotIdentPanic)
  {
    ProtoTypes.ArgumentsListPanics(node.ty, ProtoTypes.Protobuf);
    KeyIsIdentifier(node.ty);
  }

  ghost predicate AllWellFormed(ns: seq<Node>)
  {
    forall i :: 0 <= i < |ns| ==> WellFormed(ns[i])
  }

  /// `nodes.iter().map(add_node).collect::<Result<Vec<()>>>()?`: insert in
  /// order, stopping at the first failure.
  function InsertAll(m: map<string, Node>, ns: seq<Node>): (r: Result<map<string, Node>>)
    requires ValidMap(m) && AllWellFormed(ns)
    ensures r.Ok? ==> ValidMap(r.value)
    decreases |ns|
  {
    if |ns| == 0 then Ok(m)
    else
      var m1 :- Insert(m, ns[0]);
      InsertAll(m1, ns[1..])
  }

  /// Some node of `ns` has the key `k`.
  ghost predicate HasKey(ns: seq<Node>, k: string)
    requires AllWellFormed(ns)
  {
    exists i :: 0 <= i < |ns| && KeyOf(ns[i].ty) == k
  }

  lemma HasKeyCons(ns: seq<Node>, k: string)
    requires AllWellFormed(ns) && |ns| > 0
    ensures AllWellFormed(ns[1..])
    ensures HasKey(ns, k) <==> KeyOf(ns[0].ty) == k || HasKey(ns[1..], k)
  {
    var tl := ns[1..];
    assert AllWellFormed(tl);
    if HasKey(tl, k) {
      var i :| 0 <= i < |tl| && KeyOf(tl[i].ty) == k;
      assert KeyOf(ns[i + 1].ty) == k;
    }
    if HasKey(ns, k) {
      var i :| 0 <= i < |ns| && KeyOf(ns[i].ty) == k;
      if i > 0 {
        assert KeyOf(tl[i - 1].ty) == k;
      }
    }
  }

  /// After a successful run of insertions the map holds exactly the old
  /// keys and the inserted nodes' keys.
  lemma {:induction false} InsertAllKeys(m: map<string, Node>, ns: seq<Node>, k: string)
    requires ValidMap(m) && AllWellFormed(ns)
    requires InsertAll(m, ns).Ok?
    ensures k in InsertAll(m, ns).value <==> k in m || HasKey(ns, k)
    decreases |ns|
  {
    if |ns| > 0 {
      var m1 := Insert(m, ns[0]).value;
      HasKeyCons(ns, k);
      InsertAllKeys(m1, ns[1..], k);
    }
  }

  /// A key none of the inserted nodes has keeps its old node.
  lemma {:induction false} InsertAllUntouched(m: map<string, Node>, ns: seq<Node>, k: string)
    requires ValidMap(m) && AllWellFormed(ns)
    requires InsertAll(m, ns).Ok?
    requires k in m && forall i :: 0 <= i < |ns| ==> KeyOf(ns[i].ty) != k
    ensures k in InsertAll(m, ns).value && InsertAll(m, ns).value[k] == m[k]
    decreases |ns|
  {
    if |ns| > 0 {
      var m1 := Insert(m, ns[0]).value;
      var tl := ns[1..];
      assert AllWellFormed(tl);
      assert KeyOf(ns[0].ty) != k;
      forall i | 0 <= i < |tl|
        ensures KeyOf(tl[i].ty) != k
      {
        assert tl[i] == ns[i + 1];
      }
      InsertAllUntouched(m1, tl, k);
    }
  }

  /// One successful step of `InsertAll`.
  lemma InsertAllStep(m: map<string, Node>, ns: seq<Node>)
    requires ValidMap(m) && AllWellFormed(ns) && |ns| > 0
    requires InsertAll(m, ns).Ok?
    ensures Insert(m, ns[0]).Ok? && AllWellFormed(ns[1..])
    ensures InsertAll(m, ns) == InsertAll(Insert(m, ns[0]).value, ns[1..])
  {
    assert AllWellFormed(ns[1..]);
  }

  /// The node filed under an inserted key is the last node inserted with
  /// that key (later bindings of one key replace earlier ones).
  lemma {:induction false} InsertAllLast(m: map<string, Node>, ns: seq<Node>, i: nat)
    requires ValidMap(m) && AllWellFormed(ns)
    requires InsertAll(m, ns).Ok?
    requires i < |ns|
    ensures var r := InsertAll(m, ns).value;
            var k := KeyOf(ns[i].ty);
            k in r && exists j :: i <= j < |ns| && KeyOf(ns[j].ty) == k && r[k] == ns[j]
    decreases |ns|, 1
  {
    InsertAllStep(m, ns);
    var tl := ns[1..];
    var k := KeyOf(ns[i].ty);
    if i > 0 {
      assert tl[i - 1] == ns[i];
      InsertAllLastShift(m, ns, i - 1);
    } else if HasKey(tl, k) {
      var j :| 0 <= j < |tl| && KeyOf(tl[j].ty) == k;
      InsertAllLastShift(m, ns, j);
    } else {
      var m1 := Insert(m, ns[0]).value;
      assert k in m1 && m1[k] == ns[0];
      InsertAllUntouched(m1, tl, k);
    }
  }

  /// `InsertAllLast` for position `j` of the tail, read back in `ns`.
  lemma {:induction false} InsertAllLastShift(m: map<string, Node>, ns: seq<Node>, j: nat)
    requires ValidMap(m) && AllWellFormed(ns) && |ns| > 0
    requires InsertAll(m, ns).Ok?
    requires j < |ns| - 1
    ensures var r := InsertAll(m, ns).value;
            var k := KeyOf(ns[j + 1].ty);
            k in r && exists j' :: j + 1 <= j' < |ns| && KeyOf(ns[j'].ty) == k && r[k] == ns[j']
    decreases |ns|, 0
  {
    InsertAllStep(m, ns);
    var m1 := Insert(m, ns[0]).value;
    var tl := ns[1..];
    var r := InsertAll(m, ns).value;
    InsertAllLast(m1, tl, j);
    assert tl[j] == ns[j + 1];
    var k := KeyOf(tl[j].ty);
    var j' :| j <= j' < |tl| && KeyOf(tl[j'].ty) == k && r[k] == tl[j'];
    assert ns[j' + 1] == tl[j'];
  }

  // ---------------------------------------------------------------------------
  // `has_scoped_deps`, as written: a recursion with no memory of the path.
  // Its depth is bounded by `fuel`; running out (`OutOfFuel`) stands for
  // the stack overflow of the unbounded recursion.

  /// The loop of `has_scoped_deps(n)` from dependency `i` on: a dependency
  /// that is scoped, or that has scoped dependencies itself, answers true.
  function HasScopedDepsRun(m: map<string, Node>, n: Node, i: nat, fuel: nat): (r: Run<bool>)
    requires NodesWellFormed(m) && WellFormed(n) && i <= |n.deps|
    ensures r == Returns(Ok(true)) ==> exists k :: k in m && m[k].scoped
    decreases fuel, |n.deps| - i
  {
    if i == |n.deps| then Returns(Ok(false))
    else
      var d := GetNode(m, n.deps[i], []);
      if d.Err? then Returns(Err(d.msg))
      else if d.value.scoped then Returns(Ok(true))
      else if fuel == 0 then OutOfFuel
      else match HasScopedDepsRun(m, d.value, 0, fuel - 1)
        case OutOfFuel => OutOfFuel
        case Returns(Err(e)) => Returns(Err(e))
        case Returns(Ok(true)) => Returns(Ok(true))
        case Returns(Ok(false)) => HasScopedDepsRun(m, n, i + 1, fuel)
  }

  /// What `has_scoped_deps` is asked: some dependency of `n` from index
  /// `i` on is bound and is scoped, or reaches a scoped node itself through
  /// at most `depth` further lookups.
  ghost predicate ReachesScoped(m: map<string, Node>, n: Node, i: nat, depth: nat)
    requires NodesWellFormed(m) && WellFormed(n) && i <= |n.deps|
    decreases depth, |n.deps| - i
  {
    && i < |n.deps|
    && var k := KeyOf(n.deps[i]);
       || (ProtoTypes.IsIdent(k) && k in m
           && (m[k].scoped || (depth > 0 && ReachesScoped(m, m[k], 0, depth - 1))))
       || ReachesScoped(m, n, i + 1, depth)
  }

  /// `true` from the loop as written means a scoped node is reachable
  /// within the stack depth.
  lemma {:induction false} RunTrueReaches(m: map<string, Node>, n: Node, i: nat, fuel: nat)
    requires NodesWellFormed(m) && WellFormed(n) && i <= |n.deps|
    requires HasScopedDepsRun(m, n, i, fuel) == Returns(Ok(true))
    ensures ReachesScoped(m, n, i, fuel)
    decreases fuel, |n.deps| - i
  {
    var d := GetNode(m, n.deps[i], []).value;
    if !d.scoped {
      var below: nat := fuel - 1;
      if HasScopedDepsRun(m, d, 0, below) == Returns(Ok(true)) {
        RunTrueReaches(m, d, 0, below);
      } else {
        RunTrueReaches(m, n, i + 1, fuel);
      }
    }
  }

  /// `false` from the loop as written means no scoped node is reachable,
  /// at any depth.
  lemma {:induction false} RunFalseNoReach(m: map<string, Node>, n: Node, i: nat, fuel: nat, depth: nat)
    requires NodesWellFormed(m) && WellFormed(n) && i <= |n.deps|
    requires HasScopedDepsRun(m, n, i, fuel) == Returns(Ok(false))
    ensures !ReachesScoped(m, n, i, depth)
    decreases fuel, |n.deps| - i
  {
    if i < |n.deps| {
      var d := GetNode(m, n.deps[i], []).value;
      var below: nat := fuel - 1;
      if depth > 0 {
        RunFalseNoReach(m, d, 0, below, depth - 1);
      }
      RunFalseNoReach(m, n, i + 1, fuel, depth);
    }
  }

  /// Whenever `has_scoped_deps` as written answers, it answers whether a
  /// scoped node is reachable from `n`.
  lemma RunAnswers(m: map<string, Node>, n: Node, fuel: nat)
    requires NodesWellFormed(m) && WellFormed(n)
    requires HasScopedDepsRun(m, n, 0, fuel).Returns? && HasScopedDepsRun(m, n, 0, fuel).result.Ok?
    ensures HasScopedDepsRun(m, n, 0, fuel) == Returns(Ok(true)) ==> ReachesScoped(m, n, 0, fuel)
    ensures HasScopedDepsRun(m, n, 0, fuel) == Returns(Ok(false)) ==>
              forall depth :: !ReachesScoped(m, n, 0, depth)
    ensures HasScopedDepsRun(m, n, 0, fuel).result.value <==> exists depth :: ReachesScoped(m, n, 0, depth)
  {
    var r := HasScopedDepsRun(m, n, 0, fuel);
    if r.result.value {
      assert r == Returns(Ok(true));
      RunTrueReaches(m, n, 0, fuel);
      assert ReachesScoped(m, n, 0, fuel);
      assert exists depth :: ReachesScoped(m, n, 0, depth);
    } else {
      assert r == Returns(Ok(false));
      forall depth: nat
        ensures !ReachesScoped(m, n, 0, depth)
      {
        RunFalseNoReach(m, n, 0, fuel, depth);
      }
      assert !exists depth :: ReachesScoped(m, n, 0, depth);
    }
  }

  /// A path the protobuf `identifier()` accepts as it is: made of
  /// identifier characters only.
  predicate PlainName(name: string)
  {
    forall i :: 0 <= i < |name| ==> ProtoTypes.IdentContinue(name[i])
  }

  /// The injectable `name` that injects a `name`, filed under "_" + name.
  function SelfLoop(name: string): (n: Node)
    requires PlainName(name)
    ensures WellFormed(n) && n.deps == [n.ty] && !n.scoped
    ensures KeyOf(n.ty) == "_" + name && ProtoTypes.IsIdent(KeyOf(n.ty))
  {
    var t := GlobalType(name, []);
    ProtoTypes.PlainGlobalIdentifier(t);
    KeyIsIdentifier(t);
    Node(t, [t], InjectableKind(Injectable(t, "", [Field("foo", t, true)])), false)
  }

  /// A graph whose only node depends on itself: `has_scoped_deps` never
  /// returns on it, however deep the stack.
  lemma {:induction false} SelfLoopDiverges(name: string, fuel: nat)
    requires PlainName(name)
    ensures var n := SelfLoop(name);
            var m := map[KeyOf(n.ty) := n];
            ValidMap(m) && HasScopedDepsRun(m, n, 0, fuel) == OutOfFuel
  {
    var n := SelfLoop(name);
    var m := map[KeyOf(n.ty) := n];
    if fuel > 0 {
      var below: nat := fuel - 1;
      SelfLoopDiverges(name, below);
      SelfDependentRun(m, n, fuel, below);
    } else {
      SelfDependentRun(m, n, fuel, 0);
    }
  }

  /// One call of `has_scoped_deps` on an unscoped node whose only
  /// dependency is itself: it runs out of stack exactly when the nested
  /// call does.
  lemma SelfDependentRun(m: map<string, Node>, n: Node, fuel: nat, below: nat)
    requires WellFormed(n) && n.deps == [n.ty] && !n.scoped && m == map[KeyOf(n.ty) := n]
    requires ProtoTypes.IsIdent(KeyOf(n.ty))
    requires fuel > 0 ==> below == fuel - 1 && HasScopedDepsRun(m, n, 0, below) == OutOfFuel
    ensures ValidMap(m) && HasScopedDepsRun(m, n, 0, fuel) == OutOfFuel
  {
    assert GetNode(m, n.deps[0], []) == Ok(n);
  }

  /// One more key on a path leaves fewer keys off it.
  lemma CardStep(keys: set<string>, path: set<string>, k: string)
    requires k in keys && k !in path
    ensures |keys - (path + {k})| < |keys - path|
  {
    assert keys - path == (keys - (path + {k})) + {k};
  }

  /// A larger set leaves no more keys outside it.
  lemma CardMono(keys: set<string>, a: set<string>, b: set<string>)
    requires a <= b
    ensures |keys - b| <= |keys - a|
  {
    assert keys - a == (keys - b) + ((keys - a) - (keys - b));
  }

  // ---------------------------------------------------------------------------
  // `has_scoped_deps`, corrected: it remembers the keys on the current path
  // and does not descend into one of them again (a cycle adds no dependency
  // the path has not already met). It agrees with the source on every
  // acyclic graph and returns on every graph.

  /// The loop from dependency `i` on, with `path` the keys from the start
  /// down to `n`, both included.
  function ScopedDepsFrom(m: map<string, Node>, n: Node, i: nat, path: set<string>): (r: Result<bool>)
    requires ValidMap(m) && WellFormed(n) && i <= |n.deps| && path <= m.Keys
    ensures r == Ok(true) ==> exists k :: k in m && m[k].scoped
    decreases |m.Keys - path|, |n.deps| - i
  {
    if i == |n.deps| then Ok(false)
    else
      var d :- GetNode(m, n.deps[i], []);
      var k := KeyOf(d.ty);
      if d.scoped then Ok(true)
      else if k in path then ScopedDepsFrom(m, n, i + 1, path)
      else
        CardStep(m.Keys, path, k);
        var b :- ScopedDepsFrom(m, d, 0, path + {k});
        if b then Ok(true) else ScopedDepsFrom(m, n, i + 1, path)
  }

  function ScopedDeps(m: map<string, Node>, n: Node): (r: Result<bool>)
    requires ValidMap(m) && WellFormed(n) && KeyOf(n.ty) in m
    ensures r == Ok(true) ==> exists k :: k in m && m[k].scoped
    ensures r == Ok(true) ==> ReachesScoped(m, n, 0, |m.Keys|)
  {
    var r := ScopedDepsFrom(m, n, 0, {KeyOf(n.ty)});
    if r == Ok(true) then
      assert m.Keys - {} == m.Keys;
      CardMono(m.Keys, {}, {KeyOf(n.ty)});
      FromTrueReaches(m, n, 0, {KeyOf(n.ty)}, |m.Keys|);
      r
    else r
  }

  /// `true` from the corrected loop means a scoped node is reachable
  /// within as many lookups as there are keys off the path.
  lemma {:induction false} FromTrueReaches(m: map<string, Node>, n: Node, i: nat, path: set<string>, depth: nat)
    requires ValidMap(m) && WellFormed(n) && i <= |n.deps| && path <= m.Keys
    requires ScopedDepsFrom(m, n, i, path) == Ok(true) && depth >= |m.Keys - path|
    ensures ReachesScoped(m, n, i, depth)
    decreases |m.Keys - path|, |n.deps| - i, 2
  {
    var d := GetNode(m, n.deps[i], []).value;
    if d.scoped {
      ReachesThrough(m, n, i, d, depth);
    } else if KeyOf(d.ty) in path {
      FromTrueReaches(m, n, i + 1, path, depth);
      ReachesLater(m, n, i, depth);
    } else {
      FromTrueReachesDep(m, n, i, path, depth);
    }
  }

  /// The step of `FromTrueReaches` at an unscoped dependency off the path.
  lemma {:induction false} FromTrueReachesDep(m: map<string, Node>, n: Node, i: nat, path: set<string>, depth: nat)
    requires ValidMap(m) && WellFormed(n) && i < |n.deps| && path <= m.Keys
    requires GetNode(m, n.deps[i], []).Ok? && !GetNode(m, n.deps[i], []).value.scoped
    requires KeyOf(GetNode(m, n.deps[i], []).value.ty) !in path
    requires ScopedDepsFrom(m, n, i, path) == Ok(true) && depth >= |m.Keys - path|
    ensures ReachesScoped(m, n, i, depth)
    decreases |m.Keys - path|, |n.deps| - i, 1
  {
    var d := GetNode(m, n.deps[i], []).value;
    var inner := path + {KeyOf(d.ty)};
    CardStep(m.Keys, path, KeyOf(d.ty));
    var r := ScopedDepsFrom(m, d, 0, inner);
    ScopedDepsFromStep(m, n, i, path, inner, r);
    if r == Ok(true) {
      FromTrueReachesInner(m, n, i, path, d, inner, depth);
    } else {
      FromTrueReaches(m, n, i + 1, path, depth);
      ReachesLater(m, n, i, depth);
    }
  }

  /// The step of `FromTrueReaches` where the dependency itself answers
  /// `true`.
  lemma {:induction false} FromTrueReachesInner(
    m: map<string, Node>, n: Node, i: nat, path: set<string>, d: Node, inner: set<string>, depth: nat)
    requires ValidMap(m) && WellFormed(n) && i < |n.deps| && path <= m.Keys
    requires ProtoTypes.IsIdent(KeyOf(n.deps[i])) && KeyOf(n.deps[i]) in m && m[KeyOf(n.deps[i])] == d
    requires inner <= m.Keys && |m.Keys - inner| < |m.Keys - path|
    requires ScopedDepsFrom(m, d, 0, inner) == Ok(true) && depth >= |m.Keys - path|
    ensures ReachesScoped(m, n, i, depth)
    decreases |m.Keys - path|, |n.deps| - i, 0
  {
    FromTrueReaches(m, d, 0, inner, depth - 1);
    ReachesThrough(m, n, i, d, depth);
  }

  /// `ReachesScoped` at dependency `i` through that dependency.
  lemma ReachesThrough(m: map<string, Node>, n: Node, i: nat, d: Node, depth: nat)
    requires NodesWellFormed(m) && WellFormed(n) && i < |n.deps|
    requires ProtoTypes.IsIdent(KeyOf(n.deps[i])) && KeyOf(n.deps[i]) in m && m[KeyOf(n.deps[i])] == d
    requires d.scoped || (depth > 0 && ReachesScoped(m, d, 0, depth - 1))
    ensures ReachesScoped(m, n, i, depth)
  {
  }

  /// `ReachesScoped` at dependency `i` through a later dependency.
  lemma ReachesLater(m: map<string, Node>, n: Node, i: nat, depth: nat)
    requires NodesWellFormed(m) && WellFormed(n) && i < |n.deps|
    requires ReachesScoped(m, n, i + 1, depth)
    ensures ReachesScoped(m, n, i, depth)
  {
  }

  /// `rank` orders the graph: every dependency found in the map ranks below
  /// its dependent, so no dependency chain returns to where it started.
  ghost predicate Acyclic(m: map<string, Node>, rank: map<string, nat>)
  {
    && ValidMap(m)
    && m.Keys <= rank.Keys
    && forall k, j :: k in m && 0 <= j < |m[k].deps| && KeyOf(m[k].deps[j]) in m ==>
         rank[KeyOf(m[k].deps[j])] < rank[k]
  }

  lemma {:induction false} ScopedDepsAgree(
    m: map<string, Node>, rank: map<string, nat>, n: Node, i: nat, fuel: nat, path: set<string>)
    requires Acyclic(m, rank) && WellFormed(n) && KeyOf(n.ty) in m && m[KeyOf(n.ty)] == n
    requires i <= |n.deps| && path <= m.Keys
    requires forall p :: p in path ==> rank[p] >= rank[KeyOf(n.ty)]
    requires fuel >= rank[KeyOf(n.ty)]
    ensures HasScopedDepsRun(m, n, i, fuel) == Returns(ScopedDepsFrom(m, n, i, path))
    decreases |m.Keys - path|, |n.deps| - i, 1
  {
    if i < |n.deps| {
      var g := GetNode(m, n.deps[i], []);
      if g.Err? {
        assert ScopedDepsFrom(m, n, i, path) == Err(g.msg);
      } else if !g.value.scoped {
        ScopedDepsAgreeDep(m, rank, n, i, fuel, path);
      }
    }
  }

  /// The step of `ScopedDepsAgree` at an unscoped dependency that is found.
  lemma {:induction false} ScopedDepsAgreeDep(
    m: map<string, Node>, rank: map<string, nat>, n: Node, i: nat, fuel: nat, path: set<string>)
    requires Acyclic(m, rank) && WellFormed(n) && KeyOf(n.ty) in m && m[KeyOf(n.ty)] == n
    requires i < |n.deps| && path <= m.Keys
    requires forall p :: p in path ==> rank[p] >= rank[KeyOf(n.ty)]
    requires fuel >= rank[KeyOf(n.ty)]
    requires GetNode(m, n.deps[i], []).Ok? && !GetNode(m, n.deps[i], []).value.scoped
    ensures HasScopedDepsRun(m, n, i, fuel) == Returns(ScopedDepsFrom(m, n, i, path))
    decreases |m.Keys - path|, |n.deps| - i, 0
  {
    var d := GetNode(m, n.deps[i], []).value;
    var kn := KeyOf(n.ty);
    var kd := KeyOf(d.ty);
    assert rank[KeyOf(m[kn].deps[i])] < rank[kn];
    assert kd !in path && fuel > 0;
    var below: nat := fuel - 1;
    var inner := path + {kd};
    CardStep(m.Keys, path, kd);
    ScopedDepsAgree(m, rank, d, 0, below, inner);
    var r := ScopedDepsFrom(m, d, 0, inner);
    if r == Ok(false) {
      ScopedDepsAgree(m, rank, n, i + 1, fuel, path);
    }
    AgreeStep(m, n, i, fuel, below, path, inner, r);
  }

  /// Both loops take the same step once the dependency's own answer agrees.
  lemma AgreeStep(m: map<string, Node>, n: Node, i: nat, fuel: nat, below: nat,
                  path: set<string>, inner: set<string>, r: Result<bool>)
    requires ValidMap(m) && WellFormed(n) && i < |n.deps| && path <= m.Keys && below + 1 == fuel
    requires GetNode(m, n.deps[i], []).Ok? && !GetNode(m, n.deps[i], []).value.scoped
    requires var d := GetNode(m, n.deps[i], []).value;
             KeyOf(d.ty) !in path && inner == path + {KeyOf(d.ty)}
             && r == ScopedDepsFrom(m, d, 0, inner)
             && HasScopedDepsRun(m, d, 0, below) == Returns(r)
    requires r == Ok(false) ==>
               HasScopedDepsRun(m, n, i + 1, fuel) == Returns(ScopedDepsFrom(m, n, i + 1, path))
    ensures HasScopedDepsRun(m, n, i, fuel) == Returns(ScopedDepsFrom(m, n, i, path))
  {
    var d := GetNode(m, n.deps[i], []).value;
    ScopedDepsFromStep(m, n, i, path, inner, r);
    HasScopedDepsRunStep(m, n, i, fuel, below, r);
  }

  /// The corrected loop at an unscoped dependency not yet on the path.
  lemma ScopedDepsFromStep(m: map<string, Node>, n: Node, i: nat, path: set<string>, inner: set<string>, r: Result<bool>)
    requires ValidMap(m) && WellFormed(n) && i < |n.deps| && path <= m.Keys
    requires GetNode(m, n.deps[i], []).Ok? && !GetNode(m, n.deps[i], []).value.scoped
    requires var d := GetNode(m, n.deps[i], []).value;
             KeyOf(d.ty) !in path && inner == path + {KeyOf(d.ty)} && r == ScopedDepsFrom(m, d, 0, inner)
    ensures r.Err? ==> ScopedDepsFrom(m, n, i, path) == r
    ensures r == Ok(true) ==> ScopedDepsFrom(m, n, i, path) == r
    ensures r == Ok(false) ==> ScopedDepsFrom(m, n, i, path) == ScopedDepsFrom(m, n, i + 1, path)
  {
  }

  /// The source's loop at an unscoped dependency, given the dependency's
  /// own answer.
  lemma HasScopedDepsRunStep(m: map<string, Node>, n: Node, i: nat, fuel: nat, below: nat, r: Result<bool>)
    requires NodesWellFormed(m) && WellFormed(n) && i < |n.deps| && fuel > 0 && below == fuel - 1
    requires GetNode(m, n.deps[i], []).Ok? && !GetNode(m, n.deps[i], []).value.scoped
    requires HasScopedDepsRun(m, GetNode(m, n.deps[i], []).value, 0, below) == Returns(r)
    ensures r.Err? ==> HasScopedDepsRun(m, n, i, fuel) == Returns(r)
    ensures r == Ok(true) ==> HasScopedDepsRun(m, n, i, fuel) == Returns(r)
    ensures r == Ok(false) ==> HasScopedDepsRun(m, n, i, fuel) == HasScopedDepsRun(m, n, i + 1, fuel)
  {
  }

  /// On an acyclic graph the source's `has_scoped_deps` returns once the
  /// stack is deeper than the node's rank, with the corrected result.
  lemma HasScopedDepsTerminates(m: map<string, Node>, rank: map<string, nat>, n: Node, fuel: nat)
    requires Acyclic(m, rank) && WellFormed(n) && KeyOf(n.ty) in m && m[KeyOf(n.ty)] == n
    requires fuel >= rank[KeyOf(n.ty)]
    ensures HasScopedDepsRun(m, n, 0, fuel).Returns?
    ensures HasScopedDepsRun(m, n, 0, fuel) == Returns(ScopedDeps(m, n))
  {
    ScopedDepsAgree(m, rank, n, 0, fuel, {KeyOf(n.ty)});
  }

  /// On an acyclic graph, whenever the corrected loop answers, it answers
  /// whether a scoped node is reachable from `n`.
  lemma ScopedDepsMeaning(m: map<string, Node>, rank: map<string, nat>, n: Node)
    requires Acyclic(m, rank) && WellFormed(n) && KeyOf(n.ty) in m && m[KeyOf(n.ty)] == n
    ensures ScopedDeps(m, n) == Ok(false) ==> forall depth :: !ReachesScoped(m, n, 0, depth)
    ensures ScopedDeps(m, n).Ok? ==> (ScopedDeps(m, n).value <==> exists depth :: ReachesScoped(m, n, 0, depth))
  {
    var fuel := rank[KeyOf(n.ty)];
    HasScopedDepsTerminates(m, rank, n, fuel);
    if ScopedDeps(m, n).Ok? {
      RunAnswers(m, n, fuel);
    }
  }

  // ---------------------------------------------------------------------------
  // Provider generation

  /// What a generation produced: the keys of the nodes whose providers it
  /// emitted, in order, or the error that stopped it; and the set of keys
  /// generated so far (`generated_nodes`), which is kept even on failure.
  datatype Generation = Generation(out: Result<seq<string>>, generated: set<string>)

  /// The emitted keys of `g`, after `emitted`.
  function Prepend(emitted: seq<string>, g: Generation): (r: Generation)
    ensures r.generated == g.generated && r.out.Ok? == g.out.Ok?
    ensures g.out.Err? ==> r == g
  {
    Generation(if g.out.Ok? then Ok(emitted + g.out.value) else g.out, g.generated)
  }

  lemma PrependTwice(a: seq<string>, b: seq<string>, g: Generation)
    ensures Prepend(a, Prepend(b, g)) == Prepend(a + b, g)
  {
    if g.out.Ok? {
      assert a + (b + g.out.value) == (a + b) + g.out.value;
    }
  }

  const CyclePrefix := "Cyclic dependency detected:\n"

  /// The first position of `x` in `a`.
  function Position(a: seq<string>, x: string): (r: nat)
    requires x in a
    ensures r < |a| && a[r] == x
    ensures forall j :: 0 <= j < r ==> a[j] != x
  {
    if a[0] == x then 0 else 1 + Position(a[1..], x)
  }

  /// Line `i` of the cycle diagram: the newest requester opens the chain,
  /// the repeated node at position `l` closes it with an arrow.
  function CycleLine(a: seq<string>, l: nat, i: nat): string
    requires i < |a|
  {
    if i == 0 then "*-- " + a[i] + "\n"
    else if i < l then "|   " + a[i] + "\n"
    else if i == l then "*-> " + a[i] + "\n"
    else "    " + a[i] + "\n"
  }

  /// The lines of the diagram from line `i` on.
  function CycleDiagram(a: seq<string>, l: nat, i: nat): (s: string)
    requires i <= |a|
    ensures i < |a| ==> StartsWith(s, CycleLine(a, l, i))
    decreases |a| - i
  {
    if i == |a| then ""
    else
      var line := CycleLine(a, l, i);
      var rest := CycleDiagram(a, l, i + 1);
      Affixes(line, rest);
      line + rest
  }

  const BindsArgPanic := "panic: binds must have one arg"
  const StackOverflowPanic := "panic: stack overflow in has_scoped_deps"

  /// The answer of `has_scoped_deps`: as written (`fixed` false), the
  /// recursion with a stack of one frame per key of the graph, running out
  /// being the stack-overflow panic; corrected (`fixed` true), the
  /// path-tracking `ScopedDeps`.
  function ScopedCheck(fixed: bool, m: map<string, Node>, n: Node): (r: Result<bool>)
    requires ValidMap(m) && WellFormed(n) && KeyOf(n.ty) in m
    ensures fixed ==> r == ScopedDeps(m, n)
    ensures !fixed && HasScopedDepsRun(m, n, 0, |m.Keys|).OutOfFuel? ==> r == Err(StackOverflowPanic)
    ensures !fixed && HasScopedDepsRun(m, n, 0, |m.Keys|).Returns? ==> r == HasScopedDepsRun(m, n, 0, |m.Keys|).result
    ensures r == Ok(true) ==> ReachesScoped(m, n, 0, |m.Keys|)
    ensures !fixed && r == Ok(false) ==> forall depth :: !ReachesScoped(m, n, 0, depth)
  {
    if fixed then ScopedDeps(m, n)
    else match HasScopedDepsRun(m, n, 0, |m.Keys|)
      case OutOfFuel => Err(StackOverflowPanic)
      case Returns(b) =>
        if b.Ok? then RunAnswers(m, n, |m.Keys|); b else b
  }

  /// How `ProviderGenerator` can fail for a node: a binds provider without
  /// an argument panics; every kind but the scoped wrapper asks
  /// `has_scoped_deps`, whose lookups can fail.
  function ProviderCheck(fixed: bool, m: map<string, Node>, node: Node): (r: Result<()>)
    requires ValidMap(m) && WellFormed(node) && KeyOf(node.ty) in m
    ensures node.kind.ScopedKind? ==> r.Ok?
    ensures node.kind.BindsKind? && |node.kind.provider.deps| == 0 ==> r == Err(BindsArgPanic)
    ensures !node.kind.ScopedKind? && !(node.kind.BindsKind? && |node.kind.provider.deps| == 0) ==>
              (r.Ok? <==> ScopedCheck(fixed, m, node).Ok?)
              && (r.Err? ==> r.msg == ScopedCheck(fixed, m, node).msg)
  {
    if node.kind.ScopedKind? then Ok(())
    else if node.kind.BindsKind? && |node.kind.provider.deps| == 0 then Err(BindsArgPanic)
    else
      var b :- ScopedCheck(fixed, m, node);
      Ok(())
  }

  /// `generate_provider`: report a cycle when the node's name is already
  /// among its requesters; emit nothing for a node generated before;
  /// otherwise mark it generated, emit its provider, and generate each
  /// dependency with the node's name prepended to the chain.
  function Gen(fixed: bool, m: map<string, Node>, node: Node, ancestors: seq<string>, generated: set<string>): (g: Generation)
    requires ValidMap(m) && WellFormed(node) && KeyOf(node.ty) in m && generated <= m.Keys
    ensures generated <= g.generated <= m.Keys
    ensures NameOf(node) in ancestors ==>
              g.generated == generated && g.out.Err? && StartsWith(g.out.msg, CyclePrefix)
    ensures NameOf(node) !in ancestors && KeyOf(node.ty) in generated ==>
              g == Generation(Ok([]), generated)
    ensures NameOf(node) !in ancestors && KeyOf(node.ty) !in generated ==>
              KeyOf(node.ty) in g.generated
    decreases |m.Keys - generated|, 0
  {
    var name := NameOf(node);
    var k := KeyOf(node.ty);
    if name in ancestors then
      var diagram := CycleDiagram(ancestors, Position(ancestors, name), 0);
      Affixes(CyclePrefix, diagram);
      Generation(Err(CyclePrefix + diagram), generated)
    else if k in generated then
      Generation(Ok([]), generated)
    else
      var marked := generated + {k};
      var c := ProviderCheck(fixed, m, node);
      if c.Err? then Generation(Err(c.msg), marked)
      else
        CardStep(m.Keys, generated, k);
        Prepend([k], GenDeps(fixed, m, node, 0, ancestors, [name] + ancestors, marked))
  }

  /// The loop of `generate_provider` over the node's dependencies from
  /// index `i` on. Lookups still report the node's own requesters
  /// (`ancestors`); the recursion receives `chain`, the extended list.
  function GenDeps(fixed: bool, m: map<string, Node>, node: Node, i: nat, ancestors: seq<string>,
                   chain: seq<string>, generated: set<string>): (g: Generation)
    requires ValidMap(m) && WellFormed(node) && i <= |node.deps| && generated <= m.Keys
    ensures generated <= g.generated <= m.Keys
    decreases |m.Keys - generated|, 1, |node.deps| - i
  {
    if i == |node.deps| then Generation(Ok([]), generated)
    else
      var d := GetNode(m, node.deps[i], ancestors);
      if d.Err? then Generation(Err(d.msg), generated)
      else
        var c := CanDepend(node, d.value, ancestors);
        if c.Err? then Generation(Err(c.msg), generated)
        else
          var sub := Gen(fixed, m, d.value, chain, generated);
          if sub.out.Err? then sub
          else
            CardMono(m.Keys, generated, sub.generated);
            Prepend(sub.out.value, GenDeps(fixed, m, node, i + 1, ancestors, chain, sub.generated))
  }

  /// `Gen` on a node whose name is among its requesters.
  lemma GenCycle(fixed: bool, m: map<string, Node>, node: Node, ancestors: seq<string>, generated: set<string>)
    requires ValidMap(m) && WellFormed(node) && KeyOf(node.ty) in m && generated <= m.Keys
    requires NameOf(node) in ancestors
    ensures Gen(fixed, m, node, ancestors, generated)
            == Generation(Err(CyclePrefix + CycleDiagram(ancestors, Position(ancestors, NameOf(node)), 0)), generated)
  {
  }

  /// `Gen` past its two early exits.
  lemma GenUnfold(fixed: bool, m: map<string, Node>, node: Node, ancestors: seq<string>, generated: set<string>)
    requires ValidMap(m) && WellFormed(node) && KeyOf(node.ty) in m && generated <= m.Keys
    requires NameOf(node) !in ancestors && KeyOf(node.ty) !in generated
    ensures var marked := generated + {KeyOf(node.ty)};
            var c := ProviderCheck(fixed, m, node);
            && (c.Err? ==> Gen(fixed, m, node, ancestors, generated) == Generation(Err(c.msg), marked))
            && (c.Ok? ==>
                  Gen(fixed, m, node, ancestors, generated)
                  == Prepend([KeyOf(node.ty)], GenDeps(fixed, m, node, 0, ancestors, [NameOf(node)] + ancestors, marked)))
  {
  }

  predicate Distinct(s: seq<string>)
  {
    forall i, j :: 0 <= i < j < |s| ==> s[i] != s[j]
  }

  /// A successful generation emits each key once, never one generated
  /// before, and records exactly the keys it emitted.
  ghost predicate EmitsOnce(g: Generation, before: set<string>)
  {
    g.out.Ok? ==>
      && Distinct(g.out.value)
      && (forall x :: x in g.out.value ==> x !in before)
      && (forall x :: x in g.generated <==> x in before || x in g.out.value)
  }

  lemma EmitsOnceConcat(a: Generation, b: Generation, before: set<string>)
    requires a.out.Ok? && EmitsOnce(a, before) && EmitsOnce(b, a.generated)
    ensures EmitsOnce(Prepend(a.out.value, b), before)
  {
    var g := Prepend(a.out.value, b);
    if b.out.Ok? {
      var s := a.out.value + b.out.value;
      forall i, j | 0 <= i < j < |s|
        ensures s[i] != s[j]
      {
        if j >= |a.out.value| && i < |a.out.value| {
          assert s[i] in a.out.value && s[i] in a.generated;
          assert s[j] in b.out.value;
        }
        if i >= |a.out.value| {
          assert s[i] == b.out.value[i - |a.out.value|];
          assert s[j] == b.out.value[j - |a.out.value|];
        }
      }
    }
  }

  lemma {:induction false} GenEmitsOnce(fixed: bool, 
    m: map<string, Node>, node: Node, ancestors: seq<string>, generated: set<string>)
    requires ValidMap(m) && WellFormed(node) && KeyOf(node.ty) in m && generated <= m.Keys
    ensures EmitsOnce(Gen(fixed, m, node, ancestors, generated), generated)
    decreases |m.Keys - generated|, 0
  {
    var name := NameOf(node);
    var k := KeyOf(node.ty);
    if name !in ancestors && k !in generated {
      GenUnfold(fixed, m, node, ancestors, generated);
      if ProviderCheck(fixed, m, node).Ok? {
        var marked := generated + {k};
        var chain := [name] + ancestors;
        CardStep(m.Keys, generated, k);
        GenDepsEmitsOnce(fixed, m, node, 0, ancestors, chain, marked);
        var head := Generation(Ok([k]), marked);
        assert EmitsOnce(head, generated);
        EmitsOnceConcat(head, GenDeps(fixed, m, node, 0, ancestors, chain, marked), generated);
      }
    }
  }

  lemma {:induction false} GenDepsEmitsOnce(fixed: bool, 
    m: map<string, Node>, node: Node, i: nat, ancestors: seq<string>,
    chain: seq<string>, generated: set<string>)
    requires ValidMap(m) && WellFormed(node) && i <= |node.deps| && generated <= m.Keys
    ensures EmitsOnce(GenDeps(fixed, m, node, i, ancestors, chain, generated), generated)
    decreases |m.Keys - generated|, 1, |node.deps| - i
  {
    if i < |node.deps| && GenDeps(fixed, m, node, i, ancestors, chain, generated).out.Ok? {
      var next: nat := i + 1;
      GenDepsUnfold(fixed, m, node, i, next, ancestors, chain, generated);
      var d := GetNode(m, node.deps[i], ancestors).value;
      var sub := Gen(fixed, m, d, chain, generated);
      GenEmitsOnce(fixed, m, d, chain, generated);
      CardMono(m.Keys, generated, sub.generated);
      GenDepsEmitsOnce(fixed, m, node, next, ancestors, chain, sub.generated);
      EmitsOnceConcat(sub, GenDeps(fixed, m, node, next, ancestors, chain, sub.generated), generated);
    }
  }

  /// Each key of `es` names a node of `m` whose dependencies all have their
  /// keys in `s`.
  ghost predicate DepsIn(m: map<string, Node>, es: seq<string>, s: set<string>)
    requires ValidMap(m)
  {
    forall x :: x in es ==> x in m && forall j :: 0 <= j < |m[x].deps| ==> KeyOf(m[x].deps[j]) in s
  }

  /// A node whose dependencies are all in `s`, as a one-key emission.
  lemma DepsInSingle(m: map<string, Node>, node: Node, s: set<string>)
    requires ValidMap(m) && WellFormed(node) && KeyOf(node.ty) in m && m[KeyOf(node.ty)] == node
    requires forall j :: 0 <= j < |node.deps| ==> KeyOf(node.deps[j]) in s
    ensures DepsIn(m, [KeyOf(node.ty)], s)
  {
  }

  lemma DepsInConcat(m: map<string, Node>, a: seq<string>, b: seq<string>, s1: set<string>, s: set<string>)
    requires ValidMap(m) && s1 <= s && DepsIn(m, a, s1) && DepsIn(m, b, s)
    ensures DepsIn(m, a + b, s)
  {
    forall x | x in a + b
      ensures x in m && forall j :: 0 <= j < |m[x].deps| ==> KeyOf(m[x].deps[j]) in s
    {
      if x !in a { assert x in b; }
    }
  }

  /// The generated code is closed: a successful generation emits the
  /// provider of every node it reaches, and every dependency of an emitted
  /// provider has been generated, so every `self.<dep>()` call the emitted
  /// providers make has a provider.
  lemma {:induction false} GenCloses(fixed: bool, 
    m: map<string, Node>, node: Node, ancestors: seq<string>, generated: set<string>)
    requires ValidMap(m) && WellFormed(node) && KeyOf(node.ty) in m && generated <= m.Keys
    requires m[KeyOf(node.ty)] == node
    ensures var g := Gen(fixed, m, node, ancestors, generated);
            g.out.Ok? ==> KeyOf(node.ty) in g.generated && DepsIn(m, g.out.value, g.generated)
    decreases |m.Keys - generated|, 0
  {
    var name := NameOf(node);
    var k := KeyOf(node.ty);
    if name !in ancestors && k !in generated {
      GenUnfold(fixed, m, node, ancestors, generated);
      if ProviderCheck(fixed, m, node).Ok? {
        var marked := generated + {k};
        var chain := [name] + ancestors;
        CardStep(m.Keys, generated, k);
        GenDepsCloses(fixed, m, node, 0, ancestors, chain, marked);
        var rest := GenDeps(fixed, m, node, 0, ancestors, chain, marked);
        if rest.out.Ok? {
          DepsInSingle(m, node, rest.generated);
          DepsInConcat(m, [k], rest.out.value, rest.generated, rest.generated);
        }
      }
    }
  }

  /// One step of a successful `GenDeps`: dependency `i` resolves, may be
  /// depended on, and generates successfully; the rest follows it.
  lemma GenDepsUnfold(fixed: bool, 
    m: map<string, Node>, node: Node, i: nat, next: nat, ancestors: seq<string>,
    chain: seq<string>, generated: set<string>)
    requires ValidMap(m) && WellFormed(node) && i < |node.deps| && next == i + 1 && generated <= m.Keys
    requires GenDeps(fixed, m, node, i, ancestors, chain, generated).out.Ok?
    ensures var d := GetNode(m, node.deps[i], ancestors);
            && d.Ok? && KeyOf(d.value.ty) == KeyOf(node.deps[i]) && m[KeyOf(d.value.ty)] == d.value
            && CanDepend(node, d.value, ancestors).Ok?
            && var sub := Gen(fixed, m, d.value, chain, generated);
               && sub.out.Ok?
               && GenDeps(fixed, m, node, i, ancestors, chain, generated)
                  == Prepend(sub.out.value, GenDeps(fixed, m, node, next, ancestors, chain, sub.generated))
  {
  }

  lemma {:induction false} GenDepsCloses(fixed: bool, 
    m: map<string, Node>, node: Node, i: nat, ancestors: seq<string>,
    chain: seq<string>, generated: set<string>)
    requires ValidMap(m) && WellFormed(node) && i <= |node.deps| && generated <= m.Keys
    ensures var g := GenDeps(fixed, m, node, i, ancestors, chain, generated);
            g.out.Ok? ==>
              && (forall j :: i <= j < |node.deps| ==> KeyOf(node.deps[j]) in g.generated)
              && DepsIn(m, g.out.value, g.generated)
    decreases |m.Keys - generated|, 1, |node.deps| - i
  {
    var g := GenDeps(fixed, m, node, i, ancestors, chain, generated);
    if i < |node.deps| && g.out.Ok? {
      var next: nat := i + 1;
      GenDepsUnfold(fixed, m, node, i, next, ancestors, chain, generated);
      var d := GetNode(m, node.deps[i], ancestors).value;
      var sub := Gen(fixed, m, d, chain, generated);
      GenCloses(fixed, m, d, chain, generated);
      CardMono(m.Keys, generated, sub.generated);
      GenDepsCloses(fixed, m, node, next, ancestors, chain, sub.generated);
      var rest := GenDeps(fixed, m, node, next, ancestors, chain, sub.generated);
      ClosesStep(m, node.deps, i, sub, rest);
    }
  }

  /// The closure facts of one dependency and of those after it combine.
  lemma ClosesStep(m: map<string, Node>, deps: seq<TypeData>, i: nat, sub: Generation, rest: Generation)
    requires ValidMap(m) && i < |deps| && forall j :: 0 <= j < |deps| ==> Rooted(deps[j])
    requires sub.out.Ok? && sub.generated <= rest.generated
    requires KeyOf(deps[i]) in sub.generated && DepsIn(m, sub.out.value, sub.generated)
    requires rest.out.Ok? ==>
               && (forall j :: i + 1 <= j < |deps| ==> KeyOf(deps[j]) in rest.generated)
               && DepsIn(m, rest.out.value, rest.generated)
    ensures var g := Prepend(sub.out.value, rest);
            g.out.Ok? ==>
              && (forall j :: i <= j < |deps| ==> KeyOf(deps[j]) in g.generated)
              && DepsIn(m, g.out.value, g.generated)
  {
    if rest.out.Ok? {
      DepsInConcat(m, sub.out.value, rest.out.value, sub.generated, rest.generated);
    }
  }

  /// With the corrected `has_scoped_deps`, the self-dependent injectable
  /// reaches the cycle check of `generate_provider`, which reports it.
  lemma SelfLoopReportsCycle(name: string, ancestors: seq<string>)
    requires PlainName(name)
    requires NameOf(SelfLoop(name)) !in ancestors
    ensures var n := SelfLoop(name);
            var m := map[KeyOf(n.ty) := n];
            var g := Gen(true, m, n, ancestors, {});
            g.out.Err? && StartsWith(g.out.msg, CyclePrefix)
  {
    var n := SelfLoop(name);
    var k := KeyOf(n.ty);
    var m := map[k := n];
    assert GetNode(m, n.deps[0], []) == Ok(n);
    assert ScopedDepsFrom(m, n, 0, {k}) == ScopedDepsFrom(m, n, 1, {k});
    assert ProviderCheck(true, m, n).Ok?;
    var chain := [NameOf(n)] + ancestors;
    assert GetNode(m, n.deps[0], ancestors) == Ok(n);
    var sub := Gen(true, m, n, chain, {k});
    assert sub.out.Err?;
    assert GenDeps(true, m, n, 0, ancestors, chain, {k}) == sub;
  }

  /// As written, the self-dependent injectable never reaches that check:
  /// its own provider check asks `has_scoped_deps`, which overflows.
  lemma SelfLoopPanics(name: string, ancestors: seq<string>)
    requires PlainName(name)
    requires NameOf(SelfLoop(name)) !in ancestors
    ensures var n := SelfLoop(name);
            var m := map[KeyOf(n.ty) := n];
            Gen(false, m, n, ancestors, {}) == Generation(Err(StackOverflowPanic), {KeyOf(n.ty)})
  {
    var n := SelfLoop(name);
    var m := map[KeyOf(n.ty) := n];
    SelfLoopCheckPanics(name);
    GenUnfold(false, m, n, ancestors, {});
  }

  /// The provider check of the self-dependent injectable, as written.
  lemma SelfLoopCheckPanics(name: string)
    requires PlainName(name)
    ensures var n := SelfLoop(name);
            var m := map[KeyOf(n.ty) := n];
            ValidMap(m) && ProviderCheck(false, m, n) == Err(StackOverflowPanic)
  {
    var n := SelfLoop(name);
    var k := KeyOf(n.ty);
    var m := map[k := n];
    assert m.Keys == {k};
    SelfLoopDiverges(name, |m.Keys|);
    assert ScopedCheck(false, m, n) == Err(StackOverflowPanic);
  }

  /// On an acyclic graph ranked below its size, the source's answer and
  /// the corrected one agree.
  lemma ScopedCheckAgrees(m: map<string, Node>, rank: map<string, nat>, n: Node)
    requires Acyclic(m, rank) && WellFormed(n) && KeyOf(n.ty) in m && m[KeyOf(n.ty)] == n
    requires rank[KeyOf(n.ty)] <= |m.Keys|
    ensures ScopedCheck(false, m, n) == ScopedCheck(true, m, n)
  {
    HasScopedDepsTerminates(m, rank, n, |m.Keys|);
  }

  // ---------------------------------------------------------------------------
  // Provisions

  const ScopedProvisionPrefix := "unable to provide scoped binding as regular object "

  /// The chain a provision starts with: `<component>.<provision>`.
  function ProvisionChain(c: Component, p: Dependency): (a: seq<string>)
    requires Rooted(c.ty)
    ensures |a| == 1 && StartsWith(a[0], CanonicalOf(c.ty))
  {
    var s := CanonicalOf(c.ty) + "." + p.name;
    Affixes(CanonicalOf(c.ty), "." + p.name);
    assert s == CanonicalOf(c.ty) + ("." + p.name);
    [s]
  }

  /// `generate_providers`, from provision `i` on: look the provision up,
  /// refuse a scoped node, and generate its provider, sharing the set of
  /// generated keys between provisions. The first failure stops the loop.
  function GenProvisions(fixed: bool, m: map<string, Node>, c: Component, i: nat, generated: set<string>): (g: Generation)
    requires ValidMap(m) && RootedComponent(c) && i <= |c.provisions| && generated <= m.Keys
    ensures generated <= g.generated <= m.Keys
    decreases |c.provisions| - i
  {
    if i == |c.provisions| then Generation(Ok([]), generated)
    else
      var p := c.provisions[i];
      var a := ProvisionChain(c, p);
      var d := GetNode(m, p.ty, a);
      if d.Err? then Generation(Err(d.msg), generated)
      else if d.value.scoped then
        Generation(Err(ScopedProvisionPrefix + NameOf(d.value) + "\nrequested by:" + Join(a, "\nrequested by:")), generated)
      else
        var sub := Gen(fixed, m, d.value, a, generated);
        if sub.out.Err? then sub
        else Prepend(sub.out.value, GenProvisions(fixed, m, c, i + 1, sub.generated))
  }

  /// One step of a successful `GenProvisions`.
  lemma GenProvisionsUnfold(fixed: bool, m: map<string, Node>, c: Component, i: nat, next: nat, generated: set<string>)
    requires ValidMap(m) && RootedComponent(c) && i < |c.provisions| && next == i + 1 && generated <= m.Keys
    requires GenProvisions(fixed, m, c, i, generated).out.Ok?
    ensures var a := ProvisionChain(c, c.provisions[i]);
            var d := GetNode(m, c.provisions[i].ty, a);
            && d.Ok? && !d.value.scoped
            && KeyOf(d.value.ty) == KeyOf(c.provisions[i].ty) && m[KeyOf(d.value.ty)] == d.value
            && var sub := Gen(fixed, m, d.value, a, generated);
               && sub.out.Ok?
               && GenProvisions(fixed, m, c, i, generated)
                  == Prepend(sub.out.value, GenProvisions(fixed, m, c, next, sub.generated))
  {
  }

  /// A successful `generate_providers` generated every provision's node,
  /// each of them unscoped, emitted each key once, and left no emitted
  /// provider with a dependency that has none.
  lemma {:induction false} GenProvisionsSound(fixed: bool, m: map<string, Node>, c: Component, i: nat, generated: set<string>)
    requires ValidMap(m) && RootedComponent(c) && i <= |c.provisions| && generated <= m.Keys
    ensures var g := GenProvisions(fixed, m, c, i, generated);
            g.out.Ok? ==>
              && (forall j :: i <= j < |c.provisions| ==>
                    KeyOf(c.provisions[j].ty) in g.generated && !m[KeyOf(c.provisions[j].ty)].scoped)
              && DepsIn(m, g.out.value, g.generated)
              && EmitsOnce(g, generated)
    decreases |c.provisions| - i
  {
    var g := GenProvisions(fixed, m, c, i, generated);
    if i < |c.provisions| && g.out.Ok? {
      var next: nat := i + 1;
      GenProvisionsUnfold(fixed, m, c, i, next, generated);
      var a := ProvisionChain(c, c.provisions[i]);
      var d := GetNode(m, c.provisions[i].ty, a).value;
      var sub := Gen(fixed, m, d, a, generated);
      GenCloses(fixed, m, d, a, generated);
      GenEmitsOnce(fixed, m, d, a, generated);
      GenProvisionsSound(fixed, m, c, next, sub.generated);
      var rest := GenProvisions(fixed, m, c, next, sub.generated);
      assert g == Prepend(sub.out.value, rest);
      DepsInConcat(m, sub.out.value, rest.out.value, sub.generated, rest.generated);
      EmitsOnceConcat(sub, rest, generated);
      forall j | i <= j < |c.provisions|
        ensures KeyOf(c.provisions[j].ty) in g.generated && !m[KeyOf(c.provisions[j].ty)].scoped
      {
        if j == i {
          assert KeyOf(c.provisions[j].ty) in sub.generated;
        }
      }
    }
  }

  // ---------------------------------------------------------------------------
  // Building nodes from the manifest

  /// `ref_type`: the same type, taken by reference.
  function RefType(t: TypeData): TypeData
  {
    t.(fieldRef := true)
  }

  /// A reference renders like its referent and is filed under the
  /// referent's key with "ref_" in front, so the two never share a key.
  lemma RefTypeKey(t: TypeData)
    requires Rooted(t) && !t.fieldRef
    ensures Rooted(RefType(t))
    ensures CanonicalOf(RefType(t)) == CanonicalOf(t)
    ensures KeyOf(RefType(t)) == "ref_" + KeyOf(t) && KeyOf(RefType(t)) != KeyOf(t)
  {
    ArgPathsByArgs(RefType(t), t, 0);
    assert ProtoTypes.PathWithArgs(RefType(t)) == ProtoTypes.PathWithArgs(t);
    assert ProtoTypes.Canonical(RefType(t)) == ProtoTypes.Canonical(t);
  }

  /// The rendered arguments depend on the arguments alone.
  lemma {:induction false} ArgPathsByArgs(t1: TypeData, t2: TypeData, i: nat)
    requires t1.args == t2.args && i <= |t1.args|
    ensures ProtoTypes.ArgPaths(t1, i) == ProtoTypes.ArgPaths(t2, i)
    decreases |t1.args| - i
  {
    if i < |t1.args| {
      ArgPathsByArgs(t1, t2, i + 1);
    }
  }

  /// `boxed_type`: GLOBAL `std::boxed::Box` with the type as its only argument.
  function BoxedType(t: TypeData): (b: TypeData)
    ensures Rooted(t) ==> Rooted(b)
  {
    ProtoTypes.BoxOf(t)
  }

  /// A box renders as `::std::boxed::Box<..>` around its content's
  /// `path_with_args`, which leaves out the content's root and crate: two
  /// boxes render alike exactly when their contents' paths with arguments
  /// agree (so `Box<a::Foo>` and `Box<b::Foo>` collide, see
  /// `ProtoTypes.BoxedArgumentsCollide`).
  lemma BoxedTypeKey(t1: TypeData, t2: TypeData)
    requires Rooted(t1) && Rooted(t2)
    ensures CanonicalOf(BoxedType(t1)) == "::" + BoxPath + "<" + ProtoTypes.PathWithArgs(t1) + ">"
    ensures CanonicalOf(BoxedType(t1)) == CanonicalOf(BoxedType(t2))
        <==> ProtoTypes.PathWithArgs(t1) == ProtoTypes.PathWithArgs(t2)
  {
    ProtoTypes.BoxRendering(t1);
    ProtoTypes.BoxRendering(t2);
    var p1, p2 := ProtoTypes.PathWithArgs(t1), ProtoTypes.PathWithArgs(t2);
    var c1, c2 := CanonicalOf(BoxedType(t1)), CanonicalOf(BoxedType(t2));
    assert c1 == "::" + BoxPath + "<" + p1 + ">";
    if c1 == c2 {
      var n := |"::" + BoxPath + "<"|;
      assert |p1| == |p2|;
      assert p1 == c1[n..n + |p1|];
      assert p2 == c2[n..n + |p2|];
    }
  }

  const BoxPath := "std::boxed::Box"

  /// `generate_node_variants`: a scoped type gives the private node, now
  /// marked scoped, and a `&T` node that depends on it alone; an unscoped
  /// type gives the node and a `Box<T>` node that depends on it alone,
  /// unless it is a `Box` already, which gives the node alone.
  function NodeVariants(node: Node): (vs: seq<Node>)
    requires WellFormed(node)
    ensures AllWellFormed(vs) && 1 <= |vs| <= 2 && vs[0].ty == node.ty && vs[0].kind == node.kind
    ensures vs[0].deps == node.deps
    ensures |node.ty.scopes| > 0 ==>
              && |vs| == 2 && vs[0].scoped
              && vs[1] == Node(RefType(node.ty), [node.ty], ScopedKind(vs[0]), false)
    ensures |node.ty.scopes| == 0 ==> vs[0] == node
    ensures |node.ty.scopes| == 0 && node.ty.path != BoxPath ==>
              vs == [node, Node(BoxedType(node.ty), [node.ty], BoxedKind(node), false)]
    ensures |node.ty.scopes| == 0 && node.ty.path == BoxPath ==> vs == [node]
  {
    if |node.ty.scopes| > 0 then
      var private := node.(scoped := true);
      assert Rooted(RefType(node.ty));
      [private, Node(RefType(node.ty), [private.ty], ScopedKind(private), false)]
    else if node.ty.path != BoxPath then
      [node, Node(BoxedType(node.ty), [node.ty], BoxedKind(node), false)]
    else
      [node]
  }

  /// The types of the injected fields, in declaration order.
  function InjectedTypes(fs: seq<Field>): (r: seq<TypeData>)
    ensures |r| <= |fs|
    ensures forall t :: t in r <==> exists i :: 0 <= i < |fs| && fs[i].injected && fs[i].ty == t
  {
    if |fs| == 0 then []
    else
      var rest := InjectedTypes(fs[1..]);
      assert forall i :: 1 <= i < |fs| ==> fs[i] == fs[1..][i - 1];
      if fs[0].injected then [fs[0].ty] + rest else rest
  }

  /// `generate_injectable_nodes`: the injectable creates its type from its
  /// injected fields.
  function InjectableNodes(inj: Injectable): (vs: seq<Node>)
    requires RootedInjectable(inj)
    ensures AllWellFormed(vs) && |vs| >= 1 && vs[0].ty == inj.ty && vs[0].kind == InjectableKind(inj)
    ensures vs[0].deps == InjectedTypes(inj.fields)
  {
    var deps := InjectedTypes(inj.fields);
    assert forall i :: 0 <= i < |deps| ==> deps[i] in deps;
    NodeVariants(Node(inj.ty, deps, InjectableKind(inj), false))
  }

  /// The types of a provider's dependencies, in order.
  function DepTypes(ds: seq<Dependency>): (r: seq<TypeData>)
    ensures |r| == |ds| && forall i :: 0 <= i < |ds| ==> r[i] == ds[i].ty
  {
    if |ds| == 0 then [] else [ds[0].ty] + DepTypes(ds[1..])
  }

  /// `generate_provides_nodes`: a binds provider creates `Box<T>` of its
  /// declared type, a provides provider the declared type itself; both
  /// depend on the provider's arguments.
  function ProvidesNodes(owner: ModuleInstance, p: Provider): (vs: seq<Node>)
    requires Rooted(owner.ty) && RootedProvider(p)
    ensures AllWellFormed(vs) && |vs| >= 1 && vs[0].deps == DepTypes(p.deps)
    ensures p.binds ==> vs[0].ty == BoxedType(p.ty) && vs[0].kind == BindsKind(owner, p)
    ensures !p.binds ==> vs[0].ty == p.ty && vs[0].kind == ProvidesKind(owner, p)
  {
    var deps := DepTypes(p.deps);
    if p.binds then NodeVariants(Node(BoxedType(p.ty), deps, BindsKind(owner, p), false))
    else NodeVariants(Node(p.ty, deps, ProvidesKind(owner, p), false))
  }

  /// The first regular module of `mods`, from index `i` on, with key `k`.
  function FindModule(mods: seq<TypeData>, k: string, i: nat): (r: Option<nat>)
    requires forall j :: 0 <= j < |mods| ==> Rooted(mods[j])
    requires i <= |mods|
    ensures r.Some? ==> i <= r.value < |mods| && KeyOf(mods[r.value]) == k
    ensures r.Some? ==> forall j :: i <= j < r.value ==> KeyOf(mods[j]) != k
    ensures r.None? ==> forall j :: i <= j < |mods| ==> KeyOf(mods[j]) != k
    decreases |mods| - i
  {
    if i == |mods| then None
    else if KeyOf(mods[i]) == k then Some(i)
    else FindModule(mods, k, i + 1)
  }

  /// The first builder module of `bs`, from index `i` on, with key `k`.
  function FindBuilder(bs: seq<Dependency>, k: string, i: nat): (r: Option<nat>)
    requires RootedDeps(bs)
    requires i <= |bs|
    ensures r.Some? ==> i <= r.value < |bs| && KeyOf(bs[r.value].ty) == k
    ensures r.Some? ==> forall j :: i <= j < r.value ==> KeyOf(bs[j].ty) != k
    ensures r.None? ==> forall j :: i <= j < |bs| ==> KeyOf(bs[j].ty) != k
    decreases |bs| - i
  {
    if i == |bs| then None
    else if KeyOf(bs[i].ty) == k then Some(i)
    else FindBuilder(bs, k, i + 1)
  }

  /// `get_module_instance`: a regular module is stored in the field named
  /// by its key; a builder module in the field its builder names. A module
  /// in neither list is the panic "requested module not in manifest".
  function ModuleInstanceOf(mm: ComponentModuleManifest, t: TypeData): (r: Option<ModuleInstance>)
    requires RootedModuleManifest(mm) && Rooted(t)
    ensures r.Some? ==> r.value.ty == t
    ensures FindModule(mm.modules, KeyOf(t), 0).Some? ==> r == Some(ModuleInstance(t, KeyOf(t)))
    ensures FindModule(mm.modules, KeyOf(t), 0).None? ==>
              match FindBuilder(mm.builderModules, KeyOf(t), 0)
              case Some(j) => r == Some(ModuleInstance(t, mm.builderModules[j].name))
              case None => r.None?
  {
    var k := KeyOf(t);
    if FindModule(mm.modules, k, 0).Some? then Some(ModuleInstance(t, k))
    else match FindBuilder(mm.builderModules, k, 0)
      case Some(j) => Some(ModuleInstance(t, mm.builderModules[j].name))
      case None => None
  }

  /// The keys of the modules a component installs, regular or builder.
  function Installed(mm: ComponentModuleManifest): (s: set<string>)
    requires RootedModuleManifest(mm)
  {
    (set i | 0 <= i < |mm.modules| :: KeyOf(mm.modules[i]))
      + (set i | 0 <= i < |mm.builderModules| :: KeyOf(mm.builderModules[i].ty))
  }

  /// An installed module always has an instance: the panic of
  /// `get_module_instance` cannot happen in `build_graph`.
  lemma InstalledHasInstance(mm: ComponentModuleManifest, t: TypeData)
    requires RootedModuleManifest(mm) && Rooted(t)
    ensures ModuleInstanceOf(mm, t).Some? <==> KeyOf(t) in Installed(mm)
  {
    var k := KeyOf(t);
    if k in Installed(mm) {
      if FindModule(mm.modules, k, 0).None? {
        var j :| 0 <= j < |mm.builderModules| && KeyOf(mm.builderModules[j].ty) == k;
        assert FindBuilder(mm.builderModules, k, 0).Some?;
      }
    }
  }

  const MissingManifestPrefix := "cannot find module manifest "

  /// The first component module manifest of `mms`, from index `i` on, with key `k`.
  function FindManifest(mms: seq<ComponentModuleManifest>, k: string, i: nat): (r: Option<nat>)
    requires forall j :: 0 <= j < |mms| ==> Rooted(mms[j].ty)
    requires i <= |mms|
    ensures r.Some? ==> i <= r.value < |mms| && KeyOf(mms[r.value].ty) == k
    ensures r.Some? ==> forall j :: i <= j < r.value ==> KeyOf(mms[j].ty) != k
    ensures r.None? ==> forall j :: i <= j < |mms| ==> KeyOf(mms[j].ty) != k
    decreases |mms| - i
  {
    if i == |mms| then None
    else if KeyOf(mms[i].ty) == k then Some(i)
    else FindManifest(mms, k, i + 1)
  }

  /// `get_module_manifest`: a component without a module manifest installs
  /// nothing; otherwise its manifest is the first one with the same key,
  /// and a missing one is an error naming both types.
  function ModuleManifestOf(manifest: Manifest, c: Component): (r: Result<ComponentModuleManifest>)
    requires RootedManifest(manifest) && RootedComponent(c)
    ensures r.Ok? ==> RootedModuleManifest(r.value)
    ensures c.moduleManifest.None? ==> r == Ok(EmptyModuleManifest())
    ensures c.moduleManifest.Some? ==>
              var mms := manifest.componentModuleManifests;
              match FindManifest(mms, KeyOf(c.moduleManifest.value), 0)
              case Some(j) => r == Ok(mms[j])
              case None =>
                r == Err(MissingManifestPrefix + CanonicalOf(c.moduleManifest.value) + ", used by " + CanonicalOf(c.ty))
  {
    if c.moduleManifest.None? then Ok(EmptyModuleManifest())
    else
      var mms := manifest.componentModuleManifests;
      var t := c.moduleManifest.value;
      match FindManifest(mms, KeyOf(t), 0)
      case Some(j) => Ok(mms[j])
      case None => Err(MissingManifestPrefix + CanonicalOf(t) + ", used by " + CanonicalOf(c.ty))
  }

  /// A successful run of insertions keeps the old keys and adds the key of
  /// every inserted node.
  lemma InsertAllGrows(m: map<string, Node>, ns: seq<Node>)
    requires ValidMap(m) && AllWellFormed(ns)
    requires InsertAll(m, ns).Ok?
    ensures m.Keys <= InsertAll(m, ns).value.Keys
    ensures forall j :: 0 <= j < |ns| ==> KeyOf(ns[j].ty) in InsertAll(m, ns).value
  {
    forall k | k in m
      ensures k in InsertAll(m, ns).value
    {
      InsertAllKeys(m, ns, k);
    }
    forall j | 0 <= j < |ns|
      ensures KeyOf(ns[j].ty) in InsertAll(m, ns).value
    {
      InsertAllKeys(m, ns, KeyOf(ns[j].ty));
    }
  }

  /// The loop of `build_graph` over the injectables, from index `i` on.
  function AddInjectables(m: map<string, Node>, injs: seq<Injectable>, i: nat): (r: Result<map<string, Node>>)
    requires ValidMap(m) && i <= |injs| && forall j :: 0 <= j < |injs| ==> RootedInjectable(injs[j])
    ensures r.Ok? ==> ValidMap(r.value)
    decreases |injs| - i
  {
    if i == |injs| then Ok(m)
    else
      var m1 :- InsertAll(m, InjectableNodes(injs[i]));
      AddInjectables(m1, injs, i + 1)
  }

  /// One successful step of `AddInjectables`.
  lemma AddInjectablesStep(m: map<string, Node>, injs: seq<Injectable>, i: nat, next: nat)
    requires ValidMap(m) && i < |injs| && next == i + 1 && forall j :: 0 <= j < |injs| ==> RootedInjectable(injs[j])
    requires AddInjectables(m, injs, i).Ok?
    ensures Rooted(injs[i].ty)
    ensures var m1 := InsertAll(m, InjectableNodes(injs[i]));
            && m1.Ok? && m.Keys <= m1.value.Keys && KeyOf(injs[i].ty) in m1.value
            && AddInjectables(m, injs, i) == AddInjectables(m1.value, injs, next)
  {
    var ns := InjectableNodes(injs[i]);
    InsertAllGrows(m, ns);
    assert KeyOf(ns[0].ty) == KeyOf(injs[i].ty);
  }

  /// The injectables from index `i` on all have their keys in `keys`.
  ghost predicate InjectablesIn(injs: seq<Injectable>, i: nat, keys: set<string>)
    requires forall j :: 0 <= j < |injs| ==> RootedInjectable(injs[j])
  {
    forall j :: i <= j < |injs| ==> Rooted(injs[j].ty) && KeyOf(injs[j].ty) in keys
  }

  lemma InjectablesInStep(injs: seq<Injectable>, i: nat, next: nat, k1: set<string>, keys: set<string>)
    requires forall j :: 0 <= j < |injs| ==> RootedInjectable(injs[j])
    requires i < |injs| && next == i + 1 && k1 <= keys && Rooted(injs[i].ty)
    requires KeyOf(injs[i].ty) in k1 && InjectablesIn(injs, next, keys)
    ensures InjectablesIn(injs, i, keys)
  {
  }

  /// Every injectable from index `i` on is bound, and no key is lost.
  lemma {:induction false} AddInjectablesKeys(m: map<string, Node>, injs: seq<Injectable>, i: nat)
    requires ValidMap(m) && i <= |injs| && forall j :: 0 <= j < |injs| ==> RootedInjectable(injs[j])
    ensures var r := AddInjectables(m, injs, i);
            r.Ok? ==> m.Keys <= r.value.Keys && InjectablesIn(injs, i, r.value.Keys)
    decreases |injs| - i
  {
    var r := AddInjectables(m, injs, i);
    if i < |injs| && r.Ok? {
      var next: nat := i + 1;
      AddInjectablesStep(m, injs, i, next);
      var m1 := InsertAll(m, InjectableNodes(injs[i])).value;
      AddInjectablesKeys(m1, injs, next);
      InjectablesInStep(injs, i, next, m1.Keys, r.value.Keys);
    }
  }

  /// The type a provider's node provides.
  function ProvidedType(p: Provider): TypeData
  {
    if p.binds then BoxedType(p.ty) else p.ty
  }

  lemma ProvidesNodesKey(owner: ModuleInstance, p: Provider)
    requires Rooted(owner.ty) && RootedProvider(p)
    ensures Rooted(ProvidedType(p)) && KeyOf(ProvidesNodes(owner, p)[0].ty) == KeyOf(ProvidedType(p))
  {
  }

  /// The loop of `build_graph` over one module's providers, from index `i` on.
  function AddProviders(m: map<string, Node>, owner: ModuleInstance, ps: seq<Provider>, i: nat): (r: Result<map<string, Node>>)
    requires ValidMap(m) && Rooted(owner.ty) && i <= |ps|
    requires forall j :: 0 <= j < |ps| ==> RootedProvider(ps[j])
    ensures r.Ok? ==> ValidMap(r.value)
    decreases |ps| - i
  {
    if i == |ps| then Ok(m)
    else
      var m1 :- InsertAll(m, ProvidesNodes(owner, ps[i]));
      AddProviders(m1, owner, ps, i + 1)
  }

  /// One successful step of `AddProviders`.
  lemma AddProvidersStep(m: map<string, Node>, owner: ModuleInstance, ps: seq<Provider>, i: nat, next: nat)
    requires ValidMap(m) && Rooted(owner.ty) && i < |ps| && next == i + 1
    requires forall j :: 0 <= j < |ps| ==> RootedProvider(ps[j])
    requires AddProviders(m, owner, ps, i).Ok?
    ensures Rooted(ProvidedType(ps[i]))
    ensures var m1 := InsertAll(m, ProvidesNodes(owner, ps[i]));
            && m1.Ok? && m.Keys <= m1.value.Keys && KeyOf(ProvidedType(ps[i])) in m1.value
            && AddProviders(m, owner, ps, i) == AddProviders(m1.value, owner, ps, next)
  {
    var ns := ProvidesNodes(owner, ps[i]);
    InsertAllGrows(m, ns);
    ProvidesNodesKey(owner, ps[i]);
  }

  /// The providers from index `i` on all have their keys in `keys`.
  ghost predicate ProvidersIn(ps: seq<Provider>, i: nat, keys: set<string>)
    requires forall j :: 0 <= j < |ps| ==> RootedProvider(ps[j])
  {
    forall j :: i <= j < |ps| ==> Rooted(ProvidedType(ps[j])) && KeyOf(ProvidedType(ps[j])) in keys
  }

  lemma ProvidersInStep(ps: seq<Provider>, i: nat, next: nat, k1: set<string>, keys: set<string>)
    requires forall j :: 0 <= j < |ps| ==> RootedProvider(ps[j])
    requires i < |ps| && next == i + 1 && k1 <= keys && Rooted(ProvidedType(ps[i]))
    requires KeyOf(ProvidedType(ps[i])) in k1 && ProvidersIn(ps, next, keys)
    ensures ProvidersIn(ps, i, keys)
  {
  }

  /// Every provider from index `i` on is bound, and no key is lost.
  lemma {:induction false} AddProvidersKeys(m: map<string, Node>, owner: ModuleInstance, ps: seq<Provider>, i: nat)
    requires ValidMap(m) && Rooted(owner.ty) && i <= |ps|
    requires forall j :: 0 <= j < |ps| ==> RootedProvider(ps[j])
    ensures var r := AddProviders(m, owner, ps, i);
            r.Ok? ==> m.Keys <= r.value.Keys && ProvidersIn(ps, i, r.value.Keys)
    decreases |ps| - i
  {
    var r := AddProviders(m, owner, ps, i);
    if i < |ps| && r.Ok? {
      var next: nat := i + 1;
      AddProvidersStep(m, owner, ps, i, next);
      var m1 := InsertAll(m, ProvidesNodes(owner, ps[i])).value;
      AddProvidersKeys(m1, owner, ps, next);
      ProvidersInStep(ps, i, next, m1.Keys, r.value.Keys);
    }
  }

  ghost predicate RootedModules(mods: seq<Module>)
  {
    forall j :: 0 <= j < |mods| ==>
      Rooted(mods[j].ty) && forall l :: 0 <= l < |mods[j].providers| ==> RootedProvider(mods[j].providers[l])
  }

  /// The loop of `build_graph` over the modules, from index `i` on: the
  /// providers of an installed module enter the graph, those of any other
  /// module do not.
  function AddModules(m: map<string, Node>, mm: ComponentModuleManifest, mods: seq<Module>, i: nat): (r: Result<map<string, Node>>)
    requires ValidMap(m) && RootedModuleManifest(mm) && i <= |mods| && RootedModules(mods)
    ensures r.Ok? ==> ValidMap(r.value)
    decreases |mods| - i
  {
    if i == |mods| then Ok(m)
    else if KeyOf(mods[i].ty) !in Installed(mm) then AddModules(m, mm, mods, i + 1)
    else
      InstalledHasInstance(mm, mods[i].ty);
      var owner := ModuleInstanceOf(mm, mods[i].ty).value;
      var m1 :- AddProviders(m, owner, mods[i].providers, 0);
      AddModules(m1, mm, mods, i + 1)
  }

  /// One step of `AddInjectables`, whatever its outcome.
  lemma AddInjectablesUnfold(m: map<string, Node>, injs: seq<Injectable>, i: nat, next: nat)
    requires ValidMap(m) && i < |injs| && next == i + 1 && forall j :: 0 <= j < |injs| ==> RootedInjectable(injs[j])
    ensures AllWellFormed(InjectableNodes(injs[i]))
    ensures var m1 := InsertAll(m, InjectableNodes(injs[i]));
            && (m1.Err? ==> AddInjectables(m, injs, i) == Err(m1.msg))
            && (m1.Ok? ==> AddInjectables(m, injs, i) == AddInjectables(m1.value, injs, next))
  {
  }

  /// One step of `AddProviders`, whatever its outcome.
  lemma AddProvidersUnfold(m: map<string, Node>, owner: ModuleInstance, ps: seq<Provider>, i: nat, next: nat)
    requires ValidMap(m) && Rooted(owner.ty) && i < |ps| && next == i + 1
    requires forall j :: 0 <= j < |ps| ==> RootedProvider(ps[j])
    ensures AllWellFormed(ProvidesNodes(owner, ps[i]))
    ensures var m1 := InsertAll(m, ProvidesNodes(owner, ps[i]));
            && (m1.Err? ==> AddProviders(m, owner, ps, i) == Err(m1.msg))
            && (m1.Ok? ==> AddProviders(m, owner, ps, i) == AddProviders(m1.value, owner, ps, next))
  {
  }

  /// One step of `AddModules`, whatever its outcome.
  lemma AddModulesUnfold(m: map<string, Node>, mm: ComponentModuleManifest, mods: seq<Module>, i: nat, next: nat)
    requires ValidMap(m) && RootedModuleManifest(mm) && i < |mods| && next == i + 1 && RootedModules(mods)
    ensures KeyOf(mods[i].ty) !in Installed(mm) ==> AddModules(m, mm, mods, i) == AddModules(m, mm, mods, next)
    ensures KeyOf(mods[i].ty) in Installed(mm) ==>
              && ModuleInstanceOf(mm, mods[i].ty).Some?
              && var owner := ModuleInstanceOf(mm, mods[i].ty).value;
                 && Rooted(owner.ty)
                 && (forall j :: 0 <= j < |mods[i].providers| ==> RootedProvider(mods[i].providers[j]))
                 && var m1 := AddProviders(m, owner, mods[i].providers, 0);
                    && (m1.Err? ==> AddModules(m, mm, mods, i) == Err(m1.msg))
                    && (m1.Ok? ==> AddModules(m, mm, mods, i) == AddModules(m1.value, mm, mods, next))
  {
    if KeyOf(mods[i].ty) in Installed(mm) {
      InstalledHasInstance(mm, mods[i].ty);
    }
  }

  /// Every provider of every installed module from index `i` on is bound,
  /// and no key is lost.
  lemma {:induction false} AddModulesKeys(m: map<string, Node>, mm: ComponentModuleManifest, mods: seq<Module>, i: nat)
    requires ValidMap(m) && RootedModuleManifest(mm) && i <= |mods| && RootedModules(mods)
    ensures var r := AddModules(m, mm, mods, i);
            r.Ok? ==> m.Keys <= r.value.Keys && ModulesIn(Installed(mm), mods, i, r.value.Keys)
    decreases |mods| - i
  {
    var r := AddModules(m, mm, mods, i);
    var next: nat := i + 1;
    if i < |mods| && r.Ok? {
      AddModulesUnfold(m, mm, mods, i, next);
      if KeyOf(mods[i].ty) !in Installed(mm) {
        AddModulesKeys(m, mm, mods, next);
        ModulesInSkip(Installed(mm), mods, i, next, r.value.Keys);
      } else {
        var owner := ModuleInstanceOf(mm, mods[i].ty).value;
        AddProvidersKeys(m, owner, mods[i].providers, 0);
        var m1 := AddProviders(m, owner, mods[i].providers, 0).value;
        AddModulesKeys(m1, mm, mods, next);
        ModulesInKeep(Installed(mm), mods, i, next, m1.Keys, r.value.Keys);
      }
    } else if i == |mods| {
      assert ModulesIn(Installed(mm), mods, i, m.Keys);
    }
  }

  /// The providers of every module from index `i` on whose key is in
  /// `inst` have their keys in `keys`.
  ghost predicate ModulesIn(inst: set<string>, mods: seq<Module>, i: nat, keys: set<string>)
    requires RootedModules(mods)
  {
    forall j :: i <= j < |mods| && KeyOf(mods[j].ty) in inst ==>
      ProvidersInAll(mods[j].providers, keys)
  }

  /// `ProvidersIn` from the first provider, with its own rootedness.
  ghost predicate ProvidersInAll(ps: seq<Provider>, keys: set<string>)
  {
    (forall j :: 0 <= j < |ps| ==> RootedProvider(ps[j])) && ProvidersIn(ps, 0, keys)
  }

  lemma ModulesInEach(inst: set<string>, mods: seq<Module>, keys: set<string>)
    requires RootedModules(mods) && ModulesIn(inst, mods, 0, keys)
    ensures forall j, l :: (0 <= j < |mods| && KeyOf(mods[j].ty) in inst && 0 <= l < |mods[j].providers|) ==>
              Rooted(ProvidedType(mods[j].providers[l])) && KeyOf(ProvidedType(mods[j].providers[l])) in keys
  {
    forall j, l | 0 <= j < |mods| && KeyOf(mods[j].ty) in inst && 0 <= l < |mods[j].providers|
      ensures Rooted(ProvidedType(mods[j].providers[l])) && KeyOf(ProvidedType(mods[j].providers[l])) in keys
    {
      ModulesInAt(inst, mods, keys, j, l);
    }
  }

  lemma ModulesInAt(inst: set<string>, mods: seq<Module>, keys: set<string>, j: nat, l: nat)
    requires RootedModules(mods) && ModulesIn(inst, mods, 0, keys)
    requires j < |mods| && KeyOf(mods[j].ty) in inst && l < |mods[j].providers|
    ensures Rooted(ProvidedType(mods[j].providers[l])) && KeyOf(ProvidedType(mods[j].providers[l])) in keys
  {
    assert ProvidersInAll(mods[j].providers, keys);
  }

  lemma ModulesInSkip(inst: set<string>, mods: seq<Module>, i: nat, next: nat, keys: set<string>)
    requires RootedModules(mods) && i < |mods| && next == i + 1
    requires KeyOf(mods[i].ty) !in inst && ModulesIn(inst, mods, next, keys)
    ensures ModulesIn(inst, mods, i, keys)
  {
  }

  lemma ModulesInKeep(inst: set<string>, mods: seq<Module>, i: nat, next: nat, k1: set<string>, keys: set<string>)
    requires RootedModules(mods) && i < |mods| && next == i + 1
    requires ProvidersIn(mods[i].providers, 0, k1) && k1 <= keys && ModulesIn(inst, mods, next, keys)
    ensures ModulesIn(inst, mods, i, keys)
  {
    assert ProvidersInAll(mods[i].providers, keys);
  }

  /// The graph `build_graph` returns: its nodes and the component's module manifest.
  datatype Built = Built(nodes: map<string, Node>, moduleManifest: ComponentModuleManifest)

  /// `build_graph`: the injectables' nodes, then (once the module manifest
  /// is found) the nodes of every installed module's providers; the first
  /// duplicate binding or missing manifest stops it.
  function BuildGraph(manifest: Manifest, c: Component): (r: Result<Built>)
    requires RootedManifest(manifest) && RootedComponent(c)
    ensures r.Ok? ==> ValidMap(r.value.nodes) && RootedModuleManifest(r.value.moduleManifest)
    ensures r.Ok? ==> ModuleManifestOf(manifest, c) == Ok(r.value.moduleManifest)
  {
    var m1 :- AddInjectables(map[], manifest.injectables, 0);
    var mm :- ModuleManifestOf(manifest, c);
    var m2 :- AddModules(m1, mm, manifest.modules, 0);
    Ok(Built(m2, mm))
  }

  /// A built graph binds every injectable and every provider of every
  /// installed module.
  lemma BuildGraphBinds(manifest: Manifest, c: Component)
    requires RootedManifest(manifest) && RootedComponent(c)
    ensures var r := BuildGraph(manifest, c);
            r.Ok? ==>
              && (forall j :: 0 <= j < |manifest.injectables| ==>
                    Rooted(manifest.injectables[j].ty) && KeyOf(manifest.injectables[j].ty) in r.value.nodes)
              && (forall j, l ::
                    (0 <= j < |manifest.modules| && KeyOf(manifest.modules[j].ty) in Installed(r.value.moduleManifest)
                     && 0 <= l < |manifest.modules[j].providers|) ==>
                    Rooted(ProvidedType(manifest.modules[j].providers[l]))
                    && KeyOf(ProvidedType(manifest.modules[j].providers[l])) in r.value.nodes)
  {
    var r := BuildGraph(manifest, c);
    if r.Ok? {
      var injs, mods := manifest.injectables, manifest.modules;
      var nodes, mm := r.value.nodes, r.value.moduleManifest;
      BuildGraphUnfold(manifest, c);
      AddInjectablesKeys(map[], injs, 0);
      var m1 := AddInjectables(map[], injs, 0).value;
      AddModulesKeys(m1, mm, mods, 0);
      InjectablesInEach(injs, m1.Keys, nodes.Keys);
      ModulesInEach(Installed(mm), mods, nodes.Keys);
    }
  }

  /// A successful `BuildGraph`, step by step.
  lemma BuildGraphUnfold(manifest: Manifest, c: Component)
    requires RootedManifest(manifest) && RootedComponent(c) && BuildGraph(manifest, c).Ok?
    ensures RootedModules(manifest.modules)
    ensures forall j :: 0 <= j < |manifest.injectables| ==> RootedInjectable(manifest.injectables[j])
    ensures var r := BuildGraph(manifest, c).value;
            var m1 := AddInjectables(map[], manifest.injectables, 0);
            && m1.Ok? && RootedModuleManifest(r.moduleManifest)
            && AddModules(m1.value, r.moduleManifest, manifest.modules, 0) == Ok(r.nodes)
  {
  }

  lemma InjectablesInEach(injs: seq<Injectable>, k1: set<string>, keys: set<string>)
    requires forall j :: 0 <= j < |injs| ==> RootedInjectable(injs[j])
    requires InjectablesIn(injs, 0, k1) && k1 <= keys
    ensures forall j :: 0 <= j < |injs| ==> Rooted(injs[j].ty) && KeyOf(injs[j].ty) in keys
  {
  }

  /// A module-created node is owned by a module whose key is in `inst`.
  ghost predicate OwnerIn(n: Node, inst: set<string>)
    requires WellFormed(n)
  {
    (n.kind.ProvidesKind? || n.kind.BindsKind?) ==> KeyOf(n.kind.owner.ty) in inst
  }

  ghost predicate OwnersIn(m: map<string, Node>, inst: set<string>)
    requires ValidMap(m)
  {
    forall k :: k in m ==> OwnerIn(m[k], inst)
  }

  ghost predicate AllOwnersIn(ns: seq<Node>, inst: set<string>)
    requires AllWellFormed(ns)
  {
    forall j :: 0 <= j < |ns| ==> OwnerIn(ns[j], inst)
  }

  lemma {:induction false} InsertAllOwners(m: map<string, Node>, ns: seq<Node>, inst: set<string>)
    requires ValidMap(m) && AllWellFormed(ns) && OwnersIn(m, inst) && AllOwnersIn(ns, inst)
    ensures InsertAll(m, ns).Ok? ==> OwnersIn(InsertAll(m, ns).value, inst)
    decreases |ns|
  {
    if |ns| > 0 && InsertAll(m, ns).Ok? {
      InsertAllStep(m, ns);
      var m1 := Insert(m, ns[0]).value;
      var tl := ns[1..];
      assert OwnerIn(ns[0], inst);
      assert OwnersIn(m1, inst);
      assert forall j :: 0 <= j < |tl| ==> tl[j] == ns[j + 1];
      InsertAllOwners(m1, tl, inst);
    }
  }

  /// The wrappers `generate_node_variants` adds are neither provides nor binds nodes.
  lemma VariantsOwners(node: Node, inst: set<string>)
    requires WellFormed(node) && OwnerIn(node, inst)
    ensures AllOwnersIn(NodeVariants(node), inst)
  {
  }

  lemma {:induction false} AddInjectablesOwners(m: map<string, Node>, injs: seq<Injectable>, i: nat, inst: set<string>)
    requires ValidMap(m) && i <= |injs| && forall j :: 0 <= j < |injs| ==> RootedInjectable(injs[j])
    requires OwnersIn(m, inst)
    ensures AddInjectables(m, injs, i).Ok? ==> OwnersIn(AddInjectables(m, injs, i).value, inst)
    decreases |injs| - i
  {
    if i < |injs| && AddInjectables(m, injs, i).Ok? {
      var next: nat := i + 1;
      AddInjectablesStep(m, injs, i, next);
      InjectableOwners(m, injs[i], inst);
      var m1 := InsertAll(m, InjectableNodes(injs[i])).value;
      AddInjectablesOwners(m1, injs, next, inst);
    }
  }

  /// Adding one injectable's nodes keeps every owner installed.
  lemma InjectableOwners(m: map<string, Node>, inj: Injectable, inst: set<string>)
    requires ValidMap(m) && RootedInjectable(inj) && OwnersIn(m, inst)
    ensures InsertAll(m, InjectableNodes(inj)).Ok? ==> OwnersIn(InsertAll(m, InjectableNodes(inj)).value, inst)
  {
    var deps := InjectedTypes(inj.fields);
    assert forall j :: 0 <= j < |deps| ==> deps[j] in deps;
    VariantsOwners(Node(inj.ty, deps, InjectableKind(inj), false), inst);
    InsertAllOwners(m, InjectableNodes(inj), inst);
  }

  lemma {:induction false} AddProvidersOwners(m: map<string, Node>, owner: ModuleInstance, ps: seq<Provider>, i: nat, inst: set<string>)
    requires ValidMap(m) && Rooted(owner.ty) && i <= |ps|
    requires forall j :: 0 <= j < |ps| ==> RootedProvider(ps[j])
    requires OwnersIn(m, inst) && KeyOf(owner.ty) in inst
    ensures AddProviders(m, owner, ps, i).Ok? ==> OwnersIn(AddProviders(m, owner, ps, i).value, inst)
    decreases |ps| - i
  {
    if i < |ps| && AddProviders(m, owner, ps, i).Ok? {
      var next: nat := i + 1;
      AddProvidersStep(m, owner, ps, i, next);
      var p := ps[i];
      var deps := DepTypes(p.deps);
      if p.binds {
        VariantsOwners(Node(BoxedType(p.ty), deps, BindsKind(owner, p), false), inst);
      } else {
        VariantsOwners(Node(p.ty, deps, ProvidesKind(owner, p), false), inst);
      }
      InsertAllOwners(m, ProvidesNodes(owner, p), inst);
      var m1 := InsertAll(m, ProvidesNodes(owner, p)).value;
      AddProvidersOwners(m1, owner, ps, next, inst);
    }
  }

  lemma {:induction false} AddModulesOwners(m: map<string, Node>, mm: ComponentModuleManifest, mods: seq<Module>, i: nat)
    requires ValidMap(m) && RootedModuleManifest(mm) && i <= |mods| && RootedModules(mods)
    requires OwnersIn(m, Installed(mm))
    ensures AddModules(m, mm, mods, i).Ok? ==> OwnersIn(AddModules(m, mm, mods, i).value, Installed(mm))
    decreases |mods| - i
  {
    var r := AddModules(m, mm, mods, i);
    var next: nat := i + 1;
    if i < |mods| && r.Ok? {
      if KeyOf(mods[i].ty) !in Installed(mm) {
        AddModulesOwners(m, mm, mods, next);
        assert r == AddModules(m, mm, mods, next);
      } else {
        InstalledHasInstance(mm, mods[i].ty);
        var owner := ModuleInstanceOf(mm, mods[i].ty).value;
        AddProvidersOwners(m, owner, mods[i].providers, 0, Installed(mm));
        var m1 := AddProviders(m, owner, mods[i].providers, 0).value;
        AddModulesOwners(m1, mm, mods, next);
        assert r == AddModules(m1, mm, mods, next);
      }
    }
  }

  /// Only the providers of modules the component installs enter its graph:
  /// every provides or binds node belongs to an installed module.
  lemma BuildGraphOnlyInstalled(manifest: Manifest, c: Component)
    requires RootedManifest(manifest) && RootedComponent(c)
    ensures var r := BuildGraph(manifest, c);
            r.Ok? ==> forall k :: k in r.value.nodes ==> OwnerIn(r.value.nodes[k], Installed(r.value.moduleManifest))
  {
    if BuildGraph(manifest, c).Ok? {
      BuildGraphUnfold(manifest, c);
      var r := BuildGraph(manifest, c).value;
      OwnersFromInstalled(manifest.injectables, manifest.modules, r.moduleManifest, r.nodes);
    }
  }

  /// The two loops of `build_graph` leave only owners among the installed
  /// modules.
  lemma OwnersFromInstalled(injs: seq<Injectable>, mods: seq<Module>, mm: ComponentModuleManifest,
                            nodes: map<string, Node>)
    requires (forall j :: 0 <= j < |injs| ==> RootedInjectable(injs[j])) && RootedModules(mods)
    requires RootedModuleManifest(mm) && ValidMap(nodes)
    requires AddInjectables(map[], injs, 0).Ok?
    requires AddModules(AddInjectables(map[], injs, 0).value, mm, mods, 0) == Ok(nodes)
    ensures OwnersIn(nodes, Installed(mm))
  {
    AddInjectablesOwners(map[], injs, 0, Installed(mm));
    AddModulesOwners(AddInjectables(map[], injs, 0).value, mm, mods, 0);
  }

  // ---------------------------------------------------------------------------
  // The component

  /// A provision is bound and `has_scoped_deps` answers for its node.
  predicate ProvisionOk(fixed: bool, m: map<string, Node>, t: TypeData)
    requires ValidMap(m) && Rooted(t)
  {
    var d := GetNode(m, t, []);
    d.Ok? && ScopedCheck(fixed, m, d.value).Ok?
  }

  /// `generate_provisions`, from provision `i` on: each provision is looked
  /// up with no requesters and asked `has_scoped_deps`, whose
  /// answer only picks a lifetime bound in the emitted text. It succeeds
  /// exactly when every lookup and every question does.
  function ProvisionsCheck(fixed: bool, m: map<string, Node>, c: Component, i: nat): (r: Result<()>)
    requires ValidMap(m) && RootedComponent(c) && i <= |c.provisions|
    ensures r.Ok? <==> forall j :: i <= j < |c.provisions| ==> ProvisionOk(fixed, m, c.provisions[j].ty)
    decreases |c.provisions| - i
  {
    if i == |c.provisions| then Ok(())
    else
      var _ :- ProvisionCheck(fixed, m, c.provisions[i].ty);
      ProvisionsCheck(fixed, m, c, i + 1)
  }

  /// One provision of `generate_provisions`: its lookup with no
  /// requesters, then `has_scoped_deps` on its node.
  function ProvisionCheck(fixed: bool, m: map<string, Node>, t: TypeData): (r: Result<()>)
    requires ValidMap(m) && Rooted(t)
    ensures r.Ok? <==> ProvisionOk(fixed, m, t)
  {
    var d :- GetNode(m, t, []);
    var _ :- ScopedCheck(fixed, m, d);
    Ok(())
  }

  /// `generate_component`, as far as it decides anything: build the graph,
  /// generate the providers of the provisions, then the provisions; the
  /// first error wins. The result lists the keys whose providers are emitted.
  function ComponentOutput(manifest: Manifest, c: Component): (r: Result<seq<string>>)
    requires RootedManifest(manifest) && RootedComponent(c)
    ensures r.Ok? ==> BuildGraph(manifest, c).Ok?
  {
    var g :- BuildGraph(manifest, c);
    var out :- GenProvisions(false, g.nodes, c, 0, {}).out;
    var _ :- ProvisionsCheck(false, g.nodes, c, 0);
    Ok(out)
  }

  /// A component that generates provides every provision through an
  /// unscoped node, emits each provider once, and every dependency of an
  /// emitted provider is itself emitted.
  lemma ComponentOutputSound(manifest: Manifest, c: Component)
    requires RootedManifest(manifest) && RootedComponent(c)
    ensures var r := ComponentOutput(manifest, c);
            r.Ok? ==>
              var m := BuildGraph(manifest, c).value.nodes;
              && Distinct(r.value)
              && (forall j :: 0 <= j < |c.provisions| ==>
                    KeyOf(c.provisions[j].ty) in r.value && KeyOf(c.provisions[j].ty) in m
                    && !m[KeyOf(c.provisions[j].ty)].scoped)
              && (forall x :: x in r.value ==>
                    x in m && forall d :: 0 <= d < |m[x].deps| ==> KeyOf(m[x].deps[d]) in r.value)
  {
    var r := ComponentOutput(manifest, c);
    if r.Ok? {
      ComponentOutputUnfold(manifest, c);
      var m := BuildGraph(manifest, c).value.nodes;
      GenProvisionsSound(false, m, c, 0, {});
      var g := GenProvisions(false, m, c, 0, {});
      ProvisionsSoundOutput(m, c, g);
    }
  }

  /// A successful `ComponentOutput` is the output of `GenProvisions` on
  /// the built graph.
  lemma ComponentOutputUnfold(manifest: Manifest, c: Component)
    requires RootedManifest(manifest) && RootedComponent(c) && ComponentOutput(manifest, c).Ok?
    ensures BuildGraph(manifest, c).Ok?
    ensures GenProvisions(false, BuildGraph(manifest, c).value.nodes, c, 0, {}).out == ComponentOutput(manifest, c)
  {
  }

  /// The facts `GenProvisionsSound` gives about a generation from nothing,
  /// restated about its emitted keys alone.
  lemma ProvisionsSoundOutput(m: map<string, Node>, c: Component, g: Generation)
    requires ValidMap(m) && RootedComponent(c) && g.out.Ok? && g.generated <= m.Keys
    requires forall j :: 0 <= j < |c.provisions| ==>
               KeyOf(c.provisions[j].ty) in g.generated && !m[KeyOf(c.provisions[j].ty)].scoped
    requires DepsIn(m, g.out.value, g.generated) && EmitsOnce(g, {})
    ensures Distinct(g.out.value)
    ensures forall j :: 0 <= j < |c.provisions| ==>
              KeyOf(c.provisions[j].ty) in g.out.value && KeyOf(c.provisions[j].ty) in m
              && !m[KeyOf(c.provisions[j].ty)].scoped
    ensures forall x :: x in g.out.value ==>
              x in m && forall d :: 0 <= d < |m[x].deps| ==> KeyOf(m[x].deps[d]) in g.out.value
  {
    assert forall x :: x in g.generated <==> x in g.out.value;
  }
}
