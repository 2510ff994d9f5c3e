// `gather_lockjaw_packages` of common/src/manifest_parser.rs: the crates
// whose manifests lockjaw reads are the packages that depend on lockjaw,
// reached from the package being built through its resolved dependency
// edges of one kind (normal ones for the production manifest, `dev` ones
// for the test manifest). The `cargo metadata` output is given as two maps
// keyed by package id: the package descriptions and the resolve nodes.
module LockjawPackages {
  import opened Outcomes

  /// An edge of a resolve node: the dependency's crate name, its package id
  /// and the kind of every way it is depended on (`None` for normal).
  datatype NodeDep = NodeDep(name: string, pkg: string, depKinds: seq<Option<string>>)

  datatype CargoNode = CargoNode(id: string, deps: seq<NodeDep>)

  /// A dependency as declared in the package's manifest.
  datatype PackageDep = PackageDep(name: string, kind: Option<string>)

  datatype Target = Target(name: string, kind: seq<string>, srcPath: string)

  datatype MetadataPackage = MetadataPackage(id: string, name: string, dependencies: seq<PackageDep>,
                                             targets: seq<Target>)

  datatype LockjawPackage = LockjawPackage(id: string, name: string, srcPath: string,
                                           directProdCrateDeps: seq<string>, directTestCrateDeps: seq<string>)

  const LockjawName := "lockjaw"
  const Dev := "dev"
  const Lib := "lib"

  /// The message of the `expect` for a dependency without a library target.
  function NoLibPanic(name: string): string
  {
    "panic: no lib target for " + name
  }

  // ---------------------------------------------------------------------------
  // Direct dependencies

  /// The names of the dependencies in `deps[i..]` of the given kind, in order.
  function DepNamesFrom(deps: seq<PackageDep>, i: nat, kind: Option<string>): (r: seq<string>)
    requires i <= |deps|
    ensures |r| <= |deps| - i
    decreases |deps| - i
  {
    if i == |deps| then []
    else (if deps[i].kind == kind then [deps[i].name] else []) + DepNamesFrom(deps, i + 1, kind)
  }

  /// A name is listed exactly when some dependency of that kind has it.
  lemma {:induction false} DepNamesMembers(deps: seq<PackageDep>, i: nat, kind: Option<string>, n: string)
    requires i <= |deps|
    ensures n in DepNamesFrom(deps, i, kind) <==> exists j :: i <= j < |deps| && deps[j].kind == kind && deps[j].name == n
    decreases |deps| - i
  {
    if i < |deps| {
      DepNamesMembers(deps, i + 1, kind, n);
      assert DepNamesFrom(deps, i, kind)
          == (if deps[i].kind == kind then [deps[i].name] else []) + DepNamesFrom(deps, i + 1, kind);
    }
  }

  /// The loop over `toml.dependencies`: `dev` dependencies are the test
  /// dependencies, dependencies without a kind the production ones (build
  /// dependencies are neither).
  method DirectCrateDeps(deps: seq<PackageDep>) returns (prod: seq<string>, test: seq<string>)
    ensures prod == DepNamesFrom(deps, 0, None)
    ensures test == DepNamesFrom(deps, 0, Some(Dev))
  {
    prod, test := [], [];
    var i := 0;
    while i < |deps|
      invariant i <= |deps|
      invariant prod + DepNamesFrom(deps, i, None) == DepNamesFrom(deps, 0, None)
      invariant test + DepNamesFrom(deps, i, Some(Dev)) == DepNamesFrom(deps, 0, Some(Dev))
    {
      if deps[i].kind == Some(Dev) {
        assert test + DepNamesFrom(deps, i, Some(Dev)) == (test + [deps[i].name]) + DepNamesFrom(deps, i + 1, Some(Dev));
        test := test + [deps[i].name];
      }
      if deps[i].kind == None {
        assert prod + DepNamesFrom(deps, i, None) == (prod + [deps[i].name]) + DepNamesFrom(deps, i + 1, None);
        prod := prod + [deps[i].name];
      }
      i := i + 1;
    }
    assert prod + [] == prod && test + [] == test;
  }

  // ---------------------------------------------------------------------------
  // The package's own entry

  /// The first target in `targets[i..]` whose kinds include `lib`.
  function FindLib(targets: seq<Target>, i: nat): (r: Option<nat>)
    requires i <= |targets|
    ensures r.Some? ==> i <= r.value < |targets| && Lib in targets[r.value].kind
    ensures r.Some? ==> forall k :: i <= k < r.value ==> Lib !in targets[k].kind
    ensures r.None? ==> forall k :: i <= k < |targets| ==> Lib !in targets[k].kind
    decreases |targets| - i
  {
    if i == |targets| then None
    else if Lib in targets[i].kind then Some(i)
    else FindLib(targets, i + 1)
  }

  /// Whether a resolve node depends on lockjaw.
  predicate HasLockjawDep(deps: seq<NodeDep>)
  {
    exists j :: 0 <= j < |deps| && deps[j].name == LockjawName
  }

  /// The entry a non-root package contributes: its library target's source
  /// file and its direct dependencies; none when it has no library target.
  function OwnEntry(node: CargoNode, toml: MetadataPackage): Option<LockjawPackage>
  {
    var lib := FindLib(toml.targets, 0);
    if lib.None? then None
    else Some(LockjawPackage(node.id, toml.name, toml.targets[lib.value].srcPath,
                             DepNamesFrom(toml.dependencies, 0, None), DepNamesFrom(toml.dependencies, 0, Some(Dev))))
  }

  /// Whether the walk follows a dependency edge: never to lockjaw itself,
  /// and only along a normal edge, or a `dev` edge for the test manifest.
  predicate Followed(d: NodeDep, forTest: bool)
  {
    d.name != LockjawName && (if forTest then Some(Dev) else None) in d.depKinds
  }

  // ---------------------------------------------------------------------------
  // The walk

  /// `r` after the packages `done` already collected.
  function PrependRun(done: seq<LockjawPackage>, r: Run<seq<LockjawPackage>>): Run<seq<LockjawPackage>>
  {
    if r.Returns? && r.result.Ok? then Returns(Ok(done + r.result.value)) else r
  }

  lemma PrependRunNothing(r: Run<seq<LockjawPackage>>)
    ensures PrependRun([], r) == r
  {
    if r.Returns? && r.result.Ok? {
      assert [] + r.result.value == r.result.value;
    }
  }

  lemma PrependRunTwice(done: seq<LockjawPackage>, ps: seq<LockjawPackage>, r: Run<seq<LockjawPackage>>)
    ensures PrependRun(done, PrependRun(ps, r)) == PrependRun(done + ps, r)
  {
    if r.Returns? && r.result.Ok? {
      assert done + (ps + r.result.value) == (done + ps) + r.result.value;
    }
  }

  /// `gather_lockjaw_packages(id, toml_map, dep_map, root, for_test)`. The
  /// two `unwrap`s panic on an id missing from either map, the `expect` on a
  /// non-root package without a library target. The recursion is not
  /// bounded in the source; `fuel` bounds its depth.
  function Gather(id: string, tomls: map<string, MetadataPackage>, depMap: map<string, CargoNode>,
                  root: bool, forTest: bool, fuel: nat): Run<seq<LockjawPackage>>
    decreases fuel, 1
  {
    if id !in depMap then Returns(Err(UnwrapNonePanic))
    else
      var node := depMap[id];
      if !HasLockjawDep(node.deps) then Returns(Ok([]))
      else if id !in tomls then Returns(Err(UnwrapNonePanic))
      else
        var rest := GatherDeps(node.deps, 0, tomls, depMap, forTest, fuel);
        if root then rest
        else
          var own := OwnEntry(node, tomls[id]);
          if own.None? then Returns(Err(NoLibPanic(tomls[id].name)))
          else PrependRun([own.value], rest)
  }

  /// The loop over the node's dependencies from `ds[i]` on: every followed
  /// edge contributes the packages gathered from it as a non-root package.
  function GatherDeps(ds: seq<NodeDep>, i: nat, tomls: map<string, MetadataPackage>,
                      depMap: map<string, CargoNode>, forTest: bool, fuel: nat): Run<seq<LockjawPackage>>
    requires i <= |ds|
    decreases fuel, 0, |ds| - i
  {
    if i == |ds| then Returns(Ok([]))
    else if !Followed(ds[i], forTest) then GatherDeps(ds, i + 1, tomls, depMap, forTest, fuel)
    else if fuel == 0 then OutOfFuel
    else
      match Gather(ds[i].pkg, tomls, depMap, false, forTest, fuel - 1)
      case OutOfFuel => OutOfFuel
      case Returns(Err(m)) => Returns(Err(m))
      case Returns(Ok(ps)) => PrependRun(ps, GatherDeps(ds, i + 1, tomls, depMap, forTest, fuel))
  }

  /// `gather_lockjaw_packages`, with the source's loops.
  method GatherLockjawPackages(id: string, tomls: map<string, MetadataPackage>, depMap: map<string, CargoNode>,
                               root: bool, forTest: bool, fuel: nat)
    returns (r: Run<seq<LockjawPackage>>)
    ensures r == Gather(id, tomls, depMap, root, forTest, fuel)
    decreases fuel
  {
    var result: seq<LockjawPackage> := [];
    if id !in depMap {
      return Returns(Err(UnwrapNonePanic));
    }
    var node := depMap[id];
    if !HasLockjawDep(node.deps) {
      return Returns(Ok(result));
    }
    if id !in tomls {
      return Returns(Err(UnwrapNonePanic));
    }
    var toml := tomls[id];
    var prod, test := DirectCrateDeps(toml.dependencies);
    if !root {
      var lib := FindLib(toml.targets, 0);
      if lib.None? {
        return Returns(Err(NoLibPanic(toml.name)));
      }
      result := [LockjawPackage(node.id, toml.name, toml.targets[lib.value].srcPath, prod, test)];
    }
    if root {
      PrependRunNothing(GatherDeps(node.deps, 0, tomls, depMap, forTest, fuel));
    }
    assert Gather(id, tomls, depMap, root, forTest, fuel)
        == PrependRun(result, GatherDeps(node.deps, 0, tomls, depMap, forTest, fuel));
    var i := 0;
    while i < |node.deps|
      invariant i <= |node.deps|
      invariant Gather(id, tomls, depMap, root, forTest, fuel)
             == PrependRun(result, GatherDeps(node.deps, i, tomls, depMap, forTest, fuel))
    {
      var d := node.deps[i];
      if d.name == LockjawName || (if forTest then Some(Dev) else None) !in d.depKinds {
        i := i + 1;
        continue;
      }
      if fuel == 0 {
        return OutOfFuel;
      }
      var sub := GatherLockjawPackages(d.pkg, tomls, depMap, false, forTest, fuel - 1);
      match sub {
        case OutOfFuel =>
          return OutOfFuel;
        case Returns(Err(m)) =>
          return Returns(Err(m));
        case Returns(Ok(ps)) =>
          PrependRunTwice(result, ps, GatherDeps(node.deps, i + 1, tomls, depMap, forTest, fuel));
          result := result + ps;
      }
      i := i + 1;
    }
    assert result + [] == result;
    return Returns(Ok(result));
  }

  // ---------------------------------------------------------------------------
  // Properties

  /// A package that does not depend on lockjaw contributes nothing; one that
  /// does contributes its dependencies' packages, preceded by its own entry
  /// exactly when it is not the root.
  lemma GatherRootAndNonRoot(id: string, tomls: map<string, MetadataPackage>, depMap: map<string, CargoNode>,
                             forTest: bool, fuel: nat)
    requires id in depMap
    ensures !HasLockjawDep(depMap[id].deps) ==>
              Gather(id, tomls, depMap, true, forTest, fuel) == Returns(Ok([]))
              && Gather(id, tomls, depMap, false, forTest, fuel) == Returns(Ok([]))
    ensures HasLockjawDep(depMap[id].deps) && id in tomls ==>
              var rest := GatherDeps(depMap[id].deps, 0, tomls, depMap, forTest, fuel);
              && Gather(id, tomls, depMap, true, forTest, fuel) == rest
              && Gather(id, tomls, depMap, false, forTest, fuel)
                 == match OwnEntry(depMap[id], tomls[id])
                    case None => Returns(Err(NoLibPanic(tomls[id].name)))
                    case Some(e) => PrependRun([e], rest)
  {
  }

  /// The packages gathered along `ds[i..]` are exactly those gathered from
  /// the followed edges among them, each as a non-root package with the
  /// same test flag.
  lemma {:induction false} GatherDepsMembers(ds: seq<NodeDep>, i: nat, tomls: map<string, MetadataPackage>,
                                             depMap: map<string, CargoNode>, forTest: bool, fuel: nat, p: LockjawPackage)
    requires i <= |ds|
    requires GatherDeps(ds, i, tomls, depMap, forTest, fuel).Returns?
    requires GatherDeps(ds, i, tomls, depMap, forTest, fuel).result.Ok?
    ensures fuel > 0 ==>
              (p in GatherDeps(ds, i, tomls, depMap, forTest, fuel).result.value <==>
                 exists j :: i <= j < |ds| && Followed(ds[j], forTest)
                   && Gather(ds[j].pkg, tomls, depMap, false, forTest, fuel - 1).Returns?
                   && Gather(ds[j].pkg, tomls, depMap, false, forTest, fuel - 1).result.Ok?
                   && p in Gather(ds[j].pkg, tomls, depMap, false, forTest, fuel - 1).result.value)
    ensures fuel == 0 ==> GatherDeps(ds, i, tomls, depMap, forTest, fuel) == Returns(Ok([]))
    decreases |ds| - i
  {
    if i < |ds| {
      GatherDepsMembers(ds, i + 1, tomls, depMap, forTest, fuel, p);
      if Followed(ds[i], forTest) && fuel > 0 {
        var below: nat := fuel - 1;
        var ps := Gather(ds[i].pkg, tomls, depMap, false, forTest, below).result.value;
        var tail := GatherDeps(ds, i + 1, tomls, depMap, forTest, fuel).result.value;
        assert GatherDeps(ds, i, tomls, depMap, forTest, fuel).result.value == ps + tail;
      }
    }
  }

  /// Whether `p` is the entry of some package that depends on lockjaw.
  ghost predicate IsLockjawEntry(p: LockjawPackage, tomls: map<string, MetadataPackage>, depMap: map<string, CargoNode>)
  {
    exists k :: k in depMap && k in tomls && HasLockjawDep(depMap[k].deps) && OwnEntry(depMap[k], tomls[k]) == Some(p)
  }

  /// Every package gathered is the library entry of a package that depends
  /// on lockjaw.
  lemma {:induction false} GatheredAreLockjawLibs(id: string, tomls: map<string, MetadataPackage>,
                                                  depMap: map<string, CargoNode>, root: bool, forTest: bool, fuel: nat)
    requires Gather(id, tomls, depMap, root, forTest, fuel).Returns?
    requires Gather(id, tomls, depMap, root, forTest, fuel).result.Ok?
    ensures forall p :: p in Gather(id, tomls, depMap, root, forTest, fuel).result.value ==> IsLockjawEntry(p, tomls, depMap)
    decreases fuel, 1
  {
    var node := depMap[id];
    if HasLockjawDep(node.deps) {
      GatherDepsAreLockjawLibs(node.deps, 0, tomls, depMap, forTest, fuel);
      if !root {
        var own := OwnEntry(node, tomls[id]).value;
        assert IsLockjawEntry(own, tomls, depMap);
      }
    }
  }

  lemma {:induction false} GatherDepsAreLockjawLibs(ds: seq<NodeDep>, i: nat, tomls: map<string, MetadataPackage>,
                                                    depMap: map<string, CargoNode>, forTest: bool, fuel: nat)
    requires i <= |ds|
    requires GatherDeps(ds, i, tomls, depMap, forTest, fuel).Returns?
    requires GatherDeps(ds, i, tomls, depMap, forTest, fuel).result.Ok?
    ensures forall p :: p in GatherDeps(ds, i, tomls, depMap, forTest, fuel).result.value ==> IsLockjawEntry(p, tomls, depMap)
    decreases fuel, 0, |ds| - i
  {
    if i < |ds| {
      if !Followed(ds[i], forTest) {
        GatherDepsAreLockjawLibs(ds, i + 1, tomls, depMap, forTest, fuel);
      } else {
        var below: nat := fuel - 1;
        GatheredAreLockjawLibs(ds[i].pkg, tomls, depMap, false, forTest, below);
        GatherDepsAreLockjawLibs(ds, i + 1, tomls, depMap, forTest, fuel);
      }
    }
  }
}
