// The mutable side of processor/src/graph.rs: the `Graph` object whose map
// `add_node` and `build_graph` update in place, and the loops of
// `generate_provider(s)`, `get_module_manifest` and `get_module_instance`.
// Each method is proved against its specification in `BindingGraph`.
module GraphState {
  import opened Outcomes
  import opened Types
  import opened ProtoManifest
  import opened BindingGraph
  import ProtoTypes

  /// `Graph`: the nodes by key, and the module manifest of the component
  /// the graph is built for.
  class Graph {
    var nodes: map<string, Node>
    var moduleManifest: ComponentModuleManifest

    ghost predicate Valid()
      reads this
    {
      ValidMap(nodes) && RootedModuleManifest(moduleManifest)
    }

    /// `Graph::default()`.
    constructor ()
      ensures Valid() && nodes == map[] && moduleManifest == EmptyModuleManifest()
    {
      nodes := map[];
      moduleManifest := EmptyModuleManifest();
    }

    /// `add_node`: a key text that is not an identifier panics in
    /// `identifier()`; a taken key asks the merge rule and fails, leaving the
    /// map as it was, when the rule refuses; otherwise the merged node is
    /// stored and the new node then takes its place.
    method AddNode(node: Node) returns (r: Result<()>)
      requires Valid() && WellFormed(node)
      modifies this
      ensures Valid() && moduleManifest == old(moduleManifest)
      ensures r.Ok? <==> Insert(old(nodes), node).Ok?
      ensures r.Ok? ==> nodes == Insert(old(nodes), node).value
      ensures r.Err? ==> nodes == old(nodes) && r.msg == Insert(old(nodes), node).msg
    {
      var k := KeyOf(node.ty);
      if !ProtoTypes.IsIdent(k) {
        return Err(ProtoTypes.NotIdentPanic);
      }
      if k in nodes {
        var merged := Merge(nodes[k], node);
        if merged.Err? {
          return Err(merged.msg);
        }
        assert merged.value == nodes[k];
        nodes := nodes[KeyOf(merged.value.ty) := merged.value];
        assert nodes == old(nodes);
      }
      nodes := nodes[k := node];
      assert nodes == Insert(old(nodes), node).value;
      return Ok(());
    }

    /// The nodes of one injectable or provider, added in order; the first
    /// refusal stops the loop, and the nodes added before it stay.
    method AddNodes(ns: seq<Node>) returns (r: Result<()>)
      requires Valid() && AllWellFormed(ns)
      modifies this
      ensures Valid() && moduleManifest == old(moduleManifest)
      ensures r.Ok? <==> InsertAll(old(nodes), ns).Ok?
      ensures r.Ok? ==> nodes == InsertAll(old(nodes), ns).value
      ensures r.Err? ==> r.msg == InsertAll(old(nodes), ns).msg
      ensures r.Err? ==> exists j :: 0 <= j < |ns| && InsertAll(old(nodes), ns[..j]) == Ok(nodes)
    {
      var i := 0;
      while i < |ns|
        invariant 0 <= i <= |ns| && Valid() && moduleManifest == old(moduleManifest)
        invariant InsertAll(old(nodes), ns[..i]) == Ok(nodes)
        invariant InsertAll(old(nodes), ns) == InsertAll(nodes, ns[i..])
      {
        InsertAllPrefix(old(nodes), ns, i);
        assert ns[i..][0] == ns[i] && ns[i..][1..] == ns[i + 1..];
        var before := nodes;
        var step := AddNode(ns[i]);
        if step.Err? {
          return Err(step.msg);
        }
        assert InsertAll(before, ns[i..]) == InsertAll(nodes, ns[i + 1..]);
        i := i + 1;
      }
      assert ns[..i] == ns;
      return Ok(());
    }

    /// `generate_provider`: the cycle report, the already-generated case,
    /// then the node's own provider and a loop over its dependencies. The
    /// set of generated keys is passed in and handed back. The ghost
    /// `budget` bounds the keys not yet generated; it is what decreases.
    method GenerateProvider(node: Node, ancestors: seq<string>, generated: set<string>, ghost budget: nat)
      returns (out: Result<seq<string>>, generatedAfter: set<string>)
      requires Valid() && WellFormed(node) && KeyOf(node.ty) in nodes && generated <= nodes.Keys
      requires |nodes.Keys - generated| <= budget
      ensures Generation(out, generatedAfter) == Gen(false, nodes, node, ancestors, generated)
      decreases budget, 0
    {
      var name := NameOf(node);
      if name in ancestors {
        var l := FindPosition(ancestors, name);
        var s := CycleReport(ancestors, l);
        GenCycle(false, nodes, node, ancestors, generated);
        return Err(CyclePrefix + s), generated;
      }
      var k := KeyOf(node.ty);
      if k in generated {
        return Ok([]), generated;
      }
      var marked := generated + {k};
      generatedAfter := marked;
      GenUnfold(false, nodes, node, ancestors, generated);
      var check := ProviderCheck(false, nodes, node);
      if check.Err? {
        return Err(check.msg), generatedAfter;
      }
      CardStep(nodes.Keys, generated, k);
      var deps, after := GenerateDeps(node, ancestors, [name] + ancestors, marked, budget - 1);
      if deps.Err? {
        return deps, after;
      }
      return Ok([k] + deps.value), after;
    }

    /// The loop of `generate_provider` over the node's dependencies, each
    /// generated in turn with the keys the previous ones generated.
    method GenerateDeps(node: Node, ancestors: seq<string>, chain: seq<string>, marked: set<string>,
                        ghost budget: nat)
      returns (out: Result<seq<string>>, generatedAfter: set<string>)
      requires Valid() && WellFormed(node) && marked <= nodes.Keys && |nodes.Keys - marked| <= budget
      ensures Generation(out, generatedAfter) == GenDeps(false, nodes, node, 0, ancestors, chain, marked)
      decreases budget, 2
    {
      generatedAfter := marked;
      var emitted := [];
      PrependEmpty(GenDeps(false, nodes, node, 0, ancestors, chain, marked));
      var i := 0;
      while i < |node.deps|
        invariant 0 <= i <= |node.deps|
        invariant generatedAfter <= nodes.Keys && |nodes.Keys - generatedAfter| <= budget
        invariant Prepend(emitted, GenDeps(false, nodes, node, i, ancestors, chain, generatedAfter))
                  == GenDeps(false, nodes, node, 0, ancestors, chain, marked)
      {
        var next := i + 1;
        GenDepsByStep(nodes, node, i, next, ancestors, chain, generatedAfter);
        var sub, subGenerated := GenerateDep(node, i, ancestors, chain, generatedAfter, budget);
        if sub.Err? {
          return sub, subGenerated;
        }
        CardMono(nodes.Keys, generatedAfter, subGenerated);
        PrependTwice(emitted, sub.value, GenDeps(false, nodes, node, next, ancestors, chain, subGenerated));
        emitted := emitted + sub.value;
        generatedAfter := subGenerated;
        i := next;
      }
      GenDepsEnd(nodes, node, ancestors, chain, generatedAfter, emitted);
      return Ok(emitted), generatedAfter;
    }

    /// One dependency of `generate_provider`: looked up, checked against
    /// the scope rule, then generated with the chain of requesters.
    method GenerateDep(node: Node, i: nat, ancestors: seq<string>, chain: seq<string>, generated: set<string>,
                       ghost budget: nat)
      returns (out: Result<seq<string>>, generatedAfter: set<string>)
      requires Valid() && WellFormed(node) && i < |node.deps| && generated <= nodes.Keys
      requires |nodes.Keys - generated| <= budget
      ensures Generation(out, generatedAfter) == DepGen(nodes, node, i, ancestors, chain, generated)
      decreases budget, 1
    {
      var d := GetNode(nodes, node.deps[i], ancestors);
      if d.Err? {
        return Err(d.msg), generated;
      }
      assert KeyOf(d.value.ty) == KeyOf(node.deps[i]);
      var can := CanDepend(node, d.value, ancestors);
      if can.Err? {
        return Err(can.msg), generated;
      }
      out, generatedAfter := GenerateProvider(d.value, chain, generated, budget);
    }

    /// `generate_providers`: each provision starts a generation with the
    /// chain `<component>.<provision>`, sharing the generated keys; a
    /// provision bound to a scoped node is an error.
    method GenerateProviders(c: Component) returns (out: Result<seq<string>>)
      requires Valid() && RootedComponent(c)
      ensures out == GenProvisions(false, nodes, c, 0, {}).out
    {
      var generated: set<string> := {};
      var emitted: seq<string> := [];
      PrependEmpty(GenProvisions(false, nodes, c, 0, {}));
      var i := 0;
      while i < |c.provisions|
        invariant 0 <= i <= |c.provisions| && generated <= nodes.Keys
        invariant Prepend(emitted, GenProvisions(false, nodes, c, i, generated)) == GenProvisions(false, nodes, c, 0, {})
      {
        var next := i + 1;
        GenProvisionsStep(nodes, c, i, next, generated);
        var p := c.provisions[i];
        var a := ProvisionChain(c, p);
        var d := GetNode(nodes, p.ty, a);
        if d.Err? {
          return Err(d.msg);
        }
        if d.value.scoped {
          return Err(ScopedProvisionPrefix + NameOf(d.value) + "\nrequested by:" + Strs.Join(a, "\nrequested by:"));
        }
        var sub, subGenerated := GenerateProvider(d.value, a, generated, |nodes.Keys - generated|);
        if sub.Err? {
          return sub;
        }
        PrependTwice(emitted, sub.value, GenProvisions(false, nodes, c, next, subGenerated));
        emitted := emitted + sub.value;
        generated := subGenerated;
        i := next;
      }
      GenProvisionsEnd(nodes, c, generated, emitted);
      return Ok(emitted);
    }

    /// The loop of `build_graph` over the injectables: the nodes of each
    /// are added in turn, and the first refusal ends it.
    method AddInjectableNodes(injs: seq<Injectable>) returns (r: Result<()>)
      requires Valid() && forall j :: 0 <= j < |injs| ==> RootedInjectable(injs[j])
      modifies this
      ensures Valid() && moduleManifest == old(moduleManifest)
      ensures var e := AddInjectables(old(nodes), injs, 0);
              && (r.Ok? <==> e.Ok?) && (r.Ok? ==> nodes == e.value) && (r.Err? ==> r.msg == e.msg)
    {
      var i := 0;
      while i < |injs|
        invariant 0 <= i <= |injs| && Valid() && moduleManifest == old(moduleManifest)
        invariant AddInjectables(old(nodes), injs, 0) == AddInjectables(nodes, injs, i)
      {
        var next := i + 1;
        AddInjectablesUnfold(nodes, injs, i, next);
        var added := AddNodes(InjectableNodes(injs[i]));
        if added.Err? {
          return Err(added.msg);
        }
        i := next;
      }
      return Ok(());
    }

    /// The loop of `build_graph` over one installed module's providers.
    method AddProviderNodes(owner: ModuleInstance, ps: seq<Provider>) returns (r: Result<()>)
      requires Valid() && Rooted(owner.ty) && forall j :: 0 <= j < |ps| ==> RootedProvider(ps[j])
      modifies this
      ensures Valid() && moduleManifest == old(moduleManifest)
      ensures var e := AddProviders(old(nodes), owner, ps, 0);
              && (r.Ok? <==> e.Ok?) && (r.Ok? ==> nodes == e.value) && (r.Err? ==> r.msg == e.msg)
    {
      var i := 0;
      while i < |ps|
        invariant 0 <= i <= |ps| && Valid() && moduleManifest == old(moduleManifest)
        invariant AddProviders(old(nodes), owner, ps, 0) == AddProviders(nodes, owner, ps, i)
      {
        var next := i + 1;
        AddProvidersUnfold(nodes, owner, ps, i, next);
        var added := AddNodes(ProvidesNodes(owner, ps[i]));
        if added.Err? {
          return Err(added.msg);
        }
        i := next;
      }
      return Ok(());
    }

    /// The loop of `build_graph` over the manifest's modules: only those
    /// the module manifest installs contribute nodes.
    method AddModuleNodes(mods: seq<Module>) returns (r: Result<()>)
      requires Valid() && RootedModules(mods)
      modifies this
      ensures Valid() && moduleManifest == old(moduleManifest)
      ensures var e := AddModules(old(nodes), moduleManifest, mods, 0);
              && (r.Ok? <==> e.Ok?) && (r.Ok? ==> nodes == e.value) && (r.Err? ==> r.msg == e.msg)
    {
      var installed := InstalledModules(moduleManifest);
      var i := 0;
      while i < |mods|
        invariant 0 <= i <= |mods| && Valid() && moduleManifest == old(moduleManifest)
        invariant AddModules(old(nodes), moduleManifest, mods, 0) == AddModules(nodes, moduleManifest, mods, i)
      {
        var next := i + 1;
        AddModulesUnfold(nodes, moduleManifest, mods, i, next);
        if KeyOf(mods[i].ty) in installed {
          var owner := GetModuleInstance(moduleManifest, mods[i].ty);
          var added := AddProviderNodes(owner.value, mods[i].providers);
          if added.Err? {
            return Err(added.msg);
          }
        }
        i := next;
      }
      return Ok(());
    }

    /// `generate_provisions`: the lookups and `has_scoped_deps` questions
    /// of every provision in turn.
    method GenerateProvisions(c: Component) returns (r: Result<()>)
      requires Valid() && RootedComponent(c)
      ensures r == ProvisionsCheck(false, nodes, c, 0)
    {
      var i := 0;
      while i < |c.provisions|
        invariant 0 <= i <= |c.provisions|
        invariant ProvisionsCheck(false, nodes, c, i) == ProvisionsCheck(false, nodes, c, 0)
      {
        var d := GetNode(nodes, c.provisions[i].ty, []);
        if d.Err? {
          return Err(d.msg);
        }
        var b := ScopedCheck(false, nodes, d.value);
        if b.Err? {
          return Err(b.msg);
        }
        i := i + 1;
      }
      return Ok(());
    }
  }

  lemma PrependEmpty(g: Generation)
    ensures Prepend([], g) == g
  {
    if g.out.Ok? {
      assert [] + g.out.value == g.out.value;
    }
  }

  /// What `GenDeps` does with its `i`-th dependency alone.
  ghost function DepGen(m: map<string, Node>, node: Node, i: nat, ancestors: seq<string>,
                        chain: seq<string>, generated: set<string>): (g: Generation)
    requires ValidMap(m) && WellFormed(node) && i < |node.deps| && generated <= m.Keys
    ensures generated <= g.generated <= m.Keys
  {
    var d := GetNode(m, node.deps[i], ancestors);
    if d.Err? then Generation(Err(d.msg), generated)
    else
      assert KeyOf(d.value.ty) == KeyOf(node.deps[i]);
      var can := CanDepend(node, d.value, ancestors);
      if can.Err? then Generation(Err(can.msg), generated)
      else Gen(false, m, d.value, chain, generated)
  }

  /// One step of `GenDeps`: the `i`-th dependency, then the rest unless
  /// it failed.
  lemma GenDepsByStep(m: map<string, Node>, node: Node, i: nat, next: nat, ancestors: seq<string>,
                      chain: seq<string>, generated: set<string>)
    requires ValidMap(m) && WellFormed(node) && i < |node.deps| && next == i + 1 && generated <= m.Keys
    ensures var s := DepGen(m, node, i, ancestors, chain, generated);
            var g := GenDeps(false, m, node, i, ancestors, chain, generated);
            && (s.out.Err? ==> g == s)
            && (s.out.Ok? ==> g == Prepend(s.out.value, GenDeps(false, m, node, next, ancestors, chain, s.generated)))
  {
  }

  /// `GenDeps` past the last dependency.
  lemma GenDepsEnd(m: map<string, Node>, node: Node, ancestors: seq<string>, chain: seq<string>,
                   generated: set<string>, emitted: seq<string>)
    requires ValidMap(m) && WellFormed(node) && generated <= m.Keys
    ensures Prepend(emitted, GenDeps(false, m, node, |node.deps|, ancestors, chain, generated))
            == Generation(Ok(emitted), generated)
  {
    assert emitted + [] == emitted;
  }

  /// `GenProvisions` past the last provision.
  lemma GenProvisionsEnd(m: map<string, Node>, c: Component, generated: set<string>, emitted: seq<string>)
    requires ValidMap(m) && RootedComponent(c) && generated <= m.Keys
    ensures Prepend(emitted, GenProvisions(false, m, c, |c.provisions|, generated)) == Generation(Ok(emitted), generated)
  {
    assert emitted + [] == emitted;
  }

  /// One step of `GenProvisions`, whatever its outcome.
  lemma GenProvisionsStep(m: map<string, Node>, c: Component, i: nat, next: nat, generated: set<string>)
    requires ValidMap(m) && RootedComponent(c) && i < |c.provisions| && next == i + 1 && generated <= m.Keys
    ensures var p := c.provisions[i];
            var a := ProvisionChain(c, p);
            var d := GetNode(m, p.ty, a);
            var g := GenProvisions(false, m, c, i, generated);
            && (d.Err? ==> g == Generation(Err(d.msg), generated))
            && (d.Ok? ==>
                  && KeyOf(d.value.ty) in m
                  && (d.value.scoped ==>
                        g == Generation(Err(ScopedProvisionPrefix + NameOf(d.value) + "\nrequested by:"
                                          + Strs.Join(a, "\nrequested by:")), generated))
                  && (!d.value.scoped ==>
                        var sub := Gen(false, m, d.value, a, generated);
                        && (sub.out.Err? ==> g == sub)
                        && (sub.out.Ok? ==> g == Prepend(sub.out.value, GenProvisions(false, m, c, next, sub.generated)))))
  {
    var p := c.provisions[i];
    var d := GetNode(m, p.ty, ProvisionChain(c, p));
    if d.Ok? {
      assert KeyOf(d.value.ty) == KeyOf(p.ty);
    }
  }

  lemma CycleDiagramStep(a: seq<string>, l: nat, i: nat, next: nat)
    requires i < |a| && next == i + 1
    ensures CycleDiagram(a, l, i) == CycleLine(a, l, i) + CycleDiagram(a, l, next)
  {
  }

  /// Inserting a prefix one node longer is one more insertion.
  lemma InsertAllPrefix(m: map<string, Node>, ns: seq<Node>, i: nat)
    requires ValidMap(m) && AllWellFormed(ns) && i < |ns|
    requires InsertAll(m, ns[..i]).Ok?
    ensures AllWellFormed(ns[..i]) && AllWellFormed(ns[..i + 1])
    ensures InsertAll(m, ns[..i + 1]) == Insert(InsertAll(m, ns[..i]).value, ns[i])
  {
    assert AllWellFormed(ns[..i]) && AllWellFormed(ns[..i + 1]);
    InsertAllSnoc(m, ns[..i], ns[i]);
    PrefixSnoc(ns, i);
  }

  lemma PrefixSnoc<T>(s: seq<T>, i: nat)
    requires i < |s|
    ensures s[..i] + [s[i]] == s[..i + 1]
  {
  }

  lemma {:induction false} InsertAllSnoc(m: map<string, Node>, ns: seq<Node>, n: Node)
    requires ValidMap(m) && AllWellFormed(ns) && WellFormed(n)
    requires InsertAll(m, ns).Ok?
    ensures AllWellFormed(ns + [n])
    ensures InsertAll(m, ns + [n]) == Insert(InsertAll(m, ns).value, n)
    decreases |ns|
  {
    assert AllWellFormed(ns + [n]);
    if |ns| > 0 {
      var m1 := Insert(m, ns[0]).value;
      assert (ns + [n])[0] == ns[0] && (ns + [n])[1..] == ns[1..] + [n];
      assert AllWellFormed(ns[1..]);
      InsertAllSnoc(m1, ns[1..], n);
    } else {
      assert ns + [n] == [n];
      assert [n][1..] == [];
    }
  }

  /// `ancestors.iter().position(..)`: the first index holding `x`.
  method FindPosition(a: seq<string>, x: string) returns (l: nat)
    requires x in a
    ensures l == Position(a, x)
  {
    l := 0;
    while a[l] != x
      invariant 0 <= l < |a| && x in a[l..]
      invariant Position(a, x) == l + Position(a[l..], x)
      decreases |a| - l
    {
      assert a[l..][1..] == a[l + 1..];
      l := l + 1;
    }
  }

  /// The loop that writes the cycle diagram line by line.
  method CycleReport(a: seq<string>, l: nat) returns (s: string)
    ensures s == CycleDiagram(a, l, 0)
  {
    s := "";
    var i := 0;
    assert "" + CycleDiagram(a, l, 0) == CycleDiagram(a, l, 0);
    while i < |a|
      invariant 0 <= i <= |a|
      invariant s + CycleDiagram(a, l, i) == CycleDiagram(a, l, 0)
    {
      var line := CycleLine(a, l, i);
      var next := i + 1;
      CycleDiagramStep(a, l, i, next);
      var rest := CycleDiagram(a, l, next);
      assert s + (line + rest) == (s + line) + rest;
      s := s + line;
      i := next;
    }
    assert s + "" == s;
  }

  /// `get_module_instance`: the regular modules first, then the builder
  /// modules; `None` is the panic for a module in neither.
  method GetModuleInstance(mm: ComponentModuleManifest, t: TypeData) returns (r: Option<ModuleInstance>)
    requires RootedModuleManifest(mm) && Rooted(t)
    ensures r == ModuleInstanceOf(mm, t)
  {
    var k := KeyOf(t);
    var i := 0;
    while i < |mm.modules|
      invariant 0 <= i <= |mm.modules|
      invariant FindModule(mm.modules, k, 0) == FindModule(mm.modules, k, i)
    {
      if KeyOf(mm.modules[i]) == k {
        return Some(ModuleInstance(t, k));
      }
      i := i + 1;
    }
    var j := 0;
    while j < |mm.builderModules|
      invariant 0 <= j <= |mm.builderModules|
      invariant FindBuilder(mm.builderModules, k, 0) == FindBuilder(mm.builderModules, k, j)
    {
      if KeyOf(mm.builderModules[j].ty) == k {
        return Some(ModuleInstance(t, mm.builderModules[j].name));
      }
      j := j + 1;
    }
    return None;
  }

  /// `get_module_manifest`: the first module manifest with the component's
  /// key, or the error naming both.
  method GetModuleManifest(manifest: Manifest, c: Component) returns (r: Result<ComponentModuleManifest>)
    requires RootedManifest(manifest) && RootedComponent(c)
    ensures r == ModuleManifestOf(manifest, c)
  {
    if c.moduleManifest.None? {
      return Ok(EmptyModuleManifest());
    }
    var mms := manifest.componentModuleManifests;
    var k := KeyOf(c.moduleManifest.value);
    var i := 0;
    while i < |mms|
      invariant 0 <= i <= |mms|
      invariant FindManifest(mms, k, 0) == FindManifest(mms, k, i)
    {
      if KeyOf(mms[i].ty) == k {
        return Ok(mms[i]);
      }
      i := i + 1;
    }
    return Err(MissingManifestPrefix + CanonicalOf(c.moduleManifest.value) + ", used by " + CanonicalOf(c.ty));
  }

  /// The two loops of `build_graph` that collect the installed modules' keys.
  method InstalledModules(mm: ComponentModuleManifest) returns (installed: set<string>)
    requires RootedModuleManifest(mm)
    ensures installed == Installed(mm)
  {
    var regular := ModuleKeys(mm.modules);
    var builders := BuilderModuleKeys(mm.builderModules);
    installed := regular + builders;
  }

  /// The keys of the regular modules.
  method ModuleKeys(mods: seq<TypeData>) returns (keys: set<string>)
    requires forall j :: 0 <= j < |mods| ==> Rooted(mods[j])
    ensures keys == set j | 0 <= j < |mods| :: KeyOf(mods[j])
  {
    keys := {};
    var i := 0;
    while i < |mods|
      invariant 0 <= i <= |mods|
      invariant keys == set j | 0 <= j < i :: KeyOf(mods[j])
    {
      keys := keys + {KeyOf(mods[i])};
      i := i + 1;
    }
  }

  /// The keys of the builder modules.
  method BuilderModuleKeys(mods: seq<Dependency>) returns (keys: set<string>)
    requires RootedDeps(mods)
    ensures keys == set j | 0 <= j < |mods| :: KeyOf(mods[j].ty)
  {
    keys := {};
    var i := 0;
    while i < |mods|
      invariant 0 <= i <= |mods|
      invariant keys == set j | 0 <= j < i :: KeyOf(mods[j].ty)
    {
      keys := keys + {KeyOf(mods[i].ty)};
      i := i + 1;
    }
  }

  /// `build_graph`: a fresh graph, the injectables' nodes, the module
  /// manifest, then the nodes of every installed module's providers.
  method Build(manifest: Manifest, c: Component) returns (r: Result<Graph>)
    requires RootedManifest(manifest) && RootedComponent(c)
    ensures r.Ok? <==> BuildGraph(manifest, c).Ok?
    ensures r.Ok? ==> fresh(r.value) && r.value.Valid()
                      && r.value.nodes == BuildGraph(manifest, c).value.nodes
                      && r.value.moduleManifest == BuildGraph(manifest, c).value.moduleManifest
    ensures r.Err? ==> r.msg == BuildGraph(manifest, c).msg
  {
    var g := new Graph();
    var added := g.AddInjectableNodes(manifest.injectables);
    if added.Err? {
      return Err(added.msg);
    }
    var mm := GetModuleManifest(manifest, c);
    if mm.Err? {
      return Err(mm.msg);
    }
    g.moduleManifest := mm.value;
    added := g.AddModuleNodes(manifest.modules);
    if added.Err? {
      return Err(added.msg);
    }
    return Ok(g);
  }

  /// `generate_component`, as far as it decides anything.
  method GenerateComponent(manifest: Manifest, c: Component) returns (r: Result<seq<string>>)
    requires RootedManifest(manifest) && RootedComponent(c)
    ensures r == ComponentOutput(manifest, c)
  {
    var g := Build(manifest, c);
    if g.Err? {
      return Err(g.msg);
    }
    var out := g.value.GenerateProviders(c);
    if out.Err? {
      return Err(out.msg);
    }
    var provisions := g.value.GenerateProvisions(c);
    if provisions.Err? {
      return Err(provisions.msg);
    }
    return out;
  }
}
