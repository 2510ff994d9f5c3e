// The module table of processor/src/prologue.rs: at `lockjaw::prologue!()`
// the source file is parsed into its modules, each with the byte range it
// covers, its enclosing modules and the names its `use` declarations
// import; the other attribute macros then look their own position up in
// that table to resolve where they are declared and what a name means.
module PrologueMods {
  import opened Outcomes
  import opened Types
  import opened Strs
  import opened UsePaths
  import PrologueUse

  // ---------------------------------------------------------------------------
  // Source trees and the module table

  /// The part of a tree-sitter syntax tree the prologue reads: the items of
  /// a file or of a module body. A module item carries its byte range and
  /// whether it has a body (a `mod x;` declaration has none).
  datatype SrcNode =
    | UseDeclaration(argument: string)
    | ModItem(name: string, start: nat, end: nat, hasBody: bool, body: seq<SrcNode>, row: nat, column: nat)
    | AttributeItem(text: string, row: nat, column: nat)
    | ExpressionStatement(calls: seq<MacroCall>)
    | OtherNode

  /// A macro invocation statement: the macro's name as written and the start
  /// of each of its token trees.
  datatype MacroCall = MacroCall(name: string, tokenTreeStarts: seq<nat>)

  /// `Mod` of the prologue: a module, the byte range `start..end` it spans,
  /// its enclosing modules and its imports.
  datatype PMod = PMod(name: string, start: nat, end: nat, parents: seq<string>, uses: map<string, UsePath>)

  /// `SourceData`: the module path of the file and its modules.
  datatype SourceData = SourceData(basePath: string, mods: seq<PMod>)

  /// `Range::contains`.
  predicate Covers(m: PMod, pos: nat)
  {
    m.start <= pos < m.end
  }

  /// The module as the manifest parsers see one.
  function AsMod(m: PMod, crateName: string): UsePaths.Mod
  {
    UsePaths.Mod(crateName, m.name, m.parents, m.uses)
  }

  // ---------------------------------------------------------------------------
  // get_mod

  /// The choice `get_mod` makes on `mods[i..]`, given the module `acc` it
  /// chose from `mods[..i]`: a module that starts before the current choice
  /// is passed over, and a covering one replaces it.
  function ChooseFrom(mods: seq<PMod>, pos: nat, i: nat, acc: Option<nat>): (r: Option<nat>)
    requires i <= |mods| && (acc.Some? ==> acc.value < i)
    ensures r.Some? ==> r.value < |mods|
    decreases |mods| - i
  {
    if i == |mods| then acc
    else if acc.Some? && mods[i].start < mods[acc.value].start then ChooseFrom(mods, pos, i + 1, acc)
    else if Covers(mods[i], pos) then ChooseFrom(mods, pos, i + 1, Some(i))
    else ChooseFrom(mods, pos, i + 1, acc)
  }

  /// `get_mod`: the index of the module chosen for a position.
  function GetModIndex(mods: seq<PMod>, pos: nat): (r: Option<nat>)
    ensures r.Some? ==> r.value < |mods|
  {
    ChooseFrom(mods, pos, 0, None)
  }

  /// Module `k` is the innermost one at `pos`: it covers `pos`, no covering
  /// module starts after it, and none later in the table starts where it does.
  predicate Innermost(mods: seq<PMod>, pos: nat, k: nat)
  {
    && k < |mods| && Covers(mods[k], pos)
    && forall j :: 0 <= j < |mods| && Covers(mods[j], pos) ==>
         mods[j].start <= mods[k].start && (k < j ==> mods[j].start < mods[k].start)
  }

  /// What the choice from `mods[..i]` is: nothing when no module there
  /// covers `pos`, else the innermost covering one among them.
  predicate ChosenSoFar(mods: seq<PMod>, pos: nat, i: nat, acc: Option<nat>)
    requires i <= |mods|
  {
    && (acc.None? <==> forall j :: 0 <= j < i ==> !Covers(mods[j], pos))
    && (acc.Some? ==>
          && acc.value < i && Covers(mods[acc.value], pos)
          && forall j :: 0 <= j < i && Covers(mods[j], pos) ==>
               mods[j].start <= mods[acc.value].start && (acc.value < j ==> mods[j].start < mods[acc.value].start))
  }

  /// One more module keeps the choice what it should be.
  lemma ChooseStep(mods: seq<PMod>, pos: nat, i: nat, acc: Option<nat>)
    requires i < |mods| && ChosenSoFar(mods, pos, i, acc)
    ensures var next := if acc.Some? && mods[i].start < mods[acc.value].start then acc
                        else if Covers(mods[i], pos) then Some(i) else acc;
            ChosenSoFar(mods, pos, i + 1, next)
  {
  }

  lemma {:induction false} ChooseFromChosen(mods: seq<PMod>, pos: nat, i: nat, acc: Option<nat>)
    requires i <= |mods| && ChosenSoFar(mods, pos, i, acc)
    ensures ChosenSoFar(mods, pos, |mods|, ChooseFrom(mods, pos, i, acc))
    decreases |mods| - i
  {
    if i < |mods| {
      ChooseStep(mods, pos, i, acc);
      var next := if acc.Some? && mods[i].start < mods[acc.value].start then acc
                  else if Covers(mods[i], pos) then Some(i) else acc;
      ChooseFromChosen(mods, pos, i + 1, next);
    }
  }

  /// At most one module is innermost.
  lemma InnermostUnique(mods: seq<PMod>, pos: nat, k1: nat, k2: nat)
    requires Innermost(mods, pos, k1) && Innermost(mods, pos, k2)
    ensures k1 == k2
  {
  }

  /// `get_mod` finds nothing exactly when no module covers the position,
  /// and otherwise finds exactly the innermost module.
  lemma GetModIsInnermost(mods: seq<PMod>, pos: nat)
    ensures GetModIndex(mods, pos).None? <==> forall j :: 0 <= j < |mods| ==> !Covers(mods[j], pos)
    ensures forall k: nat :: GetModIndex(mods, pos) == Some(k) <==> Innermost(mods, pos, k)
  {
    ChooseFromChosen(mods, pos, 0, None);
    var r := GetModIndex(mods, pos);
    forall k: nat | Innermost(mods, pos, k)
      ensures r == Some(k)
    {
      InnermostUnique(mods, pos, k, r.value);
    }
  }

  /// `get_mod`, walking the table once.
  method GetMod(mods: seq<PMod>, pos: nat) returns (r: Option<nat>)
    ensures r == GetModIndex(mods, pos)
  {
    r := None;
    var i := 0;
    while i < |mods|
      invariant i <= |mods| && (r.Some? ==> r.value < i)
      invariant ChooseFrom(mods, pos, i, r) == GetModIndex(mods, pos)
    {
      if r.Some? && mods[i].start < mods[r.value].start {
        i := i + 1;
        continue;
      }
      if Covers(mods[i], pos) {
        r := Some(i);
      }
      i := i + 1;
    }
  }

  // ---------------------------------------------------------------------------
  // Resolving paths

  const NoModMsg := "Unable to resolve path to current location. Is lockjaw::prologue!() called before using any other lockjaw attributes?"

  /// The file's module path as the start of a path.
  function BasePrefix(basePath: string): string
  {
    if basePath != "" then basePath + "::" else ""
  }

  /// `SourceData::resolve_declare_path`: the base path, the parents and the
  /// module's own name, each followed by `::`, then the identifier; an
  /// error when no module covers the position.
  function ResolveDeclarePath(sd: SourceData, identifier: string, pos: nat): (r: Result<string>)
    ensures r.Err? <==> GetModIndex(sd.mods, pos).None?
    ensures r.Err? ==> r.msg == NoModMsg
  {
    match GetModIndex(sd.mods, pos)
    case None => Err(NoModMsg)
    case Some(k) =>
      var m := sd.mods[k];
      var p := if |m.parents| > 0 then Join(m.parents, "::") + "::" else "";
      var n := if m.name != SrcName then m.name + "::" else "";
      Ok(BasePrefix(sd.basePath) + p + n + identifier)
  }

  /// The declared path is the file's module path, then the innermost
  /// module's path (as the manifest parsers would resolve it), then the
  /// identifier.
  lemma DeclarePathUnderBase(sd: SourceData, identifier: string, pos: nat, crateName: string)
    requires GetModIndex(sd.mods, pos).Some?
    ensures var m := sd.mods[GetModIndex(sd.mods, pos).value];
            ResolveDeclarePath(sd, identifier, pos)
            == Ok(BasePrefix(sd.basePath) + Join(ModSegments(AsMod(m, crateName)) + [identifier], "::"))
  {
    var m := sd.mods[GetModIndex(sd.mods, pos).value];
    DeclarePathIsModulePath(AsMod(m, crateName), identifier);
    var p := if |m.parents| > 0 then Join(m.parents, "::") + "::" else "";
    var n := if m.name != SrcName then m.name + "::" else "";
    assert BasePrefix(sd.basePath) + p + n + identifier == BasePrefix(sd.basePath) + (p + n + identifier);
  }

  /// `SourceData::resolve_path`: nothing when no module covers the position;
  /// an imported name is its import; any other name is assumed to be
  /// declared in the module, in the current crate.
  function ResolvePath(sd: SourceData, identifier: string, pos: nat, crateName: string): (r: Option<TypeData>)
    ensures r.None? <==> GetModIndex(sd.mods, pos).None?
  {
    match GetModIndex(sd.mods, pos)
    case None => None
    case Some(k) =>
      var m := sd.mods[k];
      if identifier in m.uses then
        var u := m.uses[identifier];
        Some(NewType().(fieldCrate := u.crateName, path := u.path, root := u.root))
      else
        var tail := if m.name != SrcName then (if |m.parents| > 0 then "::" else "") + m.name + "::" else "";
        Some(NewType().(fieldCrate := crateName, root := Crate,
                        path := BasePrefix(sd.basePath) + Join(m.parents, "::") + tail + identifier))
  }

  /// A file's top module has no parents.
  predicate WellFormed(m: PMod)
  {
    m.name == SrcName ==> m.parents == []
  }

  /// In a well-formed module, a name with no import resolves to the CRATE
  /// path it would be declared at; an imported name to its import.
  lemma ResolveLocalIsDeclarePath(sd: SourceData, identifier: string, pos: nat, crateName: string)
    requires GetModIndex(sd.mods, pos).Some?
    requires WellFormed(sd.mods[GetModIndex(sd.mods, pos).value])
    ensures var m := sd.mods[GetModIndex(sd.mods, pos).value];
            var t := ResolvePath(sd, identifier, pos, crateName).value;
            && (identifier !in m.uses ==>
                  t == NewType().(fieldCrate := crateName, root := Crate,
                                  path := ResolveDeclarePath(sd, identifier, pos).value))
            && (identifier in m.uses ==>
                  t.path == m.uses[identifier].path && t.root == m.uses[identifier].root
                  && t.fieldCrate == m.uses[identifier].crateName)
  {
    var m := sd.mods[GetModIndex(sd.mods, pos).value];
    if identifier !in m.uses {
      var b := BasePrefix(sd.basePath);
      if |m.parents| > 0 {
        var j := Join(m.parents, "::");
        assert b + j + ("::" + m.name + "::") + identifier == b + (j + "::") + (m.name + "::") + identifier;
      } else {
        assert Join(m.parents, "::") == "";
        if m.name != SrcName {
          assert b + "" + ("" + m.name + "::") + identifier == b + "" + (m.name + "::") + identifier;
        } else {
          assert b + "" + "" + identifier == b + "" + "" + identifier;
        }
      }
    }
  }

  // ---------------------------------------------------------------------------
  // get_parent_mods and prologue_check

  /// `get_parent_mods`: the module path of the innermost module at the
  /// position, or nothing when no module covers it.
  function ParentMods(sd: SourceData, pos: nat): (r: seq<string>)
    ensures GetModIndex(sd.mods, pos).None? ==> r == []
    ensures GetModIndex(sd.mods, pos).Some? ==>
              var m := sd.mods[GetModIndex(sd.mods, pos).value];
              |r| == |m.parents| + (if m.name != SrcName then 1 else 0) && m.parents <= r
  {
    match GetModIndex(sd.mods, pos)
    case None => []
    case Some(k) =>
      var m := sd.mods[k];
      m.parents + (if m.name != SrcName then [m.name] else [])
  }

  const Super := "super::"

  /// `n` copies of `super::`.
  function Supers(n: nat): string
  {
    if n == 0 then "" else Super + Supers(n - 1)
  }

  /// The path `Supers(n)` is `n` copies of `super::` and nothing else.
  lemma {:induction false} SupersAreCopies(n: nat)
    ensures |Supers(n)| == |Super| * n
    ensures forall i :: 0 <= i < n ==> Supers(n)[|Super| * i..|Super| * (i + 1)] == Super
  {
    if n > 0 {
      var m: nat := n - 1;
      SupersAreCopies(m);
      var s := Supers(n);
      assert s == Super + Supers(m);
      forall i | 0 <= i < n
        ensures s[|Super| * i..|Super| * (i + 1)] == Super
      {
        if i > 0 {
          assert s[|Super| * i..|Super| * (i + 1)] == Supers(m)[|Super| * (i - 1)..|Super| * i];
        }
      }
    }
  }

  /// `prologue_check`: the path that climbs from the module at the position
  /// to the file's top, one `super::` per enclosing module.
  method PrologueCheck(sd: SourceData, pos: nat) returns (supers: string)
    ensures supers == Supers(|ParentMods(sd, pos)|)
  {
    var k := GetMod(sd.mods, pos);
    var size := 0;
    if k.Some? {
      var m := sd.mods[k.value];
      size := |m.parents| + (if m.name != SrcName then 1 else 0);
    }
    supers := "";
    var i := 0;
    while i < size
      invariant i <= size && supers == Supers(i)
    {
      supers := Super + supers;
      i := i + 1;
    }
  }

  // ---------------------------------------------------------------------------
  // get_uses

  /// The imports of the use declarations of `nodes[i..]` over `acc`, each
  /// read with the pattern as written; a later import of a name replaces an
  /// earlier one.
  function UsesFrom(nodes: seq<SrcNode>, i: nat, deps: set<string>, basePath: string, parents: seq<string>,
                    crateName: string, acc: map<string, UsePath>): Result<map<string, UsePath>>
    requires i <= |nodes|
    decreases |nodes| - i
  {
    if i == |nodes| then Ok(acc)
    else if nodes[i].UseDeclaration? then
      var m :- PrologueUse.ProcessUseText(nodes[i].argument, deps, basePath, parents, crateName);
      UsesFrom(nodes, i + 1, deps, basePath, parents, crateName, acc + m)
    else UsesFrom(nodes, i + 1, deps, basePath, parents, crateName, acc)
  }

  /// The dependencies a `use` may start from: the crate's own (production or
  /// test) dependencies, `std` and `core`.
  function DepsOf(crateDeps: set<string>): set<string>
  {
    crateDeps + {"std", "core"}
  }

  /// `get_uses` of the prologue as a value.
  function PrologueUsesOf(nodes: seq<SrcNode>, crateDeps: set<string>, basePath: string, parents: seq<string>,
                          crateName: string): Result<map<string, UsePath>>
  {
    var deps := DepsOf(crateDeps);
    var uses :- UsesFrom(nodes, 0, deps, basePath, parents, crateName, map[]);
    Ok(WithDefaults(uses, deps))
  }

  lemma UsesStep(nodes: seq<SrcNode>, i: nat, next: nat, deps: set<string>, basePath: string,
                 parents: seq<string>, crateName: string, acc: map<string, UsePath>)
    requires i < |nodes| && next == i + 1
    ensures !nodes[i].UseDeclaration? ==>
              UsesFrom(nodes, i, deps, basePath, parents, crateName, acc)
              == UsesFrom(nodes, next, deps, basePath, parents, crateName, acc)
    ensures nodes[i].UseDeclaration? ==>
              var m := PrologueUse.ProcessUseText(nodes[i].argument, deps, basePath, parents, crateName);
              && (m.Err? ==> UsesFrom(nodes, i, deps, basePath, parents, crateName, acc) == Err(m.msg))
              && (m.Ok? ==> UsesFrom(nodes, i, deps, basePath, parents, crateName, acc)
                            == UsesFrom(nodes, next, deps, basePath, parents, crateName, acc + m.value))
  {
  }

  /// Imports only ever add names: every name of `acc` is a name of the
  /// result.
  lemma {:induction false} UsesFromGrows(nodes: seq<SrcNode>, i: nat, deps: set<string>, basePath: string,
                                         parents: seq<string>, crateName: string, acc: map<string, UsePath>)
    requires i <= |nodes|
    requires UsesFrom(nodes, i, deps, basePath, parents, crateName, acc).Ok?
    ensures acc.Keys <= UsesFrom(nodes, i, deps, basePath, parents, crateName, acc).value.Keys
    decreases |nodes| - i
  {
    if i < |nodes| {
      var next: nat := i + 1;
      UsesStep(nodes, i, next, deps, basePath, parents, crateName, acc);
      if nodes[i].UseDeclaration? {
        var m := PrologueUse.ProcessUseText(nodes[i].argument, deps, basePath, parents, crateName);
        UsesFromGrows(nodes, next, deps, basePath, parents, crateName, acc + m.value);
      } else {
        UsesFromGrows(nodes, next, deps, basePath, parents, crateName, acc);
      }
    }
  }

  /// A use declaration the pattern rejects makes `get_uses` fail.
  lemma {:induction false} UsesFromRejects(nodes: seq<SrcNode>, i: nat, deps: set<string>, basePath: string,
                                           parents: seq<string>, crateName: string, acc: map<string, UsePath>,
                                           k: nat)
    requires i <= k < |nodes| && nodes[k].UseDeclaration?
    requires PrologueUse.ProcessUseText(nodes[k].argument, deps, basePath, parents, crateName).Err?
    ensures UsesFrom(nodes, i, deps, basePath, parents, crateName, acc).Err?
    decreases k - i
  {
    var next: nat := i + 1;
    UsesStep(nodes, i, next, deps, basePath, parents, crateName, acc);
    if i < k {
      if nodes[i].UseDeclaration? {
        var m := PrologueUse.ProcessUseText(nodes[i].argument, deps, basePath, parents, crateName);
        if m.Ok? {
          UsesFromRejects(nodes, next, deps, basePath, parents, crateName, acc + m.value, k);
        }
      } else {
        UsesFromRejects(nodes, next, deps, basePath, parents, crateName, acc, k);
      }
    }
  }

  /// Every dependency is a name of the result, a crate nothing imports under
  /// its own name standing for itself.
  lemma PrologueUsesDefaults(nodes: seq<SrcNode>, crateDeps: set<string>, basePath: string, parents: seq<string>,
                             crateName: string)
    requires PrologueUsesOf(nodes, crateDeps, basePath, parents, crateName).Ok?
    ensures var r := PrologueUsesOf(nodes, crateDeps, basePath, parents, crateName).value;
            && "std" in r && "core" in r && crateDeps <= r.Keys
  {
  }

  /// `get_uses` of the prologue.
  method GetUses(nodes: seq<SrcNode>, crateDeps: set<string>, basePath: string, parents: seq<string>,
                 crateName: string) returns (r: Result<map<string, UsePath>>)
    ensures r == PrologueUsesOf(nodes, crateDeps, basePath, parents, crateName)
  {
    var deps := crateDeps + {"std", "core"};
    var result: map<string, UsePath> := map[];
    var i := 0;
    while i < |nodes|
      invariant i <= |nodes|
      invariant UsesFrom(nodes, i, deps, basePath, parents, crateName, result)
             == UsesFrom(nodes, 0, deps, basePath, parents, crateName, map[])
    {
      var next: nat := i + 1;
      UsesStep(nodes, i, next, deps, basePath, parents, crateName, result);
      if nodes[i].UseDeclaration? {
        var m := PrologueUse.ProcessUse(nodes[i].argument, deps, basePath, parents, crateName);
        if m.Err? {
          return Err(m.msg);
        }
        result := result + m.value;
      }
      i := next;
    }
    var all := AddDefaults(result, deps);
    return Ok(all);
  }

  // ---------------------------------------------------------------------------
  // parse_mods

  /// `parse_mods` as a value: the module itself, shifted by `offset`, then
  /// the modules of every module item with a body, in order and depth first.
  function ParseMods(name: string, start: nat, end: nat, body: seq<SrcNode>, parents: seq<string>, offset: nat,
                     basePath: string, crateDeps: set<string>, crateName: string): Result<seq<PMod>>
    decreases body, 1
  {
    var newParents := if name != SrcName then parents + [name] else parents;
    var uses :- PrologueUsesOf(body, crateDeps, basePath, newParents, crateName);
    var rest :- ParseChildren(body, 0, newParents, offset, basePath, crateDeps, crateName);
    Ok([PMod(name, start + offset, end + offset, parents, uses)] + rest)
  }

  /// The modules of the module items of `body[i..]`.
  function ParseChildren(body: seq<SrcNode>, i: nat, parents: seq<string>, offset: nat, basePath: string,
                         crateDeps: set<string>, crateName: string): Result<seq<PMod>>
    requires i <= |body|
    decreases body, 0, |body| - i
  {
    if i == |body| then Ok([])
    else if body[i].ModItem? && body[i].hasBody then
      var c := body[i];
      BodyIsSmaller(body, i);
      var inner :- ParseMods(c.name, c.start, c.end, c.body, parents, offset, basePath, crateDeps, crateName);
      var rest :- ParseChildren(body, i + 1, parents, offset, basePath, crateDeps, crateName);
      Ok(inner + rest)
    else ParseChildren(body, i + 1, parents, offset, basePath, crateDeps, crateName)
  }

  /// A module body inside an item is smaller than the items.
  lemma BodyIsSmaller(body: seq<SrcNode>, i: nat)
    requires i < |body| && body[i].ModItem? && body[i].hasBody
    ensures body decreases to body[i].body
  {
    assert body decreases to body[i];
  }

  /// No module item of the tree is named like a file's top module.
  predicate NamedMods(body: seq<SrcNode>)
    decreases body
  {
    forall i :: 0 <= i < |body| && body[i].ModItem? && body[i].hasBody ==>
      body[i].name != SrcName && (BodyIsSmaller(body, i); NamedMods(body[i].body))
  }

  /// Every module `parse_mods` yields is well formed and sits under the
  /// parents it was started with; the first is the module itself.
  lemma {:induction false} ParseModsShape(name: string, start: nat, end: nat, body: seq<SrcNode>,
                                          parents: seq<string>, offset: nat, basePath: string,
                                          crateDeps: set<string>, crateName: string)
    requires (name == SrcName ==> parents == []) && NamedMods(body)
    requires ParseMods(name, start, end, body, parents, offset, basePath, crateDeps, crateName).Ok?
    ensures var r := ParseMods(name, start, end, body, parents, offset, basePath, crateDeps, crateName).value;
            && |r| > 0 && r[0].name == name && r[0].start == start + offset && r[0].end == end + offset
            && r[0].parents == parents
            && forall j :: 0 <= j < |r| ==> WellFormed(r[j]) && parents <= r[j].parents
    decreases body, 1
  {
    var newParents := if name != SrcName then parents + [name] else parents;
    ParseChildrenShape(body, 0, newParents, offset, basePath, crateDeps, crateName);
  }

  lemma {:induction false} ParseChildrenShape(body: seq<SrcNode>, i: nat, parents: seq<string>, offset: nat,
                                              basePath: string, crateDeps: set<string>, crateName: string)
    requires i <= |body| && NamedMods(body)
    requires ParseChildren(body, i, parents, offset, basePath, crateDeps, crateName).Ok?
    ensures var r := ParseChildren(body, i, parents, offset, basePath, crateDeps, crateName).value;
            forall j :: 0 <= j < |r| ==> WellFormed(r[j]) && parents <= r[j].parents
    decreases body, 0, |body| - i
  {
    if i < |body| {
      var next: nat := i + 1;
      ParseChildrenShape(body, next, parents, offset, basePath, crateDeps, crateName);
      if body[i].ModItem? && body[i].hasBody {
        var c := body[i];
        BodyIsSmaller(body, i);
        ParseModsShape(c.name, c.start, c.end, c.body, parents, offset, basePath, crateDeps, crateName);
        var inner := ParseMods(c.name, c.start, c.end, c.body, parents, offset, basePath, crateDeps, crateName).value;
        var rest := ParseChildren(body, next, parents, offset, basePath, crateDeps, crateName).value;
        var r := ParseChildren(body, i, parents, offset, basePath, crateDeps, crateName).value;
        assert r == inner + rest;
        forall j | 0 <= j < |r|
          ensures WellFormed(r[j]) && parents <= r[j].parents
        {
          if j >= |inner| {
            assert r[j] == rest[j - |inner|];
          }
        }
      }
    }
  }

  /// An outcome with `ms` in front of its modules; an error stays as it is.
  function PrependMods(ms: seq<PMod>, r: Result<seq<PMod>>): Result<seq<PMod>>
  {
    if r.Ok? then Ok(ms + r.value) else r
  }

  lemma ChildrenStep(body: seq<SrcNode>, i: nat, next: nat, parents: seq<string>, offset: nat, basePath: string,
                     crateDeps: set<string>, crateName: string, ms: seq<PMod>)
    requires i < |body| && next == i + 1
    ensures !(body[i].ModItem? && body[i].hasBody) ==>
              PrependMods(ms, ParseChildren(body, i, parents, offset, basePath, crateDeps, crateName))
              == PrependMods(ms, ParseChildren(body, next, parents, offset, basePath, crateDeps, crateName))
    ensures body[i].ModItem? && body[i].hasBody ==>
              var c := body[i];
              var inner := ParseMods(c.name, c.start, c.end, c.body, parents, offset, basePath, crateDeps, crateName);
              && (inner.Err? ==> ParseChildren(body, i, parents, offset, basePath, crateDeps, crateName) == Err(inner.msg))
              && (inner.Ok? ==>
                    PrependMods(ms, ParseChildren(body, i, parents, offset, basePath, crateDeps, crateName))
                    == PrependMods(ms + inner.value, ParseChildren(body, next, parents, offset, basePath, crateDeps, crateName)))
  {
    if body[i].ModItem? && body[i].hasBody {
      var c := body[i];
      var inner := ParseMods(c.name, c.start, c.end, c.body, parents, offset, basePath, crateDeps, crateName);
      var rest := ParseChildren(body, next, parents, offset, basePath, crateDeps, crateName);
      if inner.Ok? && rest.Ok? {
        assert ms + (inner.value + rest.value) == (ms + inner.value) + rest.value;
      }
    }
  }

  lemma ChildrenEnd(body: seq<SrcNode>, parents: seq<string>, offset: nat, basePath: string,
                    crateDeps: set<string>, crateName: string, ms: seq<PMod>)
    ensures PrependMods(ms, ParseChildren(body, |body|, parents, offset, basePath, crateDeps, crateName)) == Ok(ms)
  {
    assert ms + [] == ms;
  }

  /// `parse_mods`: the module, then a walk over its items that descends into
  /// every module item with a body.
  method ParseModsWalk(name: string, start: nat, end: nat, body: seq<SrcNode>, parents: seq<string>, offset: nat,
                       basePath: string, crateDeps: set<string>, crateName: string) returns (r: Result<seq<PMod>>)
    ensures r == ParseMods(name, start, end, body, parents, offset, basePath, crateDeps, crateName)
    decreases body, 1
  {
    var newParents := parents;
    if name != SrcName {
      newParents := parents + [name];
    }
    var uses := GetUses(body, crateDeps, basePath, newParents, crateName);
    if uses.Err? {
      return Err(uses.msg);
    }
    var first := [PMod(name, start + offset, end + offset, parents, uses.value)];
    var result := first;
    var i := 0;
    while i < |body|
      invariant i <= |body|
      invariant PrependMods(result, ParseChildren(body, i, newParents, offset, basePath, crateDeps, crateName))
             == PrependMods(first, ParseChildren(body, 0, newParents, offset, basePath, crateDeps, crateName))
    {
      var next: nat := i + 1;
      ChildrenStep(body, i, next, newParents, offset, basePath, crateDeps, crateName, result);
      if body[i].ModItem? && body[i].hasBody {
        var c := body[i];
        BodyIsSmaller(body, i);
        var inner := ParseModsWalk(c.name, c.start, c.end, c.body, newParents, offset, basePath, crateDeps, crateName);
        if inner.Err? {
          return Err(inner.msg);
        }
        result := result + inner.value;
      }
      i := next;
    }
    ChildrenEnd(body, newParents, offset, basePath, crateDeps, crateName, result);
    return Ok(result);
  }
}
