// How the build-script manifest parsers resolve names through `use`
// declarations: `Mod`, `process_use`, `get_use_items` and `get_uses` of
// common/src/manifest_parser.rs and src/manifest_parser.rs. The two files
// share `process_use`, `get_use_items` and `Mod` line for line; their
// `get_uses` differ (only the first honours `#[cfg]` and `extern crate`).
// The syn use tree is a small datatype.
module UsePaths {
  import opened Outcomes
  import opened Types
  import opened Strs
  import Cfg

  /// What a name imported by `use` stands for.
  datatype UsePath = UsePath(crateName: string, path: string, root: Root)

  /// `syn::UseTree`.
  datatype UseTree =
    | UseSegment(ident: string, tree: UseTree)
    | UseName(ident: string)
    | UseRename(ident: string, rename: string)
    | UseGlob
    | UseGroup(items: seq<UseTree>)

  /// `syn::ItemUse`: `use [::]tree;`.
  datatype ItemUse = ItemUse(leadingColon: bool, tree: UseTree)

  /// One imported item and the name it is imported under.
  datatype UseItem = UseItem(item: string, name: string)

  // ---------------------------------------------------------------------------
  // Splitting the tree

  /// The path segments in front of the tree's last part.
  function Segments(t: UseTree): seq<string>
  {
    if t.UseSegment? then [t.ident] + Segments(t.tree) else []
  }

  /// The tree's last part: a name, rename, glob or group.
  function Remainder(t: UseTree): (r: UseTree)
    ensures !r.UseSegment?
  {
    if t.UseSegment? then Remainder(t.tree) else t
  }

  /// The loop at the head of `process_use`: collect segments until the
  /// tree is no longer a path.
  method SplitTree(t: UseTree) returns (segments: seq<string>, remainder: UseTree)
    ensures segments == Segments(t) && remainder == Remainder(t)
  {
    segments := [];
    var tree := t;
    while tree.UseSegment?
      invariant Segments(t) == segments + Segments(tree)
      invariant Remainder(tree) == Remainder(t)
      decreases tree
    {
      segments := segments + [tree.ident];
      tree := tree.tree;
    }
    remainder := tree;
  }

  // ---------------------------------------------------------------------------
  // The crate-relative walk

  /// `Vec::pop`, which leaves an empty vector empty.
  function Pop(p: seq<string>): (r: seq<string>)
    ensures |p| > 0 ==> r == p[..|p| - 1]
    ensures |p| == 0 ==> r == []
  {
    if |p| == 0 then [] else p[..|p| - 1]
  }

  /// The module path a crate-relative `use` names, from `segments[i..]`:
  /// `self` is skipped, `super` drops the last module, `crate` goes back to
  /// the crate root; the first other segment and every segment after it are
  /// appended as they are.
  function Walk(path: seq<string>, segments: seq<string>, i: nat): seq<string>
    requires i <= |segments|
    decreases |segments| - i
  {
    if i == |segments| then path
    else if segments[i] == "self" then Walk(path, segments, i + 1)
    else if segments[i] == "super" then Walk(Pop(path), segments, i + 1)
    else if segments[i] == "crate" then Walk([], segments, i + 1)
    else path + segments[i..]
  }

  /// The walk loop of `process_use`, from `start`.
  method WalkSegments(start: seq<string>, segments: seq<string>) returns (path: seq<string>)
    ensures path == Walk(start, segments, 0)
  {
    path := start;
    var i := 0;
    while i < |segments|
      invariant i <= |segments|
      invariant Walk(path, segments, i) == Walk(start, segments, 0)
    {
      if segments[i] == "self" {
        i := i + 1;
        continue;
      }
      if segments[i] == "super" {
        path := Pop(path);
        i := i + 1;
        continue;
      }
      if segments[i] == "crate" {
        path := [];
        i := i + 1;
        continue;
      }
      path := path + segments[i..];
      return;
    }
  }

  /// Walking from index i is walking the segments from i on.
  lemma {:induction false} WalkShift(path: seq<string>, segments: seq<string>, i: nat)
    requires i <= |segments|
    ensures Walk(path, segments, i) == Walk(path, segments[i..], 0)
    decreases |segments| - i
  {
    if i < |segments| {
      var next: nat := i + 1;
      assert segments[i..][0] == segments[i];
      assert segments[i..][1..] == segments[next..];
      WalkShift(Pop(path), segments, next);
      WalkShift([], segments, next);
      WalkShift(path, segments, next);
      WalkShift(Pop(path), segments[i..], 1);
      WalkShift([], segments[i..], 1);
      WalkShift(path, segments[i..], 1);
      assert segments[i..][0..] == segments[i..];
    }
  }

  /// The three keywords as the first segment.
  lemma WalkKeywords(path: seq<string>, rest: seq<string>)
    ensures Walk(path, ["self"] + rest, 0) == Walk(path, rest, 0)
    ensures Walk(path, ["super"] + rest, 0) == Walk(Pop(path), rest, 0)
    ensures Walk(path, ["crate"] + rest, 0) == Walk([], rest, 0)
  {
    assert (["self"] + rest)[1..] == rest;
    assert (["super"] + rest)[1..] == rest;
    assert (["crate"] + rest)[1..] == rest;
    WalkShift(path, ["self"] + rest, 1);
    WalkShift(Pop(path), ["super"] + rest, 1);
    WalkShift([], ["crate"] + rest, 1);
  }

  /// Segments that start with an ordinary name are appended unchanged.
  lemma WalkOrdinary(path: seq<string>, segments: seq<string>)
    requires |segments| > 0 && segments[0] != "self" && segments[0] != "super" && segments[0] != "crate"
    ensures Walk(path, segments, 0) == path + segments
  {
    assert segments[0..] == segments;
  }

  // ---------------------------------------------------------------------------
  // Items and entries

  const UnexpectedPathPanic := "panic: unexpected path"
  const InvalidGroupItemPanic := "panic: invalid use group item"

  /// `get_use_items`: a name or rename is one item; a glob is none (lockjaw
  /// cannot follow `*` imports); a group is its names and renames in order,
  /// and anything else inside a group panics.
  function UseItems(remainder: UseTree): (r: Result<seq<UseItem>>)
    ensures remainder.UseGlob? ==> r == Ok([])
    ensures remainder.UseName? ==> r == Ok([UseItem(remainder.ident, remainder.ident)])
    ensures remainder.UseRename? ==> r == Ok([UseItem(remainder.ident, remainder.rename)])
  {
    match remainder
    case UseSegment(_, _) => Err(UnexpectedPathPanic)
    case UseName(n) => Ok([UseItem(n, n)])
    case UseRename(i, n) => Ok([UseItem(i, n)])
    case UseGlob => Ok([])
    case UseGroup(items) => GroupItems(items)
  }

  function GroupItems(items: seq<UseTree>): (r: Result<seq<UseItem>>)
    ensures r.Ok? <==> forall i :: 0 <= i < |items| ==> items[i].UseName? || items[i].UseRename?
    ensures r.Ok? ==> |r.value| == |items|
    ensures r.Ok? ==> forall i :: 0 <= i < |items| ==>
              r.value[i] == if items[i].UseName? then UseItem(items[i].ident, items[i].ident)
                            else UseItem(items[i].ident, items[i].rename)
  {
    if |items| == 0 then Ok([])
    else
      var head :- (match items[0]
                   case UseName(n) => Ok(UseItem(n, n))
                   case UseRename(i, n) => Ok(UseItem(i, n))
                   case _ => Err(InvalidGroupItemPanic));
      var rest :- GroupItems(items[1..]);
      assert forall i :: 1 <= i < |items| ==> items[i] == items[1..][i - 1];
      Ok([head] + rest)
  }

  /// Where a `use` starts: no segments and a leading `::` or a dependency
  /// crate are GLOBAL with the segments as they are; anything else is
  /// CRATE, walked from `parents`.
  function Base(u: ItemUse, deps: set<string>, parents: seq<string>): (Root, seq<string>)
  {
    var segments := Segments(u.tree);
    if |segments| == 0 then (Global, [])
    else if u.leadingColon || segments[0] in deps then (Global, segments)
    else (Crate, Walk(parents, segments, 0))
  }

  /// The entry for one item: the crate is the current one for CRATE paths,
  /// else the first segment (or the item itself); the path is the base path
  /// followed by the item, and a `self` item names the base path itself.
  function Entry(item: UseItem, root: Root, segments: seq<string>, path: seq<string>, crateName: string): UsePath
  {
    var crate := if root == Crate then crateName else if |segments| >= 1 then segments[0] else item.item;
    var itemPath := Join(path, "::") + (if item.item != "self" then (if |path| > 0 then "::" else "") + item.item else "");
    UsePath(crate, itemPath, root)
  }

  /// An item other than `self` is the last segment of its path.
  lemma EntryPath(item: UseItem, root: Root, segments: seq<string>, path: seq<string>, crateName: string)
    ensures item.item == "self" ==> Entry(item, root, segments, path, crateName).path == Join(path, "::")
    ensures item.item != "self" ==> Entry(item, root, segments, path, crateName).path == Join(path + [item.item], "::")
  {
    if item.item != "self" {
      if |path| > 0 {
        JoinSnoc(path, item.item, "::");
      } else {
        assert path + [item.item] == [item.item];
      }
    }
  }

  /// An item the insertion loop passes over: one with an empty name, when
  /// the loop skips those (the manifest parsers do, the prologue does not).
  predicate Skipped(skipEmpty: bool, name: string)
  {
    skipEmpty && name == ""
  }

  /// The items inserted in order, skipped items left out; a later item
  /// under the same name replaces an earlier one.
  function InsertItems(skipEmpty: bool, m: map<string, UsePath>, items: seq<UseItem>, root: Root, segments: seq<string>,
                       path: seq<string>, crateName: string): map<string, UsePath>
    decreases |items|
  {
    if |items| == 0 then m
    else
      var m' := if Skipped(skipEmpty, items[0].name) then m else m[items[0].name := Entry(items[0], root, segments, path, crateName)];
      InsertItems(skipEmpty, m', items[1..], root, segments, path, crateName)
  }

  /// `process_use` as a value: the names one `use` declaration imports.
  function UseEntries(u: ItemUse, deps: set<string>, parents: seq<string>, crateName: string): Result<map<string, UsePath>>
  {
    var (root, path) := Base(u, deps, parents);
    var items :- UseItems(Remainder(u.tree));
    Ok(InsertItems(true, map[], items, root, Segments(u.tree), path, crateName))
  }

  /// `process_use`.
  method ProcessUse(u: ItemUse, deps: set<string>, parents: seq<string>, crateName: string)
    returns (r: Result<map<string, UsePath>>)
    ensures r == UseEntries(u, deps, parents, crateName)
  {
    var segments, remainder := SplitTree(u.tree);
    var path: seq<string> := [];
    var root: Root;
    if |segments| == 0 {
      root := Global;
    } else if u.leadingColon || segments[0] in deps {
      root := Global;
      path := segments;
    } else {
      root := Crate;
      path := WalkSegments(parents, segments);
    }
    assert (root, path) == Base(u, deps, parents);
    var items := UseItems(remainder);
    if items.Err? {
      return Err(items.msg);
    }
    var entries := InsertLoop(true, items.value, root, segments, path, crateName);
    return Ok(entries);
  }

  /// The insertion loop of `process_use`: each item in order under its
  /// name, skipped items passed over.
  method InsertLoop(skipEmpty: bool, items: seq<UseItem>, root: Root, segments: seq<string>, path: seq<string>,
                    crateName: string) returns (entries: map<string, UsePath>)
    ensures entries == InsertItems(skipEmpty, map[], items, root, segments, path, crateName)
  {
    var result: map<string, UsePath> := map[];
    var i := 0;
    while i < |items|
      invariant i <= |items|
      invariant InsertItems(skipEmpty, result, items[i..], root, segments, path, crateName)
             == InsertItems(skipEmpty, map[], items, root, segments, path, crateName)
    {
      var item := items[i];
      assert items[i..][0] == item && items[i..][1..] == items[i + 1..];
      if !Skipped(skipEmpty, item.name) {
        result := result[item.name := Entry(item, root, segments, path, crateName)];
      }
      i := i + 1;
    }
    assert items[i..] == [];
    return result;
  }

  /// The names `InsertItems` leaves are those of `m` and of the items not
  /// skipped.
  lemma {:induction false} InsertItemsKeys(skipEmpty: bool, m: map<string, UsePath>, items: seq<UseItem>, root: Root,
                                           segments: seq<string>, path: seq<string>, crateName: string)
    decreases |items|
    ensures forall k :: k in InsertItems(skipEmpty, m, items, root, segments, path, crateName) <==>
              k in m || exists i :: 0 <= i < |items| && items[i].name == k && !Skipped(skipEmpty, k)
  {
    if |items| > 0 {
      var m' := if Skipped(skipEmpty, items[0].name) then m else m[items[0].name := Entry(items[0], root, segments, path, crateName)];
      InsertItemsKeys(skipEmpty, m', items[1..], root, segments, path, crateName);
      var r := InsertItems(skipEmpty, m, items, root, segments, path, crateName);
      assert r == InsertItems(skipEmpty, m', items[1..], root, segments, path, crateName);
      forall k
        ensures k in r <==> k in m || exists i :: 0 <= i < |items| && items[i].name == k && !Skipped(skipEmpty, k)
      {
        if exists i :: 0 <= i < |items[1..]| && items[1..][i].name == k && !Skipped(skipEmpty, k) {
          var i :| 0 <= i < |items[1..]| && items[1..][i].name == k && !Skipped(skipEmpty, k);
          assert items[i + 1].name == k;
        }
        if exists i :: 0 <= i < |items| && items[i].name == k && !Skipped(skipEmpty, k) {
          var i :| 0 <= i < |items| && items[i].name == k && !Skipped(skipEmpty, k);
          if i > 0 {
            assert items[1..][i - 1].name == k;
          }
        }
      }
    }
  }

  /// A name takes the entry of the last item carrying it.
  lemma {:induction false} InsertItemsLastWins(skipEmpty: bool, m: map<string, UsePath>, items: seq<UseItem>, i: nat,
                                               root: Root, segments: seq<string>, path: seq<string>, crateName: string)
    requires i < |items| && !Skipped(skipEmpty, items[i].name)
    requires forall j :: i < j < |items| ==> items[j].name != items[i].name
    ensures var r := InsertItems(skipEmpty, m, items, root, segments, path, crateName);
            items[i].name in r && r[items[i].name] == Entry(items[i], root, segments, path, crateName)
    decreases |items|
  {
    var m' := if Skipped(skipEmpty, items[0].name) then m else m[items[0].name := Entry(items[0], root, segments, path, crateName)];
    assert InsertItems(skipEmpty, m, items, root, segments, path, crateName)
        == InsertItems(skipEmpty, m', items[1..], root, segments, path, crateName);
    if i > 0 {
      assert items[1..][i - 1] == items[i];
      assert forall j :: i - 1 < j < |items[1..]| ==> items[1..][j].name != items[i].name by {
        assert forall j :: i - 1 < j < |items[1..]| ==> items[1..][j] == items[j + 1];
      }
      InsertItemsLastWins(skipEmpty, m', items[1..], i - 1, root, segments, path, crateName);
    } else {
      assert forall j :: 0 <= j < |items[1..]| ==> items[1..][j].name != items[0].name by {
        assert forall j :: 0 <= j < |items[1..]| ==> items[1..][j] == items[j + 1];
      }
      InsertItemsKeeps(skipEmpty, m', items[1..], root, segments, path, crateName);
    }
  }

  /// A name of `m` that no item carries keeps its entry.
  lemma {:induction false} InsertItemsKeeps(skipEmpty: bool, m: map<string, UsePath>, items: seq<UseItem>, root: Root,
                                            segments: seq<string>, path: seq<string>, crateName: string)
    decreases |items|
    ensures forall k :: k in m && (forall i :: 0 <= i < |items| ==> items[i].name != k) ==>
              k in InsertItems(skipEmpty, m, items, root, segments, path, crateName)
              && InsertItems(skipEmpty, m, items, root, segments, path, crateName)[k] == m[k]
  {
    if |items| > 0 {
      var m' := if Skipped(skipEmpty, items[0].name) then m else m[items[0].name := Entry(items[0], root, segments, path, crateName)];
      InsertItemsKeeps(skipEmpty, m', items[1..], root, segments, path, crateName);
      forall k | k in m && (forall i :: 0 <= i < |items| ==> items[i].name != k)
        ensures forall i :: 0 <= i < |items[1..]| ==> items[1..][i].name != k
      {
        assert forall i :: 0 <= i < |items[1..]| ==> items[1..][i] == items[i + 1];
      }
    }
  }

  /// A glob import names nothing.
  lemma GlobImportsNothing(u: ItemUse, deps: set<string>, parents: seq<string>, crateName: string)
    requires Remainder(u.tree) == UseGlob
    ensures UseEntries(u, deps, parents, crateName) == Ok(map[])
  {
    var (root, path) := Base(u, deps, parents);
    assert UseItems(Remainder(u.tree)) == Ok([]);
    assert InsertItems(true, map[], [], root, Segments(u.tree), path, crateName) == map[];
  }

  /// One item with a non-empty name is one entry.
  lemma InsertOne(item: UseItem, root: Root, segments: seq<string>, path: seq<string>, crateName: string)
    requires item.name != ""
    ensures InsertItems(true, map[], [item], root, segments, path, crateName)
            == map[item.name := Entry(item, root, segments, path, crateName)]
  {
    var m := map[item.name := Entry(item, root, segments, path, crateName)];
    assert [item][1..] == [];
    assert InsertItems(true, m, [], root, segments, path, crateName) == m;
  }

  /// `use [::]dep::a::b::Name [as Alias];` where `dep` is a dependency or
  /// the path is absolute: the name is GLOBAL, in crate `dep`, at the
  /// segments followed by the item.
  lemma GlobalImport(u: ItemUse, deps: set<string>, parents: seq<string>, crateName: string)
    requires var s := Segments(u.tree); |s| > 0 && (u.leadingColon || s[0] in deps)
    requires var r := Remainder(u.tree); (r.UseName? || r.UseRename?) && r.ident != "self"
    ensures var r := Remainder(u.tree);
            var name := if r.UseName? then r.ident else r.rename;
            name != "" ==>
              UseEntries(u, deps, parents, crateName)
              == Ok(map[name := UsePath(Segments(u.tree)[0], Join(Segments(u.tree) + [r.ident], "::"), Global)])
  {
    var r := Remainder(u.tree);
    var item := if r.UseName? then UseItem(r.ident, r.ident) else UseItem(r.ident, r.rename);
    EntryPath(item, Global, Segments(u.tree), Segments(u.tree), crateName);
    if item.name != "" {
      assert Base(u, deps, parents) == (Global, Segments(u.tree));
      assert UseItems(r) == Ok([item]);
      InsertOne(item, Global, Segments(u.tree), Segments(u.tree), crateName);
    }
  }

  /// `use a::b::Name;` where `a` is an ordinary, non-dependency segment:
  /// the name is CRATE, in the current crate, under the current module.
  lemma CrateRelativeImport(u: ItemUse, deps: set<string>, parents: seq<string>, crateName: string)
    requires var s := Segments(u.tree);
             |s| > 0 && !u.leadingColon && s[0] !in deps && s[0] != "self" && s[0] != "super" && s[0] != "crate"
    requires var r := Remainder(u.tree); r.UseName? && r.ident != "self" && r.ident != ""
    ensures var r := Remainder(u.tree);
            UseEntries(u, deps, parents, crateName)
            == Ok(map[r.ident := UsePath(crateName, Join(parents + Segments(u.tree) + [r.ident], "::"), Crate)])
  {
    var r := Remainder(u.tree);
    WalkOrdinary(parents, Segments(u.tree));
    var item := UseItem(r.ident, r.ident);
    EntryPath(item, Crate, Segments(u.tree), parents + Segments(u.tree), crateName);
    assert Base(u, deps, parents) == (Crate, parents + Segments(u.tree));
    assert UseItems(r) == Ok([item]);
    InsertOne(item, Crate, Segments(u.tree), parents + Segments(u.tree), crateName);
  }

  /// `use self::x` imports x itself: the entry's path is the path of the
  /// segments before it.
  lemma SelfItemIsItsPath(root: Root, segments: seq<string>, path: seq<string>, crateName: string, name: string)
    ensures Entry(UseItem("self", name), root, segments, path, crateName).path == Join(path, "::")
  {
  }

  // ---------------------------------------------------------------------------
  // get_uses

  /// The items of a module that the use collection reads: their first
  /// `#[cfg(...)]` (in list form), and what the item is.
  datatype ItemKind = ExternCrateItem(name: string) | UseDecl(decl: ItemUse) | ModItem(name: string) | OtherItem
  datatype Item = Item(cfg: Option<Cfg.RawCfg>, kind: ItemKind)

  /// Whether an item is compiled for the given test flag: an item without
  /// `#[cfg]` always is; a malformed predicate is an error, and so is the
  /// panic of an evaluation that reads an unset variable.
  function Enabled(item: Item, cfgTest: bool, env: map<string, string>): Result<bool>
  {
    if item.cfg.None? then Ok(true)
    else
      var p :- Cfg.Parse(item.cfg.value, true, true);
      Cfg.Eval(p, cfgTest, env)
  }

  /// Every dependency not already imported stands for itself, GLOBAL.
  function WithDefaults(uses: map<string, UsePath>, deps: set<string>): (r: map<string, UsePath>)
    ensures r.Keys == uses.Keys + deps
    ensures forall k :: k in uses ==> r[k] == uses[k]
    ensures forall d :: d in deps && d !in uses ==> r[d] == UsePath(d, d, Global)
  {
    map k | k in uses.Keys + deps :: if k in uses then uses[k] else UsePath(k, k, Global)
  }

  /// The default-entry loop at the end of both `get_uses`.
  method AddDefaults(uses: map<string, UsePath>, deps: set<string>) returns (r: map<string, UsePath>)
    ensures r == WithDefaults(uses, deps)
  {
    r := uses;
    var rest := deps;
    while rest != {}
      invariant rest <= deps
      invariant r.Keys == uses.Keys + (deps - rest)
      invariant forall k :: k in uses ==> r[k] == uses[k]
      invariant forall d :: d in deps - rest && d !in uses ==> r[d] == UsePath(d, d, Global)
      decreases rest
    {
      var d :| d in rest;
      if d !in r {
        r := r[d := UsePath(d, d, Global)];
      }
      rest := rest - {d};
    }
  }

  /// The use declarations of `items[i..]` in common/src/manifest_parser.rs:
  /// disabled items are skipped, `extern crate` adds a dependency for the
  /// items after it, and each `use` adds its names over the earlier ones.
  /// The result is the names and the final dependency set.
  function CommonUses(items: seq<Item>, i: nat, deps: set<string>, parents: seq<string>, crateName: string,
                      cfgTest: bool, env: map<string, string>, acc: map<string, UsePath>)
    : Result<(map<string, UsePath>, set<string>)>
    requires i <= |items|
    decreases |items| - i
  {
    if i == |items| then Ok((acc, deps))
    else
      var on :- Enabled(items[i], cfgTest, env);
      if !on then CommonUses(items, i + 1, deps, parents, crateName, cfgTest, env, acc)
      else
        var deps' := if items[i].kind.ExternCrateItem? then deps + {items[i].kind.name} else deps;
        if items[i].kind.UseDecl? then
          var m :- UseEntries(items[i].kind.decl, deps', parents, crateName);
          CommonUses(items, i + 1, deps', parents, crateName, cfgTest, env, acc + m)
        else CommonUses(items, i + 1, deps', parents, crateName, cfgTest, env, acc)
  }

  /// `get_uses` of common/src/manifest_parser.rs as a value.
  function CommonUsesOf(items: seq<Item>, prodDeps: seq<string>, testDeps: seq<string>, parents: seq<string>,
                        crateName: string, cfgTest: bool, env: map<string, string>): Result<map<string, UsePath>>
  {
    var direct := if cfgTest then testDeps else prodDeps;
    var deps := (set d | d in direct) + {"std", "core"};
    var (uses, finalDeps) :- CommonUses(items, 0, deps, parents, crateName, cfgTest, env, map[]);
    Ok(WithDefaults(uses, finalDeps))
  }

  /// One step of the loop of `CommonGetUses`.
  lemma CommonUsesStep(items: seq<Item>, i: nat, next: nat, deps: set<string>, parents: seq<string>, crateName: string,
                       cfgTest: bool, env: map<string, string>, acc: map<string, UsePath>)
    requires i < |items| && next == i + 1
    ensures Enabled(items[i], cfgTest, env).Err? ==>
              CommonUses(items, i, deps, parents, crateName, cfgTest, env, acc) == Err(Enabled(items[i], cfgTest, env).msg)
    ensures Enabled(items[i], cfgTest, env) == Ok(false) ==>
              CommonUses(items, i, deps, parents, crateName, cfgTest, env, acc)
              == CommonUses(items, next, deps, parents, crateName, cfgTest, env, acc)
  {
  }

  /// `get_uses` of common/src/manifest_parser.rs.
  method CommonGetUses(items: seq<Item>, prodDeps: seq<string>, testDeps: seq<string>, parents: seq<string>,
                       crateName: string, cfgTest: bool, env: map<string, string>)
    returns (r: Result<map<string, UsePath>>)
    ensures r == CommonUsesOf(items, prodDeps, testDeps, parents, crateName, cfgTest, env)
  {
    var deps: set<string> := {};
    var direct := if cfgTest then testDeps else prodDeps;
    var j := 0;
    while j < |direct|
      invariant j <= |direct|
      invariant deps == set d | d in direct[..j]
    {
      assert direct[..j + 1] == direct[..j] + [direct[j]];
      deps := deps + {direct[j]};
      j := j + 1;
    }
    assert direct[..j] == direct;
    deps := deps + {"std", "core"};
    ghost var deps0 := deps;
    var result: map<string, UsePath> := map[];
    var i := 0;
    while i < |items|
      invariant i <= |items|
      invariant CommonUses(items, i, deps, parents, crateName, cfgTest, env, result)
             == CommonUses(items, 0, deps0, parents, crateName, cfgTest, env, map[])
    {
      var next: nat := i + 1;
      CommonUsesStep(items, i, next, deps, parents, crateName, cfgTest, env, result);
      var on := Enabled(items[i], cfgTest, env);
      if on.Err? {
        return Err(on.msg);
      }
      if !on.value {
        i := next;
        continue;
      }
      if items[i].kind.ExternCrateItem? {
        deps := deps + {items[i].kind.name};
      }
      if items[i].kind.UseDecl? {
        var m := ProcessUse(items[i].kind.decl, deps, parents, crateName);
        if m.Err? {
          return Err(m.msg);
        }
        result := result + m.value;
      }
      i := next;
    }
    var all := AddDefaults(result, deps);
    return Ok(all);
  }

  /// Every dependency crate, `std` and `core` resolve after `get_uses`: to
  /// the last import under their name if there is one, else to themselves.
  lemma CommonUsesDefaults(items: seq<Item>, prodDeps: seq<string>, testDeps: seq<string>, parents: seq<string>,
                           crateName: string, cfgTest: bool, env: map<string, string>)
    requires CommonUsesOf(items, prodDeps, testDeps, parents, crateName, cfgTest, env).Ok?
    ensures var uses := CommonUsesOf(items, prodDeps, testDeps, parents, crateName, cfgTest, env).value;
            && "std" in uses && "core" in uses
            && forall d :: d in (if cfgTest then testDeps else prodDeps) ==> d in uses
  {
    var direct := if cfgTest then testDeps else prodDeps;
    var deps := (set d | d in direct) + {"std", "core"};
    CommonUsesGrowsDeps(items, 0, deps, parents, crateName, cfgTest, env, map[]);
  }

  lemma {:induction false} CommonUsesGrowsDeps(items: seq<Item>, i: nat, deps: set<string>, parents: seq<string>,
                                               crateName: string, cfgTest: bool, env: map<string, string>,
                                               acc: map<string, UsePath>)
    requires i <= |items|
    requires CommonUses(items, i, deps, parents, crateName, cfgTest, env, acc).Ok?
    ensures deps <= CommonUses(items, i, deps, parents, crateName, cfgTest, env, acc).value.1
    ensures acc.Keys <= CommonUses(items, i, deps, parents, crateName, cfgTest, env, acc).value.0.Keys
    decreases |items| - i
  {
    if i < |items| {
      var next: nat := i + 1;
      var on := Enabled(items[i], cfgTest, env).value;
      var deps' := if items[i].kind.ExternCrateItem? then deps + {items[i].kind.name} else deps;
      if !on {
        CommonUsesGrowsDeps(items, next, deps, parents, crateName, cfgTest, env, acc);
      } else if items[i].kind.UseDecl? {
        var m := UseEntries(items[i].kind.decl, deps', parents, crateName).value;
        CommonUsesGrowsDeps(items, next, deps', parents, crateName, cfgTest, env, acc + m);
      } else {
        CommonUsesGrowsDeps(items, next, deps', parents, crateName, cfgTest, env, acc);
      }
    }
  }

  /// The use declarations of `items[i..]` in src/manifest_parser.rs: every
  /// `use` adds its names over the earlier ones; `#[cfg]` and `extern
  /// crate` play no part.
  function SrcUses(items: seq<Item>, i: nat, deps: set<string>, parents: seq<string>, crateName: string,
                   acc: map<string, UsePath>): Result<map<string, UsePath>>
    requires i <= |items|
    decreases |items| - i
  {
    if i == |items| then Ok(acc)
    else if items[i].kind.UseDecl? then
      var m :- UseEntries(items[i].kind.decl, deps, parents, crateName);
      SrcUses(items, i + 1, deps, parents, crateName, acc + m)
    else SrcUses(items, i + 1, deps, parents, crateName, acc)
  }

  /// `get_uses` of src/manifest_parser.rs as a value.
  function SrcUsesOf(items: seq<Item>, directDeps: seq<string>, parents: seq<string>, crateName: string)
    : Result<map<string, UsePath>>
  {
    var deps := (set d | d in directDeps) + {"std", "core"};
    var uses :- SrcUses(items, 0, deps, parents, crateName, map[]);
    Ok(WithDefaults(uses, deps))
  }

  /// `get_uses` of src/manifest_parser.rs.
  method SrcGetUses(items: seq<Item>, directDeps: seq<string>, parents: seq<string>, crateName: string)
    returns (r: Result<map<string, UsePath>>)
    ensures r == SrcUsesOf(items, directDeps, parents, crateName)
  {
    var deps: set<string> := {};
    var j := 0;
    while j < |directDeps|
      invariant j <= |directDeps|
      invariant deps == set d | d in directDeps[..j]
    {
      assert directDeps[..j + 1] == directDeps[..j] + [directDeps[j]];
      deps := deps + {directDeps[j]};
      j := j + 1;
    }
    assert directDeps[..j] == directDeps;
    deps := deps + {"std", "core"};
    var result: map<string, UsePath> := map[];
    var i := 0;
    while i < |items|
      invariant i <= |items|
      invariant SrcUses(items, i, deps, parents, crateName, result) == SrcUses(items, 0, deps, parents, crateName, map[])
    {
      if items[i].kind.UseDecl? {
        var m := ProcessUse(items[i].kind.decl, deps, parents, crateName);
        if m.Err? {
          return Err(m.msg);
        }
        result := result + m.value;
      }
      i := i + 1;
    }
    var all := AddDefaults(result, deps);
    return Ok(all);
  }

  /// With no `#[cfg]` and no `extern crate`, the two `get_uses` agree.
  lemma {:induction false} UsesAgree(items: seq<Item>, i: nat, deps: set<string>, parents: seq<string>,
                                     crateName: string, cfgTest: bool, env: map<string, string>,
                                     acc: map<string, UsePath>)
    requires i <= |items|
    requires forall j :: 0 <= j < |items| ==> items[j].cfg.None? && !items[j].kind.ExternCrateItem?
    ensures CommonUses(items, i, deps, parents, crateName, cfgTest, env, acc).Ok?
            == SrcUses(items, i, deps, parents, crateName, acc).Ok?
    ensures SrcUses(items, i, deps, parents, crateName, acc).Ok? ==>
              CommonUses(items, i, deps, parents, crateName, cfgTest, env, acc).value
              == (SrcUses(items, i, deps, parents, crateName, acc).value, deps)
    decreases |items| - i
  {
    if i < |items| {
      var next: nat := i + 1;
      if items[i].kind.UseDecl? {
        var m := UseEntries(items[i].kind.decl, deps, parents, crateName);
        if m.Ok? {
          UsesAgree(items, next, deps, parents, crateName, cfgTest, env, acc + m.value);
        }
      } else {
        UsesAgree(items, next, deps, parents, crateName, cfgTest, env, acc);
      }
    }
  }

  // ---------------------------------------------------------------------------
  // The `#[cfg]` filter of `parse_mods`

  /// The items of `items[i..]` that `parse_mods` of
  /// common/src/manifest_parser.rs goes on to read (nested modules and
  /// attributes): an item whose `#[cfg]` is false for the test flag is
  /// skipped, and a malformed or panicking predicate stops the walk with
  /// its error.
  function CompiledItems(items: seq<Item>, i: nat, cfgTest: bool, env: map<string, string>): (r: Result<seq<Item>>)
    requires i <= |items|
    ensures r.Ok? ==> |r.value| <= |items| - i
    decreases |items| - i
  {
    if i == |items| then Ok([])
    else
      var on :- Enabled(items[i], cfgTest, env);
      var rest :- CompiledItems(items, i + 1, cfgTest, env);
      Ok(if on then [items[i]] + rest else rest)
  }

  /// The walk fails exactly when some item's predicate is malformed or its
  /// evaluation panics, and an item is read exactly when it is compiled for
  /// the test flag.
  lemma {:induction false} CompiledItemsMembers(items: seq<Item>, i: nat, cfgTest: bool, env: map<string, string>,
                                                x: Item)
    requires i <= |items|
    ensures CompiledItems(items, i, cfgTest, env).Ok? <==>
              forall j :: i <= j < |items| ==> Enabled(items[j], cfgTest, env).Ok?
    ensures CompiledItems(items, i, cfgTest, env).Ok? ==>
              (x in CompiledItems(items, i, cfgTest, env).value <==>
                 exists j :: i <= j < |items| && items[j] == x && Enabled(items[j], cfgTest, env) == Ok(true))
    decreases |items| - i
  {
    if i < |items| {
      CompiledItemsMembers(items, i + 1, cfgTest, env, x);
    }
  }

  /// An item under `#[cfg(key = "value")]` whose variable cargo did not set
  /// (a `feature` in a crate built without features) stops the walk with
  /// the panic of the unset variable.
  lemma UnsetVariableStopsWalk(identifier: string, value: string, kind: ItemKind, cfgTest: bool,
                               env: map<string, string>)
    requires identifier != "test" && identifier != "all" && identifier != "any" && identifier != "not"
    requires Cfg.EnvName(identifier) !in env
    ensures var item := Item(Some(Cfg.RawCfg(identifier, Cfg.Eq(Cfg.StrLit(value)))), kind);
            CompiledItems([item], 0, cfgTest, env) == Err(Cfg.NotPresentPanic)
  {
    Cfg.UnsetVariablePanicsFor(identifier, value, cfgTest, env);
  }

  /// `get_uses` and `parse_mods` skip the same items: collecting the uses
  /// of the compiled items alone gives the same result.
  lemma {:induction false} CommonUsesOfCompiled(items: seq<Item>, i: nat, deps: set<string>, parents: seq<string>,
                                                crateName: string, cfgTest: bool, env: map<string, string>,
                                                acc: map<string, UsePath>)
    requires i <= |items|
    requires CompiledItems(items, i, cfgTest, env).Ok?
    ensures CommonUses(items, i, deps, parents, crateName, cfgTest, env, acc)
            == CommonUses(CompiledItems(items, i, cfgTest, env).value, 0, deps, parents, crateName, cfgTest, env, acc)
    decreases |items| - i
  {
    if i < |items| {
      var next: nat := i + 1;
      var rest := CompiledItems(items, next, cfgTest, env).value;
      var on := Enabled(items[i], cfgTest, env).value;
      if !on {
        CommonUsesOfCompiled(items, next, deps, parents, crateName, cfgTest, env, acc);
      } else {
        var deps' := if items[i].kind.ExternCrateItem? then deps + {items[i].kind.name} else deps;
        var c := [items[i]] + rest;
        assert CompiledItems(items, i, cfgTest, env).value == c;
        assert c[0] == items[i];
        if items[i].kind.UseDecl? {
          var m := UseEntries(items[i].kind.decl, deps', parents, crateName);
          if m.Ok? {
            CommonUsesOfCompiled(items, next, deps', parents, crateName, cfgTest, env, acc + m.value);
            CommonUsesShift(items[i], rest, 0, deps', parents, crateName, cfgTest, env, acc + m.value);
          }
        } else {
          CommonUsesOfCompiled(items, next, deps', parents, crateName, cfgTest, env, acc);
          CommonUsesShift(items[i], rest, 0, deps', parents, crateName, cfgTest, env, acc);
        }
      }
    }
  }

  /// Collecting from position `k + 1` of `[x] + rest` is collecting from
  /// position `k` of `rest`.
  lemma {:induction false} CommonUsesShift(x: Item, rest: seq<Item>, k: nat, deps: set<string>, parents: seq<string>,
                                           crateName: string, cfgTest: bool, env: map<string, string>,
                                           acc: map<string, UsePath>)
    requires k <= |rest|
    ensures CommonUses([x] + rest, k + 1, deps, parents, crateName, cfgTest, env, acc)
            == CommonUses(rest, k, deps, parents, crateName, cfgTest, env, acc)
    decreases |rest| - k
  {
    var c := [x] + rest;
    if k < |rest| {
      assert c[k + 1] == rest[k];
      var deps' := if rest[k].kind.ExternCrateItem? then deps + {rest[k].kind.name} else deps;
      CommonUsesShift(x, rest, k + 1, deps, parents, crateName, cfgTest, env, acc);
      CommonUsesShift(x, rest, k + 1, deps', parents, crateName, cfgTest, env, acc);
      if rest[k].kind.UseDecl? {
        var m := UseEntries(rest[k].kind.decl, deps', parents, crateName);
        if m.Ok? {
          CommonUsesShift(x, rest, k + 1, deps', parents, crateName, cfgTest, env, acc + m.value);
        }
      }
    }
  }

  // ---------------------------------------------------------------------------
  // Mod

  /// The name of a file's top module.
  const SrcName := "(src)"

  /// `Mod`: a module of the crate being parsed, with its enclosing modules
  /// and the names its `use` declarations import.
  datatype Mod = Mod(crateName: string, name: string, parents: seq<string>, uses: map<string, UsePath>)

  /// A file's top module has no parents (`parse_manifest` starts it with
  /// none, and every nested module carries its own name).
  predicate WellFormedMod(m: Mod)
  {
    m.name == SrcName ==> m.parents == []
  }

  /// The module path of `m`: its parents, then its own name unless it is a
  /// file's top module.
  function ModSegments(m: Mod): seq<string>
  {
    m.parents + (if m.name != SrcName then [m.name] else [])
  }

  /// `Mod::resolve_declare_path`: where an item declared in `m` lives.
  function ResolveDeclarePath(m: Mod, identifier: string): (r: Result<string>)
    ensures r.Ok?
  {
    var p := if |m.parents| > 0 then Join(m.parents, "::") + "::" else "";
    var n := if m.name != SrcName then m.name + "::" else "";
    Ok(p + n + identifier)
  }

  /// The declared path is the module path followed by the identifier.
  lemma DeclarePathIsModulePath(m: Mod, identifier: string)
    ensures ResolveDeclarePath(m, identifier) == Ok(Join(ModSegments(m) + [identifier], "::"))
  {
    if |m.parents| > 0 {
      if m.name != SrcName {
        JoinSnoc(m.parents, m.name, "::");
        JoinSnoc(m.parents + [m.name], identifier, "::");
        assert ModSegments(m) == m.parents + [m.name];
        var j := Join(m.parents, "::");
        assert j + "::" + (m.name + "::") + identifier == j + "::" + m.name + "::" + identifier;
      } else {
        assert ModSegments(m) == m.parents;
        JoinSnoc(m.parents, identifier, "::");
        var j := Join(m.parents, "::");
        assert j + "::" + "" + identifier == j + "::" + identifier;
      }
    } else if m.name != SrcName {
      assert ModSegments(m) + [identifier] == [m.name, identifier];
      assert [m.name, identifier][1..] == [identifier];
      assert Join([m.name, identifier], "::") == m.name + "::" + identifier;
      assert "" + (m.name + "::") + identifier == m.name + "::" + identifier;
    } else {
      assert ModSegments(m) + [identifier] == [identifier];
      assert "" + "" + identifier == identifier;
    }
  }

  /// `Mod::resolve_path`: an imported name resolves to its import; any
  /// other name is assumed to be declared in `m` itself.
  function ResolvePath(m: Mod, identifier: string): (r: Option<TypeData>)
    ensures r.Some?
  {
    if identifier in m.uses then
      var u := m.uses[identifier];
      Some(NewType().(fieldCrate := u.crateName, path := u.path, root := u.root))
    else
      var tail := if m.name != SrcName then (if |m.parents| > 0 then "::" else "") + m.name + "::" else "";
      Some(NewType().(fieldCrate := m.crateName, root := Crate, path := Join(m.parents, "::") + tail + identifier))
  }

  /// A name with no import resolves to the CRATE path it would have if it
  /// were declared in `m`; an imported one to its import.
  lemma ResolveLocalIsDeclarePath(m: Mod, identifier: string)
    requires WellFormedMod(m)
    ensures identifier !in m.uses ==>
              ResolvePath(m, identifier).value
              == NewType().(fieldCrate := m.crateName, root := Crate, path := ResolveDeclarePath(m, identifier).value)
    ensures identifier in m.uses ==>
              var t := ResolvePath(m, identifier).value;
              t.path == m.uses[identifier].path && t.root == m.uses[identifier].root
              && t.fieldCrate == m.uses[identifier].crateName
  {
  }
}
