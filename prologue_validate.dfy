// The ordering rules `lockjaw::prologue!()` checks on a source file
// (`validate_prologue` of processor/src/prologue.rs): every lockjaw attribute
// comes after the prologue and before the epilogue, and no `mod x;` file
// module sits between the two. The local names of lockjaw's macros come from
// the file's `use` declarations (`local_path`), and an attribute's path is
// read from its text by the pattern `#\[(?P<path>[\w\d:_]+).*]`.
module PrologueValidate {
  import opened Outcomes
  import opened Types
  import opened Strs
  import opened UsePaths
  import PrologueUse
  import opened PrologueMods

  // ---------------------------------------------------------------------------
  // local_path

  /// One entry of a use map imports `path`.
  predicate Imports(uses: map<string, UsePath>, k: string, path: string)
  {
    k in uses && uses[k].path == path
  }

  /// The name the lockjaw crate goes by, after visiting the names of
  /// `order` (the map's names in the order its iteration yields them) with
  /// `acc` chosen so far: the last name importing `cratePath`.
  function CrateAlias(uses: map<string, UsePath>, order: seq<string>, cratePath: string, acc: string): string
    decreases |order|
  {
    if |order| == 0 then acc
    else CrateAlias(uses, order[1..], cratePath, if Imports(uses, order[0], cratePath) then order[0] else acc)
  }

  /// With no name importing the crate, its name stays `acc`; with one, it is
  /// such a name.
  lemma {:induction false} CrateAliasMeaning(uses: map<string, UsePath>, order: seq<string>, cratePath: string,
                                             acc: string)
    ensures (forall j :: 0 <= j < |order| ==> !Imports(uses, order[j], cratePath)) ==>
              CrateAlias(uses, order, cratePath, acc) == acc
    ensures (exists j :: 0 <= j < |order| && Imports(uses, order[j], cratePath)) ==>
              var r := CrateAlias(uses, order, cratePath, acc);
              Imports(uses, r, cratePath) && r in order
    decreases |order|
  {
    if |order| > 0 {
      var next := if Imports(uses, order[0], cratePath) then order[0] else acc;
      CrateAliasMeaning(uses, order[1..], cratePath, next);
      if exists j :: 0 <= j < |order| && Imports(uses, order[j], cratePath) {
        if !Imports(uses, order[0], cratePath) {
          var j :| 0 <= j < |order| && Imports(uses, order[j], cratePath);
          assert order[1..][j - 1] == order[j];
        }
      } else {
        assert forall j :: 0 <= j < |order| - 1 ==> order[1..][j] == order[j + 1];
      }
    }
  }

  /// `local_path`: the names under which `item` of lockjaw can be written in
  /// the file: every name importing the item itself, the item's own name, and
  /// the item under the name the crate goes by. The imports are compared
  /// with `prefix` + `lockjaw::item` and `prefix` + `lockjaw`.
  function LocalPathOf(uses: map<string, UsePath>, order: seq<string>, item: string, prefix: string): set<string>
  {
    var full := prefix + "lockjaw" + "::" + item;
    (set k | k in order && Imports(uses, k, full))
    + {item, CrateAlias(uses, order, prefix + "lockjaw", "lockjaw") + "::" + item}
  }

  /// `local_path`, one visit per name of the map.
  method LocalPath(uses: map<string, UsePath>, order: seq<string>, item: string, prefix: string)
    returns (r: set<string>)
    ensures r == LocalPathOf(uses, order, item, prefix)
  {
    var full := prefix + "lockjaw" + "::" + item;
    var cratePath := prefix + "lockjaw";
    var name := "lockjaw";
    r := {};
    var i := 0;
    while i < |order|
      invariant i <= |order|
      invariant r == set k | k in order[..i] && Imports(uses, k, full)
      invariant CrateAlias(uses, order[i..], cratePath, name) == CrateAlias(uses, order, cratePath, "lockjaw")
    {
      var k := order[i];
      assert order[..i + 1] == order[..i] + [k];
      assert order[i..][1..] == order[i + 1..];
      if k in uses {
        if uses[k].path == full {
          r := r + {k};
        } else if uses[k].path == cratePath {
          name := k;
        }
      }
      i := i + 1;
    }
    assert order[..i] == order;
    r := r + {item, name + "::" + item};
  }

  /// As written (`prefix` `::`), an entry is compared with `::lockjaw::item`
  /// and `::lockjaw`; no path the prologue's `process_use` or its defaults
  /// produce starts with `:`, so no import is ever recognised.
  lemma LocalPathIgnoresImports(uses: map<string, UsePath>, order: seq<string>, item: string)
    requires forall k :: k in uses ==> !StartsWith(uses[k].path, ":")
    ensures LocalPathOf(uses, order, item, "::") == {item, "lockjaw" + "::" + item}
  {
    var full := "::" + "lockjaw" + "::" + item;
    assert full[..1] == ":";
    assert "::" + "lockjaw" == "::lockjaw";
    assert (set k | k in order && Imports(uses, k, full)) == {};
    CrateAliasMeaning(uses, order, "::lockjaw", "lockjaw");
    assert CrateAlias(uses, order, "::lockjaw", "lockjaw") == "lockjaw";
  }

  /// `use dep::item as name;` imports `name` at `dep::item`.
  lemma RenameImport(dep: string, item: string, name: string, deps: set<string>, basePath: string,
                     parents: seq<string>, crateName: string)
    requires dep in deps && PrologueUse.Word(dep) && PrologueUse.Word(item) && PrologueUse.Word(name)
    requires item != "self"
    ensures PrologueUse.ProcessUseText(dep + "::" + item + PrologueUse.AsSeparator + name, deps, basePath,
                                            parents, crateName)
            == Ok(map[name := UsePath(dep, dep + "::" + item, Global)])
  {
    var segments := [dep];
    assert PrologueUse.SegmentText(segments) == dep + "::" by {
      assert segments[1..] == [];
    }
    assert dep + "::" + item + PrologueUse.AsSeparator + name
        == PrologueUse.SegmentText(segments) + (item + PrologueUse.AsSeparator + name);
    PrologueUse.GlobalRenameText(segments, item, name, deps, basePath, parents, crateName);
    assert segments + [item] == [dep] + [item];
    JoinCons(dep, [item], "::");
    JoinSingleton(item, "::");
  }

  /// As written, the name of a renamed import is not among the local
  /// paths of the item it imports.
  lemma AsWrittenMissesRename(dep: string, item: string, name: string)
    requires PrologueUse.Word(dep) && PrologueUse.Word(name) && name != item
    ensures name !in LocalPathOf(map[name := UsePath(dep, dep + "::" + item, Global)], [name], item, "::")
  {
    var uses := map[name := UsePath(dep, dep + "::" + item, Global)];
    assert !StartsWith(uses[name].path, ":") by {
      assert uses[name].path[0] == dep[0];
    }
    LocalPathIgnoresImports(uses, [name], item);
    var full := "lockjaw" + "::" + item;
    assert full[7] == ':';
    assert name != full by {
      if |name| > 7 {
        assert PrologueUse.IsWordChar(name[7]);
      }
    }
  }

  lemma LockjawIsWord()
    ensures PrologueUse.Word("lockjaw")
  {
    var lj := ['l', 'o', 'c', 'k', 'j', 'a', 'w'];
    assert "lockjaw" == lj;
    forall i | 0 <= i < |lj|
      ensures PrologueUse.IsWordChar(lj[i])
    {
    }
  }

  /// So as written a renamed import of an item (`use lockjaw::prologue as
  /// p;` and then `p!()`) is never taken for that item, while the corrected
  /// comparison takes it.
  lemma RenamedImportMissed(item: string, name: string, deps: set<string>, basePath: string, parents: seq<string>,
                            crateName: string)
    requires "lockjaw" in deps && PrologueUse.Word(item) && PrologueUse.Word(name) && item != "self"
    requires name != item
    ensures var r := PrologueUse.ProcessUseText("lockjaw" + "::" + item + PrologueUse.AsSeparator + name,
                                                     deps, basePath, parents, crateName);
            && r.Ok?
            && var uses := r.value;
            && name !in LocalPathOf(uses, [name], item, "::")
            && name in LocalPathOf(uses, [name], item, "")
  {
    var lj := "lockjaw";
    LockjawIsWord();
    RenameImport(lj, item, name, deps, basePath, parents, crateName);
    AsWrittenMissesRename(lj, item, name);
    var uses := map[name := UsePath(lj, lj + "::" + item, Global)];
    LocalPathFindsImports(uses, [name], item, name);
  }

  /// Corrected (`prefix` empty), every name importing the item, and the
  /// item under every name importing the crate that the iteration ends on,
  /// is recognised.
  lemma LocalPathFindsImports(uses: map<string, UsePath>, order: seq<string>, item: string, k: string)
    requires k in order && Imports(uses, k, "lockjaw" + "::" + item)
    ensures k in LocalPathOf(uses, order, item, "")
    ensures item in LocalPathOf(uses, order, item, "")
  {
    assert "" + "lockjaw" == "lockjaw";
  }

  // ---------------------------------------------------------------------------
  // Attribute paths

  /// One character of `[\w\d:_]`.
  predicate PathChar(c: char)
  {
    PrologueUse.IsWordChar(c) || c == ':'
  }

  predicate PathChars(s: string)
  {
    forall i :: 0 <= i < |s| ==> PathChar(s[i])
  }

  /// The longest prefix of path characters.
  function PathRun(s: string): (r: string)
    ensures r <= s && PathChars(r)
    ensures |r| < |s| ==> !PathChar(s[|r|])
  {
    if |s| > 0 && PathChar(s[0]) then [s[0]] + PathRun(s[1..]) else ""
  }

  /// `.*]` without the `s` flag: a `]` comes before the end of the line.
  predicate CloseOnLine(s: string)
    decreases |s|
  {
    |s| > 0 && (s[0] == ']' || (s[0] != '\n' && CloseOnLine(s[1..])))
  }

  /// The `path` capture of the attribute pattern as written: the first `#[`
  /// followed by path characters and, on the same line, a `]`.
  function AttrPath(text: string): (r: Option<string>)
    ensures r.Some? ==> |r.value| > 0 && PathChars(r.value)
    decreases |text|
  {
    if |text| < 2 then None
    else
      var run := PathRun(text[2..]);
      if text[0] == '#' && text[1] == '[' && |run| > 0 && CloseOnLine(text[2 + |run|..]) then Some(run)
      else AttrPath(text[1..])
  }

  /// The capture the pattern is meant to give: `.` also matching a line
  /// break, so the `]` may come on a later line.
  function AttrPathFixed(text: string): (r: Option<string>)
    ensures r.Some? ==> |r.value| > 0 && PathChars(r.value)
    decreases |text|
  {
    if |text| < 2 then None
    else
      var run := PathRun(text[2..]);
      if text[0] == '#' && text[1] == '[' && |run| > 0 && ']' in text[2 + |run|..] then Some(run)
      else AttrPathFixed(text[1..])
  }

  /// A path followed by a character that cannot continue it is the run.
  lemma {:induction false} PathRunOf(name: string, tail: string)
    requires PathChars(name) && (tail == "" || !PathChar(tail[0]))
    ensures PathRun(name + tail) == name
    decreases |name|
  {
    if |name| > 0 {
      assert (name + tail)[1..] == name[1..] + tail;
      PathRunOf(name[1..], tail);
      assert [name[0]] + name[1..] == name;
    } else {
      assert name + tail == tail;
    }
  }

  /// `#[name` followed by a `]` anywhere is attribute `name`, corrected.
  lemma AttrPathFixedOf(name: string, tail: string)
    requires |name| > 0 && PathChars(name) && |tail| > 0 && !PathChar(tail[0]) && ']' in tail
    ensures AttrPathFixed("#[" + name + tail) == Some(name)
  {
    var text := "#[" + name + tail;
    assert text[2..] == name + tail;
    PathRunOf(name, tail);
    assert text[2 + |name|..] == tail;
  }

  /// A line with no `]`: `.*]` cannot match.
  lemma NoCloseOnLine(rest: string)
    ensures !CloseOnLine("(\n" + rest)
  {
    var s := "(\n" + rest;
    assert s[1..] == "\n" + rest;
  }

  /// No `#` in the text: no capture at all.
  lemma {:induction false} NoHashNoPath(s: string)
    requires forall i :: 0 <= i < |s| ==> s[i] != '#'
    ensures AttrPath(s) == None
    decreases |s|
  {
    if |s| >= 2 {
      NoHashNoPath(s[1..]);
    }
  }

  /// An attribute whose argument list breaks the line before its `]`
  /// (`#[name(` then a line break) has no capture as written, and
  /// `.unwrap()` panics; corrected it is attribute `name`.
  lemma MultiLineAttribute(name: string, rest: string)
    requires |name| > 0 && PathChars(name)
    requires forall i :: 0 <= i < |rest| ==> rest[i] != '#'
    ensures AttrPath("#[" + name + "(\n" + rest) == None
    ensures ']' in rest ==> AttrPathFixed("#[" + name + "(\n" + rest) == Some(name)
  {
    var tail := "(\n" + rest;
    var text := "#[" + name + tail;
    assert text == "#[" + name + "(\n" + rest;
    assert text[2..] == name + tail;
    PathRunOf(name, tail);
    assert text[2 + |name|..] == tail;
    NoCloseOnLine(rest);
    forall i | 0 <= i < |text[1..]|
      ensures text[1..][i] != '#'
    {
      if i == 0 {
      } else if i <= |name| {
        assert text[1..][i] == name[i - 1];
      } else if i <= |name| + 2 {
        assert text[1..][i] == tail[i - 1 - |name|];
      } else {
        assert text[1..][i] == rest[i - 3 - |name|];
      }
    }
    NoHashNoPath(text[1..]);
    if ']' in rest {
      var k :| 0 <= k < |rest| && rest[k] == ']';
      assert tail[k + 2] == ']';
      AttrPathFixedOf(name, tail);
    }
  }

  /// On an attribute that closes on its own line both agree.
  lemma AttrPathOneLine(name: string, tail: string)
    requires |name| > 0 && PathChars(name) && |tail| > 0 && !PathChar(tail[0]) && CloseOnLine(tail)
    ensures AttrPath("#[" + name + tail) == Some(name)
  {
    var text := "#[" + name + tail;
    assert text[2..] == name + tail;
    PathRunOf(name, tail);
    assert text[2 + |name|..] == tail;
  }

  // ---------------------------------------------------------------------------
  // validate_prologue

  /// The local names of lockjaw's macros: the prologue, the attribute macros
  /// (`injectable`, `component`, `module`, `qualifier`) and the epilogue.
  datatype Names = Names(prologue: set<string>, macros: set<string>, epilogue: set<string>)

  /// The names, compared as written with `::lockjaw::<item>`.
  function NamesOf(uses: map<string, UsePath>, order: seq<string>): Names
  {
    Names(LocalPathOf(uses, order, "prologue", "::"),
          LocalPathOf(uses, order, "injectable", "::") + LocalPathOf(uses, order, "component", "::")
          + LocalPathOf(uses, order, "module", "::") + LocalPathOf(uses, order, "qualifier", "::"),
          LocalPathOf(uses, order, "epilogue", "::"))
  }

  /// The state of the walk over the file's items: `byte_offset` (found once
  /// a prologue call is seen) and `epilogue_found`.
  datatype Scan = Scan(offset: Option<nat>, epilogueFound: bool)

  const SubtractPanic := "panic: attempt to subtract with overflow"

  /// The offset a prologue call sets, over `acc`: for each token tree, the
  /// input's start less the tree's start; the subtraction of a tree that
  /// starts after the input overflows.
  function TreeOffset(inputStart: nat, trees: seq<nat>, acc: Option<nat>): Result<Option<nat>>
    decreases |trees|
  {
    if |trees| == 0 then Ok(acc)
    else if inputStart < trees[0] then Err(SubtractPanic)
    else TreeOffset(inputStart, trees[1..], Some(inputStart - trees[0]))
  }

  /// The offset is the one of the last token tree, and it fails exactly
  /// when some tree starts after the input.
  lemma {:induction false} TreeOffsetMeaning(inputStart: nat, trees: seq<nat>, acc: Option<nat>)
    ensures TreeOffset(inputStart, trees, acc).Err? <==> exists j :: 0 <= j < |trees| && inputStart < trees[j]
    ensures TreeOffset(inputStart, trees, acc).Ok? ==>
              TreeOffset(inputStart, trees, acc).value
              == if |trees| == 0 then acc else Some(inputStart - trees[|trees| - 1])
    decreases |trees|
  {
    if |trees| > 0 && inputStart >= trees[0] {
      TreeOffsetMeaning(inputStart, trees[1..], Some(inputStart - trees[0]));
      assert forall j :: 1 <= j < |trees| ==> trees[1..][j - 1] == trees[j];
    }
  }

  /// The loop over a prologue call's children.
  method CallOffset(inputStart: nat, trees: seq<nat>, acc: Option<nat>) returns (r: Result<Option<nat>>)
    ensures r == TreeOffset(inputStart, trees, acc)
  {
    var offset := acc;
    var i := 0;
    while i < |trees|
      invariant i <= |trees|
      invariant TreeOffset(inputStart, trees[i..], offset) == TreeOffset(inputStart, trees, acc)
    {
      assert trees[i..][1..] == trees[i + 1..];
      if inputStart < trees[i] {
        return Err(SubtractPanic);
      }
      offset := Some(inputStart - trees[i]);
      i := i + 1;
    }
    return Ok(offset);
  }

  /// The macro calls of an expression statement from `calls[i]` on: a
  /// prologue call sets the offset, an epilogue call sets the flag.
  function ScanCalls(calls: seq<MacroCall>, i: nat, s: Scan, names: Names, inputStart: nat): Result<Scan>
    requires i <= |calls|
    decreases |calls| - i
  {
    if i == |calls| then Ok(s)
    else if calls[i].name in names.prologue then
      var offset :- TreeOffset(inputStart, calls[i].tokenTreeStarts, s.offset);
      ScanCalls(calls, i + 1, s.(offset := offset), names, inputStart)
    else if calls[i].name in names.epilogue then ScanCalls(calls, i + 1, s.(epilogueFound := true), names, inputStart)
    else ScanCalls(calls, i + 1, s, names, inputStart)
  }

  /// Decimal digits of a number.
  function Decimal(n: nat): string
  {
    var d := ['0', '1', '2', '3', '4', '5', '6', '7', '8', '9'][n % 10];
    if n < 10 then [d] else Decimal(n / 10) + [d]
  }

  /// ` (file:row:column)`, the row counted from one.
  function Location(srcPath: string, row: nat, column: nat): string
  {
    " (" + srcPath + ":" + Decimal(row + 1) + ":" + Decimal(column) + ")"
  }

  const BeforePrologueMsg := "lockjaw macro cannot appear before lockjaw::prologue!()"
  const AfterEpilogueMsg := "lockjaw macro cannot appear after lockjaw::epilogue!()"
  const FileModMsg := "file modules cannot appear between lockjaw::prologue!() and lockjaw::epilogue!()"
  const NoPrologueMsg := " unable to find position of lockjaw::prologue!()"

  /// One item of the file.
  function ScanNode(node: SrcNode, s: Scan, names: Names, srcPath: string, inputStart: nat): Result<Scan>
  {
    match node
    case ExpressionStatement(calls) => ScanCalls(calls, 0, s, names, inputStart)
    case AttributeItem(text, row, column) =>
      var attr := AttrPath(text);
      if attr.None? then Err(UnwrapNonePanic)
      else if attr.value in names.macros then
        if s.offset.None? then Err(BeforePrologueMsg + Location(srcPath, row, column))
        else if s.epilogueFound then Err(AfterEpilogueMsg + Location(srcPath, row, column))
        else Ok(s)
      else Ok(s)
    case ModItem(_, _, _, hasBody, _, row, column) =>
      if s.offset.Some? && !s.epilogueFound && !hasBody then Err(FileModMsg + Location(srcPath, row, column))
      else Ok(s)
    case _ => Ok(s)
  }

  /// The items of the file from `nodes[i]` on; the first error ends the walk.
  function ScanFrom(nodes: seq<SrcNode>, i: nat, s: Scan, names: Names, srcPath: string, inputStart: nat)
    : Result<Scan>
    requires i <= |nodes|
    decreases |nodes| - i
  {
    if i == |nodes| then Ok(s)
    else
      var next :- ScanNode(nodes[i], s, names, srcPath, inputStart);
      ScanFrom(nodes, i + 1, next, names, srcPath, inputStart)
  }

  /// `validate_prologue` as a value: the byte offset of the prologue call,
  /// `0` for a test without one, or the error. `order` is the order in
  /// which the file's use map yields its names.
  function Validate(nodes: seq<SrcNode>, srcPath: string, basePath: string, inputStart: nat, forTest: bool,
                    crateDeps: set<string>, crateName: string, order: seq<string>): Result<nat>
  {
    var uses :- PrologueUsesOf(nodes, crateDeps, basePath, [], crateName);
    var s :- ScanFrom(nodes, 0, Scan(None, false), NamesOf(uses, order), srcPath, inputStart);
    if s.offset.Some? then Ok(s.offset.value)
    else if forTest then Ok(0)
    else Err(NoPrologueMsg)
  }

  // ---------------------------------------------------------------------------
  // What a successful validation means

  predicate PrologueCall(c: MacroCall, names: Names)
  {
    c.name in names.prologue && |c.tokenTreeStarts| > 0
  }

  predicate EpilogueCall(c: MacroCall, names: Names)
  {
    c.name !in names.prologue && c.name in names.epilogue
  }

  predicate HasPrologue(node: SrcNode, names: Names)
  {
    node.ExpressionStatement? && exists j :: 0 <= j < |node.calls| && PrologueCall(node.calls[j], names)
  }

  predicate HasEpilogue(node: SrcNode, names: Names)
  {
    node.ExpressionStatement? && exists j :: 0 <= j < |node.calls| && EpilogueCall(node.calls[j], names)
  }

  /// Some item before `nodes[i]` calls the prologue.
  predicate PrologueBefore(nodes: seq<SrcNode>, i: nat, names: Names)
    requires i <= |nodes|
  {
    exists j :: 0 <= j < i && HasPrologue(nodes[j], names)
  }

  /// Some item before `nodes[i]` calls the epilogue.
  predicate EpilogueBefore(nodes: seq<SrcNode>, i: nat, names: Names)
    requires i <= |nodes|
  {
    exists j :: 0 <= j < i && HasEpilogue(nodes[j], names)
  }

  /// An attribute item naming one of lockjaw's attribute macros.
  predicate LockjawAttr(node: SrcNode, names: Names)
  {
    node.AttributeItem? && AttrPath(node.text).Some? && AttrPath(node.text).value in names.macros
  }

  /// A `mod x;` declaration.
  predicate FileMod(node: SrcNode)
  {
    node.ModItem? && !node.hasBody
  }

  /// The ordering rules for one item, given whether a prologue and an
  /// epilogue came before it.
  predicate InOrderAfter(node: SrcNode, names: Names, prologue: bool, epilogue: bool)
  {
    && (LockjawAttr(node, names) ==> prologue && !epilogue)
    && (FileMod(node) ==> !prologue || epilogue)
  }

  /// The ordering rules for `nodes[i]`.
  predicate InOrder(nodes: seq<SrcNode>, i: nat, names: Names)
    requires i < |nodes|
  {
    InOrderAfter(nodes[i], names, PrologueBefore(nodes, i, names), EpilogueBefore(nodes, i, names))
  }

  /// An item that cannot panic: an attribute with a path, and prologue
  /// calls whose token trees start no later than the input.
  predicate CleanNode(node: SrcNode, names: Names, inputStart: nat)
  {
    && (node.AttributeItem? ==> AttrPath(node.text).Some?)
    && (node.ExpressionStatement? ==>
          forall j, t ::
            (0 <= j < |node.calls| && node.calls[j].name in names.prologue && 0 <= t < |node.calls[j].tokenTreeStarts|)
            ==> node.calls[j].tokenTreeStarts[t] <= inputStart)
  }

  /// The calls of one statement: they fail exactly on an overflow, and
  /// otherwise the offset is set by a prologue call with a token tree and
  /// the flag by an epilogue call.
  lemma {:induction false} ScanCallsMeaning(calls: seq<MacroCall>, i: nat, s: Scan, names: Names, inputStart: nat)
    requires i <= |calls|
    ensures ScanCalls(calls, i, s, names, inputStart).Err? <==>
              exists j, t :: i <= j < |calls| && calls[j].name in names.prologue
                             && 0 <= t < |calls[j].tokenTreeStarts| && inputStart < calls[j].tokenTreeStarts[t]
    ensures ScanCalls(calls, i, s, names, inputStart).Ok? ==>
              var r := ScanCalls(calls, i, s, names, inputStart).value;
              && (r.offset.Some? <==> s.offset.Some? || exists j :: i <= j < |calls| && PrologueCall(calls[j], names))
              && (r.epilogueFound <==> s.epilogueFound || exists j :: i <= j < |calls| && EpilogueCall(calls[j], names))
    decreases |calls| - i
  {
    if i < |calls| {
      var next: nat := i + 1;
      var c := calls[i];
      if c.name in names.prologue {
        TreeOffsetMeaning(inputStart, c.tokenTreeStarts, s.offset);
        var o := TreeOffset(inputStart, c.tokenTreeStarts, s.offset);
        if o.Ok? {
          ScanCallsMeaning(calls, next, s.(offset := o.value), names, inputStart);
        }
      } else if c.name in names.epilogue {
        ScanCallsMeaning(calls, next, s.(epilogueFound := true), names, inputStart);
      } else {
        ScanCallsMeaning(calls, next, s, names, inputStart);
      }
    }
  }

  /// One item: it fails when it breaks the rules or panics, and otherwise
  /// records a prologue or epilogue call it makes.
  lemma ScanNodeMeaning(node: SrcNode, s: Scan, names: Names, srcPath: string, inputStart: nat)
    ensures ScanNode(node, s, names, srcPath, inputStart).Ok? ==>
              && InOrderAfter(node, names, s.offset.Some?, s.epilogueFound)
              && var r := ScanNode(node, s, names, srcPath, inputStart).value;
              && (r.offset.Some? <==> s.offset.Some? || HasPrologue(node, names))
              && (r.epilogueFound <==> s.epilogueFound || HasEpilogue(node, names))
    ensures CleanNode(node, names, inputStart) && InOrderAfter(node, names, s.offset.Some?, s.epilogueFound) ==>
              ScanNode(node, s, names, srcPath, inputStart).Ok?
  {
    if node.ExpressionStatement? {
      ScanCallsMeaning(node.calls, 0, s, names, inputStart);
    }
  }

  /// What came before item `i + 1`.
  lemma BeforeStep(nodes: seq<SrcNode>, i: nat, names: Names)
    requires i < |nodes|
    ensures PrologueBefore(nodes, i + 1, names) <==> PrologueBefore(nodes, i, names) || HasPrologue(nodes[i], names)
    ensures EpilogueBefore(nodes, i + 1, names) <==> EpilogueBefore(nodes, i, names) || HasEpilogue(nodes[i], names)
  {
  }

  /// The walk from item `i` on, with flags that say what came before it:
  /// it succeeds only when every later item keeps the rules, and it does
  /// when they keep them and none panics; the offset it ends with is set
  /// exactly when the file calls the prologue.
  lemma {:induction false} ScanFromMeaning(nodes: seq<SrcNode>, i: nat, s: Scan, names: Names, srcPath: string,
                                           inputStart: nat)
    requires i <= |nodes|
    requires s.offset.Some? <==> PrologueBefore(nodes, i, names)
    requires s.epilogueFound <==> EpilogueBefore(nodes, i, names)
    ensures ScanFrom(nodes, i, s, names, srcPath, inputStart).Ok? ==>
              && (forall j :: i <= j < |nodes| ==> InOrder(nodes, j, names))
              && (ScanFrom(nodes, i, s, names, srcPath, inputStart).value.offset.Some?
                  <==> PrologueBefore(nodes, |nodes|, names))
    ensures (forall j :: i <= j < |nodes| ==> CleanNode(nodes[j], names, inputStart) && InOrder(nodes, j, names)) ==>
              ScanFrom(nodes, i, s, names, srcPath, inputStart).Ok?
    decreases |nodes| - i
  {
    if i < |nodes| {
      var next: nat := i + 1;
      ScanNodeMeaning(nodes[i], s, names, srcPath, inputStart);
      var r := ScanNode(nodes[i], s, names, srcPath, inputStart);
      if r.Ok? {
        BeforeStep(nodes, i, names);
        ScanFromMeaning(nodes, next, r.value, names, srcPath, inputStart);
      }
    }
  }

  /// `validate_prologue` succeeds only when every lockjaw attribute comes
  /// after a prologue call and before any epilogue call, no `mod x;` sits
  /// between the two, and (outside tests) the prologue is called; and it
  /// succeeds whenever those rules hold and nothing panics.
  lemma ValidateMeaning(nodes: seq<SrcNode>, srcPath: string, basePath: string, inputStart: nat, forTest: bool,
                        crateDeps: set<string>, crateName: string, order: seq<string>)
    requires PrologueUsesOf(nodes, crateDeps, basePath, [], crateName).Ok?
    ensures var names := NamesOf(PrologueUsesOf(nodes, crateDeps, basePath, [], crateName).value, order);
            var r := Validate(nodes, srcPath, basePath, inputStart, forTest, crateDeps, crateName, order);
            && (r.Ok? ==> (forall i :: 0 <= i < |nodes| ==> InOrder(nodes, i, names))
                          && (forTest || PrologueBefore(nodes, |nodes|, names)))
            && (((forall i :: 0 <= i < |nodes| ==> CleanNode(nodes[i], names, inputStart) && InOrder(nodes, i, names))
                 && (forTest || PrologueBefore(nodes, |nodes|, names)))
                ==> r.Ok?)
  {
    var names := NamesOf(PrologueUsesOf(nodes, crateDeps, basePath, [], crateName).value, order);
    ScanFromMeaning(nodes, 0, Scan(None, false), names, srcPath, inputStart);
  }

  lemma ScanFromStep(nodes: seq<SrcNode>, i: nat, next: nat, s: Scan, names: Names, srcPath: string, inputStart: nat)
    requires i < |nodes| && next == i + 1
    ensures var r := ScanNode(nodes[i], s, names, srcPath, inputStart);
            ScanFrom(nodes, i, s, names, srcPath, inputStart)
            == if r.Err? then Err(r.msg) else ScanFrom(nodes, next, r.value, names, srcPath, inputStart)
  {
  }

  /// A statement's calls, walked in order.
  method ScanStatement(calls: seq<MacroCall>, s: Scan, names: Names, inputStart: nat) returns (r: Result<Scan>)
    ensures r == ScanCalls(calls, 0, s, names, inputStart)
  {
    var cur := s;
    var i := 0;
    while i < |calls|
      invariant i <= |calls|
      invariant ScanCalls(calls, i, cur, names, inputStart) == ScanCalls(calls, 0, s, names, inputStart)
    {
      if calls[i].name in names.prologue {
        var offset := CallOffset(inputStart, calls[i].tokenTreeStarts, cur.offset);
        if offset.Err? {
          return Err(offset.msg);
        }
        cur := cur.(offset := offset.value);
      } else if calls[i].name in names.epilogue {
        cur := cur.(epilogueFound := true);
      }
      i := i + 1;
    }
    return Ok(cur);
  }

  /// The names of lockjaw's macros, one `local_path` each.
  method LockjawNames(uses: map<string, UsePath>, order: seq<string>) returns (names: Names)
    ensures names == NamesOf(uses, order)
  {
    var prologue := LocalPath(uses, order, "prologue", "::");
    var injectable := LocalPath(uses, order, "injectable", "::");
    var component := LocalPath(uses, order, "component", "::");
    var module_ := LocalPath(uses, order, "module", "::");
    var qualifier := LocalPath(uses, order, "qualifier", "::");
    var epilogue := LocalPath(uses, order, "epilogue", "::");
    names := Names(prologue, injectable + component + module_ + qualifier, epilogue);
  }

  /// `validate_prologue`: the walk over the file's items.
  method ValidatePrologue(nodes: seq<SrcNode>, srcPath: string, basePath: string, inputStart: nat, forTest: bool,
                          crateDeps: set<string>, crateName: string, order: seq<string>) returns (r: Result<nat>)
    ensures r == Validate(nodes, srcPath, basePath, inputStart, forTest, crateDeps, crateName, order)
  {
    var uses := GetUses(nodes, crateDeps, basePath, [], crateName);
    if uses.Err? {
      return Err(uses.msg);
    }
    var names := LockjawNames(uses.value, order);
    var s := Scan(None, false);
    var i := 0;
    while i < |nodes|
      invariant i <= |nodes|
      invariant ScanFrom(nodes, i, s, names, srcPath, inputStart) == ScanFrom(nodes, 0, Scan(None, false), names, srcPath, inputStart)
    {
      var node := nodes[i];
      var next: nat := i + 1;
      ScanFromStep(nodes, i, next, s, names, srcPath, inputStart);
      if node.ExpressionStatement? {
        var next := ScanStatement(node.calls, s, names, inputStart);
        if next.Err? {
          return Err(next.msg);
        }
        s := next.value;
      } else if node.AttributeItem? {
        var attr := AttrPath(node.text);
        if attr.None? {
          return Err(UnwrapNonePanic);
        }
        if attr.value in names.macros {
          if s.offset.None? {
            return Err(BeforePrologueMsg + Location(srcPath, node.row, node.column));
          }
          if s.epilogueFound {
            return Err(AfterEpilogueMsg + Location(srcPath, node.row, node.column));
          }
        }
      } else if node.ModItem? {
        if s.offset.Some? && !s.epilogueFound && !node.hasBody {
          return Err(FileModMsg + Location(srcPath, node.row, node.column));
        }
      }
      i := next;
    }
    if s.offset.Some? {
      return Ok(s.offset.value);
    }
    if forTest {
      return Ok(0);
    }
    return Err(NoPrologueMsg);
  }

  // ---------------------------------------------------------------------------
  // The module table a prologue builds

  /// The tail of `handle_prologue`: validate the file, then parse its
  /// modules shifted by the offset found; the file's module path is the
  /// base path.
  function PrologueSourceData(nodes: seq<SrcNode>, rootStart: nat, rootEnd: nat, srcPath: string, modPath: string,
                              inputStart: nat, forTest: bool, crateDeps: set<string>, crateName: string,
                              order: seq<string>): Result<SourceData>
  {
    var offset :- Validate(nodes, srcPath, modPath, inputStart, forTest, crateDeps, crateName, order);
    var mods :- ParseMods(SrcName, rootStart, rootEnd, nodes, [], offset, modPath, crateDeps, crateName);
    Ok(SourceData(modPath, mods))
  }

  /// After a successful prologue, the file's top module comes first and
  /// spans the file shifted by the offset, every module is well formed, and
  /// every position in the file resolves to a declare path.
  lemma PrologueSourceDataShape(nodes: seq<SrcNode>, rootStart: nat, rootEnd: nat, srcPath: string,
                                modPath: string, inputStart: nat, forTest: bool, crateDeps: set<string>,
                                crateName: string, order: seq<string>, pos: nat)
    requires NamedMods(nodes)
    requires PrologueSourceData(nodes, rootStart, rootEnd, srcPath, modPath, inputStart, forTest, crateDeps,
                                crateName, order).Ok?
    ensures var sd := PrologueSourceData(nodes, rootStart, rootEnd, srcPath, modPath, inputStart, forTest,
                                         crateDeps, crateName, order).value;
            var offset := Validate(nodes, srcPath, modPath, inputStart, forTest, crateDeps, crateName, order).value;
            && sd.basePath == modPath && |sd.mods| > 0
            && sd.mods[0].name == SrcName && sd.mods[0].parents == []
            && sd.mods[0].start == rootStart + offset && sd.mods[0].end == rootEnd + offset
            && (forall j :: 0 <= j < |sd.mods| ==> WellFormed(sd.mods[j]))
            && (rootStart + offset <= pos < rootEnd + offset ==> PrologueMods.ResolveDeclarePath(sd, "x", pos).Ok?)
  {
    var offset := Validate(nodes, srcPath, modPath, inputStart, forTest, crateDeps, crateName, order).value;
    ParseModsShape(SrcName, rootStart, rootEnd, nodes, [], offset, modPath, crateDeps, crateName);
    var sd := PrologueSourceData(nodes, rootStart, rootEnd, srcPath, modPath, inputStart, forTest, crateDeps,
                                 crateName, order).value;
    GetModIsInnermost(sd.mods, pos);
  }
}
