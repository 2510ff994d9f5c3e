// The epilogue naming shared by the `generate_manifest` functions of
// processor/src/injectables.rs, processor/src/components.rs and
// processor/src/modules.rs: an item recorded under its bare name is given
// the CRATE path `[base::][additional::]name` of the current crate once the
// file's base path is known.
module Epilogue {
  import opened Outcomes
  import opened Types
  import opened Strs

  /// The path string built by the `push_str` sequence: the base path and
  /// "::" when the base path is not empty, then the additional path and
  /// "::" when there is one, then the name.
  function EpiloguePath(basePath: string, additional: Option<string>, name: string): (r: string)
    ensures EndsWith(r, name)
    ensures basePath != "" ==> StartsWith(r, basePath + "::")
    ensures basePath == "" && additional.Some? ==> StartsWith(r, additional.value + "::")
    ensures basePath == "" && additional.None? ==> r == name
  {
    var p := if basePath != "" then basePath + "::" else "";
    var q := if additional.Some? then p + additional.value + "::" else p;
    assert (q + name)[|q|..] == name;
    assert additional.Some? ==> (p + additional.value + "::" + name)[..|p|] == p;
    assert basePath != "" ==> (q + name)[..|basePath + "::"|] == basePath + "::";
    q + name
  }

  /// The pieces present, in order.
  function Pieces(basePath: string, additional: Option<string>, name: string): seq<string>
  {
    (if basePath != "" then [basePath] else []) + (if additional.Some? then [additional.value] else []) + [name]
  }

  /// The path is the present pieces joined by "::".
  lemma EpiloguePathIsJoin(basePath: string, additional: Option<string>, name: string)
    ensures EpiloguePath(basePath, additional, name) == Join(Pieces(basePath, additional, name), "::")
  {
    var ps := Pieces(basePath, additional, name);
    if basePath != "" && additional.Some? {
      assert ps == [basePath] + [additional.value, name];
      JoinCons(basePath, [additional.value, name], "::");
      JoinCons(additional.value, [name], "::");
      assert [additional.value, name] == [additional.value] + [name];
    } else if basePath != "" {
      assert ps == [basePath] + [name];
      JoinCons(basePath, [name], "::");
    } else if additional.Some? {
      assert ps == [additional.value] + [name];
      JoinCons(additional.value, [name], "::");
    } else {
      assert ps == [name];
    }
  }

  /// What comes before the name: the base path and the additional path,
  /// each followed by "::", where present.
  function PathPrefix(basePath: string, additional: Option<string>): string
  {
    (if basePath != "" then basePath + "::" else "") + (if additional.Some? then additional.value + "::" else "")
  }

  lemma EpiloguePathSplit(basePath: string, additional: Option<string>, name: string)
    ensures EpiloguePath(basePath, additional, name) == PathPrefix(basePath, additional) + name
  {
    var p := if basePath != "" then basePath + "::" else "";
    if additional.Some? {
      assert p + additional.value + "::" + name == (p + (additional.value + "::")) + name;
    } else {
      assert p + "" == p;
    }
  }

  /// Under the same base and additional path, different names give
  /// different paths.
  lemma EpiloguePathInjective(basePath: string, additional: Option<string>, n1: string, n2: string)
    requires n1 != n2
    ensures EpiloguePath(basePath, additional, n1) != EpiloguePath(basePath, additional, n2)
  {
    EpiloguePathSplit(basePath, additional, n1);
    EpiloguePathSplit(basePath, additional, n2);
    var pre := PathPrefix(basePath, additional);
    assert (pre + n1)[|pre|..] == n1 && (pre + n2)[|pre|..] == n2;
  }

  /// The type the epilogue gives an item: a CRATE type of the current
  /// crate at the epilogue path, with no arguments and no qualifier.
  function EpilogueType(basePath: string, additional: Option<string>, name: string, currentCrate: string)
    : (t: TypeData)
    ensures t.root == Crate && t.fieldCrate == currentCrate
    ensures EndsWith(t.path, name)
    ensures t.args == [] && t.scopes == [] && t.qualifier == None && !t.fieldRef && !t.traitObject
  {
    NewType().(root := Crate, fieldCrate := currentCrate, path := EpiloguePath(basePath, additional, name))
  }
}
