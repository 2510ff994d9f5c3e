// How lockjaw turns a source file's path into the module path of the code
// in it: `get_base_path` in processor/src/environment.rs, and
// `get_source_root`/`get_mod_path` in processor/src/prologue.rs. A path is
// a string of '/'-separated names; `Path` is modelled by its components.
module SourcePaths {
  import opened Outcomes
  import opened Strs

  // ---------------------------------------------------------------------------
  // Path components

  /// The names of a relative path, with empty pieces (repeated or trailing
  /// separators) dropped; `cur` is the name being read.
  function ComponentsFrom(s: string, cur: string): (r: seq<string>)
    requires '/' !in cur
    ensures forall i :: 0 <= i < |r| ==> r[i] != "" && '/' !in r[i]
    decreases |s|
  {
    if |s| == 0 then (if cur == "" then [] else [cur])
    else if s[0] == '/' then (if cur == "" then [] else [cur]) + ComponentsFrom(s[1..], "")
    else ComponentsFrom(s[1..], cur + [s[0]])
  }

  /// `Path::new(s).components()` for a relative path.
  function Components(s: string): (r: seq<string>)
    ensures forall i :: 0 <= i < |r| ==> r[i] != "" && '/' !in r[i]
  {
    ComponentsFrom(s, "")
  }

  /// A name without '/' joins the name being read.
  lemma {:induction false} ComponentsFromName(p: string, s: string, cur: string)
    requires '/' !in cur && '/' !in p
    ensures ComponentsFrom(p + s, cur) == ComponentsFrom(s, cur + p)
    decreases |p|
  {
    if |p| > 0 {
      assert (p + s)[0] == p[0] && (p + s)[1..] == p[1..] + s;
      ComponentsFromName(p[1..], s, cur + [p[0]]);
      assert cur + [p[0]] + p[1..] == cur + p;
    } else {
      assert p + s == s && cur + p == cur;
    }
  }

  /// A leading "name/" is the first component.
  lemma ComponentsCons(name: string, rest: string)
    requires name != "" && '/' !in name
    ensures Components(name + "/" + rest) == [name] + Components(rest)
  {
    ComponentsFromName(name, "/" + rest, "");
    assert name + "/" + rest == name + ("/" + rest);
    assert ("/" + rest)[1..] == rest;
    assert "" + name == name;
  }

  /// A single name is its only component.
  lemma SingleComponent(name: string)
    requires name != "" && '/' !in name
    ensures Components(name) == [name]
  {
    ComponentsFromName(name, "", "");
    assert name + "" == name && "" + name == name;
  }

  /// The index of the last '.' in a name.
  function LastDot(s: string): (r: Option<nat>)
    ensures r.Some? ==> r.value < |s| && s[r.value] == '.'
    ensures r.Some? ==> forall j :: r.value < j < |s| ==> s[j] != '.'
    ensures r.None? ==> '.' !in s
  {
    if |s| == 0 then None
    else if s[|s| - 1] == '.' then Some(|s| - 1)
    else
      var r := LastDot(s[..|s| - 1]);
      assert forall x :: x in s ==> x in s[..|s| - 1] || x == s[|s| - 1];
      r
  }

  /// `file_stem` of a name: the name without its last extension; a name
  /// whose only dot leads it has no extension.
  function FileStem(name: string): (r: string)
    ensures StartsWith(name, r)
    ensures name != "" ==> r != ""
  {
    match LastDot(name)
    case Some(i) => if i == 0 then name else name[..i]
    case None => name
  }

  /// The stem of "x.rs" is x, for a non-empty x.
  lemma StemOfRs(x: string)
    requires x != ""
    ensures FileStem(x + ".rs") == x
  {
    var n := x + ".rs";
    assert n[|x|] == '.' && n[|x| + 1] == 'r' && n[|x| + 2] == 's';
    assert LastDot(n) == Some(|x|);
    assert n[..|x|] == x;
  }

  // ---------------------------------------------------------------------------
  // environment.rs: get_base_path

  const NoStemMsg := "no source file stem"

  /// `get_base_path`: the module path of a file relative to the source root.
  /// A root file is its stem, except `main` and `lib`, which are the crate
  /// root; in a directory the stem is appended to the directories, except
  /// `mod`, which is the directory itself. No file name is an error.
  function BasePath(path: string): Result<string>
  {
    var c := Components(path);
    if |c| == 0 then Err(NoStemMsg)
    else
      var stem := FileStem(c[|c| - 1]);
      if |c| == 1 then
        if stem == "main" || stem == "lib" then Ok("") else Ok(stem)
      else
        var parent := Join(c[..|c| - 1], "::");
        if stem == "mod" then Ok(parent) else Ok(parent + "::" + stem)
  }

  /// The module segments a file stands for: its directories, then its stem
  /// unless the stem names the enclosing module.
  function ModuleSegments(c: seq<string>): seq<string>
    requires |c| > 0
  {
    var stem := FileStem(c[|c| - 1]);
    var dirs := c[..|c| - 1];
    if |c| == 1 && (stem == "main" || stem == "lib") then []
    else if |c| > 1 && stem == "mod" then dirs
    else dirs + [stem]
  }

  /// `get_base_path` is the "::"-join of the module segments.
  lemma BasePathIsModuleSegments(path: string)
    requires |Components(path)| > 0
    ensures BasePath(path) == Ok(Join(ModuleSegments(Components(path)), "::"))
  {
    var c := Components(path);
    var stem := FileStem(c[|c| - 1]);
    if |c| > 1 && stem != "mod" {
      JoinSnoc(c[..|c| - 1], stem, "::");
    } else if |c| == 1 && stem != "main" && stem != "lib" {
      assert c[..0] + [stem] == [stem];
    }
  }

  /// A path with no component has no stem.
  lemma BasePathEmpty()
    ensures BasePath("") == Err(NoStemMsg)
  {
  }

  /// A file at the root: `main` and `lib` are the crate root, any other
  /// stem is its own module.
  lemma BasePathRootFile(x: string)
    requires x != "" && '/' !in x && '.' !in x
    ensures BasePath(x + ".rs") == Ok(if x == "main" || x == "lib" then "" else x)
  {
    assert '/' !in x + ".rs";
    SingleComponent(x + ".rs");
    StemOfRs(x);
  }

  /// A file one directory down: `mod` is the directory, any other stem is
  /// appended to it.
  lemma BasePathNestedFile(d: string, x: string)
    requires d != "" && '/' !in d && x != "" && '/' !in x && '.' !in x
    ensures BasePath(d + "/" + x + ".rs") == Ok(if x == "mod" then d else d + "::" + x)
  {
    assert d + "/" + x + ".rs" == d + "/" + (x + ".rs");
    ComponentsCons(d, x + ".rs");
    assert '/' !in x + ".rs";
    SingleComponent(x + ".rs");
    StemOfRs(x);
    assert Components(d + "/" + x + ".rs") == [d, x + ".rs"];
  }

  // ---------------------------------------------------------------------------
  // prologue.rs: get_source_root and get_mod_path

  /// `get_source_root`: the cargo layout directory a file is under;
  /// "src/bin/" is tried before "src/".
  function SourceRoot(filePath: string): (r: Option<string>)
    ensures r.Some? ==> StartsWith(filePath, r.value)
    ensures StartsWith(filePath, "src/bin/") ==> r == Some("src/bin/")
    ensures r == Some("src/") <==> StartsWith(filePath, "src/") && !StartsWith(filePath, "src/bin/")
    ensures r.None? <==>
              !StartsWith(filePath, "src/") && !StartsWith(filePath, "benches/")
              && !StartsWith(filePath, "examples/") && !StartsWith(filePath, "tests/")
  {
    if StartsWith(filePath, "src/bin/") then
      assert filePath[..4] == filePath[..8][..4];
      Some("src/bin/")
    else if StartsWith(filePath, "src/") then Some("src/")
    else if StartsWith(filePath, "benches/") then Some("benches/")
    else if StartsWith(filePath, "examples/") then Some("examples/")
    else if StartsWith(filePath, "tests/") then Some("tests/")
    else None
  }

  const SourceRootMsg := "unable to infer source root. pass in the source root as second arg if the project layout does not follow https://doc.rust-lang.org/cargo/guide/project-layout.html"

  /// `get_mod_path`: the module path of a file under "src/": its
  /// directories below "src/", then its stem unless that is `lib`, `main`
  /// or `mod`. Files under any other root are the crate root; a path under
  /// no known root is an error.
  function ModPath(filePath: string): Result<string>
  {
    var root := SourceRoot(filePath);
    if root.None? then Err(SourceRootMsg)
    else if root.value != "src/" then Ok("")
    else
      var c := Components(filePath);
      if |c| <= 1 then Err(UnwrapNonePanic)
      else
        var rest := c[1..];
        var result := Join(rest[..|rest| - 1], "::");
        var stem := FileStem(rest[|rest| - 1]);
        if stem == "lib" || stem == "main" || stem == "mod" then Ok(result)
        else if result == "" then Ok(stem)
        else Ok(result + "::" + stem)
  }

  /// The components of "src/" + p are "src" followed by those of p.
  lemma SrcComponents(p: string)
    ensures Components("src/" + p) == ["src"] + Components(p)
  {
    ComponentsCons("src", p);
    assert "src" + "/" + p == "src/" + p;
  }

  /// Joining a non-empty list of non-empty names gives a non-empty string.
  lemma JoinNonEmpty(parts: seq<string>, sep: string)
    requires |parts| > 0 && parts[0] != ""
    ensures Join(parts, sep) != ""
  {
  }

  /// Under "src/" (but not "src/bin/"), `get_mod_path` agrees with
  /// `get_base_path` on the path below "src/" for every stem other than
  /// `lib`, `main` and `mod`.
  lemma ModPathAgreesWithBasePath(p: string)
    requires !StartsWith("src/" + p, "src/bin/")
    requires |Components(p)| > 0
    requires var c := Components(p); var stem := FileStem(c[|c| - 1]); stem != "lib" && stem != "main" && stem != "mod"
    ensures ModPath("src/" + p) == BasePath(p)
  {
    SrcComponents(p);
    assert StartsWith("src/" + p, "src/") by { assert ("src/" + p)[..4] == "src/"; }
    var c := Components(p);
    assert Components("src/" + p)[1..] == c;
    if |c| > 1 {
      JoinNonEmpty(c[..|c| - 1], "::");
    }
  }

  /// A file directly under "src/".
  lemma ModPathRootFile(x: string)
    requires x != "" && '/' !in x && '.' !in x
    ensures ModPath("src/" + x + ".rs") == Ok(if x == "lib" || x == "main" || x == "mod" then "" else x)
  {
    var f := "src/" + x + ".rs";
    assert f == "src/" + (x + ".rs");
    if |f| >= 8 {
      assert f[7] == (x + ".rs")[3];
    }
    assert StartsWith(f, "src/") by { assert f[..4] == "src/"; }
    SrcComponents(x + ".rs");
    assert '/' !in x + ".rs";
    SingleComponent(x + ".rs");
    StemOfRs(x);
    assert Components(f)[1..] == [x + ".rs"];
  }

  /// A file one directory below "src/".
  lemma ModPathNestedFile(d: string, x: string)
    requires d != "" && '/' !in d && x != "" && '/' !in x && '.' !in x && d != "bin"
    ensures ModPath("src/" + d + "/" + x + ".rs") == Ok(if x == "lib" || x == "main" || x == "mod" then d else d + "::" + x)
  {
    var file := x + ".rs";
    var f := "src/" + d + "/" + x + ".rs";
    assert f == "src/" + (d + "/" + file);
    NotUnderBin(d, file);
    assert StartsWith(f, "src/") by { assert f[..4] == "src/"; }
    assert Components(f) == ["src"] + Components(d + "/" + file) by {
      SrcComponents(d + "/" + file);
    }
    ComponentsCons(d, file);
    assert '/' !in file;
    SingleComponent(file);
    StemOfRs(x);
    NestedModPath(f, d, file);
  }

  /// A directory other than "bin" directly under "src/" is not "src/bin/".
  lemma NotUnderBin(d: string, rest: string)
    requires d != "" && '/' !in d && d != "bin"
    ensures !StartsWith("src/" + (d + "/" + rest), "src/bin/")
  {
    var f := "src/" + (d + "/" + rest);
    if |d| >= 4 {
      assert f[7] == d[3];
    } else if |d| == 3 {
      assert f[4..7] == d;
    } else if |f| >= 8 {
      assert f[4 + |d|] == '/' && f[4..7][|d|] == f[4 + |d|];
    }
  }

  /// `get_mod_path` of a "src/" file whose components below "src/" are one
  /// directory and one file name.
  lemma NestedModPath(f: string, d: string, file: string)
    requires StartsWith(f, "src/") && !StartsWith(f, "src/bin/")
    requires Components(f) == ["src"] + Components(d + "/" + file)
    requires Components(d + "/" + file) == [d] + Components(file)
    requires Components(file) == [file]
    ensures var stem := FileStem(file);
            ModPath(f) == Ok(if stem == "lib" || stem == "main" || stem == "mod" then d else d + "::" + stem)
  {
    var c := Components(f);
    assert c == ["src", d, file];
    var rest := c[1..];
    assert rest == [d, file];
    assert rest[..|rest| - 1] == [d];
    assert Join([d], "::") == d;
  }
}
