// `from_local`: the type of an item declared where the attribute stands, in
// its three copies. common/src/type_data.rs and src/type_data.rs resolve the
// declare path through the manifest parser's `Mod`; processor/src/type_data.rs
// through the prologue's module table at the attribute's position, which
// fails when no prologue has been seen.
module LocalTypes {
  import opened Outcomes
  import opened Types
  import opened Strs
  import UsePaths
  import PrologueMods
  import opened TypeRender
  import TypeParse

  /// `from_local` in common/src/type_data.rs and src/type_data.rs: a CRATE
  /// type in the module's crate at the module path followed by the name.
  function ModFromLocal(identifier: string, m: UsePaths.Mod): (r: TypeData)
    ensures r.root == Crate && r.fieldCrate == m.crateName
    ensures r.path == Join(UsePaths.ModSegments(m) + [identifier], "::")
    ensures r.(fieldCrate := "", root := Unspecified, path := "") == NewType()
  {
    UsePaths.DeclarePathIsModulePath(m, identifier);
    NewType().(fieldCrate := m.crateName, root := Crate, path := UsePaths.ResolveDeclarePath(m, identifier).value)
  }

  /// `from_local` in processor/src/type_data.rs: the same, in the crate
  /// being compiled, at the position `pos` of the attribute; the prologue's
  /// error when no module covers it.
  function PrologueFromLocal(identifier: string, sd: PrologueMods.SourceData, pos: nat, currentCrate: string)
    : (r: Result<TypeData>)
    ensures r.Err? <==> PrologueMods.GetModIndex(sd.mods, pos).None?
    ensures r.Err? ==> r.msg == PrologueMods.NoModMsg
    ensures r.Ok? ==>
              && r.value.root == Crate && r.value.fieldCrate == currentCrate
              && r.value.(fieldCrate := "", root := Unspecified, path := "") == NewType()
              && var m := sd.mods[PrologueMods.GetModIndex(sd.mods, pos).value];
                 r.value.path == PrologueMods.BasePrefix(sd.basePath)
                                 + Join(UsePaths.ModSegments(PrologueMods.AsMod(m, currentCrate)) + [identifier], "::")
  {
    var path :- PrologueMods.ResolveDeclarePath(sd, identifier, pos);
    PrologueMods.DeclarePathUnderBase(sd, identifier, pos, currentCrate);
    Ok(NewType().(fieldCrate := currentCrate, root := Crate, path := path))
  }

  /// A local type renders: its canonical path is `::crate::path`, and with
  /// no arguments the arg-less canonical path is the same string.
  lemma LocalRenders(t: TypeData)
    requires t.root == Crate && t.args == [] && t.qualifier == None
    ensures Canonical(t) == Some(Prefix(t) + "::" + t.fieldCrate + "::" + t.path)
    ensures CanonicalWithoutArgs(t) == Canonical(t)
    ensures Identifier(t) == Some(Escape(Canonical(t).value) + "_" + t.identifierSuffix)
  {
    assert PathWithArgs(t, CanonicalMode) == Some(t.path);
    assert StringPath(t, CanonicalMode) == Some(Prefix(t) + "::" + t.fieldCrate + "::" + t.path);
    var e := Escape(Canonical(t).value);
    assert "" + e == e;
  }

  /// The scope a path in `m` is read in by common/src/type_data.rs and
  /// src/type_data.rs: `crate::` is the module's crate, and a bare first
  /// segment goes through `Mod::resolve_path`.
  function ModScope(m: UsePaths.Mod): (sc: TypeParse.Scope)
    ensures sc.crateName == m.crateName
    ensures forall id :: sc.resolve(id) == UsePaths.ResolvePath(m, id)
  {
    TypeParse.Scope(m.crateName, id => UsePaths.ResolvePath(m, id))
  }

  /// `from_local(identifier, m).canonical_string_path()`, which never panics.
  function LocalCanonical(identifier: string, m: UsePaths.Mod): (r: string)
    ensures Canonical(ModFromLocal(identifier, m)) == Some(r)
    ensures r == "::" + m.crateName + "::" + ModFromLocal(identifier, m).path
  {
    var t := ModFromLocal(identifier, m);
    LocalRenders(t);
    Canonical(t).value
  }

  /// `from_local(identifier, m).identifier_string()`, which never panics.
  function LocalIdentifier(identifier: string, m: UsePaths.Mod): (r: string)
    ensures Identifier(ModFromLocal(identifier, m)) == Some(r)
    ensures r == Escape(LocalCanonical(identifier, m)) + "_"
  {
    var t := ModFromLocal(identifier, m);
    LocalRenders(t);
    Identifier(t).value
  }

  /// The scope a path at position `pos` is read in by
  /// processor/src/type_data.rs: `crate::` is the crate being compiled, and a
  /// bare first segment goes through the prologue's `resolve_path`.
  function PrologueScope(sd: PrologueMods.SourceData, pos: nat, currentCrate: string): (sc: TypeParse.Scope)
    ensures sc.crateName == currentCrate
    ensures forall id :: sc.resolve(id) == PrologueMods.ResolvePath(sd, id, pos, currentCrate)
  {
    TypeParse.Scope(currentCrate, id => PrologueMods.ResolvePath(sd, id, pos, currentCrate))
  }
}
