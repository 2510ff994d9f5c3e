// common/src/attributes/component_visibles.rs: the build-script side of
// `#[component_visible]`. A struct or a trait declared in module `m` gets a
// manifest with a single visibility entry: under the item's canonical path,
// its `lockjaw_export_type_` twin as crate-local name and, as exported name,
// the CRATE path named by the item's identifier string in the current
// package. A trait is a trait object on both sides.
module VisibleAttrs {
  import opened Outcomes
  import opened Types
  import opened TypeRender
  import UsePaths
  import LocalTypes
  import CM = CommonManifest
  import SynItems
  import ComponentVisibles

  const UnhandledItemMsg := "unable to handle the item"

  /// The type the attribute stands on: the item's local type, a trait
  /// object for a trait.
  function ItemType(kind: ComponentVisibles.ItemKind, name: string, m: UsePaths.Mod): (t: TypeData)
    ensures t.root == Crate && t.args == [] && t.qualifier == None && !t.fieldRef
  {
    var ty := LocalTypes.ModFromLocal(name, m);
    if kind == ComponentVisibles.TraitItem then ty.(traitObject := true) else ty
  }

  /// `handle_item_struct` / `handle_item_trait`: the key and the entry.
  function VisibleEntry(kind: ComponentVisibles.ItemKind, name: string, m: UsePaths.Mod, currentPackage: string)
    : (string, CM.ExpandedVisibility)
  {
    var t := ItemType(kind, name, m);
    LocalTypes.LocalRenders(t);
    var exported := NewType().(root := Crate, path := Identifier(t).value, fieldCrate := currentPackage,
                               traitObject := kind == ComponentVisibles.TraitItem);
    (Canonical(t).value, CM.ExpandedVisibility(exported, LocalTypes.ModFromLocal(ComponentVisibles.ExportPrefix + name, m)))
  }

  function VisibleManifest(kind: ComponentVisibles.ItemKind, name: string, m: UsePaths.Mod, currentPackage: string)
    : CM.ManifestData
  {
    var (key, v) := VisibleEntry(kind, name, m, currentPackage);
    CM.EmptyManifest().(expandedVisibilities := map[key := v])
  }

  /// `handle_component_visible_attribute`: a struct, else a trait, else an
  /// error.
  function HandleComponentVisibleAttribute(input: SynItems.Item, m: UsePaths.Mod, currentPackage: string)
    : (r: Result<CM.ManifestData>)
    ensures r.Err? <==> !input.StructItem? && !input.TraitItemDecl?
    ensures r.Err? ==> r.msg == UnhandledItemMsg
    ensures input.StructItem? ==> r == Ok(VisibleManifest(ComponentVisibles.StructItem, input.s.ident, m, currentPackage))
    ensures input.TraitItemDecl? ==> r == Ok(VisibleManifest(ComponentVisibles.TraitItem, input.t.ident, m, currentPackage))
  {
    match input
    case StructItem(s) => Ok(VisibleManifest(ComponentVisibles.StructItem, s.ident, m, currentPackage))
    case TraitItemDecl(t) => Ok(VisibleManifest(ComponentVisibles.TraitItem, t.ident, m, currentPackage))
    case _ => Err(UnhandledItemMsg)
  }

  /// The manifest holds the one entry and nothing else; the key is the
  /// item's canonical path (with "dyn " for a trait), the exported name is a
  /// CRATE type of the current package, without arguments, named by the
  /// item's identifier string and a trait object exactly for a trait, and
  /// the crate-local name is the twin beside the item.
  lemma VisibleRecord(kind: ComponentVisibles.ItemKind, name: string, m: UsePaths.Mod, currentPackage: string)
    ensures var r := VisibleManifest(kind, name, m, currentPackage);
            var t := ItemType(kind, name, m);
            var key := (if kind == ComponentVisibles.TraitItem then "dyn " else "") + LocalTypes.LocalCanonical(name, m);
            && r.injectables == [] && r.components == [] && r.modules == [] && r.entryPoints == []
            && r.builderModules == [] && r.qualifiers == [] && r.lifetimedTypes == map[] && !r.root
            && r.expandedVisibilities.Keys == {key}
            && Some(key) == CanonicalWithoutArgs(t)
            && var v := r.expandedVisibilities[key];
               && v.exportedName.root == Crate && v.exportedName.args == []
               && Some(v.exportedName.path) == Identifier(t)
               && v.exportedName.fieldCrate == currentPackage
               && v.exportedName.traitObject == (kind == ComponentVisibles.TraitItem)
               && t.traitObject == (kind == ComponentVisibles.TraitItem)
               && v.crateLocalName == LocalTypes.ModFromLocal(ComponentVisibles.ExportPrefix + name, m)
  {
    VisibleKey(kind, name, m, currentPackage);
    var t := ItemType(kind, name, m);
    LocalTypes.LocalRenders(t);
  }

  /// The key of the entry is the item's canonical path, with "dyn " for a
  /// trait.
  lemma VisibleKey(kind: ComponentVisibles.ItemKind, name: string, m: UsePaths.Mod, currentPackage: string)
    ensures var key := (if kind == ComponentVisibles.TraitItem then "dyn " else "") + LocalTypes.LocalCanonical(name, m);
            && VisibleEntry(kind, name, m, currentPackage).0 == key
            && Some(key) == CanonicalWithoutArgs(ItemType(kind, name, m))
  {
    var t := ItemType(kind, name, m);
    LocalTypes.LocalRenders(t);
    var c := LocalTypes.LocalCanonical(name, m);
    var a := Prefix(t);
    assert a == (if kind == ComponentVisibles.TraitItem then "dyn " else "");
    var f, x := t.fieldCrate, t.path;
    assert x == LocalTypes.ModFromLocal(name, m).path && f == m.crateName;
    assert c == "::" + f + "::" + x;
    Concat4(a, "::", f, "::", x);
  }

  lemma Concat4(a: string, b: string, c: string, d: string, e: string)
    ensures a + b + c + d + e == a + (b + c + d + e)
  {
  }

  /// Once the entry is among the visibilities, the item's type and a
  /// reference to it are seen as the exported name.
  lemma VisibleItemIsExported(ev: ComponentVisibles.Visibilities, kind: ComponentVisibles.ItemKind, name: string,
                              m: UsePaths.Mod, currentPackage: string)
    ensures var (key, v) := VisibleEntry(kind, name, m, currentPackage);
            var t := ItemType(kind, name, m);
            && ComponentVisibles.Visible(ev[key := v], t) == Some(v.exportedName)
            && ComponentVisibles.Visible(ev[key := v], t.(fieldRef := true)) == Some(v.exportedName.(fieldRef := true))
  {
    var (key, v) := VisibleEntry(kind, name, m, currentPackage);
    var t := ItemType(kind, name, m);
    LocalTypes.LocalRenders(t);
    var ev2 := ev[key := v];
    assert t.(fieldRef := true).(fieldRef := false) == t;
    assert t.(fieldRef := false) == t;
    assert ComponentVisibles.Head(ev2, t) == Some(v.exportedName);
    assert ComponentVisibles.VisibleArgs(ev2, t, 0) == Some([]);
    assert ComponentVisibles.VisibleArgs(ev2, t.(fieldRef := true), 0) == Some([]);
    assert v.exportedName.(args := []) == v.exportedName;
    assert ComponentVisibles.VisibleUnref(ev2, t) == Some(v.exportedName);
    assert ComponentVisibles.VisibleUnref(ev2, t.(fieldRef := true)) == Some(v.exportedName);
  }
}
