// `#[entry_point]`: a trait of provisions that is installed into a component
// and fetched from it at run time. common/src/attributes/entrypoints.rs
// records it in the manifest a build script reads; processor/src/entrypoints.rs
// records the same facts in the manifest being built, re-declares the trait
// under its exported name and names the symbol the component's generated
// code defines to hand the entry point out.
module EntryPoints {
  import opened Outcomes
  import opened Types
  import opened TypeRender
  import Parsing
  import TypeParse
  import UsePaths
  import PrologueMods
  import LocalTypes
  import CM = CommonManifest
  import SynItems
  import AttributeKeys
  import ComponentAttrs
  import ComponentVisibles
  import SymbolCodec

  /// `ENTRY_POINT_METADATA_KEYS`.
  const EntryPointKeys: set<string> := {"install_in"}

  const InstallInExpectedMsg := "install_in metadata expected for #[entry_point]"
  const InstallInPathMsg := "path expected for install_in"
  const GetterPrefix := "lockjaw_entry_point_getter_"

  // ---------------------------------------------------------------------------
  // The facts both handlers record

  /// The `install_in` metadata: required, and a path, read in `sc`.
  function InstallIn(attributes: map<string, Parsing.FieldValue>, sc: TypeParse.Scope): Result<TypeData>
  {
    if "install_in" !in attributes then Err(InstallInExpectedMsg)
    else
      match attributes["install_in"]
      case PathValue(p) => TypeParse.FromPath(p, sc)
      case _ => Err(InstallInPathMsg)
  }

  /// The visibility entry of the trait `ty`, re-declared as `crateType`:
  /// keyed by the trait's arg-less canonical path and exported as the CRATE
  /// path named by the trait's identifier string, in `currentCrate`.
  function TraitVisibility(ty: TypeData, crateType: TypeData, currentCrate: string): (string, CM.ExpandedVisibility)
    requires ty.root == Crate && ty.args == [] && ty.qualifier == None
  {
    LocalTypes.LocalRenders(ty);
    var exported := NewType().(root := Crate, path := Identifier(ty).value, fieldCrate := currentCrate);
    (CanonicalWithoutArgs(ty).value, CM.ExpandedVisibility(exported, crateType))
  }

  /// Once the entry of a trait is among the visibilities, the trait and a
  /// reference to it are seen as its exported name.
  lemma TraitIsExported(ev: ComponentVisibles.Visibilities, ty: TypeData, crateType: TypeData, currentCrate: string)
    requires ty.root == Crate && ty.args == [] && ty.qualifier == None && !ty.fieldRef
    ensures var (key, v) := TraitVisibility(ty, crateType, currentCrate);
            && ComponentVisibles.Visible(ev[key := v], ty) == Some(v.exportedName)
            && ComponentVisibles.Visible(ev[key := v], ty.(fieldRef := true)) == Some(v.exportedName.(fieldRef := true))
  {
    var (key, v) := TraitVisibility(ty, crateType, currentCrate);
    LocalTypes.LocalRenders(ty);
    var ev2 := ev[key := v];
    assert ty.(fieldRef := true).(fieldRef := false) == ty;
    assert ty.(fieldRef := false) == ty;
    assert CanonicalWithoutArgs(ty) == Some(key);
    assert ComponentVisibles.Head(ev2, ty) == Some(v.exportedName);
    assert ComponentVisibles.VisibleArgs(ev2, ty, 0) == Some([]);
    assert ComponentVisibles.VisibleArgs(ev2, ty.(fieldRef := true), 0) == Some([]);
    assert v.exportedName.(args := []) == v.exportedName;
    assert ComponentVisibles.VisibleUnref(ev2, ty) == Some(v.exportedName);
    assert ComponentVisibles.VisibleUnref(ev2, ty.(fieldRef := true)) == Some(v.exportedName);
  }

  // ---------------------------------------------------------------------------
  // common/src/attributes/entrypoints.rs

  /// The manifest of an entry point after the metadata keys are checked:
  /// one entry point for the trait, installed in the `install_in` component,
  /// and the visibility entry of the trait's `lockjaw_export_type_` twin.
  function EntryPointManifest(t: SynItems.ItemTrait, provisions: seq<CM.Dependency>,
                              attributes: map<string, Parsing.FieldValue>, m: UsePaths.Mod, currentPackage: string)
    : (r: Result<CM.ManifestData>)
    ensures r.Ok? ==> |r.value.entryPoints| == 1 && r.value.entryPoints[0].ty == LocalTypes.ModFromLocal(t.ident, m)
                      && r.value.entryPoints[0].provisions == provisions
    ensures r.Ok? ==> |r.value.expandedVisibilities| == 1 && r.value.components == [] && r.value.injectables == []
  {
    var component :- InstallIn(attributes, LocalTypes.ModScope(m));
    var ty := LocalTypes.ModFromLocal(t.ident, m);
    var crateType := LocalTypes.ModFromLocal(ComponentVisibles.ExportPrefix + t.ident, m);
    var (key, v) := TraitVisibility(ty, crateType, currentPackage);
    Ok(CM.EntryPointOnly(key, v, CM.EntryPoint(ty, component, provisions, NewType())))
  }

  /// `handle_entry_point_attribute` of the common crate: the item must be a
  /// trait whose provisions read, the metadata must parse and hold no key
  /// but `install_in`.
  method HandleEntryPointAttribute(attr: Parsing.FieldTokens, input: SynItems.Item, m: UsePaths.Mod,
                                   currentPackage: string)
    returns (r: Result<CM.ManifestData>)
    ensures var pre := ComponentAttrs.HandlerInputs(attr, input, m);
            pre.Err? ==> r == Err(pre.msg)
    ensures var pre := ComponentAttrs.HandlerInputs(attr, input, m);
            pre.Ok? && !(pre.value.2.Keys <= EntryPointKeys) ==>
              r.Err? && exists k :: k in pre.value.2 && k !in EntryPointKeys && r.msg == AttributeKeys.UnknownKeyMsg(k)
    ensures var pre := ComponentAttrs.HandlerInputs(attr, input, m);
            pre.Ok? && pre.value.2.Keys <= EntryPointKeys ==>
              r == EntryPointManifest(pre.value.0, pre.value.1, pre.value.2, m, currentPackage)
  {
    if !input.TraitItemDecl? {
      return Err(ComponentAttrs.TraitExpectedMsg);
    }
    var provisions := ComponentAttrs.GetProvisions(input.t, m);
    if provisions.Err? {
      return Err(provisions.msg);
    }
    var attributes := Parsing.GetAttributeFieldValues(attr);
    if attributes.Err? {
      return Err(attributes.msg);
    }
    var keys := AttributeKeys.CheckKeys(attributes.value, EntryPointKeys);
    if keys.Err? {
      return Err(keys.msg);
    }
    r := EntryPointManifest(input.t, provisions.value, attributes.value, m, currentPackage);
  }

  /// The manifest fails exactly when `install_in` is missing, is not a path
  /// or does not resolve, with the corresponding message.
  lemma EntryPointFailures(t: SynItems.ItemTrait, provisions: seq<CM.Dependency>,
                           attributes: map<string, Parsing.FieldValue>, m: UsePaths.Mod, currentPackage: string)
    ensures var r := EntryPointManifest(t, provisions, attributes, m, currentPackage);
            && ("install_in" !in attributes ==> r == Err(InstallInExpectedMsg))
            && ("install_in" in attributes && !attributes["install_in"].PathValue? ==> r == Err(InstallInPathMsg))
            && ("install_in" in attributes && attributes["install_in"].PathValue? ==>
                  var c := TypeParse.FromPath(attributes["install_in"].path, LocalTypes.ModScope(m));
                  (r.Err? <==> c.Err?) && (c.Err? ==> r.msg == c.msg))
  {
  }

  /// A recorded entry point: the manifest holds nothing but one entry point,
  /// of the trait at its local path, installed in the `install_in` type, with
  /// the provisions given, and one visibility entry, under the trait's
  /// canonical path, that exports the `lockjaw_export_type_` twin as the
  /// trait's identifier string in the current package.
  lemma EntryPointRecord(t: SynItems.ItemTrait, provisions: seq<CM.Dependency>,
                         attributes: map<string, Parsing.FieldValue>, m: UsePaths.Mod, currentPackage: string)
    requires EntryPointManifest(t, provisions, attributes, m, currentPackage).Ok?
    ensures var r := EntryPointManifest(t, provisions, attributes, m, currentPackage).value;
            && r.injectables == [] && r.components == [] && r.modules == [] && r.builderModules == []
            && r.qualifiers == [] && r.mergedCrates == [] && r.lifetimedTypes == map[] && !r.root
            && |r.entryPoints| == 1
            && r.entryPoints[0].ty == LocalTypes.ModFromLocal(t.ident, m)
            && "install_in" in attributes && attributes["install_in"].PathValue?
            && Ok(r.entryPoints[0].component)
               == TypeParse.FromPath(attributes["install_in"].path, LocalTypes.ModScope(m))
            && r.entryPoints[0].provisions == provisions
            && r.expandedVisibilities.Keys == {LocalTypes.LocalCanonical(t.ident, m)}
            && r.expandedVisibilities[LocalTypes.LocalCanonical(t.ident, m)]
               == CM.ExpandedVisibility(
                    NewType().(root := Crate, path := LocalTypes.LocalIdentifier(t.ident, m), fieldCrate := currentPackage),
                    LocalTypes.ModFromLocal(ComponentVisibles.ExportPrefix + t.ident, m))
  {
    LocalTypes.LocalRenders(LocalTypes.ModFromLocal(t.ident, m));
  }

  // ---------------------------------------------------------------------------
  // The getter symbol

  /// The text the getter symbol spells: the identifier strings of the trait
  /// and of the component, joined by '_'; `identifier` panics on a type
  /// without a root.
  function GetterText(e: CM.EntryPoint): (r: Option<string>)
    ensures r.Some? <==> Identifier(e.ty).Some? && Identifier(e.component).Some?
  {
    var a := Identifier(e.ty);
    var b := Identifier(e.component);
    if a.Some? && b.Some? then Some(a.value + "_" + b.value) else None
  }

  /// `getter_name`: the prefix, then the text in unpadded standard base64
  /// with "+" spelled "_P" and "/" spelled "_S". What follows the prefix is
  /// made of identifier characters only.
  function GetterName(e: CM.EntryPoint): (r: Option<string>)
    ensures r.Some? <==> GetterText(e).Some?
    ensures r.Some? ==> |GetterPrefix| <= |r.value| && r.value[..|GetterPrefix|] == GetterPrefix
    ensures r.Some? ==> forall i :: |GetterPrefix| <= i < |r.value| ==> SymbolCodec.IdentChar(r.value[i])
  {
    var text := GetterText(e);
    if text.None? then None
    else
      var s := SymbolCodec.Spell(text.value);
      var name := GetterPrefix + s;
      assert forall i :: |GetterPrefix| <= i < |name| ==> name[i] == s[i - |GetterPrefix|];
      Some(name)
  }

  /// The text is recovered from a getter name: undo the spelling of what
  /// follows the prefix, decode the base64 and the UTF-8.
  lemma GetterNameDecodes(e: CM.EntryPoint)
    requires GetterName(e).Some?
    ensures var s := GetterName(e).value[|GetterPrefix|..];
            && SymbolCodec.Decode(SymbolCodec.Unmangle(s)) == Some(SymbolCodec.Utf8(GetterText(e).value))
            && SymbolCodec.Utf8Decode(SymbolCodec.Utf8(GetterText(e).value)) == GetterText(e)
  {
    var text := GetterText(e).value;
    assert GetterName(e).value[|GetterPrefix|..] == SymbolCodec.Spell(text);
    SymbolCodec.SpellRoundTrip(text);
  }

  /// Two entry points with the same getter name spell the same text: the
  /// name determines the joined identifiers.
  lemma GetterNameInjective(e1: CM.EntryPoint, e2: CM.EntryPoint)
    requires GetterName(e1).Some? && GetterName(e1) == GetterName(e2)
    ensures GetterText(e1) == GetterText(e2)
  {
    var s1, s2 := GetterName(e1).value[|GetterPrefix|..], GetterName(e2).value[|GetterPrefix|..];
    assert s1 == SymbolCodec.Spell(GetterText(e1).value);
    assert s2 == SymbolCodec.Spell(GetterText(e2).value);
    SymbolCodec.SpellInjective(GetterText(e1).value, GetterText(e2).value);
  }

  // ---------------------------------------------------------------------------
  // processor/src/entrypoints.rs

  /// The processor's inputs: the item must be a trait; its provisions come
  /// from `components::get_provisions`, given here as `provisions`.
  function ProcessorInputs(attr: Parsing.FieldTokens, input: SynItems.Item, provisions: Result<seq<CM.Dependency>>)
    : Result<(SynItems.ItemTrait, seq<CM.Dependency>, map<string, Parsing.FieldValue>)>
  {
    if !input.TraitItemDecl? then Err(ComponentAttrs.TraitExpectedMsg)
    else
      var p :- provisions;
      var attributes :- Parsing.GetAttributeFieldValues(attr);
      Ok((input.t, p, attributes))
  }

  /// What the processor records for a trait at position `pos`: the
  /// visibility key and entry, and the entry point, in the crate being
  /// compiled and read through the prologue.
  function ProcessorEntry(t: SynItems.ItemTrait, provisions: seq<CM.Dependency>,
                          attributes: map<string, Parsing.FieldValue>, sd: PrologueMods.SourceData, pos: nat,
                          currentCrate: string)
    : Result<(string, CM.ExpandedVisibility, CM.EntryPoint)>
  {
    var component :- InstallIn(attributes, LocalTypes.PrologueScope(sd, pos, currentCrate));
    var ty :- LocalTypes.PrologueFromLocal(t.ident, sd, pos, currentCrate);
    var crateType := LocalTypes.PrologueFromLocal(ComponentVisibles.ExportPrefix + t.ident, sd, pos, currentCrate).value;
    var (key, v) := TraitVisibility(ty, crateType, currentCrate);
    Ok((key, v, CM.EntryPoint(ty, component, provisions, NewType())))
  }

  /// The processor's entry: it fails exactly when `install_in` fails or no
  /// prologue covers `pos`; otherwise the entry point is the trait's local
  /// type installed in the component, its key is the trait's canonical path,
  /// its visibility exports the `lockjaw_export_type_` twin and its getter
  /// name exists exactly when the component has an identifier.
  lemma ProcessorEntryShape(t: SynItems.ItemTrait, provisions: seq<CM.Dependency>,
                            attributes: map<string, Parsing.FieldValue>, sd: PrologueMods.SourceData, pos: nat,
                            currentCrate: string)
    ensures var r := ProcessorEntry(t, provisions, attributes, sd, pos, currentCrate);
            var c := InstallIn(attributes, LocalTypes.PrologueScope(sd, pos, currentCrate));
            && (c.Err? ==> r == Err(c.msg))
            && (c.Ok? && PrologueMods.GetModIndex(sd.mods, pos).None? ==> r == Err(PrologueMods.NoModMsg))
            && (c.Ok? && PrologueMods.GetModIndex(sd.mods, pos).Some? ==>
                  r.Ok?
                  && var (key, v, e) := r.value;
                  && e.ty == LocalTypes.PrologueFromLocal(t.ident, sd, pos, currentCrate).value
                  && e.component == c.value && e.provisions == provisions
                  && Some(key) == Canonical(e.ty)
                  && key == "::" + currentCrate + "::" + e.ty.path
                  && Some(v.exportedName.path) == Identifier(e.ty)
                  && v.exportedName.root == Crate && v.exportedName.fieldCrate == currentCrate
                  && v.crateLocalName
                     == LocalTypes.PrologueFromLocal(ComponentVisibles.ExportPrefix + t.ident, sd, pos, currentCrate).value
                  && (GetterName(e).Some? <==> Identifier(c.value).Some?))
  {
    var r := ProcessorEntry(t, provisions, attributes, sd, pos, currentCrate);
    if r.Ok? {
      var ty := LocalTypes.PrologueFromLocal(t.ident, sd, pos, currentCrate).value;
      LocalTypes.LocalRenders(ty);
      assert Prefix(ty) == "";
    }
  }

  /// What the processor hands back: the identifier the trait is re-declared
  /// under and the getter symbol; a component without an identifier panics.
  function ProcessorResult(t: SynItems.ItemTrait, e: CM.EntryPoint): Result<(string, string)>
  {
    var getter := GetterName(e);
    if getter.None? then Err(CM.RootUnspecifiedPanic)
    else Ok((ComponentVisibles.ExportPrefix + t.ident, getter.value))
  }

  /// `handle_entry_point_attribute` of the processor: the checks of the
  /// common handler, then the visibility entry inserted and the entry point
  /// pushed into the manifest being built (the same as merging the common
  /// handler's one-entry manifest), and only then the getter name, whose
  /// panic leaves the manifest updated.
  method HandleProcessorEntryPoint(attr: Parsing.FieldTokens, input: SynItems.Item,
                                   provisions: Result<seq<CM.Dependency>>, sd: PrologueMods.SourceData, pos: nat,
                                   currentCrate: string, store: CM.ManifestStore)
    returns (r: Result<(string, string)>)
    modifies store
    ensures var pre := ProcessorInputs(attr, input, provisions);
            pre.Err? ==> r == Err(pre.msg) && store.Data() == old(store.Data())
    ensures var pre := ProcessorInputs(attr, input, provisions);
            pre.Ok? && !(pre.value.2.Keys <= EntryPointKeys) ==>
              && r.Err? && store.Data() == old(store.Data())
              && exists k :: k in pre.value.2 && k !in EntryPointKeys && r.msg == AttributeKeys.UnknownKeyMsg(k)
    ensures var pre := ProcessorInputs(attr, input, provisions);
            pre.Ok? && pre.value.2.Keys <= EntryPointKeys ==>
              var entry := ProcessorEntry(pre.value.0, pre.value.1, pre.value.2, sd, pos, currentCrate);
              && (entry.Err? ==> r == Err(entry.msg) && store.Data() == old(store.Data()))
              && (entry.Ok? ==>
                    var (key, v, e) := entry.value;
                    && store.Data() == CM.Merged(old(store.Data()), CM.EntryPointOnly(key, v, e))
                    && r == ProcessorResult(pre.value.0, e))
  {
    if !input.TraitItemDecl? {
      return Err(ComponentAttrs.TraitExpectedMsg);
    }
    if provisions.Err? {
      return Err(provisions.msg);
    }
    var attributes := Parsing.GetAttributeFieldValues(attr);
    if attributes.Err? {
      return Err(attributes.msg);
    }
    var keys := AttributeKeys.CheckKeys(attributes.value, EntryPointKeys);
    if keys.Err? {
      return Err(keys.msg);
    }
    var entry := ProcessorEntry(input.t, provisions.value, attributes.value, sd, pos, currentCrate);
    if entry.Err? {
      return Err(entry.msg);
    }
    var (key, v, e) := entry.value;
    CM.InsertAndPushIsMerge(store.Data(), key, v, e);
    store.InsertVisibility(key, v);
    store.PushEntryPoint(e);
    r := ProcessorResult(input.t, e);
  }
}
