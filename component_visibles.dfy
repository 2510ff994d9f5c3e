// processor/src/component_visibles.rs: `#[component_visible]` re-exports a
// crate-private struct or trait under a public `lockjaw_export_type_` name
// and records the pair in the manifest's expanded visibilities, keyed by the
// item's canonical path; `visible_type` then rewrites a type, head and
// arguments, to the names other crates can see.
module ComponentVisibles {
  import opened Outcomes
  import opened Types
  import opened TypeRender
  import CommonManifest
  import PrologueMods
  import opened LocalTypes

  /// `expanded_visibilities`: arg-less canonical path to the exported pair.
  type Visibilities = map<string, CommonManifest.ExpandedVisibility>

  // ---------------------------------------------------------------------------
  // visible_type

  /// The head of `visible_type`: the exported name when the type's arg-less
  /// canonical path is registered, else the type itself; `None` is the
  /// renderer's panic on an UNSPECIFIED root.
  function Head(ev: Visibilities, t: TypeData): Option<TypeData>
  {
    var key := CanonicalWithoutArgs(t);
    if key.None? then None
    else if key.value in ev then Some(ev[key.value].exportedName)
    else Some(t)
  }

  /// `visible_type` as intended: a reference is handled on its
  /// non-reference form and marked a reference again; the head is replaced
  /// and the arguments are exactly the visible types of the type's own
  /// arguments.
  function Visible(ev: Visibilities, t: TypeData): (r: Option<TypeData>)
    ensures r.Some? ==> |r.value.args| == |t.args|
    ensures r.Some? && t.fieldRef ==> r.value.fieldRef
    decreases t, 2
  {
    var r := VisibleUnref(ev, t);
    if t.fieldRef && r.Some? then Some(r.value.(fieldRef := true)) else r
  }

  /// The non-reference form of `t` made visible.
  function VisibleUnref(ev: Visibilities, t: TypeData): Option<TypeData>
    decreases t, 1
  {
    var h := Head(ev, t.(fieldRef := false));
    var args := VisibleArgs(ev, t, 0);
    if h.None? || args.None? then None else Some(h.value.(args := args.value))
  }

  /// The visible types of `t.args[i..]`.
  function VisibleArgs(ev: Visibilities, t: TypeData, i: nat): (r: Option<seq<TypeData>>)
    requires i <= |t.args|
    ensures r.Some? ==> |r.value| == |t.args| - i
    decreases t, 0, |t.args| - i
  {
    if i == |t.args| then Some([])
    else
      assert t.args[i] in t.args;
      var h := Visible(ev, t.args[i]);
      var rest := VisibleArgs(ev, t, i + 1);
      if h.None? || rest.None? then None else Some([h.value] + rest.value)
  }

  /// `visible_type` as written: each argument's visible type overwrites the
  /// head's argument at the same index, so a head with fewer arguments than
  /// the type (an exported name has none) is an index panic.
  function VisibleAsWritten(ev: Visibilities, t: TypeData): Option<TypeData>
    decreases t, 2
  {
    var r := VisibleUnrefAsWritten(ev, t);
    if t.fieldRef && r.Some? then Some(r.value.(fieldRef := true)) else r
  }

  function VisibleUnrefAsWritten(ev: Visibilities, t: TypeData): Option<TypeData>
    decreases t, 1
  {
    var h := Head(ev, t.(fieldRef := false));
    var args := VisibleArgsAsWritten(ev, t, 0);
    if h.None? || args.None? || |h.value.args| < |t.args| then None
    else Some(h.value.(args := args.value + h.value.args[|t.args|..]))
  }

  function VisibleArgsAsWritten(ev: Visibilities, t: TypeData, i: nat): (r: Option<seq<TypeData>>)
    requires i <= |t.args|
    ensures r.Some? ==> |r.value| == |t.args| - i
    decreases t, 0, |t.args| - i
  {
    if i == |t.args| then Some([])
    else
      assert t.args[i] in t.args;
      var h := VisibleAsWritten(ev, t.args[i]);
      var rest := VisibleArgsAsWritten(ev, t, i + 1);
      if h.None? || rest.None? then None else Some([h.value] + rest.value)
  }

  /// The arguments made visible from `i` on: defined exactly when each is,
  /// and then one by one.
  lemma {:induction false} VisibleArgsMeaning(ev: Visibilities, t: TypeData, i: nat)
    requires i <= |t.args|
    ensures VisibleArgs(ev, t, i).Some? <==> forall j :: i <= j < |t.args| ==> Visible(ev, t.args[j]).Some?
    ensures VisibleArgs(ev, t, i).Some? ==>
              forall j :: i <= j < |t.args| ==> VisibleArgs(ev, t, i).value[j - i] == Visible(ev, t.args[j]).value
    decreases |t.args| - i
  {
    if i < |t.args| {
      var next: nat := i + 1;
      VisibleArgsMeaning(ev, t, next);
      var h := Visible(ev, t.args[i]);
      var rest := VisibleArgs(ev, t, next);
      assert VisibleArgs(ev, t, i) == if h.None? || rest.None? then None else Some([h.value] + rest.value);
      if h.Some? && rest.Some? {
        forall j | i <= j < |t.args|
          ensures VisibleArgs(ev, t, i).value[j - i] == Visible(ev, t.args[j]).value
        {
          if j > i {
            assert VisibleArgs(ev, t, i).value[j - i] == rest.value[j - next];
          }
        }
      }
    }
  }

  lemma {:induction false} VisibleArgsAsWrittenMeaning(ev: Visibilities, t: TypeData, i: nat)
    requires i <= |t.args|
    ensures VisibleArgsAsWritten(ev, t, i).Some? <==>
              forall j :: i <= j < |t.args| ==> VisibleAsWritten(ev, t.args[j]).Some?
    ensures VisibleArgsAsWritten(ev, t, i).Some? ==>
              forall j :: i <= j < |t.args| ==>
                VisibleArgsAsWritten(ev, t, i).value[j - i] == VisibleAsWritten(ev, t.args[j]).value
    decreases |t.args| - i
  {
    if i < |t.args| {
      var next: nat := i + 1;
      VisibleArgsAsWrittenMeaning(ev, t, next);
      var h := VisibleAsWritten(ev, t.args[i]);
      var rest := VisibleArgsAsWritten(ev, t, next);
      assert VisibleArgsAsWritten(ev, t, i) == if h.None? || rest.None? then None else Some([h.value] + rest.value);
      if h.Some? && rest.Some? {
        forall j | i <= j < |t.args|
          ensures VisibleArgsAsWritten(ev, t, i).value[j - i] == VisibleAsWritten(ev, t.args[j]).value
        {
          if j > i {
            assert VisibleArgsAsWritten(ev, t, i).value[j - i] == rest.value[j - next];
          }
        }
      }
    }
  }

  /// The non-reference part of `visible_type`: the head with the
  /// arguments made visible one by one.
  lemma VisibleUnrefMeaning(ev: Visibilities, t: TypeData)
    ensures var r := VisibleUnref(ev, t);
            r.Some? ==>
              && Head(ev, t.(fieldRef := false)).Some?
              && r.value == Head(ev, t.(fieldRef := false)).value.(args := r.value.args)
              && |r.value.args| == |t.args|
              && (forall i :: 0 <= i < |t.args| ==> Visible(ev, t.args[i]) == Some(r.value.args[i]))
  {
    VisibleArgsMeaning(ev, t, 0);
  }

  /// What `visible_type` promises: a reference stays a reference; each
  /// argument is replaced by its own visible type, index by index; the head
  /// is the exported name exactly when the arg-less canonical path of the
  /// non-reference form is registered, and otherwise the type itself.
  lemma VisibleMeaning(ev: Visibilities, t: TypeData)
    ensures var r := Visible(ev, t);
            r.Some? ==>
              && (t.fieldRef ==> r.value.fieldRef)
              && |r.value.args| == |t.args|
              && (forall i :: 0 <= i < |t.args| ==> Visible(ev, t.args[i]) == Some(r.value.args[i]))
              && var key := CanonicalWithoutArgs(t.(fieldRef := false));
              && key.Some?
              && (key.value in ev ==>
                    var e := ev[key.value].exportedName;
                    r.value.(args := e.args, fieldRef := e.fieldRef) == e)
              && (key.value !in ev ==> r.value.(args := t.args) == t)
  {
    var u := VisibleUnref(ev, t);
    if u.Some? {
      VisibleUnrefMeaning(ev, t);
      var key := CanonicalWithoutArgs(t.(fieldRef := false));
      var h := Head(ev, t.(fieldRef := false)).value;
      assert h == if key.value in ev then ev[key.value].exportedName else t.(fieldRef := false);
      assert Visible(ev, t) == Some(if t.fieldRef then u.value.(fieldRef := true) else u.value);
    }
  }

  /// A type whose roots are all specified always has a visible type.
  lemma {:induction false} VisibleRooted(ev: Visibilities, t: TypeData)
    requires Rooted(t)
    ensures Visible(ev, t).Some?
    decreases t
  {
    var u := t.(fieldRef := false);
    assert Rooted(u) by {
      assert u.args == t.args;
    }
    RenderedWhenRooted(u, CanonicalMode);
    forall j | 0 <= j < |t.args|
      ensures Visible(ev, t.args[j]).Some?
    {
      assert t.args[j] in t.args;
      VisibleRooted(ev, t.args[j]);
    }
    VisibleArgsMeaning(ev, t, 0);
  }

  /// With no visibilities registered, `visible_type` is the identity.
  lemma {:induction false} VisibleWithoutRegistrations(t: TypeData)
    requires Rooted(t)
    ensures Visible(map[], t) == Some(t)
    decreases t
  {
    VisibleRooted(map[], t);
    VisibleUnrefMeaning(map[], t);
    var r := VisibleUnref(map[], t).value;
    forall j | 0 <= j < |t.args|
      ensures r.args[j] == t.args[j]
    {
      assert t.args[j] in t.args;
      VisibleWithoutRegistrations(t.args[j]);
    }
    assert r.args == t.args;
    assert r == t.(fieldRef := false);
  }

  /// Where the exported names carry no arguments, the code as written agrees
  /// with the intended result whenever it does not panic.
  lemma {:induction false} AsWrittenAgrees(ev: Visibilities, t: TypeData)
    requires forall k :: k in ev ==> ev[k].exportedName.args == []
    ensures VisibleAsWritten(ev, t).Some? ==> VisibleAsWritten(ev, t) == Visible(ev, t)
    decreases t
  {
    var w := VisibleUnrefAsWritten(ev, t);
    if w.Some? {
      var h := Head(ev, t.(fieldRef := false));
      var aw := VisibleArgsAsWritten(ev, t, 0);
      assert h.Some? && aw.Some? && |h.value.args| >= |t.args|;
      forall j | 0 <= j < |t.args|
        ensures VisibleAsWritten(ev, t.args[j]).Some? ==> VisibleAsWritten(ev, t.args[j]) == Visible(ev, t.args[j])
      {
        assert t.args[j] in t.args;
        AsWrittenAgrees(ev, t.args[j]);
      }
      ArgsAgree(ev, t, 0);
      var b := VisibleArgs(ev, t, 0);
      assert b == aw;
      assert |h.value.args| == |t.args| by {
        var key := CanonicalWithoutArgs(t.(fieldRef := false)).value;
        if key in ev {
          assert h.value.args == [];
        }
      }
      assert aw.value + h.value.args[|t.args|..] == b.value;
      assert w == VisibleUnref(ev, t);
    }
  }

  /// The argument loops agree from `i` on wherever the arguments do.
  lemma {:induction false} ArgsAgree(ev: Visibilities, t: TypeData, i: nat)
    requires i <= |t.args|
    requires forall j :: i <= j < |t.args| ==>
               VisibleAsWritten(ev, t.args[j]).Some? ==> VisibleAsWritten(ev, t.args[j]) == Visible(ev, t.args[j])
    ensures VisibleArgsAsWritten(ev, t, i).Some? ==> VisibleArgsAsWritten(ev, t, i) == VisibleArgs(ev, t, i)
    decreases |t.args| - i
  {
    if i < |t.args| {
      ArgsAgree(ev, t, i + 1);
    }
  }

  /// A registered generic type used with arguments: as written the loop
  /// indexes the exported name's empty argument list and panics, while the
  /// intended result exists.
  lemma GenericExportPanics(ev: Visibilities, t: TypeData)
    requires Rooted(t) && |t.args| > 0
    requires CanonicalWithoutArgs(t.(fieldRef := false)).Some?
    requires var key := CanonicalWithoutArgs(t.(fieldRef := false)).value;
             key in ev && ev[key].exportedName.args == []
    ensures VisibleAsWritten(ev, t) == None
    ensures Visible(ev, t).Some?
  {
    VisibleRooted(ev, t);
  }

  // ---------------------------------------------------------------------------
  // The loop of visible_type

  /// `visible_type`.
  method VisibleType(ev: Visibilities, t: TypeData) returns (r: Option<TypeData>)
    ensures r == VisibleAsWritten(ev, t)
    decreases t, 2
  {
    if t.fieldRef {
      r := VisibleRefType(ev, t);
    } else {
      r := VisibleClone(ev, t);
    }
  }

  /// `visible_ref_type`: the visible type of the non-reference form, then
  /// marked a reference.
  method VisibleRefType(ev: Visibilities, t: TypeData) returns (r: Option<TypeData>)
    ensures r == (var v := VisibleUnrefAsWritten(ev, t); if v.Some? then Some(v.value.(fieldRef := true)) else None)
    decreases t, 1
  {
    r := VisibleClone(ev, t);
    if r.Some? {
      r := Some(r.value.(fieldRef := true));
    }
  }

  /// The body of `visible_type` on the non-reference form of `t`: the head,
  /// then the loop writing each argument's visible type into its index.
  method VisibleClone(ev: Visibilities, t: TypeData) returns (r: Option<TypeData>)
    ensures r == VisibleUnrefAsWritten(ev, t)
    decreases t, 0
  {
    var h := Head(ev, t.(fieldRef := false));
    if h.None? {
      return None;
    }
    var args := h.value.args;
    var i := 0;
    while i < |t.args|
      invariant i <= |h.value.args| == |args|
      invariant i <= |t.args|
      invariant forall j :: 0 <= j < i ==> VisibleAsWritten(ev, t.args[j]) == Some(args[j])
      invariant args[i..] == h.value.args[i..]
    {
      assert t.args[i] in t.args;
      var a := VisibleType(ev, t.args[i]);
      if a.None? {
        VisibleArgsAsWrittenMeaning(ev, t, 0);
        return None;
      }
      if i >= |args| {
        return None;
      }
      assert args[i + 1..] == args[i..][1..];
      args := args[i := a.value];
      i := i + 1;
    }
    VisibleArgsClone(ev, t, args);
    return Some(h.value.(args := args));
  }

  /// Arguments that agree with the visible types of `t.args` on its indices
  /// and with the head's beyond them are those `visible_type` builds.
  lemma VisibleArgsClone(ev: Visibilities, t: TypeData, args: seq<TypeData>)
    requires Head(ev, t.(fieldRef := false)).Some?
    requires var h := Head(ev, t.(fieldRef := false)).value;
             && |t.args| <= |h.args| == |args|
             && (forall j :: 0 <= j < |t.args| ==> VisibleAsWritten(ev, t.args[j]) == Some(args[j]))
             && args[|t.args|..] == h.args[|t.args|..]
    ensures VisibleUnrefAsWritten(ev, t) == Some(Head(ev, t.(fieldRef := false)).value.(args := args))
  {
    var n := |t.args|;
    AgreeingArgsAsWritten(ev, t, 0, args);
    SplitAt(args, n);
  }

  lemma SplitAt<T>(s: seq<T>, n: nat)
    requires n <= |s|
    ensures s == s[0..n] + s[n..]
  {
  }

  /// Arguments that agree with the visible types of `t.args[i..]` are
  /// those the argument loop builds.
  lemma {:induction false} AgreeingArgsAsWritten(ev: Visibilities, t: TypeData, i: nat, args: seq<TypeData>)
    requires i <= |t.args| <= |args|
    requires forall j :: i <= j < |t.args| ==> VisibleAsWritten(ev, t.args[j]) == Some(args[j])
    ensures VisibleArgsAsWritten(ev, t, i) == Some(args[i..|t.args|])
    decreases |t.args| - i
  {
    if i < |t.args| {
      AgreeingArgsAsWritten(ev, t, i + 1, args);
      assert args[i..|t.args|] == [args[i]] + args[i + 1..|t.args|];
    }
  }

  // ---------------------------------------------------------------------------
  // Registration

  /// The two items `#[component_visible]` handles.
  datatype ItemKind = StructItem | TraitItem

  const ExportPrefix := "lockjaw_export_type_"

  /// The entry `handle_item_struct`/`handle_item_trait` records for the item
  /// `name` at position `pos`: keyed by the item's canonical path, the
  /// re-exported name as crate-local name and, as exported name, a CRATE
  /// type whose path is the item's identifier string; a trait marks both
  /// the item and the exported name as trait objects.
  function Registration(kind: ItemKind, name: string, sd: PrologueMods.SourceData, pos: nat, currentCrate: string)
    : Result<(string, CommonManifest.ExpandedVisibility)>
  {
    var ty :- PrologueFromLocal(name, sd, pos, currentCrate);
    var itemType := if kind == TraitItem then ty.(traitObject := true) else ty;
    var crateType := PrologueFromLocal(ExportPrefix + name, sd, pos, currentCrate).value;
    LocalRenders(itemType);
    var exported := NewType().(root := Crate, path := Identifier(itemType).value, fieldCrate := currentCrate,
                               traitObject := kind == TraitItem);
    Ok((Canonical(itemType).value, CommonManifest.ExpandedVisibility(exported, crateType)))
  }

  /// The type the attribute stands on, as `from_local` gives it.
  function ItemType(kind: ItemKind, name: string, sd: PrologueMods.SourceData, pos: nat, currentCrate: string)
    : Result<TypeData>
  {
    var ty :- PrologueFromLocal(name, sd, pos, currentCrate);
    Ok(if kind == TraitItem then ty.(traitObject := true) else ty)
  }

  /// Registration fails exactly without a prologue; otherwise the key is
  /// the item's canonical path, the exported name is a CRATE type in the
  /// current crate named by the item's identifier, with no arguments, and
  /// the crate-local name is the `lockjaw_export_type_` item beside it.
  lemma RegistrationShape(kind: ItemKind, name: string, sd: PrologueMods.SourceData, pos: nat,
                          currentCrate: string)
    ensures Registration(kind, name, sd, pos, currentCrate).Err? <==> PrologueMods.GetModIndex(sd.mods, pos).None?
    ensures Registration(kind, name, sd, pos, currentCrate).Ok? ==>
              var (key, v) := Registration(kind, name, sd, pos, currentCrate).value;
              var t := ItemType(kind, name, sd, pos, currentCrate).value;
              && key == (if kind == TraitItem then "dyn " else "") + "::" + currentCrate + "::" + t.path
              && Some(key) == CanonicalWithoutArgs(t)
              && v.exportedName.root == Crate && v.exportedName.args == []
              && Some(v.exportedName.path) == Identifier(t)
              && v.exportedName.fieldCrate == currentCrate
              && v.exportedName.traitObject == (kind == TraitItem) && t.traitObject == (kind == TraitItem)
              && v.crateLocalName == PrologueFromLocal(ExportPrefix + name, sd, pos, currentCrate).value
  {
    if Registration(kind, name, sd, pos, currentCrate).Ok? {
      var t := ItemType(kind, name, sd, pos, currentCrate).value;
      LocalRenders(t);
    }
  }

  /// Once registered, the item's type and its reference are seen as the
  /// exported name.
  lemma RegisteredItemIsExported(ev: Visibilities, kind: ItemKind, name: string, sd: PrologueMods.SourceData,
                                 pos: nat, currentCrate: string)
    requires Registration(kind, name, sd, pos, currentCrate).Ok?
    ensures var (key, v) := Registration(kind, name, sd, pos, currentCrate).value;
            var t := ItemType(kind, name, sd, pos, currentCrate).value;
            && Visible(ev[key := v], t) == Some(v.exportedName)
            && Visible(ev[key := v], t.(fieldRef := true)) == Some(v.exportedName.(fieldRef := true))
  {
    RegistrationShape(kind, name, sd, pos, currentCrate);
    var (key, v) := Registration(kind, name, sd, pos, currentCrate).value;
    var t := ItemType(kind, name, sd, pos, currentCrate).value;
    assert t.args == [] && !t.fieldRef;
    var ev2 := ev[key := v];
    assert t.(fieldRef := true).(fieldRef := false) == t;
    assert t.(fieldRef := false) == t;
    assert Head(ev2, t) == Some(v.exportedName);
    assert VisibleArgs(ev2, t, 0) == Some([]);
    assert VisibleArgs(ev2, t.(fieldRef := true), 0) == Some([]);
    assert v.exportedName.(args := []) == v.exportedName;
    assert VisibleUnref(ev2, t) == Some(v.exportedName);
    assert VisibleUnref(ev2, t.(fieldRef := true)) == Some(v.exportedName);
  }

  /// A registered struct used with a generic argument: `visible_type` as
  /// written panics, the intended result is the exported name with the
  /// argument's visible type.
  lemma GenericRegisteredStructPanics(ev: Visibilities, name: string, sd: PrologueMods.SourceData, pos: nat,
                                      currentCrate: string, arg: TypeData)
    requires Registration(StructItem, name, sd, pos, currentCrate).Ok? && Rooted(arg)
    ensures var (key, v) := Registration(StructItem, name, sd, pos, currentCrate).value;
            var t := ItemType(StructItem, name, sd, pos, currentCrate).value.(args := [arg]);
            && VisibleAsWritten(ev[key := v], t) == None
            && Visible(ev[key := v], arg).Some?
            && Visible(ev[key := v], t) == Some(v.exportedName.(args := [Visible(ev[key := v], arg).value]))
  {
    RegistrationShape(StructItem, name, sd, pos, currentCrate);
    var (key, v) := Registration(StructItem, name, sd, pos, currentCrate).value;
    var t0 := ItemType(StructItem, name, sd, pos, currentCrate).value;
    var t := t0.(args := [arg]);
    var ev2 := ev[key := v];
    assert CanonicalWithoutArgs(t) == CanonicalWithoutArgs(t0);
    assert t.(fieldRef := false) == t;
    GenericExportPanics(ev2, t);
    VisibleRooted(ev2, arg);
    VisibleUnrefMeaning(ev2, t);
    var r := VisibleUnref(ev2, t).value;
    assert Head(ev2, t) == Some(v.exportedName);
    assert r == v.exportedName.(args := r.args);
    assert r.args == [Visible(ev2, arg).value] by {
      assert t.args[0] == arg;
    }
  }

  /// The item under `#[component_visible]`, as far as the attribute
  /// distinguishes it: it is parsed as a struct first, then as a trait.
  datatype VisibleItem = StructDecl(name: string) | TraitDecl(name: string) | OtherItem

  const UnhandledItemMsg := "unable to handle the item"

  /// `handle_component_visible_attribute`: the entry for a struct or a
  /// trait, an error for anything else.
  function AttributeEntry(item: VisibleItem, sd: PrologueMods.SourceData, pos: nat, currentCrate: string)
    : (r: Result<(string, CommonManifest.ExpandedVisibility)>)
    ensures item.OtherItem? ==> r == Err(UnhandledItemMsg)
    ensures item.StructDecl? ==> r == Registration(StructItem, item.name, sd, pos, currentCrate)
    ensures item.TraitDecl? ==> r == Registration(TraitItem, item.name, sd, pos, currentCrate)
  {
    match item
    case StructDecl(n) => Registration(StructItem, n, sd, pos, currentCrate)
    case TraitDecl(n) => Registration(TraitItem, n, sd, pos, currentCrate)
    case OtherItem => Err(UnhandledItemMsg)
  }

  /// The manifest the attributes of one crate register into.
  class VisibilityRegistry {
    var visibilities: Visibilities

    constructor ()
      ensures visibilities == map[]
    {
      visibilities := map[];
    }

    /// `handle_item_struct`/`handle_item_trait`: on success the entry is
    /// inserted, replacing one under the same key; on error nothing changes.
    method HandleItem(kind: ItemKind, name: string, sd: PrologueMods.SourceData, pos: nat, currentCrate: string)
      returns (r: Result<()>)
      modifies this
      ensures r.Err? <==> Registration(kind, name, sd, pos, currentCrate).Err?
      ensures r.Err? ==> r.msg == Registration(kind, name, sd, pos, currentCrate).msg
      ensures r.Err? ==> visibilities == old(visibilities)
      ensures r.Ok? ==>
                var (key, v) := Registration(kind, name, sd, pos, currentCrate).value;
                visibilities == old(visibilities)[key := v]
    {
      var e := Registration(kind, name, sd, pos, currentCrate);
      if e.Err? {
        return Err(e.msg);
      }
      var (key, v) := e.value;
      visibilities := visibilities[key := v];
      return Ok(());
    }

    /// `handle_component_visible_attribute`.
    method HandleAttribute(item: VisibleItem, sd: PrologueMods.SourceData, pos: nat, currentCrate: string)
      returns (r: Result<()>)
      modifies this
      ensures r.Err? <==> AttributeEntry(item, sd, pos, currentCrate).Err?
      ensures r.Err? ==> r.msg == AttributeEntry(item, sd, pos, currentCrate).msg && visibilities == old(visibilities)
      ensures r.Ok? ==>
                var (key, v) := AttributeEntry(item, sd, pos, currentCrate).value;
                visibilities == old(visibilities)[key := v]
    {
      match item {
        case StructDecl(n) =>
          r := HandleItem(StructItem, n, sd, pos, currentCrate);
        case TraitDecl(n) =>
          r := HandleItem(TraitItem, n, sd, pos, currentCrate);
        case OtherItem =>
          r := Err(UnhandledItemMsg);
      }
    }
  }
}
