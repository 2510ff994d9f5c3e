// common/src/attributes/modules.rs: `#[module]` reads an impl block into a
// `Module` record of bindings. Every method carries exactly one of
// `#[provides]`, `#[binds]`, `#[binds_option_of]` and `#[multibinds]`, and
// may add a multibinding kind, a map key and a qualifier. Paths are read in
// the scope of the module the attribute stands in.
module ModuleAttrs {
  import opened Outcomes
  import opened Types
  import opened Syn
  import opened Strs
  import Parsing
  import TypeParse
  import UsePaths
  import LocalTypes
  import TypeRender
  import CM = CommonManifest
  import SynItems
  import AttributeKeys
  import ComponentAttrs

  /// `MODULE_METADATA_KEYS`.
  const ModuleKeys: set<string> := {"subcomponents", "install_in"}

  const ImplExpectedMsg := "impl expected"
  const PathExpectedMsg := "path expected"
  const OnlyOneMsg := "#[module] methods can only be annotated by one of #[provides]/#[binds]/#[binds_option_of]/#[multibinds]"
  const NoKindMsg := "#[module] methods can only be annotated by #[provides]/#[binds]/#[binds_option_of]"
  const ElementsOnBindsMsg := "#[elements_into_set] cannot be used on #[binds]"
  const ElementsVecMsg := "#[elements_into_set] must return Vec<T>"
  const StringKeyMsg := "string literal expected for string_key"
  const I32OverflowMsg := "key overflows i32"
  const I32KeyMsg := "i32 literal expected for i32_key"
  const EnumSegmentMsg := "enum value should have at least one segment"
  const ReturnExpectedMsg := "return type expected"
  const ConsumeSelfMsg := "modules should not consume self"
  const IdentifierExpectedMsg := "identifier expected"
  const BindsBodyMsg := "#[binds] methods must have empty body"
  const BindsReturnMsg := "#[binds] methods must return Cl<T>"
  const BindsParamMsg := "binds method must only take the binding type as parameter"
  const OptionBodyMsg := "#[binds_option_of] methods must have empty body"
  const OptionParamMsg := "binds_option_of method must only take no parameter"
  const MultibindsBodyMsg := "#[multibinds] methods must have empty body"
  const MultibindsReturnMsg := "#[multibinds] methods must return Vec<T> or HashMap<K,V>"
  const MultibindsArgsMsg := "#[multibinds] method must take no arguments"
  /// `return_type.args[0]` on a type without arguments.
  const IndexPanic := "panic: index out of bounds"
  const VecPath := "std::vec::Vec"
  const HashMapPath := "std::collections::HashMap"

  /// `build_script_fatal!` with a message.
  function Fatal(msg: string): string
  {
    "fatal: " + msg
  }

  // ---------------------------------------------------------------------------
  // Parameters and return types

  /// The dependency a `name: Type` parameter declares.
  function ArgDependency(a: SynItems.FnArg, sc: TypeParse.Scope): Result<CM.Dependency>
    requires a.Typed?
  {
    if a.pat.None? then Err(IdentifierExpectedMsg)
    else
      var t :- TypeParse.FromSynType(a.ty, sc);
      Ok(CM.Dependency(a.pat.value, t))
  }

  /// A parameter `handle_provides` accepts: `&self`, or a named parameter
  /// whose type reads.
  predicate ArgAccepted(a: SynItems.FnArg, sc: TypeParse.Scope)
  {
    if a.Receiver? then a.isRef else ArgDependency(a, sc).Ok?
  }

  /// The typed parameters among `s`, in order.
  function TypedArgs(s: seq<SynItems.FnArg>): (r: seq<SynItems.FnArg>)
    ensures |r| <= |s|
    ensures forall j :: 0 <= j < |r| ==> r[j].Typed?
  {
    if s == [] then [] else (if s[0].Typed? then [s[0]] else []) + TypedArgs(s[1..])
  }

  /// The declared return type, read as a type.
  function ReturnTypeOf(sig: SynItems.Signature, sc: TypeParse.Scope): Result<TypeData>
  {
    match sig.output
    case DefaultReturn => Err(ReturnExpectedMsg)
    case ReturnsType(ty, _) => TypeParse.FromSynType(ty, sc)
  }

  /// The `scope` metadata of a binding attribute, read by `parsing::get_types`.
  function ScopesOf(a: Parsing.Attribute, sc: TypeParse.Scope): Result<seq<TypeData>>
  {
    var fields :- Parsing.GetParenthesizedFieldValues(a.meta);
    if "scope" in fields then Parsing.GetTypes(Some(fields["scope"]), sc) else Ok([])
  }

  /// What the parameter loop of `handle_provides` has gathered.
  datatype ArgsRead = ArgsRead(isStatic: bool, dependencies: seq<CM.Dependency>)

  /// The parameter loop of `handle_provides` from parameter `i` on.
  function ProvidesArgs(inputs: seq<SynItems.FnArg>, i: nat, acc: ArgsRead, sc: TypeParse.Scope): Result<ArgsRead>
    requires i <= |inputs|
    decreases |inputs| - i
  {
    if i == |inputs| then Ok(acc)
    else
      match inputs[i]
      case Receiver(isRef) =>
        if !isRef then Err(ConsumeSelfMsg) else ProvidesArgs(inputs, i + 1, acc.(isStatic := false), sc)
      case Typed(_, _, _) =>
        var d :- ArgDependency(inputs[i], sc);
        ProvidesArgs(inputs, i + 1, acc.(dependencies := acc.dependencies + [d]), sc)
  }

  /// The parameter loop accepts exactly the lists without a by-value `self`
  /// whose other parameters all read; `field_static` survives only when
  /// there is no receiver, and the dependencies added are those of the typed
  /// parameters, in order.
  lemma ProvidesArgsMeaning(inputs: seq<SynItems.FnArg>, i: nat, acc: ArgsRead, sc: TypeParse.Scope)
    requires i <= |inputs|
    ensures var r := ProvidesArgs(inputs, i, acc, sc);
            r.Ok? <==> forall j :: i <= j < |inputs| ==> ArgAccepted(inputs[j], sc)
    ensures var r := ProvidesArgs(inputs, i, acc, sc);
            r.Ok? ==> (r.value.isStatic <==> acc.isStatic && forall j :: i <= j < |inputs| ==> !inputs[j].Receiver?)
    ensures var r := ProvidesArgs(inputs, i, acc, sc);
            var ts := TypedArgs(inputs[i..]);
            r.Ok? ==>
              && |r.value.dependencies| == |acc.dependencies| + |ts|
              && r.value.dependencies[..|acc.dependencies|] == acc.dependencies
              && forall k :: 0 <= k < |ts| ==> ArgDependency(ts[k], sc) == Ok(r.value.dependencies[|acc.dependencies| + k])
  {
    ProvidesArgsOk(inputs, i, acc, sc);
    ProvidesArgsStatic(inputs, i, acc, sc);
    ProvidesArgsDependencies(inputs, i, acc, sc);
  }

  lemma {:induction false} ProvidesArgsOk(inputs: seq<SynItems.FnArg>, i: nat, acc: ArgsRead, sc: TypeParse.Scope)
    requires i <= |inputs|
    ensures ProvidesArgs(inputs, i, acc, sc).Ok? <==> forall j :: i <= j < |inputs| ==> ArgAccepted(inputs[j], sc)
    decreases |inputs| - i
  {
    if i < |inputs| {
      if inputs[i].Receiver? && inputs[i].isRef {
        ProvidesArgsOk(inputs, i + 1, acc.(isStatic := false), sc);
      } else if inputs[i].Typed? && ArgDependency(inputs[i], sc).Ok? {
        var d := ArgDependency(inputs[i], sc).value;
        ProvidesArgsOk(inputs, i + 1, acc.(dependencies := acc.dependencies + [d]), sc);
      }
    }
  }

  lemma {:induction false} ProvidesArgsStatic(inputs: seq<SynItems.FnArg>, i: nat, acc: ArgsRead, sc: TypeParse.Scope)
    requires i <= |inputs|
    ensures var r := ProvidesArgs(inputs, i, acc, sc);
            r.Ok? ==> (r.value.isStatic <==> acc.isStatic && forall j :: i <= j < |inputs| ==> !inputs[j].Receiver?)
    decreases |inputs| - i
  {
    if i < |inputs| {
      if inputs[i].Receiver? && inputs[i].isRef {
        ProvidesArgsStatic(inputs, i + 1, acc.(isStatic := false), sc);
      } else if inputs[i].Typed? && ArgDependency(inputs[i], sc).Ok? {
        var d := ArgDependency(inputs[i], sc).value;
        ProvidesArgsStatic(inputs, i + 1, acc.(dependencies := acc.dependencies + [d]), sc);
      }
    }
  }

  lemma {:induction false} ProvidesArgsDependencies(inputs: seq<SynItems.FnArg>, i: nat, acc: ArgsRead,
                                                    sc: TypeParse.Scope)
    requires i <= |inputs|
    ensures var r := ProvidesArgs(inputs, i, acc, sc);
            var ts := TypedArgs(inputs[i..]);
            r.Ok? ==>
              && |r.value.dependencies| == |acc.dependencies| + |ts|
              && r.value.dependencies[..|acc.dependencies|] == acc.dependencies
              && forall k :: 0 <= k < |ts| ==> ArgDependency(ts[k], sc) == Ok(r.value.dependencies[|acc.dependencies| + k])
    decreases |inputs| - i
  {
    if i < |inputs| {
      var s := inputs[i..];
      assert s[0] == inputs[i] && s[1..] == inputs[i + 1..];
      var ts' := TypedArgs(inputs[i + 1..]);
      assert TypedArgs(s) == (if inputs[i].Typed? then [inputs[i]] else []) + ts';
      if inputs[i].Receiver? && inputs[i].isRef {
        ProvidesArgsDependencies(inputs, i + 1, acc.(isStatic := false), sc);
      } else if inputs[i].Typed? && ArgDependency(inputs[i], sc).Ok? {
        var d := ArgDependency(inputs[i], sc).value;
        var acc' := acc.(dependencies := acc.dependencies + [d]);
        ProvidesArgsDependencies(inputs, i + 1, acc', sc);
        var r := ProvidesArgs(inputs, i, acc, sc);
        if r.Ok? {
          var ds := r.value.dependencies;
          assert ds[..|acc'.dependencies|] == acc'.dependencies;
          assert ds[..|acc.dependencies|] == acc'.dependencies[..|acc.dependencies|];
          forall k | 0 <= k < |TypedArgs(s)|
            ensures ArgDependency(TypedArgs(s)[k], sc) == Ok(ds[|acc.dependencies| + k])
          {
            if k == 0 {
              assert ds[|acc.dependencies|] == acc'.dependencies[|acc.dependencies|];
            } else {
              assert TypedArgs(s)[k] == ts'[k - 1];
            }
          }
        }
      }
    }
  }

  /// The parameter loop of `handle_provides`.
  method ReadProvidesArgs(inputs: seq<SynItems.FnArg>, sc: TypeParse.Scope) returns (r: Result<ArgsRead>)
    ensures r == ProvidesArgs(inputs, 0, ArgsRead(true, []), sc)
  {
    var isStatic := true;
    var dependencies: seq<CM.Dependency> := [];
    var i := 0;
    while i < |inputs|
      invariant i <= |inputs|
      invariant ProvidesArgs(inputs, i, ArgsRead(isStatic, dependencies), sc)
                == ProvidesArgs(inputs, 0, ArgsRead(true, []), sc)
    {
      match inputs[i] {
        case Receiver(isRef) =>
          if !isRef {
            return Err(ConsumeSelfMsg);
          }
          isStatic := false;
        case Typed(_, pat, ty) =>
          if pat.None? {
            return Err(IdentifierExpectedMsg);
          }
          var t := TypeParse.FromSynType(ty, sc);
          if t.Err? {
            return Err(t.msg);
          }
          dependencies := dependencies + [CM.Dependency(pat.value, t.value)];
      }
      i := i + 1;
    }
    return Ok(ArgsRead(isStatic, dependencies));
  }

  // ---------------------------------------------------------------------------
  // The four binding kinds

  /// `handle_provides`.
  function ProvidesBinding(a: Parsing.Attribute, sig: SynItems.Signature, sc: TypeParse.Scope): Result<CM.Binding>
  {
    var ty :- ReturnTypeOf(sig, sc);
    var args :- ProvidesArgs(sig.inputs, 0, ArgsRead(true, []), sc);
    var scopes :- ScopesOf(a, sc);
    Ok(CM.NewBinding(CM.ProvidesBinding).(name := sig.ident, ty := ty.(scopes := ty.scopes + scopes),
                                          isStatic := args.isStatic, dependencies := args.dependencies))
  }

  /// A provides binding is named after its method and typed by its return
  /// type with the `scope` types appended; it fails exactly when the return
  /// type is missing or unreadable, a parameter is rejected or the scopes
  /// do not read. `&self` makes it non-static, and its dependencies are the
  /// named parameters in order.
  lemma ProvidesShape(a: Parsing.Attribute, sig: SynItems.Signature, sc: TypeParse.Scope)
    ensures var r := ProvidesBinding(a, sig, sc);
            r.Ok? <==> ReturnTypeOf(sig, sc).Ok? && ScopesOf(a, sc).Ok?
                       && forall j :: 0 <= j < |sig.inputs| ==> ArgAccepted(sig.inputs[j], sc)
    ensures var r := ProvidesBinding(a, sig, sc);
            var ts := TypedArgs(sig.inputs);
            r.Ok? ==>
              var rt := ReturnTypeOf(sig, sc).value;
              && r.value.bindingType == CM.ProvidesBinding && r.value.name == sig.ident
              && r.value.ty == rt.(scopes := rt.scopes + ScopesOf(a, sc).value)
              && (r.value.isStatic <==> forall j :: 0 <= j < |sig.inputs| ==> !sig.inputs[j].Receiver?)
              && |r.value.dependencies| == |ts|
              && (forall k :: 0 <= k < |ts| ==> ArgDependency(ts[k], sc) == Ok(r.value.dependencies[k]))
              && r.value.multibindingType == CM.NoMultibinding && r.value.mapKey == CM.NoKey
  {
    ProvidesArgsMeaning(sig.inputs, 0, ArgsRead(true, []), sc);
    assert sig.inputs[0..] == sig.inputs;
  }

  /// `handle_provides` with its parameter loop.
  method HandleProvides(a: Parsing.Attribute, sig: SynItems.Signature, sc: TypeParse.Scope)
    returns (r: Result<CM.Binding>)
    ensures r == ProvidesBinding(a, sig, sc)
  {
    var ty := ReturnTypeOf(sig, sc);
    if ty.Err? {
      return Err(ty.msg);
    }
    var args := ReadProvidesArgs(sig.inputs, sc);
    if args.Err? {
      return Err(args.msg);
    }
    var scopes := ScopesOf(a, sc);
    if scopes.Err? {
      return Err(scopes.msg);
    }
    var t := ty.value;
    return Ok(CM.NewBinding(CM.ProvidesBinding).(name := sig.ident, ty := t.(scopes := t.scopes + scopes.value),
                                                 isStatic := args.value.isStatic,
                                                 dependencies := args.value.dependencies));
  }

  /// `handle_binds`: an empty body, a `Cl<T>` return (bound type `T`) and a
  /// single named parameter.
  function BindsBinding(a: Parsing.Attribute, sig: SynItems.Signature, stmts: nat, sc: TypeParse.Scope)
    : Result<CM.Binding>
  {
    if stmts != 0 then Err(BindsBodyMsg)
    else
      var rt :- ReturnTypeOf(sig, sc);
      if rt.path != "lockjaw::Cl" && rt.path != "Cl" then Err(Fatal(BindsReturnMsg))
      else if |rt.args| == 0 then Err(IndexPanic)
      else if |sig.inputs| != 1 || sig.inputs[0].Receiver? then Err(BindsParamMsg)
      else
        var d :- ArgDependency(sig.inputs[0], sc);
        var scopes :- ScopesOf(a, sc);
        var ty := rt.args[0];
        Ok(CM.NewBinding(CM.BindsBinding).(name := sig.ident, ty := ty.(scopes := ty.scopes + scopes),
                                           dependencies := [d]))
  }

  /// A binds binding has an empty body, returns `Cl<T>` and takes exactly one
  /// named parameter, its only dependency; it binds `T` with the `scope`
  /// types appended and is static.
  lemma BindsShape(a: Parsing.Attribute, sig: SynItems.Signature, stmts: nat, sc: TypeParse.Scope)
    ensures var r := BindsBinding(a, sig, stmts, sc);
            r.Ok? ==>
              && stmts == 0 && |sig.inputs| == 1 && sig.inputs[0].Typed?
              && ReturnTypeOf(sig, sc).Ok? && ScopesOf(a, sc).Ok?
              && var rt := ReturnTypeOf(sig, sc).value;
                 && (rt.path == "lockjaw::Cl" || rt.path == "Cl") && |rt.args| >= 1
                 && r.value.ty == rt.args[0].(scopes := rt.args[0].scopes + ScopesOf(a, sc).value)
                 && r.value.dependencies == [ArgDependency(sig.inputs[0], sc).value]
                 && r.value.bindingType == CM.BindsBinding && r.value.name == sig.ident && r.value.isStatic
    ensures stmts != 0 ==> BindsBinding(a, sig, stmts, sc) == Err(BindsBodyMsg)
  {
  }

  /// `handle_binds_option_of`: an empty body and no parameters; the binding
  /// keeps the default (empty) name.
  function BindsOptionOfBinding(sig: SynItems.Signature, stmts: nat, sc: TypeParse.Scope): Result<CM.Binding>
  {
    if stmts != 0 then Err(OptionBodyMsg)
    else
      var ty :- ReturnTypeOf(sig, sc);
      if |sig.inputs| != 0 then Err(OptionParamMsg)
      else Ok(CM.NewBinding(CM.BindsOptionOfBinding).(ty := ty))
  }

  /// `handle_multibinds`: an empty body, a `Vec` or `HashMap` return and no
  /// parameters.
  function MultibindsBinding(sig: SynItems.Signature, stmts: nat, sc: TypeParse.Scope): Result<CM.Binding>
  {
    if stmts != 0 then Err(MultibindsBodyMsg)
    else
      var ty :- ReturnTypeOf(sig, sc);
      if ty.path != VecPath && ty.path != HashMapPath then Err(Fatal(MultibindsReturnMsg))
      else if |sig.inputs| != 0 then Err(MultibindsArgsMsg)
      else Ok(CM.NewBinding(CM.MultibindsBinding).(name := sig.ident, ty := ty))
  }

  /// Both declare-only kinds need an empty body and no parameters and bind
  /// the return type as written, without dependencies; a multibinding
  /// declaration returns a `Vec` or a `HashMap`.
  lemma DeclarationShapes(sig: SynItems.Signature, stmts: nat, sc: TypeParse.Scope)
    ensures var r := BindsOptionOfBinding(sig, stmts, sc);
            r.Ok? ==> stmts == 0 && sig.inputs == [] && Ok(r.value.ty) == ReturnTypeOf(sig, sc)
                      && r.value.dependencies == [] && r.value.name == ""
                      && r.value.bindingType == CM.BindsOptionOfBinding
    ensures var r := MultibindsBinding(sig, stmts, sc);
            r.Ok? ==> stmts == 0 && sig.inputs == [] && Ok(r.value.ty) == ReturnTypeOf(sig, sc)
                      && r.value.ty.path in {VecPath, HashMapPath}
                      && r.value.dependencies == [] && r.value.name == sig.ident
                      && r.value.bindingType == CM.MultibindsBinding
  {
  }

  // ---------------------------------------------------------------------------
  // Map keys

  /// The position of the last "::" of `s` before `n`.
  function LastColonsBelow(s: string, n: nat): (r: Option<nat>)
    requires n <= |s|
    ensures r.Some? ==> r.value < n && ContainsAt(s, "::", r.value)
    ensures forall j: nat :: j < n && (r.None? || r.value < j) ==> !ContainsAt(s, "::", j)
    decreases n
  {
    if n == 0 then None
    else if ContainsAt(s, "::", n - 1) then Some(n - 1)
    else LastColonsBelow(s, n - 1)
  }

  /// `rfind("::")`: the position of the last "::" of `s`.
  function LastColons(s: string): (r: Option<nat>)
    ensures r.Some? ==> ContainsAt(s, "::", r.value)
    ensures forall j: nat :: (r.None? || r.value < j) ==> !ContainsAt(s, "::", j)
  {
    LastColonsBelow(s, |s|)
  }

  /// A key as parsing leaves it: an `i32` key within range, an enum key
  /// whose enum type is the value's path cut before its last "::".
  predicate WellFormedKey(k: CM.MapKey)
  {
    && (k.I32Key? ==> CM.I32Range(k.v))
    && (k.EnumKey? ==>
          && LastColons(k.value.path).Some?
          && k.enumType == k.value.(path := k.value.path[..LastColons(k.value.path).value]))
  }

  /// The key of `#[into_map(...)]`: `string_key`, else `i32_key`, else
  /// `enum_key`, else none (the key stays as it was). A non-path
  /// `enum_key` is rejected with the message of `i32_key`, as written.
  function MapKeyOf(a: Parsing.Attribute, sc: TypeParse.Scope): (r: Result<Option<CM.MapKey>>)
    ensures r.Ok? && r.value.Some? ==> WellFormedKey(r.value.value)
  {
    var fields :- Parsing.GetParenthesizedFieldValues(a.meta);
    if "string_key" in fields then
      match fields["string_key"]
      case StringLiteral(s) => Ok(Some(CM.StringKey(s)))
      case _ => Err(StringKeyMsg)
    else if "i32_key" in fields then
      match fields["i32_key"]
      case IntLiteral(v) => if CM.I32Range(v) then Ok(Some(CM.I32Key(v))) else Err(I32OverflowMsg)
      case _ => Err(I32KeyMsg)
    else if "enum_key" in fields then
      match fields["enum_key"]
      case PathValue(p) =>
        var value :- TypeParse.FromPath(p, sc);
        var k :- OrError(LastColons(value.path), EnumSegmentMsg);
        Ok(Some(CM.EnumKey(value.(path := value.path[..k]), value)))
      case _ => Err(I32KeyMsg)
    else Ok(None)
  }

  /// The three keys are tried in a fixed order, and an out-of-range `i32`
  /// key is rejected.
  lemma MapKeyChoice(a: Parsing.Attribute, sc: TypeParse.Scope)
    requires Parsing.GetParenthesizedFieldValues(a.meta).Ok?
    ensures var fields := Parsing.GetParenthesizedFieldValues(a.meta).value;
            var r := MapKeyOf(a, sc);
            && ("string_key" in fields ==>
                  r == (if fields["string_key"].StringLiteral? then Ok(Some(CM.StringKey(fields["string_key"].s)))
                        else Err(StringKeyMsg)))
            && ("string_key" !in fields && "i32_key" in fields && fields["i32_key"].IntLiteral? ==>
                  (r.Ok? <==> CM.I32Range(fields["i32_key"].v)))
            && ("string_key" !in fields && "i32_key" !in fields && "enum_key" !in fields ==> r == Ok(None))
  {
  }

  // ---------------------------------------------------------------------------
  // parse_binding

  /// The variables of the attribute loop of `parse_binding`.
  datatype AttrState = AttrState(
    binding: Option<CM.Binding>,
    multibinding: CM.MultibindingType,
    mapKey: CM.MapKey,
    qualifier: Option<TypeData>)

  const Initial := AttrState(None, CM.NoMultibinding, CM.NoKey, None)

  /// The four attributes that make a method a binding.
  predicate IsKind(a: Parsing.Attribute)
  {
    Parsing.GetAttribute(a) in {"provides", "binds", "binds_option_of", "multibinds"}
  }

  /// The binding a kind attribute reads.
  function KindBinding(a: Parsing.Attribute, f: SynItems.Method, sc: TypeParse.Scope): Result<CM.Binding>
    requires IsKind(a)
  {
    var name := Parsing.GetAttribute(a);
    if name == "provides" then ProvidesBinding(a, f.sig, sc)
    else if name == "binds" then BindsBinding(a, f.sig, f.stmts, sc)
    else if name == "binds_option_of" then BindsOptionOfBinding(f.sig, f.stmts, sc)
    else MultibindsBinding(f.sig, f.stmts, sc)
  }

  /// `elements_into_vec`: a declared return type must be a `Vec`.
  function ElementsStep(f: SynItems.Method, st: AttrState, sc: TypeParse.Scope): Result<AttrState>
  {
    match f.sig.output
    case DefaultReturn => Ok(st.(multibinding := CM.ElementsIntoVec))
    case ReturnsType(ty, _) =>
      var rt :- TypeParse.FromSynType(ty, sc);
      if rt.path != VecPath then Err(Fatal(ElementsVecMsg)) else Ok(st.(multibinding := CM.ElementsIntoVec))
  }

  /// One pass of the attribute loop.
  function AttrStep(a: Parsing.Attribute, f: SynItems.Method, st: AttrState, sc: TypeParse.Scope): Result<AttrState>
  {
    var name := Parsing.GetAttribute(a);
    if IsKind(a) then
      if st.binding.Some? then Err(OnlyOneMsg)
      else
        var b :- KindBinding(a, f, sc);
        Ok(st.(binding := Some(b)))
    else if name == "into_vec" then Ok(st.(multibinding := CM.IntoVec))
    else if name == "elements_into_vec" then ElementsStep(f, st, sc)
    else if name == "qualified" then
      var q :- ComponentAttrs.QualifierType(a, sc);
      Ok(st.(qualifier := Some(q)))
    else if name == "into_map" then
      var k :- MapKeyOf(a, sc);
      Ok(st.(multibinding := CM.IntoMap, mapKey := if k.Some? then k.value else st.mapKey))
    else Ok(st)
  }

  /// The attribute loop from attribute `i` on.
  function AttrsFrom(f: SynItems.Method, i: nat, st: AttrState, sc: TypeParse.Scope): Result<AttrState>
    requires i <= |f.attrs|
    decreases |f.attrs| - i
  {
    if i == |f.attrs| then Ok(st)
    else
      var st' :- AttrStep(f.attrs[i], f, st, sc);
      AttrsFrom(f, i + 1, st', sc)
  }

  /// The checks after the loop, and the collected facts copied onto the
  /// binding.
  function Finish(st: AttrState): Result<CM.Binding>
  {
    if st.binding.None? then Err(NoKindMsg)
    else
      var b := st.binding.value;
      if b.bindingType == CM.BindsBinding && st.multibinding == CM.ElementsIntoVec then Err(ElementsOnBindsMsg)
      else if st.multibinding == CM.ElementsIntoVec && b.ty.path != VecPath then Err(ElementsVecMsg)
      else Ok(b.(multibindingType := st.multibinding, mapKey := st.mapKey, ty := b.ty.(qualifier := st.qualifier)))
  }

  /// `parse_binding`.
  function ParseBinding(f: SynItems.Method, sc: TypeParse.Scope): Result<CM.Binding>
  {
    var st :- AttrsFrom(f, 0, Initial, sc);
    Finish(st)
  }

  /// The number of kind attributes among `attrs[i..]`.
  function KindCount(attrs: seq<Parsing.Attribute>, i: nat): nat
    requires i <= |attrs|
    decreases |attrs| - i
  {
    if i == |attrs| then 0 else (if IsKind(attrs[i]) then 1 else 0) + KindCount(attrs, i + 1)
  }

  /// The multibinding kind the attributes `attrs[i..]` leave, from `acc`:
  /// the last of `into_vec`, `elements_into_vec` and `into_map` wins.
  function LastMultibinding(attrs: seq<Parsing.Attribute>, i: nat, acc: CM.MultibindingType): CM.MultibindingType
    requires i <= |attrs|
    decreases |attrs| - i
  {
    if i == |attrs| then acc
    else
      var name := Parsing.GetAttribute(attrs[i]);
      var acc' := if name == "into_vec" then CM.IntoVec
                  else if name == "elements_into_vec" then CM.ElementsIntoVec
                  else if name == "into_map" then CM.IntoMap
                  else acc;
      LastMultibinding(attrs, i + 1, acc')
  }

  /// A successful attribute loop met at most one kind attribute, none at
  /// all once a binding is held, and holds a binding exactly when one was
  /// held or met; its multibinding kind is the last one named, its
  /// qualifier that of the last `#[qualified]` attribute, and its map key
  /// stays well formed.
  lemma AttrsFromMeaning(f: SynItems.Method, i: nat, st: AttrState, sc: TypeParse.Scope)
    requires i <= |f.attrs|
    ensures var r := AttrsFrom(f, i, st, sc);
            r.Ok? ==>
              && (st.binding.Some? ==> KindCount(f.attrs, i) == 0 && r.value.binding == st.binding)
              && (st.binding.None? ==> KindCount(f.attrs, i) <= 1
                                       && (r.value.binding.Some? <==> KindCount(f.attrs, i) == 1))
              && r.value.multibinding == LastMultibinding(f.attrs, i, st.multibinding)
              && ComponentAttrs.QualifierFrom(f.attrs, i, st.qualifier, sc) == Ok(r.value.qualifier)
              && (WellFormedKey(st.mapKey) ==> WellFormedKey(r.value.mapKey))
  {
    AttrsFromBinding(f, i, st, sc);
    AttrsFromMultibinding(f, i, st, sc);
    AttrsFromQualifier(f, i, st, sc);
    AttrsFromMapKey(f, i, st, sc);
  }

  lemma {:induction false} AttrsFromBinding(f: SynItems.Method, i: nat, st: AttrState, sc: TypeParse.Scope)
    requires i <= |f.attrs|
    ensures var r := AttrsFrom(f, i, st, sc);
            r.Ok? ==>
              && (st.binding.Some? ==> KindCount(f.attrs, i) == 0 && r.value.binding == st.binding)
              && (st.binding.None? ==> KindCount(f.attrs, i) <= 1
                                       && (r.value.binding.Some? <==> KindCount(f.attrs, i) == 1))
    decreases |f.attrs| - i
  {
    if i < |f.attrs| {
      var s := AttrStep(f.attrs[i], f, st, sc);
      if s.Ok? {
        AttrStepBinding(f.attrs[i], f, st, sc);
        AttrsFromBinding(f, i + 1, s.value, sc);
      }
    }
  }

  /// One pass sets the binding exactly at a kind attribute, and only when
  /// none was held.
  lemma AttrStepBinding(a: Parsing.Attribute, f: SynItems.Method, st: AttrState, sc: TypeParse.Scope)
    requires AttrStep(a, f, st, sc).Ok?
    ensures IsKind(a) ==> st.binding.None? && AttrStep(a, f, st, sc).value.binding.Some?
    ensures !IsKind(a) ==> AttrStep(a, f, st, sc).value.binding == st.binding
  {
  }

  lemma {:induction false} AttrsFromMultibinding(f: SynItems.Method, i: nat, st: AttrState, sc: TypeParse.Scope)
    requires i <= |f.attrs|
    ensures var r := AttrsFrom(f, i, st, sc);
            r.Ok? ==>
              r.value.multibinding == LastMultibinding(f.attrs, i, st.multibinding)
    decreases |f.attrs| - i
  {
    if i < |f.attrs| {
      var s := AttrStep(f.attrs[i], f, st, sc);
      if s.Ok? {
        AttrsFromMultibinding(f, i + 1, s.value, sc);
      }
    }
  }

  lemma {:induction false} AttrsFromQualifier(f: SynItems.Method, i: nat, st: AttrState, sc: TypeParse.Scope)
    requires i <= |f.attrs|
    ensures var r := AttrsFrom(f, i, st, sc);
            r.Ok? ==>
              ComponentAttrs.QualifierFrom(f.attrs, i, st.qualifier, sc) == Ok(r.value.qualifier)
    decreases |f.attrs| - i
  {
    if i < |f.attrs| {
      var s := AttrStep(f.attrs[i], f, st, sc);
      if s.Ok? {
        AttrsFromQualifier(f, i + 1, s.value, sc);
      }
    }
  }

  lemma {:induction false} AttrsFromMapKey(f: SynItems.Method, i: nat, st: AttrState, sc: TypeParse.Scope)
    requires i <= |f.attrs|
    ensures var r := AttrsFrom(f, i, st, sc);
            r.Ok? ==>
              WellFormedKey(st.mapKey) ==> WellFormedKey(r.value.mapKey)
    decreases |f.attrs| - i
  {
    if i < |f.attrs| {
      var s := AttrStep(f.attrs[i], f, st, sc);
      if s.Ok? {
        AttrsFromMapKey(f, i + 1, s.value, sc);
      }
    }
  }

  /// A successful attribute loop from no binding holds the binding read by
  /// the kind attribute at `j`.
  lemma {:induction false} AttrsFromKindAt(f: SynItems.Method, i: nat, st: AttrState, sc: TypeParse.Scope, j: nat)
    requires i <= j < |f.attrs| && IsKind(f.attrs[j]) && st.binding.None?
    requires AttrsFrom(f, i, st, sc).Ok?
    ensures KindBinding(f.attrs[j], f, sc).Ok?
    ensures AttrsFrom(f, i, st, sc).value.binding == Some(KindBinding(f.attrs[j], f, sc).value)
    decreases |f.attrs| - i
  {
    var s := AttrStep(f.attrs[i], f, st, sc).value;
    if i == j {
      AttrsFromBinding(f, i + 1, s, sc);
    } else {
      if IsKind(f.attrs[i]) {
        AttrsFromBinding(f, i + 1, s, sc);
        KindCountAt(f.attrs, i + 1, j);
        assert false;
      } else {
        AttrsFromKindAt(f, i + 1, s, sc, j);
      }
    }
  }

  /// A kind attribute at `j` counts.
  lemma {:induction false} KindCountAt(attrs: seq<Parsing.Attribute>, i: nat, j: nat)
    requires i <= j < |attrs| && IsKind(attrs[j])
    ensures KindCount(attrs, i) >= 1
    decreases j - i
  {
    if i < j {
      KindCountAt(attrs, i + 1, j);
    }
  }

  /// A binding comes from exactly one kind attribute, the one at `j`: its
  /// kind, name, type and dependencies are that attribute's, its type
  /// carries the qualifier of the last `#[qualified]` attribute, its
  /// multibinding kind is the last one named, and its map key is well
  /// formed.
  lemma ParseBindingMeaning(f: SynItems.Method, sc: TypeParse.Scope, j: nat)
    requires j < |f.attrs| && IsKind(f.attrs[j])
    requires ParseBinding(f, sc).Ok?
    ensures KindCount(f.attrs, 0) == 1
    ensures KindBinding(f.attrs[j], f, sc).Ok?
    ensures ComponentAttrs.QualifierFrom(f.attrs, 0, None, sc).Ok?
    ensures var r := ParseBinding(f, sc).value;
            var b := KindBinding(f.attrs[j], f, sc).value;
            && r.bindingType == b.bindingType && r.name == b.name && r.dependencies == b.dependencies
            && r.isStatic == b.isStatic
            && r.ty == b.ty.(qualifier := ComponentAttrs.QualifierFrom(f.attrs, 0, None, sc).value)
            && r.multibindingType == LastMultibinding(f.attrs, 0, CM.NoMultibinding)
            && WellFormedKey(r.mapKey)
  {
    AttrsFromMeaning(f, 0, Initial, sc);
    AttrsFromKindAt(f, 0, Initial, sc, j);
  }

  /// A method with no kind attribute, or with more than one, is rejected.
  lemma ParseBindingNeedsOneKind(f: SynItems.Method, sc: TypeParse.Scope)
    requires KindCount(f.attrs, 0) != 1
    ensures ParseBinding(f, sc).Err?
  {
    AttrsFromMeaning(f, 0, Initial, sc);
  }

  /// `elements_into_vec` never ends up on a binds binding, and always on a
  /// `Vec`.
  lemma ParseBindingElements(f: SynItems.Method, sc: TypeParse.Scope)
    requires ParseBinding(f, sc).Ok? && ParseBinding(f, sc).value.multibindingType == CM.ElementsIntoVec
    ensures ParseBinding(f, sc).value.bindingType != CM.BindsBinding
    ensures ParseBinding(f, sc).value.ty.path == VecPath
  {
  }

  /// The attribute loop of `parse_binding`, with the parameter loop of
  /// `handle_provides`.
  method ParseBindingLoop(f: SynItems.Method, sc: TypeParse.Scope) returns (r: Result<CM.Binding>)
    ensures r == ParseBinding(f, sc)
  {
    var st := Initial;
    var i := 0;
    while i < |f.attrs|
      invariant i <= |f.attrs|
      invariant AttrsFrom(f, i, st, sc) == AttrsFrom(f, 0, Initial, sc)
    {
      var a := f.attrs[i];
      var name := Parsing.GetAttribute(a);
      if IsKind(a) {
        if st.binding.Some? {
          return Err(OnlyOneMsg);
        }
        var b: Result<CM.Binding>;
        if name == "provides" {
          b := HandleProvides(a, f.sig, sc);
        } else {
          b := KindBinding(a, f, sc);
        }
        if b.Err? {
          return Err(b.msg);
        }
        st := st.(binding := Some(b.value));
      } else if name == "into_vec" {
        st := st.(multibinding := CM.IntoVec);
      } else if name == "elements_into_vec" {
        var s := ElementsStep(f, st, sc);
        if s.Err? {
          return Err(s.msg);
        }
        st := s.value;
      } else if name == "qualified" {
        var q := ComponentAttrs.QualifierType(a, sc);
        if q.Err? {
          return Err(q.msg);
        }
        st := st.(qualifier := Some(q.value));
      } else if name == "into_map" {
        var k := MapKeyOf(a, sc);
        if k.Err? {
          return Err(k.msg);
        }
        st := st.(multibinding := CM.IntoMap, mapKey := if k.value.Some? then k.value.value else st.mapKey);
      }
      i := i + 1;
    }
    r := Finish(st);
  }

  // ---------------------------------------------------------------------------
  // handle_module_attribute

  /// The item loop over `items[i..]`: one binding per method, in order, the
  /// first failing method's error otherwise.
  function Bindings(items: seq<SynItems.ImplItem>, i: nat, sc: TypeParse.Scope): Result<seq<CM.Binding>>
    requires i <= |items|
  {
    SynItems.MapImplMethods(items, i, (f: SynItems.Method) => ParseBinding(f, sc))
  }

  /// The loop succeeds exactly when every method's binding parses, and then
  /// holds the methods' bindings in order; otherwise it fails with the first
  /// failing method's error.
  lemma BindingsMeaning(items: seq<SynItems.ImplItem>, i: nat, sc: TypeParse.Scope)
    requires i <= |items|
    ensures var fs := SynItems.ImplMethods(items, i);
            var r := Bindings(items, i, sc);
            && (r.Ok? <==> forall j :: 0 <= j < |fs| ==> ParseBinding(fs[j], sc).Ok?)
            && (r.Ok? ==> |r.value| == |fs| && forall j :: 0 <= j < |fs| ==> ParseBinding(fs[j], sc) == Ok(r.value[j]))
            && (r.Err? ==> exists j :: 0 <= j < |fs| && ParseBinding(fs[j], sc) == Err(r.msg)
                                      && forall k :: 0 <= k < j ==> ParseBinding(fs[k], sc).Ok?)
  {
    SynItems.MapImplMethodsMeaning(items, i, (f: SynItems.Method) => ParseBinding(f, sc));
  }

  /// One step of the item loop.
  lemma BindingsStep(items: seq<SynItems.ImplItem>, i: nat, sc: TypeParse.Scope)
    requires i < |items|
    ensures Bindings(items, i, sc)
            == if !items[i].ImplFn? then Bindings(items, i + 1, sc)
               else
                 var b := ParseBinding(items[i].m, sc);
                 if b.Err? then Err(b.msg) else PrependValues([b.value], Bindings(items, i + 1, sc))
  {
  }

  /// `path.to_token_stream().to_string().replace(" ", "")` for the impl's
  /// self type: the segments joined by "::".
  function PathText(p: SynPath): string
  {
    (if p.leadingColon then "::" else "") + Join(Idents(p.segments), "::")
  }

  /// `subcomponents` / `install_in`: absent leaves the module's empty set;
  /// present, `FieldValue::get_types` collected into a set.
  function TypeSetOf(v: Option<Parsing.FieldValue>, sc: TypeParse.Scope): (r: Result<CM.TypeSet>)
    ensures v.None? ==> r == Ok(map[])
    ensures r.Ok? ==> CM.KeyedByIdentifier(r.value)
    ensures v.Some? && r.Ok? ==>
              && Parsing.FieldValueTypes(v.value, sc).Ok?
              && var ts := Parsing.FieldValueTypes(v.value, sc).value;
                 && (forall j :: 0 <= j < |ts| ==> TypeRender.Identifier(ts[j]).Some? && TypeRender.Identifier(ts[j]).value in r.value)
                 && (forall k :: k in r.value ==> r.value[k] in ts)
  {
    if v.None? then Ok(map[])
    else
      var types :- Parsing.FieldValueTypes(v.value, sc);
      var r := CM.InsertAll(types, 0, map[]);
      if r.Ok? then
        CM.InsertAllMembers(types, 0, map[]);
        assert types[0..] == types;
        r
      else r
  }

  function Lookup(attributes: map<string, Parsing.FieldValue>, key: string): Option<Parsing.FieldValue>
  {
    if key in attributes then Some(attributes[key]) else None
  }

  /// The manifest of a module after the metadata keys are checked: one
  /// module at the self type's local path, with a binding per method and
  /// the two sets of types.
  function ModuleManifest(item: SynItems.ItemImpl, attributes: map<string, Parsing.FieldValue>, m: UsePaths.Mod)
    : Result<CM.ManifestData>
  {
    if !item.selfTy.PathType? then Err(PathExpectedMsg)
    else
      var sc := LocalTypes.ModScope(m);
      var ty := LocalTypes.ModFromLocal(PathText(item.selfTy.path), m);
      var bindings :- Bindings(item.items, 0, sc);
      var subcomponents :- TypeSetOf(Lookup(attributes, "subcomponents"), sc);
      var installIn :- TypeSetOf(Lookup(attributes, "install_in"), sc);
      Ok(CM.EmptyManifest().(modules := [CM.Module(ty, bindings, subcomponents, installIn)]))
  }

  /// A recorded module is the manifest's only content: typed by the self
  /// path in the attribute's module, with one binding per method in order,
  /// and with empty sets for the metadata not given.
  lemma ModuleRecord(item: SynItems.ItemImpl, attributes: map<string, Parsing.FieldValue>, m: UsePaths.Mod)
    requires ModuleManifest(item, attributes, m).Ok?
    ensures var r := ModuleManifest(item, attributes, m).value;
            var fs := SynItems.ImplMethods(item.items, 0);
            && r.injectables == [] && r.components == [] && r.entryPoints == [] && r.expandedVisibilities == map[]
            && |r.modules| == 1
            && item.selfTy.PathType?
            && r.modules[0].ty == LocalTypes.ModFromLocal(PathText(item.selfTy.path), m)
            && |r.modules[0].bindings| == |fs|
            && (forall j :: 0 <= j < |fs| ==>
                  ParseBinding(fs[j], LocalTypes.ModScope(m)) == Ok(r.modules[0].bindings[j]))
            && ("subcomponents" !in attributes ==> r.modules[0].subcomponents == map[])
            && ("install_in" !in attributes ==> r.modules[0].installIn == map[])
            && CM.KeyedByIdentifier(r.modules[0].subcomponents) && CM.KeyedByIdentifier(r.modules[0].installIn)
  {
    BindingsMeaning(item.items, 0, LocalTypes.ModScope(m));
  }

  /// `handle_module_attribute`: the metadata is read and checked first,
  /// then the item must be an impl block.
  method HandleModuleAttribute(attr: Parsing.FieldTokens, input: SynItems.Item, m: UsePaths.Mod)
    returns (r: Result<CM.ManifestData>)
    ensures var attrs := Parsing.GetAttributeFieldValues(attr);
            attrs.Err? ==> r == Err(attrs.msg)
    ensures var attrs := Parsing.GetAttributeFieldValues(attr);
            attrs.Ok? && !(attrs.value.Keys <= ModuleKeys) ==>
              r.Err? && exists k :: k in attrs.value && k !in ModuleKeys && r.msg == AttributeKeys.UnknownKeyMsg(k)
    ensures var attrs := Parsing.GetAttributeFieldValues(attr);
            attrs.Ok? && attrs.value.Keys <= ModuleKeys ==>
              r == if input.ImplItemDecl? then ModuleManifest(input.i, attrs.value, m) else Err(ImplExpectedMsg)
  {
    var attributes := Parsing.GetAttributeFieldValues(attr);
    if attributes.Err? {
      return Err(attributes.msg);
    }
    var keys := AttributeKeys.CheckKeys(attributes.value, ModuleKeys);
    if keys.Err? {
      return Err(keys.msg);
    }
    if !input.ImplItemDecl? {
      return Err(ImplExpectedMsg);
    }
    var item := input.i;
    if !item.selfTy.PathType? {
      return Err(PathExpectedMsg);
    }
    var sc := LocalTypes.ModScope(m);
    var ty := LocalTypes.ModFromLocal(PathText(item.selfTy.path), m);
    var bindings: seq<CM.Binding> := [];
    var i := 0;
    PrependNothing(Bindings(item.items, 0, sc));
    while i < |item.items|
      invariant i <= |item.items|
      invariant Bindings(item.items, 0, sc) == PrependValues(bindings, Bindings(item.items, i, sc))
    {
      BindingsStep(item.items, i, sc);
      if item.items[i].ImplFn? {
        var b := ParseBindingLoop(item.items[i].m, sc);
        if b.Err? {
          return Err(b.msg);
        }
        PrependValuesTwice(bindings, b.value, Bindings(item.items, i + 1, sc));
        bindings := bindings + [b.value];
      }
      i := i + 1;
    }
    assert bindings + [] == bindings;
    var subcomponents := TypeSetOf(Lookup(attributes.value, "subcomponents"), sc);
    if subcomponents.Err? {
      return Err(subcomponents.msg);
    }
    var installIn := TypeSetOf(Lookup(attributes.value, "install_in"), sc);
    if installIn.Err? {
      return Err(installIn.msg);
    }
    r := Ok(CM.EmptyManifest().(modules := [CM.Module(ty, bindings, subcomponents.value, installIn.value)]));
  }
}
