// The abstract type key shared by every generation of lockjaw's type model:
// `TypeData` in common/src/type_data.rs and the older protobuf `Type` in
// processor/src/manifest.rs. The older `Type` has no `identifier_suffix` and
// no `qualifier`; its model leaves those fields at their defaults.
module Types {
  import opened Outcomes

  /// `TypeRoot`: where a path starts. `Unspecified` is the default value.
  datatype Root = Global | Crate | Primitive | Unspecified

  datatype TypeData = TypeData(
    root: Root,
    path: string,
    fieldCrate: string,
    args: seq<TypeData>,
    traitObject: bool,
    fieldRef: bool,
    scopes: seq<TypeData>,
    identifierSuffix: string,
    qualifier: Option<TypeData>)

  /// `TypeData::new()` / `Type::new()`: every field at its default.
  function NewType(): (t: TypeData)
    ensures t.root == Unspecified && t.path == "" && t.fieldCrate == ""
    ensures t.args == [] && t.scopes == [] && !t.traitObject && !t.fieldRef
    ensures t.identifierSuffix == "" && t.qualifier == None
  {
    TypeData(Unspecified, "", "", [], false, false, [], "", None)
  }

  /// A GLOBAL type with the given path and arguments, every other field default.
  function GlobalType(path: string, args: seq<TypeData>): TypeData
  {
    NewType().(root := Global, path := path, args := args)
  }

  /// Every root in the type, its arguments and its qualifier is specified;
  /// the renderers panic on any other type.
  predicate Rooted(t: TypeData)
    decreases t
  {
    t.root != Unspecified
    && (forall i :: 0 <= i < |t.args| ==> Rooted(t.args[i]))
    && (t.qualifier.Some? ==> Rooted(t.qualifier.value))
  }

  /// The names that resolve without a path (`PRELUDE_V1` in
  /// common/src/type_data.rs and processor/src/type_data.rs).
  function Prelude(name: string): Option<string>
  {
    match name
    case "Box" => Some("std::boxed::Box")
    case "Option" => Some("std::option::Option")
    case "Result" => Some("std::result::Result")
    case "String" => Some("std::string::String")
    case "Vec" => Some("std::vec::Vec")
    case "Cl" => Some("lockjaw::Cl")
    case "Provider" => Some("lockjaw::Provider")
    case "Lazy" => Some("lockjaw::Lazy")
    case _ => None
  }

  /// `PRELUDE_V1` of the older processor/src/manifests.rs, which knows
  /// `MaybeScoped` instead of `Cl`, `Provider` and `Lazy`.
  function ProtoPrelude(name: string): Option<string>
  {
    match name
    case "Box" => Some("std::boxed::Box")
    case "Option" => Some("std::option::Option")
    case "Result" => Some("std::result::Result")
    case "String" => Some("std::string::String")
    case "Vec" => Some("std::vec::Vec")
    case "MaybeScoped" => Some("lockjaw::MaybeScoped")
    case _ => None
  }

  /// `PRIMITIVES`: the primitive type names that have no path.
  predicate IsPrimitive(name: string)
  {
    name in {"i8", "u8", "i16", "u16", "i32", "u32", "i64", "u64", "i128", "u128",
             "isize", "usize", "f32", "f64", "bool", "char"}
  }
}
