# lockjaw, modelled in Dafny

Lockjaw is a compile-time dependency-injection generator for Rust.
Attribute macros read injectables, modules, components and entry points.
A build script writes the bindings it finds into a manifest.
The component processor turns that manifest into a binding graph.
It then emits one provider per binding.

This project models the logic that decides what gets wired, not the Rust text the generator emits.
It has five parts.

- **Binding graph and node algebra.**
  - Node kinds, their merge and can-depend rules, and the wrapper variants are in `nodes.dfy` (`NodeAlgebra`) and `nodes_state.dfy` (`NodeState`).
  - The graph as functions (`add_node`, lookups with their "requested by" trace, `has_scoped_deps`, provider generation, `build_graph`) is in `graph.dfy` (`BindingGraph`).
  - `graph_state.dfy` (`GraphState`) holds the `Graph` object whose map these operations update in place, proved against those functions.
- **Type identity and rendering.**
  - `types.dfy` holds one type key shared by every generation.
  - `type_render.dfy` renders `TypeData`.
  - `proto_types.dfy` renders the older protobuf/serde `Type`.
  - `type_parse.dfy` and `local_types.dfy` hold the `from_path` families.
  - `syn_model.dfy` holds the small part of `syn` those families read.
- **Module and `use` path resolution.**
  - `use_paths.dfy` covers the build-script manifest parsers.
  - `prologue_mods.dfy`, `prologue_use.dfy` and `prologue_validate.dfy` cover the processor's prologue.
  - `source_paths.dfy` maps a file path to a module path.
  - `component_visibles.dfy` substitutes visible types.
  - `lockjaw_packages.dfy` selects which crates' manifests are read.
- **Manifests and attribute validators.**
  - Manifests: `common_manifest.dfy`, `manifest_state.dfy` and `proto_manifest.dfy`.
  - Attribute reading: `parsing.dfy`, `processor_parsing.dfy` and `attribute_keys.dfy`.
  - The `#[cfg]` evaluator: `cfg.dfy`.
  - Build-script handlers: `module_attrs.dfy`, `component_attrs.dfy`, `injectable_attrs.dfy`, `entry_points.dfy` and `visible_attrs.dfy`.
  - Registries of the older per-file processor: `proc_modules.dfy`, `proc_components.dfy` and `proc_injectables.dfy`, with the path naming they share in `epilogue.dfy`.
  - The base64 getter symbol of an entry point: `symbol_codec.dfy`.
- **Runtime one-shot caches.** `Once` and `Lazy` are classes in `once_lazy.dfy`.

Conventions the whole model follows:
- Values are datatypes.
- What the source updates in place becomes a class with `modifies` frames. This covers the graph, the manifests, the thread-local registries, a map node's bindings and the caches.
- Each loop of the source becomes a method with invariants. Its `ensures` ties the result to a specification function, and lemmas state what the source promises about that function.
- A compile error becomes `Err(message)` with the source's message text.
- A panic becomes `Err("panic: ...")`, or `None` where the source can only panic.
- Cargo's environment, the current crate, file contents and the `syn` parse of the annotated tokens are explicit inputs.

## Model

| member | source | states |
|---|---|---|
| Outcomes.OrError | processor/src/error.rs:84-95 | an absent value becomes an error carrying the given message, a present one passes through unchanged |
| Types.NewType | common/src/type_data.rs:55-61 | `TypeData::new()` has every field at its default: UNSPECIFIED root, empty path, crate, arguments, scopes and suffix, no qualifier, neither reference nor trait object |
| TypeRender.ArgPaths | common/src/type_data.rs:166-183 | when no argument's rendering panics there is one rendered string per argument |
| TypeRender.RenderedWhenRooted | common/src/type_data.rs:63-114 | the renderings never panic on a type whose roots are all specified, and always panic on an UNSPECIFIED root |
| TypeRender.ArgPathsAt | common/src/type_data.rs:166-183 | the j-th rendered argument is the rendering of the j-th argument, in the same (local or canonical) form |
| TypeRender.EscapeRemovesSeparators | common/src/type_data.rs:139-146 | the escaped canonical path holds no "::", "<", ">", "-", " ", "'", "&" or "," |
| TypeRender.IdentifierShape | common/src/type_data.rs:130-151 | `identifier_string` is the qualifier part exactly when qualified, an escaped middle free of separators, then "_" + the identifier suffix |
| TypeRender.ScopesIgnored | common/src/type_data.rs:43-53 | equality and hashing of `TypeData` ignore the scopes |
| TypeRender.WithoutArgsOnlyDiffersForCrate | common/src/type_data.rs:80-93 | `canonical_string_path_without_args` differs from `canonical_string_path` only for CRATE types, and not at all without arguments |
| TypeRender.ReadableShape | common/src/type_data.rs:153-164 | `readable` starts with "#[qualified(" exactly when qualified, then "ref " exactly for a reference, and ends with the canonical path |
| ProtoTypes.ArgPaths | processor/src/manifests.rs:138-151 | one rendered argument per argument |
| ProtoTypes.ArgPathsAt | processor/src/manifests.rs:138-151 | the j-th rendered argument is the `path_with_args` of the j-th argument |
| ProtoTypes.Canonical | processor/src/manifests.rs:73-85 | `canonical_string_path` panics exactly on an UNSPECIFIED root and starts with "::" unless primitive |
| ProtoTypes.LocalAgainstCanonical | processor/src/manifests.rs:73-104 | the local form differs from the canonical one only for CRATE types: "crate::" + path in the current crate, the canonical form without its leading "::" elsewhere |
| ProtoTypes.IdentifierShape | processor/src/manifests.rs:113-128 | the identifier exists exactly when "ref_" (for a reference) + the escaped canonical path is a Rust identifier, since `format_ident!` panics on any other text; it is then that text, with no "<", ">" or " " (and no "'" in the serde copy). The same code is at processor/src/manifest.rs lines 173-189. |
| ProtoTypes.ArgumentsListPanics | processor/src/manifests.rs:113-151 | a GLOBAL or CRATE type with two or more arguments keeps the "," of `path_with_args` through the escape, so it has no identifier: `format_ident!` panics |
| ProtoTypes.PlainGlobalIdentifier | processor/src/manifests.rs:113-128 | a GLOBAL type without arguments whose path is made of identifier characters has the identifier "_" + its path |
| ProtoTypes.ReadableShape | processor/src/manifests.rs:130-136 | `readable` is the canonical path, with "ref " in front exactly for a reference. The same code is at processor/src/manifest.rs lines 191-197. |
| ProtoTypes.BoxRendering | processor/src/manifests.rs:138-151 | a Box renders its argument by `path_with_args`, not by its canonical path |
| ProtoTypes.BoxedArgumentsCollide | processor/src/manifests.rs:138-151 | finding (b), as written: `Box<a::Foo>` and `Box<b::Foo>` have one canonical path and one identifier although their contents differ |
| ProtoTypes.FixedStringPath | processor/src/manifests.rs:73-104 | finding (b), corrected rendering: agrees with the original on types without arguments |
| ProtoTypes.FixedBoxRendering | processor/src/manifests.rs:138-151 | finding (b), corrected: a Box renders as its content's canonical path in "<...>" |
| ProtoTypes.FixedBoxDistinguishes | processor/src/manifests.rs:138-151 | finding (b), corrected: two boxes render alike exactly when their contents do |
| ProtoTypes.IdentifierKeepsComma | processor/src/manifests.rs:113-128 | finding (e), as written: the escaped canonical path of `Result<i32, String>` still holds a ",", so its identifier panics |
| ProtoTypes.FixedEscapeRemoves | processor/src/manifests.rs:113-128 | finding (e), corrected: the escape leaves no "::", "<", ">", " " or "," |
| ProtoTypes.KeyDefined | processor/src/manifests.rs:113-128 | the corrected key is defined on every rooted type and starts with "ref_" for a reference |
| ProtoTypes.Extend | processor/src/manifests.rs:279-283 | `extend` appends every element in order |
| ProtoTypes.FromPathLoop | processor/src/manifests.rs:201-256 | the loop of `type_from_path` computes `FromPath` |
| ProtoTypes.AppendSegmentsMeaning | processor/src/manifests.rs:239-255 | the segment loop succeeds iff no segment but the last has arguments and the last's arguments convert; the path is the joined identifiers and the arguments are the last segment's |
| ProtoTypes.FromPathForms | processor/src/manifests.rs:201-256 | `::a::b` is GLOBAL, `crate::a` is CRATE of the current crate, a lone prelude name is GLOBAL at its std path, a lone primitive is PRIMITIVE; any other path is the "types must be fully qualified" error, an empty one an error |
| ProtoTypes.FromSynTypeRooted | processor/src/manifests.rs:153-180 | every type `type_from_syn_type` accepts has all roots set, so rendering it never panics |
| ProtoTypes.FromBoundsRooted | processor/src/manifests.rs:182-199 | every type `type_from_type_param_bound` accepts is rooted |
| ProtoTypes.FromPathRooted | processor/src/manifests.rs:201-256 | every type `type_from_path` accepts is rooted |
| ProtoTypes.GetArgsRooted | processor/src/manifests.rs:258-277 | every argument `get_args` accepts is rooted |
| ProtoManifest.EmptyModuleManifest | processor/src/manifest.rs:96-100 | `ComponentModuleManifest::new()` has no modules and the default UNSPECIFIED type |
| ProtoTypes.EscapeRemoves | processor/src/manifests.rs:121-125 | the escaped path holds no "<", ">" or " " (no "'" in the serde copy of processor/src/manifest.rs, no "::" in the protobuf copy of processor/src/manifests.rs). The same code is at processor/src/manifest.rs lines 173-189. |
| ProtoTypes.EscapeKeeps | processor/src/manifests.rs:121-125 | a character none of the replacements touches survives the escape |
| TypeParse.FromPathLoop | common/src/type_data.rs:298-360 | the head classification and `while let` loop of `from_path` compute `FromPath` |
| TypeParse.AppendSegmentsMeaning | common/src/type_data.rs:345-357 | the segment loop appends the "::"-joined identifiers and the last segment's arguments, and succeeds exactly when no earlier segment has arguments and the last one's parse |
| TypeParse.FromPathGlobal | common/src/type_data.rs:301-306 | a path with a leading "::" is GLOBAL at the joined identifiers (a single segment keeps a trailing "::") |
| TypeParse.FromPathCrate | common/src/type_data.rs:307-316 | a path starting with `crate` is CRATE in the scope's crate at the remaining identifiers, succeeding exactly when the segment rules hold |
| TypeParse.FromPathSingleName | common/src/type_data.rs:321-334 | a lone prelude name is GLOBAL at its prelude path, a lone primitive PRIMITIVE, both with their own arguments |
| TypeParse.FromPathResolved | common/src/type_data.rs:336-346 | any other head is resolved through the scope: an unresolvable one is the "unable to resolve" error, a resolved one keeps its root and crate and extends its path. The same code is at src/type_data.rs lines 140-202; processor/src/type_data.rs lines 158-226. |
| TypeParse.DropLifetimes | common/src/type_data.rs:362-378 | the result holds no lifetime argument |
| TypeParse.AngleArgsMeaning | common/src/type_data.rs:362-378 | lifetimes are skipped, one type per type argument, and any other generic argument is "unable to handle generic argument" |
| TypeParse.FromSynTypeShape | common/src/type_data.rs:254-296 | a reference sets `field_ref` and keeps the referent; `dyn`/`impl` set `trait_object` and need exactly one trait bound; other type forms are rejected. The same code is at src/type_data.rs lines 96-138; processor/src/type_data.rs lines 110-156. |
| TypeParse.FromSynTypeRooted | common/src/type_data.rs:254-360 | every type the parsers accept has all roots set, so rendering it never panics |
| TypeParse.FromBoundsRooted | common/src/type_data.rs:278-296 | every type `from_type_param_bound` accepts is rooted |
| TypeParse.FromPathRooted | common/src/type_data.rs:298-360 | every type `from_path` accepts is rooted |
| TypeParse.GetArgsRooted | common/src/type_data.rs:362-378 | every argument `get_args` accepts is rooted |
| LocalTypes.ModFromLocal | common/src/type_data.rs:246-252 | `from_local` is a CRATE type in the module's crate at the module path followed by the name, nothing else set. The same code is at src/type_data.rs lines 88-94. |
| LocalTypes.PrologueFromLocal | processor/src/type_data.rs:102-108 | the same in the crate being compiled at the module covering the position; the prologue's error when no module covers it |
| LocalTypes.LocalRenders | common/src/type_data.rs:63-151 | a local type's canonical path is "::crate::path", the arg-less form is the same, and its identifier is the escaped path + "_" + suffix |
| LocalTypes.ModScope | common/src/type_data.rs:307-346 | `crate::` is the module's crate and a bare head goes through `Mod::resolve_path` |
| LocalTypes.LocalCanonical | common/src/type_data.rs:63-78 | `from_local(..).canonical_string_path()` never panics and is "::" + crate + "::" + path; `from_local` itself is at lines 246-252 of the same file |
| LocalTypes.LocalIdentifier | common/src/type_data.rs:130-151 | `from_local(..).identifier_string()` never panics and is the escaped canonical path + "_"; `from_local` itself is at lines 246-252 of the same file |
| LocalTypes.PrologueScope | processor/src/type_data.rs:158-226 | `crate::` is the crate being compiled and a bare head goes through the prologue's `resolve_path` |
| BindingGraph.KeyIsIdentifier | processor/src/manifests.rs:113-128 | the protobuf `identifier()` of a rooted type exists exactly when the key text it is filed under is an identifier, and is then that key; arguments are rendered by `path_with_args` |
| BindingGraph.CanonicalOf | processor/src/manifests.rs:73-85 | the name a rooted type is shown by is its protobuf `canonical_string_path()`, which never panics on it |
| BindingGraph.ReadableOf | processor/src/manifests.rs:130-136 | the readable text ends with the protobuf canonical path ("ref " in front for a reference) |
| BindingGraph.NameOf | processor/src/graph.rs:595-629 | each node kind's provider name carries its own marker: " (injectable)", " (module provides)", " (module binds)", " (auto boxed)", or a "ref " prefix |
| BindingGraph.Merge | processor/src/graph.rs:632-688 | re-binding succeeds iff the existing node is auto-boxed with the same protobuf canonical path, and then keeps the existing node; every other case is "found duplicated bindings" naming both providers |
| BindingGraph.CanDepend | processor/src/graph.rs:691-748 | depending fails iff the target is scoped and the depender is not the `Scoped` wrapper; the message names the target and the requested-by chain |
| BindingGraph.GetNode | processor/src/graph.rs:331-339 | a key text that is not an identifier is the `identifier()` panic; otherwise lookup succeeds iff the key is bound, returning that node, and fails with "missing bindings for <readable>" followed by the requested-by chain |
| BindingGraph.Insert | processor/src/graph.rs:232-243 | `add_node` fails iff the key text is not an identifier (the `identifier()` panic, which comes first) or the key is taken and the merge rule refuses; on success the map is the old map with the new node at its key (the merge result is overwritten) |
| BindingGraph.ArgumentsListKeyPanics | processor/src/graph.rs:232-243 | a node whose GLOBAL or CRATE type has two or more arguments (`Result<i32, String>`) can be neither added nor looked up (graph.rs:333): both are the `identifier()` panic |
| BindingGraph.InsertAllKeys | processor/src/graph.rs:232-243 | after a run of successful insertions the keys are exactly the old keys plus the inserted nodes' keys |
| BindingGraph.InsertAllUntouched | processor/src/graph.rs:232-243 | a key no inserted node has keeps its old node |
| BindingGraph.InsertAllLast | processor/src/graph.rs:232-243 | an inserted key holds one of the nodes inserted under it at or after any given position: later bindings replace earlier ones |
| BindingGraph.InsertAllGrows | processor/src/graph.rs:232-243 | insertion never loses a key and binds every inserted node's key |
| BindingGraph.HasScopedDepsRun | processor/src/graph.rs:396-407 | `has_scoped_deps` as written, with the stack depth as fuel: it answers `true` only when some bound node is scoped; what its answer means for `n` is `BindingGraph.RunAnswers` |
| BindingGraph.RunTrueReaches | processor/src/graph.rs:396-407 | `true` from `has_scoped_deps` as written means a chain of bound dependencies from `n`, no longer than the stack depth, ends at a scoped node |
| BindingGraph.RunFalseNoReach | processor/src/graph.rs:396-407 | `false` from `has_scoped_deps` as written means no chain of bound dependencies from `n`, of any length, ends at a scoped node |
| BindingGraph.RunAnswers | processor/src/graph.rs:396-407 | whenever `has_scoped_deps` as written answers, it answers `true` exactly when some dependency reachable from `n` is scoped |
| BindingGraph.ScopedDeps | processor/src/graph.rs:396-407 | the corrected loop, which skips keys already on the path, answers `true` only when a scoped node is reachable from `n` within as many lookups as there are keys |
| BindingGraph.FromTrueReaches | processor/src/graph.rs:396-407 | `true` from the corrected loop from dependency `i` on means a scoped node is reachable from those dependencies within as many lookups as there are keys off the path |
| BindingGraph.ScopedDepsMeaning | processor/src/graph.rs:396-407 | on an acyclic graph, whenever the corrected loop answers, it answers `true` exactly when some dependency reachable from `n` is scoped |
| BindingGraph.ScopedCheck | processor/src/graph.rs:396-407 | the scope check the generator runs: as written it is `has_scoped_deps` run with one stack frame per bound key, and running out is the stack-overflow panic; corrected it is the path-tracking loop. Either way `true` means a scoped node is reachable from `n`; as written `false` means none is |
| BindingGraph.ScopedCheckAgrees | processor/src/graph.rs:396-407 | on an acyclic graph the scope check as written and the corrected one give the same answer |
| BindingGraph.SelfLoopDiverges | processor/src/graph.rs:396-407 | finding (f), as written: on a graph whose only node, an injectable of any plain name, depends on itself, `has_scoped_deps` runs out of stack for every stack depth |
| BindingGraph.SelfDependentRun | processor/src/graph.rs:396-407 | one call of `has_scoped_deps` on a self-dependent unscoped node runs out of stack exactly when the nested call does |
| BindingGraph.ScopedDepsAgree | processor/src/graph.rs:396-407 | on an acyclic graph, the recursive loop as written returns the same answer as the corrected, path-tracking loop |
| BindingGraph.ScopedDepsFromStep | processor/src/graph.rs:397-405 | the corrected loop at an unscoped dependency: an error or `true` from the dependency is the answer, `false` moves on to the next dependency |
| BindingGraph.HasScopedDepsRunStep | processor/src/graph.rs:397-405 | the loop as written at an unscoped dependency: an error or `true` from the nested call is the answer, `false` moves on |
| BindingGraph.HasScopedDepsTerminates | processor/src/graph.rs:396-407 | finding (f), corrected: on an acyclic graph `has_scoped_deps` returns once the stack is deeper than the node's rank, with the corrected result |
| BindingGraph.Position | processor/src/graph.rs:351-354 | the position found is the first index holding the name |
| BindingGraph.CycleDiagram | processor/src/graph.rs:355-366 | each diagram line starts the text from that line on |
| BindingGraph.ProviderCheck | processor/src/graph.rs:414-592 | a scoped wrapper's provider never fails; a binds provider without an argument panics with "binds must have one arg"; every other provider fails exactly when its scope check does, with that check's message |
| BindingGraph.Gen | processor/src/graph.rs:341-394 | a node whose name is among its requesters reports "Cyclic dependency detected"; a node already generated emits nothing; otherwise the node's key joins the generated set; the generated set only grows |
| BindingGraph.GenCycle | processor/src/graph.rs:350-368 | the cycle error is exactly the prefix and the diagram marking the first position of the node's name |
| BindingGraph.GenUnfold | processor/src/graph.rs:370-393 | past the early exits the node is marked generated, a failing provider check is the error, and otherwise its key is emitted before the dependencies' output |
| BindingGraph.GenEmitsOnce | processor/src/graph.rs:341-394 | a generation emits each key at most once and never a key that was generated before it started |
| BindingGraph.GenDepsEmitsOnce | processor/src/graph.rs:379-392 | the dependency loop emits each key at most once and none generated before it |
| BindingGraph.GenCloses | processor/src/graph.rs:341-394 | a successful generation marks the node generated and every dependency of every emitted provider is generated too, so each `self.<dep>()` call has a provider |
| BindingGraph.GenDepsUnfold | processor/src/graph.rs:379-392 | one successful step of the dependency loop: the dependency resolves under the node's requesters, may be depended on, and generates with the node's name prepended to the chain |
| BindingGraph.GenDepsCloses | processor/src/graph.rs:379-392 | after a successful dependency loop every remaining dependency is generated and the emitted providers' dependencies are generated |
| BindingGraph.SelfLoopReportsCycle | processor/src/graph.rs:341-394 | finding (f), corrected: the self-dependent injectable reaches the cycle check and is reported as "Cyclic dependency detected" |
| BindingGraph.SelfLoopCheckPanics | processor/src/graph.rs:396-420 | finding (f), as written: the provider check of the self-dependent injectable is the stack-overflow panic of `has_scoped_deps` |
| BindingGraph.SelfLoopPanics | processor/src/graph.rs:341-420 | finding (f), as written: generating the self-dependent injectable panics in `has_scoped_deps` before the cycle check is reached, having marked only its own key |
| BindingGraph.ProvisionChain | processor/src/graph.rs:277-282 | a provision's chain is one entry that starts with the component's canonical path |
| BindingGraph.GenProvisions | processor/src/graph.rs:273-299 | the provisions loop shares and only grows the generated set |
| BindingGraph.GenProvisionsUnfold | processor/src/graph.rs:277-297 | one successful step: the provision resolves to an unscoped node and its provider generates |
| BindingGraph.GenProvisionsSound | processor/src/graph.rs:273-299 | after `generate_providers` succeeds every provision's node is generated and unscoped, and every emitted provider's dependencies are generated |
| BindingGraph.RefTypeKey | processor/src/graph.rs:919-923 | `ref_type` renders like its referent, is keyed "ref_" + the referent's key, and never shares the referent's key |
| BindingGraph.BoxedType | processor/src/graph.rs:911-917 | `boxed_type` of a rooted type is rooted |
| BindingGraph.BoxedTypeKey | processor/src/graph.rs:911-917 | a boxed type renders as "::" + the Box path + "<" + its content's `path_with_args` + ">", so two boxed types render alike exactly when their contents' `path_with_args` do |
| BindingGraph.NodeVariants | processor/src/graph.rs:881-909 | scoped type: [private node marked scoped, `&T` scoped wrapper depending on T alone]; unscoped non-Box: [node, `Box<T>` wrapper depending on T alone]; a `Box`: the node alone |
| BindingGraph.InjectedTypes | processor/src/graph.rs:810-823 | the injected fields' types, and only those, in declaration order |
| BindingGraph.InjectableNodes | processor/src/graph.rs:810-823 | the first node has the injectable's type and kind and depends on its injected fields' types |
| BindingGraph.DepTypes | processor/src/graph.rs:866-871 | one type per dependency, in order |
| BindingGraph.ProvidesNodes | processor/src/graph.rs:848-879 | binds: a `Box<T>` binds node; provides: a node of the declared type; both depend on the provider's arguments in order |
| BindingGraph.FindModule | processor/src/graph.rs:827-834 | the first regular module with the key, or none has it |
| BindingGraph.FindBuilder | processor/src/graph.rs:836-843 | the first builder module with the key, or none has it |
| BindingGraph.ModuleInstanceOf | processor/src/graph.rs:825-846 | regular modules first (field name = the module's key), then builder modules (field name = the builder field); absent from both is the panic |
| BindingGraph.InstalledHasInstance | processor/src/graph.rs:782-846 | `get_module_instance` succeeds exactly for installed modules, so `build_graph` never hits its panic |
| BindingGraph.FindManifest | processor/src/graph.rs:757-765 | the first component module manifest with the key, or none has it |
| BindingGraph.ModuleManifestOf | processor/src/graph.rs:750-771 | no module manifest installs nothing; otherwise the first manifest with its key, or an error naming both types |
| BindingGraph.AddInjectablesKeys | processor/src/graph.rs:775-780 | the injectables loop binds every injectable's type and loses no key |
| BindingGraph.AddProvidersKeys | processor/src/graph.rs:795-803 | the providers loop binds every provider's type and loses no key |
| BindingGraph.AddModulesKeys | processor/src/graph.rs:782-805 | the modules loop binds every provider of every installed module and loses no key |
| BindingGraph.AddModulesUnfold | processor/src/graph.rs:790-805 | a module that is not installed is skipped; an installed module has an instance and its providers are inserted |
| BindingGraph.BuildGraph | processor/src/graph.rs:773-808 | a built graph's map is consistent and its module manifest is the one `get_module_manifest` finds |
| BindingGraph.BuildGraphBinds | processor/src/graph.rs:773-808 | a built graph binds every injectable and every provider of every installed module |
| BindingGraph.VariantsOwners | processor/src/graph.rs:881-909 | the wrappers `generate_node_variants` adds are never provides or binds nodes |
| BindingGraph.AddModulesOwners | processor/src/graph.rs:782-805 | every provides or binds node the modules loop adds belongs to an installed module |
| BindingGraph.BuildGraphOnlyInstalled | processor/src/graph.rs:773-808 | only providers of modules the component installs (regular or builder) enter its graph |
| BindingGraph.ProvisionCheck | processor/src/graph.rs:303-311 | one provision passes exactly when it is bound and the scope check of its node answers |
| BindingGraph.ProvisionsCheck | processor/src/graph.rs:301-329 | `generate_provisions` succeeds exactly when every provision is bound and the scope check of its node succeeds |
| BindingGraph.ComponentOutputSound | processor/src/graph.rs:164-229 | a generated component provides every provision through an unscoped node, emits each provider once, and emits every dependency of every emitted provider |
| BindingGraph.ComponentOutput | processor/src/graph.rs:164-185 | a component generates only when its graph builds; what the output then provides is stated by `ComponentOutputSound` |
| BindingGraph.ComponentOutputUnfold | processor/src/graph.rs:164-185 | a successful component output is the output of `generate_providers` on the built graph |
| BindingGraph.InsertAll | processor/src/graph.rs:232-243 | a successful run of insertions yields a map in which every node is well formed and filed under its own key |
| BindingGraph.AddInjectables | processor/src/graph.rs:775-780 | a successful injectables loop yields a map in which every node is well formed and filed under its own key |
| BindingGraph.AddProviders | processor/src/graph.rs:795-803 | a successful providers loop yields a map in which every node is well formed and filed under its own key |
| BindingGraph.AddModules | processor/src/graph.rs:782-805 | a successful modules loop yields a map in which every node is well formed and filed under its own key |
| GraphState.Graph.constructor | processor/src/graph.rs:32-35 | a default graph has no nodes and an empty module manifest |
| GraphState.Graph.AddNode | processor/src/graph.rs:232-243 | `add_node` in place: fails with the `identifier()` panic or the merge error and leaves the map unchanged, or leaves the map equal to the value-level insertion |
| GraphState.Graph.AddNodes | processor/src/graph.rs:775-803 | adding a node list in place agrees with `InsertAll`; on failure the map holds the nodes added before the refusal |
| GraphState.Graph.GenerateProvider | processor/src/graph.rs:341-394 | output and generated set equal `Gen` with the scope check as written, whose cycle, once-only and closure lemmas then apply |
| GraphState.Graph.GenerateDeps | processor/src/graph.rs:379-392 | the dependency loop equals `GenDeps` |
| GraphState.Graph.GenerateDep | processor/src/graph.rs:380-391 | one dependency step (lookup, scope check, recursive generation) equals `DepGen` |
| GraphState.Graph.GenerateProviders | processor/src/graph.rs:273-299 | `generate_providers` output equals `GenProvisions` from an empty generated set |
| GraphState.Graph.AddInjectableNodes | processor/src/graph.rs:775-780 | the injectables loop in place agrees with `AddInjectables` in outcome, nodes and message |
| GraphState.Graph.AddProviderNodes | processor/src/graph.rs:795-803 | one module's providers loop agrees with `AddProviders` |
| GraphState.Graph.AddModuleNodes | processor/src/graph.rs:790-805 | the modules loop agrees with `AddModules`: only installed modules contribute |
| GraphState.Graph.GenerateProvisions | processor/src/graph.rs:301-329 | the provisions loop's outcome equals `ProvisionsCheck` with the scope check as written |
| GraphState.GenDepsByStep | processor/src/graph.rs:379-392 | the dependency loop is the first dependency's step followed by the rest unless it failed |
| GraphState.GenProvisionsStep | processor/src/graph.rs:276-297 | one provision either fails its lookup, is scoped and rejected, or generates and continues |
| GraphState.InsertAllPrefix | processor/src/graph.rs:775-780 | inserting one more node of the list is one more `add_node` |
| GraphState.FindPosition | processor/src/graph.rs:351-354 | the loop finds the first index of the name |
| GraphState.CycleReport | processor/src/graph.rs:355-366 | the loop writes exactly the cycle diagram |
| GraphState.GetModuleInstance | processor/src/graph.rs:825-846 | the two search loops equal `ModuleInstanceOf` |
| GraphState.GetModuleManifest | processor/src/graph.rs:750-771 | the search loop equals `ModuleManifestOf` |
| GraphState.InstalledModules | processor/src/graph.rs:782-789 | the installed set is the regular modules' keys plus the builder modules' keys |
| GraphState.ModuleKeys | processor/src/graph.rs:784-786 | the set of the regular modules' keys |
| GraphState.BuilderModuleKeys | processor/src/graph.rs:787-789 | the set of the builder modules' keys |
| GraphState.Build | processor/src/graph.rs:773-808 | `build_graph` in place yields a fresh graph equal to `BuildGraph`, or its error |
| GraphState.GenerateComponent | processor/src/graph.rs:164-185 | the statements of `generate_component` compute `ComponentOutput` |
| NodeAlgebra.KeyOf | processor/src/nodes/node.rs:47-49 | a node is filed under its type's identifier |
| NodeAlgebra.RefType | processor/src/nodes/node.rs:154-158 | `ref_type` sets the reference flag and changes nothing else |
| NodeAlgebra.Wrapped | processor/src/nodes/node.rs:146-153 | each wrapper type (`maybe_scoped_type`, `vec_type`, `boxed_type`, `component_lifetime_type`, `provider_type`, `lazy_type`, `option_type`) is GLOBAL at its path with the input as its only argument and nothing else set |
| NodeAlgebra.WrappedRendering | processor/src/nodes/node.rs:146-153 | a wrapper renders as "::" + its path + "<" + the input's canonical path + ">" |
| NodeAlgebra.MergeNode | processor/src/nodes/node.rs:28-72 | merging succeeds iff both are vec nodes or the existing node is a wrapper of the same type (for `MaybeScoped`, the same protobuf canonical path); a vec merge appends the new dependencies, a wrapper stays unchanged, every failure is "found duplicated bindings" naming both |
| NodeAlgebra.MaybeScopedRendering | processor/src/nodes/maybe_scoped.rs:69-78 | the protobuf canonical path of `MaybeScoped<T>` is "::" + its path + "<" + the `path_with_args` of T + ">" |
| NodeAlgebra.MaybeScopedMergesAcrossCrates | processor/src/nodes/maybe_scoped.rs:69-78 | `MaybeScoped<a::Foo>` and `MaybeScoped<b::Foo>`, of two different types, merge because their protobuf canonical paths are equal |
| NodeAlgebra.MergeMap | processor/src/nodes/map.rs:141-167 | a non-map is a duplicate; a map node fails iff a key is bound in both, naming a shared key; otherwise the bindings are the union and nothing else changes |
| NodeAlgebra.MapDependencies | processor/src/nodes/map.rs:177-182 | a map node depends exactly on its bound value types |
| NodeAlgebra.PlainKindsNeverMerge | processor/src/nodes/node.rs:28-34 | the default merge of injectable, provides, binds and the other plain kinds always reports a duplicate |
| NodeAlgebra.WrapperMergeIdempotent | processor/src/nodes/maybe_scoped.rs:69-78 | a wrapper merged with itself is itself |
| NodeAlgebra.VecMergeAssociative | processor/src/nodes/vec.rs:74-84 | vec merges always succeed, are associative and gather dependencies in order |
| NodeAlgebra.VecNewIsUnit | processor/src/nodes/vec.rs:33-84 | a fresh vec node is a unit of merging on either side |
| NodeAlgebra.MapMergeCommutes | processor/src/nodes/map.rs:156-166 | for disjoint keys the union is the same in either order and holds every entry of each |
| NodeAlgebra.CanDepend | processor/src/nodes/node.rs:35-80 | any kind that is not a wrapper (scoped, maybe-scoped, boxed, `Cl`, subcomponent) fails iff the target is scoped, with the no-scope message naming the chain |
| NodeAlgebra.MaybeScopedOver | processor/src/nodes/node.rs:100-113 | the `MaybeScoped<T>` wrapper node depends only on its dependency and is unscoped |
| NodeAlgebra.ScopedOver | processor/src/nodes/node.rs:88-99 | the `&T` node of a scoped `T` depends on `T` alone and is unscoped |
| NodeAlgebra.VariantsShape | processor/src/nodes/node.rs:82-117 | scoped: exactly [private copy marked scoped, `&T` node, `MaybeScoped<T>` node], both wrappers depending on T alone; unscoped non-MaybeScoped: [node, `MaybeScoped<T>`]; a MaybeScoped type: only itself |
| NodeAlgebra.VariantsDistinctTypes | processor/src/nodes/node.rs:82-117 | the variants have pairwise different types |
| NodeAlgebra.ScopedOnlyThroughWrappers | processor/src/nodes/node.rs:35-103 | both wrappers may depend on the private scoped node, every other kind is refused with the no-scope message |
| NodeAlgebra.VariantScopedIsForType | processor/src/nodes/node.rs:88-99 | the `&T` node built by `generate_node_variants` is the one `ScopedNode::for_type` builds |
| NodeAlgebra.VariantsMaybeScopedBypassesScope | processor/src/nodes/node.rs:94-100 | finding (g), as written: the `MaybeScoped<T>` of a scoped T wraps the private node by value and does not depend on the `&T` node |
| NodeAlgebra.GenerateNodeVariantsFixed | processor/src/nodes/node.rs:82-117 | finding (g), corrected: identical to the original except for the third variant of a scoped type, which keeps its type |
| NodeAlgebra.FixedMaybeScopedSharesInstance | processor/src/nodes/component_lifetime.rs:37-56 | finding (g), corrected: the `MaybeScoped<T>` of a scoped T depends on the `&T` node, returns it by `Ref`, and may depend on it |
| NodeAlgebra.ProvidesNewShape | processor/src/nodes/provides.rs:35-64 | a provides node exists iff the module has an instance; dependencies are the provider's in order; a binds provider gives one `MaybeScoped<T>` binds node, a provides provider the variants of its type |
| NodeAlgebra.BindsUsesRef | processor/src/nodes/binds.rs:43-69 | a binds provider without a first dependency panics; otherwise `Ref` iff the bound argument is a reference |
| NodeAlgebra.BindsOfScopedIsRef | processor/src/nodes/binds.rs:43-69 | binding the scoped `&T` forwards it by `Ref`; binding a plain T boxes a value |
| NodeAlgebra.InjectableNew | processor/src/nodes/injectable.rs:35-53 | with a container the type is the container with the injectable appended as its last argument, else the injectable's type; dependencies in declaration order; not scoped |
| NodeAlgebra.ContainerWrapsInjectable | processor/src/nodes/injectable.rs:36-42 | the container keeps its path and arguments and gains the injectable type as the last argument |
| NodeAlgebra.ScopedForType | processor/src/nodes/scoped.rs:33-53 | `for_type` keeps the reference type and depends on and targets the same type without the reference |
| NodeAlgebra.ScopedAcceptsScoped | processor/src/nodes/scoped.rs:109-115 | a scoped node may depend on anything, scoped or not |
| NodeAlgebra.BoxedForType | processor/src/nodes/boxed.rs:36-53 | `Box<args[0]>` depending on `args[0]`, present iff there is an argument |
| NodeAlgebra.ProviderForType | processor/src/nodes/provider.rs:33-50 | `Provider<args[0]>` depending on `args[0]`, present iff there is an argument |
| NodeAlgebra.LazyForType | processor/src/nodes/lazy.rs:33-51 | `Lazy<args[0]>` depending on `Provider<args[0]>` (not on T), present iff there is an argument |
| NodeAlgebra.LazyGoesThroughProvider | processor/src/nodes/provider.rs:91-93 | the provider behind a `Lazy<T>` depends on T and is a runtime dependency |
| NodeAlgebra.ComponentLifetimeForType | processor/src/nodes/component_lifetime.rs:37-64 | `Cl<args[0]>` depending on its inner type, which is `&T` when T is not a reference and `&T` is already bound, else T |
| NodeAlgebra.ClOfScopedSharesInstance | processor/src/nodes/component_lifetime.rs:37-101 | once a scoped T's variants are bound, `Cl<T>` depends on the `&T` node and returns it by `Ref` |
| NodeAlgebra.BindsOptionOfNew | processor/src/nodes/binds_option_of.rs:36-51 | exactly one node of type `Option<T>` with no regular dependencies |
| NodeAlgebra.OptionalDependencies | processor/src/nodes/binds_option_of.rs:84-86 | an option node's only optional dependency is its T; other kinds have none |
| NodeAlgebra.OptionSomeIffBound | processor/src/nodes/binds_option_of.rs:58-71 | the generated `Option<T>` is `Some` iff T is bound in the graph, and T is an optional dependency |
| NodeAlgebra.ParentNew | processor/src/nodes/parent.rs:33-43 | the parent node keeps the missing type, adding "_parent" to the identifier suffix iff it is a multibinding; no dependencies |
| NodeAlgebra.ParentKey | processor/src/nodes/parent.rs:33-43 | a plain dependency's parent node takes the missing key; a multibinding's gets that key + "_parent", which differs |
| NodeAlgebra.VecNew | processor/src/nodes/vec.rs:33-47 | a new vec node is `Vec<T>` with no dependencies |
| NodeAlgebra.MapKeyType | processor/src/nodes/map.rs:65-96 | String keys are `::std::string::String`, I32 keys primitive `i32`, enum keys their enum type, no key the error "unable to handle key" |
| NodeAlgebra.MapType | processor/src/nodes/map.rs:74-82 | `map_type` is GLOBAL `HashMap<K, V>` carrying the value type's qualifier |
| NodeAlgebra.MapWithKeyType | processor/src/nodes/map.rs:45-54 | a new map node has no bindings, the map type and no dependencies |
| NodeAlgebra.MapNew | processor/src/nodes/map.rs:35-44 | `MapNode::new` fails iff there is no key, else is `with_key_type` of the key's type |
| NodeAlgebra.AddBinding | processor/src/nodes/map.rs:55-62 | after `add_binding` the key maps to the value, other keys are unchanged, and the type stays |
| NodeAlgebra.MapMergeDependencies | processor/src/nodes/map.rs:156-182 | the merged map depends on the values bound in either node |
| NodeState.MapNodeCell.constructor | processor/src/nodes/map.rs:45-54 | `with_key_type` gives the empty map node of the key and value types |
| NodeState.MapNodeCell.AddBinding | processor/src/nodes/map.rs:55-62 | `add_binding` in place leaves the node `NodeAlgebra.AddBinding` describes: the key now bound, other keys and the type unchanged |
| NodeState.NewMapNodeCell | processor/src/nodes/map.rs:35-44 | `MapNode::new` fails exactly when `MapNew` does, with its message, else yields a fresh node holding `MapNew`'s value |
| NodeState.FindComponent | processor/src/nodes/subcomponent.rs:173-181 | `find_component` returns the first component with an equal identifier, or none when no component has it |
| NodeState.BuilderType | processor/src/nodes/subcomponent.rs:51-53 | the builder type is the component type with "Builder" appended to its path and `trait_object` set, nothing else changed |
| NodeState.SubcomponentNode | processor/src/nodes/subcomponent.rs:54-75 | the node is `Cl<builder>`, unscoped, and depends on the child graph's missing dependencies in order |
| NodeState.ExpandOne | processor/src/nodes/subcomponent.rs:76-85 | an IntoVec dependency adds an empty `Vec<args[0]>` node, IntoMap an empty map over (`args[0]`, `args[1]`), other kinds nothing; too few arguments is the index panic |
| NodeState.ExpansionIsEmptyMultibindings | processor/src/nodes/subcomponent.rs:76-85 | the expansion has at most one node per missing dependency, each an empty vec or map multibinding |
| NodeState.NewSubcomponent | processor/src/nodes/subcomponent.rs:41-89 | `SubcomponentNode::new` with its loops equals `SubcomponentNodes`, "unable to find component" included |
| NodeState.SubcomponentNodesShape | processor/src/nodes/subcomponent.rs:41-89 | the first node is the builder node asking for every missing dependency, and each later node is an empty multibinding |
| OnceLazy.OnceStep | src/once.rs:35-46 | after `get` the cell is filled with the returned value, which is the stored one if there was one and the initializer's otherwise |
| OnceLazy.OnceRepeated | src/once.rs:35-46 | a filled cell stays unchanged by any later `get`s |
| OnceLazy.OnceSteps | src/once.rs:35-46 | after at least one `get` the cell is filled |
| OnceLazy.FirstValueKept | src/once.rs:35-46 | any number of `get`s on a fresh cell keep the first initializer's value |
| OnceLazy.Once.constructor | src/once.rs:28-33 | `Once::new` is uninitialised and has run nothing |
| OnceLazy.Once.Get | src/once.rs:35-46 | `get` follows `OnceStep`; the initializer runs only on the first call |
| OnceLazy.Lazy.constructor | src/lazy.rs:100-105 | `Lazy::new` keeps the provider and does not invoke it |
| OnceLazy.Lazy.Get | src/lazy.rs:108-110 | `get` returns the provider's first instance and caches it; the provider runs once, and later calls do not run it again |
| CommonManifest.Singleton | common/src/attributes/components.rs:155-156 | `HashSet::from([t])` holds just t under its identifier, or is the "root unspecified" panic when t cannot be hashed. The same code is at common/src/type_data.rs lines 49-53. |
| CommonManifest.InsertAll | common/src/attributes/modules.rs:92-96 | `HashSet::from_iter` succeeds iff every type can be hashed, else the "root unspecified" panic. The same code is at common/src/type_data.rs lines 49-53. |
| CommonManifest.InsertAllMembers | common/src/type_data.rs:43-53 | the set is keyed by identifier, keeps what it held, holds every inserted type, and holds nothing else |
| CommonManifest.InsertAllOnly | common/src/type_data.rs:43-53 | a new entry is one of the inserted types under its own identifier |
| CommonManifest.NewBinding | common/src/manifest.rs:209-218 | `Binding::new` sets the binding kind and `field_static` true, every other field at its default |
| CommonManifest.Merged | common/src/manifest.rs:56-78 | `merge_from` lengthens every list by the other's length and leaves `root` as it was |
| CommonManifest.MergedKeepsOrder | common/src/manifest.rs:56-69 | the existing elements keep their indices and the other's follow in order |
| CommonManifest.MergedVisibilities | common/src/manifest.rs:70-75 | the visibility map is the union of both, the other's entry winning a shared key |
| CommonManifest.MergedLifetimed | common/src/manifest.rs:76-77 | the lifetimed types are the union of both sets, an existing element staying, still keyed by identifier |
| CommonManifest.MergeEmptyIsNoop | common/src/manifest.rs:56-78 | merging an empty manifest changes nothing |
| CommonManifest.MergeIntoEmpty | common/src/manifest.rs:43-78 | merging into a cleared manifest copies the other, except that `root` stays false |
| CommonManifest.MergeAssociative | common/src/manifest.rs:56-78 | merging twice in a row is merging the merge |
| CommonManifest.ManifestStore.constructor | common/src/manifest.rs:39-41 | `Manifest::new()` is the empty manifest |
| CommonManifest.ManifestStore.Clear | common/src/manifest.rs:43-54 | `clear` leaves the empty manifest |
| CommonManifest.ManifestStore.MergeFrom | common/src/manifest.rs:56-78 | `merge_from` in place leaves `Merged` of the old state and the other manifest |
| CommonManifest.ManifestStore.InsertVisibility | processor/src/entrypoints.rs:98-105 | the entry under the key is replaced and nothing else changes |
| CommonManifest.ManifestStore.PushEntryPoint | processor/src/entrypoints.rs:107 | the entry point is appended and nothing else changes |
| CommonManifest.InsertAndPushIsMerge | processor/src/entrypoints.rs:98-107 | inserting the entry and pushing the entry point leaves what merging the one-entry manifest would |
| CommonManifest.LifetimedUnion | common/src/manifest.rs:76-77 | `HashSet::extend` keeps existing elements and adds the new identifiers: the map union with the existing side winning |
| ProcessorManifest.NewProvider | processor/src/manifest.rs:250-257 | `Provider::new()` is static, not binds, with every other field at its default |
| ProcessorManifest.EmptyManifest | processor/src/manifest.rs:31-33 | `Manifest::new()` has every list empty |
| ProcessorManifest.Merged | processor/src/manifest.rs:43-52 | `merge_from` lengthens each of the five lists by the other's length |
| ProcessorManifest.MergedKeepsOrder | processor/src/manifest.rs:43-52 | each list keeps its elements as a prefix, followed by the other's in order |
| ProcessorManifest.MergeEmpty | processor/src/manifest.rs:31-52 | the empty manifest is a unit of merging on both sides |
| ProcessorManifest.MergeAssociative | processor/src/manifest.rs:43-52 | merging is associative |
| ProcessorManifest.ManifestStore.constructor | processor/src/manifest.rs:31-33 | a new store holds the empty manifest |
| ProcessorManifest.ManifestStore.Clear | processor/src/manifest.rs:35-41 | `clear` empties all five lists |
| ProcessorManifest.ManifestStore.MergeFrom | processor/src/manifest.rs:43-52 | `merge_from` in place leaves `Merged` of the old state and the other manifest |
| SymbolCodec.Utf8Char | processor/src/entrypoints.rs:142-146 | a character encodes to one to four bytes, and to one byte exactly when it is below 0x80 |
| SymbolCodec.Utf8 | processor/src/entrypoints.rs:142-146 | the bytes of a string are at least as many as its characters |
| SymbolCodec.Utf8DecodeChar | processor/src/entrypoints.rs:142-146 | a decoded character consumes between one byte and all the bytes |
| SymbolCodec.Utf8CharRoundTrip | processor/src/entrypoints.rs:142-146 | one character's encoding decodes back to that character and its length, whatever follows |
| SymbolCodec.Utf8RoundTrip | processor/src/entrypoints.rs:142-146 | decoding the UTF-8 of any string gives the string back |
| SymbolCodec.Sextet | processor/src/entrypoints.rs:141 | every six-bit value maps to an alphabet character of Table 1 of RFC 4648 |
| SymbolCodec.SextetValue | processor/src/entrypoints.rs:141 | a character has a six-bit value iff it is in the alphabet, and that value maps back to it |
| SymbolCodec.SextetRoundTrip | processor/src/entrypoints.rs:141 | the value of a value's character is that value |
| SymbolCodec.EncodeGroup | processor/src/entrypoints.rs:141 | three bytes become four alphabet characters |
| SymbolCodec.EncodeTail | processor/src/entrypoints.rs:141 | a final one or two bytes become two or three alphabet characters, without padding (section 3.2 of RFC 4648) |
| SymbolCodec.Encode | processor/src/entrypoints.rs:141-146 | the unpadded encoding has length (4n + 2) / 3 and only alphabet characters |
| SymbolCodec.TailRoundTrip | processor/src/entrypoints.rs:141 | a final group decodes to its bytes |
| SymbolCodec.GroupRoundTrip | processor/src/entrypoints.rs:141 | a full group decodes to its three bytes |
| SymbolCodec.Base64RoundTrip | processor/src/entrypoints.rs:141-146 | decoding the encoding gives the bytes back, so equal encodings mean equal bytes |
| SymbolCodec.MangleIsOnePass | processor/src/entrypoints.rs:147-148 | the "/" replacement cannot act on what the "+" replacement inserted, so the two are one pass over the characters |
| SymbolCodec.UnmangleRoundTrip | processor/src/entrypoints.rs:147-148 | base64 text, which has no "_", is recovered from its spelling |
| SymbolCodec.MangledIsIdentifier | processor/src/entrypoints.rs:139-149 | the spelled base64 is made of identifier characters only |
| SymbolCodec.Spell | processor/src/entrypoints.rs:139-149 | the symbol spelling of a string holds identifier characters only |
| SymbolCodec.SpellRoundTrip | processor/src/entrypoints.rs:139-149 | unspelling, base64 decoding and UTF-8 decoding recover the string |
| SymbolCodec.SpellInjective | processor/src/entrypoints.rs:139-149 | two strings with the same spelling are equal |
| EntryPoints.TraitIsExported | common/src/attributes/entrypoints.rs:69-88 | once the trait's visibility entry is recorded, the trait and a reference to it are seen as the exported name. The same code is at processor/src/component_visibles.rs lines 25-50. |
| EntryPoints.HandleEntryPointAttribute | common/src/attributes/entrypoints.rs:39-93 | the item must be a trait whose provisions read and the metadata must parse, else that error; an unknown key is "unknown key: <key>"; otherwise the result is the entry-point manifest |
| EntryPoints.EntryPointManifest | common/src/attributes/entrypoints.rs:55-92 | the manifest holds one entry point, of the trait's local type with its provisions, and one visibility entry, and no component or injectable |
| EntryPoints.EntryPointFailures | common/src/attributes/entrypoints.rs:55-62 | the manifest fails exactly when `install_in` is missing ("install_in metadata expected for #[entry_point]"), is not a path ("path expected for install_in") or does not resolve |
| EntryPoints.EntryPointRecord | common/src/attributes/entrypoints.rs:63-92 | the manifest holds only one entry point (the trait's local type, installed in `install_in`, with the provisions) and one visibility entry under the trait's arg-less canonical path naming `lockjaw_export_type_<trait>` and the exported CRATE type |
| EntryPoints.GetterText | processor/src/entrypoints.rs:142-146 | the getter text exists exactly when both identifiers render |
| EntryPoints.GetterName | processor/src/entrypoints.rs:138-150 | the getter name is "lockjaw_entry_point_getter_" followed by identifier characters only, and exists exactly when the text does |
| EntryPoints.GetterNameDecodes | processor/src/entrypoints.rs:138-150 | the joined identifiers are recovered from the getter name by undoing the spelling, the base64 and the UTF-8 |
| EntryPoints.GetterNameInjective | processor/src/entrypoints.rs:138-150 | two entry points with the same getter name have the same joined identifiers |
| EntryPoints.ProcessorEntryShape | processor/src/entrypoints.rs:62-105 | the processor's entry fails exactly when `install_in` fails or no prologue covers the position; otherwise the trait's local type installed in the component, keyed by its arg-less canonical path with the exported type at the trait's identifier |
| EntryPoints.HandleProcessorEntryPoint | processor/src/entrypoints.rs:43-107 | the processor handler's checks as in the common one, leaving the manifest unchanged on failure; on success the visibility entry is inserted and the entry point pushed |
| Cfg.ParseList | common/src/attributes/cfg.rs:113-150 | a parenthesized list parses to one predicate per item, or fails |
| Cfg.ParseDispatch | common/src/attributes/cfg.rs:28-80 | the leading `all`, `any` or `not` decides the predicate kind, anything else is an option, and an option has a string exactly when `= "..."` follows its identifier |
| Cfg.Parse | common/src/attributes/cfg.rs:28-175 | an option is never named `all`, `any` or `not` and keeps the identifier it was read with; a parenthesized tail is accepted only after one of those keywords; a keyword without parentheses is "expected parentheses", prefixed "unexpected end of input, " when nothing follows it, and `not()` is "unexpected end of input, expected identifier" |
| Cfg.Eval | common/src/attributes/cfg.rs:42-181 | `eval` as written fails only with the panic of reading an unset variable |
| Cfg.EvalFixed | common/src/attributes/cfg.rs:82-104 | the corrected evaluation reads an option on an unset variable as false, whatever literal it compares with |
| Cfg.Upper | common/src/attributes/cfg.rs:91-99 | upper-casing keeps the length, lifts each lower-case ASCII letter by 32 and keeps every other character (the ASCII part of `to_uppercase`) |
| Cfg.EnvName | common/src/attributes/cfg.rs:89-100 | the variable name starts with "CARGO_CFG_" and holds no "-" after it |
| Cfg.UnsetVariablePanicsFor | common/src/attributes/cfg.rs:88-95 | an option `key = "value"` whose variable is not set panics at the unwrap; the corrected evaluation answers false |
| Cfg.UnsetVariablePanics | common/src/attributes/cfg.rs:88-95 | `feature = "x"` with no environment panics, and the corrected evaluation is false |
| Cfg.EvalFixedForms | common/src/attributes/cfg.rs:43-181 | `all()` is true, `any()` false, double `not` cancels, `test` is the test flag, and `key = "v"` holds iff the variable is set and v is one of its comma-separated values |
| Cfg.EvalAgrees | common/src/attributes/cfg.rs:43-181 | wherever the written evaluation answers, the answer is the corrected one's |
| Cfg.EvalAllAgrees | common/src/attributes/cfg.rs:126-130 | an answered `all` is true iff every item holds under the corrected evaluation |
| Cfg.EvalAnyAgrees | common/src/attributes/cfg.rs:152-156 | an answered `any` is true iff some item holds under the corrected evaluation |
| Cfg.AllSetNeverPanics | common/src/attributes/cfg.rs:82-104 | when every variable a predicate consults is set, the evaluation never panics |
| Cfg.ListNeverPanics | common/src/attributes/cfg.rs:126-156 | the same for the items of an `all` or `any` list |
| SourcePaths.ComponentsFrom | processor/src/environment.rs:78-88 | every component is a non-empty name without "/" |
| SourcePaths.Components | processor/src/environment.rs:78-88 | every component of a path is a non-empty name without "/" |
| SourcePaths.ComponentsFromName | processor/src/environment.rs:78-88 | characters other than "/" extend the name being read |
| SourcePaths.ComponentsCons | processor/src/environment.rs:78-88 | "name/rest" has components name followed by those of rest |
| SourcePaths.SingleComponent | processor/src/environment.rs:78-88 | a single name is its only component |
| SourcePaths.LastDot | processor/src/environment.rs:62-66 | the found position holds the last "." of the name, and none is found iff the name has no "." |
| SourcePaths.FileStem | processor/src/environment.rs:62-66 | the stem is a prefix of the name, and not empty for a non-empty name |
| SourcePaths.StemOfRs | processor/src/environment.rs:62-66 | the stem of "x.rs" is x |
| SourcePaths.BasePathIsModuleSegments | processor/src/environment.rs:60-95 | `get_base_path` is the "::"-join of the directories followed by the stem, where a root `main` or `lib` and a `mod` add no segment |
| SourcePaths.BasePathEmpty | processor/src/environment.rs:62-64 | the empty path fails with "no source file stem" |
| SourcePaths.BasePathRootFile | processor/src/environment.rs:67-111 | a root file `main.rs` or `lib.rs` has the empty base path, any other x.rs has x |
| SourcePaths.BasePathNestedFile | processor/src/environment.rs:77-121 | d/mod.rs has base path d and d/x.rs has d::x |
| SourcePaths.SourceRoot | processor/src/prologue.rs:705-722 | the root found is a prefix of the path; "src/bin/" wins over "src/"; "src/" exactly when "src/bin/" does not apply; none exactly when no layout directory applies |
| SourcePaths.SrcComponents | processor/src/prologue.rs:660-664 | the components of "src/p" are "src" and those of p |
| SourcePaths.JoinNonEmpty | processor/src/prologue.rs:660-667 | joining non-empty names gives a non-empty string |
| SourcePaths.ModPathAgreesWithBasePath | processor/src/prologue.rs:648-678 | below "src/", `get_mod_path` agrees with `get_base_path` for every stem other than `lib`, `main` and `mod`. The same code is at processor/src/environment.rs lines 60-95. |
| SourcePaths.ModPathRootFile | processor/src/prologue.rs:648-694 | "src/x.rs" gives the empty path for `lib`, `main` and `mod`, and x otherwise |
| SourcePaths.ModPathNestedFile | processor/src/prologue.rs:648-703 | "src/d/x.rs" gives d for `lib`, `main` and `mod`, and d::x otherwise |
| SourcePaths.NotUnderBin | processor/src/prologue.rs:705-710 | a directory other than "bin" directly under "src/" is not under "src/bin/" |
| SourcePaths.NestedModPath | processor/src/prologue.rs:648-678 | a "src/" file one directory down gives that directory, followed by "::stem" unless the stem is `lib`, `main` or `mod` |
| UsePaths.Remainder | common/src/manifest_parser.rs:630-638 | the remainder of a use tree is never a path segment |
| UsePaths.SplitTree | common/src/manifest_parser.rs:628-638 | the loop collects exactly the tree's leading segments and stops at its remainder |
| UsePaths.Pop | common/src/manifest_parser.rs:657-659 | popping drops the last element and leaves an empty path empty |
| UsePaths.WalkSegments | common/src/manifest_parser.rs:650-667 | the loop computes the walk of the segments from the parents |
| UsePaths.WalkShift | common/src/manifest_parser.rs:653-667 | walking from index i is walking the suffix from i |
| UsePaths.WalkKeywords | common/src/manifest_parser.rs:654-664 | a leading `self` is skipped, `super` pops the path, `crate` clears it |
| UsePaths.WalkOrdinary | common/src/manifest_parser.rs:665-666 | from the first ordinary segment on, the rest is appended unchanged |
| UsePaths.UseItems | common/src/manifest_parser.rs:711-745 | a name imports itself, a rename imports the ident under its alias, a glob imports nothing, a group imports its members and fails on anything else |
| UsePaths.GroupItems | common/src/manifest_parser.rs:728-742 | a group succeeds exactly when every member is a name or a rename, giving one item per member in order |
| UsePaths.EntryPath | common/src/manifest_parser.rs:681-687 | the entry's path is the walked path, followed by the item unless the item is `self` |
| UsePaths.ProcessUse | common/src/manifest_parser.rs:621-703 | `process_use` computes the use table of the declaration. The same code is at src/manifest_parser.rs lines 265-347. |
| UsePaths.InsertLoop | common/src/manifest_parser.rs:670-701 | the insertion loop inserts each item in order, skipping those with an empty name |
| UsePaths.InsertItemsKeys | common/src/manifest_parser.rs:670-701 | the table's names are those already there and those of the items not skipped |
| UsePaths.InsertItemsLastWins | common/src/manifest_parser.rs:693-700 | a name maps to the entry of the last item carrying it |
| UsePaths.InsertItemsKeeps | common/src/manifest_parser.rs:693-700 | a name no item carries keeps its entry |
| UsePaths.GlobImportsNothing | common/src/manifest_parser.rs:725-727 | a glob import adds no name |
| UsePaths.InsertOne | common/src/manifest_parser.rs:670-701 | one item with a non-empty name is one entry |
| UsePaths.GlobalImport | common/src/manifest_parser.rs:645-680 | an absolute path or one starting with a dependency is GLOBAL in the crate of the first segment, at the segments followed by the item |
| UsePaths.CrateRelativeImport | common/src/manifest_parser.rs:650-675 | a path starting with an ordinary non-dependency segment is CRATE in the current crate, under the parents |
| UsePaths.SelfItemIsItsPath | common/src/manifest_parser.rs:681-687 | `self` in a group imports the path before it |
| UsePaths.WithDefaults | common/src/manifest_parser.rs:539-550 | the defaults add every dependency not already imported, as itself and GLOBAL, and change no import |
| UsePaths.AddDefaults | common/src/manifest_parser.rs:539-550 | the default loop computes that table. The same code is at src/manifest_parser.rs lines 183-194. |
| UsePaths.CommonUsesStep | common/src/manifest_parser.rs:522-530 | a malformed `#[cfg]`, or one whose evaluation panics on an unset variable, fails the collection, and a false one skips the item |
| UsePaths.CommonGetUses | common/src/manifest_parser.rs:503-552 | the method computes the collected uses with defaults of the test or prod dependencies |
| UsePaths.CommonUsesDefaults | common/src/manifest_parser.rs:509-550 | after a successful `get_uses`, `std`, `core` and every dependency of the chosen kind have an entry |
| UsePaths.CommonUsesGrowsDeps | common/src/manifest_parser.rs:522-538 | collecting only adds dependencies and names |
| UsePaths.SrcGetUses | src/manifest_parser.rs:164-196 | the method computes the collected uses with defaults of the direct dependencies |
| UsePaths.UsesAgree | common/src/manifest_parser.rs:522-538 | with no `#[cfg]` and no `extern crate`, both collections succeed together and give the same table. The same code is at src/manifest_parser.rs lines 178-182. |
| UsePaths.CompiledItems | common/src/manifest_parser.rs:331-339 | the compiled items are at most the items read |
| UsePaths.CompiledItemsMembers | common/src/manifest_parser.rs:331-339 | the walk fails exactly when some predicate is malformed or its evaluation panics, and an item is kept exactly when its predicate holds |
| UsePaths.UnsetVariableStopsWalk | common/src/manifest_parser.rs:331-339 | an item under `#[cfg(key = "value")]` whose variable cargo did not set makes the walk the unwrap panic |
| UsePaths.CommonUsesOfCompiled | common/src/manifest_parser.rs:522-530 | `get_uses` over all items equals `get_uses` over the items `parse_mods` compiles |
| UsePaths.CommonUsesShift | common/src/manifest_parser.rs:522-538 | collecting from position k + 1 of [x] + rest is collecting from position k of rest |
| UsePaths.ResolveDeclarePath | common/src/manifest_parser.rs:562-575 | resolving a declaration never fails. The same code is at src/manifest_parser.rs lines 206-219. |
| UsePaths.DeclarePathIsModulePath | common/src/manifest_parser.rs:562-575 | the declared path is the parents, the module name unless `(src)`, and the identifier, joined by "::" |
| UsePaths.ResolvePath | common/src/manifest_parser.rs:577-600 | resolving a name always gives a type. The same code is at src/manifest_parser.rs lines 221-244. |
| UsePaths.ResolveLocalIsDeclarePath | common/src/manifest_parser.rs:577-600 | an imported name resolves to its import's crate, path and root; any other resolves, in a module where `(src)` has no parents, to a CRATE type of the module's crate at its declared path |
| PrologueUse.WordRun | processor/src/prologue.rs:524 | the run is the longest prefix of word characters |
| PrologueUse.WordRunOfWord | processor/src/prologue.rs:524 | a word followed by a non-word character, or by nothing, is the run |
| PrologueUse.PeelStep | processor/src/prologue.rs:524 | one word and "::" more is one segment more |
| PrologueUse.PeelSegments | processor/src/prologue.rs:524-538 | the text is the peeled words, each followed by "::", then the rest, and each peeled segment is a word |
| PrologueUse.SplitUse | processor/src/prologue.rs:524-538 | the global prefix is present iff the text starts with "::", and the text is that prefix, the segments with their "::" and the remainder |
| PrologueUse.RemainderHasNoColon | processor/src/prologue.rs:524 | a remainder the pattern accepts holds no ":" |
| PrologueUse.PeelUnique | processor/src/prologue.rs:524 | peeling words and a remainder without ":" gives those words and that remainder back, so the greedy split is the only match |
| PrologueUse.NoLeadingColon | processor/src/prologue.rs:524 | such a text does not start with ":" |
| PrologueUse.NotDoubleColon | processor/src/prologue.rs:524 | a text not starting with ":" does not start with "::" |
| PrologueUse.MatchUseIsPattern | processor/src/prologue.rs:523-528 | the explicit matcher accepts exactly the texts in the pattern's language, with the pattern's captures |
| PrologueUse.PatternIsSplit | processor/src/prologue.rs:524 | the captures of any accepted text are the split ones |
| PrologueUse.SplitGlobal | processor/src/prologue.rs:524 | "::" then segments then a remainder splits into a global match of those parts |
| PrologueUse.SplitGlobalBody | processor/src/prologue.rs:524 | a leading "::" is split off before the segments |
| PrologueUse.SplitPlain | processor/src/prologue.rs:524 | segments then a remainder split into a non-global match of those parts |
| PrologueUse.SegmentTextChars | processor/src/prologue.rs:524 | the segment text holds only word characters and ":" |
| PrologueUse.RemainderHasNoStar | processor/src/prologue.rs:524 | a remainder the pattern accepts holds no "*" |
| PrologueUse.PatternHasNoStar | processor/src/prologue.rs:524 | no text the pattern accepts holds a "*" |
| PrologueUse.GlobNeverMatches | processor/src/prologue.rs:524-528 | a text holding "*" is rejected by the pattern, so the glob branch of `get_use_items` is never reached |
| PrologueUse.TrimStart | processor/src/prologue.rs:622 | the result is the suffix left after dropping the leading whitespace, and does not start with whitespace |
| PrologueUse.TrimEnd | processor/src/prologue.rs:622 | the result is the prefix left after dropping the trailing whitespace, and does not end with whitespace |
| PrologueUse.Trim | processor/src/prologue.rs:622 | the trimmed string is no longer, and neither of its ends is whitespace |
| PrologueUse.NonEmpty | processor/src/prologue.rs:621 | the kept strings are exactly the non-empty ones, in order |
| PrologueUse.TrimAll | processor/src/prologue.rs:622 | every string is trimmed, one for one |
| PrologueUse.ItemTexts | processor/src/prologue.rs:612-625 | a remainder that is not a brace group is its single item |
| PrologueUse.ItemOf | processor/src/prologue.rs:632-643 | a string without " as " is an item under its own name |
| PrologueUse.ItemsOf | processor/src/prologue.rs:626-645 | there are at most as many items as item strings |
| PrologueUse.SplitOnShort | processor/src/prologue.rs:620-633 | a string in which no separator starts splits into itself |
| PrologueUse.SplitOnFirst | processor/src/prologue.rs:620-633 | the first piece ends at the first separator |
| PrologueUse.RenameItem | processor/src/prologue.rs:632-637 | "a as b" for two words is item a under name b |
| PrologueUse.ItemNamesHaveNoSeparator | processor/src/prologue.rs:589-643 | no item name holds " as ", so the second split in `process_use` never changes a name |
| PrologueUse.ProcessUse | processor/src/prologue.rs:516-604 | the method computes `process_use` with the pattern as written |
| PrologueUse.GlobImportRejected | processor/src/prologue.rs:526-528 | as written, a use text holding "*" fails with "unable to handle use expression <text>" |
| PrologueUse.GlobImportIgnored | processor/src/prologue.rs:628-631 | with the corrected pattern, `a::b::*` is accepted and imports nothing |
| PrologueUse.GlobMatchesFixed | processor/src/prologue.rs:524 | the corrected pattern accepts segments followed by "*" |
| PrologueUse.GlobEntries | processor/src/prologue.rs:573-603 | a "*" remainder adds no entry |
| PrologueUse.WordItem | processor/src/prologue.rs:612-643 | a word is one item under its own name |
| PrologueUse.InsertSingle | processor/src/prologue.rs:574-602 | one item is one entry |
| PrologueUse.WordMatches | processor/src/prologue.rs:524 | segments followed by a word are accepted with that word as the remainder |
| PrologueUse.GlobalUseText | processor/src/prologue.rs:542-600 | `dep::a::Name` for a dependency dep imports Name as GLOBAL in crate dep at the segments and Name |
| PrologueUse.ListConcat | processor/src/prologue.rs:524 | remainder characters without ":" stay so when concatenated |
| PrologueUse.SeparatorChars | processor/src/prologue.rs:524 | " as " is made of remainder characters without ":" |
| PrologueUse.RenameMatches | processor/src/prologue.rs:524 | "item as name" after the segments is accepted as the remainder |
| PrologueUse.GlobalRenameText | processor/src/prologue.rs:542-637 | `dep::a::Item as Name` imports Name as GLOBAL in crate dep at the segments and Item |
| PrologueUse.RenameEntries | processor/src/prologue.rs:573-603 | the rename's match gives that single entry |
| PrologueUse.SingleItemText | processor/src/prologue.rs:612-645 | a text that is neither a brace group nor "*" is the one item it spells |
| PrologueMods.ChooseFrom | processor/src/prologue.rs:113-123 | the chosen module, if any, is in the table |
| PrologueMods.GetModIndex | processor/src/prologue.rs:112-124 | the chosen index, if any, is in the table |
| PrologueMods.ChooseStep | processor/src/prologue.rs:115-122 | one more step of the loop keeps the choice innermost among the modules seen |
| PrologueMods.ChooseFromChosen | processor/src/prologue.rs:115-122 | the rest of the walk ends with the innermost choice over the whole table |
| PrologueMods.InnermostUnique | processor/src/prologue.rs:112-124 | at most one module is innermost at a position |
| PrologueMods.GetModIsInnermost | processor/src/prologue.rs:112-124 | `get_mod` finds nothing iff no module covers the position, and otherwise exactly the innermost covering module |
| PrologueMods.GetMod | processor/src/prologue.rs:112-124 | the loop returns the chosen module's index |
| PrologueMods.ResolveDeclarePath | processor/src/prologue.rs:48-77 | resolving fails with the "Unable to resolve path to current location" message exactly when no module covers the position |
| PrologueMods.DeclarePathUnderBase | processor/src/prologue.rs:48-77 | the declared path is the file's base path and "::", then the innermost module's path, then the identifier |
| PrologueMods.ResolvePath | processor/src/prologue.rs:79-110 | nothing is resolved exactly when no module covers the position |
| PrologueMods.ResolveLocalIsDeclarePath | processor/src/prologue.rs:48-110 | in a well-formed module an imported name is its import and any other is a CRATE type of the current crate at its declared path |
| PrologueMods.ParentMods | processor/src/prologue.rs:177-189 | nothing when no module covers the position; otherwise the module's parents followed by its name unless it is `(src)` |
| PrologueMods.SupersAreCopies | processor/src/prologue.rs:168-171 | the path is n copies of `super::` and nothing else |
| PrologueMods.PrologueCheck | processor/src/prologue.rs:166-175 | the loop builds one `super::` per module of `get_parent_mods` |
| PrologueMods.UsesStep | processor/src/prologue.rs:486-500 | a node that is not a use declaration is skipped; a use declaration's failure fails the walk, and its entries are added |
| PrologueMods.UsesFromGrows | processor/src/prologue.rs:486-500 | imports only add names |
| PrologueMods.UsesFromRejects | processor/src/prologue.rs:489-498 | a use declaration that `process_use` rejects makes `get_uses` fail |
| PrologueMods.PrologueUsesDefaults | processor/src/prologue.rs:481-512 | `std`, `core` and every dependency have an entry after `get_uses` |
| PrologueMods.GetUses | processor/src/prologue.rs:474-514 | the method computes the prologue's use table |
| PrologueMods.BodyIsSmaller | processor/src/prologue.rs:450-460 | a module body inside an item is smaller than the items |
| PrologueMods.ParseModsShape | processor/src/prologue.rs:413-472 | the first module is the one being parsed (its name, the offset range, its parents), and every module is well formed under the starting parents |
| PrologueMods.ParseChildrenShape | processor/src/prologue.rs:439-470 | every nested module is well formed and under the parents |
| PrologueMods.ChildrenStep | processor/src/prologue.rs:441-467 | an item that is not a module with a body is skipped; a nested module's failure fails the walk, and its modules are appended |
| PrologueMods.ChildrenEnd | processor/src/prologue.rs:465-467 | the walk ends with the modules gathered |
| PrologueMods.ParseModsWalk | processor/src/prologue.rs:413-472 | the method computes `parse_mods` |
| PrologueValidate.CrateAliasMeaning | processor/src/prologue.rs:400-407 | with no name importing `::lockjaw`, the crate's name stays "lockjaw"; with some, it is one such name |
| PrologueValidate.LocalPath | processor/src/prologue.rs:397-411 | the loop visits each name once and computes the local names of the item |
| PrologueValidate.LocalPathIgnoresImports | processor/src/prologue.rs:398-409 | as written, only the item and "lockjaw::item" are recognised, since no import's path starts with ":" |
| PrologueValidate.RenameImport | processor/src/prologue.rs:516-604 | `use dep::item as name;` imports name at "dep::item" |
| PrologueValidate.AsWrittenMissesRename | processor/src/prologue.rs:398-403 | as written, a renamed import's name is not among the item's local names |
| PrologueValidate.LockjawIsWord | processor/src/prologue.rs:524 | "lockjaw" is a word of the use pattern |
| PrologueValidate.RenamedImportMissed | processor/src/prologue.rs:398-403 | after `use lockjaw::item as name;` the name is missed as written and found by the corrected comparison |
| PrologueValidate.LocalPathFindsImports | processor/src/prologue.rs:397-411 | corrected, every name importing the item, and the item itself, are recognised |
| PrologueValidate.PathRun | processor/src/prologue.rs:314 | the run is the longest prefix of path characters |
| PrologueValidate.AttrPath | processor/src/prologue.rs:314-349 | the captured path, as written, is non-empty and made of path characters |
| PrologueValidate.AttrPathFixed | processor/src/prologue.rs:314-349 | the corrected capture is non-empty and made of path characters |
| PrologueValidate.PathRunOf | processor/src/prologue.rs:314 | a path followed by a character that cannot continue it is the run |
| PrologueValidate.AttrPathFixedOf | processor/src/prologue.rs:314 | "#[name" followed by a "]" anywhere is attribute name, corrected |
| PrologueValidate.NoCloseOnLine | processor/src/prologue.rs:314 | a line break straight after "(" leaves no "]" on that line |
| PrologueValidate.NoHashNoPath | processor/src/prologue.rs:314 | a text without "#" has no capture |
| PrologueValidate.MultiLineAttribute | processor/src/prologue.rs:314-349 | "#[name(" then a line break has no capture as written, which makes the unwrap panic; corrected it is attribute name |
| PrologueValidate.AttrPathOneLine | processor/src/prologue.rs:314 | an attribute closing on its own line is captured the same either way |
| PrologueValidate.TreeOffsetMeaning | processor/src/prologue.rs:330-337 | the offset is set by the last token tree and fails exactly when some tree starts after the input (an unsigned underflow) |
| PrologueValidate.CallOffset | processor/src/prologue.rs:330-337 | the loop computes that offset |
| PrologueValidate.ScanCallsMeaning | processor/src/prologue.rs:321-342 | a statement's calls fail exactly on such an underflow; otherwise the offset is set by a prologue call with a token tree and the epilogue flag by an epilogue call |
| PrologueValidate.ScanNodeMeaning | processor/src/prologue.rs:318-381 | an item that succeeds keeps the ordering rules and records the calls it makes; one that keeps the rules and cannot panic succeeds |
| PrologueValidate.BeforeStep | processor/src/prologue.rs:318-381 | the flags before item i + 1 are those before item i and what item i holds |
| PrologueValidate.ScanFromMeaning | processor/src/prologue.rs:318-381 | the walk succeeds only when every later item keeps the rules, and does succeed when they keep them and none panics |
| PrologueValidate.ValidateMeaning | processor/src/prologue.rs:295-395 | `validate_prologue` succeeds only when every lockjaw attribute is after a prologue call and before any epilogue call and no `mod x;` sits between them, and outside tests only with a prologue; the offset is the prologue's, or 0 in tests |
| PrologueValidate.ScanFromStep | processor/src/prologue.rs:318-381 | one step of the walk is the item's scan followed by the rest |
| PrologueValidate.ScanStatement | processor/src/prologue.rs:322-342 | the loop walks the statement's calls in order |
| PrologueValidate.LockjawNames | processor/src/prologue.rs:303-312 | the names of the prologue, the attribute macros and the epilogue, one `local_path` each |
| PrologueValidate.ValidatePrologue | processor/src/prologue.rs:295-395 | the method computes `validate_prologue` |
| PrologueValidate.PrologueSourceDataShape | processor/src/prologue.rs:257-472 | after a successful prologue the base path is the module path, the file's `(src)` module comes first, without parents, spanning the file shifted by the offset, every module is well formed, and every position in the file resolves |
| ComponentVisibles.VisibleArgs | processor/src/component_visibles.rs:139-141 | the visible arguments from index i on, when defined, are one per argument |
| ComponentVisibles.VisibleArgsAsWritten | processor/src/component_visibles.rs:139-141 | the same for the loop as written, which indexes the head's argument list |
| ComponentVisibles.VisibleArgsMeaning | processor/src/component_visibles.rs:139-141 | the intended arguments are defined exactly when every argument's visible type is, and are those types index by index |
| ComponentVisibles.VisibleArgsAsWrittenMeaning | processor/src/component_visibles.rs:139-141 | the arguments as written are defined exactly when every argument's visible type as written is, and are those types index by index |
| ComponentVisibles.VisibleUnrefMeaning | processor/src/component_visibles.rs:131-142 | a non-reference type becomes its head (the exported name if registered, else itself) with each argument made visible |
| ComponentVisibles.VisibleMeaning | processor/src/component_visibles.rs:127-151 | a reference stays a reference; each argument is replaced by its own visible type; the head is the exported name exactly when the arg-less canonical path is registered |
| ComponentVisibles.Visible | processor/src/component_visibles.rs:127-151 | the intended `visible_type` keeps the number of arguments and keeps a reference a reference |
| ComponentVisibles.VisibleRooted | processor/src/component_visibles.rs:127-151 | a type whose roots are all specified always has a visible type |
| ComponentVisibles.VisibleWithoutRegistrations | processor/src/component_visibles.rs:127-151 | with nothing registered, `visible_type` is the identity |
| ComponentVisibles.AsWrittenAgrees | processor/src/component_visibles.rs:127-151 | wherever the code as written does not panic, it gives the intended result |
| ComponentVisibles.ArgsAgree | processor/src/component_visibles.rs:139-141 | the argument loops agree from i on wherever the written one is defined |
| ComponentVisibles.GenericExportPanics | processor/src/component_visibles.rs:131-141 | a registered type used with arguments makes the written loop index the exported name's empty arguments and panic, while the intended result exists |
| ComponentVisibles.VisibleType | processor/src/component_visibles.rs:127-143 | the method computes `visible_type` as written |
| ComponentVisibles.VisibleRefType | processor/src/component_visibles.rs:145-151 | `visible_ref_type` is the visible type of the non-reference form, marked a reference |
| ComponentVisibles.VisibleClone | processor/src/component_visibles.rs:131-142 | the head then the loop writing each argument into its index compute the non-reference visible type as written |
| ComponentVisibles.VisibleArgsClone | processor/src/component_visibles.rs:139-141 | arguments agreeing with the visible types on `t`'s indices and with the head beyond them are the loop's result |
| ComponentVisibles.AgreeingArgsAsWritten | processor/src/component_visibles.rs:139-141 | arguments agreeing with the visible types from i on are the loop's result from i |
| ComponentVisibles.RegistrationShape | processor/src/component_visibles.rs:40-104 | registration fails exactly without a prologue; otherwise the key is the item's canonical path ("dyn " first for a trait), the local name is the `lockjaw_export_type_` twin and the exported name is a CRATE type of the current crate named by the item's identifier |
| ComponentVisibles.RegisteredItemIsExported | processor/src/component_visibles.rs:53-151 | once registered, the item's type and a reference to it are seen as the exported name |
| ComponentVisibles.GenericRegisteredStructPanics | processor/src/component_visibles.rs:53-141 | a registered struct used with one argument makes `visible_type` as written panic, while the intended result is the exported name with the argument's visible type |
| ComponentVisibles.AttributeEntry | processor/src/component_visibles.rs:26-38 | a struct or a trait gives its registration, and anything else "unable to handle the item" |
| ComponentVisibles.VisibilityRegistry.constructor | processor/src/manifest.rs:31-33 | the registry starts with no visibilities |
| ComponentVisibles.VisibilityRegistry.HandleItem | processor/src/component_visibles.rs:40-112 | on success the entry is inserted, replacing any under the same key; on failure the error is the registration's and nothing changes |
| ComponentVisibles.VisibilityRegistry.HandleAttribute | processor/src/component_visibles.rs:26-38 | the attribute inserts the item's entry or fails with the entry's error, leaving the registry unchanged |
| VisibleAttrs.ItemType | common/src/attributes/component_visibles.rs:45-70 | the item's type is a CRATE type with no arguments, no qualifier and no reference |
| VisibleAttrs.HandleComponentVisibleAttribute | common/src/attributes/component_visibles.rs:26-39 | it fails with "unable to handle the item" exactly when the item is neither a struct nor a trait, and otherwise gives that item's manifest |
| VisibleAttrs.VisibleRecord | common/src/attributes/component_visibles.rs:41-88 | the manifest holds one visibility and nothing else: under the item's canonical path ("dyn " first for a trait), the twin as local name, and a CRATE type of the current package named by the identifier string as exported name |
| VisibleAttrs.VisibleKey | common/src/attributes/component_visibles.rs:54-81 | the key is the item's canonical path, which is also its arg-less canonical path |
| VisibleAttrs.VisibleItemIsExported | common/src/attributes/component_visibles.rs:41-88 | once the entry is among the visibilities, the item's type and a reference to it are seen as the exported name. The same code is at processor/src/component_visibles.rs lines 127-151. |
| Parsing.IsAttribute | common/src/parsing.rs:27-44 | an attribute is named `name` iff its path is one segment with that identifier, or several segments and `name` is "" |
| Parsing.FindAttribute | common/src/parsing.rs:46-48 | the result is the first attribute so named, and nothing iff none is |
| Parsing.HasAttribute | common/src/parsing.rs:50-52 | true iff some attribute is so named |
| Parsing.ParseArray | common/src/parsing.rs:166-172 | an array parses iff every element does, to those values in order |
| Parsing.ParseFieldsMeaning | common/src/parsing.rs:135-147 | the loop succeeds iff every member is named and every value parses; the keys are the existing ones and the field names, and a name takes its last field's value |
| Parsing.NamesCons | common/src/parsing.rs:139-145 | the names of a field list are the first field's and the rest's |
| Parsing.ParsePunctuatedFieldValues | common/src/parsing.rs:135-147 | the method computes the field map from the empty map |
| Parsing.GetAttributeFieldValues | common/src/parsing.rs:122-133 | no tokens give no fields, tokens that are not a field list fail with "FieldValue (key: value, ...) expected", and a field list gives its map |
| Parsing.GetParenthesizedFieldValues | common/src/parsing.rs:54-62 | `#[a]` has no fields, `#[a = ...]` fails with "list expected", `#[a(...)]` gives the field map of its tokens |
| Parsing.RepeatedKeyKeepsLast | common/src/parsing.rs:139-145 | a key written twice keeps the value written last |
| Parsing.GetType | common/src/parsing.rs:71-79 | tokens that are not a path fail with "path expected"; a path is read as a type |
| Parsing.GetPaths | common/src/parsing.rs:95-110 | a path is itself, an array gives its paths iff all its elements are paths, anything else fails with "path expected" |
| Parsing.ArrayPaths | common/src/parsing.rs:98-107 | the array's paths exist iff every element is a path, one for one |
| Parsing.TypesOf | common/src/parsing.rs:112-118 | the paths read as types, in order, iff each one reads |
| Parsing.ArrayTypesMeaning | common/src/parsing.rs:187-197 | the array loop of `get_types` succeeds iff every element is a path that reads as a type, and gives those types in order |
| Parsing.ArrayTypesUnfold | common/src/parsing.rs:189-195 | one step: an element that is not a path fails with "field in array is not a path", a type error is returned, else the type is prepended |
| Parsing.GetTypesLoop | common/src/parsing.rs:181-200 | the method computes `get_types` |
| Parsing.ArrayTypesLoop | common/src/parsing.rs:187-197 | the loop computes the array's types |
| Parsing.GetTypesAgree | common/src/parsing.rs:112-200 | `get_types` and `FieldValue::get_types` accept the same values and give the same types |
| ProcessorParsing.IsAttribute | processor/src/parsing.rs:30-43 | a name match needs a one-segment path |
| ProcessorParsing.GetIdent | processor/src/parsing.rs:79-82 | a path has an identifier iff it is one segment without leading "::" and without arguments |
| ProcessorParsing.GetParenthesizedAttributes | processor/src/parsing.rs:45-63 | no text gives no attributes; text not starting with "(" fails with "'(' expected at start", one not ending with ")" with "')' expected at end", else the inside is read as pairs |
| ProcessorParsing.InsertPairsAccepts | processor/src/parsing.rs:77-107 | the pair loop succeeds iff every key is an identifier and every value a string literal |
| ProcessorParsing.InsertPairsLast | processor/src/parsing.rs:77-85 | a key maps to the value of the last pair naming it |
| ProcessorParsing.InsertPairsKeeps | processor/src/parsing.rs:77-85 | an existing key no pair names keeps its value |
| ProcessorParsing.GetAttributesLoop | processor/src/parsing.rs:66-87 | the method computes `get_attributes` |
| ProcessorParsing.PieceTypes | processor/src/parsing.rs:94-99 | each comma-separated piece parses as a path and reads as the type at its index |
| ProcessorParsing.GetTypes | processor/src/parsing.rs:90-100 | no string gives no types; otherwise one type per comma-separated piece |
| ProcessorParsing.GetTypesSingle | processor/src/parsing.rs:90-100 | a string with no comma is a single type |
| ProcessorParsing.SplitNoSep | processor/src/parsing.rs:96 | a string without the separator splits into itself |
| AttributeKeys.CheckKeys | common/src/attributes/modules.rs:63-67 | the key check succeeds iff every key is allowed, and otherwise reports "unknown key: <k>" for some key that is not. The same code is at common/src/attributes/entrypoints.rs lines 50-54. |
| ModuleAttrs.TypedArgs | common/src/attributes/modules.rs:228-250 | the typed parameters are a subsequence of the parameters, all typed |
| ModuleAttrs.ProvidesArgsMeaning | common/src/attributes/modules.rs:228-250 | the parameter loop accepts exactly the lists without a by-value `self` whose other parameters read; the binding stays static only without a receiver; each typed parameter adds one dependency in order |
| ModuleAttrs.ProvidesArgsOk | common/src/attributes/modules.rs:228-250 | the loop succeeds iff every parameter is accepted |
| ModuleAttrs.ProvidesArgsStatic | common/src/attributes/modules.rs:229-236 | the binding is static iff it was and no parameter is a receiver |
| ModuleAttrs.ProvidesArgsDependencies | common/src/attributes/modules.rs:237-248 | the dependencies are the earlier ones followed by one per typed parameter, with its name and type |
| ModuleAttrs.ReadProvidesArgs | common/src/attributes/modules.rs:228-250 | the method computes the parameter loop from a static binding with no dependencies |
| ModuleAttrs.ProvidesShape | common/src/attributes/modules.rs:216-255 | a provides binding fails exactly when the return type is missing or unreadable, the `scope` types fail or a parameter is rejected; otherwise it is named after the method, typed by its return type with the scopes, with the parameters as dependencies |
| ModuleAttrs.HandleProvides | common/src/attributes/modules.rs:216-255 | the method computes the provides binding |
| ModuleAttrs.BindsShape | common/src/attributes/modules.rs:257-307 | a binds binding has an empty body, returns `Cl<T>` and takes one named parameter, its only dependency; it binds T with the scopes and is static; a body fails with "#[binds] methods must have empty body" |
| ModuleAttrs.DeclarationShapes | common/src/attributes/modules.rs:309-364 | `#[binds_option_of]` and `#[multibinds]` need an empty body and no parameters and bind the return type without dependencies; a multibinds type is a `Vec` or a `HashMap` |
| ModuleAttrs.LastColonsBelow | common/src/attributes/modules.rs:180-185 | the found position is the last "::" before n |
| ModuleAttrs.LastColons | common/src/attributes/modules.rs:180-185 | `rfind("::")` is the last "::" of the string, or none |
| ModuleAttrs.MapKeyOf | common/src/attributes/modules.rs:159-191 | a map key it gives is well formed (an `i32` key in range, an enum key a prefix path of its value) |
| ModuleAttrs.MapKeyChoice | common/src/attributes/modules.rs:159-191 | `string_key` wins over `i32_key`, which wins over `enum_key`; each must have its literal kind, an `i32` key must be in range ("key overflows i32") and a non-path `enum_key` fails with the `i32_key` message |
| ModuleAttrs.AttrsFromMeaning | common/src/attributes/modules.rs:110-194 | a successful attribute loop met at most one kind attribute, none once a binding is held; its multibinding kind is the last one met, its qualifier the last `#[qualified]` and its map key well formed |
| ModuleAttrs.AttrsFromBinding | common/src/attributes/modules.rs:110-135 | the binding is held iff one was held or one kind attribute was met |
| ModuleAttrs.AttrStepBinding | common/src/attributes/modules.rs:110-135 | one pass sets the binding exactly at a kind attribute, and only when none was held |
| ModuleAttrs.AttrsFromMultibinding | common/src/attributes/modules.rs:136-160 | the multibinding kind is the last one met |
| ModuleAttrs.AttrsFromQualifier | common/src/attributes/modules.rs:153-158 | the qualifier is the one the qualifier loop finds |
| ModuleAttrs.AttrsFromMapKey | common/src/attributes/modules.rs:159-191 | a well-formed map key stays well formed |
| ModuleAttrs.AttrsFromKindAt | common/src/attributes/modules.rs:110-135 | from no binding, the binding held is the one read by the kind attribute at j |
| ModuleAttrs.KindCountAt | common/src/attributes/modules.rs:110-135 | a kind attribute at j counts |
| ModuleAttrs.ParseBindingMeaning | common/src/attributes/modules.rs:105-214 | a binding comes from exactly one kind attribute: its kind, name, type and dependencies are that attribute's, its qualifier the last `#[qualified]` one's, its multibinding kind the last one met |
| ModuleAttrs.ParseBindingNeedsOneKind | common/src/attributes/modules.rs:110-197 | a method with no kind attribute, or more than one, is rejected |
| ModuleAttrs.ParseBindingElements | common/src/attributes/modules.rs:199-209 | `elements_into_vec` is never on a binds binding and always on a `Vec` |
| ModuleAttrs.ParseBindingLoop | common/src/attributes/modules.rs:105-214 | the method computes `parse_binding` |
| ModuleAttrs.BindingsMeaning | common/src/attributes/modules.rs:78-85 | the item loop succeeds iff every method's binding parses, then holds them in order; otherwise it fails with the first failing method's error |
| ModuleAttrs.BindingsStep | common/src/attributes/modules.rs:79-85 | one step: a non-method is skipped, a failing method fails, else its binding is prepended |
| ModuleAttrs.TypeSetOf | common/src/attributes/modules.rs:90-97 | absent metadata leaves the set empty; present, it is the types `get_types` reads, keyed by identifier |
| ModuleAttrs.ModuleRecord | common/src/attributes/modules.rs:69-103 | the manifest holds only the module: typed by the self path in the attribute's module, one binding per method in order, empty sets for metadata not given |
| ModuleAttrs.HandleModuleAttribute | common/src/attributes/modules.rs:48-103 | a metadata parse error is returned; an unknown key fails with "unknown key: <k>" for a key not allowed; otherwise an impl block gives its module and anything else "impl expected" |
| ComponentAttrs.AllowedKeys | common/src/attributes/components.rs:37-75 | a component accepts `modules` and `builder_modules`, and `parent` exactly when it is a subcomponent, and nothing else |
| ComponentAttrs.QualifierType | common/src/attributes/components.rs:175-180 | `#[qualified(Q)]` reads Q as a type; an attribute without a list panics at `require_list().unwrap()` |
| ComponentAttrs.QualifierAccepts | common/src/attributes/components.rs:173-183 | the attribute loop succeeds iff every `#[qualified]` attribute names a type |
| ComponentAttrs.QualifierLast | common/src/attributes/components.rs:173-183 | the qualifier is the type of the last `#[qualified]` attribute |
| ComponentAttrs.QualifierNone | common/src/attributes/components.rs:173-183 | with no `#[qualified]` attribute left, the qualifier found so far stays |
| ComponentAttrs.GetQualifier | common/src/attributes/components.rs:171-183 | the loop computes the qualifier from none |
| ComponentAttrs.IsTraitObjectWithoutLifetime | common/src/attributes/components.rs:201-215 | it fails iff the type does not read; otherwise true iff the type is not `lockjaw::Cl` and its tokens hold `dyn` and no "'" |
| ComponentAttrs.ProvisionShape | common/src/attributes/components.rs:184-195 | a provision is named after its method and typed by its declared return type; a method without a return type is rejected |
| ComponentAttrs.ProvisionQualified | common/src/attributes/components.rs:176-191 | the provision's qualifier is the last `#[qualified]` attribute's type |
| ComponentAttrs.ProvisionUnqualified | common/src/attributes/components.rs:171-191 | without `#[qualified]` the provision is unqualified |
| ComponentAttrs.ProvisionsMeaning | common/src/attributes/components.rs:166-199 | the loop succeeds iff every method's provision does, then holds them in order; otherwise it fails with the first failing method's error |
| ComponentAttrs.ProvisionsStep | common/src/attributes/components.rs:168-197 | one step: a non-method is skipped, a failing provision fails, else it is prepended |
| ComponentAttrs.GetProvisions | common/src/attributes/components.rs:166-199 | the method computes the trait's provisions |
| ComponentAttrs.BuilderModulesOf | common/src/attributes/components.rs:77-86 | absent gives none, a path its type (or its error), and anything else "path expected for modules" |
| ComponentAttrs.ArrayModules | common/src/attributes/components.rs:94-105 | the array succeeds iff every element is a path that reads, giving those types in order |
| ComponentAttrs.ModulesAgreeWithGetTypes | common/src/attributes/components.rs:88-112 | `modules` accepts exactly what `get_types` accepts and gives the same types. The same code is at common/src/parsing.rs lines 181-200. |
| ComponentAttrs.ArrayModulesLoop | common/src/attributes/components.rs:94-105 | the loop computes the array's modules |
| ComponentAttrs.AddressVisibility | common/src/attributes/components.rs:134-146 | the builder address's entry is filed under its canonical path only |
| ComponentAttrs.HandleComponentAttribute | common/src/attributes/components.rs:54-164 | a trait, provision or metadata error is returned; an unknown key fails with "unknown key: <k>"; otherwise the result is the component manifest |
| ComponentAttrs.ComponentManifest | common/src/attributes/components.rs:77-163 | the manifest holds one component, of the trait's local type, kind and provisions, at most one parent module, and no entry point or injectable |
| ComponentAttrs.ComponentRecord | common/src/attributes/components.rs:114-162 | the manifest holds exactly one component: named after the trait, of the declared kind, at the trait's local path, with the provisions, the modules, the builder modules and the definition-only flag given, and its address at `LOCKJAW_COMPONENT_BUILDER_ADDR_<Name>` |
| ComponentAttrs.ComponentVisibility | common/src/attributes/components.rs:134-146 | only a component, never a subcomponent, exports its address: under the address's canonical path, mapping back to the address, exported as a CRATE type of the current package named by its identifier |
| ComponentAttrs.ParentModuleSynthesized | common/src/attributes/components.rs:148-161 | `parent` adds module `lockjaw_parent_module_<Name>` with no bindings, the component as its only subcomponent, installed only in the parent; without `parent` no module is added; a non-path `parent` fails with "path expected for parent" |
| ComponentAttrs.FieldDependencies | common/src/attributes/components.rs:225-234 | the field loop succeeds iff every field is named and its type reads, giving one dependency per field with its name and type |
| ComponentAttrs.BuilderModulesManifest | common/src/attributes/components.rs:217-243 | anything but a struct fails with "struct expected"; a struct gives exactly one builder-modules record at its local path with its fields as dependencies |
| ComponentAttrs.HandleBuilderModulesAttribute | common/src/attributes/components.rs:217-243 | the method computes that manifest |
| InjectableAttrs.ProviderType | src/attributes/injectables.rs:271-278 | the provider type is GLOBAL `lockjaw::Provider` with the type as its only argument, and otherwise a new type |
| InjectableAttrs.FirstMarked | src/attributes/injectables.rs:162-185 | the first marked method, and none exactly when none is marked |
| InjectableAttrs.RemoveAt | src/attributes/injectables.rs:171-181 | `remove(k)` drops the element at k and shifts the rest down by one |
| InjectableAttrs.FirstMarkedCount | src/attributes/injectables.rs:148-158 | the first marked method is counted once, before the rest |
| InjectableAttrs.NoneMarked | src/attributes/injectables.rs:148-158 | nothing is marked where nothing is counted |
| InjectableAttrs.CtorUnique | src/attributes/injectables.rs:145-187 | a constructor is found only when exactly one method is marked; it is that method, and no other is marked |
| InjectableAttrs.CtorIsFirstMarked | src/attributes/injectables.rs:162-185 | the constructor found is the first marked method |
| InjectableAttrs.OnlyFirstMarked | src/attributes/injectables.rs:148-161 | with one method marked, the first marked one is the only one |
| InjectableAttrs.CtorShape | src/attributes/injectables.rs:162-185 | the kind is `#[inject]` exactly when the method carries that marker, and the method loses its first marker and nothing else |
| InjectableAttrs.GetCtorLoop | src/attributes/injectables.rs:145-187 | the counting and search loops compute `get_ctor`; on success the marker is removed from that item in place, on failure the items are unchanged |
| InjectableAttrs.GetCtor | src/attributes/injectables.rs:145-187 | two marked methods are "only one" error and none the "no constructor" error; the constructor found is a marked method, an `#[inject]` one exactly when it carries that marker |
| InjectableAttrs.InjectDependencyMeaning | src/attributes/injectables.rs:75-101 | a receiver fails with "self not allowed"; a dependency carries the parameter's name and type, qualified by its last `#[qualified]` attribute if any |
| InjectableAttrs.InjectDependencies | src/attributes/injectables.rs:75-102 | the parameters give one dependency each, in order, iff each one does |
| InjectableAttrs.ReadInjectDependencies | src/attributes/injectables.rs:74-102 | the loop computes those dependencies |
| InjectableAttrs.InjectedArgs | src/attributes/injectables.rs:221-239 | the injected parameters are a subsequence of the parameters, none `#[runtime]` |
| InjectableAttrs.FactoryDependencies | src/attributes/injectables.rs:221-239 | the loop succeeds iff every parameter is accepted, and then gives one `Provider` dependency per non-runtime parameter, in order |
| InjectableAttrs.ReadFactoryDependencies | src/attributes/injectables.rs:220-239 | the loop computes those dependencies |
| InjectableAttrs.LastHasLifetime | src/attributes/injectables.rs:113-122 | a path without segments panics at `last().unwrap()`; otherwise true iff the last segment's angle arguments hold a lifetime |
| InjectableAttrs.HasLifetimeFrom | src/attributes/injectables.rs:116-121 | true iff some argument from i on is a lifetime |
| InjectableAttrs.FindLifetime | src/attributes/injectables.rs:104-122 | the search loop computes that flag |
| InjectableAttrs.GetContainer | src/attributes/injectables.rs:189-207 | no `container` gives none; a non-path one fails with "path expected for 'container'"; one without `scope` fails with the 'container' message; otherwise it is the path's type |
| InjectableAttrs.InjectRecord | src/attributes/injectables.rs:103-142 | the manifest's only injectable is at the self type's local path with the `scope` types and the container, built by the constructor with one dependency per parameter, and lifetimed exactly when the self type has a lifetime |
| InjectableAttrs.FactoryPath | src/attributes/injectables.rs:240-252 | the factory path keeps the segments but the last, which becomes `<Name>Factory` without arguments |
| InjectableAttrs.FactoryRecord | src/attributes/injectables.rs:240-268 | the manifest's only injectable is the factory type read in the module, built by `lockjaw_new_factory` with the dependencies, and that type is the only lifetimed type |
| InjectableAttrs.HandleFactory | src/attributes/injectables.rs:209-269 | an unknown marker key fails with "unknown key: <k>"; otherwise the result is the factory manifest |
| InjectableAttrs.HandleInject | src/attributes/injectables.rs:74-143 | the method computes the `#[inject]` manifest |
| InjectableAttrs.HandleInjectableAttribute | src/attributes/injectables.rs:56-143 | a non-impl item fails with "impl block expected", a metadata error or unknown key is reported, a constructor error is returned; otherwise a factory or an inject manifest |
| SynItems.TraitMethods | common/src/attributes/components.rs:168-169 | the methods are at most the items |
| SynItems.TraitMethodsHas | common/src/attributes/components.rs:168-169 | every method among the items is one of them |
| SynItems.ImplMethods | common/src/attributes/modules.rs:79-85 | the methods are at most the items |
| SynItems.MapTraitMethodsMeaning | common/src/attributes/components.rs:168-198 | a loop over the methods succeeds iff each one does, giving the results in order, and otherwise fails with the first error |
| SynItems.MapTraitMethodsIsMapAll | common/src/attributes/components.rs:168-198 | that loop maps over the methods alone |
| SynItems.MapImplMethodsMeaning | common/src/attributes/modules.rs:79-85 | a loop over the impl methods succeeds iff each one does, giving the results in order, and otherwise fails with the first error |
| SynItems.MapImplMethodsIsMapAll | common/src/attributes/modules.rs:79-85 | that loop maps over the methods alone |
| SynItems.MapAllOk | common/src/attributes/modules.rs:79-85 | mapping succeeds iff every element does |
| SynItems.MapAllValues | common/src/attributes/modules.rs:79-85 | a successful mapping gives each element's result at its index |
| SynItems.MapAllFirstError | common/src/attributes/modules.rs:79-85 | a failed mapping reports the error of the first element that fails |
| Syn.Idents | src/attributes/injectables.rs:106-111 | one identifier per segment, in order |
| Syn.Traits | common/src/type_data.rs:278-296 | the trait bounds are at most the bounds |
| Syn.FirstTrait | common/src/type_data.rs:278-296 | the position found holds the first trait bound |
| Epilogue.EpiloguePath | processor/src/injectables.rs:168-177 | the path ends with the name, starts with "<base>::" when there is a base path, else with "<additional>::" when there is one, and is the bare name when there is neither |
| Epilogue.EpiloguePathIsJoin | processor/src/injectables.rs:168-177 | the path is the present pieces joined by "::" |
| Epilogue.EpiloguePathSplit | processor/src/injectables.rs:168-177 | the path is the common prefix followed by the name |
| Epilogue.EpiloguePathInjective | processor/src/injectables.rs:168-177 | under the same base and additional path, different names give different paths |
| Epilogue.EpilogueType | processor/src/injectables.rs:164-179 | the item's type is a CRATE type of the current crate whose path ends with the name, with no arguments, no qualifier, no reference and not a trait object |
| LockjawPackages.DepNamesFrom | common/src/manifest_parser.rs:199-206 | the names of one kind are at most the dependencies |
| LockjawPackages.DepNamesMembers | common/src/manifest_parser.rs:199-206 | a name is listed iff some dependency of that kind has it |
| LockjawPackages.DirectCrateDeps | common/src/manifest_parser.rs:197-206 | the loop lists the `dev` dependencies as test dependencies and those without a kind as production ones, in order |
| LockjawPackages.FindLib | common/src/manifest_parser.rs:209-213 | the target found is the first whose kinds hold `lib`, and none iff no target does |
| LockjawPackages.PrependRunNothing | common/src/manifest_parser.rs:240-242 | prepending nothing leaves the result |
| LockjawPackages.PrependRunTwice | common/src/manifest_parser.rs:240-242 | prepending twice is prepending the concatenation |
| LockjawPackages.GatherLockjawPackages | common/src/manifest_parser.rs:184-246 | the method computes the gathering |
| LockjawPackages.GatherRootAndNonRoot | common/src/manifest_parser.rs:192-222 | a package not depending on lockjaw contributes nothing; one that does contributes its dependencies' packages, preceded by its own entry exactly when it is not the root |
| LockjawPackages.GatherDepsMembers | common/src/manifest_parser.rs:224-243 | the packages gathered along the edges are exactly those gathered, as non-root packages, from the edges followed (not `lockjaw`, and of the kind the test flag selects) |
| LockjawPackages.GatheredAreLockjawLibs | common/src/manifest_parser.rs:184-246 | every package gathered is the library entry of a package that depends on lockjaw |
| LockjawPackages.GatherDepsAreLockjawLibs | common/src/manifest_parser.rs:224-243 | the same for the packages gathered along the edges |
| ProcessorModules.ProvidesArgsMeaning | processor/src/modules.rs:124-143 | a successful parameter loop keeps the dependencies read before, adds one per named parameter, and leaves the provider static exactly when no `&self` receiver is among the parameters |
| ProcessorModules.ReadProvidesArgs | processor/src/modules.rs:124-143 | the loop over the inputs computes the parameter reading, including the "modules should not consume self" and "identifier expected" errors |
| ProcessorModules.HandleProvides | processor/src/modules.rs:112-149 | the method builds the provider of a `#[provides]` method or fails as `handle_provides` does |
| ProcessorModules.ProvidesShape | processor/src/modules.rs:112-149 | a provides provider is named after the method, provides its return type with the attribute's scopes appended, is not a binding, has one dependency per named parameter and is static exactly when the method takes no `&self` |
| ProcessorModules.FindLifetime | processor/src/modules.rs:224-231 | the loop returns true exactly when some generic argument is a lifetime |
| ProcessorModules.WithStatic | processor/src/modules.rs:178-187 | a type that is not a path type, or has no segments, is left unchanged |
| ProcessorModules.WithStaticHasLifetime | processor/src/modules.rs:178-187 | after the rewrite the last segment's angle-bracketed arguments carry a lifetime, the earlier segments are untouched and no existing lifetime is duplicated |
| ProcessorModules.BindsShape | processor/src/modules.rs:151-222 | a binds provider is a static binding named after the method, provides the argument of its `MaybeScoped` return type with the attribute's scopes appended, has exactly one dependency (the method's parameter), and the emitted method gets one statement and keeps its attributes |
| ProcessorModules.BindsRefuses | processor/src/modules.rs:157-177 | a method with a body is refused with "#[binds] methods must have empty body"; one whose return type is not `MaybeScoped` or `lockjaw::MaybeScoped` is refused with "#[binds] methods must return MaybeScoped<T>" |
| ProcessorModules.HandleBinds | processor/src/modules.rs:151-222 | the method builds the binding provider or fails as `handle_binds` does, including the parameter-count and receiver errors |
| ProcessorModules.MarkerCount | processor/src/modules.rs:92-102 | the number of marker attributes counted from position i is at most the number of attributes left |
| ProcessorModules.AttrsFromMeaning | processor/src/modules.rs:92-103 | a successful attribute loop adds one provider per `provides`/`binds` attribute after those already recorded, and keeps one attribute for each attribute that is not `provides` |
| ProcessorModules.UnmarkedMethodKept | processor/src/modules.rs:90-104 | a method with neither `provides` nor `binds` adds no provider and comes out unchanged |
| ProcessorModules.UnmarkedAttrs | processor/src/modules.rs:99-101 | attributes that are neither marker are all kept, in order |
| ProcessorModules.ProcessMethodLoop | processor/src/modules.rs:90-104 | the attribute loop over one method computes the method's providers and rewritten attributes |
| ProcessorModules.ItemsFromShape | processor/src/modules.rs:87-105 | a successful item loop emits one item per input item, after those already emitted, a method exactly where there was a method |
| ProcessorModules.ProcessItems | processor/src/modules.rs:87-105 | the loop over the impl items computes the item rewrite and the providers of the module |
| ProcessorModules.ModuleRecord | processor/src/modules.rs:68-106 | a recorded module is keyed by the space-free text of its self type, that key was not taken, its name is the key, its additional path is the `path` metadata, and the emitted impl block has the shape of the original |
| ProcessorModules.DeclaredOnce | processor/src/modules.rs:72-76 | declaring the same impl block a second time fails with "module was already declared" |
| ProcessorModules.ModulesDistinct | processor/src/modules.rs:233-257 | records of different names give modules of different types |
| ProcessorModules.ModuleRegistry.constructor | processor/src/modules.rs:36-37 | the registry starts empty |
| ProcessorModules.ModuleRegistry.HandleModuleAttribute | processor/src/modules.rs:54-110 | a metadata error or an unknown key ("unknown key: k") fails and changes nothing; otherwise a successful declaration adds exactly the new record and a failing one changes nothing |
| ProcessorModules.ModuleRegistry.GenerateManifest | processor/src/modules.rs:233-261 | one module per record, every record represented and nothing else, each typed at the epilogue path of the current crate; the registry is emptied |
| ProcessorComponents.ProvisionsMeaning | processor/src/components.rs:66-80 | the provision loop succeeds exactly when every trait method's provision does, and then holds one provision per method in order; otherwise it fails with the first failing method's error |
| ProcessorComponents.ReadProvisions | processor/src/components.rs:66-80 | the loop over the trait items, skipping non-methods, computes the provision reading |
| ProcessorComponents.ModuleManifestType | processor/src/components.rs:81-89 | without `modules` there is no module manifest; a `modules` value that is not a path fails with "path expected for modules"; otherwise the result is the type of that path, failing exactly when the type conversion does |
| ProcessorComponents.ComponentRecord | processor/src/components.rs:58-104 | input that is not a trait fails with "trait expected"; a trait method without a return type makes the handler fail; a recorded component has the trait's name, one provision per trait method in order, the `path` value and the `modules` type |
| ProcessorComponents.BuilderField | processor/src/components.rs:155-162 | the field is accepted exactly when all its attributes are `builder`, otherwise it fails with the builder-only message; an accepted field is a builder field exactly when it has an attribute |
| ProcessorComponents.BuilderCount | processor/src/components.rs:154-187 | the number of builder fields counted from position i is at most the number of fields left |
| ProcessorComponents.GatherMeaning | processor/src/components.rs:154-187 | a successful field loop keeps what was gathered before, adds one builder module per builder field and one module per other field, and accepts only fields whose attributes are all `builder` |
| ProcessorComponents.GatherRejects | processor/src/components.rs:156-161 | a field carrying an attribute other than `builder`, after fields that are all accepted, makes the loop fail |
| ProcessorComponents.ModuleManifestRecord | processor/src/components.rs:142-199 | input that is not a struct fails with "struct expected"; a recorded manifest has the struct's name and `path`, one builder module per `#[builder]` field and one module per other field, and the emitted struct keeps only the builder fields |
| ProcessorComponents.GatherFields | processor/src/components.rs:154-187 | the loop over the struct's fields computes the field gathering, including the "tuples module manifests cannot have builders" error |
| ProcessorComponents.ComponentsOf | processor/src/components.rs:106-140 | one component entry per record, in the records' order |
| ProcessorComponents.ModuleManifestsOf | processor/src/components.rs:201-236 | one module-manifest entry per record, in the records' order |
| ProcessorComponents.RecordedComponentRooted | processor/src/components.rs:58-140 | a component the handler records becomes, at the epilogue, a component whose types are all rooted, typed by a CRATE path of the current crate that ends with the trait's name |
| ProcessorComponents.RecordedModuleManifestRooted | processor/src/components.rs:142-236 | a module manifest the handler records becomes an entry whose types are all rooted |
| ProcessorComponents.GatherRooted | processor/src/components.rs:154-187 | every module and builder module the field loop gathers is rooted |
| ProcessorComponents.GeneratedComponents | processor/src/components.rs:238-256 | at most one generated piece per remaining component |
| ProcessorComponents.ForeignComponentsSkipped | processor/src/components.rs:240-247 | with no component of the current crate nothing is generated and nothing fails |
| ProcessorComponents.GeneratedStep | processor/src/components.rs:240-253 | a component of another crate is skipped; one of the current crate contributes its generated output first, or its failure ends the loop |
| ProcessorComponents.ComponentStep | processor/src/components.rs:240-253 | at a component of the current crate, its generation failure is the loop's result, and otherwise its output is appended to what was written before |
| ProcessorComponents.GenerateComponentStep | processor/src/components.rs:240-253 | one turn of the loop: a component of another crate is skipped, and one of the current crate ends the loop with its failure or appends its output |
| ProcessorComponents.GenerateComponents | processor/src/components.rs:238-256 | the loop over the manifest's components computes the generation over all of them |
| ProcessorComponents.ComponentRegistry.constructor | processor/src/components.rs:34-40 | both registries start empty |
| ProcessorComponents.ComponentRegistry.HandleComponentAttribute | processor/src/components.rs:58-104 | a successful call appends the record and returns the trait unchanged; a failing one returns the error and changes nothing; module manifests are untouched |
| ProcessorComponents.ComponentRegistry.HandleComponentModuleManifestAttribute | processor/src/components.rs:142-199 | a successful call appends the record and returns the struct of builder fields; a failing one returns the error and changes nothing; components are untouched |
| ProcessorComponents.ComponentRegistry.GenerateComponentManifest | processor/src/components.rs:106-140 | the result is one entry per recorded component, in order; the component list is emptied and module manifests are untouched |
| ProcessorComponents.ComponentRegistry.GenerateComponentModuleManifest | processor/src/components.rs:201-236 | the result is one entry per recorded module manifest, in order; that list is emptied and components are untouched |
| ProcessorInjectables.KeptFrom | processor/src/injectables.rs:72-79 | the kept attributes are no more than those left and none of them is `inject` |
| ProcessorInjectables.KeptMembers | processor/src/injectables.rs:72-79 | the kept attributes are exactly the attributes that are not `inject`, and nothing is dropped exactly when no `inject` is present |
| ProcessorInjectables.StrippedFields | processor/src/injectables.rs:61-81 | one field per struct field, in order, each with its `inject` attributes removed |
| ProcessorInjectables.ReadFields | processor/src/injectables.rs:61-81 | a successful loop records one field per struct field, each the reading of that field; a failure is the failure of the first field that fails |
| ProcessorInjectables.StripInject | processor/src/injectables.rs:72-79 | the loop reports whether an `inject` attribute is present and returns the other attributes in order |
| ProcessorInjectables.ReadStructFields | processor/src/injectables.rs:61-81 | the loop over the fields computes the recorded fields and, on success, leaves the struct's fields stripped of `inject` |
| ProcessorInjectables.HandleRecord | processor/src/injectables.rs:43-88 | a successful handler had a struct and records its name, the `path` value, the `scope` types, and one field per struct field with its name and type, injected exactly when it carries `#[inject]` |
| ProcessorInjectables.HandleErrors | processor/src/injectables.rs:48-68 | anything but a struct fails with "struct expected"; a metadata error is passed on; when the metadata and scopes read, a first field without a name fails with "tuple injectable not supported" |
| ProcessorInjectables.ParamsFrom | processor/src/injectables.rs:111-125 | the constructor parameters are exactly the injected fields, each under its own name and type |
| ProcessorInjectables.CtorArgsFrom | processor/src/injectables.rs:127-141 | one struct-literal argument per field, in order |
| ProcessorInjectables.LockjawNewShape | processor/src/injectables.rs:108-157 | the constructor is generic over `'a` exactly when one of its parameters is a reference, and every field is initialised: an injected one from the parameter of the same name, any other by `default()` |
| ProcessorInjectables.GenerateInjectable | processor/src/injectables.rs:108-157 | the parameter loop and the struct-literal loop compute the constructor description |
| ProcessorInjectables.Generated | processor/src/injectables.rs:90-106 | a constructor is generated exactly for each injectable of the current crate |
| ProcessorInjectables.GeneratedInOrder | processor/src/injectables.rs:90-106 | there is one constructor per injectable of the current crate, in the manifest's order |
| ProcessorInjectables.GenerateInjectables | processor/src/injectables.rs:90-106 | the loop over the manifest's injectables, skipping other crates, computes those constructors in order |
| ProcessorInjectables.ManifestOf | processor/src/injectables.rs:159-191 | one manifest entry per record, in the records' order |
| ProcessorInjectables.ManifestEntry | processor/src/injectables.rs:162-186 | each entry is a CRATE type of the current crate, owned by it, at the path joining base, additional path and name, carrying the recorded scopes and fields |
| ProcessorInjectables.InjectableRegistry.constructor | processor/src/injectables.rs:39-41 | the registry starts empty |
| ProcessorInjectables.InjectableRegistry.HandleInjectableAttribute | processor/src/injectables.rs:43-88 | a successful call appends the record and returns the stripped struct; a failing one returns the error and leaves the list as it was |
| ProcessorInjectables.InjectableRegistry.GenerateManifest | processor/src/injectables.rs:159-191 | the result is one entry per record, in order, and the list is emptied |

## Left out

- Token emission: everything built with `quote!` is textual output. This covers the `TokenStream`s, the `ComponentSections` text and each node's `generate_implementation`. The graph model records only the keys of the providers emitted, in order; the older injectables processor records only a constructor description.
- Emission-level behaviour of the nodes is therefore not stated. This covers five things:
  - that the `Vec` collector calls its dependencies in stored order (processor/src/nodes/vec.rs:58-62);
  - that the injectable constructor passes dependencies in declaration order (processor/src/nodes/injectable.rs:64-70);
  - whether a provides method is called on the module path or on a field (processor/src/nodes/provides.rs:91-97);
  - the value type a `Lazy` emits (processor/src/nodes/lazy.rs:71-76);
  - the parent forwarding method (processor/src/nodes/parent.rs:50-64).
- NodeAlgebra.NameOf: the provider names used in error messages are defined with the source's text, but carry no contract of their own.
- `set_scoped`/`is_scoped` are not separate operations: a node is a value with a `scoped` field, updated as `n.(scoped := b)`.
- `syn` and tree-sitter parsing: what they make of the tokens or of the file is an input datatype (`Syn`, `SynItems`, `Parsing.FieldTokens`, `PrologueMods.SrcNode`). Spans are single byte positions.
- Regular expressions: those of processor/src/prologue.rs (the `use` pattern, the attribute pattern) are written as explicit string scans. They accept what the patterns accept on ASCII text; see the next three lines for other characters.
- PrologueUse.IsWordChar, PrologueUse.IsSpace, PrologueValidate.PathChar and Cfg.Upper are ASCII only. The `regex` crate's `\w` and `\s` and Rust's `to_uppercase` are Unicode-aware, so a name with a non-ASCII letter is read differently.
- PrologueUse.MatchUseIsPattern: the matcher equals the `use` pattern with ASCII `\w` and `\s`. `use crate::café::X;` matches in the source and is rejected here.
- ProtoTypes.IsIdent: every non-ASCII character counts as an identifier character. `Ident::new` accepts only Unicode XID characters, so a type path with other non-ASCII characters panics in the source and not here.
- Cfg.Upper: only ASCII letters are upper-cased. `to_uppercase` also maps non-ASCII letters, and can change the length ("ß" becomes "SS"), so a key with such letters names a different `CARGO_CFG_` variable.
- NodeAlgebra.KeyText: an enum map key is shown as "Enum(<path>, <path>)". processor/src/nodes/map.rs formats the key with `{:?}`, which prints the whole `TypeData`; only the text of the duplicated-key message differs.
- NodeAlgebra.KeyOf: the node algebra keys and names its nodes with the `TypeData` renderers of common/src/type_data.rs. processor/src/nodes/node.rs, provides.rs and binds.rs render the protobuf `Type` of processor/src/manifests.rs, whose arguments drop root and crate; only the `MaybeScoped` merge is modelled with that rendering. The binding graph (`BindingGraph`) keys, names and merges with the protobuf renderers throughout.
- NodeAlgebra.WrappedRendering: states the `TypeData` rendering of a wrapper, in which the argument keeps its canonical path. The protobuf rendering of `MaybeScoped<T>` is `NodeAlgebra.MaybeScopedRendering`.
- File system, subprocesses and environment: `File::open`/`read_to_string`, `cargo metadata`, `CARGO_*` variables and `current_crate()` are parameters. The `cargo metadata` output reaches `LockjawPackages` as two maps.
- `handle_prologue`'s argument handling (processor/src/prologue.rs:209-247) is not modelled. This covers the argument-count errors, the `args.get(2).unwrap()` panic with fewer than three arguments, and the file reads.
- The build-script side's `parse_mods` (common/src/manifest_parser.rs) is modelled only through its `#[cfg]` filter and the `use` collection. Its dispatch over item kinds and its reading of `mod x;` files are not modelled.
- Thread-local `RefCell` registries are not modelled as such. Each registry (modules, components, module manifests, injectables, source data, manifest) is a class field that the handlers change in place.
- Panic hooks, `catch_unwind` and the `static mut` of processor/src/error.rs are not modelled. Only the error message of an outcome is kept.
- `build_script_fatal!`: the macro lives in a crate root that is not part of this model. Its failure is `Err("fatal: " + message)`, without the source-location text.
- `get_attribute_metadata` and `get_parenthesized_attribute_metadata`, which processor/src/modules.rs calls, are not part of this model. Their results are inputs of `ProcessorModules.ModuleRegistry.HandleModuleAttribute` and the `ModuleEnv.metadata` function.
- The `crate::parsing` that src/attributes/injectables.rs imports is not part of this model. The model reads those attributes with common/src/parsing.rs (`Parsing`).
- `components::get_provisions`, which processor/src/entrypoints.rs calls, is not part of this model. Its result is the `provisions` input of `EntryPoints.ProcessorInputs`.
- The rewritten `#[inject]` constructor is token output and is not modelled. In it, src/attributes/injectables.rs:83-95 clears every parameter attribute, and the `new_attrs` list it builds is never used.
- ModuleAttrs.PathText: the text of an impl's self type is its segments joined by "::". The token text of generic arguments is not modelled.
- ProcessorModules.BindsProvider: the `unimplemented!()` body is modelled as a statement count, and the `'static` lifetime as an argument added to the `Syn` type.
- NodeAlgebra.MapDependencies: the dependencies of a map node are a set of bound value types. `get_dependencies` lists one per key, so two keys bound to the same value type give it twice there and once here. Which nodes must be bound and generated does not depend on the repetition.
- HashMap iteration order is unspecified. Module registries, visibility maps, `uses` and bindings therefore stay maps or sets. Where the source reports the first offending element in that order, the model says only that some such element is reported. This applies to `AttributeKeys.CheckKeys` and to a map node's duplicated key.
- BindingGraph.HasScopedDepsRun: the recursion depth is a `fuel` parameter, and running out stands for the stack overflow of the source. LockjawPackages's dependency walk is bounded the same way.
- BindingGraph.ScopedDeps: that `false` from the corrected loop means no scoped node is reachable is proved on acyclic graphs only (`BindingGraph.ScopedDepsMeaning`). On a cyclic graph the model proves only the `true` direction; the source itself overflows its stack there.
- BindingGraph.ScopedCheck: the generator runs `has_scoped_deps` with one stack frame per bound key, and running out is the stack-overflow panic. The real stack's depth is not modelled. On an acyclic graph whose ranks fit within the number of keys that bound is enough (`BindingGraph.ScopedCheckAgrees`), and on a cyclic one the source overflows at any depth (`BindingGraph.SelfLoopDiverges`).
- ProcessorComponents.GenerateComponents requires every component of the manifest to be rooted. The handlers guarantee this for what they record (`RecordedComponentRooted`), but the requirement is not re-checked on manifests read from other crates.
- PrologueMods.ResolveLocalIsDeclarePath is stated only for modules where "(src)" has no parents, which holds for every table `parse_mods` builds. `ResolvePath` itself keeps the source's text for the other case, which omits a "::" separator.
- The older processor's protobuf `Type` has no identifier suffix or qualifier. The shared `TypeData` leaves those at their defaults there.
- The example game, documentation, tests and the emission-only files are not modelled: `processor/src/nodes/{entry_point,provision,mod}.rs`, `type_validator.rs`, `qualifier.rs`, `log.rs`, `build_log.rs` and `src/lib.rs`.

## Findings

The operations follow the code as written. Each corrected member beside them is the evidently intended definition, with the intended property proved about it.

| source | as written | input that shows it | evidently intended | confidence | as-written member | corrected member |
|---|---|---|---|---|---|---|
| processor/src/component_visibles.rs:131-141 | the head is replaced by the exported name, then `result.args[i]` is assigned for each argument of the original type | a registered type `Foo` (exported name without arguments) used as `Foo<Bar>`: index 0 of an empty argument list panics | the exported head carries the original's arguments, each made visible | not executed | ComponentVisibles.GenericExportPanics | ComponentVisibles.VisibleMeaning |
| processor/src/manifests.rs:138-151 | arguments are rendered by `path_with_args`, which drops their root and crate | `Box<Foo>` with `Foo` in crate `a`, and `Box<Foo>` with `Foo` in crate `b`: one canonical path and one identifier, two different types | an argument is rendered in the same canonical form as the whole type | not executed | ProtoTypes.BoxedArgumentsCollide | ProtoTypes.FixedBoxDistinguishes |
| common/src/attributes/cfg.rs:88-95 | `std::env::var(...).unwrap()` on the `CARGO_CFG_` variable | `#[cfg(feature = "x")]` in a crate built without features: the variable is unset and the unwrap panics | an unset variable holds no value, so the option is false | not executed | Cfg.UnsetVariablePanics | Cfg.EvalFixedForms |
| processor/src/prologue.rs:524-528 | the remainder of the `use` pattern allows only `[\w\d\s,]` or a brace group, so "*" never matches; the glob skip at 628-631 is unreachable | `use a::b::*;` fails with "unable to handle use expression a::b::*" | a glob import is accepted and imports nothing | not executed | PrologueUse.GlobImportRejected | PrologueUse.GlobImportIgnored |
| processor/src/manifests.rs:113-128 | `identifier` replaces "::", "<", ">" and " " but not "," | `Result<i32, String>` keeps a "," in its escaped path, so `format_ident!` panics, and so do `add_node` and `get_node` for it (`BindingGraph.ArgumentsListKeyPanics`) | "," is replaced too | not executed | ProtoTypes.IdentifierKeepsComma | ProtoTypes.FixedEscapeRemoves |
| processor/src/graph.rs:396-407 | `has_scoped_deps` recurses into every dependency with no visited set | an injectable `Foo` whose only dependency is `Foo`: the recursion never returns and the stack overflows before the cycle check can report it | keys already on the path are skipped, so the generator reaches "Cyclic dependency detected" | not executed | BindingGraph.SelfLoopDiverges | BindingGraph.SelfLoopReportsCycle |
| processor/src/nodes/node.rs:94-100 | the `MaybeScoped<T>` variant of a scoped T wraps the private node by value | a scoped injectable `T` requested as `MaybeScoped<T>` gets a fresh `T` on every request | it depends on the `&T` node and hands out the shared instance by `Ref` | not executed | NodeAlgebra.VariantsMaybeScopedBypassesScope | NodeAlgebra.FixedMaybeScopedSharesInstance |
| processor/src/prologue.rs:398-403 | imports are compared with "::lockjaw::<item>" and "::lockjaw", but the recorded import paths never start with "::" | `use lockjaw::epilogue as ep;` then `ep!()`: the renamed epilogue is not recognised | imports are compared with "lockjaw::<item>" and "lockjaw" | not executed | PrologueValidate.RenamedImportMissed | PrologueValidate.LocalPathFindsImports |
| processor/src/prologue.rs:314-349 | the attribute pattern `#\[(?P<path>[\w\d:_]+).*]` uses `.`, which does not match a line break, and the captures are unwrapped | `#[name(` followed by a line break and `)]` on a later line: there is no capture and the unwrap panics | the attribute's name is captured whatever follows it | not executed | PrologueValidate.MultiLineAttribute | PrologueValidate.AttrPathFixed |
