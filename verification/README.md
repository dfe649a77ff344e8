# go-ecsfieldgen schema assembly, in Dafny

go-ecsfieldgen generates Go code from ECS field definitions. Its core is in `schema/schema.go`, and it runs four stages:

1. The decoded schema files are merged. A later file replaces an earlier file's top-level entry wholesale.
2. The nested definition tree is flattened into dotted paths with resolved types.
3. The schema is built. It is a tree of namespaces and values, cross-linked through parent pointers and child lists, and indexed by `Base`, `Top`, `Namespaces` and `Values`.
4. The descriptions of the original tree are copied onto that schema.

`main.go` adds the conversion of a field name into a Go identifier (`goTypeName`).

The model has one module per part of the program:

| file | module | models |
|---|---|---|
| `wrappers.dfy` | `Wrappers` | `Option`, `Result`, and the two panics of the package as a `Failure` value |
| `paths.dfy` | `Paths` | `splitPath`, `normalizePath`, path joining, the ancestors of a path |
| `types.dfy` | `Types` | `TypeInfo` and `getType` |
| `definitions.dfy` | `Definitions` | `Definition`, the merge loop of `loadDefs`, `flattenDefs` |
| `builder.dfy` | `Builder` | one turn of the `buildSchema` loop: the value registration and the upward namespace walk, with the tree invariants |
| `schema.dfy` | `Schemas` | the `buildSchema` loop and the `Schema` object |
| `descriptions.dfy` | `Descriptions` | `copyDescriptions` |
| `pipeline.dfy` | `Pipeline` | `LoadFromFiles` on decoded files |
| `findings.dfy` | `Findings` | the two examples that show the defect listed under Findings |
| `naming.dfy` | `Naming` | `goTypeName`, `abbreviations`, `isSeparator` |

Modelling choices:

- **Namespaces** are records in a map keyed by their dotted path. A parent pointer is the parent's path, and `Children` is a sequence of paths. Go never replaces a namespace once created, so a path identifies a namespace.
- **Values** live in an arena, a sequence indexed by `ValueRef`. A later definition can take over a key of `Values` while the earlier value stays listed in its namespace, so a value is identified by its arena index.
- **The `Schema` class** holds these maps as fields.
- **The build works on values.** `buildSchema` and `copyDescriptions` work on a `Tables` value holding the same maps. Each method is proved equal to a specification function (`AddDefinition` against `Added`, `WalkUp` against `Walk`), or proved against predicates over the definition tree. `BuildSchema` wraps the result in a `Schema` object, and `Schema.CopyDescriptions` updates that object's fields. `LoadFromFiles` calls the two in turn, as the Go function does.
- **Go's random map order** becomes a nondeterministic choice of the next key (`var k :| k in rest`). Every property is stated over key sets, never over the order of `Children` or `Values`.
- **Panics** become `Err` results: `getType` on an unknown keyword, and `copyDescriptions` on a described group without a namespace.
- **The tree invariants** are Keyed, Linked, ChildrenListed, ValuesListed, Placed, Rooted and Indexed (`builder.dfy`). They hold after every loop turn, with the namespaces created in the current walk and not yet linked marked as pending.

Edge cases, as the code handles them:

- A bare `"base"` key is stored under the empty name in `Base` and `Values`, not dropped (`BareBaseStored`).
- `normalizePath` strips one `"base."` prefix only, so it is not idempotent (`NormalizeStripsOnce`).
- A path such as `"base.base.x"` is base-level and still creates a `"base"` namespace (`DoubleBaseStored`).
- Exclusion looks at the raw key, so `"base.a.b"` is stored under `"a.b"` even when `"a.b"` is excluded (`ExclusionSeesRawPath`).
- `Top` is keyed by simple name. Two top-level paths with the same last segment (`"a"` and `".a"`) share one entry (see `ParentsReachTop`).

## Model

| member | source | states |
|---|---|---|
| Paths.LastDot | schema/schema.go:252 | the index of the last '.', or -1 when there is none; nothing after it is a '.' |
| Paths.SplitPath | schema/schema.go:251-258 | a path without '.' is all name with an empty parent; otherwise the name has no '.' and parent + "." + name is the input; the parent is shorter than a non-empty input |
| Paths.NormalizePath | schema/schema.go:260-272 | "base" becomes "", "base." + r becomes r, anything else is unchanged |
| Paths.NormalizeRoot | schema/schema.go:263-265 | normalizePath("base") is "" |
| Paths.NormalizeStripsRoot | schema/schema.go:266-268 | normalizePath("base." + t) is t for every t |
| Paths.NormalizeKeepsOtherPaths | schema/schema.go:260-272 | every input that is neither "base" nor "base." + something is returned unchanged |
| Paths.NormalizeLookalikes | schema/schema.go:266 | "baseline.x" and "basex" are returned unchanged |
| Paths.NormalizeStripsOnce | schema/schema.go:260-272 | normalizePath("base.base.x") is "base.x", so normalising twice differs from once |
| Paths.SplitJoin | schema/schema.go:121-123 | splitting prefix + "." + k gives back (k, prefix) when k has no dot |
| Paths.AncestorsShape | schema/schema.go:176-178 | every path the upward walk visits is non-empty, no longer than the start, and its own parent path is visited too |
| Types.GetType | schema/schema.go:274-299 | succeeds exactly on the twelve keywords and fails with the keyword and field otherwise; only "date" and "duration" give package "time" |
| Definitions.MergeDefs | schema/schema.go:112-114 | the merge loop computes Merged: every file in turn, later keys replacing earlier ones wholesale |
| Definitions.MergedKeys | schema/schema.go:112-114 | a key is merged exactly when some file has it |
| Definitions.MergedLastWins | schema/schema.go:112-114 | the last file holding a key decides its definition |
| Definitions.FlattenDefs | schema/schema.go:120-136 | on success the keys are exactly the dotted paths of the non-group definitions, each mapped to the type getType gives it; it succeeds exactly when every such keyword is known, and otherwise reports one unknown keyword with its path |
| Builder.Added | schema/schema.go:146-214 | one loop turn as a function: an excluded path changes nothing; otherwise the value is stored under its key (and in Base when base-level), the walk runs, and a new top-level namespace enters Top; its properties are the Added* lemmas below |
| Builder.Created | schema/schema.go:180-188 | the namespace of a path, created when missing: the keys gain exactly that path |
| Builder.AttachedTo | schema/schema.go:190-195 | the pending value appended to the values of the namespace; the keys are unchanged |
| Builder.LinkedBelow | schema/schema.go:196-200 | the namespace of the previous turn, while parentless, linked below the current one; the keys are unchanged |
| Builder.StepArena | schema/schema.go:190-195 | the pending value's parent set to the current namespace |
| Builder.Walk | schema/schema.go:174-207 | the walk only adds namespaces, and a namespace it ends on exists |
| Builder.StepNamespaces | schema/schema.go:176-200 | one turn adds exactly the namespace of the visited path |
| Builder.WalkUp | schema/schema.go:174-207 | the loop computes Walk: the namespaces, arena and pending top-level namespace |
| Builder.WalkArena | schema/schema.go:190-195 | the walk changes only the pending value, whose parent becomes the first path visited |
| Builder.WalkKeeps | schema/schema.go:176-205 | existing namespaces keep their place and description and are only appended to; new ones have no description |
| Builder.WalkKeys | schema/schema.go:176-205 | the walk creates exactly the missing namespaces on the path and above it, each once |
| Builder.StepStops | schema/schema.go:202-205 | when the walk meets an existing namespace, all of its ancestors exist already |
| Builder.StepTree | schema/schema.go:176-200 | a turn keeps the tree invariants, with the created namespace pending until linked |
| Builder.WalkTree | schema/schema.go:174-213 | the walk keeps the tree and ends on a new top-level namespace, if any |
| Builder.CreateNamespace | schema/schema.go:180-188 | creating a namespace keeps the tree, with the new namespace pending |
| Builder.AttachValue | schema/schema.go:190-195 | attaching the pending value to its parent namespace keeps the tree, with nothing pending |
| Builder.LinkChild | schema/schema.go:196-200 | linking a pending namespace below its parent keeps the tree and makes it no longer pending |
| Builder.AddTop | schema/schema.go:209-212 | registering a new top-level namespace under its simple name completes the tree |
| Builder.AncestorsPresent | schema/schema.go:196-205 | without pending namespaces, every ancestor of a namespace exists |
| Builder.KeyDot | schema/schema.go:163-169 | a value key has a dot exactly when the value is not base-level |
| Builder.AddDefinition | schema/schema.go:146-214 | one loop turn computes Added |
| Builder.AddedSound | schema/schema.go:146-214 | a loop turn keeps the schema sound; an excluded key changes nothing |
| Builder.AddedStored | schema/schema.go:152-169 | an admitted key stores the new value under its key in Values, and also in Base when it is base-level |
| Builder.AddedIndexed | schema/schema.go:152-169 | Values and Base keep pointing at values whose path gives their key; Base holds exactly the dot-free keys |
| Builder.AddedTree | schema/schema.go:171-213 | a loop turn keeps every tree invariant, with nothing left pending |
| Builder.AddedKeys | schema/schema.go:174-207 | a loop turn adds exactly the ancestors of the value's parent path to Namespaces |
| Builder.AddedKeeps | schema/schema.go:176-205 | old namespaces only grow; new ones have no description |
| Builder.AddedArena | schema/schema.go:157-195 | the arena gains exactly the new value, attached to its parent namespace |
| Builder.BareBaseStored | schema/schema.go:152-169 | a bare "base" key is stored under "" in Base and Values, and no namespace is created |
| Builder.DoubleBaseStored | schema/schema.go:152-213 | "base.base.x" is stored in Base and Values as "x", and the namespace "base" is created |
| Builder.Outermost | schema/schema.go:196-200 | following parent links from a namespace ends at a namespace without a parent, on the way up its path |
| Builder.ParentsReachTop | schema/schema.go:196-213 | that namespace is top-level, its simple name is a key of Top, and Top maps that name to a top-level namespace of that name |
| Schemas.AddedBuilt | schema/schema.go:146-214 | a loop turn keeps the tables built: sound, undescribed, and holding exactly the values and namespaces of the keys done |
| Schemas.BuildTables | schema/schema.go:146-214 | the loop builds sound tables without descriptions, whose Values keys are the keys of the admitted definitions, whose values carry their definitions' paths and types, and whose namespaces are exactly the paths above admitted definitions |
| Schemas.EmptySound | schema/schema.go:139-145 | the empty schema is sound and holds nothing |
| Schemas.ExcludedNotStored | schema/schema.go:147-150 | an excluded name is never a key of Values when no key carries the "base." prefix |
| Schemas.ExclusionSeesRawPath | schema/schema.go:147-153 | "base.a.b" is stored under "a.b" although "a.b" is excluded |
| Schemas.BaseNotExcluded | schema/schema.go:163-166 | every key of Base is a dot-free name that is not excluded |
| Schemas.Schema.constructor | schema/schema.go:139-145 | the new schema holds the version and the given maps |
| Schemas.BuildSchema | schema/schema.go:138-217 | a fresh, sound schema with the version, holding exactly the admitted definitions' values and namespaces, without descriptions, and with no excluded name in Base |
| Schemas.Schema.CopyDescriptions | schema/schema.go:219-249 | the corrected pass on the schema object: keeps it sound and changes only descriptions; it fails exactly when a visited described group has no namespace, and then leaves the schema as it was |
| Descriptions.VisitedAll | schema/schema.go:220-247 | the traversal that always recurses visits exactly the definitions of the tree |
| Descriptions.Assigned | schema/schema.go:225-245 | assigning one definition's description changes only descriptions and copies it onto its namespace or value |
| Descriptions.CopyDescriptions | schema/schema.go:219-249 | the corrected pass: Err exactly when a visited described group has no namespace, naming that path; on success only descriptions change, each changed one comes from a visited definition, and every visited description has been copied |
| Descriptions.CopyDescriptionsAsWritten | schema/schema.go:219-249 | the same contract for the code as written, where the traversal does not descend below a described field missing from Values |
| Descriptions.CopyChildren | schema/schema.go:220-248 | the loop over one level of the tree keeps Progress: only descriptions change, each from a visited definition, and every visited one is copied |
| Descriptions.CopyChild | schema/schema.go:220-247 | one child: fails on a described group without a namespace, otherwise assigns and recurses (or skips, as written) |
| Descriptions.MissingHere | schema/schema.go:227-231 | a described group without a namespace makes the pass fail |
| Descriptions.ReshapedSound | schema/schema.go:219-249 | changing only descriptions keeps the schema sound |
| Pipeline.BuiltShaped | schema/schema.go:73 | the schema built from the flattened tree is sound and holds exactly the admitted fields (keyed, with their paths and types) and the namespaces above them |
| Pipeline.GroupsFoundPlaced | schema/schema.go:73-74 | the corrected copy succeeds on the built schema exactly when every described group of the tree lies above an admitted field |
| Pipeline.MissingUnplaced | schema/schema.go:227-231 | a missing namespace reported by the corrected copy belongs to a described group of the tree that lies above no admitted field |
| Pipeline.CopiedLoads | schema/schema.go:74 | the successful corrected copy turns the built schema into one described by the tree, still sound and holding the same values and namespaces |
| Pipeline.LoadFromFiles | schema/schema.go:67-76 | merge, flatten, build the Schema object, then copy descriptions with the corrected pass: Ok exactly when all types are known and every described group has a namespace; the errors name an unknown keyword or a missing namespace; on success a fresh schema with the version, holding exactly the admitted fields and their namespaces, typed and described by the tree |
| Findings.AsWrittenLosesNested | schema/schema.go:235-238 | as written, the nested field "a.b" of the excluded object "a" keeps an empty description |
| Findings.CorrectedCopiesNested | schema/schema.go:235-247 | corrected, "a.b" gets its description "y" |
| Findings.CompareOnExample | schema/schema.go:219-249 | flattening, building and both versions of copyDescriptions on the example give "" as written and "y" corrected |
| Findings.AsWrittenMissesGroup | schema/schema.go:235-238 | as written, with the value of the excluded object "a" missing, no described group without a namespace is reached |
| Findings.CorrectedReportsGroup | schema/schema.go:227-231 | corrected, the traversal reaches the group "a.g" and reports its missing namespace |
| Findings.LoadRejectsSecond | schema/schema.go:67-76 | loading the second example fails in the model, since its described group "a.g" lies above no admitted field |
| Findings.CompareMissingGroup | schema/schema.go:219-249 | on the second example the copy as written returns normally and the corrected copy fails |
| Naming.Upper | main.go:197 | upper-cases each ASCII letter, keeping the length |
| Naming.IsTitleBoundary | main.go:187 | the characters after which strings.Title upper-cases: everything except ASCII letters, digits and '_' |
| Naming.Title | main.go:187 | strings.Title over ASCII: keeps the length, upper-cases the first character and every character after a boundary, and keeps all others |
| Naming.TitleOfLetters | main.go:187 | a word of letters gets its first letter upper-cased and keeps the rest |
| Naming.Abbreviations | main.go:193-201 | a word whose lower-case form is one of the sixteen abbreviations comes out with no lower-case letter; any other word is unchanged |
| Naming.IsSeparator | main.go:205-215 | the separators of a field name are exactly '.', '_' and '@' |
| Naming.Words | main.go:186 | FieldsFunc gives non-empty words without separators whose concatenation is the input without its separators; a non-empty name without separators is one word |
| Naming.WordsSplit | main.go:186 | the words of a + sep + b are those of a followed by those of b |
| Naming.Capitalize | main.go:186-188 | the words, abbreviated, title-cased and concatenated, differ from their plain concatenation only in letter case |
| Naming.GoTypeName | main.go:184-190 | the identifier has no '.', '_' or '@' and, apart from letter case, is the name without its separators |
| Naming.GoTypeNameSplit | main.go:184-190 | goTypeName(a + sep + b) is goTypeName(a) + goTypeName(b) for every separator |
| Naming.GoTypeNameOfSeparators | main.go:186-189 | a name made only of separators, or empty, gives "" |
| Naming.GoTypeNameOfWord | main.go:186-187 | a single word is abbreviated and then title-cased |
| Naming.GoTypeNameOfPlainWord | main.go:187-199 | a lower-case word that is not an abbreviation only gets its first letter upper-cased |
| Naming.GoTypeNameOfAbbreviation | main.go:194-197 | a lower-case abbreviation is fully upper-cased |
| Naming.GoTypeNameEphemeralID | main.go:204 | goTypeName("ephemeral_id") is "EphemeralID" |
| Naming.GoTypeNameInstanceName | main.go:204 | goTypeName("instance.name") is "InstanceName" |
| Naming.GoTypeNameHostIP | main.go:184-201 | goTypeName("host.ip") is "HostIP" |

## Left out

- Reading files and directories in `loadDefs` (`os.Stat`, `filepath.Glob`, `ioutil.ReadFile`) and YAML decoding are I/O and a foreign library. The model takes the decoded files as a sequence of maps, so the "error reading"/"error parsing" failures are not modelled.
- Go's randomized map order is modelled as a nondeterministic choice. No order is stated for `Children`, for `ns.Values`, or for which of several unknown types is reported.
- The panic texts are not modelled. Each panic is an `Err` carrying the keyword and field, or the namespace path.
- The `val == nil` panic in `copyDescriptions` (schema/schema.go:239-241) cannot happen, because `Values` never holds nil. The model has no such case.
- On a panic, Go leaves the schema partly updated and the program ends. The model returns `Err` and leaves the schema as it was.
- Pointers are modelled by paths and arena indexes. Aliasing between `Values`/`Base` and the namespace lists is the sharing of an index.
- `main`, `run`, `registerFlags`, `stringsFlag`, `checkFlag`, `execTemplate`, `format.Source` and the output writing are process, template and I/O plumbing, and are not modelled.
- `goCommentify` depends on the go-wordwrap library, which is not part of this model.
- Unicode case mapping in `strings.Title`, `strings.ToUpper` and `strings.ToLower` is not modelled. Letter case follows ASCII, and a word boundary is any character other than an ASCII letter, a digit or '_'.
- Builder.ParentsReachTop: states that Top maps the simple name to some top-level namespace of that name, not necessarily the one reached. Two top-level paths such as "a" and ".a" share the name "a", and the later one replaces the earlier in Top.
- Schemas.ExcludedNotStored: requires that no key carries the "base." prefix. With such a key the property fails (see Schemas.ExclusionSeesRawPath).
- Pipeline.LoadFromFiles: uses the corrected copyDescriptions listed under Findings, so it fails on some inputs the code accepts. The pass as written is `Descriptions.CopyDescriptionsAsWritten`. The model fails whenever any described group of the tree has no namespace. The code panics only for the groups its traversal reaches. Example: exclude {"a"}, with `a: object "x"` holding a described group `g` that has no fields. The model reports the missing namespace "a.g" (`Findings.LoadRejectsSecond`). The code returns the schema normally (`Findings.CompareMissingGroup`).
- Pipeline.GroupsFoundPlaced: states the success condition of the corrected pass, which is stricter than the code's (see Pipeline.LoadFromFiles above).
- Schemas.Schema.CopyDescriptions: runs the corrected pass, so it fails on the example above where the code returns normally.

## Findings

| source | as written | input that shows it | evidently intended | confidence | as-written member | corrected member |
|---|---|---|---|---|---|---|
| schema/schema.go:235-238 | when a described non-group definition has no entry in Values, `continue` skips the recursive call at line 247, so nothing below it is visited | exclude {"a"}; definitions {a: object, description "x", fields {b: keyword, description "y"}}; then "a.b" is stored but "a" is not. A second input: {a: object "x" holding g: group "d" with no fields}, where the missing namespace of "a.g" goes unreported | the fields below are still visited (the recursion runs whether or not a description was set), so the value "a.b" gets description "y" and the group "a.g" is checked | high, not executed | Findings.AsWrittenLosesNested, Findings.AsWrittenMissesGroup (with Descriptions.CopyDescriptionsAsWritten) | Findings.CorrectedCopiesNested, Findings.CorrectedReportsGroup (with Descriptions.CopyDescriptions) |
