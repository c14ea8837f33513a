# mib2go `generate`: a Dafny model of the code generator

mib2go turns SNMP MIB modules, as loaded by gosmi, into Go source. Its `generate`
command (`cmd/generate.go`) works in four steps:

1. It adds the `-M` search paths, expanding a leading `~` or `~user`.
2. It renders each loaded module into a buffer:
   - a struct type with one field per scalar, table, row, column or
     notification node;
   - a var of that type;
   - one `models.<Kind>Node` var per node.
3. It formats each non-empty buffer and writes it.
   - With a file per module, each of those files starts with the file header.
   - With a shared output (standard output or one named file), only the first
     non-empty module that is written gets the header. A shared output where no
     module is written has no header at all, for example when no module has
     eligible nodes or the first non-empty one fails formatting.
4. It writes one more unit: a `var <Name>Type = models.Type{...}` block for
   every non-primitive type the nodes referred to, in sorted name order.

The model is organised as follows:

- `strings.dfy` (`Strings`): the parts of Go's `strings` package the generator
  calls.
  - `ToUpper` and `ToLower`, restricted to ASCII.
  - `Split` and `SplitN(…, 2)` on a one-character separator.
  - `Join` is not called by the generator. It is a helper of the model that states
    `Split`'s round trip.
  - `Regroup` and `Concat` are general sequence helpers.
- `ordering.dfy` (`Ordering`): the byte-wise string order of `sort.Strings`,
  shown to be a total order. It also holds an insertion sort, and the fact that a
  strictly sorted sequence is determined by its members.
- `identifiers.dfy` (`Identifiers`): `formatModuleName` (a method with the
  source's loop), `formatModuleVarName`, `formatNodeName` and `formatNodeVarName`.
- `smi.dfy` (`Smi`): the loader's object model.
  - Nodes carry a payload per kind.
  - `GetNodes(allowedNodeKinds)` is a filter that keeps load order.
- `registry.dfy` (`Registry`): the `typesMap` registry.
  - A non-primitive type is inserted only when its name is absent, so the first
    use wins.
  - The class `TypeRegistry` holds the map.
  - `Flush` is the key-gathering loop followed by the sort.
- `fragments.dfy` (`Fragments`): what each emitter writes. It is a sequence of
  fragments, one per `fmt.Fprintf` call.
  - The Go literal renderers `%q` and `%#v` are opaque functions in `Literals`.
  - `%d` of the OID length is written out in decimal.
- `generate.dfy` (`Generate`): the emitters as methods over a `Buffer` class.
  - Each walks its nodes, columns, index entries, objects, enum values or
    ranges with a loop.
  - Each is proved to append exactly the fragments `Fragments` describes, and to
    register exactly the node types it meets.
- `driver.dfy` (`Driver`): the command body.
  - `Run` is the module loop, `GenerateTypes` and the types unit.
  - It is proved equal to a functional description, `RunSpec`: a state machine
    over the generated modules, then `Finish`.
  - Lemmas about `RunSpec` cover:
    - the header rule;
    - the skipping of empty modules;
    - where each unit goes;
    - that an error stops the output;
    - which types the types unit holds.
- `paths.dfy` (`Paths`): `expandPath` and the `-M` loop.
  - The user database and `filepath.Join` are parameters, gathered in a `Host`.
    The driver's `Env` carries the same `Host`, so output file names use the
    same `filepath.Join`.
  - The loop's gosmi calls become a list of append, prepend and set actions.

The surroundings are parameters of the model:

- `format.Source` is a function that may fail (`None`).
- The output flags are an `Output` value.
- Opening and writing files is not modelled. What the command writes is the
  list of units it hands to the outputs, each with:
  - its target;
  - its origin;
  - whether it carries the header;
  - its formatted body.

The model follows the code on format failures. When `format.Source` fails,
`writeGoFile` returns before writing anything, so the failing unit is not
written and the command ends with that error.

## Model

| member | source | states |
|---|---|---|
| Strings.Split | cmd/generate.go:205 | `strings.Split` on `-`: one part per separator plus one, no part contains the separator, and joining the parts with it gives back the input |
| Strings.SplitFirst | cmd/generate.go:61-62 | `strings.SplitN(path, sep, 2)`: the first part has no separator; without a separator it is the whole path, otherwise first part, separator and rest make up the path |
| Strings.ToUpper | cmd/generate.go:207 | `strings.ToUpper` on ASCII, applied character by character, so the length is kept |
| Strings.ToLower | cmd/generate.go:214 | `strings.ToLower` on ASCII, applied character by character, so the length is kept (also used at lines 207 and 222) |
| Identifiers.FormatModuleName | cmd/generate.go:204-210 | the loop over the dash-separated segments returns their concatenation, each with its first character upper-cased and the rest lower-cased |
| Identifiers.FormattedModuleName | cmd/generate.go:204-210 | reference definition of `formatModuleName`: the dash-separated segments, each with its first character upper-cased and the rest lower-cased, concatenated |
| Identifiers.Capitalize | cmd/generate.go:207 | one segment of `formatModuleName`: its first character upper-cased, the rest lower-cased |
| Identifiers.ModuleNameIgnoringCase | cmd/generate.go:204-210 | ignoring case, the formatted module name is the module name with its dashes removed, so its length is the name's length minus the number of dashes |
| Identifiers.ModuleNameCapitalized | cmd/generate.go:204-210 | a well-formed module name is non-empty and its formatted name starts with its first character upper-cased |
| Identifiers.ModuleVarNameRecoversModuleName | cmd/generate.go:212-215 | the struct type name is the formatted module name with its first character lower-cased, followed by `Module`; upper-casing that character and dropping the suffix gives back the var name |
| Identifiers.FormatModuleVarName | cmd/generate.go:212-215 | `formatModuleVarName`: the formatted module name with its first character lower-cased, followed by `Module` |
| Identifiers.NodeNameShape | cmd/generate.go:217-219 | `formatNodeName` keeps the length, upper-cases index 0 only and is idempotent |
| Identifiers.FormatNodeName | cmd/generate.go:217-219 | `formatNodeName`: the first character upper-cased, the rest unchanged |
| Identifiers.NodeVarNameShape | cmd/generate.go:221-223 | `formatNodeVarName` lower-cases index 0, keeps the rest and appends `Node`; `formatNodeName` of its stem equals `formatNodeName` of the node name |
| Identifiers.FormatNodeVarName | cmd/generate.go:221-223 | `formatNodeVarName`: the first character lower-cased, the rest unchanged, followed by `Node` |
| Identifiers.TypeRef | cmd/generate.go:305 | the `<formatNodeName>Type` identifier of a registered type, used by a reference and declared by its type block (line 343) |
| Smi.EligibleNodes | cmd/generate.go:51 | `GetNodes(allowedNodeKinds)` keeps exactly the nodes of the five generated kinds and never adds any |
| Smi.Eligible | cmd/generate.go:51 | membership in `allowedNodeKinds`: scalar, table, row, column and notification |
| Smi.KindName | cmd/generate.go:261 | the `%s` of `node.Kind` in `models.<Kind>Node`, one name per generated kind (also used at line 244) |
| Smi.EligibleNodesAppend | cmd/generate.go:226 | the filter keeps load order: filtering two runs of nodes one after the other gives the filtered runs one after the other |
| Smi.WellFormedNode | cmd/generate.go:218 | the names formatted for a node are non-empty: its own name, its type's name for a scalar or column, and its row, columns, index or objects. This is because `formatNodeName` and `formatNodeVarName` (line 222) take `[:1]`, which panics on an empty name |
| Smi.WellFormedModule | cmd/generate.go:207 | its eligible nodes are well formed, and when it has any, its name splits into non-empty dash segments, because `part[:1]` panics on an empty segment |
| Smi.NodeTypes | cmd/generate.go:266-267 | the types one node hands to `generateNodePartScalar`: its own type for a scalar or column, none for any other kind |
| Smi.ReferencedTypes | cmd/generate.go:297-305 | the types of a sequence of nodes, node by node, in order |
| Smi.ReferencedTypesNamed | cmd/generate.go:297-305 | every type a scalar or column of well-formed nodes refers to has a name |
| Ordering.BelowTotal | cmd/generate.go:175 | any two strings are comparable in the order `sort.Strings` uses |
| Ordering.BelowAntisymmetric | cmd/generate.go:175 | two strings each at most the other are equal |
| Ordering.BelowTransitive | cmd/generate.go:175 | the order is transitive |
| Ordering.Sort | cmd/generate.go:175 | `sort.Strings` on distinct keys gives a strictly increasing sequence of the same length with the same members |
| Ordering.SortedUnique | cmd/generate.go:175 | two strictly increasing sequences with the same members are equal, so the sorted keys do not depend on the map's iteration order |
| Ordering.SortedKeys | cmd/generate.go:169-175 | the sorted keys of a set are strictly increasing, as many as the set has, and exactly its members |
| Registry.RegisteredChanges | cmd/generate.go:298-304 | registering a primitive changes nothing; registering any other type adds exactly its name, keeps every existing entry, and stores the type only when its name was absent |
| Registry.PrimitiveTypeNames | cmd/generate.go:299 | the eight type names that `generateNodePartScalar` inlines instead of registering |
| Registry.IsPrimitive | cmd/generate.go:299 | membership in that whitelist, the first case of the switch |
| Registry.Registered | cmd/generate.go:298-304 | reference definition of one use: a primitive name or a name already present leaves the map as it is, any other type is stored under its name |
| Registry.RegisteredFirstWins | cmd/generate.go:302-304 | a second type with an already registered name leaves the registry as it was |
| Registry.RegisterAllAppend | cmd/generate.go:302-304 | registering two sequences of uses one after the other equals registering their concatenation |
| Registry.RegisterAll | cmd/generate.go:298-304 | the registry after the uses of a sequence of types, applied one by one in order |
| Registry.FirstNamed | cmd/generate.go:302-304 | the first use with a given name, or None exactly when no use has that name |
| Registry.RegisterAllFirstWins | cmd/generate.go:302-304 | after a sequence of uses a non-primitive name is registered exactly when it already was or some use has it; an existing entry is kept; otherwise the entry is the first use with that name |
| Registry.RegisterAllValid | cmd/generate.go:298-304 | registering named uses keeps every entry non-primitive and stored under its own name, and never loses a key |
| Registry.TypeRegistry.constructor | cmd/generate.go:128 | `make(map[string]*models.Type)`: an empty, valid registry |
| Registry.TypeRegistry.Register | cmd/generate.go:302-304 | the insert-if-absent of a non-primitive type, keeping the registry valid |
| Registry.TypeRegistry.Flush | cmd/generate.go:169-175 | the key-gathering loop and the sort yield each registered name exactly once, strictly increasing, and equal to the sorted keys of the map |
| Fragments.PresentFieldsOrdered | cmd/generate.go:341-381 | a type block's fields come in the fixed order BaseType, Enum, Format, Name, Ranges, Units; BaseType and Name always appear; Enum, Format, Ranges and Units appear exactly when set |
| Fragments.ValueLines | cmd/generate.go:352-354 | one `%#v` line per enum value, in order |
| Fragments.ValueLine | cmd/generate.go:353 | the `%#v` of one named number |
| Fragments.EnumLines | cmd/generate.go:348-357 | the `Enum` field: its opening, its base type, the values opening, one line per named number, and the two closing lines |
| Fragments.RangeLines | cmd/generate.go:364-370 | one `models.Range{...}` line per range, in order |
| Fragments.RangeLine | cmd/generate.go:365-369 | one `models.Range` literal with the range's base type and `%#v` of its two bounds |
| Fragments.FieldsLinesAll | cmd/generate.go:347-375 | the lines of all six fields are the lines of each field one after another |
| Fragments.FieldLines | cmd/generate.go:347-375 | the lines of one field of a type block; nothing for an absent enum, format, ranges or units |
| Fragments.FieldLinesPresence | cmd/generate.go:348-375 | a field writes lines exactly when the type has it |
| Fragments.FieldsLinesOfPresent | cmd/generate.go:347-375 | the fields a type lacks contribute nothing: the lines of any field list equal the lines of its present fields |
| Fragments.TypeBlockOfPresentFields | cmd/generate.go:341-381 | a type block is its opening line, the lines of exactly the present fields in fixed order, and its closing line |
| Fragments.TypeBlock | cmd/generate.go:341-381 | reference definition of what `generateTypeBlock` writes: the opening line for a named var or an inline field, the six field sections in order, and the matching closing line |
| Fragments.TypeBlockOpening | cmd/generate.go:342-346 | `var <TypeRef> = models.Type{` for a named var, `Type: models.Type{` inline |
| Fragments.TypeBlockClosing | cmd/generate.go:376-380 | the closing line that matches the opening: `}` and a blank line for a var, `},` inline |
| Fragments.ScalarInstanceAdjustment | cmd/generate.go:279-295 | a scalar's base node carries its OID with 0 appended, its dotted OID with `.0` appended and its length plus one; a node of any other kind, columns included, carries the loader's values unchanged |
| Fragments.EmittedAddress | cmd/generate.go:280-287 | the OID, dotted OID and OID length a node is emitted with: a scalar gets sub-identifier 0, `.0` and one more; other kinds get the loader's values |
| Fragments.BaseNodeLines | cmd/generate.go:289-294 | reference definition of the six `BaseNode` lines: name, OID, dotted OID and length of the emitted address |
| Fragments.EmittedAddressConsistent | cmd/generate.go:280-287 | when the loader's length is its OID's length, the emitted length is the emitted OID's length, which extends the loader's OID by one sub-identifier 0 exactly for a scalar |
| Fragments.Decimal | cmd/generate.go:293 | `%d` of the OID length, in decimal |
| Fragments.DecimalRoundTrip | cmd/generate.go:293 | `%d` writes at least one character, all of them digits, and reading those digits back gives the number |
| Fragments.RefLines | cmd/generate.go:316-318 | one `formatNodeVarName` reference per name, in the order given |
| Fragments.RefLine | cmd/generate.go:317 | one `formatNodeVarName` reference in a column or index list (also line 323) |
| Fragments.ScalarLines | cmd/generate.go:297-307 | reference definition of the scalar part: an inline type block for a primitive type name, otherwise a `Type:` reference to the registered type's var |
| Fragments.TableLines | cmd/generate.go:309-311 | a table refers to its row by the row's node var name |
| Fragments.RowLines | cmd/generate.go:313-326 | the `Columns` list of column references, then the `Index` list of index references |
| Fragments.RowOrder | cmd/generate.go:313-326 | a row lists its columns in column order, then its index entries in index order, each between its own opening and closing lines |
| Fragments.ObjectLines | cmd/generate.go:331-337 | one line per notification object, in order |
| Fragments.ObjectLine | cmd/generate.go:332-336 | a scalar object is referred to as is; any other is wrapped in `models.ScalarNode(...)` |
| Fragments.NotificationLines | cmd/generate.go:328-339 | the `Objects` list: its opening, one line per object, its closing |
| Fragments.NotificationCasts | cmd/generate.go:328-339 | notification objects keep their order, and exactly the objects that are not scalars are wrapped in a `models.ScalarNode(...)` cast |
| Fragments.FieldDecls | cmd/generate.go:243-245 | one struct field line per node, in node order |
| Fragments.FieldDecl | cmd/generate.go:244 | one struct field: the `formatNodeName` of the node, typed `models.<Kind>Node` |
| Fragments.FieldInits | cmd/generate.go:254-256 | one field initialiser line per node, in node order |
| Fragments.FieldInit | cmd/generate.go:255 | one initialiser: the `formatNodeName` field set to the `formatNodeVarName` var |
| Fragments.MibFileEmptyIff | cmd/generate.go:225-237 | a module's text is empty exactly when it has no eligible node |
| Fragments.ModuleStruct | cmd/generate.go:239-247 | reference definition of `generateModuleStruct`: the struct opening named by `formatModuleVarName`, the field lines, the closing line |
| Fragments.ModuleVar | cmd/generate.go:249-258 | reference definition of `generateModuleVar`: the var opening named by `formatModuleName` of that struct type, the initialiser lines, the closing line |
| Fragments.NodeVar | cmd/generate.go:260-277 | reference definition of `generateNodeVar`: the opening line, the base node, the part of the node's kind, the closing line |
| Fragments.NodeVarOpening | cmd/generate.go:261 | `var <formatNodeVarName> = models.<Kind>Node{` |
| Fragments.KindLines | cmd/generate.go:265-274 | the kind switch: scalars and columns get the scalar part, tables the row reference, rows the columns and index, notifications the objects, other kinds nothing |
| Fragments.NodeVars | cmd/generate.go:234-236 | one node var per node, in node order |
| Fragments.MibFile | cmd/generate.go:225-237 | reference definition of `generateMibFile`: nothing without eligible nodes, otherwise struct, var and one node var per eligible node |
| Fragments.MibFileParts | cmd/generate.go:225-237 | a non-empty module's text is its struct, then its var, then its node vars; struct and var are two lines longer than the node list |
| Fragments.ModuleStructLine | cmd/generate.go:239-247 | line `1 + i` of the struct declares the field of node `i` |
| Fragments.ModuleVarLine | cmd/generate.go:249-258 | line `1 + i` of the var initialises the field of node `i` |
| Fragments.ModuleLayout | cmd/generate.go:239-258 | in a module's text: the struct opening, the field of node `i` with its kind's node type, the var opening of that struct type, and the initialiser of field `i` with node `i`'s var name, each at its fixed position |
| Fragments.NodeVarFirstLine | cmd/generate.go:260-261 | a node's declaration introduces its `formatNodeVarName` var, with the node type of its kind |
| Fragments.TypeBlockDeclaresReference | cmd/generate.go:305 | a registered type's block in the types file declares the very identifier a scalar referring to that type uses |
| Fragments.TypesFile | cmd/generate.go:177-181 | one `var ...Type` block per key, in the order of the keys |
| Generate.Buffer.constructor | cmd/generate.go:141 | a new buffer is empty |
| Generate.Buffer.Write | cmd/generate.go:242 | one `Fprintf` appends one fragment and changes nothing else |
| Generate.Buffer.Bytes | cmd/generate.go:163 | `fileBuf.Bytes()` (and `typesBuf.Bytes()` at line 195): the fragments written so far, concatenated in order |
| Generate.GenerateEnum | cmd/generate.go:348-357 | the enum section of a type block: the loop over the values appends exactly the enum lines |
| Generate.GenerateRanges | cmd/generate.go:362-372 | the ranges section: the opening line, one line per range in order, the closing line |
| Generate.GenerateField | cmd/generate.go:347-375 | each of the six field sections appends exactly that field's lines, nothing when the type lacks it |
| Generate.GenerateTypeBlock | cmd/generate.go:341-381 | `generateTypeBlock` appends exactly the type block, named `var` or inline `Type:` |
| Generate.GenerateNodePartBaseNode | cmd/generate.go:279-295 | appends exactly the base node lines, with the scalar adjustment |
| Generate.GenerateNodePartScalar | cmd/generate.go:297-307 | a primitive type is inlined and leaves the registry alone; any other is registered if absent and referred to by name |
| Generate.GenerateNodePartTable | cmd/generate.go:309-311 | appends the reference to the row's var |
| Generate.GenerateNodePartRow | cmd/generate.go:313-326 | the two loops append the column references, then the index references |
| Generate.GenerateNodePartNotification | cmd/generate.go:328-339 | the loop appends one possibly cast reference per object |
| Generate.GenerateNodeVar | cmd/generate.go:260-277 | appends the node's var and registers exactly the type a scalar or column refers to |
| Generate.GenerateModuleStruct | cmd/generate.go:239-247 | the loop appends the struct with one field per node |
| Generate.GenerateModuleVar | cmd/generate.go:249-258 | the loop appends the module var with one initialiser per node |
| Generate.GenerateNodeVars | cmd/generate.go:234-236 | the loop appends one var per node, in order, and registers their types in node order |
| Generate.GenerateMibFile | cmd/generate.go:225-237 | appends nothing for a module without eligible nodes, else struct, var and node vars, and registers every type its nodes refer to |
| Paths.ExpandPlain | cmd/generate.go:60-65 | a path not starting with `~` is returned as it is |
| Paths.ExpandPath | cmd/generate.go:60-83 | reference definition of `expandPath`: split at the first separator; a first part starting with `~` names a user whose home replaces it when the lookup succeeds |
| Paths.HomeFor | cmd/generate.go:71-75 | the home of the current user for `~`, or of the named user for `~name`; `None` when the lookup fails |
| Paths.ClassifyPath | cmd/generate.go:96-112 | reference definition of one `-M` option: empty is skipped, `+` appends and `-` prepends the expanded rest, anything else sets the expanded option |
| Paths.PathActions | cmd/generate.go:95-113 | the gosmi path calls the `-M` options make, one per non-empty option, in option order |
| Paths.ExpandHome | cmd/generate.go:66-81 | `~name` alone becomes that user's home directory, or the current user's for `~` |
| Paths.ExpandUnder | cmd/generate.go:66-82 | `~name/rest` becomes `rest` joined under that user's home directory |
| Paths.ExpandUnknownUser | cmd/generate.go:71-78 | a user whose lookup fails leaves the path unchanged |
| Paths.ClassifyByFirstChar | cmd/generate.go:99-112 | a non-empty option appends on `+`, prepends on `-`, otherwise sets; it expands the rest, or the whole option for a set |
| Paths.ConfigurePaths | cmd/generate.go:95-113 | the loop over the `-M` options makes the path updates of the options in order, skipping empty ones |
| Paths.OneActionPerOption | cmd/generate.go:95-98 | each non-empty option makes exactly one update and each empty one none |
| Paths.PathOptionsExample | cmd/generate.go:95-113 | `+/usr/share/mibs`, an empty option, `-~/mibs` and `/opt/mibs` append, prepend under the home directory and set, in that order |
| Driver.OutputFor | cmd/generate.go:115-126 | `-o -` is standard output; any other non-empty `-o` is that file; an empty `-o` means a file per module under `-d` |
| Driver.Output | cmd/generate.go:115-126 | the three outputs the flags choose: standard output, one named file, or a file per module in a directory |
| Driver.OutputTargets | cmd/generate.go:115-126 | with the output chosen from `-o` and `-d`: `-o -` sends every unit to standard output, any other non-empty `-o` to that file, an empty `-o` each module to `<lower-cased name>.go` and the types to `types.go` under `-d` |
| Driver.FileHeader | cmd/generate.go:42-50 | the file header with the package name substituted |
| Driver.UnitText | cmd/generate.go:389-393 | the bytes `writeGoFile` puts into its target: the header when asked for, then the formatted source |
| Driver.UnitTextLayout | cmd/generate.go:389-393 | the bytes of a unit are the file header when it is headed, then the formatted body, and nothing else |
| Driver.ModuleTarget | cmd/generate.go:150-159 | where a module unit goes: the shared output, or `<lower-cased name>.go` joined under the output directory |
| Driver.TypesTarget | cmd/generate.go:183-192 | where the types unit goes: the shared output, or `types.go` joined under the output directory |
| Driver.Step | cmd/generate.go:140-166 | reference definition of one module of the loop: register its types; skip an empty buffer; otherwise head the unit for a file per module or the first module, clear `firstModule`, and stop with an error when formatting fails |
| Driver.RunFrom | cmd/generate.go:137-167 | the module loop: one step per generated module, stopping at the first error |
| Driver.TypesText | cmd/generate.go:169-181 | the types buffer: the type blocks of the registry in sorted key order |
| Driver.Finish | cmd/generate.go:177-198 | reference definition of what follows the loop: nothing after an error, otherwise the formatted types text as the types unit, headed only for a file per module, or a types format error |
| Driver.RunSpec | cmd/generate.go:128-199 | reference definition of the command body: the loop over the generated modules from the initial state, then `Finish` |
| Driver.Initial | cmd/generate.go:128-137 | the loop's start: `firstModule` set, the empty `typesMap`, nothing written, no error |
| Driver.RunModules | cmd/generate.go:128-167 | the module loop over the loaded modules from the initial state |
| Driver.ModuleText | cmd/generate.go:141-143 | the bytes of `fileBuf` after `generateMibFile`: the module's fragments, concatenated |
| Driver.ModuleTypes | cmd/generate.go:143 | the type uses `generateMibFile` makes: those of the module's eligible nodes, in order |
| Driver.ModuleTexts | cmd/generate.go:140-143 | one buffer per loaded module, in load order |
| Driver.GenerateAll | cmd/generate.go:140-143 | per loaded module, in load order, its name, buffer and type uses |
| Driver.GenerateAllAt | cmd/generate.go:141-148 | a module's buffer is empty exactly when it has no eligible node, and each type it registers has a name |
| Driver.GenerateModule | cmd/generate.go:141-143 | a fresh buffer filled by `generateMibFile` holds the module's text; the shared registry takes the module's type uses |
| Driver.GenerateModules | cmd/generate.go:137-167 | the module loop produces exactly the units, the registry and the error of the loop state machine over the generated modules |
| Driver.GenerateTypeBlocks | cmd/generate.go:177-181 | the loop over the keys yields one `var ...Type` block per key, in key order |
| Driver.GenerateTypes | cmd/generate.go:169-181 | the types buffer holds the blocks of the registry in sorted key order |
| Driver.Run | cmd/generate.go:128-199 | the command body returns exactly the outcome of the functional description: the loop, then the types unit unless the loop or the formatting failed |
| Driver.RunFromValid | cmd/generate.go:140-143 | the registry stays valid through the module loop |
| Driver.RunFromConsistent | cmd/generate.go:150-166 | through the loop every unit comes from a module and goes to its target; a file per module always gets the header; a shared output gets it only on its first unit, written exactly when `firstModule` drops |
| Driver.FinishShape | cmd/generate.go:183-198 | after the loop: the loop's units, plus the types unit exactly when nothing failed; it is headed only for a file per module and holds the formatted types text |
| Driver.RunSpecShape | cmd/generate.go:137-198 | the outcome extends the loop's units by at most the types unit, written exactly when no error is reported |
| Driver.HeaderRule | cmd/generate.go:161 | a file per module heads every unit, the types unit included; a shared output heads only its first unit, and only when a module wrote it; module units go to their targets; the types unit comes last |
| Driver.HeadersAsDesigned | cmd/generate.go:161 | with a file per module every unit is headed; on a shared output exactly unit 0 is, and only when a module wrote it (the types unit follows line 194) |
| Driver.TargetsAsDesigned | cmd/generate.go:150-159 | each module unit goes to its module's target, and the types unit is last and goes to the types target (lines 183-192) |
| Driver.ErrorStopsOutput | cmd/generate.go:163-166 | when the command fails, no types unit has been written |
| Driver.NonEmptyBuffersOfModules | cmd/generate.go:143-148 | the generated modules with non-empty buffers are the modules with eligible nodes, in load order |
| Driver.WrittenModules | cmd/generate.go:145-148 | the modules that are not skipped as empty: those with eligible nodes, in load order |
| Driver.NonEmptyBuffers | cmd/generate.go:145-148 | the generated modules whose buffer is not empty, in order |
| Driver.RunFromWritesNonEmpty | cmd/generate.go:145-166 | when formatting never fails, the loop writes one unit per non-empty buffer, in order, and skips the empty ones |
| Driver.EveryNonEmptyModuleWritten | cmd/generate.go:140-198 | when formatting never fails, the command writes the modules with eligible nodes in load order, then the types unit, and reports no error |
| Driver.RunFromWritesPrefix | cmd/generate.go:145-166 | for any formatter, the loop writes a prefix of the non-empty buffers, in order |
| Driver.RunFromStopsAtFailure | cmd/generate.go:160-166 | the loop writes all non-empty buffers exactly when it ends without error; an error is a module format error naming the first non-empty buffer not written |
| Driver.WritesPrefix | cmd/generate.go:140-198 | over any generated modules: without error the non-empty buffers then the types unit; on a types format error the non-empty buffers alone; on a module format error a proper prefix, that module the first missing |
| Driver.ModulesWrittenUntilFailure | cmd/generate.go:140-198 | for any `format.Source`: without error the modules with eligible nodes then the types unit; on a types format error those modules alone; on a module format error a proper prefix of them, stopping right before the failing module, whose unit and header are never written |
| Driver.SharedOutputWithoutModulesIsHeaderless | cmd/generate.go:194 | on a shared output with no eligible nodes anywhere, at most the types unit is written, and never with the header, whatever `format.Source` does; when it never fails, that unit is written |
| Driver.RunFromTypes | cmd/generate.go:143 | a loop that ends without error has registered the uses of every module, empty modules included, in load order |
| Driver.AllModuleTypes | cmd/generate.go:140-143 | every type use of the loaded modules, module by module, in load order |
| Driver.TypesUnitContents | cmd/generate.go:169-198 | unless it fails, the last unit holds the format of the blocks of every type the modules use, each under its first use, in sorted name order |

## Left out

- The cobra command, flag parsing and `init`: the output flags are an `Output` value and the options a sequence of strings.
- `gosmi.Init`, `LoadModule` and `GetLoadedModules`: the loaded modules are an input, in load order. The load error path is not modelled.
- The gosmi path calls (`AppendPath`, `PrependPath`, `SetPath`): they are recorded as a sequence of actions.
- `log.Println` and `log.Printf`: logging has no effect on the output.
- `user.Current` and `user.Lookup`: a parameter giving a home directory or `None`.
- `filepath.Join`: an opaque parameter.
- Opening, truncating and closing files, `os.Stdout`, and write errors: a unit is what `writeGoFile` would write to its target. Errors from opening or writing are not modelled.
- `format.Source`: a parameter that may fail. Its result is not modelled.
- `%q` and `%#v`: opaque renderers in `Literals`. The model does not state the Go literal syntax they produce.
- Case mapping is ASCII only. `unicode.ToUpper` and `unicode.ToLower` on other letters are not modelled.
- `sort.Strings`: modelled by an insertion sort. Only its result is stated, not Go's algorithm.
- The map iteration order in the key-gathering loop of `Flush` is a nondeterministic choice. Only the sorted result is used.
- `Identifiers.FormatModuleName`: requires every dash-separated segment to be non-empty. On an empty segment the source panics at `part[:1]`, and that panic is not modelled.
- `Identifiers.FormatModuleVarName`, `Identifiers.FormatNodeName`, `Identifiers.FormatNodeVarName`: require non-empty names. On an empty name the source panics at `[:1]`.
- `Generate.GenerateNodePartScalar`: requires the type to have a name, for the same reason.
- gosmi's node accessors are plain data of the model.
  - `RenderNumeric` is the `oidFormatted` field of `Node`.
  - `GetRow`, `GetColumns`, `GetIndex` and `GetNotificationObjects` are fields of its `Payload`.
  - `Kind.String` is `KindName`.
  - How gosmi computes these values is not modelled.
- Node kinds outside `allowedNodeKinds` are one kind, `OtherKind`. The generator never asks for them.
- The Go integer widths of `OidLen` and range bounds are not modelled. `OidLen` is a natural number that never wraps, and range bounds are integers passed to the opaque `%#v` renderer.
