# toml2c in Dafny

`toml2c` reads an example TOML file and generates a C header and a C source
file. The header holds a nested `struct` typedef that mirrors the file's
tables and keys. The source holds a `<name>_read` routine (built on the
`toml.h` C library), a `<name>_print` routine and a `<name>_free` routine.

The generator has two halves:

- `Reader` infers a schema. The root table is named after the file. It has
  nested tables with depths, and fields whose kinds come from each value's
  node type.
- `Writer` turns that schema into text.

This project models both halves. The text they produce is modelled character
for character.

The model has these modules:

- `Seqs` (`seqs.dfy`): the regrouping of concatenations that the text
  proofs share.
- `Names` (`names.dfy`): the `cvar`/`tvar` sanitisers, the cutting of the
  file name into a stem, and the root type name.
- `Toml` (`document.dfy`): the parsed document as a tree of node types.
- `Schema` (`schema.dfy`): fields and field kinds. It keeps the tables in an
  arena, a sequence indexed like the `tables` deque, in which parents and
  children are indices. It also holds the pure specification
  `BuildEntries` of what `tabler` appends, and the pre-order of the arena.
- `Reading` (`reader.dfy`): the `Reader` class, with `tables` and `c_depth`
  fields. `Parser`, `Tabler` and the per-pair step `Visit` are methods
  proved against `BuildEntries`.
- `Paths` (`paths.dfy`): the three path builders of `c_src`
  (`get_path`, `get_parent_path`, `get_path_var`) and their closed forms.
- `Emit` (`text.dfy`): every piece of emitted text as a pure function from
  the buffer before a step to the buffer after it. The fixed C boilerplate
  is a `Snippets` record. `Toml2c` holds the generator's own strings.
- `Writing` (`writer.dfy`): the `Writer` class, with `o_name` and `out`
  fields. Each method appends to `out` and is proved to leave exactly the
  text the matching `Emit` function gives.
- `Passes` (`passes.dfy`) and `Nesting` (`nesting.dfy`) prove the facts
  that hold the generated code together:
  - every pass of `c_src` and the record of `h_struct` follow one pre-order;
  - each table is looked up in a handle that was declared and assigned
    before it;
  - the handle declaration is patched at its end;
  - the record of `h_struct` nests one block per table, and every member
    path of `c_src` follows that nesting;
  - the free routine releases exactly the owned members.

## Model

| member | source | states |
|---|---|---|
| Names.Cvar | toml2c.cpp:21-25 | The result has the input's length. Every '-' becomes '_', every other character is kept, and no '-' is left. |
| Names.Tvar | toml2c.cpp:27-31 | The result has the input's length. Every '_' becomes '-', every other character is kept, and no '_' is left. |
| Names.CvarAppend | toml2c.cpp:21-25 | `cvar` distributes over concatenation. |
| Names.TvarAppend | toml2c.cpp:27-31 | `tvar` distributes over concatenation. |
| Names.CvarNoDash | toml2c.cpp:21-25 | A name without '-' is left unchanged by `cvar`. |
| Names.CvarIdempotent | toml2c.cpp:21-25 | Applying `cvar` twice is applying it once. |
| Names.CvarNotInjective | toml2c.cpp:21-25 | `cvar` is not injective: "a-b" and "a_b" sanitise alike. |
| Names.CvarOfTvar | toml2c.cpp:21-31 | `cvar(tvar(s)) == cvar(s)`. |
| Names.TvarOfCvar | toml2c.cpp:21-31 | `tvar(cvar(s)) == tvar(s)`. |
| Names.LookupKeyRecoversKey | toml2c.cpp:47-50 | The lookup key `tvar(f.name)` equals the original key exactly when that key has no '_'. |
| Names.FindLastSep | toml2c.cpp:109-112 | `find_last_of("\\/")`: the position found holds a separator and no later one does; no position means there is no separator. |
| Names.FindLastSepLast | toml2c.cpp:109-112 | The last separator of a string is the one found. |
| Names.FindToml | toml2c.cpp:114-117 | `find(".toml")`: the position found starts ".toml" and no earlier one does; no position means there is no occurrence. |
| Names.FindTomlFirst | toml2c.cpp:114-117 | The first occurrence of ".toml" is the one found. |
| Names.StripName | toml2c.cpp:107-117 | The cutting `parser` and `write` share yields the stem: the text after the last separator, cut before its first ".toml". |
| Names.StemHasNoSep | toml2c.cpp:107-117 | The stem contains no '/' or '\\'. |
| Names.StemHasNoToml | toml2c.cpp:107-117 | The stem contains no ".toml". |
| Names.StructNameBase | toml2c.cpp:119-121 | The root type name is `cvar(stem) + "_t"` and has no '-'. Dropping its last two characters, as `h_functions` and `c_src` do, gives back `cvar(stem)`. |
| Names.StemExample | toml2c.cpp:107-117 | The stem of "conf/my-app.toml" is "my-app". |
| Names.StructNameExample | toml2c.cpp:107-121 | The root type name of "conf/my-app.toml" is "my_app_t". |
| Schema.NewField | toml2c.cpp:47-50 | A new field keeps the kind it is given. Its name is the sanitised key: same length, no '-', every other character of the key kept. |
| Schema.RootArena | toml2c.cpp:119-127 | The arena holding only the root is well formed and names the root as given. |
| Schema.ArrayKindRule | toml2c.cpp:171-200 | An array yields a field exactly when every element's node type equals element 0's and that type is integer, float, boolean or string. The kind is the matching array kind, never the untyped array. |
| Schema.ArrayKindExamples | toml2c.cpp:171-200 | A mixed array and an array of tables yield nothing. An array of integers yields an integer array. |
| Schema.FieldOfRule | toml2c.cpp:139-205 | A pair yields a field exactly when it is a supported scalar or a supported homogeneous array. Nested tables and other node types yield none. The field is named `cvar(key)` and is never untyped. |
| Schema.AddFieldWellFormed | toml2c.cpp:158-170 | Appending a field keeps the arena well formed. |
| Schema.OpenTableWellFormed | toml2c.cpp:142-149 | Appending a child one level deeper than its parent, and listing it among the parent's children, keeps the arena well formed. |
| Schema.BuildEntries | toml2c.cpp:138-208 | What `tabler` leaves is well formed, and no table that existed before changes its depth. |
| Schema.BuildEntry | toml2c.cpp:139-206 | The same for one key/value pair. |
| Schema.BuildEntriesGrows | toml2c.cpp:138-208 | `tabler` only appends tables. Of the existing tables it changes only the parent, and only by appending to it: the fields of the pairs in document order, and one child per nested table in document order, named by its raw key. Every new table lies from one to the document's height levels below the parent. |
| Schema.BuildEntryGrows | toml2c.cpp:139-206 | The same for one key/value pair. |
| Schema.BuildEntriesMirror | toml2c.cpp:138-208 | Below the parent, the children `tabler` appends mirror the nested tables of the pairs, in order: each is named by its key, holds the fields of its own pairs (`Mirrors`), and has as children the tables nested in it, recursively. |
| Schema.BuildEntryMirror | toml2c.cpp:139-206 | One pair: a nested table becomes exactly one new last child of the parent, named by its key and mirroring its sub-table. Any other pair leaves the parent's children as they were. |
| Schema.TableEntryMirror | toml2c.cpp:142-149 | The nested-table case of the previous row. |
| Schema.MirrorStep | toml2c.cpp:138-208 | Adding one pair keeps the children appended so far mirroring the pairs seen so far. |
| Schema.BuildFromRoot | toml2c.cpp:119-131 | What `parser` builds from a document is well formed. The root is named as given, at depth 0. It holds the document's top-level fields and has one child per top-level table, named by its key. Every depth is at most 255. Every table mirrors its own sub-table, at every level. |
| Schema.PreOrder | toml2c.cpp:276-278 | The pre-order of a subtree starts at its root and stays inside the arena. |
| Schema.PreOrderUnder | toml2c.cpp:276-278 | The pre-order of `t` lists only `t` and tables below it. |
| Schema.PreOrderDistinct | toml2c.cpp:276-278 | The pre-order of `t` lists no table twice. |
| Schema.PreOrderCovers | toml2c.cpp:276-278 | Every table below `t` is in the pre-order of `t`. |
| Schema.PreOrderListsEveryTable | toml2c.cpp:385-572 | Starting at the root, the pre-order lists every table of the arena exactly once. So every pass of `c_src` visits each table exactly once. |
| Schema.UnderLinear | toml2c.cpp:142-149 | The tables above a table form one chain: of any two of them, one is above the other. |
| Schema.SiblingsDisjoint | toml2c.cpp:142-149 | No table lies below two different children of one table. |
| Schema.PreOrderParentFirst | toml2c.cpp:142-149 | In pre-order, every table after the first comes after its parent. |
| Reading.ArrayIsMixed | toml2c.cpp:172-179 | The loop reports a mixed array exactly when some element's node type differs from element 0's. |
| Reading.Reader.constructor | toml2c.cpp:61-70 | A new reader has no tables. |
| Reading.Reader.Parser | toml2c.cpp:96-131 | A parse failure returns 1 and adds nothing. Otherwise it returns 0 and the tables are `BuildEntries` applied to a root named `StructName(file)` at depth 0. The arena is well formed. The root's fields are the document's top-level fields, and its children are its top-level tables, named by their keys. Every depth is at most 255. Below the root, every table holds the fields of its own sub-table and has as children the tables nested in it, named by their keys (`Mirrors`). |
| Reading.Reader.Tabler | toml2c.cpp:138-208 | Visiting the pairs one by one leaves exactly `BuildEntries` of the old tables, and `c_depth` is restored. |
| Reading.Reader.Visit | toml2c.cpp:139-206 | One pair leaves exactly `BuildEntry` of the old tables. A nested table raises `c_depth` for its subtree and restores it. |
| Paths.ParentPathAgrees | toml2c.cpp:351-374 | For a non-empty path, `get_parent_path` and `get_path` agree. |
| Paths.ParentLookup | toml2c.cpp:363-374 | A table whose parent is the root is looked up in `root`. Otherwise, if the parent's name is not empty, it is looked up in the handle declared for the parent. |
| Paths.EmptyNameMisleadsLookup | toml2c.cpp:363-374 | Under a top-level table with an empty name, the lookup goes to `root`. |
| Paths.EmptyNameHandle | toml2c.cpp:351-362 | The handle of that empty-named table is `root_`, not `root`. |
| Paths.PathShape | toml2c.cpp:351-362 | `get_path(t, s)` is the sanitised "root_", then each non-root ancestor's name followed by '_', then `s`. |
| Paths.PathPrefixStartsWithRoot | toml2c.cpp:351-362 | Below the root, that prefix starts with "root_". |
| Paths.HandleStartsWithRoot | toml2c.cpp:351-362 | Every handle declared below the root starts with "root_", so none collides with `root`. |
| Paths.RootHandleIsTypeName | toml2c.cpp:351-362 | For the root, `get_path(root, root.name)` is the root's type name, not `root`. |
| Paths.ChainDepth | toml2c.cpp:376-383 | The chain of non-root ancestors of `t` (with `t`) has one table per level of `t`'s depth, each the parent of the next. |
| Paths.PathVarShape | toml2c.cpp:376-383 | `get_path_var(t, s)` is the sanitised names of that chain, top down, each followed by '.', then the sanitised `s`. |
| Paths.GetPathSanitised | toml2c.cpp:351-362 | `get_path(t, s)` contains no '-' and ends with the sanitised `s`. |
| Paths.GetParentPathSanitised | toml2c.cpp:363-374 | `get_parent_path(t, s)` contains no '-' and ends with the sanitised `s`. |
| Paths.GetPathVarSanitised | toml2c.cpp:376-383 | `get_path_var(t, s)` contains no '-' and ends with the sanitised `s`. |
| Paths.MemberPathDots | toml2c.cpp:376-383 | For dot-free names, the member path of a field of `t` has exactly `depth(t)` dots. |
| Paths.DottedDots | toml2c.cpp:376-383 | Each chain segment adds exactly one dot. |
| Emit.Indented | toml2c.cpp:77-83 | `mk_indent(d)` appends 4·d characters, or none for d ≤ 0. |
| Emit.IndentedIsSpaces | toml2c.cpp:77-83 | What it appends is spaces only, after the old buffer left unchanged. |
| Emit.MemberLines | toml2c.cpp:222-275 | One member line per field, in order. |
| Emit.StructLines | toml2c.cpp:219-282 | The lines of the record of `t` mention only tables from `t` up to the end of the arena. `Nesting.StructLinesUnder` narrows this to `t` and the tables below it. |
| Emit.PatchRule | toml2c.cpp:395 | The patch keeps the length and changes only the second-to-last character, which becomes ';'. |
| Writing.Writer.constructor | toml2c.cpp:72-93 | A new writer has an empty buffer and the generator's own C text. |
| Writing.Writer.MkIndent | toml2c.cpp:77-83 | Appends four spaces per level and returns the count appended, 4·depth. |
| Writing.Writer.HHeader | toml2c.cpp:210-217 | Appends the header prologue. |
| Writing.Writer.HStruct | toml2c.cpp:219-282 | Appends the record of table `t`: opening, members, nested child records, closing. By `Nesting.StructIsLines` this is the text of its line list. |
| Writing.Writer.HMember | toml2c.cpp:223-274 | One field: its member line, and for any array kind a `size_t <name>_len;` line at the same indentation. |
| Writing.Writer.HFunctions | toml2c.cpp:284-299 | Appends the prototypes of the read, print and free routines, named after the root type without `_t`. |
| Writing.Writer.DeclR | toml2c.cpp:385-391 | `decl_r`: the handle declaration of each table of the subtree. By `Passes.TreeIsPreOrder` these come in pre-order. |
| Writing.Writer.CheckR | toml2c.cpp:399-408 | `check_r`: the lookup of each table of the subtree, in pre-order. |
| Writing.Writer.CheckOne | toml2c.cpp:401-404 | One lookup. It assigns the table's handle from its parent's handle, by key `tvar(name)`, and fails naming the raw table name. |
| Writing.Writer.ReadR | toml2c.cpp:415-479 | `read_r`: the field reads of each table of the subtree, in pre-order. |
| Writing.Writer.ReadTable | toml2c.cpp:417-475 | The field loop of `read_r`: the reads of the table's fields, in order. |
| Writing.Writer.ReadField | toml2c.cpp:418-473 | One read per field kind. An array is allocated by `toml_array_nelem(arr)`, filled in an index loop and given its `_len`. A bool array is allocated with `sizeof(double)` and its `_len` line is unindented. |
| Writing.Writer.PrintR | toml2c.cpp:487-538 | `print_r`: the field prints of each table of the subtree, in pre-order. |
| Writing.Writer.PrintTable | toml2c.cpp:489-533 | The field loop of `print_r`. |
| Writing.Writer.PrintField | toml2c.cpp:490-532 | One print per field kind. Booleans print as "true"/"false". Arrays print in a loop bounded by `_len`. |
| Writing.Writer.FreeR | toml2c.cpp:544-569 | `free_r`: the releases of each table of the subtree, in pre-order. |
| Writing.Writer.ReadSignature | toml2c.cpp:309-327 | Appends the include line, the read signature and the allocation of the result. |
| Writing.Writer.ReadParse | toml2c.cpp:329-348 | Appends the opening and the parsing of the file, then the start of the handle declaration. |
| Writing.Writer.DeclHandles | toml2c.cpp:385-397 | Appends the handles of all tables below the root, patches the second-to-last character to ';', and ends the line. |
| Writing.Writer.CheckTables | toml2c.cpp:399-414 | Appends the lookups of all tables below the root, then the field locals. |
| Writing.Writer.ReadFields | toml2c.cpp:415-485 | Appends the reads from the root down, the end of the read routine and the start of the print routine. |
| Writing.Writer.PrintFields | toml2c.cpp:487-542 | Appends the prints from the root down, the end of the print routine and the start of the free routine. |
| Writing.Writer.FreeFields | toml2c.cpp:544-572 | Appends the releases from the root down and the release of the record. |
| Writing.Writer.CSrcHead | toml2c.cpp:308-414 | The part of `c_src` before the field reads. |
| Writing.Writer.CSrcTail | toml2c.cpp:415-572 | The part of `c_src` from the field reads on. |
| Writing.Writer.CSrc | toml2c.cpp:308-573 | `c_src` appends exactly `SourceAfter`: the read, print and free routines. |
| Writing.Writer.HFinalize | toml2c.cpp:301-306 | The header file is named `t2c-<stem>.h` and receives the buffer. |
| Writing.Writer.CFinalize | toml2c.cpp:575-580 | The source file is named `t2c-<stem>.c` and receives the buffer. |
| Writing.Writer.Write | toml2c.cpp:582-604 | Sets `o_name` to the stem of `name`. Produces the header (prologue, nested record, prototypes, appended to the old buffer) named `t2c-<stem>.h`, then clears the buffer. Produces the source named `t2c-<stem>.c` from an empty buffer, and leaves the buffer empty. |
| Passes.PassAfterAppend | toml2c.cpp:385-572 | Running a pass over `us` and then `vs` is running it over `us + vs`. |
| Passes.TreeIsPreOrder | toml2c.cpp:385-572 | Every recursive pass (`decl_r`, `check_r`, `read_r`, `print_r`, `free_r`) from `t` emits what visiting the tables of `PreOrder(t)` one by one emits. |
| Passes.ForestIsPreOrder | toml2c.cpp:385-572 | The same for the children loops of the passes. |
| Passes.CheckParentDeclared | toml2c.cpp:363-411 | Assume every table name below the root is non-empty. Then `check_r` looks each table up either in `root` or in the handle of a table strictly earlier in the same pre-order. That handle is declared by `decl_r` and assigned by `check_r` before the lookup. |
| Passes.LastHandleEndsDeclaration | toml2c.cpp:385-397 | With tables below the root (`u`, the pre-order without the root), the declaration is the handles of `u` in order. The ", " after the last handle becomes "; ", and the line ends. |
| Passes.DeclPassEnds | toml2c.cpp:386-388 | A declaration pass ends with the last table's handle and ", ". |
| Passes.PatchComma | toml2c.cpp:395 | Patching a buffer that ends in ", " ends it in "; ". |
| Passes.EmptyRootPatch | toml2c.cpp:392-397 | With no table below the root, the patch overwrites the character before the trailing space of the preceding text instead. |
| Passes.ParseEndsWithTableType | toml2c.cpp:329-348 | That preceding text ends with `toml_table_t `, so its `t` becomes ';'. |
| Passes.FreeRule | toml2c.cpp:544-569 | `free_r` emits something for a field exactly when the field is a string or a typed array. What it emits ends by freeing that member. It emits nothing for int, double and bool scalars. |
| Passes.BoolArrayAllocatedAsDouble | toml2c.cpp:454-456 | Up to the end of its allocation, the read of a bool array is the read of a double array of the same name. |
| Nesting.LinesAfterAppend | toml2c.cpp:219-282 | Writing `ls` and then `ms` is writing `ls + ms`. |
| Nesting.MembersAreLines | toml2c.cpp:222-275 | The member loop of `h_struct` writes the member lines of the table's fields. |
| Nesting.StructIsLines | toml2c.cpp:219-282 | `h_struct(t)` writes exactly the line list of `t`: opening, one member per field, the children's records, closing. |
| Nesting.StructsAreLines | toml2c.cpp:276-278 | The same for the children loop. |
| Nesting.OpensAppend | toml2c.cpp:219-282 | The opened tables of `ls + ms` are those of `ls`, then those of `ms`. |
| Nesting.MemberLinesOpenNothing | toml2c.cpp:222-275 | Member lines open no record. |
| Nesting.StructOpensInPreOrder | toml2c.cpp:219-282 | `h_struct` opens the records in pre-order, the order in which every pass of `c_src` visits the tables. |
| Nesting.StructsOpenInPreOrder | toml2c.cpp:276-278 | The same for the children loop. |
| Nesting.StructLinesUnder | toml2c.cpp:219-282 | Every line of the record of `t` belongs to `t` or to a table below it. |
| Nesting.StructsLinesUnder | toml2c.cpp:276-278 | The same for the children loop. |
| Nesting.ScopeAppend | toml2c.cpp:219-282 | The records open after `ls + ms` are those open after `ls`, then updated by `ms`. |
| Nesting.MemberLinesKeepScope | toml2c.cpp:222-275 | Member lines open and close no record. |
| Nesting.StructScopeBalanced | toml2c.cpp:219-282 | `h_struct(t)` closes every record it opens: its lines leave the open records as they found them. |
| Nesting.StructsScopeBalanced | toml2c.cpp:276-278 | The same for the children loop. |
| Nesting.StructScope | toml2c.cpp:219-282 | Inside the record of `t`, opened within the records of the tables above it, each member and closing line sits in exactly the records of the root and of its own table's chain of ancestors. |
| Nesting.StructsScope | toml2c.cpp:276-278 | The same for the children loop. |
| Nesting.ScopeInMembers | toml2c.cpp:222-275 | The member lines of `t` come right after its opening, inside the record of `t`. |
| Nesting.ScopeInChildren | toml2c.cpp:276-278 | Past the members and before the closing, a line of the record of `t` is a line of the children's records. The records open there are `S` and `t`, updated by the children's earlier lines. |
| Nesting.ScopeAtClose | toml2c.cpp:280-281 | The closing line of `t` sits inside the record of `t`. |
| Nesting.MemberPathFollowsRecords | toml2c.cpp:376-383 | In the header's record, the records open at any member or closing line are the root's and then those of the line's table and its ancestors, top down. For a member line, `get_path_var` of that member is the names of those records, after the root, each followed by '.', then the sanitised member name. So the C expression `c_src` reads and prints names the member inside the very records `h_struct` nested it in. |

## Left out

- Parsing TOML: `toml::parse_file` and the `toml++` library it comes from are not part of this model. `Reader.Parser` takes the parsed document, or None for a parse failure, as a parameter. Iteration in document order is an assumption about that parameter. The error message written to `std::cerr` is not modelled.
- `Reader.Parser` requires a reader with no tables yet. The source only ever calls it once, on a fresh reader.
- Empty arrays: `tabler` reads element 0 of every array, which is out of range for an empty one. `Loadable` therefore requires every array in the document to be non-empty.
- Depth wrap-around: `Table::depth` is a `uint8_t`. The model uses unbounded depths, and `Reader.Parser` requires a document at most 255 levels deep, so no depth wraps.
- `Writing.Writer.MkIndent` takes a non-negative depth, where the source takes an `int`. Every caller passes a table depth or one more.
- File output: `h_finalize`, `c_finalize` and `write` return the file names and texts instead of writing files. `std::ofstream` is not modelled.
- `main`: the command line, the usage text and the exit codes are not modelled.
- The generated C code: its behaviour at run time and the `toml.h` functions it calls are not modelled. Only the text is.
- The `std::function` lambdas and the pointers into the `deque`: passes are recursive methods over arena indices, and the stability of deque pointers is not modelled.
- `Writing.Writer.DeclHandles` applies the `';'` patch only when the buffer holds at least two characters. The source does it unconditionally, and the fixed text written before it always holds more than two characters (`Passes.ParseEndsWithTableType`).
- The fixed C text is the `Snippets` record `Emit.Toml2c`. `Writer`'s constructor fixes it, and the text functions take it as a parameter. Only `Passes.ParseEndsWithTableType` looks inside it.
- `Emit.Patch`, `Emit.StructAfter` and the path builders `Paths.GetPath`, `Paths.GetParentPath` and `Paths.GetPathVar` carry no contract of their own. `Schema.FieldOf` and `Schema.ArrayKind` do not either. Their properties are the lemmas listed above: `Emit.PatchRule`, `Nesting.StructIsLines`, the `...Sanitised` lemmas, `Paths.PathShape`, `Paths.PathVarShape`, `Paths.ParentPathAgrees`, `Schema.FieldOfRule` and `Schema.ArrayKindRule`.
- The other `...After` text functions state only that the buffer does not shrink. Their meaning is given by the methods of `Writer`, each proved to append exactly their text, and by the lemmas of `Passes` and `Nesting`.
