# A verified model of the MSH version 2 ASCII mesh parser

`MeshParser.c` reads a Gmsh mesh file in the MSH 2 ASCII layout: a
`$MeshFormat` header (version, file type, data size), an optional
`$PhysicalNames` section, a `$Nodes` section and an `$Elements` section. It
keeps the result in file-scope tables and counters. `retrieve_read_data_`
copies the tables out, and `free_memory_` releases them.

The model has two layers:

- **The grammar, as functions over a token sequence.**
  - `MshTokens` (tokens.dfy) holds the `%d`, `%d.%d`, `%s`/`%f` and keyword conversions and the `for` loop that reads `n` records (`Repeat`).
  - `ElementSchema` (element_schema.dfy) holds the element-type enumeration and the arity `switch`.
  - `MshFormat` (msh_format.dfy) holds the records, sections and the whole file.
- **The parser itself, as imperative Dafny.**
  - `MeshParser` (mesh_parser.dfy) has a `Parser` class whose fields are the C globals.
  - Its methods use `while` loops that fill arrays, mirroring the C.
  - Each loop is proved to compute exactly what the grammar functions say.

Around them:

- `MshRoundTrip` (msh_roundtrip.dfy) writes a mesh back as tokens. It proves that reading the writing gives the mesh back, and that every parse result is such a mesh.
- `MshExamples` (msh_examples.dfy) works through two concrete files: a complete one, and one whose element type is not in the `switch`.

The input file is a sequence of whitespace-separated tokens. The `%d` conversion is modelled on a whole token: an optional sign, then decimal digits. `%d.%d` splits one token at its first `.`. Coordinates (`%f`) and names (`%s`) are kept as the tokens that spell them.

The model follows the code, including in these places where a stricter parser would reject the input or behave differently:

- **Unknown element type.** The element `switch` has no `default`, so a record of an unknown type reads no node ids. Its remaining fields are then read as the start of the next record; see `MshExamples.UnknownTypeDesynchronises`. This is not turned into an error.
- **More than ten tags.** `tagCount` above 10 is not rejected. All the tags are read, and `ElementFitsRecordFields` states exactly when they would no longer fit `tags[10]`.
- **Absent `$PhysicalNames`.** When the section is absent, `physicalNamesCount` keeps its value from the previous call and `*out_physicalNamesCount` is not written. The table stays NULL, because `free_memory_` ran first. `Parser.ParseInputFile` states this. A stale positive count then makes `retrieve_read_data_` read through a NULL table; the precondition `CopyFits` of `Parser.RetrieveReadData` excludes that state. `StaleRegionCount` shows the sequence: a file with regions, then one without, leaves a positive count, a NULL table and no caller buffer that meets `CopyFits`.
- **Global state.** The result lives in global, mutable state, not in a returned value. Hence the `Parser` class.

The source never checks what `fscanf` returns. The model makes every failed conversion and every missing keyword an explicit `Err(ParseError)`, and parsing stops there.

## Model

| member | source | states |
|---|---|---|
| ElementSchema.Code | MeshParser.c:37-46 | each enumeration constant's value, 1 for `_2_NODE_LINE` and counting up, always in 1..7; `ArityDefinedExactlyOnEnum` states these are exactly the codes the switch handles |
| ElementSchema.NodeCount | MeshParser.c:37-46 | the node count each constant's name announces, always between 2 and the capacity of nodes[8]; `ArityMatchesEnum` states it is the bound of that constant's case |
| ElementSchema.Arity | MeshParser.c:200-251 | the switch reads a node count exactly for codes 1..7, and that count is between 2 and nodes[8]'s capacity |
| ElementSchema.NodeFieldCount | MeshParser.c:200-251 | the node ids actually read: at most 8, and none exactly when no case matches |
| ElementSchema.ArityMatchesEnum | MeshParser.c:37-46 | each enum constant's case reads the number of nodes its name announces (hexahedron 8 at 5, prism 6 at 6, pyramid 5 at 7) |
| ElementSchema.ArityDefinedExactlyOnEnum | MeshParser.c:200-251 | a code has a case if and only if it is the value of an enum constant |
| ElementSchema.ArityTable | MeshParser.c:200-251 | the full table: codes 1..7 read 2, 3, 4, 4, 8, 6, 5 node ids, and every other code reads none |
| MshTokens.ParseInt | MeshParser.c:193-195 | one %d conversion on a whole token; specified by `ParseIntAccepts` (what it accepts) and `IntRoundTrip` (it inverts decimal writing) |
| MshTokens.ParseIntAccepts | MeshParser.c:193-195 | %d accepts a token exactly when an optional sign is followed by a non-empty run of digits, and only a leading '-' gives a negative value |
| MshTokens.IntRoundTrip | MeshParser.c:193-195 | the %d conversion reads back every integer written in decimal |
| MshTokens.NatRoundTrip | MeshParser.c:193-195 | the digit-run reading inverts decimal writing of naturals |
| MshTokens.ParseVersion | MeshParser.c:143 | a version read gives two numbers that %d reads from either side of a '.' of the token; a token without a '.' is rejected; `VersionRoundTrip` is its inverse |
| MshTokens.VersionRoundTrip | MeshParser.c:143 | `major.minor` read by %d.%d gives back both numbers, for any spelling the %d conversion accepts |
| MshTokens.IntTokenHasNoDot | MeshParser.c:143 | a token %d accepts contains no '.', so the first dot of a version token separates the two numbers |
| MshTokens.ReadInt | MeshParser.c:175 | a %d read succeeds exactly when a next token exists and %d accepts it; it consumes that one token and yields its value |
| MshTokens.ReadToken | MeshParser.c:181 | a %s or %f read succeeds exactly when a next token exists, and yields that token, one position on |
| MshTokens.ExpectKeyword | MeshParser.c:174 | a literal section keyword matches exactly when the next token is that keyword, and is then consumed |
| MshTokens.ReadVersion | MeshParser.c:143 | the %d.%d read succeeds exactly when a next token exists and is a version; it consumes that token and yields both numbers |
| MshTokens.LoopCount | MeshParser.c:196 | how many times `for (j = 0; j < n; j++)` runs (likewise at lines 160, 179 and 191): n when positive, and none for a zero or negative count; `MeshParser.ReadInts` proves the C-style `while` loop runs exactly that often, and `ParseSection` that a section holds that many records |
| MshTokens.Repeat | MeshParser.c:179-182 | the `for (i = 0; i < n; i++)` record loop (also at lines 160, 191 and 196) yields exactly n records when it succeeds; `RepeatStops`, `RepeatFixedWidth` and `ReadIntsAt` give its error and layout behaviour |
| MshTokens.ReadIntsAt | MeshParser.c:196-199 | k consecutive %d reads succeed if and only if each of the k tokens is an integer, and then yield those integers in order |
| MshTokens.ReadIntsFrom | MeshParser.c:196-199 | tokens spelling xs are read as exactly xs, ending right after them |
| MshTokens.ReadIntsValues | MeshParser.c:196-199 | a successful run of k %d reads consumes k tokens and yields the integer of each, in order |
| MshTokens.RepeatStops | MeshParser.c:179-182 | once one record of a loop fails to read, the whole loop fails with that error |
| MshTokens.RepeatFixedWidth | MeshParser.c:179-182 | a loop over fixed-width records ends w·n tokens on and record i starts at pos + i·w |
| MshFormat.ParsePhysicalName | MeshParser.c:162 | a region record is three tokens |
| MshFormat.ParseNode | MeshParser.c:181 | a node record is four tokens |
| MshFormat.Header.IsAscii | MeshParser.c:146 | the `fileType == 0` test behind the "ASCII MSH File" report; `MshExamples.LineFileParses` shows it holds for the example file |
| MshFormat.ParseHeader | MeshParser.c:142-149 | the header is five tokens |
| MshFormat.ParseSection | MeshParser.c:173-183 | a section holds exactly max(0, count) records |
| MshFormat.ParseElement | MeshParser.c:193-251 | one turn of the elements loop; specified by `ElementRecordLayout`, `ElementTagsInOrder`, `ElementNodesInOrder`, `ElementNodes` and, as inverse, `MshRoundTrip.ElementDecodes` |
| MshFormat.ElementRecordLayout | MeshParser.c:193-251 | an element record is 3 + max(0, tagCount) + arity tokens (no node ids for an unknown type), whose first three tokens are its number, type and tag count |
| MshFormat.ElementTagsInOrder | MeshParser.c:196-199 | the tags are the integers right after the three leading fields, in file order |
| MshFormat.ElementNodesInOrder | MeshParser.c:200-251 | the node ids are the integers right after the tags, in file order |
| MshFormat.ElementNodes | MeshParser.c:200-251 | a known type fills nodes[0..arity); an unknown one reads none and the record ends after its tags |
| MshFormat.ElementFitsRecordFields | MeshParser.c:65-72 | node ids always fit nodes[8]; the tags fit tags[10] if and only if tagCount <= 10 |
| MshFormat.NodeRecordsLayout | MeshParser.c:179-182 | node record i is the four tokens at pos + 4i: its number and x, y, z |
| MshFormat.PhysicalNameRecordsLayout | MeshParser.c:160-163 | region record i is the three tokens at pos + 3i: dimension, number, name |
| MshFormat.ParsePhysicalNames | MeshParser.c:152-170 | the optional section with its one-token lookahead; specified by `PhysicalNamesLookahead` and, as inverse, `MshRoundTrip.NamesReadBack` |
| MshFormat.PhysicalNamesLookahead | MeshParser.c:152-170 | without `$PhysicalNames` next, nothing is consumed and no section results (the rewind); with it, count triples are read and `$EndPhysicalNames` follows |
| MshFormat.ParseFile | MeshParser.c:142-253 | the whole file; specified by `ParseFileTables`, `ParseFileElements`, `MshRoundTrip.ParsedMeshIsWellFormed` and, as inverse, `MshRoundTrip.MeshRoundTrip` |
| MshFormat.ParseFileTables | MeshParser.c:152-191 | each table holds max(0, declared count) records; the region table is present exactly when `$PhysicalNames` follows the header, and otherwise `$Nodes` does |
| MshFormat.ElementRecordsShaped | MeshParser.c:191-252 | every record of an element loop has max(0, tagCount) tags and its type's number of node ids |
| MshFormat.ParseFileElements | MeshParser.c:185-253 | every element of a parsed file has that shape |
| MshRoundTrip.ElementDecodes | MeshParser.c:193-251 | an element written out is read back as itself |
| MshRoundTrip.HeaderReadBack | MeshParser.c:142-149 | a written header is read back as itself, five tokens long |
| MshRoundTrip.NamesReadBack | MeshParser.c:152-170 | a written region section, or its absence, is read back as written |
| MshRoundTrip.NodesReadBack | MeshParser.c:173-183 | a written node section is read back as itself |
| MshRoundTrip.ElementsReadBack | MeshParser.c:185-253 | a written element section is read back as itself |
| MshRoundTrip.SpelledMeshRoundTrip | MeshParser.c:142-253 | any well-formed mesh, written with any integer spelling %d accepts, parses back to itself whatever follows `$EndElements` |
| MshRoundTrip.MeshRoundTrip | MeshParser.c:142-253 | the same, for decimal writing |
| MshRoundTrip.ParsedMeshIsWellFormed | MeshParser.c:142-253 | every parse result is well formed, so the round trip covers everything a parse yields |
| MshRoundTrip.ReparseIsStable | MeshParser.c:142-253 | reading a file, writing the result and reading it again gives the first result |
| MshExamples.LineFileParses | MeshParser.c:142-253 | a two-node, one-line file parses to version 2.2 ASCII, no regions, its two nodes and one line with tags 100 and 200 |
| MshExamples.UnknownTypeDesynchronises | MeshParser.c:200-251 | a type-15 element leaves its node id unread; the next record is misread as a triangle and the section ends at the wrong token |
| MshExamples.PointRecord | MeshParser.c:200-251 | the unknown-type record reads its number, type and tags and stops there |
| MshExamples.MisreadRecord | MeshParser.c:193-251 | the record read from the left-over node id on is a triangle with the following tokens as its fields |
| MeshParser.CountStringLength | MeshParser.c:89-98 | the result is the index of the first NUL: every earlier character is not NUL, and the one there is |
| MeshParser.ReadInts | MeshParser.c:196-199 | the tag loop reads exactly max(0, n) integers, as the grammar's run of %d reads |
| MeshParser.ReadElement | MeshParser.c:193-251 | one turn of the elements loop, with its inner tag loop and switch, reads exactly the element record of the grammar, errors included |
| MeshParser.FillRecords | MeshParser.c:179-182 | the record loop fills the table with exactly the grammar's records and stops where they end, or fails with their error |
| MeshParser.FillElements | MeshParser.c:191-252 | the same for the elements loop |
| MeshParser.ReadTable | MeshParser.c:173-183 | count, freshly allocated table, records and end keyword: the grammar's section, with the table holding its records |
| MeshParser.ReadElementTable | MeshParser.c:185-253 | the same for `$Elements` |
| MeshParser.LookAheadPhysicalNames | MeshParser.c:152-170 | the saved position, one token read and the rewind give exactly the grammar's optional section, with its table when present |
| MeshParser.ReadMesh | MeshParser.c:140-253 | the body of the parse computes exactly ParseFile, with fresh tables holding its records |
| MeshParser.OutcomeOf | MeshParser.c:258-264 | success is reported exactly when the file parses; otherwise the parse error is reported |
| MeshParser.StaleRegionCount | MeshParser.c:166-170 | after a file with regions and then one without, the region table is NULL and the count is the first file's positive count, so no caller buffer meets `CopyFits` |
| MeshParser.CopyPrefix | MeshParser.c:271-274 | the first count entries are copied and the rest of the destination is unchanged |
| MeshParser.Parser.constructor | MeshParser.c:54-82 | the tables start NULL and the counters 0 |
| MeshParser.Parser.FreeMemory | MeshParser.c:103-125 | the three tables are NULL afterwards and no counter changes |
| MeshParser.Parser.ParseInputFile | MeshParser.c:127-266 | memory freed first; an unopened file changes nothing else; otherwise the outcome is that of ParseFile and on success the header, counts, tables and out-counts are those of the parse, with the region count left stale and its table NULL when the section is absent |
| MeshParser.Parser.RetrieveReadData | MeshParser.c:268-283 | entries below each count are copied from the tables, and everything after them in the caller's buffers is unchanged |

## Left out

- File I/O is not modelled. `fopen`, `fclose`, `ftell`, `fseek` and `printf` are outside the model. The file is given as `Option<seq<Token>>`, with None meaning it cannot be opened.
- The rewind is modelled as a saved token position, not as a byte offset.
- The console messages are reduced to `Outcome`. The source prints its success message whenever `fopen` succeeded (MeshParser.c:258-259), whatever was read. `ReadFailed` has no counterpart in the source: it is the model's own explicit error, which follows from ending the parse at the first failed conversion.
- `fscanf` character semantics are not modelled: leading whitespace, a partial conversion such as `12abc`, and a literal that fails to match. Every conversion is on whole whitespace-separated tokens.
- A failed conversion in C leaves its destination unchanged and reading goes on. In the model it is an error that ends the parse.
- Line structure is not checked. Neither does `fscanf` check it, since `\n` in a format matches any whitespace.
- Floating point is not modelled. `%f` coordinates are kept as their tokens, not converted.
- The binary encoding is not modelled. `fileType` is only recorded, as in the source.
- 32-bit `int` overflow of a `%d` conversion is not modelled. That overflow is undefined in C; integers here are unbounded.
- `calloc` is modelled only as a fresh array of `max(0, count)` zeroed records. An allocation failure is not modelled.
- `free` is not modelled. Only the reset of each table to NULL is.
- Writing past `tags[10]` or `name[32]` is not modelled: both are undefined behaviour in C. Tags are kept as a sequence of any length, and `ElementFitsRecordFields` says when the C field would overflow. Names are kept as tokens of any length. The lookahead buffer `currentRegionName[32]` is not modelled either.
- MeshParser.Parser.ParseInputFile: on a read failure the contract states only the reported outcome. It does not state which counters and tables the source had already written before the failing conversion. The model stores the results only once the whole file has been read.
- MeshParser.Parser.RetrieveReadData: requires each caller buffer to hold `count` records. The C code does not check this.
- The commented-out `main` (MeshParser.c:285-290) is a debugging aid and is not modelled.
