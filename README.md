# Heart engine playground — a verified model of its code generator and engine core

This project models, in Dafny, the core of the Heart engine playground:
the reflection code generator that writes serialization glue for C++
structs, and the sequential runtime pieces of the C++ engine around it.
Each source file has its own module. Where the source changes state in
place, the model does too: a class with the source's fields, methods with
`modifies` clauses and `while` loops with invariants. Each such method is
proved against a specification function. The properties the code promises
are then proved about those functions, as lemmas.

**Reflection code generator** (`heart/heart-codegen`)
- `CodegenScan`: the marker-driven state machine of `VisitChildren`, as a
  pure transition over an explicit scanner state. Its input is the clang
  cursor walk: kind, spelling, access, type spelling and parent of each
  visited cursor.
- `TypePatterns`: the classifier that collects `SerializedString<N>`
  capacities and `hrt::vector<T>` element types.
- `CodegenOutput`: the emitted text, in sections for base types,
  strings, vectors and structs.
- `CodegenGenerator`: the generator class whose methods build that text,
  and the write-unless-the-hash-matches decision. SHA-1 is a function
  parameter.
- `CodeWriting`: the indentation-scoped line builder (`CodeWriter`,
  `IndentLevel`, `FunctionBlock`) and how a scope hands its lines to its
  parent when disposed.

**Older line-based generator** (`game/heart-codegen`)
- `LegacyCodegen`: the specification of the text parser. It covers brace
  depth, token splitting, the annotation table, type-name extraction and
  include accumulation.
- `LegacyGenerator`: the reader and generator classes that carry out
  that specification line by line.
- `Text` holds the string helpers that both generators share.

**Engine runtime** (`heart/heart-core`, `heart/heart-stl`, `game/...`)
- Fixed-capacity strings: `SerializedString` and
  `LegacySerializedString`.
- The two vectors: `StlVector` and `HeartVector`.
- The sentinel-based intrusive list: `IntrusiveList`.
- Owning and reference-counted pointers: `IntrusivePtr` and `UniquePtr`.
- `StaticObject` and the scope guard `ScopeExit`.
- The three type-erased function holders: `EmbeddedFunction`,
  `DynamicFunction` and `HeartFunction`.
- Iterators and the canonical operator macros: `Iterators`,
  `LegacyIterators` and `CanonicalOperators`.
- MurmurHash3 x86_32 and the string-hash types built on it: `MurmurMix`,
  `Murmur` and `StringHashes`.
- The byte stream: `Stream`.
- The IO command list encoder and the IO queue's page decoder and page
  list: `IoCmdList`, `IoCmdQueue` and `IoPageQueue`.
- The job system's sequential scheduling rules: `Jobs`.
- The demo's first-fit pool allocator: `Pools`.
- The allocation accountants: `Accounting`, `MemoryTracker` and
  `TrackingAllocator`.
- Event-handler dispatch: `Events`.
- The tween registries: `TweenManager` and `DemoTweenManager`.
- The debug-string builder behind the assert macros: `DebugStringify`
  and `HeartAssert`.

`Wrappers`, `Bytes` and `SeqLayout` are shared helpers, with an option
type, byte encodings and generic sequence lemmas.

Fixed-width integers are modelled explicitly where width matters:
`bv32` for the hash, and explicit modular wrap-around for `uint32` and
`uint8` narrowing. The generator's regular expressions are written out as
character-level recognisers.

## Model

| member | source | states |
|---|---|---|
| CodeWriting.Tabs | heart/heart-codegen/src/CodeWriter.cs:45-46 | the indentation is exactly as many tab characters as the level, and none for a negative level |
| CodeWriting.Indented | heart/heart-codegen/src/CodeWriter.cs:107-108 | forwarding lines through a writer keeps their number and order and prefixes each with that writer's tabs |
| CodeWriting.TabsAdd | heart/heart-codegen/src/CodeWriter.cs:45-46 | indentation written at two levels one after the other is the indentation of their sum |
| CodeWriting.IndentedNested | heart/heart-codegen/src/CodeWriter.cs:99-109 | lines a child writes at depth b and forwards through a parent at depth a end up at depth a + b: a line's tab count is the sum of its enclosing writers' levels |
| CodeWriting.IndentedAppend | heart/heart-codegen/src/CodeWriter.cs:107-108 | forwarding two batches of lines one after the other is forwarding their concatenation |
| CodeWriting.CodeWriter.Root | heart/heart-codegen/src/CodeWriter.cs:73-76 | the root writer starts with no lines, level 0 and nothing written to its stream |
| CodeWriting.CodeWriter.Indent | heart/heart-codegen/src/CodeWriter.cs:89-97 | an indentation level holds its first line (when not empty) at its own level 0, then sits at level 1, remembering its end line |
| CodeWriting.CodeWriter.Function | heart/heart-codegen/src/CodeWriter.cs:114-119 | a function block holds the prototype and an opening brace, then sits at level 1 |
| CodeWriting.CodeWriter.WriteLine | heart/heart-codegen/src/CodeWriter.cs:42-49 | exactly one line is appended: the writer's level in tabs, then the text |
| CodeWriting.CodeWriter.WriteBlankLine | heart/heart-codegen/src/CodeWriter.cs:51-54 | exactly one empty line is appended, without indentation |
| CodeWriting.CodeWriter.Dispose | heart/heart-codegen/src/CodeWriter.cs:78-128 | the root writer writes its lines to the stream in order; a scoped writer steps back a level, adds its closing line (its non-empty end line, or a brace for a function block) and forwards all its lines, in order, through its parent at the parent's level |
| CodeWriting.IndentScopeLines | heart/heart-codegen/src/CodeWriter.cs:85-110 | a complete indentation scope adds to its parent the opening line at the parent's depth, the body one level deeper and the closing line at the parent's depth, in that order |
| CodegenScan.LeaveStructReports | heart/heart-codegen/src/SerializationGen.cs:332-341 | a visit from outside the bound struct ends it: the scanner returns to scanning with no parent, and reports an unexpected end only when a directive was pending |
| CodegenScan.MarkersNeverRecorded | heart/heart-codegen/src/SerializationGen.cs:343-383 | a marker cursor records no field, type, include or size and tells clang to continue |
| CodegenScan.StructMarkerArms | heart/heart-codegen/src/SerializationGen.cs:343-355 | the struct marker arms the scanner only while scanning; otherwise it reports a nested struct, sets the error code and leaves the state alone |
| CodegenScan.DirectiveMarkers | heart/heart-codegen/src/SerializationGen.cs:357-383 | the alias and member-function markers set their directive only inside a bound struct with no directive pending; otherwise they report and leave the state alone |
| CodegenScan.ArmedCursorBinds | heart/heart-codegen/src/SerializationGen.cs:385-400 | after the struct marker, the next cursor becomes the bound parent and is recursed into unless it is protected or private, in which case it is reported and scanning resumes |
| CodegenScan.ChildAcceptance | heart/heart-codegen/src/SerializationGen.cs:405-459 | inside a bound struct a child is recorded exactly when it is public and is a field (no member-function directive) or a method (with it); the state returns to the plain bound state either way, and a rejected child reports only when a directive was pending |
| CodegenScan.AcceptRecords | heart/heart-codegen/src/SerializationGen.cs:412-433 | recording leaves the parent type's list holding the name; a new name is appended last with its alias and function flags and its file joins the includes; a repeated name changes neither; other types are untouched and a new type is added to the key order |
| CodegenScan.AcceptClassifies | heart/heart-codegen/src/SerializationGen.cs:435-447 | every accepted field, repeated or not, adds its SerializedString capacity and its hrt::vector element type to their sets, and nothing when its type has none |
| CodegenScan.AddUniqueDistinct | heart/heart-codegen/src/SerializationGen.cs:49-51 | adding to a set kept in insertion order keeps it free of repeats and only extends it |
| CodegenScan.LeaveStructWf | heart/heart-codegen/src/SerializationGen.cs:332-341 | ending a struct keeps the generator's invariant and drops no record |
| CodegenScan.AcceptWf | heart/heart-codegen/src/SerializationGen.cs:412-449 | recording a field keeps the invariant: each type listed once, every list non-empty with distinct names, sets without repeats, error code 1 exactly when an error was reported |
| CodegenScan.StepWf | heart/heart-codegen/src/SerializationGen.cs:330-460 | one visit keeps the invariant and never drops or rewrites a record |
| CodegenScan.WalkWf | heart/heart-codegen/src/SerializationGen.cs:304 | a whole clang_visitChildren traversal keeps the invariant and only adds records |
| CodegenScan.ScanAllWf | heart/heart-codegen/src/SerializationGen.cs:242-260 | scanning any list of files keeps the invariant and only adds records |
| TypePatterns.DigitRunEnd | heart/heart-codegen/src/SerializationGen.cs:436 | the run of digits the pattern's digit group takes ends at the first non-digit or the end of the text |
| TypePatterns.LastCloseBefore | heart/heart-codegen/src/SerializationGen.cs:442 | the closing bracket the greedy group stops at is a `>` with none after it in the range, and none is found only when the range holds no `>` |
| TypePatterns.StringCapacityLeftmost | heart/heart-codegen/src/SerializationGen.cs:436-441 | the capacity read from a type spelling is the value of the digits of the leftmost `SerializedString<digits>` match, and there is none exactly when the spelling has no match |
| TypePatterns.VectorAt | heart/heart-codegen/src/SerializationGen.cs:442-446 | at one position the vector pattern matches exactly when the prefix is there and a `>` follows on the same line after at least one character, and then its greedy end is the last such `>` |
| TypePatterns.VectorElementLeftmost | heart/heart-codegen/src/SerializationGen.cs:442-446 | the element type read is the inner text of the leftmost `hrt::vector<...>` match, up to the last `>` on its line, and there is none exactly when the spelling has no match |
| TypePatterns.StringCapacityOfSpelling | heart/heart-codegen/src/SerializationGen.cs:436-441 | `SerializedString<digits>` contributes the number its digits spell |
| TypePatterns.VectorElementOfSpelling | heart/heart-codegen/src/SerializationGen.cs:442-446 | `hrt::vector<T>` contributes T whole, even when T itself contains `>` |
| TypePatterns.PlainSpellingsContributeNothing | heart/heart-codegen/src/SerializationGen.cs:435-447 | a type spelling without `<` adds to neither set |
| CodegenOutput.BlocksStep | heart/heart-codegen/src/SerializationGen.cs:161-182 | writing one more scoped block and an empty line after the blocks so far gives the blocks with that one appended |
| CodegenOutput.IncludeLines | heart/heart-codegen/src/SerializationGen.cs:141-142 | one include line per recorded include, in order |
| CodegenOutput.BaseTypeBlocksSnoc | heart/heart-codegen/src/SerializationGen.cs:160-182 | the base-type loop's output after one more type is its output so far plus that type's block |
| CodegenOutput.ConversionLines | heart/heart-codegen/src/SerializationGen.cs:191-192 | one `const char*` conversion line per size, in the set's order |
| CodegenOutput.SizeBlocksSnoc | heart/heart-codegen/src/SerializationGen.cs:196-201 | the string-size loop's output after one more size is its output so far plus that size's block |
| CodegenOutput.VectorBlocksSnoc | heart/heart-codegen/src/SerializationGen.cs:206-216 | the vector loop's output after one more element type is its output so far plus that type's block |
| CodegenOutput.FieldLines | heart/heart-codegen/src/SerializationGen.cs:227-235 | one reflection line per recorded field, in order |
| CodegenOutput.StructBlocksSnoc | heart/heart-codegen/src/SerializationGen.cs:221-239 | the struct loop's output after one more type is its output so far plus that type's block of fields |
| CodegenOutput.AsciiBytes | heart/heart-codegen/src/SerializationGen.cs:113 | the ASCII encoding gives one byte per character, the character itself when it is ASCII |
| CodegenOutput.UnreadableAlwaysCommits | heart/heart-codegen/src/SerializationGen.cs:105-122 | when the existing file cannot be read, the new output is always written |
| CodegenOutput.UnchangedOutputSkipsWrite | heart/heart-codegen/src/SerializationGen.cs:105-132 | when the existing text encodes to exactly the new contents, the write is skipped |
| CodegenOutput.SkipMeansSameDigest | heart/heart-codegen/src/SerializationGen.cs:105-132 | the write is skipped only when the existing file was read and the two digests are equal ignoring case |
| CodegenOutput.EveryFieldEmitted | heart/heart-codegen/src/SerializationGen.cs:221-239 | every field recorded for a scanned type appears in the generated file two tabs deep, with the macro its function and alias flags select |
| CodegenOutput.EverySizeEmitted | heart/heart-codegen/src/SerializationGen.cs:185-202 | every size in the emitted set opens its own SerializedString block one tab deep in the generated file |
| CodegenOutput.PathSizeAlwaysEmitted | heart/heart-codegen/src/SerializationGen.cs:185-187 | the 64-byte SerializedString used for serialized data paths is always reflected, whatever was scanned |
| CodegenOutput.PathSizeSpelling | heart/heart-codegen/src/SerializationGen.cs:17 | the data-path string type is spelled `SerializedString<64>` |
| CodegenOutput.ConversionPerSize | heart/heart-codegen/src/SerializationGen.cs:189-193 | each size gets its conversion from `const char*` at its own position in the set's order, two tabs deep |
| CodegenGenerator.SerializationGen.constructor | heart/heart-codegen/src/SerializationGen.cs:43-58 | a new generator holds the initial scan state: scanning, no parent, no records, error code 0 |
| CodegenGenerator.SerializationGen.EncounterError | heart/heart-codegen/src/SerializationGen.cs:60-69 | the diagnostic is reported and the error code set to 1; nothing else changes |
| CodegenGenerator.SerializationGen.LeaveSerializedParent | heart/heart-codegen/src/SerializationGen.cs:332-341 | the fields become exactly what CodegenScan.LeaveStruct gives |
| CodegenGenerator.SerializationGen.RecordField | heart/heart-codegen/src/SerializationGen.cs:417-433 | the type joins the key order when new; its list gains the field, with its file added to the includes, only when no field of that name is there |
| CodegenGenerator.SerializationGen.ClassifyFieldType | heart/heart-codegen/src/SerializationGen.cs:435-447 | the size and vector-type sets become exactly those the two patterns add |
| CodegenGenerator.SerializationGen.AcceptCursor | heart/heart-codegen/src/SerializationGen.cs:412-449 | the fields become exactly what CodegenScan.Accept gives |
| CodegenGenerator.SerializationGen.VisitChildren | heart/heart-codegen/src/SerializationGen.cs:330-460 | the fields and the answer to clang are exactly those CodegenScan.Step gives, so every property proved of Step holds of the callback |
| CodegenGenerator.SerializationGen.VisitTree | heart/heart-codegen/src/SerializationGen.cs:304 | visiting a tree leaves the fields exactly as CodegenScan.Walk gives |
| CodegenGenerator.SerializationGen.ProcessCurrentFile | heart/heart-codegen/src/SerializationGen.cs:262-311 | a file's scan starts from a fresh scanner state and leaves the fields as CodegenScan.ScanFile gives |
| CodegenGenerator.SerializationGen.TraverseCodebase | heart/heart-codegen/src/SerializationGen.cs:242-260 | the fields after the traversal are exactly CodegenScan.ScanAll of the listed files |
| CodegenGenerator.SerializationGen.WriteHeader | heart/heart-codegen/src/SerializationGen.cs:136-156 | the writer gains exactly the header lines: the two fixed includes, one include per recorded file, and the two accessor templates |
| CodegenGenerator.SerializationGen.ReflectBaseTypes | heart/heart-codegen/src/SerializationGen.cs:158-183 | the writer gains one block per base type, in the fixed order, each followed by an empty line |
| CodegenGenerator.SerializationGen.ReflectSerializedStrings | heart/heart-codegen/src/SerializationGen.cs:185-202 | the 64-byte path size joins the size set, then the writer gains the `const char*` conversions and one block per size |
| CodegenGenerator.SerializationGen.ReflectSerializedVectors | heart/heart-codegen/src/SerializationGen.cs:204-217 | the writer gains one block per vector element type, in the set's order |
| CodegenGenerator.SerializationGen.ReflectSerializedStructs | heart/heart-codegen/src/SerializationGen.cs:219-240 | the writer gains one block per recorded type, in the dictionary's key order |
| CodegenGenerator.SerializationGen.ReflectAll | heart/heart-codegen/src/SerializationGen.cs:95-98 | the four reflectors together write exactly the body of `ReflectSerializedData` |
| CodegenGenerator.SerializationGen.WriteReflectionFunction | heart/heart-codegen/src/SerializationGen.cs:93-99 | the function block adds the prototype, the opening brace, the body one level deeper and the closing brace |
| CodegenGenerator.SerializationGen.WriteSource | heart/heart-codegen/src/SerializationGen.cs:86-103 | the root writer holds exactly the generated file between its two banners |
| CodegenGenerator.SerializationGen.Generate | heart/heart-codegen/src/SerializationGen.cs:85-103 | when the root writer's `using` scope ends, its stream holds exactly the generated file of the scanned state, and of the scanner's fields only the size set changes, gaining the data path's size |
| CodegenGenerator.SerializationGen.Process | heart/heart-codegen/src/SerializationGen.cs:77-134 | the output is the generated file of the scanned state, encoded as ASCII; it is written exactly when ShouldCommit says so |
| CodegenGenerator.WriteBlock | heart/heart-codegen/src/CodeWriter.cs:89-109 | a block written through an indentation scope adds its lines at the writer's depth, the body one level deeper |
| CodegenGenerator.WriteIncludes | heart/heart-codegen/src/SerializationGen.cs:138-143 | the fixed includes, an empty line, one include per recorded file and an empty line |
| CodegenGenerator.WriteIncludeLines | heart/heart-codegen/src/SerializationGen.cs:141-142 | one include line per recorded file, in order |
| CodegenGenerator.WriteAccessor | heart/heart-codegen/src/SerializationGen.cs:145-155 | an accessor template: two prototype lines, a braced one-statement body, an empty line |
| CodegenGenerator.WriteBaseTypeBlock | heart/heart-codegen/src/SerializationGen.cs:163-181 | one base type's block, with the extra conversions of uint32_t and int32_t, then an empty line |
| CodegenGenerator.WriteSizeBlock | heart/heart-codegen/src/SerializationGen.cs:198-200 | one size's SerializedString block, then an empty line |
| CodegenGenerator.WriteVectorBlock | heart/heart-codegen/src/SerializationGen.cs:208-215 | one vector type's block with its two function aliases, then an empty line |
| CodegenGenerator.WriteSizeBlocks | heart/heart-codegen/src/SerializationGen.cs:196-201 | one block per size, in the set's order |
| CodegenGenerator.WriteStructBlock | heart/heart-codegen/src/SerializationGen.cs:225-238 | one struct's block, each field with the macro its flags select, then an empty line |
| Text.NatToString | heart/heart-codegen/src/SerializationGen.cs:192 | an interpolated size is a non-empty run of digits whose value is the size |
| Text.NatToStringInjective | heart/heart-codegen/src/SerializationGen.cs:192 | two sizes render alike exactly when they are equal, so each size gets its own conversion line |
| Text.Split | game/heart-codegen/src/SerializationGen.cs:250 | `Split` gives at least one piece, none of which holds the separator |
| Text.JoinSplit | game/heart-codegen/src/SerializationGen.cs:250 | joining the pieces of a split with the separator gives back the text |
| Text.SplitJoin | game/heart-codegen/src/SerializationGen.cs:256 | splitting pieces joined by a separator they do not hold gives back the pieces |
| Text.SplitNoSeparator | game/heart-codegen/src/SerializationGen.cs:256 | a text without the separator is a single piece |
| Text.SplitAtFirst | game/heart-codegen/src/SerializationGen.cs:310 | the first piece runs up to the first separator |
| Text.AddUnique | heart/heart-codegen/src/SerializationGen.cs:49-51 | adding to an insertion-ordered set leaves it as it was when the element is present and appends it otherwise |
| LegacyCodegen.LineBreakFrom | game/heart-codegen/src/SerializationGen.cs:37-41 | the line a read returns ends at the first `\n` or `\r` from the position, or at the end of the text |
| LegacyCodegen.AfterBreak | game/heart-codegen/src/SerializationGen.cs:37-41 | a read always moves past the terminator it stopped at |
| LegacyCodegen.ReadLineAt | game/heart-codegen/src/SerializationGen.cs:37-41 | ReadLine gives null exactly at the end of the stream; otherwise a line without terminator characters, and the stream moves forward |
| LegacyCodegen.ArraySuffixFrom | game/heart-codegen/src/SerializationGen.cs:276-281 | the array suffix found is the leftmost `[digits]` after at least one character, and none is found only when there is none |
| LegacyCodegen.ScanFields | game/heart-codegen/src/SerializationGen.cs:198-302 | the field loop only moves the stream forward |
| LegacyCodegen.ScanRootLine | game/heart-codegen/src/SerializationGen.cs:238-248 | reading a root-level line only moves the stream forward |
| LegacyCodegen.ExtractTypeName | game/heart-codegen/src/SerializationGen.cs:304-315 | reading the name line consumes at least that line |
| LegacyCodegen.TokenLines | game/heart-codegen/src/SerializationGen.cs:189-193 | one macro line per field, in order |
| LegacyCodegen.StructAt | game/heart-codegen/src/SerializationGen.cs:175-196 | processing a struct consumes at least its name line |
| LegacyCodegen.Dedup | game/heart-codegen/src/SerializationGen.cs:94 | the includes written are those recorded, each once |
| LegacyCodegen.IncludeLines | game/heart-codegen/src/SerializationGen.cs:94-95 | one include line per distinct include, in order |
| LegacyCodegen.SizeLines | game/heart-codegen/src/SerializationGen.cs:105-106 | one `const char*` conversion line per string capacity seen |
| LegacyCodegen.NoMarkerNoOutput | game/heart-codegen/src/SerializationGen.cs:145-173 | a file with no line exactly `SERIALIZE_STRUCT()` produces no output and changes no size or error code |
| LegacyCodegen.NonHeaderReportsMarkers | game/heart-codegen/src/SerializationGen.cs:156-162 | in a file that is not a header no struct is processed, and the error code becomes 1 exactly when a marker line occurs |
| LegacyCodegen.ReadLineOfLine | game/heart-codegen/src/SerializationGen.cs:37-41 | a line followed by a line feed is exactly what ReadLine returns, and the stream moves past the line feed |
| LegacyCodegen.StructLineTokens | game/heart-codegen/src/SerializationGen.cs:310 | splitting `struct Name ...` on spaces gives `struct` and then the name |
| LegacyCodegen.StructLineNamed | game/heart-codegen/src/SerializationGen.cs:304-315 | `struct Name ...` on the line after the marker names the struct Name, and opens its body exactly when the line has `{` and no `}` |
| LegacyCodegen.ClassKeywordFirstNamesNothing | game/heart-codegen/src/SerializationGen.cs:311-314 | a line `class Name` names nothing, because the test compares the second token with `class` |
| LegacyCodegen.SingleTokenNameLineThrows | game/heart-codegen/src/SerializationGen.cs:310-312 | a name line with a single token makes the run throw, since there is no second token to read |
| LegacyCodegen.TwoTokens | game/heart-codegen/src/SerializationGen.cs:256-263 | `type name` splits into exactly those two tokens |
| LegacyCodegen.ThreeTokens | game/heart-codegen/src/SerializationGen.cs:256-269 | `annotation type name` splits into exactly those three tokens |
| LegacyCodegen.DeclarationRoundTrip | game/heart-codegen/src/SerializationGen.cs:256-289 | parsing a rendered declaration gives back its field name, annotation and type |
| LegacyCodegen.PlainIdentifierKept | game/heart-codegen/src/SerializationGen.cs:276-281 | an identifier without `[` is recorded as written |
| LegacyCodegen.ArraySuffixStripped | game/heart-codegen/src/SerializationGen.cs:276-281 | `name[digits]` is recorded as `name` |
| LegacyCodegen.SizesAfterAppend | game/heart-codegen/src/SerializationGen.cs:291-297 | recording the capacities of two runs of declarations is recording those of the first, then the second |
| LegacyCodegen.DeclarationStep | game/heart-codegen/src/SerializationGen.cs:251-298 | one rendered declaration is recorded with its annotation and its string capacity |
| LegacyCodegen.DeclarationsOfRendered | game/heart-codegen/src/SerializationGen.cs:251-298 | the pieces of a rendered line are recorded in order, the empty piece after the last `;` skipped |
| LegacyCodegen.RenderedLineSplits | game/heart-codegen/src/SerializationGen.cs:250 | a rendered line splits on `;` into its declarations and the empty piece after the last one |
| LegacyCodegen.FieldLineRoundTrip | game/heart-codegen/src/SerializationGen.cs:250-298 | reading a rendered field line records its declarations in order, with their string capacities |
| LegacyCodegen.WhiteSpaceSkipped | game/heart-codegen/src/SerializationGen.cs:232-236 | whitespace at depth 1 is skipped one character at a time |
| LegacyCodegen.RootLineRead | game/heart-codegen/src/SerializationGen.cs:238-250 | at depth 1 a line that starts with a non-blank, non-brace character and has no `(` is read whole as declarations |
| LegacyCodegen.FieldLineScan | game/heart-codegen/src/SerializationGen.cs:232-298 | the field loop at depth 1 reads one tab-indented body line as its declarations |
| LegacyCodegen.ClosingBraceStops | game/heart-codegen/src/SerializationGen.cs:215-230 | the closing `}` at depth 1 ends the loop just after it, unless another brace follows |
| LegacyCodegen.Gathered | game/heart-codegen/src/SerializationGen.cs:205-299 | what the field loop has gathered before each body line is what it had before the previous one plus that line's declarations |
| LegacyCodegen.BodyScan | game/heart-codegen/src/SerializationGen.cs:198-302 | the field loop entered at depth 1 reads every declaration of the body in order and stops just after the closing `}` |
| LegacyCodegen.StructNameLine | game/heart-codegen/src/SerializationGen.cs:304-315 | a `struct Name {` line names the struct and raises the depth to 1 |
| LegacyCodegen.StructAtOf | game/heart-codegen/src/SerializationGen.cs:175-196 | once the name is known, the struct's lines are the BEGIN line, one macro line per field gathered, and the END line |
| LegacyCodegen.StructRoundTrip | game/heart-codegen/src/SerializationGen.cs:175-302 | reading a struct written from a name and well-formed body lines gives the BEGIN/field/END block of exactly those declarations, in order, with the sizes of their string capacities |
| LegacyGenerator.CountingReader.constructor | game/heart-codegen/src/SerializationGen.cs:24-27 | a new reader is at the start of the text on line 1 |
| LegacyGenerator.CountingReader.EndOfStream | game/heart-codegen/src/SerializationGen.cs:152 | end of stream exactly when the whole text has been read |
| LegacyGenerator.CountingReader.Peek | game/heart-codegen/src/SerializationGen.cs:207 | the next character without consuming it, or -1 at the end |
| LegacyGenerator.CountingReader.Read | game/heart-codegen/src/SerializationGen.cs:29-35 | consumes one character and counts a line only for a consumed `\n`; at the end gives -1 and changes nothing |
| LegacyGenerator.CountingReader.ReadLine | game/heart-codegen/src/SerializationGen.cs:37-41 | counts one line on every call, even at the end, and returns and consumes what ReadLineAt gives |
| LegacyGenerator.LegacyGen.constructor | game/heart-codegen/src/SerializationGen.cs:71-74 | a new generator has error code 0, no includes and no sizes |
| LegacyGenerator.LegacyGen.EncounterError | game/heart-codegen/src/SerializationGen.cs:76-81 | sets the error code to 1 and reports the reader's line, one less when the line was already consumed; nothing else changes |
| LegacyGenerator.LegacyGen.ExtractTypeName | game/heart-codegen/src/SerializationGen.cs:304-315 | returns the name, stream position and depth LegacyCodegen.ExtractTypeName gives, and throws exactly when it does |
| LegacyGenerator.LegacyGen.ProcessDeclarations | game/heart-codegen/src/SerializationGen.cs:250-298 | records the fields, sizes and error code FieldLine gives, and throws exactly when it does |
| LegacyGenerator.LegacyGen.ProcessStructFields | game/heart-codegen/src/SerializationGen.cs:198-302 | the fields, position, sizes and error code are those ScanFields gives, and it throws or hangs exactly when ScanFields does |
| LegacyGenerator.LegacyGen.ProcessRootLine | game/heart-codegen/src/SerializationGen.cs:238-298 | throws at end of stream; otherwise moves forward and continues exactly as ScanRootLine says |
| LegacyGenerator.LegacyGen.ProcessCurrentStruct | game/heart-codegen/src/SerializationGen.cs:175-196 | the lines, position, sizes and error code are those StructAt gives |
| LegacyGenerator.LegacyGen.StructLines | game/heart-codegen/src/SerializationGen.cs:187-195 | the BEGIN line, one macro line per field in order, then the END line |
| LegacyGenerator.LegacyGen.ProcessCurrentFile | game/heart-codegen/src/SerializationGen.cs:145-173 | the output, sizes and error code are those FileFrom gives over the whole file |
| LegacyGenerator.LegacyGen.TraverseCodebase | game/heart-codegen/src/SerializationGen.cs:118-143 | the output, includes, sizes and error code are those TraverseFrom gives over the listed files |
| LegacyGenerator.LegacyGen.Process | game/heart-codegen/src/SerializationGen.cs:83-116 | the written file is OutputFile of the traversal: banner, distinct includes, integer conversions, one conversion per capacity when there are any, the struct lines and the closing banner |
| LegacyGenerator.LegacyGen.WriteOutput | game/heart-codegen/src/SerializationGen.cs:87-111 | the lines written are OutputFile of the traversal: banner, each include once in first-seen order, the integer conversions, the string conversions, the struct lines and the closing banner |
| LegacyGenerator.LegacyGen.WriteSizeSection | game/heart-codegen/src/SerializationGen.cs:100-105 | one `const char*` conversion per string capacity, in the set's order, then a blank line; nothing when no capacity was seen |
| LegacyGenerator.LegacyGen.ProcessSourceDirectory | game/heart-codegen/src/SerializationGen.cs:12-18 | the written file and the exit code are those LegacyCodegen.ProcessSourceDirectory gives |
| SerializedString.CStringOfTerminated | heart/heart-core/include/heart/codegen/codegen.h:45-53 | a buffer holding a NUL-free string, its terminator and anything after reads back as exactly that string |
| SerializedString.ZeroBufferIsEmpty | heart/heart-core/include/heart/codegen/codegen.h:31 | the zero-initialised buffer reads as the empty string |
| SerializedString.DataPathSizeAgrees | heart/heart-core/include/heart/codegen/codegen.h:71-73 | `SerializedDataPathSize` is 64, the same constant the generator uses |
| SerializedString.SerializedString.Get | heart/heart-core/include/heart/codegen/codegen.h:45-53 | `Get` and `c_str` are the buffer read as a C string |
| SerializedString.SerializedString.constructor | heart/heart-core/include/heart/codegen/codegen.h:66-68 | a default value has an all-zero buffer of `N` chars and reads as empty |
| SerializedString.SerializedString.Set | heart/heart-core/include/heart/codegen/codegen.h:40-43 | `Set` and `operator=` leave the characters, a terminator and then the bytes the runtime chooses (`fill`), and the value then reads back as the string copied |
| SerializedString.SerializedString.FromCString | heart/heart-core/include/heart/codegen/codegen.h:61-64 | a value built from a C string holds it, its terminator and the runtime's `fill`, and reads back as that string |
| SerializedString.SerializedString.CreateFromCString | heart/heart-core/include/heart/codegen/codegen.h:33-38 | `CreateFromCString` yields a fresh value holding the string, its terminator and the runtime's `fill`, which reads back as the string |
| LegacySerializedString.LegacySerializedString.Get | game/heart-core/include/heart/deserialization_fwd.h:22-25 | `Get` is the buffer read as a C string |
| LegacySerializedString.LegacySerializedString.constructor | game/heart-core/include/heart/deserialization_fwd.h:38-40 | a default value has an all-zero buffer and reads as empty |
| LegacySerializedString.LegacySerializedString.Set | game/heart-core/include/heart/deserialization_fwd.h:17-20 | `Set` and `operator=` leave the characters, a terminator and the runtime's `fill`, and the value reads back as the string copied |
| LegacySerializedString.LegacySerializedString.FromCString | game/heart-core/include/heart/deserialization_fwd.h:33-36 | a value built from a C string holds it, its terminator and the runtime's `fill`, and reads back as that string |
| LegacySerializedString.LegacySerializedString.CreateFromCString | game/heart-core/include/heart/deserialization_fwd.h:10-15 | `CreateFromCString` yields a fresh value holding the string, its terminator and the runtime's `fill`, which reads back as the string |
| MurmurMix.WordBytes | heart/heart-core/include/heart/hash/murmur.h:81-84 | a 4-byte element read as one block equals the little-endian word of its four bytes |
| MurmurMix.HalfBytes | heart/heart-core/include/heart/hash/murmur.h:53-58 | two 2-byte elements joined into a block equal the little-endian word of their four bytes |
| MurmurMix.LongBytes | heart/heart-core/include/heart/hash/murmur.h:98-103 | the two blocks of an 8-byte element are the little-endian words of its low and high four bytes |
| MurmurMix.OneTailByte | heart/heart-core/include/heart/hash/murmur.h:167-181 | with one tail byte the fall-through switch builds the little-endian word of that byte |
| MurmurMix.TwoTailBytes | heart/heart-core/include/heart/hash/murmur.h:167-181 | with two tail bytes the switch builds their little-endian word |
| MurmurMix.ThreeTailBytes | heart/heart-core/include/heart/hash/murmur.h:167-181 | with three tail bytes the switch builds their little-endian word |
| StlVector.GrownCapacity | game/heart-stl/include/heart/stl/vector.h:90-103 | growth leaves room for one more element, changing the capacity only when the vector is full (1 from empty, otherwise doubled) |
| StlVector.Inserted | game/heart-stl/include/heart/stl/vector.h:141-185 | the inserted sequence is one longer, holds the value at the position, the prefix unchanged and the rest shifted up by one |
| StlVector.Vector.constructor | game/heart-stl/include/heart/stl/vector.h:193-195 | a new vector has no buffer and holds nothing |
| StlVector.Vector.Reallocate | game/heart-stl/include/heart/stl/vector.h:60-88 | a fresh buffer of the new capacity holds the same elements; the size is unchanged; the returned slot is the old capacity |
| StlVector.Vector.PushBackGetLocation | game/heart-stl/include/heart/stl/vector.h:90-103 | one more element is claimed at the old size, earlier elements keep their places, and the capacity follows `GrownCapacity` |
| StlVector.Vector.PushBack | game/heart-stl/include/heart/stl/vector.h:443-451 | the value goes last and every other element keeps its place |
| StlVector.Vector.InsertGetLocation | game/heart-stl/include/heart/stl/vector.h:105-190 | as written: at the end or into an empty vector it is a push; with spare room nothing moves and the new last slot keeps stale content; when at most one slot is spare the elements are spread around a gap but the size is not incremented |
| StlVector.Vector.InsertWithRoom | game/heart-stl/include/heart/stl/vector.h:116-139 | as written, the spare-room branch claims one slot and then moves every element onto itself, so the buffer is unchanged |
| StlVector.Vector.InsertReallocating | game/heart-stl/include/heart/stl/vector.h:140-185 | the branch taken when at most one slot is spare moves the prefix in place and the rest up one slot into a buffer of twice the capacity, and leaves the size unchanged |
| StlVector.Vector.Insert | game/heart-stl/include/heart/stl/vector.h:463-473 | the value lands at the slot `insert_get_location` returned |
| StlVector.Vector.Erase | game/heart-stl/include/heart/stl/vector.h:480-500 | the elements of `[first, last)` are removed and the later ones move down in order; buffer and capacity stay |
| StlVector.Vector.EraseAt | game/heart-stl/include/heart/stl/vector.h:475-478 | erasing a position removes exactly that element |
| StlVector.Vector.PopBack | game/heart-stl/include/heart/stl/vector.h:453-461 | the last element is removed and the rest are unchanged; outside strict-performance builds the freed slot is zeroed, in them it keeps the popped value; slots past it are untouched |
| StlVector.Vector.Reserve | game/heart-stl/include/heart/stl/vector.h:423-441 | a request above the size reallocates to exactly that capacity; an equal one changes nothing; the elements are kept |
| StlVector.Vector.Resize | game/heart-stl/include/heart/stl/vector.h:392-421 | growing reallocates to the count; a trivially copyable type then has every element, old ones included, equal to the value; any other type keeps its elements and is filled with the value up to capacity |
| StlVector.Vector.Swap | game/heart-stl/include/heart/stl/vector.h:502-508 | the two vectors exchange size, capacity and buffer |
| StlVector.Vector.Clear | game/heart-stl/include/heart/stl/vector.h:510-524 | everything is destroyed and the buffer is given back: size and capacity are zero and there is no buffer |
| StlVector.Vector.WithCapacity | game/heart-stl/include/heart/stl/vector.h:197-200 | a new empty vector with exactly the requested capacity |
| StlVector.Vector.Filled | game/heart-stl/include/heart/stl/vector.h:202-206 | a new vector of `initial_size` copies of the value |
| StlVector.Vector.FromValues | game/heart-stl/include/heart/stl/vector.h:208-223 | the initializer-list and copy constructors hold the given values in order, with capacity equal to their count |
| StlVector.Vector.Move | game/heart-stl/include/heart/stl/vector.h:233-236 | the new vector takes the other's buffer, size and capacity, and the other is left empty |
| StlVector.Vector.CopyAssign | game/heart-stl/include/heart/stl/vector.h:225-231 | after copy assignment the vector holds the other's elements |
| StlVector.Vector.MoveAssign | game/heart-stl/include/heart/stl/vector.h:238-241 | move assignment exchanges the two vectors' contents |
| StlVector.Vector.At | game/heart-stl/include/heart/stl/vector.h:310-334 | `at` and `[]` return the element at the index |
| StlVector.Vector.Front | game/heart-stl/include/heart/stl/vector.h:336-344 | `front` is the first element |
| StlVector.Vector.Back | game/heart-stl/include/heart/stl/vector.h:346-354 | `back` is the last element |
| StlVector.Vector.Empty | game/heart-stl/include/heart/stl/vector.h:377-380 | `empty` holds exactly when there are no elements |
| HeartVector.HeartVector.Elements | heart/heart-core/include/heart/memory/vector.h:143-161 | the range `begin()..end()` has exactly `size` elements |
| HeartVector.HeartVector.constructor | heart/heart-core/include/heart/memory/vector.h:80-86 | a new vector has no buffer, size 0 and capacity 0 |
| HeartVector.HeartVector.Reallocate | heart/heart-core/include/heart/memory/vector.h:31-62 | a fresh buffer of the new capacity holds the same elements and returns the slot at the old capacity |
| HeartVector.HeartVector.PushBackGetLocation | heart/heart-core/include/heart/memory/vector.h:64-78 | claims the slot at the old size and keeps earlier elements; the capacity follows the same growth policy as `hrt::vector` |
| HeartVector.HeartVector.EmplaceBack | heart/heart-core/include/heart/memory/vector.h:135-141 | the new element goes last and the others keep their places |
| HeartVector.HeartVector.Clear | heart/heart-core/include/heart/memory/vector.h:95-109 | empties the vector; an already empty vector keeps its buffer and capacity; otherwise the buffer is given back |
| HeartVector.HeartVector.Reserve | heart/heart-core/include/heart/memory/vector.h:111-123 | a request above the size reallocates to exactly that capacity and keeps every element |
| HeartVector.HeartVector.IsEmpty | heart/heart-core/include/heart/memory/vector.h:125-128 | true exactly when there are no elements |
| HeartVector.HeartVector.Size | heart/heart-core/include/heart/memory/vector.h:130-133 | the number of elements |
| HeartVector.HeartVector.End | heart/heart-core/include/heart/memory/vector.h:148-151 | `end()` lies `size` elements past `begin()` |
| IntrusiveList.Link.constructor | heart/heart-core/include/heart/memory/intrusive_list.h:11-15 | a new link points nowhere in either direction |
| IntrusiveList.IntrusiveList.DistinctAfterInsert | heart/heart-core/include/heart/memory/intrusive_list.h:192-199 | inserting a link that is not in the ring keeps every link of the ring distinct |
| IntrusiveList.IntrusiveList.DistinctAfterRemove | heart/heart-core/include/heart/memory/intrusive_list.h:201-212 | taking one link out keeps the rest distinct and leaves the taken link out of them |
| IntrusiveList.IntrusiveList.constructor | heart/heart-core/include/heart/memory/intrusive_list.h:88-94 | the sentinel points at itself both ways and the list is empty |
| IntrusiveList.IntrusiveList.AddLinkBetweenLinks | heart/heart-core/include/heart/memory/intrusive_list.h:192-199 | the item takes the place between two neighbouring links: the list order gains it at that index, every `next`/`prev` stays consistent, and the size grows by one |
| IntrusiveList.IntrusiveList.InsertIndices | heart/heart-core/include/heart/memory/intrusive_list.h:192-199 | after inserting at `k`, the elements before `k` keep their indices and the rest move up by one |
| IntrusiveList.IntrusiveList.AddHead | heart/heart-core/include/heart/memory/intrusive_list.h:98-101 | the element becomes first and the others keep their order |
| IntrusiveList.IntrusiveList.AddTail | heart/heart-core/include/heart/memory/intrusive_list.h:103-106 | the element becomes last and the others keep their order |
| IntrusiveList.IntrusiveList.RemoveLink | heart/heart-core/include/heart/memory/intrusive_list.h:201-212 | the sentinel is left alone; any other element leaves the list, its own pointers are nulled, the size drops by one and the rest keep their order |
| IntrusiveList.IntrusiveList.RemoveIndices | heart/heart-core/include/heart/memory/intrusive_list.h:201-212 | after removing index `k`, later elements move down by one |
| IntrusiveList.IntrusiveList.Remove | heart/heart-core/include/heart/memory/intrusive_list.h:124-132 | exactly the given element leaves the list and is unlinked, and the others keep their order; the sentinel leaves the list as it was |
| IntrusiveList.IntrusiveList.Clear | heart/heart-core/include/heart/memory/intrusive_list.h:134-148 | every element is unlinked, front to back, and the list is empty with size 0 |
| IntrusiveList.IntrusiveList.Size | heart/heart-core/include/heart/memory/intrusive_list.h:150-153 | the size is the number of linked elements |
| IntrusiveList.IntrusiveList.IsEmpty | heart/heart-core/include/heart/memory/intrusive_list.h:155-158 | empty exactly when no element is linked |
| IntrusiveList.IntrusiveList.GetHead | heart/heart-core/include/heart/memory/intrusive_list.h:108-114 | null for an empty list, otherwise the first element |
| IntrusiveList.IntrusiveList.GetTail | heart/heart-core/include/heart/memory/intrusive_list.h:116-122 | null for an empty list, otherwise the last element |
| IntrusiveList.IntrusiveList.Iterate | heart/heart-core/include/heart/memory/intrusive_list.h:73-77 | walking `++` from `begin()` to `end()` visits the elements in list order, exactly `Size()` of them |
| IntrusiveList.IntrusiveList.Index | heart/heart-core/include/heart/memory/intrusive_list.h:160-168 | every link of the ring has a place in the walk from `begin()`, with the sentinel last |
| IntrusiveList.IntrusiveList.Less | heart/heart-core/include/heart/memory/intrusive_list.h:53-71 | `a < b` holds iff `a` is an element reached no later than `b` in the walk from the head |
| IntrusivePtr.RefCounted.IncrementRef | heart/heart-core/include/heart/memory/intrusive_ptr.h:29-32 | `HeartIncrementRef` adds exactly one reference |
| IntrusivePtr.RefCounted.DecrementRef | heart/heart-core/include/heart/memory/intrusive_ptr.h:35-38 | `HeartDecrementRef` removes exactly one reference |
| IntrusivePtr.IntrusivePtr.constructor | heart/heart-core/include/heart/memory/intrusive_ptr.h:52-57 | the default and `nullptr` constructors hold nothing and change no count |
| IntrusivePtr.IntrusivePtr.FromRaw | heart/heart-core/include/heart/memory/intrusive_ptr.h:59-68 | a non-null pointee gains exactly one reference; null touches nothing |
| IntrusivePtr.IntrusivePtr.MoveFrom | heart/heart-core/include/heart/memory/intrusive_ptr.h:70-74 | the new pointer takes the other's pointee, the other becomes null, and no count changes |
| IntrusivePtr.IntrusivePtr.CopyFrom | heart/heart-core/include/heart/memory/intrusive_ptr.h:76-81 | both pointers hold the pointee, which gains one reference |
| IntrusivePtr.IntrusivePtr.Reset | heart/heart-core/include/heart/memory/intrusive_ptr.h:95-107 | a held pointee loses one reference and the pointer becomes null |
| IntrusivePtr.IntrusivePtr.Swap | heart/heart-core/include/heart/memory/intrusive_ptr.h:109-114 | the two pointees are exchanged and no count changes |
| IntrusivePtr.IntrusivePtr.MoveAssign | heart/heart-core/include/heart/memory/intrusive_ptr.h:83-87 | the moved pointee is transferred without a count change and the previously held one loses a reference; self-assignment changes nothing |
| IntrusivePtr.IntrusivePtr.CopyAssign | heart/heart-core/include/heart/memory/intrusive_ptr.h:89-93 | the new pointee gains a reference and the old one loses one; the same pointee keeps its count |
| UniquePtr.UniquePtr.constructor | heart/heart-stl/include/heart/stl/unique_ptr.h:76-88 | the default and `nullptr` constructors own nothing with a default deleter |
| UniquePtr.UniquePtr.FromPointer | heart/heart-stl/include/heart/stl/unique_ptr.h:90-95 | owns the given pointer with a default deleter |
| UniquePtr.UniquePtr.WithDeleter | heart/heart-stl/include/heart/stl/unique_ptr.h:96-101 | owns the given pointer with the given deleter |
| UniquePtr.UniquePtr.Move | heart/heart-stl/include/heart/stl/unique_ptr.h:104-109 | ownership and deleter move to the new owner, the source becomes null, and no deleter runs |
| UniquePtr.UniquePtr.ConvertFrom | heart/heart-stl/include/heart/stl/unique_ptr.h:122-129 | the converting move copies deleter and pointer and nulls the source's pointer |
| UniquePtr.UniquePtr.Release | heart/heart-stl/include/heart/stl/unique_ptr.h:171-176 | hands out the pointer and owns nothing afterwards; the deleter is not called |
| UniquePtr.UniquePtr.Reset | heart/heart-stl/include/heart/stl/unique_ptr.h:178-187 | installs the new pointer, then hands the old one to the deleter exactly when it was non-null |
| UniquePtr.UniquePtr.MoveAssign | heart/heart-stl/include/heart/stl/unique_ptr.h:111-120 | self-assignment does nothing; otherwise the old pointer goes to the old deleter and the source's pointer and deleter are taken over |
| UniquePtr.UniquePtr.Swap | heart/heart-stl/include/heart/stl/unique_ptr.h:189-193 | pointers and deleters are exchanged and no deleter runs |
| Accounting.TotalRemove | game/src/memory/memory.cpp:104 | taking one live allocation out of a size map lowers the sum by exactly its size, whichever key is removed |
| Accounting.TotalAdd | game/src/memory/memory.cpp:86 | recording a new allocation raises the sum by its size |
| CanonicalOperators.NotEqual | heart/heart-core/include/heart/canonical_operators.h:4 | `!=` is the negation of `==` |
| CanonicalOperators.LessOrEqual | heart/heart-core/include/heart/canonical_operators.h:5 | `<=` holds iff `<` or `==` holds |
| CanonicalOperators.Greater | heart/heart-core/include/heart/canonical_operators.h:6 | `>` holds iff neither `<` nor `==` holds |
| CanonicalOperators.GreaterOrEqual | heart/heart-core/include/heart/canonical_operators.h:7 | `>=` is the negation of `<` |
| CanonicalOperators.DerivedComparisons | heart/heart-core/include/heart/canonical_operators.h:3-13 | over a strict total order the four derived operators are exactly `!=`, `<=`, `>` and `>=` |
| CanonicalOperators.DerivedComparisonsMirrored | heart/heart-core/include/heart/canonical_operators.h:3-13 | the same holds over the mirrored order that reverse iterators compare by |
| ScopeExit.ScopeGuard.constructor | heart/heart-core/include/heart/scope_exit.h:21 | a new guard holds the callable, is not dismissed and has not run it |
| ScopeExit.ScopeGuard.Dismiss | heart/heart-core/include/heart/scope_exit.h:29-32 | after `Dismiss` the guard is dismissed and the callable has not been called |
| ScopeExit.ScopeGuard.Destroy | heart/heart-core/include/heart/scope_exit.h:23-27 | the destructor calls the callable exactly once when not dismissed and never otherwise |
| ScopeExit.GuardNamesDiffer | heart/heart-core/include/heart/scope_exit.h:35-37 | two `HEART_SCOPE_EXIT` uses with different `__COUNTER__` values declare different variable names |
| StaticObject.StaticObject.constructor | heart/heart-core/include/heart/memory/static_object.h:39-46 | with static construction the value is built from the arguments, otherwise the object starts empty |
| StaticObject.StaticObject.Construct | heart/heart-core/include/heart/memory/static_object.h:53-62 | constructs the value only when not initialized; an initialized object keeps its value |
| StaticObject.StaticObject.Destruct | heart/heart-core/include/heart/memory/static_object.h:64-72 | destroys the value once when initialized and is a no-op otherwise |
| StaticObject.StaticObject.IsInitialized | heart/heart-core/include/heart/memory/static_object.h:74-77 | reports whether `Construct` came after the last `Destruct` |
| StaticObject.StaticObject.Get | heart/heart-core/include/heart/memory/static_object.h:79-87 | yields the value last constructed, and only while initialized |
| TrackingAllocator.WrapIsMod | heart/heart-test/src/utils/tracking_allocator.h:28-29 | the value a `uint64_t` counter holds after any arithmetic is the exact result modulo 2^64 |
| TrackingAllocator.WrapsToIsWrap | heart/heart-test/src/utils/tracking_allocator.h:28-29 | a value in the `uint64_t` range that differs from the exact result by multiples of 2^64 is the wrapped result, and the number of multiples is forced |
| TrackingAllocator.TrackingAllocator.CountersWrap | heart/heart-test/src/utils/tracking_allocator.h:28-66 | the byte counter is the total of the recorded sizes, and the count the number of recorded pointers less the unmatched frees, each reduced modulo 2^64 |
| TrackingAllocator.TrackingAllocator.constructor | heart/heart-test/src/utils/tracking_allocator.h:28-31 | counters start at zero and the map is empty |
| TrackingAllocator.TrackingAllocator.RawAllocate | heart/heart-test/src/utils/tracking_allocator.h:33-46 | one more allocation and `n` more bytes, both modulo 2^64, and the pointer is recorded with its size |
| TrackingAllocator.TrackingAllocator.RawDeallocate | heart/heart-test/src/utils/tracking_allocator.h:48-66 | one fewer allocation always, modulo 2^64; a recorded pointer gives back its recorded size (modulo 2^64) and leaves the map; an unrecorded one fails the expectation and changes nothing else |
| TrackingAllocator.TrackingAllocator.UnmatchedFreeWraps | heart/heart-test/src/utils/tracking_allocator.h:28-50 | an unrecorded free on an allocator holding nothing takes the `atomic_uint64_t` count to 2^64 - 1, not below zero |
| TrackingAllocator.TrackingAllocator.Balanced | heart/heart-test/src/utils/tracking_allocator.h:28-66 | once every allocation is freed exactly once both counters are zero |
| MemoryTracker.EverySlotListed | game/src/memory/memory.cpp:56 | the usage table has a cell for every pool and period |
| MemoryTracker.MemoryTracker.constructor | game/src/memory/memory.cpp:49-56 | the tracker starts with no records and every usage cell at zero |
| MemoryTracker.MemoryTracker.Alloc | game/src/memory/memory.cpp:78-91 | records the allocation and adds its size to its pool and period; every cell stays the sum of its live allocations |
| MemoryTracker.MemoryTracker.Free | game/src/memory/memory.cpp:93-110 | a recorded pointer gives its size back to its cell and is forgotten; an unrecorded one changes nothing |
| MemoryTracker.MemoryTracker.GlobalNew | game/src/memory/memory.cpp:66-70 | global `new` is `Alloc` in pool `Unknown`, period `Long` |
| MemoryTracker.MemoryTracker.GlobalDelete | game/src/memory/memory.cpp:72-76 | global `delete` is `Free` in pool `Unknown`, period `Long` |
| EmbeddedFunction.UnsetSwapNeverReturns | heart/heart-core/include/heart/function/embedded_function.h:100-113 | as written, swapping two unset holders never returns however deep the nesting is allowed to go, because the first nested call is the same swap again |
| EmbeddedFunction.SelfSwapNeverReturns | heart/heart-core/include/heart/function/embedded_function.h:78-113 | as written, swapping a holder with itself never returns, set or not: a set callable moves into the temporary and the nested `other.Swap(*this)` is then a self-swap of an unset holder |
| EmbeddedFunction.SwapAsWrittenOtherwiseExchanges | heart/heart-core/include/heart/function/embedded_function.h:78-113 | as written, every combination with at least one set holder finishes and exchanges the flags |
| EmbeddedFunction.EmbeddedFunction.constructor | heart/heart-core/include/heart/function/embedded_function.h:51 | a default holder is unset with zeroed storage |
| EmbeddedFunction.EmbeddedFunction.FromCallable | heart/heart-core/include/heart/function/embedded_function.h:72-76 | a holder built from a callable is set and its storage starts with the callable's image |
| EmbeddedFunction.EmbeddedFunction.Set | heart/heart-core/include/heart/function/embedded_function.h:115-127 | the callable's image is written at the start of the storage and the holder is set; a callable already held is not destroyed |
| EmbeddedFunction.EmbeddedFunction.Clear | heart/heart-core/include/heart/function/embedded_function.h:129-138 | a set holder's callable is destroyed once, the flag cleared and every storage byte zeroed; an unset holder is left alone |
| EmbeddedFunction.EmbeddedFunction.MoveInto | heart/heart-core/include/heart/function/embedded_function.h:96 | the callable is move-constructed into the target's storage |
| EmbeddedFunction.EmbeddedFunction.Swap | heart/heart-core/include/heart/function/embedded_function.h:78-113 | corrected: callables and flags are exchanged; a moved-from callable is destroyed and its storage zeroed; two unset holders stay unset |
| EmbeddedFunction.EmbeddedFunction.Move | heart/heart-core/include/heart/function/embedded_function.h:60-64 | corrected: the new holder takes the other's callable and the other is left unset |
| EmbeddedFunction.EmbeddedFunction.MoveAssign | heart/heart-core/include/heart/function/embedded_function.h:66-70 | corrected: move assignment exchanges the two holders' callables |
| HeartFunction.HeartFunction.constructor | heart/heart-core/include/heart/function.h:74 | a default holder is unset |
| HeartFunction.HeartFunction.FromCallable | heart/heart-core/include/heart/function.h:95-99 | a holder built from a callable holds it |
| HeartFunction.HeartFunction.Set | heart/heart-core/include/heart/function.h:138-143 | the callable is constructed in place and the holder set; a callable already held is not destroyed |
| HeartFunction.HeartFunction.Clear | heart/heart-core/include/heart/function.h:145-149 | as written, the stored object's destructor runs and the flag is cleared whether or not a callable is held |
| HeartFunction.HeartFunction.Swap | heart/heart-core/include/heart/function.h:101-136 | corrected: callables and flags are exchanged, each moved-from callable is destroyed once, and two unset holders stay unset |
| HeartFunction.HeartFunction.Move | heart/heart-core/include/heart/function.h:83-87 | corrected: the new holder takes the other's callable and the other is left unset |
| HeartFunction.HeartFunction.MoveAssign | heart/heart-core/include/heart/function.h:89-93 | corrected: move assignment exchanges the two holders' callables |
| DynamicFunction.DynamicFunction.constructor | heart/heart-core/include/heart/function/dynamic_function.h:25-28 | a new holder is unset and bound to its allocator |
| DynamicFunction.DynamicFunction.Set | heart/heart-core/include/heart/function/dynamic_function.h:51-61 | the callable is built in storage of its size from the holder's allocator, whose byte counter grows by that size modulo 2^64; a callable already held is neither destroyed nor freed |
| DynamicFunction.DynamicFunction.FromCallable | heart/heart-core/include/heart/function/dynamic_function.h:44-49 | a holder built from a callable holds it in its allocator's storage, and that allocator's byte counter grows by its size modulo 2^64 |
| DynamicFunction.DynamicFunction.Clear | heart/heart-core/include/heart/function/dynamic_function.h:63-70 | a held callable is destroyed and its bytes given back to the allocator, whose byte counter falls by them modulo 2^64; the holder is unset |
| DynamicFunction.DynamicFunction.MovePointer | heart/heart-core/include/heart/function/dynamic_function.h:93-97 | the callable moves into storage of the same size from the target allocator and the source storage is freed from its own; each byte counter moves by that size modulo 2^64 |
| DynamicFunction.DynamicFunction.MoveHeld | heart/heart-core/include/heart/function/dynamic_function.h:100-108 | one guarded half of the cross-allocator swap: a held callable moves to the other allocator with its size, and with nothing held nothing changes; either way the held bytes leave one counter and reach the other, modulo 2^64 |
| DynamicFunction.DynamicFunction.Swap | heart/heart-core/include/heart/function/dynamic_function.h:77-110 | holders sharing an allocator exchange pointers; otherwise each callable moves to storage from the other's allocator, so callables and the bytes each allocator has outstanding are exchanged, modulo 2^64 |
| DynamicFunction.DynamicFunction.Move | heart/heart-core/include/heart/function/dynamic_function.h:32-36 | the new holder, bound to the other's allocator, takes its callable and the other is left unset |
| DynamicFunction.DynamicFunction.MoveAssign | heart/heart-core/include/heart/function/dynamic_function.h:38-42 | move assignment is a swap |
| Iterators.Iterator.constructor | heart/heart-stl/include/heart/stl/iterator.h:72-75 | a default iterator is null |
| Iterators.Iterator.At | heart/heart-stl/include/heart/stl/iterator.h:77-80 | an iterator from a pointer sits at that pointer |
| Iterators.Iterator.AddAssign | heart/heart-stl/include/heart/stl/iterator.h:87-91 | `+=` moves the position forward by the offset |
| Iterators.Iterator.SubAssign | heart/heart-stl/include/heart/stl/iterator.h:93-97 | `-=` moves the position back by the offset |
| Iterators.Iterator.Plus | heart/heart-stl/include/heart/stl/iterator.h:100 | `x + n` is a new iterator `n` past `x`, and `x` does not move |
| Iterators.Iterator.Minus | heart/heart-stl/include/heart/stl/iterator.h:101 | `x - n` is a new iterator `n` before `x`, and `x` does not move |
| Iterators.Iterator.PreIncrement | heart/heart-stl/include/heart/stl/iterator.h:100 | prefix `++` advances by one |
| Iterators.Iterator.PostIncrement | heart/heart-stl/include/heart/stl/iterator.h:103 | postfix `++` returns the old position and advances by one |
| Iterators.Iterator.PreDecrement | heart/heart-stl/include/heart/stl/iterator.h:101 | prefix `--` steps back by one |
| Iterators.Iterator.PostDecrement | heart/heart-stl/include/heart/stl/iterator.h:104 | postfix `--` returns the old position and steps back by one |
| Iterators.ConstIterator.constructor | heart/heart-stl/include/heart/stl/iterator.h:144-147 | a default const iterator is null |
| Iterators.ConstIterator.At | heart/heart-stl/include/heart/stl/iterator.h:149-152 | a const iterator from a pointer sits at that pointer |
| Iterators.ConstIterator.FromIterator | heart/heart-stl/include/heart/stl/iterator.h:157-165 | converting from an `iterator` keeps its position |
| Iterators.ConstIterator.AddAssign | heart/heart-stl/include/heart/stl/iterator.h:169-173 | `+=` moves forward by the offset |
| Iterators.ConstIterator.SubAssign | heart/heart-stl/include/heart/stl/iterator.h:175-179 | `-=` moves back by the offset |
| Iterators.ConstIterator.Plus | heart/heart-stl/include/heart/stl/iterator.h:182 | `x + n` is a new const iterator `n` past `x` |
| Iterators.ReverseIterator.constructor | heart/heart-stl/include/heart/stl/iterator.h:243-246 | a default reverse iterator has a null base |
| Iterators.ReverseIterator.At | heart/heart-stl/include/heart/stl/iterator.h:248-251 | a reverse iterator from a pointer has that base |
| Iterators.ReverseIterator.AddAssign | heart/heart-stl/include/heart/stl/iterator.h:258-263 | `+=` moves the base backward by the offset |
| Iterators.ReverseIterator.SubAssign | heart/heart-stl/include/heart/stl/iterator.h:265-269 | `-=` moves the base forward by the offset |
| Iterators.ReverseIterator.Plus | heart/heart-stl/include/heart/stl/iterator.h:272 | `x + n` is a new reverse iterator whose base is `n` below `x`'s |
| Iterators.ReverseDifferenceIsNegated | heart/heart-stl/include/heart/stl/iterator.h:291-294 | as written, a reverse iterator advanced `n` steps minus its start is `-n` |
| Iterators.ReverseDistanceMatchesAdvance | heart/heart-stl/include/heart/stl/iterator.h:258-263 | counted in the reverse direction, advancing by `n` puts the iterators `n` apart |
| Iterators.AdvancedDifference | heart/heart-stl/include/heart/stl/iterator.h:258-294 | as written, a reverse iterator advanced by `+= n`, minus one left at its start, gives `-n` through the modelled `operator-` |
| Iterators.AdvancedDistance | heart/heart-stl/include/heart/stl/iterator.h:258-263 | corrected: the same two iterators measured with the intended `Distance` are `n` apart, as `+= n` promises |
| LegacyIterators.Iterator.constructor | game/heart-stl/include/heart/stl/iterator.h:48 | a default iterator is null |
| LegacyIterators.Iterator.At | game/heart-stl/include/heart/stl/iterator.h:49 | an iterator from a pointer sits at that pointer |
| LegacyIterators.Iterator.AddAssign | game/heart-stl/include/heart/stl/iterator.h:56 | `+=` moves forward by the offset |
| LegacyIterators.Iterator.SubAssign | game/heart-stl/include/heart/stl/iterator.h:57 | `-=` moves back by the offset |
| LegacyIterators.Iterator.Plus | game/heart-stl/include/heart/stl/iterator.h:59 | `x + n` is a new iterator `n` past `x` |
| LegacyIterators.Iterator.PostIncrement | game/heart-stl/include/heart/stl/iterator.h:62 | postfix `++` returns the old position and advances by one |
| LegacyIterators.ConstIterator.At | game/heart-stl/include/heart/stl/iterator.h:92 | a const iterator from a pointer sits at that pointer |
| LegacyIterators.ConstIterator.FromIterator | game/heart-stl/include/heart/stl/iterator.h:97-98 | converting from an `iterator` keeps its position |
| LegacyIterators.ConstIterator.AddAssign | game/heart-stl/include/heart/stl/iterator.h:102 | `+=` moves forward by the offset |
| LegacyIterators.ConstIterator.SubAssign | game/heart-stl/include/heart/stl/iterator.h:103 | `-=` moves back by the offset |
| LegacyIterators.ReverseIterator.At | game/heart-stl/include/heart/stl/iterator.h:142 | a reverse iterator from a pointer has that base |
| LegacyIterators.ReverseIterator.AddAssign | game/heart-stl/include/heart/stl/iterator.h:150 | `+=` moves the base backward |
| LegacyIterators.ReverseIterator.SubAssign | game/heart-stl/include/heart/stl/iterator.h:151 | `-=` moves the base forward |
| LegacyIterators.ReverseIterator.Base | game/heart-stl/include/heart/stl/iterator.h:166 | `base()` is a new iterator at the base |
| LegacyIterators.AdvancedDifference | game/heart-stl/include/heart/stl/iterator.h:150-161 | as written, a reverse iterator advanced by `+= n`, minus one left at its start, gives `-n` through the modelled `operator-` |
| LegacyIterators.AdvancedDistance | game/heart-stl/include/heart/stl/iterator.h:150 | corrected: the same two iterators measured with the intended `Distance` are `n` apart, as `+= n` promises |
| Murmur.ByteView | heart/heart-core/include/heart/hash/murmur.h:106-116 | the raw-byte view of an element array has exactly `count * sizeof(T)` bytes |
| Murmur.BlockCount | heart/heart-core/include/heart/hash/murmur.h:143-144 | the body runs `len / 4` times for a length that fits in `int`, and never past the data |
| Murmur.HelperTail | heart/heart-core/include/heart/hash/murmur.h:35-39 | the helper yields exactly `len & 3` tail bytes |
| Murmur.Blocks | heart/heart-core/include/heart/hash/murmur.h:26-33 | the helper yields exactly `len / 4` blocks |
| Murmur.BlockIsViewBlock | heart/heart-core/include/heart/hash/murmur.h:26-131 | every helper's `GetBlock32(i)`, for each element width, is the little-endian word of bytes `4i..4i+3` of the byte view |
| Murmur.BlocksAreViewBlocks | heart/heart-core/include/heart/hash/murmur.h:26-131 | the helper's blocks are the blocks of the byte view |
| Murmur.HelperTailIsTailBytes | heart/heart-core/include/heart/hash/murmur.h:35-67 | the tail bytes the helper reads are the last `len & 3` bytes of the byte view |
| Murmur.FallThroughTail | heart/heart-core/include/heart/hash/murmur.h:166-176 | the fall-through `switch` accumulates the tail word from the helper's tail bytes |
| Murmur.TailWordIsSwitch | heart/heart-core/include/heart/hash/murmur.h:167-176 | the tail word is what the `switch` accumulates from `GetTail` |
| Murmur.TailWordIsRefTailWord | heart/heart-core/include/heart/hash/murmur.h:167-176 | the fall-through tail word is the little-endian word of the tail bytes |
| Murmur.MixBlocks | heart/heart-core/include/heart/hash/murmur.h:150-161 | the body loop mixes the blocks into `h1` in order |
| Murmur.BodyIsRefBody | heart/heart-core/include/heart/hash/murmur.h:150-161 | the body over all `len / 4` blocks equals the reference MurmurHash3_x86_32 body over the bytes |
| Murmur.ComputeHash | heart/heart-core/include/heart/hash/murmur.h:137-192 | corrected: body loop, tail folded in whenever `len & 3` is not 0, then finalisation; the result is the intended hash |
| Murmur.AlignedWidthHasNoTail | heart/heart-core/include/heart/hash/murmur.h:164 | an element width that is a multiple of 4 leaves no tail bytes |
| Murmur.HeartHashIsIntendedForNarrowOrAligned | heart/heart-core/include/heart/hash/murmur.h:164 | for widths below 4 and multiples of 4 the as-written and intended hashes agree |
| Murmur.IntendedHashIsReference | heart/heart-core/include/heart/hash/murmur.h:137-192 | with the tail always folded in, the hash of any element array is the reference MurmurHash3_x86_32 of its bytes |
| Murmur.HeartHashMatchesReference | heart/heart-core/include/heart/hash/murmur.h:137-192 | as written, the hash equals the reference for every width below 4 and every multiple of 4 |
| Murmur.WideTailIgnored | heart/heart-core/include/heart/hash/murmur.h:164 | as written, two 6-byte elements that differ only in their last byte hash alike for every seed |
| Murmur.IntendedStateSeesWideTail | heart/heart-core/include/heart/hash/murmur.h:164-181 | with the tail folded in, the same two elements reach different states before finalisation |
| Murmur.TailWordsMixApart | heart/heart-core/include/heart/hash/murmur.h:177-180 | folding different tail words into the same state gives different states |
| Murmur.HashString | heart/heart-core/include/heart/hash/murmur.h:194-197 | the `string_view` overload is the byte-array hash of the characters, as written and as intended |
| StringHashes.HashOfIsReference | heart/heart-core/include/heart/hash/string_hash.h:41-42 | every string hash value is the reference MurmurHash3_x86_32 of the string's bytes under the default seed |
| StringHashes.Truncated | heart/heart-core/include/heart/hash/string_hash.h:106-110 | the debug copy keeps exactly the first `min(len, N)` characters |
| StringHashes.TruncatedTwice | heart/heart-core/include/heart/hash/string_hash.h:155-188 | copying through capacity `n` and then `m` keeps what capacity `min(n, m)` keeps |
| StringHashes.CStringOf | heart/heart-core/include/heart/hash/string_hash.h:75-77 | a C reader of the debug buffer sees the bytes before the first NUL, or runs off the end when there is none |
| StringHashes.CStringOfCopy | heart/heart-core/include/heart/hash/string_hash.h:102-111 | a NUL-free string copied into a zeroed buffer with room to spare reads back as itself; one that fills the buffer leaves no terminator |
| StringHashes.ConstDefault | heart/heart-core/include/heart/hash/string_hash.h:36-39 | the default constant hash is the invalid value with an empty view |
| StringHashes.ConstFromString | heart/heart-core/include/heart/hash/string_hash.h:41-44 | the constant hash of a string is its MurmurHash and views the string |
| StringHashes.StringHash.DebugString | heart/heart-core/include/heart/hash/string_hash.h:137-139 | `DebugString` is the first `m_stringSize` characters of the buffer |
| StringHashes.StringHash.Default | heart/heart-core/include/heart/hash/string_hash.h:97-100 | the default hash is the invalid value with a zeroed buffer and size 0 |
| StringHashes.StringHash.CopyDebug | heart/heart-core/include/heart/hash/string_hash.h:106-110 | the copy loop sets the size to `min(len, N)` and copies exactly those characters, leaving the rest of the buffer zero |
| StringHashes.StringHash.FromString | heart/heart-core/include/heart/hash/string_hash.h:102-112 | the hash of a string is its MurmurHash and its debug string is the truncated copy |
| StringHashes.StringHash.FromConst | heart/heart-core/include/heart/hash/string_hash.h:166-177 | converting a constant hash keeps its value and a bounded copy of its debug string |
| StringHashes.StringHash.Copy | heart/heart-core/include/heart/hash/string_hash.h:124 | the copy constructor copies value, buffer and size |
| StringHashes.ConstFromStringHash | heart/heart-core/include/heart/hash/string_hash.h:154-158 | converting a string hash keeps its value and views its debug copy |
| StringHashes.UnsafeCStringOfFromString | heart/heart-core/include/heart/hash/string_hash.h:141-143 | a hash built from a NUL-free string shorter than `N` hands C readers that string; one of length `N` or more hands them a buffer with no terminator |
| Stream.Overwrite | heart/heart-core/include/heart/stream.h:50 | `memcpy` at the head puts exactly the value's bytes there and leaves the bytes before and after unchanged |
| Stream.Writer.constructor | heart/heart-core/include/heart/stream.h:26-32 | the writer uses the caller's buffer, size and head variable |
| Stream.Writer.FromArray | heart/heart-core/include/heart/stream.h:34-38 | the array constructor takes the array's length as the size |
| Stream.Writer.Write | heart/heart-core/include/heart/stream.h:42-53 | writes exactly when `sizeof(T)` bytes are left: the bytes land at the head and the head advances past them; otherwise neither buffer nor head changes |
| Stream.Writer.WriteScaled | heart/heart-core/include/heart/stream.h:55-66 | the pointer overload checks and copies `sizeof(T*) * count` bytes, whatever `T` is; on failure nothing changes |
| Stream.Reader.constructor | heart/heart-core/include/heart/stream.h:90-94 | a reader without a head starts its own head at 0 |
| Stream.Reader.WithHead | heart/heart-core/include/heart/stream.h:96-107 | a reader uses the caller's head, or its own at 0 when given null |
| Stream.Reader.ReadCopy | heart/heart-core/include/heart/stream.h:109-116 | `Read<T>(Copy)` returns the `sizeof(T)` bytes at the head and moves the head past them |
| Stream.Reader.ReadPtr | heart/heart-core/include/heart/stream.h:118-125 | `Read<T>(GetPtr)` returns the head's offset and moves it past `sizeof(T)` bytes |
| Stream.WriteThenRead | heart/heart-core/include/heart/stream.h:50-115 | a value a writer writes at a head is what `Read<T>(Copy)` from a reader at that head returns; a value that does not fit is refused |
| Stream.FromLEOfLE | heart/heart-core/include/heart/stream.h:50 | an unsigned integer written as its little-endian bytes reads back as itself |
| Stream.LEOfFromLE | heart/heart-core/include/heart/stream.h:115 | every byte string is the representation of the integer it denotes |
| Stream.FromSignedLEOfSignedLE | heart/heart-core/include/heart/stream.h:50 | a signed integer written in two's complement reads back as itself |
| IoCmdList.TagOf | heart/heart-core/include/heart/io/io_op_type.h:5-18 | each operation's `uint16_t` number is its declaration index, below 11 |
| IoCmdList.OpOfTag | heart/heart-core/include/heart/io/io_op_type.h:5-18 | a number names an operation exactly when it is below 11 |
| IoCmdList.TagsAreInverse | heart/heart-core/include/heart/io/io_op_type.h:5-18 | numbering is one to one: each tag names one operation and each operation has one tag |
| IoCmdList.DescriptorBytes | heart/heart-core/include/heart/io/io_cmd_list.h:27-28 | a descriptor's object representation is its length byte followed by the `MaxFilePath`-char array |
| IoCmdList.MakeDescriptor | heart/heart-core/src/io/io_cmd_list.cpp:26-31 | `IoFileDescriptor(f, l)` keeps `uint8_t(l)` as the size and the name's bytes at the start of the array |
| IoCmdList.DescriptorOfName | heart/heart-core/src/io/io_cmd_list.cpp:21-24 | `IoFileDescriptor(f)` takes the length from `strlen(f)` |
| IoCmdList.TagBytes | heart/heart-core/include/heart/io/io_op_type.h:5 | an `IoOpType` is two bytes, its number then 0 |
| IoCmdList.TagBytesAreLE | heart/heart-core/include/heart/io/io_op_type.h:5 | those are the `uint16_t`'s little-endian bytes, and a reader of them gets the operation back |
| IoCmdList.Parts | heart/heart-core/src/io/io_cmd_list.cpp:33-125 | each command is written as its tag followed by its fields, field by field; strict-perf builds record a checked buffer as an unchecked one |
| IoCmdList.DescriptorPartsAsWritten | heart/heart-core/src/io/io_cmd_list.cpp:33-40 | as written, a descriptor is recorded as its tag, its size byte, and `sizeof(char*) * size` bytes starting at the filename |
| IoCmdList.EncodingStartsWithTag | heart/heart-core/src/io/io_cmd_list.cpp:37-124 | every command's encoding begins with its `IoOpType` |
| IoCmdList.Writes | heart/heart-core/src/io/io_cmd_list.cpp:35-39 | each `HEART_CHECK(writer.Write(..))` that fits is copied at the head and each one that does not is skipped |
| IoCmdList.WritesWhenAllFit | heart/heart-core/src/io/io_cmd_list.cpp:35-39 | when the whole command fits, the writes lay it down at the head and move the head past it |
| IoCmdList.WritesKeepPrefix | heart/heart-core/src/io/io_cmd_list.cpp:35-39 | writes never change the pool before the head |
| IoCmdList.SkipsTheMiddleWrite | heart/heart-core/src/io/io_cmd_list.cpp:81-85 | with three bytes of room, writes of 2, 8 and 1 bytes keep the first and last side by side and drop the middle |
| IoCmdList.OffsetSkipsTheOffset | heart/heart-core/src/io/io_cmd_list.cpp:79-86 | so with three bytes left an `Offset` records its tag and its `IoOffsetType` but drops the offset between them |
| IoCmdList.CmdList.constructor | heart/heart-core/include/heart/io/io_cmd_list.h:73-74 | a new list starts at head 0 with an 8 KiB pool |
| IoCmdList.CmdList.BindIoFileDescriptor | heart/heart-core/src/io/io_cmd_list.cpp:33-40 | as written: tag, size byte, then `sizeof(char*) * size` bytes read from the filename onwards, each write skipped if it does not fit |
| IoCmdList.CmdList.BindIoFileDescriptorWhole | heart/heart-core/src/io/io_cmd_list.cpp:33-40 | corrected: the tag, then the descriptor object whole, which is what the queue reads back |
| IoCmdList.CmdList.BindIoTargetBufferUnchecked | heart/heart-core/src/io/io_cmd_list.cpp:42-48 | records the tag and the unchecked buffer |
| IoCmdList.CmdList.BindIoTargetBufferChecked | heart/heart-core/src/io/io_cmd_list.cpp:50-62 | records a checked buffer, or in strict-perf builds the unchecked buffer of its pointer |
| IoCmdList.CmdList.ReadEntire | heart/heart-core/src/io/io_cmd_list.cpp:64-69 | records the `ReadEntire` tag |
| IoCmdList.CmdList.ReadPartial | heart/heart-core/src/io/io_cmd_list.cpp:71-77 | records the tag and the read length |
| IoCmdList.CmdList.Offset | heart/heart-core/src/io/io_cmd_list.cpp:79-86 | records the tag, the offset and its type |
| IoCmdList.CmdList.UnbindFileDescriptor | heart/heart-core/src/io/io_cmd_list.cpp:88-93 | records the `UnbindDescriptor` tag |
| IoCmdList.CmdList.UnbindTargetBuffer | heart/heart-core/src/io/io_cmd_list.cpp:95-100 | records the `UnbindTarget` tag |
| IoCmdList.CmdList.Signal | heart/heart-core/src/io/io_cmd_list.cpp:102-109 | records the tag, the fence pointer and the value |
| IoCmdList.CmdList.Wait | heart/heart-core/src/io/io_cmd_list.cpp:111-118 | records the tag, the fence pointer and the value |
| IoCmdList.CmdList.Reset | heart/heart-core/src/io/io_cmd_list.cpp:120-125 | records the `Reset` tag |
| IoCmdList.CmdList.Finalize | heart/heart-core/src/io/io_cmd_list.cpp:127-130 | the write head returns to the start of the pool |
| IoCmdQueue.ReadPartialOperand | heart/heart-core/src/io/io_cmd_queue.cpp:174-179 | the `size_t` a decoded `ReadPartial` carries is the little-endian value of the eight bytes after its tag, so it is below `2^64` |
| IoCmdQueue.Int64 | heart/heart-core/src/io/io_cmd_queue.cpp:153 | `int64_t(x)` of a 64-bit unsigned value is its two's-complement reading, in range |
| IoCmdQueue.DecodeAt | heart/heart-core/src/io/io_cmd_queue.cpp:129-233 | one command read at the head: the tag's case and the head just past what it reads, never past the page |
| IoCmdQueue.DecodeFromStep | heart/heart-core/src/io/io_cmd_queue.cpp:127-130 | the run of commands from a head is the command there followed by the run from the next head |
| IoCmdQueue.ExecuteSnoc | heart/heart-core/src/io/io_cmd_queue.cpp:127-235 | carrying out one more command continues from the state and effects the earlier ones left |
| IoCmdQueue.EncodingIsTagThenOperands | heart/heart-core/src/io/io_cmd_list.cpp:33-125 | a recorded command is its tag followed by exactly the operand bytes the reader takes for that tag |
| IoCmdQueue.OperandsDecode | heart/heart-core/src/io/io_cmd_queue.cpp:133-233 | the reader's fields give back the recorded command |
| IoCmdQueue.DecodeRecorded | heart/heart-core/src/io/io_cmd_queue.cpp:129-233 | a recorded command found in a page reads back as itself and the head moves past it |
| IoCmdQueue.WritesEachWhenAllFit | heart/heart-core/src/io/io_cmd_list.cpp:35-124 | when the whole list fits, its writes lay its bytes down at the head and move the head past them |
| IoCmdQueue.DecodeAtIsLocal | heart/heart-core/src/io/io_cmd_queue.cpp:129-233 | what the queue reads at a head depends only on the bytes it reads |
| IoCmdQueue.DecodeJoined | heart/heart-core/src/io/io_cmd_queue.cpp:127-235 | commands that each read back as themselves read back, laid end to end, as the whole list |
| IoCmdQueue.DecodeFromEnd | heart/heart-core/src/io/io_cmd_queue.cpp:127 | nothing is left to decode once the head reaches the size |
| IoCmdQueue.RecordedReadsBack | heart/heart-core/src/io/io_cmd_queue.cpp:129-233 | every recorded command reads back as itself |
| IoCmdQueue.AllReadBack | heart/heart-core/src/io/io_cmd_queue.cpp:127-235 | every command of a list reads back as itself |
| IoCmdQueue.SubmittedCommandsReadBack | heart/heart-core/src/io/io_cmd_queue.cpp:55-79 | round trip: commands recorded on a list whose pool holds them, copied into a page by `Submit`, are read back by `ProcessCmdPage` as exactly those commands, and nothing reads past the recorded size |
| IoCmdQueue.DescriptorAsWrittenIsMisread | heart/heart-core/src/io/io_cmd_queue.cpp:133-134 | as written, `BindIoFileDescriptor` records `3 + 8 * size` bytes while the queue reads the 2-byte tag and a 128-byte descriptor, 130 bytes in all; no size makes them agree |
| IoCmdQueue.TrackAppend | heart/heart-core/src/io/io_cmd_queue.cpp:127-235 | tracking the file through two runs of effects is tracking through the first, then the second |
| IoCmdQueue.TrackChecks | heart/heart-core/src/io/io_cmd_queue.cpp:157-158 | assertion reports touch no file |
| IoCmdQueue.StepTracksFile | heart/heart-core/src/io/io_cmd_queue.cpp:131-234 | every case uses the file only in the state it is in, and leaves it in the state `IoState` records |
| IoCmdQueue.ExecuteTracksFile | heart/heart-core/src/io/io_cmd_queue.cpp:127-235 | a run of commands keeps the file use in order and `IoState` in step with it |
| IoCmdQueue.ProcessUsesFilesInOrder | heart/heart-core/src/io/io_cmd_queue.cpp:113-236 | whatever a page holds, `ProcessCmdPage` never closes, reads or seeks with no file open, never opens over an open file, and leaves none open |
| IoCmdQueue.ReadEntireChecksTheTarget | heart/heart-core/src/io/io_cmd_queue.cpp:156-174 | for files below `2^63` bytes, `ReadEntire` reads exactly when the target is unchecked or holds the file, and never asks for more than the target holds |
| IoCmdQueue.ReadEntireHugeFileGetsPast | heart/heart-core/src/io/io_cmd_queue.cpp:165-168 | a file of `2^63` bytes or more wraps to a negative `int64_t` and is read into a checked target smaller than itself |
| IoCmdQueue.ReadPartialPassesTheLength | heart/heart-core/src/io/io_cmd_queue.cpp:175-188 | `ReadPartial` does not compare the length with a checked target and hands both to `HeartReadFile` |
| IoCmdQueue.ReadOperands | heart/heart-core/src/io/io_cmd_queue.cpp:133-233 | the reads of one case after the tag give that case's command and move the head past its fields |
| IoCmdQueue.ReadOneField | heart/heart-core/src/io/io_cmd_queue.cpp:144-188 | the one-field cases copy a target buffer or a read length |
| IoCmdQueue.ReadTwoFields | heart/heart-core/src/io/io_cmd_queue.cpp:189-233 | the two-field cases copy an offset and its type, or a fence and a value |
| IoCmdQueue.ReadCommand | heart/heart-core/src/io/io_cmd_queue.cpp:129-131 | one command read at the head: its tag, then what that case reads |
| IoCmdQueue.CommandAt | heart/heart-core/src/io/io_cmd_queue.cpp:127-129 | a page whose reads stay inside it has a command at every head below its size |
| IoCmdQueue.DecodeAdvance | heart/heart-core/src/io/io_cmd_queue.cpp:127-130 | reading one more command moves it from what is left to what is done |
| IoCmdQueue.DecodePastSize | heart/heart-core/src/io/io_cmd_queue.cpp:127 | nothing is read at or past the size |
| IoCmdQueue.ProcessCmdPage | heart/heart-core/src/io/io_cmd_queue.cpp:113-236 | the loop's effects on files, buffers and fences are exactly those of the commands the page holds, carried out in order |
| IoPageQueue.CmdPage.constructor | heart/heart-core/include/heart/io/io_cmd_queue.h:34-40 | a new page is free, ends no chain and holds zero bytes |
| IoPageQueue.CmdQueue.constructor | heart/heart-core/include/heart/io/io_cmd_queue.h:42-43 | sixteen zeroed free pages and an empty chain |
| IoPageQueue.CmdQueue.FindFree | heart/heart-core/src/io/io_cmd_queue.cpp:55-63 | the loop yields the last page not in use, or null when every page is in use |
| IoPageQueue.CmdQueue.Tail | heart/heart-core/src/io/io_cmd_queue.cpp:70-74 | walking `next` from a non-empty chain ends at its last page |
| IoPageQueue.CmdQueue.CopyInto | heart/heart-core/src/io/io_cmd_queue.cpp:65-67 | the page takes the list's size and its first `size` pool bytes; the pages of the chain are untouched |
| IoPageQueue.CmdQueue.LinkAsWritten | heart/heart-core/src/io/io_cmd_queue.cpp:69-76 | as written, the page goes after the tail or becomes the head, and nothing else changes |
| IoPageQueue.CmdQueue.SubmitAsWritten | heart/heart-core/src/io/io_cmd_queue.cpp:51-80 | as written, the list is copied into the last free page, which is linked at the tail but neither marked in use nor has its `next` cleared |
| IoPageQueue.SubmitTwiceAsWritten | heart/heart-core/src/io/io_cmd_queue.cpp:51-80 | as written, two submits to a fresh queue both land in the last page, the second over the first, and that page is linked to itself |
| IoPageQueue.CmdQueue.Append | heart/heart-core/src/io/io_cmd_queue.cpp:69-76 | corrected: the page is marked in use and ends the chain, so the chain gains exactly that page at its tail and every earlier page keeps its place |
| IoPageQueue.CmdQueue.Claim | heart/heart-core/src/io/io_cmd_queue.cpp:69-76 | corrected: the page to be linked is marked in use and made to end a chain |
| IoPageQueue.CmdQueue.Fill | heart/heart-core/src/io/io_cmd_queue.cpp:55-67 | the last free page now holds the list's recorded bytes |
| IoPageQueue.CmdQueue.Submit | heart/heart-core/src/io/io_cmd_queue.cpp:51-80 | corrected: the queued contents gain the list's bytes at the tail, in the last page that was free, and the list's head returns to 0 |
| IoPageQueue.CmdQueue.Release | heart/heart-core/src/io/io_cmd_queue.cpp:94-98 | the page the thread worked on last is free again |
| IoPageQueue.CmdQueue.Pop | heart/heart-core/src/io/io_cmd_queue.cpp:100-106 | the thread takes the head page off the chain; with an empty chain it gets nothing |
| IoPageQueue.CmdQueue.TakeNext | heart/heart-core/src/io/io_cmd_queue.cpp:89-107 | one turn of `ThreadThink` releases the last page and takes pages in the order they were submitted |
| Jobs.Level | heart/heart-core/include/heart/jobs/system.h:37-45 | each priority has its own queue among the `Count` queues; only `Maximum` (Urgent) takes the last one |
| Jobs.PriorityAt | heart/heart-core/include/heart/jobs/system.h:37-45 | converting a queue index back to a priority gives the priority whose queue it is |
| Jobs.GetDefaultSettings | heart/heart-core/src/jobs/system.cpp:15-35 | the default thread count lies between 1 and 16 with high thread priority; with four or more cores it is the core count minus four, clamped; with fewer than four cores the unsigned subtraction wraps and the count is 16 |
| Jobs.IntendedDefaultSettings | heart/heart-core/src/jobs/system.cpp:19-30 | the reading the comments give: between 1 and 16 threads, never more than the cores left after the four reserved ones (or one), and exactly those cores when they number 1 to 16 |
| Jobs.TwoCoresGetSixteenThreads | heart/heart-core/src/jobs/system.cpp:32 | on a two-core machine the source's defaults ask for sixteen job threads, where the intended reading gives one |
| Jobs.Roles | heart/heart-core/src/jobs/system.cpp:67-86 | at least one worker is started, each with the configured thread priority; the first is reserved for urgent jobs exactly when there is more than one worker, and every other takes jobs down to Normal |
| Jobs.Job.IncrementRef | heart/heart-core/include/heart/jobs/system.h:98-101 | the reference count goes up by one |
| Jobs.Job.DecrementRef | heart/heart-core/include/heart/jobs/system.h:103-109 | the reference count goes down by one and the job is handed back to its allocator exactly when the count reaches zero |
| Jobs.QueuedUpdate | heart/heart-core/include/heart/jobs/system.h:145 | replacing one priority queue changes the multiset of waiting jobs by exactly the jobs removed and added |
| Jobs.QueuedAppend | heart/heart-core/src/jobs/system.cpp:155-163 | appending a job to a queue makes it wait once more and leaves every other job's count unchanged |
| Jobs.QueuedAllocated | heart/heart-core/include/heart/jobs/system.h:145 | every job waiting in the queues is an allocated object |
| Jobs.QueuedEmpty | heart/heart-core/include/heart/jobs/system.h:145 | empty queues hold no waiting job |
| Jobs.FirstMatch | heart/heart-core/src/jobs/system.cpp:190-202 | the index found is of a job whose mask shares a bit with the requested mask, and no earlier job does; none is found only when no job in the queue matches |
| Jobs.Select | heart/heart-core/src/jobs/system.cpp:183-206 | the job taken is the first matching one, front to back, in the most urgent queue from Urgent down to the lowest priority that holds a match; no job is taken only when none of those queues holds a match |
| Jobs.Without | heart/heart-core/src/jobs/system.cpp:165-181 | removing a job leaves every other queue as it was and the job's own queue with the jobs before and after it, in order |
| Jobs.QueuedRemove | heart/heart-core/src/jobs/system.cpp:165-181 | the removed job waits once less and no other job's count changes |
| Jobs.JobSystem.constructor | heart/heart-core/include/heart/jobs/system.h:145 | a new job system has one empty queue per priority and no worker threads |
| Jobs.JobSystem.Initialize | heart/heart-core/src/jobs/system.cpp:67-86 | the worker threads started are exactly those `Roles` describes, in order |
| Jobs.JobSystem.InsertJobIntoQueue | heart/heart-core/src/jobs/system.cpp:155-163 | the job is appended to its priority's queue, which takes a reference; the invariant that each waiting job is queued once, is alive and is referenced holds |
| Jobs.JobSystem.RemoveJobFromQueue | heart/heart-core/src/jobs/system.cpp:165-181 | the job at the slot leaves its queue and is returned alive with its reference count unchanged, the queue's reference passing to the caller; the invariant holds |
| Jobs.JobSystem.TryAcquireOneJob | heart/heart-core/src/jobs/system.cpp:183-206 | succeeds exactly when `Select` finds a job, removes and returns that job with its priority; otherwise the queues and the reported priority are unchanged |
| Jobs.JobSystem.ProcessOneJob | heart/heart-core/src/jobs/system.cpp:208-226 | success or failure records the status and drops the job's function; a retry re-queues the job at the back of its priority's queue with its status untouched |
| Jobs.JobSystem.TryStealJobWork | heart/heart-core/src/jobs/system.cpp:228-241 | reports whether a matching job existed; if so that job is removed, processed (re-queued on retry) and the caller's reference dropped, the job being destroyed exactly when no reference remains |
| Jobs.JobSystem.ProcessAndRelease | heart/heart-core/src/jobs/system.cpp:239-241 | processing then dropping the taken reference re-queues only on retry and destroys the job exactly when its count reaches zero |
| Jobs.JobSystem.EnqueueJob | heart/heart-core/include/heart/jobs/system.h:189-197 | a fresh pending job with the given mask is appended to its priority's queue, holding two references: the caller's and the queue's |
| Pools.ToNearestBlockSize | game/sfml-demo/src/memory/pools.cpp:151-156 | the rounded size is a multiple of 256; below the top of the size_t range it is the least such multiple not below the request, and near the top the size_t product wraps to 0 |
| Pools.FirstFit | game/sfml-demo/src/memory/pools.cpp:166-206 | a header it picks is free and has room for the request before the next header or the pool end |
| Pools.SkipToFree | game/sfml-demo/src/memory/pools.cpp:202-206 | a header it picks is free and has room for the request |
| Pools.Chain | game/sfml-demo/src/memory/pools.cpp:166-206 | the list from a header starts there and every header on it exists |
| Pools.FirstFitIsFirst | game/sfml-demo/src/memory/pools.cpp:158-209 | allocation takes the first header in list order that is free and fits; with none it returns null exactly when the list is the head alone or ends in a free header, and otherwise runs off the end of the list and dereferences null |
| Pools.SkipToFreeIsFirst | game/sfml-demo/src/memory/pools.cpp:202-206 | the same first-fit characterisation from inside the loop that skips allocated headers |
| Pools.PlacedShape | game/sfml-demo/src/memory/pools.cpp:170-195 | placing a block sets the header's size, keeps its back link, and only when the header was last constructs a free header right behind the block and links it after; every other header is untouched and the list stays linked in address order |
| Pools.PlacedChain | game/sfml-demo/src/memory/pools.cpp:170-195 | placing keeps every list through the chosen header in order, extended by the new free header exactly when the chosen header was last |
| Pools.ChainAbove | game/sfml-demo/src/memory/pools.h:48-55 | every header reached by following next lies above the start, and the list is the start alone exactly when it has no next |
| Pools.ChainUnchanged | game/sfml-demo/src/memory/pools.h:48-55 | a list that avoids the headers written is the same after the write |
| Pools.GrowForward | game/sfml-demo/src/memory/pools.cpp:220-225 | Free's forward merge keeps every other header, the block's back link and size, and leaves its next pointing at an allocated header or at none |
| Pools.GrowForwardSkipsFree | game/sfml-demo/src/memory/pools.cpp:220-225 | every header the forward merge unlinks was free, and what the block now points at is the first header after them on its old list |
| Pools.AbsorbChain | game/sfml-demo/src/memory/pools.cpp:222-224 | one merging step drops exactly the following header from the block's list and leaves the headers after it untouched |
| Pools.GrowBackward | game/sfml-demo/src/memory/pools.cpp:227-232 | the backward merge stops at a header that is the block itself or a free non-head predecessor, hands it the block's old next, and leaves no further merge possible; sizes and back links are unchanged |
| Pools.FreeBlockShape | game/sfml-demo/src/memory/pools.cpp:211-246 | after Free the surviving header is free, it is the block or a free non-head predecessor, its next is allocated or none, and the usage drops by the freed block's size only when nothing merged backward |
| Pools.AsWrittenEndOverrunsPool | game/sfml-demo/src/memory/pools.cpp:142-145 | with the pool end computed on a Node pointer, a fresh 64-byte pool accepts a 256-byte request and places a header past the buffer; with the byte end the request is refused |
| Pools.IntendedFitInsidePool | game/sfml-demo/src/memory/pools.cpp:136-149 | with the pool end taken in bytes, every block handed out and every header placed lies inside the pool, for a pool and request that together stay below `2^63` bytes |
| Pools.AsPtrdiff | game/sfml-demo/src/memory/pools.cpp:147-148 | the `size_t` difference returned as `ptrdiff_t` is the one value in the signed 64-bit range congruent to the difference modulo `2^64` |
| Pools.AsPtrdiffInRange | game/sfml-demo/src/memory/pools.cpp:147-148 | a difference already in the signed 64-bit range comes back unchanged |
| Pools.HugeRequestWraps | game/sfml-demo/src/memory/pools.cpp:147-148 | a fresh 4096-byte pool accepts a request for `2^64 - 256` bytes, which rounding keeps, because the gap subtraction wraps; this holds with the pool end on a `Node*` and in bytes |
| Pools.ThreeAllocations | game/sfml-demo/src/memory/pools.cpp:158-209 | three 256-byte requests on a fresh pool take consecutive blocks at offsets 0, 288 and 576 and leave one free trailing header |
| Pools.FreeSecondOfThree | game/sfml-demo/src/memory/pools.cpp:211-246 | freeing the middle block marks it free and lowers the usage by 256 |
| Pools.FreeThirdOfThree | game/sfml-demo/src/memory/pools.cpp:211-246 | freeing the last block then merges it into the free middle header, whose size is what gets subtracted |
| Pools.ThirdAbsorbsTrailer | game/sfml-demo/src/memory/pools.cpp:220-225 | the freed last block swallows the free trailing header |
| Pools.ThirdMergesIntoSecond | game/sfml-demo/src/memory/pools.cpp:227-232 | the freed last block merges back into the free middle header |
| Pools.FreeAfterBackwardMergeKeepsUsage | game/sfml-demo/src/memory/pools.cpp:234-235 | after three allocations and two frees the list holds one 256-byte block but the recorded usage stays 512, because the merged header's zero size is subtracted |
| Pools.Pool.constructor | game/sfml-demo/src/memory/pools.h:59-61 | a new pool has size and usage zero and no head |
| Pools.Pool.Initialize | game/sfml-demo/src/memory/pools.cpp:106-120 | a failed malloc changes nothing; otherwise the size is recorded, and only a pool of at least 64 bytes gets a single free head header |
| Pools.Pool.Destroy | game/sfml-demo/src/memory/pools.cpp:122-129 | the buffer is released: no head, size zero, usage unchanged |
| Pools.Pool.CalculateRemainingGap | game/sfml-demo/src/memory/pools.cpp:136-149 | the gap is the room between the header's payload start and the next header or the pool end, minus the request, reduced into the signed 64-bit range modulo `2^64`; when that difference does not wrap, it is non-negative exactly when the request fits |
| Pools.Pool.Allocate | game/sfml-demo/src/memory/pools.cpp:158-209 | the outcome is the one FirstFit predicts: the payload pointer of the chosen header with the block placed and the usage raised by the rounded size, or null, or the null dereference, with nothing changed in the last two |
| Pools.Pool.FindFit | game/sfml-demo/src/memory/pools.cpp:166-206 | the search loops return exactly FirstFit's outcome from the head |
| Pools.Pool.Place | game/sfml-demo/src/memory/pools.cpp:170-195 | the headers become exactly those Placed describes, still a linked list from the head |
| Pools.Pool.Free | game/sfml-demo/src/memory/pools.cpp:211-246 | freeing null changes nothing; otherwise the headers and usage become those FreeBlock computes, and the pool stays a linked list from the head |
| Pools.Pool.AbsorbFollowing | game/sfml-demo/src/memory/pools.cpp:220-225 | the loop leaves exactly the headers GrowForward computes |
| Pools.Pool.MergeIntoPredecessors | game/sfml-demo/src/memory/pools.cpp:227-232 | the loop leaves exactly the headers and survivor GrowBackward computes |
| TweenManager.SwapRemove | game/src/tween/tween_manager.cpp:26-27 | removing by swapping in the back shortens the list by one |
| TweenManager.SwapRemoveMultiset | game/src/tween/tween_manager.cpp:26-27 | swap-removal loses exactly the one occurrence at the index and keeps every other element |
| TweenManager.SwapRemoveOrder | game/src/tween/tween_manager.cpp:26-27 | elements before the index keep their places and the back element takes the removed one's place |
| TweenManager.StepsOf | game/src/tween/tween_manager.cpp:33-36 | a tick makes one `Step(delta)` call per live tween, in list order |
| TweenManager.Registry.constructor | game/src/tween/tween_manager.cpp:14 | the live list starts empty |
| TweenManager.Registry.RegisterTween | game/src/tween/tween_manager.cpp:16-19 | appends the tween at the back |
| TweenManager.Registry.UnregisterTween | game/src/tween/tween_manager.cpp:21-29 | the first occurrence is overwritten by the back and the back is popped; an absent tween changes nothing; exactly one occurrence leaves the multiset |
| TweenManager.Registry.Tick | game/src/tween/tween_manager.cpp:31-37 | steps every live tween once, in list order, and leaves the list as it was |
| DemoTweenManager.Registry.constructor | game/sfml-demo/src/tween/tween_manager.cpp:5 | the live list starts empty |
| DemoTweenManager.Registry.RegisterTween | game/sfml-demo/src/tween/tween_manager.cpp:7-10 | appends the tween at the back |
| DemoTweenManager.Registry.UnregisterTween | game/sfml-demo/src/tween/tween_manager.cpp:12-20 | the same swap-with-back removal of the first occurrence; an absent tween changes nothing |
| DemoTweenManager.Registry.Tick | game/sfml-demo/src/tween/tween_manager.cpp:22-28 | steps every live tween once, in list order |
| Events.ResponderIsNewest | game/src/events/events.cpp:24-31 | the delegate that takes the event is the newest set one that returns `true`; no newer delegate takes it; with no responder none does |
| Events.OnlySetDelegatesCalled | game/src/events/events.cpp:29 | an unset delegate is never called |
| Events.EventManager.constructor | game/src/events/events.cpp:7-11 | the manager starts with no handlers and no renderer |
| Events.EventManager.Initialize | game/src/events/events.cpp:62-65 | stores the renderer and changes nothing else |
| Events.EventManager.ProcessEvent | game/src/events/events.cpp:19-35 | offers the event from the newest delegate to the oldest, stops at the first that takes it, and reports which one did |
| Events.EventManager.CreateHandler | game/src/events/events.cpp:37-45 | appends one unset delegate to the type's list and returns the handle naming it |
| Events.EventManager.Assign | game/src/events/events.cpp:44 | storing through the returned reference sets exactly that slot |
| Events.EventManager.RemoveHandler | game/src/events/events.cpp:47-60 | false for a type past `Count` or an index past the list; otherwise unsets just that slot and returns true |
| Events.EventManager.Dispose | game/src/events/events.cpp:67-71 | forgets the renderer and every handler |
| Events.EventManager.ManuallyIssueEvent | game/src/events/events.cpp:73-76 | behaves exactly as `ProcessEvent` |
| DebugStringify.StrlenEnds | game/heart-debug/src/debug_stringify.cpp:19 | strlen from a position stops at the first NUL: the bytes before it hold none |
| DebugStringify.StrlenIs | game/heart-debug/src/debug_stringify.cpp:19 | a NUL with no NUL before it is exactly where strlen stops |
| DebugStringify.AppendedAllOrNothing | game/heart-debug/src/debug_stringify.cpp:11-23 | Append leaves the text as it was or extends it by the whole string, and by the whole string exactly when it and its NUL fit in the remaining capacity |
| DebugStringify.NameAppended | game/heart-debug/src/debug_stringify.cpp:36-41 | appending an unquoted name and " = " keeps the cursor on the names literal, ahead of its terminating empty name |
| DebugStringify.NextName | game/heart-debug/src/debug_stringify.cpp:25-49 | AppendNextName never moves the cursor past the empty name that ends the literal |
| DebugStringify.ValueAppended | game/heart-debug/include/heart/debug/assert.h:46-52 | AppendValue keeps the cursor on the names literal |
| DebugStringify.RenderAll | game/heart-debug/include/heart/debug/assert.h:54-62 | rendering any number of values keeps the cursor on the names literal |
| DebugStringify.Padded | game/heart-debug/include/heart/debug/assert.h:8-12 | the padded argument list has the caller's arguments (or one empty one) followed by the ten empty arguments the padding commas make |
| DebugStringify.LiteralAt | game/heart-debug/include/heart/debug/assert.h:8-12 | in HEART_STRINGIFY_NAMES of up to ten arguments, every argument's spelling is followed by a NUL, and after the last one comes another NUL, an empty name |
| DebugStringify.NamesLayout | game/heart-debug/include/heart/debug/assert.h:8-12 | the literal of up to ten arguments holds each name at the offset the previous names and their NULs take, and ends in an empty name |
| DebugStringify.NextNameAt | game/heart-debug/src/debug_stringify.cpp:25-49 | when the name and " = " fit, AppendNextName writes the separator and the unquoted name with " = " (nothing for a quoted one) and moves the cursor past the name and its NUL |
| DebugStringify.ValueAt | game/heart-debug/include/heart/debug/assert.h:46-52 | with room for its line, one value renders as "name = value" after a newline unless it is the first line |
| DebugStringify.RenderedLines | game/heart-debug/include/heart/debug/assert.h:54-62 | with room for the whole text, the first k values render as k "name = value" lines joined by newlines, and the cursor stands at the next name |
| DebugStringify.HeartToDebugStr | game/heart-debug/include/heart/debug/assert.h:66 | with room for the whole text, HEART_TO_DEBUG_STR renders exactly one "name = value" line per argument, in order |
| DebugStringify.IntendedRenderAll | game/heart-debug/src/debug_stringify.cpp:48 | with the cursor advanced past the whole name, each value moves the cursor by exactly one name, whatever the buffer took |
| DebugStringify.IntendedCursorFollowsNames | game/heart-debug/src/debug_stringify.cpp:48 | with the intended advance and any capacity, the name looked up for the k-th value is the k-th argument's |
| DebugStringify.TruncatedNameShiftsCursor | game/heart-debug/src/debug_stringify.cpp:40-48 | as written, a 4-byte buffer that truncates the name "abcd" leaves the cursor inside it, so the next value is labelled "bcd" instead of "x" |
| DebugStringify.StrCpyS | game/heart-debug/src/debug_stringify.cpp:16 | strcpy_s copies the string and its NUL when they fit, and otherwise writes only a NUL at the destination; the rest of the `room` bytes take the unspecified `fill`, and bytes outside them are unchanged |
| DebugStringify.WriteDebugValue | game/heart-debug/src/debug_stringify.cpp:52-128 | the value's rendered text and its NUL are written and its length returned when they fit; otherwise 0 is returned and only a NUL is written (nothing when there is no room at all); the rest of the room takes the unspecified `fill` |
| DebugStringify.HeartDebugStringify.constructor | game/heart-debug/include/heart/debug/assert.h:36-40 | the buffer, capacity and names are recorded and the buffer's first byte is set to NUL when it has room |
| DebugStringify.HeartDebugStringify.Append | game/heart-debug/src/debug_stringify.cpp:11-23 | the text becomes what Appended gives, and the count returned is exactly the bytes added |
| DebugStringify.HeartDebugStringify.AppendSeparator | game/heart-debug/src/debug_stringify.cpp:27-28 | a newline is appended only when the text is non-empty and it fits |
| DebugStringify.HeartDebugStringify.AppendName | game/heart-debug/src/debug_stringify.cpp:36-41 | the unquoted name and " = " are appended, and the cursor moves by the bytes the name's Append wrote plus one |
| DebugStringify.HeartDebugStringify.AppendNextName | game/heart-debug/src/debug_stringify.cpp:25-49 | the text and cursor become those NextName gives, keeping the buffer NUL-terminated |
| DebugStringify.HeartDebugStringify.AppendValue | game/heart-debug/include/heart/debug/assert.h:46-52 | the text and cursor become those ValueAppended gives |
| DebugStringify.HeartDebugStringify.Call | game/heart-debug/include/heart/debug/assert.h:54-62 | the buffer is returned in every case; it is filled with RenderAll's text only when it has room and starts empty, and is untouched otherwise |
| DebugStringify.ToDebugStr | game/heart-debug/include/heart/debug/assert.h:66 | HEART_TO_DEBUG_STR leaves RenderAll's text in the caller's buffer, NUL-terminated |
| HeartAssert.HeartError | game/heart-debug/include/heart/debug/assert.h:68-71 | HEART_ERROR evaluates to false, always calls `DisplayAssertError` with the values rendered into a 2048-byte buffer (that call decides whether a dialog appears), and breaks into the debugger exactly when the call returns true |
| HeartAssert.HeartCheck | game/heart-debug/include/heart/debug/assert.h:73-81 | HEART_CHECK's value is the condition; `DisplayAssertError` is called exactly when the condition fails outside strict-performance builds, and the debugger breaks only then and when that call returns true |
| HeartAssert.HeartAssert | game/heart-debug/include/heart/debug/assert.h:73-81 | HEART_ASSERT has no value and the same display and break behaviour; in strict-performance builds it does nothing |
| HeartAssert.FailedCheckShowsValues | game/heart-debug/include/heart/debug/assert.h:68-81 | a failed HEART_CHECK hands `DisplayAssertError` the values as one "name = value" line per argument whenever they fit in the 2048-byte buffer |

## Left out

- Stream.Writer.constructor: requires the head to lie within the buffer. A head past the end would make the unsigned subtraction in `Check` wrap, and that case is not modelled. `BufferSizeT` narrowing of the head is not modelled either: heads are unbounded naturals.
- StlVector.Vector.Reserve: models only `count >= size_`. The shrinking branch (the destroy loop ending one element early, then `reallocate(count)`) is not modelled, and neither is `resize` to a smaller count, which calls it.
- StlVector.Vector.Resize: models only `count >= size_`, for the same reason.
- HeartVector.HeartVector.Reserve: models only `count > m_size`. The shrinking loop of `Reserve` is not modelled.
- StlVector.Vector.At: requires the index to be in range. `HEART_CHECK` reports an out-of-range index and then reads out of bounds, which is undefined behaviour.
- IoCmdQueue.ProcessCmdPage: requires every read to stay inside the page. The reader does not check its reads, so a page announcing more than it holds reads past the array, which is undefined behaviour and not modelled.
- IoPageQueue.CmdQueue.Submit: requires a free page. With all sixteen pages in use the source writes through a null page pointer, which is undefined behaviour.
- TypePatterns.StringCapacity: the digits are read as an unbounded natural. `int.Parse` throws on more than 32 bits, and that exception is not modelled.
- heart-codegen ProcessSourceDirectory: builds the include directories passed to libclang and returns the error code. It is left out with the libclang glue.
- Concurrency is not modelled: fibers, threads, mutexes, condition variables, fences and events. This covers the job system's worker loops (`ThreadThink`'s wait, `Flush`, `Shutdown`, the thread creation in `Initialize`) and the IO queue's worker thread, `Flush` and `Close`. Only the sequential queue, selection and status logic is modelled, with one caller at a time.
- File and OS I/O are not modelled. The file reads, seeks, fence signals and waits inside `ProcessCmdPage` are recorded as abstract effects. `malloc`/`free`/`operator new` become fresh addresses, and message boxes become a parameter: `HeartAssert` takes the dialog's answer (`dialogBreaks`) as input, and `DisplayAssertError` is not modelled further.
- The libclang and filesystem glue of the code generator is not modelled: translation-unit creation, pointer marshalling, the directory walk, `GetRelativePath` and console output. The cursor walk is an input sequence, relative paths are opaque strings, and SHA-1 is a `digest` function parameter. Both `Program.cs` files are CLI glue and are not part of this model.
- The legacy generator's directory enumeration in `ProcessSourceDirectory` is replaced by a given list of source files, and the `StreamReader` under `CountingStreamReader` by the file's text.
- Floating point is not modelled. `WriteDebugValue`'s `sprintf` formatting becomes a rendered string per value, the tween `Step(d)` bodies are opaque, and the pool usage-percentage reports are out.
- SerializedString.SerializedString.Set: requires the new text to fit its capacity. A copy that would not fit reaches the `strcpy_s` invalid-parameter handler, which is not modelled.
- LegacySerializedString.LegacySerializedString.Set: requires the new text to fit its capacity, for the same reason.
- EmbeddedFunction.EmbeddedFunction.Swap: requires two distinct holders. A self-swap never returns as written (`EmbeddedFunction.SelfSwapNeverReturns`), and the corrected swap does not say what it should do.
- EmbeddedFunction.EmbeddedFunction.Move: follows the corrected `Swap`. As written, move-constructing from an unset holder never returns: embedded_function.h:60-64 swaps a fresh unset holder with it, which is the two-unset swap of `EmbeddedFunction.UnsetSwapNeverReturns`. The model leaves both unset.
- EmbeddedFunction.EmbeddedFunction.MoveAssign: requires two distinct holders, because it is that `Swap`; self-move-assignment never returns as written. It follows the corrected `Swap`: as written, move-assigning between two unset holders never returns either (the same two-unset swap), where the model leaves both unset.
- HeartFunction.HeartFunction.Swap: requires two distinct holders, for the same reason; function.h:123-136 is the same code.
- HeartFunction.HeartFunction.Move: follows the corrected `Swap`. As written, move-constructing from an unset holder never returns: function.h:83-87 swaps a fresh unset holder with it, reaching the two-unset recursion of function.h:123-136. The model leaves both unset.
- HeartFunction.HeartFunction.MoveAssign: requires two distinct holders, because it is that `Swap`. It follows the corrected `Swap`: as written, move-assigning between two unset holders (function.h:89-93) never returns, where the model leaves both unset.
- Bytes past a copied terminator: section K.3.7.1.3 of C11 leaves them unspecified (a debug MSVC runtime fills them with 0xFE). `StrCpyS`, `WriteDebugValue` and the `Set`, `FromCString` and `CreateFromCString` members of both string types take them as a `fill` parameter and promise nothing about its content.
- DebugStringify.StrCpyS: assumes an invalid-parameter handler that returns. On overflow `strcpy_s` then leaves an empty string at the destination, and `WriteDebugValue` (`sprintf_s`) reports 0 bytes. The CRT's default handler ends the process instead.
- DebugStringify.StringifyNames: the layout of the `HEART_STRINGIFY_NAMES` literal is proved for up to ten arguments, matching the ten-argument macro table.
- Events `Process`, the SFML window-polling loop that feeds `ProcessEvent`, is not part of this model.
- Events.EventManager.ProcessEvent: the event is also forwarded to `ImGui::Game::ProcessEvent` (game/src/events/events.cpp:34), which is not part of this model.
- TypePatterns.DigitRunEnd: `\d` is read as the ASCII digits `0`-`9`. .NET's `\d` also matches other Unicode decimal digits, on which the later `int.Parse` throws; that path is not modelled.
- Pools.IntendedFitInsidePool: stated for a pool and a request that together stay below `2^63` bytes. A larger request wraps the gap subtraction even with the byte end, as `Pools.HugeRequestWraps` shows.
- Pools.Pool.Place: header offsets and `usage_` are unbounded naturals. The source's pointer arithmetic and `size_t` usage wrap at `2^64`, so after a wrapped gap (`Pools.HugeRequestWraps`) the source places the next header before the buffer, while the model keeps the offset past `2^64`.
- Jobs.Job.DecrementRef: requires a live reference. The count is a natural, so the 32-bit wrap of a decrement below zero is not modelled. `HeartJobRef` copies are modelled only as the `IncrementRef`/`DecrementRef` pairs they perform.
- Pools: item payloads and the `memset` fills of freed or fresh blocks are not modelled. Memory is a map from node offsets to node headers.
- MemoryTracker.MemoryTracker.Free: requires the given pool and period to equal the recorded ones, which the source only asserts.
- IntrusiveList: an element is identified with its link. The offset arithmetic of `PointerFromLink`, which turns a link back into its containing object, is not modelled.
- Compile-time metaprogramming with no runtime behaviour is not modelled: type traits, `invoke`, aligned storage, and the functor storage size checks, which become preconditions.
- The test sources are the origin of several properties but are not modelled themselves.

## Findings

| source | as written | input that shows it | evidently intended | confidence | as-written member | corrected member |
|---|---|---|---|---|---|---|
| heart/heart-stl/include/heart/stl/iterator.h:291-294 | `reverse_iterator::operator-` subtracts the underlying positions in forward order | a reverse iterator advanced by `n` minus the one it started from gives `-n` | the distance counted in the reverse direction, `n`, as `+= n` promises | not executed | Iterators.AdvancedDifference | Iterators.AdvancedDistance |
| game/heart-stl/include/heart/stl/iterator.h:161 | the older `reverse_iterator::operator-` has the same forward-order subtraction | a reverse iterator advanced by `n` minus the one it started from gives `-n` | the distance counted in the reverse direction, `n` | not executed | LegacyIterators.AdvancedDifference | LegacyIterators.AdvancedDistance |
| heart/heart-core/include/heart/function/embedded_function.h:100-113 | `Swap` of two holders in the same state goes through a temporary whose first `Swap` has the same states again (the same code is in `function.h` at lines 123-136) | two unset holders: the nested `tmp.Swap(other)` is again a swap of two unset holders, so it recurses without end; so does move-constructing from an unset holder and move-assigning between two unset ones (`Move` and `MoveAssign` of both holders, which are this swap); a holder swapped with itself ends in the same loop (`EmbeddedFunction.SelfSwapNeverReturns`) | swapping two unset holders leaves both unset | not executed | EmbeddedFunction.UnsetSwapNeverReturns | EmbeddedFunction.EmbeddedFunction.Swap |
| heart/heart-core/include/heart/hash/murmur.h:164 | tail bytes are folded in only when `sizeof(T) < 4` | two one-element arrays of a 6-byte type that differ only in the last byte hash equal under every seed | every byte past the last whole block is folded in, as in the reference MurmurHash3_x86_32 | not executed | Murmur.WideTailIgnored | Murmur.IntendedHashIsReference |
| heart/heart-core/src/io/io_cmd_list.cpp:33-40 | `BindIoFileDescriptor` writes the length byte and `size` pointer-sized units of the name; `GetSize()` is not declared in io_cmd_list.h, so its `uint8_t` result is inferred from the `m_size` member it reads | any descriptor: the encoder records `3 + 8 * size` bytes while the queue reads the 2-byte tag and a whole 128-byte descriptor (130 bytes in all), so the next command is read from the wrong place | the descriptor written whole, so the queue decodes exactly what was recorded (round trip in `IoCmdQueue.SubmittedCommandsReadBack`) | not executed | IoCmdQueue.DescriptorAsWrittenIsMisread | IoCmdList.CmdList.BindIoFileDescriptorWhole |
| heart/heart-core/src/io/io_cmd_queue.cpp:51-80 | `Submit` picks a free page but never marks it in use and never clears its `next` | two `Submit`s before the worker takes the first: both go to the same page, the second overwrites the first, and the page is linked to itself | each submission takes its own free page, marks it in use, and is appended once at the tail | not executed | IoPageQueue.SubmitTwiceAsWritten | IoPageQueue.CmdQueue.Submit |
| heart/heart-core/src/jobs/system.cpp:32 | the reserved cores are subtracted in `uint32_t` before the clamp | a machine with 2 cores: `2 - 4` wraps to a huge count and clamps to 16 threads | at least one thread, and never more than the cores left after the reserved ones | not executed | Jobs.TwoCoresGetSixteenThreads | Jobs.IntendedDefaultSettings |
| game/sfml-demo/src/memory/pools.cpp:145 | the pool end is `head_ + size_` on a `Node*`, so it is scaled by `sizeof(Node)` | a fresh 64-byte pool accepts a 256-byte request, placing the block and the next header past the buffer | the pool end is `size_` bytes past the pool start, so every handed-out block and header lies inside the pool | not executed | Pools.AsWrittenEndOverrunsPool | Pools.IntendedFitInsidePool |
| game/heart-debug/src/debug_stringify.cpp:48 | the names cursor advances by the number of bytes `Append` wrote, plus one | a 4-byte buffer and names `abcd`, `x`: nothing is appended, the cursor moves by one, and the second value is labelled `bcd` (assuming a `strcpy_s` invalid-parameter handler that returns; the CRT default ends the process) | the cursor steps over the whole name and its NUL, so the `k`-th value is labelled with the `k`-th argument | not executed | DebugStringify.TruncatedNameShiftsCursor | DebugStringify.IntendedCursorFollowsNames |
