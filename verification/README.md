# Verification of the dfinance Move tools

A Dafny model of the parts of this repository that transform programs and positions or keep
state over many steps, with proofs of what they promise. `dafny verify dfyconfig.toml` checks
the whole project.

**Bytecode adapter** (`lang/compat`): `Uleb128`, `Mutator`, `Adapter`, `TablePadding`,
`PoolPadding`, `AdapterProofs`. A binary with 16-byte addresses becomes one with 20-byte
addresses. The cursor walks the table header (ULEB128 is that of section 7.6 of DWARF Version
4), records edits, and the mutator splices them into the buffer. The main theorem is
`AdapterProofs.AdaptationIsCorrect`, about the method `AdapterProofs.Adapt`: reading the new
header gives the same tables in the same order, and each new offset and length delimits the old
table or its padded form, also when offsets and lengths get a byte longer.
`AdapterProofs.AdaptedTable` says what that form is, in terms of the loader's own token reader:
each 16-byte address, and each constant that the loader takes for an address, has four zero bytes
in front, and every other byte of a table is as it was.

**Stack-code decompiler** (`lang/disassembler/src/code`): `Bytecode`, `Exp`, `Translator`,
`Machine`, `BinderBlocks`, `Discipline`, `MeaningPreserved`, `UnpackMeaning`, `NestedBinders`,
`Trees`, `Recompile`, `Parentheses`. `Machine` defines a stack machine for the opcodes and a strict evaluator for the
recovered expressions; `Discipline.Disciplined` says that each operand an opcode takes is an
entry that produces a value, and that no `Pop` stands between two stores behind an unpack. The
main theorems are `UnpackMeaning.MeaningIsPreserved` (for every branch-free disciplined body,
running it and evaluating the translation do the same), `Trees.BodyIsRecovered` (translating the
code of trees gives the trees back, with exact source ranges), `Recompile.BodyIsRecompiled`
(compiling the translation gives the primitives of the code back, in order),
`Parentheses.BodyIsTidy` (whatever the code, parentheses stand exactly around the binary operands
of binary operations) and `NestedBinders.NestedUnpackIsPaired` (when unpacks inside of unpacks bind the right fields).

**Source rewriting and positions** (`lang/src/compiler`): `SourceMap`, `SenderPlaceholder`,
`LibraAddresses`, `LineEndings`, `Location`, `SourceText`. Each pass is an imperative loop over
the text that also records layers; a ghost trace says which boundary of the source each boundary
of the text was. `SourceText.PositionsAreExact` and `SourceText.DiagnosticsAreExact` say when the
layers lead back to it.

**Language server** (`language_server/src`): `EventLoop`, `EventLoopRuns`, `OpenFiles`. The loop, the worker
and their three queues as steps of a state machine, each step a method of `EventLoop.MainLoop`;
`EventLoopRuns.EveryRun`, `EventLoopRuns.EntriesAreRenewed`, `EventLoopRuns.QuietClient` and
`OpenFiles.OpenFileIsCurrent` hold of all interleavings.

**Dependency index** (`dove/src/index`): `DependencyIndex`, with the resolver as mutually
recursive methods that change the index, proved to compute the closure.

**Token modules** (`resources/assets/stdlib`): `Coins`, `TokenSupply`, with conservation over
all runs of transactions.

**Script pipeline** (`executor/src`): `Pipeline`, `DocComments`.

## What the proofs found

- `handle_const_pool` counts four bytes of growth per address constant. That is the growth of
  the pool if, and only if, the size fields keep their total length
  (`PoolPadding.PoolGrowthIsExact`); a pool with an address constant of 124 bytes breaks it
  (`PoolPadding.LongAddressIsMiscounted`).
- An unpack that is followed by stores and pops only pairs its fields with the right locals if,
  and only if, no `Pop` stands between two of its stores (`UnpackMeaning.FieldsArePaired`); with
  `StLoc; Pop; StLoc` the last field gets none (`NestedBinders.DropBetweenStoresFails`).
- An unpack whose fields are unpacked in turn is right if, and only if, no value is dropped
  between two that are not, and a field that is taken apart is the only one that is not dropped,
  is the last in the code unless it has no fields, and is itself right
  (`NestedBinders.NestedUnpackIsPaired`). So `Unpack; StLoc; Unpack; StLoc` goes wrong without any
  `Pop`: the inner unpack takes the store before it for its source
  (`NestedBinders.NestedUnpackFails`).
- The range of a recovered value is the interval of its opcodes if, and only if, it does not
  start with a leaf that is frozen at once (`Trees.RangeOfRecovered`), as in
  `MutBorrowLoc; FreezeRef` (`Trees.FrozenLeafIsShort`).
- The layers of CRLF pairs hold positions of the source, although they are applied to positions
  of the normalized text. A position is mapped back right if, and only if, no pair lies at or
  before it in the one text and behind it in the other (`LineEndings.PairLayersAreExact`); in
  `LineEndings.ThirdLineIsMisplaced` the first letter of the fourth line is taken for the line
  break before it.
- What the client sees may depend on the order of a hash set: a diagnostic of one file about
  another is cleared when the other is checked later (`EventLoopRuns.OrderMatters`). All orders
  of the files of a batch leave the same entry for a path if, and only if, all files of the batch
  that are the path or report on it leave the same entry by themselves
  (`EventLoopRuns.OrderMattersExactly`).
- The entry of a path is renewed only by a task of which some file is the path or reports on it
  (`EventLoopRuns.EntriesAreRenewed`). So a path that is neither open nor in a module folder any
  more keeps its old diagnostics exactly as long as no checked file reports on it
  (`EventLoopRuns.RemovedPathKeepsEntry`); `EventLoopRuns.RemovedFileIsNotCleared` is such a run.
- New settings forget the texts of open files: an open file has the text that the client sent
  last, unless the settings were replaced after that (`OpenFiles.OpenFileIsCurrent`); then it may
  be open and not in the database at all (`OpenFiles.SettingsForgetOpenFile`).
- `create_token` registers the info of the declared type, while a deposit reads that of the
  token type, so a token that was just created cannot be deposited
  (`TokenSupply.NewTokenIsStuck`) before the core address registers it as a coin
  (`TokenSupply.TokensCanBeDeposited`).
- The comments of `Shl` and `Shr` in `lang/disassembler/src/code/exp/operators.rs:87-90` are
  swapped; the model follows the code.

## Model

| member | source | states |
|---|---|---|
| Uleb128.DecodeEncode | lang/compat/src/lib.rs:99-109 | decoding the encoding of any number gives it back, whatever follows |
| Uleb128.EncodeIsShortest | lang/compat/src/lib.rs:99-109 | no bytes that decode to a number are fewer than its encoding |
| Uleb128.ReadBack | lang/compat/src/lib.rs:85-97 | a 32-bit number that was encoded is read back by the bounded reader with exactly its bytes used |
| Uleb128.ReadIsExact | lang/compat/src/lib.rs:85-97 | a number that was written is read back if and only if it fits in 64 bits |
| Mutator.SortIsStable | lang/compat/src/mutator.rs:20-24 | sorting the edits is ordered by start and keeps, for every start, the edits there in the order in which they were made |
| Mutator.ApplyDiff | lang/compat/src/mutator.rs:26-66 | one edit changes the in-place buffer as `Applied` says: a value past the end of the source is appended, any other replaces its shifted range |
| Mutator.ReachedNext | lang/compat/src/mutator.rs:26-66 | in a buffer that stands for the first edits, no shifted index of the next is negative or out of range, and applying it gives a buffer that stands for one more |
| Mutator.Mutator.MakeDiff | lang/compat/src/mutator.rs:13-18 | records one more edit and changes no other |
| Mutator.Mutator.Mutate | lang/compat/src/mutator.rs:20-67 | for edits that are disjoint after the stable sort, the buffer becomes the untouched gaps interleaved with the new values, and values past the end follow in order |
| Adapter.HandleAddressIdentifiers | lang/compat/src/lib.rs:111-121 | records four zero bytes in front of every 16-byte address, when the length is a multiple of 16, and returns their number |
| Adapter.LoadConstant | lang/compat/src/lib.rs:126-140 | reads one constant as the independent reader does; which bytes that reader takes for an address is in `PoolPadding.ReadableIsRead` |
| Adapter.HandleConstPool | lang/compat/src/lib.rs:123-154 | records the new size and the padding of each address constant and counts four bytes for each; what that does to the bytes is in `PoolPadding.PoolIsPadded` |
| Adapter.CalcHeaderSize | lang/compat/src/lib.rs:85-97 | the header ends where the given number of entries, read one after the other, ends; an unreadable entry is an error |
| Adapter.MakeUleb128Diff | lang/compat/src/lib.rs:99-109 | one edit puts the encoding of the new value in the place of the old field |
| Adapter.TableContext.constructor | lang/compat/src/context.rs:11-21 | the cursor moves to the table |
| Adapter.TableContext.Drop | lang/compat/src/context.rs:28-32 | the cursor moves back to where it was |
| Adapter.ScanEntry | lang/compat/src/lib.rs:44-80 | one header entry: its table's edits, its shifted offset, its grown length, the cursor behind the entry |
| Adapter.MakeDiff | lang/compat/src/lib.rs:32-83 | the whole scan records exactly the edits of the specification, or fails when that does, and a success leaves the cursor at the end of the header |
| Adapter.ScanEntries | lang/compat/src/lib.rs:44-80 | the loop over the header entries does so from any entry on, and its cursor ends behind the last of them |
| Adapter.EntriesAreChained | lang/compat/src/lib.rs:38-46 | each entry of a header starts where the one before ends |
| TablePadding.PatchConcat | lang/compat/src/mutator.rs:26-66 | edits of adjacent stretches patch each stretch on its own |
| TablePadding.PatchIsSplice | lang/compat/src/mutator.rs:20-67 | edits in order are disjoint and splice to the patched bytes |
| TablePadding.AddressPatch | lang/compat/src/lib.rs:111-121 | the edits of an address table patch it to the padded table |
| TablePadding.PaddingKeepsValue | lang/compat/src/lib.rs:114-119 | an address with zeros in front has the same big-endian value |
| TablePadding.PaddedAddress | lang/compat/src/lib.rs:111-121 | bytes 20i to 20i+20 of the padded table are four zero bytes and bytes 16i to 16i+16 of the old one |
| TablePadding.PaddedLength | lang/compat/src/lib.rs:111-121 | the table grows by four bytes per address |
| PoolPadding.ConstantInside | lang/compat/src/lib.rs:126-140 | a constant is read alike wherever its bytes stand |
| PoolPadding.OneByteTokensAreLocal | lang/compat/src/lib.rs:126-140 | a reader of one-byte tokens reads locally, as the results on pools assume |
| PoolPadding.ReadableIsRead | lang/compat/src/lib.rs:126-140 | the adapter reads a constant if and only if the loader finds its token in front and the size field behind holds the size of the data |
| PoolPadding.ParseIsExact | lang/compat/src/lib.rs:123-154 | parsing a pool loses no byte |
| PoolPadding.PrintIsParsed | lang/compat/src/lib.rs:123-154 | printed constants are parsed back |
| PoolPadding.PaddedPoolIsParsed | lang/compat/src/lib.rs:123-154 | a padded pool is read back constant by constant: each constant that the loader takes for an address has four zero bytes in front of its data, every other is as it was |
| PoolPadding.PoolIsScanned | lang/compat/src/lib.rs:123-154 | the scan finds each constant and counts four bytes per address |
| PoolPadding.PoolPatch | lang/compat/src/lib.rs:123-154 | the recorded edits turn the pool into the padded pool |
| PoolPadding.PoolIsPadded | lang/compat/src/lib.rs:123-154 | wherever constants stand that the loader reads, the scan succeeds and its edits put four zero bytes in front of exactly those that the loader takes for addresses |
| PoolPadding.PaddedPoolLength | lang/compat/src/lib.rs:123-154 | the pool grows by four bytes per address and the drift of the size fields |
| PoolPadding.PoolGrowthIsExact | lang/compat/src/lib.rs:123-154 | for the bytes of any readable constants, the scan succeeds and the counted growth is right if and only if the drift is zero |
| PoolPadding.ShortSizesDoNotDrift | lang/compat/src/lib.rs:123-154 | addresses of at most 123 bytes do not drift |
| PoolPadding.LongAddressDrifts | lang/compat/src/lib.rs:142-150 | an address constant of 124 bytes with a size field of one byte grows by five bytes |
| PoolPadding.LongAddressIsMiscounted | lang/compat/src/lib.rs:123-154 | a pool of such a constant, read by the scan: four bytes are counted, and the recorded edits lengthen it by five |
| AdapterProofs.TablePatch | lang/compat/src/lib.rs:50-58 | the edits of any table patch it to its padded form, and the growth is counted right |
| AdapterProofs.SortEntry | lang/compat/src/mutator.rs:20-24 | the stable sort moves the edits of the header before those of the tables |
| AdapterProofs.ScanIsSorted | lang/compat/src/lib.rs:38-80 | the scan succeeds, and its sorted edits are those of the header and then those of the tables, all in order |
| AdapterProofs.HeaderEditsWithin | lang/compat/src/lib.rs:60-78 | the edits of the header lie inside of it and are pairwise disjoint |
| AdapterProofs.HeaderIsRead | lang/compat/src/lib.rs:38-80 | the patched header is read back with the same kinds, shifted offsets and grown lengths |
| AdapterProofs.BodyIsPadded | lang/compat/src/lib.rs:44-80 | the patched body holds each table, padded, at its new offset |
| AdapterProofs.PartsAreAdapted | lang/compat/src/lib.rs:22-83 | what stands before the header, the patched header and the patched body make up the adapted binary |
| AdapterProofs.AdaptationIsCorrect | lang/compat/src/lib.rs:22-83 | for every well-formed binary the scan succeeds, its sorted edits are disjoint, and the result has the same tables in the same order, each delimited by its new offset and length and holding the old or the padded content |
| AdapterProofs.AdaptedTable | lang/compat/src/lib.rs:22-83 | table by table of an adapted binary: 16-byte addresses and constants that the loader takes for addresses have four zero bytes in front, all else is as it was |
| AdapterProofs.PrintedHeaderIsRead | lang/compat/src/lib.rs:32-83 | a header written as kind, offset and length per table is read back as these |
| AdapterProofs.PrintedIsWellFormed | lang/compat/src/lib.rs:22-83 | a binary whose header was written, whose tables lie in order, and whose pools hold readable constants with short sizes is well-formed, so the adapter succeeds on it |
| AdapterProofs.Adapt | lang/compat/src/lib.rs:22-30 | the buffer becomes the adapted binary, with every table padded as `AdaptedTable` says; after a failed scan it is untouched |
| Translator.BytecodeIterator.Next | lang/disassembler/src/code/iter.rs:51-63 | the index lags one behind the number of opcodes that were read, and counts calls past the end |
| Translator.Translator.PopExp | lang/disassembler/src/code/translator.rs:291-295 | the last entry, or a placeholder from an empty list |
| Translator.Translator.Pop2Exp | lang/disassembler/src/code/translator.rs:301-305 | the last two entries in list order |
| Translator.Translator.PopExpVec | lang/disassembler/src/code/translator.rs:307-321 | the last entries in list order, padded when there are too few |
| Translator.Translator.PopReturned | lang/disassembler/src/code/exp/ret.rs:19-26 | popping one by one and reversing gives the last entries in list order |
| Translator.Translator.LetExpression | lang/disassembler/src/code/exp/lt.rs:17-33 | an assignment takes the last entry unless that is itself an assignment |
| Translator.Translator.TranslateBlock | lang/disassembler/src/code/translator.rs:365-377 | a nested translator works on the shared iterator up to its own end |
| Translator.Translator.UnpackExpression | lang/disassembler/src/code/exp/unpack.rs:29-79 | the next block names the fields, in reverse, padded with placeholders; the source is popped after it |
| Translator.Translator.NextExp | lang/disassembler/src/code/translator.rs:140-248 | each opcode makes the expression of the specification, on any list |
| Translator.Translator.Translate | lang/disassembler/src/code/translator.rs:124-138 | the loop, with its recursion through unpack, terminates and computes the translation |
| Translator.TranslateBody | lang/disassembler/src/code/translator.rs:124-138 | the list of a whole body is its translation |
| Translator.TranslationBound | lang/disassembler/src/code/exp/unpack.rs:43-66 | a block never gives more entries than the unpack has fields |
| Discipline.OpcodeBuilds | lang/disassembler/src/code/translator.rs:140-248 | on a list that ends in values, every opcode makes one expression that performs its primitive on exactly the last entries in order |
| Discipline.MissingIsError | lang/disassembler/src/code/translator.rs:140-248 | what indices do not lead to becomes an error expression with the opcode and leaves the list alone |
| Discipline.FewEntries | lang/disassembler/src/code/translator.rs:307-321 | from a list that is too short all entries are taken, with placeholders behind them, or before them for a return |
| Discipline.StructureBuilds | lang/disassembler/src/code/translator.rs:175-248 | the same for calls, returns, stores, writes and field references |
| Discipline.StorageBuilds | lang/disassembler/src/code/exp/function.rs:66-95 | the same for the functions on global storage, with the right number of parameters |
| Discipline.PackBuilds | lang/disassembler/src/code/exp/pack.rs:50-75 | the same for structs, each field with its own value |
| Discipline.PackFieldNames | lang/disassembler/src/code/exp/pack.rs:50-75 | field i of a recovered pack has the i-th declared name and the value pushed for it |
| Discipline.UnpackFieldNames | lang/disassembler/src/code/exp/unpack.rs:29-79 | field i of a recovered unpack has the i-th declared name |
| Discipline.LetBuilds | lang/disassembler/src/code/exp/lt.rs:17-33 | the last-entry rule never strikes on a value |
| Discipline.RetBuilds | lang/disassembler/src/code/exp/ret.rs:19-26 | a return takes its values in order |
| Discipline.BinaryBuilds | lang/disassembler/src/code/exp/operators.rs:20-35 | the operands of a binary operation are in order, in parentheses exactly when they are binary operations |
| BinderBlocks.BlockIsConsumed | lang/disassembler/src/code/exp/unpack.rs:43-66 | the nested translator reads exactly as many stores and pops as the unpack has fields |
| BinderBlocks.PlacesAreRight | lang/disassembler/src/code/exp/unpack.rs:43-66 | a block of stores and pops names the locals at the right places if and only if no `Pop` stands between two stores |
| UnpackMeaning.FieldsArePaired | lang/disassembler/src/code/exp/unpack.rs:43-79 | for a block of stores and pops, each field is paired with the local that its value is stored in if and only if no `Pop` stands between two stores |
| NestedBinders.NestedUnpackIsPaired | lang/disassembler/src/code/exp/unpack.rs:29-79 | for any nesting of unpacks, stores and pops behind an unpack, the recovered fields show what is done with each value if and only if the nesting is right, and then the unpack reads exactly its code |
| NestedBinders.BlockIsDecided | lang/disassembler/src/code/exp/unpack.rs:43-66 | the same for one block, also when it is wrong at any depth |
| NestedBinders.FlatIsRight | lang/disassembler/src/code/exp/unpack.rs:43-66 | without inner unpacks that condition is the one on stores and pops |
| NestedBinders.NestedUnpackFails | lang/disassembler/src/code/exp/unpack.rs:43-79 | a struct field taken apart behind the store of another: the exact wrong expression |
| NestedBinders.DropBetweenStoresFails | lang/disassembler/src/code/exp/unpack.rs:43-79 | a drop between two stores: the exact wrong expression |
| UnpackMeaning.UnpackTranslates | lang/disassembler/src/code/exp/unpack.rs:29-79 | an unpack and its binders become one entry over the last one, with every field in its place |
| MeaningPreserved.WrappedEval | lang/disassembler/src/code/exp/operators.rs:22-28 | parentheses do not change what is evaluated |
| MeaningPreserved.NodeEval | lang/disassembler/src/code/translator.rs:124-138 | an entry in the place of its operands performs its primitive on the values of the list, as the machine does on its stack |
| MeaningPreserved.PlainStep | lang/disassembler/src/code/translator.rs:124-248 | one opcode keeps the agreement between list and machine |
| UnpackMeaning.Simulation | lang/disassembler/src/code/translator.rs:124-248 | from any point of disciplined code, translating and evaluating the rest agrees with running it |
| UnpackMeaning.MeaningIsPreserved | lang/disassembler/src/code/translator.rs:124-248 | for every disciplined branch-free body, every meaning of the primitives and every state, running and evaluating end in the same state with the same abort code or returned values |
| Trees.EndpointsCons | lang/disassembler/src/code/exp/mod.rs:293-308 | the range of several ranges is the hull of the first and the range of the rest |
| Trees.OperandRanges | lang/disassembler/src/code/exp/mod.rs:195-225 | the source range of an expression is the hull of the ranges of its operands |
| Trees.UnpackRange | lang/disassembler/src/code/exp/unpack.rs:81-85 | the source range of an unpack is that of its fields alone |
| Trees.RangeOfRecovered | lang/disassembler/src/code/exp/mod.rs:66-80 | the range of a recovered entry is the interval of its opcodes if and only if its first leaf is not frozen at once |
| Trees.FrozenLeafIsShort | lang/disassembler/src/code/translator.rs:238-239 | a mutable borrow that is frozen at once has the range of the freeze alone |
| Trees.TreeIsRecovered | lang/disassembler/src/code/translator.rs:291-321 | from any list, the code of a tree appends exactly one entry and leaves those before it alone; the entry is the tree without its freezes, an operand of a binary node in parentheses if and only if it is binary |
| Trees.TreesAreRecovered | lang/disassembler/src/code/translator.rs:124-138 | a list of trees becomes one entry per tree |
| Trees.BodyIsRecovered | lang/disassembler/src/code/translator.rs:124-138 | a body of statement trees is translated to its trees |
| Trees.BodyIsDisciplined | lang/disassembler/src/code/translator.rs:124-248 | code of trees obeys the discipline, so that its meaning is preserved |
| Parentheses.BodyIsTidy | lang/disassembler/src/code/exp/operators.rs:19-35 | for every code, at every depth of the recovered body: parentheses stand only as an operand of a binary operation and only around one, and no other operand of one is one |
| Recompile.RestIsRecompiled | lang/disassembler/src/code/translator.rs:124-248 | from any point, the list compiles to what it did before and then the primitives of the opcodes that follow |
| Recompile.BodyIsRecompiled | lang/disassembler/src/code/translator.rs:124-248 | the post-order code of the translation is the sequence of primitives of the body without `Pop`, `Nop` and `FreezeRef`; a plain and a generic opcode of one instance are one primitive |
| SourceMap.FileOffsetMap.InsertAddressLayer | lang/src/compiler/source_map.rs:37-46 | one layer and one replacement more |
| SourceMap.FileOffsetMap.TranslatePos | lang/src/compiler/source_map.rs:66-72 | the layers are undone, the last first |
| SourceMap.FileOffsetMap.TranslateSpan | lang/src/compiler/source_map.rs:59-64 | both ends are mapped and cut to 32 bits |
| SourceMap.TranslateEdit | lang/src/compiler/source_map.rs:16-24 | a layer maps every boundary outside of the replaced text to the boundary it was |
| SourceMap.EditKeepsExact | lang/src/compiler/source_map.rs:66-72 | one more rewrite keeps the map exact, also when it overlaps an earlier one |
| SourceMap.EditsKeepExact | lang/src/compiler/source_map.rs:66-72 | so does any number of rewrites |
| SenderPlaceholder.Find | lang/src/compiler/parser.rs:137 | the leftmost occurrence, or none |
| SenderPlaceholder.OccurrencesAfter | lang/src/compiler/parser.rs:136-141 | a replacement makes no new template |
| SenderPlaceholder.LeftmostFirst | lang/src/compiler/parser.rs:136-141 | replacing the leftmost template keeps the result of the single pass |
| SenderPlaceholder.FewerBraces | lang/src/compiler/parser.rs:136-141 | each round lowers the number of braces |
| SenderPlaceholder.ReplaceTemplate | lang/src/compiler/parser.rs:136-141 | the loop over one template terminates with the result of a single pass, records each rewrite, and leaves no such template |
| SenderPlaceholder.ReplaceSenderPlaceholder | lang/src/compiler/parser.rs:125-143 | `{{sender}}` and then `{{ sender }}` are replaced in single passes and neither is left |
| LibraAddresses.FindLiteral | lang/src/compiler/dialects/libra/addresses.rs:8-15 | the leftmost literal of 1 to 32 digits that a character follows, or none |
| LibraAddresses.LiteralIsMatch | lang/src/compiler/dialects/libra/addresses.rs:8 | it finds exactly the matches of the pattern, written out: `0x`, 1 to 32 of the digits `0123456789abcdef`, another character |
| LibraAddresses.ReplacementKeepsValue | lang/src/compiler/dialects/libra/addresses.rs:17-19 | the padded address has 40 digits and the value of the literal |
| LibraAddresses.LeftmostWidened | lang/src/compiler/dialects/libra/addresses.rs:14-27 | each round keeps the expansion of the text and lowers the number of literals, overlapping ones counted, by one |
| LibraAddresses.ReplaceLibraAddress | lang/src/compiler/dialects/libra/addresses.rs:11-29 | the loop terminates with the text in which `40 - n` zeros stand behind the `0x` of each match of `n` digits and nothing else is changed; no match is left; each rewrite is recorded |
| LibraAddresses.ExpandedIsFinal | lang/src/compiler/dialects/libra/addresses.rs:11-29 | no literal is left, and the pass is idempotent |
| LibraAddresses.PassIsExact | lang/src/compiler/dialects/libra/addresses.rs:11-29 | the pass puts these zeros, position by position, changes nothing else, and leaves no match |
| LineEndings.StepRefines | lang/src/compiler/dialects/line_endings.rs:20-50 | each step emits the head of the normalized text and records the pairs in order |
| LineEndings.NewNormalized.Next | lang/src/compiler/dialects/line_endings.rs:20-50 | the iterator with one flag does such a step |
| LineEndings.Normalize | lang/src/compiler/dialects/line_endings.rs:52-62 | each CRLF and each lone CR becomes one LF, and the layers are at the CRs of the pairs |
| LineEndings.NormalLength | lang/src/compiler/dialects/line_endings.rs:52-62 | output and layers together are as many as the characters of the source |
| LineEndings.KeptCharacters | lang/src/compiler/dialects/line_endings.rs:20-50 | each emitted character is the one kept of the source, a CR turned into an LF |
| LineEndings.UndoPairs | lang/src/compiler/source_map.rs:66-72 | the layers add one per pair that is at most the position |
| LineEndings.KeptPosition | lang/src/compiler/dialects/line_endings.rs:20-50 | the true position counts the pairs in the coordinates of the normalized text |
| LineEndings.PairLayersAreExact | lang/src/compiler/dialects/line_endings.rs:27-29 | a position is mapped back right if and only if no pair lies at or before it in the normalized text and behind it in the source; otherwise too far to the front |
| LineEndings.ThirdLineIsMisplaced | lang/src/compiler/dialects/line_endings.rs:27-29 | a text where that happens |
| Location.BinarySearch | lang/src/compiler/location.rs:80-86 | the index of the element, or where it would be inserted |
| Location.PositionIsRight | lang/src/compiler/location.rs:31-61 | line and column are the number of line breaks before and the distance from the last; there is no position past the end |
| Location.PositionsIncrease | lang/src/compiler/location.rs:31-61 | positions are strictly increasing |
| Location.PositionIsInvertible | lang/src/compiler/location.rs:63-74 | the start of the line and the column add up to the position |
| SourceText.NormalizeSourceText | lang/src/compiler/parser.rs:107-122 | all passes in turn: the text is the expansion of the sender replacement of the normalized source, and the layers are those of the traced rewrites |
| SourceText.PositionsGoBack | lang/src/compiler/source_map.rs:66-72 | every boundary outside of replaced text goes back to where the line-ending layers map its origin; untouched characters are those of the source; end goes to end |
| SourceText.PositionsAreExact | lang/src/compiler/source_map.rs:66-72 | and that is right if and only if no CRLF pair is misplaced there |
| SourceText.ReportedRange | language_server/src/inner/db.rs:108-124 | the range of a span, or the error for a file that is missing from the database or a position past the end of its text |
| SourceText.DiagnosticsAreExact | lang/src/compiler/location.rs:31-61 | without CRLF, a position outside of replaced text is reported at the line and column of its origin in the source |
| EventLoop.GlobalState.UpdateFromEvents | language_server/src/global_state.rs:35-58 | the files are the fold of the events over the files before; what the fold is, is in `OpenFiles.LastEventDecides` |
| EventLoop.GlobalState.ApplyChange | language_server/src/inner/db.rs:86-106 | new settings replace the old ones, and the file changes are applied in order |
| EventLoop.ComputeFileDiagnostics | language_server/src/main_loop.rs:361-390 | the batch clears each file and then sets what its check found |
| EventLoop.MainLoop.OnNotification | language_server/src/main_loop.rs:271-359 | the new state for every kind of notification, errors included |
| EventLoop.MainLoop.OnWatchedFiles | language_server/src/main_loop.rs:342-353 | removals go out up to the first invalid URI, and then the loop fails |
| EventLoop.MainLoop.OnMessage | language_server/src/main_loop.rs:180-208 | only the response to the pending request replaces the settings |
| EventLoop.MainLoop.OnFileSystem | language_server/src/main_loop.rs:170-227 | the first event is taken, the database updated and a task queued for the open and the module files |
| EventLoop.MainLoop.OnTask | language_server/src/main_loop.rs:241-269 | the first response is published entry by entry |
| EventLoop.MainLoop.Work | language_server/src/main_loop.rs:212-227 | the worker does the first task |
| EventLoopRuns.StepKeepsFiles | language_server/src/main_loop.rs:158-228 | every step keeps: events sent are those handled followed by those queued, and the files are the fold since the last reset |
| EventLoopRuns.StepKeepsBatches | language_server/src/main_loop.rs:158-228 | every step keeps: batches are computed and published in the order of their tasks, each once |
| EventLoopRuns.StepKeepsLastTask | language_server/src/main_loop.rs:212-227 | every step keeps: the last task looks at the current database and covers every open file without a waiting event |
| EventLoopRuns.StepKeepsViews | language_server/src/main_loop.rs:241-269 | every step keeps: the client sees what was delivered last |
| EventLoopRuns.StepKeepsRequests | language_server/src/main_loop.rs:317-341 | every step keeps: requests are numbered in order, and accepted numbers increase and belong to the latest request |
| EventLoopRuns.EveryRun | language_server/src/main_loop.rs:100-135 | all of these hold in every run |
| OpenFiles.LastEventDecides | language_server/src/inner/db.rs:90-105 | after any events a path is there if and only if the last event on it is no removal, and then with the text of that event; a path without an event is as before |
| OpenFiles.OpenFileIsCurrent | language_server/src/main_loop.rs:271-359 | in every run, once no event waits, an open file has the text that the client opened it with or the last change that it sent, whichever came last, unless the settings were replaced after that |
| OpenFiles.SettingsForgetOpenFile | language_server/src/main_loop.rs:186-204 | a run in which new settings leave an open file out of the database |
| OpenFiles.OpenFilesExactly | language_server/src/main_loop.rs:271-359 | in every run a file is open if and only if the last step about it opened or changed it |
| OpenFiles.SettingsAreCurrent | language_server/src/main_loop.rs:186-204 | in every run the settings are those accepted last, and the files are those found with them and the events handled since |
| EventLoopRuns.BatchMentions | language_server/src/main_loop.rs:361-390 | a batch mentions a path if and only if some file of it is the path or reports on it |
| EventLoopRuns.EntriesAreRenewed | language_server/src/main_loop.rs:158-228 | in every run the view of a path is that of the last delivered batch of a task that concerns it, and there is no entry if none does |
| EventLoopRuns.QuietClient | language_server/src/main_loop.rs:158-228 | in a quiet run the view of any path is that of the last batch, computed from the current database, if it mentions the path, and the view before it otherwise |
| EventLoopRuns.QuietClientIsCurrent | language_server/src/main_loop.rs:158-228 | in a quiet run (empty queues, no reset since the last task) the client sees for every path that the last batch mentions the last entry computed from the current database |
| EventLoopRuns.QuietBatchCovers | language_server/src/main_loop.rs:212-227 | the last batch covers all open files and all files of the database whose path starts with a module folder, and mentions all that it covers |
| EventLoopRuns.QuietClientSeesOwnReports | language_server/src/main_loop.rs:361-390 | in a quiet run in which files are reported on by their own check only, the client sees for each file of the last batch what its check finds now |
| EventLoopRuns.LastReportWins | language_server/src/main_loop.rs:361-390 | a batch leaves for a path what the last file leaves that is it or reports on it |
| EventLoopRuns.OwnReports | language_server/src/main_loop.rs:361-390 | when each file is reported on by its own check only, the batch leaves for each its own result |
| EventLoopRuns.OrderMattersExactly | language_server/src/main_loop.rs:217-223 | every order of a set of files leaves the same view of a path if and only if all of its files that concern the path leave the same view |
| EventLoopRuns.OrderMatters | language_server/src/main_loop.rs:217-223 | two files and two orders of them that leave different diagnostics |
| EventLoopRuns.RemovedPathKeepsEntry | language_server/src/main_loop.rs:342-353 | in a quiet run a path that is neither open nor a module file keeps the entry from before the last task if and only if no checked file reports on it |
| EventLoopRuns.RemovedFileIsNotCleared | language_server/src/main_loop.rs:342-353 | a run in which a removed file keeps its old diagnostics |
| DependencyIndex.Index.StoreMeta | dove/src/index/mod.rs:260-281 | each unit is stored under its module and source, other entries are kept |
| DependencyIndex.FilesAreStored | dove/src/index/mod.rs:260-281 | the entry of a module under the source is made of the last unit that defines it, with the path of its file; all other entries stay |
| DependencyIndex.FirstIsTaken | dove/src/index/mod.rs:198-206 | a lookup gives the entry of the lowest rank, local before git before chain, and nothing when there is none |
| DependencyIndex.FirstEntriesDecide | dove/src/index/mod.rs:149-206 | entries behind the first one change neither the success of a resolution nor the paths that it adds |
| DependencyIndex.StoringGrows | dove/src/index/mod.rs:260-281 | storing a fetched module adds its chain entry and changes no other module |
| DependencyIndex.GrowthKeepsLookup | dove/src/index/mod.rs:198-206 | growth of the index does not change where any module is found |
| DependencyIndex.ReachesFurther | dove/src/index/mod.rs:149-196 | a module reaches itself and what its imports reach |
| DependencyIndex.OneModulePerFile | dove/src/index/mod.rs:172-184 | a chain that answers with one module per file is as the results on resolutions assume |
| DependencyIndex.ClosureComposes | dove/src/index/mod.rs:172-193 | resolving some imports and then others resolves all |
| DependencyIndex.ChainCloses | dove/src/index/mod.rs:173-192 | fetching, resolving the imports, storing and resolving again is one resolution |
| DependencyIndex.Index.Resolve | dove/src/index/mod.rs:154-170 | an indexed module adds its path and those of all it reaches |
| DependencyIndex.Index.ResolveImports | dove/src/index/mod.rs:149-196 | when the modules that the imports reach have no cycle, it terminates, succeeds if and only if all that is reached is found, adds exactly the paths of reached modules, indexes them, and leaves all other entries alone |
| Coins.Ledger.Withdraw | resources/assets/stdlib/dfinance.move:54-58 | splits off the amount, or aborts when there is too little |
| Coins.Ledger.Split | resources/assets/stdlib/dfinance.move:39-42 | the coin given keeps the rest, a new coin holds the amount |
| Coins.Ledger.Join | resources/assets/stdlib/dfinance.move:44-47 | the first coin holds both values, the second is gone |
| Coins.Ledger.Deposit | resources/assets/stdlib/dfinance.move:49-52 | adds the value of the destroyed coin, or aborts beyond 128 bits |
| Coins.Ledger.DestroyZero | resources/assets/stdlib/dfinance.move:60-63 | only an empty coin is destroyed |
| Coins.Ledger.RegisterCoin | resources/assets/stdlib/dfinance.move:99-115 | only the core address, and once per type |
| Coins.Ledger.CreateToken | resources/assets/stdlib/dfinance.move:137-172 | once per type with at most 18 decimals; the coin holds the whole supply |
| Coins.Ledger.Accept | resources/assets/stdlib/account.move:38-40 | an empty balance, once |
| Coins.Ledger.DepositWithMetadata | resources/assets/stdlib/account.move:121-166 | the payee's balance grows by the coin, created when missing, or the abort of the first check that fails |
| Coins.Ledger.WithdrawFromSender | resources/assets/stdlib/account.move:168-179 | the balance shrinks by the new coin |
| Coins.Ledger.PayFromSender | resources/assets/stdlib/account.move:106-119 | a withdrawal and a deposit |
| TokenSupply.CallKeepsTotals | resources/assets/stdlib/dfinance.move:31-63 | every operation keeps the total of every coin type, but for the creation of its token |
| TokenSupply.CallConserves | resources/assets/stdlib/dfinance.move:137-172 | every operation keeps: the total of each token is its registered supply |
| TokenSupply.TokensAreConserved | resources/assets/stdlib/dfinance.move:137-172 | so in every reachable state, between and inside of transactions |
| TokenSupply.GenesisIsConserved | resources/assets/stdlib/dfinance.move:137-172 | it holds before any token is created |
| TokenSupply.SplitIsExact | resources/assets/stdlib/dfinance.move:54-58 | the coin keeps the rest and a new one of its type holds the amount, no other coin changes; it aborts exactly when there is too little |
| TokenSupply.JoinIsExact | resources/assets/stdlib/dfinance.move:49-52 | the first coin holds the sum and the second is gone, no other coin changes; it aborts exactly beyond 128 bits |
| TokenSupply.SplitThenJoin | resources/assets/stdlib/dfinance.move:39-47 | joining the parts of a split gives back what there was |
| TokenSupply.AbortsExactly | resources/assets/stdlib/account.move:121-179 | when and why the other operations abort, in the order of their checks |
| TokenSupply.InfosHaveOrigin | resources/assets/stdlib/dfinance.move:99-172 | in every reachable state each info was made by a call of a transaction that did not abort and is as that call made it: by address 0x1 if it is no token, with at most 18 decimals if it is one |
| TokenSupply.TokensCanBeJoined | resources/assets/stdlib/dfinance.move:49-52 | adding two coins of a token never overflows |
| TokenSupply.TokensCanBeDeposited | resources/assets/stdlib/account.move:121-166 | a token coin can be deposited if and only if it is not empty and its token type is registered; the balance never overflows |
| TokenSupply.NewTokenIsStuck | resources/assets/stdlib/account.move:130-131 | a token that was just created cannot be deposited |
| TokenSupply.PaymentMoves | resources/assets/stdlib/account.move:106-119 | a payment moves the amount between the two balances, to oneself it changes no balance; the payee gets an account and a balance if there was none, no other is created, and held coins and registered infos stay |
| TokenSupply.TokensCanBePaid | resources/assets/stdlib/account.move:106-119 | a token payment succeeds if and only if the amount is there, not zero, and the type registered |
| Pipeline.FakeRemoteCache.MergeEffects | executor/src/execution.rs:96-104 | effects are written and removed in order |
| Pipeline.LastEffectDecides | executor/src/execution.rs:96-104 | after a merge the last effect on a key decides, a key without one is as before |
| Pipeline.InjectedAtKey | executor/src/execution.rs:171-208 | what the copy holds at each key: balance, price, block height (100 by default), time, or what the store holds |
| Pipeline.StepIsDecided | executor/src/execution.rs:163-272 | an abort is expected if and only if its code is the announced one, a failure if and only if its status is; only a success that is no dry run has effects |
| Pipeline.ExecuteScript | executor/src/execution.rs:163-272 | the script runs on a copy with the injected values; only a success that is no dry run changes the store; aborts are compared with the expected code |
| Pipeline.Execute | executor/src/session.rs:41-78 | scripts run in order, the arguments go to the first, and the first error ends the run |
| Pipeline.RunIsFold | executor/src/session.rs:41-78 | the results are those of each script on the store that the ones before left, up to the first error, and the store is that fold |
| Pipeline.NothingLeaks | executor/src/execution.rs:171-208 | a key changes only if a successful script that is no dry run has an effect on it |
| Pipeline.DryRunIsInvisible | executor/src/execution.rs:218-220 | a dry run that is not first and no error can be left out: all other results and the store are the same |
| DocComments.OneAnswer | executor/src/session.rs:101-130 | the comments right above a script are determined: there is only one answer |
| DocComments.TrimIsExact | executor/src/session.rs:119 | trimming cuts off white space at both ends, all of it and nothing else |
| DocComments.ExtractScriptDocComments | executor/src/session.rs:101-130 | the scan gives, in file order, the last comment of each line of the longest run of commented lines right above the script |

## Left out

- Branch opcodes and the reconstruction of loops and conditions (`lang/disassembler/src/code/exp/branching`): the discipline and the theorems are about branch-free code.
- Trees.TreeIsRecovered: trees have no unpack; bodies with unpack are covered by `UnpackMeaning.MeaningIsPreserved` and `Recompile.BodyIsRecompiled`.
- UnpackMeaning.MeaningIsPreserved: calls with more than one result are outside of the discipline, because the list has one entry for all results.
- UnpackMeaning.MeaningIsPreserved: unpacks of fields right behind their unpack are outside of the discipline; an expression with a field that is itself an unpack of a placeholder has no evaluation of its own. What such an expression shows is `NestedBinders.NestedUnpackIsPaired`.
- BinderBlocks.BlockIsConsumed: blocks of stores and pops, as in the discipline.
- BinderBlocks.PlacesAreRight: blocks of stores and pops; those with inner unpacks are in `NestedBinders.NestedUnpackIsPaired`.
- UnpackMeaning.FieldsArePaired: the same.
- Recompile.BodyIsRecompiled: primitives are compared, which do not tell a generic opcode from a plain one that names the same instance.
- UnpackMeaning.MeaningIsPreserved: with a `Pop`, the values that were dropped stay in the evaluated list, so only the values still to be consumed are claimed to agree at the end of code that does not return.
- The evaluator is strict: printed `&&` and `||` short-circuit in Move source, while the opcodes they come from do not.
- Printing of expressions, import aliases, names of generics, and the marks of used locals.
- Panics of the binary views for indices of functions and constants out of range; definitions and fields that are missing become errors as in the code.
- AdapterProofs.AdaptationIsCorrect: entries are in increasing, disjoint offset order, pools hold whole constants without drift, and sums fit in 32 bits, which is the input the adapter is for.
- Adapter.MakeDiff: buffers of 4 GiB or more, whose offsets do not fit in 32 bits.
- AdapterProofs.Adapt: the same.
- The preamble check and the token reader of the binary format library: where the header starts and how a signature token is read are parameters; a token is non-empty and read from its own bytes.
- Target addresses of 16 or 32 bytes: the padding in the code is fixed at four bytes.
- The bech32 and ss58 passes and the rewriting of error messages.
- Texts are ASCII where characters and bytes are counted: the column counts characters, layers count bytes, and the line-ending layers count characters.
- SourceText.DiagnosticsAreExact: sources of 4 GiB or more, whose positions are cut to 32 bits.
- SenderPlaceholder.ReplaceTemplate: addresses with braces, on which the loop need not end.
- SenderPlaceholder.ReplaceSenderPlaceholder: the same.
- The regular expression engine and the parser of address literals: the model has an explicit matcher, and an address is shown with 32 lower-case digits.
- Start-up of the language server, shutdown requests, logging, the overflow of request numbers, and panics on paths that are no URL.
- Files read from disk when the settings change or the standard library is loaded: they come with the settings as a list, and a check is a function of the database, the path and the text.
- The order of a hash set is left open: every enumeration of the files is allowed.
- DependencyIndex.Index.Resolve: when the imports reach a cycle the code does not end, since it keeps no set of visited modules.
- DependencyIndex.Index.ResolveImports: the same; cycles that the imports do not reach do no harm. A fetched file defines just the module that was asked for.
- Building the index from directories, reading metadata from source files, manifests, git and the network.
- DocComments.TrimIsExact: white space is that of ASCII.
- Events of payments, and the oracle, block, time and vector modules.
- The virtual machine, gas, the explanation of effects, and the parsing of doc comments into settings; effects come as a list of written and removed keys.
