# Recursion-free CBOR and native-script machinery, verified

The repository reads CBOR documents of any depth without recursion: every walk
that a textbook would write recursively is a loop over an explicit stack, a
worklist, a flat pre-order array or a stack of suspended tasks, because deep
recursion traps the wasm instance. This project models those loops as imperative
Dafny over their own state, gives each one the obvious recursive definition as its
specification, proves that the two agree on every input, and then proves what the
recursive definitions promise.

How the files fit together:

- `Wire.dfy`, `WellFormed.dfy`, `Utf8.dfy`, `Utf8Scalars.dfy`: headers, well-formed
  items (section 3 and Appendix C of RFC 8949) and UTF-8, shared by everything below.
- `Decoder.dfy` (the recursive decoder), `DecoderMachine.dfy` (the stack of open
  containers, the path, the cursor), `PositionalTree.dfy` and `TreeIsExact.dfy`
  (which trees come out, exactly), `PartialTree.dfy` and `FailureIsExact.dfy`
  (which errors and partial trees come out, exactly), `FirstErrors.dfy` (what each
  kind of error says about the bytes and about longer inputs), `Lossless.dfy`
  (respelling the input).
- `HeaderRules.dfy` (conditions one walk over the headers decides), `Framing.dfy`
  (when the header-level skip, the header reader and Appendix C agree),
  `Acceptance.dfy` (where decoded items end), `Decodable.dfy` (which inputs decode).
- `Oddities.dfy`, `OddityChecks.dfy`, `FloatWidths.dfy`, `OddityFlags.dfy`: the
  oddity checks, what they test, and which nodes of a tree carry which flag.
- `NativeScript.dfy`, `ScriptEncoding.dfy`, `ScriptWalks.dfy`, `ScriptVerdicts.dfy`,
  `ScriptJson.dfy`: the flat native-script reader, the encodings it accepts,
  evaluation and what a verdict means, and JSON.
- `Navigation.dfy`, `Sites.dfy`, `SitePlaces.dfy`: skipping items by counters,
  container offsets, the ledger size, and where native scripts lie in a transaction,
  as routes that are followed and as places given by the shape alone.
- `PathTable.dfy`, `RawEmission.dfy`, `RawWorklist.dfy`, `RawRows.dfy`,
  `PathText.dfy`, `RawNodes.dfy`, `RawOrder.dfy`: the position map's path table, its
  raw rows, and what a row's paths and bytes have to do with each other.
- `Json.dfy`, `JsonWriter.dfy`, `JsonRoundTrip.dfy`, `SafeIntegers.dfy`,
  `JsonFractions.dfy`, `Text.dfy`: the iterative JSON writer, a reader for its text,
  and which numbers go unboxed.
- `WalkDriver.dfy`, `Diagnostic.dfy`, `DiagnosticParser.dfy`, `DiagnosticText.dfy`,
  `DiagnosticFloats.dfy`, `DiagnosticRoundTrip.dfy`, `StringPayload.dfy`,
  `SourceIndex.dfy`, `DocumentCache.dfy`: the smaller machines around them.

`dafny verify dfyconfig.toml` checks the whole project.

Where the code is not what a standard or a comment leads one to expect, an input
shows it and the exact condition is proved:

- `skip_item` frames malformed bytes, such as `bf 00 ff`. On an item it frames it
  is right exactly when additional information 31 stands only where it means
  something, chunks have their string's type and maps hold an even number of items
  (`Framing.LaxButNotWellFormed`, `Framing.WellFormedExactly`).
- The decoder takes a simple value below 32 in two bytes, such as `f8 10`, which
  Appendix C of RFC 8949 refuses. A decoded item is one of Appendix C exactly when
  no header in it is of that kind (`Decodable.DecodedButNotStrict`,
  `Decodable.DescribedIsStrictExactly`); "well-formed" below means well-formed but
  for those, as the header reader has it, unless Appendix C is named.
- A well-formed document decodes exactly when its texts are valid UTF-8, its floats
  finite and its items within the depth limit (`Decodable.DocumentDecodesExactly`).
- Of the bignums that a native integer could hold, two kinds go unflagged: -2^64, and
  any whose byte string comes in chunks, such as `c2 5f 41 01 ff`
  (`OddityChecks.MissedBignum`, `OddityFlags.ChunkedBignumUnflagged`); these are all
  (`OddityFlags.MissedExactly`, `OddityFlags.BignumFlagsExactly`). A comment in
  `decoder.rs` says that tag 3 fits when its bytes are not all ones; the code and the
  model agree with that, not with the range of major type 1.
- A length or a tag written too long is no oddity: only integer headers are flagged
  (`OddityFlags.LongHeadersUnflagged`, `OddityFlags.IntFlagExactly`).
- The JSON writer boxes 2^53 + 2 although binary64 holds it and no other integer rounds
  to it. An integer is written bare exactly when a binary64 reader gets it back and
  would get it back from no other integer, unless it lies between 2^53 and 2^54 in
  magnitude and is even but no multiple of four (`SafeIntegers.BoxedThoughUnambiguous`,
  `SafeIntegers.BareExactly`).
- Diagnostic notation has `undefined`; the reader takes it for null
  (`DiagnosticRoundTrip.UndefinedIsNull`).
- An object that is itself shaped like a number box reads back as the number
  (`JsonRoundTrip.BoxShapeIsLost`, `JsonRoundTrip.RoundTripIffBoxFree`).
- A walk task may request twice before it waits, which the driver asserts not to
  happen. It runs clean exactly when every request is awaited before the next one
  (`WalkDriver.TwoRequests`, `WalkDriver.DisciplinedExactly`), and always when that
  holds on every branch of it (`WalkDriver.OrderlyRunsClean`).

## Model

| member | source | states |
|---|---|---|
| Wire.HeadReadIsWritten | src/csl_preflight.rs:1207-1231 | a header that is read is spelled by exactly the bytes it was read from, its width included |
| Wire.HeadWrittenIsRead | src/csl_preflight.rs:1207-1231 | every header that exists on the wire is read back, width included |
| WellFormed.WellFormedIsLax | src/csl_preflight.rs:1239-1287 | the framing `skip_item` follows ends every well-formed item at the same offset |
| Framing.LaxIsWellFormedExactly | src/csl_preflight.rs:1239-1287 | an item that framing takes is well-formed if and only if no header carries additional information 31 out of place, every chunk is a definite string of its string's type and every indefinite map holds an even number of items |
| Framing.WellFormedExactly | src/csl_preflight.rs:1239-1287 | both ways at once: well-formed with a given end if and only if framed with that end and those headers |
| Framing.LaxButNotWellFormed | src/csl_preflight.rs:1246-1278 | inputs `skip_item` frames though they are malformed: a map with a key and no value, a chunk of the wrong type, an integer without an argument |
| Framing.AppendixCExactly | src/cbor/decoder.rs:1150-1153 | a well-formed item is one of Appendix C if and only if no header in it spells a simple value below 32 in two bytes |
| WellFormed.StrictIsLenient | src/cbor/decoder.rs:1150-1153 | an item well-formed by the RFC is well-formed for the header reader in use, with the same end |
| Navigation.SkipItem | src/csl_preflight.rs:1239-1287 | the counter stack returns the recursive framing's end on every input, and no counter underflows |
| Navigation.SkipBody | src/csl_preflight.rs:1246-1278 | stepping over a payload or pushing a counter does the same as reading the header's content, or fails where that fails |
| Navigation.TakeOne | src/csl_preflight.rs:1250-1262 | one item read over a stack only counts down the innermost container |
| Navigation.ArrayElementOffsets | src/csl_preflight.rs:1291-1315 | the loop answers the recursive list of element starts |
| Navigation.MapEntryOffsets | src/csl_preflight.rs:1317-1344 | the loop answers the recursive list of key and value starts |
| Navigation.ElementsTileTheArray | src/csl_preflight.rs:1291-1315 | elements stand side by side from the header to the array's end, which is where skipping the array stops |
| Navigation.EntriesTileTheMap | src/csl_preflight.rs:1317-1344 | keys and values stand side by side up to the map's end, when an indefinite map holds an even number of items |
| Navigation.LedgerTxSize | src/csl_preflight.rs:1090-1102 | the size is the length of the transaction re-encoded as an array of its first, second and last element |
| Navigation.ReencodedIsAnArrayOfThree | src/csl_preflight.rs:1090-1102 | that re-encoding is one item, an array of exactly those three elements' bytes |
| DecoderMachine.Cursor.DecodeItem | src/cbor/decoder.rs:415-483 | the stack machine returns the recursive decoder's tree and end, or the same first error, partial tree and reached offset; one path segment per open container at every loop head |
| DecoderMachine.Cursor.Attach | src/cbor/decoder.rs:437-481 | handing a finished item outward is one step of the recursive definition at a time, until a container takes another item or the root is done |
| DecoderMachine.Cursor.DecodeHeader | src/cbor/decoder.rs:485-592 | a pulled header becomes a finished item, an open container or an error, as the recursive definition has it |
| DecoderMachine.Cursor.OpenFrame | src/cbor/decoder.rs:595-615 | a container is left on the stack at its first item, or closed at once, or left open for the partial tree |
| DecoderMachine.Cursor.StepFrame | src/cbor/decoder.rs:618-705 | the next item of a container, its value with the break kept, or the end of the input, with path and cursor moved accordingly |
| DecoderMachine.Cursor.ConsumeBreak | src/cbor/decoder.rs:1125-1148 | a break is consumed, anything else left alone, the end of input reported |
| DecoderMachine.Cursor.DecodeIndefiniteChunks | src/cbor/decoder.rs:936-1057 | the chunk loop equals its recursive definition and leaves the path as it was |
| DecoderMachine.Cursor.ReadChunk | src/cbor/decoder.rs:947-1031 | one round of the chunk loop: a definite string of the right type, the break, or the chunk's own error |
| DecoderMachine.Cursor.ReadExact | src/cbor/decoder.rs:1156-1178 | chunked reads give the whole payload or an error at its start, and leave the cursor past the last whole chunk |
| DecoderMachine.Cursor.Unwind | src/cbor/decoder.rs:707-753 | folding the stack gives the recursive partial tree, the innermost container inside an item or between two |
| DecoderMachine.FailureUnwinds | src/cbor/decoder.rs:707-753 | a failure in the innermost item passes every open container unchanged but for the tree around it |
| DecoderMachine.DecodeCborToValue | src/cbor/decoder.rs:218-232 | the entry point is the recursive definition, bytes left over an error that carries the finished tree |
| PositionalTree.ItemDescribes | src/cbor/decoder.rs:222-271 | a finished tree describes its input: headers, spans that tile, breaks, oddities of its own bytes |
| PositionalTree.ChunksDescribe | src/cbor/decoder.rs:936-1057 | the same for a string in chunks |
| TreeIsExact.DecodedExactly | src/cbor/decoder.rs:415-682 | decoding finishes with a tree if and only if the tree describes the bytes there and stays within the depth limit |
| TreeIsExact.WholeExactly | src/cbor/decoder.rs:218-232 | the same for a document: its tree describes every byte of it |
| TreeIsExact.DescribedIsDecoded | src/cbor/decoder.rs:415-682 | completeness: whatever tree describes the bytes is the one decoded |
| TreeIsExact.ItemIsWithin | src/cbor/decoder.rs:424-429 | no item of a finished tree, or of the tree a failure leaves, lies deeper than the limit |
| Lossless.RespellsInput | src/cbor/decoder.rs:485-592 | types, values and header widths of a tree, no offsets, spell the bytes it was decoded from |
| Lossless.DocumentRespells | src/cbor/decoder.rs:218-232 | the same for a whole document |
| Lossless.NamesHoldValues | src/cbor/decoder.rs:1067-1105 | an integer's type name tells its width on the wire and holds its value; it is `Int` exactly when the signed width does not |
| Lossless.OtherNamesHoldValues | src/cbor/decoder.rs:526-592 | any other token's type name tells its header: the width of a float, the number of each named simple value, the type of a string, and its value is the argument or payload there |
| PartialTree.ItemIsTorn | src/cbor/decoder.rs:707-753 | a failure leaves, along its path, one incomplete container per level, all cut at the same offset, around the completed items before it; at most one incomplete entry per map, marked on the side that failed; the error is that of the bytes at the path's end |
| FailureIsExact.FailedExactly | src/cbor/decoder.rs:415-753 | decoding fails with an error, a partial tree and a reached offset if and only if the partial tree is torn there along the error's path, its error that of the bytes, and within the depth limit; what each kind of error means is told by the rows of `FirstErrors` |
| FailureIsExact.TornIsReturned | src/cbor/decoder.rs:415-753 | completeness: whatever torn part and error fit the bytes are the ones returned |
| FailureIsExact.FailedDocumentExactly | src/cbor/decoder.rs:222-232 | a document fails with exactly such a tree, or with the finished tree of its first item and the span of the bytes left over |
| FirstErrors.TooEarlyExactly | src/cbor/decoder.rs:415-592 | an input is refused as ended too early if and only if some continuation of it is answered differently |
| FirstErrors.ItemIsFinal | src/cbor/decoder.rs:415-592 | every other answer, tree or error, is final: it is the answer for every continuation too, partial tree and reached offset included |
| FirstErrors.BeginningsAreTooShort | src/cbor/decoder.rs:218-232 | every proper beginning of a document that decodes is refused as ended too early |
| FirstErrors.RefusedForGood | src/cbor/decoder.rs:218-232 | no continuation of a document refused for anything else decodes: the error and the partial tree stay |
| FirstErrors.ErrorShows | src/cbor/decoder.rs:1150-1188 | kind, offset, span and reached offset of every error are told from the bytes at that offset: what the input ends in, what is wrong with a header, the text that is not UTF-8, the float that is not finite, the header that is no chunk, the stray break, the level past the limit |
| FirstErrors.DocumentErrorShows | src/cbor/decoder.rs:218-232 | the same for a document, whose only other error is bytes left over |
| Utf8Scalars.ValidExactly | src/cbor/decoder.rs:548-565 | bytes are taken for text if and only if they encode some sequence of Unicode scalar values in UTF-8 |
| PartialTree.CutMap | src/cbor/decoder.rs:728-745 | cutting a map marks the key while a key is read, the value once the key is held |
| Acceptance.DescribedIsWellFormed | src/cbor/decoder.rs:415-682 | a decoded item is well-formed as the header reader has it and ends at the same offset |
| Decodable.DescribedIsStrictExactly | src/cbor/decoder.rs:415-682 | a decoded item is well-formed in the sense of Appendix C, with the same end, if and only if no header in it spells a simple value below 32 in two bytes |
| Decodable.DecodedButNotStrict | src/cbor/decoder.rs:538-542 | the input that shows it: `f8 10` decodes, and Appendix C refuses it |
| Decodable.DocumentDecodesExactly | src/cbor/decoder.rs:218-232 | a document decodes if and only if it is one well-formed item whose texts and text chunks are valid UTF-8, whose floats are finite and whose items lie within the depth limit |
| Decodable.DecodesExactly | src/cbor/decoder.rs:415-682 | the same for an item anywhere, at any path, with its end; a well-formed item that does not decode is refused for one of those three |
| Acceptance.SkipAgreesEverywhere | src/csl_preflight.rs:1239-1287 | at the start of every item of a decoded tree, chunks of a string included, `skip_item`'s framing ends at that node's span end |
| OddityChecks.IntNotShortestExactly | src/cbor/decoder.rs:111-147 | an integer is flagged if and only if a shorter header spells the same argument |
| OddityChecks.NoKeyOddityExactly | src/cbor/decoder.rs:800-823 | a map gets neither key flag if and only if its encoded keys are strictly increasing |
| OddityChecks.MapOddityKinds | src/cbor/decoder.rs:775-798 | each flag by itself: indefinite length if the map has none, unsorted if and only if some encoded key sorts after the next, repeated if and only if two are equal; neither key flag if and only if they strictly increase |
| OddityChecks.KeysNotSortedDetail | src/cbor/decoder.rs:800-812 | the loop finds the first key that sorts after its successor, or shows there is none |
| OddityChecks.DuplicateKeysDetail | src/cbor/decoder.rs:814-823 | the nested loop finds the first repeated key and its first repetition, or shows there is none |
| OddityChecks.BignumForSmallIntExactly | src/cbor/decoder.rs:851-906 | around the payload of a definite byte string, a bignum is flagged as small if and only if a native integer of its sign holds it and it is not -2^64, and for leading zeroes if and only if it starts with a zero byte |
| OddityChecks.MissedBignum | src/cbor/decoder.rs:900-905 | an input that test misses: tag 3 around eight 0xff bytes |
| OddityChecks.FitsNativeCborInt | src/cbor/decoder.rs:884-906 | trimming and shifting the bytes in computes that test |
| FloatWidths.SingleFitsHalfExactly | src/cbor/decoder.rs:161-199 | the binary16 bit test, subnormals included, holds if and only if a binary16 has the same value |
| FloatWidths.NarrowedExactly | src/cbor/decoder.rs:149-165 | the narrowed bits are there if and only if a binary32 has the same value, and then they are one |
| FloatWidths.CastRoundTripExactly | src/cbor/decoder.rs:149-165 | a binary64 comes back from the cast to binary32, rounding to nearest with ties to even, if and only if a binary32 has the same value, and the cast is then the narrowed bits |
| FloatWidths.RoundsToNearest | src/cbor/decoder.rs:149-165 | that rounding gives the nearest multiple, of two as near the even one |
| FloatWidths.ShortestFloatLenExactly | src/cbor/decoder.rs:147-160 | the length found is the least whose format holds the value |
| FloatWidths.FloatNotShortestExactly | src/cbor/decoder.rs:201-216 | a float is flagged if and only if a narrower format holds the same value |
| OddityFlags.IntFlagExactly | src/cbor/decoder.rs:111-147 | at every node of a decoded document: flagged as an integer not shortest if and only if its header is of major type 0 or 1 and a shorter header spells the same argument |
| OddityFlags.FloatFlagExactly | src/cbor/decoder.rs:201-216 | at every node: flagged as a float not shortest if and only if it is a float and a narrower format holds its value |
| OddityFlags.KeyFlagsExactly | src/cbor/decoder.rs:775-823 | at every map, over the bytes its keys span: flagged for repeated keys if and only if two are equal, as unsorted if and only if some key sorts after the next one, neither if and only if they strictly increase |
| OddityFlags.BignumFlagsExactly | src/cbor/decoder.rs:834-877 | at every node: flagged as a small bignum if and only if its bytes are tag 2 or 3 around a definite byte string of a value up to 2^64 - 1, and not tag 3 around exactly that; for leading zeroes if and only if such a string starts with a zero byte |
| OddityFlags.MissedExactly | src/cbor/decoder.rs:834-906 | of the bignums, in one string or in chunks, that a native integer of their sign holds, those unflagged are exactly the ones in chunks and -2^64 |
| OddityFlags.ChunkedBignumUnflagged | src/cbor/decoder.rs:838-846 | an input that shows the first kind: tag 2 around an indefinite-length byte string of the value 1 |
| OddityFlags.LongHeadersUnflagged | src/cbor/decoder.rs:485-592 | the inputs that show what is not flagged: an array length and a tag number written too long |
| NativeScript.ReadScript | src/native_script.rs:227-332 | the iterative reader returns the flattening and end of the tree the recursive grammar reads, under the node cap, or fails where that fails |
| NativeScript.ReadPrefixTokens | src/native_script.rs:236-300 | the tokens up to a list's first item are read as the grammar has them |
| NativeScript.FromCbor | src/native_script.rs:80-91 | a whole input is accepted if and only if the grammar reads all of it |
| NativeScript.NativeScriptEnd | src/native_script.rs:207-215 | the end of the script at an offset is the grammar's |
| ScriptEncoding.EncodingIsRead | src/native_script.rs:227-332 | any encoding of a tree, in whatever widths, list forms and tags, reads back as that tree |
| ScriptEncoding.AcceptsExactlyTheEncodings | src/native_script.rs:227-332 | the grammar reads a tree from some bytes if and only if they are one of its encodings |
| ScriptWalks.EndsAreLaminar | src/native_script.rs:60-110 | subtree ranges of the flat array nest or are disjoint |
| ScriptWalks.NodeAndEndAt | src/native_script.rs:60-110 | index by index, the flat array holds the subtree's node and the index past it |
| ScriptWalks.Children | src/native_script.rs:97-112 | hopping from end to end visits exactly the children, in order |
| ScriptWalks.Evaluate | src/native_script.rs:125-142 | the backwards loop over the flat array gives the recursive ledger verdict, whose meaning the rows of `ScriptVerdicts` tell |
| ScriptVerdicts.ListHoldsByQuorum | src/native_script.rs:125-142 | a list holds if and only if there is a set of distinct sub-scripts, all holding, of at least its threshold: all of them, one, or n |
| ScriptVerdicts.ListsAreThresholds | src/native_script.rs:125-142 | `All` is n-of-k for all sub-scripts and `Any` for one; up to zero a threshold always holds, past the number of sub-scripts never |
| ScriptVerdicts.TimelocksBoundSlots | src/native_script.rs:125-142 | over a nonempty interval a start lock holds if and only if no slot before its own lies in the interval, an expiry lock if and only if no slot at or past its own does |
| ScriptVerdicts.HoldsIsSatisfied | src/native_script.rs:125-142 | over a nonempty interval a verdict is the script's meaning: signatures, slots and sets of sub-scripts, without counting or comparing bounds |
| ScriptWalks.HoldsIsMonotone | src/native_script.rs:125-142 | a script that holds still holds with more signers and a narrower validity interval |
| ScriptWalks.VerdictNeedsOnlyKeyHashes | src/native_script.rs:144-151 | the verdict depends on signers only through the script's own key hashes |
| ScriptWalks.KeyHashesExactly | src/native_script.rs:144-151 | the key hashes are exactly those of the script's key-hash nodes |
| ScriptJson.ToCslJson | src/native_script.rs:158-201 | the single loop with its stack of list ends prints the recursive rendering |
| ScriptJson.RenderIsJson | src/native_script.rs:158-201 | that rendering is the JSON text of the script's value |
| ScriptJson.TextReadsBack | src/native_script.rs:158-201 | reading the text as JSON names the same script |
| ScriptJson.ReadScriptsAreShaped | src/native_script.rs:227-332 | every script that is read has the shape the printer relies on |
| Sites.ScriptIsOneItem | src/native_script.rs:207-215 | where the script reader finds a script, `skip_item` finds an item with the same end |
| Sites.NativeScriptSites | src/csl_preflight.rs:491-501 | following a shape's route collects what the route's definition finds, which `SitePlaces.SitesExactly` characterizes |
| SitePlaces.SitesExactly | src/csl_preflight.rs:491-697 | for every shape, given as paths of map keys, indices and tags: a range is found if and only if such a path leads from the root to its start and one whole script stands there, and a reference payload if and only if a path leads to it |
| SitePlaces.FoundExactly | src/csl_preflight.rs:503-697 | the same from any offset on, shape by shape |
| Sites.SitesAreInOrder | src/csl_preflight.rs:491-501 | the script ranges of every shape are sorted and pairwise disjoint, the reference offsets increasing, so sorting and deduplicating change nothing |
| Sites.SitesAreScripts | src/csl_preflight.rs:578-591 | every range is one whole native script |
| Sites.RouteStaysInside | src/csl_preflight.rs:503-576 | what a route finds lies inside the item it starts at |
| Sites.NoItemNoScripts | src/csl_preflight.rs:503-576 | where no item starts, no script range is found, and at most one script reference, which is noted by its offset alone |
| Sites.Finder.WitnessSetScriptsAt | src/csl_preflight.rs:593-602 | pushes the scripts its route's definition finds, in order; which those are is the row of `SitePlaces.FoundExactly` |
| Sites.Finder.AuxiliaryDataScriptsAt | src/csl_preflight.rs:604-622 | the same for the three shapes of auxiliary data |
| Sites.Finder.OutputScriptsAt | src/csl_preflight.rs:624-636 | the same for a transaction output's script reference |
| Sites.Finder.BodyScriptsAt | src/csl_preflight.rs:661-673 | the same for the outputs of a body, the collateral return included |
| Sites.Finder.BlockScriptsAt | src/csl_preflight.rs:675-697 | the same for the parts of a block |
| Sites.Finder.TransactionScriptsAt | src/csl_preflight.rs:503-576 | the same for a transaction of three or four parts |
| PathTable.InternedForever | src/cbor/cbor_cddl_map.rs:43-92 | however a run goes on, an interned index resolves to the path of its moment |
| PathTable.InternKeeps | src/cbor/cbor_cddl_map.rs:77-92 | an intern keeps the table's invariant, only appends, and answers with a row that spells the current path |
| PathTable.LeaveKeeps | src/cbor/cbor_cddl_map.rs:69-74 | leaving keeps it: prefixes point back, open entries are strictly longer prefixes of the path |
| PathTable.VisitStoresSegments | src/cbor/cbor_cddl_map.rs:43-92 | enter, intern, visit below, leave: path and open entries are restored and each segment is stored once |
| PathTable.ReplayStoresSegments | src/cbor/cbor_cddl_map.rs:43-92 | a replay that interns wherever it enters stores as many characters as it entered |
| PathTable.Paths.EnterSegment | src/cbor/cbor_cddl_map.rs:62-66 | the segment is appended and the old length returned |
| PathTable.Paths.LeaveTo | src/cbor/cbor_cddl_map.rs:69-74 | the path is truncated and exactly the longer entries closed |
| PathTable.Paths.InternPath | src/cbor/cbor_cddl_map.rs:77-92 | the index answered resolves to the current path, and rows are only appended |
| RawWorklist.Writer.EmitRawSteps | src/cbor/cbor_cddl_map.rs:697-753 | the worklist leaves the writer as the recursive walk of its steps does, refused or not |
| RawWorklist.Writer.ExpandRawChildren | src/cbor/cbor_cddl_map.rs:756-821 | the children queued backwards mean the children walked forwards |
| RawWorklist.EmitRaw | src/cbor/cbor_cddl_map.rs:682-690 | emitting a value is the recursive walk of it |
| RawWorklist.EmitRawChildren | src/cbor/cbor_cddl_map.rs:692-695 | emitting only its children is the recursive walk of them |
| RawWorklist.NodeSteps | src/cbor/cbor_cddl_map.rs:711-728 | a node is its row, its children and the way back, or a refusal that leaves no row |
| RawRows.NodeWritten | src/cbor/cbor_cddl_map.rs:697-822 | all pre-order rows are written with their full paths, if and only if slots and descent budget suffice; otherwise a refusal with a prefix of them; charges always come back, paths unless refused; which node and path each row has is told by the rows of `RawNodes` |
| RawRows.ChildrenWritten | src/cbor/cbor_cddl_map.rs:756-821 | the same for a value's children |
| RawNodes.NodeRowsFit | src/cbor/cbor_cddl_map.rs:697-822 | where the node spells the value, both paths of every row are read back as segments that lead to one place of the value, and the row shows the node beside that place; a pair's extent is its key and value, a list's the whole map |
| RawNodes.ReachedIsSpelled | src/cbor/cbor_cddl_map.rs:1486-1559 | wherever a path leads, the node beside the place spells the value there: items, keys, values and tag payloads |
| RawNodes.RowsPointAtTheirBytes | src/cbor/cbor_cddl_map.rs:697-822 | both together for a decoded document and the value it holds |
| RawNodes.EveryPlaceHasARow | src/cbor/cbor_cddl_map.rs:697-822 | every place of the value has a row under its path |
| RawOrder.NodeRowsInOrder | src/cbor/cbor_cddl_map.rs:697-822 | the rows stand in document order and within the value's bytes |
| JsonWriter.Output.WriteJsonInto | src/deep_json.rs:111-170 | the loop over a stack of iterators appends the recursive writer's text |
| JsonWriter.Output.WriteString | src/deep_json.rs:209-239 | slicing between escapes appends the quoted text |
| JsonWriter.Output.WriteNumberInto | src/deep_json.rs:191-206 | an integer past 2^53 - 1, or a fraction that rounds to an infinite binary64, is boxed around its digits |
| SafeIntegers.BareExactly | src/deep_json.rs:180-206 | an integer is written bare if and only if rounding it to binary64 gives it back and gives it back from no other integer, and it is not one of the even integers between 2^53 and 2^54 in magnitude that are no multiple of four |
| SafeIntegers.BoxedThoughUnambiguous | src/deep_json.rs:180-206 | the input that needs that exception: 2^53 + 2 |
| SafeIntegers.BareUpToTheFirstAmbiguous | src/deep_json.rs:180-206 | bare if and only if every integer up to its magnitude is a binary64 that no other integer rounds to |
| SafeIntegers.UnambiguousExactly | src/deep_json.rs:180-206 | which integers are a binary64 that no other rounds to: those up to 2^53 - 1 in magnitude and the exception |
| SafeIntegers.KeptExactly | src/deep_json.rs:180-206 | rounding keeps an integer if and only if some finite binary64 has its value |
| SafeIntegers.OverflowsExactly | src/deep_json.rs:191-206 | the limit for fractions is where rounding passes the largest finite binary64 |
| JsonFractions.FitsExactly | src/deep_json.rs:191-206 | a number token with a fraction or an exponent is written bare if and only if its digits, shifted by the exponent less the decimal places, stay below that limit |
| JsonWriter.WriteJson | src/deep_json.rs:92-97 | the whole text is the recursive writer's |
| JsonRoundTrip.ReadAfterWrite | src/deep_json.rs:92-97 | reading the text gives the value with number boxes unpacked |
| JsonRoundTrip.RoundTripIffBoxFree | src/deep_json.rs:184-206 | the value itself comes back if and only if no object of it is shaped like a number box |
| JsonRoundTrip.BoxShapeIsLost | src/deep_json.rs:184-206 | the object that shows it: one entry under the box's key comes back as the number |
| JsonRoundTrip.HugeFractionIsBoxed | src/deep_json.rs:191-206 | `1e400` is boxed |
| JsonRoundTrip.ReadEscaped | src/deep_json.rs:209-239 | an escaped string reads back |
| JsonRoundTrip.EscapedIsShortest | src/deep_json.rs:209-239 | no literal that reads as the string is shorter than the one written |
| Json.CollapseChangesOnlyBoxes | src/deep_json.rs:184-206 | unpacking changes nothing in a value without such objects |
| WalkDriver.Driver.Drive | src/cbor/walk_driver.rs:70-90 | suspended tasks end as calls through the channel do, or at the assertion on a full channel; a suspended task always has a request to run, and the loop ends |
| WalkDriver.Driver.RunRoot | src/cbor/walk_driver.rs:92-110 | the run is clean if and only if the walk awaits every request before the next one and before it returns; then result and state are those of an ordinary call |
| WalkDriver.Driver.PollInnermost | src/cbor/walk_driver.rs:45-135 | one poll runs a task to its end, its result left for the one below, to where it waits with its request on the channel, or to the assertion |
| WalkDriver.DisciplinedExactly | src/cbor/walk_driver.rs:45-57 | a run meets no full channel and leaves no request behind if and only if every request is awaited before the next one and before its task returns, and then it ends as the ordinary call |
| WalkDriver.ExecIsInline | src/cbor/walk_driver.rs:117-135 | a run is the stretch to the first suspension, the requested task and the rest |
| WalkDriver.TwoRequests | src/cbor/walk_driver.rs:45-51 | the task that meets the assertion: it requests twice |
| WalkDriver.OrderlyIsDisciplined | src/cbor/walk_driver.rs:112-135 | a task that on no branch requests or returns with a request held awaits every request in turn, from every log |
| WalkDriver.OrderlyRunsClean | src/cbor/walk_driver.rs:112-135 | such a task runs through the channel as the ordinary call, whatever the log |
| WalkDriver.DisciplinedNotOrderly | src/cbor/walk_driver.rs:112-135 | the converse fails: a task with a bad branch no run reaches |
| DiagnosticParser.Parse | src/cbor/diagnostic.rs:42-67 | the cursor reads exactly what the recursive grammar of the notation reads |
| DiagnosticParser.Parser.ParseItem | src/cbor/diagnostic.rs:120-253 | one item and the text behind it, or nothing, within the depth bound, always within the text |
| DiagnosticParser.Parser.ParseNumber | src/cbor/diagnostic.rs:269-315 | a float literal, an integer in range, or a tag |
| DiagnosticParser.Parser.ParseText | src/cbor/diagnostic.rs:190-236 | a quoted text with its escapes |
| DiagnosticRoundTrip.ParsePrinted | src/cbor/diagnostic.rs:42-315 | a printed item is read back if and only if it is composite, nested within the bound and has nothing elided |
| DiagnosticRoundTrip.PrintedIsRead | src/cbor/diagnostic.rs:120-253 | the same for an item inside any text |
| DiagnosticText.AnySpellingIsRead | src/cbor/diagnostic.rs:190-236 | a text is read back however it is spelled: each character as it is, by its own escape, or by its code point in hexadecimal, with or without a plus sign |
| DiagnosticText.DebuggedIsRead | src/cbor/diagnostic.rs:190-236 | so is the text the debug formatter writes |
| DiagnosticText.BackslashedIsRead | src/cbor/diagnostic.rs:190-236 | so is one with escapes for quotes and backslashes only |
| DiagnosticText.HexExactly | src/cbor/diagnostic.rs:178-189 | hexadecimal text is taken for some bytes if and only if it spells them, two digits each, in either case |
| DiagnosticRoundTrip.AnyHexIsRead | src/cbor/diagnostic.rs:178-189 | so a byte string is read back however its digits are written |
| DiagnosticFloats.FloatsExactly | src/cbor/diagnostic.rs:269-301 | the float literals taken whole are exactly those of a grammar: an optional sign, digits before or behind the point, an exponent with digits in it; and the three names |
| DiagnosticRoundTrip.SpaceIsSkipped | src/cbor/diagnostic.rs:120-128 | a blank, a tab or a line end before an item changes nothing |
| DiagnosticRoundTrip.UndefinedIsNull | src/cbor/diagnostic.rs:120-253 | `undefined` is read as null |
| StringPayload.StringPayloadIs | src/cbor/diagnostic.rs:398-435 | stripping chunk after chunk tells exactly whether the spliced payload is the wanted one |
| SourceIndex.BuildIndex | src/cbor/source_index.rs:22-43 | every byte maps to the UTF-16 units before its character, and the line starts are those after newlines |
| SourceIndex.LineAt | src/cbor/source_index.rs:45-50 | the line is one plus the newlines before the offset |
| SourceIndex.CharOffsetCeil | src/cbor/source_index.rs:62-75 | the units before the first character boundary at or after the offset |
| SourceIndex.BoundariesStep | src/cbor/source_index.rs:77-84 | the table tells character boundaries exactly |
| SourceIndex.MakeSpan | src/cbor/source_index.rs:103-123 | a span inside the source is rounded outward to whole characters |
| SourceIndex.SpanIsSmallestCover | src/cbor/source_index.rs:99-123 | the range is the smallest whole-character one that covers the bytes, empty exactly when they are |
| SourceIndex.UnitsMeasureText | src/cbor/source_index.rs:9-15 | at a boundary the table holds the UTF-16 length of the text before it |
| SourceIndex.LengthIsOfScalars | src/cbor/source_index.rs:9-15 | and that length counts two units for every scalar value past the basic plane and one for any other |
| DocumentCache.Cache.Lookup | src/cbor/document_cache.rs:217-241 | every lookup answers what the source builds, and hits if and only if the source was used before with fewer than four others since |
| DocumentCache.HoldsMostRecent | src/cbor/document_cache.rs:210-241 | after any history the cache holds the at most four most recently used distinct sources, in that order |
| DocumentCache.HitsExactly | src/cbor/document_cache.rs:217-241 | the condition for a hit, for any history |
| DocumentCache.BuiltEntry | src/cbor/document_cache.rs:143-197 | which texts answer the checked and the unchecked question, when the two differ, and with which error a text is rejected: the byte where the nesting overflows, or what the parser complains of |

## Left out

- Decoder.Document: error messages, the rendered path text and tag names are not modelled; errors keep kind, offset, span and structural path, tags their number.
- Decoder.Item: what ciborium's pull and the reader behind it do is taken from their interface as functions on bytes; other I/O errors cannot arise on a byte slice, and `IntNotRepresentable` cannot arise because JSON numbers hold any integer here.
- Decoder.Leaf: a float's value is kept as its bits on the wire; the decimal text shown for it is not modelled.
- Oddities: the detail text of an oddity is left out; kinds are kept.
- NativeScript.ReadScript: minicbor's token reads are functions on bytes; error texts are dropped, so every fault is the same fault.
- ScriptWalks.Evaluate: the counts of `NofK` are integers, not machine words, and key hashes are byte strings.
- Navigation.SkipItem: `usize` is 32 bits wide and slices are at most `isize::MAX` bytes, as on the wasm target.
- Sites.NativeScriptSites: only the routes to native scripts; the witness-list, address and cost-model hazard routes, `byte_string_len` and the nesting scanners would add long, shallow case lists.
- RawWorklist.Writer.EmitRawSteps: the rows' JSON text, the bias of embedded payloads and the span lookup of schema text are left out; map keys are modelled by the text they show as, and `{:?}` quoting only by its escapes for quotes and backslashes.
- RawNodes.NodeRowsFit: the text a scalar shows as is any function of its node, and the schema span a root row is handed is not constrained.
- ScriptVerdicts.HoldsIsSatisfied: over an empty interval, which no transaction has, locks compare bounds as in `ScriptWalks.Evaluate` and no slot is there to bound.
- PathTable.Paths.InternPath: the JSON form of the table is left out; path lengths count characters where the code counts bytes.
- JsonRoundTrip.ReadAfterWrite: the reader does not read escapes of UTF-16 surrogates, which the writer never produces; a number without fraction or exponent is its integer, so `-0` is 0.
- WalkDriver.Driver.Drive: tasks are values that say what they do next instead of compiled futures, all results have one type, and the shared walker state is the log of the events written to it; the debug assertion on a full channel is modelled as a fault, as in a debug build; boxing, wakers and pinning are left out.
- DiagnosticRoundTrip.ParsePrinted: the printer is the notation as the module's documentation gives it, text as the debug formatter writes it but for the characters Unicode's tables tell it to escape, which `DiagnosticText.AnySpellingIsRead` covers; floats are kept as their literals; offsets count characters where the code counts bytes.
- DiagnosticParser.Parse: `node_matches` and `int_node_is` compare field by field and would only add easy members; `parse_text` is one call of `ParseItem`.
- DocumentCache.Cache.Lookup: the parser, its error texts and re-entrant lookups from inside it are left out; the parser is any function of the text, and the line an error adds to its span is left out.
- The schema-driven replay, `schema_mapper` and `validation` follow code that is not part of this model; so are the exact values of their budgets.
- `tighten` and `trailing_comment_start` (span trimming), `dismantle_json` (freeing), `compact_json`, tag names, cryptography, JS wrappers and the TypeScript side.
