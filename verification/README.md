# Verified model of the Oracle scanner

A Dafny model of the decisions a DuckDB extension makes when it speaks Oracle's wire protocol and lets Oracle do part
of a query: what bytes mean, which rows come back, and when a predicate, an order, an aggregate or a join may be handed
over without changing the answer. `dafny verify dfyconfig.toml` checks it.

## What is modelled

**The fetch decoder.** `ByteBuffer` is the TTC byte codec; `RowFormat` and `FetchMessages` read the parts of a fetch
response, `RowSettled` and `MessagePlaces` say that what is read depends neither on what follows nor on where it stands;
`FetchDecoder` is the decoder class with its saved resume point. Every method is proved against a function of the whole
message, and the functions carry the results. `FetchResume`: whatever prefixes of a response are fed to the
decoder beforehand, some ending incomplete and some throwing, the outcome is that of one pass over the whole.
`FetchBudget`: in every reachable state the batch counter is the size of the rows and all limits hold. `FetchDelta` and
`FetchRoundTrip`: rows that a server sends full, as header-selected changes or as continuations in either count form
come back as they were, over whole responses and chains of responses.

**What is sent to Oracle.** `ColumnValues` says what Oracle stores in a column and what DuckDB reads from it;
`FilterTranslation` and `FilterSplit` give both engines' three-valued truth to a filter and to what is sent for it, and
prove them equal, or for narrowing predicates one-sided; `SqlText` reads the WHERE text back with Oracle's precedence;
`JsonPaths` is the JSON part. `RangeSearch` is the search for the key ranges of a join filter, over bit-level midpoints,
and `RangePredicate` what those ranges mean in the WHERE clause. `TopN`, `AggregateRewrite` and `JoinRewrite` are the
three plan rewrites, over bags of rows as stored and as read; `TopNScan` joins the first of them to the filters sent with it.

**Parallel reading.** `ShardRanges` cuts a 64-bit key interval with arithmetic that wraps, `RowidRanges` cuts a table
between its extents. `ParallelScan` is the machine of threads that take chunks from a shared counter, with what it hands
over when the chunks are ROWID ranges; `ShardScan` is the same when they are shards of a key. `DeferredColumns` fills
columns read later by ROWID.

**Text.** `SqlLexer`, `SqlBinds`, `SqlComposite` and `SqlBlock` are the two scanners of SQL text, bind order, and the
PL/SQL block DML statements are joined into: each scanner sees in the block what it sees in the statements.
`SqlAgreement` says where the two see the same, and `SqlTerminators` what that means for a block.
`DescriptorText`, `ConnectDescriptor` and `ConnectString` are the connect-descriptor parser class, what a tree means, and
the string built from a configuration. `CallableName` splits the name of a procedure.

**The rest.** `Utf` and `TempLob` write large values to temporary LOBs in pieces; `FloatOrder` and `VectorImage` are the
VECTOR image and its sortable floats; `ResolverPool` is the bounded pool of name-resolution workers as steps under its
lock, with the class that takes them; `ConnectOrder` is the in-place shuffle and the order addresses are tried in.
`Protocol`, `Arithmetic`, `Characters` and `Sequences` hold what the others share.

The pieces that keep state are classes and loops, each proved against a function or a step of the machine; what is
claimed about every input or every run is a lemma about those.

## Where code and intent part

Where a property the code is meant to have fails for some input, the code is kept as it is and a lemma says for which.

- A row continuation in the universal count form is read back if and only if it is not taken for one in the classic form
  (`FetchDelta.UniversalFormRoundTrip`), which a sender can tell beforehand (`TakenForClassic`). Narrow tables and few
  changes are safe (`NarrowFormsAreTold`); 258 changed columns of 272 are read as another selection
  (`UniversalFormAmbiguous`). The round trips of rows, responses and cursors ask for no more than that condition.
- The comment at src/oracle_parallel.cpp:255-256 calls the shard ranges half-open; they are closed at both ends, one
  apart. A key with a fraction is read if and only if it is not strictly between two of them
  (`ShardRanges.ReadUnlessInGap`), and with bounds 0 and 1 and two shards 0.5 is not (`FractionalKeyMissed`). The check
  of the bounds (lines 100-119) looks only at the minimum and the maximum. So the scan returns the table whole if and
  only if no row has such a key (`ShardScan.WholeTableReturned`), as it does when all keys are whole or NULL
  (`WholeKeysReturned`); no row ever comes twice (`ShardedRowsOnce`).
- A scan through one shared cursor takes an empty batch for the end even if the cursor is not exhausted; it delivers all
  rows if and only if none comes too early (`ParallelScan.StreamDeliversAll`). Threads with their own cursors do not
  (`OwnCursorNeverEndsEarly`).
- The placeholder scanner and the terminator scanner read a text alike if and only if no bind name in it ends where the
  other finds a q-quote (`SqlAgreement.ReadAlike`), and see the same semicolons if and only if neither passes over one
  the other comes to (`ScannersAgree`). The builder of a DML block checks terminators with the one and binds with the
  other: for the terminator scanner no statement of an accepted block ends early, for the placeholder scanner exactly
  those do in which it comes to a semicolon (`SqlTerminators.AcceptedBlockEnds`), and there is a DELETE that does
  (`AcceptedStatementEndsEarly`).
- An infinite TIMESTAMP_NS constant is divided before it is tested, so on a TIMESTAMP column, and on no other, it is sent
  as an instant in 1677 or 2262 where an infinite TIMESTAMP is refused (`FilterTranslation.InfiniteNanosecondsAreSent`).
  The translation theorem holds all the same, since nanoseconds are compared as the number they are.
- An empty disjunction is refused by the translator and sent as `()` by the JSON prefilter (`FilterSplit.EmptyOrIsSent`).
  The WHERE text can be read if and only if no conjunct that reaches the prefilter holds one and no key ranges are
  without a term (`SentTextMeansTheSplit`). Disjunctions come from DuckDB's planner: nothing in this repository builds
  one, and whether that planner ever builds an empty one is not in these files.
- Key ranges are without a term, and are sent as `()`, when a range filter accepts the whole domain and denies every part
  it is asked about (`RangeSearch.NoTermIsLeft`). A filter that holds a key never does (`RangePredicate.RangesArePrintable`).
- One release message names at most 4096 locators. A statement or a group of a batch that needs more runs, fails when it
  is released and releases nothing (`TempLob.WithTemporaryLobs`, `RunGroup`); 1024 rows of five large values do
  (`FullGroupIsTooLarge`).
- A callable name may end in a point (`CallableName.AcceptedExactly`, `TrailingPointIsAccepted`), although it is described
  as one to three components.

## Assumptions

They are parameters or premises of the theorems, not axioms. A key filter never denies a range that holds a key
(`RangeSearch.Sound`), and is true only of rows that hold one. DuckDB's binder gives constants the type of the column
(`FilterTranslation.WellTyped`). Collations, text renderings of numbers and conversions of other types are functions the
engines supply. A server returns the rows of a ROWID list; the rows of one batch have different ROWIDs. Blocks per extent
are at least one and extents come in ROWID order, as the dictionary query asks.

The decoder clears `completion` on each call and does not keep it, so it is the one part of the outcome that
`FetchResume.ResumedEqualsOnePass` leaves open. Whether an end-of-call completes a response depends on where the buffer
ends; no row is kept behind it.

## Model

| member | source | states |
|---|---|---|
| ByteBuffer.UniversalRoundTrip | src/byte_buffer.cpp:72-85 | reading a written universal integer, anywhere in any buffer, returns it and stops at the byte after it, for every width up to the reader's limit |
| ByteBuffer.ChunksRoundTrip | src/byte_buffer.cpp:117-131 | the chunks of a long value, from any chunk boundary on, read back as the whole value |
| ByteBuffer.LengthPrefixedRoundTrip | src/byte_buffer.cpp:105-132 | a written value of any length within the limit reads back, short or chunked, an empty one as NULL, and the read ends at the byte after it |
| ByteBuffer.UniversalSettled | src/byte_buffer.cpp:72-85 | a read that did not run out of bytes gives the same result, value, end or error, however many bytes are appended |
| ByteBuffer.LengthPrefixedSettled | src/byte_buffer.cpp:105-132 | the same for length-prefixed values, chunked ones included |
| ByteBuffer.ByteReader.ReadByte | src/byte_buffer.cpp:29-34 | returns the byte and moves one on, or fails as truncated |
| ByteBuffer.ByteReader.ReadRaw | src/byte_buffer.cpp:43-50 | returns exactly the next bytes and moves past them, or fails as truncated |
| ByteBuffer.ByteReader.ReadUInt16LE | src/byte_buffer.cpp:61-64 | least significant byte first |
| ByteBuffer.ByteReader.ReadUniversal | src/byte_buffer.cpp:72-85 | the loop over the bytes computes the big-endian value of as many bytes as the length byte says, refuses more than the limit, and wraps nothing below 64 bits |
| ByteBuffer.ByteReader.ReadLengthPrefixed | src/byte_buffer.cpp:105-132 | the loop over the chunks: NULL for the two NULL forms, the limit checked before each chunk, the zero chunk consumed |
| ByteBuffer.ByteWriter.WriteUniversal | src/byte_buffer.cpp:180-193 | appends the shortest form that holds the value, zero as a single zero byte |
| ByteBuffer.ByteWriter.WriteLengthPrefixed | src/byte_buffer.cpp:210-228 | appends the short form up to 252 bytes and the chunked form above |
| ByteBuffer.ByteWriter.WriteChunks | src/byte_buffer.cpp:219-227 | the loop appends chunks of at most 0x8000 bytes and the closing zero |
| RowFormat.SelectedWhenSet | src/lob_prefetch_fetch.cpp:54-58 | a column is selected if and only if its bit is set |
| RowFormat.SelectColumns | src/lob_prefetch_fetch.cpp:54-58 | the scan over the bit vector returns the set columns in increasing order |
| RowFormat.CarriedUnlessOmitted | src/lob_prefetch_fetch.cpp:186-208 | a selected column carries bytes if and only if its declared length is not zero |
| RowFormat.CarryingColumns | src/lob_prefetch_fetch.cpp:186-208 | what is left of a selection is still increasing and in range |
| RowFormat.WireCarryingColumns | src/lob_prefetch_fetch.cpp:186-208 | the loop, for a selection and for a full row, and its refusal of a column that is not there |
| RowFormat.DecodeRowHeaderPrefix | src/lob_prefetch_fetch.cpp:31-81 | the whole header decoder: fields, bit vector, selection or none, trailing ROWID, and each refusal |
| RowFormat.DecodeRowContinuationPrefix | src/lob_prefetch_fetch.cpp:83-127 | both readings of the count, the classic one tried first, and the choice between them by whether bitmap and count agree |
| RowFormat.DecodePrefetchedRow | src/lob_prefetch_fetch.cpp:129-161 | one value for each wire column, LOB cells kept whole, the row budget enforced before each copy |
| RowFormat.MergeChangedColumns | src/lob_prefetch_fetch.cpp:163-184 | the loop lays the values over the previous row, or refuses lists of different length |
| RowFormat.ExpandWireRow | src/lob_prefetch_fetch.cpp:210-219 | a full row with NULL in every column that carried nothing |
| RowFormat.OverlayAt | src/lob_prefetch_fetch.cpp:163-184 | after a merge each named column has the value sent for it, and every other column what it had |
| RowSettled.RowHeaderSettled | src/lob_prefetch_fetch.cpp:31-81 | decoding a header from a prefix agrees with decoding it from the whole message, unless the prefix ran out |
| RowSettled.ContinuationSettled | src/lob_prefetch_fetch.cpp:83-127 | the same for a continuation, although its decoder tries two readings |
| RowSettled.LobCellSettled | src/lob_prefetch_fetch.cpp:142-150 | the same for a prefetched LOB cell |
| RowSettled.RowDataSettled | src/lob_prefetch_fetch.cpp:129-161 | the same for the values of a row |
| FetchMessages.ErrorSettled | src/ttc_error.cpp:138-222 | the same for the end-of-call message with its batch arrays |
| FetchMessages.ParameterSettled | src/ttc_parameter.cpp:79-117 | the same for return parameters |
| FetchMessages.StatusSettled | src/lob_prefetch_fetch.cpp:385-392 | the same for a status message |
| FetchMessages.PiggybackSettled | src/ttc_piggyback.cpp:85-121 | the same for a server piggyback |
| MessagePlaces.ErrorInPlace | src/ttc_error.cpp:138-222 | an end-of-call read from its bytes alone is read the same wherever a buffer holds them |
| MessagePlaces.ParameterInPlace | src/ttc_parameter.cpp:79-117 | and so are return parameters |
| MessagePlaces.StatusInPlace | src/lob_prefetch_fetch.cpp:385-392 | and a status |
| MessagePlaces.PiggybackInPlace | src/ttc_piggyback.cpp:85-121 | and a piggyback |
| FetchDecoder.LobPrefetchFetchResponseDecoder.constructor | src/lob_prefetch_fetch.cpp:223-233 | a fresh decoder has nothing kept |
| FetchDecoder.LobPrefetchFetchResponseDecoder.Decode | src/lob_prefetch_fetch.cpp:240-408 | the message loop: what one call makes of the message and of what was kept, whether it completes, is left incomplete or throws, and what it keeps then |
| FetchDecoder.LobPrefetchFetchResponseDecoder.StartPass | src/lob_prefetch_fetch.cpp:247-256 | everything behind the resume point is dropped and a pending header selection forgotten |
| FetchDecoder.LobPrefetchFetchResponseDecoder.Account | src/lob_prefetch_fetch.cpp:257-280 | the column loop adds the row's size to the batch or refuses it, without touching anything else |
| FetchDecoder.LobPrefetchFetchResponseDecoder.AddRow | src/lob_prefetch_fetch.cpp:288-297 | the row joins the batch, and becomes the resume point unless a header selection waits |
| FetchDecoder.LobPrefetchFetchResponseDecoder.TakeHeader | src/lob_prefetch_fetch.cpp:302-307 | a header and the selection it leaves pending |
| FetchDecoder.LobPrefetchFetchResponseDecoder.TakeRow | src/lob_prefetch_fetch.cpp:308-338 | a full or header-selected row |
| FetchDecoder.LobPrefetchFetchResponseDecoder.TakeContinuation | src/lob_prefetch_fetch.cpp:339-357 | a continuation and the row data that has to follow it |
| FetchDecoder.LobPrefetchFetchResponseDecoder.TakeError | src/lob_prefetch_fetch.cpp:363-384 | an end of call: exhausted at ORA-01403, refused at any other error |
| FetchDecoder.LobPrefetchFetchResponseDecoder.TakeMessage | src/lob_prefetch_fetch.cpp:298-405 | the dispatch on the message byte |
| FetchDecoder.LobPrefetchFetchResponseDecoder.Take | src/lob_prefetch_fetch.cpp:410-415 | the rows handed over, and the row the next response continues from |
| FetchResume.StepAgrees | src/lob_prefetch_fetch.cpp:298-405 | one message decoded from a prefix and from the whole gives the same state unless the prefix ran out; only the completion a prefix ends with may differ |
| FetchResume.StepKeeps | src/lob_prefetch_fetch.cpp:288-297 | what a step keeps is exactly the state it leads to, with no selection pending |
| FetchResume.KeptOnPath | src/lob_prefetch_fetch.cpp:240-408 | what a pass over a prefix keeps is a state the pass over the whole response goes through |
| FetchResume.CallOnPath | src/lob_prefetch_fetch.cpp:240-408 | a call on a prefix beforehand, complete, incomplete or thrown, does not change what the call on the whole decides |
| FetchResume.FedOnPath | src/lob_prefetch_fetch.cpp:240-408 | nor does any sequence of such calls |
| FetchResume.ResumedEqualsOnePass | src/lob_prefetch_fetch.cpp:245-249 | for every message and every sequence of its prefixes fed before it, the outcome equals that of a fresh decoder given the message once: rows, batch bytes, flags, offset, exhaustion, completion, or the error; an oversized message is refused either way |
| FetchBudget.RowCostIsMerged | src/lob_prefetch_fetch.cpp:256-285 | the size counted column by column before a merge is the size of the merged row, or refused exactly when that is over the row limit |
| FetchBudget.AccountedIsMerged | src/lob_prefetch_fetch.cpp:256-285 | a row is accepted if and only if it, the batch with it and the row count are within their limits, and then counts its merged size |
| FetchBudget.OmittedStayNull | src/lob_prefetch_fetch.cpp:186-219 | zero-width columns stay NULL through any merge |
| FetchBudget.EveryCallKeepsBudget | src/lob_prefetch_fetch.cpp:240-408 | in every state reachable by any sequence of calls the batch counter is the summed size of the reconstructed rows, and every row, the batch and the row count are within limits |
| FetchBudget.FreshDecoderKeepsBudget | src/lob_prefetch_fetch.cpp:223-408 | the same from the constructor on |
| FetchDelta.HeaderRoundTrip | src/lob_prefetch_fetch.cpp:31-81 | a written header, with any increasing selection or none, reads back with its selection and its end |
| FetchDelta.ClassicRoundTrip | src/lob_prefetch_fetch.cpp:83-127 | a continuation in the classic form reads back for every selection of up to 4096 columns |
| FetchDelta.UniversalFormRoundTrip | src/lob_prefetch_fetch.cpp:83-127 | a continuation in the universal form reads back if and only if more than 255 columns, their low count byte and the columns that stay in range when moved up by 8 do not add up to the count its first two bytes spell; if they do, other columns are read and a byte is left over |
| FetchDelta.UniversalFormAmbiguous | src/lob_prefetch_fetch.cpp:83-127 | they can add up: 258 changed columns of 272 |
| FetchDelta.NarrowFormsAreTold | src/lob_prefetch_fetch.cpp:83-127 | they never do with at most 255 changed columns or at most 256 columns in all |
| FetchDelta.LobRoundTrip | src/lob_prefetch_fetch.cpp:142-150 | a written LOB cell with its prefix is recognised whole |
| FetchDelta.RowDataRoundTrip | src/lob_prefetch_fetch.cpp:129-161 | written row data reads back value by value |
| FetchRoundTrip.RowDecodes | src/lob_prefetch_fetch.cpp:302-357 | one row in any of the five forms the server may choose decodes to itself, and decoding goes on behind it; the universal form whenever it is not taken for the classic one |
| FetchRoundTrip.RowsDecode | src/lob_prefetch_fetch.cpp:298-357 | any sequence of rows in any forms, with other messages between them, anywhere in a response, decodes to those rows with their batch size |
| FetchRoundTrip.NotesDecode | src/lob_prefetch_fetch.cpp:358-403 | messages without rows are stepped over and leave rows, budget and resume point alone |
| FetchRoundTrip.EndingDecodes | src/lob_prefetch_fetch.cpp:363-395 | each ending completes the response |
| FetchRoundTrip.ResponseRoundTrip | src/lob_prefetch_fetch.cpp:240-415 | a whole written response decodes, completely, to the rows it was written from, whatever parameters, piggybacks and interim end-of-calls stand between them, and whether it ends with the end of the request, a status or an end-of-call; it is exhausted exactly when that says no row is left |
| FetchRoundTrip.CursorRoundTrip | src/native_session.cpp:175-216 | so does a chain of responses, each to a fetch of its own size and relative to the last row of the one before, up to the one that says no row is left |
| RangeSearch.SumOfBits | src/oracle_filter.cpp:556-565 | a + b is twice their and plus their exclusive or, on two's complement integers of any width, and neither leaves the width |
| RangeSearch.FloorMidpoint | src/oracle_filter.cpp:559-561 | the bit formula is the true middle rounded down, every intermediate value a 64-bit integer |
| RangeSearch.CeilMidpoint | src/oracle_filter.cpp:563-565 | and rounded up |
| RangeSearch.KeyRangeSearch.LargestKey | src/oracle_filter.cpp:612-624 | the binary search: a bound above every key, the largest key itself when the filter is exact, in at most 64 questions |
| RangeSearch.KeyRangeSearch.SmallestKey | src/oracle_filter.cpp:625-637 | the same from below |
| RangeSearch.KeyRangeSearch.HalveOne | src/oracle_filter.cpp:651-662 | two questions, and halves that lose no key |
| RangeSearch.KeyRangeSearch.HalveAll | src/oracle_filter.cpp:639-668 | one level: the halves kept of every interval, ordered and covering every key; over budget exactly when the questions it needs exceed what is left |
| RangeSearch.KeyRangeSearch.Refine | src/oracle_filter.cpp:638-672 | terminates at the first level of single points or at the last level that fits both budgets, and says which |
| RangeSearch.MergeNeighbours | src/oracle_filter.cpp:673-682 | merging keeps the set covered, and no two merged ranges touch |
| RangeSearch.EmitTerms | src/oracle_filter.cpp:683-706 | the IN lists and BETWEEN ranges select exactly the points covered, no list longer than Oracle accepts |
| RangeSearch.SearchRanges | src/oracle_filter.cpp:609-711 | the search from its first question to the terms sent |
| RangeSearch.PrefixRangeSql | src/oracle_filter.cpp:567-712 | for a filter that never denies a present key: the terms select every key, at most 2048 terms, at most 16384 questions; exactly the keys when the filter is exact and nothing was left to halve; no predicate exactly when the key type is another or the filter denies the whole domain |
| RangeSearch.NoTermIsLeft | src/oracle_filter.cpp:605-711 | a filter that accepts the whole domain and denies every part of it leaves no term, and "()" is sent |
| ShardRanges.OffsetIsStart | src/oracle_parallel.cpp:262-274 | the offset computed with wrapping 64-bit arithmetic is floor(count * i / shards), for every span up to the full 2^64 keys |
| ShardRanges.RangeComputed | src/oracle_parallel.cpp:275-277 | so are both ends of every range, converted back to signed |
| ShardRanges.PlanShards | src/oracle_parallel.cpp:255-285 | the loop plans those ranges, no more of them than keys, and one more for NULL keys when there are any |
| ShardRanges.RangesPartition | src/oracle_parallel.cpp:255-280 | the ranges start at the minimum, end at the maximum, are consecutive, and differ in size by at most one |
| ShardRanges.AtMostOneShard | src/oracle_parallel.cpp:255-285 | no row, with a whole key, another or NULL, is read by two statements of the plan, the one for NULL keys among them |
| ShardRanges.ReadUnlessInGap | src/oracle_parallel.cpp:255-280 | a key between the bounds is read if and only if it is not strictly between the end of one range and the start of the next |
| ShardRanges.WholeKeysAreRead | src/oracle_parallel.cpp:255-280 | every whole key is read |
| ShardRanges.FractionalKeyMissed | src/oracle_parallel.cpp:255-280 | a fractional key can be missed: 0.5 between the minimum 0 and the maximum 1 with two shards |
| RowidRanges.CutPoints | src/oracle_catalog.cpp:1544-1553 | the cut loop: each cut ends a shortest run of extents holding the target, what is left has none, and the cuts rise |
| RowidRanges.RangesBetween | src/oracle_catalog.cpp:1563-1574 | one half-open range between neighbouring cuts, open at both ends |
| RowidRanges.OneRange | src/oracle_catalog.cpp:1561-1574 | a ROWID is in exactly one of the ranges between rising cuts |
| RowidRanges.RangesPartition | src/oracle_catalog.cpp:1561-1574 | so the ranges partition all ROWIDs |
| RowidRanges.PlanRanges | src/oracle_catalog.cpp:1529-1574 | a table is divided exactly when it is not small and its extents before the last hold a chunk; then the ranges partition all ROWIDs, each but the last holds a chunk's blocks, and there are between 2 and `chunks` of them |
| SqlText.FactorReads | src/oracle_filter.cpp:465-545 | a printed predicate, in front of anything, reads back with its meaning if and only if no list in it is empty |
| SqlText.WhereReads | src/oracle_filter.cpp:797-880 | a WHERE clause of predicates joined with AND reads back as their conjunction if and only if none has an empty list; else it cannot be read |
| SqlText.ParenthesesNeeded | src/oracle_filter.cpp:535-545 | without the parentheses around a disjunction it would not |
| SqlText.QuoteText | src/oracle_filter.cpp:117-123 | the loop quotes a text and doubles its quotes |
| SqlText.QuotedReads | src/oracle_filter.cpp:117-123 | a quoted text reads back whole, whatever it holds and whatever follows |
| JsonPaths.IsSimplePath | src/oracle_filter.cpp:46-76 | the scan accepts exactly the paths made of plain member and index steps |
| JsonPaths.FoundOnce | src/oracle_filter.cpp:38-76 | what such a path finds by DuckDB's exact steps is the one item Oracle's lax steps find |
| JsonPaths.PlainTextAgrees | src/oracle_filter.cpp:78-92 | a text no number, literal, object or array can be written as is extracted alike by both engines |
| JsonPaths.NumbersDiffer | src/oracle_filter.cpp:78-92 | a text that looks like a number need not be: 1.0 |
| ColumnValues.DeclaredNumberExact | src/oracle_types.cpp:139-174 | every number a declared precision admits is read without losing a digit |
| ColumnValues.ReadsExactly | src/oracle_types.cpp:176-182 | a number read from a column that passes the rounding test is the number stored |
| ColumnValues.RoundingLosesOrder | src/oracle_types.cpp:176-182 | a column that fails it can read two stored numbers as one |
| FilterTranslation.SplitNanoseconds | src/oracle_filter.cpp:254-262 | the corrected truncating division is the floor and a remainder that is not negative |
| FilterTranslation.GroupLiterals | src/oracle_filter.cpp:502-517 | the loop splits a list into groups of 1000 with the rest in the last |
| FilterTranslation.GroupsMean | src/oracle_filter.cpp:502-518 | the disjunction of the groups has the three-valued truth of the one list |
| FilterTranslation.ComparisonAgrees | src/oracle_filter.cpp:208-376 | for every column kind, stored value and constant that is not refused, Oracle's comparison of the stored value with the literal has the truth of DuckDB's comparison of the value read |
| FilterTranslation.InAgrees | src/oracle_filter.cpp:485-518 | the same for every equality of an IN list |
| FilterTranslation.TranslationMeansTheSame | src/oracle_filter.cpp:438-545 | the main theorem: for every expression the translator accepts, nested to any depth, and every row, the three-valued truth of the emitted predicate in Oracle is that of the expression in DuckDB |
| FilterTranslation.TranslationIsPrintable | src/oracle_filter.cpp:454-545 | what is emitted has no empty conjunction, so its text can be read back |
| FilterTranslation.RoundedNumbersDiffer | src/oracle_filter.cpp:231-235 | why a rounded NUMBER is refused: 1.21 passes > 1.2 in Oracle and not in DuckDB |
| FilterTranslation.EmptyTextDiffers | src/oracle_filter.cpp:302-309 | why an empty text is refused |
| FilterTranslation.PaddedTextDiffers | src/oracle_filter.cpp:316-321 | why a CHAR is refused |
| FilterTranslation.SubSecondDiffers | src/oracle_filter.cpp:287-292 | why a fraction of a second is refused for a DATE |
| FilterTranslation.InfiniteNanosecondsAreSent | src/oracle_filter.cpp:254-276 | either infinity of TIMESTAMP_NS is sent if and only if the column is a TIMESTAMP, and no infinity of TIMESTAMP ever is |
| FilterSplit.JsonPrefilterKeeps | src/oracle_filter.cpp:125-191 | wherever DuckDB's own test is true the JSON prefilter is true in Oracle |
| FilterSplit.SplitFilters | src/oracle_filter.cpp:797-880 | the loops over filters and conjuncts compute the split, or refuse a column that is not scanned or cannot be read |
| FilterSplit.PieceDecides | src/oracle_filter.cpp:838-877 | one conjunct: kept wherever it is true, and true wherever it is kept unless it is optional |
| FilterSplit.FlattenTrue | src/oracle_filter.cpp:826-837 | a filter is true exactly when all its conjuncts are |
| FilterSplit.SplitKeepsTheAnswer | src/oracle_filter.cpp:797-880 | the rows that pass the pushed WHERE and then the local filters include every row all filters are true of and no row a required conjunct is not true of |
| FilterSplit.SplitIsExact | src/oracle_filter.cpp:797-880 | with no optional conjunct they are exactly the rows wanted |
| FilterSplit.PrefilterIsPrintable | src/oracle_filter.cpp:125-191 | a JSON prefilter can be read back if and only if no disjunction in its filter is empty |
| FilterSplit.EmptyOrIsSent | src/oracle_filter.cpp:146-159 | an empty one is refused by the translator and sent as "()" by the prefilter |
| FilterSplit.FiltersArePrintable | src/oracle_filter.cpp:811-878 | what is sent for a list of filters can be read back if and only if no conjunct that reaches the prefilter holds an empty disjunction and no key ranges are without a term |
| FilterSplit.SentTextMeansTheSplit | src/oracle_filter.cpp:797-880 | under exactly that condition the WHERE text that is sent, read with AND binding tighter than OR, is the conjunction of the predicates meant |
| RangePredicate.TermMeans | src/oracle_filter.cpp:683-706 | Oracle finds an equality, IN list or BETWEEN of a term true of a stored whole number exactly when the term selects it |
| RangePredicate.RangesMean | src/oracle_filter.cpp:707-711 | so for the whole disjunction that is sent |
| RangePredicate.RangesArePrintable | src/oracle_filter.cpp:707-711 | the disjunction can be read back if and only if it has a term, as it has while there is a key to be found |
| RangePredicate.SearchedRangesCover | src/oracle_filter.cpp:716-737 | ranges found by the search hold of every row the join's filter is true of, which is the premise the split has of them |
| SqlLexer.EventsBehind | src/sql_binds.cpp:47-106 | what a scanner sees in a text does not depend on what stands before it, once the text starts outside quotes and comments |
| SqlLexer.EventsJoin | src/sql_binds.cpp:47-106 | what it sees in a text it accepts, a line end and a second text is what it sees in each |
| SqlBinds.SkipLine | src/sql_binds.cpp:49-55 | a line comment ends at the line end or the end of the text |
| SqlBinds.SkipQuoted | src/sql_statement.cpp:27-41 | a quoted text ends at its first undoubled quote, or is refused |
| SqlBinds.SkipCommentOrQuote | src/sql_binds.cpp:49-93 | the comment, quote and q-quote cases both scanners begin with |
| SqlBinds.ExtractPlaceholders | src/sql_binds.cpp:41-108 | the scan returns the placeholder names, canonical and each once, in the order they are first seen |
| SqlBinds.RejectTerminators | src/sql_statement.cpp:84-111 | the scan accepts exactly the texts with no semicolon outside quotes and comments |
| SqlAgreement.ReadAlike | src/sql_statement.cpp:84-111 | the two scanners take the same pieces of a text for comments and quoted text if and only if no bind name in it ends where the other finds a q-quote |
| SqlAgreement.ScannersAgree | src/sql_statement.cpp:84-111 | in a text both accept they see the same semicolons if and only if, while they stand apart, the one behind comes to none |
| SqlAgreement.AcceptAlike | src/sql_statement.cpp:84-111 | where no name opens a q-quote they also accept the same texts |
| SqlComposite.IndexNames | src/sql_binds.cpp:126-130 | the map finds every name's place |
| SqlComposite.StatementBindOrder | src/sql_binds.cpp:110-138 | an order is returned exactly when binds and placeholders are the same names, and it is a permutation of the binds that puts each where its placeholder is first seen |
| SqlComposite.PlaceBinds | src/sql_binds.cpp:131-137 | the loop that places them |
| SqlComposite.FindKeyword | src/sql_statement.cpp:43-82 | the first keyword after blanks and comments, in upper case, or the refusal of an open comment |
| SqlComposite.OperationAllowed | src/call_builder.cpp:229-252 | one statement passes exactly when it is DML without a terminator whose placeholders all have binds |
| SqlComposite.BuildComposite | src/call_builder.cpp:204-264 | the builder accepts exactly the lists of statements and binds within all its limits, and returns the block |
| SqlBlock.BlockReads | src/call_builder.cpp:227-262 | what either scanner sees in the block is what it sees in the statements and in the builder's own text, in order |
| SqlBlock.BlockSemicolons | src/call_builder.cpp:252-259 | for the terminator scanner the only semicolons outside quotes are the 3n+1 the builder wrote, each at its place |
| SqlTerminators.BlockSemicolonsForBinds | src/call_builder.cpp:227-262 | for the placeholder scanner they are those if and only if it sees no semicolon in any of the statements |
| SqlTerminators.AcceptedBlockEnds | src/call_builder.cpp:204-264 | both for whatever the builder accepts: a statement can end early for the placeholder scanner alone, and does exactly when in it one scanner passes over a semicolon the other comes to |
| SqlTerminators.AcceptedStatementEndsEarly | src/call_builder.cpp:249-252 | a DELETE the builder accepts that does |
| SqlBlock.BlockPlaceholders | src/call_builder.cpp:240-262 | the block's placeholders in first-occurrence order are the ordered union of each statement's |
| SqlBlock.RefusedOnlyForUnusedBinds | src/call_builder.cpp:260-262 | the last check fails exactly when some bind is named by no statement |
| SqlBlock.PickedBindsMatch | src/call_builder.cpp:239-252 | the check of one statement against the binds picked for it never fails |
| ParallelScan.OwnCursorNeverEndsEarly | src/oracle_query.cpp:3252-3285 | a thread with its own cursor hands over what passes and never an empty chunk |
| ParallelScan.NextKeeps | src/oracle_query.cpp:3156-3286 | every step of any thread keeps the invariant that ties chunks, readers and rows handed over |
| ParallelScan.RunKeeps | src/oracle_query.cpp:3156-3286 | so every state of every run has it |
| ParallelScan.ChunksAreTheTable | src/oracle_catalog.cpp:1561-1574 | the chunks of a table cut into a partition of the ROWIDs are the table, as a bag |
| ParallelScan.RowsHandedOverOnce | src/oracle_query.cpp:3156-3286 | over the ROWID ranges of a table, under every interleaving and all batch sizes, the rows handed over are at every moment among those that pass, each at most as often as it stands in the table, and exactly those once every thread is done |
| ShardScan.ShardsOfRow | src/oracle_parallel.cpp:255-285 | given the bounds of the keys and whether there are NULLs, a row with a key or without is in exactly one shard, or in none if its key lies between two |
| ShardScan.ShardedRowsOnce | src/oracle_parallel.cpp:311-364 | over key shards, under every interleaving and all batch sizes, no row has at any moment been handed over more often than it stands in the table; once every thread is done each has been as often as it stands there, but never if its key lies between two shards |
| ShardScan.WholeTableReturned | src/oracle_parallel.cpp:311-364 | the table is returned whole if and only if no key in it lies between two shards |
| ShardScan.WholeKeysReturned | src/oracle_parallel.cpp:255-364 | a table whose keys are whole or NULL is returned whole |
| ParallelScan.StreamDeliversAll | src/oracle_query.cpp:3256-3285 | a scan through one shared cursor delivers every row wanted if and only if no empty batch comes before one of them |
| ParallelScan.NextOutput | src/oracle_query.cpp:3156-3286 | one call of the scan function on one stream |
| ParallelScan.ReadStream | src/oracle_query.cpp:3141-3287 | the calls until one hands over nothing |
| DeferredColumns.LocateRows | src/oracle_query.cpp:3070-3087 | the map from ROWIDs to the rows that passed |
| DeferredColumns.ClearOthers | src/oracle_query.cpp:3076-3082 | the rows that did not pass get no value, the others keep theirs |
| DeferredColumns.WriteAnswers | src/oracle_query.cpp:3111-3124 | each answer goes to the row of its ROWID; one not asked for is refused; no other row changes |
| DeferredColumns.ReadGroups | src/oracle_query.cpp:3088-3133 | the statements of 500 ROWIDs each, and the count of rows found |
| DeferredColumns.EveryQuestionIsAnswered | src/oracle_query.cpp:3134-3137 | the final count means what it is for: as many answers as questions, all asked for and none twice, leave no question unanswered |
| DeferredColumns.FillDeferredColumns | src/oracle_query.cpp:3061-3139 | accepts exactly when only asked-for rows and as many as asked came back; then every row that passed holds the value stored under its own ROWID, and every other row none |
| ResolverPool.SubmitKeeps | src/connect_plan.cpp:139-163 | queueing a request, starting a worker, failing to start one, and withdrawing when there is none keep the invariant |
| ResolverPool.LookKeeps | src/connect_plan.cpp:202-226 | so does a worker that takes a request, sleeps or wakes for no reason |
| ResolverPool.GiveUpKeeps | src/connect_plan.cpp:164-172 | so does a caller that gives up |
| ResolverPool.RunKeeps | src/connect_plan.cpp:132-234 | in every run at most 4 workers and 16 queued requests, first come first served, a queued request always has a worker awake or on its way, and without spawn failures no request waits for a worker that could still be started |
| ResolverPool.StartedOnceAndNotAfterWithdrawal | src/connect_plan.cpp:139-226 | each request is started at most once, never after it was withdrawn, and what was started and then what is queued is what was submitted and not withdrawn, in order |
| ResolverPool.Pool.constructor | src/connect_plan.cpp:228-233 | the pool starts empty |
| ResolverPool.Pool.Resolve | src/connect_plan.cpp:139-163 | the section under the lock is a Submit step, and reports exhaustion exactly when the request was withdrawn |
| ResolverPool.Pool.Erase | src/connect_plan.cpp:195-200 | the loop takes the request out of the queue and leaves the others in order |
| ResolverPool.Pool.Withdraw | src/connect_plan.cpp:195-200 | is a GiveUp step |
| ResolverPool.Pool.Enter | src/connect_plan.cpp:202-226 | a worker newly started or with an answer is a Look step |
| ResolverPool.Pool.Wake | src/connect_plan.cpp:205-213 | a worker that wakes is one too |
| ConnectOrder.Shuffle | src/connect_plan.cpp:43-49 | the swaps in place, one draw each, leave a permutation of the array |
| ConnectOrder.ShuffleIsAPermutation | src/connect_plan.cpp:43-49 | for every sequence of draws |
| ConnectOrder.ShuffleReaches | src/connect_plan.cpp:43-49 | and every order of the values is reached by some draws |
| ConnectOrder.ActiveChildren | src/connect_plan.cpp:51-69 | the four FAILOVER and LOAD_BALANCE rules |
| ConnectOrder.PlanConnectOrder | src/connect_plan.cpp:248-257 | the rules applied to the lists and then inside each |
| ConnectOrder.FailoverTriesEveryAddress | src/connect_plan.cpp:248-257 | with failover everywhere the order is a permutation of all addresses, and the order written when nothing is balanced |
| TopN.OrderableReadsTheSame | src/oracle_optimizer.cpp:40-56 | for a key column that is allowed, what Oracle sorts by is what DuckDB sorts by |
| TopN.RoundedKeyRanksOtherwise | src/oracle_optimizer.cpp:40-43 | why a rounded column is not: 1.21 and 1.2 rank otherwise under a second key |
| TopN.ResolveToScanColumn | src/oracle_optimizer.cpp:61-83 | the loop follows a binding down to a table column or to nothing |
| TopN.ResolvedHoldsTheColumn | src/oracle_optimizer.cpp:61-83 | a binding that comes down to a column holds that column's value in every row of the plan's output |
| TopN.PushTopN | src/oracle_optimizer.cpp:85-127 | pushes exactly when every key is allowed and the counts are within bounds, and then the keys, directions, NULL placements and limit plus offset of the plan |
| TopN.CutOfFirstRowsIsAResult | src/oracle_optimizer.cpp:655-670 | sorting any valid first limit + offset rows again and cutting gives a valid result of the whole table, however Oracle breaks ties |
| TopN.EnginesCompareAlike | src/oracle_optimizer.cpp:655-670 | both engines compare any two rows alike by the keys sent |
| TopN.PushedTopNIsAResult | src/oracle_optimizer.cpp:85-127 | the two together, over the values Oracle stores and the values DuckDB reads |
| TopN.FirstRowsExist | src/oracle_optimizer.cpp:655-670 | whatever the rows, keys and views, there are first rows to return and an order to sort them in again |
| TopN.FilterAfterwardsLosesRows | src/oracle_query.cpp:2861-2864 | why the clause is sent only when no local filter is left |
| TopNScan.WhereIsTheFilter | src/oracle_query.cpp:2843-2864 | with no filter left here the WHERE clause sent is true of every row all filters are true of, of none a required conjunct is not true of, and of exactly the former when no conjunct is optional |
| TopNScan.SentTopNIsAResult | src/oracle_query.cpp:2843-2864 | when the guard lets the clause go, any first rows under the WHERE clause, sorted again and cut, are a result over the rows under it, which are all the rows wanted and, unless a conjunct is optional, only those |
| AggregateRewrite.KeysMatch | src/oracle_optimizer.cpp:218-230 | stored group keys are equal exactly when the values read are |
| AggregateRewrite.BestReadsAsBest | src/oracle_optimizer.cpp:258-259 | MIN and MAX of a column, rounded on reading or not, read as the MIN and MAX of the values read |
| AggregateRewrite.CountsAgree | src/oracle_optimizer.cpp:256-257 | COUNT of a column agrees |
| AggregateRewrite.SumsAgree | src/oracle_optimizer.cpp:260-276 | SUM of an exactly read column agrees, NULL over nothing included |
| AggregateRewrite.PlanPushedAggregate | src/oracle_optimizer.cpp:173-292 | the refusals of grouping sets, GROUPING(), samples, filters still to come, nested columns and filters not sent, of DISTINCT, FILTER and ORDER BY in a call, of a key or call whose type is not the one wanted, and the loops that plan the keys and then the calls |
| AggregateRewrite.PlannedExactly | src/oracle_optimizer.cpp:173-292 | a plan is made exactly when none of those applies, every key and call may be sent, and there is something to select |
| AggregateRewrite.PlannedTypes | src/oracle_optimizer.cpp:218-281 | every column planned but COUNT(*) has the type the plan wants for it: a key its own, COUNT a BIGINT, MIN and MAX the column's, SUM a HUGEINT or a decimal of 38 digits |
| AggregateRewrite.PlannedItemsFit | src/oracle_optimizer.cpp:173-292 | whatever is planned meets the conditions the theorem needs |
| AggregateRewrite.GroupsTheSame | src/oracle_optimizer.cpp:294-368 | both engines form the same groups, NULL keys included |
| AggregateRewrite.PushedAggregateReturnsTheSame | src/oracle_optimizer.cpp:294-368 | the statement returns the rows the AGGREGATE returned, in every column, over empty input too |
| AggregateRewrite.BindingsFollow | src/oracle_optimizer.cpp:354-367 | in every row of the result a moved binding is at the position that holds the value it named |
| JoinRewrite.Select | src/oracle_optimizer.cpp:424-432 | finds a column among those selected or adds it, once |
| JoinRewrite.PushJoin | src/oracle_optimizer.cpp:466-595 | a statement is built exactly when the join is a plain inner one, both scans only read and are of one attached database with one secret, and every condition and output may be sent; it has each of them in order, each placed in its view, and selects no column twice |
| JoinRewrite.OnAgrees | src/oracle_optimizer.cpp:447-464 | a pair of rows joins in Oracle exactly when it joins in DuckDB |
| JoinRewrite.ValuesAgree | src/oracle_optimizer.cpp:540-595 | each output position holds the column the old binding named |
| JoinRewrite.PushedJoinReturnsTheSame | src/oracle_optimizer.cpp:466-595 | the two inline views joined return the bag of rows the inner join of the filtered scans returned |
| Utf.EncodeUtf8ToUtf16 | src/ttc_lob.cpp:238-292 | the loop converts or refuses exactly as the first malformed character decides |
| Utf.FirstReadsBack | src/ttc_lob.cpp:247-281 | every code point written as UTF-8 is read back, in front of anything |
| Utf.TextConverts | src/ttc_lob.cpp:238-292 | valid UTF-8 (section 3 of RFC 3629) converts to its own UTF-16 (section 2.1 of RFC 2781), surrogate pairs included |
| Utf.StartsHere | src/temp_lob.cpp:18-29 | in valid UTF-8 a byte that continues nothing is the start of a character |
| TempLob.Utf8PieceEnd | src/temp_lob.cpp:18-29 | the piece ends as late as the limit allows, at a byte that continues nothing, or is refused |
| TempLob.PieceEndsOnABoundary | src/temp_lob.cpp:16-29 | in valid UTF-8 each piece makes progress and ends on a character boundary |
| TempLob.ConversionJoins | src/temp_lob.cpp:67-82 | pieces converted one by one are the conversion of the whole |
| TempLob.TemporaryLobWriter.Create | src/ttc_lob.cpp:295-308 | a new empty LOB, or a refusal that creates none |
| TempLob.TemporaryLobWriter.Write | src/ttc_lob.cpp:310-325 | writes at a 1-based offset in UTF-16 units or bytes; an offset of zero, no data or too much is refused |
| TempLob.TemporaryLobWriter.Free | src/ttc_lob.cpp:327-343 | names the locators in one message; none, or more than a message holds, are not sent |
| TempLob.TemporaryLobScope.ConvertBind | src/temp_lob.cpp:49-88 | a bind sent by locator has a LOB that holds exactly its content; whatever fails, every LOB created is recorded once; with valid text only the server can make it fail |
| TempLob.TemporaryLobScope.WritePiece | src/temp_lob.cpp:68-81 | one piece goes to the end of its LOB and the offset follows |
| TempLob.TemporaryLobScope.WriteContent | src/temp_lob.cpp:65-82 | the pieces together are the whole value, and no other LOB changes |
| TempLob.TemporaryLobScope.Convert | src/temp_lob.cpp:90-96 | large LOB binds go by locator and all others stay as they were |
| TempLob.TemporaryLobScope.ConvertColumn | src/temp_lob.cpp:103-119 | one column of a batch goes by locator in every row or in none |
| TempLob.TemporaryLobScope.ConvertRows | src/temp_lob.cpp:98-120 | every column of the first row is carried so, rows of other widths included, and every other column stays as it was |
| TempLob.ColumnStaysUniform | src/temp_lob.cpp:98-120 | rows that described a column alike still do |
| TempLob.TemporaryLobScope.Release | src/temp_lob.cpp:122-129 | everything recorded is named once in one message, a second release does nothing, more than 4096 locators release nothing |
| TempLob.RunGroup | src/native_session.cpp:573-640 | the same for a group of a batch, whose need is one LOB for each LOB value of each column with a large one |
| TempLob.FullGroupIsTooLarge | src/native_session.cpp:564-577 | a full group of 1024 rows with five large columns needs 5120 |
| TempLob.WithTemporaryLobs | src/native_session.cpp:389-408 | on success and on every failure each LOB created is named exactly once in one release, or there are more than 4096 and none is; it fails whenever more than 4096 binds are large, and otherwise only when the statement or the server does |
| FloatOrder.SortableFloating | src/oracle_vector.cpp:52-68 | the bytes one at a time, then flipped in place |
| FloatOrder.SortableReadsBack | src/oracle_vector.cpp:30-48 | reading undoes it for every bit pattern |
| FloatOrder.SortsAsTotalOrder | src/oracle_vector.cpp:50-68 | the bytes of two floats compare as totalOrder (section 5.10 of IEEE 754-2008) compares the floats, NaNs included |
| FloatOrder.OneInUnits | src/oracle_vector.cpp:50-68 | the value the bits of a float or double stand for, at the number one |
| FloatOrder.FloatsSort | src/oracle_vector.cpp:69-71 | the bytes of two floats compare as their values |
| FloatOrder.DoublesSort | src/oracle_vector.cpp:72-74 | and those of two doubles |
| FloatOrder.SortsAsValues | src/oracle_vector.cpp:50-68 | and as their values, with minus zero before zero |
| VectorImage.ReadBigEndian | src/oracle_vector.cpp:76-82 | most significant byte first |
| VectorImage.ReadElements | src/oracle_vector.cpp:98-122 | the elements of each storage format |
| VectorImage.ReadIndices | src/oracle_vector.cpp:184-191 | the sparse indices, refused unless strictly increasing and in range |
| VectorImage.PutIndices | src/oracle_vector.cpp:236-246 | and written under the same condition |
| VectorImage.EncodeOracleVector | src/oracle_vector.cpp:200-269 | the encoder with its refusals |
| VectorImage.DecodeOracleVector | src/oracle_vector.cpp:126-194 | the decoder with its refusals |
| VectorImage.ReadDense | src/oracle_vector.cpp:159-168 | its dense half |
| VectorImage.ReadSparse | src/oracle_vector.cpp:169-193 | its sparse half |
| VectorImage.ImageReadsBack | src/oracle_vector.cpp:126-268 | every vector the encoder accepts decodes to itself |
| VectorImage.DecodedIsEncodable | src/oracle_vector.cpp:126-268 | every image the decoder accepts holds a vector the encoder accepts, with its indices increasing and in range, and writing it again loses nothing |
| DescriptorText.Parser.SkipWhitespace | src/descriptor_parser.cpp:173-177 | moves over white space and no further |
| DescriptorText.Parser.ParseQuotedAtom | src/descriptor_parser.cpp:87-107 | a quoted value of up to 1024 printable characters, or a refusal |
| DescriptorText.Parser.ParseAtom | src/descriptor_parser.cpp:109-143 | quoted and plain values and keys, with the white space around them |
| DescriptorText.Parser.ParseNodeAt | src/descriptor_parser.cpp:52-81 | the recursive descent over one node, with its depth limit |
| DescriptorText.Parser.Parse | src/descriptor_parser.cpp:41-50 | the whole text and nothing behind it |
| DescriptorText.TextReads | src/descriptor_parser.cpp:52-81 | a node written with any white space between its tokens parses to itself, in front of anything |
| DescriptorText.WrittenTreeParses | src/descriptor_parser.cpp:41-81 | so does any well-formed tree within the depth limit |
| ConnectDescriptor.ParseNumber | src/descriptor_parser.cpp:230-245 | the digit loop of ports and seconds, refused at the first other character or above the maximum |
| ConnectDescriptor.MergeDescriptions | src/descriptor_parser.cpp:460-501 | the loop over a DESCRIPTION_LIST |
| ConnectDescriptor.DescriptionIsConsistent | src/descriptor_parser.cpp:513-612 | in a description that is accepted the endpoints are its flattened address lists |
| ConnectDescriptor.EndpointsAreTheLists | src/descriptor_parser.cpp:443-511 | the same for anything accepted, merged lists included, with between 1 and 16 endpoints |
| ConnectString.DecimalReads | src/descriptor_parser.cpp:230-245 | a printed number parses back |
| ConnectString.AddressReads | src/descriptor_parser.cpp:336-357 | the printed ADDRESS parses to its protocol, host and port |
| ConnectString.DatabaseReads | src/descriptor_parser.cpp:385-431 | the printed CONNECT_DATA parses to its service or SID, instance and server type |
| ConnectString.TextParses | src/connect_descriptor.cpp:192-219 | the built text parses to the tree it is written from |
| ConnectString.ConnectStringReadsBack | src/connect_descriptor.cpp:192-227 | parsing what BuildAuthConnectString returns gives back the address, service or SID, instance and server type it was built for |
| CallableName.ParseComponent | src/call_builder.cpp:36-79 | where a quoted or plain component ends, or its refusal |
| CallableName.UnquoteComponent | src/call_builder.cpp:119-126 | the stored name of a quoted component |
| CallableName.SplitOracleCallableName | src/call_builder.cpp:105-143 | the split loop with its limit of three components |
| CallableName.SpelledNamesSplit | src/call_builder.cpp:105-143 | any one to three stored names, spelled in quotes, split back into themselves |
| CallableName.AcceptedExactly | src/call_builder.cpp:83-103 | the names accepted are exactly one to three components with points between them, with or without one more point at the end |
| CallableName.TrailingPointIsAccepted | src/call_builder.cpp:83-103 | that last point is accepted for every name |

## Left out

- Sockets, TLS, wallets, authentication and session set-up: foreign calls with no logic of this repository's own.
- Timeouts, clocks, interrupts and cancellation, except that a caller of the resolver pool may give up at any moment.
- The list of messages between a cursor and its channel: a chain of responses is modelled by their texts alone.
- The value of a prefetched LOB cell: the decoder keeps its bytes, and so does the model; reading them later is left out.
- Conversion of column values into DuckDB vectors: only the mapping of NUMBER, and that instants keep their nanoseconds or are rounded, is modelled.
- The calendar: an instant is a number of nanoseconds, and the digits of a date literal are left out; so are the digits of a numeric literal.
- DuckDB's LookupRange: any sound range filter stands for it.
- ResolverPool.Pool.Resolve: requests are numbers, each submitted once; waiting for room in a full queue is the absence of a step.
- JoinRewrite.PushJoin: the flag for an XMLTYPE column is left out, since such a column is described as a CLOB (src/oracle_catalog.cpp:335-339), which is refused by its type.
- AggregateRewrite.SumsAgree: leaves out sums that pass 38 digits, and the text form in which a sum of integers travels.
- ConnectDescriptor and the rest of its file: the grammar for values a listener sends, redirects, Easy Connect text and the tnsnames lookup are left out.
- ConnectString.ConnectStringReadsBack: leaves out the variant with the client's identity and a connection id, whose values the strict grammar does not read back.
- SqlComposite.BuildComposite: of the validation of one bind it has only names, duplicates and sizes.
- SqlLexer and the other text modules: characters are those of the C locale, and texts are sequences of characters rather than bytes.
- Normalising an anonymous block, sequence numbers, the session pool and the call registry: trimming and counting.
