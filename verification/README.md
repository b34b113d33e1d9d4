# KesselDB in Dafny

A Dafny 4.11 model of the deterministic cores of KesselDB, a replicated database written in Rust, with proofs
about them. Loops of the original are methods proved against recursive functions; objects whose fields the original
updates are classes; what the design promises is proved about those functions and states as lemmas over all inputs,
all runs or all streams.

| part | modules |
|---|---|
| record layout and codec | `Bytes`, `Schema`, `Codec` |
| expression machine, LIKE, triggers, compiled filters | `LikeMatcher`, `Expr`, `Loads`, `Filter`, `ColumnFilters`, `StaticFilters`, `Trigger` |
| dates | `Decimal`, `Calendar` |
| read cache | `Cache`, `CacheRuns` |
| Brotli decoder | `BitReading`, `Brotli`, `Huffman`, `PrefixCodes`, `ComplexCodes`, `Commands`, `Distances`, `Lz77`, `Metablock`, `BrotliStream` |
| Brotli printers and readings of RFC 7932 beside the decoder | `BrotliPrint`, `CodeWords`, `CompressedPrint`, `CompressedStream`, `LoneLengths`, `OnlyAccepted`, `DistanceReset`, `DistanceCarry`, `PreStream`, `PreStreamSeen` |
| JSON, printed by the client and parsed by the fetcher | `Utf8`, `JsonPrint`, `JsonParse`, `JsonRows`, `BareRows` |
| catalog format | `Wire`, `TypeDefs`, `Recipes`, `Catalogs` |
| HTTP gateway | `HttpText`, `HttpRequest`, `HttpLoop`, `HttpPrint`, `HttpChunks` |

`dafny verify dfyconfig.toml` checks the whole project.

## Conventions

- A byte is an integer below 256. Fixed-width integers are subset types; wrap-around and truncation are written out
  where the original has them (128-bit arithmetic, sign extension, length prefixes cut to 16 or 32 bits).
- Text is a sequence of Unicode scalar values; `Utf8` gives its bytes, and the replacing decoder of the standard
  library part by part.
- A panic of the original is an explicit error value, never a precondition.
- Sockets, clocks and hash functions are parameters: the reads of a connection are a sequence of byte strings, the
  routes a function from request to reply, SHA-256 and HMAC two uninterpreted functions.

## Where code and promise part ways

The model follows the code. For each of these a lemma says exactly when the promise holds, and one gives inputs on which
it does not.

- LIKE takes a `%` of the pattern that faces a `%` of the text as that byte: `TextIsJudgedRightly` and
  `PatternJudgesRightly`; `PercentInTextIsMisjudged`.
- Compiled filters compare strictly where the interpreter compares loosely: `ComparisonsAgree`,
  `FinalComparisonDecides` and `ColumnComparison`; `NullAgainstItself` and `NumberAgainstText`. `CheckedFilterAgrees`
  has a check on the schema alone.
- Compiled filters see no NULL in rows stored under an older schema once the padded record size has grown:
  `FaithfulIsExact`; every such row by `StoredRowIsFaithful`.
- The catalog drops the serial field of a type without a serial key: `Catalogs.RoundTrip`; every such catalog by
  `DecodeEncode`.
- A chunked POST cut behind its header block is refused instead of awaited: `CutAnywhere`; every printed one by
  `CutBehindHead`.
- A connection can go differently with the split of its bytes, for chunked POSTs and near the buffer limit:
  `SegmentationIndependence`; `SplitsDiffer` and `ChunkedIsUnsteady`.
- The body of a GET stays in the stream, where the next request is looked for: `BodyTaken`; `GetLeavesBody`.
- The line break behind a chunk is skipped unread: `OnlyClosedAccepted`; any other bytes there by `ChunkRoundTrip`.
- A column whose name has a dot cannot be read back from printed JSON: `ReadableNames`, which has both directions.
- A record without a length before it is not always rendered as itself, since its schema version is taken for a length:
  `BareRecord`, `StoredRecordRenders` and `SmallRecordRenders`; `RenderedAsNulls`.
- A Brotli code-length code with a single length is read with that many bits, where section 3.5 of RFC 7932 gives it
  none: `RfcAgreement`; `LoneRejected`.
- A Brotli prefix code may set a single length, where section 3.5 asks for two: `OnlyDecoderAccepts`; `SingleAccepted`
  and `RepeatsAccepted`.
- The recent distances of Brotli start afresh in every metablock, where section 4 of RFC 7932 carries them on.
  `SameDraws` and `CarryUnseen` say exactly when both take the same distances, from which equal output follows;
  `ResetSeen` has a stream with different output.
- A Brotli copy from before the start of the stream is filled with zeros as long as its distance is within the window,
  where section 4 of RFC 7932, and the comment above the decoder, take the distance for a reference to the dictionary:
  `InsideUnseen`; `ZerosSeen`.
- The seven-bit window descriptors of Brotli are not those of section 9.1 of RFC 7932: `WindowAgreement`;
  `WindowDiffers`.

One comment is out of step too: it gives the initial recent distances as 16, 15, 11, 4. The code, and the model with it,
starts with 4, 11, 15, 16, as section 4 of RFC 7932 has it, most recent first.

## Model

| member | source | states |
|---|---|---|
| `Schema.ComputeNextPow2` | crates/kessel-catalog/src/lib.rs:179-186 | the doubling loop from 16 ends at the next power of two for any size |
| `Schema.RecordSizeIsLeastPow2` | crates/kessel-catalog/src/lib.rs:179-224 | the padded record size is the least power of two that is at least 16 and holds every field |
| `Schema.ComputeLayout` | crates/kessel-catalog/src/lib.rs:213-224 | each offset is the header plus the widths before it, and the record size is the padded total |
| `Schema.OffsetsSurviveAppend` | crates/kessel-catalog/src/lib.rs:5-10 | appending columns never moves an existing column |
| `Codec.Encode` | crates/kessel-codec/src/lib.rs:48-98 | the in-place encoder gives exactly header, NULL bitmap, field bytes and zero padding, or the first error in field order; a NULL past field 64 and a number wider than 16 bytes are the panics of the original |
| `Codec.Decode` | crates/kessel-codec/src/lib.rs:149-176 | decoding gives one value per field, or ShortRecord exactly when some stored field does not fit in the record |
| `Codec.FieldRoundTrip` | crates/kessel-codec/src/lib.rs:104-146 | a stored value is read back (blobs zero-padded) if and only if it fits its kind: width, sign and value class |
| `Codec.UpProjection` | crates/kessel-codec/src/lib.rs:149-176 | a record decodes under any schema with appended columns; each old column gives its value back if and only if the value fits, each new column is NULL |
| `Codec.RecordBit` | crates/kessel-codec/src/lib.rs:40-46 | bit k of the stored bitmap is set exactly for the NULL fields |
| `LikeMatcher.LikeMatch` | crates/kessel-expr/src/lib.rs:83-106 | the one-backtrack loop ends for all inputs (star, mark, text index) and decides the recursive reading in which a percent sign facing a percent byte is that byte |
| `LikeMatcher.MatcherIsSound` | crates/kessel-expr/src/lib.rs:83-106 | a text the loop accepts matches the SQL meaning of the pattern |
| `LikeMatcher.TextIsJudgedRightly` | crates/kessel-expr/src/lib.rs:83-106 | every pattern judges a text as SQL LIKE does if and only if the text has no percent byte |
| `LikeMatcher.PatternJudgesRightly` | crates/kessel-expr/src/lib.rs:83-106 | a pattern judges every text as SQL LIKE does if and only if the pattern has no percent sign |
| `LikeMatcher.PercentInTextIsMisjudged` | crates/kessel-expr/src/lib.rs:83-106 | for every text with a percent byte, a pattern of blanks around one percent sign that LIKE accepts and the loop rejects |
| `Expr.WriteField` | crates/kessel-expr/src/lib.rs:277-326 | the in-place field store writes exactly the bytes and the NULL bit of one field, and fails only where the original panics |
| `Expr.Dispatch` | crates/kessel-expr/src/lib.rs:340-543 | one instruction of the machine: stack and working record after it, or its error |
| `Expr.RunProgram` | crates/kessel-expr/src/lib.rs:340-543 | the dispatch loop computes the recursive meaning of the bytecode, with gas, underflow and malformed code as errors |
| `Expr.Eval` | crates/kessel-expr/src/lib.rs:547-554 | a predicate is the truth of the top of the stack; an empty stack is an error, a rejection too |
| `Expr.EvalTrigger` | crates/kessel-expr/src/lib.rs:558-570 | a trigger gives the working record, or nothing when it rejects |
| `Expr.RunAfterBlock` | crates/kessel-expr/src/lib.rs:340-543 | running code in two parts is running the whole: stack, working record and gas carry over |
| `Loads.LoadAgreesWithDecode` | crates/kessel-expr/src/lib.rs:181-269 | on every record encode makes, under its schema or one with appended columns of distinct ids, LOAD_FIELD is NULL exactly where decode is and equal in value elsewhere |
| `Loads.ReadersAgree` | crates/kessel-expr/src/lib.rs:205-269 | field by field, the interpreter and the codec read the same value from any codec-shaped record that holds the field |
| `Filter.CompileFilter` | crates/kessel-expr/src/lib.rs:973-1090 | the compiler loop gives the closure, or the error, of the recursive compilation |
| `Filter.ComparisonClosure` | crates/kessel-expr/src/lib.rs:836-915 | every comparison closure, specialised or not, is the strict comparison of the two operand values |
| `Filter.FilterIsStrictEval` | crates/kessel-expr/src/lib.rs:917-1090 | on a record whose NULLs both sides see alike, the closure gives the verdict of the interpreter with strict comparisons, for every program it accepts within the gas limit |
| `Filter.FilterAgreesOnStoredRow` | crates/kessel-expr/src/lib.rs:340-543 | compiler correctness: on every record encode makes under the current schema the closure equals eval, when each comparison met is one both readings judge alike |
| `Filter.ComparisonsAgree` | crates/kessel-expr/src/lib.rs:424-450 | the two comparison readings agree if and only if it is not EQ of two NULLs and not NE of different kinds |
| `Filter.FinalComparisonDecides` | crates/kessel-expr/src/lib.rs:836-1090 | a program that ends in a comparison has equal verdicts if and only if that comparison is one of those |
| `ColumnFilters.ColumnComparison` | crates/kessel-expr/src/lib.rs:836-1090 | a filter that compares any two columns of a stored row is accepted, and gives the verdict of eval if and only if it is not EQ of two NULLs and not NE of a NULL with a value or of a number with bytes |
| `ColumnFilters.NullAgainstItself` | crates/kessel-expr/src/lib.rs:424-450 | a stored row and an accepted filter that differ: EQ of a NULL column with itself |
| `ColumnFilters.NumberAgainstText` | crates/kessel-expr/src/lib.rs:424-450 | another: NE of a number and a text |
| `StaticFilters.CheckedIsClean` | crates/kessel-expr/src/lib.rs:806-1090 | a program that passes a check of column kinds and nullability along its bytecode never compares two NULLs with EQ or different kinds with NE, on any record whose columns load as foreseen |
| `StaticFilters.CheckedFilterAgrees` | crates/kessel-expr/src/lib.rs:806-1090 | so its closure gives the verdict of eval on every stored row, also of an older schema, as long as the padded record size is the same |
| `StaticFilters.ComparisonCheckIsExact` | crates/kessel-expr/src/lib.rs:836-1090 | a comparison of two columns passes if and only if closure and eval agree on every row that can be stored, but for NE of a column with itself, on which they always agree |
| `Filter.StoredRowIsFaithful` | crates/kessel-expr/src/lib.rs:706-751 | a row stored before columns were added is read rightly by new closures if and only if the padded record size did not change |
| `Filter.FaithfulIsExact` | crates/kessel-expr/src/lib.rs:721-751 | all programs get the right verdict from their closures on a record if and only if both sides see its NULLs alike |
| `Trigger.RunIsEffects` | crates/kessel-expr/src/lib.rs:340-543 | a run is a list of stores, computed from the original record alone, applied to the working record |
| `Trigger.StoresCommute` | crates/kessel-expr/src/lib.rs:277-326 | stores to two different fields commute, bytes and NULL bits |
| `Trigger.OrderIndependence` | crates/kessel-expr/src/lib.rs:335-340 | a trigger of self-contained blocks that store to different fields gives the same record, or the same failure, under every permutation of the blocks |
| `Calendar.CivilIsDateAfter` | crates/kessel-objstore/src/lib.rs:108-121 | for every day the closed form gives the date reached by stepping the Gregorian calendar day by day from 1970-01-01 |
| `Calendar.WeekdayIsWeekdayAfter` | crates/kessel-objstore/src/azure.rs:16-16 | the weekday advances by one each day from a Thursday |
| `Calendar.PrintedDates` | crates/kessel-objstore/src/azure.rs:12-31 | for every second the three texts spell that date, weekday and time of day, zero-padded, and the time recomposes to the input |
| `Cache.ReadCache.constructor` | crates/kessel-cache/src/lib.rs:31-40 | an empty cache of capacity at least one |
| `Cache.ReadCache.Get` | crates/kessel-cache/src/lib.rs:47-62 | a hit returns the listed value and moves its key to the most recent place, a miss changes nothing; the counters follow |
| `Cache.ReadCache.Insert` | crates/kessel-cache/src/lib.rs:65-79 | the list after insertion: an old key moves to the end with the new value, a new key evicts the first entry when full |
| `Cache.ReadCache.Least` | crates/kessel-cache/src/lib.rs:72-76 | the smallest pair of the ordered set is the least recently used entry |
| `Cache.ReadCache.Invalidate` | crates/kessel-cache/src/lib.rs:83-87 | exactly one key leaves the list |
| `Cache.ReadCache.Clear` | crates/kessel-cache/src/lib.rs:91-94 | the list is empty |
| `Cache.ReadCache.Len` | crates/kessel-cache/src/lib.rs:96-98 | the number of entries is the length of the recency list, never above the capacity |
| `CacheRuns.RunsKeepOrder` | crates/kessel-cache/src/lib.rs:42-94 | after every run the list is within capacity and ordered by last use |
| `CacheRuns.EvictsLeastRecentlyUsed` | crates/kessel-cache/src/lib.rs:65-79 | inserting a new key into a full cache drops exactly the entry whose last use is oldest and keeps all others |
| `CacheRuns.RunsAreCoherent` | crates/kessel-cache/src/lib.rs:81-94 | if every change of the store inserts or invalidates its key and every abort clears, no run leaves a stale entry |
| `CacheRuns.ReadsShowTheStore` | crates/kessel-cache/src/lib.rs:47-94 | so a read through the cache always gives the store value |
| `CacheRuns.UntoldChange` | crates/kessel-cache/src/lib.rs:81-87 | one change the cache is not told of keeps it coherent if and only if the key is not cached or the value is the same |
| `BitReading.BitReader.ReadBits` | crates/kessel-parquet/src/brotli_bit_reader.rs:87-120 | the byte-chunk loop returns the next n bits, first bit lightest, and advances by n; a failed read leaves the cursor |
| `BitReading.ReadIsBitByBit` | crates/kessel-parquet/src/brotli_bit_reader.rs:87-120 | a read is n reads of one bit |
| `BitReading.TwoReads` | crates/kessel-parquet/src/brotli_bit_reader.rs:87-120 | reading a then b bits splits one read of a+b bits |
| `BitReading.BitReader.AlignToByte` | crates/kessel-parquet/src/brotli_bit_reader.rs:130-135 | the cursor moves to the next byte boundary, if not on one |
| `BitReading.BitReader.ReadAlignedBytes` | crates/kessel-parquet/src/brotli_bit_reader.rs:140-154 | exactly the next n bytes, or an error and no move |
| `Brotli.ReadStreamHeader` | crates/kessel-parquet/src/brotli.rs:130-171 | the window exponent as the code reads it |
| `Brotli.WindowAgreement` | crates/kessel-parquet/src/brotli.rs:119-171 | the window exponent is that of the table in section 9.1 of RFC 7932 if and only if the descriptor does not take seven bits |
| `Brotli.WindowDiffers` | crates/kessel-parquet/src/brotli.rs:145-171 | the one-byte stream where the table has 17 and the code 10 |
| `Brotli.ReadHeader` | crates/kessel-parquet/src/brotli.rs:224-288 | the metablock header, with skipped regions stepped over |
| `Brotli.HeaderAdvances` | crates/kessel-parquet/src/brotli.rs:224-288 | every header takes at least two bits and declares at most 2^24 bytes, so the outer loops end |
| `Brotli.DecompressInner` | crates/kessel-parquet/src/brotli.rs:365-429 | the loop over uncompressed metablocks, with both size checks |
| `BrotliPrint.InnerRoundTrip` | crates/kessel-parquet/src/brotli.rs:365-429 | every byte string within the cap, cut into blocks in any way and printed by section 9.2 of RFC 7932, decodes to itself |
| `BrotliStream.OuterAgrees` | crates/kessel-parquet/src/brotli_metablock.rs:382-453 | on every stream decompress_inner accepts, the full decoder returns the same bytes |
| `BrotliStream.OuterRoundTrip` | crates/kessel-parquet/src/brotli_metablock.rs:382-453 | the printed streams round trip through the full decoder too |
| `BrotliStream.OuterLength` | crates/kessel-parquet/src/brotli_metablock.rs:401-442 | an accepted stream yields exactly the sum of the declared lengths, within the cap |
| `BrotliStream.DecompressCompressed` | crates/kessel-parquet/src/brotli_metablock.rs:382-453 | the stream loop over both kinds of metablock |
| `BrotliStream.DecodeCompressedMetablock` | crates/kessel-parquet/src/brotli_metablock.rs:198-371 | the nested loops over reader, buffer and ring compute the recursive meaning of the commands and end for every symbol stream |
| `Metablock.CommandAdvances` | crates/kessel-parquet/src/brotli_metablock.rs:275-362 | every command adds at least one byte, keeps the bytes before it and stays within the metablock |
| `Metablock.CopyAdvances` | crates/kessel-parquet/src/brotli_metablock.rs:310-362 | a copy continues the output with the byte `distance` places back, at every place, zero before the stream; the distance is within the window |
| `Metablock.MetablockExact` | crates/kessel-parquet/src/brotli_metablock.rs:198-371 | a compressed metablock that decodes appends exactly MLEN bytes and keeps the output before it |
| `Metablock.MetablockOutcome` | crates/kessel-parquet/src/brotli_metablock.rs:258-371 | after an accepted preamble the only failures are end of input, a short distance that is not positive and a dictionary distance: no symbol is out of range, no bits are without a symbol, no distance is zero |
| `Metablock.ReadPreamble` | crates/kessel-parquet/src/brotli_metablock.rs:203-266 | the counts, parameters and three prefix codes, with every unsupported shape as its own error |
| `Metablock.ReadCount` | crates/kessel-parquet/src/brotli.rs:312-325 | the variable-length count |
| `Metablock.CountAdvances` | crates/kessel-parquet/src/brotli.rs:289-325 | a count is between 1 and 256 |
| `Commands.ComposeDecompose` | crates/kessel-parquet/src/brotli_command.rs:120-194 | every pair of length codes the alphabet can name has a symbol that decomposes into it |
| `Commands.DecomposeCompose` | crates/kessel-parquet/src/brotli_command.rs:180-194 | no two of the 704 symbols share their parts |
| `Commands.LengthTablesTile` | crates/kessel-parquet/src/brotli_command.rs:86-112 | both offset tables are the running sums of their extra-bit tables |
| `Commands.LengthSpelling` | crates/kessel-parquet/src/brotli_command.rs:86-112 | every insert length below 22594 + 2^24 and every copy length from 2 below 2118 + 2^24 has exactly one code |
| `Commands.CopyIsLong` | crates/kessel-parquet/src/brotli_command.rs:227-244 | a copy is at least two bytes |
| `Commands.DecodeInsertLength` | crates/kessel-parquet/src/brotli_command.rs:202-219 | offset plus extra bits, or the error |
| `Commands.DecodeCopyLength` | crates/kessel-parquet/src/brotli_command.rs:227-244 | offset plus extra bits, or the error |
| `Distances.DirectSpelling` | crates/kessel-parquet/src/brotli_distance.rs:44-69 | every distance from 1 to 67108860 has exactly one direct code |
| `Distances.DirectInRow` | crates/kessel-parquet/src/brotli_distance.rs:265-283 | a direct code reads a distance of its own range |
| `Distances.DistanceIsReal` | crates/kessel-parquet/src/brotli_distance.rs:294-311 | decoded distances are positive, become the most recent one, and keep the ring positive |
| `Distances.DecodeDistance` | crates/kessel-parquet/src/brotli_distance.rs:294-311 | the distance, the ring after it and the cursor; short code 0 leaves the ring alone |
| `Distances.DistanceRing.Push` | crates/kessel-parquet/src/brotli_distance.rs:184-186 | the three most recent distances move down one place |
| `Lz77.OutputBuffer.CopyMatchWithPrestreamZeros` | crates/kessel-parquet/src/brotli_ring.rs:206-230 | the byte-by-byte copy, zeros before the stream; distance zero is an error and changes nothing |
| `Lz77.OutputBuffer.CopyMatch` | crates/kessel-parquet/src/brotli_ring.rs:154-183 | the same copy where the distance stays within the output; otherwise an error and no change |
| `Lz77.OutputBuffer.Lookback` | crates/kessel-parquet/src/brotli_ring.rs:128-141 | the byte that far back, or the error |
| `Lz77.CopiedRepeats` | crates/kessel-parquet/src/brotli_ring.rs:143-183 | the copied bytes have period `distance`, overlapping or not |
| `Lz77.RepeatsIsCopied` | crates/kessel-parquet/src/brotli_ring.rs:143-183 | and only one continuation of that length does |
| `Lz77.FlatIsRing` | crates/kessel-parquet/src/brotli_ring.rs:14-34 | the growing vector emits the same bytes as a zeroed circular window, for every sequence of literals and of copies within the window |
| `Huffman.FromSymbolLengths` | crates/kessel-parquet/src/brotli_huffman.rs:142-191 | counting lengths assigns each symbol, in order of length then symbol, the word that follows all words before it |
| `Huffman.DecodeSymbol` | crates/kessel-parquet/src/brotli_huffman.rs:195-225 | the bit-by-bit search returns the first table match, or the error |
| `Huffman.NotFront` | crates/kessel-parquet/src/brotli_huffman.rs:142-191 | no code word of a table is the front of a later one |
| `Huffman.ReadsOwnWord` | crates/kessel-parquet/src/brotli_huffman.rs:195-225 | a symbol whose word stands in the stream is decoded, and nothing behind the word is read |
| `Huffman.FullNeverFails` | crates/kessel-parquet/src/brotli_huffman.rs:195-225 | a table that covers the code space decodes whatever bits follow |
| `PrefixCodes.CompleteIsFull` | crates/kessel-parquet/src/brotli_huffman.rs:142-191 | lengths whose shares add up to the whole code space give such a table, in whatever order they come |
| `PrefixCodes.ReadSimple` | crates/kessel-parquet/src/brotli_huffman.rs:248-284 | the simple form, with out-of-range and repeated symbols as errors |
| `PrefixCodes.SimpleIsUsable` | crates/kessel-parquet/src/brotli_huffman.rs:248-284 | every simple code covers the code space, its symbols in the alphabet |
| `ComplexCodes.ReadComplex` | crates/kessel-parquet/src/brotli_huffman.rs:364-581 | the two loops of the complex form, run lengths included |
| `ComplexCodes.MainConsistent` | crates/kessel-parquet/src/brotli_huffman.rs:444-532 | the running sum kept while reading is the space the lengths cover, and the alphabet is never overrun |
| `ComplexCodes.PrefixCodeIsUsable` | crates/kessel-parquet/src/brotli_huffman.rs:588-602 | whatever code a stream describes is rejected or covers the code space exactly, its symbols in the alphabet |
| `ComplexCodes.UsableOutcome` | crates/kessel-parquet/src/brotli_huffman.rs:195-225 | with such a code a symbol is in the alphabet, and the only failure is the end of the stream |
| `ComplexCodes.LengthCodeUsable` | crates/kessel-parquet/src/brotli_huffman.rs:369-421 | the inner code is built exactly when some length is set, and decodes any bits if and only if at least two are |
| `LoneLengths.LoneReads` | crates/kessel-parquet/src/brotli_huffman.rs:195-225 | a lone word of l bits gives its symbol on l zero bits, InvalidCode on any others, and the end of input before that |
| `LoneLengths.LoneLength` | crates/kessel-parquet/src/brotli_huffman.rs:392-419 | a single length, 1 to 5, is built into such a word and not into a symbol without bits |
| `LoneLengths.RfcAgreement` | crates/kessel-parquet/src/brotli_huffman.rs:364-581 | every description that section 3.5 of RFC 7932 accepts is read as it says if and only if it sets at least two lengths of the code-length code: with one alone the decoder fails or stops at another bit |
| `LoneLengths.OnlyDecoderAccepts` | crates/kessel-parquet/src/brotli_huffman.rs:364-581 | a description the decoder accepts is rejected by section 3.5, which asks for two lengths, if and only if it sets a single length or its code-length code has symbol 16 alone |
| `LoneLengths.LoneRejected` | crates/kessel-parquet/src/brotli_huffman.rs:392-419 | five bytes that section 3.5 accepts and the decoder rejects, for every alphabet of at least two symbols |
| `OnlyAccepted.SingleAccepted` | crates/kessel-parquet/src/brotli_huffman.rs:101-107 | for every alphabet, bytes that set a single length: a code of one symbol to the decoder, and too few lengths to section 3.5 |
| `OnlyAccepted.RepeatsAccepted` | crates/kessel-parquet/src/brotli_huffman.rs:392-419 | seven bytes with symbol 16 alone that the decoder reads as 256 words of eight bits and section 3.5 rejects, for every alphabet of at least 256 symbols |
| `CodeWords.SymbolReads` | crates/kessel-parquet/src/brotli_huffman.rs:195-225 | the word any usable table gives a symbol is read back as that symbol, and nothing behind it |
| `CodeWords.CodeReads` | crates/kessel-parquet/src/brotli_huffman.rs:588-602 | every code of one symbol and every list of lengths that covers the code space is read back from its printed description as its canonical table |
| `CompressedPrint.CommandReads` | crates/kessel-parquet/src/brotli_metablock.rs:275-362 | a printed command, whatever literals, lengths and way of naming the distance, is read back with its bytes, its distance and exactly its bits |
| `CompressedPrint.BodyReads` | crates/kessel-parquet/src/brotli_metablock.rs:275-371 | so are all commands of a metablock, with the recent distances they leave |
| `CompressedStream.CompressedRoundTrip` | crates/kessel-parquet/src/brotli_metablock.rs:382-453 | for any prefix codes and any commands they spell, in any number of metablocks, the decoder returns the bytes the commands stand for |
| `CompressedStream.LiteralRoundTrip` | crates/kessel-parquet/src/brotli_metablock.rs:382-453 | every byte string up to 2^24 bytes, printed as compressed literals, decodes to itself |
| `DistanceReset.SameDraws` | crates/kessel-parquet/src/brotli_metablock.rs:272-362 | a metablock that decodes takes the same distances from two sets of recent distances if and only if the two agree in the places it reads before it has set them; and then gives the same bytes and ends at the same bit |
| `DistanceReset.BodyKeepsNear` | crates/kessel-parquet/src/brotli_metablock.rs:272-362 | recent distances between 1 and the window stay so through every metablock that decodes |
| `DistanceCarry.FreshIsOuter` | crates/kessel-parquet/src/brotli_metablock.rs:401-442 | the decoder is the stream decoder that starts them afresh |
| `DistanceCarry.CarryUnseen` | crates/kessel-parquet/src/brotli_metablock.rs:272-272 | on a stream that decodes, carrying the recent distances on, as section 4 of RFC 7932 does, takes the same distances, metablock by metablock, if and only if each carried set agrees with the initial one in the places its metablock reads unset; and then gives the same bytes |
| `DistanceCarry.EveryRingNear` | crates/kessel-parquet/src/brotli_metablock.rs:272-362 | in every stream, carried or not, every metablock starts with recent distances within the window |
| `PreStream.InsideBody` | crates/kessel-parquet/src/brotli_metablock.rs:40-43 | a metablock that decodes gives the same with distances beyond the bytes written refused if and only if none of its copies has one; otherwise it is refused |
| `PreStream.InventedZero` | crates/kessel-parquet/src/brotli_metablock.rs:319-362 | the first byte of such a copy is zero |
| `DistanceCarry.InsideUnseen` | crates/kessel-parquet/src/brotli_metablock.rs:40-43 | the same for whole streams: equal bytes if no copy reaches before the start, an error if one does |
| `PreStreamSeen.ZerosSeen` | crates/kessel-parquet/src/brotli_metablock.rs:319-362 | a stream of one literal and one copy that the decoder fills with zeros and the other reading refuses |
| `CompressedStream.ResetSeen` | crates/kessel-parquet/src/brotli_metablock.rs:272-272 | a stream of two metablocks on which the two differ |
| `JsonPrint.WriteStr` | crates/kessel-client/src/lib.rs:153-171 | the escaped string, character by character |
| `JsonPrint.WriteRows` | crates/kessel-client/src/lib.rs:188-236 | the rendered rows, with the fallback to one bare record and the cut-short cases |
| `JsonPrint.FormatBlob` | crates/kessel-client/src/lib.rs:446-469 | the blob without zero padding, as text if printable and else in hexadecimal |
| `JsonParse.Parser.String` | crates/kessel-fetch/src/json.rs:144-204 | the string loop, escapes and errors included |
| `JsonParse.Parser.Value` | crates/kessel-fetch/src/json.rs:107-118 | any value at the cursor, or the error |
| `JsonParse.Parser.Number` | crates/kessel-fetch/src/json.rs:127-143 | the longest run of number bytes, as text |
| `JsonParse.Parser.Array` | crates/kessel-fetch/src/json.rs:205-227 | the items in order, or the error |
| `JsonParse.Parser.Object` | crates/kessel-fetch/src/json.rs:228-262 | the members in order, or the error |
| `JsonParse.ParseText` | crates/kessel-fetch/src/json.rs:82-92 | one value and nothing behind it but space |
| `JsonParse.GetPath` | crates/kessel-fetch/src/json.rs:45-74 | the walk along the dotted path, first matching key at each step |
| `JsonParse.Extract` | crates/kessel-fetch/src/json.rs:13-33 | the cells of each row in column order |
| `JsonParse.ParseSeesCharacters` | crates/kessel-fetch/src/json.rs:186-200 | on valid UTF-8 the cursor stays on character boundaries, so the text slice of the original cannot panic |
| `JsonRows.StringReads` | crates/kessel-fetch/src/json.rs:144-204 | every string, of any characters, is read back from its printed form |
| `JsonRows.RenderedRowsParse` | crates/kessel-client/src/lib.rs:188-236 | rows rendered from any records that decode parse back through extract to the same cells in the same order, for any column names and any choice of dot-free columns |
| `BareRows.BareRecord` | crates/kessel-client/src/lib.rs:188-236 | a bare record that decodes renders if and only if its bytes do not read as records and then a length past the end; it renders as itself if and only if, moreover, they do not read as records throughout, or as one record that prints the same |
| `BareRows.StoredRecordRenders` | crates/kessel-client/src/lib.rs:210-236 | a stored record of any version renders as itself if and only if its version is at most its size less four and the bytes it points at do not decode, or are all the rest and print the same, or stand before bytes that do not read as records; below version 14 they never decode, and a version beyond the bound renders nothing |
| `BareRows.SmallRecordRenders` | crates/kessel-client/src/lib.rs:210-236 | with at most 16 columns they decode from version 14 on: the record renders as itself at version size less four if and only if every value is NULL |
| `BareRows.RenderedAsNulls` | crates/kessel-client/src/lib.rs:210-236 | a record of at most 16 columns whose version is exactly its size less four renders as a row of NULLs |
| `JsonRows.DistinctColumns` | crates/kessel-fetch/src/json.rs:45-74 | with distinct names each column gives its own value |
| `JsonRows.ReadableNames` | crates/kessel-fetch/src/json.rs:45-74 | a printed column can be read back by its name if and only if the name has no dot |
| `Utf8.RoundTrip` | crates/kessel-catalog/src/lib.rs:244-262 | strict and replacing decoders both undo the encoder |
| `Utf8.AcceptsEncodings` | crates/kessel-fetch/src/json.rs:17-19 | strict decoding accepts exactly the encodings of strings |
| `TypeDefs.KindRoundTrip` | crates/kessel-catalog/src/lib.rs:58-108 | every field kind is recovered from its tag and argument, and under no other tag |
| `TypeDefs.TypeDefRoundTrip` | crates/kessel-catalog/src/lib.rs:295-320 | name and fields are recovered from any blob that starts with them |
| `TypeDefs.TrailersIndependent` | crates/kessel-catalog/src/lib.rs:351-596 | for every combination of defaults, serial key, serial field and foreign keys each decoder recovers exactly its own part |
| `TypeDefs.AbsentPartsAddNothing` | crates/kessel-catalog/src/lib.rs:415-452 | absent parts add no bytes, but for the zero count that anchors lone foreign keys |
| `TypeDefs.WriteFullFk` | crates/kessel-catalog/src/lib.rs:415-452 | the bytes of a definition with all its trailers |
| `TypeDefs.WriteFull` | crates/kessel-catalog/src/lib.rs:351-379 | the bytes of a definition with defaults and serial key |
| `TypeDefs.ReadTypeDef` | crates/kessel-catalog/src/lib.rs:307-320 | name and fields, or nothing on a short read |
| `TypeDefs.ReadDefaults` | crates/kessel-catalog/src/lib.rs:567-596 | the defaults, or none on a short read |
| `TypeDefs.ReadFks` | crates/kessel-catalog/src/lib.rs:459-486 | the foreign keys, or none on a short read |
| `TypeDefs.FindSerialOffset` | crates/kessel-catalog/src/lib.rs:508-530 | the place behind the defaults trailer |
| `Recipes.TrailerRoundTrip` | crates/kessel-catalog/src/lib.rs:727-807 | a recipe trailer reads back in whichever version it was written, all auth and pagination variants |
| `Recipes.V1RoundTrip` | crates/kessel-catalog/src/lib.rs:948-954 | a first-version trailer with a recipe reads back, newer parts absent |
| `Recipes.SentinelIsUnambiguous` | crates/kessel-catalog/src/lib.rs:712-741 | newer trailers start with the zero sentinel, a first-version one never does, and version 2 is written exactly when no recipe needs an object-store field |
| `Catalogs.DecodeEncode` | crates/kessel-catalog/src/lib.rs:661-1070 | decoding an encoded catalog gives it back but for serial fields of types without a serial key |
| `Catalogs.RoundTrip` | crates/kessel-catalog/src/lib.rs:661-1070 | decode of encode is the catalog itself if and only if no type names a serial field without a serial key |
| `Catalogs.DecodeV1` | crates/kessel-catalog/src/lib.rs:948-954 | a catalog persisted with the first trailer version still decodes |
| `Catalogs.WriteCatalog` | crates/kessel-catalog/src/lib.rs:661-810 | the encoder loops |
| `Catalogs.ReadCatalog` | crates/kessel-catalog/src/lib.rs:812-1070 | the decoder loops; short reads give nothing, a bad trailer no recipes |
| `HttpRequest.Parse` | crates/kessel-http-gateway/src/parse.rs:99-222 | one request: header block, framing and body, or the first error |
| `HttpRequest.Dechunk` | crates/kessel-http-gateway/src/parse.rs:327-368 | the chunk loop: the decoded body and the bytes it took |
| `HttpRequest.AcceptedIsUnambiguous` | crates/kessel-http-gateway/src/parse.rs:119-183 | an accepted request has exactly one Host header, agreeing Content-Length headers and one kind of framing |
| `HttpRequest.BodyTaken` | crates/kessel-http-gateway/src/parse.rs:189-209 | an accepted request takes the body it declares if and only if it is a POST or declares none; a GET takes its header block alone |
| `HttpLoop.PrefixDecides` | crates/kessel-http-gateway/src/parse.rs:99-222 | every prefix of a stream either settles the request as the whole stream does or asks for more bytes (chunked POST excepted) |
| `HttpLoop.CutAnywhere` | crates/kessel-http-gateway/src/parse.rs:327-368 | a complete request can be cut short anywhere, with the parser asking for more, if and only if it is not a chunked POST |
| `HttpLoop.HandleOneStream` | crates/kessel-http-gateway/src/server.rs:175-252 | the read, parse, serve and drain loop, with cap, close, write failure and buffer limit |
| `HttpLoop.SegmentationIndependence` | crates/kessel-http-gateway/src/server.rs:186-252 | all ways of splitting the bytes of a connection give the same requests and the same end if and only if at each request it comes to: a chunked POST has no chunk size within one read of its head, any other is settled a read short of the buffer limit, beyond it, or with all bytes within it |
| `HttpLoop.SplitDoesNotMatter` | crates/kessel-http-gateway/src/server.rs:186-252 | on such streams the loop serves the requests one by one, from every buffer it can hold when it looks for one |
| `HttpLoop.SplitsDiffer` | crates/kessel-http-gateway/src/server.rs:186-252 | on any other stream, two splits with different outcomes |
| `HttpPrint.RequestRoundTrip` | crates/kessel-http-gateway/src/parse.rs:99-222 | a printed request is parsed back header for header and takes exactly its own bytes, whatever follows |
| `HttpPrint.OrdinaryIsSendable` | crates/kessel-http-gateway/src/parse.rs:99-222 | every GET without body and every POST with its length, with whatever other plain headers, is such a request |
| `HttpPrint.KeepAlive` | crates/kessel-http-gateway/src/server.rs:186-252 | every sequence of such requests that each leave room for one read is served exactly, in order, up to the cap or the first close, however its bytes are split |
| `HttpPrint.GetLeavesBody` | crates/kessel-http-gateway/src/parse.rs:189-197 | every GET with a Content-Length is accepted without its body, and the rest of the stream starts with that body |
| `HttpChunks.ChunkRoundTrip` | crates/kessel-http-gateway/src/parse.rs:327-368 | any body within the cap, cut into chunks in any way, is decoded with exactly the bytes of its stream, whatever two bytes stand behind each chunk |
| `HttpChunks.OnlyClosedAccepted` | crates/kessel-http-gateway/src/parse.rs:356-365 | only streams with a line break behind every chunk are accepted if and only if the cap is zero |
| `HttpChunks.ChunkedRequestRoundTrip` | crates/kessel-http-gateway/src/parse.rs:99-222 | a printed POST with its body in chunks is parsed back, head and body, with exactly its own bytes |
| `HttpChunks.OrdinaryIsChunkSendable` | crates/kessel-http-gateway/src/parse.rs:119-183 | every POST with a host and whatever other plain headers can be sent that way |
| `HttpChunks.CutBehindHead` | crates/kessel-http-gateway/src/parse.rs:331-333 | cut behind its header block, every such request is refused for good |
| `HttpChunks.ChunkedIsUnsteady` | crates/kessel-http-gateway/src/server.rs:186-252 | so none of them is served alike under every split of its bytes |

## Left out

- Viewstamped Replication, MVCC, the storage engine and the SQL planner: not part of this model.
- The Brotli static dictionary and its transforms: the decoder never reads it. It refuses distances beyond the window, and fills copies at other distances beyond the output with zeros.
- Printed Brotli streams with repeat codes among their code lengths, with context modes other than 0, or with both kinds of metablock: the printers leave them out, the decoder model does not.
- SHA-1, SHA-256, HMAC, PBKDF2 and request signatures: fixed constants; the hashes are uninterpreted functions.
- TCP, TLS, timeouts, thread pools, WebSocket upgrade, routes, authentication and response writers: the loop takes the routes as a parameter.
- CSV, NDJSON, pagination, coercion, Parquet footers, base64 and the text table output: easier than what is here.
- usize and u32 overflow of buffer lengths, cursors and gas: lengths are unbounded; the 64-bit limit is modelled where a peer can reach it (Content-Length, chunk sizes).
- Capacity reservations and stack depth of the recursive JSON parser: not modelled.
- Catalogs.RoundTrip: asks that every name, list and blob fits its length prefix, since longer ones are cut by the original.
- Cache.ReadCache.Get: does not model wrap-around of the 64-bit clock.
- Cache.ReadCache.Insert: does not model wrap-around of the 64-bit clock.
- Trigger.OrderIndependence: asks for at most 64 fields, the limit of the NULL bitmap.
- Huffman.FromSymbolLengths: filtering and sorting are functions of the model, since the original calls the standard library; code words are not cut to 32 bits, which lengths up to 15 never reach.
- Lz77.OutputBuffer.CopyMatch: the overflow error of a length beyond the address space is not modelled.
- JsonParse.Parser.String: text that is not valid UTF-8 gives an error value where the original cannot go, as `ParseSeesCharacters` shows.
- HttpRequest.Parse: error texts keep the offending line or value itself, not its escaped rendering.
