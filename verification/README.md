# Verified model of the Parquet core

This project models the parts of the crate that decide what is stored and what comes back, and
proves properties of them over every input, every run and every interleaving. `dafny verify
dfyconfig.toml` checks all of it. Paths below are relative to the repository root.

What is modelled, by module:

- **Values, Arrow, Schema, Leaves** — the value trees, Arrow arrays with the constructors'
  preconditions (layouts of the Arrow Columnar Format, sections "Variable-size List Layout", "Struct
  Layout" and "Validity bitmaps"), schema trees with their validation and their mapping to Arrow
  fields, and what each scalar column stores and gives back. A fallible operation gives `Ok`, `Err`
  with the error class, or `Panic`.
- **Conversion, RoundTrip, Soundness, Wrapping, Reread** — building arrays from lists of values, with the
  source's loops as methods, and reading them back, at any nesting depth (Parquet shapes of
  LogicalTypes.md, section "Nested Types").
- **Conformance, Storable, ReadSafety** — what this machinery means: which values a schema takes and
  gives back, said without Arrow fields; what can be stored whether accepted or not; and reading arrays
  and layouts of any origin.
- **Decimal256** — the digit check and the in-place two's complement of 256-bit decimals.
- **WriterState, WriterRuns, WriterBounds, WriterColumns, WriterCalls, Writer** — the writer: a step
  function with the outside world's choices as arguments, the invariants and exact bounds of all runs,
  the exact conditions under which each call succeeds, and a class whose methods are proved to take
  exactly those steps, with the choices the sink's own answers.
- **Reader, EndToEnd** — row and column iteration, alignment, projection, and the whole way from
  `write_row` to the row iterator.
- **StringStorage, StringCache, Texts** — the shared registry of leaked strings with any number of
  readers, as a transition system and as the two classes behind it; the bounded string cache.
- **Repack, RepackLog** — the three nested loops that cut rows into files, and the log of what they ask
  of files and of the cancellation flag.
- **Sorting, Hashing** — order-insensitive equality of records and the tokens fed to a hasher.
- **Strings, DecimalText, Timestamps, SchemaPaths** — decimal printing and parsing, timestamps
  through Ruby's Time, and dotted paths in schemas.

## What the proofs found

- The validator takes any unit for a Time64 or Timestamp column, the builders only the column's own.
  One such value makes every later `flush`, `write_columns` and `close` fail and nothing further is
  delivered (`WriterRuns.PoisonedForever`). The validator does not look at sizes either, and the
  builders count list and map items and string and binary bytes in 32 bits. An accepted column is
  converted exactly when its units agree and its offsets can be built: no string or binary column
  has 2^31 bytes, and the offsets of lists and maps, wrapped as they may be, do not decrease. A wrong
  unit alone is an error, offsets that cannot be built alone are a panic (`Soundness.BuildAccepted`).
  A text of 2^31 bytes panics, and so does a list of 2^31 to 2^32 - 1 items (`Reread.LongTextPanics`,
  `Reread.NegativeOffsetPanics`).
- Validation never looks at the format of a decimal; a decimal with the format "uuid" passes it and
  then panics in the mapping to Arrow. No other validated schema does (`Schema.ValidNodeMaps`).
- List and map offsets are cast to 32 bits and wrap: a list of 2^32 items is stored without an error
  and reads back empty (`Reread.WrappedOffsetLosesItems`). Of the columns that can be built, exactly
  those with fewer than 2^31 items in every flattened child read back, at any nesting depth
  (`Wrapping.BuiltReadsBackIff`), and an accepted column makes the round trip exactly when its units
  agree and no 32-bit offset, of items or bytes, is exceeded (`Wrapping.RoundTripIff`).
- A value that was read is refused by the validator exactly when it holds a UUID
  (`Reread.ReadBackAccepted`), whichever schema marked it as one (`Reread.ForeignReadBack`).
- Items of lists and keys and values of maps lose the uuid format of their nodes: a UUID there reads back
  as bytes, while one in a struct inside them does not (`Conformance.SchemaMeaning`).
- Binary patterns of magnitudes from 2^255 up to 2^256 are produced without an error but do not read
  back; no precision check lets one through (`Decimal256.RoundTrip`, `Decimal256.AdmittedRoundTrip`).
- `write_row` keeps the row it reports as failed, so the buffer can grow past the batch size. It stays
  below it after every call of a run exactly when every row that filled the buffer met an open
  writer, a sink that took the batch, buffered units that agree and offsets that can be built
  (`WriterBounds.BufferBound`; `WriterBounds.FixedBatches` for fixed sizes).
- A row that cannot be converted is answered again by every further call of the row iterator, while
  the column iterator skips the batch (`Reader.RowIterator.Next`, `Reader.ColumnIterator.Next`).
  Reading rows comes to an end exactly when there is no such row (`Reader.ReadingEndsIff`).
- A fallback answer of the string interner is permanent while only that reader is active, but not
  among several readers (`StringStorage.FallbackAmongOthers`, `StringStorage.RefusedThenShared`).
- The least 128-bit decimal is printed but refused when parsed (`DecimalText.LeastRefused`); which
  printed numbers are parsed back in a build with overflow checks is exact
  (`DecimalText.Reparsed128Iff`).
- The parser trims signs in one order only and counts fraction digits in 8 bits: "+-5.5" at scale 1 is
  -45, and fractions of 128 digits or more are not read as written (`DecimalText.InnerSign`,
  `DecimalText.ParseText256`).
- With overflow checks, the earliest fraction of a second of each timestamp unit overflows on its way
  back (`Timestamps.OverflowIff`); in wrapping arithmetic every count survives.
- Paths find their nodes exactly when the root has a name, no child of the root has the root's name
  and no map's value is named "key" or like its key (`SchemaPaths.PathsWorkIff`).

## Model

| member | source | states |
|---|---|---|
| Decimal256.DigitCountBound | ext/parquet-core/src/arrow_conversion.rs:964-985 | the precision check admits a number exactly when it is below the next power of ten |
| Decimal256.Decimal256FromBigInt | ext/parquet-core/src/arrow_conversion.rs:988-1025 | the padded buffer, negated in place for negative numbers, is the 32-byte pattern of the number modulo 2^256; longer magnitudes are an error |
| Decimal256.NegateInPlace | ext/parquet-core/src/arrow_conversion.rs:1002-1019 | inverting and carrying replaces the buffer's number n > 0 by 256^length - n |
| Decimal256.AddOneInPlace | ext/parquet-core/src/arrow_conversion.rs:1009-1018 | the carry loop adds exactly one, however far the carry runs |
| Decimal256.DecodeSigned | ext/parquet-core/src/arrow_conversion.rs:180-198 | the reader's sign-bit decoding reads every 32-byte pattern as a signed 256-bit number |
| Decimal256.RoundTrip | ext/parquet-core/src/arrow_conversion.rs:988-1025 | encoding succeeds exactly below 2^256 in magnitude, and then decoding gives the number back exactly when it lies in the signed 256-bit range |
| Decimal256.AdmittedRoundTrip | ext/parquet-core/src/arrow_conversion.rs:947-1025 | every number of at most 76 digits is encoded and decodes to itself |
| Schema.ValidateUniqueFieldNames | ext/parquet-core/src/schema.rs:273-285 | the scan fails exactly when some name occurs twice |
| Schema.ValidNodeMaps | ext/parquet-core/src/writer.rs:742-823 | a validated node maps to an Arrow field exactly when no decimal in it carries the uuid format, otherwise the mapping panics; the field keeps name and nullability and is well-shaped at every depth (which types it has is `Conformance.SchemaMeaning`) |
| Schema.ValidNodesMap | ext/parquet-core/src/writer.rs:664-679 | the same for the list of root fields, in order |
| Schema.UuidDecimalPanics | ext/parquet-core/src/schema.rs:333-365 | a concrete schema that passes validation and then panics |
| Schema.ValidIff | ext/parquet-core/src/schema.rs:233-365 | apart from uuid decimals, validation admits exactly the schemas that map to well-shaped Arrow fields and have no nullable map keys |
| Leaves.EncodeDecode | ext/parquet-core/src/arrow_conversion.rs:33-198 | a stored scalar reads back as the coerced scalar: widened integers and floats, the column's timezone, UUIDs from marked byte columns |
| Leaves.AcceptedEncodes | ext/parquet-core/src/arrow_conversion.rs:444-985 | in a column of a validated schema an accepted scalar is stored exactly when its time unit is the column's, and is an error, never a panic, otherwise |
| Leaves.CoerceIdempotent | ext/parquet-core/src/arrow_conversion.rs:444-883 | coercing twice is coercing once |
| Conformance.SchemaMeaning | ext/parquet-core/src/writer.rs:531-823 | for a validated schema that maps, the validator accepts exactly the values that conform to the schema node: the variant of each primitive type, decimals of its scale and digits, nullability at every level, list items, map keys and values, record entries; units agree exactly when each value has its node's unit, and the normal form is what the node says, timezone "UTC" or none, UUIDs outside lists and maps |
| Conformance.MappedNames | ext/parquet-core/src/writer.rs:742-823 | a mapped field has its node's name, "item" for elements, "entries" for pairs, and keys, values and struct fields keep theirs |
| Conformance.SchemaRoundTrip | ext/parquet-core/src/writer.rs:531-823 | a column of values that conform to the node is stored and reads back as the node says exactly when every value has its node's unit and no 32-bit offset is exceeded |
| Storable.StoredIffFits | ext/parquet-core/src/arrow_conversion.rs:444-985 | a builder takes exactly the scalars of its own kind that are no wider than the column, and refuses all others with an error |
| Storable.BytesBuildIff | ext/parquet-core/src/arrow_conversion.rs:639-671 | texts or byte strings are built exactly when they have less than 2^31 bytes together, counted in UTF-8, and the builder panics otherwise |
| Storable.WrongScalar | ext/parquet-core/src/arrow_conversion.rs:444-928 | the first value that does not fit its scalar column makes it a conversion error |
| Storable.WrongKind | ext/parquet-core/src/arrow_conversion.rs:1028-1150 | a value of another kind in a list, map or struct column, or malformed map entries, is a conversion error whatever else is wrong |
| Storable.BuiltIsFilled | ext/parquet-core/src/arrow_conversion.rs:1028-1181 | whatever is built, accepted or not, has no null in a required list item, key or value, and none in a required struct field except under a null struct, at every depth |
| Conversion.BuildArray | ext/parquet-core/src/arrow_conversion.rs:368-434 | the dispatch over column types computes the specified array, error or panic |
| Conversion.BuildPrimitiveArray | ext/parquet-core/src/arrow_conversion.rs:371-928 | the scalar loop gives one validity bit and one cell per value, the first failure wins, and a string or binary column panics at the value that brings its bytes to 2^31 |
| Conversion.AppendValue | ext/parquet-core/src/arrow_conversion.rs:639-671 | appending one value is its cell, its error, or the panic of the next byte offset |
| Conversion.FlattenLists | ext/parquet-core/src/arrow_conversion.rs:1029-1052 | the list loop yields the concatenated items, the wrapped cumulative counts and the validity bits, or an error exactly when some value is neither list nor null |
| Conversion.BuildListArray | ext/parquet-core/src/arrow_conversion.rs:1028-1064 | list building meets its specification, recursively |
| Conversion.FlattenMaps | ext/parquet-core/src/arrow_conversion.rs:1082-1109 | the map loop yields keys and values in step, the offsets and the validity bits, or an error exactly when some value is neither map nor null |
| Conversion.AppendEntries | ext/parquet-core/src/arrow_conversion.rs:1091-1094 | the inner loop appends all keys and all values of one map, in order |
| Conversion.BuildMapArray | ext/parquet-core/src/arrow_conversion.rs:1067-1132 | map building meets its specification, recursively, with the error for malformed entry fields |
| Conversion.SplitRecords | ext/parquet-core/src/arrow_conversion.rs:1135-1167 | the row loop transposes records into one column per field, null for missing entries and null rows, or an error exactly when some value is neither record nor null |
| Conversion.BuildStructArray | ext/parquet-core/src/arrow_conversion.rs:1135-1181 | struct building meets its specification, recursively; the first failing child wins |
| RoundTrip.OffsetAt | ext/parquet-core/src/arrow_conversion.rs:1029-1052 | below 2^31 items, offsets i and i+1 delimit exactly the parts of value i |
| RoundTrip.OffsetsMonotone | ext/parquet-core/src/arrow_conversion.rs:1028-1064 | below 2^31 items, the offsets start at zero or above, never decrease and end at the child's length |
| RoundTrip.BuildShape | ext/parquet-core/src/arrow_conversion.rs:368-434 | a built array has the validity bits of its input, its length and the field's type |
| RoundTrip.ReadBuilt | ext/parquet-core/src/arrow_conversion.rs:21-360 | whenever building succeeds and no offset wraps, reading slot i gives the normal form of value i under the UUID marks of both the Arrow field and the Parquet node, through lists, maps and structs of any depth |
| RoundTrip.ReadMap | ext/parquet-core/src/arrow_conversion.rs:247-317 | the map case: keys and values are read through one shared offset pair |
| RoundTrip.ReadStruct | ext/parquet-core/src/arrow_conversion.rs:318-353 | the struct case: children are matched to Parquet nodes by name and inserted in field order |
| RoundTrip.UuidSlot | ext/parquet-core/src/arrow_conversion.rs:95-115 | a fixed-length byte string is read as a UUID exactly when the Parquet node or the Arrow field marks one and it has 16 bytes, as bytes exactly when neither does, and is an error otherwise |
| ReadSafety.DecodeExact | ext/parquet-core/src/arrow_conversion.rs:33-198 | every cell that fits its column gives a scalar of the column's variant, unit, timezone or scale with the cell's content, or an error exactly for time units without a variant and UUIDs that are not 16 bytes long |
| ReadSafety.ReadSafe | ext/parquet-core/src/arrow_conversion.rs:21-360 | reading a well-formed array of any origin, with any Arrow field and Parquet node, never panics; a slot gives null exactly where the array has one, and otherwise lists and maps of the slot's length and scalars of the cell's content |
| ReadSafety.ListLayouts | ext/parquet-core/src/arrow_conversion.rs:207-231 | two-level lists and bare element nodes read like the standard three levels |
| ReadSafety.MapLayouts | ext/parquet-core/src/arrow_conversion.rs:273-305 | key and value are the first two nodes of the group; more nodes change nothing |
| ReadSafety.BadLayouts | ext/parquet-core/src/arrow_conversion.rs:207-341 | missing element, key or value nodes, structs without a group or without a field of the name: errors for every slot that is not null |
| ReadSafety.InsertedEntries | ext/parquet-core/src/arrow_conversion.rs:331-350 | a record has every field's name once, with the value of the last field of that name |
| Soundness.ListChildren | ext/parquet-core/src/writer.rs:602-607 | acceptance and unit agreement of a list column are those of its flattened items |
| Soundness.MapChildren | ext/parquet-core/src/writer.rs:610-631 | the same for keys and values of a map column |
| Soundness.StructChildren | ext/parquet-core/src/writer.rs:634-651 | the same for the columns of a struct, and a null under a non-nullable child only occurs under a null parent |
| Soundness.BuildAccepted | ext/parquet-core/src/writer.rs:531-661 | an accepted column of a validated schema builds exactly when all units agree and its offsets can be built, at every level; a wrong unit alone is a conversion error, offsets that cannot be built alone are a panic |
| Soundness.FitsBuildable | ext/parquet-core/src/arrow_conversion.rs:1028-1181 | offsets that exceed no 32-bit bound can be built, at every level |
| Soundness.MismatchNeverBuilds | ext/parquet-core/src/arrow_conversion.rs:764-883 | a disagreeing unit anywhere in an accepted column prevents its conversion, whatever its offsets |
| Soundness.BuildWellFormed | ext/parquet-core/src/arrow_conversion.rs:1028-1181 | every built array satisfies the Arrow constructor preconditions recursively |
| Soundness.NestedRoundTrip | ext/parquet-core/src/arrow_conversion.rs:21-434 | over validated schema nodes: accepted values build iff units agree and offsets can be built, the array is well-formed, and when no 32-bit offset is exceeded every slot reads back in normal form |
| Wrapping.BuiltReadsBackIff | ext/parquet-core/src/arrow_conversion.rs:1028-1181 | among columns that can be built, every slot reads back in normal form exactly when every flattened child has fewer than 2^31 items, at every level |
| Wrapping.FitsIfReadsBack | ext/parquet-core/src/arrow_conversion.rs:201-353 | the hard half: reading back rules out a wrapped offset in every list and map below the field |
| Wrapping.RoundTripIff | ext/parquet-core/src/writer.rs:531-661 | for a validated schema node, an accepted column is stored and reads back exactly when all units agree and no 32-bit offset of items or bytes is exceeded |
| Reread.CanonicalDescribes | ext/parquet-core/src/arrow_conversion.rs:201-353 | the standard three-level layout leads the reader to the right nodes for every well-shaped field and marks exactly its UUIDs |
| Reread.NormalIdempotent | ext/parquet-core/src/arrow_conversion.rs:21-360 | a normal form is its own normal form |
| Reread.ReadBackAccepted | ext/parquet-core/src/writer.rs:531-661 | the normal form of an accepted value is accepted again exactly when it holds no UUID |
| Reread.ForeignReadBack | ext/parquet-core/src/arrow_conversion.rs:95-115 | what was read from any file is accepted for its own Arrow fields exactly when it holds no UUID, whichever of the two schemas marks it |
| Reread.UnitMismatchFails | ext/parquet-core/src/writer.rs:585-591 | a nanosecond time is accepted for a microsecond column and then fails to convert |
| Reread.WrappedOffsetLosesItems | ext/parquet-core/src/arrow_conversion.rs:1034-1052 | 2^32 nulls in one list are accepted and stored without an error, and the list reads back empty |
| Reread.NegativeOffsetPanics | ext/parquet-core/src/arrow_conversion.rs:1034-1056 | an accepted list of 2^31 to 2^32 - 1 nulls makes the conversion panic |
| Reread.LongTextPanics | ext/parquet-core/src/arrow_conversion.rs:639-654 | one accepted text of 2^31 bytes makes the conversion panic |
| WriterState.BatchSizesOk | ext/parquet-core/src/writer.rs:681-739 | every default, dynamic or admitted fixed batch size is at least 1, at most a million, and times the width at most a million |
| WriterState.LargestBatchSize | ext/parquet-core/src/writer.rs:691-696 | the maximum is the largest size within a million rows and a million values |
| WriterState.DefaultBatchSize | ext/parquet-core/src/writer.rs:698-700 | without a given size 1000 rows, or as many as fit for more than 1000 columns |
| WriterState.DynamicBatchSize | ext/parquet-core/src/writer.rs:735-739 | the suggestion itself when it keeps both limits and is at least ten, ten for less, the largest size that fits for more |
| WriterRuns.InitInv | ext/parquet-core/src/writer.rs:82-111 | a built writer satisfies the invariant |
| WriterRuns.StepKeepsInv | ext/parquet-core/src/writer.rs:174-527 | every call keeps the invariant: accepted columns of equal length, size bounds, every delivered batch is the one its source columns build, and delivered plus buffered rows are the accepted rows in order |
| WriterRuns.ReachableInv | ext/parquet-core/src/writer.rs:174-527 | so does every sequence of calls, for every choice of sizes, random indices and sink answers |
| WriterRuns.RowAcceptance | ext/parquet-core/src/writer.rs:174-206 | a row is taken exactly when length and values pass; a refused row changes nothing; after a successful call fewer rows than the batch size are buffered |
| WriterRuns.ClosedDeliversAll | ext/parquet-core/src/writer.rs:518-527 | after a successful close the delivered rows are exactly the accepted rows, in order |
| WriterRuns.FlushSucceedsIff | ext/parquet-core/src/writer.rs:366-410 | a flush empties the buffer exactly when the writer is open, the sink takes the batch, the units agree and the offsets can be built, and succeeds exactly when, besides, a memory flush does; otherwise nothing changes, and a wrong unit alone is an error, wrong offsets alone a panic |
| WriterRuns.PoisonedForever | ext/parquet-core/src/writer.rs:366-527 | after one accepted value with a wrong unit, no run delivers anything more and no flush, write_columns or close succeeds |
| WriterCalls.BuildsWriterIff | ext/parquet-core/src/writer.rs:82-111 | building succeeds exactly for validated schemas without uuid decimals, at most a million columns, admitted batch and sample sizes; a uuid decimal panics, all else is a schema error |
| WriterCalls.BuiltWriter | ext/parquet-core/src/writer.rs:82-111 | a built writer is open, has nothing buffered, delivered or sampled, the mapped fields in order, the given sample size, and the given or default batch size |
| WriterCalls.AcceptedIffConforms | ext/parquet-core/src/writer.rs:174-193 | a built writer accepts exactly the rows that have a conforming value for every root field |
| WriterCalls.RowSucceedsIff | ext/parquet-core/src/writer.rs:174-206 | write_row succeeds exactly when the row is accepted and leaves the buffer below the batch size, or fills it and the flush goes well |
| WriterCalls.ColumnsSucceedIff | ext/parquet-core/src/writer.rs:415-501 | write_columns succeeds exactly when the flush goes well and the argument is empty, or conforms and an open sink takes it; a refusing sink is an IO error |
| WriterCalls.FlushCloseSucceedIff | ext/parquet-core/src/writer.rs:504-527 | flush and close succeed exactly when the flush of rows goes well and the open sink flushes or closes; its refusal is an IO error |
| WriterCalls.ClosingSucceedsIff | ext/parquet-core/src/writer.rs:518-527 | after any calls without a close, closing a built writer succeeds exactly when the waiting rows, if any, agree in units, can be built and are taken, a full sink flushes, and the sink closes |
| WriterCalls.BatchIff | ext/parquet-core/src/writer.rs:379-380 | built columns make a batch exactly when there is one, they are equally long and no required one holds a null |
| WriterCalls.ColumnsAcceptance | ext/parquet-core/src/writer.rs:415-501 | a successful write_columns adds exactly the rows of its columns, each value under the field of its column's name; a failed one adds none |
| WriterCalls.ReservoirStep | ext/parquet-core/src/writer.rs:209-222 | the reservoir grows until it is full and then changes at most at the random index |
| WriterCalls.SamplesCount | ext/parquet-core/src/writer.rs:174-232 | over any calls, rows flushed and rows waiting are the rows accepted, there are as many samples as rows up to the sample size, each the size of an accepted row, and the batch size is the initial one until the samples are enough and then what the last row made of it |
| WriterCalls.AnswersExplain | ext/parquet-core/src/writer.rs:366-527 | in every call the sink took as many batches as the file grew by, any refusal makes the call an IO error, and an open writer gives an IO error for no other reason |
| WriterCalls.QuestionsAsked | ext/parquet-core/src/writer.rs:366-527 | the sink is asked for its memory after each buffered batch, flushed when it is full, and flush and close end by asking it to |
| WriterBounds.RowBoundIff | ext/parquet-core/src/writer.rs:174-206 | after an accepted row fewer rows than the batch size are buffered exactly when the buffer was not full, or the writer is open, the sink takes the batch, the units agree and the offsets can be built |
| WriterBounds.BufferBound | ext/parquet-core/src/writer.rs:174-206 | over any run the buffer is below the batch size after every call exactly when every full buffer was deliverable, and then at most a million values are buffered |
| WriterBounds.FailedFlushesGrowBuffer | ext/parquet-core/src/writer.rs:174-206 | under a refusing sink n accepted rows grow the buffer by n |
| WriterBounds.FixedBatches | ext/parquet-core/src/writer.rs:174-206 | with a fixed size, a run of rows only delivers batches of exactly that many rows, with fewer waiting after every call, exactly when every full buffer was deliverable |
| WriterColumns.CountNames | ext/parquet-core/src/writer.rs:432-445 | pigeonhole: names do not repeat exactly when there are as many distinct names as columns |
| WriterColumns.TakenIffConforms | ext/parquet-core/src/writer.rs:415-501 | columns go out exactly when they name every schema field once and nothing else, are equally long, accepted, agree in units, and their offsets can be built |
| WriterColumns.OrderIrrelevant | ext/parquet-core/src/writer.rs:415-501 | permuting the given columns changes neither batch nor error nor resulting state |
| Writer.Writer.Build | ext/parquet-core/src/writer.rs:82-111 | construction fails, with the right error or panic, exactly where the specified construction does (`WriterCalls.BuildsWriterIff`), and otherwise yields its state (`WriterCalls.BuiltWriter`) with a sink that was asked nothing |
| Writer.Writer.WriteRow | ext/parquet-core/src/writer.rs:174-206 | the method takes the specified step under the answers that the sink gave, asks exactly the specified questions, and keeps the invariant |
| Writer.Writer.PushValues | ext/parquet-core/src/writer.rs:195-198 | each value goes to the end of its own column and the row count grows by one |
| Writer.Writer.SampleRowSize | ext/parquet-core/src/writer.rs:209-232 | fills the reservoir, then replaces at the random index if it lies inside, and updates the batch size once there are enough samples |
| Writer.Writer.FlushBufferedRows | ext/parquet-core/src/writer.rs:366-410 | nothing changes when conversion or the sink fails; otherwise the batch is delivered and the buffer empty, even when the memory flush then fails; the sink is asked for the batch, then its memory, then a flush if it is full |
| Writer.Writer.BuildBufferedColumns | ext/parquet-core/src/writer.rs:372-377 | all columns are converted in schema order, the first failure wins |
| Writer.Writer.WriteColumns | ext/parquet-core/src/writer.rs:415-501 | the method takes the specified step under the answers that the sink gave, asks exactly the specified questions, and keeps the invariant |
| Writer.Writer.CollectByName | ext/parquet-core/src/writer.rs:432-445 | the loop fails exactly when a name repeats and else collects all columns by name |
| Writer.Writer.CheckLengths | ext/parquet-core/src/writer.rs:447-465 | accepts exactly when all named schema columns are as long as the first |
| Writer.Writer.TakeColumns | ext/parquet-core/src/writer.rs:467-486 | removing each field's column from the map yields, in schema order, the arrays of the validated columns, or the first failure |
| Writer.Writer.Flush | ext/parquet-core/src/writer.rs:504-513 | the specified step under the sink's answers: its own flush is asked for once the rows are out, and its failure is the result |
| Writer.Writer.Close | ext/parquet-core/src/writer.rs:518-527 | the specified step under the sink's answers: the sink is closed once the rows are out; the writer is closed also when delivery fails |
| Reader.RowIterator.Next | ext/parquet-core/src/reader.rs:252-290 | gives the first pending answer over the remaining batches, skipping empty ones, and terminates; a row that cannot be converted stays pending |
| Reader.RowIterator.ConvertRow | ext/parquet-core/src/reader.rs:255-277 | one row is the cells of all columns in order, or the first conversion failure |
| Reader.ReadAllRows | ext/parquet-core/src/reader.rs:246-291 | reading to the end gives all answers in order when none stays pending |
| Reader.ReadingEndsIff | ext/parquet-core/src/reader.rs:252-290 | some number of calls reaches the end exactly when no pending answer is a row that cannot be converted |
| Reader.RowAnswerExact | ext/parquet-core/src/reader.rs:252-275 | an answer has the values of the row's cells in column order exactly when all can be read, and is repeated exactly when one cannot |
| Reader.FailedBatch | ext/parquet-core/src/reader.rs:277-284 | a failed batch is one answer that is not repeated |
| Reader.ColumnIterator.Next | ext/parquet-core/src/reader.rs:315-355 | the synthetic batch of an empty file once, then one answer per batch; a batch that cannot be converted is consumed |
| Reader.ColumnIterator.ConvertColumns | ext/parquet-core/src/reader.rs:330-351 | all columns of a batch by name and in order, or the first failure |
| Reader.AnswersNamed | ext/parquet-core/src/reader.rs:315-356 | every successful answer, the synthetic one included, has exactly the file's field names in order |
| Reader.ColumnAnswerExact | ext/parquet-core/src/reader.rs:330-354 | a batch is answered with the values of its cells column by column under the field names exactly when all can be read; a failed batch is passed on |
| Reader.AnswersCounted | ext/parquet-core/src/reader.rs:315-329 | one answer per batch, after a first one with every name and no values when the file is empty |
| Reader.CutsDoNotMatter | ext/parquet-core/src/reader.rs:246-291 | the row iterator's answers, errors included, do not depend on how the file is cut into batches, with or without columns |
| Reader.RowsSucceedIffColumns | ext/parquet-core/src/reader.rs:246-356 | over one file, in any two cuts, all rows can be read exactly when all columns can |
| Reader.RowsAndColumnsAgree | ext/parquet-core/src/reader.rs:246-356 | for any two cuts of a file, with or without the synthetic batch, when one reader succeeds so does the other, and row r at position j is entry r of the concatenated j-th column |
| Reader.AlignParquetFields | ext/parquet-core/src/reader.rs:188-211 | each Arrow field gets the first root node of its name, or an error if there is none |
| Reader.AlignIff | ext/parquet-core/src/reader.rs:188-211 | alignment succeeds exactly when every field has a root node of its name, and is a conversion error otherwise |
| Reader.SelectColumns | ext/parquet-core/src/reader.rs:60-84 | the selected positions are exactly those of requested names, in file order |
| Reader.ProjectionCommutes | ext/parquet-core/src/reader.rs:60-98 | a projected read of a file, in any cut, has as many rows as the file, also when no requested name exists, and each row is the file's row at the selected positions in file order |
| Reader.ColumnProjectionCommutes | ext/parquet-core/src/reader.rs:129-176 | each joined column of a projected read, in any cut, is the joined column of the file at the selected position, and every answer has it under the file's name |
| Reader.NarrowIsAligned | ext/parquet-core/src/reader.rs:188-231 | aligning the selected fields alone succeeds and finds the nodes of the full alignment, duplicate root names included |
| Reader.RowHashEntries | ext/parquet-ruby-adapter/src/reader.rs:89-148 | with unique names the hash of a row pairs exactly each name with its value |
| Reader.RowHashLast | ext/parquet-ruby-adapter/src/reader.rs:133-145 | with any names, a key has the value at its last position, and values beyond the names are dropped |
| Reader.ProjectedHash | ext/parquet-ruby-adapter/src/reader.rs:89-148 | the hash of a projected row has exactly the requested names that the file has, each with the value of its column |
| EndToEnd.HistoryReadsBack | ext/parquet-core/src/reader.rs:246-291 | the rows read from built batches are the normal forms of the rows behind them, in order |
| EndToEnd.WrittenRowsReadBack | ext/parquet-core/src/writer.rs:174-527 | after any calls and a successful close, a reader of the file, however it is cut into batches, gets exactly the accepted rows in call order and normal form, and no error, if and only if no offset wrapped in a delivered batch |
| EndToEnd.SchemaReadsBack | ext/parquet-core/src/writer.rs:174-527 | the same in terms of the schema: every accepted row comes back as its nodes say, exactly when no offset wrapped |
| StringStorage.SharedLeakRegistry.LeakNulTerminated | ext/parquet-ruby-adapter/src/string_storage.rs:299-307 | one new NUL-terminated buffer holding the text |
| StringStorage.RememberKept | ext/parquet-ruby-adapter/src/string_storage.rs:274-289 | remembering a fallback keeps the reader within the bounds of its fallback cache, with the bytes counted exactly |
| StringStorage.StepKept | ext/parquet-ruby-adapter/src/string_storage.rs:167-289 | every event keeps the invariants of the registry and of all readers, and the registry only grows |
| StringStorage.ReachableOk | ext/parquet-ruby-adapter/src/string_storage.rs:167-289 | over any interleaving of any readers: each text is leaked once, leaked bytes are the sum of length plus one, both ceilings hold, and every reader's entries are the registry's and within its own budgets |
| StringStorage.ProcessOk | ext/parquet-ruby-adapter/src/string_storage.rs:160-289 | so they hold in every state that a process can come to |
| StringStorage.AdmissionWithinBudget | ext/parquet-ruby-adapter/src/string_storage.rs:177-196 | a call that grows the registry leaves it within that reader's own entry and byte limits |
| StringStorage.SharedIff | ext/parquet-ruby-adapter/src/string_storage.rs:167-272 | a text gets a slice exactly when the reader has one, or has not refused it, takes its length and has room, and the registry has it or room for it within the reader's limits, 65536 entries and 64 MiB; exactly this text is added |
| StringStorage.RememberedIff | ext/parquet-ruby-adapter/src/string_storage.rs:274-289 | a refusal is remembered exactly when the text is short enough and the fallback cache has fewer than 8192 texts and at most 4 MiB with it |
| StringStorage.RememberedForever | ext/parquet-ruby-adapter/src/string_storage.rs:244-289 | a remembered refusal is permanent, whatever any readers do |
| StringStorage.SliceIsForever | ext/parquet-ruby-adapter/src/string_storage.rs:244-272 | once a reader got a slice for a text it gets the same slice after any events |
| StringStorage.SliceIsShared | ext/parquet-ruby-adapter/src/string_storage.rs:167-197 | any reader that ever gets a slice for that text gets the same one |
| StringStorage.FallbackIsForeverAlone | ext/parquet-ruby-adapter/src/string_storage.rs:244-289 | while only this reader is stepping, a fallback answer is permanent, remembered or not |
| StringStorage.FallbackAmongOthers | ext/parquet-ruby-adapter/src/string_storage.rs:244-289 | with other readers, a refused text is shared later exactly when the reader holds it, or the registry does and the reader's own checks let it ask |
| StringStorage.RefusedThenShared | ext/parquet-ruby-adapter/src/string_storage.rs:274-289 | a concrete run in which a refused text is shared later |
| StringCache.StringCache.Stats | ext/parquet-ruby-adapter/src/string_cache.rs:81-94 | size and counters as they are, and a hit rate that is their quotient, zero before any call |
| StringCache.InternKept | ext/parquet-ruby-adapter/src/string_cache.rs:55-78 | the answer has the content asked for, retained entries stay, the bounds are kept |
| StringCache.RetainedIff | ext/parquet-ruby-adapter/src/string_cache.rs:55-78 | a call adds its text exactly when there are fewer entries than the capacity, it has at most 4096 bytes and all texts at most 16 MiB; it is a hit exactly when the text was retained |
| StringCache.RetainedHits | ext/parquet-ruby-adapter/src/string_cache.rs:55-78 | until the next clear, every call for a retained text is a hit |
| StringCache.ClearForgets | ext/parquet-ruby-adapter/src/string_cache.rs:97-102 | a clear forgets all texts and counts |
| StringCache.ReachableValid | ext/parquet-ruby-adapter/src/string_cache.rs:41-102 | over any calls: bounds hold, retained bytes are the total length of the entries, hits plus misses are the calls since the last clear |
| StringCache.SharedUntilClear | ext/parquet-ruby-adapter/src/string_cache.rs:55-78 | a retained text is answered with the same allocation until the next clear |
| StringCache.MoreCapacityMoreHits | ext/parquet-ruby-adapter/src/string_cache.rs:41-102 | on the same calls a larger capacity never has fewer hits, by a simulation of two runs |
| Repack.SplitProperties | ext/parquet-ruby-adapter/src/repack.rs:144-210 | the reference split loses and reorders nothing; every part but the last has n rows, the last 1 to n, and no rows give one empty part |
| Repack.SplitUnique | ext/parquet-ruby-adapter/src/repack.rs:144-210 | these properties determine the split, so the read chunks cannot matter |
| Repack.ChunkSizeOk | ext/parquet-ruby-adapter/src/repack.rs:212-216 | the read chunk is positive and within the slot limit |
| Repack.ChunkSizeLargest | ext/parquet-ruby-adapter/src/repack.rs:212-216 | and it is the largest such chunk within the request, 8192 rows without one |
| Repack.ReportedParts | ext/parquet-ruby-adapter/src/repack.rs:226-254 | file k of the report has number k and as many rows as part k |
| Repack.RepackFiles | ext/parquet-ruby-adapter/src/repack.rs:134-210 | unless every input could be read and every answer of files and cancellation flag before the persist phase was good, the result is an error and nothing is persisted or asked to be; if they were, each file of the split was created, written with exactly its rows and closed, with a look at the flag after every write, and the result is a success with exact counts exactly when every persist succeeded |
| Repack.RepackInputs | ext/parquet-ruby-adapter/src/repack.rs:144-199 | the outer loop goes through exactly when every answer was good and every batch could be read |
| Repack.ValidateInputs | ext/parquet-ruby-adapter/src/repack.rs:323-336 | accepts exactly when every input opens with the first one's schema |
| Repack.RepackInput | ext/parquet-ruby-adapter/src/repack.rs:149-199 | an input is opened again and consumed exactly when its opening, every operation and every batch succeed, and then exactly its rows are appended |
| Repack.RepackBatch | ext/parquet-ruby-adapter/src/repack.rs:157-197 | the inner loop terminates, succeeds exactly when every answer was good, and then has appended exactly the batch's rows |
| Repack.SliceLength | ext/parquet-ruby-adapter/src/repack.rs:169-176 | the subtraction never underflows, the slice is not empty, and it ends the batch or fills the output |
| Repack.WriteSlice | ext/parquet-ruby-adapter/src/repack.rs:159-197 | one turn of the inner loop succeeds exactly when creating, writing, the look at the flag and closing do, and then appends exactly the slice |
| Repack.WriteAndCheck | ext/parquet-ruby-adapter/src/repack.rs:178-185 | the slice is written and the flag looked at, and the log shows both |
| Repack.CloseOutputs | ext/parquet-ruby-adapter/src/repack.rs:201-207 | the open output is closed last; an empty one is made when there is none; success exactly when every answer was good |
| Repack.PersistOutputs | ext/parquet-ruby-adapter/src/repack.rs:226-254 | outputs are persisted in order up to the first failure, and the result is a success with all counts exactly when there is none |
| Sorting.SortSorted | ext/parquet-core/src/value.rs:106-116 | sorting unique keys gives a strictly sorted list |
| Sorting.BelowIff | ext/parquet-core/src/value.rs:106-116 | the order of keys: a proper prefix, or the smaller character at the first difference |
| Sorting.SortedCanonical | ext/parquet-core/src/value.rs:106-116 | a sorted list is determined by its members |
| Hashing.EqualHashes | ext/parquet-core/src/value.rs:56-120 | equal values, records in any insertion order at any depth, feed the hasher the same tokens |
| Hashing.HashPrefix | ext/parquet-core/src/value.rs:56-120 | the tokens are prefix-free: no value's tokens continue into another's, and they determine the value up to equality |
| Hashing.HashIffEq | ext/parquet-core/src/value.rs:7-120 | two values feed the same tokens exactly when they are equal |
| Hashing.EqIsEquivalence | ext/parquet-core/src/value.rs:7-54 | the derived equality is reflexive, symmetric and transitive |
| Hashing.LeafEqIff | ext/parquet-core/src/value.rs:7-54 | scalars are equal exactly when they are the same or floats of one width that are both NaN, both zeros or the same number |
| Hashing.RecordEqIff | ext/parquet-core/src/value.rs:49-50 | records are equal exactly when they have the same names and equal values under each |
| Hashing.PlainEq | ext/parquet-core/src/value.rs:7-54 | values without floats and records are equal only when they are the same |
| Hashing.HashInto | ext/parquet-core/src/value.rs:57-119 | the hasher is fed exactly the specified tokens |
| Hashing.HashRecord | ext/parquet-core/src/value.rs:106-116 | a record's entries are fed in key order |
| Hashing.SortCommutes | ext/parquet-core/src/value.rs:106-116 | sorting entries by key commutes with hashing their values |
| DecimalText.NoPaddingUnderflow | ext/parquet-ruby-adapter/src/converter.rs:1674-1702 | the fraction never has more digits than the scale, so the padding cannot underflow |
| DecimalText.PrintedForm | ext/parquet-ruby-adapter/src/converter.rs:1648-1702 | a minus for negative numbers, integer digits without a superfluous zero, and a dot with exactly as many digits as a positive scale |
| DecimalText.PrintedDigits | ext/parquet-ruby-adapter/src/converter.rs:1648-1702 | all printed digits together denote the number, times a power of ten for a negative scale |
| DecimalText.PrintsIff | ext/parquet-ruby-adapter/src/converter.rs:1648-1672 | with overflow checks a 128-bit number can be printed exactly at scale 0, or at scales from -38 to 38 when it is not the least one and its digits fit |
| DecimalText.ParseText256 | ext/parquet-ruby-adapter/src/converter.rs:1195-1274 | every text of signs, digits and an optional fraction of fewer than 128 digits is parsed as the number of its digits, rescaled with truncation; longer fractions count their digits modulo 256; negative scales are an error |
| DecimalText.ParseText128 | ext/parquet-ruby-adapter/src/converter.rs:1115-1192 | the same for 128 bits with overflow checks: parts that do not fit are an error, scales or fractions above 38 and results that do not fit an overflow |
| DecimalText.InnerSign | ext/parquet-ruby-adapter/src/converter.rs:1216-1274 | "+-5.5" at scale 1 is parsed as -45 |
| DecimalText.ParsePrinted256 | ext/parquet-ruby-adapter/src/converter.rs:1216-1274 | parsing at scale t what was printed at scale s multiplies by 10^(t-s), or divides by 10^(s-t) truncating toward zero, for all signs |
| DecimalText.SameScale256 | ext/parquet-ruby-adapter/src/converter.rs:1674-1702 | at the same scale parsing undoes printing |
| DecimalText.ParsePrinted128 | ext/parquet-ruby-adapter/src/converter.rs:1134-1192 | with overflow checks, the same for 128 bits exactly when the result's magnitude and the scale's factor fit, an overflow otherwise |
| DecimalText.LeastRefused | ext/parquet-ruby-adapter/src/converter.rs:1648-1672 | the least 128-bit number is printed at scale 0 only, and its text is refused at every scale |
| DecimalText.Reparsed128Iff | ext/parquet-ruby-adapter/src/converter.rs:1134-1192 | with overflow checks, a printed 128-bit number is parsed to its rescaled value exactly when it is not the least one and the scale's factor and the result fit |
| DecimalText.Pow38Fits | ext/parquet-ruby-adapter/src/converter.rs:1175-1176 | a power of ten fits in 128 bits exactly up to the exponent 38 |
| Timestamps.RoundTrip | ext/parquet-ruby-adapter/src/converter.rs:696-954 | for every 64-bit count, the reader's truncating split followed by the writer's flooring recombination is the identity, and never an error |
| Timestamps.ToTimeExact | ext/parquet-ruby-adapter/src/converter.rs:1547-1589 | the truncated parts denote exactly the instant of the count |
| Timestamps.OverflowIff | ext/parquet-ruby-adapter/src/converter.rs:696-954 | the recombination stays in range exactly from the least representable whole second on |
| Timestamps.WritesFloor | ext/parquet-ruby-adapter/src/converter.rs:696-954 | every instant is written as its floor exactly when that is a 64-bit count, and is an error exactly when its seconds are out of 64 bits |
| SchemaPaths.CollectFieldPaths | ext/parquet-core/src/traits/schema.rs:95-119 | the accumulator grows by exactly the paths of the subtree in preorder |
| SchemaPaths.AllFieldPaths | ext/parquet-core/src/traits/schema.rs:22-49 | there are as many paths as counted fields, those of the nodes in preorder |
| SchemaPaths.LookupBelow | ext/parquet-core/src/traits/schema.rs:70-93 | without map clashes, the names below a node lead to exactly the entry's node |
| SchemaPaths.LookupFromRoot | ext/parquet-core/src/traits/schema.rs:51-68 | the leading root name is dropped from a path exactly when no child of the root has it |
| SchemaPaths.EntriesDistinct | ext/parquet-core/src/traits/schema.rs:95-119 | the name lists of all nodes are pairwise distinct |
| SchemaPaths.PathsWorkIff | ext/parquet-core/src/traits/schema.rs:22-119 | for validated schemas with dot-free names, all paths are distinct and lead to their nodes exactly when the root has a name, no root child has it, and no map's value is named "key" or like its key |
| SchemaPaths.FindsIff | ext/parquet-core/src/traits/schema.rs:70-93 | segments find a node exactly when a trail of children leads there: first field of the name, "item" or the item's name, "key" or the key's name, and else "value" or the value's name |
| SchemaPaths.PathFindsIff | ext/parquet-core/src/traits/schema.rs:51-93 | a path finds a node exactly when it is not empty and a trail leads there from the root, without a leading root name that no child has |
| Strings.SplitJoin | ext/parquet-core/src/traits/schema.rs:51-64 | splitting at dots undoes joining dot-free names |
| Strings.JoinSplit | ext/parquet-core/src/traits/schema.rs:51-64 | every text is the join of its dot-free segments |

## Left out

- parquet-rs and ArrowWriter internals (encodings, compression, row groups, footers): the sink is the
  sequence of batches it took, and a file may be cut into batches in any way when it is read.
- ArrowSink.Write: a failed write is taken to leave the file as it was; what a half-written row group
  looks like is external.
- RoundTrip.ReadBuilt: assumes that no 32-bit offset is exceeded, because the code casts list and map
  offsets; Wrapping.BuiltReadsBackIff shows that the bound is exact.
- Allocation failures: a column of any size is taken to fit in memory.
- Writer.Writer.SampleRowSize: row size estimates and the suggested batch size are arbitrary numbers,
  the random index an arbitrary one in range; uniformity of the sample is not claimed. Vector
  capacities are not modelled, and the buffered columns are sequences that are reassigned, so growth
  in place is not captured.
- Writer.Writer.FlushBufferedRows: the memory threshold is a yes-or-no answer of the sink.
- StringStorage.SharedLeakInterner.Intern: one call is one atomic step, because the registry is
  touched once per call and inside its mutex; mutex poisoning and memory addresses are not modelled
  beyond which leak a slice views.
- Hashing.HashIffEq: strings and byte strings are one token each; the hash function over the tokens
  is external, and NaN payloads are one NaN.
- Leaves.EncodeDecode: floats are exact, widening is the identity on them; 16-bit float columns
  cannot come from a schema. The four timestamp variants are one, indexed by unit.
- DecimalText.ParsePrinted128: arithmetic overflow is modelled as a panic, as in a build with
  overflow checks; in a release build, which wraps, some texts are parsed at scales above 38.
- Timestamps.RoundTrip: uses wrapping arithmetic; Timestamps.OverflowIff covers the checked build.
- DecimalText.ParseText256: texts whose parts have signs of their own are covered by one example only
  (DecimalText.InnerSign); the power with a negative count of digits, which is out of any range, is a
  panic.
- DecimalText.ParsePrinted256: starts after the text was trimmed; scientific notation, which goes
  through floating point, and underscores in big integers are not modelled.
- Reader.ProjectionCommutes: the external reader is taken to return the selected root columns in file
  order, with the file's number of rows, cut into batches in any way.
- Repack.RepackFiles: temporary and final paths are represented by the output's number, an operation
  on a file by its place in the log and its answer; panics inside the worker are not modelled.
- Error messages and value paths in errors; only the error class is kept.
- `write_rows`, which repeats `write_row`, `Writer::new` and `new_with_properties`, which build with default
  sizes, and `has_field`, which asks `get_field_by_path`.
- Ruby and Magnus bindings, enumerators, loggers, argument parsing, IO adapters, metadata, the Ruby
  schema language, date strings, Date32 and Date64 conversion, timezone strings and float printing.
- Child arrays with slice offsets of their own: every array starts at slot zero, as the builders
  produce them.
