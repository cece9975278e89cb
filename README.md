# capacitor-duckdb bridge core, in Dafny

This project models the native bridges of the `capacitor-duckdb` plugin and
the Java registry above the Android bridge. It proves what they promise about
the text they hand back and the state they keep.

- **JSON encoding** (`Bytes`, `JsonString`, `ValueEncoder`, `ResultSerializer`).
  - The string escaper of both bridges.
  - The per-cell encoder: its `switch` over the column type id.
  - The two result serializers:
    - the streaming one pulls chunks until the first null or empty chunk;
    - the materialized one walks `RowCount()` rows.
  - `ResultReader` is an independent reader for the JSON the bridges write. It
    follows section 7 of RFC 8259 for strings and reads JSON integers and
    literals. The round-trip lemmas are stated and proved against it.
- **Bindings** (`BindingStore`, `Handles`).
  - The bindings vector of a prepared statement, with 1-based grow-to-fit binding
    and clear-to-null.
  - It is specified by the pure functions `Bound` and `Cleared`. The in-place
    methods are proved against them.
- **Handles and error channels** (`Engine`, `Handles`, `AndroidJni`, `IosBridge`).
  - Wrappers are classes. A `0` / `nullptr` handle is `null`.
  - The engine is not modelled. The answer of each engine call is an input of
    the operation that makes the call:
    - a result, an error result, or a thrown exception;
    - a prepared plan, whose `Execute` is a function of the bindings vector.
  - Android reports every failure as an `ERROR:`-prefixed return string.
  - iOS returns `nullptr` / `false` and writes the message into an `error_out`
    slot the caller may pass.
- **Java registry** (`JavaRegistry`).
  - `CapacitorDuckDb` is a class with its two maps.
  - Native calls are recorded in a ghost log. What each call returns is an input.
  - Database names map to paths.
  - Native strings map to the objects handed to JavaScript: `{"error"}`,
    `{"changes"}` and `{"values"}`.
  - `new JSONArray(result)` follows Android's `org.json`:
    - each row becomes a `JSONObject`, a `LinkedHashMap` filled by `put`, so
      a repeated column name keeps its first place and its last value;
    - an integer outside the `long` range becomes a `Double`.
  - End-to-end lemmas go from the engine's answer to that object.

Source paths below are relative to the repository root.

## Model

| member | source | states |
|---|---|---|
| Bytes.WrapInt64 | android/src/main/cpp/duckdb_jni.cpp:422 | A count stored in an `int64_t` keeps its value whenever it is below 2^63, and always keeps its low 64 bits. |
| Bytes.DigitsFacts | android/src/main/cpp/duckdb_jni.cpp:120 | The decimal digits of a natural are non-empty, have no leading zero unless the number is zero, and read back as that number. |
| Bytes.DecimalRoundTrip | android/src/main/cpp/duckdb_jni.cpp:120-126 | The decimal text the stream writes for a signed or unsigned integer reads back as that same integer. |
| Bytes.NegativeRoundTrip | android/src/main/cpp/duckdb_jni.cpp:120 | A negative integer's text, `-` followed by its digits, reads back as that integer. |
| Bytes.DecimalTextShape | android/src/main/cpp/duckdb_jni.cpp:120-126 | Decimal text is non-empty and all digits, except a leading `-` for a negative value. |
| Bytes.PrintableAppend | ios/Sources/CapacitorDuckDbPlugin/duckdb_ios.cpp:49-55 | A concatenation has no control byte exactly when neither part has one. |
| JsonString.EscapeJsonString | android/src/main/cpp/duckdb_jni.cpp:50-72 | The escaper's loop writes exactly `Escaped(s)`: a quote, the escape of each byte in order, a quote. |
| JsonString.EscapeStep | android/src/main/cpp/duckdb_jni.cpp:53-69 | One pass of the escaper's loop extends the output by the escape of the next byte. |
| JsonString.EscapedBodySnoc | android/src/main/cpp/duckdb_jni.cpp:53-69 | Escaping is per byte: escaping `s + [c]` is escaping `s` followed by escaping `c`. |
| JsonString.Hex4OfControl | android/src/main/cpp/duckdb_jni.cpp:63-64 | The four zero-padded lowercase hex digits written for a control byte read back as that byte. |
| JsonString.DecodeEscape | ios/Sources/CapacitorDuckDbPlugin/duckdb_ios.cpp:62-75 | The decoder of one RFC 8259 escape sequence consumes at least one byte and no more than it is given. |
| JsonString.ParseStringBody | ios/Sources/CapacitorDuckDbPlugin/duckdb_ios.cpp:58-80 | The RFC 8259 string reader always consumes input when it succeeds. |
| JsonString.ParseString | ios/Sources/CapacitorDuckDbPlugin/duckdb_ios.cpp:58-80 | Reading a quoted string always consumes input when it succeeds. |
| JsonString.EscapeByteReads | android/src/main/cpp/duckdb_jni.cpp:55-67 | The escape of any byte (the two-character escapes, `\u00XX` for the other control bytes, or the byte itself) reads back as exactly that byte. |
| JsonString.ShortEscapeReads | android/src/main/cpp/duckdb_jni.cpp:55-61 | `\"`, `\\`, `\b`, `\f`, `\n`, `\r` and `\t` each read back as the byte they stand for. |
| JsonString.ControlEscapeReads | android/src/main/cpp/duckdb_jni.cpp:63-64 | Every other control byte is written `\u00XX` and reads back as that byte, in six bytes. |
| JsonString.BodyRoundTrip | android/src/main/cpp/duckdb_jni.cpp:53-70 | An escaped body followed by the closing quote reads back as the original bytes, leaving what follows untouched. |
| JsonString.StringRoundTrip | android/src/main/cpp/duckdb_jni.cpp:50-72 | Decoding the escaper's output per section 7 of RFC 8259 gives the input back, and stops right after the closing quote. |
| JsonString.DecodeEscaped | ios/Sources/CapacitorDuckDbPlugin/duckdb_ios.cpp:58-80 | The whole of the escaper's output decodes to exactly its input. |
| JsonString.EscapedInjective | android/src/main/cpp/duckdb_jni.cpp:50-72 | Two different strings never escape to the same text. |
| JsonString.EscapedBodyPrintable | android/src/main/cpp/duckdb_jni.cpp:63-67 | An escaped body contains no byte below 0x20. |
| JsonString.EscapedPrintable | ios/Sources/CapacitorDuckDbPlugin/duckdb_ios.cpp:58-80 | The escaper's output is a quoted string with no control byte, and so no NUL. |
| ValueEncoder.WriteValue | android/src/main/cpp/duckdb_jni.cpp:107-137 | The cell `switch` writes exactly `EncodeValue`: `null` for a null cell of any type, the boolean literals, signed and unsigned decimal, the formatter's float and double text, and the escaped `ToString()` for every other type. |
| ValueEncoder.TokenLength | android/src/main/cpp/duckdb_jni.cpp:107-137 | The measured token is the longest prefix without `,` or `}`. |
| ValueEncoder.ParseValue | android/src/main/cpp/duckdb_jni.cpp:107-137 | Reading a value always consumes input when it succeeds. |
| ValueEncoder.TokenLengthOf | android/src/main/cpp/duckdb_jni.cpp:107-137 | A bare token followed by a delimiter is measured as exactly that token. |
| ValueEncoder.TokenRoundTrip | android/src/main/cpp/duckdb_jni.cpp:107-137 | An unquoted token reads back as its classification: `null`, a boolean, an integer, or a non-integer token. |
| ValueEncoder.ValueRoundTrip | android/src/main/cpp/duckdb_jni.cpp:107-137 | Every encoded cell reads back as its meaning: null, the boolean, the int64 or uint64 value (so a UBIGINT never reads negative), or the `ToString()` text. Float and double cells read back as whatever the formatter wrote. |
| ValueEncoder.EncodedPrintable | ios/Sources/CapacitorDuckDbPlugin/duckdb_ios.cpp:110-150 | An encoded cell is non-empty and holds no control byte. |
| ResultSerializer.JoinSnoc | android/src/main/cpp/duckdb_jni.cpp:163-166 | Adding one more part adds a `,` separator, except for the first part. |
| ResultSerializer.JoinAppend | android/src/main/cpp/duckdb_jni.cpp:90-99 | Joining two non-empty runs of records puts one `,` between them. |
| ResultSerializer.JoinStep | android/src/main/cpp/duckdb_jni.cpp:163-172 | One pass of the `if (row > 0) ","` / `if (col > 0) ","` loop extends the output to the join of one more part. |
| ResultSerializer.WriteRecord | android/src/main/cpp/duckdb_jni.cpp:165-213 | The column loop writes `{`, then the `escaped(name):value` pairs in column order joined by `,`, then `}`. |
| ResultSerializer.ResultToJson | android/src/main/cpp/duckdb_jni.cpp:152-219 | The materialized serializer writes `[`, the records of the rows in row order joined by `,`, then `]`. Zero rows give `[]`. |
| ResultSerializer.Sentinel | android/src/main/cpp/duckdb_jni.cpp:90 | It gives the position of the first null or empty chunk; every chunk before it has rows. |
| ResultSerializer.QueryResultToJson | android/src/main/cpp/duckdb_jni.cpp:76-148 | The streaming serializer writes the same text as the materialized one would for the rows of every chunk before the first null or empty chunk, in order. |
| ResultSerializer.FitsAppend | android/src/main/cpp/duckdb_jni.cpp:90-91 | Rows of two chunks with one cell per column together still have one cell per column. |
| ResultSerializer.RecordsAppend | android/src/main/cpp/duckdb_jni.cpp:90-91 | The records of two runs of rows are the records of the first, then those of the second. |
| ResultSerializer.ConcatStep | android/src/main/cpp/duckdb_jni.cpp:90 | Fetching one more chunk appends its rows. |
| ResultSerializer.JoinStepAfter | android/src/main/cpp/duckdb_jni.cpp:92-96 | The `first_row` flag writes a `,` before every record but the first across chunk boundaries. |
| ResultSerializer.ConcatFits | android/src/main/cpp/duckdb_jni.cpp:90-91 | The rows of well-formed chunks have one cell per column. |
| ResultSerializer.StreamFits | android/src/main/cpp/duckdb_jni.cpp:90-91 | The rows the streaming loop visits have one cell per column. |
| ResultSerializer.FlattenSnoc | android/src/main/cpp/duckdb_jni.cpp:90-91 | Laying out one more chunk's rows appends them. |
| ResultSerializer.Fetched | android/src/main/cpp/duckdb_jni.cpp:90 | A `Fetch()` sequence has one answer per chunk. |
| ResultSerializer.ConcatFetched | android/src/main/cpp/duckdb_jni.cpp:90-91 | The fetched chunks' rows are the chunks' rows laid end to end. |
| ResultSerializer.SentinelAfter | android/src/main/cpp/duckdb_jni.cpp:90 | Chunks with rows followed by a null or empty chunk (or the end) stop the loop exactly after the last chunk. |
| ResultSerializer.StreamOfChunks | android/src/main/cpp/duckdb_jni.cpp:90-91 | For non-empty chunks followed by a null or empty chunk, the streaming loop visits exactly their rows in order. With `QueryResultToJson`, the two serializers agree on the same rows. |
| ResultReader.ParseMembers | ios/Sources/CapacitorDuckDbPlugin/duckdb_ios.cpp:104-150 | The object-member reader always consumes input when it succeeds. |
| ResultReader.ParseObject | ios/Sources/CapacitorDuckDbPlugin/duckdb_ios.cpp:100-153 | The object reader always consumes input when it succeeds. |
| ResultReader.ParseElements | ios/Sources/CapacitorDuckDbPlugin/duckdb_ios.cpp:98-154 | The array-element reader always consumes input when it succeeds. |
| ResultReader.ParseArray | ios/Sources/CapacitorDuckDbPlugin/duckdb_ios.cpp:84-156 | The array reader always consumes input when it succeeds. |
| ResultReader.KeyReads | android/src/main/cpp/duckdb_jni.cpp:172 | A pair's key reads back as the column name, followed by `:` and the value. |
| ResultReader.MemberAt | android/src/main/cpp/duckdb_jni.cpp:168-212 | One `name:value` pair reads back as (column name, cell meaning). |
| ResultReader.PairsSplit | android/src/main/cpp/duckdb_jni.cpp:168-171 | A record's pairs are the first column's pair, then `,` and the rest, in column order. |
| ResultReader.PairsHead | android/src/main/cpp/duckdb_jni.cpp:172 | A non-empty record body opens with the quote of the first column name. |
| ResultReader.DecodedSplit | android/src/main/cpp/duckdb_jni.cpp:168-212 | A decoded record is the first column's entry, then the rest. |
| ResultReader.MembersRoundTrip | android/src/main/cpp/duckdb_jni.cpp:168-212 | A record's pairs read back as one (name, meaning) entry per column in column order. |
| ResultReader.RecordRoundTrip | android/src/main/cpp/duckdb_jni.cpp:165-215 | A record, `{}` for zero columns included, reads back as exactly its row's decoded entries. |
| ResultReader.RecordsSplit | android/src/main/cpp/duckdb_jni.cpp:163-166 | The joined records are the first row's record, then `,` and the rest, in row order. |
| ResultReader.ElementsRoundTrip | android/src/main/cpp/duckdb_jni.cpp:158-216 | A non-empty run of records reads back as the decoded rows in row order. |
| ResultReader.RowsRoundTrip | android/src/main/cpp/duckdb_jni.cpp:152-219 | The serializer's output reads back as one record per row in row order, each with every column in declaration order. |
| ResultReader.RowsTextDetermines | android/src/main/cpp/duckdb_jni.cpp:152-219 | Equal JSON texts carry equal decoded rows. |
| ResultReader.JoinPrintable | ios/Sources/CapacitorDuckDbPlugin/duckdb_ios.cpp:98-154 | Joining parts without control bytes by `,` adds none. |
| ResultReader.RecordPrintable | ios/Sources/CapacitorDuckDbPlugin/duckdb_ios.cpp:100-153 | A record of readable cells holds no control byte. |
| ResultReader.RowsPrintable | ios/Sources/CapacitorDuckDbPlugin/duckdb_ios.cpp:84-156 | The JSON of readable rows holds no control byte, and so no NUL. |
| BindingStore.NullSlots | android/src/main/cpp/duckdb_jni.cpp:482 | A vector of `n` default (null) values has `n` slots, all null. |
| BindingStore.Bound | android/src/main/cpp/duckdb_jni.cpp:528-551 | The bind rule. It fails exactly when the index is below 1. Otherwise the size becomes `max(old, index)`, slot `index - 1` holds the value, old slots are unchanged and the new ones are null. |
| BindingStore.SlotsEqual | android/src/main/cpp/duckdb_jni.cpp:747-749 | Two vectors of the same size that agree slot by slot are equal. |
| BindingStore.LastBindWins | android/src/main/cpp/duckdb_jni.cpp:540-541 | Binding the same index twice leaves only the second value. |
| BindingStore.BindsCommute | android/src/main/cpp/duckdb_jni.cpp:534-541 | Binds to different indices give the same vector in either order. |
| BindingStore.ClearAfterBind | android/src/main/cpp/duckdb_jni.cpp:747-749 | Clearing after a bind leaves all nulls, at the grown size. |
| Engine.Rows | android/src/main/cpp/duckdb_jni.cpp:90-91 | Every row of a result has one cell per column. |
| Handles.Location | android/src/main/cpp/duckdb_jni.cpp:258 | A null or empty path selects the in-memory database. Any other path is passed on unchanged. |
| Handles.Database.constructor | ios/Sources/CapacitorDuckDbPlugin/duckdb_ios.cpp:31-36 | A new database wrapper starts with `spatial_loaded` false. |
| Handles.Connection.constructor | ios/Sources/CapacitorDuckDbPlugin/duckdb_ios.cpp:38-41 | A connection records the database it was made from. |
| Handles.PreparedStatement.constructor | android/src/main/cpp/duckdb_jni.cpp:472-482 | A new statement has one null binding per parameter. |
| Handles.PreparedStatement.Bind | android/src/main/cpp/duckdb_jni.cpp:528-551 | The in-place resize-and-assign succeeds exactly for an index of at least 1. It leaves the bindings as `Bound` says, or unchanged on failure. |
| Handles.PreparedStatement.ClearAll | android/src/main/cpp/duckdb_jni.cpp:747-749 | The slot loop sets every slot to null and keeps the size. |
| Handles.BindSlot | android/src/main/cpp/duckdb_jni.cpp:519-552 | A null handle returns false and touches nothing. Otherwise the call is the shared bind body. |
| AndroidJni.QueryChannel | android/src/main/cpp/duckdb_jni.cpp:353-388 | A query reply starts with `ERROR:` exactly when the engine did not succeed, and then carries the engine's message verbatim. |
| AndroidJni.ExecuteChannel | android/src/main/cpp/duckdb_jni.cpp:397-436 | An execute reply starts with `ERROR:` exactly when the engine did not succeed, and then carries the message verbatim. |
| AndroidJni.OpenDatabase | android/src/main/cpp/duckdb_jni.cpp:238-284 | It returns a live handle exactly when the engine opens, for the in-memory database when the path is null or empty. |
| AndroidJni.CloseDatabase | android/src/main/cpp/duckdb_jni.cpp:291-301 | A zero handle does nothing. Any other handle is deleted. |
| AndroidJni.Connect | android/src/main/cpp/duckdb_jni.cpp:309-327 | A zero database handle or an engine failure gives `0`. Otherwise the result is a live connection to that database. |
| AndroidJni.Disconnect | android/src/main/cpp/duckdb_jni.cpp:334-344 | A zero handle does nothing. Any other handle is deleted. |
| AndroidJni.Query | android/src/main/cpp/duckdb_jni.cpp:353-388 | A zero connection gives `ERROR:Invalid connection handle` and a null SQL gives `ERROR:Invalid SQL string`. Otherwise the reply is the JSON of the result, or `ERROR:` and the engine's message. |
| AndroidJni.Execute | android/src/main/cpp/duckdb_jni.cpp:397-436 | The same checks. On success it returns exactly `{"changes":N}`, with `N` the `int64_t` row count. |
| AndroidJni.Prepare | android/src/main/cpp/duckdb_jni.cpp:445-492 | It returns a statement exactly when connection, SQL and engine all succeed. The statement is fresh, holds the engine's plan, and has one null binding per parameter. |
| AndroidJni.DestroyPrepared | android/src/main/cpp/duckdb_jni.cpp:499-509 | A zero handle does nothing. Any other statement is deleted. |
| AndroidJni.BindString | android/src/main/cpp/duckdb_jni.cpp:519-552 | It has the bind rule at the given index, and a Java null string binds null. |
| AndroidJni.BindLong | android/src/main/cpp/duckdb_jni.cpp:562-587 | It has the bind rule with a BIGINT value. |
| AndroidJni.BindDouble | android/src/main/cpp/duckdb_jni.cpp:597-622 | It has the bind rule with a DOUBLE value. |
| AndroidJni.BindBoolean | android/src/main/cpp/duckdb_jni.cpp:632-657 | It has the bind rule, binding true exactly for `JNI_TRUE`. |
| AndroidJni.BindNull | android/src/main/cpp/duckdb_jni.cpp:666-691 | It has the bind rule with a null value. |
| AndroidJni.ExecutePrepared | android/src/main/cpp/duckdb_jni.cpp:699-730 | A zero handle gives `ERROR:Invalid statement handle`. Otherwise the engine executes with exactly the current bindings, and the reply is the streamed JSON or `ERROR:` and the message. |
| AndroidJni.ClearBindings | android/src/main/cpp/duckdb_jni.cpp:738-753 | A zero handle returns false. Otherwise every slot becomes null at the same size and it returns true. |
| IosBridge.DuplicateString | ios/Sources/CapacitorDuckDbPlugin/duckdb_ios.cpp:49-55 | The copy is the longest NUL-free prefix of the string. |
| IosBridge.DuplicateWhole | ios/Sources/CapacitorDuckDbPlugin/duckdb_ios.cpp:49-55 | A string without NUL is copied whole. |
| IosBridge.JsonCopiedWhole | ios/Sources/CapacitorDuckDbPlugin/duckdb_ios.cpp:262-263 | The copy of the JSON of readable rows is that JSON, uncut. |
| IosBridge.CopyReadsBack | ios/Sources/CapacitorDuckDbPlugin/duckdb_ios.cpp:262-263 | The string a caller of `query` receives reads back as exactly the decoded rows. |
| IosBridge.Report | ios/Sources/CapacitorDuckDbPlugin/duckdb_ios.cpp:241-243 | The message is written only through a non-null `error_out`. |
| IosBridge.Rejection | ios/Sources/CapacitorDuckDbPlugin/duckdb_ios.cpp:240-244 | A null connection reports "Invalid connection" whatever the SQL. Otherwise a null SQL reports "Invalid SQL". Otherwise the engine's message is reported. There is no failure exactly when the engine succeeds. |
| IosBridge.StatementRejection | ios/Sources/CapacitorDuckDbPlugin/duckdb_ios.cpp:441-458 | A null statement reports "Invalid statement handle". There is no failure exactly when the engine succeeds. |
| IosBridge.OpenDatabase | ios/Sources/CapacitorDuckDbPlugin/duckdb_ios.cpp:164-196 | It returns a live handle unless the engine throws, even when the spatial load fails. `spatial_loaded` is set exactly when the load succeeded. A throw is reported through `error_out`. |
| IosBridge.CloseDatabase | ios/Sources/CapacitorDuckDbPlugin/duckdb_ios.cpp:198-204 | It is a no-op on `nullptr`. Otherwise it deletes the wrapper. |
| IosBridge.Connect | ios/Sources/CapacitorDuckDbPlugin/duckdb_ios.cpp:206-229 | A null database reports "Invalid database handle". An engine throw reports its message. Otherwise the result is a live connection. |
| IosBridge.Disconnect | ios/Sources/CapacitorDuckDbPlugin/duckdb_ios.cpp:231-237 | It is a no-op on `nullptr`. Otherwise it deletes the wrapper. |
| IosBridge.HasSpatialExtension | ios/Sources/CapacitorDuckDbPlugin/duckdb_ios.cpp:477-482 | It is true exactly for a non-null database whose spatial load succeeded. |
| IosBridge.Query | ios/Sources/CapacitorDuckDbPlugin/duckdb_ios.cpp:239-268 | It returns a copy of the rows' JSON exactly when nothing failed, and `nullptr` otherwise. On failure the message goes to `error_out`. Both never happen in one call. |
| IosBridge.Execute | ios/Sources/CapacitorDuckDbPlugin/duckdb_ios.cpp:270-313 | It returns true exactly when nothing failed. `*rows_changed_out` receives the `int64_t` row count only then and only through a non-null pointer. |
| IosBridge.Prepare | ios/Sources/CapacitorDuckDbPlugin/duckdb_ios.cpp:315-347 | It returns a statement exactly when nothing failed, with one null binding per parameter. Otherwise the failure is reported. |
| IosBridge.DestroyPrepared | ios/Sources/CapacitorDuckDbPlugin/duckdb_ios.cpp:349-354 | It is a no-op on `nullptr`. Otherwise it deletes the wrapper. |
| IosBridge.BindString | ios/Sources/CapacitorDuckDbPlugin/duckdb_ios.cpp:356-373 | It has the bind rule. A null handle returns false and changes nothing, and a null `value` binds null. |
| IosBridge.BindInt64 | ios/Sources/CapacitorDuckDbPlugin/duckdb_ios.cpp:375-387 | It has the bind rule with a BIGINT value. |
| IosBridge.BindDouble | ios/Sources/CapacitorDuckDbPlugin/duckdb_ios.cpp:389-401 | It has the bind rule with a DOUBLE value. |
| IosBridge.BindBool | ios/Sources/CapacitorDuckDbPlugin/duckdb_ios.cpp:403-415 | It has the bind rule with a BOOLEAN value. |
| IosBridge.BindNull | ios/Sources/CapacitorDuckDbPlugin/duckdb_ios.cpp:417-429 | It has the bind rule with a null value. |
| IosBridge.ClearBindings | ios/Sources/CapacitorDuckDbPlugin/duckdb_ios.cpp:431-438 | It is a no-op on `nullptr`. Otherwise every slot becomes null at the same size. |
| IosBridge.ExecutePrepared | ios/Sources/CapacitorDuckDbPlugin/duckdb_ios.cpp:440-469 | The engine executes with exactly the current bindings. The caller gets either a copy of the JSON or the reported failure, never both. |
| JavaRegistry.FileNameShape | android/src/main/java/ph/com/regalado/capacitor/duckdb/CapacitorDuckDb.java:65-67 | The file name starts with the database name and ends in `.duckdb` or `.db`. |
| JavaRegistry.FileNameIdempotent | android/src/main/java/ph/com/regalado/capacitor/duckdb/CapacitorDuckDb.java:65-67 | Normalising a name twice is normalising it once. |
| JavaRegistry.PathOfFileName | android/src/main/java/ph/com/regalado/capacitor/duckdb/CapacitorDuckDb.java:59-70 | A name and its normalised file name give the same database path: `app` and `app.duckdb` share a file. |
| JavaRegistry.NotAnError | android/src/main/java/ph/com/regalado/capacitor/duckdb/CapacitorDuckDb.java:214 | Text opening with `[` or `{` is never taken for an error. |
| JavaRegistry.ErrorsPassThrough | android/src/main/java/ph/com/regalado/capacitor/duckdb/CapacitorDuckDb.java:214-217 | `ERROR:` plus a message becomes `{"error": message}` in `execute`, `query`/`queryWithParams` and `run` alike. |
| JavaRegistry.RowsPassThrough | android/src/main/java/ph/com/regalado/capacitor/duckdb/CapacitorDuckDb.java:239-247 | The JSON of readable rows becomes `values` holding one `readObject` result per decoded row, in row order. `run` reports the row count by the `changes` rule. |
| JavaRegistry.IndexOf | android/src/main/java/ph/com/regalado/capacitor/duckdb/CapacitorDuckDb.java:246 | The index found holds the name, and no earlier entry does; it is the length exactly when the name is absent. |
| JavaRegistry.IndexOfIs | android/src/main/java/ph/com/regalado/capacitor/duckdb/CapacitorDuckDb.java:246 | The first index of a name is fixed by where the name occurs. |
| JavaRegistry.PutSame | android/src/main/java/ph/com/regalado/capacitor/duckdb/CapacitorDuckDb.java:246 | After `put(name, v)`, looking up `name` gives `v`. |
| JavaRegistry.PutOther | android/src/main/java/ph/com/regalado/capacitor/duckdb/CapacitorDuckDb.java:246 | After `put(name, v)`, every other name looks up what it did before. |
| JavaRegistry.PutDistinct | android/src/main/java/ph/com/regalado/capacitor/duckdb/CapacitorDuckDb.java:246 | `put` keeps names distinct. It keeps the size for a name already present, and appends a new name last. |
| JavaRegistry.ReadObjectLookup | android/src/main/java/ph/com/regalado/capacitor/duckdb/CapacitorDuckDb.java:246 | Each name of a row's object looks up the value of the last member of that name, converted as `JSONTokener` does, and a name the text lacks looks up nothing. |
| JavaRegistry.ReadObjectDistinct | android/src/main/java/ph/com/regalado/capacitor/duckdb/CapacitorDuckDb.java:246 | A row's object never holds a name twice. |
| JavaRegistry.ConvertedSnoc | android/src/main/java/ph/com/regalado/capacitor/duckdb/CapacitorDuckDb.java:246 | Converting one more member appends it. |
| JavaRegistry.DistinctNamesInOrder | android/src/main/java/ph/com/regalado/capacitor/duckdb/CapacitorDuckDb.java:246 | With distinct column names nothing is overwritten: the object holds every member in column order. |
| JavaRegistry.CellAsJava | android/src/main/java/ph/com/regalado/capacitor/duckdb/CapacitorDuckDb.java:246 | Booleans, strings and signed integers reach Java unchanged, and so do unsigned integers below 2^63. A larger UBIGINT becomes a `Double`. |
| JavaRegistry.DuplicateColumnLastWins | android/src/main/java/ph/com/regalado/capacitor/duckdb/CapacitorDuckDb.java:246 | `SELECT 1 AS a, 2 AS a` gives an object holding only `a = 2`. |
| JavaRegistry.ChangesPassThrough | android/src/main/java/ph/com/regalado/capacitor/duckdb/CapacitorDuckDb.java:214-220 | The native `{"changes":N}` reads back as `changes = N`. |
| JavaRegistry.QueryEndToEnd | android/src/main/java/ph/com/regalado/capacitor/duckdb/CapacitorDuckDb.java:229-248 | From engine answer to JavaScript object, `query` gives the decoded rows as `org.json` objects on success and otherwise `{"error"}` with the engine's message. |
| JavaRegistry.ExecuteEndToEnd | android/src/main/java/ph/com/regalado/capacitor/duckdb/CapacitorDuckDb.java:204-221 | End to end, `execute` gives the int64 row count on success and otherwise the engine's message. |
| JavaRegistry.RunEndToEnd | android/src/main/java/ph/com/regalado/capacitor/duckdb/CapacitorDuckDb.java:373-386 | End to end, `run` gives `changes` = the row count if positive, else 1, so always at least 1. Otherwise it gives the engine's message. |
| JavaRegistry.BindCalls | android/src/main/java/ph/com/regalado/capacitor/duckdb/CapacitorDuckDb.java:275-299 | There is one bind call per parameter value. |
| JavaRegistry.BindCallsStep | android/src/main/java/ph/com/regalado/capacitor/duckdb/CapacitorDuckDb.java:278 | The last value's call binds index `|values|` with that value's parameter. |
| JavaRegistry.ParametersInOrder | android/src/main/java/ph/com/regalado/capacitor/duckdb/CapacitorDuckDb.java:276-298 | The bind calls, run through the native bind rule on a fresh statement, leave value `i` in slot `i`, converted by its Java class, and null beyond. |
| JavaRegistry.ClosingCallsStep | android/src/main/java/ph/com/regalado/capacitor/duckdb/CapacitorDuckDb.java:462-466 | Closing one more name appends its disconnect and then its close. |
| JavaRegistry.KeepAll | android/src/main/java/ph/com/regalado/capacitor/duckdb/CapacitorDuckDb.java:463 | A map restricted to a listing of all its keys is unchanged. |
| JavaRegistry.KeepStep | android/src/main/java/ph/com/regalado/capacitor/duckdb/CapacitorDuckDb.java:463-465 | Closing the next listed name removes just that name from what is left. |
| JavaRegistry.Registry.constructor | android/src/main/java/ph/com/regalado/capacitor/duckdb/CapacitorDuckDb.java:31-34 | The registry starts empty and consistent. |
| JavaRegistry.Registry.IsOpen | android/src/main/java/ph/com/regalado/capacitor/duckdb/CapacitorDuckDb.java:447-449 | It holds exactly for a name registered with a non-zero handle, which is being registered in either map. |
| JavaRegistry.Registry.Open | android/src/main/java/ph/com/regalado/capacitor/duckdb/CapacitorDuckDb.java:138-168 | A registered name: `null`, no native call. A zero db handle: an error, maps unchanged. A zero connection: the db is closed again, an error, maps unchanged. Otherwise both maps gain the name. |
| JavaRegistry.Registry.Close | android/src/main/java/ph/com/regalado/capacitor/duckdb/CapacitorDuckDb.java:175-196 | An unknown name gives "Database not open: …" and no change. Otherwise both entries go, disconnecting before closing the database. |
| JavaRegistry.Registry.CloseAll | android/src/main/java/ph/com/regalado/capacitor/duckdb/CapacitorDuckDb.java:462-466 | Afterwards no name is registered. Every registered database was disconnected and closed once, in snapshot order. |
| JavaRegistry.Registry.ConnectionOf | android/src/main/java/ph/com/regalado/capacitor/duckdb/CapacitorDuckDb.java:205-206 | It finds the connection handle of a registered name, and nothing for any other name. |
| JavaRegistry.Registry.Execute | android/src/main/java/ph/com/regalado/capacitor/duckdb/CapacitorDuckDb.java:204-221 | An unknown name gives "Database not open: …" with no native call. Otherwise one native `execute` on the name's connection, mapped by the error and `changes` rules. |
| JavaRegistry.Registry.Query | android/src/main/java/ph/com/regalado/capacitor/duckdb/CapacitorDuckDb.java:229-248 | The same for `query`, mapped to `{"values"}` or `{"error"}`. |
| JavaRegistry.Registry.BindParameters | android/src/main/java/ph/com/regalado/capacitor/duckdb/CapacitorDuckDb.java:274-299 | The loop issues exactly the bind calls: parameter `i` at index `i + 1`, dispatched on its Java class. A null `values` binds nothing. |
| JavaRegistry.Registry.QueryWithParams | android/src/main/java/ph/com/regalado/capacitor/duckdb/CapacitorDuckDb.java:257-317 | The sequence is prepare, then binds in order, then execute. A failed prepare gives "Failed to prepare statement". After a successful prepare the statement is destroyed on every path. |
| JavaRegistry.Registry.Run | android/src/main/java/ph/com/regalado/capacitor/duckdb/CapacitorDuckDb.java:326-391 | The same call sequence as `queryWithParams`, answered by the `changes` rule. |

## Left out

- The DuckDB engine: `Query`, `Prepare`, `Execute`, `Fetch`, `GetValue`, `ToString`, `RowCount` and `named_param_map`. Their answers are inputs.
- Float and double rendering (`json << float/double`). A cell carries the formatter's text, and nothing is proved about it. The read-back lemmas require it to be a bare token, without `,`, `}`, a leading quote or control bytes.
- Use after destroy. Every operation requires a live wrapper, since the bridges never clear freed pointers.
- JNI string marshalling (modified UTF-8 against UTF-16) is taken as identity on bytes. Also left out: the second `ReleaseStringUTFChars` in the `catch` paths of `query` and `execute`, and JNI allocation failures.
- `malloc` failure in `duplicate_string`, and `duckdb_ios_free_string`. Ownership of returned strings is not modelled.
- Logging, `SetOptionByName` configuration, and the load of the spatial and other extensions. Only its success flag is modelled. The Android bridge loads extensions too but keeps no flag.
- `getVersion`, `echo`, `setContext`, `copyDatabaseFromAssetsIfNeeded`, `mkdirs`, `deleteDatabase`, `databaseExists`, `exportToParquetTemp` and `listTables`. These are file I/O, asset handling, or engine queries.
- `CapacitorDuckDbPlugin.java`, `DuckDBNative.java`, `duckpgq_extension.hpp` and `duckdb_ios.hpp`, which are glue and declarations.
- `ResultReader` and `JsonString.ParseString` accept no insignificant whitespace and no `\uD8xx` surrogate pairs, which `org.json` accepts. The bridges write neither, so the model reads the bridges' own text as `org.json` does.
- JavaRegistry.ReadChanges reads only the one object the native `execute` writes. A general `JSONObject` parse is not modelled.
- JavaRegistry.Registry.CloseAll takes the order of the key-set snapshot as a parameter, since `HashMap` iteration order is unspecified.
- JavaRegistry.DatabasePath joins the directory and file name with `/`. `File.getAbsolutePath` normalisation is not modelled.
- JavaRegistry.Registry.Open takes a non-null name. A null name is a `HashMap` key in the source and maps to the in-memory database, and is not modelled.
- An exception thrown while a result is being serialized (`GetValue` or `ToString` throwing) is not modelled.
- JavaRegistry.Registry.Execute, Query, QueryWithParams and Run take the native return values as parameters, recording only which native calls were made.
- JavaRegistry.OrgValue keeps an integer outside the `long` range as the integer whose nearest `Double` Java holds. The rounding is not modelled, and neither is what `JSONTokener` makes of a float or double cell's token (a `Double` or a `String`).
- JavaRegistry.QueryResponse covers only text the strict reader accepts. Text that `org.json` accepts and `ResultReader` refuses gives `JsonException` here. The bridges never write such text.
- Handles.PreparedStatement.Bind always grows the vector. An index too large for `bindings.resize(idx + 1)` throws out of the bind function in the source. Also, `int idx = index - 1` on Android overflows for `INT_MIN`, which is undefined behaviour in C++, while the model returns false.
- The wrapper allocated before the engine's constructor is leaked when that constructor throws (both bridges). Memory is not modelled.
