# Oracle query monitor — a verified model

This project models the core of the up.time Oracle query monitor plugin: the class
`UptimeMonitorOracleQuery`. On each run the monitor:

- connects to an Oracle database, prepares the configured SQL query and executes it;
- flattens the result set into one string: each column is followed by one space, each row by a
  line separator, and the whole text is trimmed;
- classifies that string as a `long`, a `double` or text, and publishes it as `numberoutput` or
  `textoutput`, followed by `rowCounter`;
- closes the result set, the statement and the connection;
- sets the monitor state to OK, or to CRIT when a JDBC object could not be obtained.

Before any run, `setParameters` strips trailing semicolons from the query.

The model is imperative, like the Java class. `UptimeMonitorOracleQuery` is a Dafny class with the
same fields (`longValue`, `doubleValue`, `rowCounter`, the connection settings, `sqlQuery`). Each of
its methods has a loop or a state change where the Java method has one. Every host call
(`addVariable`, `setStateAndMessage`) and every `close()` on a JDBC resource is appended to an
`events` field.

Each method is proved against a pure specification function, and the lemmas state properties of
those functions:

| specification function | module | what it specifies |
|---|---|---|
| `Normalize` | `QueryNormalization` | semicolon stripping |
| `RenderRow`, `Concat`, `Flatten` | `ResultFlattening` | result flattening |
| `Classify` | `OutputClassification` | output classification |
| `CloseAllEvents`, `ClosedAfter` | `ResourceRelease` | resource release |
| `EarlyExitEvents`, `SuccessEvents` | `MonitorOracleQuery` | the host calls of one run |

Supporting modules:

- `JavaStrings` models `String.trim()`.
- `JavaNumbers` models Java `int` wrap-around, `Long.parseLong` and `Long.toString`.
- `Jdbc` replaces the Oracle driver with small classes whose outcomes are fixed in advance. Each
  driver call is set to succeed, return null or throw. Only whether a resource is closed and how far
  the cursor has moved are mutable.
- `Host` holds the event log.

Where the model follows the code rather than the monitor's documented intent:

- A trailing blank after the last `;` stops semicolon stripping, because only the last character is
  tested. So `"SELECT 1;;;  "` is left unchanged.
- An empty query, or one that trims to empty on the way (such as `"  ;"`), raises
  `StringIndexOutOfBoundsException`. The last character is read before the length test.
- `rowCounter` is set to 0 only when the object is created. Each run adds the rows it reads, so the
  count accumulates across runs and wraps at 2^31.
- The three early CRIT exits close nothing.
- A "Connection is closed." CRIT is later overwritten by OK when the run goes on to succeed.
- Two rows `("a","b")` and `("c","d")` flatten to `"a b \nc d"`. The final trim removes the last
  row's trailing space, so the published text is exactly that.

## Model

| member | source | states |
|---|---|---|
| JavaNumbers.WrapInt | src/src/com/uptimesoftware/uptime/plugin/MonitorOracleQuery.java:66 | the Java `int` value of an integer: in range, congruent to it modulo 2^32, and the integer itself when already in range |
| JavaNumbers.WrapIntAdd | src/src/com/uptimesoftware/uptime/plugin/MonitorOracleQuery.java:274 | wrapping after each addition is the same as wrapping once at the end |
| JavaNumbers.IncIntWraps | src/src/com/uptimesoftware/uptime/plugin/MonitorOracleQuery.java:274 | `rowCounter++` adds one modulo 2^32; `MAX_INT` overflows to `MIN_INT` |
| JavaNumbers.IncIntTimesWraps | src/src/com/uptimesoftware/uptime/plugin/MonitorOracleQuery.java:273-274 | n increments of the counter add n modulo 2^32 |
| JavaNumbers.ParseLong | src/src/com/uptimesoftware/uptime/plugin/MonitorOracleQuery.java:326 | an accepted text is an optional sign followed by decimal digits, and the result is their value, negated after a '-', within the `long` range; `""`, `"-"` and `"+"` are rejected |
| JavaNumbers.ParseLongAccepts | src/src/com/uptimesoftware/uptime/plugin/MonitorOracleQuery.java:326 | conversely, every optional sign followed by at least one digit whose signed value is in the `long` range is accepted with that value |
| JavaNumbers.ParseLongLeadingZeros | src/src/com/uptimesoftware/uptime/plugin/MonitorOracleQuery.java:326 | `"007"` parses to 7 |
| JavaNumbers.ParseLongSigns | src/src/com/uptimesoftware/uptime/plugin/MonitorOracleQuery.java:326 | `"+5"` parses to 5 and `"-0"` to 0; `" 5"` is rejected |
| JavaNumbers.ParseLongToString | src/src/com/uptimesoftware/uptime/plugin/MonitorOracleQuery.java:326 | round trip: `Long.parseLong(Long.toString(v)) == v` for every `long` |
| JavaNumbers.LongToStringShape | src/src/com/uptimesoftware/uptime/plugin/MonitorOracleQuery.java:322-326 | the text of a `long` has no '.' and no character that `trim()` strips, so it takes the `parseLong` branch unchanged |
| JavaStrings.Trim | src/src/com/uptimesoftware/uptime/plugin/MonitorOracleQuery.java:282 | `trim()` never lengthens, and a non-empty result starts and ends with a character above U+0020 |
| JavaStrings.TrimOfTrimmed | src/src/com/uptimesoftware/uptime/plugin/MonitorOracleQuery.java:139 | a string without strippable ends is left unchanged by `trim()` |
| JavaStrings.TrimIdempotent | src/src/com/uptimesoftware/uptime/plugin/MonitorOracleQuery.java:139 | trimming the already trimmed extraction again changes nothing |
| JavaStrings.TrimIsInfix | src/src/com/uptimesoftware/uptime/plugin/MonitorOracleQuery.java:282 | `trim()` returns an infix of its input, with only characters up to U+0020 removed before and after it |
| JavaStrings.TrimEmpty | src/src/com/uptimesoftware/uptime/plugin/MonitorOracleQuery.java:282 | `trim()` gives `""` exactly when every character is strippable |
| JavaStrings.TrimWordThenBlanks | src/src/com/uptimesoftware/uptime/plugin/MonitorOracleQuery.java:282 | trailing column spaces and line separators after trimmed text are removed, and the text is kept |
| Jdbc.ResultSet.Next | src/src/com/uptimesoftware/uptime/plugin/MonitorOracleQuery.java:273 | `next()` moves to the next row while there is one; at the end it returns false or throws and stays put |
| Jdbc.ResultSet.GetString | src/src/com/uptimesoftware/uptime/plugin/MonitorOracleQuery.java:299 | `getString(i)` reads column i of the current row |
| Jdbc.ResultSet.Close | src/src/com/uptimesoftware/uptime/plugin/MonitorOracleQuery.java:349 | `close()` closes the result set unless it throws |
| Host.LastState | src/src/com/uptimesoftware/uptime/plugin/MonitorOracleQuery.java:158 | the host's current state is a `setStateAndMessage` of the log after which no other state is set, and is absent only if none was made |
| Host.OutputCountAppend | src/src/com/uptimesoftware/uptime/plugin/MonitorOracleQuery.java:140-150 | the output variables of two logs add up |
| Host.OutputCountNoVariables | src/src/com/uptimesoftware/uptime/plugin/MonitorOracleQuery.java:140-150 | a log without `addVariable` publishes no output |
| Host.LastStateAppend | src/src/com/uptimesoftware/uptime/plugin/MonitorOracleQuery.java:158 | the last state set wins over every earlier one |
| QueryNormalization.StripOnce | src/src/com/uptimesoftware/uptime/plugin/MonitorOracleQuery.java:173 | each stripping step makes the query strictly shorter, so the recursion ends |
| QueryNormalization.NormalizeFixpoint | src/src/com/uptimesoftware/uptime/plugin/MonitorOracleQuery.java:167-177 | a normalised query is non-empty and does not both end in ';' and have length at least 2 |
| QueryNormalization.NormalizeIdempotent | src/src/com/uptimesoftware/uptime/plugin/MonitorOracleQuery.java:167-177 | normalising a normalised query changes nothing |
| QueryNormalization.NormalizeShrinks | src/src/com/uptimesoftware/uptime/plugin/MonitorOracleQuery.java:171-175 | the result is never longer than the query, and strictly shorter when a step applied |
| QueryNormalization.NormalizeUnchanged | src/src/com/uptimesoftware/uptime/plugin/MonitorOracleQuery.java:171 | a query is left as it is exactly when it is non-empty and no step applies (both directions) |
| QueryNormalization.NormalizeTerminated | src/src/com/uptimesoftware/uptime/plugin/MonitorOracleQuery.java:171-173 | `"SELECT 1;"` becomes `"SELECT 1"` |
| QueryNormalization.NormalizeDoubleSemicolon | src/src/com/uptimesoftware/uptime/plugin/MonitorOracleQuery.java:171 | `";;"` becomes `";"`: the length test stops the second step |
| QueryNormalization.NormalizeTrailingBlank | src/src/com/uptimesoftware/uptime/plugin/MonitorOracleQuery.java:171 | a blank after the last ';' stops stripping; a ';' inside the query is never touched |
| QueryNormalization.NormalizeEmpty | src/src/com/uptimesoftware/uptime/plugin/MonitorOracleQuery.java:168-175 | the empty query, and one that trims to empty mid-way, raise the index exception |
| ResultFlattening.RenderRowJoin | src/src/com/uptimesoftware/uptime/plugin/MonitorOracleQuery.java:294-310 | a row's string is the concatenation over columns 1..C of (column text + " ") |
| ResultFlattening.ConcatExtend | src/src/com/uptimesoftware/uptime/plugin/MonitorOracleQuery.java:275-276 | appending a row's string and the line separator extends the buffer by exactly that row |
| ResultFlattening.RenderRowSpaces | src/src/com/uptimesoftware/uptime/plugin/MonitorOracleQuery.java:298-306 | a row of C columns holds at least C spaces, even when column reads fail |
| ResultFlattening.RenderFailedRow | src/src/com/uptimesoftware/uptime/plugin/MonitorOracleQuery.java:298-306 | any row whose reads of columns 1..C all throw renders as exactly C spaces |
| ResultFlattening.SplitJoin | src/src/com/uptimesoftware/uptime/plugin/MonitorOracleQuery.java:306 | when no column text holds a space, splitting the joined texts on spaces gives them back |
| ResultFlattening.SplitRenderRow | src/src/com/uptimesoftware/uptime/plugin/MonitorOracleQuery.java:294-310 | no column text is lost: without spaces in the values, the row string splits back into its columns |
| ResultFlattening.ConcatPrefix | src/src/com/uptimesoftware/uptime/plugin/MonitorOracleQuery.java:278-280 | a fetch error after k rows keeps a prefix of what the full cursor would have produced |
| ResultFlattening.FlattenNoRows | src/src/com/uptimesoftware/uptime/plugin/MonitorOracleQuery.java:282 | zero rows give `""` |
| ResultFlattening.FlattenTwoByTwo | src/src/com/uptimesoftware/uptime/plugin/MonitorOracleQuery.java:273-282 | rows ("a","b") and ("c","d") flatten to `"a b \nc d"` |
| OutputClassification.TypeCode | src/src/com/uptimesoftware/uptime/plugin/MonitorOracleQuery.java:58-60 | the codes 0, 1 and 2 stand for long, double and text, each exactly |
| OutputClassification.ClassifyWithDot | src/src/com/uptimesoftware/uptime/plugin/MonitorOracleQuery.java:322-324 | text with a '.' is never a long, and is a double exactly when the double parse succeeds |
| OutputClassification.ClassifyWithoutDot | src/src/com/uptimesoftware/uptime/plugin/MonitorOracleQuery.java:325-327 | text without a '.' is never a double, and is a long exactly when `Long.parseLong` accepts it, with that value in the `long` range |
| OutputClassification.ClassifySignedDigits | src/src/com/uptimesoftware/uptime/plugin/MonitorOracleQuery.java:322-326 | every optional sign followed by digits, with its value in the `long` range, is a long with that value (leading zeros and '+' included) |
| OutputClassification.ClassifyEmpty | src/src/com/uptimesoftware/uptime/plugin/MonitorOracleQuery.java:326-332 | the empty output is text |
| OutputClassification.ClassifyLongText | src/src/com/uptimesoftware/uptime/plugin/MonitorOracleQuery.java:326 | the text of any `long` classifies as that long |
| OutputClassification.ClassifyIntegers | src/src/com/uptimesoftware/uptime/plugin/MonitorOracleQuery.java:326-327 | `"123"` and `"-42"` are longs with those values |
| OutputClassification.ClassifyMalformed | src/src/com/uptimesoftware/uptime/plugin/MonitorOracleQuery.java:329-332 | `"12abc"` is text |
| OutputClassification.ClassifyRejectedDouble | src/src/com/uptimesoftware/uptime/plugin/MonitorOracleQuery.java:322-332 | a dotted text the double parser rejects is text |
| ResourceRelease.CloseEventsOnlyCloses | src/src/com/uptimesoftware/uptime/plugin/MonitorOracleQuery.java:345-360 | `closeAll` makes only close calls, no host calls |
| ResourceRelease.CloseAllEventsUnrolled | src/src/com/uptimesoftware/uptime/plugin/MonitorOracleQuery.java:347-356 | result set, statement, connection: each is closed if open, and is reached only if nothing before it threw |
| ResourceRelease.CloseEventsInOrder | src/src/com/uptimesoftware/uptime/plugin/MonitorOracleQuery.java:348-356 | the close calls follow the order in which the resources are listed |
| ResourceRelease.CloseEventsStopAtFailure | src/src/com/uptimesoftware/uptime/plugin/MonitorOracleQuery.java:357-359 | the first resource whose `isClosed()` or `close()` throws ends the closing |
| ResourceRelease.CloseAllClean | src/src/com/uptimesoftware/uptime/plugin/test/MonitorOracleQueryTest.java:56-58 | when nothing throws, all three end closed and exactly the open ones get `close()`, in order |
| ResourceRelease.CloseAllResultSetFails | src/src/com/uptimesoftware/uptime/plugin/MonitorOracleQuery.java:348-359 | a failure on the result set leaves the statement and the connection as they were |
| MonitorOracleQuery.OutputEvent | src/src/com/uptimesoftware/uptime/plugin/MonitorOracleQuery.java:140-150 | text is published as `textoutput`, a long or a double as `numberoutput` |
| MonitorOracleQuery.EarlyExitOutcome | src/src/com/uptimesoftware/uptime/plugin/MonitorOracleQuery.java:111-136 | an early exit adds no variable, closes nothing, and leaves CRIT with the failing step's message |
| MonitorOracleQuery.SuccessOutcome | src/src/com/uptimesoftware/uptime/plugin/MonitorOracleQuery.java:139-158 | a run with a result set publishes exactly one output, followed by `rowCounter`, and ends OK whatever closing did; an earlier "Connection is closed." CRIT is overwritten |
| MonitorOracleQuery.SingleLongRow | src/src/com/uptimesoftware/uptime/plugin/MonitorOracleQuery.java:139-143 | one row holding the text of a `long` flattens to that text and is published as that number |
| MonitorOracleQuery.TwoRowsOfText | src/src/com/uptimesoftware/uptime/plugin/MonitorOracleQuery.java:147-148 | rows ("a","b") and ("c","d") are published as `textoutput` `"a b \nc d"` |
| MonitorOracleQuery.UptimeMonitorOracleQuery.constructor | src/src/com/uptimesoftware/uptime/plugin/MonitorOracleQuery.java:63-66 | `longValue`, `doubleValue` and `rowCounter` start at 0 and no host call has been made |
| MonitorOracleQuery.UptimeMonitorOracleQuery.AddVariable | src/src/com/uptimesoftware/uptime/plugin/MonitorOracleQuery.java:142 | `addVariable` appends one host call to the log |
| MonitorOracleQuery.UptimeMonitorOracleQuery.SetStateAndMessage | src/src/com/uptimesoftware/uptime/plugin/MonitorOracleQuery.java:112 | `setStateAndMessage` appends one host call to the log |
| MonitorOracleQuery.UptimeMonitorOracleQuery.SetParameters | src/src/com/uptimesoftware/uptime/plugin/MonitorOracleQuery.java:85-98 | the settings are stored and `sqlQuery` becomes the normalised query, or `""` when normalisation raises the index exception |
| MonitorOracleQuery.UptimeMonitorOracleQuery.DeleteSemicolonAtTheEnd | src/src/com/uptimesoftware/uptime/plugin/MonitorOracleQuery.java:167-177 | raises exactly when normalisation does; writes `sqlQuery` only when a step applies, and then leaves the normalised query (or `""`) |
| MonitorOracleQuery.UptimeMonitorOracleQuery.GetRemoteConnection | src/src/com/uptimesoftware/uptime/plugin/MonitorOracleQuery.java:198-220 | returns the connection whenever `getConnection` succeeds, null when it throws; sets CRIT "Connection is closed." only when `isClosed()` answers true |
| MonitorOracleQuery.UptimeMonitorOracleQuery.PrepareStatement | src/src/com/uptimesoftware/uptime/plugin/MonitorOracleQuery.java:231-239 | the statement, or null exactly when the driver throws or returns null |
| MonitorOracleQuery.UptimeMonitorOracleQuery.GetResultSet | src/src/com/uptimesoftware/uptime/plugin/MonitorOracleQuery.java:249-257 | the result set, or null exactly when `executeQuery` throws or returns null |
| MonitorOracleQuery.UptimeMonitorOracleQuery.GetRowAsString | src/src/com/uptimesoftware/uptime/plugin/MonitorOracleQuery.java:294-310 | the loop builds the rendering of the current row: each column's text (`"null"` for SQL NULL, nothing for a failed read) followed by one space |
| MonitorOracleQuery.UptimeMonitorOracleQuery.ExtractFromResultSet | src/src/com/uptimesoftware/uptime/plugin/MonitorOracleQuery.java:266-283 | the loop reads every remaining row unless the metadata throws; the result is the trimmed concatenation of the rows read, each followed by the line separator; `rowCounter` goes up once per row, with wrap-around |
| MonitorOracleQuery.UptimeMonitorOracleQuery.IsLongDoubleOrText | src/src/com/uptimesoftware/uptime/plugin/MonitorOracleQuery.java:319-333 | returns the classification's code; `longValue` is written only for a long and `doubleValue` only for a double |
| MonitorOracleQuery.UptimeMonitorOracleQuery.SetOutput | src/src/com/uptimesoftware/uptime/plugin/MonitorOracleQuery.java:138-152 | the flattened output of all rows yielded is classified and published, followed by the row counter |
| MonitorOracleQuery.UptimeMonitorOracleQuery.Monitor | src/src/com/uptimesoftware/uptime/plugin/MonitorOracleQuery.java:105-159 | a run's complete log: a null connection, statement or result set gives its CRIT exit with nothing closed and no field changed; otherwise output, `rowCounter`, the close calls and OK, in that order, with each resource's final closed state |
| MonitorOracleQuery.UptimeMonitorOracleQuery.CloseAll | src/src/com/uptimesoftware/uptime/plugin/MonitorOracleQuery.java:345-360 | closes the result set, then the statement, then the connection, skipping closed ones and stopping at the first exception; states each resource's final closed state |

## Left out

- The Oracle driver (`OracleDataSource`, the thin driver type, the connection settings, the login
  timeout `TIMEOUT_SECONDS`) is not modelled. What `getConnection`, `prepareStatement`,
  `executeQuery`, `getMetaData`, `getString`, `isClosed` and `close` do is fixed in advance by the
  JDBC stand-in objects. The SQL text therefore does not influence the outcome.
- `getMetaData()` and `getColumnCount()` are merged: either one throwing is a single
  "metadata throws" flag.
- MonitorOracleQuery.UptimeMonitorOracleQuery.Monitor: requires the result set to be at its first
  row. `executeQuery` hands out a fresh cursor on every run, but the stand-in statement returns the
  same object every time.
- `Double.parseDouble` is not modelled. It is the parameter `parseDouble`, with `None` for
  `NumberFormatException`, and doubles are reals.
- JavaNumbers.ParseLong: accepts only ASCII digits, while `Long.parseLong` also accepts other
  Unicode decimal digits.
- `System.lineSeparator()` is fixed to `"\n"`.
- Logging (SLF4J) is left out; it changes no state.
- The plugin framework (`Plugin`, `PluginWrapper`, `@Extension`, `PluginMonitor`) is not part of
  this model, and neither is reading the settings through `Parameters.getString` / `getInt`.
  `setParameters` receives the values directly.
- A null `sqlQuery` (a `NullPointerException` in normalisation) is not modelled. Strings are never
  null, except that `getString` returning SQL NULL is a cell of its own.
- Exceptions other than `SQLException` and the normalisation index exception (runtime failures
  inside the driver) are not modelled.
- The integration test `MonitorOracleQueryTest.java` is not modelled. Only its close assertions
  appear, as `CloseAllClean`.
