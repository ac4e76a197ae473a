# pyroscope-java agent core, modelled in Dafny

This project models the data plane of the pyroscope-java agent: the part that turns
what async-profiler records into a snapshot, and then uploads that snapshot to the
Pyroscope collector.

- **Converter** (`jfr2pprof`). Turns a JFR recording into a pprof `Profile`
  message, in four steps:
  - it selects the event kind and the value labels for the profile type;
  - it writes the header;
  - for every selected event, in order, it resolves the stack trace and builds
    each frame's display name (`getMethodName`);
  - it interns each name into deduplicating function and location tables, with
    ids counting up from 1, and writes one sample per event. The sample's value is
    the nanoseconds elapsed since the previous event.

  The profile is modelled as the ordered list of tagged fields written into the
  message, using the field numbers of pprof's profile.proto. `Convert` is an
  imperative method. It is proved against a relational specification:
  - the string-table, function, location and sample projections of its output
    equal functions of the recording;
  - or it fails with the exception the Java code would raise.
- **Exporter** (`PyroscopeExporter`). Covers four things:
  - the ingest URL with its ordered query parameters;
  - the multipart or raw body and the rule deciding when to gzip;
  - the bearer-token header;
  - the retry loop of `uploadSnapshot`.

  Each attempt's outcome, and what gzip produces, are given as values. The loop is
  a method proved against the attempt count it must make.
- **Profiler handle** (`Profiler`). A class with the settings copied from the
  configuration. It builds async-profiler's start command one append at a time,
  proved equal to a comma-joined option list. Its dump dispatches on the output
  format, and for pprof it calls the converter.
- **`Format`**. The payload formats and their wire ids.

Two behaviours of the Java code are modelled as written:

- **A reference that cannot be resolved.**
  - An unknown method id yields the name `[unknown]`.
  - A method whose class id is missing, or whose name symbol is missing, ends the
    conversion with an exception in the Java code (a null dereference). It is
    modelled as a conversion failure, not as a sentinel name.
- **A profile type other than cpu, alloc, lock or itimer.** The Java code leaves
  the value labels null, and writing them fails. It is modelled as the failure
  `UnknownType`, not as a precondition, because an event type such as `wall`
  with pprof output reaches it.

Files:

- `common.dfy`: Java's `int`/`long` and their arithmetic, `Long.toString`, UTF-8
  and comma lists.
- `format.dfy`: `Format`.
- `agent.dfy`: `Instant`, `Duration`, `EventType`, `Config`, `Snapshot`.
- `jfr2pprof.dfy`: the converter.
- `exporter.dfy`: the exporter.
- `profiler.dfy`: the profiler handle.

## Model

| member | source | states |
|---|---|---|
| Common.Wrap64 | agent/src/main/java/io/pyroscope/javaagent/pprof/jfr2pprof.java:175 | Java `long` wrap-around: the result is congruent to the input modulo 2^64 and equals it when it fits |
| Common.JavaDiv | agent/src/main/java/io/pyroscope/javaagent/pprof/jfr2pprof.java:175 | Java `/` truncates toward zero for every sign of dividend and divisor: the quotient's magnitude is the magnitudes' quotient, and a non-zero quotient is negative exactly when the signs differ (so a positive divisor gives the Euclidean quotient of a non-negative dividend) |
| Common.DecimalString | agent/src/main/java/io/pyroscope/javaagent/impl/PyroscopeExporter.java:144-146 | `Long.toString` (also the appends at Profiler.java:103 and 108): a minus sign exactly for a negative number, and decimal digits everywhere else, with no leading zero except for 0 itself ("0"); DecimalRoundTrip shows it reads back |
| Common.DecimalRoundTrip | agent/src/main/java/io/pyroscope/javaagent/impl/PyroscopeExporter.java:144-146 | a number written by `Long.toString` reads back as the same number |
| Common.Utf8Char | agent/src/main/java/io/pyroscope/javaagent/Profiler.java:125 | one character's UTF-8 bytes: 1, 2, 3 or 4 bytes exactly for code points below 0x80, 0x800, 0x10000 and above. The lead byte announces the length (the code itself, 110xxxxx, 1110xxxx or 11110xxx) and the rest are continuation bytes 10xxxxxx. The payload bits, read back in order, are the code point |
| Common.Utf8Encode | agent/src/main/java/io/pyroscope/javaagent/Profiler.java:125 | `getBytes(UTF_8)`: never shorter than the text; Utf8EncodeAppend shows it is the concatenation of each character's Utf8Char encoding |
| Common.Utf8EncodeAppend | agent/src/main/java/io/pyroscope/javaagent/Profiler.java:125 | the encoding of a concatenation is the concatenation of the encodings, and one character encodes as Utf8Char |
| Common.Utf8OfAscii | agent/src/main/java/io/pyroscope/javaagent/pprof/jfr2pprof.java:71-79 | a 7-bit string's UTF-8 encoding is its plain byte encoding, one byte per character |
| Common.SplitJoin | agent/src/main/java/io/pyroscope/javaagent/Profiler.java:91-113 | splitting a comma-joined list whose items hold no comma gives back the items |
| Common.JoinSnoc | agent/src/main/java/io/pyroscope/javaagent/Profiler.java:91-113 | joining one more item appends the separator and that item |
| Http.FormatId | agent/src/main/java/io/pyroscope/http/Format.java:5-7 | every format's wire id is a non-empty lower-case word |
| Http.FormatIdInjective | agent/src/main/java/io/pyroscope/http/Format.java:5-16 | distinct formats have distinct ids, so the id names the format |
| Agent.Plus | agent/src/main/java/io/pyroscope/javaagent/impl/PyroscopeExporter.java:137 | `Instant.plus(Duration)` is the instant exactly that many nanoseconds later |
| Agent.ToNanos | agent/src/main/java/io/pyroscope/javaagent/Profiler.java:103 | `Duration.toNanos()` is non-negative for a non-negative duration; divided by 10^9 it gives back the seconds, and the remainder gives back the nanosecond part |
| Jfr2Pprof.ReadAllEvents | agent/src/main/java/io/pyroscope/javaagent/pprof/jfr2pprof.java:165 | an event is read exactly when it is one of the recording's events and of the selected kind; FilterAppend gives the order |
| Jfr2Pprof.FilterAppend | agent/src/main/java/io/pyroscope/javaagent/pprof/jfr2pprof.java:165 | the events read keep the recording's order and multiplicity: the filter of a concatenation is the concatenation of the filters, and one event is kept exactly when it has the selected kind |
| Jfr2Pprof.SelectType | agent/src/main/java/io/pyroscope/javaagent/pprof/jfr2pprof.java:128-144 | the type switch; its cases are stated by SelectTypeCases |
| Jfr2Pprof.SelectTypeCases | agent/src/main/java/io/pyroscope/javaagent/pprof/jfr2pprof.java:124-144 | exactly cpu, alloc, lock and itimer select a value type. Only alloc reads allocation samples, and it counts them. Only lock reads contended-lock events. The other recognised types are measured in nanoseconds under their own name. alloc selects exactly ("allocations", "count", allocation samples) |
| Jfr2Pprof.Header | agent/src/main/java/io/pyroscope/javaagent/pprof/jfr2pprof.java:146-163 | the header written before any event has ten fields |
| Jfr2Pprof.HeaderReferences | agent/src/main/java/io/pyroscope/javaagent/pprof/jfr2pprof.java:146-163 | string 0 is empty and the comment points at "async-profiler". The sample type points at the value type (index 2) and unit (index 3). The period type is the same descriptor |
| Jfr2Pprof.HeaderProjections | agent/src/main/java/io/pyroscope/javaagent/pprof/jfr2pprof.java:146-163 | the header's string-table entries are the four header strings in order, and it holds no function, location or sample |
| Jfr2Pprof.GetMethodName | agent/src/main/java/io/pyroscope/javaagent/pprof/jfr2pprof.java:226-247 | an unknown method gives "[unknown]". A missing class or a missing name symbol fails. A native/kernel frame, or a class without a name, gives the bare method name. Otherwise the result has length \|class\| + 1 + \|method\| with a dot after the class |
| Jfr2Pprof.MethodNameParts | agent/src/main/java/io/pyroscope/javaagent/pprof/jfr2pprof.java:240-245 | a qualified name splits at the dot back into the class name and the method name |
| Jfr2Pprof.LineOf | agent/src/main/java/io/pyroscope/javaagent/pprof/jfr2pprof.java:183 | `location >>> 16` lies in [0, 65536): the upper half of the location read as an unsigned 32-bit number, i.e. (location + 2^32) / 2^16 for a negative one, which is at least 0x8000 |
| Jfr2Pprof.SampleNanos | agent/src/main/java/io/pyroscope/javaagent/pprof/jfr2pprof.java:175 | the sample value in Java `long` arithmetic (wrapping subtraction and product, truncating division); its value is stated by SampleNanosExact and SampleNanosBackwards |
| Jfr2Pprof.SampleNanosExact | agent/src/main/java/io/pyroscope/javaagent/pprof/jfr2pprof.java:175 | without overflow, a sample's value is the elapsed ticks times 10^9 divided by the tick rate, rounded down |
| Jfr2Pprof.SampleNanosBackwards | agent/src/main/java/io/pyroscope/javaagent/pprof/jfr2pprof.java:175 | an event earlier than its predecessor gets minus the forward gap in nanoseconds, truncated toward zero (0 when the gap is under one nanosecond) |
| Jfr2Pprof.ResolveFrames | agent/src/main/java/io/pyroscope/javaagent/pprof/jfr2pprof.java:178-183 | when every frame resolves there is one site per frame |
| Jfr2Pprof.ResolveEvents | agent/src/main/java/io/pyroscope/javaagent/pprof/jfr2pprof.java:170-175 | when every event resolves there is one stack per event |
| Jfr2Pprof.FramesFailurePersists | agent/src/main/java/io/pyroscope/javaagent/pprof/jfr2pprof.java:178-181 | the first frame that fails decides the failure of the whole stack |
| Jfr2Pprof.EventsFailurePersists | agent/src/main/java/io/pyroscope/javaagent/pprof/jfr2pprof.java:170-221 | the first event that fails decides the failure of the whole conversion |
| Jfr2Pprof.InternedDistinct | agent/src/main/java/io/pyroscope/javaagent/pprof/jfr2pprof.java:185-196 | no name is interned twice, and there are never more entries than frames |
| Jfr2Pprof.InternedCovers | agent/src/main/java/io/pyroscope/javaagent/pprof/jfr2pprof.java:185-213 | every frame's name is interned, and every interned entry is one of the frames |
| Jfr2Pprof.InternedFirst | agent/src/main/java/io/pyroscope/javaagent/pprof/jfr2pprof.java:198-213 | each interned entry is the first frame with its name, so a location keeps the line of its first call site |
| Jfr2Pprof.LocationCollapse | agent/src/main/java/io/pyroscope/javaagent/pprof/jfr2pprof.java:198-213 | two call sites of one method at different lines yield a single location, carrying the first line |
| Jfr2Pprof.NewNameStep | agent/src/main/java/io/pyroscope/javaagent/pprof/jfr2pprof.java:185-213 | writing a new name's string, function and location records keeps the profile in step with the interned names: the string table gains the name, function id n + 1 names string n + 4, and location n + 1 points at function n + 1 |
| Jfr2Pprof.SampleStep | agent/src/main/java/io/pyroscope/javaagent/pprof/jfr2pprof.java:218 | appending a sample adds it to the samples and leaves strings, functions and locations as they were |
| Jfr2Pprof.InternFrame | agent/src/main/java/io/pyroscope/javaagent/pprof/jfr2pprof.java:185-213 | a name missing from the function table gets the next function id, a string and a function record. A name missing from the location table gets the next location id and a location pointing at its function, with the line only when positive. A known name changes nothing |
| Jfr2Pprof.WriteFrame | agent/src/main/java/io/pyroscope/javaagent/pprof/jfr2pprof.java:178-216 | after a frame, the tables, the profile and the sample's location ids agree with the sites seen so far |
| Jfr2Pprof.WriteHeader | agent/src/main/java/io/pyroscope/javaagent/pprof/jfr2pprof.java:146-163 | writes exactly the header and returns the next free string index, 4 |
| Jfr2Pprof.WriteEvent | agent/src/main/java/io/pyroscope/javaagent/pprof/jfr2pprof.java:170-221 | one event either fails as resolving it specifies, or extends the profile by its sample and its new names |
| Jfr2Pprof.WriteSamples | agent/src/main/java/io/pyroscope/javaagent/pprof/jfr2pprof.java:165-221 | the event loop fails exactly as resolution of all events fails; otherwise the profile is the profile of all the events: one sample per event in order, with one location id per frame and the nanoseconds since the previous event |
| Jfr2Pprof.Convert | agent/src/main/java/io/pyroscope/javaagent/pprof/jfr2pprof.java:114-224 | fails exactly when the type is unknown or an event cannot be resolved, with that failure; otherwise its output is a conversion of the recording |
| Exporter.Compress | agent/src/main/java/io/pyroscope/javaagent/impl/PyroscopeExporter.java:115-133 | gzip is used exactly when the data is non-empty, the level is not NO_COMPRESSION and gzip succeeds; otherwise the data is sent unchanged |
| Exporter.CompressRoundTrip | agent/src/main/java/io/pyroscope/javaagent/impl/PyroscopeExporter.java:115-133 | whatever is decided, the receiver reads the original data back |
| Exporter.BodyFor | agent/src/main/java/io/pyroscope/javaagent/impl/PyroscopeExporter.java:57-78 | JFR uploads are multipart with the "jfr" part, plus a "labels" part exactly when labels are non-empty; other formats send the data raw |
| Exporter.BodyRoundTrip | agent/src/main/java/io/pyroscope/javaagent/impl/PyroscopeExporter.java:57-78 | the collector reads back the recording and the labels (none when empty) from a JFR upload, and the data from any other |
| Exporter.AuthHeaders | agent/src/main/java/io/pyroscope/javaagent/impl/PyroscopeExporter.java:82-84 | one Authorization header exactly when the token is present and non-empty, and no other header |
| Exporter.AuthRoundTrip | agent/src/main/java/io/pyroscope/javaagent/impl/PyroscopeExporter.java:82-84 | the header value is "Bearer " followed by exactly the token |
| Exporter.UrlForSnapshot | agent/src/main/java/io/pyroscope/javaagent/impl/PyroscopeExporter.java:135-151 | the configured address with path "ingest"; 8 query parameters for JFR, 7 otherwise |
| Exporter.UrlKeys | agent/src/main/java/io/pyroscope/javaagent/impl/PyroscopeExporter.java:140-149 | the keys are name, units, aggregationType, sampleRate, from, until and spyName in that order, then format only for JFR |
| Exporter.UrlNames | agent/src/main/java/io/pyroscope/javaagent/impl/PyroscopeExporter.java:141-149 | the query reads back the series name, units, aggregation and agent name, and format=jfr exactly for JFR |
| Exporter.UrlNumbers | agent/src/main/java/io/pyroscope/javaagent/impl/PyroscopeExporter.java:136-146 | the query reads back the sample rate, the start's epoch second, and the epoch second of start plus upload interval |
| Exporter.UrlWindow | agent/src/main/java/io/pyroscope/javaagent/impl/PyroscopeExporter.java:136-146 | with a whole-second upload interval, until minus from is that interval |
| Exporter.FirstSuccess | agent/src/main/java/io/pyroscope/javaagent/impl/PyroscopeExporter.java:85-101 | the index of the first outcome with status below 400, every earlier one being an error status or an IOException |
| Exporter.Attempts | agent/src/main/java/io/pyroscope/javaagent/impl/PyroscopeExporter.java:52-105 | the attempts made are at least one and never more than the outcomes available |
| Exporter.UploadSnapshot | agent/src/main/java/io/pyroscope/javaagent/impl/PyroscopeExporter.java:49-112 | makes Attempts(...) identical requests. It succeeds exactly when the last attempt did, and every earlier attempt failed. It backs off once fewer than it attempts. It logs "gave up" exactly when a non-negative limit has been reached |
| Exporter.AttemptsBounds | agent/src/main/java/io/pyroscope/javaagent/impl/PyroscopeExporter.java:52-55 | at least one attempt, none after the first success. A non-negative limit allows at most max(1, limit), stopping early only on a success. A negative limit stops only on a success |
| Exporter.AlwaysFailingEndpoint | agent/src/main/java/io/pyroscope/javaagent/impl/PyroscopeExporter.java:85-110 | an endpoint answering 500 with a limit of 3 gets exactly 3 attempts and no success |
| JavaAgent.CommandFront | agent/src/main/java/io/pyroscope/javaagent/Profiler.java:92-104 | the command starts with start and event=id. alloc= comes next exactly when alloc is non-null and non-empty, followed by live only then and only when allocLive is set. lock= comes next exactly when lock is non-null and non-empty. Then come interval= (the nanoseconds) and file= |
| JavaAgent.CommandBack | agent/src/main/java/io/pyroscope/javaagent/Profiler.java:103-111 | the extra arguments come last, exactly when set. jstackdepth= comes before them. loglevel= comes before that exactly when the level is non-null, otherwise file= does |
| JavaAgent.CommandStart | agent/src/main/java/io/pyroscope/javaagent/Profiler.java:93 | the command text starts with "start,event=" and the event id |
| JavaAgent.CommandSplits | agent/src/main/java/io/pyroscope/javaagent/Profiler.java:91-113 | when no setting holds a comma, splitting the command at commas gives back its options |
| JavaAgent.CommandJoins | agent/src/main/java/io/pyroscope/javaagent/Profiler.java:91-113 | the text built by the appends equals the options joined by commas |
| JavaAgent.Profiler.constructor | agent/src/main/java/io/pyroscope/javaagent/Profiler.java:32-44 | copies the settings and has a recording file exactly when the format records into one |
| JavaAgent.Profiler.AsyncProfilerJfr | agent/src/main/java/io/pyroscope/javaagent/Profiler.java:46-48 | true exactly for JFR and pprof, i.e. every format but collapsed |
| JavaAgent.Profiler.SetConfig | agent/src/main/java/io/pyroscope/javaagent/Profiler.java:50-57 | copies config, alloc, lock, event type, interval and format and leaves the recording file as it was, so a file is missing exactly when the new format needs one and none was made |
| JavaAgent.Profiler.CreateJfrCommand | agent/src/main/java/io/pyroscope/javaagent/Profiler.java:91-113 | the command is the options of CommandOptions joined by commas, from the profiler's fields; there is none without a recording file |
| JavaAgent.Profiler.DumpImpl | agent/src/main/java/io/pyroscope/javaagent/Profiler.java:115-157 | the snapshot carries the profiler's format and event type, the given instants and the labels. Its data depends on the format: for JFR, the recording; for pprof, the encoded conversion of the recording, or the converter's failure; otherwise, the collapsed text as UTF-8. It fails when a JFR or pprof dump has no recording file |

## Left out

- Protobuf byte encoding: `one.proto.Proto` is not part of this model. The
  profile is the list of tagged fields, and `DumpImpl` takes the encoder as a
  parameter.
- JFR parsing: `one.jfr.JfrReader` is not part of this model. The reader is given
  as its dictionaries, its events in delivery order and its timing header.
- `FlameGraph.FRAME_NATIVE` and `FRAME_KERNEL` are not part of this model. They
  are the parameter `FrameKinds`.
- HTTP: OkHttp, timeouts, response bodies and the multipart wire format. Each
  attempt is an outcome value (a status or an I/O error), and a body is its list
  of named parts.
- Exporter.UrlForSnapshot: takes any server address. In Java,
  `HttpUrl.parse` returns null for an invalid address, and `newBuilder()` then
  throws outside the retry loop (PyroscopeExporter.java:50 and 138-139).
- The bytes gzip produces. `GZIPOutputStream` is a foreign library; only the
  decision to compress and the fallback are modelled, with its output given.
- `ExponentialBackoff`, `Random` and `Thread.sleep`: the delays and the sleeping
  are not modelled. The loop counts the backoffs it takes.
- `InterruptedException` and the re-interrupt in `export`: thread control.
- `synchronized` on `start`, `stop` and `dumpProfile`: concurrency.
- Native and process effects of the profiler: `AsyncProfiler.execute`, `start`,
  `stop` and `dumpCollapsed`, creating and reading the temporary file,
  `deleteOnExit` and `System.gc` (`gcBeforeDump`). The temporary file's name,
  its contents and the collapsed text are parameters. `start`, `stop` and
  `dumpProfile` only call into these, so they are not modelled.
- The labels snapshot (`Pyroscope.LabelsWrapper.dump()`), the series name
  (`nameWithStaticLabels`), the sample rate (`profilingIntervalInHertz`) and
  `Config.DEFAULT_SPY_NAME` are parameters. Logging is not modelled.
- Exporter.UploadSnapshot: a negative `ingestMaxTries` against an endpoint that
  never succeeds makes the Java loop retry forever. The outcomes are a finite
  script, and the method requires that the loop ends on it (`Ends`), so that
  endless run is not covered.
- Exporter.UploadSnapshot: the attempt counter `tries` is an unbounded integer.
  The Java `int` would wrap after 2^31 attempts, which needs a negative limit and
  2^31 failures in a row.
- Agent.Plus: does not model the `ArithmeticException` Java throws when an
  `Instant` or `Duration` leaves its range.
- Agent.ToNanos: does not model the `ArithmeticException` Java throws when a
  `Duration` leaves its range.
- `Convert` is a single Java method. Its frame loop, event loop and header are
  split into the methods `WriteFrame`, `InternFrame`, `WriteEvent`, `WriteSamples`
  and `WriteHeader`. This keeps each proof small; they run in the same order.
- `Convert`'s contract fixes the string-table, function, location and sample
  fields, with all their contents and order. It does not fix how fields with
  different tags interleave after the header.
- Jfr2Pprof.Convert: the counters `functionId`, `locationId` and `stringId` are
  unbounded integers. The Java `int` counters would wrap after 2^31 distinct
  frame names in one recording. The line is below 2^16 and cannot wrap.
- Common.Utf8Encode: Dafny characters are Unicode scalar values, so the lone
  surrogates a Java string can hold (which `getBytes` replaces by `?`) do not
  occur.
- Even when the last allowed attempt succeeds, the Java loop still logs "gave up".
  `UploadSnapshot` reports this faithfully in `gaveUp`.
- `setConfig` can switch a profiler built for collapsed output to JFR or pprof
  without creating a recording file. The Java code then fails on the null file:
  `CreateJfrCommand` returns no command and `DumpImpl` returns `NoRecordingFile`.
- JavaAgent.CommandSplits: only holds when no setting contains a comma. The Java
  code does not escape commas, so a comma in a setting splits into extra options.
