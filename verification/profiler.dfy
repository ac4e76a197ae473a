/** The agent's handle on async-profiler (`Profiler`): the settings copied from the
    configuration, the command line that starts a JFR recording, and the dump that
    turns one profiling window into a snapshot. The native profiler itself, the
    temporary file and the JFR reader are outside the model: the file's name, its
    contents and what the reader parses from it are given as values. */
module JavaAgent {
  import opened Common
  import opened Http
  import opened Agent
  import Jfr2Pprof

  /** Why a dump fails: the temporary recording file was never created (the
      `NullPointerException` of `tempJFRFile`), or the converter failed. */
  datatype DumpError = NoRecordingFile | ConversionError(failure: Jfr2Pprof.Failure)

  /** Whether an optional command argument is written: present and not empty. */
  predicate Given(s: Option<string>) { s.Some? && s.value != "" }

  /** The allocation-profiling options: `alloc=` when an allocation threshold is
      given, followed by `live` when only live objects are to be reported. */
  function AllocOptions(alloc: Option<string>, allocLive: bool): seq<string>
  {
    if Given(alloc) then ["alloc=" + alloc.value] + (if allocLive then ["live"] else []) else []
  }

  /** The lock-profiling option, when a lock threshold is given. */
  function LockOptions(lock: Option<string>): seq<string>
  {
    if Given(lock) then ["lock=" + lock.value] else []
  }

  /** The log-level option, when a level is set (an empty level is still written). */
  function LogLevelOptions(logLevel: Option<string>): seq<string>
  {
    if logLevel.Some? then ["loglevel=" + logLevel.value] else []
  }

  /** The extra arguments, written verbatim, when set. */
  function ExtraOptions(extra: Option<string>): seq<string>
  {
    if extra.Some? then [extra.value] else []
  }

  /** The options of the command that starts a JFR recording, in the order the
      profiler writes them; the command is these options separated by commas. */
  function CommandOptions(eventId: string, alloc: Option<string>, allocLive: bool,
                          lock: Option<string>, intervalNanos: int, file: string,
                          logLevel: Option<string>, depth: int32,
                          extra: Option<string>): seq<string>
  {
    ["start", "event=" + eventId]
    + AllocOptions(alloc, allocLive)
    + LockOptions(lock)
    + ["interval=" + DecimalString(intervalNanos)]
    + ["file=" + file]
    + LogLevelOptions(logLevel)
    + ["jstackdepth=" + DecimalString(depth as int)]
    + ExtraOptions(extra)
  }

  function Count(b: bool): nat { if b then 1 else 0 }

  /** The front of the command: the event, then the allocation options exactly
      when an allocation threshold is given (`live` only after them), then the lock
      option exactly when a lock threshold is given, then the interval and the file. */
  lemma CommandFront(eventId: string, alloc: Option<string>, allocLive: bool,
                     lock: Option<string>, intervalNanos: int, file: string,
                     logLevel: Option<string>, depth: int32, extra: Option<string>)
    ensures var opts := CommandOptions(eventId, alloc, allocLive, lock, intervalNanos,
                                       file, logLevel, depth, extra);
      var a := Count(Given(alloc)) + Count(Given(alloc) && allocLive);
      var l := a + Count(Given(lock));
      && |opts| >= 5 + l
      && opts[0] == "start" && opts[1] == "event=" + eventId
      && (Given(alloc) ==> opts[2] == "alloc=" + alloc.value)
      && (Given(alloc) && allocLive ==> opts[3] == "live")
      && (Given(lock) ==> opts[2 + a] == "lock=" + lock.value)
      && opts[2 + l] == "interval=" + DecimalString(intervalNanos)
      && opts[3 + l] == "file=" + file
  {
    var o1 := ["start", "event=" + eventId] + AllocOptions(alloc, allocLive);
    var o2 := o1 + LockOptions(lock);
    var o4 := o2 + ["interval=" + DecimalString(intervalNanos)] + ["file=" + file];
    var rest := LogLevelOptions(logLevel) + ["jstackdepth=" + DecimalString(depth as int)]
                + ExtraOptions(extra);
    var opts := CommandOptions(eventId, alloc, allocLive, lock, intervalNanos,
                               file, logLevel, depth, extra);
    assert opts == o4 + rest;
    assert opts[..|o4|] == o4;
  }

  /** The back of the command: the log level exactly when one is set, then the
      stack depth, then the extra arguments, last, exactly when they are set. */
  lemma CommandBack(eventId: string, alloc: Option<string>, allocLive: bool,
                    lock: Option<string>, intervalNanos: int, file: string,
                    logLevel: Option<string>, depth: int32, extra: Option<string>)
    ensures var opts := CommandOptions(eventId, alloc, allocLive, lock, intervalNanos,
                                       file, logLevel, depth, extra);
      var d := |opts| - 1 - Count(extra.Some?);
      && d >= 4
      && (extra.Some? ==> opts[|opts| - 1] == extra.value)
      && opts[d] == "jstackdepth=" + DecimalString(depth as int)
      && (logLevel.Some? ==> opts[d - 1] == "loglevel=" + logLevel.value)
      && (logLevel.None? ==> opts[d - 1] == "file=" + file)
  {
    var o4 := ["start", "event=" + eventId] + AllocOptions(alloc, allocLive) + LockOptions(lock)
              + ["interval=" + DecimalString(intervalNanos)] + ["file=" + file];
    var o6 := o4 + LogLevelOptions(logLevel) + ["jstackdepth=" + DecimalString(depth as int)];
    var opts := CommandOptions(eventId, alloc, allocLive, lock, intervalNanos,
                               file, logLevel, depth, extra);
    assert opts == o6 + ExtraOptions(extra);
    assert opts[..|o6|] == o6;
    assert o6[|o6| - 2] == (o4 + LogLevelOptions(logLevel))[|o6| - 2];
  }

  /** A number written in decimal holds no comma. */
  lemma DecimalHasNoComma(n: int)
    ensures ',' !in DecimalString(n)
  {
    var s := DecimalString(n);
    if n < 0 {
      assert s == "-" + Digits(-n);
      assert forall i :: 1 <= i < |s| ==> s[i] == Digits(-n)[i - 1];
    }
  }

  /** When no setting holds a comma, splitting the command at its commas gives the
      options back one by one, so async-profiler reads exactly these options. */
  lemma CommandSplits(eventId: string, alloc: Option<string>, allocLive: bool,
                      lock: Option<string>, intervalNanos: int, file: string,
                      logLevel: Option<string>, depth: int32, extra: Option<string>)
    requires ',' !in eventId && ',' !in file
    requires alloc.Some? ==> ',' !in alloc.value
    requires lock.Some? ==> ',' !in lock.value
    requires logLevel.Some? ==> ',' !in logLevel.value
    requires extra.Some? ==> ',' !in extra.value
    ensures var opts := CommandOptions(eventId, alloc, allocLive, lock, intervalNanos,
                                       file, logLevel, depth, extra);
      Split(Join(opts, ','), ',') == opts
  {
    var opts := CommandOptions(eventId, alloc, allocLive, lock, intervalNanos,
                               file, logLevel, depth, extra);
    DecimalHasNoComma(intervalNanos);
    DecimalHasNoComma(depth as int);
    assert forall x | x in opts :: ',' !in x;
    forall i | 0 <= i < |opts|
      ensures ',' !in opts[i]
    {
      assert opts[i] in opts;
    }
    SplitJoin(opts, ',');
  }

  /** Every command starts by naming the profiled event. */
  lemma CommandStart(eventId: string, alloc: Option<string>, allocLive: bool,
                     lock: Option<string>, intervalNanos: int, file: string,
                     logLevel: Option<string>, depth: int32, extra: Option<string>)
    ensures var opts := CommandOptions(eventId, alloc, allocLive, lock, intervalNanos,
                                       file, logLevel, depth, extra);
      "start,event=" + eventId <= Join(opts, ',')
  {
    var head := ["start", "event=" + eventId];
    var A, L := AllocOptions(alloc, allocLive), LockOptions(lock);
    var I, F := ["interval=" + DecimalString(intervalNanos)], ["file=" + file];
    var G, D := LogLevelOptions(logLevel), ["jstackdepth=" + DecimalString(depth as int)];
    var E := ExtraOptions(extra);
    AppendAssoc(head, A, L);
    AppendAssoc(head, A + L, I);
    AppendAssoc(head, A + L + I, F);
    AppendAssoc(head, A + L + I + F, G);
    AppendAssoc(head, A + L + I + F + G, D);
    AppendAssoc(head, A + L + I + F + G + D, E);
    var rest := A + L + I + F + G + D + E;
    JoinMore(head, rest);
    assert head[..1] == ["start"];
    assert Join(head[..1], ',') == "start";
    Pieces();
    AppendAssoc("start" + [','], "event=", eventId);
  }

  /** The text each option adds after the first ones: a comma and the option. */
  function Prefixed(more: seq<string>): string
  {
    if |more| == 0 then "" else Prefixed(more[..|more| - 1]) + "," + more[|more| - 1]
  }

  /** Joining further options appends each of them after a comma. */
  lemma {:induction false} JoinMore(opts: seq<string>, more: seq<string>)
    requires |opts| >= 1
    ensures Join(opts + more, ',') == Join(opts, ',') + Prefixed(more)
    decreases |more|
  {
    if |more| == 0 {
      assert opts + more == opts;
    } else {
      var init, x := more[..|more| - 1], more[|more| - 1];
      JoinMore(opts, init);
      assert opts + more == (opts + init) + [x];
      JoinSnoc(opts + init, x, ',');
      assert [','] + x == "," + x;
    }
  }

  /** Appending `piece`, a comma followed by `key`, and then `value` adds the
      option `key + value`. */
  lemma AppendOption(t: string, piece: string, key: string, value: string)
    requires piece == [','] + key
    ensures t + piece + value == t + Prefixed([key + value])
  {
    assert [key + value][..0] == [];
  }

  /** Solver aid: the separators the profiler appends are a comma and the option's key. */
  lemma Pieces()
    ensures ",alloc=" == [','] + "alloc=" && ",live" == [','] + "live"
    ensures ",lock=" == [','] + "lock=" && ",loglevel=" == [','] + "loglevel="
    ensures ",interval=" == [','] + "interval=" && ",file=" == [','] + "file="
    ensures ",jstackdepth=" == [','] + "jstackdepth=" && "," == [','] + ""
    ensures "start,event=" == "start" + [','] + "event="
  {
  }

  /** `t` followed by the allocation options, appended as the profiler does. */
  function WithAlloc(t: string, alloc: Option<string>, allocLive: bool): (r: string)
    ensures r == t + Prefixed(AllocOptions(alloc, allocLive))
  {
    if Given(alloc) then
      AppendOption(t, ",alloc=", "alloc=", alloc.value);
      if allocLive then
        var opts := AllocOptions(alloc, allocLive);
        assert opts[..1] == ["alloc=" + alloc.value];
        AppendOption(t + ",alloc=" + alloc.value, ",live", "live", "");
        assert "live" + "" == "live";
        t + ",alloc=" + alloc.value + ",live"
      else t + ",alloc=" + alloc.value
    else t
  }

  /** `t` followed by the lock option, appended as the profiler does. */
  function WithLock(t: string, lock: Option<string>): (r: string)
    ensures r == t + Prefixed(LockOptions(lock))
  {
    if Given(lock) then
      AppendOption(t, ",lock=", "lock=", lock.value);
      t + ",lock=" + lock.value
    else t
  }

  /** `t` followed by the log-level option, appended as the profiler does. */
  function WithLogLevel(t: string, logLevel: Option<string>): (r: string)
    ensures r == t + Prefixed(LogLevelOptions(logLevel))
  {
    if logLevel.Some? then
      AppendOption(t, ",loglevel=", "loglevel=", logLevel.value);
      t + ",loglevel=" + logLevel.value
    else t
  }

  /** `t` followed by the extra arguments, appended as the profiler does. */
  function WithExtra(t: string, extra: Option<string>): (r: string)
    ensures r == t + Prefixed(ExtraOptions(extra))
  {
    if extra.Some? then
      AppendOption(t, ",", "", extra.value);
      assert "" + extra.value == extra.value;
      t + "," + extra.value
    else t
  }

  /** The command as the profiler appends it, piece by piece. */
  function CommandLine(eventId: string, alloc: Option<string>, allocLive: bool,
                       lock: Option<string>, intervalNanos: int, file: string,
                       logLevel: Option<string>, depth: int32, extra: Option<string>): string
  {
    var t1 := WithAlloc("start,event=" + eventId, alloc, allocLive);
    var t2 := WithLock(t1, lock);
    var t3 := t2 + ",interval=" + DecimalString(intervalNanos) + ",file=" + file;
    var t4 := WithLogLevel(t3, logLevel);
    var t5 := t4 + ",jstackdepth=" + DecimalString(depth as int);
    WithExtra(t5, extra)
  }

  /** Appending the pieces is joining the options with commas. */
  lemma CommandJoins(eventId: string, alloc: Option<string>, allocLive: bool,
                     lock: Option<string>, intervalNanos: int, file: string,
                     logLevel: Option<string>, depth: int32, extra: Option<string>)
    ensures Join(CommandOptions(eventId, alloc, allocLive, lock, intervalNanos,
                                file, logLevel, depth, extra), ',')
         == CommandLine(eventId, alloc, allocLive, lock, intervalNanos,
                        file, logLevel, depth, extra)
  {
    var head := ["start", "event=" + eventId];
    assert head[..1] == ["start"];
    assert Join(head[..1], ',') == "start";
    Pieces();
    AppendAssoc("start" + [','], "event=", eventId);
    var t0 := "start,event=" + eventId;
    assert Join(head, ',') == t0;
    var t1 := WithAlloc(t0, alloc, allocLive);
    JoinMore(head, AllocOptions(alloc, allocLive));
    var o1 := head + AllocOptions(alloc, allocLive);
    var t2 := WithLock(t1, lock);
    JoinMore(o1, LockOptions(lock));
    var o2 := o1 + LockOptions(lock);
    var nanos := DecimalString(intervalNanos);
    AppendOption(t2, ",interval=", "interval=", nanos);
    JoinMore(o2, ["interval=" + nanos]);
    var o3 := o2 + ["interval=" + nanos];
    AppendOption(t2 + ",interval=" + nanos, ",file=", "file=", file);
    JoinMore(o3, ["file=" + file]);
    var o4 := o3 + ["file=" + file];
    var t3 := t2 + ",interval=" + nanos + ",file=" + file;
    var t4 := WithLogLevel(t3, logLevel);
    JoinMore(o4, LogLevelOptions(logLevel));
    var o5 := o4 + LogLevelOptions(logLevel);
    var depthText := DecimalString(depth as int);
    AppendOption(t4, ",jstackdepth=", "jstackdepth=", depthText);
    JoinMore(o5, ["jstackdepth=" + depthText]);
    var o6 := o5 + ["jstackdepth=" + depthText];
    JoinMore(o6, ExtraOptions(extra));
  }

  class Profiler {
    var config: Config
    var eventType: EventType
    var alloc: Option<string>
    var lock: Option<string>
    var interval: Duration
    var format: Format
    /** The file async-profiler records into, created only for the formats that need one. */
    var tempJfrFile: Option<string>

    /** Copies the configuration, and takes `tempFile` as the recording file when
        the format needs one. */
    constructor(config: Config, tempFile: string)
      ensures this.config == config && eventType == config.profilingEvent
      ensures alloc == config.profilingAlloc && lock == config.profilingLock
      ensures interval == config.profilingInterval && format == config.format
      ensures tempJfrFile == (if AsyncProfilerJfr() then Some(tempFile) else None)
      ensures HasRecordingFile()
    {
      this.config := config;
      alloc := config.profilingAlloc;
      lock := config.profilingLock;
      eventType := config.profilingEvent;
      interval := config.profilingInterval;
      format := config.format;
      tempJfrFile := if config.format != Collapsed then Some(tempFile) else None;
    }

    /** Whether async-profiler records into a JFR file: true for JFR and pprof output,
        which is converted from the recording, and false for collapsed stacks. */
    predicate AsyncProfilerJfr(): (r: bool)
      reads this
      ensures r <==> format != Collapsed
    {
      format == Jfr || format == Pprof
    }

    /** The recording file exists whenever the format records into one. */
    predicate HasRecordingFile()
      reads this
    {
      AsyncProfilerJfr() ==> tempJfrFile.Some?
    }

    /** Takes the settings from a new configuration. The recording file is left as
        it is, so a profiler constructed for collapsed stacks has none even when the
        new format needs one. */
    method SetConfig(config: Config)
      modifies this
      ensures this.config == config && eventType == config.profilingEvent
      ensures alloc == config.profilingAlloc && lock == config.profilingLock
      ensures interval == config.profilingInterval && format == config.format
      ensures tempJfrFile == old(tempJfrFile)
      ensures HasRecordingFile() <==> config.format == Collapsed || tempJfrFile.Some?
    {
      this.config := config;
      alloc := config.profilingAlloc;
      lock := config.profilingLock;
      eventType := config.profilingEvent;
      interval := config.profilingInterval;
      format := config.format;
    }

    /** The command that starts a recording: the options of `CommandOptions` joined
        by commas, built up one append at a time. Without a recording file there is
        no command (the source fails on the missing file). */
    method CreateJfrCommand() returns (cmd: Option<string>)
      ensures cmd.None? <==> tempJfrFile.None?
      ensures tempJfrFile.Some? ==> cmd == Some(Join(CommandOptions(
        eventType.id, alloc, config.allocLive, lock, ToNanos(interval),
        tempJfrFile.value, config.apLogLevel, config.javaStackDepthMax,
        config.apExtraArguments), ','))
    {
      if tempJfrFile.None? {
        return None;
      }
      var id, file, live := eventType.id, tempJfrFile.value, config.allocLive;
      var logLevel, extra := config.apLogLevel, config.apExtraArguments;
      var sb := "start,event=" + id;
      if alloc.Some? && alloc.value != "" {
        sb := sb + ",alloc=" + alloc.value;
        if live {
          sb := sb + ",live";
        }
      }
      ghost var t := WithAlloc("start,event=" + id, alloc, live);
      assert sb == t;
      if lock.Some? && lock.value != "" {
        sb := sb + ",lock=" + lock.value;
      }
      t := WithLock(t, lock);
      assert sb == t;
      var nanos := ToNanos(interval);
      sb := sb + ",interval=" + DecimalString(nanos) + ",file=" + file;
      t := t + ",interval=" + DecimalString(nanos) + ",file=" + file;
      if logLevel.Some? {
        sb := sb + ",loglevel=" + logLevel.value;
      }
      t := WithLogLevel(t, logLevel);
      assert sb == t;
      var depth := config.javaStackDepthMax;
      sb := sb + ",jstackdepth=" + DecimalString(depth as int);
      t := t + ",jstackdepth=" + DecimalString(depth as int);
      if extra.Some? {
        sb := sb + "," + extra.value;
      }
      assert sb == WithExtra(t, extra);
      CommandJoins(id, alloc, live, lock, nanos, file, logLevel, depth, extra);
      return Some(sb);
    }

    /** One profiling window as a snapshot. The data depends on the format: the
        recording file's bytes for JFR, the recording converted to a pprof profile
        (and encoded by `encode`) for pprof, and the collapsed stacks as UTF-8
        otherwise. `recording` is the file's contents, `reader` what the JFR reader
        parses from it, `collapsed` what async-profiler dumps and `labels` the
        serialised labels. */
    method DumpImpl(started: Instant, ended: Instant, recording: Bytes,
                    reader: Jfr2Pprof.Reader, kinds: Jfr2Pprof.FrameKinds,
                    encode: seq<Jfr2Pprof.Field> -> Bytes, collapsed: string, labels: Bytes)
      returns (r: Result<Snapshot, DumpError>, ghost profile: seq<Jfr2Pprof.Field>)
      ensures r.Ok? ==> && r.value.format == format && r.value.eventType == eventType
                        && r.value.started == started && r.value.ended == ended
                        && r.value.labels == labels
      ensures format != Collapsed && tempJfrFile.None? ==> r == Failed(NoRecordingFile)
      ensures format == Jfr && tempJfrFile.Some? ==> r.Ok? && r.value.data == recording
      ensures format == Pprof && tempJfrFile.Some? ==>
        var failure := Jfr2Pprof.ConversionFailure(reader, eventType.id, kinds);
        && (failure.Some? ==> r == Failed(ConversionError(failure.value)))
        && (failure.None? ==> && r.Ok? && r.value.data == encode(profile)
                              && Jfr2Pprof.IsConversionOf(profile, reader, eventType.id, kinds))
      ensures format == Collapsed ==> r.Ok? && r.value.data == Utf8Encode(collapsed)
    {
      profile := [];
      var data: Bytes;
      if format == Jfr {
        if tempJfrFile.None? {
          return Failed(NoRecordingFile), profile;
        }
        data := recording;
      } else if format == Pprof {
        if tempJfrFile.None? {
          return Failed(NoRecordingFile), profile;
        }
        var converted := Jfr2Pprof.Convert(reader, eventType.id, kinds);
        if converted.Failed? {
          return Failed(ConversionError(converted.error)), profile;
        }
        profile := converted.value;
        data := encode(converted.value);
      } else {
        data := Utf8Encode(collapsed);
      }
      r := Ok(Snapshot(format, eventType, started, ended, data, labels));
    }
  }
}
