/** Values the agent passes between the profiler and the exporter: Java time
    values, the profiled event type, the configuration and the snapshot. */
module Agent {
  import opened Common
  import opened Http

  const NanosPerSecond: int := 1_000_000_000

  type Nano = n: int | 0 <= n < NanosPerSecond

  /** `java.time.Instant`: seconds since the epoch and a nanosecond adjustment. */
  datatype Instant = Instant(epochSecond: int, nano: Nano)

  /** `java.time.Duration`, normalised like Java's: the nanosecond part is in [0, 1e9). */
  datatype Duration = Duration(seconds: int, nanos: Nano)

  function InstantNanos(i: Instant): int { i.epochSecond * NanosPerSecond + i.nano }

  function DurationNanos(d: Duration): int { d.seconds * NanosPerSecond + d.nanos }

  /** `Instant.plus(Duration)`: the point in time `d` after `i`. */
  function Plus(i: Instant, d: Duration): (r: Instant)
    ensures InstantNanos(r) == InstantNanos(i) + DurationNanos(d)
  {
    var n := i.nano + d.nanos;
    Instant(i.epochSecond + d.seconds + n / NanosPerSecond, n % NanosPerSecond)
  }

  /** `Duration.toNanos()`. */
  function ToNanos(d: Duration): (n: int)
    ensures d.seconds >= 0 ==> n >= 0
    ensures n / NanosPerSecond == d.seconds && n % NanosPerSecond == d.nanos
  {
    d.seconds * NanosPerSecond + d.nanos
  }

  /** The profiled dimension (`EventType`): its async-profiler event id and the
      identifiers of its unit and aggregation kind. */
  datatype EventType = EventType(id: string, unitsId: string, aggregationTypeId: string)

  /** The configuration fields the modelled code reads. Nullable strings are `Option`s. */
  datatype Config = Config(
    format: Format,
    profilingEvent: EventType,
    profilingAlloc: Option<string>,
    profilingLock: Option<string>,
    profilingInterval: Duration,
    allocLive: bool,
    apLogLevel: Option<string>,
    javaStackDepthMax: int32,
    apExtraArguments: Option<string>,
    gcBeforeDump: bool,
    compressionLevelJfr: int,
    compressionLevelLabels: int,
    authToken: Option<string>,
    ingestMaxTries: int32,
    uploadInterval: Duration,
    serverAddress: string)

  /** One profiling window ready for upload; `labels` is the serialised label snapshot. */
  datatype Snapshot = Snapshot(
    format: Format,
    eventType: EventType,
    started: Instant,
    ended: Instant,
    data: Bytes,
    labels: Bytes)
}
