/** The converter from a flight recording to a pprof profile (jfr2pprof).

    The recording is given as the tables a JFR reader exposes. The profile is the
    ordered list of tagged fields written into the top-level `Profile` message of
    pprof's profile.proto; the varint/length-delimited byte encoding of those fields
    is not part of this model. */
module Jfr2Pprof {
  import opened Common

  // ---------------------------------------------------------------------------
  // Field numbers of profile.proto

  // Profile
  const ProfileSampleType: nat := 1
  const ProfileSample: nat := 2
  const ProfileLocation: nat := 4
  const ProfileFunction: nat := 5
  const ProfileStringTable: nat := 6
  const ProfileTimeNanos: nat := 9
  const ProfileDurationNanos: nat := 10
  const ProfilePeriodType: nat := 11
  const ProfileComment: nat := 13
  const ProfileDefaultSampleType: nat := 14
  // ValueType
  const ValueTypeType: nat := 1
  const ValueTypeUnit: nat := 2
  // Sample
  const SampleLocationId: nat := 1
  const SampleValue: nat := 2
  // Location
  const LocationId: nat := 1
  const LocationLine: nat := 4
  // Line
  const LineFunctionId: nat := 1
  const LineLine: nat := 2
  // Function
  const FunctionId: nat := 1
  const FunctionName: nat := 2

  /** One field written into a protobuf message: an integer, a byte string or a
      nested message. */
  datatype Field =
    | VarintField(tag: nat, value: int)
    | BytesField(tag: nat, data: Bytes)
    | MessageField(tag: nat, fields: seq<Field>)

  // ---------------------------------------------------------------------------
  // The recording, as the reader exposes it

  datatype MethodRef = MethodRef(cls: int, name: int)
  datatype ClassRef = ClassRef(name: int)
  /** One frame of a stack trace: the method id, the frame type byte and the packed
      location bits whose upper 16 bits are the line number. */
  datatype Frame = Frame(methodId: int, kind: int, location: int32)
  datatype StackTrace = StackTrace(frames: seq<Frame>)
  datatype EventKind = ExecutionSample | AllocationSample | ContendedLock
  datatype Event = Event(kind: EventKind, stackTraceId: int, time: int64)

  /** The reader's dictionaries (a missing key is a `null` lookup), its events in the
      order it delivers them, and its timing header. */
  datatype Reader = Reader(
    methods: map<int, MethodRef>,
    classes: map<int, ClassRef>,
    symbols: map<int, Bytes>,
    stackTraces: map<int, StackTrace>,
    events: seq<Event>,
    startTicks: int64,
    ticksPerSec: int64,
    startNanos: int64,
    durationNanos: int64)

  /** The frame-type range that FlameGraph treats as native code (FRAME_NATIVE to
      FRAME_KERNEL). */
  datatype FrameKinds = FrameKinds(native: int, kernel: int)

  /** Why a conversion stops: the exception the source would raise. */
  datatype Failure =
    | UnknownType
    | MissingStackTrace(stackTraceId: int)
    | MissingClass(classId: int)
    | MissingSymbol(symbolId: int)
    | DivisionByZero

  /** `readAllEvents(eventClass)`: the events of one kind, in delivery order. */
  function ReadAllEvents(reader: Reader, kind: EventKind): (evs: seq<Event>)
    ensures forall e :: e in evs ==> e in reader.events && e.kind == kind
    ensures forall e :: e in reader.events && e.kind == kind ==> e in evs
  {
    Filter(reader.events, kind)
  }

  function Filter(events: seq<Event>, kind: EventKind): (evs: seq<Event>)
    ensures forall e :: e in evs <==> e in events && e.kind == kind
  {
    if events == [] then []
    else
      var init := Filter(events[..|events| - 1], kind);
      var e := events[|events| - 1];
      assert events == events[..|events| - 1] + [e];
      if e.kind == kind then init + [e] else init
  }

  /** The events read keep the recording's order and multiplicity: filtering a
      concatenation filters each part, and a single event is kept exactly when it
      has the kind. */
  lemma {:induction false} FilterAppend(a: seq<Event>, b: seq<Event>, kind: EventKind)
    ensures Filter(a + b, kind) == Filter(a, kind) + Filter(b, kind)
    ensures |b| == 1 ==> Filter(b, kind) == if b[0].kind == kind then b else []
    decreases |b|
  {
    if b == [] {
      assert a + b == a;
    } else {
      var b', e := b[..|b| - 1], b[|b| - 1];
      var kept := if e.kind == kind then [e] else [];
      FilterAppend(a, b', kind);
      assert (a + b)[..|a + b| - 1] == a + b';
      assert (a + b)[|a + b| - 1] == e;
      assert Filter(a + b, kind) == Filter(a + b', kind) + kept;
      assert Filter(b, kind) == Filter(b', kind) + kept;
      AppendAssoc(Filter(a, kind), Filter(b', kind), kept);
      if |b| == 1 {
        assert b' == [];
      }
    }
  }

  // ---------------------------------------------------------------------------
  // Type selection and the header

  const TypeCpu: string := "cpu"
  const TypeAlloc: string := "alloc"
  const TypeLock: string := "lock"
  const TypeItimer: string := "itimer"

  const MethodUnknown: Bytes := AsciiBytes("[unknown]")
  const AsyncProfiler: Bytes := AsciiBytes("async-profiler")
  const Nanoseconds: Bytes := AsciiBytes("nanoseconds")
  const Dot: byte := '.' as int as byte

  /** The value type and unit written into the sample type, and the event kind read. */
  datatype Selection = Selection(valueType: Bytes, valueUnit: Bytes, kind: EventKind)

  /** `Convert`'s switch on the profile type: the value type and unit written
      into the sample type, and the event kind read. Any other type leaves them unset. */
  function SelectType(t: string): Option<Selection>
  {
    if t == TypeCpu then Some(Selection(AsciiBytes("cpu"), Nanoseconds, ExecutionSample))
    else if t == TypeAlloc then Some(Selection(AsciiBytes("allocations"), AsciiBytes("count"), AllocationSample))
    else if t == TypeLock then Some(Selection(AsciiBytes("lock"), Nanoseconds, ContendedLock))
    else if t == TypeItimer then Some(Selection(AsciiBytes("itimer"), Nanoseconds, ExecutionSample))
    else None
  }

  /** Exactly the four recognised types select; only "alloc" reads allocation samples
      and counts them, only "lock" reads lock events, and every other recognised type
      is measured in nanoseconds under its own name. */
  lemma SelectTypeCases(t: string)
    ensures SelectType(t).Some? <==> t in {TypeCpu, TypeAlloc, TypeLock, TypeItimer}
    ensures SelectType(t).Some? ==> (SelectType(t).value.kind == AllocationSample <==> t == TypeAlloc)
    ensures SelectType(t).Some? ==> (SelectType(t).value.kind == ContendedLock <==> t == TypeLock)
    ensures SelectType(t).Some? ==> (SelectType(t).value.valueUnit == Nanoseconds <==> t != TypeAlloc)
    ensures SelectType(t).Some? && t != TypeAlloc ==> SelectType(t).value.valueType == AsciiBytes(t)
    ensures t == TypeAlloc ==> SelectType(t) == Some(Selection(AsciiBytes("allocations"), AsciiBytes("count"), AllocationSample))
  {
    assert |AsciiBytes("count")| != |Nanoseconds|;
  }

  const HeaderLength: nat := 10

  /** The sample-type descriptor: value type at string index 2, unit at index 3. */
  function SampleTypeFields(): seq<Field>
  {
    [VarintField(ValueTypeType, 2), VarintField(ValueTypeUnit, 3)]
  }

  /** The fields written before the first event. */
  function Header(reader: Reader, sel: Selection): (h: seq<Field>)
    ensures |h| == HeaderLength
  {
    [ VarintField(ProfileTimeNanos, reader.startNanos as int),
      VarintField(ProfileDurationNanos, reader.durationNanos as int),
      VarintField(ProfileDefaultSampleType, 0),
      BytesField(ProfileStringTable, []),
      BytesField(ProfileStringTable, AsyncProfiler),
      VarintField(ProfileComment, 1),
      BytesField(ProfileStringTable, sel.valueType),
      BytesField(ProfileStringTable, sel.valueUnit),
      MessageField(ProfileSampleType, SampleTypeFields()),
      MessageField(ProfilePeriodType, SampleTypeFields()) ]
  }

  /** The string table entries written by the header, in index order. */
  function HeaderStrings(sel: Selection): seq<Bytes>
  {
    [[], AsyncProfiler, sel.valueType, sel.valueUnit]
  }

  /** The string indices the header writes point at the intended strings: the comment
      at "async-profiler", the sample type (reused as period type) at the value type
      and unit, and index 0 is the empty string. */
  lemma HeaderReferences(reader: Reader, sel: Selection)
    ensures var h := Header(reader, sel); var st := HeaderStrings(sel);
      && st[0] == []
      && h[5].tag == ProfileComment && st[h[5].value] == AsyncProfiler
      && h[8].fields == h[9].fields
      && h[8].fields[0].tag == ValueTypeType && st[h[8].fields[0].value] == sel.valueType
      && h[8].fields[1].tag == ValueTypeUnit && st[h[8].fields[1].value] == sel.valueUnit
  {
  }

  // ---------------------------------------------------------------------------
  // Frame names, lines and sample values

  predicate IsNativeKind(kind: int, kinds: FrameKinds)
  {
    kinds.native <= kind <= kinds.kernel
  }

  /** `getMethodName`: the display name of a frame. An unresolved method is
      "[unknown]"; a native or kernel frame, or one whose class has no name, is the
      bare method name; any other is `class.method`. A method whose class is missing,
      or whose own name symbol is missing, makes the conversion fail. */
  function GetMethodName(reader: Reader, methodId: int, methodType: int, kinds: FrameKinds): (r: Result<Bytes, Failure>)
    ensures methodId !in reader.methods ==> r == Ok(MethodUnknown)
    ensures methodId in reader.methods ==>
      var m := reader.methods[methodId];
      && (m.cls !in reader.classes ==> r == Failed(MissingClass(m.cls)))
      && (m.cls in reader.classes && m.name !in reader.symbols ==> r == Failed(MissingSymbol(m.name)))
      && (m.cls in reader.classes && m.name in reader.symbols ==> r.Ok?)
    ensures methodId in reader.methods && r.Ok? ==>
      var m := reader.methods[methodId];
      var classSymbol := reader.classes[m.cls].name;
      var methodName := reader.symbols[m.name];
      if IsNativeKind(methodType, kinds) || classSymbol !in reader.symbols || |reader.symbols[classSymbol]| == 0 then
        r.value == methodName
      else
        var className := reader.symbols[classSymbol];
        |r.value| == |className| + 1 + |methodName| && r.value[|className|] == Dot
  {
    if methodId !in reader.methods then Ok(MethodUnknown)
    else
      var m := reader.methods[methodId];
      if m.cls !in reader.classes then Failed(MissingClass(m.cls))
      else
        var classSymbol := reader.classes[m.cls].name;
        if m.name !in reader.symbols then Failed(MissingSymbol(m.name))
        else
          var methodName := reader.symbols[m.name];
          if IsNativeKind(methodType, kinds) || classSymbol !in reader.symbols || |reader.symbols[classSymbol]| == 0 then
            Ok(methodName)
          else
            var className := reader.symbols[classSymbol];
            Ok(className + [Dot] + methodName)
  }

  /** A qualified display name splits at the dot back into the class name and the
      method name. */
  lemma MethodNameParts(reader: Reader, methodId: int, methodType: int, kinds: FrameKinds)
    requires methodId in reader.methods
    requires GetMethodName(reader, methodId, methodType, kinds).Ok?
    ensures var m := reader.methods[methodId];
      var classSymbol := reader.classes[m.cls].name;
      var r := GetMethodName(reader, methodId, methodType, kinds).value;
      !IsNativeKind(methodType, kinds) && classSymbol in reader.symbols && |reader.symbols[classSymbol]| > 0 ==>
        var className := reader.symbols[classSymbol];
        r[..|className|] == className && r[|className| + 1..] == reader.symbols[m.name]
  {
    var m := reader.methods[methodId];
    var classSymbol := reader.classes[m.cls].name;
    if !IsNativeKind(methodType, kinds) && classSymbol in reader.symbols && |reader.symbols[classSymbol]| > 0 {
      var className := reader.symbols[classSymbol];
      var full := className + [Dot] + reader.symbols[m.name];
      assert full[..|className|] == className;
      assert full[|className| + 1..] == reader.symbols[m.name];
    }
  }

  /** `location >>> 16` on a Java int: the upper 16 bits read as an unsigned number. */
  function LineOf(location: int32): (line: int)
    ensures 0 <= line < 0x1_0000
    ensures location >= 0 ==> line == location as int / 0x1_0000
    ensures location < 0 ==> line >= 0x8000
    ensures location < 0 ==> line == (location as int + 0x1_0000_0000) / 0x1_0000
  {
    (location as int % 0x1_0000_0000) / 0x1_0000
  }

  /** `(time - previous) * 1_000_000_000 / ticksPerSec` evaluated in Java `long`
      arithmetic: both the subtraction and the product wrap around, and the
      division truncates toward zero. */
  function SampleNanos(time: int64, previous: int64, ticksPerSec: int64): int64
    requires ticksPerSec != 0
  {
    var delta := Wrap64(time as int - previous as int);
    var scaled := Wrap64(delta as int * 1_000_000_000);
    Wrap64(JavaDiv(scaled as int, ticksPerSec as int))
  }

  /** When the elapsed ticks times 10^9 fit in a `long`, the sample value is the
      elapsed time in nanoseconds, rounded down. */
  lemma SampleNanosExact(time: int64, previous: int64, ticksPerSec: int64)
    requires ticksPerSec > 0
    requires previous <= time
    requires (time as int - previous as int) * 1_000_000_000 < TwoTo63
    ensures SampleNanos(time, previous, ticksPerSec) as int
         == (time as int - previous as int) * 1_000_000_000 / ticksPerSec as int
  {
    var d := time as int - previous as int;
    var m := d * 1_000_000_000;
    assert 0 <= d <= m < TwoTo63;
    assert Wrap64(d) as int == d;
    assert Wrap64(m) as int == m;
    DivBounds(m, ticksPerSec as int);
    assert JavaDiv(m, ticksPerSec as int) == m / ticksPerSec as int;
  }

  /** Solver aid: a quotient of naturals by a positive divisor lies between 0 and the dividend. */
  lemma DivBounds(a: nat, b: int)
    requires b > 0
    ensures 0 <= a / b <= a
  {
    var q := a / b;
    assert q * b + a % b == a;
    MulAtLeast(q, b);
  }

  /** Solver aid: multiplying a natural by a positive factor does not decrease it. */
  lemma {:induction false} MulAtLeast(q: int, b: nat)
    requires q >= 0 && b >= 1
    ensures q <= q * b
  {
    if b > 1 {
      MulAtLeast(q, b - 1);
      assert q * b == q * (b - 1) + q;
    }
  }

  /** An event earlier than its predecessor gives a negative value, truncated toward
      zero rather than rounded down. */
  lemma SampleNanosBackwards(time: int64, previous: int64, ticksPerSec: int64)
    requires ticksPerSec > 0
    requires time < previous
    requires (previous as int - time as int) * 1_000_000_000 < TwoTo63
    ensures SampleNanos(time, previous, ticksPerSec) as int
         == -((previous as int - time as int) * 1_000_000_000 / ticksPerSec as int)
  {
    var d := time as int - previous as int;
    var m := d * 1_000_000_000;
    assert -TwoTo63 < m <= d < 0;
    assert Wrap64(d) as int == d;
    assert Wrap64(m) as int == m;
    DivBounds(-m, ticksPerSec as int);
    assert JavaDiv(m, ticksPerSec as int) == -((-m) / ticksPerSec as int);
  }

  /** The tick count the delta of event `k` is measured from: the recording's start
      for the first event, the previous event's time after that. */
  function PreviousTime(startTicks: int64, evs: seq<Event>, k: nat): int64
    requires k <= |evs|
  {
    if k == 0 then startTicks else evs[k - 1].time
  }

  // ---------------------------------------------------------------------------
  // Resolution of every frame of every selected event

  /** A resolved frame: its display name and its line. */
  datatype Site = Site(name: Bytes, line: int)

  function ResolveFrame(reader: Reader, f: Frame, kinds: FrameKinds): Result<Site, Failure>
  {
    match GetMethodName(reader, f.methodId, f.kind, kinds)
    case Ok(name) => Ok(Site(name, LineOf(f.location)))
    case Failed(e) => Failed(e)
  }

  /** The frames resolved in order; the first frame that cannot be resolved fails. */
  function ResolveFrames(reader: Reader, frames: seq<Frame>, kinds: FrameKinds): (r: Result<seq<Site>, Failure>)
    ensures r.Ok? ==> |r.value| == |frames|
  {
    if frames == [] then Ok([])
    else
      var init := frames[..|frames| - 1];
      match ResolveFrames(reader, init, kinds)
      case Failed(e) => Failed(e)
      case Ok(done) =>
        match ResolveFrame(reader, frames[|frames| - 1], kinds)
        case Failed(e) => Failed(e)
        case Ok(s) => Ok(done + [s])
  }

  /** What processing one event needs: its stack trace, a non-zero tick rate for the
      delta, and every frame resolved. */
  function EventSites(reader: Reader, e: Event, kinds: FrameKinds): Result<seq<Site>, Failure>
  {
    if e.stackTraceId !in reader.stackTraces then Failed(MissingStackTrace(e.stackTraceId))
    else if reader.ticksPerSec == 0 then Failed(DivisionByZero)
    else ResolveFrames(reader, reader.stackTraces[e.stackTraceId].frames, kinds)
  }

  /** The events' resolved stacks in order; the first event that fails stops it. */
  function ResolveEvents(reader: Reader, evs: seq<Event>, kinds: FrameKinds): (r: Result<seq<seq<Site>>, Failure>)
    ensures r.Ok? ==> |r.value| == |evs|
  {
    if evs == [] then Ok([])
    else
      match ResolveEvents(reader, evs[..|evs| - 1], kinds)
      case Failed(e) => Failed(e)
      case Ok(done) =>
        match EventSites(reader, evs[|evs| - 1], kinds)
        case Failed(e) => Failed(e)
        case Ok(s) => Ok(done + [s])
  }

  /** A failure met on a prefix of the frames is the failure of the whole stack. */
  lemma {:induction false} FramesFailurePersists(reader: Reader, frames: seq<Frame>, n: nat, kinds: FrameKinds)
    requires n <= |frames|
    requires ResolveFrames(reader, frames[..n], kinds).Failed?
    ensures ResolveFrames(reader, frames, kinds) == ResolveFrames(reader, frames[..n], kinds)
    decreases |frames| - n
  {
    if n < |frames| {
      assert frames[..n + 1][..n] == frames[..n];
      FramesFailurePersists(reader, frames, n + 1, kinds);
    } else {
      assert frames[..n] == frames;
    }
  }

  /** A failure met on a prefix of the events is the failure of the whole conversion. */
  lemma {:induction false} EventsFailurePersists(reader: Reader, evs: seq<Event>, n: nat, kinds: FrameKinds)
    requires n <= |evs|
    requires ResolveEvents(reader, evs[..n], kinds).Failed?
    ensures ResolveEvents(reader, evs, kinds) == ResolveEvents(reader, evs[..n], kinds)
    decreases |evs| - n
  {
    if n < |evs| {
      assert evs[..n + 1][..n] == evs[..n];
      EventsFailurePersists(reader, evs, n + 1, kinds);
    } else {
      assert evs[..n] == evs;
    }
  }

  /** Why converting `reader` for profile type `t` fails, if it does. */
  function ConversionFailure(reader: Reader, t: string, kinds: FrameKinds): Option<Failure>
  {
    match SelectType(t)
    case None => Some(UnknownType)
    case Some(sel) =>
      match ResolveEvents(reader, ReadAllEvents(reader, sel.kind), kinds)
      case Failed(e) => Some(e)
      case Ok(_) => None
  }

  // ---------------------------------------------------------------------------
  // Interning: the distinct frame names in first-encounter order

  /** All sites of all stacks, stack after stack. */
  function Flatten(stacks: seq<seq<Site>>): seq<Site>
  {
    if stacks == [] then [] else Flatten(stacks[..|stacks| - 1]) + stacks[|stacks| - 1]
  }

  function Names(sites: seq<Site>): (ns: seq<Bytes>)
    ensures |ns| == |sites|
    ensures forall k :: 0 <= k < |sites| ==> ns[k] == sites[k].name
  {
    if sites == [] then [] else Names(sites[..|sites| - 1]) + [sites[|sites| - 1].name]
  }

  /** The first site of every distinct name, in the order the names are first met:
      entry k is the function and the location with id k + 1. */
  function Interned(sites: seq<Site>): seq<Site>
  {
    if sites == [] then []
    else
      var known := Interned(sites[..|sites| - 1]);
      var s := sites[|sites| - 1];
      if s.name in Names(known) then known else known + [s]
  }

  predicate DistinctNames(sites: seq<Site>)
  {
    forall a, b :: 0 <= a < b < |sites| ==> sites[a].name != sites[b].name
  }

  /** The position of the first site named `name`. */
  function FirstIndex(sites: seq<Site>, name: Bytes): (i: nat)
    requires name in Names(sites)
    ensures i < |sites| && sites[i].name == name
    ensures forall j :: 0 <= j < i ==> sites[j].name != name
  {
    if sites[0].name == name then 0
    else
      assert Names(sites) == [sites[0].name] + Names(sites[1..]) by {
        NamesDrop(sites);
      }
      1 + FirstIndex(sites[1..], name)
  }

  lemma {:induction false} NamesDrop(sites: seq<Site>)
    requires |sites| > 0
    ensures Names(sites) == [sites[0].name] + Names(sites[1..])
  {
    var ns := Names(sites);
    var tail := Names(sites[1..]);
    assert forall k :: 0 <= k < |ns| ==> ns[k] == ([sites[0].name] + tail)[k];
  }

  /** Every name is interned once: no two interned entries share a name, and there
      are never more entries than sites. */
  lemma {:induction false} InternedDistinct(sites: seq<Site>)
    ensures DistinctNames(Interned(sites))
    ensures |Interned(sites)| <= |sites|
  {
    if sites != [] {
      InternedDistinct(sites[..|sites| - 1]);
    }
  }

  /** Every site's name is interned, and every interned entry is one of the sites. */
  lemma {:induction false} InternedCovers(sites: seq<Site>)
    ensures forall s :: s in sites ==> s.name in Names(Interned(sites))
    ensures forall s :: s in Interned(sites) ==> s in sites
  {
    if sites != [] {
      var init := sites[..|sites| - 1];
      InternedCovers(init);
      assert sites == init + [sites[|sites| - 1]];
      var known := Interned(init);
      if sites[|sites| - 1].name !in Names(known) {
        assert Names(known + [sites[|sites| - 1]]) == Names(known) + [sites[|sites| - 1].name];
      }
    }
  }

  /** Every entry of `interned` is the first site in `sites` with its name. */
  predicate FirstSites(interned: seq<Site>, sites: seq<Site>)
  {
    forall k :: 0 <= k < |interned| ==>
      interned[k].name in Names(sites) && interned[k] == sites[FirstIndex(sites, interned[k].name)]
  }

  /** Each interned entry is the first site with its name: a name met again at
      another line keeps the line of its first occurrence. */
  lemma {:induction false} InternedFirst(sites: seq<Site>)
    ensures FirstSites(Interned(sites), sites)
  {
    if sites != [] {
      var init := sites[..|sites| - 1];
      var x := sites[|sites| - 1];
      InternedFirst(init);
      assert init + [x] == sites;
      InternedFirstStep(init, x);
    }
  }

  lemma InternedFirstStep(init: seq<Site>, x: Site)
    requires FirstSites(Interned(init), init)
    ensures FirstSites(Interned(init + [x]), init + [x])
  {
    var sites := init + [x];
    assert sites[..|sites| - 1] == init;
    var known := Interned(init);
    if x.name in Names(known) {
      assert Interned(sites) == known;
      forall k | 0 <= k < |known|
        ensures known[k].name in Names(sites) && known[k] == sites[FirstIndex(sites, known[k].name)]
      {
        FirstIndexExtend(init, x, known[k].name);
      }
    } else {
      assert Interned(sites) == known + [x];
      InternedCovers(init);
      FirstIndexOfNew(init, x);
      forall k | 0 <= k < |known| + 1
        ensures (known + [x])[k].name in Names(sites) && (known + [x])[k] == sites[FirstIndex(sites, (known + [x])[k].name)]
      {
        if k < |known| {
          FirstIndexExtend(init, x, known[k].name);
        }
      }
    }
  }

  /** A name not among the sites is first met at the site appended. */
  lemma FirstIndexOfNew(init: seq<Site>, x: Site)
    requires forall s :: s in init ==> s.name != x.name
    ensures x.name in Names(init + [x]) && FirstIndex(init + [x], x.name) == |init|
  {
    NamesAppend(init, x);
  }

  lemma FirstIndexExtend(sites: seq<Site>, x: Site, name: Bytes)
    requires name in Names(sites)
    ensures name in Names(sites + [x])
    ensures FirstIndex(sites + [x], name) == FirstIndex(sites, name)
  {
    var ext := sites + [x];
    assert Names(ext) == Names(sites) + [x.name];
    var i := FirstIndex(sites, name);
    var k := FirstIndex(ext, name);
    assert ext[i].name == name;
    assert k <= i;
    assert sites[k].name == name;
  }

  /** Two calls to the same method at different lines become a single entry, carrying
      the first line. */
  lemma LocationCollapse(name: Bytes, line1: int, line2: int)
    ensures Interned([Site(name, line1), Site(name, line2)]) == [Site(name, line1)]
  {
    var s := [Site(name, line1), Site(name, line2)];
    assert s[..1] == [Site(name, line1)];
    assert [Site(name, line1)][..0] == [];
    assert Interned(s[..1]) == [Site(name, line1)];
    assert Names([Site(name, line1)]) == [name];
  }

  // ---------------------------------------------------------------------------
  // The records the converter writes

  function FunctionRecord(id: int): Field
  {
    MessageField(ProfileFunction, [VarintField(FunctionId, id), VarintField(FunctionName, id + 3)])
  }

  /** The function records for `n` names: ids 1..n, each naming string index id + 3. */
  function FunctionRecords(n: nat): (r: seq<Field>)
    ensures |r| == n
  {
    if n == 0 then [] else FunctionRecords(n - 1) + [FunctionRecord(n)]
  }

  /** The line sub-record: the function id, and the line number only when positive. */
  function LineRecord(functionId: int, line: int): seq<Field>
  {
    [VarintField(LineFunctionId, functionId)] + (if line > 0 then [VarintField(LineLine, line)] else [])
  }

  /** A location record with one line entry pointing at a function. */
  function LocationRecord(locationId: int, functionId: int, line: int): Field
  {
    MessageField(ProfileLocation, [VarintField(LocationId, locationId), MessageField(LocationLine, LineRecord(functionId, line))])
  }

  /** The location records for the interned sites: location k + 1 points at
      function k + 1 and carries the line of that name's first site. */
  function LocationRecords(interned: seq<Site>): (r: seq<Field>)
    ensures |r| == |interned|
  {
    if interned == [] then []
    else
      var n := |interned|;
      LocationRecords(interned[..n - 1]) + [LocationRecord(n, n, interned[n - 1].line)]
  }

  function StringEntries(strings: seq<Bytes>): (r: seq<Field>)
    ensures |r| == |strings|
  {
    if strings == [] then []
    else StringEntries(strings[..|strings| - 1]) + [BytesField(ProfileStringTable, strings[|strings| - 1])]
  }

  /** The fields of `p` carrying tag `t`, in order. */
  function WithTag(p: seq<Field>, t: nat): (r: seq<Field>)
    ensures |r| <= |p|
  {
    if p == [] then []
    else WithTag(p[..|p| - 1], t) + (if p[|p| - 1].tag == t then [p[|p| - 1]] else [])
  }

  lemma WithTagAppend(p: seq<Field>, f: Field, t: nat)
    ensures WithTag(p + [f], t) == WithTag(p, t) + (if f.tag == t then [f] else [])
  {
    assert (p + [f])[..|p|] == p;
  }

  /** A sample's reference to a location: an id of an interned entry with `name`. */
  predicate LocationRefMatches(f: Field, name: Bytes, interned: seq<Site>)
  {
    f.VarintField? && f.tag == SampleLocationId && 1 <= f.value <= |interned| && interned[f.value - 1].name == name
  }

  /** The fields of one sample: its value first, then one location id per frame in
      the stack's order, each naming that frame. */
  predicate SampleFieldsMatch(fields: seq<Field>, value: int, stack: seq<Site>, interned: seq<Site>)
  {
    && |fields| == |stack| + 1
    && fields[0] == VarintField(SampleValue, value)
    && forall j :: 0 <= j < |stack| ==> LocationRefMatches(fields[j + 1], stack[j].name, interned)
  }

  predicate SampleMatches(f: Field, value: int, stack: seq<Site>, interned: seq<Site>)
  {
    f.MessageField? && f.tag == ProfileSample && SampleFieldsMatch(f.fields, value, stack, interned)
  }

  /** The sample records: one per event, in event order, each valued with the
      nanoseconds since the previous event. */
  predicate SamplesMatch(samples: seq<Field>, reader: Reader, evs: seq<Event>, n: nat, stacks: seq<seq<Site>>, interned: seq<Site>)
  {
    && n <= |evs| && |samples| == n && |stacks| == n
    && (n > 0 ==> reader.ticksPerSec != 0)
    && forall k {:trigger samples[k]} :: 0 <= k < n ==>
        SampleMatches(samples[k], SampleNanos(evs[k].time, PreviousTime(reader.startTicks, evs, k), reader.ticksPerSec) as int, stacks[k], interned)
  }

  predicate BodyTag(t: nat)
  {
    t == ProfileSample || t == ProfileLocation || t == ProfileFunction || t == ProfileStringTable
  }

  /** What the profile holds once the sites `interned` have been written: the header,
      then only strings, functions, locations and samples; its string table is the
      header's strings followed by one string per interned name, and it has one
      function and one location per interned name with ids counting up from 1. */
  predicate ProfileState(p: seq<Field>, reader: Reader, sel: Selection, interned: seq<Site>)
  {
    && |p| >= HeaderLength && p[..HeaderLength] == Header(reader, sel)
    && (forall i :: HeaderLength <= i < |p| ==> BodyTag(p[i].tag))
    && WithTag(p, ProfileStringTable) == StringEntries(HeaderStrings(sel) + Names(interned))
    && WithTag(p, ProfileFunction) == FunctionRecords(|interned|)
    && WithTag(p, ProfileLocation) == LocationRecords(interned)
  }

  /** `p` is the profile of the events `evs` whose resolved stacks are `stacks`. */
  predicate ProfileOf(p: seq<Field>, reader: Reader, sel: Selection, evs: seq<Event>, stacks: seq<seq<Site>>)
  {
    var interned := Interned(Flatten(stacks));
    && ProfileState(p, reader, sel, interned)
    && SamplesMatch(WithTag(p, ProfileSample), reader, evs, |evs|, stacks, interned)
  }

  /** `p` is a conversion of the recording for profile type `t`. */
  predicate IsConversionOf(p: seq<Field>, reader: Reader, t: string, kinds: FrameKinds)
  {
    && SelectType(t).Some?
    && var sel := SelectType(t).value;
    var evs := ReadAllEvents(reader, sel.kind);
    && ResolveEvents(reader, evs, kinds).Ok?
    && ProfileOf(p, reader, sel, evs, ResolveEvents(reader, evs, kinds).value)
  }

  // ---------------------------------------------------------------------------
  // The converter

  /** The dedup tables agree with the interned sites: both maps send the name of
      entry k to k + 1, and the counters are one past the last id handed out. */
  ghost predicate TablesAgree(interned: seq<Site>, functions: map<Bytes, int>, locations: map<Bytes, int>,
                              functionId: int, locationId: int, stringId: int)
  {
    && DistinctNames(interned)
    && functionId == |interned| + 1 && locationId == |interned| + 1 && stringId == |interned| + 4
    && IdsFollow(functions, interned)
    && IdsFollow(locations, interned)
  }

  /** A dedup table knows exactly the interned names and sends entry k's name to k + 1. */
  ghost predicate IdsFollow(table: map<Bytes, int>, interned: seq<Site>)
  {
    && (forall n :: n in table <==> n in Names(interned))
    && (forall k :: 0 <= k < |interned| ==> interned[k].name in table && table[interned[k].name] == k + 1)
  }

  lemma IdsFollowGrow(table: map<Bytes, int>, interned: seq<Site>, x: Site)
    requires IdsFollow(table, interned)
    requires forall k :: 0 <= k < |interned| ==> interned[k].name != x.name
    ensures IdsFollow(table[x.name := |interned| + 1], interned + [x])
  {
    NamesAppend(interned, x);
    var interned' := interned + [x];
    var table' := table[x.name := |interned| + 1];
    forall k | 0 <= k < |interned'|
      ensures interned'[k].name in table' && table'[interned'[k].name] == k + 1
    {
      if k < |interned| {
        assert interned'[k] == interned[k];
      }
    }
  }

  lemma LocationRefGrows(f: Field, name: Bytes, interned: seq<Site>, x: Site)
    requires LocationRefMatches(f, name, interned)
    ensures LocationRefMatches(f, name, interned + [x])
  {
  }

  /** Interning another name leaves every reference already written valid. */
  lemma SampleFieldsGrow(fields: seq<Field>, value: int, stack: seq<Site>, interned: seq<Site>, x: Site)
    requires SampleFieldsMatch(fields, value, stack, interned)
    ensures SampleFieldsMatch(fields, value, stack, interned + [x])
  {
    forall j | 0 <= j < |stack|
      ensures LocationRefMatches(fields[j + 1], stack[j].name, interned + [x])
    {
      LocationRefGrows(fields[j + 1], stack[j].name, interned, x);
    }
  }

  /** A sample extended by the location id of the entry named like the next site. */
  lemma SampleFieldsExtend(fields: seq<Field>, value: int, stack: seq<Site>, interned: seq<Site>, x: Site, id: int)
    requires SampleFieldsMatch(fields, value, stack, interned)
    requires 1 <= id <= |interned| && interned[id - 1].name == x.name
    ensures SampleFieldsMatch(fields + [VarintField(SampleLocationId, id)], value, stack + [x], interned)
  {
    var fields' := fields + [VarintField(SampleLocationId, id)];
    forall j | 0 <= j < |stack| + 1
      ensures LocationRefMatches(fields'[j + 1], (stack + [x])[j].name, interned)
    {
      if j < |stack| {
        assert fields'[j + 1] == fields[j + 1];
      }
    }
  }

  lemma SamplesMatchGrows(samples: seq<Field>, reader: Reader, evs: seq<Event>, n: nat, stacks: seq<seq<Site>>, interned: seq<Site>, x: Site)
    requires SamplesMatch(samples, reader, evs, n, stacks, interned)
    ensures SamplesMatch(samples, reader, evs, n, stacks, interned + [x])
  {
    forall k | 0 <= k < n
      ensures SampleMatches(samples[k], SampleNanos(evs[k].time, PreviousTime(reader.startTicks, evs, k), reader.ticksPerSec) as int, stacks[k], interned + [x])
    {
      SampleFieldsGrow(samples[k].fields, SampleNanos(evs[k].time, PreviousTime(reader.startTicks, evs, k), reader.ticksPerSec) as int, stacks[k], interned, x);
    }
  }

  /** The records written the first time a name is met: its string, its function
      (named by that string) and its location (pointing at that function). */
  function NewNameFields(x: Site, functionId: int, locationId: int, stringId: int): seq<Field>
  {
    FunctionFields(x.name, functionId, stringId) + [LocationRecord(locationId, functionId, x.line)]
  }

  /** The string holding a function's name and the function record naming it. */
  function FunctionFields(name: Bytes, functionId: int, stringId: int): seq<Field>
  {
    [ BytesField(ProfileStringTable, name),
      MessageField(ProfileFunction, [VarintField(FunctionId, functionId), VarintField(FunctionName, stringId)]) ]
  }

  /** Projecting three appended fields onto a tag. */
  lemma WithTagAppend3(b: seq<Field>, s: Field, f: Field, l: Field, t: nat)
    ensures WithTag(b + [s, f, l], t)
         == WithTag(b, t) + (if s.tag == t then [s] else []) + (if f.tag == t then [f] else []) + (if l.tag == t then [l] else [])
  {
    assert b + [s, f, l] == b + [s] + [f] + [l];
    WithTagAppend(b, s, t);
    WithTagAppend(b + [s], f, t);
    WithTagAppend(b + [s] + [f], l, t);
  }

  /** Solver aid: a prefix of a concatenation that lies within its first part. */
  lemma TakeOfAppend<T>(p: seq<T>, q: seq<T>, n: nat)
    requires n <= |p|
    ensures (p + q)[..n] == p[..n]
  {
  }

  lemma NamesAppend(sites: seq<Site>, x: Site)
    ensures Names(sites + [x]) == Names(sites) + [x.name]
  {
    PrefixOfAppend(sites, [x]);
  }

  lemma StringTableGrows(b: seq<Field>, s: Field, f: Field, l: Field, strings: seq<Bytes>, name: Bytes)
    requires WithTag(b, ProfileStringTable) == StringEntries(strings)
    requires s == BytesField(ProfileStringTable, name) && f.tag == ProfileFunction && l.tag == ProfileLocation
    ensures WithTag(b + [s, f, l], ProfileStringTable) == StringEntries(strings + [name])
  {
    WithTagAppend3(b, s, f, l, ProfileStringTable);
    PrefixOfAppend(strings, [name]);
  }

  lemma FunctionsGrow(b: seq<Field>, s: Field, f: Field, l: Field, n: nat)
    requires WithTag(b, ProfileFunction) == FunctionRecords(n)
    requires f == FunctionRecord(n + 1) && s.tag == ProfileStringTable && l.tag == ProfileLocation
    ensures WithTag(b + [s, f, l], ProfileFunction) == FunctionRecords(n + 1)
  {
    WithTagAppend3(b, s, f, l, ProfileFunction);
  }

  lemma LocationsGrow(b: seq<Field>, s: Field, f: Field, l: Field, interned: seq<Site>, x: Site)
    requires WithTag(b, ProfileLocation) == LocationRecords(interned)
    requires l == LocationRecord(|interned| + 1, |interned| + 1, x.line)
    requires s.tag == ProfileStringTable && f.tag == ProfileFunction
    ensures WithTag(b + [s, f, l], ProfileLocation) == LocationRecords(interned + [x])
  {
    WithTagAppend3(b, s, f, l, ProfileLocation);
    PrefixOfAppend(interned, [x]);
  }

  /** Appending fields of the body's tags keeps the profile's shape; its tables are
      whatever the projections of the longer profile are. */
  lemma ProfileStateAppend(p: seq<Field>, fields: seq<Field>, reader: Reader, sel: Selection, interned: seq<Site>, interned': seq<Site>)
    requires ProfileState(p, reader, sel, interned)
    requires forall j :: 0 <= j < |fields| ==> BodyTag(fields[j].tag)
    requires WithTag(p + fields, ProfileStringTable) == StringEntries(HeaderStrings(sel) + Names(interned'))
    requires WithTag(p + fields, ProfileFunction) == FunctionRecords(|interned'|)
    requires WithTag(p + fields, ProfileLocation) == LocationRecords(interned')
    ensures ProfileState(p + fields, reader, sel, interned')
  {
    TakeOfAppend(p, fields, HeaderLength);
    var q := p + fields;
    forall i | HeaderLength <= i < |q|
      ensures BodyTag(q[i].tag)
    {
      if i >= |p| {
        assert q[i] == fields[i - |p|];
      }
    }
  }

  /** Writing a new name: a string, a function and a location record keep the
      profile in step with the interned sites extended by that name. */
  lemma NewNameStep(p: seq<Field>, reader: Reader, sel: Selection, interned: seq<Site>, x: Site,
                    functionId: int, locationId: int, stringId: int)
    requires ProfileState(p, reader, sel, interned)
    requires functionId == locationId == |interned| + 1 && stringId == functionId + 3
    ensures ProfileState(p + NewNameFields(x, functionId, locationId, stringId), reader, sel, interned + [x])
    ensures WithTag(p + NewNameFields(x, functionId, locationId, stringId), ProfileSample) == WithTag(p, ProfileSample)
  {
    var s := BytesField(ProfileStringTable, x.name);
    var f := FunctionRecord(functionId);
    var l := LocationRecord(functionId, functionId, x.line);
    var fields := NewNameFields(x, functionId, locationId, stringId);
    assert fields == [s, f, l];
    var strings := HeaderStrings(sel) + Names(interned);
    StringTableGrows(p, s, f, l, strings, x.name);
    NamesAppend(interned, x);
    AppendAssoc(HeaderStrings(sel), Names(interned), [x.name]);
    FunctionsGrow(p, s, f, l, |interned|);
    LocationsGrow(p, s, f, l, interned, x);
    ProfileStateAppend(p, fields, reader, sel, interned, interned + [x]);
    WithTagAppend3(p, s, f, l, ProfileSample);
  }

  /** Appending a sample record adds it to the samples and keeps every other projection. */
  lemma SampleStep(p: seq<Field>, reader: Reader, sel: Selection, interned: seq<Site>, sample: seq<Field>)
    requires ProfileState(p, reader, sel, interned)
    ensures ProfileState(p + [MessageField(ProfileSample, sample)], reader, sel, interned)
    ensures WithTag(p + [MessageField(ProfileSample, sample)], ProfileSample)
         == WithTag(p, ProfileSample) + [MessageField(ProfileSample, sample)]
  {
    var f := MessageField(ProfileSample, sample);
    forall t | true
      ensures WithTag(p + [f], t) == WithTag(p, t) + (if f.tag == t then [f] else [])
    {
      WithTagAppend(p, f, t);
    }
    TakeOfAppend(p, [f], HeaderLength);
  }

  lemma WithTagPrefix(p: seq<Field>, k: nat, t: nat)
    requires k < |p|
    ensures WithTag(p[..k + 1], t) == WithTag(p[..k], t) + (if p[k].tag == t then [p[k]] else [])
  {
    assert p[..k + 1][..k] == p[..k];
  }

  /** A projection onto a tag no field carries is empty. */
  lemma {:induction false} WithTagNone(p: seq<Field>, t: nat)
    requires forall k :: 0 <= k < |p| ==> p[k].tag != t
    ensures WithTag(p, t) == []
  {
    if p != [] {
      WithTagNone(p[..|p| - 1], t);
    }
  }

  lemma StringEntriesOfFour(a: Bytes, b: Bytes, c: Bytes, d: Bytes)
    ensures StringEntries([a, b, c, d])
         == [BytesField(ProfileStringTable, a), BytesField(ProfileStringTable, b),
             BytesField(ProfileStringTable, c), BytesField(ProfileStringTable, d)]
  {
    var st := [a, b, c, d];
    assert st[..1][..0] == [];
    assert StringEntries(st[..1]) == [BytesField(ProfileStringTable, a)];
    assert st[..2][..1] == st[..1];
    assert StringEntries(st[..2]) == [BytesField(ProfileStringTable, a), BytesField(ProfileStringTable, b)];
    assert st[..3][..2] == st[..2];
    assert StringEntries(st[..3]) == [BytesField(ProfileStringTable, a), BytesField(ProfileStringTable, b), BytesField(ProfileStringTable, c)];
    assert st[..3] == st[..|st| - 1];
  }

  /** The string-table fields of the header are its four strings, in order. */
  lemma HeaderStringFields(reader: Reader, sel: Selection)
    ensures var h := Header(reader, sel);
      WithTag(h, ProfileStringTable) == [h[3], h[4], h[6], h[7]]
  {
    var h := Header(reader, sel);
    var t := ProfileStringTable;
    WithTagNone(h[..3], t);
    WithTagPrefix(h, 3, t);
    WithTagPrefix(h, 4, t);
    WithTagPrefix(h, 5, t);
    WithTagPrefix(h, 6, t);
    WithTagPrefix(h, 7, t);
    WithTagPrefix(h, 8, t);
    WithTagPrefix(h, 9, t);
    assert h[..HeaderLength] == h;
  }

  /** The header's strings are the first entries of the string table, and the header
      holds no function, location or sample. */
  lemma HeaderProjections(reader: Reader, sel: Selection)
    ensures WithTag(Header(reader, sel), ProfileStringTable) == StringEntries(HeaderStrings(sel))
    ensures WithTag(Header(reader, sel), ProfileFunction) == []
    ensures WithTag(Header(reader, sel), ProfileLocation) == []
    ensures WithTag(Header(reader, sel), ProfileSample) == []
  {
    var h := Header(reader, sel);
    WithTagNone(h, ProfileFunction);
    WithTagNone(h, ProfileLocation);
    WithTagNone(h, ProfileSample);
    HeaderStringFields(reader, sel);
    StringEntriesOfFour([], AsyncProfiler, sel.valueType, sel.valueUnit);
  }

  /** The state of the conversion while the frames of event `i` are written, the
      events before `i` having resolved to `stacks` and the frames so far of event
      `i` to `stack`: the dedup tables and the profile are in step with the names
      interned from all of those sites, and there is one sample per event before `i`. */
  ghost predicate Converting(reader: Reader, sel: Selection, evs: seq<Event>, i: nat,
                             stacks: seq<seq<Site>>, stack: seq<Site>, interned: seq<Site>,
                             functions: map<Bytes, int>, locations: map<Bytes, int>,
                             functionId: int, locationId: int, stringId: int, profile: seq<Field>)
  {
    && i <= |evs|
    && interned == Interned(Flatten(stacks) + stack)
    && TablesAgree(interned, functions, locations, functionId, locationId, stringId)
    && ProfileState(profile, reader, sel, interned)
    && SamplesMatch(WithTag(profile, ProfileSample), reader, evs, i, stacks, interned)
  }

  /** Both dedup tables know the same names. */
  lemma TablesSameKeys(interned: seq<Site>, functions: map<Bytes, int>, locations: map<Bytes, int>,
                       functionId: int, locationId: int, stringId: int, name: Bytes)
    requires TablesAgree(interned, functions, locations, functionId, locationId, stringId)
    ensures name in functions <==> name in locations
  {
  }

  /** Handing the next ids to a name not seen before keeps the tables in step. */
  lemma TablesGrow(interned: seq<Site>, functions: map<Bytes, int>, locations: map<Bytes, int>,
                   functionId: int, locationId: int, stringId: int, x: Site)
    requires TablesAgree(interned, functions, locations, functionId, locationId, stringId)
    requires x.name !in Names(interned)
    ensures TablesAgree(interned + [x], functions[x.name := functionId], locations[x.name := locationId],
                        functionId + 1, locationId + 1, stringId + 1)
  {
    var interned' := interned + [x];
    forall k | 0 <= k < |interned|
      ensures interned[k].name != x.name
    {
      assert Names(interned)[k] == interned[k].name;
    }
    forall a, b | 0 <= a < b < |interned'|
      ensures interned'[a].name != interned'[b].name
    {
      assert interned'[a] == interned[a];
    }
    IdsFollowGrow(functions, interned, x);
    IdsFollowGrow(locations, interned, x);
  }

  /** The header alone is the state before the first event. */
  lemma ConvertingStart(reader: Reader, sel: Selection, evs: seq<Event>, profile: seq<Field>)
    requires profile == Header(reader, sel)
    ensures Converting(reader, sel, evs, 0, [], [], [], map[], map[], 1, 1, 4, profile)
  {
    assert profile[..HeaderLength] == profile;
    HeaderProjections(reader, sel);
    assert HeaderStrings(sel) + Names([]) == HeaderStrings(sel);
    assert Interned(Flatten([]) + []) == [];
  }

  /** Writing a frame whose name is new: the name gets the next string, function and
      location, and the sample refers to that location. */
  lemma NewFrameStep(reader: Reader, sel: Selection, evs: seq<Event>, i: nat,
                     stacks: seq<seq<Site>>, stack: seq<Site>, interned: seq<Site>,
                     functions: map<Bytes, int>, locations: map<Bytes, int>,
                     functionId: int, locationId: int, stringId: int, profile: seq<Field>,
                     sample: seq<Field>, value: int, site: Site)
    requires Converting(reader, sel, evs, i, stacks, stack, interned, functions, locations, functionId, locationId, stringId, profile)
    requires SampleFieldsMatch(sample, value, stack, interned)
    requires site.name !in functions
    ensures Converting(reader, sel, evs, i, stacks, stack + [site], interned + [site],
                       functions[site.name := functionId], locations[site.name := locationId],
                       functionId + 1, locationId + 1, stringId + 1, profile + NewNameFields(site, functionId, locationId, stringId))
    ensures SampleFieldsMatch(sample + [VarintField(SampleLocationId, locationId)], value, stack + [site], interned + [site])
  {
    var flat := Flatten(stacks) + stack;
    PrefixOfAppend(flat, [site]);
    AppendAssoc(Flatten(stacks), stack, [site]);
    assert site.name !in Names(interned);
    assert Interned(Flatten(stacks) + (stack + [site])) == interned + [site];
    TablesGrow(interned, functions, locations, functionId, locationId, stringId, site);
    var profile' := profile + NewNameFields(site, functionId, locationId, stringId);
    NewNameStep(profile, reader, sel, interned, site, functionId, locationId, stringId);
    SamplesMatchGrows(WithTag(profile, ProfileSample), reader, evs, i, stacks, interned, site);
    assert SamplesMatch(WithTag(profile', ProfileSample), reader, evs, i, stacks, interned + [site]);
    SampleFieldsGrow(sample, value, stack, interned, site);
    SampleFieldsExtend(sample, value, stack, interned + [site], site, locationId);
  }

  /** Writing a frame whose name is known: nothing is added to the profile and the
      sample refers to the location interned for that name. */
  lemma KnownFrameStep(reader: Reader, sel: Selection, evs: seq<Event>, i: nat,
                       stacks: seq<seq<Site>>, stack: seq<Site>, interned: seq<Site>,
                       functions: map<Bytes, int>, locations: map<Bytes, int>,
                       functionId: int, locationId: int, stringId: int, profile: seq<Field>,
                       sample: seq<Field>, value: int, site: Site)
    requires Converting(reader, sel, evs, i, stacks, stack, interned, functions, locations, functionId, locationId, stringId, profile)
    requires SampleFieldsMatch(sample, value, stack, interned)
    requires site.name in functions
    ensures site.name in locations
    ensures Converting(reader, sel, evs, i, stacks, stack + [site], interned, functions, locations,
                       functionId, locationId, stringId, profile)
    ensures SampleFieldsMatch(sample + [VarintField(SampleLocationId, locations[site.name])], value, stack + [site], interned)
  {
    var flat := Flatten(stacks) + stack;
    PrefixOfAppend(flat, [site]);
    AppendAssoc(Flatten(stacks), stack, [site]);
    assert site.name in Names(interned);
    assert Interned(Flatten(stacks) + (stack + [site])) == interned;
    var k :| 0 <= k < |interned| && interned[k].name == site.name;
    assert locations[site.name] == k + 1;
    SampleFieldsExtend(sample, value, stack, interned, site, k + 1);
  }

  lemma FlattenAppend(stacks: seq<seq<Site>>, stack: seq<Site>)
    ensures Flatten(stacks + [stack]) + [] == Flatten(stacks) + stack
  {
    PrefixOfAppend(stacks, [stack]);
  }

  lemma ResolveEventsAppend(reader: Reader, evs: seq<Event>, i: nat, kinds: FrameKinds, stacks: seq<seq<Site>>, stack: seq<Site>)
    requires i < |evs|
    requires ResolveEvents(reader, evs[..i], kinds) == Ok(stacks)
    requires EventSites(reader, evs[i], kinds) == Ok(stack)
    ensures ResolveEvents(reader, evs[..i + 1], kinds) == Ok(stacks + [stack])
  {
    assert evs[..i + 1][..i] == evs[..i];
  }

  /** One more sample record, matching event `i`, extends the matching prefix. */
  lemma SamplesMatchAppend(samples: seq<Field>, reader: Reader, evs: seq<Event>, i: nat, stacks: seq<seq<Site>>,
                           interned: seq<Site>, f: Field, stack: seq<Site>)
    requires SamplesMatch(samples, reader, evs, i, stacks, interned)
    requires i < |evs| && reader.ticksPerSec != 0
    requires SampleMatches(f, SampleNanos(evs[i].time, PreviousTime(reader.startTicks, evs, i), reader.ticksPerSec) as int, stack, interned)
    ensures SamplesMatch(samples + [f], reader, evs, i + 1, stacks + [stack], interned)
  {
    var samples' := samples + [f];
    forall k | 0 <= k < i + 1
      ensures SampleMatches(samples'[k], SampleNanos(evs[k].time, PreviousTime(reader.startTicks, evs, k), reader.ticksPerSec) as int, (stacks + [stack])[k], interned)
    {
      if k < i {
        assert samples'[k] == samples[k];
      }
    }
  }

  /** Writing the sample of event `i` closes that event. */
  lemma EventStep(reader: Reader, sel: Selection, evs: seq<Event>, i: nat,
                  stacks: seq<seq<Site>>, stack: seq<Site>, interned: seq<Site>,
                  functions: map<Bytes, int>, locations: map<Bytes, int>,
                  functionId: int, locationId: int, stringId: int, profile: seq<Field>, sample: seq<Field>)
    requires i < |evs| && reader.ticksPerSec != 0
    requires Converting(reader, sel, evs, i, stacks, stack, interned, functions, locations, functionId, locationId, stringId, profile)
    requires SampleFieldsMatch(sample, SampleNanos(evs[i].time, PreviousTime(reader.startTicks, evs, i), reader.ticksPerSec) as int, stack, interned)
    ensures Converting(reader, sel, evs, i + 1, stacks + [stack], [], interned, functions, locations,
                       functionId, locationId, stringId, profile + [MessageField(ProfileSample, sample)])
  {
    FlattenAppend(stacks, stack);
    SampleStep(profile, reader, sel, interned, sample);
    SamplesMatchAppend(WithTag(profile, ProfileSample), reader, evs, i, stacks, interned, MessageField(ProfileSample, sample), stack);
  }

  /** The next frame resolved extends the resolved stack by its site. */
  lemma FrameResolves(reader: Reader, frames: seq<Frame>, current: nat, kinds: FrameKinds, stack: seq<Site>, name: Bytes)
    requires current < |frames| && ResolveFrames(reader, frames[..current], kinds) == Ok(stack)
    requires GetMethodName(reader, frames[current].methodId, frames[current].kind, kinds) == Ok(name)
    ensures ResolveFrames(reader, frames[..current + 1], kinds) == Ok(stack + [Site(name, LineOf(frames[current].location))])
  {
    assert frames[..current + 1][..current] == frames[..current];
  }

  /** An event that cannot be processed fails the resolution of the events up to it. */
  lemma EventFails(reader: Reader, evs: seq<Event>, i: nat, kinds: FrameKinds, stacks: seq<seq<Site>>)
    requires i < |evs| && ResolveEvents(reader, evs[..i], kinds) == Ok(stacks)
    requires EventSites(reader, evs[i], kinds).Failed?
    ensures ResolveEvents(reader, evs[..i + 1], kinds) == Failed(EventSites(reader, evs[i], kinds).error)
  {
    var prefix := evs[..i + 1];
    assert prefix[..|prefix| - 1] == evs[..i];
    assert prefix[|prefix| - 1] == evs[i];
  }

  /** A frame that cannot be resolved fails the resolution of its whole stack. */
  lemma FramesFailAt(reader: Reader, frames: seq<Frame>, current: nat, kinds: FrameKinds, stack: seq<Site>)
    requires current < |frames| && ResolveFrames(reader, frames[..current], kinds) == Ok(stack)
    requires GetMethodName(reader, frames[current].methodId, frames[current].kind, kinds).Failed?
    ensures ResolveFrames(reader, frames, kinds) == Failed(GetMethodName(reader, frames[current].methodId, frames[current].kind, kinds).error)
  {
    var prefix := frames[..current + 1];
    assert prefix[..|prefix| - 1] == frames[..current];
    assert prefix[|prefix| - 1] == frames[current];
    FramesFailurePersists(reader, frames, current + 1, kinds);
  }

  /** After the last event, the profile is the conversion of the recording. */
  lemma ConvertingDone(reader: Reader, sel: Selection, evs: seq<Event>,
                       stacks: seq<seq<Site>>, interned: seq<Site>,
                       functions: map<Bytes, int>, locations: map<Bytes, int>,
                       functionId: int, locationId: int, stringId: int, profile: seq<Field>)
    requires Converting(reader, sel, evs, |evs|, stacks, [], interned, functions, locations, functionId, locationId, stringId, profile)
    ensures ProfileOf(profile, reader, sel, evs, stacks)
  {
    assert Flatten(stacks) + [] == Flatten(stacks);
  }

  /** One frame of the converter's inner loop, once its name and line are known: a
      name missing from the function table gets the next function id, its string and
      its function record; a name missing from the location table gets the next
      location id and a location record pointing at the name's function. */
  method InternFrame(functions: map<Bytes, int>, locations: map<Bytes, int>,
                     functionId: int, locationId: int, stringId: int, profile: seq<Field>,
                     methodName: Bytes, line: int)
    returns (functions': map<Bytes, int>, locations': map<Bytes, int>,
             functionId': int, locationId': int, stringId': int, profile': seq<Field>)
    ensures methodName !in functions ==>
      functions' == functions[methodName := functionId] && functionId' == functionId + 1 && stringId' == stringId + 1
    ensures methodName in functions ==>
      functions' == functions && functionId' == functionId && stringId' == stringId
    ensures methodName !in locations ==>
      locations' == locations[methodName := locationId] && locationId' == locationId + 1
    ensures methodName in locations ==> locations' == locations && locationId' == locationId
    ensures profile' == profile
      + (if methodName !in functions then FunctionFields(methodName, functionId, stringId) else [])
      + (if methodName !in locations then [LocationRecord(locationId, functions'[methodName], line)] else [])
    ensures methodName !in functions && methodName !in locations ==>
      profile' == profile + NewNameFields(Site(methodName, line), functionId, locationId, stringId)
    ensures methodName in functions && methodName in locations ==> profile' == profile
  {
    functions', locations', functionId', locationId', stringId', profile' := functions, locations, functionId, locationId, stringId, profile;
    if methodName !in functions' {
      var funcId := functionId';
      functionId' := functionId' + 1;
      profile' := profile' + [BytesField(ProfileStringTable, methodName)];
      var func := [VarintField(FunctionId, funcId), VarintField(FunctionName, stringId')];
      stringId' := stringId' + 1;
      profile' := profile' + [MessageField(ProfileFunction, func)];
      functions' := functions'[methodName := funcId];
      assert profile' == profile + FunctionFields(methodName, funcId, stringId);
    }
    if methodName !in locations' {
      var locId := locationId';
      locationId' := locationId' + 1;
      var locLine := [VarintField(LineFunctionId, functions'[methodName])];
      if line > 0 {
        locLine := locLine + [VarintField(LineLine, line)];
      }
      assert locLine == LineRecord(functions'[methodName], line);
      var location := [VarintField(LocationId, locId), MessageField(LocationLine, locLine)];
      assert MessageField(ProfileLocation, location) == LocationRecord(locId, functions'[methodName], line);
      profile' := profile' + [MessageField(ProfileLocation, location)];
      locations' := locations'[methodName := locId];
    }
  }

  /** The body of the converter's frame loop once the frame's name and line are
      known: the name is interned and the sample gets its location id, keeping the
      tables and the profile in step with the sites seen so far. */
  method WriteFrame(ghost reader: Reader, ghost sel: Selection, ghost evs: seq<Event>, ghost i: nat,
                    ghost stacks: seq<seq<Site>>, ghost stack: seq<Site>, ghost interned: seq<Site>,
                    functions: map<Bytes, int>, locations: map<Bytes, int>,
                    functionId: int, locationId: int, stringId: int, profile: seq<Field>,
                    sample: seq<Field>, ghost value: int, methodName: Bytes, line: int)
    returns (functions': map<Bytes, int>, locations': map<Bytes, int>,
             functionId': int, locationId': int, stringId': int, profile': seq<Field>,
             sample': seq<Field>, ghost interned': seq<Site>)
    requires Converting(reader, sel, evs, i, stacks, stack, interned, functions, locations, functionId, locationId, stringId, profile)
    requires SampleFieldsMatch(sample, value, stack, interned)
    ensures Converting(reader, sel, evs, i, stacks, stack + [Site(methodName, line)], interned',
                       functions', locations', functionId', locationId', stringId', profile')
    ensures SampleFieldsMatch(sample', value, stack + [Site(methodName, line)], interned')
  {
    var site := Site(methodName, line);
    TablesSameKeys(interned, functions, locations, functionId, locationId, stringId, methodName);
    functions', locations', functionId', locationId', stringId', profile' :=
      InternFrame(functions, locations, functionId, locationId, stringId, profile, methodName, line);
    if methodName !in functions {
      NewFrameStep(reader, sel, evs, i, stacks, stack, interned, functions, locations, functionId, locationId, stringId, profile,
                   sample, value, site);
      interned' := interned + [site];
    } else {
      KnownFrameStep(reader, sel, evs, i, stacks, stack, interned, functions, locations, functionId, locationId, stringId, profile,
                     sample, value, site);
      interned' := interned;
    }
    sample' := sample + [VarintField(SampleLocationId, locations'[methodName])];
  }

  /** The start of the profile: its time, duration and default sample type, the
      empty string and the comment string, and the sample and period types. Returns
      the profile and the next free string index. */
  method WriteHeader(reader: Reader, sel: Selection) returns (profile: seq<Field>, stringId: int)
    ensures profile == Header(reader, sel)
    ensures stringId == |HeaderStrings(sel)|
  {
    stringId := 1;
    profile := [
      VarintField(ProfileTimeNanos, reader.startNanos as int),
      VarintField(ProfileDurationNanos, reader.durationNanos as int),
      VarintField(ProfileDefaultSampleType, 0),
      BytesField(ProfileStringTable, []),
      BytesField(ProfileStringTable, AsyncProfiler),
      VarintField(ProfileComment, stringId)];
    stringId := stringId + 1;

    var sampleType: seq<Field> := [];
    profile := profile + [BytesField(ProfileStringTable, sel.valueType)];
    sampleType := sampleType + [VarintField(ValueTypeType, stringId)];
    stringId := stringId + 1;
    profile := profile + [BytesField(ProfileStringTable, sel.valueUnit)];
    sampleType := sampleType + [VarintField(ValueTypeUnit, stringId)];
    stringId := stringId + 1;
    assert sampleType == SampleTypeFields();
    profile := profile + [MessageField(ProfileSampleType, sampleType)];
    profile := profile + [MessageField(ProfilePeriodType, sampleType)];
    assert forall k :: 0 <= k < HeaderLength ==> profile[k] == Header(reader, sel)[k];
  }

  /** The body of the converter's event loop for event `i`: the delta since the
      previous event, then one location id per frame of its stack trace. Returns the
      failure the event throws, or the state after its sample is written. */
  method WriteEvent(reader: Reader, kinds: FrameKinds, ghost sel: Selection, samples: seq<Event>, i: nat,
                    ghost stacks: seq<seq<Site>>, ghost interned: seq<Site>,
                    functions: map<Bytes, int>, locations: map<Bytes, int>,
                    functionId: int, locationId: int, stringId: int, profile: seq<Field>, previousTime: int64)
    returns (failure: Option<Failure>, functions': map<Bytes, int>, locations': map<Bytes, int>,
             functionId': int, locationId': int, stringId': int, profile': seq<Field>,
             ghost stacks': seq<seq<Site>>, ghost interned': seq<Site>)
    requires i < |samples| && ResolveEvents(reader, samples[..i], kinds) == Ok(stacks)
    requires Converting(reader, sel, samples, i, stacks, [], interned, functions, locations, functionId, locationId, stringId, profile)
    requires previousTime == PreviousTime(reader.startTicks, samples, i)
    ensures failure.Some? ==> ResolveEvents(reader, samples[..i + 1], kinds) == Failed(failure.value)
    ensures failure.None? ==> ResolveEvents(reader, samples[..i + 1], kinds) == Ok(stacks')
    ensures failure.None? ==>
      Converting(reader, sel, samples, i + 1, stacks', [], interned', functions', locations', functionId', locationId', stringId', profile')
  {
    functions', locations', functionId', locationId', stringId', profile' := functions, locations, functionId, locationId, stringId, profile;
    interned' := interned;
    stacks' := stacks;
    var event := samples[i];
    if event.stackTraceId !in reader.stackTraces {
      EventFails(reader, samples, i, kinds, stacks);
      return Some(MissingStackTrace(event.stackTraceId)), functions', locations', functionId', locationId', stringId', profile', stacks', interned';
    }
    var frames := reader.stackTraces[event.stackTraceId].frames;
    if reader.ticksPerSec == 0 {
      EventFails(reader, samples, i, kinds, stacks);
      return Some(DivisionByZero), functions', locations', functionId', locationId', stringId', profile', stacks', interned';
    }
    ghost var stack: seq<Site> := [];
    var nanosSinceLastSample := SampleNanos(event.time, previousTime, reader.ticksPerSec);
    var sample := [VarintField(SampleValue, nanosSinceLastSample as int)];

    var current := 0;
    while current < |frames|
      invariant 0 <= current <= |frames|
      invariant ResolveFrames(reader, frames[..current], kinds) == Ok(stack)
      invariant Converting(reader, sel, samples, i, stacks, stack, interned', functions', locations', functionId', locationId', stringId', profile')
      invariant SampleFieldsMatch(sample, nanosSinceLastSample as int, stack, interned')
    {
      var frame := frames[current];
      var name := GetMethodName(reader, frame.methodId, frame.kind, kinds);
      if name.Failed? {
        FramesFailAt(reader, frames, current, kinds, stack);
        EventFails(reader, samples, i, kinds, stacks);
        return Some(name.error), functions', locations', functionId', locationId', stringId', profile', stacks', interned';
      }
      var methodName := name.value;
      var line := LineOf(frame.location);
      FrameResolves(reader, frames, current, kinds, stack, methodName);
      functions', locations', functionId', locationId', stringId', profile', sample, interned' :=
        WriteFrame(reader, sel, samples, i, stacks, stack, interned', functions', locations', functionId', locationId', stringId', profile',
                   sample, nanosSinceLastSample as int, methodName, line);
      stack := stack + [Site(methodName, line)];
      current := current + 1;
    }
    assert frames[..|frames|] == frames;
    ResolveEventsAppend(reader, samples, i, kinds, stacks, stack);
    EventStep(reader, sel, samples, i, stacks, stack, interned', functions', locations', functionId', locationId', stringId', profile', sample);
    profile' := profile' + [MessageField(ProfileSample, sample)];
    stacks' := stacks + [stack];
    failure := None;
  }

  /** The converter's event loop: writes every event of `samples` in turn, starting
      the dedup tables empty and the ids at 1, and stops at the first event that
      throws. On success the profile is the profile of all the events. */
  method WriteSamples(reader: Reader, kinds: FrameKinds, ghost sel: Selection, samples: seq<Event>, profile: seq<Field>, stringId: int)
    returns (failure: Option<Failure>, profile': seq<Field>, ghost stacks: seq<seq<Site>>, ghost interned: seq<Site>)
    requires Converting(reader, sel, samples, 0, [], [], [], map[], map[], 1, 1, stringId, profile)
    ensures failure.Some? ==> ResolveEvents(reader, samples, kinds) == Failed(failure.value)
    ensures failure.None? ==> ResolveEvents(reader, samples, kinds) == Ok(stacks) && ProfileOf(profile', reader, sel, samples, stacks)
  {
    // Dedup tables keyed on the frame's display name, and the counters handing out ids from 1
    var functions: map<Bytes, int> := map[];
    var locations: map<Bytes, int> := map[];
    var functionId := 1;
    var locationId := 1;
    var stringId := stringId;
    profile' := profile;
    var previousTime := reader.startTicks;
    stacks := [];
    interned := [];
    assert samples[..0] == [];
    var i := 0;
    while i < |samples|
      invariant 0 <= i <= |samples|
      invariant ResolveEvents(reader, samples[..i], kinds) == Ok(stacks)
      invariant Converting(reader, sel, samples, i, stacks, [], interned, functions, locations, functionId, locationId, stringId, profile')
      invariant previousTime == PreviousTime(reader.startTicks, samples, i)
    {
      failure, functions, locations, functionId, locationId, stringId, profile', stacks, interned :=
        WriteEvent(reader, kinds, sel, samples, i, stacks, interned, functions, locations, functionId, locationId, stringId, profile', previousTime);
      if failure.Some? {
        EventsFailurePersists(reader, samples, i + 1, kinds);
        return;
      }
      previousTime := samples[i].time;
      i := i + 1;
    }
    assert samples[..i] == samples;
    ConvertingDone(reader, sel, samples, stacks, interned, functions, locations, functionId, locationId, stringId, profile');
    failure := None;
  }

  /** `Convert`: writes the header, then for each selected event in order interns the
      display name of every frame (a string, a function and a location the first time
      a name is seen) and writes one sample of location ids, valued with the
      nanoseconds elapsed since the previous event. The result is the profile written
      to the output stream, or why the conversion threw. */
  method Convert(reader: Reader, t: string, kinds: FrameKinds) returns (r: Result<seq<Field>, Failure>)
    ensures ConversionFailure(reader, t, kinds).Some? ==> r == Failed(ConversionFailure(reader, t, kinds).value)
    ensures ConversionFailure(reader, t, kinds).None? ==> r.Ok? && IsConversionOf(r.value, reader, t, kinds)
  {
    var selection := SelectType(t);
    if selection.None? {
      return Failed(UnknownType);
    }
    var sel := selection.value;
    var profile, stringId := WriteHeader(reader, sel);

    var samples := ReadAllEvents(reader, sel.kind);
    ConvertingStart(reader, sel, samples, profile);
    var failure;
    ghost var stacks, interned;
    failure, profile, stacks, interned := WriteSamples(reader, kinds, sel, samples, profile, stringId);
    if failure.Some? {
      return Failed(failure.value);
    }
    return Ok(profile);
  }
}
