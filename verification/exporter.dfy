/** The upload of a snapshot to the collector (PyroscopeExporter): the request URL,
    the optional bearer token, the body framing with its compression decision, and
    the retry loop. HTTP, gzip and sleeping are outside the model: each attempt's
    response, and what gzip produces, are given as values. */
module Exporter {
  import opened Common
  import opened Http
  import opened Agent

  // ---------------------------------------------------------------------------
  // Compression

  /** `Deflater.NO_COMPRESSION`. */
  const NoCompression: int := 0

  /** What the gzip stream produces for some data: the compressed bytes, or the
      `IOException` it throws. */
  datatype GzipOutcome = Gzipped(bytes: Bytes) | GzipFailed

  /** A request body: its bytes and whether it is marked `application/gzip`. */
  datatype Payload = Payload(content: Bytes, gzip: bool)

  /** `compress`: the data as it is when it is empty, when the level is
      NO_COMPRESSION or when gzip fails; otherwise the gzip output, marked as such. */
  function Compress(data: Bytes, level: int, gz: GzipOutcome): (r: Payload)
    ensures r.gzip <==> |data| > 0 && level != NoCompression && gz.Gzipped?
    ensures !r.gzip ==> r.content == data
    ensures r.gzip ==> r.content == gz.bytes
  {
    if |data| == 0 || level == NoCompression then Payload(data, false)
    else
      match gz
      case GzipFailed => Payload(data, false)
      case Gzipped(compressed) => Payload(compressed, true)
  }

  /** What the receiver reads from a payload, `inflated` being what gunzip gives for
      its content. */
  function Received(p: Payload, inflated: Bytes): Bytes
  {
    if p.gzip then inflated else p.content
  }

  /** Whatever `compress` decides, the receiver reads the original data back,
      provided gunzip inverts gzip. */
  lemma CompressRoundTrip(data: Bytes, level: int, gz: GzipOutcome, inflated: Bytes)
    requires gz.Gzipped? ==> inflated == data
    ensures Received(Compress(data, level, gz), inflated) == data
  {
  }

  // ---------------------------------------------------------------------------
  // The request body

  /** One form-data part: its name, its file name and its content. */
  datatype Part = Part(name: string, filename: string, body: Payload)

  datatype RequestBody = Multipart(parts: seq<Part>) | Raw(content: Bytes)

  const JfrPart: string := "jfr"
  const LabelsPart: string := "labels"

  /** The body of each upload attempt: for the JFR format a form with the compressed
      recording and, when there are any, the compressed labels; for any other format
      the snapshot's data as it is. */
  function BodyFor(config: Config, snapshot: Snapshot, gzData: GzipOutcome, gzLabels: GzipOutcome): (b: RequestBody)
    ensures b.Multipart? <==> config.format == Jfr
    ensures b.Raw? ==> b.content == snapshot.data
    ensures b.Multipart? ==>
      && |b.parts| == (if |snapshot.labels| > 0 then 2 else 1)
      && b.parts[0] == Part(JfrPart, JfrPart, Compress(snapshot.data, config.compressionLevelJfr, gzData))
      && (|b.parts| == 2 ==> b.parts[1] == Part(LabelsPart, LabelsPart, Compress(snapshot.labels, config.compressionLevelLabels, gzLabels)))
  {
    if config.format == Jfr then
      var jfr := Part(JfrPart, JfrPart, Compress(snapshot.data, config.compressionLevelJfr, gzData));
      if |snapshot.labels| > 0 then
        Multipart([jfr, Part(LabelsPart, LabelsPart, Compress(snapshot.labels, config.compressionLevelLabels, gzLabels))])
      else
        Multipart([jfr])
    else
      Raw(snapshot.data)
  }

  /** The content of the first part named `name`, as the receiver reads it. */
  function PartContent(parts: seq<Part>, name: string, inflated: Bytes): Option<Bytes>
  {
    if parts == [] then None
    else if parts[0].name == name then Some(Received(parts[0].body, inflated))
    else PartContent(parts[1..], name, inflated)
  }

  /** The collector reads back the recording and the labels from a JFR upload (a
      missing labels part meaning no labels), and the data itself from any other
      upload, provided gunzip inverts gzip. */
  lemma BodyRoundTrip(config: Config, snapshot: Snapshot, gzData: GzipOutcome, gzLabels: GzipOutcome,
                      inflatedData: Bytes, inflatedLabels: Bytes)
    requires gzData.Gzipped? ==> inflatedData == snapshot.data
    requires gzLabels.Gzipped? ==> inflatedLabels == snapshot.labels
    ensures var b := BodyFor(config, snapshot, gzData, gzLabels);
      && (b.Raw? ==> b.content == snapshot.data)
      && (b.Multipart? ==> PartContent(b.parts, JfrPart, inflatedData) == Some(snapshot.data))
      && (b.Multipart? ==>
            PartContent(b.parts, LabelsPart, inflatedLabels) == (if |snapshot.labels| > 0 then Some(snapshot.labels) else None))
  {
    var b := BodyFor(config, snapshot, gzData, gzLabels);
    if b.Multipart? {
      CompressRoundTrip(snapshot.data, config.compressionLevelJfr, gzData, inflatedData);
      CompressRoundTrip(snapshot.labels, config.compressionLevelLabels, gzLabels, inflatedLabels);
      assert b.parts[0].name != LabelsPart;
      if |snapshot.labels| > 0 {
        assert b.parts[1..][0] == b.parts[1];
      } else {
        assert b.parts[1..] == [];
      }
    }
  }

  // ---------------------------------------------------------------------------
  // The authorization header

  datatype Header = Header(name: string, value: string)

  const Authorization: string := "Authorization"
  const Bearer: string := "Bearer "

  /** The headers added for the configured token: an Authorization header carrying
      "Bearer " and the token when there is a non-empty token, none otherwise. */
  function AuthHeaders(token: Option<string>): (hs: seq<Header>)
    ensures |hs| <= 1
    ensures |hs| == 1 <==> token.Some? && |token.value| > 0
    ensures |hs| == 1 ==> hs[0].name == Authorization && |hs[0].value| == |Bearer| + |token.value|
  {
    if token.Some? && |token.value| > 0 then [Header(Authorization, Bearer + token.value)] else []
  }

  /** How a server reads a bearer token out of an Authorization value. */
  function BearerToken(value: string): Option<string>
  {
    if |value| > |Bearer| && value[..|Bearer|] == Bearer then Some(value[|Bearer|..]) else None
  }

  /** The header sent carries exactly the configured token. */
  lemma AuthRoundTrip(token: Option<string>)
    requires token.Some? && |token.value| > 0
    ensures BearerToken(AuthHeaders(token)[0].value) == token
  {
    var v := Bearer + token.value;
    assert v[..|Bearer|] == Bearer;
    assert v[|Bearer|..] == token.value;
  }

  // ---------------------------------------------------------------------------
  // The URL

  datatype QueryParam = QueryParam(key: string, value: string)

  /** The collector's address, the path segments appended to it and the query. */
  datatype Url = Url(address: string, path: seq<string>, query: seq<QueryParam>)

  const IngestSegment: string := "ingest"

  /** `urlForSnapshot`: the ingest endpoint with the series name, units, aggregation,
      sample rate, window and agent name, plus the format marker for JFR uploads.
      The series name, the sample rate and the agent name come from collaborators
      and are given. */
  function UrlForSnapshot(config: Config, snapshot: Snapshot, seriesName: string, sampleRate: int64, spyName: string): (u: Url)
    ensures u.address == config.serverAddress && u.path == [IngestSegment]
    ensures |u.query| == (if config.format == Jfr then 8 else 7)
  {
    var finished := Plus(snapshot.started, config.uploadInterval);
    var query := [
      QueryParam("name", seriesName),
      QueryParam("units", snapshot.eventType.unitsId),
      QueryParam("aggregationType", snapshot.eventType.aggregationTypeId),
      QueryParam("sampleRate", DecimalString(sampleRate as int)),
      QueryParam("from", DecimalString(snapshot.started.epochSecond)),
      QueryParam("until", DecimalString(finished.epochSecond)),
      QueryParam("spyName", spyName)];
    Url(config.serverAddress, [IngestSegment], if config.format == Jfr then query + [QueryParam("format", FormatId(Jfr))] else query)
  }

  function Keys(query: seq<QueryParam>): (keys: seq<string>)
    ensures |keys| == |query| && forall i :: 0 <= i < |query| ==> keys[i] == query[i].key
  {
    if query == [] then [] else [query[0].key] + Keys(query[1..])
  }

  /** The value of the first parameter named `key`. */
  function Lookup(query: seq<QueryParam>, key: string): Option<string>
  {
    if query == [] then None
    else if query[0].key == key then Some(query[0].value)
    else Lookup(query[1..], key)
  }

  /** The parameter found is the first one with the key. */
  lemma {:induction false} LookupFirst(query: seq<QueryParam>, key: string, k: nat)
    requires k <= |query| && forall j :: 0 <= j < k ==> query[j].key != key
    ensures Lookup(query, key) == if k < |query| && query[k].key == key then Some(query[k].value) else Lookup(query[k..], key)
  {
    if k > 0 {
      LookupFirst(query[1..], key, k - 1);
      assert query[1..][k - 1..] == query[k..];
    } else {
      assert query[0..] == query;
    }
  }

  /** The parameters come in the fixed order, the format marker last and only for JFR. */
  lemma UrlKeys(config: Config, snapshot: Snapshot, seriesName: string, sampleRate: int64, spyName: string)
    ensures var u := UrlForSnapshot(config, snapshot, seriesName, sampleRate, spyName);
      Keys(u.query) == ["name", "units", "aggregationType", "sampleRate", "from", "until", "spyName"]
                       + (if config.format == Jfr then ["format"] else [])
  {
    var q := UrlForSnapshot(config, snapshot, seriesName, sampleRate, spyName).query;
    var expected := ["name", "units", "aggregationType", "sampleRate", "from", "until", "spyName"]
                    + (if config.format == Jfr then ["format"] else []);
    assert forall i :: 0 <= i < |q| ==> Keys(q)[i] == expected[i];
  }

  /** Reading the query back gives the series, the event type's units and
      aggregation, the agent name, and the JFR marker exactly for JFR uploads. */
  lemma UrlNames(config: Config, snapshot: Snapshot, seriesName: string, sampleRate: int64, spyName: string)
    ensures var q := UrlForSnapshot(config, snapshot, seriesName, sampleRate, spyName).query;
      && Lookup(q, "name") == Some(seriesName)
      && Lookup(q, "units") == Some(snapshot.eventType.unitsId)
      && Lookup(q, "aggregationType") == Some(snapshot.eventType.aggregationTypeId)
      && Lookup(q, "spyName") == Some(spyName)
      && (Lookup(q, "format") == if config.format == Jfr then Some("jfr") else None)
  {
    var q := UrlForSnapshot(config, snapshot, seriesName, sampleRate, spyName).query;
    LookupFirst(q, "name", 0);
    LookupFirst(q, "units", 1);
    LookupFirst(q, "aggregationType", 2);
    LookupFirst(q, "spyName", 6);
    LookupFirst(q, "format", 7);
    if config.format != Jfr {
      assert q[7..] == [];
    } else {
      assert q[7..][1..] == [];
    }
  }

  /** Reading the query back gives the sample rate, the start of the window and its
      end one upload interval later. */
  lemma UrlNumbers(config: Config, snapshot: Snapshot, seriesName: string, sampleRate: int64, spyName: string)
    ensures var q := UrlForSnapshot(config, snapshot, seriesName, sampleRate, spyName).query;
      && Lookup(q, "sampleRate").Some? && ParseDecimal(Lookup(q, "sampleRate").value) == sampleRate as int
      && Lookup(q, "from").Some? && ParseDecimal(Lookup(q, "from").value) == snapshot.started.epochSecond
      && Lookup(q, "until").Some?
      && ParseDecimal(Lookup(q, "until").value) == Plus(snapshot.started, config.uploadInterval).epochSecond
  {
    var q := UrlForSnapshot(config, snapshot, seriesName, sampleRate, spyName).query;
    LookupDecimal(q, "sampleRate", 3, sampleRate as int);
    LookupDecimal(q, "from", 4, snapshot.started.epochSecond);
    LookupDecimal(q, "until", 5, Plus(snapshot.started, config.uploadInterval).epochSecond);
  }

  /** A number written in decimal as the first parameter with its key reads back. */
  lemma LookupDecimal(query: seq<QueryParam>, key: string, k: nat, n: int)
    requires k < |query| && query[k] == QueryParam(key, DecimalString(n))
    requires forall j :: 0 <= j < k ==> query[j].key != key
    ensures Lookup(query, key).Some? && ParseDecimal(Lookup(query, key).value) == n
  {
    LookupFirst(query, key, k);
    DecimalRoundTrip(n);
  }

  /** With a whole number of seconds as the upload interval, the window in the URL is
      exactly that many seconds long. */
  lemma UrlWindow(config: Config, snapshot: Snapshot, seriesName: string, sampleRate: int64, spyName: string)
    requires config.uploadInterval.nanos == 0
    ensures var q := UrlForSnapshot(config, snapshot, seriesName, sampleRate, spyName).query;
      ParseDecimal(q[5].value) - ParseDecimal(q[4].value) == config.uploadInterval.seconds
  {
    var finished := Plus(snapshot.started, config.uploadInterval);
    DecimalRoundTrip(snapshot.started.epochSecond);
    DecimalRoundTrip(finished.epochSecond);
  }

  // ---------------------------------------------------------------------------
  // The retry loop

  /** What one attempt ends with: a response with its status code, or an
      `IOException`. */
  datatype Outcome = Response(status: int) | IoError

  /** A status below 400 is a success; a higher status or an I/O error is not. */
  predicate Succeeds(o: Outcome)
  {
    o.Response? && o.status < 400
  }

  /** The index of the first successful outcome, or the length when there is none. */
  function FirstSuccess(outcomes: seq<Outcome>): (k: nat)
    ensures k <= |outcomes|
    ensures k < |outcomes| ==> Succeeds(outcomes[k])
    ensures forall j :: 0 <= j < k ==> !Succeeds(outcomes[j])
  {
    if outcomes == [] then 0
    else if Succeeds(outcomes[0]) then 0
    else 1 + FirstSuccess(outcomes[1..])
  }

  /** The most attempts a non-negative `ingestMaxTries` allows (one attempt is made
      even when it is 0). */
  function Cap(maxTries: int32): nat
    requires maxTries >= 0
  {
    if maxTries == 0 then 1 else maxTries as nat
  }

  /** The script of outcomes is long enough for the loop to end: it holds a success,
      or enough failures to use up a non-negative limit. */
  predicate Ends(outcomes: seq<Outcome>, maxTries: int32)
  {
    FirstSuccess(outcomes) < |outcomes| || (maxTries >= 0 && Cap(maxTries) <= |outcomes|)
  }

  /** The number of attempts the loop makes: up to and including the first
      success, but no more than the limit when there is one. */
  function Attempts(outcomes: seq<Outcome>, maxTries: int32): (n: nat)
    requires Ends(outcomes, maxTries)
    ensures 1 <= n <= |outcomes|
  {
    var untilSuccess := FirstSuccess(outcomes) + 1;
    if maxTries >= 0 && Cap(maxTries) < untilSuccess then Cap(maxTries) else untilSuccess
  }

  /** One attempt's request: the same URL, body and headers every time. */
  datatype Request = Request(url: Url, body: RequestBody, headers: seq<Header>)

  /** `uploadSnapshot`: posts the snapshot until an attempt succeeds or, with a
      non-negative `ingestMaxTries`, until that many attempts have been made (at
      least one), backing off after every failed attempt that does not end the loop.
      Returns the requests sent, whether the last one succeeded, the number of
      backoffs and whether "gave up" was logged. */
  method UploadSnapshot(config: Config, snapshot: Snapshot, seriesName: string, sampleRate: int64, spyName: string,
                        gzData: GzipOutcome, gzLabels: GzipOutcome, outcomes: seq<Outcome>)
    returns (sent: seq<Request>, success: bool, backoffs: nat, gaveUp: bool)
    requires Ends(outcomes, config.ingestMaxTries)
    ensures |sent| == Attempts(outcomes, config.ingestMaxTries)
    ensures forall j :: 0 <= j < |sent| ==>
      sent[j] == Request(UrlForSnapshot(config, snapshot, seriesName, sampleRate, spyName),
                         BodyFor(config, snapshot, gzData, gzLabels), AuthHeaders(config.authToken))
    ensures success <==> Succeeds(outcomes[|sent| - 1])
    ensures forall j :: 0 <= j < |sent| - 1 ==> !Succeeds(outcomes[j])
    ensures backoffs == |sent| - 1
    ensures gaveUp <==> config.ingestMaxTries >= 0 && |sent| >= config.ingestMaxTries as int
  {
    var maxTries := config.ingestMaxTries;
    var url := UrlForSnapshot(config, snapshot, seriesName, sampleRate, spyName);
    ghost var n := Attempts(outcomes, maxTries);
    ghost var request := Request(url, BodyFor(config, snapshot, gzData, gzLabels), AuthHeaders(config.authToken));
    sent, success, backoffs, gaveUp := [], false, 0, false;
    var tries := 0;
    while !success
      invariant tries == |sent| <= n
      invariant forall j :: 0 <= j < |sent| ==> sent[j] == request
      invariant !success ==> tries < n && tries <= FirstSuccess(outcomes) && backoffs == tries && !gaveUp
      invariant success ==> tries == n && Succeeds(outcomes[tries - 1]) && backoffs == tries - 1
      invariant success ==> (gaveUp <==> maxTries >= 0 && tries >= maxTries as int)
      decreases n - tries, !success
    {
      tries := tries + 1;
      var body := BodyFor(config, snapshot, gzData, gzLabels);
      sent := sent + [Request(url, body, AuthHeaders(config.authToken))];
      var outcome := outcomes[tries - 1];
      if outcome.Response? && outcome.status < 400 {
        success := true;
      }
      if maxTries >= 0 && tries >= maxTries as int {
        gaveUp := true;
        break;
      }
      if !success {
        backoffs := backoffs + 1;
      }
    }
  }

  /** At least one attempt is made; a non-negative limit bounds the attempts by
      max(1, limit); the attempts never go past the first success; and with a
      negative limit the loop only ends on a success. */
  lemma AttemptsBounds(outcomes: seq<Outcome>, maxTries: int32)
    requires Ends(outcomes, maxTries)
    ensures var n := Attempts(outcomes, maxTries);
      && 1 <= n <= FirstSuccess(outcomes) + 1
      && (maxTries >= 0 ==> n <= Cap(maxTries) && (n < Cap(maxTries) ==> Succeeds(outcomes[n - 1])))
      && (maxTries < 0 ==> Succeeds(outcomes[n - 1]))
  {
  }

  /** An endpoint that keeps answering 500 with a limit of 3: exactly 3 attempts,
      no success; UploadSnapshot then takes 2 backoffs. */
  lemma AlwaysFailingEndpoint(outcomes: seq<Outcome>)
    requires |outcomes| == 3 && forall j :: 0 <= j < 3 ==> outcomes[j] == Response(500)
    ensures Ends(outcomes, 3) && Attempts(outcomes, 3) == 3 && !Succeeds(outcomes[2])
  {
    assert FirstSuccess(outcomes) == 3 by {
      assert !Succeeds(outcomes[0]) && !Succeeds(outcomes[1]) && !Succeeds(outcomes[2]);
      assert outcomes[1..][1..][1..] == [];
    }
  }
}
