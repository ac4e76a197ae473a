/** The payload formats the collector's HTTP API accepts (io.pyroscope.http.Format). */
module Http {

  /** `Collapsed` is the deprecated folded-stack text; `Jfr` a flight recording;
      `Pprof` a pprof profile. */
  datatype Format = Collapsed | Jfr | Pprof

  /** The identifier the HTTP API uses for a format, fixed when the constant is built. */
  function FormatId(f: Format): (id: string)
    ensures |id| > 0
    ensures forall i :: 0 <= i < |id| ==> 'a' <= id[i] <= 'z'
  {
    match f
    case Collapsed => "collapsed"
    case Jfr => "jfr"
    case Pprof => "pprof"
  }

  /** No two formats share an identifier, so the identifier names the format. */
  lemma FormatIdInjective(a: Format, b: Format)
    ensures FormatId(a) == FormatId(b) ==> a == b
  {
    if a != b {
      assert FormatId(a)[0] != FormatId(b)[0] || |FormatId(a)| != |FormatId(b)|;
    }
  }
}
