/** The PlantUML URLs of the renderer: taking the encoded diagram out of the URL the
    PlantUML client returns, and building the two PNG fetch URLs from it. */
module PlantUmlUrl {
  import opened Search

  /** The server URL the client is configured with. */
  const SERVER_URL: string := "https://www.plantuml.com/plantuml"
  /** Every fetch URL starts with this. */
  const PNG_BASE: string := "https://www.plantuml.com/plantuml/png/"
  /** Inserted before the encoded diagram on the retry. */
  const RETRY_MARKER: string := "~1"

  const HTTP: string := "http"
  const DOUBLE_MARKER: string := "/plantumll"
  const SINGLE_MARKER: string := "/plantuml"
  const PNG_PATH: string := "/plantuml/png/"

  /** Why no encoded suffix could be taken from a client URL. */
  datatype Rejection =
    | NotHttp          // the URL does not start with `http`
    | AlreadyPngPath   // only `/plantuml/png/` is present
    | NoMarker         // neither `/plantumll` nor `/plantuml` is present
    | EmptySuffix      // the marker ends the URL

  /** The shape of a client URL: the marker variant it was recognised by, with the
      encoded suffix that follows that marker, or the reason it was rejected. */
  datatype UrlShape =
    | DoubleL(suffix: string)
    | SingleL(suffix: string)
    | Unrecognized(why: Rejection)

  /** The text after the first `marker`, or `EmptySuffix` when nothing follows it;
      the caller has checked that `marker` occurs. */
  function TakeSuffix(url: string, marker: string, double: bool): (r: UrlShape)
    requires |marker| > 0 && Contains(url, marker)
    ensures !r.Unrecognized? ==> r.suffix != [] && r.DoubleL? == double
    ensures r.Unrecognized? ==> r.why == EmptySuffix
  {
    var parts := SplitOnce(url, marker);
    if |parts| > 1 then
      if parts[1] == [] then Unrecognized(EmptySuffix)
      else if double then DoubleL(parts[1]) else SingleL(parts[1])
    else
      // `marker in url` was tested first, so the split always has two parts.
      assert false; Unrecognized(NoMarker)
  }

  /** Extraction of the encoded suffix from the URL the client returns. */
  function Classify(url: string): (r: UrlShape)
    ensures r == Unrecognized(NotHttp) <==> !StartsWith(url, HTTP)
    ensures !r.Unrecognized? ==> r.suffix != [] && |r.suffix| < |url| && url[|url| - |r.suffix|..] == r.suffix
    ensures r.DoubleL? ==> Contains(url, DOUBLE_MARKER)
    ensures r.SingleL? ==> Contains(url, SINGLE_MARKER) && !Contains(url, DOUBLE_MARKER) && !Contains(url, PNG_PATH)
  {
    if !StartsWith(url, HTTP) then Unrecognized(NotHttp)
    else if Contains(url, DOUBLE_MARKER) then TakeSuffix(url, DOUBLE_MARKER, true)
    else if Contains(url, SINGLE_MARKER) && !Contains(url, PNG_PATH) then TakeSuffix(url, SINGLE_MARKER, false)
    else if Contains(url, SINGLE_MARKER) then Unrecognized(AlreadyPngPath)
    else Unrecognized(NoMarker)
  }

  /** The first URL fetched for an encoded diagram. */
  function PrimaryUrl(suffix: string): (u: string)
    ensures StartsWith(u, PNG_BASE) && u[|PNG_BASE|..] == suffix
  {
    PNG_BASE + suffix
  }

  /** The URL fetched on the retry. */
  function RetryUrl(suffix: string): (u: string)
    ensures StartsWith(u, PNG_BASE) && u[|PNG_BASE|..] == RETRY_MARKER + suffix
  {
    PNG_BASE + RETRY_MARKER + suffix
  }

  /** The retry URL is the primary URL with `~1` inserted just before the encoded suffix,
      and the two never coincide. */
  lemma RetryInsertsMarker(suffix: string)
    ensures RetryUrl(suffix) == PrimaryUrl(suffix)[..|PNG_BASE|] + RETRY_MARKER + PrimaryUrl(suffix)[|PNG_BASE|..]
    ensures RetryUrl(suffix) != PrimaryUrl(suffix)
  {
    assert |RetryUrl(suffix)| != |PrimaryUrl(suffix)|;
  }

  /** When `/plantumll` first occurs at index `i`, the suffix is exactly what follows it. */
  lemma DoubleLSuffix(url: string, i: nat)
    requires StartsWith(url, HTTP)
    requires OccursAt(url, DOUBLE_MARKER, i)
    requires forall j :: 0 <= j < i ==> !OccursAt(url, DOUBLE_MARKER, j)
    ensures Classify(url) == if i + |DOUBLE_MARKER| == |url| then Unrecognized(EmptySuffix) else DoubleL(url[i + |DOUBLE_MARKER|..])
  {
    assert 0 <= i <= |url| - |DOUBLE_MARKER|;
    var parts := SplitOnce(url, DOUBLE_MARKER);
    FirstOccurrenceUnique(url, DOUBLE_MARKER, i, |parts[0]|);
    assert url[i + |DOUBLE_MARKER|..] == parts[1];
  }

  /** Without `/plantumll` and `/plantuml/png/`, when `/plantuml` first occurs at index `i`,
      the suffix is exactly what follows it. */
  lemma SingleLSuffix(url: string, i: nat)
    requires StartsWith(url, HTTP)
    requires !Contains(url, DOUBLE_MARKER) && !Contains(url, PNG_PATH)
    requires OccursAt(url, SINGLE_MARKER, i)
    requires forall j :: 0 <= j < i ==> !OccursAt(url, SINGLE_MARKER, j)
    ensures Classify(url) == if i + |SINGLE_MARKER| == |url| then Unrecognized(EmptySuffix) else SingleL(url[i + |SINGLE_MARKER|..])
  {
    assert 0 <= i <= |url| - |SINGLE_MARKER|;
    var parts := SplitOnce(url, SINGLE_MARKER);
    FirstOccurrenceUnique(url, SINGLE_MARKER, i, |parts[0]|);
    assert url[i + |SINGLE_MARKER|..] == parts[1];
  }

  /** A fetch URL handed back by the client is not accepted as it is: without `/plantumll`
      in it, it is rejected as already being in `/plantuml/png/` form. */
  lemma PngUrlUnrecognized(suffix: string)
    requires !Contains(PrimaryUrl(suffix), DOUBLE_MARKER)
    ensures Classify(PrimaryUrl(suffix)) == Unrecognized(AlreadyPngPath)
  {
    var u := PrimaryUrl(suffix);
    assert u[0] == 'h' && u[1] == 't' && u[2] == 't' && u[3] == 'p';
    assert u[..4] == HTTP;
    assert OccursAt(u, PNG_PATH, 24);
    assert OccursAt(u, SINGLE_MARKER, 24);
  }

  /** The only slashes of the configured server URL are those of `https://` and the one
      before `plantuml`. */
  lemma ServerSlashes()
    ensures |SERVER_URL| == 33
    ensures forall k | 0 <= k < |SERVER_URL| && SERVER_URL[k] == '/' :: k == 6 || k == 7 || k == 24
    ensures SERVER_URL[8] == 'w' && SERVER_URL[24..] == SINGLE_MARKER
  {
  }

  /** A client URL: the server URL followed by an encoded string without `/`. */
  predicate ServerForm(u: string)
  {
    |u| >= |SERVER_URL| && u[..|SERVER_URL|] == SERVER_URL &&
    forall k | |SERVER_URL| <= k < |u| :: u[k] != '/'
  }

  lemma ServerFormSlashes(u: string, k: nat)
    requires ServerForm(u) && k < |u| && u[k] == '/'
    ensures k == 6 || k == 7 || k == 24
  {
    ServerSlashes();
    if k < 33 { assert u[k] == u[..33][k]; }
  }

  /** In a client URL, `/plantuml` occurs only right after the host. */
  lemma ServerFormMarker(u: string, j: nat)
    requires ServerForm(u) && OccursAt(u, SINGLE_MARKER, j)
    ensures j == 24
  {
    ServerSlashes();
    assert u[j] == u[j..j + 9][0] == '/';
    assert u[j + 1] == u[j..j + 9][1] == 'p';
    ServerFormSlashes(u, j);
    assert u[7] == u[..33][7] && u[8] == u[..33][8];
  }

  /** A client URL starts with the server URL. */
  lemma ServerFormPrefix(u: string, k: nat)
    requires ServerForm(u) && k < |SERVER_URL|
    ensures u[k] == SERVER_URL[k]
  {
    assert u[k] == u[..|SERVER_URL|][k];
  }

  /** Where a longer marker that starts with `/plantuml` occurs, `/plantuml` occurs too. */
  lemma SingleMarkerWithin(u: string, t: string, j: nat)
    requires |t| >= |SINGLE_MARKER| && t[..|SINGLE_MARKER|] == SINGLE_MARKER && OccursAt(u, t, j)
    ensures OccursAt(u, SINGLE_MARKER, j)
  {
    assert u[j..j + |SINGLE_MARKER|] == u[j..j + |t|][..|SINGLE_MARKER|];
  }

  /** `/plantuml/png/` occurs nowhere in a client URL: the only `/plantuml` is followed by
      the encoded string, which holds no `/`. */
  lemma ServerFormNoPngAt(u: string, j: nat)
    requires ServerForm(u) && j + |PNG_PATH| <= |u|
    ensures !OccursAt(u, PNG_PATH, j)
  {
    if u[j..j + 9] == SINGLE_MARKER {
      ServerFormMarker(u, j);
      assert u[j..j + 14][9] == u[33] != '/';
    } else {
      assert u[j..j + 14][..9] == u[j..j + 9];
    }
  }

  /** What the classification looks at in a client URL. */
  lemma ServerFormHead(u: string)
    requires ServerForm(u)
    ensures StartsWith(u, HTTP) && !Contains(u, PNG_PATH)
    ensures OccursAt(u, SINGLE_MARKER, 24) && forall j :: 0 <= j < 24 ==> !OccursAt(u, SINGLE_MARKER, j)
    ensures forall j :: OccursAt(u, DOUBLE_MARKER, j) ==> j == 24
    ensures OccursAt(u, DOUBLE_MARKER, 24) <==> |u| > 33 && u[33] == 'l'
  {
    ServerSlashes();
    ServerFormPrefix(u, 0);
    ServerFormPrefix(u, 1);
    ServerFormPrefix(u, 2);
    ServerFormPrefix(u, 3);
    assert u[..4] == HTTP;
    assert u[24..33] == u[..33][24..] == SINGLE_MARKER;
    forall j | 0 <= j < 24 ensures !OccursAt(u, SINGLE_MARKER, j) {
      if OccursAt(u, SINGLE_MARKER, j) { ServerFormMarker(u, j); }
    }
    forall j | 0 <= j <= |u| - |PNG_PATH| ensures !OccursAt(u, PNG_PATH, j) {
      ServerFormNoPngAt(u, j);
    }
    forall j | OccursAt(u, DOUBLE_MARKER, j) ensures j == 24 {
      SingleMarkerWithin(u, DOUBLE_MARKER, j);
      ServerFormMarker(u, j);
    }
    if |u| > 33 && u[33] == 'l' {
      assert u[24..34] == u[24..33] + [u[33]];
    }
  }

  /** The client appends its encoded diagram to the server URL. For an encoded string
      without `/`, the suffix taken out is that string, except that a leading `l` is read as
      the second `l` of the `/plantumll` form and dropped. */
  lemma ServerFormSuffix(e: string)
    requires forall k | 0 <= k < |e| :: e[k] != '/'
    ensures Classify(SERVER_URL + e) ==
      if e == [] then Unrecognized(EmptySuffix)
      else if e[0] == 'l' then (if |e| == 1 then Unrecognized(EmptySuffix) else DoubleL(e[1..]))
      else SingleL(e)
  {
    var u := SERVER_URL + e;
    ServerSlashes();
    assert ServerForm(u) by {
      assert u[..33] == SERVER_URL;
      forall k | 33 <= k < |u| ensures u[k] != '/' { assert u[k] == e[k - 33]; }
    }
    ServerFormHead(u);
    if e != [] && e[0] == 'l' {
      DoubleLSuffix(u, 24);
      assert u[34..] == e[1..];
    } else {
      assert !Contains(u, DOUBLE_MARKER);
      SingleLSuffix(u, 24);
      assert u[33..] == e;
    }
  }
}
