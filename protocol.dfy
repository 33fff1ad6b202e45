/** The two-attempt fetch protocol for one diagram. The network is an oracle: the sequence
    of replies the server gives, one taken per fetch. The protocol is specified as a state
    machine NotAttempted -> PrimaryAttempted -> (Accepted | RetryAttempted -> (Accepted |
    Exhausted)), and RenderFile, which follows the branches of the renderer, is proved to
    behave as that machine does. */
module Protocol {
  import opened Search
  import opened Bytes
  import opened PlantUmlUrl
  import opened Validation

  /** What one fetch yields: a response, or an exception (a timeout or a transport error). */
  datatype Reply = Got(response: Response) | Raised

  /** Why a diagram produced no image. */
  datatype Failure =
    | Unreadable       // the source file could not be read
    | EncoderRaised    // the PlantUML client raised while encoding
    | TransportRaised  // a fetch raised
    | NotAccepted      // no response passed validation

  /** The outcome for one diagram. */
  datatype Verdict =
    | Rendered(content: Bytes, usedRetry: bool)
    | Rejected(rejection: Rejection)
    | Failed(failure: Failure)

  /** The states of the fetch protocol. */
  datatype Phase =
    | NotAttempted
    | PrimaryAttempted(first: Response)
    | RetryAttempted(second: Response)
    | Accepted(content: Bytes, usedRetry: bool)
    | Exhausted(failure: Failure)
  {
    predicate Terminal() { Accepted? || Exhausted? }

    /** The fetches this state can still make. */
    function Budget(): nat
    {
      match this
      case NotAttempted => 2
      case PrimaryAttempted(_) => 1
      case _ => 0
    }

    function Rank(): nat
    {
      match this
      case NotAttempted => 3
      case PrimaryAttempted(_) => 2
      case RetryAttempted(_) => 1
      case _ => 0
    }
  }

  /** A state with the URLs fetched so far and the replies still to come. */
  datatype Progress = Progress(phase: Phase, fetched: seq<string>, net: seq<Reply>)

  /** The next reply of the oracle; once it has none left, a fetch raises. */
  function Fetch(net: seq<Reply>): (p: (Reply, seq<Reply>))
    ensures net == [] ==> p == (Raised, [])
    ensures net != [] ==> [p.0] + p.1 == net
  {
    if net == [] then (Raised, []) else (net[0], net[1..])
  }

  /** Issues one fetch of `url` and moves to `onReply` of what came back. */
  function FetchThen(s: Progress, url: string, onReply: Response -> Phase): (t: Progress)
    ensures t.fetched == s.fetched + [url]
  {
    var (reply, rest) := Fetch(s.net);
    var next := if reply.Raised? then Exhausted(TransportRaised) else onReply(reply.response);
    Progress(next, s.fetched + [url], rest)
  }

  /** One transition of the protocol for the encoded diagram `suffix`. */
  function Step(s: Progress, suffix: string): (t: Progress)
    ensures s.phase.Terminal() ==> t == s
    ensures !s.phase.Terminal() ==> t.phase.Rank() < s.phase.Rank()
    ensures t.phase.Budget() + |t.fetched| <= s.phase.Budget() + |s.fetched|
  {
    match s.phase
    case NotAttempted =>
      FetchThen(s, PrimaryUrl(suffix), r => PrimaryAttempted(r))
    case PrimaryAttempted(r) =>
      if FirstAccepts(r) then s.(phase := Accepted(r.content, false))
      else if RetryWanted(r) then FetchThen(s, RetryUrl(suffix), r2 => RetryAttempted(r2))
      else s.(phase := Exhausted(NotAccepted))
    case RetryAttempted(r2) =>
      if RetryAccepts(r2) then s.(phase := Accepted(r2.content, true))
      else s.(phase := Exhausted(NotAccepted))
    case _ => s
  }

  /** Runs the protocol to a terminal state. */
  function Run(s: Progress, suffix: string): (t: Progress)
    decreases s.phase.Rank()
  {
    if s.phase.Terminal() then s else Run(Step(s, suffix), suffix)
  }

  /** The run ends in a terminal state, only appends to the fetch log, and makes no more
      fetches than the starting state allows. */
  lemma {:induction false} RunBounds(s: Progress, suffix: string)
    ensures Run(s, suffix).phase.Terminal()
    ensures |Run(s, suffix).fetched| <= |s.fetched| + s.phase.Budget()
    ensures s.fetched <= Run(s, suffix).fetched
    decreases s.phase.Rank()
  {
    if !s.phase.Terminal() {
      var t := Step(s, suffix);
      assert s.fetched <= t.fetched;
      RunBounds(t, suffix);
    }
  }

  /** The outcome, fetch log and remaining oracle of one diagram. */
  datatype FileRun = FileRun(verdict: Verdict, fetched: seq<string>, rest: seq<Reply>)

  function VerdictOf(p: Phase): (v: Verdict)
    requires p.Terminal()
  {
    if p.Accepted? then Rendered(p.content, p.usedRetry) else Failed(p.failure)
  }

  /** The specification of one diagram whose client URL is `url`: a rejected URL makes no
      fetch; otherwise the protocol runs from NotAttempted. */
  function FileSpec(url: string, net: seq<Reply>): (f: FileRun)
  {
    match Classify(url)
    case Unrecognized(why) => FileRun(Rejected(why), [], net)
    case shape =>
      RunBounds(Progress(NotAttempted, [], net), shape.suffix);
      var t := Run(Progress(NotAttempted, [], net), shape.suffix);
      FileRun(VerdictOf(t.phase), t.fetched, t.net)
  }

  /** One diagram, branch by branch as the renderer handles it. */
  method RenderFile(url: string, net: seq<Reply>) returns (verdict: Verdict, fetched: seq<string>, rest: seq<Reply>)
    ensures FileRun(verdict, fetched, rest) == FileSpec(url, net)
  {
    fetched, rest := [], net;
    var shape := Classify(url);
    if shape.Unrecognized? {
      verdict := Rejected(shape.why);
      return;
    }
    var suffix := shape.suffix;
    ghost var s0 := Progress(NotAttempted, [], net);
    RunFromStart(suffix, net);

    var primary := Fetch(rest);
    var reply;
    reply, rest := primary.0, primary.1;
    fetched := fetched + [PrimaryUrl(suffix)];
    if reply.Raised? {
      verdict := Failed(TransportRaised);
      assert Step(s0, suffix) == Progress(Exhausted(TransportRaised), fetched, rest);
      assert Run(s0, suffix) == Step(s0, suffix);
      return;
    }
    var response := reply.response;
    ghost var s1 := Step(s0, suffix);
    assert s1 == Progress(PrimaryAttempted(response), fetched, rest);
    assert Run(s0, suffix) == Run(s1, suffix);

    var retry := false;
    if HasPngSignature(response.content) {
      if response.status != OK || ShowsError(response.content) {
        retry := true;
      } else {
        verdict := Rendered(response.content, false);
        assert FirstAccepts(response);
        assert Run(s1, suffix) == Run(Step(s1, suffix), suffix) == Step(s1, suffix);
        return;
      }
    } else if response.status == OK {
      retry := StartsWith(response.content, HTML_OPEN) || Contains(response.content, HUFFMAN) ||
               Contains(Lower(response.content), ENCODING);
    } else {
      retry := true;
    }
    assert retry == RetryWanted(response);

    if retry {
      var second := Fetch(rest);
      reply, rest := second.0, second.1;
      fetched := fetched + [RetryUrl(suffix)];
      if reply.Raised? {
        verdict := Failed(TransportRaised);
        assert Run(s1, suffix) == Run(Step(s1, suffix), suffix) == Step(s1, suffix);
        return;
      }
      response := reply.response;
      ghost var s2 := Step(s1, suffix);
      assert s2 == Progress(RetryAttempted(response), fetched, rest);
      assert Run(s1, suffix) == Run(s2, suffix);
      if response.status == OK && HasPngSignature(response.content) {
        if !Contains(response.content, HUFFMAN) && !Contains(response.content, BAD_URL) {
          verdict := Rendered(response.content, true);
          assert RetryAccepts(response);
          assert Run(s2, suffix) == Run(Step(s2, suffix), suffix) == Step(s2, suffix);
          return;
        }
      }
      assert !RetryAccepts(response);
      assert Run(s2, suffix) == Run(Step(s2, suffix), suffix) == Step(s2, suffix);
    } else {
      assert Run(s1, suffix) == Run(Step(s1, suffix), suffix) == Step(s1, suffix);
    }
    verdict := Failed(NotAccepted);
  }

  /** The run from NotAttempted, written out case by case. */
  lemma RunFromStart(suffix: string, net: seq<Reply>)
    ensures Run(Progress(NotAttempted, [], net), suffix) ==
      var (reply, rest) := Fetch(net);
      if reply.Raised? then Progress(Exhausted(TransportRaised), [PrimaryUrl(suffix)], rest)
      else if FirstAccepts(reply.response) then Progress(Accepted(reply.response.content, false), [PrimaryUrl(suffix)], rest)
      else if !RetryWanted(reply.response) then Progress(Exhausted(NotAccepted), [PrimaryUrl(suffix)], rest)
      else
        var (reply2, rest2) := Fetch(rest);
        var log := [PrimaryUrl(suffix), RetryUrl(suffix)];
        if reply2.Raised? then Progress(Exhausted(TransportRaised), log, rest2)
        else if RetryAccepts(reply2.response) then Progress(Accepted(reply2.response.content, true), log, rest2)
        else Progress(Exhausted(NotAccepted), log, rest2)
  {
    var s0 := Progress(NotAttempted, [], net);
    var s1 := Step(s0, suffix);
    assert Run(s0, suffix) == Run(s1, suffix);
    if !s1.phase.Terminal() {
      var s2 := Step(s1, suffix);
      assert Run(s1, suffix) == Run(s2, suffix);
      if !s2.phase.Terminal() {
        assert Run(s2, suffix) == Run(Step(s2, suffix), suffix) == Step(s2, suffix);
      }
    }
  }

  /** The replies left after `n` fetches. */
  function After(net: seq<Reply>, n: nat): (rest: seq<Reply>)
    ensures |rest| == if n <= |net| then |net| - n else 0
  {
    if n <= |net| then net[n..] else []
  }

  /** Every diagram makes at most two fetches: none when its URL is unrecognized, otherwise
      the primary URL first and, if there is a second, the `~1` URL; each fetch takes one
      reply off the oracle. */
  lemma FetchLog(url: string, net: seq<Reply>)
    ensures var f := FileSpec(url, net);
      |f.fetched| <= 2 &&
      f.rest == After(net, |f.fetched|) &&
      (f.fetched == [] <==> Classify(url).Unrecognized?) &&
      (Classify(url).Unrecognized? ==> f.verdict == Rejected(Classify(url).why)) &&
      (f.fetched != [] ==> f.fetched[0] == PrimaryUrl(Classify(url).suffix)) &&
      (|f.fetched| == 2 ==> f.fetched[1] == RetryUrl(Classify(url).suffix))
  {
    if !Classify(url).Unrecognized? {
      RunFromStart(Classify(url).suffix, net);
      if |net| > 1 { assert net[1..][1..] == net[2..]; }
    }
  }

  /** A diagram is rendered from the first response, with exactly one fetch, if and only if
      that response is accepted by the first-attempt checks; the bytes rendered are that
      response's body. */
  lemma FirstAcceptedIff(url: string, net: seq<Reply>)
    requires !Classify(url).Unrecognized?
    ensures var f := FileSpec(url, net);
      (f.verdict.Rendered? && !f.verdict.usedRetry) <==> (net != [] && net[0].Got? && FirstAccepts(net[0].response))
    ensures var f := FileSpec(url, net);
      f.verdict.Rendered? && !f.verdict.usedRetry ==> |f.fetched| == 1 && f.verdict.content == net[0].response.content
  {
    RunFromStart(Classify(url).suffix, net);
  }

  /** A second fetch happens exactly when the first reply is a response that the first
      checks refuse and the retry rule asks to retry. */
  lemma SecondFetchIff(url: string, net: seq<Reply>)
    requires !Classify(url).Unrecognized?
    ensures |FileSpec(url, net).fetched| == 2 <==>
      net != [] && net[0].Got? && !FirstAccepts(net[0].response) && RetryWanted(net[0].response)
  {
    RunFromStart(Classify(url).suffix, net);
  }

  /** After a retry, the diagram is rendered from the second response exactly when it passes
      the retry checks; a retry that raises fails the diagram. */
  lemma RetryVerdict(url: string, net: seq<Reply>)
    requires !Classify(url).Unrecognized?
    requires net != [] && net[0].Got? && !FirstAccepts(net[0].response) && RetryWanted(net[0].response)
    ensures FileSpec(url, net).verdict ==
      if |net| < 2 || net[1].Raised? then Failed(TransportRaised)
      else if RetryAccepts(net[1].response) then Rendered(net[1].response.content, true)
      else Failed(NotAccepted)
  {
    RunFromStart(Classify(url).suffix, net);
  }

  /** After a first response that is not a PNG: with status 200 the retry happens only if the
      body starts with `<html`, holds `HUFFMAN`, or holds `encoding` in any case, and without
      it the diagram fails after one fetch; with another status the retry always happens. */
  lemma NonPngFirstResponse(url: string, net: seq<Reply>)
    requires !Classify(url).Unrecognized?
    requires net != [] && net[0].Got? && !StartsWith(net[0].response.content, PNG_SIGNATURE)
    ensures var r := net[0].response; var f := FileSpec(url, net);
      r.status == 200 ==>
        (|f.fetched| == 2 <==>
          StartsWith(r.content, HTML_OPEN) || Contains(r.content, HUFFMAN) || Contains(Lower(r.content), ENCODING))
    ensures var f := FileSpec(url, net);
      net[0].response.status != 200 ==> |f.fetched| == 2
    ensures var f := FileSpec(url, net);
      |f.fetched| == 1 ==> f.verdict == Failed(NotAccepted)
  {
    RunFromStart(Classify(url).suffix, net);
  }

  /** A fetch that raises, or an oracle with nothing left, fails the diagram on the spot. */
  lemma PrimaryRaised(url: string, net: seq<Reply>)
    requires !Classify(url).Unrecognized?
    requires net == [] || net[0].Raised?
    ensures FileSpec(url, net).verdict == Failed(TransportRaised) && |FileSpec(url, net).fetched| == 1
  {
    RunFromStart(Classify(url).suffix, net);
  }

  /** Rendered bytes are exactly the body of a reply that passed validation: the first reply
      without the retry, the second with it. */
  lemma RenderedFromReply(url: string, net: seq<Reply>)
    requires FileSpec(url, net).verdict.Rendered?
    ensures var v := FileSpec(url, net).verdict;
      !v.usedRetry ==> net[0].Got? && net[0].response.content == v.content && FirstAccepts(net[0].response)
    ensures var v := FileSpec(url, net).verdict;
      v.usedRetry ==> |net| >= 2 && net[1].Got? && net[1].response.content == v.content && RetryAccepts(net[1].response)
  {
    RunFromStart(Classify(url).suffix, net);
  }
}
