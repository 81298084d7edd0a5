/** httpclient.cc: how one request is retried and redirected until it is answered or given up.
    What the pool, the resolver and the server answer are the events of a run. */
module HttpClients {
  import opened HttpTypes

  const DEFAULT_RETRIES: nat := 1
  const MAX_REDIRECTS: nat := 5

  const HC_SEE_OTHER: nat := 303
  const HC_INTERNAL_SERVER_ERROR: nat := 500

  datatype RedirectAction = RedirectDefault | RedirectAlways | RedirectNever
  datatype Verb = HvGet | HvHead | HvPost | HvPut | HvConnect
  datatype HttpMode = HmConnect | HmRecv | HmSend

  datatype Response = Response(scode: nat, hasLocation: bool)

  // response().clear()
  const CLEARED := Response(HC_INTERNAL_SERVER_ERROR, false)

  /** What the client is waiting for: nothing, the resolver, a stream from the pool, or the stream it has. */
  datatype Phase = Idle | Resolving | Requesting | Attached

  datatype Client = Client(phase: Phase, retries: nat, attempt: nat, redirects: nat, redirectAction: RedirectAction,
                           verb: Verb, hasDocument: bool, unresolved: bool, response: Response,
                           connections: nat, completed: seq<HttpError>)

  /** What the world answers. rewinds: the request document, if there is one, can be replayed. */
  datatype Event =
    | Resolved(ok: bool, rewinds: bool)
    | StreamAnswer(ok: bool, rewinds: bool)
    | Completed(mode: HttpMode, err: HttpError, response: Response, rewinds: bool, toName: bool)
      // the transfer engine reports; toName: the Location given has a host name

  // ------------------------------------------------------------ the code

  predicate CodeIsInformational(code: nat) { code / 100 == 1 }

  predicate CodeIsRedirection(code: nat) { code / 100 == 3 }

  predicate MayRedirect(action: RedirectAction, response: Response, redirects: nat, verb: Verb) {
    && action != RedirectNever && CodeIsRedirection(response.scode) && response.hasLocation
    && redirects < MAX_REDIRECTS
    && (action == RedirectAlways || response.scode == HC_SEE_OTHER || verb == HvHead || verb == HvGet)
  }

  predicate ShouldRedirect(c: Client) { MayRedirect(c.redirectAction, c.response, c.redirects, c.verb) }

  predicate ConnectionLost(err: HttpError) { err == HeDisconnected || err == HeConnectFailed || err == HeSocketError }

  predicate ShouldRetry(c: Client, err: HttpError) {
    ConnectionLost(err) && c.response.scode == HC_INTERNAL_SERVER_ERROR && c.attempt < c.retries
  }

  function ConnectStep(c: Client): Client { c.(phase := if c.unresolved then Resolving else Requesting) }

  function StartStep(c: Client): Client { ConnectStep(c.(attempt := 0)) }

  /** SignalHttpClientComplete */
  function Finish(c: Client, err: HttpError): Client { c.(phase := Idle, completed := c.completed + [err]) }

  function Retry(c: Client, rewinds: bool): Client {
    var again := c.(attempt := c.attempt + 1);
    if c.hasDocument && !rewinds then Finish(again, HeStream) else ConnectStep(again)
  }

  /** The redirect itself; a request that cannot be replayed fails instead. */
  function Redirect(c: Client, rewinds: bool, toName: bool): Client {
    if c.response.scode != HC_SEE_OTHER && c.hasDocument && !rewinds then Finish(c.(unresolved := toName), HeStream)
    else StartStep(Moved(c, toName))
  }

  /** The request as it is asked of the place it was sent to. */
  function Moved(c: Client, toName: bool): Client {
    var seeOther := c.response.scode == HC_SEE_OTHER;
    c.(unresolved := toName, redirects := c.redirects + 1, response := CLEARED,
       verb := if seeOther then HvGet else c.verb, hasDocument := !seeOther && c.hasDocument)
  }

  function CompleteStep(c: Client, mode: HttpMode, err: HttpError, rewinds: bool, toName: bool): Client {
    if ShouldRetry(c, err) then Retry(c, rewinds)
    else if err != HeNone then Finish(c, err)
    else if mode == HmConnect || mode == HmSend || CodeIsInformational(c.response.scode) then c
    else if ShouldRedirect(c) then Redirect(c, rewinds, toName)
    else Finish(c, HeNone)
  }

  /** One answer; one that was not being waited for changes nothing. */
  function Next(c: Client, event: Event): Client {
    match event
    case Resolved(ok, rewinds) =>
      if c.phase != Resolving then c
      else if ok then ConnectStep(c.(unresolved := false))
      else CompleteStep(c, HmConnect, HeConnectFailed, rewinds, false)
    case StreamAnswer(ok, rewinds) =>
      if c.phase != Requesting then c
      else
        var asked := c.(connections := c.connections + 1);
        if ok then asked.(phase := Attached) else CompleteStep(asked, HmConnect, HeConnectFailed, rewinds, false)
    case Completed(mode, err, response, rewinds, toName) =>
      if c.phase != Attached then c else CompleteStep(c.(response := response), mode, err, rewinds, toName)
  }

  function Run(c: Client, events: seq<Event>): Client
    decreases |events|
  {
    if events == [] then c else Run(Next(c, events[0]), events[1..])
  }

  // ------------------------------------------------------------ the bound

  ghost predicate Sound(c: Client) { c.attempt <= c.retries && c.redirects <= MAX_REDIRECTS }

  /** How many more connections the client may ask for after the present one. */
  function Budget(c: Client): nat
    requires Sound(c)
  {
    (MAX_REDIRECTS - c.redirects) * (c.retries + 1) + (c.retries - c.attempt)
  }

  /** The budget after a start(). */
  function FullBudget(redirects: nat, retries: nat): nat {
    if redirects > MAX_REDIRECTS then 0 else (MAX_REDIRECTS - redirects) * (retries + 1) + retries
  }

  predicate Waiting(c: Client) { c.phase == Resolving || c.phase == Requesting }

  lemma RetrySpends(c: Client)
    requires Sound(c) && c.attempt < c.retries
    ensures Sound(ConnectStep(c.(attempt := c.attempt + 1))) && Budget(ConnectStep(c.(attempt := c.attempt + 1))) == Budget(c) - 1
  {}

  /** A redirect gives all the attempts back, but the budget shrinks all the same. */
  lemma RedirectSpends(c: Client, rewinds: bool, toName: bool)
    requires Sound(c) && c.redirects < MAX_REDIRECTS
    ensures var c' := Redirect(c, rewinds, toName);
            && Sound(c') && c'.retries == c.retries && c'.connections == c.connections
            && (if c'.phase == Idle then Budget(c') == Budget(c) && c'.completed == c.completed + [HeStream]
                else Waiting(c') && Budget(c') < Budget(c) && c'.completed == c.completed)
  {
    assert (MAX_REDIRECTS - c.redirects) * (c.retries + 1)
        == (MAX_REDIRECTS - (c.redirects + 1)) * (c.retries + 1) + (c.retries + 1);
  }

  lemma RedirectedBudget(c: Client)
    requires Sound(c) && c.redirects < MAX_REDIRECTS
    ensures FullBudget(c.redirects + 1, c.retries) < Budget(c)
  {
    assert (MAX_REDIRECTS - c.redirects) * (c.retries + 1)
        == (MAX_REDIRECTS - (c.redirects + 1)) * (c.retries + 1) + (c.retries + 1);
  }

  /** A report is waited out, or ends the request, or sends the client back for a connection with less
      budget than before. */
  lemma CompletionSpends(c: Client, mode: HttpMode, err: HttpError, rewinds: bool, toName: bool)
    requires Sound(c)
    ensures var c' := CompleteStep(c, mode, err, rewinds, toName);
            && Sound(c') && c'.retries == c.retries && c'.connections == c.connections
            && (|| (c' == c && err == HeNone)
                || (c'.phase == Idle && Budget(c') <= Budget(c) && |c'.completed| == |c.completed| + 1)
                || (Waiting(c') && Budget(c') < Budget(c) && c'.completed == c.completed))
  {
    hide Budget, Redirect;
    if ShouldRetry(c, err) {
      RetrySpends(c);
      SameBudget(ConnectStep(c.(attempt := c.attempt + 1)), Finish(c.(attempt := c.attempt + 1), HeStream));
    } else {
      SameBudget(c, Finish(c, err));
      SameBudget(c, Finish(c, HeNone));
      if ShouldRedirect(c) { RedirectSpends(c, rewinds, toName); }
    }
  }

  lemma SameBudget(c: Client, c': Client)
    requires Sound(c) && c'.retries == c.retries && c'.attempt == c.attempt && c'.redirects == c.redirects
    ensures Sound(c') && Budget(c') == Budget(c)
  {}

  /** The order in which a request goes through its phases. */
  function Rank(phase: Phase): nat {
    match phase
    case Idle => 0
    case Attached => 1
    case Requesting => 2
    case Resolving => 3
  }

  /** Connections made, plus all that are still to come. */
  function Potential(c: Client): nat
    requires Sound(c)
  {
    c.connections + Budget(c) + if Waiting(c) then 1 else 0
  }

  /** What an answer may do: bring the request nearer its end, in the order of budget and then phase,
      or be one more report of a stream that stays attached. */
  ghost predicate Spends(c: Client, c': Client)
    requires Sound(c)
  {
    && Sound(c') && c'.retries == c.retries && Potential(c') <= Potential(c)
    && (c' == c || Budget(c') < Budget(c) || (Budget(c') == Budget(c) && Rank(c'.phase) < Rank(c.phase))
        || (c.phase == c'.phase == Attached && c' == c.(response := c'.response)))
    && |c'.completed| == |c.completed| + (if c'.phase == Idle && c.phase != Idle then 1 else 0)
  }

  lemma StepSpends(c: Client, event: Event)
    requires Sound(c)
    ensures Spends(c, Next(c, event))
  {
    hide Budget, CompleteStep;
    if !Answers(c, event) {
      assert Next(c, event) == c;
    } else {
      match event
      case Resolved(ok, rewinds) =>
        SameBudget(c, ConnectStep(c.(unresolved := false)));
        if !ok { ReportSpends(c, c, HmConnect, HeConnectFailed, rewinds, false); }
      case StreamAnswer(ok, rewinds) =>
        var asked := c.(connections := c.connections + 1);
        SameBudget(c, asked.(phase := Attached));
        if !ok { ReportSpends(c, asked, HmConnect, HeConnectFailed, rewinds, false); }
      case Completed(mode, err, response, rewinds, toName) =>
        ReportSpends(c, c.(response := response), mode, err, rewinds, toName);
    }
  }

  /** The answer is one the client is waiting for. */
  predicate Answers(c: Client, event: Event) {
    match event
    case Resolved(_, _) => c.phase == Resolving
    case StreamAnswer(_, _) => c.phase == Requesting
    case Completed(_, _, _, _, _) => c.phase == Attached
  }

  lemma ReportSpends(c: Client, asked: Client, mode: HttpMode, err: HttpError, rewinds: bool, toName: bool)
    requires Sound(c) && c.phase != Idle && asked == c.(connections := asked.connections, response := asked.response)
    requires asked.connections == c.connections || (c.phase == Requesting && asked.connections == c.connections + 1)
    requires err == HeNone ==> c.phase == Attached
    ensures Spends(c, CompleteStep(asked, mode, err, rewinds, toName))
  {
    hide Budget, CompleteStep;
    SameBudget(c, asked);
    CompletionSpends(asked, mode, err, rewinds, toName);
  }

  lemma {:induction false} IdleStays(c: Client, events: seq<Event>)
    requires c.phase == Idle
    ensures Run(c, events) == c
    decreases |events|
  {
    if events == [] {
    } else {
      IdleStays(Next(c, events[0]), events[1..]);
    }
  }

  lemma {:induction false} RunSpends(c: Client, events: seq<Event>)
    requires Sound(c)
    ensures Sound(Run(c, events)) && Run(c, events).retries == c.retries
    ensures Potential(Run(c, events)) <= Potential(c)
    ensures |Run(c, events).completed| == |c.completed| + (if Run(c, events).phase == Idle && c.phase != Idle then 1 else 0)
    decreases |events|
  {
    if c.phase == Idle {
      IdleStays(c, events);
    } else if events != [] {
      StepSpends(c, events[0]);
      hide Budget, Next, Sound;
      RunSpends(Next(c, events[0]), events[1..]);
      if Next(c, events[0]).phase == Idle { IdleStays(Next(c, events[0]), events[1..]); }
    }
  }

  /** Each start() the user makes leads to at most (retries + 1) * (5 + 1) connections, whatever the
      world answers, and to one completion signal at most, given exactly when the client is idle again. */
  lemma ConnectionsAreBounded(c: Client, events: seq<Event>)
    requires c.phase == Idle && c.redirects <= MAX_REDIRECTS
    ensures var c' := Run(StartStep(c), events);
            && c'.connections - c.connections <= (c.retries + 1) * (MAX_REDIRECTS + 1)
            && |c'.completed| - |c.completed| == if c'.phase == Idle then 1 else 0
  {
    var s := StartStep(c);
    RunSpends(s, events);
    FirstBudget(MAX_REDIRECTS - c.redirects, c.retries);
    hide Run;
  }

  lemma FirstBudget(left: nat, retries: nat)
    requires left <= MAX_REDIRECTS
    ensures left * (retries + 1) + retries + 1 <= (retries + 1) * (MAX_REDIRECTS + 1)
  {
    var spare := MAX_REDIRECTS - left;
    assert (retries + 1) * (left + 1 + spare) == (retries + 1) * (left + 1) + (retries + 1) * spare;
  }

  lemma RunCons(c: Client, event: Event, rest: seq<Event>)
    ensures Run(c, [event] + rest) == Run(Next(c, event), rest)
  {
    assert ([event] + rest)[1..] == rest;
  }

  // ------------------------------------------------------------ how a request ends, and what it becomes

  /** What an answer reports: a resolver or a pool that fails is a failed connection. */
  function Reported(event: Event): HttpError {
    match event
    case Resolved(ok, _) => if ok then HeNone else HeConnectFailed
    case StreamAnswer(ok, _) => if ok then HeNone else HeConnectFailed
    case Completed(_, err, _, _, _) => err
  }

  function Rewinds(event: Event): bool { event.rewinds }

  /** The response by then. */
  function Responded(c: Client, event: Event): Response { if event.Completed? then event.response else c.response }

  /** A lost connection before anything meaningful was received, with an attempt left. */
  predicate TriesAgain(c: Client, event: Event) {
    && Reported(event) in {HeDisconnected, HeConnectFailed, HeSocketError}
    && Responded(c, event).scode == 500 && c.attempt < c.retries
  }

  /** The whole response has been received, and it is not merely informational. */
  predicate Answered(event: Event) {
    event.Completed? && event.mode == HmRecv && event.err == HeNone && !(100 <= event.response.scode < 200)
  }

  /** A response that sends the client elsewhere, and may: up to five times, as the user allows; by default a 303
      for any request, and the other codes for GET and HEAD. */
  predicate SendsElsewhere(c: Client, event: Event) {
    && Answered(event) && 300 <= event.response.scode < 400 && event.response.hasLocation && c.redirects < 5
    && match c.redirectAction
       case RedirectNever => false
       case RedirectAlways => true
       case RedirectDefault => event.response.scode == 303 || c.verb == HvGet || c.verb == HvHead
  }

  /** The request has a document that would have to be sent again, and cannot be. */
  predicate CannotReplay(c: Client, event: Event) { c.hasDocument && !Rewinds(event) }

  /** What each answer makes of the client it was awaited by: it is retried, redirected, ended with an error, ended
      well, or goes on; and in which words it is ended. */
  lemma WhatBecomes(c: Client, event: Event)
    requires Answers(c, event)
    ensures var d := Next(c, event);
            if TriesAgain(c, event) then
              if CannotReplay(c, event) then Ended(c, d, HeStream)
              else Waiting(d) && d.attempt == c.attempt + 1 && d.redirects == c.redirects && SameRequest(c, d)
            else if Reported(event) != HeNone then Ended(c, d, Reported(event))
            else if SendsElsewhere(c, event) then
              if event.response.scode != 303 && CannotReplay(c, event) then Ended(c, d, HeStream)
              else
                && Waiting(d) && d.attempt == 0 && d.redirects == c.redirects + 1 && d.response == Response(500, false)
                && d.completed == c.completed && (d.phase == Resolving <==> event.toName)
                && (if event.response.scode == 303 then d.verb == HvGet && !d.hasDocument else SameRequest(c, d))
            else if Answered(event) then Ended(c, d, HeNone)
            else d.phase != Idle && d.attempt == c.attempt && d.redirects == c.redirects && SameRequest(c, d)
  {}

  predicate Ended(c: Client, d: Client, err: HttpError) { d.phase == Idle && d.completed == c.completed + [err] }

  predicate SameRequest(c: Client, d: Client) {
    d.verb == c.verb && d.hasDocument == c.hasDocument && d.completed == c.completed
  }

  /** The error signalled at the end of a run is that of the answer which ended it: what it reported, or HE_STREAM
      where a document could not be sent again. */
  predicate EndedBy(c: Client, event: Event, err: HttpError) {
    && Answers(c, event)
    && (if CannotReplay(c, event) && (TriesAgain(c, event) || (SendsElsewhere(c, event) && event.response.scode != 303))
        then err == HeStream
        else err == Reported(event) && !TriesAgain(c, event) && !SendsElsewhere(c, event)
             && (err == HeNone ==> Answered(event)))
  }

  lemma {:induction false} RunEndsWith(c: Client, events: seq<Event>) returns (k: nat)
    requires c.phase != Idle && Run(c, events).phase == Idle
    ensures k < |events| && Run(c, events[..k]).phase != Idle
    ensures Run(c, events).completed != [] && EndedBy(Run(c, events[..k]), events[k], Run(c, events).completed[|Run(c, events).completed| - 1])
    decreases |events|
  {
    hide Next, EndedBy, Answers;
    var d := Next(c, events[0]);
    if d.phase == Idle {
      IdleStays(d, events[1..]);
      EndsNow(c, events[0]);
      assert events[..0] == [];
      k := 0;
    } else {
      var j := RunEndsWith(d, events[1..]);
      k := j + 1;
      assert events[..k] == [events[0]] + events[1..][..j];
      RunCons(c, events[0], events[1..][..j]);
    }
  }

  lemma EndsNow(c: Client, event: Event)
    requires c.phase != Idle && Next(c, event).phase == Idle
    ensures var done := Next(c, event).completed; done != [] && EndedBy(c, event, done[|done| - 1])
  {
    if Answers(c, event) { WhatBecomes(c, event); }
  }

  /** By default a request other than GET and HEAD stays what it is, where it is, as long as no 303 comes. */
  lemma {:induction false} PostStays(c: Client, events: seq<Event>)
    requires c.redirectAction == RedirectDefault && c.verb != HvGet && c.verb != HvHead
    requires forall i :: 0 <= i < |events| && events[i].Completed? ==> events[i].response.scode != 303
    requires c.response.scode != 303
    ensures var d := Run(c, events); d.verb == c.verb && d.hasDocument == c.hasDocument && d.redirects == c.redirects
    decreases |events|
  {
    if events == [] {
    } else {
      var event := events[0];
      if !Answers(c, event) { assert Next(c, event) == c; } else { WhatBecomes(c, event); }
      StaysDefault(c, event);
      hide Next;
      PostStays(Next(c, event), events[1..]);
    }
  }

  lemma StaysDefault(c: Client, event: Event)
    ensures Next(c, event).redirectAction == c.redirectAction && Next(c, event).retries == c.retries
    ensures Answers(c, event) && event.Completed? && event.response.scode != 303 ==> Next(c, event).response.scode != 303
    ensures c.response.scode != 303 && !event.Completed? ==> Next(c, event).response.scode != 303
  {}

  // ------------------------------------------------------------ the bound is reached

  lemma {:induction false} RunAppend(c: Client, a: seq<Event>, b: seq<Event>)
    ensures Run(c, a + b) == Run(Run(c, a), b)
    decreases |a|
  {
    hide Next;
    if a == [] {
      assert a + b == b;
    } else {
      RunAppend(Next(c, a[0]), a[1..], b);
      assert (a + b)[1..] == a[1..] + b;
    }
  }

  /** The pool fails n times. */
  function Failures(n: nat): seq<Event> {
    if n == 0 then [] else [StreamAnswer(false, true)] + Failures(n - 1)
  }

  const CONNECTED := StreamAnswer(true, true)
  const REDIRECTED := Completed(HmRecv, HeNone, Response(302, true), true, false)

  /** Every connection fails until the last attempt; each redirect but the last is followed. */
  function WorstCase(retries: nat, redirects: nat): seq<Event>
    decreases redirects
  {
    if redirects == 0 then Failures(retries + 1)
    else Failures(retries) + [CONNECTED, REDIRECTED] + WorstCase(retries, redirects - 1)
  }

  /** A GET asked of a numeric address, redirects allowed, nothing received yet. */
  predicate Asking(c: Client, redirects: nat) {
    && c.phase == Requesting && c.attempt == 0 && c.redirects == redirects && !c.unresolved && !c.hasDocument
    && c.redirectAction == RedirectDefault && c.verb == HvGet && c.response == CLEARED
  }

  lemma {:induction false} FailuresRetry(c: Client, n: nat)
    requires c.phase == Requesting && !c.unresolved && !c.hasDocument && c.response == CLEARED && c.attempt + n <= c.retries
    ensures Run(c, Failures(n)) == c.(attempt := c.attempt + n, connections := c.connections + n)
    decreases n
  {
    if n == 0 {
    } else {
      var c' := c.(attempt := c.attempt + 1, connections := c.connections + 1);
      assert Next(c, StreamAnswer(false, true)) == c';
      assert Failures(n)[1..] == Failures(n - 1);
      FailuresRetry(c', n - 1);
    }
  }

  lemma {:induction false} WorstCaseCounts(c: Client, left: nat)
    requires left <= MAX_REDIRECTS && Asking(c, MAX_REDIRECTS - left)
    ensures var c' := Run(c, WorstCase(c.retries, left));
            c'.connections == c.connections + (c.retries + 1) * (left + 1) && c'.phase == Idle
    decreases left
  {
    hide Next, CompleteStep;
    FailuresRetry(c, c.retries);
    var tried := c.(attempt := c.retries, connections := c.connections + c.retries);
    if left == 0 {
      FailuresEnd(c.retries);
      RunAppend(c, Failures(c.retries), [StreamAnswer(false, true)]);
      LastFailure(tried);
    } else {
      RunAppend(c, Failures(c.retries) + [CONNECTED, REDIRECTED], WorstCase(c.retries, left - 1));
      RunAppend(c, Failures(c.retries), [CONNECTED, REDIRECTED]);
      var c' := Redirected(tried);
      WorstCaseCounts(c', left - 1);
      assert (c.retries + 1) * (left + 1) == (c.retries + 1) * left + (c.retries + 1);
    }
  }

  lemma {:induction false} FailuresEnd(n: nat)
    ensures Failures(n + 1) == Failures(n) + [StreamAnswer(false, true)]
  {
    if n == 0 {
    } else {
      FailuresEnd(n - 1);
    }
  }

  lemma LastFailure(c: Client)
    requires c.phase == Requesting && c.attempt == c.retries
    ensures var c' := Run(c, [StreamAnswer(false, true)]); c'.connections == c.connections + 1 && c'.phase == Idle
  {
    assert [StreamAnswer(false, true)][1..] == [];
  }

  lemma Redirected(c: Client) returns (c': Client)
    requires Asking(c.(attempt := 0), c.redirects) && c.redirects < MAX_REDIRECTS
    ensures c' == Run(c, [CONNECTED, REDIRECTED]) && c'.connections == c.connections + 1 && c'.retries == c.retries
    ensures Asking(c', c.redirects + 1)
  {
    assert [CONNECTED, REDIRECTED][1..] == [REDIRECTED] && [REDIRECTED][1..] == [];
    c' := Next(Next(c, CONNECTED), REDIRECTED);
    assert Run(c, [CONNECTED, REDIRECTED]) == Run(Next(c, CONNECTED), [REDIRECTED]) == c';
  }

  /** For any number of retries some run makes exactly that many connections. */
  lemma BoundIsReached(retries: nat)
    ensures exists c: Client, events ::
              && c.phase == Idle && c.retries == retries && c.redirects == 0
              && Run(StartStep(c), events).connections - c.connections == (retries + 1) * (MAX_REDIRECTS + 1)
  {
    var c := Client(Idle, retries, 0, 0, RedirectDefault, HvGet, false, false, CLEARED, 0, []);
    WorstCaseCounts(StartStep(c), MAX_REDIRECTS);
    var events := WorstCase(retries, MAX_REDIRECTS);
    assert Run(StartStep(c), events).connections - c.connections == (retries + 1) * (MAX_REDIRECTS + 1);
  }

  // ------------------------------------------------------------ the class

  lemma RunNone(c: Client)
    ensures Run(c, []) == c
  {}

  /** connect() asks the pool at once, so a failure comes back into onHttpComplete before it returns. */
  class HttpClient {
    var phase: Phase
    var retries: nat
    var attempt: nat
    var redirects: nat
    var redirectAction: RedirectAction
    var verb: Verb
    var hasDocument: bool
    var unresolved: bool
    var response: Response
    ghost var connections: nat
    ghost var completed: seq<HttpError>

    ghost function Model(): Client
      reads this
    {
      Client(phase, retries, attempt, redirects, redirectAction, verb, hasDocument, unresolved, response, connections, completed)
    }

    constructor ()
      ensures Model().phase == Idle && Sound(Model()) && retries == DEFAULT_RETRIES && redirects == 0 && completed == []
    {
      phase, retries, attempt, redirects, redirectAction := Idle, DEFAULT_RETRIES, 0, 0, RedirectDefault;
      verb, hasDocument, unresolved, response, connections, completed := HvGet, false, false, CLEARED, 0, [];
    }

    /** From the user's start() until the client waits for the world: at most the bound in connections. */
    method Start() returns (ghost events: seq<Event>)
      requires redirects <= MAX_REDIRECTS
      modifies this
      ensures Sound(Model()) && Model() == Run(StartStep(old(Model())), events)
      ensures old(phase) == Idle ==> connections - old(connections) <= (retries + 1) * (MAX_REDIRECTS + 1)
      decreases FullBudget(redirects, retries), 3
    {
      ghost var before := Model();
      attempt := 0;
      events := Connect();
      if before.phase == Idle { ConnectionsAreBounded(before, events); }
      RunSpends(StartStep(before), events);
    }

    method Connect() returns (ghost events: seq<Event>)
      requires Sound(Model())
      modifies this
      ensures Sound(Model()) && Model() == Run(ConnectStep(old(Model())), events)
      decreases Budget(Model()), 2
    {
      hide CompleteStep;
      if unresolved {
        phase := Resolving;
        RunNone(Model());
        return [];
      }
      phase := Requesting;
      ghost var asking := Model();
      var ok: bool, rewinds: bool := *, *;
      connections := connections + 1;
      if ok {
        phase := Attached;
        RunNone(Model());
        RunCons(asking, StreamAnswer(true, rewinds), []);
        return [StreamAnswer(true, rewinds)] + [];
      }
      ghost var rest := OnHttpComplete(HmConnect, HeConnectFailed, rewinds, false);
      RunCons(asking, StreamAnswer(false, rewinds), rest);
      events := [StreamAnswer(false, rewinds)] + rest;
    }

    method OnResolveResult(ok: bool, rewinds: bool) returns (ghost events: seq<Event>)
      requires Sound(Model()) && phase == Resolving
      modifies this
      ensures Sound(Model()) && Model() == Run(old(Model()), [Resolved(ok, rewinds)] + events)
    {
      hide CompleteStep;
      ghost var before := Model();
      if ok {
        unresolved := false;
        events := Connect();
      } else {
        events := OnHttpComplete(HmConnect, HeConnectFailed, rewinds, false);
      }
      RunCons(before, Resolved(ok, rewinds), events);
    }

    /** The transfer engine's report on the stream it was given. */
    method OnReport(mode: HttpMode, err: HttpError, received: Response, rewinds: bool, toName: bool) returns (ghost events: seq<Event>)
      requires Sound(Model()) && phase == Attached
      modifies this
      ensures Sound(Model()) && Model() == Run(old(Model()), [Completed(mode, err, received, rewinds, toName)] + events)
    {
      hide CompleteStep;
      ghost var before := Model();
      response := received;
      events := OnHttpComplete(mode, err, rewinds, toName);
      RunCons(before, Completed(mode, err, received, rewinds, toName), events);
    }

    method OnHttpComplete(mode: HttpMode, err: HttpError, rewinds: bool, toName: bool) returns (ghost events: seq<Event>)
      requires Sound(Model())
      modifies this
      ensures Sound(Model()) && Model() == Run(CompleteStep(old(Model()), mode, err, rewinds, toName), events)
      decreases Budget(Model()), 1
    {
      hide Budget, FullBudget, Moved, Run, Redirect, Retry;
      if ConnectionLost(err) && response.scode == HC_INTERNAL_SERVER_ERROR && attempt < retries {
        events := TryAgain(rewinds);
      } else if err != HeNone {
        events := Complete(err);
      } else if mode == HmConnect || mode == HmSend || CodeIsInformational(response.scode) {
        RunNone(Model());
        events := [];
      } else if MayRedirect(redirectAction, response, redirects, verb) {
        events := FollowRedirect(rewinds, toName);
      } else {
        events := Complete(HeNone);
      }
    }

    method TryAgain(rewinds: bool) returns (ghost events: seq<Event>)
      requires Sound(Model()) && attempt < retries
      modifies this
      ensures Sound(Model()) && Model() == Run(Retry(old(Model()), rewinds), events)
      decreases Budget(Model()), 0
    {
      hide Budget, Run;
      RetrySpends(Model());
      attempt := attempt + 1;
      SameBudget(ConnectStep(Model()), Model());
      if hasDocument && !rewinds { events := Complete(HeStream); } else { events := Connect(); }
    }

    method FollowRedirect(rewinds: bool, toName: bool) returns (ghost events: seq<Event>)
      requires Sound(Model()) && redirects < MAX_REDIRECTS
      modifies this
      ensures Sound(Model()) && Model() == Run(Redirect(old(Model()), rewinds, toName), events)
      decreases Budget(Model()), 0
    {
      hide Budget, FullBudget, Moved, Run;
      RedirectedBudget(Model());
      var err := PrepareRedirect(rewinds, toName);
      if err == HeNone { events := Start(); } else { events := Complete(err); }
    }

    /** SignalHttpClientComplete, after the stream has gone back to the pool. */
    method Complete(err: HttpError) returns (ghost events: seq<Event>)
      modifies this`phase, this`completed
      ensures Model() == Finish(old(Model()), err) == Run(Finish(old(Model()), err), events)
    {
      phase := Idle;
      completed := completed + [err];
      RunNone(Model());
      events := [];
    }

    method PrepareRedirect(rewinds: bool, toName: bool) returns (err: HttpError)
      modifies this`unresolved, this`verb, this`hasDocument, this`redirects, this`response
      ensures err == if old(response).scode != HC_SEE_OTHER && old(hasDocument) && !rewinds then HeStream else HeNone
      ensures redirects == old(redirects) + if err == HeNone then 1 else 0
      ensures Model() == if err == HeNone then Moved(old(Model()), toName) else old(Model()).(unresolved := toName)
    {
      err := HeNone;
      unresolved := toName;
      if response.scode == HC_SEE_OTHER {
        verb := HvGet;
        hasDocument := false;
      } else if hasDocument && !rewinds {
        err := HeStream;
      }
      if err == HeNone {
        redirects := redirects + 1;
        response := CLEARED;
      }
    }
  }
}
