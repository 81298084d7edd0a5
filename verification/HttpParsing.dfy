/** HttpParser: the incremental parser for leader, headers, chunk sizes, data,
    chunk terminators and trailers.

    Drain is the reference meaning: it parses as much of a text as it can with a document
    that takes everything offered. Parse says what one call of the parser does with a document
    that, by any script, takes part of what it is offered, blocks, or breaks at every call.
    The class is the imperative parser. */
module HttpParsing {
  import opened CText
  import opened HttpTypes
  import opened Sequences

  datatype State = StLeader | StHeaders | StChunkSize | StChunkTerm | StTrailers | StData | StComplete

  /** Everything the parser remembers, together with what it has handed on so far. */
  datatype Parser = Parser(state: State, chunked: bool, dataSize: SizeT,
                           leader: string, headers: seq<Header>, body: string)
  {
    predicate InLineState() { state != StData && state != StComplete }

    predicate AtDataEnd() { state == StData && dataSize == 0 }

    predicate AwaitsData() { state == StData && dataSize != 0 }

    /** How much of n available characters belongs to the data being received. */
    function Available(n: nat): nat {
      if dataSize != SIZE_UNKNOWN && n > dataSize then dataSize else n
    }

    function TakeData(data: string): Parser
      requires |data| <= Available(|data|)
    {
      this.(body := body + data,
            dataSize := if dataSize == SIZE_UNKNOWN then dataSize else dataSize - |data|)
    }
  }

  function Fresh(): Parser { Parser(StLeader, false, SIZE_UNKNOWN, "", [], "") }

  /** What the owner's header-complete callback decides; it may also replace the data size. */
  datatype Verdict = Verdict(error: HttpError, dataSize: SizeT, stall: bool)

  /** The callbacks supplied by the owner of the parser. */
  datatype Owner = Owner(parseLeader: string -> HttpError,
                         headerComplete: (string, seq<Header>, bool, SizeT) -> Verdict)

  datatype LineResult = Go(next: Parser) | Stall(next: Parser) | Stop(next: Parser, error: HttpError)

  // ------------------------------------------------------------ one line

  function SplitHeader(line: string): (h: Header)
    requires IndexOf(line, ':') < |line|
  {
    var colon := IndexOf(line, ':');
    var rest := line[colon + 1..];
    Header(line[..colon], rest[LeadingSpaces(rest)..])
  }

  /** What a header says about the length of the message: the new (chunked, dataSize), if it is legal. */
  function HeaderEffect(h: Header, chunked: bool, dataSize: SizeT): Option<(bool, SizeT)> {
    if EqualsIgnoreCase(h.name, "Content-Length") then
      match ScanUnsigned(h.value)
      case None => None
      case Some(n) => Some((chunked, n))
    else if EqualsIgnoreCase(h.name, "Transfer-Encoding") then
      if EqualsIgnoreCase(h.value, "chunked") then Some((true, dataSize))
      else if EqualsIgnoreCase(h.value, "identity") then Some((false, dataSize))
      else None
    else Some((chunked, dataSize))
  }

  function HeaderStep(p: Parser, line: string): LineResult {
    if IndexOf(line, ':') == |line| then Stop(p, HeProtocol)
    else
      var h := SplitHeader(line);
      match HeaderEffect(h, p.chunked, p.dataSize)
      case None => Stop(p, HeProtocol)
      case Some(e) => Go(p.(chunked := e.0, dataSize := e.1, headers := p.headers + [h]))
  }

  /** The meaning of ProcessLine: line has already lost its terminator and its trailing white space. */
  function LineStep(owner: Owner, p: Parser, line: string): (r: LineResult)
    requires p.InLineState()
    ensures r.next.state != StComplete
  {
    match p.state
    case StLeader =>
      var next := p.(state := StHeaders, leader := line);
      var error := owner.parseLeader(line);
      if error == HeNone then Go(next) else Stop(next, error)
    case StHeaders =>
      if |line| > 0 then HeaderStep(p, line)
      else
        var verdict := owner.headerComplete(p.leader, p.headers, p.chunked, p.dataSize);
        var next := p.(state := if p.chunked then StChunkSize else StData, dataSize := verdict.dataSize);
        if verdict.error != HeNone then Stop(next, verdict.error)
        else if verdict.stall then Stall(next)
        else Go(next)
    case StChunkSize =>
      if |line| > 0 then
        var size := Strtoul(line, 16);
        if size.used != |line| then Stop(p.(dataSize := size.value), HeProtocol)
        else Go(p.(dataSize := size.value, state := if size.value == 0 then StTrailers else StData))
      else Stop(p, HeProtocol)
    case StChunkTerm =>
      if |line| > 0 then Stop(p, HeProtocol)
      else Go(p.(state := if p.chunked then StChunkSize else StData))
    case StTrailers =>
      if |line| == 0 then Stop(p, HeNone) else Go(p)
  }

  // ------------------------------------------------------------ what is an error

  /** What makes a header line illegal: no colon, a length without a number, an unknown coding. */
  predicate IllegalHeader(line: string) {
    || ':' !in line
    || (var h := SplitHeader(line);
        || (EqualsIgnoreCase(h.name, "Content-Length") && var j := SignEnd(h.value); j == |h.value| || !('0' <= h.value[j] <= '9'))
        || (EqualsIgnoreCase(h.name, "Transfer-Encoding") && !EqualsIgnoreCase(h.value, "chunked") && !EqualsIgnoreCase(h.value, "identity")))
  }

  /** A line ends the message with an error if and only if the owner refuses the leader, or the headers at their
      end, or the line is not what the protocol has in this place; and which error that is. A blank line after the
      trailers ends it well. */
  lemma LineStopsIff(owner: Owner, p: Parser, line: string)
    requires p.InLineState()
    ensures var r := LineStep(owner, p, line);
            var verdict := owner.headerComplete(p.leader, p.headers, p.chunked, p.dataSize);
            match p.state
            case StLeader => if owner.parseLeader(line) == HeNone then !r.Stop? else r.Stop? && r.error == owner.parseLeader(line)
            case StHeaders =>
              if line == "" then
                if verdict.error == HeNone then !r.Stop? && (r.Stall? <==> verdict.stall) else r.Stop? && r.error == verdict.error
              else if IllegalHeader(line) then r == Stop(p, HeProtocol) else r.Go?
            case StChunkSize => if line != "" && Strtoul(line, 16).used == |line| then r.Go? else r.Stop? && r.error == HeProtocol
            case StChunkTerm => if line == "" then r.Go? else r == Stop(p, HeProtocol)
            case StTrailers => if line == "" then r == Stop(p, HeNone) else r == Go(p)
            case _ => true
  {
    hide SplitHeader, EqualsIgnoreCase, ScanUnsigned, SignEnd, Strtoul;
    if p.state == StHeaders && line != "" {
      ColonIsThere(line);
      if ':' in line {
        ScanUnsignedRefusesIff(SplitHeader(line).value);
        NotBothNames(SplitHeader(line).name);
      }
    }
  }

  /** Where the parser goes from a line that is all right. */
  lemma LineMovesTo(owner: Owner, p: Parser, line: string)
    requires p.InLineState() && !LineStep(owner, p, line).Stop?
    ensures LineStep(owner, p, line).next.state
         == match p.state
            case StLeader => StHeaders
            case StHeaders => if line != "" then StHeaders else if p.chunked then StChunkSize else StData
            case StChunkSize => if Strtoul(line, 16).value == 0 then StTrailers else StData
            case StChunkTerm => if p.chunked then StChunkSize else StData
            case StTrailers => StTrailers
            case _ => p.state
  {
    hide SplitHeader, HeaderEffect, Strtoul;
  }

  lemma NotBothNames(name: string)
    ensures !(EqualsIgnoreCase(name, "Content-Length") && EqualsIgnoreCase(name, "Transfer-Encoding"))
  {
    assert |Lower("Content-Length")| != |Lower("Transfer-Encoding")|;
  }

  lemma ColonIsThere(line: string)
    ensures ':' in line <==> IndexOf(line, ':') < |line|
  {}

  // ------------------------------------------------------------ the reference meaning

  /** One turn of the Process loop with a document that takes everything: nothing can be done
      yet, the parser moves on by used characters (and the owner may ask it to stall there), or
      the message ends after used characters. */
  datatype Turn = Wait | Move(next: Parser, used: nat, stall: bool) | End(next: Parser, used: nat, error: HttpError)

  function TakeTurn(owner: Owner, p: Parser, text: string): (t: Turn)
    ensures !t.Wait? ==> t.used <= |text|
    ensures t.Move? && t.used == 0 ==> p.AtDataEnd() && !t.next.AtDataEnd()
  {
    if p.state == StComplete then End(p, 0, HeNone)
    else if p.InLineState() then TakeLine(owner, p, text)
    else if p.dataSize == 0 then if p.chunked then Move(p.(state := StChunkTerm), 0, false) else End(p, 0, HeNone)
    else if text == [] then Wait
    else
      var n := p.Available(|text|);
      Move(p.TakeData(text[..n]), n, false)
  }

  function TakeLine(owner: Owner, p: Parser, text: string): (t: Turn)
    requires p.InLineState()
    ensures !t.Wait? ==> 0 < t.used <= |text|
    ensures t.Wait? <==> '\n' !in text
  {
    var i := IndexOf(text, '\n');
    if i == |text| then Wait
    else
      match LineStep(owner, p, TrimRight(text[..i]))
      case Go(next) => Move(next, i + 1, false)
      case Stall(next) => Move(next, i + 1, true)
      case Stop(next, error) => End(next, i + 1, error)
  }

  /** Either the text ran out (and rest is still unused), or the message ended before rest. */
  datatype Outcome = More(p: Parser, rest: string) | Finished(p: Parser, rest: string, error: HttpError)

  function Drain(owner: Owner, p: Parser, text: string): Outcome
    decreases |text|, if p.AtDataEnd() then 1 else 0
  {
    match TakeTurn(owner, p, text)
    case Wait => More(p, text)
    case Move(next, used, _) => Drain(owner, next, text[used..])
    case End(next, used, error) => Finished(next, text[used..], error)
  }

  /** Drain unfolded once. */
  lemma DrainOneTurn(owner: Owner, p: Parser, text: string)
    ensures var t := TakeTurn(owner, p, text);
            Drain(owner, p, text) == if t.Wait? then More(p, text)
                                     else if t.Move? then Drain(owner, t.next, text[t.used..])
                                     else Finished(t.next, text[t.used..], t.error)
  {}

  /** PR_CONTINUE means: all data consumed, or no complete line left. */
  lemma {:induction false} DrainLeavesNoElement(owner: Owner, p: Parser, text: string)
    ensures var r := Drain(owner, p, text);
            r.More? ==> if r.p.InLineState() then '\n' !in r.rest else r.p.AwaitsData() && r.rest == []
    decreases |text|, if p.AtDataEnd() then 1 else 0
  {
    var t := TakeTurn(owner, p, text);
    if t.Move? { DrainLeavesNoElement(owner, t.next, text[t.used..]); }
  }

  lemma TakeDataTwice(p: Parser, a: string, b: string)
    requires p.AwaitsData() && p.Available(|a| + |b|) == |a| + |b|
    ensures p.TakeData(a).TakeData(b) == p.TakeData(a + b)
  {
    assert p.body + a + b == p.body + (a + b);
  }

  /** Taking only the first k characters of the data on offer changes nothing in the end. */
  lemma {:induction false} DrainPartialData(owner: Owner, p: Parser, text: string, k: nat)
    requires p.AwaitsData() && 0 < k <= p.Available(|text|)
    ensures Drain(owner, p, text) == Drain(owner, p.TakeData(text[..k]), text[k..])
  {
    hide TakeLine, Drain;
    var n := p.Available(|text|);
    DrainOneTurn(owner, p, text);
    if k < n {
      TakeInTwoSteps(text, k, n);
      var q := p.TakeData(text[..k]);
      TakeDataTwice(p, text[..k], text[k..][..n - k]);
      assert q.AwaitsData() && q.Available(|text| - k) == n - k;
      DrainOneTurn(owner, q, text[k..]);
    }
  }

  lemma TakeLineAppend(owner: Owner, p: Parser, a: string, b: string)
    requires p.InLineState() && '\n' in a
    ensures TakeLine(owner, p, a + b) == TakeLine(owner, p, a)
  {
    var i := IndexOf(a, '\n');
    IndexOfUnique(a + b, '\n', i);
    assert (a + b)[..i] == a[..i];
  }

  function Resume(owner: Owner, r: Outcome, more: string): Outcome {
    match r
    case More(p, rest) => Drain(owner, p, rest + more)
    case Finished(p, rest, error) => Finished(p, rest + more, error)
  }

  /** Parsing a ++ b at once is parsing a and then going on with what a left over, followed by b. */
  lemma {:induction false} DrainAppend(owner: Owner, p: Parser, a: string, b: string)
    ensures Drain(owner, p, a + b) == Resume(owner, Drain(owner, p, a), b)
    decreases |a|, if p.AtDataEnd() then 1 else 0
  {
    hide TakeLine;
    var t := TakeTurn(owner, p, a);
    if !t.Wait? {
      if p.InLineState() { TakeLineAppend(owner, p, a, b); }
      if p.AwaitsData() { DrainPartialData(owner, p, a + b, t.used); }
      assert (a + b)[..t.used] == a[..t.used];
      assert (a + b)[t.used..] == a[t.used..] + b;
    }
    if t.Move? { DrainAppend(owner, t.next, a[t.used..], b); }
  }

  /** Feed the parser one fragment at a time, keeping the unprocessed suffix in front of the next one. */
  function Feed(owner: Owner, p: Parser, kept: string, fragments: seq<string>): Outcome
    decreases |fragments|
  {
    var r := Drain(owner, p, kept);
    if fragments == [] then r
    else match r
      case More(next, rest) => Feed(owner, next, rest + fragments[0], fragments[1..])
      case Finished(next, rest, error) => Finished(next, rest + Concat(fragments), error)
  }

  /** However a message is cut up on arrival, the leader, headers, body, result and final
      parser state are those of parsing it whole. */
  lemma {:induction false} FragmentationIndependence(owner: Owner, p: Parser, kept: string, fragments: seq<string>)
    ensures Feed(owner, p, kept, fragments) == Drain(owner, p, kept + Concat(fragments))
    decreases |fragments|
  {
    DrainAppend(owner, p, kept, Concat(fragments));
    if fragments == [] {
      assert kept + [] == kept;
    } else {
      var r := Drain(owner, p, kept);
      if r.More? {
        assert r.rest + fragments[0] + Concat(fragments[1..]) == r.rest + Concat(fragments);
        FragmentationIndependence(owner, r.p, r.rest + fragments[0], fragments[1..]);
      }
    }
  }

  // ------------------------------------------------------------ what one call does

  /** The document's answers to come: it takes at most so many characters, blocks, or breaks. When
      they have run out it takes everything. */
  datatype Taking = Takes(most: nat) | Blocks | Breaks(result: StreamResult)

  type Script = seq<Taking>

  /** The next answer to an offer of n characters; something is always taken, and never more. */
  function Answer(writes: Script, n: nat): (t: Taking)
    requires n > 0
    ensures t.Takes? ==> 0 < t.most <= n
  {
    if writes == [] then Takes(n)
    else if !writes[0].Takes? then writes[0]
    else if writes[0].most == 0 then Takes(1)
    else if writes[0].most > n then Takes(n)
    else writes[0]
  }

  function Later(writes: Script): Script { if writes == [] then [] else writes[1..] }

  /** Where a call of Process stops: the parser, the input it has not processed, the document's
      answers it has not used, and what it returns. */
  datatype Halt = Halt(p: Parser, rest: string, writes: Script, result: ProcessResult, error: HttpError, broken: bool)

  function Parse(owner: Owner, p: Parser, writes: Script, text: string): (h: Halt)
    ensures |h.rest| <= |text|
    decreases |text|, if p.AtDataEnd() then 1 else 0
  {
    if p.AwaitsData() && text != [] then
      var n := p.Available(|text|);
      match Answer(writes, n)
      case Takes(k) => Parse(owner, p.TakeData(text[..k]), Later(writes), text[k..])
      case Blocks => Halt(p, text, Later(writes), PrBlock, HeNone, false)
      case Breaks(_) => Halt(p, text, Later(writes), PrComplete, HeStream, true)
    else
      match TakeTurn(owner, p, text)
      case Wait => Halt(p, text, writes, PrContinue, HeNone, false)
      case Move(next, used, stall) =>
        if stall then Halt(next, text[used..], writes, PrBlock, HeNone, false)
        else Parse(owner, next, writes, text[used..])
      case End(next, used, error) => Halt(next, text[used..], writes, PrComplete, error, false)
  }

  /** Parse unfolded once: away from the data, and at the data. */
  lemma ParseOneTurn(owner: Owner, p: Parser, writes: Script, text: string)
    ensures !(p.AwaitsData() && text != []) ==>
              var t := TakeTurn(owner, p, text);
              Parse(owner, p, writes, text)
              == if t.Wait? then Halt(p, text, writes, PrContinue, HeNone, false)
                 else if t.End? then Halt(t.next, text[t.used..], writes, PrComplete, t.error, false)
                 else if t.stall then Halt(t.next, text[t.used..], writes, PrBlock, HeNone, false)
                 else Parse(owner, t.next, writes, text[t.used..])
    ensures p.AwaitsData() && text != [] ==>
              var a := Answer(writes, p.Available(|text|));
              Parse(owner, p, writes, text)
              == if a.Takes? then Parse(owner, p.TakeData(text[..a.most]), Later(writes), text[a.most..])
                 else if a.Blocks? then Halt(p, text, Later(writes), PrBlock, HeNone, false)
                 else Halt(p, text, Later(writes), PrComplete, HeStream, true)
  {}

  /** The same, state by state. */
  lemma ParseLineTurn(owner: Owner, p: Parser, writes: Script, text: string)
    requires p.InLineState()
    ensures var t := TakeLine(owner, p, text);
            Parse(owner, p, writes, text)
            == if t.Wait? then Halt(p, text, writes, PrContinue, HeNone, false)
               else if t.End? then Halt(t.next, text[t.used..], writes, PrComplete, t.error, false)
               else if t.stall then Halt(t.next, text[t.used..], writes, PrBlock, HeNone, false)
               else Parse(owner, t.next, writes, text[t.used..])
  {
    hide TakeLine, Parse;
    ParseOneTurn(owner, p, writes, text);
  }

  lemma ParseOtherTurn(owner: Owner, p: Parser, writes: Script, text: string)
    requires !p.InLineState() && (p.AwaitsData() ==> text == "")
    ensures Parse(owner, p, writes, text)
            == if p.AwaitsData() then Halt(p, text, writes, PrContinue, HeNone, false)
               else if p.AtDataEnd() && p.chunked then Parse(owner, p.(state := StChunkTerm), writes, text)
               else Halt(p, text, writes, PrComplete, HeNone, false)
  {
    hide TakeLine, Parse;
    ParseOneTurn(owner, p, writes, text);
    assert text[0..] == text;
  }

  lemma ParseDataTurn(owner: Owner, p: Parser, writes: Script, text: string)
    requires p.AwaitsData() && text != ""
    ensures var a := Answer(writes, p.Available(|text|));
            Parse(owner, p, writes, text)
            == if a.Takes? then Parse(owner, p.TakeData(text[..a.most]), Later(writes), text[a.most..])
               else if a.Blocks? then Halt(p, text, Later(writes), PrBlock, HeNone, false)
               else Halt(p, text, Later(writes), PrComplete, HeStream, true)
  {
    hide Parse;
    ParseOneTurn(owner, p, writes, text);
  }

  /** What is left after a call, together with what was done, means what the input meant. */
  ghost predicate Carried(owner: Owner, before: Parser, text: string, h: Halt) {
    var meant := Drain(owner, before, text);
    if h.broken then h.result == PrComplete && h.error == HeStream && meant == Drain(owner, h.p, h.rest)
    else match h.result
      case PrContinue => h.error == HeNone && meant == More(h.p, h.rest)
      case PrComplete => meant == Finished(h.p, h.rest, h.error)
      case PrBlock => h.error == HeNone && meant == Drain(owner, h.p, h.rest)
  }

  /** Whatever part of the data the document accepts each time, nothing is skipped, repeated or torn. */
  lemma {:induction false} ParseCarries(owner: Owner, p: Parser, writes: Script, text: string)
    ensures Carried(owner, p, text, Parse(owner, p, writes, text))
    decreases |text|, if p.AtDataEnd() then 1 else 0
  {
    hide TakeTurn, Parse, Drain;
    ParseOneTurn(owner, p, writes, text);
    DrainOneTurn(owner, p, text);
    if p.AwaitsData() && text != [] {
      var a := Answer(writes, p.Available(|text|));
      if a.Takes? {
        ParseCarries(owner, p.TakeData(text[..a.most]), Later(writes), text[a.most..]);
        DrainPartialData(owner, p, text, a.most);
      }
    } else {
      var t := TakeTurn(owner, p, text);
      if t.Move? && !t.stall { ParseCarries(owner, t.next, writes, text[t.used..]); }
    }
  }

  /** The document never blocks and never breaks. */
  predicate Willing(writes: Script) { forall i :: 0 <= i < |writes| ==> writes[i].Takes? }

  /** The owner never asks the parser to stall after the headers. */
  ghost predicate NeverStalls(owner: Owner) {
    forall leader, headers, chunked, size :: !owner.headerComplete(leader, headers, chunked, size).stall
  }

  lemma LineNeverStalls(owner: Owner, p: Parser, text: string)
    requires NeverStalls(owner)
    ensures var t := TakeTurn(owner, p, text); t.Move? ==> !t.stall
  {
    hide HeaderStep, Strtoul, TrimRight, IndexOf;
    if p.InLineState() && IndexOf(text, '\n') < |text| { StepNeverStalls(owner, p, TrimRight(text[..IndexOf(text, '\n')])); }
  }

  lemma StepNeverStalls(owner: Owner, p: Parser, line: string)
    requires NeverStalls(owner) && p.InLineState()
    ensures !LineStep(owner, p, line).Stall?
  {
    hide HeaderEffect, SplitHeader, Strtoul, IndexOf;
  }

  /** A call is held up or fails for these two reasons only: the answers it used contain a block or a
      break, or the owner stalls. */
  lemma {:induction false} HeldForAReason(owner: Owner, p: Parser, writes: Script, text: string)
    requires Willing(writes) && NeverStalls(owner)
    ensures var h := Parse(owner, p, writes, text); h.result != PrBlock && !h.broken && Willing(h.writes)
    decreases |text|, if p.AtDataEnd() then 1 else 0
  {
    hide TakeTurn, Parse;
    ParseOneTurn(owner, p, writes, text);
    if p.AwaitsData() && text != [] {
      var a := Answer(writes, p.Available(|text|));
      HeldForAReason(owner, p.TakeData(text[..a.most]), Later(writes), text[a.most..]);
    } else {
      LineNeverStalls(owner, p, text);
      var t := TakeTurn(owner, p, text);
      if t.Move? { HeldForAReason(owner, t.next, writes, text[t.used..]); }
    }
  }

  /** With a document that neither blocks nor breaks the imperative parser computes the reference
      meaning, however little the document takes at a time. */
  lemma WillingParseIsDrain(owner: Owner, p: Parser, writes: Script, text: string)
    requires Willing(writes) && NeverStalls(owner)
    ensures var h := Parse(owner, p, writes, text);
            Drain(owner, p, text) == if h.result == PrContinue then More(h.p, h.rest) else Finished(h.p, h.rest, h.error)
  {
    ParseCarries(owner, p, writes, text);
    HeldForAReason(owner, p, writes, text);
  }

  /** Calls of Process, one for each fragment that arrives, the unprocessed suffix kept in front. */
  function FeedCalls(owner: Owner, p: Parser, writes: Script, kept: string, fragments: seq<string>): Outcome
    decreases |fragments|
  {
    var h := Parse(owner, p, writes, kept);
    if h.result != PrContinue then Finished(h.p, h.rest + Concat(fragments), h.error)
    else if fragments == [] then More(h.p, h.rest)
    else FeedCalls(owner, h.p, h.writes, h.rest + fragments[0], fragments[1..])
  }

  /** However a message is cut up on arrival and however little the document takes at a time, the calls
      together come to what parsing it whole gives. */
  lemma {:induction false} CallsAreFragmentationIndependent(owner: Owner, p: Parser, writes: Script, kept: string, fragments: seq<string>)
    requires Willing(writes) && NeverStalls(owner)
    ensures FeedCalls(owner, p, writes, kept, fragments) == Drain(owner, p, kept + Concat(fragments))
    decreases |fragments|
  {
    hide Parse, Drain;
    var h := Parse(owner, p, writes, kept);
    WillingParseIsDrain(owner, p, writes, kept);
    HeldForAReason(owner, p, writes, kept);
    DrainAppend(owner, p, kept, Concat(fragments));
    if h.result == PrContinue {
      if fragments == [] {
        assert kept + [] == kept;
      } else {
        Assoc(h.rest, fragments[0], Concat(fragments[1..]));
        CallsAreFragmentationIndependent(owner, h.p, h.writes, h.rest + fragments[0], fragments[1..]);
      }
    }
  }

  // ------------------------------------------------------------ the imperative parser

  /** HttpData::document while receiving: it answers by any script. */
  class Document {
    var contents: string
    var writes: Script

    constructor (writes: Script)
      ensures contents == "" && this.writes == writes
    {
      contents, this.writes := "", writes;
    }

    method Write(data: string) returns (result: StreamResult, written: nat)
      requires data != []
      modifies this
      ensures var a := Answer(old(writes), |data|);
              && written <= |data| && writes == Later(old(writes))
              && (a.Takes? ==> result == SrSuccess && written == a.most && contents == old(contents) + data[..written])
              && (!a.Takes? ==> written == 0 && contents == old(contents))
              && (a.Blocks? ==> result == SrBlock)
              && (a.Breaks? ==> result == SrEos || result == SrError)
    {
      var a := Answer(writes, |data|);
      writes, written := Later(writes), 0;
      match a {
        case Takes(k) =>
          written := k;
          contents := contents + data[..k];
          result := SrSuccess;
        case Blocks =>
          result := SrBlock;
        case Breaks(r) =>
          result := if r == SrEos then SrEos else SrError;
      }
    }
  }

  class HttpParser {
    var state: State
    var chunked: bool
    var dataSize: SizeT
    var leader: string
    var headers: seq<Header>
    const document: Document
    const owner: Owner

    constructor (owner: Owner, document: Document)
      ensures this.owner == owner && this.document == document
      ensures Value() == Fresh().(body := document.contents)
    {
      this.owner, this.document := owner, document;
      state, chunked, dataSize := StLeader, false, SIZE_UNKNOWN;
      leader, headers := "", [];
    }

    function Value(): Parser
      reads this, document
    {
      Parser(state, chunked, dataSize, leader, headers, document.contents)
    }

    /** The parser has done what the step says, and reports it. */
    ghost predicate StepTaken(step: LineResult, result: ProcessResult, error: HttpError)
      reads this, document
    {
      && Value() == step.next
      && (step.Go? ==> result == PrContinue && error == HeNone)
      && (step.Stall? ==> result == PrBlock && error == HeNone)
      && (step.Stop? ==> result == PrComplete && error == step.error)
    }

    method Reset()
      modifies this
      ensures Value() == Fresh().(body := document.contents)
    {
      state, chunked, dataSize := StLeader, false, SIZE_UNKNOWN;
      leader, headers := "", [];
    }

    method ProcessLine(line: string) returns (result: ProcessResult, error: HttpError)
      requires Value().InLineState()
      modifies this
      ensures StepTaken(LineStep(owner, old(Value()), line), result, error)
    {
      error := HeNone;
      match state {
        case StLeader =>
          state, leader := StHeaders, line;
          error := owner.parseLeader(line);
          result := if error == HeNone then PrContinue else PrComplete;
        case StHeaders =>
          if |line| > 0 {
            result, error := ProcessHeaderLine(line);
          } else {
            state := if chunked then StChunkSize else StData;
            var verdict := owner.headerComplete(leader, headers, chunked, dataSize);
            dataSize, error := verdict.dataSize, verdict.error;
            result := if error != HeNone then PrComplete else if verdict.stall then PrBlock else PrContinue;
          }
        case StChunkSize =>
          if |line| > 0 {
            var size := Strtoul(line, 16);
            dataSize := size.value;
            if size.used != |line| { return PrComplete, HeProtocol; }
            state := if dataSize == 0 then StTrailers else StData;
          } else {
            return PrComplete, HeProtocol;
          }
          result := PrContinue;
        case StChunkTerm =>
          if |line| > 0 { return PrComplete, HeProtocol; }
          state := if chunked then StChunkSize else StData;
          result := PrContinue;
        case StTrailers =>
          result := if |line| == 0 then PrComplete else PrContinue;
      }
    }

    method ProcessHeaderLine(line: string) returns (result: ProcessResult, error: HttpError)
      requires state == StHeaders && |line| > 0
      modifies this
      ensures StepTaken(HeaderStep(old(Value()), line), result, error)
    {
      hide Lower, ScanUnsigned, IndexOf, SplitHeader;
      var colon := IndexOf(line, ':');
      if colon == |line| { return PrComplete, HeProtocol; }
      var h := SplitAtColon(line, colon);
      if EqualsIgnoreCase(h.name, "Content-Length") {
        var size := ScanUnsigned(h.value);
        if size.None? { return PrComplete, HeProtocol; }
        dataSize := size.value;
      } else if EqualsIgnoreCase(h.name, "Transfer-Encoding") {
        if EqualsIgnoreCase(h.value, "chunked") {
          chunked := true;
        } else if EqualsIgnoreCase(h.value, "identity") {
          chunked := false;
        } else {
          return PrComplete, HeProtocol;
        }
      }
      headers := headers + [h];
      return PrContinue, HeNone;
    }

    method SplitAtColon(line: string, colon: nat) returns (h: Header)
      requires colon == IndexOf(line, ':') < |line|
      ensures h == SplitHeader(line)
    {
      var rest := line[colon + 1..];
      var blanks := 0;
      while blanks < |rest| && IsSpace(rest[blanks])
        invariant blanks <= |rest|
        invariant forall i :: 0 <= i < blanks ==> IsSpace(rest[i])
      {
        blanks := blanks + 1;
      }
      LeadingSpacesUnique(rest, blanks);
      return Header(line[..colon], rest[blanks..]);
    }

    /** Exactly what Parse says; so for every document the outcome of the whole input is the one
        Drain gives. */
    method Process(buffer: string)
      returns (processed: nat, result: ProcessResult, error: HttpError, ghost broken: bool)
      modifies this, document
      ensures processed <= |buffer|
      ensures Halt(Value(), buffer[processed..], document.writes, result, error, broken)
           == Parse(owner, old(Value()), old(document.writes), buffer)
      ensures Carried(owner, old(Value()), buffer, Halt(Value(), buffer[processed..], document.writes, result, error, broken))
    {
      hide Parse, TakeLine, Drain, Carried, Answer, Later;
      ghost var meant := Parse(owner, Value(), document.writes, buffer);
      ParseCarries(owner, Value(), document.writes, buffer);
      processed, error, broken := 0, HeNone, false;
      assert buffer[0..] == buffer;
      if state == StComplete {
        ParseOtherTurn(owner, Value(), document.writes, buffer);
        return processed, PrComplete, error, false;
      }
      while true
        invariant processed <= |buffer| && state != StComplete && error == HeNone && !broken
        invariant meant == Parse(owner, Value(), document.writes, buffer[processed..])
        decreases |buffer| - processed, if Value().AtDataEnd() then 1 else 0
      {
        var text := buffer[processed..];
        if state != StData {
          ParseLineTurn(owner, Value(), document.writes, text);
          var used;
          used, result, error := ProcessNextLine(text);
          if used == 0 { return processed, PrContinue, HeNone, false; }
          SuffixOfSuffix(buffer, processed, used);
          processed := processed + used;
          if result != PrContinue { return; }
        } else if dataSize == 0 {
          ParseOtherTurn(owner, Value(), document.writes, text);
          if chunked {
            state := StChunkTerm;
          } else {
            return processed, PrComplete, error, false;
          }
        } else {
          if text == [] {
            ParseOtherTurn(owner, Value(), document.writes, text);
            return processed, PrContinue, error, false;
          }
          ParseDataTurn(owner, Value(), document.writes, text);
          var written, read := OfferData(text);
          if written == SrBlock { return processed, PrBlock, error, false; }
          if written != SrSuccess { return processed, PrComplete, HeStream, true; }
          SuffixOfSuffix(buffer, processed, read);
          processed := processed + read;
        }
      }
    }

    /** Parse one line if there is a complete one, and say how many characters it took. */
    method ProcessNextLine(text: string) returns (used: nat, result: ProcessResult, error: HttpError)
      requires Value().InLineState()
      modifies this
      ensures used <= |text|
      ensures used != 0 ==> Value().state != StComplete
      ensures used != 0 && result != PrComplete ==> error == HeNone
      ensures var t := TakeLine(owner, old(Value()), text);
              if t.Wait? then used == 0 && Value() == old(Value())
              else used == t.used && Value() == t.next
                   && (t.End? <==> result == PrComplete) && (t.End? ==> error == t.error)
                   && (t.Move? ==> (t.stall <==> result == PrBlock))
    {
      hide TrimRight, IndexOf, LineStep;
      result, error := PrContinue, HeNone;
      var pos := FindNewline(text);
      if pos >= |text| { return 0, result, error; }
      var n := TrimmedLength(text[..pos]);
      result, error := ProcessLine(text[..pos][..n]);
      used := pos + 1;
    }

    /** Offer the document all the data at hand that belongs to it; account for what it takes. */
    method OfferData(text: string) returns (result: StreamResult, read: nat)
      requires text != [] && Value().AwaitsData()
      modifies this, document
      ensures var a := Answer(old(document.writes), old(Value()).Available(|text|));
              && read <= |text| && document.writes == Later(old(document.writes))
              && (a.Takes? ==> result == SrSuccess && read == a.most && Value() == old(Value()).TakeData(text[..read]) && state == StData)
              && (!a.Takes? ==> Value() == old(Value()) && result != SrSuccess && (a.Blocks? <==> result == SrBlock))
    {
      var available := |text|;
      if dataSize != SIZE_UNKNOWN && available > dataSize { available := dataSize; }
      read := 0;
      result, read := document.Write(text[..available]);
      if result == SrSuccess {
        PrefixOfPrefix(text, available, read);
        if dataSize != SIZE_UNKNOWN { dataSize := dataSize - read; }
      }
    }

    method FindNewline(text: string) returns (pos: nat)
      ensures pos == IndexOf(text, '\n')
    {
      pos := 0;
      while pos < |text| && text[pos] != '\n'
        invariant pos <= |text|
        invariant forall i :: 0 <= i < pos ==> text[i] != '\n'
      {
        pos := pos + 1;
      }
      IndexOfUnique(text, '\n', pos);
    }

    method TrimmedLength(line: string) returns (n: nat)
      ensures n <= |line| && line[..n] == TrimRight(line)
    {
      n := |line|;
      while n > 0 && IsSpace(line[n - 1])
        invariant n <= |line|
        invariant forall i :: n <= i < |line| ==> IsSpace(line[i])
      {
        n := n - 1;
      }
      TrimRightUnique(line, n);
    }
  }
}
