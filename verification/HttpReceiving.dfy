/** HttpBase in HM_RECV mode: a pump that reads the network into one 32 KB buffer,
    runs the parser over it and keeps what the parser has not used. Turns says what one call of
    the pump does, for every script of answers of the network and of the document. */
module HttpReceiving {
  import opened CText
  import opened HttpTypes
  import opened HttpParsing
  import opened Sequences
  import opened Streams
  import Memory

  const MAX_READ_COUNT: nat := 20

  // ------------------------------------------------------------ the network

  /** The receiving half of http_stream_. */
  class Source {
    var incoming: string
    var deliveries: seq<Reading>

    constructor (text: string, deliveries: seq<Reading>)
      ensures incoming == text && this.deliveries == deliveries
    {
      incoming, this.deliveries := text, deliveries;
    }

    method Read(buffer: array<char>, at: nat, room: nat)
      returns (result: StreamResult, read: nat, error: int)
      requires 0 < room && at + room <= buffer.Length
      modifies this, buffer
      ensures deliveries == Rest(old(deliveries)) && read <= room && read <= |old(incoming)| && incoming == old(incoming)[read..]
      ensures buffer[..at + read] == old(buffer[..at]) + old(incoming)[..read]
      ensures match Delivery(old(deliveries), old(incoming), room)
              case Delivers(k) => result == SrSuccess && read == k
              case NothingYet => result == SrBlock && read == 0
              case Ends => result == SrEos && read == 0
              case Fails(code) => result == SrError && read == 0 && error == code
    {
      var answer := Delivery(deliveries, incoming, room);
      deliveries, read, error := Rest(deliveries), 0, 0;
      match answer {
        case Delivers(k) =>
          read, result := k, SrSuccess;
          Memory.Copy(buffer, at, incoming[..k]);
          incoming := incoming[k..];
        case NothingYet => result := SrBlock;
        case Ends => result := SrEos;
        case Fails(code) => result, error := SrError, code;
      }
    }
  }

  // ------------------------------------------------------------ what one call of the pump does

  /** is_valid_end_of_input */
  predicate ValidEndOfInput(p: Parser) {
    p.state == StData && p.dataSize == SIZE_UNKNOWN
  }

  function CloseError(p: Parser, code: int): HttpError { StreamCloseError(code, ValidEndOfInput(p)) }

  /** The pump with everything around it: the parser, the document's answers, the buffer, what is
      still to be delivered and the network's answers. */
  datatype Pump = Pump(p: Parser, writes: Script, pending: string, incoming: string, deliveries: seq<Reading>)
  {
    predicate Valid() { |pending| <= BUFFER_SIZE }

    /** The parser cannot make progress on what is buffered. */
    predicate Starved() {
      if p.InLineState() then '\n' !in pending else p.AwaitsData() && pending == ""
    }

    /** What will become of the message if everything buffered or still to come is parsed. */
    function Fate(owner: Owner): Outcome { Drain(owner, p, pending + incoming) }
  }

  /** Why DoReceiveLoop returned. */
  datatype Cause =
    | NothingToRead             // the network has nothing yet and the parser needs more
    | HeldUp                    // the document blocked or the owner stalled
    | TurnsUsedUp               // after 21 turns
    | MessageEnded
    | LineTooLong
    | StreamEnded
    | StreamFailed(code: int)
    | DocumentFailed

  predicate IsDone(cause: Cause) { cause != NothingToRead && cause != HeldUp && cause != TurnsUsedUp }

  datatype Return = Return(pump: Pump, error: HttpError, cause: Cause)

  /** One read into the free part of the buffer. */
  function Filled(s: Pump): (r: Pump)
    requires |s.pending| < BUFFER_SIZE
    ensures r.Valid()
  {
    var answer := Delivery(s.deliveries, s.incoming, BUFFER_SIZE - |s.pending|);
    var k := if answer.Delivers? then answer.most else 0;
    s.(pending := s.pending + s.incoming[..k], incoming := s.incoming[k..], deliveries := Rest(s.deliveries))
  }

  function Kept(s: Pump, h: Halt): Pump { s.(p := h.p, writes := h.writes, pending := h.rest) }

  /** What a turn returns before it parses anything, if it does; hungry: the parser is known to need more. */
  function Early(s: Pump, hungry: bool): (r: Option<Return>)
    requires s.Valid()
    ensures r.Some? ==> r.value.pump.Valid()
  {
    if |s.pending| < BUFFER_SIZE then
      match Delivery(s.deliveries, s.incoming, BUFFER_SIZE - |s.pending|)
      case Delivers(_) => None
      case NothingYet => if hungry then Some(Return(Filled(s), HeNone, NothingToRead)) else None
      case Ends => Some(Return(Filled(s), CloseError(s.p, 0), StreamEnded))
      case Fails(code) => Some(Return(Filled(s), CloseError(s.p, code), StreamFailed(code)))
    else if hungry then Some(Return(s, HeOverflow, LineTooLong))
    else None
  }

  function AfterRead(s: Pump): (r: Pump)
    requires s.Valid()
    ensures r.Valid()
  {
    if |s.pending| < BUFFER_SIZE then Filled(s) else s
  }

  /** The turns of DoReceiveLoop from the given one on. */
  function Turns(owner: Owner, s: Pump, turn: nat, hungry: bool): (r: Return)
    requires s.Valid()
    ensures r.pump.Valid()
    decreases MAX_READ_COUNT + 1 - turn, 1
  {
    if turn > MAX_READ_COUNT then Return(s, HeNone, TurnsUsedUp)
    else match Early(s, hungry)
      case Some(r) => r
      case None => Work(owner, AfterRead(s), turn)
  }

  /** The second half of a turn: parse what is buffered. */
  function Work(owner: Owner, s: Pump, turn: nat): (r: Return)
    requires s.Valid() && turn <= MAX_READ_COUNT
    ensures r.pump.Valid()
    decreases MAX_READ_COUNT + 1 - turn, 0
  {
    var h := Parse(owner, s.p, s.writes, s.pending);
    if h.broken then Return(Kept(s, h), h.error, DocumentFailed)
    else match h.result
      case PrContinue => Turns(owner, Kept(s, h), turn + 1, true)
      case PrBlock => Return(Kept(s, h), h.error, HeldUp)
      case PrComplete => Return(Kept(s, h), h.error, MessageEnded)
  }

  // ------------------------------------------------------------ nothing is lost

  lemma FilledKeepsText(s: Pump)
    requires |s.pending| < BUFFER_SIZE
    ensures var f := Filled(s);
            && f.pending + f.incoming == s.pending + s.incoming && f.p == s.p && f.writes == s.writes
            && (!Delivery(s.deliveries, s.incoming, BUFFER_SIZE - |s.pending|).Delivers? ==> f == s.(deliveries := Rest(s.deliveries)))
  {
    var answer := Delivery(s.deliveries, s.incoming, BUFFER_SIZE - |s.pending|);
    var k := if answer.Delivers? then answer.most else 0;
    Assoc(s.pending, s.incoming[..k], s.incoming[k..]);
    assert s.incoming[..k] + s.incoming[k..] == s.incoming;
    if k == 0 { assert s.pending + s.incoming[..0] == s.pending && s.incoming[0..] == s.incoming; }
  }

  /** What a call leaves behind means what the message meant, or the message ended as it was meant to. */
  ghost predicate Explained(owner: Owner, fate: Outcome, r: Return) {
    var s := r.pump;
    match r.cause
    case MessageEnded => fate == Finished(s.p, s.pending + s.incoming, r.error)
    case LineTooLong => s.Fate(owner) == fate && r.error == HeOverflow
                        && |s.pending| == BUFFER_SIZE && s.p.InLineState() && '\n' !in s.pending
    case StreamEnded => s.Fate(owner) == fate && r.error == CloseError(s.p, 0) && s.incoming == ""
    case StreamFailed(code) => s.Fate(owner) == fate && r.error == CloseError(s.p, code)
    case DocumentFailed => s.Fate(owner) == fate && r.error == HeStream
    case HeldUp => s.Fate(owner) == fate && r.error == HeNone
    case _ => s.Fate(owner) == fate && r.error == HeNone && s.Starved()
  }

  /** Reading keeps the text together; returning early changes nothing else, and leaves a starved
      parser starved. */
  lemma ReadKeeps(owner: Owner, s: Pump, hungry: bool)
    requires s.Valid() && (hungry ==> s.Starved())
    ensures AfterRead(s).Fate(owner) == s.Fate(owner) && AfterRead(s).writes == s.writes
    ensures Early(s, hungry).Some? ==>
              var r := Early(s, hungry).value;
              && Explained(owner, s.Fate(owner), r) && r.pump.writes == s.writes
              && (s.Starved() ==> r.pump.Starved()) && r.cause != TurnsUsedUp
              && r.cause != HeldUp && r.cause != MessageEnded && r.cause != DocumentFailed
  {
    hide Drain;
    if |s.pending| < BUFFER_SIZE { FilledKeepsText(s); }
  }

  lemma {:induction false} TurnsExplained(owner: Owner, s: Pump, turn: nat, hungry: bool)
    requires s.Valid() && (hungry ==> s.Starved()) && (turn > MAX_READ_COUNT ==> hungry)
    ensures Explained(owner, s.Fate(owner), Turns(owner, s, turn, hungry))
    decreases MAX_READ_COUNT + 1 - turn, 1
  {
    hide Early, AfterRead, Pump.Fate, Pump.Starved;
    if turn <= MAX_READ_COUNT {
      ReadKeeps(owner, s, hungry);
      if Early(s, hungry).None? { WorkExplained(owner, AfterRead(s), turn); }
    }
  }

  lemma {:induction false} WorkExplained(owner: Owner, s: Pump, turn: nat)
    requires s.Valid() && turn <= MAX_READ_COUNT
    ensures Explained(owner, s.Fate(owner), Work(owner, s, turn))
    decreases MAX_READ_COUNT + 1 - turn, 0
  {
    hide Drain, Parse;
    var h := Parse(owner, s.p, s.writes, s.pending);
    ParseCarries(owner, s.p, s.writes, s.pending);
    DrainAppend(owner, s.p, s.pending, s.incoming);
    DrainAppend(owner, h.p, h.rest, s.incoming);
    if h.result == PrContinue && !h.broken {
      DrainLeavesNoElement(owner, s.p, s.pending);
      TurnsExplained(owner, Kept(s, h), turn + 1, true);
    }
  }

  /** The parser itself never reports HE_OVERFLOW. */
  lemma {:induction false} ParserNeverOverflows(owner: Owner, p: Parser, text: string)
    requires forall line :: owner.parseLeader(line) != HeOverflow
    requires forall l, h, c, n :: owner.headerComplete(l, h, c, n).error != HeOverflow
    ensures var r := Drain(owner, p, text); r.Finished? ==> r.error != HeOverflow
    decreases |text|, if p.AtDataEnd() then 1 else 0
  {
    var t := TakeTurn(owner, p, text);
    DrainOneTurn(owner, p, text);
    if t.Move? { ParserNeverOverflows(owner, t.next, text[t.used..]); }
  }

  /** With callbacks that do not use it, HE_OVERFLOW is reported exactly when the whole buffer is one
      unfinished line. */
  lemma OverflowMeansLineTooLong(owner: Owner, fate: Outcome, p: Parser, text: string, r: Return)
    requires fate == Drain(owner, p, text) && Explained(owner, fate, r)
    requires forall line :: owner.parseLeader(line) != HeOverflow
    requires forall l, h, c, n :: owner.headerComplete(l, h, c, n).error != HeOverflow
    ensures r.error == HeOverflow <==> r.cause == LineTooLong
    ensures r.error == HeOverflow ==>
              |r.pump.pending| == 32768 && r.pump.p.InLineState() && '\n' !in r.pump.pending
  {
    ParserNeverOverflows(owner, p, text);
  }

  // ------------------------------------------------------------ why the pump waits

  lemma ReadTakes(s: Pump, hungry: bool)
    requires s.Valid()
    ensures |AfterRead(s).incoming| <= |s.incoming|
    ensures hungry && Early(s, hungry).None? ==> |AfterRead(s).incoming| < |s.incoming|
    ensures Early(s, hungry).Some? ==> Early(s, hungry).value.pump.incoming == s.incoming
  {
    if |s.pending| < BUFFER_SIZE { assert s.incoming[0..] == s.incoming; }
  }

  /** A call that uses up its 21 turns has seen at least 20 more characters arrive. */
  lemma {:induction false} TurnsTakeText(owner: Owner, s: Pump, turn: nat, hungry: bool)
    requires s.Valid() && (turn > 0 ==> hungry) && turn <= MAX_READ_COUNT + 1
    ensures var r := Turns(owner, s, turn, hungry);
            && |r.pump.incoming| <= |s.incoming|
            && (r.cause == TurnsUsedUp ==> |s.incoming| >= |r.pump.incoming| + 20 + (if hungry then 1 else 0) - turn)
    decreases MAX_READ_COUNT + 1 - turn
  {
    hide Parse, Early, AfterRead;
    if turn > MAX_READ_COUNT {
    } else {
      ReadTakes(s, hungry);
      var w := AfterRead(s);
      var h := Parse(owner, w.p, w.writes, w.pending);
      if Early(s, hungry).Some? {
        EarlyIsNotLate(s, hungry);
      } else if h.result == PrContinue && !h.broken {
        TurnsTakeText(owner, Kept(w, h), turn + 1, true);
      }
    }
  }

  lemma EarlyIsNotLate(s: Pump, hungry: bool)
    requires s.Valid() && Early(s, hungry).Some?
    ensures Early(s, hungry).value.cause != TurnsUsedUp
  {}

  /** With a willing document and an owner that does not stall the pump is never held up, the document
      never fails, and a parser starved before is starved after unless the message has ended. */
  lemma {:induction false} NeverHeldUp(owner: Owner, s: Pump, turn: nat, hungry: bool)
    requires s.Valid() && (hungry ==> s.Starved()) && Willing(s.writes) && NeverStalls(owner)
    ensures var r := Turns(owner, s, turn, hungry);
            && r.cause != HeldUp && r.cause != DocumentFailed && Willing(r.pump.writes)
            && (s.Starved() && r.cause != MessageEnded ==> r.pump.Starved())
    decreases MAX_READ_COUNT + 1 - turn
  {
    hide Parse, Early, AfterRead, Drain, Pump.Fate;
    if turn > MAX_READ_COUNT {
    } else {
      ReadKeeps(owner, s, hungry);
      var w := AfterRead(s);
      var h := Parse(owner, w.p, w.writes, w.pending);
      if Early(s, hungry).None? {
        HeldForAReason(owner, w.p, w.writes, w.pending);
        if h.result == PrContinue {
          ParseCarries(owner, w.p, w.writes, w.pending);
          DrainLeavesNoElement(owner, w.p, w.pending);
          NeverHeldUp(owner, Kept(w, h), turn + 1, true);
        }
      }
    }
  }

  /** A starved pump with nothing left to be delivered is not at the end of its message. */
  lemma StarvedMeansMore(owner: Owner, s: Pump)
    requires s.Starved() && s.incoming == ""
    ensures s.Fate(owner) == More(s.p, s.pending)
  {
    assert s.pending + "" == s.pending;
    DrainOneTurn(owner, s.p, s.pending);
    if s.p.InLineState() {
      IndexOfUnique(s.pending, '\n', |s.pending|);
    }
  }

  // ------------------------------------------------------------ reception completes

  /** A network that does not fail does not make the pump fail; one that always delivers keeps it
      waiting only when nothing is left. */
  lemma {:induction false} NetworkIsBlameless(owner: Owner, s: Pump, turn: nat, hungry: bool)
    requires s.Valid() && NeverFails(s.deliveries)
    ensures var r := Turns(owner, s, turn, hungry);
            && NeverFails(r.pump.deliveries) && !r.cause.StreamFailed?
            && (s.deliveries == [] ==> r.pump.deliveries == [] && (r.cause == NothingToRead ==> r.pump.incoming == ""))
    decreases MAX_READ_COUNT + 1 - turn
  {
    hide Parse;
    if turn <= MAX_READ_COUNT && Early(s, hungry).None? {
      var w := AfterRead(s);
      var h := Parse(owner, w.p, w.writes, w.pending);
      if h.result == PrContinue && !h.broken { NetworkIsBlameless(owner, Kept(w, h), turn + 1, true); }
    }
  }

  /** Between calls, when nothing outside holds the message up: the parser needs more, the document is
      willing, the network does not fail, and the message has an end. */
  ghost predicate Undisturbed(owner: Owner, s: Pump, fate: Outcome) {
    && s.Valid() && s.Starved() && Willing(s.writes) && NeverFails(s.deliveries)
    && s.Fate(owner) == fate && fate.Finished?
  }

  /** One call then either leaves things so, or ends the message as it was meant to end, or finds a line
      too long for the buffer; and if by its return everything has been delivered, it has ended. */
  lemma AllDeliveredMeansEnded(owner: Owner, s: Pump, fate: Outcome)
    requires Undisturbed(owner, s, fate) && NeverStalls(owner)
    ensures var r := Turns(owner, s, 0, false);
            && (!IsDone(r.cause) ==> Undisturbed(owner, r.pump, fate))
            && (IsDone(r.cause) ==> r.cause == MessageEnded || r.cause == LineTooLong)
            && (r.cause == MessageEnded ==> fate == Finished(r.pump.p, r.pump.pending + r.pump.incoming, r.error))
            && (r.pump.incoming == "" ==> r.cause == MessageEnded)
            && (s.deliveries == [] ==> r.pump.deliveries == [] && (!IsDone(r.cause) ==> |r.pump.incoming| < |s.incoming|))
  {
    hide Drain, Turns;
    var r := Turns(owner, s, 0, false);
    TurnsExplained(owner, s, 0, false);
    NeverHeldUp(owner, s, 0, false);
    NetworkIsBlameless(owner, s, 0, false);
    TurnsTakeText(owner, s, 0, false);
    if r.pump.incoming == "" && r.pump.Starved() {
      assert r.pump.pending + "" == r.pump.pending;
      StarvedMeansMore(owner, r.pump);
    }
  }

  /** At most n calls of DoReceiveLoop, until it is done. */
  function Calls(owner: Owner, s: Pump, n: nat): (r: Return)
    requires s.Valid()
    ensures r.pump.Valid()
    decreases n
  {
    if n == 0 then Return(s, HeNone, NothingToRead)
    else
      var r := Turns(owner, s, 0, false);
      if IsDone(r.cause) || n == 1 then r else Calls(owner, r.pump, n - 1)
  }

  lemma {:induction false} CallsExplained(owner: Owner, s: Pump, n: nat)
    requires s.Valid() && (n == 0 ==> s.Starved())
    ensures Explained(owner, s.Fate(owner), Calls(owner, s, n))
    decreases n
  {
    hide Turns, Pump.Fate;
    if n == 0 {
    } else {
      TurnsExplained(owner, s, 0, false);
      var r := Turns(owner, s, 0, false);
      if !IsDone(r.cause) && n > 1 { CallsExplained(owner, r.pump, n - 1); }
    }
  }

  /** Reception completes. With nothing outside holding the message up, it has ended as it was meant to
      as soon as everything has been delivered and the pump has been called; and when the network
      delivers whatever there is, that, or a line too long for the buffer, takes no more calls than
      there are characters to come, and one. */
  lemma {:induction false} ReceptionCompletes(owner: Owner, s: Pump, n: nat, fate: Outcome)
    requires s.Valid() && Undisturbed(owner, s, fate) && NeverStalls(owner)
    ensures var r := Calls(owner, s, n);
            && (r.cause == MessageEnded ==> fate == Finished(r.pump.p, r.pump.pending + r.pump.incoming, r.error))
            && (n > 0 && r.pump.incoming == "" ==> r.cause == MessageEnded)
            && (IsDone(r.cause) ==> r.cause == MessageEnded || r.cause == LineTooLong)
            && (s.deliveries == [] && n > |s.incoming| ==> IsDone(r.cause))
    decreases n
  {
    hide Turns, Undisturbed;
    if n == 0 {
    } else {
      AllDeliveredMeansEnded(owner, s, fate);
      var r := Turns(owner, s, 0, false);
      if !IsDone(r.cause) && n > 1 { ReceptionCompletes(owner, r.pump, n - 1, fate); }
    }
  }

  // ------------------------------------------------------------ lines that fit

  /** Wherever from here on parsing has to wait, what it keeps is shorter than the buffer. */
  ghost predicate LinesFit(owner: Owner, p: Parser, text: string, from: nat) {
    forall k | from <= k <= |text| :: WaitsInBuffer(Drain(owner, p, text[..k]))
  }

  predicate WaitsInBuffer(r: Outcome) { r.More? ==> |r.rest| < BUFFER_SIZE }

  lemma DrainKept(owner: Owner, s: Pump, more: string)
    requires var h := Parse(owner, s.p, s.writes, s.pending); h.result != PrComplete
    ensures var h := Parse(owner, s.p, s.writes, s.pending);
            Drain(owner, s.p, s.pending + more) == Drain(owner, h.p, h.rest + more)
  {
    hide Drain, Parse;
    var h := Parse(owner, s.p, s.writes, s.pending);
    ParseCarries(owner, s.p, s.writes, s.pending);
    DrainAppend(owner, s.p, s.pending, more);
    DrainAppend(owner, h.p, h.rest, more);
  }

  lemma KeptLinesFit(owner: Owner, s: Pump)
    requires LinesFit(owner, s.p, s.pending + s.incoming, |s.pending|)
    requires Parse(owner, s.p, s.writes, s.pending).result != PrComplete
    ensures var h := Parse(owner, s.p, s.writes, s.pending); LinesFit(owner, h.p, h.rest + s.incoming, |h.rest|)
  {
    hide Drain, Parse;
    var h := Parse(owner, s.p, s.writes, s.pending);
    forall k | |h.rest| <= k <= |h.rest + s.incoming|
      ensures WaitsInBuffer(Drain(owner, h.p, (h.rest + s.incoming)[..k]))
    {
      var j := k - |h.rest|;
      DrainKept(owner, s, s.incoming[..j]);
      assert (h.rest + s.incoming)[..k] == h.rest + s.incoming[..j];
      assert (s.pending + s.incoming)[..|s.pending| + j] == s.pending + s.incoming[..j];
    }
  }

  lemma ReadLinesFit(owner: Owner, s: Pump, hungry: bool)
    requires s.Valid() && LinesFit(owner, s.p, s.pending + s.incoming, |s.pending|) && (hungry ==> s.Starved())
    ensures var w := AfterRead(s); LinesFit(owner, w.p, w.pending + w.incoming, |w.pending|)
    ensures Early(s, hungry).Some? ==>
              var r := Early(s, hungry).value;
              r.cause != LineTooLong && (!IsDone(r.cause) ==> LinesFit(owner, r.pump.p, r.pump.pending + r.pump.incoming, |r.pump.pending|))
  {
    hide Drain;
    if |s.pending| < BUFFER_SIZE {
      FilledKeepsText(s);
    } else if hungry {
      assert (s.pending + s.incoming)[..|s.pending|] == s.pending;
      DrainOneTurn(owner, s.p, s.pending);
      assert false;
    }
  }

  /** A call of the pump then never finds a line too long for its buffer, and leaves it so. */
  lemma {:induction false} TurnsFit(owner: Owner, s: Pump, turn: nat, hungry: bool)
    requires s.Valid() && (hungry ==> s.Starved()) && LinesFit(owner, s.p, s.pending + s.incoming, |s.pending|)
    ensures var r := Turns(owner, s, turn, hungry);
            r.cause != LineTooLong && (!IsDone(r.cause) ==> LinesFit(owner, r.pump.p, r.pump.pending + r.pump.incoming, |r.pump.pending|))
    decreases MAX_READ_COUNT + 1 - turn
  {
    hide Parse, Early, AfterRead, Drain, LinesFit;
    TurnsOnce(owner, s, turn, hungry);
    if turn > MAX_READ_COUNT {
    } else {
      ReadLinesFit(owner, s, hungry);
      var w := AfterRead(s);
      var h := Parse(owner, w.p, w.writes, w.pending);
      WorkOnce(owner, w, turn);
      if Early(s, hungry).None? && h.result != PrComplete {
        KeptLinesFit(owner, w);
        if h.result == PrContinue {
          ParseCarries(owner, w.p, w.writes, w.pending);
          DrainLeavesNoElement(owner, w.p, w.pending);
          TurnsFit(owner, Kept(w, h), turn + 1, true);
        }
      }
    }
  }

  /** Nor do any number of calls. */
  lemma {:induction false} NoLineTooLong(owner: Owner, s: Pump, n: nat)
    requires s.Valid() && LinesFit(owner, s.p, s.pending + s.incoming, |s.pending|)
    ensures Calls(owner, s, n).cause != LineTooLong
    decreases n
  {
    hide Turns, LinesFit;
    if n == 0 {
    } else {
      TurnsFit(owner, s, 0, false);
      var r := Turns(owner, s, 0, false);
      if !IsDone(r.cause) && n > 1 { NoLineTooLong(owner, r.pump, n - 1); }
    }
  }

  // ------------------------------------------------------------ when the connection closes

  /** Parsing a text that lasts until the close takes all of it. */
  lemma DrainUntilClose(owner: Owner, p: Parser, rest: string)
    requires ValidEndOfInput(p)
    ensures Drain(owner, p, rest) == More(p.(body := p.body + rest), "")
  {
    hide TakeLine;
    DrainOneTurn(owner, p, rest);
    if rest == "" {
      assert p.body + "" == p.body;
    } else {
      assert rest[..|rest|] == rest && rest[|rest|..] == "";
      DrainOneTurn(owner, p.TakeData(rest), "");
    }
  }

  /** A message that lasts until the close, over every delivery and every document: when the pump
      reports success, the document is complete if and only if nothing is left in the buffer and
      nothing undelivered. */
  lemma CleanCloseIsComplete(owner: Owner, fate: Outcome, r: Return)
    requires Explained(owner, fate, r) && IsDone(r.cause) && r.error == HeNone && fate.More? && fate.rest == ""
    ensures ValidEndOfInput(r.pump.p) && (r.cause == StreamEnded ==> r.pump.incoming == "")
    ensures fate.p == r.pump.p.(body := fate.p.body)
    ensures r.pump.p.body == fate.p.body <==> r.pump.pending + r.pump.incoming == ""
  {
    hide Drain;
    var rest := r.pump.pending + r.pump.incoming;
    DrainUntilClose(owner, r.pump.p, rest);
    assert |r.pump.p.body + rest| == |r.pump.p.body| + |rest|;
    if rest == "" { assert r.pump.p.body + "" == r.pump.p.body; }
  }

  /** Once the parser is starved, a call that then sees a clean end has nothing left in the buffer. */
  lemma {:induction false} StarvedClosesEmpty(owner: Owner, s: Pump, turn: nat)
    requires s.Valid() && s.Starved()
    ensures var r := Turns(owner, s, turn, true);
            r.cause == StreamEnded && ValidEndOfInput(r.pump.p) ==> r.pump.pending == ""
    decreases MAX_READ_COUNT + 1 - turn
  {
    hide Parse, AfterRead, Drain;
    TurnsOnce(owner, s, turn, true);
    if turn > MAX_READ_COUNT {
    } else if Early(s, true).Some? {
      ReadKeeps(owner, s, true);
    } else {
      var w := AfterRead(s);
      var h := Parse(owner, w.p, w.writes, w.pending);
      WorkOnce(owner, w, turn);
      if h.result == PrContinue && !h.broken {
        ParseCarries(owner, w.p, w.writes, w.pending);
        DrainLeavesNoElement(owner, w.p, w.pending);
        StarvedClosesEmpty(owner, Kept(w, h), turn + 1);
      }
    }
  }

  /** The first read of a call would see the end of the stream. */
  predicate ClosesAtOnce(s: Pump) {
    |s.pending| < BUFFER_SIZE && Delivery(s.deliveries, s.incoming, BUFFER_SIZE - |s.pending|).Ends?
  }

  /** Success was reported on a clean end, and the document is not what it was meant to be. */
  predicate LosesData(fate: Outcome, r: Return) {
    r.cause == StreamEnded && r.error == HeNone && r.pump.p.body != fate.p.body
  }

  /** When a clean close loses data, told before the call. Of a message that lasts until the close, the
      call of the pump that reports success on a clean end leaves the document short if and only if it began
      with data in the buffer and its first read sees the end: the loop reads before it parses. */
  lemma CloseLosesDataIff(owner: Owner, s: Pump)
    requires s.Valid() && s.Fate(owner).More? && s.Fate(owner).rest == ""
    ensures LosesData(s.Fate(owner), Turns(owner, s, 0, false))
       <==> ValidEndOfInput(s.p) && s.pending != "" && ClosesAtOnce(s)
  {
    hide Drain, Parse, AfterRead, Delivery, Pump.Fate;
    var r := Turns(owner, s, 0, false);
    TurnsOnce(owner, s, 0, false);
    TurnsExplained(owner, s, 0, false);
    if Early(s, false).Some? {
      ReadKeeps(owner, s, false);
      FilledKeepsText(s);
    } else {
      var w := AfterRead(s);
      var h := Parse(owner, w.p, w.writes, w.pending);
      WorkOnce(owner, w, 0);
      if h.result == PrContinue && !h.broken {
        ParseCarries(owner, w.p, w.writes, w.pending);
        DrainLeavesNoElement(owner, w.p, w.pending);
        StarvedClosesEmpty(owner, Kept(w, h), 1);
      }
    }
    if r.cause == StreamEnded && r.error == HeNone { CleanCloseIsComplete(owner, s.Fate(owner), r); }
  }

  /** When the text itself ends the message, success is reported only because the parser ended it. */
  lemma SuccessMeansEnded(owner: Owner, fate: Outcome, r: Return)
    requires Explained(owner, fate, r) && IsDone(r.cause) && r.error == HeNone && fate.Finished?
    ensures r.cause == MessageEnded
  {
    hide Drain;
    if r.cause != MessageEnded { DrainUntilClose(owner, r.pump.p, r.pump.pending + r.pump.incoming); }
  }

  // ------------------------------------------------------------ what is reported

  /** The parser is in the data of a message that lasts until the close. */
  predicate UntilClose(p: Parser) { p.state == StData && p.dataSize == 0xFFFF_FFFF }

  predicate EndedCleanly(p: Parser, error: HttpError) { error == if UntilClose(p) then HeNone else HeDisconnected }

  /** What a return says of the answers the network gave since there were these to come: a failure is reported
      by its code, and a clean end as success only where the message may end. */
  predicate ToldRight(deliveries: seq<Reading>, r: Return) {
    && LeftOf(deliveries, r.pump.deliveries)
    && match r.cause
       case StreamFailed(code) =>
         && LastUsed(deliveries, r.pump.deliveries, Fails(code))
         && (if code == 0 then EndedCleanly(r.pump.p, r.error) else ReportedAs(code, r.error))
       case StreamEnded => LastUsed(deliveries, r.pump.deliveries, Ends) && EndedCleanly(r.pump.p, r.error)
       case LineTooLong => r.error == HeOverflow
       case DocumentFailed => r.error == HeStream
       case MessageEnded => true
       case _ => r.error == HeNone
  }

  lemma EarlyTellsRight(s: Pump, hungry: bool)
    requires s.Valid()
    ensures Early(s, hungry).Some? ==> ToldRight(s.deliveries, Early(s, hungry).value)
    ensures LeftOf(s.deliveries, AfterRead(s).deliveries)
  {
    hide Delivery, Filled, LeftOf, LastUsed, CloseError, ReportedAs, EndedCleanly, Rest;
    RestIsLeft(s.deliveries);
    if |s.pending| < BUFFER_SIZE {
      var answer := Delivery(s.deliveries, s.incoming, BUFFER_SIZE - |s.pending|);
      ComesFromScript(s.deliveries, s.incoming, BUFFER_SIZE - |s.pending|);
      CodeToldRight(s.p, if answer.Fails? then answer.code else 0);
      FilledUses(s);
    }
  }

  lemma FilledUses(s: Pump)
    requires |s.pending| < BUFFER_SIZE
    ensures Filled(s).p == s.p && Filled(s).deliveries == Rest(s.deliveries)
  {
    hide Delivery;
  }

  lemma ComesFromScript(deliveries: seq<Reading>, incoming: string, n: nat)
    requires n > 0
    ensures var answer := Delivery(deliveries, incoming, n);
            answer.Fails? || answer.Ends? ==> deliveries != [] && deliveries[0] == answer
  {}

  lemma CodeToldRight(p: Parser, code: int)
    ensures if code == 0 then EndedCleanly(p, CloseError(p, code)) else ReportedAs(code, CloseError(p, code))
  {}

  lemma ToldBefore(deliveries: seq<Reading>, middle: seq<Reading>, r: Return)
    requires LeftOf(deliveries, middle) && ToldRight(middle, r)
    ensures ToldRight(deliveries, r)
  {
    LastUsedEarlier(deliveries, middle, r.pump.deliveries);
  }

  lemma {:induction false} TurnsTellRight(owner: Owner, s: Pump, turn: nat, hungry: bool)
    requires s.Valid()
    ensures ToldRight(s.deliveries, Turns(owner, s, turn, hungry))
    decreases MAX_READ_COUNT + 1 - turn
  {
    hide Parse, Early, AfterRead, ToldRight, Drain;
    TurnsOnce(owner, s, turn, hungry);
    if turn > MAX_READ_COUNT {
      NothingTold(s, HeNone, TurnsUsedUp);
    } else {
      EarlyTellsRight(s, hungry);
      var w := AfterRead(s);
      var h := Parse(owner, w.p, w.writes, w.pending);
      if Early(s, hungry).None? {
        WorkOnce(owner, w, turn);
        ParseCarries(owner, w.p, w.writes, w.pending);
        if h.broken {
          NothingTold(Kept(w, h), HeStream, DocumentFailed);
        } else if h.result == PrContinue {
          TurnsTellRight(owner, Kept(w, h), turn + 1, true);
        } else {
          NothingTold(Kept(w, h), h.error, if h.result == PrBlock then HeldUp else MessageEnded);
        }
        ToldBefore(s.deliveries, w.deliveries, Turns(owner, s, turn, hungry));
      }
    }
  }

  lemma NothingTold(s: Pump, error: HttpError, cause: Cause)
    requires cause == MessageEnded || (cause == DocumentFailed && error == HeStream)
             || ((cause == HeldUp || cause == TurnsUsedUp || cause == NothingToRead) && error == HeNone)
    ensures ToldRight(s.deliveries, Return(s, error, cause))
  {
    RestIsLeft(s.deliveries);
  }

  /** So it is over any number of calls. Success is therefore reported only because the message has ended, or
      where it may end and the network closed without an error. */
  lemma {:induction false} CallsTellRight(owner: Owner, s: Pump, n: nat)
    requires s.Valid()
    ensures var r := Calls(owner, s, n);
            && ToldRight(s.deliveries, r)
            && (IsDone(r.cause) && r.error == HeNone ==>
                  r.cause == MessageEnded || ((r.cause == StreamEnded || r.cause == StreamFailed(0)) && UntilClose(r.pump.p)))
    decreases n
  {
    hide Turns, LeftOf, LastUsed;
    if n == 0 {
      NothingTold(s, HeNone, NothingToRead);
    } else {
      TurnsTellRight(owner, s, 0, false);
      var r := Turns(owner, s, 0, false);
      if !IsDone(r.cause) && n > 1 {
        CallsTellRight(owner, r.pump, n - 1);
        ToldBefore(s.deliveries, r.pump.deliveries, Calls(owner, r.pump, n - 1));
      }
    }
  }

  /** A failure that comes next is what the call returns. */
  lemma FailureIsReported(owner: Owner, s: Pump, code: int)
    requires s.Valid() && |s.pending| < BUFFER_SIZE && s.deliveries != [] && s.deliveries[0] == Fails(code)
    ensures Turns(owner, s, 0, false).cause == StreamFailed(code) && Turns(owner, s, 0, false).pump.p == s.p
  {
    TurnsOnce(owner, s, 0, false);
  }

  /** A willing document gets all of it: over any number of calls, with an owner that does not stall and
      a network that does not fail without an error code, success on a message that lasts until the close means that the
      document is complete. */
  lemma {:induction false} WillingGetsAll(owner: Owner, s: Pump, n: nat)
    requires s.Valid() && s.Starved() && Willing(s.writes) && NoSilentFailure(s.deliveries) && NeverStalls(owner)
    requires s.Fate(owner).More? && s.Fate(owner).rest == ""
    ensures var r := Calls(owner, s, n);
            IsDone(r.cause) && r.error == HeNone ==> r.cause == StreamEnded && r.pump.p == s.Fate(owner).p
    decreases n
  {
    hide Turns, Pump.Fate, Drain, LeftOf, LastUsed, NoSilentFailure;
    if n == 0 {
    } else {
      var r := Turns(owner, s, 0, false);
      TurnsExplained(owner, s, 0, false);
      NeverHeldUp(owner, s, 0, false);
      TurnsTellRight(owner, s, 0, false);
      NoneSilentLeft(s.deliveries, r.pump.deliveries);
      if !IsDone(r.cause) && n > 1 {
        WillingGetsAll(owner, r.pump, n - 1);
      } else if IsDone(r.cause) && r.error == HeNone {
        CleanCloseIsComplete(owner, s.Fate(owner), r);
      }
    }
  }

  // ------------------------------------------------------------ the class

  class Receiver {
    const parser: HttpParser
    const stream: Source
    const buffer: array<char>
    var len: nat

    constructor (parser: HttpParser, stream: Source)
      ensures Valid() && fresh(buffer) && this.parser == parser && this.stream == stream
      ensures Model() == Pump(parser.Value(), parser.document.writes, "", stream.incoming, stream.deliveries)
    {
      this.parser, this.stream := parser, stream;
      buffer := new char[BUFFER_SIZE];
      len := 0;
    }

    ghost predicate Valid()
      reads this
    {
      buffer.Length == BUFFER_SIZE && len <= BUFFER_SIZE
    }

    ghost function Model(): (s: Pump)
      requires Valid()
      reads this, buffer, parser, parser.document, stream
      ensures s.Valid()
    {
      Pump(parser.Value(), parser.document.writes, buffer[..len], stream.incoming, stream.deliveries)
    }

    /** DoReceiveLoop: exactly what Turns says, so whatever the fragmentation, the blocking and the
        document do, the fate of the message stays the same. */
    method DoReceiveLoop() returns (done: bool, error: HttpError, ghost cause: Cause)
      requires Valid()
      modifies this, buffer, parser, parser.document, stream
      ensures Valid()
      ensures Return(Model(), error, cause) == Turns(parser.owner, old(Model()), 0, false)
      ensures done <==> IsDone(cause)
      ensures Explained(parser.owner, old(Model().Fate(parser.owner)), Return(Model(), error, cause))
    {
      hide Explained, Turns, Work, Early, AfterRead, Pump.Fate, IsDone, Kept;
      error := HeNone;
      var loopCount := 0;
      var requiresMoreData := false;
      ghost var meant := Turns(parser.owner, Model(), 0, false);
      TurnsExplained(parser.owner, Model(), 0, false);
      while loopCount <= MAX_READ_COUNT
        invariant Valid() && loopCount <= MAX_READ_COUNT + 1 && error == HeNone
        invariant meant == Turns(parser.owner, Model(), loopCount, requiresMoreData)
      {
        TurnsOnce(parser.owner, Model(), loopCount, requiresMoreData);
        var returned;
        returned, done, error, cause := ReadMore(requiresMoreData);
        if returned { return; }
        WorkOnce(parser.owner, Model(), loopCount);
        ghost var broken;
        var verdict;
        verdict, error, broken := ProcessBuffer();
        DoneCauses();
        match verdict {
          case PrContinue => requiresMoreData := true;
          case PrBlock => return false, error, HeldUp;
          case PrComplete => return true, error, if broken then DocumentFailed else MessageEnded;
        }
        loopCount := loopCount + 1;
      }
      TurnsOnce(parser.owner, Model(), loopCount, requiresMoreData);
      DoneCauses();
      return false, error, TurnsUsedUp;
    }

    /** The first half of a turn. */
    method ReadMore(requiresMoreData: bool) returns (returned: bool, done: bool, error: HttpError, ghost cause: Cause)
      requires Valid()
      modifies this, buffer, stream
      ensures Valid() && !returned ==> error == HeNone
      ensures Valid() && returned == Early(old(Model()), requiresMoreData).Some?
      ensures if returned then Early(old(Model()), requiresMoreData) == Some(Return(Model(), error, cause)) && done == IsDone(cause)
              else Model() == AfterRead(old(Model()))
    {
      hide Filled, Delivery;
      error, returned, done, cause := HeNone, true, true, LineTooLong;
      if len < BUFFER_SIZE {
        var code, result;
        result, code := Fill();
        match result {
          case SrSuccess => returned := false;
          case SrBlock => returned, done, cause := requiresMoreData, false, NothingToRead;
          case SrEos => error, cause := CloseError(parser.Value(), 0), StreamEnded;
          case SrError => error, cause := CloseError(parser.Value(), code), StreamFailed(code);
        }
      } else if requiresMoreData {
        error := HeOverflow;
      } else {
        returned := false;
      }
    }

    /** One read of the network into the free part of the buffer. */
    method Fill() returns (result: StreamResult, code: int)
      requires Valid() && len < BUFFER_SIZE
      modifies this`len, buffer, stream
      ensures Valid() && Model() == Filled(old(Model()))
      ensures match Delivery(old(stream.deliveries), old(stream.incoming), BUFFER_SIZE - old(len))
              case Delivers(_) => result == SrSuccess
              case NothingYet => result == SrBlock
              case Ends => result == SrEos
              case Fails(c) => result == SrError && code == c
    {
      hide Delivery;
      var read;
      result, read, code := stream.Read(buffer, len, BUFFER_SIZE - len);
      len := len + read;
    }

    /** Run the parser over the buffer and move what it left to the front. */
    method ProcessBuffer() returns (result: ProcessResult, error: HttpError, ghost broken: bool)
      requires Valid()
      modifies this, buffer, parser, parser.document
      ensures Valid()
      ensures var s := old(Model()); var h := Parse(parser.owner, s.p, s.writes, s.pending);
              Model() == Kept(s, h) && (result, error, broken) == (h.result, h.error, h.broken)
      ensures (result == PrContinue ==> error == HeNone) && (broken ==> result == PrComplete)
    {
      hide Parse, Drain;
      var processed;
      processed, result, error, broken := parser.Process(buffer[..len]);
      ghost var kept := buffer[processed..len];
      assert buffer[..len][processed..] == kept;
      len := len - processed;
      Memory.MoveDown(buffer, processed, len);
      assert buffer[..len] == kept;
    }
  }

  lemma DoneCauses()
    ensures !IsDone(HeldUp) && !IsDone(TurnsUsedUp) && IsDone(DocumentFailed) && IsDone(MessageEnded)
  {}

  lemma TurnsOnce(owner: Owner, s: Pump, turn: nat, hungry: bool)
    requires s.Valid()
    ensures Turns(owner, s, turn, hungry)
         == if turn > MAX_READ_COUNT then Return(s, HeNone, TurnsUsedUp)
            else if Early(s, hungry).Some? then Early(s, hungry).value
            else Work(owner, AfterRead(s), turn)
  {
    hide Work, Early, AfterRead;
  }

  lemma WorkOnce(owner: Owner, s: Pump, turn: nat)
    requires s.Valid() && turn <= MAX_READ_COUNT
    ensures var h := Parse(owner, s.p, s.writes, s.pending);
            Work(owner, s, turn)
            == if h.broken then Return(Kept(s, h), h.error, DocumentFailed)
               else if h.result == PrContinue then Turns(owner, Kept(s, h), turn + 1, true)
               else if h.result == PrBlock then Return(Kept(s, h), h.error, HeldUp)
               else Return(Kept(s, h), h.error, MessageEnded)
  {
    hide Parse;
  }

  /** Receive a text through any network into any document, with so many calls of the pump. */
  method ReceiveAll(owner: Owner, wire: string, deliveries: seq<Reading>, writes: Script, wakeups: nat)
    returns (receiver: Receiver, done: bool, error: HttpError, ghost cause: Cause)
    ensures receiver.Valid() && fresh(receiver) && fresh(receiver.buffer) && receiver.parser.owner == owner
    ensures fresh(receiver.parser) && fresh(receiver.parser.document) && fresh(receiver.stream)
    ensures done <==> IsDone(cause)
    ensures Return(receiver.Model(), error, cause) == Calls(owner, Pump(Fresh(), writes, "", wire, deliveries), wakeups)
  {
    hide Explained, Turns, Calls, IsDone, Pump.Fate;
    var network := new Source(wire, deliveries);
    var document := new Document(writes);
    var parser := new HttpParser(owner, document);
    receiver := new Receiver(parser, network);
    done, error, cause := false, HeNone, NothingToRead;
    ghost var meant := Calls(owner, receiver.Model(), wakeups);
    NoCalls(owner, receiver.Model());
    for i := 0 to wakeups
      invariant receiver.Valid() && fresh(receiver) && fresh(receiver.buffer)
      invariant fresh(parser) && fresh(document) && fresh(network)
      invariant done <==> IsDone(cause)
      invariant meant == if done || i == wakeups then Return(receiver.Model(), error, cause)
                         else Calls(owner, receiver.Model(), wakeups - i)
    {
      if !done {
        OneCall(owner, receiver.Model(), wakeups - i);
        done, error, cause := receiver.DoReceiveLoop();
      }
    }
  }

  lemma NoCalls(owner: Owner, s: Pump)
    requires s.Valid()
    ensures Calls(owner, s, 0) == Return(s, HeNone, NothingToRead) && !IsDone(NothingToRead)
  {}

  lemma OneCall(owner: Owner, s: Pump, n: nat)
    requires s.Valid() && n > 0
    ensures var r := Turns(owner, s, 0, false);
            Calls(owner, s, n) == if IsDone(r.cause) || n == 1 then r else Calls(owner, r.pump, n - 1)
  {
    hide Turns;
  }

  /** The pump before anything has been read. */
  lemma NothingReadYet(owner: Owner, writes: Script, wire: string, deliveries: seq<Reading>)
    ensures var s := Pump(Fresh(), writes, "", wire, deliveries);
            s.Valid() && s.Starved() && s.Fate(owner) == Drain(owner, Fresh(), wire)
  {
    assert "" + wire == wire;
  }
}
