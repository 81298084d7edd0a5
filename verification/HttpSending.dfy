/** HttpBase in HM_SEND mode: leader, headers and document are packed into one 32 KB buffer, and the
    buffer is flushed to a transport that takes part of it, blocks, or fails. Flush says what one
    call of flush_data does, for every script of answers of the document and of the transport. */
module HttpSending {
  import opened CText
  import opened HttpTypes
  import opened Sequences
  import opened Streams
  import Memory

  const CHUNK_DIGITS: nat := 8
  const CRLF: string := "\r\n"
  const LAST_CHUNK: string := "0\r\n\r\n"

  // ------------------------------------------------------------ the coding

  predicate NamesCoding(h: Header) { EqualsIgnoreCase(h.name, "Transfer-Encoding") }

  /** hasHeader(HH_TRANSFER_ENCODING, &encoding): the first value, if there is one. */
  function FirstCoding(headers: seq<Header>): Option<string> {
    if headers == [] then None
    else if NamesCoding(headers[0]) then Some(headers[0].value)
    else FirstCoding(headers[1..])
  }

  /** The sender writes chunks if and only if that value is "chunked", in exactly these letters. */
  predicate SendsChunks(headers: seq<Header>) { FirstCoding(headers) == Some("chunked") }

  // ------------------------------------------------------------ the text on the wire

  function HeaderLine(h: Header): string { h.name + ": " + h.value + CRLF }

  function HeaderLines(headers: seq<Header>): string {
    if headers == [] then "" else HeaderLine(headers[0]) + HeaderLines(headers[1..])
  }

  /** The headers queue_headers can ever send; a longer one is discarded. */
  predicate Fits(h: Header) { |HeaderLine(h)| < BUFFER_SIZE - 3 }

  /** Those whose line, with its colon, its blank and its line end, is shorter than 32765 characters. */
  lemma FitsIff(h: Header)
    ensures Fits(h) <==> |h.name| + |h.value| + 4 < 32765
  {}

  function Sendable(headers: seq<Header>): seq<Header> {
    if headers == [] then []
    else if Fits(headers[0]) then [headers[0]] + Sendable(headers[1..])
    else Sendable(headers[1..])
  }

  function ChunkText(data: string): string {
    FixedDigits(|data|, CHUNK_DIGITS, 16) + CRLF + data + CRLF
  }

  /** The size of a chunk is written in eight hex digits, the most significant first. */
  lemma ChunkSizeIsHex(data: string, i: nat)
    requires i < 8
    ensures ChunkText(data)[i] == "0123456789abcdef"[|data| / Power(16, 7 - i) % 16]
  {
    hide FixedDigits, Power;
    FixedDigitAt(|data|, 8, 16, i);
  }

  function ChunkTexts(chunks: seq<string>): string {
    if chunks == [] then "" else ChunkText(chunks[0]) + ChunkTexts(chunks[1..])
  }

  function Body(chunked: bool, chunks: seq<string>, terminated: bool): string {
    if chunked then ChunkTexts(chunks) + (if terminated then LAST_CHUNK else "") else Concat(chunks)
  }

  /** sprintfn and strcpyn stop one character short of the room they are given. */
  function Truncated(s: string, room: nat): (t: string)
    ensures t <= s && |t| == if |s| < room then |s| else if room == 0 then 0 else room - 1
  {
    if |s| < room then s else if room == 0 then "" else s[..room - 1]
  }

  /** What send() itself puts in the buffer: the leader line, and the blank line when there are no headers. */
  function Opening(leader: string, headers: seq<Header>): string {
    var line := Truncated(leader, BUFFER_SIZE);
    var withEnd := line + Truncated(CRLF, BUFFER_SIZE - |line|);
    if headers == [] then withEnd + Truncated(CRLF, BUFFER_SIZE - |withEnd|) else withEnd
  }

  /** The leader goes out whole exactly when it and what must follow it fit in the buffer. */
  lemma OpeningIsWhole(leader: string, headers: seq<Header>)
    ensures Opening(leader, headers) == leader + CRLF + (if headers == [] then CRLF else "")
            <==> |leader| + (if headers == [] then 4 else 2) < BUFFER_SIZE
  {
    var line := Truncated(leader, BUFFER_SIZE);
    assert |Opening(leader, headers)| < BUFFER_SIZE;
  }

  /** A message on its way: how far the headers have been visited, whether the blank line has
      closed them, and the pieces of the document that have been queued. */
  datatype Message = Message(leader: string, headers: seq<Header>, visited: nat, closed: bool,
                             chunked: bool, chunks: seq<string>, terminated: bool)
  {
    predicate Valid() {
      && visited <= |headers|
      && (closed <==> visited == |headers|)
      && (!closed ==> chunks == [] && !terminated)
      && (forall i :: 0 <= i < |chunks| ==> 0 < |chunks[i]| <= BUFFER_SIZE)
    }

    predicate SameMessage(m: Message) {
      leader == m.leader && headers == m.headers && chunked == m.chunked
    }

    function Text(): string
      requires visited <= |headers|
    {
      Start() + Body(chunked, chunks, terminated)
    }

    function Start(): string
      requires visited <= |headers|
    {
      Opening(leader, headers) + HeaderLines(Sendable(headers[..visited]))
      + (if headers != [] && closed then CRLF else "")
    }

    function Document(): string { Concat(chunks) }
  }

  function Piece(chunked: bool, data: string): (piece: string)
    ensures |data| <= |piece|
  {
    if chunked then ChunkText(data) else data
  }

  lemma {:induction false} SendableAppend(headers: seq<Header>, h: Header)
    ensures HeaderLines(Sendable(headers + [h])) == HeaderLines(Sendable(headers)) + if Fits(h) then HeaderLine(h) else ""
  {
    hide Fits;
    if headers == [] {
      assert headers + [h] == [h] && [h][1..] == [];
      assert HeaderLines([h]) == HeaderLine(h) + HeaderLines([h][1..]);
    } else {
      var first, rest := headers[0], headers[1..];
      SendableAppend(rest, h);
      assert (headers + [h])[1..] == rest + [h];
      assert ([first] + Sendable(rest))[1..] == Sendable(rest);
      assert ([first] + Sendable(rest + [h]))[1..] == Sendable(rest + [h]);
    }
  }

  lemma {:induction false} ChunkTextsAppend(chunks: seq<string>, data: string)
    ensures ChunkTexts(chunks + [data]) == ChunkTexts(chunks) + ChunkText(data)
  {
    hide ChunkText;
    if chunks == [] {
      assert chunks + [data] == [data] && [data][1..] == [];
      assert ChunkTexts([data]) == ChunkText(data) + ChunkTexts([data][1..]);
    } else {
      ChunkTextsAppend(chunks[1..], data);
      assert (chunks + [data])[1..] == chunks[1..] + [data];
      Assoc(ChunkText(chunks[0]), ChunkTexts(chunks[1..]), ChunkText(data));
    }
  }

  lemma OpeningText(m: Message)
    requires m.visited == 0 && m.closed == (m.headers == []) && m.chunks == [] && !m.terminated
    ensures m.Text() == Opening(m.leader, m.headers)
  {
    hide Opening;
    assert m.headers[..0] == [];
  }

  /** Visiting a header appends its line, unless the header is discarded. */
  lemma VisitHeader(m: Message)
    requires m.Valid() && m.visited < |m.headers|
    ensures var h := m.headers[m.visited];
            m.(visited := m.visited + 1).Text() == m.Text() + if Fits(h) then HeaderLine(h) else ""
  {
    hide Opening, Fits, HeaderLine;
    SendableAppend(m.headers[..m.visited], m.headers[m.visited]);
    assert m.headers[..m.visited] + [m.headers[m.visited]] == m.headers[..m.visited + 1];
  }

  lemma CloseHeaders(m: Message)
    requires m.visited == |m.headers| > 0 && !m.closed && m.chunks == [] && !m.terminated
    ensures m.(closed := true).Text() == m.Text() + CRLF
  {
    hide Opening;
  }

  lemma SameStart(m: Message, chunks: seq<string>)
    requires m.visited <= |m.headers|
    ensures m.(chunks := chunks).Start() == m.Start()
  {
    hide Opening, HeaderLines, Sendable;
  }

  lemma AddPiece(m: Message, data: string)
    requires m.Valid() && m.closed && !m.terminated && 0 < |data| <= BUFFER_SIZE
    ensures var grown := m.(chunks := m.chunks + [data]);
            grown.Valid() && grown.Text() == m.Text() + Piece(m.chunked, data)
            && grown.Document() == m.Document() + data
  {
    hide Message.Start, ChunkText;
    SameStart(m, m.chunks + [data]);
    ChunkTextsAppend(m.chunks, data);
    ConcatAppend(m.chunks, data);
    Assoc(m.Start(), Body(m.chunked, m.chunks, false), Piece(m.chunked, data));
  }

  lemma StillBalanced(sent: string, pending: string, before: string, text: string, piece: string)
    requires sent + pending == before + text
    ensures sent + (pending + piece) == before + (text + piece)
  {
    Assoc(sent, pending, piece);
    Assoc(before, text, piece);
  }

  lemma Terminate(m: Message)
    requires m.Valid() && m.closed && m.chunked && !m.terminated
    ensures var grown := m.(terminated := true);
            grown.Valid() && grown.Text() == m.Text() + LAST_CHUNK && grown.Document() == m.Document()
  {
    hide Opening;
  }

  /** Three overlapping copies around data that is already in place leave one framed chunk. */
  lemma FramedChunk(b0: string, b1: string, b2: string, b3: string, at: nat, digits: string, read: nat)
    requires |digits| == CHUNK_DIGITS && at + CHUNK_DIGITS + 4 + read <= |b0|
    requires b1 == b0[..at] + digits + b0[at + |digits|..]
    requires b2 == b1[..at + CHUNK_DIGITS] + CRLF + b1[at + CHUNK_DIGITS + |CRLF|..]
    requires b3 == b2[..at + CHUNK_DIGITS + 2 + read] + CRLF + b2[at + CHUNK_DIGITS + 2 + read + |CRLF|..]
    ensures var offset := at + CHUNK_DIGITS + 2;
            b3[..offset + read + 2] == b0[..at] + digits + CRLF + b0[offset..offset + read] + CRLF
  {
    assert b2[..at + CHUNK_DIGITS + 2] == b0[..at] + digits + CRLF;
  }

  // ------------------------------------------------------------ what one call of flush_data does

  /** A document still to be handed out, and its answers to come. */
  datatype Store = Store(remaining: string, readings: seq<Reading>)

  /** The sender with everything around it: the part of the message that was ever put in the buffer, the
      buffer, the document, what the transport has taken and its answers to come. */
  datatype Sending = Sending(message: Message, buffered: string, document: Option<Store>,
                             sent: string, writings: seq<Writing>)
  {
    predicate Valid() {
      && message.Valid() && |buffered| <= BUFFER_SIZE && (!message.closed ==> |buffered| < BUFFER_SIZE)
      && (message.terminated ==> message.chunked && Remaining() == "")
    }

    /** chunk_data_ */
    predicate Chunks() { message.chunked && !message.terminated }

    function Remaining(): string { if document.Some? then document.value.remaining else "" }

    function Left(): nat
      requires message.visited <= |message.headers|
    {
      |message.headers| - message.visited
    }

    /** What the transport has taken since then, followed by what is still buffered, is the message so far,
        and its document so far, followed by what remains, is the given one. */
    predicate Balanced(before: string, text: string)
      requires message.visited <= |message.headers|
    {
      sent + buffered == before + message.Text() && message.Document() + Remaining() == text
    }

    predicate NothingLeft() {
      message.closed && buffered == "" == Remaining() && (document.Some? ==> !Chunks())
    }

    /** The transport has taken the whole message. */
    predicate AllSent(before: string, text: string) {
      && message.Valid() && message.closed && sent == before + message.Text() && message.Document() == text
      && (document.Some? ==> message.terminated == message.chunked)
    }
  }

  /** queue_headers from the given header on: how many it has passed, the buffer, and whether that must
      be written out before the next header. */
  datatype Packing = Packing(visited: nat, buffered: string, full: bool)

  function Pack(headers: seq<Header>, visited: nat, buffered: string): (r: Packing)
    requires visited <= |headers| && |buffered| < BUFFER_SIZE
    ensures visited <= r.visited <= |headers| && |r.buffered| <= BUFFER_SIZE && (r.full <==> r.visited < |headers|)
    ensures r.full ==> 0 < |r.buffered| < BUFFER_SIZE && (r.visited == visited ==> r.buffered == buffered)
    decreases |headers| - visited
  {
    if visited == |headers| then Packing(visited, buffered + Truncated(CRLF, BUFFER_SIZE - |buffered|), false)
    else if |buffered| + |HeaderLine(headers[visited])| < BUFFER_SIZE - 3 then
      Pack(headers, visited + 1, buffered + HeaderLine(headers[visited]))
    else if buffered == "" then Pack(headers, visited + 1, buffered)
    else Packing(visited, buffered, true)
  }

  /** It stops before a header only if there is something in the buffer and no room for that header behind it. */
  lemma {:induction false} PackStopsWhenFull(headers: seq<Header>, visited: nat, buffered: string)
    requires visited <= |headers| && |buffered| < BUFFER_SIZE
    ensures var p := Pack(headers, visited, buffered);
            p.full ==> p.buffered != "" && |p.buffered| + |HeaderLine(headers[p.visited])| >= 32765
    decreases |headers| - visited
  {
    hide HeaderLine;
    if visited == |headers| {
    } else if |buffered| + |HeaderLine(headers[visited])| < BUFFER_SIZE - 3 {
      PackStopsWhenFull(headers, visited + 1, buffered + HeaderLine(headers[visited]));
    } else if buffered == "" {
      PackStopsWhenFull(headers, visited + 1, buffered);
    }
  }

  function HeadersQueued(s: Sending): (r: (Sending, bool))
    requires s.Valid() && !s.message.closed
    ensures r.0.Valid() && (r.1 <==> !r.0.message.closed)
  {
    var p := Pack(s.message.headers, s.message.visited, s.buffered);
    (s.(message := s.message.(visited := p.visited, closed := !p.full), buffered := p.buffered), p.full)
  }

  datatype Queueing = Queued | SendRequired | Done | Broken

  /** What is kept free around the data when it is to become a chunk. */
  function Frame(chunks: bool): nat { if chunks then CHUNK_DIGITS + 4 else 0 }

  /** The document part of one turn: one read, and what it adds to the buffer. */
  function DocumentQueued(s: Sending): (r: (Sending, Queueing))
    requires s.Valid() && s.message.closed && s.document.Some?
    ensures r.0.Valid()
  {
    var m, d := s.message, s.document.value;
    if |s.buffered| + Frame(s.Chunks()) >= BUFFER_SIZE then (s, SendRequired)
    else
      var after := s.(document := Some(d.(readings := Rest(d.readings))));
      match Supply(d.readings, d.remaining, BUFFER_SIZE - |s.buffered| - Frame(s.Chunks()))
      case Delivers(k) =>
        var data := d.remaining[..k];
        (after.(message := m.(chunks := m.chunks + [data]), buffered := s.buffered + Piece(s.Chunks(), data),
                document := Some(Store(d.remaining[k..], Rest(d.readings)))), Queued)
      case NothingYet => (after, SendRequired)
      case Ends =>
        if s.Chunks() then
          (after.(message := m.(terminated := true), buffered := s.buffered + LAST_CHUNK), SendRequired)
        else if s.buffered == "" then (after, Done)
        else (after, SendRequired)
      case Fails(_) => (after, Broken)
  }

  /** The first half of a turn: fill the buffer, unless it has to be written out first. */
  function Fill(s: Sending, sendRequired: bool): (r: (Sending, Queueing))
    requires s.Valid()
    ensures r.0.Valid()
  {
    if sendRequired then (s, SendRequired)
    else
      var (t, full) := if s.message.closed then (s, false) else HeadersQueued(s);
      if full then (t, SendRequired) else if t.document.None? then (t, Queued) else DocumentQueued(t)
  }

  /** One turn leaves fewer headers to visit, or less of the document, or the last chunk behind it, or
      else the buffer as it was. */
  predicate Nearer(t: Sending, s: Sending)
    requires t.Valid() && s.Valid()
  {
    || t.Left() < s.Left()
    || (t.Left() == s.Left() &&
        (|t.Remaining()| < |s.Remaining()|
         || (t.Remaining() == s.Remaining() && ((s.Chunks() && !t.Chunks()) || (s.Chunks() == t.Chunks() && t.buffered == s.buffered)))))
  }

  lemma FillIsNearer(s: Sending, sendRequired: bool)
    requires s.Valid()
    ensures var (t, next) := Fill(s, sendRequired);
            && t.sent == s.sent && t.writings == s.writings && t.document.Some? == s.document.Some?
            && (next != Done && next != Broken ==> Nearer(t, s))
  {
    hide Pack, HeaderLine, Supply, Piece;
  }

  datatype Flushed = Flushed(state: Sending, completed: Option<HttpError>)

  /** The turns of flush_data from here on. */
  function Flush(s: Sending, sendRequired: bool): (r: Flushed)
    requires s.Valid()
    ensures r.state.Valid()
    decreases s.Left(), |s.Remaining()|, if s.Chunks() then 1 else 0, |s.buffered|, |s.writings|
  {
    hide Fill;
    FillIsNearer(s, sendRequired);
    var (t, next) := Fill(s, sendRequired);
    if next == Done then Flushed(t, Some(HeNone))
    else if next == Broken then Flushed(t, Some(HeStream))
    else if t.buffered == "" then Flushed(t, if t.document.None? then Some(HeNone) else None)
    else match Acceptance(t.writings, |t.buffered|)
      case Accepts(k) => Flush(Written(t, k), false)
      case Refuses => if next == SendRequired then Flushed(Unwritten(t), None) else Flush(Unwritten(t), false)
      case Breaks(code) => Flushed(Unwritten(t), Some(StreamCloseError(code, false)))
  }

  /** The transport takes k characters; the rest moves to the front. */
  function Written(s: Sending, k: nat): (r: Sending)
    requires s.Valid() && 0 < k <= |s.buffered|
    ensures r.Valid()
  {
    s.(sent := s.sent + s.buffered[..k], buffered := s.buffered[k..], writings := Rest(s.writings))
  }

  function Unwritten(s: Sending): (r: Sending)
    requires s.Valid()
    ensures r.Valid()
  {
    s.(writings := Rest(s.writings))
  }

  lemma FlushOnce(s: Sending, sendRequired: bool)
    requires s.Valid()
    ensures sendRequired ==> Fill(s, sendRequired).1 == SendRequired
    ensures var (t, next) := Fill(s, sendRequired);
            Flush(s, sendRequired)
            == if next == Done then Flushed(t, Some(HeNone))
               else if next == Broken then Flushed(t, Some(HeStream))
               else if t.buffered == "" then Flushed(t, if t.document.None? then Some(HeNone) else None)
               else match Acceptance(t.writings, |t.buffered|)
                 case Accepts(k) => Flush(Written(t, k), false)
                 case Refuses => if next == SendRequired then Flushed(Unwritten(t), None) else Flush(Unwritten(t), false)
                 case Breaks(code) => Flushed(Unwritten(t), Some(StreamCloseError(code, false)))
  {
    hide Written, Unwritten, Acceptance, DocumentQueued, HeadersQueued;
  }

  /** The document is asked for all there is room for: one that hands out whatever it has fills the buffer of
      32768 characters, with the 12 around a chunk, or is handed out. */
  lemma BufferIsFilled(s: Sending)
    requires s.Valid() && s.message.closed && s.document.Some? && s.document.value.readings == [] && s.Remaining() != ""
    ensures var (t, next) := DocumentQueued(s); var n := |s.buffered| + (if s.Chunks() then 12 else 0);
            if n >= 32768 then next == SendRequired && t == s
            else next == Queued && (if n + |s.Remaining()| <= 32768 then |t.buffered| == n + |s.Remaining()| && t.Remaining() == ""
                                    else |t.buffered| == 32768 && |t.Remaining()| == |s.Remaining()| - (32768 - n))
  {}

  // ------------------------------------------------------------ nothing is lost

  lemma {:induction false} PackText(m: Message, buffered: string, sent: string, before: string)
    requires m.visited <= |m.headers| && m.headers != [] && !m.closed && m.chunks == [] && !m.terminated
    requires |buffered| < BUFFER_SIZE && sent + buffered == before + m.Text()
    requires m.visited == |m.headers| ==> |buffered| + 3 <= BUFFER_SIZE
    ensures var p := Pack(m.headers, m.visited, buffered);
            sent + p.buffered == before + m.(visited := p.visited, closed := !p.full).Text()
    decreases |m.headers| - m.visited
  {
    hide Message.Text, HeaderLine;
    if m.visited == |m.headers| {
      CloseHeaders(m);
      StillBalanced(sent, buffered, before, m.Text(), CRLF);
      assert m.(visited := m.visited, closed := true) == m.(closed := true);
    } else {
      var line := HeaderLine(m.headers[m.visited]);
      var next := m.(visited := m.visited + 1);
      VisitHeader(m);
      if |buffered| + |line| < BUFFER_SIZE - 3 {
        StillBalanced(sent, buffered, before, m.Text(), line);
        PackText(next, buffered + line, sent, before);
      } else if buffered == "" {
        assert m.Text() + "" == m.Text();
        PackText(next, buffered, sent, before);
      } else {
        assert m.(visited := m.visited, closed := false) == m;
      }
    }
  }

  lemma PieceKeeps(s: Sending, k: nat, before: string, text: string)
    requires s.Valid() && s.message.closed && s.document.Some? && s.Balanced(before, text) && !s.message.terminated
    requires 0 < k <= BUFFER_SIZE && k <= |s.Remaining()|
    ensures var data := s.Remaining()[..k];
            && s.sent + (s.buffered + Piece(s.Chunks(), data))
               == before + s.message.(chunks := s.message.chunks + [data]).Text()
            && s.message.(chunks := s.message.chunks + [data]).Document() + s.Remaining()[k..] == text
  {
    hide Message.Text, Message.Document, Piece;
    var m, data := s.message, s.Remaining()[..k];
    AddPiece(m, data);
    StillBalanced(s.sent, s.buffered, before, m.Text(), Piece(m.chunked, data));
    Assoc(m.Document(), data, s.Remaining()[k..]);
    assert data + s.Remaining()[k..] == s.Remaining();
  }

  lemma DocumentQueuedKeeps(s: Sending, before: string, text: string)
    requires s.Valid() && s.message.closed && s.document.Some? && s.Balanced(before, text)
    ensures var (t, next) := DocumentQueued(s);
            t.Balanced(before, text) && t.message.SameMessage(s.message)
  {
    hide Message.Text, Message.Document, Piece, Supply;
    var d := s.document.value;
    if |s.buffered| + Frame(s.Chunks()) < BUFFER_SIZE {
      match Supply(d.readings, d.remaining, BUFFER_SIZE - |s.buffered| - Frame(s.Chunks())) {
        case Delivers(k) => PieceKeeps(s, k, before, text);
        case Ends =>
          if s.Chunks() {
            Terminate(s.message);
            StillBalanced(s.sent, s.buffered, before, s.message.Text(), LAST_CHUNK);
          }
        case NothingYet =>
        case Fails(_) =>
      }
    }
  }

  lemma FillKeeps(s: Sending, sendRequired: bool, before: string, text: string)
    requires s.Valid() && s.Balanced(before, text)
    ensures var (t, next) := Fill(s, sendRequired);
            t.Balanced(before, text) && t.message.SameMessage(s.message)
  {
    hide Message.Text, Message.Document, DocumentQueued, Pack;
    if !sendRequired {
      var t := s;
      if !s.message.closed {
        PackText(s.message, s.buffered, s.sent, before);
        t := HeadersQueued(s).0;
        SameDocument(t.message, s.message);
      }
      if t.message.closed && t.document.Some? { DocumentQueuedKeeps(t, before, text); }
    }
  }

  lemma SameDocument(t: Message, m: Message)
    requires t.chunks == m.chunks
    ensures t.Document() == m.Document()
  {}

  /** Whatever the streams answer, what the transport has taken and what is buffered stay the message, in
      order and without a gap. */
  lemma {:induction false} FlushKeeps(s: Sending, sendRequired: bool, before: string, text: string)
    requires s.Valid() && s.Balanced(before, text)
    ensures var t := Flush(s, sendRequired).state;
            t.Balanced(before, text) && t.message.SameMessage(s.message) && t.document.Some? == s.document.Some?
    decreases s.Left(), |s.Remaining()|, if s.Chunks() then 1 else 0, |s.buffered|, |s.writings|
  {
    hide Message.Text, Message.Document, Fill;
    FillIsNearer(s, sendRequired);
    FillKeeps(s, sendRequired, before, text);
    var (t, next) := Fill(s, sendRequired);
    if next != Done && next != Broken && t.buffered != "" {
      match Acceptance(t.writings, |t.buffered|) {
        case Accepts(k) =>
          Assoc(t.sent, t.buffered[..k], t.buffered[k..]);
          assert t.buffered[..k] + t.buffered[k..] == t.buffered;
          FlushKeeps(Written(t, k), false, before, text);
        case Refuses => if next != SendRequired { FlushKeeps(Unwritten(t), false, before, text); }
        case Breaks(_) =>
      }
    }
  }

  // ------------------------------------------------------------ why the sender stops

  /** The answers of the document that are still scripted. */
  function Readings(s: Sending): nat { if s.document.Some? then |s.document.value.readings| else 0 }

  /** The answers of both streams that are still scripted. */
  function Answers(s: Sending): nat { Readings(s) + |s.writings| }

  /** Neither stream has a failure in its script. */
  predicate Reliable(s: Sending) {
    (s.document.Some? ==> NeverFails(s.document.value.readings)) && NeverBreaks(s.writings)
  }

  /** What one turn may say of the streams when it comes to t. */
  predicate Stops(s: Sending, t: Sending, next: Queueing) {
    && Readings(t) <= Readings(s) && t.writings == s.writings && (Reliable(s) ==> Reliable(t))
    && (next == Broken ==> !Reliable(s))
    && (next == Done ==> t.document.Some? && t.NothingLeft())
    && (next != Done && next != Broken && t.buffered == "" ==>
          t.message.closed && (t.document.Some? ==> Readings(t) < Readings(s)))
  }

  lemma DocumentStops(s: Sending)
    requires s.Valid() && s.message.closed && s.document.Some?
    ensures var (t, next) := DocumentQueued(s); Stops(s, t, next)
  {
    hide Piece, Message.Valid;
  }

  lemma FillStops(s: Sending, sendRequired: bool)
    requires s.Valid() && (sendRequired ==> s.buffered != "")
    ensures var (t, next) := Fill(s, sendRequired); Stops(s, t, next)
  {
    hide DocumentQueued, HeaderLine, Message.Valid, Pack;
    if !sendRequired {
      var t := s;
      if !s.message.closed { t := HeadersQueued(s).0; }
      if t.message.closed && t.document.Some? { DocumentStops(t); }
    }
  }

  lemma AnswerUsed(t: Sending)
    requires t.Valid() && t.buffered != ""
    ensures (Reliable(t) ==> Reliable(Unwritten(t))) && Readings(Unwritten(t)) == Readings(t)
    ensures match Acceptance(t.writings, |t.buffered|)
            case Accepts(k) => Readings(Written(t, k)) == Readings(t) && Reliable(Written(t, k)) == Reliable(Unwritten(t))
            case Refuses => t.writings != []
            case Breaks(_) => !Reliable(t)
  {}

  /** A call leaves the message unfinished only after an answer from the script: of the document when
      everything buffered is out, else of the transport. One that fails has met a failure there, and
      one that completes has nothing left to send. */
  lemma {:induction false} FlushStops(s: Sending, sendRequired: bool)
    requires s.Valid() && (sendRequired ==> s.buffered != "")
    ensures var r := Flush(s, sendRequired);
            && Readings(r.state) <= Readings(s) && |r.state.writings| <= |s.writings| && (Reliable(s) ==> Reliable(r.state))
            && (r.completed == None ==>
                  if r.state.buffered == "" then Readings(r.state) < Readings(s) else |r.state.writings| < |s.writings|)
            && (r.completed != None && r.completed != Some(HeNone) ==> !Reliable(s))
            && (r.completed == Some(HeNone) ==> r.state.NothingLeft())
    decreases s.Left(), |s.Remaining()|, if s.Chunks() then 1 else 0, |s.buffered|, |s.writings|
  {
    hide Fill, Message.Valid, Acceptance, Reliable, Readings;
    FillIsNearer(s, sendRequired);
    FillStops(s, sendRequired);
    var (t, next) := Fill(s, sendRequired);
    if next != Done && next != Broken && t.buffered != "" {
      AnswerUsed(t);
      match Acceptance(t.writings, |t.buffered|) {
        case Accepts(k) => FlushStops(Written(t, k), false);
        case Refuses => if next != SendRequired { FlushStops(Unwritten(t), false); }
        case Breaks(_) =>
      }
    }
  }

  /** What a result says of the answers of the two streams: HE_STREAM is reported for a failure of the document,
      any other error for a failure of the transport, by its code. */
  ghost predicate ToldRight(s: Sending, r: Flushed) {
    && LeftOf(s.writings, r.state.writings) && LeftOf(Script(s), Script(r.state))
    && (r.completed.Some? && r.completed != Some(HeNone) ==>
          if r.completed == Some(HeStream) then DocumentBroke(Script(s), Script(r.state))
          else TransportBroke(s.writings, r.state.writings, r.completed.value))
  }

  /** The last answer of the document was a failure. */
  ghost predicate DocumentBroke(script: seq<Reading>, left: seq<Reading>) {
    exists code :: LastUsed(script, left, Fails(code))
  }

  /** The last answer of the transport was a failure reported as this error. */
  ghost predicate TransportBroke(script: seq<Writing>, left: seq<Writing>, error: HttpError) {
    exists code :: LastUsed(script, left, Breaks(code))
                   && (if code == 0 then error == HeDisconnected else ReportedAs(code, error))
  }

  function Script(s: Sending): seq<Reading> { if s.document.Some? then s.document.value.readings else [] }

  lemma DocumentTellsRight(s: Sending)
    requires s.Valid() && s.message.closed && s.document.Some?
    ensures var (t, next) := DocumentQueued(s);
            && LeftOf(Script(s), Script(t)) && t.writings == s.writings
            && (next == Broken ==> DocumentBroke(Script(s), Script(t)))
  {
    hide LeftOf, LastUsed, Supply, Piece, Message.Valid, Rest;
    RestIsLeft(Script(s));
    var d := s.document.value;
    if |s.buffered| + Frame(s.Chunks()) < BUFFER_SIZE {
      var answer := Supply(d.readings, d.remaining, BUFFER_SIZE - |s.buffered| - Frame(s.Chunks()));
      if answer.Fails? { assert LastUsed(Script(s), Rest(Script(s)), Fails(answer.code)); }
    }
  }

  lemma HeadersLeaveStreams(s: Sending)
    requires s.Valid() && !s.message.closed
    ensures var t := HeadersQueued(s).0; t.document == s.document && t.writings == s.writings
  {
    hide Pack;
  }

  lemma FillTellsRight(s: Sending, sendRequired: bool)
    requires s.Valid()
    ensures var (t, next) := Fill(s, sendRequired);
            && LeftOf(Script(s), Script(t)) && t.writings == s.writings
            && (next == Broken ==> DocumentBroke(Script(s), Script(t)))
  {
    hide LeftOf, LastUsed, DocumentBroke, DocumentQueued, HeadersQueued, Sending.Valid;
    RestIsLeft(Script(s));
    if !sendRequired {
      var t := s;
      if !s.message.closed {
        HeadersLeaveStreams(s);
        t := HeadersQueued(s).0;
      }
      if t.message.closed && t.document.Some? { DocumentTellsRight(t); }
    }
  }

  lemma {:induction false} FlushTellsRight(s: Sending, sendRequired: bool)
    requires s.Valid()
    ensures ToldRight(s, Flush(s, sendRequired))
    decreases s.Left(), |s.Remaining()|, if s.Chunks() then 1 else 0, |s.buffered|, |s.writings|
  {
    hide Fill, Message.Valid, Acceptance, ToldRight, LeftOf, LastUsed, DocumentBroke, StreamCloseError, Flush;
    FlushOnce(s, sendRequired);
    FillIsNearer(s, sendRequired);
    FillTellsRight(s, sendRequired);
    RestIsLeft(s.writings);
    var (t, next) := Fill(s, sendRequired);
    if next == Done || next == Broken || t.buffered == "" {
      FilledTold(s, t, Flush(s, sendRequired));
    } else {
      match Acceptance(t.writings, |t.buffered|) {
        case Accepts(k) =>
          FlushTellsRight(Written(t, k), false);
          ToldBefore(s, Written(t, k), Flush(Written(t, k), false));
        case Refuses =>
          if next == SendRequired {
            UnwrittenTold(s, t, None);
          } else {
            FlushTellsRight(Unwritten(t), false);
            ToldBefore(s, Unwritten(t), Flush(Unwritten(t), false));
          }
        case Breaks(code) => UnwrittenTold(s, t, Some(StreamCloseError(code, false)));
      }
    }
  }

  lemma FilledTold(s: Sending, t: Sending, r: Flushed)
    requires LeftOf(Script(s), Script(t)) && t.writings == s.writings && r.state == t
    requires r.completed == None || r.completed == Some(HeNone)
             || (r.completed == Some(HeStream) && DocumentBroke(Script(s), Script(t)))
    ensures ToldRight(s, r)
  {
    RestIsLeft(s.writings);
  }

  lemma ToldBefore(s: Sending, u: Sending, r: Flushed)
    requires LeftOf(Script(s), Script(u)) && LeftOf(s.writings, u.writings) && ToldRight(u, r)
    ensures ToldRight(s, r)
  {
    hide LeftOf, LastUsed, ReportedAs, Script;
    LastUsedEarlier(Script(s), Script(u), Script(r.state));
    LastUsedEarlier(s.writings, u.writings, r.state.writings);
    if r.completed.Some? && r.completed != Some(HeNone) {
      if r.completed == Some(HeStream) {
        var code :| LastUsed(Script(u), Script(r.state), Fails(code));
        assert LastUsed(Script(s), Script(r.state), Fails(code));
      } else {
        var code :| LastUsed(u.writings, r.state.writings, Breaks(code))
                    && (if code == 0 then r.completed == Some(HeDisconnected) else ReportedAs(code, r.completed.value));
        assert LastUsed(s.writings, r.state.writings, Breaks(code));
      }
    }
  }

  lemma UnwrittenTold(s: Sending, t: Sending, completed: Option<HttpError>)
    requires t.Valid() && t.buffered != "" && LeftOf(Script(s), Script(t)) && t.writings == s.writings
    requires var answer := Acceptance(t.writings, |t.buffered|);
             if answer.Breaks? then completed == Some(StreamCloseError(answer.code, false)) else completed == None
    ensures ToldRight(s, Flushed(Unwritten(t), completed))
  {
    hide LeftOf, LastUsed;
    RestIsLeft(s.writings);
    var answer := Acceptance(t.writings, |t.buffered|);
    if answer.Breaks? { assert LastUsed(s.writings, Rest(s.writings), Breaks(answer.code)); }
  }

  /** A message that completes without error has been taken by the transport in full. */
  lemma CompletedMeansSent(s: Sending, sendRequired: bool, before: string, text: string)
    requires s.Valid() && s.Balanced(before, text) && (sendRequired ==> s.buffered != "")
    ensures var r := Flush(s, sendRequired); r.completed == Some(HeNone) ==> r.state.AllSent(before, text)
  {
    hide Message.Text, Message.Document, Flush;
    FlushKeeps(s, sendRequired, before, text);
    FlushStops(s, sendRequired);
    var t := Flush(s, sendRequired).state;
    assert t.sent + "" == t.sent && t.message.Document() + "" == t.message.Document();
  }

  /** One call of flush_data. */
  function Call(s: Sending): (r: Flushed)
    requires s.Valid()
    ensures r.state.Valid()
  {
    Flush(s, |s.buffered| >= BUFFER_SIZE)
  }

  /** At most n calls of flush_data, until the message is complete. */
  function Calls(s: Sending, n: nat): (r: Flushed)
    requires s.Valid()
    ensures r.state.Valid()
    decreases n
  {
    if n == 0 then Flushed(s, None)
    else
      var r := Call(s);
      if r.completed.Some? then r else Calls(r.state, n - 1)
  }

  /** Sending completes. Over all streams: what has been taken and what is buffered are always the message
      so far; without an error reported the transport has all of it; an error is reported only when the script
      of a stream has a failure in it; and when there are more calls than scripted answers the message
      is complete. */
  lemma {:induction false} SendingCompletes(s: Sending, n: nat, before: string, text: string)
    requires s.Valid() && s.Balanced(before, text)
    ensures var r := Calls(s, n);
            && r.state.Balanced(before, text) && r.state.message.SameMessage(s.message)
            && r.state.document.Some? == s.document.Some?
            && (r.completed == Some(HeNone) ==> r.state.AllSent(before, text))
            && (Reliable(s) ==> r.completed == None || r.completed == Some(HeNone))
            && (n > Answers(s) ==> r.completed.Some?)
    decreases n
  {
    hide Message.Text, Message.Document, Flush, Sending.AllSent, Sending.Balanced, Reliable, Readings;
    if n == 0 {
    } else {
      var sendRequired := |s.buffered| >= BUFFER_SIZE;
      FlushKeeps(s, sendRequired, before, text);
      FlushStops(s, sendRequired);
      CompletedMeansSent(s, sendRequired, before, text);
      var r := Call(s);
      if r.completed == None { SendingCompletes(r.state, n - 1, before, text); }
    }
  }

  /** And an error reported after any number of calls is that of the answer which stopped the last. */
  lemma {:induction false} CallsTellRight(s: Sending, n: nat)
    requires s.Valid()
    ensures ToldRight(s, Calls(s, n))
    decreases n
  {
    hide Flush, ToldRight, LeftOf;
    if n == 0 {
      RestIsLeft(Script(s));
      FilledTold(s, s, Flushed(s, None));
    } else {
      var r := Call(s);
      FlushTellsRight(s, |s.buffered| >= BUFFER_SIZE);
      if r.completed == None {
        CallsTellRight(r.state, n - 1);
        LeftWhenTold(s, r);
        ToldBefore(s, r.state, Calls(r.state, n - 1));
      }
    }
  }

  lemma LeftWhenTold(s: Sending, r: Flushed)
    requires ToldRight(s, r)
    ensures LeftOf(s.writings, r.state.writings) && LeftOf(Script(s), Script(r.state))
  {}

  // ------------------------------------------------------------ the two streams

  /** http_stream_ while sending. */
  class Transport {
    var sent: string
    var writings: seq<Writing>

    constructor (writings: seq<Writing>)
      ensures sent == "" && this.writings == writings
    {
      sent, this.writings := "", writings;
    }

    method Write(data: string) returns (result: StreamResult, written: nat, error: int)
      requires data != ""
      modifies this
      ensures writings == Rest(old(writings)) && written <= |data| && sent == old(sent) + data[..written]
      ensures match Acceptance(old(writings), |data|)
              case Accepts(k) => result == SrSuccess && written == k
              case Refuses => result == SrBlock && written == 0
              case Breaks(code) => result == SrError && written == 0 && error == code
    {
      var answer := Acceptance(writings, |data|);
      writings, written, error := Rest(writings), 0, 0;
      match answer {
        case Accepts(k) => result, written := SrSuccess, k;
        case Refuses => result := SrBlock;
        case Breaks(code) => result, error := SrError, code;
      }
      sent := sent + data[..written];
    }
  }

  /** HttpData::document while sending. */
  class Document {
    var remaining: string
    var readings: seq<Reading>

    constructor (text: string, readings: seq<Reading>)
      ensures Value() == Store(text, readings)
    {
      remaining, this.readings := text, readings;
    }

    function Value(): Store
      reads this
    {
      Store(remaining, readings)
    }

    method Read(buffer: array<char>, at: nat, room: nat) returns (result: StreamResult, read: nat)
      requires 0 < room && at + room <= buffer.Length
      modifies this, buffer
      ensures readings == Rest(old(readings)) && read <= room && read <= |old(remaining)| && remaining == old(remaining)[read..]
      ensures buffer[..at] == old(buffer[..at]) && buffer[at..at + read] == old(remaining)[..read]
      ensures match Supply(old(readings), old(remaining), room)
              case Delivers(k) => result == SrSuccess && read == k
              case NothingYet => result == SrBlock && read == 0
              case Ends => result == SrEos && read == 0
              case Fails(_) => result == SrError && read == 0
    {
      var answer := Supply(readings, remaining, room);
      readings, read := Rest(readings), 0;
      match answer {
        case Delivers(k) =>
          read, result := k, SrSuccess;
          Memory.Copy(buffer, at, remaining[..k]);
          remaining := remaining[k..];
        case NothingYet => result := SrBlock;
        case Ends => result := SrEos;
        case Fails(_) => result := SrError;
      }
    }
  }

  // ------------------------------------------------------------ the sender

  /** The sender send() starts with: the leader, and the blank line of a message without headers, are in
      the buffer, and the coding is the one the headers ask for. */
  function Begun(leader: string, headers: seq<Header>, document: Option<Store>, sent: string, writings: seq<Writing>): (s: Sending)
    ensures s.Valid() && s.message.leader == leader && s.message.headers == headers
    ensures s.message.chunked == SendsChunks(headers) && s.document == document && s.writings == writings
  {
    Sending(Message(leader, headers, 0, headers == [], SendsChunks(headers), [], false),
            Opening(leader, headers), document, sent, writings)
  }

  lemma BegunIsBalanced(leader: string, headers: seq<Header>, document: Option<Store>, sent: string, writings: seq<Writing>)
    ensures var s := Begun(leader, headers, document, sent, writings);
            s.Balanced(sent, if document.Some? then document.value.remaining else "")
  {
    hide Opening, SendsChunks;
    var s := Begun(leader, headers, document, sent, writings);
    OpeningText(s.message);
    assert "" + s.Remaining() == s.Remaining();
  }

  /** A message sent from the start. */
  lemma CallsSend(leader: string, headers: seq<Header>, document: Store, writings: seq<Writing>, n: nat)
    ensures var r := Calls(Begun(leader, headers, Some(document), "", writings), n); var m := r.state.message;
            && m.leader == leader && m.headers == headers && m.chunked == SendsChunks(headers)
            && (r.completed == Some(HeNone) ==>
                  m.Valid() && m.closed && m.terminated == m.chunked && r.state.sent == m.Text() && m.Document() == document.remaining)
            && (NeverFails(document.readings) && NeverBreaks(writings) ==> r.completed == None || r.completed == Some(HeNone))
            && (n > |document.readings| + |writings| ==> r.completed.Some?)
  {
    hide Message.Valid, Message.Text, Message.Document, Sending.Valid, Sending.Balanced, Calls, Begun, SendsChunks,
         NeverFails, NeverBreaks;
    var s := Begun(leader, headers, Some(document), "", writings);
    BegunIsBalanced(leader, headers, Some(document), "", writings);
    SendingCompletes(s, n, "", document.remaining);
    if Calls(s, n).completed == Some(HeNone) { TextFromNothing(Calls(s, n).state.message); }
  }

  lemma TextFromNothing(m: Message)
    requires m.Valid()
    ensures "" + m.Text() == m.Text()
  {
    hide Message.Text;
  }

  lemma Framed(pending: string, data: string, chunks: bool, after: string)
    requires after == if chunks then pending + ChunkText(data) else pending + data
    ensures after == pending + Piece(chunks, data)
  {
    hide ChunkText;
  }

  class Sender {
    const transport: Transport
    const document: Document?
    const buffer: array<char>
    var len: nat
    var chunkData: bool
    var header: seq<Header>          // what header_ has still to visit
    var completed: Option<HttpError> // what do_complete reported

    ghost var message: Message       // the part of the message that was ever put in the buffer

    ghost predicate Valid()
      reads this, transport, document, buffer
    {
      && buffer.Length == BUFFER_SIZE && len <= BUFFER_SIZE && Model().Valid()
      && header == message.headers[message.visited..] && chunkData == Model().Chunks()
    }

    ghost function Model(): Sending
      requires len <= buffer.Length
      reads this, transport, document, buffer
    {
      Sending(message, buffer[..len], if document == null then None else Some(document.Value()),
              transport.sent, transport.writings)
    }

    /** send(): start a message, in the coding its headers ask for; flush_data() follows. */
    constructor (transport: Transport, leader: string, headers: seq<Header>, document: Document?)
      ensures Valid() && fresh(buffer)
      ensures this.transport == transport && this.document == document && completed == None
      ensures Model() == Begun(leader, headers, if document == null then None else Some(document.Value()),
                               transport.sent, transport.writings)
    {
      this.transport, this.document := transport, document;
      message := Message(leader, headers, 0, headers == [], SendsChunks(headers), [], false);
      chunkData, header, completed := SendsChunks(headers), headers, None;
      buffer := new char[BUFFER_SIZE];
      len := 0;
      new;
      hide Opening;
      QueueOpening(leader);
    }

    method QueueOpening(leader: string)
      requires buffer.Length == BUFFER_SIZE && len == 0
      modifies this`len, buffer
      ensures len < BUFFER_SIZE && buffer[..len] == Opening(leader, header)
    {
      hide Truncated;
      Append(Truncated(leader, BUFFER_SIZE));
      Append(Truncated(CRLF, BUFFER_SIZE - len));
      if header == [] {
        Append(Truncated(CRLF, BUFFER_SIZE - len));
      }
    }

    method Append(s: string)
      requires buffer.Length == BUFFER_SIZE && len + |s| <= BUFFER_SIZE
      modifies this`len, buffer
      ensures len == old(len) + |s| && buffer[..len] == old(buffer[..len]) + s
    {
      Memory.Copy(buffer, len, s);
      len := len + |s|;
    }

    /** queue_headers: returns true when the buffer must be flushed before the next header. */
    method QueueHeaders() returns (sendRequired: bool)
      requires Valid() && header != []
      modifies this`len, this`header, this`message, buffer
      ensures Valid() && (Model(), sendRequired) == HeadersQueued(old(Model()))
    {
      hide Pack;
      ghost var packed;
      sendRequired, packed := PackHeaders(message.headers, message.visited);
      message := message.(visited := packed.visited, closed := !packed.full);
    }

    /** Its loop, on the buffer and the headers still to visit. */
    method PackHeaders(ghost all: seq<Header>, ghost visited: nat) returns (full: bool, ghost packed: Packing)
      requires buffer.Length == BUFFER_SIZE && len < BUFFER_SIZE && visited <= |all| && header == all[visited..]
      modifies this`len, this`header, buffer
      ensures packed == Pack(all, visited, old(buffer[..len])) && packed.full == full
      ensures len <= BUFFER_SIZE && header == all[packed.visited..] && buffer[..len] == packed.buffered
    {
      hide HeaderLine, Truncated;
      packed := Pack(all, visited, buffer[..len]);
      ghost var at: nat := visited;
      while header != []
        invariant len < BUFFER_SIZE && at <= |all| && header == all[at..]
        invariant packed == Pack(all, at, buffer[..len])
      {
        assert header[0] == all[at] && header[1..] == all[at + 1..];
        var line := HeaderLine(header[0]);
        var n := |Truncated(line, BUFFER_SIZE - len)|;
        if len + n < BUFFER_SIZE - 3 {
          Append(line);
        } else if len == 0 {
          // too long to be sent at all
        } else {
          return true, packed;
        }
        header, at := header[1..], at + 1;
      }
      Append(Truncated(CRLF, BUFFER_SIZE - len));
      return false, packed;
    }

    /** Put the length in hex and the line terminators around the read characters already in place. */
    method FrameChunk(read: nat)
      requires buffer.Length == BUFFER_SIZE && len + CHUNK_DIGITS + 4 + read <= BUFFER_SIZE
      modifies buffer
      ensures var offset := len + CHUNK_DIGITS + 2;
              buffer[..offset + read + 2] == old(buffer[..len]) + ChunkText(old(buffer[offset..offset + read]))
    {
      hide FixedDigits;
      var offset := len + CHUNK_DIGITS + 2;
      var digits := FixedDigits(read, CHUNK_DIGITS, 16);
      ghost var b0 := buffer[..];
      Memory.Copy(buffer, len, digits);
      ghost var b1 := buffer[..];
      Memory.Copy(buffer, len + CHUNK_DIGITS, CRLF);
      ghost var b2 := buffer[..];
      Memory.Copy(buffer, offset + read, CRLF);
      FramedChunk(b0, b1, b2, buffer[..], len, digits, read);
    }

    /** The document part of one turn of flush_data. */
    method QueueDocument() returns (next: Queueing)
      requires Valid() && header == [] && document != null
      modifies this`len, this`chunkData, this`message, buffer, document
      ensures Valid() && (Model(), next) == DocumentQueued(old(Model()))
    {
      hide Piece, Supply;
      ghost var wasChunks, wasRemaining := chunkData, document.remaining;
      next := ReadDocument();
      if next == Queued {
        ghost var k := |wasRemaining| - |document.remaining|;
        message := message.(chunks := message.chunks + [wasRemaining[..k]]);
      } else if wasChunks && !chunkData {
        message := message.(terminated := true);
      }
    }

    /** One read of the document into the buffer, and what belongs around it. */
    method ReadDocument() returns (next: Queueing)
      requires buffer.Length == BUFFER_SIZE && len <= BUFFER_SIZE && document != null
      modifies this`len, this`chunkData, buffer, document
      ensures var buffered, d := old(buffer[..len]), old(document.Value());
              if old(len) + Frame(old(chunkData)) >= BUFFER_SIZE then
                next == SendRequired && len == old(len) && buffer[..len] == buffered && chunkData == old(chunkData) && document.Value() == d
              else
                && len <= BUFFER_SIZE && document.readings == Rest(d.readings)
                && match Supply(d.readings, d.remaining, BUFFER_SIZE - old(len) - Frame(old(chunkData)))
                   case Delivers(k) =>
                     && next == Queued && document.remaining == d.remaining[k..] && chunkData == old(chunkData)
                     && buffer[..len] == buffered + Piece(old(chunkData), d.remaining[..k])
                   case NothingYet =>
                     next == SendRequired && document.remaining == d.remaining && chunkData == old(chunkData) && buffer[..len] == buffered
                   case Ends =>
                     && document.remaining == d.remaining && !chunkData
                     && buffer[..len] == (if old(chunkData) then buffered + LAST_CHUNK else buffered)
                     && next == (if old(chunkData) || old(len) > 0 then SendRequired else Done)
                   case Fails(_) =>
                     next == Broken && document.remaining == d.remaining && chunkData == old(chunkData) && buffer[..len] == buffered
    {
      hide ChunkText, Supply, Piece;
      var offset := if chunkData then len + CHUNK_DIGITS + 2 else len;
      var reserve := if chunkData then offset + 2 else offset;
      if reserve >= BUFFER_SIZE { return SendRequired; }
      ghost var buffered := buffer[..len];
      var result, read := document.Read(buffer, offset, BUFFER_SIZE - reserve);
      assert buffer[..len] == buffered;
      match result {
        case SrSuccess =>
          ghost var data := buffer[offset..offset + read];
          if chunkData { FrameChunk(read); }
          Framed(buffered, data, chunkData, buffer[..reserve + read]);
          len, next := reserve + read, Queued;
        case SrBlock =>
          next := SendRequired;
        case SrEos =>
          if chunkData {
            Append(LAST_CHUNK);
            chunkData := false;
          } else if len == 0 {
            return Done;
          }
          next := SendRequired;
        case SrError =>
          next := Broken;
      }
    }

    /** Queue as many headers and as much of the document as one turn of flush_data does. */
    method FillBuffer(sendRequired: bool) returns (next: Queueing)
      requires Valid()
      modifies this`len, this`header, this`chunkData, this`message, buffer, document
      ensures Valid() && (Model(), next) == Fill(old(Model()), sendRequired)
    {
      hide HeadersQueued, DocumentQueued;
      next := if sendRequired then SendRequired else Queued;
      if next == Queued && header != [] {
        var full := QueueHeaders();
        if full { next := SendRequired; }
      }
      if next == Queued && document != null {
        next := QueueDocument();
      }
    }

    /** One network write; what it does not take stays at the front of the buffer. */
    method WriteOut() returns (result: StreamResult, error: int)
      requires Valid() && len > 0
      modifies this`len, buffer, transport
      ensures Valid()
      ensures match Acceptance(old(transport.writings), old(len))
              case Accepts(k) => result == SrSuccess && Model() == Written(old(Model()), k)
              case Refuses => result == SrBlock && Model() == Unwritten(old(Model()))
              case Breaks(code) => result == SrError && Model() == Unwritten(old(Model())) && error == code
    {
      hide Acceptance;
      ghost var pending := buffer[..len];
      var written;
      result, written, error := transport.Write(buffer[..len]);
      if result == SrSuccess {
        len := len - written;
        Memory.MoveDown(buffer, written, len);
        assert buffer[..len] == pending[written..];
      } else {
        assert pending[..0] == "" && old(transport.sent) + "" == old(transport.sent);
      }
    }

    /** One turn of flush_data: again, unless it returns there. */
    method Turn(sendRequired: bool) returns (again: bool, nextRequired: bool)
      requires Valid() && completed == None
      modifies this, buffer, transport, document
      ensures Valid() && (again ==> completed == None && Shorter(Model(), old(Model())))
      ensures Flush(old(Model()), sendRequired)
           == if again then Flush(Model(), nextRequired) else Flushed(Model(), completed)
    {
      hide Fill, Flush, Acceptance, Written, Unwritten, Shorter, Sending.Valid;
      FlushOnce(Model(), sendRequired);
      TurnIsShorter(Model(), sendRequired);
      again, nextRequired := false, sendRequired;
      var next := FillBuffer(sendRequired);
      match next {
        case Queued =>
        case SendRequired => nextRequired := true;
        case Done => completed := Some(HeNone); return;
        case Broken => completed := Some(HeStream); return;
      }
      if len == 0 {
        if document == null { completed := Some(HeNone); }
        return;
      }
      var result, error := WriteOut();
      if result == SrSuccess {
        again, nextRequired := true, false;
      } else if result == SrBlock {
        again := !nextRequired;
      } else {
        completed := Some(StreamCloseError(error, false));
      }
    }

    /** flush_data: exactly what Flush says, whatever the document and the transport answer. */
    method FlushData()
      requires Valid() && completed == None
      modifies this, buffer, transport, document
      ensures Valid() && Flushed(Model(), completed) == Call(old(Model()))
    {
      hide Flush;
      var again, sendRequired := true, len >= BUFFER_SIZE;
      ghost var meant := Flush(Model(), sendRequired);
      while again
        invariant Valid()
        invariant if again then completed == None && meant == Flush(Model(), sendRequired) else meant == Flushed(Model(), completed)
        decreases again, Model().Left(), |Model().Remaining()|, if Model().Chunks() then 1 else 0, len, |transport.writings|
      {
        again, sendRequired := Turn(sendRequired);
      }
    }
  }

  /** What makes the loop of flush_data end. */
  predicate Shorter(t: Sending, s: Sending)
    requires t.message.visited <= |t.message.headers| && s.message.visited <= |s.message.headers|
  {
    || t.Left() < s.Left()
    || (t.Left() == s.Left() &&
        (|t.Remaining()| < |s.Remaining()|
         || (|t.Remaining()| == |s.Remaining()| &&
             ((s.Chunks() && !t.Chunks())
              || (s.Chunks() == t.Chunks() &&
                  (|t.buffered| < |s.buffered|
                   || (|t.buffered| == |s.buffered| && |t.writings| < |s.writings|)))))))
  }

  lemma TurnIsShorter(s: Sending, sendRequired: bool)
    requires s.Valid()
    ensures var (t, next) := Fill(s, sendRequired);
            next != Done && next != Broken && t.buffered != "" ==>
              match Acceptance(t.writings, |t.buffered|)
              case Accepts(k) => Shorter(Written(t, k), s)
              case Refuses => Shorter(Unwritten(t), s)
              case Breaks(_) => true
  {
    hide Fill;
    FillIsNearer(s, sendRequired);
  }

  /** Send a message through any transport, with so many calls of flush_data. */
  method SendAll(leader: string, headers: seq<Header>, text: string, readings: seq<Reading>,
                 writings: seq<Writing>, wakeups: nat)
    returns (sender: Sender)
    ensures sender.Valid() && fresh(sender) && fresh(sender.buffer) && fresh(sender.transport)
    ensures sender.document != null && fresh(sender.document)
    ensures Flushed(sender.Model(), sender.completed)
         == Calls(Begun(leader, headers, Some(Store(text, readings)), "", writings), wakeups)
  {
    hide Begun, Call, Calls;
    var transport := new Transport(writings);
    var source := new Document(text, readings);
    sender := new Sender(transport, leader, headers, source);
    ghost var meant := Calls(sender.Model(), wakeups);
    NoCalls(sender.Model());
    for i := 0 to wakeups
      invariant sender.Valid() && sender.document == source && sender.transport == transport
      invariant fresh(sender) && fresh(sender.buffer) && fresh(transport) && fresh(source)
      invariant meant == if sender.completed.Some? || i == wakeups then Flushed(sender.Model(), sender.completed)
                         else Calls(sender.Model(), wakeups - i)
    {
      if sender.completed == None {
        OneCall(sender.Model(), wakeups - i);
        NoCalls(Call(sender.Model()).state);
        sender.FlushData();
      }
    }
  }

  lemma NoCalls(s: Sending)
    requires s.Valid()
    ensures Calls(s, 0) == Flushed(s, None)
  {}

  lemma OneCall(s: Sending, n: nat)
    requires s.Valid() && n > 0
    ensures var r := Call(s); Calls(s, n) == if r.completed.Some? then r else Calls(r.state, n - 1)
  {
    hide Call;
  }
}
