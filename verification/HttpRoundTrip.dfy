/** What the sender puts on the wire, the parser takes apart again: the chunked coding of
    section 3.6.1 of RFC 2616 and the message lengths of its section 4.4, end to end. */
module HttpRoundTrip {
  import opened CText
  import opened HttpTypes
  import opened Sequences
  import opened Streams
  import P = HttpParsing
  import R = HttpReceiving
  import S = HttpSending

  // ------------------------------------------------------------ lines

  /** A text that survives as one line: TrimRight takes off exactly what was added after it. */
  predicate IsLine(s: string) {
    '\n' !in s && (s == "" || !IsSpace(s[|s| - 1]))
  }

  /** One line on the wire, with any white space before the newline, is one line to the parser. */
  lemma LineOnWire(owner: P.Owner, p: P.Parser, line: string, blanks: string, tail: string)
    requires p.InLineState() && IsLine(line)
    requires forall i :: 0 <= i < |blanks| ==> IsSpace(blanks[i]) && blanks[i] != '\n'
    ensures P.Drain(owner, p, line + blanks + "\n" + tail) == AfterLine(owner, P.LineStep(owner, p, line), tail)
  {
    hide P.LineStep;
    var text := line + blanks + "\n" + tail;
    var n := |line| + |blanks|;
    IndexOfUnique(text, '\n', n);
    assert text[..n] == line + blanks;
    TrimRightUnique(line + blanks, |line|);
    assert (line + blanks)[..|line|] == line;
    assert text[n + 1..] == tail;
    P.DrainOneTurn(owner, p, text);
  }

  function AfterLine(owner: P.Owner, step: P.LineResult, tail: string): P.Outcome {
    match step
    case Go(next) => P.Drain(owner, next, tail)
    case Stall(next) => P.Drain(owner, next, tail)
    case Stop(next, error) => P.Finished(next, tail, error)
  }

  // ------------------------------------------------------------ headers

  /** A header that HTTP can carry. */
  predicate Carriable(h: Header) {
    && ':' !in h.name && '\n' !in h.name && '\n' !in h.value
    && (h.value != "" ==> !IsSpace(h.value[0]) && !IsSpace(h.value[|h.value| - 1]))
  }

  /** What a list of headers says about the length of the message. */
  function Effects(headers: seq<Header>, chunked: bool, dataSize: SizeT): Option<(bool, SizeT)> {
    if headers == [] then Some((chunked, dataSize))
    else match P.HeaderEffect(headers[0], chunked, dataSize)
      case None => None
      case Some(e) => Effects(headers[1..], e.0, e.1)
  }

  /** A header line on the wire without its trailing white space. */
  function TrimmedLine(h: Header): string {
    if h.value == "" then h.name + ":" else h.name + ": " + h.value
  }

  lemma ColonSplits(name: string, rest: string)
    requires ':' !in name
    ensures var line := name + ":" + rest;
            IndexOf(line, ':') == |name| && line[..|name|] == name && line[|name| + 1..] == rest
  {
    IndexOfUnique(name + ":" + rest, ':', |name|);
  }

  lemma OneBlank(value: string)
    requires value != "" && !IsSpace(value[0])
    ensures LeadingSpaces(" " + value) == 1 && (" " + value)[1..] == value
  {
    LeadingSpacesUnique(" " + value, 1);
  }

  lemma HeaderSplits(h: Header)
    requires Carriable(h)
    ensures IsLine(TrimmedLine(h)) && IndexOf(TrimmedLine(h), ':') == |h.name| < |TrimmedLine(h)|
    ensures P.SplitHeader(TrimmedLine(h)) == h
  {
    hide LeadingSpaces, IndexOf;
    var line := TrimmedLine(h);
    if h.value == "" {
      ColonSplits(h.name, "");
      assert h.name + ":" + "" == line;
      assert LeadingSpaces("") == 0;
    } else {
      ColonSplits(h.name, " " + h.value);
      assert h.name + ":" + (" " + h.value) == line;
      OneBlank(h.value);
      assert line[|line| - 1] == h.value[|h.value| - 1];
    }
  }

  lemma HeaderOnWire(owner: P.Owner, p: P.Parser, h: Header, tail: string)
    requires p.state == P.StHeaders && Carriable(h)
    requires P.HeaderEffect(h, p.chunked, p.dataSize).Some?
    ensures var e := P.HeaderEffect(h, p.chunked, p.dataSize).value;
            P.Drain(owner, p, S.HeaderLine(h) + tail)
            == P.Drain(owner, p.(chunked := e.0, dataSize := e.1, headers := p.headers + [h]), tail)
  {
    hide P.HeaderEffect, P.Drain, P.SplitHeader, IsLine;
    var blanks := if h.value == "" then " \r" else "\r";
    HeaderSplits(h);
    assert S.HeaderLine(h) + tail == TrimmedLine(h) + blanks + "\n" + tail;
    LineOnWire(owner, p, TrimmedLine(h), blanks, tail);
  }

  lemma {:induction false} HeadersOnWire(owner: P.Owner, p: P.Parser, headers: seq<Header>, tail: string)
    requires p.state == P.StHeaders
    requires forall h :: h in headers ==> Carriable(h)
    requires Effects(headers, p.chunked, p.dataSize).Some?
    ensures var e := Effects(headers, p.chunked, p.dataSize).value;
            P.Drain(owner, p, S.HeaderLines(headers) + tail)
            == P.Drain(owner, p.(chunked := e.0, dataSize := e.1, headers := p.headers + headers), tail)
    decreases |headers|
  {
    hide P.HeaderEffect, P.Drain, S.HeaderLine, Carriable;
    if headers == [] {
      assert p.headers + [] == p.headers;
      assert S.HeaderLines(headers) + tail == tail;
    } else {
      var h := headers[0];
      var e := P.HeaderEffect(h, p.chunked, p.dataSize).value;
      var q := p.(chunked := e.0, dataSize := e.1, headers := p.headers + [h]);
      Assoc(S.HeaderLine(h), S.HeaderLines(headers[1..]), tail);
      HeaderOnWire(owner, p, h, S.HeaderLines(headers[1..]) + tail);
      HeadersOnWire(owner, q, headers[1..], tail);
      assert p.headers + [h] + headers[1..] == p.headers + headers;
    }
  }

  // ------------------------------------------------------------ chunks

  lemma ChunkSizeOnWire(owner: P.Owner, p: P.Parser, n: nat, tail: string)
    requires p.state == P.StChunkSize && 0 < n < SIZE_UNKNOWN
    ensures P.Drain(owner, p, FixedDigits(n, S.CHUNK_DIGITS, 16) + S.CRLF + tail)
            == P.Drain(owner, p.(state := P.StData, dataSize := n), tail)
  {
    hide Strtoul, FixedDigits, P.Drain;
    var digits := FixedDigits(n, S.CHUNK_DIGITS, 16);
    HexReadsBack(n);
    assert forall i :: 0 <= i < |digits| ==> digits[i] !in "+-xX\n";
    assert digits + S.CRLF + tail == digits + "\r" + "\n" + tail;
    LineOnWire(owner, p, digits, "\r", tail);
  }

  lemma HexReadsBack(n: nat)
    requires n <= ULONG_MAX
    ensures Strtoul(FixedDigits(n, S.CHUNK_DIGITS, 16), 16) == Scanned(n, S.CHUNK_DIGITS)
  {
    hide Strtoul, FixedDigits;
    HexWidth();
    FixedDigitsValue(n, S.CHUNK_DIGITS, 16);
    StrtoulOfDigits(FixedDigits(n, S.CHUNK_DIGITS, 16), 16);
  }

  lemma HexWidth()
    ensures Power(16, S.CHUNK_DIGITS) == 0x1_0000_0000
  {
    assert Power(16, 4) == 0x1_0000;
  }

  lemma ChunkOnWire(owner: P.Owner, p: P.Parser, data: string, tail: string)
    requires p.state == P.StChunkSize && p.chunked && 0 < |data| < SIZE_UNKNOWN
    ensures P.Drain(owner, p, S.ChunkText(data) + tail)
            == P.Drain(owner, p.(dataSize := 0, body := p.body + data), tail)
  {
    hide P.LineStep, P.TakeLine;
    var digits := FixedDigits(|data|, S.CHUNK_DIGITS, 16);
    var rest := data + S.CRLF + tail;
    assert S.ChunkText(data) + tail == digits + S.CRLF + rest;
    ChunkSizeOnWire(owner, p, |data|, rest);
    var q := p.(state := P.StData, dataSize := |data|);
    assert rest[..|data|] == data && rest[|data|..] == S.CRLF + tail;
    P.DrainOneTurn(owner, q, rest);
    var r := q.TakeData(data);
    P.DrainOneTurn(owner, r, S.CRLF + tail);
    assert (S.CRLF + tail)[0..] == S.CRLF + tail;
    ChunkEndOnWire(owner, r.(state := P.StChunkTerm), tail);
  }

  lemma ChunkEndOnWire(owner: P.Owner, p: P.Parser, tail: string)
    requires p.state == P.StChunkTerm && p.chunked
    ensures P.Drain(owner, p, S.CRLF + tail) == P.Drain(owner, p.(state := P.StChunkSize), tail)
  {
    assert S.CRLF + tail == "" + "\r" + "\n" + tail;
    LineOnWire(owner, p, "", "\r", tail);
  }

  lemma LastChunkOnWire(owner: P.Owner, p: P.Parser, tail: string)
    requires p.state == P.StChunkSize && p.chunked
    ensures P.Drain(owner, p, S.LAST_CHUNK + tail)
            == P.Finished(p.(state := P.StTrailers, dataSize := 0), tail, HeNone)
  {
    hide Strtoul, P.Drain;
    var rest := "\r\n" + tail;
    assert S.LAST_CHUNK + tail == "0" + "\r" + "\n" + rest;
    LineOnWire(owner, p, "0", "\r", rest);
    ZeroInHex();
    var q := p.(state := P.StTrailers, dataSize := 0);
    assert rest == "" + "\r" + "\n" + tail;
    LineOnWire(owner, q, "", "\r", tail);
  }

  lemma ZeroInHex()
    ensures Strtoul("0", 16) == Scanned(0, 1)
  {
    assert DigitValue("0", 16) == 0 by { assert "0"[..0] == ""; }
    StrtoulOfDigits("0", 16);
  }

  /** The chunked body of any document, cut into any non-empty pieces, parses back to the
      document, and the message is complete exactly at the end of the last chunk. */
  lemma {:induction false} ChunkedBodyRoundTrip(owner: P.Owner, p: P.Parser, chunks: seq<string>, tail: string)
    requires p.state == P.StChunkSize && p.chunked
    requires forall i :: 0 <= i < |chunks| ==> 0 < |chunks[i]| < SIZE_UNKNOWN
    ensures P.Drain(owner, p, S.Body(true, chunks, true) + tail)
            == P.Finished(p.(state := P.StTrailers, dataSize := 0, body := p.body + Concat(chunks)), tail, HeNone)
    decreases |chunks|
  {
    hide P.Drain, S.ChunkText;
    if chunks == [] {
      assert p.body + [] == p.body;
      assert S.Body(true, chunks, true) + tail == S.LAST_CHUNK + tail;
      LastChunkOnWire(owner, p, tail);
    } else {
      var more := S.Body(true, chunks[1..], true) + tail;
      assert S.Body(true, chunks, true) + tail == S.ChunkText(chunks[0]) + more;
      ChunkOnWire(owner, p, chunks[0], more);
      var q := p.(dataSize := 0, body := p.body + chunks[0]);
      ChunkedBodyRoundTrip(owner, q, chunks[1..], tail);
      Assoc(p.body, chunks[0], Concat(chunks[1..]));
    }
  }

  // ------------------------------------------------------------ whole messages

  /** The receiving end accepts this leader and these headers. */
  predicate Acceptable(owner: P.Owner, leader: string, headers: seq<Header>) {
    && IsLine(leader) && owner.parseLeader(leader) == HeNone
    && (forall h :: h in headers ==> Carriable(h))
    && Effects(headers, false, SIZE_UNKNOWN).Some?
    && var e := Effects(headers, false, SIZE_UNKNOWN).value;
       owner.headerComplete(leader, headers, e.0, e.1).error == HeNone
  }

  /** The parser once it has seen the leader, the headers and the blank line. */
  function AfterHeaders(owner: P.Owner, leader: string, headers: seq<Header>): P.Parser
    requires Acceptable(owner, leader, headers)
  {
    var e := Effects(headers, false, SIZE_UNKNOWN).value;
    P.Parser(if e.0 then P.StChunkSize else P.StData, e.0,
             owner.headerComplete(leader, headers, e.0, e.1).dataSize, leader, headers, "")
  }

  lemma StartText(m: S.Message)
    requires m.Valid() && m.closed && |m.leader| + 4 < BUFFER_SIZE
    ensures m.Start() == m.leader + S.CRLF + S.HeaderLines(S.Sendable(m.headers)) + S.CRLF
  {
    hide S.HeaderLines, S.Opening;
    S.OpeningIsWhole(m.leader, m.headers);
    assert m.headers[..m.visited] == m.headers;
    if m.headers == [] {
      NoHeaderLines();
      assert m.Start() == m.leader + S.CRLF + S.CRLF + "" + "";
    } else {
      assert m.Start() == m.leader + S.CRLF + "" + S.HeaderLines(S.Sendable(m.headers)) + S.CRLF;
    }
  }

  lemma NoHeaderLines()
    ensures S.HeaderLines([]) == ""
  {}

  lemma StartOnWire(owner: P.Owner, m: S.Message, tail: string)
    requires m.Valid() && m.closed && |m.leader| + 4 < BUFFER_SIZE
    requires Acceptable(owner, m.leader, S.Sendable(m.headers))
    ensures P.Drain(owner, P.Fresh(), m.Start() + tail)
            == P.Drain(owner, AfterHeaders(owner, m.leader, S.Sendable(m.headers)), tail)
  {
    hide P.Drain, S.HeaderLines, S.Sendable, P.HeaderEffect;
    var headers := S.Sendable(m.headers);
    var lines := S.HeaderLines(headers);
    StartText(m);
    assert m.Start() + tail == m.leader + "\r" + "\n" + (lines + (S.CRLF + tail));
    LineOnWire(owner, P.Fresh(), m.leader, "\r", lines + (S.CRLF + tail));
    var p := P.Fresh().(state := P.StHeaders, leader := m.leader);
    HeadersOnWire(owner, p, headers, S.CRLF + tail);
    assert [] + headers == headers;
    var e := Effects(headers, false, SIZE_UNKNOWN).value;
    var q := p.(chunked := e.0, dataSize := e.1, headers := headers);
    assert S.CRLF + tail == "" + "\r" + "\n" + tail;
    LineOnWire(owner, q, "", "\r", tail);
  }

  /** What the parser makes of a complete message: the same leader, the same headers and the
      same document, ending exactly where the message ends. */
  predicate Received(m: S.Message, p: P.Parser) {
    p.leader == m.leader && p.headers == S.Sendable(m.headers) && p.body == m.Document()
  }

  /** A message in the chunked coding. */
  lemma ChunkedMessageRoundTrip(owner: P.Owner, m: S.Message, tail: string)
    requires m.Valid() && m.closed && m.chunked && m.terminated && |m.leader| + 4 < BUFFER_SIZE
    requires Acceptable(owner, m.leader, S.Sendable(m.headers))
    requires AfterHeaders(owner, m.leader, S.Sendable(m.headers)).chunked
    ensures var r := P.Drain(owner, P.Fresh(), m.Text() + tail);
            r.Finished? && r.error == HeNone && r.rest == tail && Received(m, r.p)
  {
    hide P.Drain, S.Body, S.Sendable, Acceptable, S.Message.Start;
    var p := AfterHeaders(owner, m.leader, S.Sendable(m.headers));
    var body := S.Body(true, m.chunks, true);
    Assoc(m.Start(), body, tail);
    StartOnWire(owner, m, body + tail);
    ChunkedBodyRoundTrip(owner, p, m.chunks, tail);
  }

  /** A message whose document is as long as the receiver expects. */
  lemma SizedMessageRoundTrip(owner: P.Owner, m: S.Message, tail: string)
    requires m.Valid() && m.closed && !m.chunked && !m.terminated && |m.leader| + 4 < BUFFER_SIZE
    requires Acceptable(owner, m.leader, S.Sendable(m.headers))
    requires var p := AfterHeaders(owner, m.leader, S.Sendable(m.headers));
             !p.chunked && p.dataSize == |m.Document()| < SIZE_UNKNOWN
    ensures var r := P.Drain(owner, P.Fresh(), m.Text() + tail);
            r.Finished? && r.error == HeNone && r.rest == tail && Received(m, r.p)
  {
    hide P.TakeLine, S.Sendable, Acceptable, S.Message.Start, Concat;
    var p := AfterHeaders(owner, m.leader, S.Sendable(m.headers));
    var text := m.Document() + tail;
    Assoc(m.Start(), m.Document(), tail);
    StartOnWire(owner, m, text);
    P.DrainOneTurn(owner, p, text);
    if p.dataSize > 0 {
      assert text[..p.dataSize] == m.Document() && text[p.dataSize..] == tail;
      P.DrainOneTurn(owner, p.TakeData(m.Document()), tail);
    } else {
      assert m.Document() == "" && text == tail;
    }
    assert tail[0..] == tail;
  }

  /** A message whose document lasts until the connection closes. */
  lemma UnsizedMessageRoundTrip(owner: P.Owner, m: S.Message)
    requires m.Valid() && m.closed && !m.chunked && !m.terminated && |m.leader| + 4 < BUFFER_SIZE
    requires Acceptable(owner, m.leader, S.Sendable(m.headers))
    requires R.ValidEndOfInput(AfterHeaders(owner, m.leader, S.Sendable(m.headers)))
    requires !AfterHeaders(owner, m.leader, S.Sendable(m.headers)).chunked
    ensures var r := P.Drain(owner, P.Fresh(), m.Text());
            r.More? && r.rest == "" && R.ValidEndOfInput(r.p) && Received(m, r.p)
  {
    hide P.TakeLine, S.Sendable, Acceptable, S.Message.Start, Concat;
    var p := AfterHeaders(owner, m.leader, S.Sendable(m.headers));
    StartOnWire(owner, m, m.Document());
    P.DrainOneTurn(owner, p, m.Document());
    if m.Document() != "" {
      assert m.Document()[..|m.Document()|] == m.Document() && m.Document()[|m.Document()|..] == "";
      P.DrainOneTurn(owner, p.TakeData(m.Document()), "");
    }
  }

  // ------------------------------------------------------------ when both ends agree on the coding

  /** The last Transfer-Encoding value: the one the parser goes by, whatever the case of its letters. */
  function LastCoding(headers: seq<Header>): Option<string> {
    if headers == [] then None
    else if LastCoding(headers[1..]).Some? then LastCoding(headers[1..])
    else if S.NamesCoding(headers[0]) then Some(headers[0].value)
    else None
  }

  predicate ReadsChunks(headers: seq<Header>) {
    LastCoding(headers).Some? && EqualsIgnoreCase(LastCoding(headers).value, "chunked")
  }

  lemma LengthIsNotCoding(h: Header)
    ensures S.NamesCoding(h) ==> !EqualsIgnoreCase(h.name, "Content-Length")
  {
    assert |Lower("Content-Length")| != |Lower("Transfer-Encoding")|;
  }

  lemma {:induction false} EffectsFollowLastCoding(headers: seq<Header>, chunked: bool, dataSize: SizeT)
    requires Effects(headers, chunked, dataSize).Some?
    ensures Effects(headers, chunked, dataSize).value.0
         == if LastCoding(headers).Some? then ReadsChunks(headers) else chunked
    decreases |headers|
  {
    hide EqualsIgnoreCase, ScanUnsigned;
    if headers == [] {
    } else {
      LengthIsNotCoding(headers[0]);
      CodingsDiffer(headers[0].value);
      var e := P.HeaderEffect(headers[0], chunked, dataSize).value;
      EffectsFollowLastCoding(headers[1..], e.0, e.1);
    }
  }

  lemma CodingsDiffer(value: string)
    ensures !(EqualsIgnoreCase(value, "chunked") && EqualsIgnoreCase(value, "identity"))
  {
    assert |Lower("chunked")| != |Lower("identity")|;
  }

  /** The sender frames the document as the parser will read it if and only if the first coding named is
      exactly "chunked" just when the last one sent is "chunked" in any letters. */
  lemma CodingsAgreeIff(owner: P.Owner, leader: string, headers: seq<Header>)
    requires Acceptable(owner, leader, S.Sendable(headers))
    ensures S.SendsChunks(headers) == AfterHeaders(owner, leader, S.Sendable(headers)).chunked
       <==> (S.FirstCoding(headers) == Some("chunked") <==> ReadsChunks(S.Sendable(headers)))
  {
    hide Effects, EqualsIgnoreCase;
    EffectsFollowLastCoding(S.Sendable(headers), false, SIZE_UNKNOWN);
  }

  lemma {:induction false} NoCodingNamed(headers: seq<Header>, h: Header, more: seq<Header>)
    requires forall g :: g in headers ==> !S.NamesCoding(g)
    ensures S.FirstCoding(headers + [h] + more) == if S.NamesCoding(h) then Some(h.value) else S.FirstCoding(more)
    ensures LastCoding(headers + [h] + more) == if LastCoding(more).Some? then LastCoding(more)
                                                else if S.NamesCoding(h) then Some(h.value) else None
    decreases |headers|
  {
    hide S.NamesCoding;
    var all := headers + [h] + more;
    if headers == [] {
      assert all == [h] + more && all[1..] == more;
    } else {
      assert all[0] == headers[0] && all[1..] == headers[1..] + [h] + more;
      NoCodingNamed(headers[1..], h, more);
    }
  }

  lemma {:induction false} NothingNamed(headers: seq<Header>)
    requires forall g :: g in headers ==> !S.NamesCoding(g)
    ensures LastCoding(headers).None?
  {
    hide S.NamesCoding;
    if headers == [] {
    } else {
      NothingNamed(headers[1..]);
    }
  }

  /** With a single Transfer-Encoding header: they agree if and only if its value is "chunked" in exactly
      these letters, or not "chunked" in any. */
  lemma SingleCodingAgreesIff(before: seq<Header>, h: Header, after: seq<Header>)
    requires S.NamesCoding(h) && forall g :: g in before + after ==> !S.NamesCoding(g)
    ensures var headers := before + [h] + after;
            S.SendsChunks(headers) == ReadsChunks(headers) <==> h.value == "chunked" || !EqualsIgnoreCase(h.value, "chunked")
  {
    assert forall g :: g in before || g in after ==> g in before + after;
    NoCodingNamed(before, h, after);
    NothingNamed(after);
  }

  // ------------------------------------------------------------ the announced length

  predicate NamesLength(h: Header) { EqualsIgnoreCase(h.name, "Content-Length") }

  /** A Content-Length header with a number in decimal announces that many characters, and nothing else. */
  lemma LengthHeaderIs(name: string, n: nat, chunked: bool, dataSize: SizeT)
    requires EqualsIgnoreCase(name, "Content-Length") && n <= ULONG_MAX
    ensures P.HeaderEffect(Header(name, Decimal(n)), chunked, dataSize) == Some((chunked, n))
  {
    hide EqualsIgnoreCase, ScanUnsigned, Decimal;
    DecimalReadsBack(n);
  }

  /** A header is refused if and only if it names the length and no digit follows the white space and the sign
      of its value, or it names the coding and that is neither of the two, in any letters. */
  lemma HeaderRefusedIff(h: Header, chunked: bool, dataSize: SizeT)
    ensures P.HeaderEffect(h, chunked, dataSize) == None
       <==> (NamesLength(h) && var j := SignEnd(h.value); j == |h.value| || !('0' <= h.value[j] <= '9'))
            || (S.NamesCoding(h) && !EqualsIgnoreCase(h.value, "chunked") && !EqualsIgnoreCase(h.value, "identity"))
  {
    hide EqualsIgnoreCase, ScanUnsigned, SignEnd;
    LengthIsNotCoding(h);
    ScanUnsignedRefusesIff(h.value);
  }

  /** The last Content-Length value. */
  function LastLength(headers: seq<Header>): Option<string> {
    if headers == [] then None
    else if LastLength(headers[1..]).Some? then LastLength(headers[1..])
    else if NamesLength(headers[0]) then Some(headers[0].value)
    else None
  }

  lemma {:induction false} EffectsFollowLastLength(headers: seq<Header>, chunked: bool, dataSize: SizeT)
    requires Effects(headers, chunked, dataSize).Some?
    ensures var last := LastLength(headers);
            if last.Some? then Some(Effects(headers, chunked, dataSize).value.1) == ScanUnsigned(last.value)
            else Effects(headers, chunked, dataSize).value.1 == dataSize
    decreases |headers|
  {
    hide EqualsIgnoreCase, ScanUnsigned;
    if headers == [] {
    } else {
      LengthIsNotCoding(headers[0]);
      var e := P.HeaderEffect(headers[0], chunked, dataSize).value;
      EffectsFollowLastLength(headers[1..], e.0, e.1);
    }
  }

  /** The owner leaves the announced size as it is. */
  ghost predicate KeepsSize(owner: P.Owner) {
    forall leader, headers, chunked, size :: owner.headerComplete(leader, headers, chunked, size).dataSize == size
  }

  /** The headers announce a text of this length, without a coding. */
  predicate Announces(headers: seq<Header>, text: string) {
    |text| < SIZE_UNKNOWN && LastLength(headers) == Some(Decimal(|text|)) && forall h :: h in headers ==> !S.NamesCoding(h)
  }

  lemma AnnouncedSize(owner: P.Owner, leader: string, headers: seq<Header>, text: string)
    requires Acceptable(owner, leader, headers) && KeepsSize(owner) && Announces(headers, text)
    ensures var a := AfterHeaders(owner, leader, headers); !a.chunked && a.dataSize == |text|
  {
    hide Effects, LastLength, LastCoding, Decimal, ScanUnsigned, Carriable, S.NamesCoding;
    NothingNamed(headers);
    EffectsFollowLastCoding(headers, false, SIZE_UNKNOWN);
    EffectsFollowLastLength(headers, false, SIZE_UNKNOWN);
    DecimalReadsBack(|text|);
  }

  /** A message whose headers announce the length of its document in decimal arrives in full, to a receiver whose
      owner keeps that size. */
  lemma AnnouncedMessageRoundTrip(owner: P.Owner, m: S.Message, tail: string)
    requires m.Valid() && m.closed && !m.chunked && !m.terminated && |m.leader| + 4 < BUFFER_SIZE
    requires Acceptable(owner, m.leader, S.Sendable(m.headers)) && KeepsSize(owner)
    requires Announces(S.Sendable(m.headers), m.Document())
    ensures var r := P.Drain(owner, P.Fresh(), m.Text() + tail);
            r.Finished? && r.error == HeNone && r.rest == tail && Received(m, r.p)
  {
    hide Acceptable, Announces, AfterHeaders, P.Drain, S.Message.Text, S.Message.Document;
    AnnouncedSize(owner, m.leader, S.Sendable(m.headers), m.Document());
    AnnouncedFits(S.Sendable(m.headers), m.Document());
    SizedMessageRoundTrip(owner, m, tail);
  }

  lemma AnnouncedFits(headers: seq<Header>, text: string)
    requires Announces(headers, text)
    ensures |text| < SIZE_UNKNOWN
  {}

  /** Parsing hands on no more than it consumes, and less if it gets past a line it starts at. */
  lemma {:induction false} NothingIsInvented(owner: P.Owner, p: P.Parser, text: string)
    ensures var r := P.Drain(owner, p, text);
            && |p.body| <= |r.p.body| && |r.p.body| + |r.rest| <= |p.body| + |text|
            && (p.InLineState() && (r.Finished? || |r.rest| < |text|) ==> |r.p.body| + |r.rest| < |p.body| + |text|)
    decreases |text|, if p.AtDataEnd() then 1 else 0
  {
    hide P.TakeLine, P.Drain;
    var t := P.TakeTurn(owner, p, text);
    P.DrainOneTurn(owner, p, text);
    if p.InLineState() { LineHandsOnNothing(owner, p, text); }
    if t.Move? { NothingIsInvented(owner, t.next, text[t.used..]); }
  }

  lemma LineHandsOnNothing(owner: P.Owner, p: P.Parser, text: string)
    requires p.InLineState()
    ensures var t := P.TakeLine(owner, p, text); !t.Wait? ==> t.next.body == p.body && t.used > 0
  {
    hide Strtoul, EqualsIgnoreCase, ScanUnsigned;
  }

  /** The receiver has all of the message, and it has ended there or lasts until the close. */
  predicate InFull(m: S.Message, r: P.Outcome) {
    r.rest == "" && Received(m, r.p) && (if r.Finished? then r.error == HeNone else R.ValidEndOfInput(r.p))
  }

  /** What the receiver expects of the length: chunks, the size it was told, or all until the close. */
  predicate LengthsAgree(a: P.Parser, m: S.Message) {
    m.chunked == a.chunked && (a.chunked || a.dataSize == SIZE_UNKNOWN || a.dataSize == |m.Document()|)
  }

  /** A message, complete as its sender made it, arrives in full if and only if the sender wrote chunks
      just when the receiver reads them, and without chunks if its document has the size expected, if any. */
  lemma MessageArrivesIff(owner: P.Owner, m: S.Message)
    requires m.Valid() && m.closed && m.terminated == m.chunked && |m.leader| + 4 < BUFFER_SIZE
    requires Acceptable(owner, m.leader, S.Sendable(m.headers))
    ensures InFull(m, P.Drain(owner, P.Fresh(), m.Text()))
       <==> LengthsAgree(AfterHeaders(owner, m.leader, S.Sendable(m.headers)), m)
  {
    hide P.Drain, Acceptable, AfterHeaders, S.Message.Text, S.Message.Start, S.Sendable, S.Body, Concat;
    var a := AfterHeaders(owner, m.leader, S.Sendable(m.headers));
    AfterHeadersBody(owner, m.leader, S.Sendable(m.headers));
    TextIsStartAndBody(m);
    StartOnWire(owner, m, S.Body(m.chunked, m.chunks, m.terminated));
    if LengthsAgree(a, m) {
      MessageMeansText(owner, m);
    } else if a.chunked {
      NothingIsInvented(owner, a, m.Document());
      P.DrainOneTurn(owner, a, "");
    } else {
      ChunksAreLonger(m.chunks);
      PlainBodyOnWire(owner, a, S.Body(m.chunked, m.chunks, m.terminated));
    }
  }

  /** Without chunks, the data is what the size says, or all there is. */
  lemma PlainBodyOnWire(owner: P.Owner, a: P.Parser, body: string)
    requires a.state == P.StData && !a.chunked
    ensures var r := P.Drain(owner, a, body);
            if a.dataSize != SIZE_UNKNOWN && a.dataSize <= |body| then
              r.Finished? && r.rest == body[a.dataSize..] && r.p.body == a.body + body[..a.dataSize]
            else r.More? && r.rest == "" && r.p.body == a.body + body && (R.ValidEndOfInput(r.p) ==> a.dataSize == SIZE_UNKNOWN)
  {
    hide P.TakeLine, P.Drain;
    P.DrainOneTurn(owner, a, body);
    assert body[0..] == body && a.body + "" == a.body;
    if body != "" && a.dataSize != 0 {
      var n := a.Available(|body|);
      P.DrainOneTurn(owner, a.TakeData(body[..n]), body[n..]);
      assert body[n..][0..] == body[n..];
      if n == |body| { assert body[..n] == body; }
    }
  }

  lemma TextIsStartAndBody(m: S.Message)
    requires m.Valid()
    ensures m.Text() == m.Start() + S.Body(m.chunked, m.chunks, m.terminated)
    ensures !m.chunked ==> S.Body(m.chunked, m.chunks, m.terminated) == m.Document()
  {
    hide S.Message.Start;
  }

  lemma {:induction false} ChunksAreLonger(chunks: seq<string>)
    ensures |S.Body(true, chunks, true)| > |Concat(chunks)|
    decreases |chunks|
  {
    if chunks == [] {
    } else {
      ChunksAreLonger(chunks[1..]);
    }
  }

  lemma RawDocument(m: S.Message)
    requires m.Valid() && !m.chunked
    ensures m.Text() == m.Start() + m.Document()
  {
    hide S.Message.Start;
  }

  /** An owner that accepts every leader and every header. */
  function Obliging(): P.Owner {
    P.Owner((line: string) => HeNone,
            (leader: string, headers: seq<Header>, chunked: bool, size: SizeT) => P.Verdict(HeNone, size, false))
  }

  const UPPER_CASE: seq<Header> := [Header("Transfer-Encoding", "CHUNKED")]

  /** Such an input: the coding named in capitals, and a document that looks like a last chunk. The
      receiver reports success, with an empty document. */
  lemma UpperCaseCodingLosesDocument()
    ensures var m := S.Message("HTTP/1.1 200 OK", UPPER_CASE, 1, true, S.SendsChunks(UPPER_CASE), [S.LAST_CHUNK], false);
            && !m.chunked && m.Valid() && m.Document() == S.LAST_CHUNK
            && Acceptable(Obliging(), m.leader, S.Sendable(m.headers))
            && var r := P.Drain(Obliging(), P.Fresh(), m.Text());
               r.Finished? && r.error == HeNone && r.p.body == ""
  {
    hide P.Drain, S.Message.Start, AfterHeaders, Acceptable, S.Sendable;
    var owner := Obliging();
    var m := S.Message("HTTP/1.1 200 OK", UPPER_CASE, 1, true, false, [S.LAST_CHUNK], false);
    UpperCaseIsAcceptable();
    assert [S.LAST_CHUNK][1..] == [];
    assert S.LAST_CHUNK + Concat([]) == S.LAST_CHUNK;
    RawDocument(m);
    StartOnWire(owner, m, S.LAST_CHUNK);
    assert S.LAST_CHUNK + "" == S.LAST_CHUNK;
    LastChunkOnWire(owner, AfterHeaders(owner, m.leader, UPPER_CASE), "");
  }

  lemma UpperCaseIsAcceptable()
    ensures S.Sendable(UPPER_CASE) == UPPER_CASE && !S.SendsChunks(UPPER_CASE)
    ensures var leader := "HTTP/1.1 200 OK";
            && Acceptable(Obliging(), leader, UPPER_CASE)
            && AfterHeaders(Obliging(), leader, UPPER_CASE) == P.Parser(P.StChunkSize, true, SIZE_UNKNOWN, leader, UPPER_CASE, "")
  {
    hide Effects, Carriable, S.Sendable, S.SendsChunks;
    UpperCaseIsSendable();
    UpperCaseIsCarriable();
    UpperCaseIsChunked();
  }

  lemma UpperCaseIsSendable()
    ensures S.Sendable(UPPER_CASE) == UPPER_CASE && !S.SendsChunks(UPPER_CASE)
  {
    hide EqualsIgnoreCase;
    var h := UPPER_CASE[0];
    UpperCaseNames();
    assert S.HeaderLine(h) == "Transfer-Encoding: CHUNKED\r\n";
    assert UPPER_CASE[1..] == [];
    assert S.Sendable([]) == [];
  }

  lemma UpperCaseIsCarriable()
    ensures forall h :: h in UPPER_CASE ==> Carriable(h)
  {}

  lemma UpperCaseIsChunked()
    ensures Effects(UPPER_CASE, false, SIZE_UNKNOWN) == Some((true, SIZE_UNKNOWN))
  {
    hide EqualsIgnoreCase, ScanUnsigned;
    UpperCaseNames();
    assert UPPER_CASE[1..] == [];
    assert Effects([], true, SIZE_UNKNOWN) == Some((true, SIZE_UNKNOWN));
  }

  lemma UpperCaseNames()
    ensures EqualsIgnoreCase("CHUNKED", "chunked") && "CHUNKED" != "chunked"
    ensures EqualsIgnoreCase("Transfer-Encoding", "Transfer-Encoding") && !EqualsIgnoreCase("Transfer-Encoding", "Content-Length")
  {
    assert Lower("CHUNKED") == "chunked" == Lower("chunked");
    assert |Lower("Content-Length")| != |Lower("Transfer-Encoding")|;
    assert "CHUNKED"[0] != "chunked"[0];
  }

  // ------------------------------------------------------------ when the connection closes too early

  /** Where the reference meaning gets through u without handing anything on, one call of the parser gets
      through it too, whatever its document would answer. */
  lemma {:induction false} ParseSkips(owner: P.Owner, p: P.Parser, writes: P.Script, u: string, d: string)
    requires P.NeverStalls(owner)
    requires var r := P.Drain(owner, p, u); r.More? && r.rest == "" && r.p.AwaitsData() && r.p.body == p.body
    ensures P.Parse(owner, p, writes, u + d) == P.Parse(owner, P.Drain(owner, p, u).p, writes, d)
    decreases |u|, if p.AtDataEnd() then 1 else 0
  {
    hide P.TakeLine, P.Parse, P.Drain;
    P.DrainOneTurn(owner, p, u);
    var t := P.TakeTurn(owner, p, u);
    if t.Wait? {
      assert u == "" && u + d == d;
    } else if p.AwaitsData() {
      NothingIsInvented(owner, t.next, u[t.used..]);
      assert false;
    } else {
      if p.InLineState() {
        LineHandsOnNothing(owner, p, u);
        P.TakeLineAppend(owner, p, u, d);
      }
      P.LineNeverStalls(owner, p, u);
      P.ParseOneTurn(owner, p, writes, u + d);
      assert (u + d)[t.used..] == u[t.used..] + d;
      ParseSkips(owner, t.next, writes, u[t.used..], d);
    }
  }

  /** An owner that stalls at the end of the headers holds the message up there: nothing behind them is touched. */
  lemma StallIsHeldUp(owner: P.Owner, p: P.Parser, writes: P.Script, tail: string)
    requires p.state == P.StHeaders
    requires var v := owner.headerComplete(p.leader, p.headers, p.chunked, p.dataSize); v.error == HeNone && v.stall
    ensures var h := P.Parse(owner, p, writes, S.CRLF + tail);
            && h.result == PrBlock && h.error == HeNone && h.rest == tail && h.writes == writes && !h.broken
            && h.p.state == (if p.chunked then P.StChunkSize else P.StData) && h.p.body == p.body
  {
    hide P.Parse;
    var text := S.CRLF + tail;
    IndexOfUnique(text, '\n', 1);
    TrimRightUnique(text[..1], 0);
    assert text[..1][..0] == "" && text[2..] == tail;
    P.ParseLineTurn(owner, p, writes, text);
  }

  /** A message that lasts until the close arrives at once, and its document blocks; then the connection
      is closed. The first call of the pump is held up with the document in the buffer, and the next
      reads, and sees the close, before it offers the buffer again: it reports success, and the
      document is lost. */
  lemma CloseWhileBlockedLosesDocument(owner: P.Owner, m: S.Message)
    requires m.Valid() && m.closed && !m.chunked && !m.terminated && |m.leader| + 4 < BUFFER_SIZE
    requires Acceptable(owner, m.leader, S.Sendable(m.headers)) && P.NeverStalls(owner)
    requires R.ValidEndOfInput(AfterHeaders(owner, m.leader, S.Sendable(m.headers)))
    requires !AfterHeaders(owner, m.leader, S.Sendable(m.headers)).chunked && m.Document() != ""
    requires |m.Text()| <= BUFFER_SIZE
    ensures var s := R.Pump(P.Fresh(), [P.Blocks], "", m.Text(), [Delivers(|m.Text()|), Ends]);
            var first := R.Turns(owner, s, 0, false);
            var second := R.Turns(owner, first.pump, 0, false);
            && first.cause == R.HeldUp && first.pump.pending == m.Document()
            && R.IsDone(second.cause) && second.error == HeNone
            && second.pump.p.body == "" != m.Document()
  {
    hide P.TakeLine, P.Drain, P.Parse, Acceptable, S.Message.Start, S.Sendable, Concat, AfterHeaders;
    var a := AfterHeaders(owner, m.leader, S.Sendable(m.headers));
    RawDocument(m);
    StartIsNotEmpty(m);
    AfterHeadersBody(owner, m.leader, S.Sendable(m.headers));
    StartOnWire(owner, m, "");
    assert m.Start() + "" == m.Start();
    P.DrainOneTurn(owner, a, "");
    ParseSkips(owner, P.Fresh(), [P.Blocks], m.Start(), m.Document());
    P.ParseOneTurn(owner, a, [P.Blocks], m.Document());
    FirstCallIsHeldUp(owner, m.Text(), a, m.Document());
    SecondCallEnds(owner, R.Pump(a, [], m.Document(), "", [Ends]));
  }

  lemma StartIsNotEmpty(m: S.Message)
    requires m.Valid() && m.closed && |m.leader| + 4 < BUFFER_SIZE
    ensures m.Start() != ""
  {
    hide S.HeaderLines, S.Opening, S.Message.Start;
    StartText(m);
  }

  lemma AfterHeadersBody(owner: P.Owner, leader: string, headers: seq<Header>)
    requires Acceptable(owner, leader, headers)
    ensures var a := AfterHeaders(owner, leader, headers);
            a.body == "" && a.state == if a.chunked then P.StChunkSize else P.StData
  {}

  lemma FirstCallIsHeldUp(owner: P.Owner, text: string, a: P.Parser, d: string)
    requires 0 < |text| <= BUFFER_SIZE
    requires P.Parse(owner, P.Fresh(), [P.Blocks], text) == P.Halt(a, d, [], PrBlock, HeNone, false)
    ensures var s := R.Pump(P.Fresh(), [P.Blocks], "", text, [Delivers(|text|), Ends]);
            R.Turns(owner, s, 0, false) == R.Return(R.Pump(a, [], d, "", [Ends]), HeNone, R.HeldUp)
  {
    hide P.Parse;
    assert "" + text[..|text|] == text && text[|text|..] == "";
    assert [Delivers(|text|), Ends][1..] == [Ends];
  }

  lemma SecondCallEnds(owner: P.Owner, s: R.Pump)
    requires s.Valid() && |s.pending| < BUFFER_SIZE && s.incoming == "" && s.deliveries == [Ends] && R.ValidEndOfInput(s.p)
    ensures R.Turns(owner, s, 0, false) == R.Return(s.(deliveries := []), HeNone, R.StreamEnded)
  {
    assert s.pending + ""[..0] == s.pending && [Ends][1..] == [];
  }

  // ------------------------------------------------------------ every line fits the receiver's buffer

  lemma WithinLine(owner: P.Owner, p: P.Parser, u: string)
    requires p.InLineState() && '\n' !in u && |u| < BUFFER_SIZE
    ensures R.WaitsInBuffer(P.Drain(owner, p, u))
  {
    IndexOfUnique(u, '\n', |u|);
    P.DrainOneTurn(owner, p, u);
  }

  lemma WithinHeader(owner: P.Owner, p: P.Parser, h: Header, k: nat)
    requires p.InLineState() && Carriable(h) && S.Fits(h) && k < |S.HeaderLine(h)|
    ensures R.WaitsInBuffer(P.Drain(owner, p, S.HeaderLine(h)[..k]))
  {
    hide P.Drain;
    var u := S.HeaderLine(h)[..k];
    assert u == (h.name + ": " + h.value + "\r")[..k];
    WithinLine(owner, p, u);
  }

  lemma {:induction false} WithinHeaders(owner: P.Owner, p: P.Parser, headers: seq<Header>, k: nat)
    requires p.state == P.StHeaders && k < |S.HeaderLines(headers) + S.CRLF|
    requires forall h :: h in headers ==> Carriable(h) && S.Fits(h)
    requires Effects(headers, p.chunked, p.dataSize).Some?
    ensures R.WaitsInBuffer(P.Drain(owner, p, (S.HeaderLines(headers) + S.CRLF)[..k]))
    decreases |headers|
  {
    hide P.HeaderEffect, P.Drain, S.HeaderLine, Carriable, S.Fits, R.WaitsInBuffer;
    if headers == [] {
      WithinLine(owner, p, (S.HeaderLines(headers) + S.CRLF)[..k]);
    } else {
      var h, more := headers[0], S.HeaderLines(headers[1..]) + S.CRLF;
      var n := |S.HeaderLine(h)|;
      assert S.HeaderLines(headers) + S.CRLF == S.HeaderLine(h) + more;
      if k < n {
        assert (S.HeaderLine(h) + more)[..k] == S.HeaderLine(h)[..k];
        WithinHeader(owner, p, h, k);
      } else {
        assert (S.HeaderLine(h) + more)[..k] == S.HeaderLine(h) + more[..k - n];
        HeaderOnWire(owner, p, h, more[..k - n]);
        var e := P.HeaderEffect(h, p.chunked, p.dataSize).value;
        WithinHeaders(owner, p.(chunked := e.0, dataSize := e.1, headers := p.headers + [h]), headers[1..], k - n);
      }
    }
  }

  lemma {:induction false} SendableFits(headers: seq<Header>)
    ensures forall h :: h in S.Sendable(headers) ==> S.Fits(h)
  {
    hide S.Fits;
    if headers == [] {
    } else {
      SendableFits(headers[1..]);
    }
  }

  lemma WithinStart(owner: P.Owner, m: S.Message, k: nat)
    requires m.Valid() && m.closed && |m.leader| + 4 < BUFFER_SIZE && k < |m.Start()|
    requires Acceptable(owner, m.leader, S.Sendable(m.headers))
    ensures R.WaitsInBuffer(P.Drain(owner, P.Fresh(), m.Start()[..k]))
  {
    hide P.Drain, S.HeaderLines, S.Sendable, Effects, S.Message.Start, S.Fits, Carriable;
    var headers := S.Sendable(m.headers);
    var lines := S.HeaderLines(headers) + S.CRLF;
    var n := |m.leader| + 2;
    StartText(m);
    SendableFits(m.headers);
    assert m.Start() == m.leader + S.CRLF + lines;
    if k < n {
      assert m.Start()[..k] == (m.leader + "\r")[..k];
      WithinLine(owner, P.Fresh(), m.Start()[..k]);
    } else {
      assert m.Start()[..k] == m.leader + "\r" + "\n" + lines[..k - n];
      LineOnWire(owner, P.Fresh(), m.leader, "\r", lines[..k - n]);
      WithinHeaders(owner, P.Fresh().(state := P.StHeaders, leader := m.leader), headers, k - n);
    }
  }

  lemma WithinChunk(owner: P.Owner, p: P.Parser, data: string, k: nat)
    requires p.state == P.StChunkSize && p.chunked && 0 < |data| < SIZE_UNKNOWN && k < |S.ChunkText(data)|
    ensures R.WaitsInBuffer(P.Drain(owner, p, S.ChunkText(data)[..k]))
  {
    hide P.Drain, P.TakeLine, FixedDigits, R.WaitsInBuffer;
    var digits := FixedDigits(|data|, S.CHUNK_DIGITS, 16);
    var rest := data + S.CRLF;
    assert S.ChunkText(data) == digits + S.CRLF + rest;
    if k < S.CHUNK_DIGITS + 2 {
      assert S.ChunkText(data)[..k] == (digits + "\r")[..k];
      assert forall i :: 0 <= i < |digits| ==> digits[i] !in "+-xX\n";
      WithinLine(owner, p, S.ChunkText(data)[..k]);
    } else {
      var u := rest[..k - S.CHUNK_DIGITS - 2];
      assert S.ChunkText(data)[..k] == digits + S.CRLF + u;
      ChunkSizeOnWire(owner, p, |data|, u);
      WithinData(owner, p.(state := P.StData, dataSize := |data|), data, |u|);
    }
  }

  lemma WithinData(owner: P.Owner, p: P.Parser, data: string, k: nat)
    requires p.state == P.StData && p.chunked && 0 < |data| == p.dataSize < SIZE_UNKNOWN && k < |data| + 2
    ensures R.WaitsInBuffer(P.Drain(owner, p, (data + S.CRLF)[..k]))
  {
    hide P.Drain, P.TakeLine;
    var u := (data + S.CRLF)[..k];
    P.DrainOneTurn(owner, p, u);
    if k < |data| {
      assert u[..k] == u && u[k..] == "";
      P.DrainOneTurn(owner, p.TakeData(u), "");
    } else {
      var q := p.TakeData(u[..|data|]);
      P.DrainOneTurn(owner, q, u[|data|..]);
      assert u[|data|..][0..] == u[|data|..];
      WithinLine(owner, q.(state := P.StChunkTerm), u[|data|..]);
    }
  }

  lemma WithinLastChunk(owner: P.Owner, p: P.Parser, k: nat)
    requires p.state == P.StChunkSize && p.chunked && k <= |S.LAST_CHUNK|
    ensures R.WaitsInBuffer(P.Drain(owner, p, S.LAST_CHUNK[..k]))
  {
    hide P.Drain, Strtoul;
    var u := S.LAST_CHUNK[..k];
    if k < 3 {
      WithinLine(owner, p, u);
    } else {
      assert u == "0" + "\r" + "\n" + u[3..];
      LineOnWire(owner, p, "0", "\r", u[3..]);
      ZeroInHex();
      if k < 5 {
        WithinLine(owner, p.(state := P.StTrailers, dataSize := 0), u[3..]);
      } else {
        assert u == S.LAST_CHUNK + "";
        LastChunkOnWire(owner, p, "");
      }
    }
  }

  lemma {:induction false} WithinChunks(owner: P.Owner, p: P.Parser, chunks: seq<string>, k: nat)
    requires p.state == P.StChunkSize && p.chunked && k <= |S.Body(true, chunks, true)|
    requires forall i :: 0 <= i < |chunks| ==> 0 < |chunks[i]| < SIZE_UNKNOWN
    ensures R.WaitsInBuffer(P.Drain(owner, p, S.Body(true, chunks, true)[..k]))
    decreases |chunks|
  {
    hide P.Drain, S.ChunkText, R.WaitsInBuffer;
    if chunks == [] {
      assert S.Body(true, chunks, true) == S.LAST_CHUNK;
      WithinLastChunk(owner, p, k);
    } else {
      var more, n := S.Body(true, chunks[1..], true), |S.ChunkText(chunks[0])|;
      assert S.Body(true, chunks, true) == S.ChunkText(chunks[0]) + more;
      if k < n {
        assert (S.ChunkText(chunks[0]) + more)[..k] == S.ChunkText(chunks[0])[..k];
        WithinChunk(owner, p, chunks[0], k);
      } else {
        assert (S.ChunkText(chunks[0]) + more)[..k] == S.ChunkText(chunks[0]) + more[..k - n];
        ChunkOnWire(owner, p, chunks[0], more[..k - n]);
        WithinChunks(owner, p.(dataSize := 0, body := p.body + chunks[0]), chunks[1..], k - n);
      }
    }
  }

  /** No line of a message, complete as its sender made it, is too long for a receiver that reads it in the
      coding it was sent in: the same 32 KB bound both ends. */
  lemma MessageLinesFit(owner: P.Owner, m: S.Message)
    requires m.Valid() && m.closed && m.terminated == m.chunked && |m.leader| + 4 < BUFFER_SIZE
    requires Acceptable(owner, m.leader, S.Sendable(m.headers))
    requires m.chunked == AfterHeaders(owner, m.leader, S.Sendable(m.headers)).chunked
    ensures R.LinesFit(owner, P.Fresh(), m.Text(), 0)
  {
    hide P.Drain, S.Body, S.Sendable, Acceptable, AfterHeaders, S.Message.Start, S.Message.Text, R.WaitsInBuffer;
    var a := AfterHeaders(owner, m.leader, S.Sendable(m.headers));
    var body := S.Body(m.chunked, m.chunks, m.terminated);
    TextIsStartAndBody(m);
    AfterHeadersBody(owner, m.leader, S.Sendable(m.headers));
    forall k | 0 <= k <= |m.Text()| ensures R.WaitsInBuffer(P.Drain(owner, P.Fresh(), m.Text()[..k])) {
      var n := |m.Start()|;
      if k < n {
        assert m.Text()[..k] == m.Start()[..k];
        WithinStart(owner, m, k);
      } else {
        var u := body[..k - n];
        assert m.Text()[..k] == m.Start() + u;
        StartOnWire(owner, m, u);
        if m.chunked { WithinChunks(owner, a, m.chunks, k - n); } else { WithinPlain(owner, a, u); }
      }
    }
  }

  lemma WithinPlain(owner: P.Owner, a: P.Parser, u: string)
    requires a.state == P.StData && !a.chunked
    ensures R.WaitsInBuffer(P.Drain(owner, a, u))
  {
    hide P.Drain;
    PlainBodyOnWire(owner, a, u);
  }

  // ------------------------------------------------------------ end to end

  /** The message has arrived. */
  predicate Arrived(leader: string, headers: seq<Header>, text: string, p: P.Parser) {
    p.leader == leader && p.headers == S.Sendable(headers) && p.body == text
  }

  /** The end of the document is marked, by the last chunk or by the size the receiver expects. */
  predicate HasEnd(a: P.Parser, text: string) { a.chunked || a.dataSize == |text| < SIZE_UNKNOWN }

  /** The text on the wire means the message that was sent. */
  lemma MessageMeansText(owner: P.Owner, m: S.Message)
    requires m.Valid() && m.closed && m.terminated == m.chunked && |m.leader| + 4 < BUFFER_SIZE
    requires Acceptable(owner, m.leader, S.Sendable(m.headers))
    requires m.chunked == AfterHeaders(owner, m.leader, S.Sendable(m.headers)).chunked
    ensures var a, r := AfterHeaders(owner, m.leader, S.Sendable(m.headers)), P.Drain(owner, P.Fresh(), m.Text());
            && (HasEnd(a, m.Document()) ==> r.Finished? && r.error == HeNone && r.rest == "" && Received(m, r.p))
            && (R.ValidEndOfInput(a) ==> r.More? && r.rest == "" && R.ValidEndOfInput(r.p) && Received(m, r.p))
  {
    hide P.Drain, S.Message.Text, S.Message.Document, Acceptable;
    var a := AfterHeaders(owner, m.leader, S.Sendable(m.headers));
    assert m.Text() + "" == m.Text();
    if m.chunked {
      ChunkedMessageRoundTrip(owner, m, "");
    } else {
      if HasEnd(a, m.Document()) { SizedMessageRoundTrip(owner, m, ""); }
      if R.ValidEndOfInput(a) { UnsizedMessageRoundTrip(owner, m); }
    }
  }

  /** Send a message through any transport, and deliver what the transport took through any network into
      any receiver, with so many calls at both ends. */
  function Transferred(owner: P.Owner, leader: string, headers: seq<Header>, document: S.Store, writings: seq<Writing>,
                       deliveries: seq<Reading>, writes: P.Script, calls: nat): (r: (S.Flushed, R.Return))
  {
    var sent := S.Calls(S.Begun(leader, headers, Some(document), "", writings), calls);
    (sent, R.Calls(owner, R.Pump(P.Fresh(), writes, "", sent.state.sent, deliveries), calls))
  }

  /** Neither the document nor the owner holds the message up. */
  ghost predicate Unhindered(owner: P.Owner, writes: P.Script) { P.Willing(writes) && P.NeverStalls(owner) }

  /** End to end. When both ends use the same coding and report success, what has arrived is the message:
      always if its end is marked, and if it lasts until the close when nothing holds the receiver up and
      the network does not fail without an error code.
      Otherwise what is missing is what was still in the buffer or undelivered. */
  lemma TransferIsFaithful(owner: P.Owner, leader: string, headers: seq<Header>, document: S.Store, writings: seq<Writing>,
                           deliveries: seq<Reading>, writes: P.Script, calls: nat)
    requires |leader| + 4 < BUFFER_SIZE && Acceptable(owner, leader, S.Sendable(headers))
    requires S.SendsChunks(headers) == AfterHeaders(owner, leader, S.Sendable(headers)).chunked
    ensures var (sent, got) := Transferred(owner, leader, headers, document, writings, deliveries, writes, calls);
            var a := AfterHeaders(owner, leader, S.Sendable(headers));
            sent.completed == Some(HeNone) && R.IsDone(got.cause) && got.error == HeNone ==>
              && (HasEnd(a, document.remaining) || (R.ValidEndOfInput(a) && Unhindered(owner, writes) && NoSilentFailure(deliveries)) ==>
                    Arrived(leader, headers, document.remaining, got.pump.p))
              && (R.ValidEndOfInput(a) ==>
                    (Arrived(leader, headers, document.remaining, got.pump.p) <==> got.pump.pending + got.pump.incoming == ""))
  {
    hide P.Drain, Acceptable, AfterHeaders, S.Message.Text, S.Message.Document, S.Sendable, S.SendsChunks, R.Explained,
         S.Begun, S.Calls, R.Calls, R.Pump.Starved, R.Pump.Fate;
    var (sent, got) := Transferred(owner, leader, headers, document, writings, deliveries, writes, calls);
    var s := R.Pump(P.Fresh(), writes, "", sent.state.sent, deliveries);
    S.CallsSend(leader, headers, document, writings, calls);
    R.NothingReadYet(owner, writes, sent.state.sent, deliveries);
    R.CallsExplained(owner, s, calls);
    if sent.completed == Some(HeNone) && R.IsDone(got.cause) && got.error == HeNone {
      MessageMeansText(owner, sent.state.message);
      if HasEnd(AfterHeaders(owner, leader, S.Sendable(headers)), document.remaining) {
        R.SuccessMeansEnded(owner, s.Fate(owner), got);
        EndedAsMeant(owner, s.Fate(owner), got);
      } else if R.ValidEndOfInput(AfterHeaders(owner, leader, S.Sendable(headers))) {
        R.CleanCloseIsComplete(owner, s.Fate(owner), got);
        if Unhindered(owner, writes) && NoSilentFailure(deliveries) { R.WillingGetsAll(owner, s, calls); }
      }
    }
  }

  lemma EndedAsMeant(owner: P.Owner, fate: P.Outcome, r: R.Return)
    requires R.Explained(owner, fate, r) && r.cause == R.MessageEnded
    ensures fate == P.Finished(r.pump.p, r.pump.pending + r.pump.incoming, r.error)
  {}

  /** And it gets there. With streams that do not fail the sender has finished after more calls than their
      scripts have answers. A message whose end is marked then arrives, without error, at a receiver that
      nothing holds up: as soon as everything has been delivered, which takes no more calls than there
      are characters when the network delivers whatever there is. */
  lemma TransferCompletes(owner: P.Owner, leader: string, headers: seq<Header>, document: S.Store, writings: seq<Writing>,
                          deliveries: seq<Reading>, writes: P.Script, calls: nat)
    requires |leader| + 4 < BUFFER_SIZE && Acceptable(owner, leader, S.Sendable(headers))
    requires S.SendsChunks(headers) == AfterHeaders(owner, leader, S.Sendable(headers)).chunked
    requires NeverFails(document.readings) && NeverBreaks(writings) && calls > |document.readings| + |writings|
    ensures var (sent, got) := Transferred(owner, leader, headers, document, writings, deliveries, writes, calls);
            && sent.completed == Some(HeNone)
            && (HasEnd(AfterHeaders(owner, leader, S.Sendable(headers)), document.remaining)
                && Unhindered(owner, writes) && NeverFails(deliveries) ==>
                  && (got.pump.incoming == "" || (deliveries == [] && calls > |sent.state.sent|) ==> R.IsDone(got.cause))
                  && (R.IsDone(got.cause) ==> got.error == HeNone && Arrived(leader, headers, document.remaining, got.pump.p)))
  {
    hide P.Drain, Acceptable, AfterHeaders, S.Message.Text, S.Message.Document, S.Sendable, S.SendsChunks, R.Explained,
         S.Begun, S.Calls, R.Calls, R.Pump.Starved, R.Pump.Fate;
    var (sent, got) := Transferred(owner, leader, headers, document, writings, deliveries, writes, calls);
    var s := R.Pump(P.Fresh(), writes, "", sent.state.sent, deliveries);
    S.CallsSend(leader, headers, document, writings, calls);
    if HasEnd(AfterHeaders(owner, leader, S.Sendable(headers)), document.remaining)
       && Unhindered(owner, writes) && NeverFails(deliveries) {
      R.NothingReadYet(owner, writes, sent.state.sent, deliveries);
      R.CallsExplained(owner, s, calls);
      MessageMeansText(owner, sent.state.message);
      assert "" + sent.state.sent == sent.state.sent;
      MessageLinesFit(owner, sent.state.message);
      R.NoLineTooLong(owner, s, calls);
      R.ReceptionCompletes(owner, s, calls, s.Fate(owner));
      DoneErrors(owner, s.Fate(owner), got);
      TransferIsFaithful(owner, leader, headers, document, writings, deliveries, writes, calls);
    }
  }

  /** In the words of the headers: a text announced by its length in decimal, with no coding named, gets there. */
  lemma AnnouncedTransferArrives(owner: P.Owner, leader: string, headers: seq<Header>, document: S.Store, writings: seq<Writing>,
                                 deliveries: seq<Reading>, writes: P.Script, calls: nat)
    requires |leader| + 4 < BUFFER_SIZE && Acceptable(owner, leader, S.Sendable(headers))
    requires KeepsSize(owner) && Announces(S.Sendable(headers), document.remaining) && forall h :: h in headers ==> !S.NamesCoding(h)
    requires NeverFails(document.readings) && NeverBreaks(writings) && calls > |document.readings| + |writings|
    requires Unhindered(owner, writes) && NeverFails(deliveries)
    ensures var (sent, got) := Transferred(owner, leader, headers, document, writings, deliveries, writes, calls);
            got.pump.incoming == "" ==>
              R.IsDone(got.cause) && got.error == HeNone && Arrived(leader, headers, document.remaining, got.pump.p)
  {
    hide P.Drain, Acceptable, AfterHeaders, Announces, S.Sendable, S.NamesCoding, Transferred, Arrived, KeepsSize, R.IsDone;
    NothingNamed(headers);
    AnnouncedSize(owner, leader, S.Sendable(headers), document.remaining);
    AnnouncedFits(S.Sendable(headers), document.remaining);
    NoChunksSent(headers);
    TransferCompletes(owner, leader, headers, document, writings, deliveries, writes, calls);
  }

  lemma {:induction false} NoChunksSent(headers: seq<Header>)
    requires forall h :: h in headers ==> !S.NamesCoding(h)
    ensures S.FirstCoding(headers).None? && !S.SendsChunks(headers)
  {
    hide S.NamesCoding;
    if headers == [] {
    } else {
      NoChunksSent(headers[1..]);
    }
  }

  lemma DoneErrors(owner: P.Owner, fate: P.Outcome, r: R.Return)
    requires R.Explained(owner, fate, r) && fate.Finished? && fate.error == HeNone
    ensures r.cause == R.MessageEnded ==> R.IsDone(r.cause) && r.error == HeNone
  {}

  /** The two ends as they run do exactly that. */
  method Transfer(owner: P.Owner, leader: string, headers: seq<Header>, document: S.Store, writings: seq<Writing>,
                  deliveries: seq<Reading>, writes: P.Script, calls: nat)
    returns (sender: S.Sender, receiver: R.Receiver, done: bool, error: HttpError, ghost cause: R.Cause)
    ensures sender.Valid() && receiver.Valid() && (done <==> R.IsDone(cause))
    ensures (S.Flushed(sender.Model(), sender.completed), R.Return(receiver.Model(), error, cause))
         == Transferred(owner, leader, headers, document, writings, deliveries, writes, calls)
  {
    hide S.Begun, S.Calls, R.Calls, R.IsDone;
    sender := S.SendAll(leader, headers, document.remaining, document.readings, writings, calls);
    receiver, done, error, cause := R.ReceiveAll(owner, sender.transport.sent, deliveries, writes, calls);
  }
}
