/** AsyncTCPSocket: packets with a 16-bit big-endian length in front, over a byte channel that
    takes and delivers any part of what it is offered. The sender drops packets rather than
    wait; the receiver reassembles them in place. */
module PacketFraming {
  import opened ByteOrder
  import opened Sequences
  import opened Streams
  import Memory

  const MAX_PACKET_SIZE: nat := 64 * 1024
  const PACKET_LEN_SIZE: nat := 2
  const BUF_SIZE: nat := MAX_PACKET_SIZE + PACKET_LEN_SIZE

  /** What the 16-bit length can describe. */
  type Packet = p: seq<byte> | |p| < 0x1_0000

  // ------------------------------------------------------------ frames

  function Frame(p: Packet): seq<byte> { BigEndian(|p|, PACKET_LEN_SIZE) + p }

  function Frames(ps: seq<Packet>): seq<byte> {
    if ps == [] then [] else Frame(ps[0]) + Frames(ps[1..])
  }

  /** The length announced at the front of s, with its own two bytes. */
  function FrameSize(s: seq<byte>): (n: nat)
    requires |s| >= PACKET_LEN_SIZE
    ensures PACKET_LEN_SIZE <= n < PACKET_LEN_SIZE + 0x1_0000
  {
    PACKET_LEN_SIZE + GetBE16(s[..PACKET_LEN_SIZE])
  }

  predicate HasFrame(s: seq<byte>) {
    |s| >= PACKET_LEN_SIZE && |s| >= FrameSize(s)
  }

  datatype Unframed = Unframed(packets: seq<Packet>, rest: seq<byte>)

  /** All complete packets at the front of s, and what is left over. */
  function Unframe(s: seq<byte>): (u: Unframed)
    ensures !HasFrame(u.rest)
  {
    if !HasFrame(s) then Unframed([], s)
    else
      var n := FrameSize(s);
      var u := Unframe(s[n..]);
      Unframed([s[PACKET_LEN_SIZE..n]] + u.packets, u.rest)
  }

  lemma UnframeOnce(s: seq<byte>)
    ensures if |s| < PACKET_LEN_SIZE || |s| < FrameSize(s) then Unframe(s) == Unframed([], s)
            else var u := Unframe(s[FrameSize(s)..]);
                 Unframe(s) == Unframed([s[PACKET_LEN_SIZE..FrameSize(s)]] + u.packets, u.rest)
  {}

  /** A leftover is shorter than one frame, so the receive buffer is never full. */
  lemma LeftoverFits(s: seq<byte>)
    requires !HasFrame(s)
    ensures |s| < PACKET_LEN_SIZE || |s| < FrameSize(s)
    ensures |s| <= MAX_PACKET_SIZE < BUF_SIZE
  {}

  lemma FrameAtFront(p: Packet, tail: seq<byte>)
    ensures var s := Frame(p) + tail;
            HasFrame(s) && FrameSize(s) == |Frame(p)| && s[PACKET_LEN_SIZE..|Frame(p)|] == p && s[|Frame(p)|..] == tail
  {
    var s := Frame(p) + tail;
    assert s[..PACKET_LEN_SIZE] == BigEndian(|p|, PACKET_LEN_SIZE);
    BigEndianRoundTrip(|p|, PACKET_LEN_SIZE);
    Limits();
  }

  lemma FrameOfFront(s: seq<byte>)
    requires HasFrame(s)
    ensures Frame(s[PACKET_LEN_SIZE..FrameSize(s)]) == s[..FrameSize(s)]
  {
    BytesRoundTrip(s[..PACKET_LEN_SIZE]);
  }

  lemma FramesCons(p: Packet, ps: seq<Packet>)
    ensures Frames([p] + ps) == Frame(p) + Frames(ps)
  {
    assert ([p] + ps)[1..] == ps;
  }

  /** Unframing loses nothing. */
  lemma {:induction false} UnframeKeepsBytes(s: seq<byte>)
    ensures Frames(Unframe(s).packets) + Unframe(s).rest == s
  {
    hide Frame, FrameSize, Unframe;
    UnframeOnce(s);
    if !HasFrame(s) {
      assert Frames([]) + s == s;
    } else {
      var n := FrameSize(s);
      var p: Packet, u := s[PACKET_LEN_SIZE..n], Unframe(s[n..]);
      UnframeKeepsBytes(s[n..]);
      FrameOfFront(s);
      FramesCons(p, u.packets);
      Assoc(Frame(p), Frames(u.packets), u.rest);
      assert s[..n] + s[n..] == s;
    }
  }

  /** Unframing undoes framing, whatever incomplete frame follows. */
  lemma {:induction false} UnframeOfFrames(ps: seq<Packet>, rest: seq<byte>)
    requires !HasFrame(rest)
    ensures Unframe(Frames(ps) + rest) == Unframed(ps, rest)
  {
    if ps == [] {
      assert [] + rest == rest;
    } else {
      UnframeOfFrames(ps[1..], rest);
      assert Frames(ps) + rest == Frame(ps[0]) + (Frames(ps[1..]) + rest);
      FrameAtFront(ps[0], Frames(ps[1..]) + rest);
    }
  }

  /** Written with its length cut to sixteen bits, data comes back as one packet if and only if that
      length fits: this is why AppendToOutBuffer's assertion bounds what may be sent. */
  lemma OnlyShortPacketsSurvive(data: seq<byte>)
    ensures var u := Unframe(BigEndian(|data|, PACKET_LEN_SIZE) + data);
            |u.packets| == 1 && u.packets[0] == data && u.rest == [] <==> |data| < 0x1_0000
  {
    if |data| < 0x1_0000 {
      var packet: Packet := data;
      UnframeOfFrames([packet], []);
      assert [packet][1..] == [];
      assert Frames([packet]) + [] == Frame(packet) == BigEndian(|data|, PACKET_LEN_SIZE) + data;
    }
  }

  lemma {:induction false} FramesAppend(ps: seq<Packet>, qs: seq<Packet>)
    ensures Frames(ps + qs) == Frames(ps) + Frames(qs)
  {
    hide Frame;
    if ps == [] {
      assert ps + qs == qs;
    } else {
      FramesAppend(ps[1..], qs);
      assert (ps + qs)[1..] == ps[1..] + qs;
      Assoc(Frame(ps[0]), Frames(ps[1..]), Frames(qs));
    }
  }

  /** Two framed streams that start alike are made of the same packets. */
  lemma {:induction false} FramesPrefix(ps: seq<Packet>, qs: seq<Packet>, tail: seq<byte>)
    requires Frames(ps) + tail == Frames(qs)
    ensures ps <= qs
  {
    if ps == [] {
    } else {
      var t := Frames(ps[1..]) + tail;
      assert Frames(ps) + tail == Frame(ps[0]) + t;
      assert |Frame(ps[0])| >= PACKET_LEN_SIZE;
      assert qs != [];
      FrameAtFront(ps[0], t);
      FrameAtFront(qs[0], Frames(qs[1..]));
      assert ps[0] == qs[0] && t == Frames(qs[1..]);
      FramesPrefix(ps[1..], qs[1..], tail);
    }
  }

  /** Unframing what was held back together with what has just arrived. */
  lemma ReceivedMore(before: seq<Packet>, held: seq<byte>, arrived: seq<byte>)
    ensures var u := Unframe(held + arrived);
            && Frames(before) + held + arrived == Frames(before + u.packets) + u.rest
            && |u.rest| <= MAX_PACKET_SIZE
  {
    hide Frames, Unframe;
    var u := Unframe(held + arrived);
    UnframeKeepsBytes(held + arrived);
    FramesAppend(before, u.packets);
    Assoc(Frames(before), held, arrived);
    Assoc(Frames(before), Frames(u.packets), u.rest);
    LeftoverFits(u.rest);
  }

  lemma FramesSnoc(ps: seq<Packet>, p: Packet)
    ensures Frames(ps + [p]) == Frames(ps) + Frame(p)
  {
    FramesAppend(ps, [p]);
    assert [p][1..] == [];
  }

  // ------------------------------------------------------------ dropped packets

  /** a is b with some elements left out, in the same order. */
  predicate IsSubsequence<T(==)>(a: seq<T>, b: seq<T>) {
    a == [] ||
    (b != [] && (IsSubsequence(a, b[..|b| - 1]) ||
                 (a[|a| - 1] == b[|b| - 1] && IsSubsequence(a[..|a| - 1], b[..|b| - 1]))))
  }

  lemma SubsequenceGrows<T>(a: seq<T>, b: seq<T>, x: T)
    requires IsSubsequence(a, b)
    ensures IsSubsequence(a, b + [x]) && IsSubsequence(a + [x], b + [x])
  {
    assert (b + [x])[..|b|] == b && (a + [x])[..|a|] == a;
  }

  // ------------------------------------------------------------ what one call does

  /** One direction of a connection, with its answers to come. */
  datatype Wire = Wire(sent: seq<byte>, delivered: nat, sends: seq<int>, recvs: seq<int>)
  {
    predicate Valid() { delivered <= |sent| }

    function Put(data: seq<byte>): (w: Wire) {
      this.(sent := sent + data[..Amount(Answer(sends, |data|))], sends := Rest(sends))
    }

    /** How a read into so much room is answered. */
    function Arriving(room: nat): (res: int)
      requires Valid()
    {
      Answer(recvs, if room < |sent| - delivered then room else |sent| - delivered)
    }

    function Take(room: nat): (w: Wire)
      requires Valid()
      ensures w.Valid() && delivered <= w.delivered && w.delivered - delivered <= room
    {
      this.(delivered := delivered + Amount(Arriving(room)), recvs := Rest(recvs))
    }
  }

  /** One end: what it holds in its two buffers, the packets it was asked to send, those it kept, and those
      it has signalled. */
  datatype End = End(outbuf: seq<byte>, inbuf: seq<byte>, offered: seq<seq<byte>>, kept: seq<Packet>, signalled: seq<Packet>)

  /** Such a packet would not pass the assertion in AppendToOutBuffer. */
  predicate Overruns(data: seq<byte>) { 0x1_0000 <= |data| <= BUF_SIZE }

  /** Send: dropped whole while another packet is being flushed or when the channel takes nothing. Where the
      assertion fails nothing more is done. */
  function Sent(e: End, w: Wire, data: seq<byte>): (End, Wire) {
    if |data| > BUF_SIZE then (e, w)
    else
      var offered := e.(offered := e.offered + [data]);
      if e.outbuf != [] || Overruns(data) then (offered, w)
      else
        var res := Answer(w.sends, |Frame(data)|);
        if res <= 0 then (offered, w.Put(Frame(data)))
        else (offered.(kept := e.kept + [data], outbuf := Frame(data)[res..]), w.Put(Frame(data)))
  }

  /** OnWriteEvent */
  function Flushed(e: End, w: Wire): (End, Wire) {
    if e.outbuf == [] then (e, w)
    else (e.(outbuf := e.outbuf[Amount(Answer(w.sends, |e.outbuf|))..]), w.Put(e.outbuf))
  }

  /** OnReadEvent */
  function Received(e: End, w: Wire): (r: (End, Wire))
    requires |e.inbuf| < BUF_SIZE && w.Valid()
    ensures |r.0.inbuf| < BUF_SIZE && r.1.Valid()
  {
    var after := w.Take(BUF_SIZE - |e.inbuf|);
    if w.Arriving(BUF_SIZE - |e.inbuf|) < 0 then (e, after)
    else
      var u := Unframe(e.inbuf + w.sent[w.delivered..after.delivered]);
      LeftoverFits(u.rest);
      (e.(signalled := e.signalled + u.packets, inbuf := u.rest), after)
  }

  // ------------------------------------------------------------ what every call keeps

  /** What went out, followed by what is still buffered, is the framed form of the kept packets. */
  predicate SendSide(e: End, w: Wire) {
    |e.outbuf| < BUF_SIZE && w.sent + e.outbuf == Frames(e.kept) && IsSubsequence<seq<byte>>(e.kept, e.offered)
  }

  /** What came in is the framed form of the signalled packets, followed by less than one frame. */
  predicate ReceiveSide(e: End, w: Wire) {
    && w.Valid() && |e.inbuf| <= MAX_PACKET_SIZE
    && w.sent[..w.delivered] == Frames(e.signalled) + e.inbuf && !HasFrame(e.inbuf)
  }

  lemma PutKeeps(w: Wire, data: seq<byte>)
    ensures var n := Amount(Answer(w.sends, |data|));
            && w.Put(data).sent + data[n..] == w.sent + data && w.sent <= w.Put(data).sent
            && (n == 0 ==> w.Put(data).sent == w.sent) && w.Put(data).delivered == w.delivered
  {
    var n := Amount(Answer(w.sends, |data|));
    Assoc(w.sent, data[..n], data[n..]);
    assert data[..n] + data[n..] == data;
    if n == 0 { assert w.sent + data[..0] == w.sent; }
  }

  lemma SentKeeps(e: End, w: Wire, data: seq<byte>)
    requires SendSide(e, w)
    ensures var (f, v) := Sent(e, w, data); SendSide(f, v) && w.sent <= v.sent && v.delivered == w.delivered
  {
    hide Frames, Frame, Answer, Wire.Put, IsSubsequence;
    SubsequenceGrows<seq<byte>>(e.kept, e.offered, data);
    if |data| < 0x1_0000 {
      var packet: Packet := data;
      PutKeeps(w, Frame(packet));
      FrameLength(packet);
      FramesSnoc(e.kept, packet);
      if e.outbuf == [] { assert w.sent + e.outbuf == w.sent; }
    }
  }

  lemma FrameLength(p: Packet)
    ensures |Frame(p)| == PACKET_LEN_SIZE + |p| < BUF_SIZE
  {}

  lemma FlushedKeeps(e: End, w: Wire)
    requires SendSide(e, w)
    ensures var (f, v) := Flushed(e, w); SendSide(f, v) && w.sent <= v.sent && v.delivered == w.delivered
    ensures e.outbuf == [] ==> Flushed(e, w) == (e, w)
  {
    hide Frames, Answer, IsSubsequence;
    PutKeeps(w, e.outbuf);
  }

  /** More on the wire behind what has been delivered changes nothing for the receiver. */
  lemma MoreOnTheWire(e: End, w: Wire, v: Wire)
    requires ReceiveSide(e, w) && w.sent <= v.sent && v.delivered == w.delivered
    ensures ReceiveSide(e, v)
  {
    hide Frames, HasFrame;
    assert v.sent[..w.delivered] == w.sent[..w.delivered];
  }

  lemma ReceivedKeeps(e: End, w: Wire)
    requires ReceiveSide(e, w)
    ensures var (f, v) := Received(e, w); ReceiveSide(f, v) && v.sent == w.sent && v.sends == w.sends && e.signalled <= f.signalled
  {
    hide Frames, Unframe, HasFrame, Answer;
    var v := w.Take(BUF_SIZE - |e.inbuf|);
    var arrived := w.sent[w.delivered..v.delivered];
    assert w.sent[..v.delivered] == w.sent[..w.delivered] + arrived;
    if w.Arriving(BUF_SIZE - |e.inbuf|) >= 0 { ReceivedMore(e.signalled, e.inbuf, arrived); }
  }

  // ------------------------------------------------------------ the sockets

  /** One direction of a TCP connection. */
  class Channel {
    var sent: seq<byte>
    var delivered: nat
    var sends: seq<int>
    var recvs: seq<int>

    constructor (sends: seq<int>, recvs: seq<int>)
      ensures Value() == Wire([], 0, sends, recvs)
    {
      sent, delivered, this.sends, this.recvs := [], 0, sends, recvs;
    }

    ghost function Value(): Wire
      reads this
    {
      Wire(sent, delivered, sends, recvs)
    }

    /** AsyncSocket::Send: takes some of the bytes, or answers zero or an error. */
    method Send(data: seq<byte>) returns (res: int)
      modifies this`sent, this`sends
      ensures res == Answer(old(sends), |data|) && Value() == old(Value()).Put(data) && old(sent) <= sent
    {
      res := Answer(sends, |data|);
      sends := Rest(sends);
      if res > 0 {
        sent := sent + data[..res];
      } else {
        assert sent + data[..0] == sent;
      }
    }

    /** AsyncSocket::Recv: delivers some of the bytes in flight, or answers zero or an error. */
    method Recv(buffer: array<byte>, at: nat, room: nat) returns (res: int)
      requires at + room <= buffer.Length && delivered <= |sent|
      modifies this`delivered, this`recvs, buffer
      ensures res == old(Value()).Arriving(room) && Value() == old(Value()).Take(room)
      ensures buffer[..at + Amount(res)] == old(buffer[..at]) + sent[old(delivered)..delivered]
    {
      var available := |sent| - delivered;
      res := Answer(recvs, if room < available then room else available);
      recvs := Rest(recvs);
      if res > 0 {
        Memory.Copy(buffer, at, sent[delivered..delivered + res]);
        delivered := delivered + res;
      }
    }
  }

  class AsyncTcpSocket {
    const outgoing: Channel
    const incoming: Channel
    const inbuf: array<byte>
    const outbuf: array<byte>
    var inpos: nat
    var outpos: nat
    var signalled: seq<Packet>       // what SignalReadPacket reported
    ghost var offered: seq<seq<byte>> // what was passed to Send
    ghost var kept: seq<Packet>      // the ones the sender did not drop

    constructor (outgoing: Channel, incoming: Channel)
      requires outgoing.sent == [] && incoming.sent == [] && incoming.delivered == 0
      ensures Valid() && fresh(inbuf) && fresh(outbuf) && inbuf != outbuf
      ensures this.outgoing == outgoing && this.incoming == incoming
      ensures Model() == End([], [], [], [], [])
    {
      this.outgoing, this.incoming := outgoing, incoming;
      inbuf := new byte[BUF_SIZE];
      outbuf := new byte[BUF_SIZE];
      inpos, outpos := 0, 0;
      signalled, offered, kept := [], [], [];
    }

    ghost function Model(): End
      requires outpos <= outbuf.Length && inpos <= inbuf.Length
      reads this, inbuf, outbuf
    {
      End(outbuf[..outpos], inbuf[..inpos], offered, kept, signalled)
    }

    ghost predicate Valid()
      reads this, incoming
    {
      && inbuf != outbuf && inbuf.Length == outbuf.Length == BUF_SIZE
      && outpos < BUF_SIZE && inpos < BUF_SIZE && incoming.delivered <= |incoming.sent|
    }

    method FlushOutBuffer() returns (res: int)
      requires outpos <= outbuf.Length
      modifies this`outpos, outbuf, outgoing`sent, outgoing`sends
      ensures res == Answer(old(outgoing.sends), old(outpos)) && outgoing.Value() == old(outgoing.Value()).Put(old(outbuf[..outpos]))
      ensures outpos == old(outpos) - Amount(res) && outbuf[..outpos] == old(outbuf[..outpos])[Amount(res)..]
      ensures old(outgoing.sent) <= outgoing.sent
    {
      hide Answer;
      ghost var pending := outbuf[..outpos];
      res := outgoing.Send(outbuf[..outpos]);
      if res > 0 {
        outpos := outpos - res;
        Memory.MoveDown(outbuf, res, outpos);
        assert outbuf[..outpos] == pending[res..];
      }
    }

    method AppendToOutBuffer(data: seq<byte>)
      requires outpos + |data| < outbuf.Length
      modifies this`outpos, outbuf
      ensures outpos == old(outpos) + |data| && outbuf[..outpos] == old(outbuf[..outpos]) + data
    {
      Memory.Copy(outbuf, outpos, data);
      outpos := outpos + |data|;
    }

    /** Send never waits: a packet that arrives while another is still being flushed, or that
        makes no progress at all, is dropped whole; one that got started is kept. */
    method Send(data: seq<byte>) returns (res: int, violated: bool)
      requires Valid()
      modifies this`outpos, this`offered, this`kept, outbuf, outgoing`sent, outgoing`sends
      ensures Valid() && old(outgoing.sent) <= outgoing.sent
      ensures (Model(), outgoing.Value()) == Sent(old(Model()), old(outgoing.Value()), data)
      ensures violated <==> old(outpos) == 0 && Overruns(data)
      ensures !violated ==>
                res == if |data| > BUF_SIZE then -1
                       else if old(outpos) == 0 && kept == old(kept) then Answer(old(outgoing.sends), |Frame(data)|)
                       else |data|
    {
      hide Frame, Answer, Wire.Put;
      res, violated := |data|, false;
      if |data| > BUF_SIZE { return -1, false; }
      offered := offered + [data];
      if outpos != 0 { return; }
      if outpos + PACKET_LEN_SIZE + |data| >= outbuf.Length { return 0, true; } // the assertion
      var packet: Packet := data;
      res := SendFrame(packet);
      if res <= 0 { return; }
      kept := kept + [packet];
      res := |data|;
    }

    /** Frame a packet into the empty buffer and flush once; without progress the buffer is emptied again. */
    method SendFrame(packet: Packet) returns (res: int)
      requires Valid() && outpos == 0
      modifies this`outpos, outbuf, outgoing`sent, outgoing`sends
      ensures Valid() && old(outgoing.sent) <= outgoing.sent
      ensures res == Answer(old(outgoing.sends), |Frame(packet)|) && outgoing.Value() == old(outgoing.Value()).Put(Frame(packet))
      ensures outbuf[..outpos] == if res > 0 then Frame(packet)[res..] else []
    {
      hide Answer, Wire.Put, BigEndian;
      assert outbuf[..0] == [];
      AppendToOutBuffer(BigEndian(|packet|, PACKET_LEN_SIZE));
      AppendToOutBuffer(packet);
      assert outbuf[..outpos] == Frame(packet);
      res := FlushOutBuffer();
      if res <= 0 { outpos := 0; }
    }

    method OnWriteEvent() returns (ready: bool)
      requires Valid()
      modifies this`outpos, outbuf, outgoing`sent, outgoing`sends
      ensures Valid() && old(outgoing.sent) <= outgoing.sent
      ensures (Model(), outgoing.Value()) == Flushed(old(Model()), old(outgoing.Value()))
      ensures ready <==> outpos == 0
    {
      if outpos > 0 {
        var _ := FlushOutBuffer();
      }
      ready := outpos == 0;
    }

    /** ProcessInput: signal every complete packet and shift the rest to the front. */
    method ProcessInput(len: nat) returns (left: nat)
      requires len <= inbuf.Length
      modifies this`signalled, inbuf
      ensures left <= len
      ensures var u := Unframe(old(inbuf[..len]));
              signalled == old(signalled) + u.packets && inbuf[..left] == u.rest
    {
      hide Unframe, HasFrame;
      left := len;
      ghost var done: seq<Packet> := [];
      assert [] + Unframe(inbuf[..left]).packets == Unframe(inbuf[..left]).packets;
      while true
        invariant left <= len && signalled == old(signalled) + done
        invariant Unframe(old(inbuf[..len])).packets == done + Unframe(inbuf[..left]).packets
        invariant Unframe(old(inbuf[..len])).rest == Unframe(inbuf[..left]).rest
        decreases left
      {
        var s := inbuf[..left];
        UnframeOnce(s);
        if left < PACKET_LEN_SIZE { return; }
        var frame := PACKET_LEN_SIZE + GetBE16(s[..PACKET_LEN_SIZE]);
        if left < frame { return; }
        var packet: Packet := s[PACKET_LEN_SIZE..frame];
        signalled, done := signalled + [packet], done + [packet];
        left := left - frame;
        Memory.MoveDown(inbuf, frame, left);
        assert inbuf[..left] == s[frame..];
      }
    }

    /** Recv into the free part of the buffer. */
    method Fill() returns (len: int)
      requires inbuf.Length == BUF_SIZE && inpos < BUF_SIZE && incoming.delivered <= |incoming.sent|
      modifies this`inpos, inbuf, incoming`delivered, incoming`recvs
      ensures len == old(incoming.Value()).Arriving(BUF_SIZE - old(inpos))
      ensures incoming.Value() == old(incoming.Value()).Take(BUF_SIZE - old(inpos))
      ensures inpos <= BUF_SIZE && inbuf[..inpos] == old(inbuf[..inpos]) + incoming.sent[old(incoming.delivered)..incoming.delivered]
    {
      len := incoming.Recv(inbuf, inpos, BUF_SIZE - inpos);
      if len > 0 { inpos := inpos + len; }
    }

    /** Read what the channel delivers and signal what is complete. The branch of the original
        that resets a full buffer would be reached when inpos >= insize; it never is. */
    method OnReadEvent() returns (len: int)
      requires Valid()
      modifies this`inpos, this`signalled, inbuf, incoming`delivered, incoming`recvs
      ensures Valid() && (Model(), incoming.Value()) == Received(old(Model()), old(incoming.Value()))
    {
      hide Unframe, HasFrame, Answer;
      ghost var held, from := inbuf[..inpos], incoming.delivered;
      len := Fill();
      ghost var arrived := incoming.sent[from..incoming.delivered];
      if len < 0 {
        assert held + arrived == held && inbuf[..inpos] == held;
        return;
      }
      LeftoverFits(Unframe(held + arrived).rest);
      inpos := ProcessInput(inpos);
      if inpos >= BUF_SIZE { assert false; }
    }
  }

  // ------------------------------------------------------------ end to end

  /** At any moment of any run, what the receiver has signalled is a prefix of what the sender
      kept, and that is a subsequence of what was passed to Send: no packet is torn, merged,
      reordered or invented. */
  lemma DeliveryIsFaithful(sender: End, w: Wire, receiver: End)
    requires SendSide(sender, w) && ReceiveSide(receiver, w)
    ensures receiver.signalled <= sender.kept && IsSubsequence<seq<byte>>(sender.kept, sender.offered)
  {
    var d := w.delivered;
    assert w.sent == w.sent[..d] + w.sent[d..];
    Assoc(Frames(receiver.signalled) + receiver.inbuf, w.sent[d..], sender.outbuf);
    Assoc(Frames(receiver.signalled), receiver.inbuf, w.sent[d..] + sender.outbuf);
    FramesPrefix(receiver.signalled, sender.kept, receiver.inbuf + (w.sent[d..] + sender.outbuf));
  }

  /** Once the sender has flushed and everything has been delivered, nothing kept is missing. */
  lemma DeliveryIsComplete(sender: End, w: Wire, receiver: End)
    requires SendSide(sender, w) && ReceiveSide(receiver, w)
    requires sender.outbuf == [] && w.delivered == |w.sent|
    ensures receiver.signalled == sender.kept && receiver.inbuf == []
  {
    assert w.sent[..|w.sent|] == w.sent && w.sent + [] == w.sent;
    UnframeOfFrames(receiver.signalled, receiver.inbuf);
    assert Frames(sender.kept) + [] == Frames(sender.kept);
    UnframeOfFrames(sender.kept, []);
  }

  datatype Event = SendPacket(data: seq<byte>) | Writable | Readable
  {
    predicate Proper() { SendPacket? ==> !Overruns(data) }

    /** What the event adds to the packets passed to Send. */
    function Offer(): seq<seq<byte>> { if SendPacket? && |data| <= BUF_SIZE then [data] else [] }
  }

  /** A connection: two ends and the two directions between them. */
  datatype Link = Link(left: End, right: End, there: Wire, back: Wire)
  {
    predicate Ready() { |left.inbuf| < BUF_SIZE && |right.inbuf| < BUF_SIZE && there.Valid() && back.Valid() }

    /** What holds at every moment. */
    predicate Sound() {
      && SendSide(left, there) && ReceiveSide(right, there)
      && SendSide(right, back) && ReceiveSide(left, back)
    }

    function Mirror(): Link { Link(right, left, back, there) }
  }

  /** What an event at the left end makes of the connection. */
  function Acted(n: Link, event: Event): (r: Link)
    requires n.Ready()
    ensures r.Ready() && r.right == n.right
  {
    match event
    case SendPacket(data) => var (e, w) := Sent(n.left, n.there, data); n.(left := e, there := w)
    case Writable => var (e, w) := Flushed(n.left, n.there); n.(left := e, there := w)
    case Readable => var (e, w) := Received(n.left, n.back); n.(left := e, back := w)
  }

  /** An event at the left end, or at the right one. */
  function Step(n: Link, event: (bool, Event)): (r: Link)
    requires n.Ready()
    ensures r.Ready()
  {
    if event.0 then Acted(n, event.1) else Acted(n.Mirror(), event.1).Mirror()
  }

  predicate Proper(events: seq<(bool, Event)>) { forall i :: 0 <= i < |events| ==> events[i].1.Proper() }

  function Run(n: Link, events: seq<(bool, Event)>): (r: Link)
    requires n.Ready()
    ensures r.Ready()
    decreases |events|
  {
    if events == [] then n else Run(Step(n, events[0]), events[1..])
  }

  function OfferAt(event: (bool, Event), left: bool): seq<seq<byte>> { if event.0 == left then event.1.Offer() else [] }

  /** All that one end (left or right) was asked to send in a run. */
  function OfferedIn(events: seq<(bool, Event)>, left: bool): seq<seq<byte>> {
    if events == [] then []
    else OfferAt(events[0], left) + OfferedIn(events[1..], left)
  }

  /** An event keeps the connection sound and adds exactly its packet to those passed to Send; it takes
      back nothing that was kept or signalled. */
  lemma ActedKeeps(n: Link, event: Event)
    requires n.Ready() && n.Sound()
    ensures var r := Acted(n, event);
            && r.Sound() && r.left.offered == n.left.offered + event.Offer()
            && n.left.kept <= r.left.kept && n.left.signalled <= r.left.signalled
  {
    hide SendSide, ReceiveSide, Frame, Unframe, Answer, Wire.Put, Wire.Take;
    match event {
      case SendPacket(data) =>
        SentKeeps(n.left, n.there, data);
        MoreOnTheWire(n.right, n.there, Acted(n, event).there);
        SameReceiveSide(n.left, Acted(n, event).left, n.back);
      case Writable =>
        FlushedKeeps(n.left, n.there);
        MoreOnTheWire(n.right, n.there, Acted(n, event).there);
        SameReceiveSide(n.left, Acted(n, event).left, n.back);
      case Readable =>
        ReceivedKeeps(n.left, n.back);
        SameSendSide(n.right, n.right, n.back, Acted(n, event).back);
        SameSendSide(n.left, Acted(n, event).left, n.there, n.there);
    }
  }

  lemma SameSendSide(e: End, f: End, w: Wire, v: Wire)
    requires SendSide(e, w) && v.sent == w.sent && (f.outbuf, f.kept, f.offered) == (e.outbuf, e.kept, e.offered)
    ensures SendSide(f, v)
  {}

  lemma SameReceiveSide(e: End, f: End, w: Wire)
    requires ReceiveSide(e, w) && (f.inbuf, f.signalled) == (e.inbuf, e.signalled)
    ensures ReceiveSide(f, w)
  {}

  lemma StepKeeps(n: Link, event: (bool, Event))
    requires n.Ready() && n.Sound()
    ensures var r := Step(n, event);
            r.Sound() && r.left.offered == n.left.offered + OfferAt(event, true)
            && r.right.offered == n.right.offered + OfferAt(event, false)
  {
    hide SendSide, ReceiveSide, Acted, Event.Offer;
    if event.0 {
      ActedKeeps(n, event.1);
      assert n.right.offered + [] == n.right.offered;
    } else {
      ActedKeeps(n.Mirror(), event.1);
      assert n.left.offered + [] == n.left.offered;
    }
  }

  /** So it is after every run: the packets passed to Send are those of the events, those kept a subsequence
      of them, and those signalled a prefix of the kept, in both directions. */
  lemma {:induction false} RunIsFaithful(n: Link, events: seq<(bool, Event)>)
    requires n.Ready() && n.Sound()
    ensures var r := Run(n, events);
            && r.Sound()
            && r.left.offered == n.left.offered + OfferedIn(events, true)
            && r.right.offered == n.right.offered + OfferedIn(events, false)
            && r.right.signalled <= r.left.kept && IsSubsequence<seq<byte>>(r.left.kept, r.left.offered)
            && r.left.signalled <= r.right.kept && IsSubsequence<seq<byte>>(r.right.kept, r.right.offered)
    decreases |events|
  {
    hide SendSide, ReceiveSide, IsSubsequence, Step, OfferAt;
    if events == [] {
      DeliveryIsFaithful(n.left, n.there, n.right);
      DeliveryIsFaithful(n.right, n.back, n.left);
    } else {
      StepKeeps(n, events[0]);
      Assoc(n.left.offered, OfferAt(events[0], true), OfferedIn(events[1..], true));
      Assoc(n.right.offered, OfferAt(events[0], false), OfferedIn(events[1..], false));
      RunIsFaithful(Step(n, events[0]), events[1..]);
    }
  }

  // ------------------------------------------------------------ what is dropped

  /** A packet is dropped if and only if another is being flushed, or it fails the assertion, or the channel
      takes nothing of it. */
  lemma DroppedIff(e: End, w: Wire, data: seq<byte>)
    requires |data| <= BUF_SIZE
    ensures var kept := Sent(e, w, data).0.kept;
            && (kept == e.kept <==> e.outbuf != [] || Overruns(data) || Answer(w.sends, |Frame(data)|) <= 0)
            && (kept != e.kept ==> |data| < 0x1_0000 && kept == e.kept + [data])
  {
    hide Frame, Answer;
    if |data| < 0x1_0000 {
      var packet: Packet := data;
      assert |e.kept + [packet]| == |e.kept| + 1;
    }
  }

  /** Every answer in the script takes a whole frame. */
  predicate TakesAll(sends: seq<int>) { forall i :: 0 <= i < |sends| ==> sends[i] >= BUF_SIZE }

  /** Nothing is waiting, and nothing has been dropped. */
  predicate NothingDropped(e: End, w: Wire) { e.outbuf == [] && e.kept == e.offered && TakesAll(w.sends) }

  lemma ActedDropsNothing(n: Link, event: Event)
    requires n.Ready() && event.Proper() && NothingDropped(n.left, n.there)
    ensures NothingDropped(Acted(n, event).left, Acted(n, event).there)
    ensures NothingDropped(n.right, n.back) ==> NothingDropped(Acted(n, event).right, Acted(n, event).back)
  {
    hide Frame, Unframe, Wire.Arriving;
    if event.SendPacket? && |event.data| <= BUF_SIZE {
      FrameLength(event.data);
      assert Frame(event.data)[|Frame(event.data)|..] == [];
    }
  }

  /** Nothing has been dropped at either end. */
  predicate NoneDropped(n: Link) { NothingDropped(n.left, n.there) && NothingDropped(n.right, n.back) }

  lemma StepDropsNothing(n: Link, event: (bool, Event))
    requires n.Ready() && event.1.Proper() && NoneDropped(n)
    ensures NoneDropped(Step(n, event))
  {
    hide NothingDropped, Acted, Event.Proper;
    ActedDropsNothing(if event.0 then n else n.Mirror(), event.1);
  }

  lemma {:induction false} RunDropsNothing(n: Link, events: seq<(bool, Event)>)
    requires n.Ready() && Proper(events) && NoneDropped(n)
    ensures NoneDropped(Run(n, events))
    decreases |events|
  {
    hide NoneDropped, Step, Event.Proper;
    if events == [] {
    } else {
      StepDropsNothing(n, events[0]);
      RunDropsNothing(Step(n, events[0]), events[1..]);
    }
  }

  /** Over channels that take what they are given, nothing is ever dropped: after every run, once everything
      has been delivered, the packets signalled are exactly those the other end was asked to send. */
  lemma NothingIsDropped(n: Link, events: seq<(bool, Event)>)
    requires n.Ready() && n.Sound() && Proper(events) && NoneDropped(n)
    ensures var r := Run(n, events);
            && (r.there.delivered == |r.there.sent| ==> r.right.signalled == n.left.offered + OfferedIn(events, true))
            && (r.back.delivered == |r.back.sent| ==> r.left.signalled == n.right.offered + OfferedIn(events, false))
  {
    hide SendSide, ReceiveSide, NothingDropped, Run, OfferedIn, IsSubsequence;
    RunIsFaithful(n, events);
    RunDropsNothing(n, events);
    var r := Run(n, events);
    AllSignalled(r.left, r.there, r.right);
    AllSignalled(r.right, r.back, r.left);
  }

  lemma AllSignalled(sender: End, w: Wire, receiver: End)
    requires SendSide(sender, w) && ReceiveSide(receiver, w) && NothingDropped(sender, w)
    ensures w.delivered == |w.sent| ==> receiver.signalled == sender.offered
  {
    hide SendSide, ReceiveSide;
    if w.delivered == |w.sent| { DeliveryIsComplete(sender, w, receiver); }
  }

  // ------------------------------------------------------------ everything kept gets through

  /** A read event takes what the channel delivers into the free part of the buffer; with what was held back this
      is made of the packets it signals, in frames, followed by what it holds back now. */
  lemma ReceivedTakes(e: End, w: Wire)
    requires |e.inbuf| < BUF_SIZE && w.Valid()
    ensures var (f, v) := Received(e, w); var n := w.Arriving(BUF_SIZE - |e.inbuf|);
            && v.sent == w.sent && v.delivered == w.delivered + Amount(n) && v.recvs == Rest(w.recvs)
            && e.signalled <= f.signalled
            && (if n < 0 then f == e
                else Frames(f.signalled[|e.signalled|..]) + f.inbuf == e.inbuf + w.sent[w.delivered..v.delivered] && !HasFrame(f.inbuf))
  {
    hide Frames, Unframe, HasFrame, Answer;
    var v := w.Take(BUF_SIZE - |e.inbuf|);
    var text := e.inbuf + w.sent[w.delivered..v.delivered];
    UnframeKeepsBytes(text);
    if w.Arriving(BUF_SIZE - |e.inbuf|) >= 0 {
      var f := Received(e, w).0;
      assert f.signalled[|e.signalled|..] == Unframe(text).packets;
    }
  }

  /** No answer in the script is zero or an error. */
  predicate Willing(script: seq<int>) { forall i :: 0 <= i < |script| ==> script[i] > 0 }

  lemma WillingAnswers(script: seq<int>, n: nat)
    requires Willing(script)
    ensures n > 0 ==> 0 < Answer(script, n) <= n
    ensures Answer(script, 0) == 0 && Willing(Rest(script))
  {}

  predicate All(events: seq<(bool, Event)>, event: (bool, Event)) { forall i :: 0 <= i < |events| ==> events[i] == event }

  /** On a channel that gives something whenever there is something, so many read events as there are bytes in flight
      bring them all. */
  lemma {:induction false} ReadsDeliver(n: Link, events: seq<(bool, Event)>)
    requires n.Ready() && All(events, (false, Readable)) && Willing(n.there.recvs)
    requires |events| >= |n.there.sent| - n.there.delivered
    ensures var r := Run(n, events);
            r.there.delivered == |r.there.sent| && r.there.sent == n.there.sent && r.left == n.left
    decreases |events|
  {
    hide Received, Answer;
    if events == [] {
    } else {
      var room := BUF_SIZE - |n.right.inbuf|;
      ReceivedTakes(n.right, n.there);
      WillingAnswers(n.there.recvs, if room < |n.there.sent| - n.there.delivered then room else |n.there.sent| - n.there.delivered);
      assert events[0] == (false, Readable);
      ReadsDeliver(Step(n, events[0]), events[1..]);
    }
  }

  /** And so many write events as there are bytes in the buffer flush them, if it takes something each time. */
  lemma {:induction false} WritesFlush(n: Link, events: seq<(bool, Event)>)
    requires n.Ready() && All(events, (true, Writable)) && Willing(n.there.sends) && |events| >= |n.left.outbuf|
    ensures var r := Run(n, events);
            && r.left.outbuf == [] && r.left.kept == n.left.kept && r.right == n.right
            && r.there.sent == n.there.sent + n.left.outbuf && r.there.delivered == n.there.delivered
            && r.there.recvs == n.there.recvs
    decreases |events|
  {
    hide Answer;
    if events == [] {
      assert n.there.sent + [] == n.there.sent;
    } else {
      var outbuf := n.left.outbuf;
      WillingAnswers(n.there.sends, |outbuf|);
      assert events[0] == (true, Writable);
      WritesFlush(Step(n, events[0]), events[1..]);
      if outbuf != [] {
        var k := Answer(n.there.sends, |outbuf|);
        Assoc(n.there.sent, outbuf[..k], outbuf[k..]);
        assert outbuf[..k] + outbuf[k..] == outbuf;
      }
    }
  }

  lemma {:induction false} RunAppend(n: Link, a: seq<(bool, Event)>, b: seq<(bool, Event)>)
    requires n.Ready()
    ensures Run(n, a + b) == Run(Run(n, a), b)
    decreases |a|
  {
    hide Step;
    if a == [] {
      assert a + b == b;
    } else {
      assert (a + b)[0] == a[0] && (a + b)[1..] == a[1..] + b;
      RunAppend(Step(n, a[0]), a[1..], b);
    }
  }

  /** Whatever has happened before: over a channel that is willing from now on, enough write events and then enough
      read events make the receiver signal exactly the packets the sender has kept. */
  lemma KeptGetsThrough(n: Link, flushes: seq<(bool, Event)>, receives: seq<(bool, Event)>)
    requires n.Ready() && n.Sound() && Willing(n.there.sends) && Willing(n.there.recvs)
    requires All(flushes, (true, Writable)) && |flushes| >= |n.left.outbuf|
    requires All(receives, (false, Readable)) && |receives| >= |n.there.sent| + |n.left.outbuf| - n.there.delivered
    ensures Run(n, flushes + receives).right.signalled == n.left.kept
  {
    hide Run, Step, SendSide, ReceiveSide, Willing, All, IsSubsequence;
    RunAppend(n, flushes, receives);
    WritesFlush(n, flushes);
    RunIsFaithful(n, flushes);
    var m := Run(n, flushes);
    ReadsDeliver(m, receives);
    RunIsFaithful(m, receives);
    var r := Run(m, receives);
    DeliveryIsComplete(r.left, r.there, r.right);
  }

  // ------------------------------------------------------------ two sockets

  /** The two ends of a connection. */
  ghost predicate Connected(a: AsyncTcpSocket, b: AsyncTcpSocket)
    reads a, b, a.incoming, b.incoming
  {
    && a.Valid() && b.Valid()
    && a != b && a.outgoing == b.incoming && b.outgoing == a.incoming && a.outgoing != b.outgoing
    && {a.inbuf, a.outbuf} !! {b.inbuf, b.outbuf}
  }

  ghost function Between(a: AsyncTcpSocket, b: AsyncTcpSocket): (n: Link)
    requires Connected(a, b)
    reads a, b, a.outgoing, a.incoming, a.inbuf, a.outbuf, b.inbuf, b.outbuf
    ensures n.Ready()
  {
    Link(a.Model(), b.Model(), a.outgoing.Value(), a.incoming.Value())
  }

  /** Whatever happens at one end, the connection is what Acted says. */
  method Act(actor: AsyncTcpSocket, other: AsyncTcpSocket, event: Event)
    requires Connected(actor, other)
    modifies actor, actor.inbuf, actor.outbuf, actor.outgoing`sent, actor.outgoing`sends, actor.incoming`delivered, actor.incoming`recvs
    ensures Connected(actor, other) && Between(actor, other) == Acted(old(Between(actor, other)), event)
  {
    hide Sent, Flushed, Received;
    match event {
      case SendPacket(data) => var _, _ := actor.Send(data);
      case Writable => var _ := actor.OnWriteEvent();
      case Readable => var _ := actor.OnReadEvent();
    }
  }

  /** A connection before anything has happened. */
  function Opened(sends: (seq<int>, seq<int>), recvs: (seq<int>, seq<int>)): (n: Link)
    ensures n.Ready() && n.Sound()
  {
    var e := End([], [], [], [], []);
    assert [] + [] == Frames([]);
    Link(e, e, Wire([], 0, sends.0, recvs.0), Wire([], 0, sends.1, recvs.1))
  }

  /** Any run of two connected sockets, over any channels. */
  method Converse(events: seq<(bool, Event)>, sends: (seq<int>, seq<int>), recvs: (seq<int>, seq<int>))
    returns (left: AsyncTcpSocket, right: AsyncTcpSocket)
    ensures Connected(left, right) && Between(left, right) == Run(Opened(sends, recvs), events)
  {
    hide Link.Sound, Acted;
    var there := new Channel(sends.0, recvs.0);
    var back := new Channel(sends.1, recvs.1);
    left := new AsyncTcpSocket(there, back);
    right := new AsyncTcpSocket(back, there);
    ghost var meant := Run(Between(left, right), events);
    assert events[0..] == events;
    for i := 0 to |events|
      invariant Connected(left, right) && left.outgoing == there && right.outgoing == back
      invariant fresh(left) && fresh(right) && fresh(there) && fresh(back)
      invariant fresh(left.inbuf) && fresh(left.outbuf) && fresh(right.inbuf) && fresh(right.outbuf)
      invariant meant == Run(Between(left, right), events[i..])
    {
      assert events[i..][0] == events[i] && events[i..][1..] == events[i + 1..];
      if events[i].0 { Act(left, right, events[i].1); } else { Act(right, left, events[i].1); }
    }
  }
}
