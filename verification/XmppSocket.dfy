/** client/txmppsocket.cc, without SSL streams: outgoing bytes wait in a ByteBuffer until the
    socket takes them. Flushed says what one write event does, for every script of the socket. */
module XmppSocket {
  import opened ByteOrder
  import opened ByteBuffers
  import opened Sequences
  import opened Streams

  // ------------------------------------------------------------ what one call does

  /** What the socket has taken, what is waiting, and the socket's answers to come. */
  datatype Outgoing = Outgoing(sent: seq<byte>, waiting: seq<byte>, script: seq<int>)

  /** OnWriteEvent: send from the front until nothing waits or the socket takes nothing. */
  function Flushed(s: Outgoing): Outgoing
    decreases |s.waiting|
  {
    if s.waiting == [] then s
    else
      var n := Answer(s.script, |s.waiting|);
      if n <= 0 then s.(script := Rest(s.script))
      else Flushed(Outgoing(s.sent + s.waiting[..n], s.waiting[n..], Rest(s.script)))
  }

  function Appended(s: Outgoing, data: seq<byte>): Outgoing { Flushed(s.(waiting := s.waiting + data)) }

  datatype Event = WriteBytes(data: seq<byte>) | Writable

  function Step(s: Outgoing, event: Event): Outgoing {
    match event
    case WriteBytes(data) => Appended(s, data)
    case Writable => Flushed(s)
  }

  function Run(s: Outgoing, events: seq<Event>): Outgoing
    decreases |events|
  {
    if events == [] then s else Run(Step(s, events[0]), events[1..])
  }

  /** All the client has asked to be written. */
  function Joined(events: seq<Event>): seq<byte> {
    if events == [] then []
    else (if events[0].WriteBytes? then events[0].data else []) + Joined(events[1..])
  }

  // ------------------------------------------------------------ nothing is lost

  /** Flushing moves bytes from the waiting ones to the sent ones, in order, and leaves some waiting if and
      only if the socket refused: that takes an answer from its script. */
  lemma {:induction false} FlushedKeeps(s: Outgoing)
    ensures s.waiting == [] ==> Flushed(s) == s
    ensures var r := Flushed(s);
            && r.sent + r.waiting == s.sent + s.waiting && s.sent <= r.sent
            && (r.waiting != [] ==> |r.script| < |s.script| && exists i :: 0 <= i < |s.script| && s.script[i] <= 0)
    decreases |s.waiting|
  {
    if s.waiting == [] {
    } else {
      var n := Answer(s.script, |s.waiting|);
      if n > 0 {
        Assoc(s.sent, s.waiting[..n], s.waiting[n..]);
        assert s.waiting[..n] + s.waiting[n..] == s.waiting;
        var t := Outgoing(s.sent + s.waiting[..n], s.waiting[n..], Rest(s.script));
        FlushedKeeps(t);
        if Flushed(t).waiting != [] {
          var i :| 0 <= i < |t.script| && t.script[i] <= 0;
          assert s.script[i + 1] <= 0;
        }
      } else {
        assert s.script[0] <= 0;
      }
    }
  }

  /** After every run of writes and write events the bytes sent, followed by those still waiting, are the
      bytes written, in order. */
  lemma {:induction false} RunKeeps(s: Outgoing, events: seq<Event>)
    ensures var r := Run(s, events); r.sent + r.waiting == s.sent + s.waiting + Joined(events) && s.sent <= r.sent
    decreases |events|
  {
    hide Flushed;
    if events == [] {
      assert s.sent + s.waiting + [] == s.sent + s.waiting;
    } else {
      var data := if events[0].WriteBytes? then events[0].data else [];
      Assoc(s.sent, s.waiting, data);
      Assoc(s.sent + s.waiting, data, Joined(events[1..]));
      FlushedKeeps(s.(waiting := s.waiting + data));
      if events[0].Writable? { assert s.waiting + [] == s.waiting; }
      RunKeeps(Step(s, events[0]), events[1..]);
    }
  }

  /** And a socket that takes what it is offered has been sent all of it. */
  lemma {:induction false} RunSends(s: Outgoing, events: seq<Event>)
    requires s.waiting == [] && forall i :: 0 <= i < |s.script| ==> s.script[i] > 0
    ensures Run(s, events).waiting == [] && Run(s, events).sent == s.sent + Joined(events)
    decreases |events|
  {
    hide Flushed;
    if events == [] {
      assert s.sent + [] == s.sent;
    } else {
      var data := if events[0].WriteBytes? then events[0].data else [];
      var t := s.(waiting := s.waiting + data);
      FlushedKeeps(t);
      ScriptShrinks(t);
      assert Flushed(t).sent + [] == Flushed(t).sent && s.waiting + data == data;
      if events[0].Writable? { assert t == s; }
      Assoc(s.sent, data, Joined(events[1..]));
      RunSends(Step(s, events[0]), events[1..]);
    }
  }

  lemma {:induction false} ScriptShrinks(s: Outgoing)
    requires forall i :: 0 <= i < |s.script| ==> s.script[i] > 0
    ensures forall i :: 0 <= i < |Flushed(s).script| ==> Flushed(s).script[i] > 0
    decreases |s.waiting|
  {
    if s.waiting == [] {
    } else {
      var n := Answer(s.script, |s.waiting|);
      if n > 0 { ScriptShrinks(Outgoing(s.sent + s.waiting[..n], s.waiting[n..], Rest(s.script))); }
    }
  }

  // ------------------------------------------------------------ the classes

  /** The operating system's socket: takes some of the bytes offered, or none. */
  class AsyncSocket {
    ghost var sent: seq<byte>
    var script: seq<int>

    constructor (script: seq<int>)
      ensures sent == [] && this.script == script
    {
      sent, this.script := [], script;
    }

    method Send(data: seq<byte>) returns (written: int)
      modifies this
      ensures written == Answer(old(script), |data|) && script == Rest(old(script))
      ensures sent == old(sent) + data[..Amount(written)]
    {
      written := Answer(script, |data|);
      script := Rest(script);
      sent := sent + data[..Amount(written)];
    }
  }

  class TXmppSocket {
    const cricketSocket: AsyncSocket
    const buffer: ByteBuffer

    ghost predicate Valid()
      reads this, buffer, buffer.bytes
    {
      buffer.Valid()
    }

    ghost function Model(): Outgoing
      requires Valid()
      reads this, cricketSocket, buffer, buffer.bytes
    {
      Outgoing(cricketSocket.sent, buffer.Contents(), cricketSocket.script)
    }

    constructor (bigHost: bool, script: seq<int>)
      ensures Valid() && fresh(cricketSocket) && fresh(buffer) && fresh(buffer.bytes)
      ensures Model() == Outgoing([], [], script)
    {
      var socket := new AsyncSocket(script);
      var empty := new ByteBuffer([], DEFAULT_SIZE, Network, bigHost);
      cricketSocket, buffer := socket, empty;
    }

    /** Sends what it can; what is left stays, in order. */
    method OnWriteEvent()
      requires Valid()
      modifies cricketSocket, buffer`start
      ensures Valid() && Model() == Flushed(old(Model()))
    {
      ghost var meant := Flushed(Model());
      while buffer.Length() != 0
        invariant Valid() && meant == Flushed(Model())
        decreases buffer.Length()
      {
        ghost var sent, waiting := cricketSocket.sent, buffer.Contents();
        var count := cricketSocket.Send(buffer.bytes[buffer.start..buffer.end]);
        if count <= 0 {
          assert sent + waiting[..0] == sent;
          return;
        }
        var consumed := buffer.Consume(count);
      }
    }

    /** Accepts all of data: it goes behind what is waiting. */
    method Write(data: seq<byte>) returns (ok: bool)
      requires Valid()
      modifies cricketSocket, buffer, buffer.bytes
      ensures ok && Valid() && Model() == Appended(old(Model()), data)
      ensures buffer.bytes == old(buffer.bytes) || fresh(buffer.bytes)
    {
      buffer.WriteBytes(data);
      OnWriteEvent();
      ok := true;
    }
  }

  /** Any client and any socket. */
  method Converse(events: seq<Event>, bigHost: bool, script: seq<int>) returns (socket: TXmppSocket)
    ensures socket.Valid() && socket.Model() == Run(Outgoing([], [], script), events)
  {
    hide Flushed;
    socket := new TXmppSocket(bigHost, script);
    ghost var meant := Run(socket.Model(), events);
    assert events[0..] == events;
    for i := 0 to |events|
      invariant socket.Valid() && meant == Run(socket.Model(), events[i..])
      invariant fresh(socket.cricketSocket) && fresh(socket.buffer) && fresh(socket.buffer.bytes)
    {
      assert events[i..][0] == events[i] && events[i..][1..] == events[i + 1..];
      match events[i] {
        case WriteBytes(data) => var _ := socket.Write(data);
        case Writable => socket.OnWriteEvent();
      }
    }
  }
}
