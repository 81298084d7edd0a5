/** bytebuffer.cc: a growable queue of bytes with remembered read positions and integers in
    network or host order. */
module ByteBuffers {
  import opened ByteOrder
  import opened CText
  import opened Memory

  const DEFAULT_SIZE := 4096

  datatype Order = Network | Host

  datatype ReadPosition = ReadPosition(start: nat, version: nat)

  // ------------------------------------------------------------ the buffer as a value

  /** Everything stored since the last move, and how far it has been read. */
  datatype Buffer = Buffer(stored: seq<byte>, start: nat, size: nat, version: nat)
  {
    ghost predicate Sound() { start <= |stored| <= size }

    function Contents(): seq<byte>
      requires start <= |stored|
    {
      stored[start..]
    }
  }

  datatype Op = Write(data: seq<byte>) | Consume(count: nat) | Resize(newSize: nat) | Clear | Rewind(position: ReadPosition)

  function Grown(size: nat, wanted: nat): nat {
    if wanted <= size then size else if wanted > 3 * size / 2 then wanted else 3 * size / 2
  }

  function Resized(b: Buffer, wanted: nat): Buffer
    requires b.Sound()
  {
    var kept := if |b.Contents()| < wanted then b.Contents() else b.Contents()[..wanted];
    Buffer(kept, 0, Grown(b.size, wanted), b.version + 1)
  }

  /** A write moves the contents if they and the new bytes do not fit behind the read position. */
  predicate Moves(b: Buffer, count: nat) { |b.stored| + count > b.size }

  function Written(b: Buffer, data: seq<byte>): Buffer
    requires b.Sound()
  {
    var room := if Moves(b, |data|) then Resized(b, |b.Contents()| + |data|) else b;
    room.(stored := room.stored + data)
  }

  function Next(b: Buffer, op: Op): (r: Buffer)
    requires b.Sound()
  {
    match op
    case Write(data) => Written(b, data)
    case Consume(count) => if count > |b.Contents()| then b else b.(start := b.start + count)
    case Resize(wanted) => Resized(b, wanted)
    case Clear => b.(stored := [], start := 0, version := b.version + 1)
    case Rewind(p) => if p.version != b.version || p.start > |b.stored| then b else b.(start := p.start)
  }

  function Cut(contents: seq<byte>, wanted: nat): seq<byte> {
    if |contents| < wanted then contents else contents[..wanted]
  }

  /** Every operation keeps the positions in order and acts on the contents as on a queue: a write
      appends, wherever the bytes end up; consuming drops from the front; resizing cuts the tail. */
  lemma StepIsQueue(b: Buffer, op: Op)
    requires b.Sound()
    ensures Next(b, op).Sound()
    ensures match op
            case Write(data) => Next(b, op).Contents() == b.Contents() + data
            case Consume(count) => Next(b, op).Contents() == if count > |b.Contents()| then b.Contents() else b.Contents()[count..]
            case Resize(wanted) => Next(b, op).Contents() == Cut(b.Contents(), wanted)
            case Clear => Next(b, op).Contents() == []
            case Rewind(p) => Next(b, op).stored == b.stored
  {}

  // ------------------------------------------------------------ whole runs

  function Run(b: Buffer, ops: seq<Op>): (r: Buffer)
    requires b.Sound()
    ensures r.Sound()
    decreases |ops|
  {
    if ops == [] then b else Run(Next(b, ops[0]), ops[1..])
  }

  function AllWritten(ops: seq<Op>): seq<byte> {
    if ops == [] then [] else (if ops[0].Write? then ops[0].data else []) + AllWritten(ops[1..])
  }

  /** A plain queue doing the same. */
  function Queue(contents: seq<byte>, ops: seq<Op>): seq<byte>
    decreases |ops|
  {
    if ops == [] then contents else
      Queue(match ops[0]
            case Write(data) => contents + data
            case Consume(count) => if count > |contents| then contents else contents[count..]
            case Resize(wanted) => Cut(contents, wanted)
            case Clear => []
            case Rewind(_) => contents, ops[1..])
  }

  /** Whatever moves and reallocations writing and resizing cause, the contents are those of a plain queue. */
  lemma {:induction false} RunIsQueue(b: Buffer, ops: seq<Op>)
    requires b.Sound() && forall op :: op in ops ==> !op.Rewind?
    ensures Run(b, ops).Contents() == Queue(b.Contents(), ops)
    decreases |ops|
  {
    if ops == [] {
    } else {
      StepIsQueue(b, ops[0]);
      assert ops[0] in ops;
      RunIsQueue(Next(b, ops[0]), ops[1..]);
    }
  }

  /** No operation of the run moved the contents: no Resize, no Clear, and no write that had to make room. */
  predicate Undisturbed(b: Buffer, ops: seq<Op>)
    requires b.Sound()
    decreases |ops|
  {
    ops == [] ||
    (!ops[0].Resize? && !ops[0].Clear? && !(ops[0].Write? && Moves(b, |ops[0].data|)) && Undisturbed(Next(b, ops[0]), ops[1..]))
  }

  lemma {:induction false} VersionTellsDisturbance(b: Buffer, ops: seq<Op>)
    requires b.Sound()
    ensures Run(b, ops).version >= b.version
    ensures Run(b, ops).version == b.version <==> Undisturbed(b, ops)
    ensures Undisturbed(b, ops) ==> Run(b, ops).stored == b.stored + AllWritten(ops)
    decreases |ops|
  {
    if ops == [] {
    } else {
      VersionTellsDisturbance(Next(b, ops[0]), ops[1..]);
      if Undisturbed(b, ops) {
        var data := if ops[0].Write? then ops[0].data else [];
        assert Next(b, ops[0]).stored == b.stored + data;
        assert b.stored + data + AllWritten(ops[1..]) == b.stored + (data + AllWritten(ops[1..]));
      }
    }
  }

  /** A remembered position can be restored if and only if nothing was moved since, and then it brings
      back what could be read at the time followed by everything written since. */
  lemma PositionRestores(b: Buffer, ops: seq<Op>)
    requires b.Sound()
    ensures var p, b' := ReadPosition(b.start, b.version), Run(b, ops);
            && (p.version == b'.version <==> Undisturbed(b, ops))
            && (Undisturbed(b, ops) ==> Next(b', Rewind(p)).Contents() == b.Contents() + AllWritten(ops))
            && (!Undisturbed(b, ops) ==> Next(b', Rewind(p)) == b')
  {
    VersionTellsDisturbance(b, ops);
    if Undisturbed(b, ops) {
      assert (b.stored + AllWritten(ops))[b.start..] == b.stored[b.start..] + AllWritten(ops);
    }
  }

  // ------------------------------------------------------------ integers

  /** The bytes a k-byte integer is written as. */
  function Encoded(v: nat, k: nat, order: Order, bigHost: bool): (s: seq<byte>)
    ensures |s| == k
  {
    if order == Network then BigEndian(v, k) else HostBytes(v, k, bigHost)
  }

  function Decoded(s: seq<byte>, order: Order, bigHost: bool): nat {
    if order == Network then FromBigEndian(s) else FromHostBytes(s, bigHost)
  }

  /** What is written reads back, modulo the width, in either order and on either host. */
  lemma EncodingRoundTrip(v: nat, k: nat, order: Order, bigHost: bool)
    ensures Decoded(Encoded(v, k, order, bigHost), order, bigHost) == v % Limit(k)
  {
    if order == Network { BigEndianRoundTrip(v, k); } else { HostRoundTrip(v, k, bigHost); }
  }

  /** WriteUInt's local variable in memory: the value, put into network order if that is asked for. */
  function Image(v: nat, k: nat, order: Order, bigHost: bool): (s: seq<byte>)
    ensures |s| == k
  {
    HostBytes(if order == Network then HostToNetwork(v, k, bigHost) else v, k, bigHost)
  }

  function FromImage(s: seq<byte>, order: Order, bigHost: bool): nat {
    var v := FromHostBytes(s, bigHost);
    if order == Network then NetworkToHost(v, |s|, bigHost) else v
  }

  lemma ImageIsEncoded(v: nat, k: nat, order: Order, bigHost: bool)
    ensures Image(v, k, order, bigHost) == Encoded(v, k, order, bigHost)
  {
    NetworkRoundTrip(v, k, bigHost);
  }

  lemma FromImageIsDecoded(s: seq<byte>, order: Order, bigHost: bool)
    ensures FromImage(s, order, bigHost) == Decoded(s, order, bigHost)
  {
    HostBytesOfHostValue(s, bigHost);
  }

  /** The three low bytes of a four-byte integer. */
  lemma ThreeOfFour(v: nat)
    ensures BigEndian(v, 4)[1..] == BigEndian(v, 3) && LittleEndian(v, 4)[..3] == LittleEndian(v, 3)
  {
    forall j | 0 <= j < 3
      ensures BigEndian(v, 4)[1..][j] == BigEndian(v, 3)[j]
    {
      BigEndianAt(v, 4, 2 - j);
      BigEndianAt(v, 3, 2 - j);
    }
  }

  lemma {:induction false} LeadingZero(s: seq<byte>)
    ensures FromBigEndian([0] + s) == FromBigEndian(s)
  {
    var z := [0] + s;
    if s == [] {
      assert z[..0] == [];
    } else {
      LeadingZero(s[..|s| - 1]);
      assert z[..|z| - 1] == [0] + s[..|s| - 1];
    }
  }

  /** The middle steps of WriteUInt24: of the four bytes in memory, skip the one that holds the top eight bits. */
  lemma Image24(v: nat, order: Order, bigHost: bool)
    ensures var image := Image(v, 4, order, bigHost);
            (if order == Network || bigHost then image[1..] else image[..3]) == Encoded(v, 3, order, bigHost)
  {
    hide BigEndian, LittleEndian;
    ImageIsEncoded(v, 4, order, bigHost);
    ThreeOfFour(v);
  }

  /** ReadUInt24: three bytes read over a zeroed integer, in the same place. */
  lemma FromImage24(s: seq<byte>, order: Order, bigHost: bool)
    requires |s| == 3
    ensures FromImage(if order == Network || bigHost then [0] + s else s + [0], order, bigHost) == Decoded(s, order, bigHost)
  {
    hide FromBigEndian;
    var m := if order == Network || bigHost then [0] + s else s + [0];
    FromImageIsDecoded(m, order, bigHost);
    LeadingZero(s);
    LeadingZero(Reverse(s));
    assert Reverse(s + [0]) == [0] + Reverse(s);
  }

  lemma OneByte(b: byte, order: Order, bigHost: bool)
    ensures Encoded(b, 1, order, bigHost) == [b]
  {
    assert BigEndian(b / 0x100, 0) == [];
  }

  lemma SliceOfSlice(s: seq<byte>, start: nat, len: nat, end: nat)
    requires start + len <= end <= |s|
    ensures s[..end][start..][..len] == s[start..start + len]
    ensures s[..end][start..] == s[start..end]
  {}

  // ------------------------------------------------------------ the class

  class ByteBuffer {
    var bytes: array<byte>
    var size: nat
    var start: nat
    var end: nat
    var version: nat
    const order: Order
    // The byte order of the machine.
    const bigHost: bool

    ghost predicate Valid()
      reads this
    {
      start <= end <= size == bytes.Length
    }

    ghost function Model(): (b: Buffer)
      requires Valid()
      reads this, bytes
      ensures b.Sound()
    {
      Buffer(bytes[..end], start, size, version)
    }

    ghost function Contents(): (s: seq<byte>)
      requires Valid()
      reads this, bytes
      ensures |s| == Length()
    {
      bytes[start..end]
    }

    function Length(): nat
      requires Valid()
      reads this
    {
      end - start
    }

    function Capacity(): nat
      requires Valid()
      reads this
    {
      size - start
    }

    lemma ContentsOfModel()
      requires Valid()
      ensures Contents() == Model().Contents()
    {}

    /** The contents given are the first len bytes of data, if there is any. */
    constructor (data: seq<byte>, len: nat, order: Order, bigHost: bool)
      requires data == [] || |data| == len
      ensures Valid() && fresh(bytes) && Contents() == data && size == len && version == 0
      ensures this.order == order && this.bigHost == bigHost
    {
      this.version, this.start, this.size, this.order, this.bigHost := 0, 0, len, order, bigHost;
      bytes := new byte[len];
      end := |data|;
      new;
      Copy(bytes, 0, data);
      assert bytes[0..end] == bytes[..end] == data;
    }

    method Resize(newSize: nat)
      requires Valid()
      modifies this, bytes
      ensures Valid() && (bytes == old(bytes) || fresh(bytes))
      ensures Model() == Resized(old(Model()), newSize)
    {
      var len := if end - start < newSize then end - start else newSize;
      SliceOfSlice(bytes[..], start, len, end);
      assert Model().Contents()[..len] == bytes[start..start + len];
      MoveContents(len, newSize);
      start, end := 0, len;
      version := version + 1;
    }

    /** Moves len bytes of the contents to the front, of a larger array if one is needed. */
    method MoveContents(len: nat, newSize: nat)
      requires Valid() && start + len <= end && len <= newSize
      modifies this`bytes, this`size, bytes
      ensures size == bytes.Length == Grown(old(size), newSize) && (bytes == old(bytes) || fresh(bytes))
      ensures len <= size && bytes[..len] == old(bytes[start..start + len])
    {
      if newSize <= size {
        MoveDown(bytes, start, len);
      } else {
        size := if newSize > 3 * size / 2 then newSize else 3 * size / 2;
        var larger := new byte[size];
        Copy(larger, 0, bytes[start..start + len]);
        bytes := larger;
      }
    }

    /** Makes room for count bytes at the end; they belong to the contents, whatever they hold. */
    method ReserveWriteBuffer(count: nat) returns (at: nat)
      requires Valid()
      modifies this, bytes
      ensures Valid() && (bytes == old(bytes) || fresh(bytes))
      ensures at + count == end
      ensures var b := old(Model()); var room := if Moves(b, count) then Resized(b, |b.Contents()| + count) else b;
              bytes[..at] == room.stored && start == room.start && size == room.size && version == room.version
    {
      ContentsOfModel();
      if Length() + count > Capacity() { Resize(Length() + count); }
      at := end;
      end := end + count;
    }

    method WriteBytes(data: seq<byte>)
      requires Valid()
      modifies this, bytes
      ensures Valid() && (bytes == old(bytes) || fresh(bytes))
      ensures Model() == Next(old(Model()), Write(data))
      ensures Contents() == old(Contents()) + data
    {
      ghost var before := Model();
      ContentsOfModel();
      var at := ReserveWriteBuffer(|data|);
      Copy(bytes, at, data);
      assert bytes[..end] == bytes[..at] + data;
      ContentsOfModel();
      StepIsQueue(before, Write(data));
    }

    /** ReadBytes and ReadString: the next count bytes, or nothing. */
    method ReadBytes(count: nat) returns (data: Option<seq<byte>>)
      requires Valid()
      modifies this`start
      ensures Valid() && Model() == Next(old(Model()), Op.Consume(count))
      ensures data.Some? <==> count <= |old(Contents())|
      ensures data.Some? ==> |data.value| == count && old(Contents()) == data.value + Contents()
      ensures data.None? ==> Contents() == old(Contents())
    {
      ContentsOfModel();
      if count > Length() { return None; }
      data := Some(bytes[start..start + count]);
      start := start + count;
    }

    method Consume(count: nat) returns (ok: bool)
      requires Valid()
      modifies this`start
      ensures Valid() && Model() == Next(old(Model()), Op.Consume(count))
      ensures ok <==> count <= |old(Contents())|
      ensures Contents() == if ok then old(Contents())[count..] else old(Contents())
    {
      ContentsOfModel();
      if count > Length() { return false; }
      start := start + count;
      ok := true;
    }

    method Clear()
      requires Valid()
      modifies this`start, this`end, this`version, bytes
      ensures Valid() && Model() == Next(old(Model()), Op.Clear)
      ensures Contents() == [] && forall i :: 0 <= i < bytes.Length ==> bytes[i] == 0
    {
      var i := 0;
      while i < size
        modifies bytes
        invariant i <= size == bytes.Length && forall j :: 0 <= j < i ==> bytes[j] == 0
      {
        bytes[i] := 0;
        i := i + 1;
      }
      start, end := 0, 0;
      version := version + 1;
    }

    method GetReadPosition() returns (p: ReadPosition)
      requires Valid()
      ensures p == ReadPosition(Model().start, Model().version)
    {
      p := ReadPosition(start, version);
    }

    /** Positions come only from GetReadPosition, so one of this version is not past the end. */
    method SetReadPosition(p: ReadPosition) returns (ok: bool)
      requires Valid() && (p.version == version ==> p.start <= end)
      modifies this`start
      ensures Valid() && Model() == Next(old(Model()), Rewind(p))
      ensures ok <==> p.version == version
    {
      if p.version != version { return false; }
      start := p.start;
      ok := true;
    }

    // -------------------------------------------------------- integers

    method WriteUInt8(val: byte)
      requires Valid()
      modifies this, bytes
      ensures Valid() && (bytes == old(bytes) || fresh(bytes))
      ensures Contents() == old(Contents()) + Encoded(val, 1, order, bigHost)
    {
      OneByte(val, order, bigHost);
      WriteBytes([val]);
    }

    method WriteUInt16(val: uint16)
      requires Valid()
      modifies this, bytes
      ensures Valid() && (bytes == old(bytes) || fresh(bytes))
      ensures Contents() == old(Contents()) + Encoded(val, 2, order, bigHost)
    {
      var v: nat := val;
      if order == Network { v := HostToNetwork16(val, bigHost); }
      ImageIsEncoded(val, 2, order, bigHost);
      WriteBytes(HostBytes(v, 2, bigHost));
    }

    /** Of val, only the low 24 bits are written. */
    method WriteUInt24(val: uint32)
      requires Valid()
      modifies this, bytes
      ensures Valid() && (bytes == old(bytes) || fresh(bytes))
      ensures Contents() == old(Contents()) + Encoded(val, 3, order, bigHost)
    {
      var v: nat := val;
      if order == Network { v := HostToNetwork32(val, bigHost); }
      var image := HostBytes(v, 4, bigHost);
      var first := if order == Network || bigHost then 1 else 0;
      Image24(val, order, bigHost);
      assert image[0..3] == image[..3];
      WriteBytes(image[first..first + 3]);
    }

    method WriteUInt32(val: uint32)
      requires Valid()
      modifies this, bytes
      ensures Valid() && (bytes == old(bytes) || fresh(bytes))
      ensures Contents() == old(Contents()) + Encoded(val, 4, order, bigHost)
    {
      var v: nat := val;
      if order == Network { v := HostToNetwork32(val, bigHost); }
      ImageIsEncoded(val, 4, order, bigHost);
      WriteBytes(HostBytes(v, 4, bigHost));
    }

    method WriteUInt64(val: uint64)
      requires Valid()
      modifies this, bytes
      ensures Valid() && (bytes == old(bytes) || fresh(bytes))
      ensures Contents() == old(Contents()) + Encoded(val, 8, order, bigHost)
    {
      var v: nat := val;
      if order == Network { v := HostToNetwork64(val, bigHost); }
      ImageIsEncoded(val, 8, order, bigHost);
      WriteBytes(HostBytes(v, 8, bigHost));
    }

    /** What every ReadUInt promises, for a width of k bytes. */
    ghost predicate HasRead(before: seq<byte>, k: nat, val: Option<nat>)
      requires Valid()
      reads this, bytes
    {
      if val.Some? then
        k <= |before| && val.value == Decoded(before[..k], order, bigHost) && Contents() == before[k..]
      else
        |before| < k && Contents() == before
    }

    method ReadUInt8() returns (val: Option<nat>)
      requires Valid()
      modifies this`start
      ensures Valid() && HasRead(old(Contents()), 1, val)
    {
      var data := ReadBytes(1);
      if data.None? { return None; }
      assert old(Contents())[..1] == data.value && old(Contents())[1..] == Contents();
      OneByte(data.value[0], order, bigHost);
      assert data.value == [data.value[0]];
      EncodingRoundTrip(data.value[0], 1, order, bigHost);
      val := Some(data.value[0]);
    }

    method ReadUInt16() returns (val: Option<nat>)
      requires Valid()
      modifies this`start
      ensures Valid() && HasRead(old(Contents()), 2, val)
    {
      hide FromHostBytes, NetworkToHost, Decoded;
      var data := ReadBytes(2);
      if data.None? { return None; }
      assert old(Contents())[..2] == data.value && old(Contents())[2..] == Contents();
      FromImageIsDecoded(data.value, order, bigHost);
      var v := FromHostBytes(data.value, bigHost);
      val := Some(if order == Network then NetworkToHost(v, 2, bigHost) else v);
    }

    method ReadUInt24() returns (val: Option<nat>)
      requires Valid()
      modifies this`start
      ensures Valid() && HasRead(old(Contents()), 3, val)
    {
      hide FromHostBytes, NetworkToHost, Decoded;
      var data := ReadBytes(3);
      if data.None? { return None; }
      assert old(Contents())[..3] == data.value && old(Contents())[3..] == Contents();
      var image := if order == Network || bigHost then [0] + data.value else data.value + [0];
      FromImage24(data.value, order, bigHost);
      var v := FromHostBytes(image, bigHost);
      val := Some(if order == Network then NetworkToHost(v, 4, bigHost) else v);
    }

    method ReadUInt32() returns (val: Option<nat>)
      requires Valid()
      modifies this`start
      ensures Valid() && HasRead(old(Contents()), 4, val)
    {
      hide FromHostBytes, NetworkToHost, Decoded;
      var data := ReadBytes(4);
      if data.None? { return None; }
      assert old(Contents())[..4] == data.value && old(Contents())[4..] == Contents();
      FromImageIsDecoded(data.value, order, bigHost);
      var v := FromHostBytes(data.value, bigHost);
      val := Some(if order == Network then NetworkToHost(v, 4, bigHost) else v);
    }

    method ReadUInt64() returns (val: Option<nat>)
      requires Valid()
      modifies this`start
      ensures Valid() && HasRead(old(Contents()), 8, val)
    {
      hide FromHostBytes, NetworkToHost, Decoded;
      var data := ReadBytes(8);
      if data.None? { return None; }
      assert old(Contents())[..8] == data.value && old(Contents())[8..] == Contents();
      FromImageIsDecoded(data.value, order, bigHost);
      var v := FromHostBytes(data.value, bigHost);
      val := Some(if order == Network then NetworkToHost(v, 8, bigHost) else v);
    }
  }
}
