/** Integers in memory. A byte is a number below 256; v >> 8 * i is division by 256^i,
    a cast to uint8 is the remainder modulo 256, and joining disjoint bytes is addition. */
module ByteOrder {
  import opened Arithmetic

  type byte = b: int | 0 <= b < 0x100
  type uint16 = n: int | 0 <= n < 0x1_0000
  type uint32 = n: int | 0 <= n < 0x1_0000_0000
  type uint64 = n: int | 0 <= n < 0x1_0000_0000_0000_0000

  function Limit(k: nat): (n: nat)
    ensures n > 0
  {
    if k == 0 then 1 else 0x100 * Limit(k - 1)
  }

  lemma Limits()
    ensures Limit(0) == 1 && Limit(1) == 0x100 && Limit(2) == 0x1_0000 && Limit(3) == 0x100_0000
    ensures Limit(4) == 0x1_0000_0000 && Limit(5) == 0x100_0000_0000 && Limit(6) == 0x1_0000_0000_0000
    ensures Limit(7) == 0x100_0000_0000_0000 && Limit(8) == 0x1_0000_0000_0000_0000
  {
    assert Limit(1) == 0x100 * Limit(0);
    assert Limit(3) == 0x100 * Limit(2);
    assert Limit(5) == 0x100 * Limit(4);
    assert Limit(7) == 0x100 * Limit(6);
  }

  // ------------------------------------------------------------ the two orders

  /** The k low bytes of v, most significant first. */
  function BigEndian(v: nat, k: nat): (s: seq<byte>)
    ensures |s| == k
  {
    if k == 0 then [] else BigEndian(v / 0x100, k - 1) + [v % 0x100]
  }

  function FromBigEndian(s: seq<byte>): (v: nat)
    ensures v < Limit(|s|)
  {
    if s == [] then 0 else FromBigEndian(s[..|s| - 1]) * 0x100 + s[|s| - 1]
  }

  function Reverse(s: seq<byte>): (r: seq<byte>)
    ensures |r| == |s| && forall i :: 0 <= i < |s| ==> r[i] == s[|s| - 1 - i]
  {
    seq(|s|, i requires 0 <= i < |s| => s[|s| - 1 - i])
  }

  function LittleEndian(v: nat, k: nat): (s: seq<byte>)
    ensures |s| == k
  {
    Reverse(BigEndian(v, k))
  }

  function FromLittleEndian(s: seq<byte>): nat { FromBigEndian(Reverse(s)) }

  /** Storing k bytes and loading them back keeps the value modulo 256^k. */
  lemma {:induction false} BigEndianRoundTrip(v: nat, k: nat)
    ensures FromBigEndian(BigEndian(v, k)) == v % Limit(k)
  {
    if k == 0 {
    } else {
      var s := BigEndian(v, k);
      assert s[..k - 1] == BigEndian(v / 0x100, k - 1);
      BigEndianRoundTrip(v / 0x100, k - 1);
      SplitRemainder(v, Limit(k - 1));
    }
  }

  lemma SplitRemainder(v: nat, m: nat)
    requires m > 0
    ensures v % (0x100 * m) == v / 0x100 % m * 0x100 + v % 0x100
  {
    var q, r := v / 0x100 / m, v / 0x100 % m;
    assert v / 0x100 == q * m + r;
    var low := r * 0x100 + v % 0x100;
    assert v == q * (0x100 * m) + low;
    RemainderUnique(v, 0x100 * m, q, low);
  }

  /** Loading k bytes and storing them again gives the same bytes. */
  lemma {:induction false} BytesRoundTrip(s: seq<byte>)
    ensures BigEndian(FromBigEndian(s), |s|) == s
  {
    if s == [] {
    } else {
      BytesRoundTrip(s[..|s| - 1]);
    }
  }

  lemma ReverseTwice(s: seq<byte>)
    ensures Reverse(Reverse(s)) == s
  {}

  lemma LittleEndianRoundTrip(v: nat, k: nat)
    ensures FromLittleEndian(LittleEndian(v, k)) == v % Limit(k)
  {
    BigEndianRoundTrip(v, k);
    ReverseTwice(BigEndian(v, k));
  }

  /** Byte i counted from the least significant end is v >> 8 * i, cut to eight bits. */
  lemma {:induction false} BigEndianAt(v: nat, k: nat, i: nat)
    requires i < k
    ensures BigEndian(v, k)[k - 1 - i] == v / Limit(i) % 0x100
  {
    if i == 0 {
    } else {
      BigEndianAt(v / 0x100, k - 1, i - 1);
      ShiftTwice(v, Limit(i - 1));
    }
  }

  lemma ShiftTwice(v: nat, m: nat)
    requires m > 0
    ensures v / 0x100 / m == v / (0x100 * m)
  {
    SplitRemainder(v, m);
    assert v == v / (0x100 * m) * (0x100 * m) + v % (0x100 * m);
    assert v / 0x100 == v / 0x100 / m * m + v / 0x100 % m;
    assert v == v / 0x100 / m * (0x100 * m) + (v / 0x100 % m * 0x100 + v % 0x100);
    SameQuotient(0x100 * m, v / (0x100 * m), v % (0x100 * m), v / 0x100 / m, v % (0x100 * m));
  }

  // ------------------------------------------------------------ byteorder.h

  method SetBE16(memory: array<byte>, v: uint16)
    requires memory.Length == 2
    modifies memory
    ensures memory[..] == BigEndian(v, 2)
  {
    hide BigEndian, Limit;
    Limits();
    BigEndianAt(v, 2, 1); memory[0] := v / 0x100 % 0x100;
    BigEndianAt(v, 2, 0); memory[1] := v % 0x100;
  }

  method SetBE32(memory: array<byte>, v: uint32)
    requires memory.Length == 4
    modifies memory
    ensures memory[..] == BigEndian(v, 4)
  {
    hide BigEndian, Limit;
    Limits();
    BigEndianAt(v, 4, 3); memory[0] := v / 0x100_0000 % 0x100;
    BigEndianAt(v, 4, 2); memory[1] := v / 0x1_0000 % 0x100;
    BigEndianAt(v, 4, 1); memory[2] := v / 0x100 % 0x100;
    BigEndianAt(v, 4, 0); memory[3] := v % 0x100;
  }

  method SetBE64(memory: array<byte>, v: uint64)
    requires memory.Length == 8
    modifies memory
    ensures memory[..] == BigEndian(v, 8)
  {
    hide BigEndian, Limit;
    Limits();
    BigEndianAt(v, 8, 7); memory[0] := v / 0x100_0000_0000_0000 % 0x100;
    BigEndianAt(v, 8, 6); memory[1] := v / 0x1_0000_0000_0000 % 0x100;
    BigEndianAt(v, 8, 5); memory[2] := v / 0x100_0000_0000 % 0x100;
    BigEndianAt(v, 8, 4); memory[3] := v / 0x1_0000_0000 % 0x100;
    BigEndianAt(v, 8, 3); memory[4] := v / 0x100_0000 % 0x100;
    BigEndianAt(v, 8, 2); memory[5] := v / 0x1_0000 % 0x100;
    BigEndianAt(v, 8, 1); memory[6] := v / 0x100 % 0x100;
    BigEndianAt(v, 8, 0); memory[7] := v % 0x100;
  }

  method SetLE16(memory: array<byte>, v: uint16)
    requires memory.Length == 2
    modifies memory
    ensures memory[..] == LittleEndian(v, 2)
  {
    hide BigEndian, Limit;
    Limits();
    BigEndianAt(v, 2, 0); memory[0] := v % 0x100;
    BigEndianAt(v, 2, 1); memory[1] := v / 0x100 % 0x100;
  }

  method SetLE32(memory: array<byte>, v: uint32)
    requires memory.Length == 4
    modifies memory
    ensures memory[..] == LittleEndian(v, 4)
  {
    hide BigEndian, Limit;
    Limits();
    BigEndianAt(v, 4, 0); memory[0] := v % 0x100;
    BigEndianAt(v, 4, 1); memory[1] := v / 0x100 % 0x100;
    BigEndianAt(v, 4, 2); memory[2] := v / 0x1_0000 % 0x100;
    BigEndianAt(v, 4, 3); memory[3] := v / 0x100_0000 % 0x100;
  }

  method SetLE64(memory: array<byte>, v: uint64)
    requires memory.Length == 8
    modifies memory
    ensures memory[..] == LittleEndian(v, 8)
  {
    hide BigEndian, Limit;
    Limits();
    BigEndianAt(v, 8, 0); memory[0] := v % 0x100;
    BigEndianAt(v, 8, 1); memory[1] := v / 0x100 % 0x100;
    BigEndianAt(v, 8, 2); memory[2] := v / 0x1_0000 % 0x100;
    BigEndianAt(v, 8, 3); memory[3] := v / 0x100_0000 % 0x100;
    BigEndianAt(v, 8, 4); memory[4] := v / 0x1_0000_0000 % 0x100;
    BigEndianAt(v, 8, 5); memory[5] := v / 0x100_0000_0000 % 0x100;
    BigEndianAt(v, 8, 6); memory[6] := v / 0x1_0000_0000_0000 % 0x100;
    BigEndianAt(v, 8, 7); memory[7] := v / 0x100_0000_0000_0000 % 0x100;
  }

  function GetBE16(m: seq<byte>): (v: uint16)
    requires |m| == 2
    ensures v == FromBigEndian(m)
  {
    FromTwo(m);
    m[0] as int * 0x100 + m[1]
  }

  function GetBE32(m: seq<byte>): (v: uint32)
    requires |m| == 4
    ensures v == FromBigEndian(m)
  {
    FromFour(m);
    m[0] as int * 0x100_0000 + m[1] as int * 0x1_0000 + m[2] as int * 0x100 + m[3]
  }

  function GetBE64(m: seq<byte>): (v: uint64)
    requires |m| == 8
    ensures v == FromBigEndian(m)
  {
    FromEight(m);
    m[0] as int * 0x100_0000_0000_0000 + m[1] as int * 0x1_0000_0000_0000 + m[2] as int * 0x100_0000_0000 + m[3] as int * 0x1_0000_0000
    + m[4] as int * 0x100_0000 + m[5] as int * 0x1_0000 + m[6] as int * 0x100 + m[7]
  }

  function GetLE16(m: seq<byte>): (v: uint16)
    requires |m| == 2
    ensures v == FromLittleEndian(m)
  {
    FromTwo(Reverse(m));
    m[0] + m[1] as int * 0x100
  }

  function GetLE32(m: seq<byte>): (v: uint32)
    requires |m| == 4
    ensures v == FromLittleEndian(m)
  {
    FromFour(Reverse(m));
    m[0] + m[1] as int * 0x100 + m[2] as int * 0x1_0000 + m[3] as int * 0x100_0000
  }

  function GetLE64(m: seq<byte>): (v: uint64)
    requires |m| == 8
    ensures v == FromLittleEndian(m)
  {
    FromEight(Reverse(m));
    m[0] + m[1] as int * 0x100 + m[2] as int * 0x1_0000 + m[3] as int * 0x100_0000
    + m[4] as int * 0x1_0000_0000 + m[5] as int * 0x100_0000_0000 + m[6] as int * 0x1_0000_0000_0000 + m[7] as int * 0x100_0000_0000_0000
  }

  lemma FromTwo(m: seq<byte>)
    requires |m| == 2
    ensures FromBigEndian(m) == m[0] as int * 0x100 + m[1]
  {
    assert m[..1][..0] == [];
  }

  lemma FromFour(m: seq<byte>)
    requires |m| == 4
    ensures FromBigEndian(m) == m[0] as int * 0x100_0000 + m[1] as int * 0x1_0000 + m[2] as int * 0x100 + m[3]
  {
    assert m[..3][..2] == m[..2];
    FromTwo(m[..2]);
  }

  lemma FromEight(m: seq<byte>)
    requires |m| == 8
    ensures FromBigEndian(m) == m[0] as int * 0x100_0000_0000_0000 + m[1] as int * 0x1_0000_0000_0000 + m[2] as int * 0x100_0000_0000
                                + m[3] as int * 0x1_0000_0000 + m[4] as int * 0x100_0000 + m[5] as int * 0x1_0000 + m[6] as int * 0x100 + m[7]
  {
    assert m[..7][..6] == m[..6];
    assert m[..6][..5] == m[..5];
    assert m[..5][..4] == m[..4];
    FromFour(m[..4]);
  }

  // ------------------------------------------------------------ host order

  /** The memory image of a k-byte unsigned integer on a host of the given byte order. */
  function HostBytes(v: nat, k: nat, bigHost: bool): (s: seq<byte>)
    ensures |s| == k
  {
    if bigHost then BigEndian(v, k) else LittleEndian(v, k)
  }

  function FromHostBytes(s: seq<byte>, bigHost: bool): nat {
    if bigHost then FromBigEndian(s) else FromLittleEndian(s)
  }

  /** What HostToNetwork16/32/64 return: the integer whose memory image is the big-endian form of v. */
  function HostToNetwork(v: nat, k: nat, bigHost: bool): nat {
    FromHostBytes(BigEndian(v, k), bigHost)
  }

  /** What NetworkToHost16/32/64 return: the memory image read as big-endian. */
  function NetworkToHost(v: nat, k: nat, bigHost: bool): nat {
    FromBigEndian(HostBytes(v, k, bigHost))
  }

  method HostToNetwork16(n: uint16, bigHost: bool) returns (result: nat)
    ensures result == HostToNetwork(n, 2, bigHost)
  {
    var memory := new byte[2];
    SetBE16(memory, n);
    result := FromHostBytes(memory[..], bigHost);
  }

  method HostToNetwork32(n: uint32, bigHost: bool) returns (result: nat)
    ensures result == HostToNetwork(n, 4, bigHost)
  {
    var memory := new byte[4];
    SetBE32(memory, n);
    result := FromHostBytes(memory[..], bigHost);
  }

  method HostToNetwork64(n: uint64, bigHost: bool) returns (result: nat)
    ensures result == HostToNetwork(n, 8, bigHost)
  {
    var memory := new byte[8];
    SetBE64(memory, n);
    result := FromHostBytes(memory[..], bigHost);
  }

  lemma HostRoundTrip(v: nat, k: nat, bigHost: bool)
    ensures FromHostBytes(HostBytes(v, k, bigHost), bigHost) == v % Limit(k)
  {
    if bigHost { BigEndianRoundTrip(v, k); } else { LittleEndianRoundTrip(v, k); }
  }

  lemma HostBytesOfHostValue(s: seq<byte>, bigHost: bool)
    ensures HostBytes(FromHostBytes(s, bigHost), |s|, bigHost) == s
  {
    BytesRoundTrip(s);
    BytesRoundTrip(Reverse(s));
    ReverseTwice(s);
  }

  /** On either host, what HostToNetwork leaves in memory is the big-endian form, and
      NetworkToHost undoes it. */
  lemma NetworkRoundTrip(v: nat, k: nat, bigHost: bool)
    ensures HostBytes(HostToNetwork(v, k, bigHost), k, bigHost) == BigEndian(v, k)
    ensures NetworkToHost(HostToNetwork(v, k, bigHost), k, bigHost) == v % Limit(k)
  {
    HostBytesOfHostValue(BigEndian(v, k), bigHost);
    BigEndianRoundTrip(v, k);
  }
}
