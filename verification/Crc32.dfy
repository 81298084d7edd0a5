/** crc32.cc: a table-driven CRC-32 (section 8 of RFC 1952) against its definition one bit at a time. */
module Crc32 {
  import opened Sequences

  const POLYNOMIAL: bv32 := 0xEDB88320

  // ------------------------------------------------------------ the definition, bit by bit

  /** a ^ b, under a name that can be hidden from the solver. */
  function Xor(a: bv32, b: bv32): bv32 { a ^ b }

  function BitStep(c: bv32): bv32 {
    if c & 1 == 1 then POLYNOMIAL ^ (c >> 1) else c >> 1
  }

  function BitSteps(c: bv32, n: nat): bv32
    decreases n
  {
    if n == 0 then c else BitSteps(BitStep(c), n - 1)
  }

  /** One byte of the message is folded into the register and shifted through it. */
  function ByteStep(c: bv32, u: bv8): bv32 {
    BitSteps(Xor(c, u as bv32), 8)
  }

  function Fold(c: bv32, s: seq<bv8>): bv32
    decreases |s|
  {
    if s == [] then c else Fold(ByteStep(c, s[0]), s[1..])
  }

  function Complement(c: bv32): bv32 { c ^ 0xFFFF_FFFF }

  function Crc(start: bv32, s: seq<bv8>): bv32 {
    Complement(Fold(Complement(start), s))
  }

  // ------------------------------------------------------------ two values

  lemma EightSteps(c: bv32)
    ensures BitSteps(c, 8) == BitStep(BitStep(BitStep(BitStep(BitStep(BitStep(BitStep(BitStep(c))))))))
  {
    hide BitStep;
    assert BitSteps(c, 8) == BitSteps(BitStep(BitStep(c)), 6) == BitSteps(BitStep(BitStep(BitStep(BitStep(c)))), 4);
  }

  lemma FoldOnce(c: bv32, s: seq<bv8>)
    ensures Fold(c, s) == if s == [] then c else Fold(ByteStep(c, s[0]), s[1..])
  {
    hide ByteStep;
  }

  lemma FirstSteps()
    ensures ByteStep(0xFFFF_FFFF, 0x31) == 0x7C23_1048
    ensures ByteStep(0x7C23_1048, 0x32) == 0xB0AC_BB32
    ensures ByteStep(0xB0AC_BB32, 0x33) == 0x77B7_9C2D
    ensures ByteStep(0xFFFF_FFFF, 0) == 0x2DFD_1072
  {}

  lemma MiddleSteps()
    ensures ByteStep(0x77B7_9C2D, 0x34) == 0x641C_1F5C
    ensures ByteStep(0x641C_1F5C, 0x35) == 0x340A_C5E3
    ensures ByteStep(0x340A_C5E3, 0x36) == 0xF68D_2C9E
  {}

  lemma LastSteps()
    ensures ByteStep(0xF68D_2C9E, 0x37) == 0xAFFC_9660
    ensures ByteStep(0xAFFC_9660, 0x38) == 0x651F_2550
    ensures ByteStep(0x651F_2550, 0x39) == 0x340B_C6D9
  {}

  lemma FoldThree(c: bv32, x: bv8, y: bv8, z: bv8, more: seq<bv8>)
    ensures Fold(c, [x, y, z] + more) == Fold(ByteStep(ByteStep(ByteStep(c, x), y), z), more)
  {
    hide ByteStep;
    var s := [x, y, z] + more;
    FoldOnce(c, s);
    FoldOnce(ByteStep(c, x), s[1..]);
    FoldOnce(ByteStep(ByteStep(c, x), y), s[2..]);
    assert s[1..][1..] == s[2..] && s[2..][1..] == s[3..] == more;
  }

  /** The check value of this checksum, that of the nine digits; and that of a zero byte, which tells its start
      and its end from plain ones. */
  lemma CheckValues()
    ensures Crc(0, [0x31, 0x32, 0x33, 0x34, 0x35, 0x36, 0x37, 0x38, 0x39]) == 0xCBF4_3926
    ensures Crc(0, [0]) == 0xD202_EF8D
  {
    hide ByteStep, Fold;
    FirstSteps();
    MiddleSteps();
    LastSteps();
    var digits: seq<bv8> := [0x31, 0x32, 0x33, 0x34, 0x35, 0x36, 0x37, 0x38, 0x39];
    var from3: seq<bv8>, from6: seq<bv8> := [0x34, 0x35, 0x36, 0x37, 0x38, 0x39], [0x37, 0x38, 0x39];
    assert digits == [0x31, 0x32, 0x33] + from3 && from3 == [0x34, 0x35, 0x36] + from6 && from6 == [0x37, 0x38, 0x39] + [];
    FoldThree(0xFFFF_FFFF, 0x31, 0x32, 0x33, from3);
    FoldThree(0x77B7_9C2D, 0x34, 0x35, 0x36, from6);
    FoldThree(0xF68D_2C9E, 0x37, 0x38, 0x39, []);
    FoldOnce(0x340B_C6D9, []);
    FoldOnce(0xFFFF_FFFF, [0]);
    FoldOnce(0x2DFD_1072, [0][1..]);
  }

  // ------------------------------------------------------------ algebra of the bit step

  lemma ShiftOfXor(a: bv32, b: bv32)
    ensures (a ^ b) >> 1 == (a >> 1) ^ (b >> 1)
  {}

  lemma LowBitOfXor(a: bv32, b: bv32)
    ensures (a & 1 == 0 || a & 1 == 1) && (b & 1 == 0 || b & 1 == 1) && (a ^ b) & 1 == (a & 1) ^ (b & 1)
  {}

  lemma XorRegroups(p: bv32, x: bv32, y: bv32)
    ensures (p ^ x) ^ (p ^ y) == x ^ y && (p ^ x) ^ y == p ^ (x ^ y) == x ^ (p ^ y)
  {}

  lemma BitStepIsLinear(a: bv32, b: bv32)
    ensures BitStep(a ^ b) == BitStep(a) ^ BitStep(b)
  {
    ShiftOfXor(a, b);
    LowBitOfXor(a, b);
    XorRegroups(POLYNOMIAL, a >> 1, b >> 1);
  }

  lemma StepOfXor(a: bv32, b: bv32)
    ensures BitStep(Xor(a, b)) == Xor(BitStep(a), BitStep(b))
  {
    BitStepIsLinear(a, b);
  }

  lemma {:induction false} BitStepsAreLinear(a: bv32, b: bv32, n: nat)
    ensures BitSteps(Xor(a, b), n) == Xor(BitSteps(a, n), BitSteps(b, n))
    decreases n
  {
    hide BitStep, Xor;
    if n == 0 {
    } else {
      StepOfXor(a, b);
      BitStepsAreLinear(BitStep(a), BitStep(b), n - 1);
    }
  }

  /** The top bit of the polynomial is set, so a step loses nothing. */
  lemma BitStepIsInjective(a: bv32, b: bv32)
    requires BitStep(a) == BitStep(b)
    ensures a == b
  {}

  lemma {:induction false} BitStepsAreInjective(a: bv32, b: bv32, n: nat)
    requires BitSteps(a, n) == BitSteps(b, n)
    ensures a == b
    decreases n
  {
    if n == 0 {
    } else {
      BitStepsAreInjective(BitStep(a), BitStep(b), n - 1);
      BitStepIsInjective(a, b);
    }
  }

  // ------------------------------------------------------------ updates compose

  lemma {:induction false} FoldAppend(c: bv32, a: seq<bv8>, b: seq<bv8>)
    ensures Fold(c, a + b) == Fold(Fold(c, a), b)
    decreases |a|
  {
    hide ByteStep;
    if a == [] {
      assert a + b == b;
    } else {
      FoldAppend(ByteStep(c, a[0]), a[1..], b);
      assert (a + b)[1..] == a[1..] + b;
    }
  }

  lemma ComplementTwice(c: bv32)
    ensures Complement(Complement(c)) == c
  {}

  /** A checksum can be taken piece by piece. */
  lemma UpdatesCompose(start: bv32, a: seq<bv8>, b: seq<bv8>)
    ensures Crc(Crc(start, a), b) == Crc(start, a + b)
  {
    hide Fold, Complement;
    ComplementTwice(Fold(Complement(start), a));
    FoldAppend(Complement(start), a, b);
  }

  // ------------------------------------------------------------ the message as bits

  /** One bit of the message enters the register and is shifted through it. */
  function Feed(c: bv32, b: bool): bv32 {
    BitStep(Xor(c, if b then 1 else 0))
  }

  function FoldBits(c: bv32, bits: seq<bool>): bv32
    decreases |bits|
  {
    if bits == [] then c else FoldBits(Feed(c, bits[0]), bits[1..])
  }

  /** The bits as a word, first bit lowest. */
  function WordOf(bits: seq<bool>): bv32 {
    if bits == [] then 0 else Push(bits[0], WordOf(bits[1..]))
  }

  function Push(b: bool, w: bv32): bv32 { Xor(if b then 1 else 0, w << 1) }

  /** n shifts to the right, one place each. */
  function Shifted(w: bv32, n: nat): bv32
    decreases n
  {
    if n == 0 then w else Shifted(w >> 1, n - 1)
  }

  lemma {:induction false} ShiftedTwice(w: bv32, m: nat, n: nat)
    ensures Shifted(w, m + n) == Shifted(Shifted(w, m), n)
    decreases m
  {
    if m == 0 {
    } else {
      ShiftedTwice(w >> 1, m - 1, n);
    }
  }

  lemma {:induction false} ShiftedZero(n: nat)
    ensures Shifted(0, n) == 0
  {
    if n == 0 {
    } else {
      ShiftedZero(n - 1);
    }
  }

  lemma ShiftedFour(w: bv32)
    ensures Shifted(w, 4) == w >> 4
  {
    assert Shifted(w, 4) == Shifted(w >> 1, 3) == Shifted(w >> 1 >> 1, 2) == Shifted(w >> 1 >> 1 >> 1, 1);
  }

  function ShiftByte(c: bv32): bv32 { c >> 8 }

  lemma ShiftedEight(w: bv32)
    ensures Shifted(w, 8) == ShiftByte(w)
  {
    ShiftedTwice(w, 4, 4);
    ShiftedFour(w);
    ShiftedFour(w >> 4);
  }

  /** A word that fits in 31 bits has a clear top bit. */
  lemma TopBitClear(w: bv32, n: nat)
    requires n <= 31 && Shifted(w, n) == 0
    ensures w & 0x8000_0000 == 0
  {
    ShiftedTwice(w, n, 31 - n);
    ShiftedZero(31 - n);
    ShiftedTwice(w, 31, 1);
    ShiftedZero(1);
    assert Shifted(w, 31) == 0;
    ShiftedTwice(w, 8, 23);
    ShiftedEight(w);
    ShiftedTwice(w >> 8, 8, 15);
    ShiftedEight(w >> 8);
    ShiftedTwice(w >> 8 >> 8, 8, 7);
    ShiftedEight(w >> 8 >> 8);
    var v := w >> 8 >> 8 >> 8;
    ShiftedTwice(v, 4, 3);
    ShiftedFour(v);
    assert Shifted(v >> 4, 3) == v >> 4 >> 1 >> 1 >> 1;
  }

  lemma PopPushed(b: bool, w: bv32)
    requires w & 0x8000_0000 == 0
    ensures Push(b, w) >> 1 == w && (Push(b, w) & 1 == 1 <==> b)
  {}

  /** Up to 32 bits fit in a word. */
  lemma {:induction false} WordFits(bits: seq<bool>)
    requires |bits| <= 32
    ensures Shifted(WordOf(bits), |bits|) == 0
  {
    if bits == [] {
    } else {
      var w := WordOf(bits[1..]);
      WordFits(bits[1..]);
      TopBitClear(w, |bits| - 1);
      PopPushed(bits[0], w);
    }
  }

  lemma {:induction false} WordOfIsInjective(a: seq<bool>, b: seq<bool>)
    requires |a| == |b| <= 32 && WordOf(a) == WordOf(b)
    ensures a == b
  {
    if a == [] {
    } else {
      hide Push;
      WordFits(a[1..]);
      WordFits(b[1..]);
      TopBitClear(WordOf(a[1..]), |a| - 1);
      TopBitClear(WordOf(b[1..]), |a| - 1);
      PopPushed(a[0], WordOf(a[1..]));
      PopPushed(b[0], WordOf(b[1..]));
      WordOfIsInjective(a[1..], b[1..]);
      assert a == [a[0]] + a[1..] && b == [b[0]] + b[1..];
    }
  }

  lemma FeedAhead(c: bv32, b: bool, w: bv32)
    requires w & 0x8000_0000 == 0
    ensures BitStep(Xor(c, Push(b, w))) == Xor(Feed(c, b), w)
  {
    hide BitStep, Xor;
    var bit: bv32 := if b then 1 else 0;
    XorIsAssociative(c, bit, w << 1);
    StepOfXor(Xor(c, bit), w << 1);
    StepOfEven(w);
  }

  lemma StepOfEven(w: bv32)
    requires w & 0x8000_0000 == 0
    ensures BitStep(w << 1) == w
  {}

  lemma XorIsAssociative(a: bv32, b: bv32, c: bv32)
    ensures Xor(a, Xor(b, c)) == Xor(Xor(a, b), c)
  {}

  lemma XorZero(c: bv32)
    ensures Xor(c, 0) == c
  {}

  /** Feeding up to 32 bits one at a time is the same as adding them all at once and then stepping. */
  lemma {:induction false} Absorb(c: bv32, bits: seq<bool>)
    requires |bits| <= 32
    ensures FoldBits(c, bits) == BitSteps(Xor(c, WordOf(bits)), |bits|)
    decreases |bits|
  {
    hide BitStep, Feed, Push, Xor;
    if bits == [] {
      XorZero(c);
    } else {
      var w := WordOf(bits[1..]);
      WordFits(bits[1..]);
      TopBitClear(w, |bits| - 1);
      FeedAhead(c, bits[0], w);
      Absorb(Feed(c, bits[0]), bits[1..]);
    }
  }

  // ------------------------------------------------------------ the table

  /** The table entry for one byte: the byte stepped eight times. */
  function Entry(u: bv8): bv32 { BitSteps(u as bv32, 8) }

  function Half(c: bv32): bv32 { c >> 1 }

  predicate Even(c: bv32) { c & 1 == 0 }

  /** The n low bits are clear. */
  predicate LowClear(c: bv32, n: nat)
    decreases n
  {
    n == 0 || (Even(c) && LowClear(Half(c), n - 1))
  }

  lemma {:induction false} StepsOfClearBits(c: bv32, n: nat)
    requires LowClear(c, n)
    ensures BitSteps(c, n) == Shifted(c, n)
    decreases n
  {
    if n == 0 {
    } else {
      StepsOfClearBits(c >> 1, n - 1);
    }
  }

  predicate NibbleClear(c: bv32) { c & 0xF == 0 }

  function DropNibble(c: bv32): bv32 { c >> 4 }

  lemma FourEven(c: bv32)
    requires NibbleClear(c)
    ensures Even(c) && Even(Half(c)) && Even(Half(Half(c))) && Even(Half(Half(Half(c))))
    ensures Half(Half(Half(Half(c)))) == DropNibble(c)
  {}

  lemma FourClear(c: bv32, n: nat)
    requires NibbleClear(c) && LowClear(DropNibble(c), n)
    ensures LowClear(c, n + 4)
  {
    hide Half, Even, NibbleClear, DropNibble;
    FourEven(c);
    ClearInTurn(c, n);
  }

  lemma ClearInTurn(c: bv32, n: nat)
    requires Even(c) && Even(Half(c)) && Even(Half(Half(c))) && Even(Half(Half(Half(c))))
    requires LowClear(Half(Half(Half(Half(c)))), n)
    ensures LowClear(c, n + 4)
  {
    hide Half, Even;
    assert LowClear(Half(Half(Half(c))), n + 1);
    assert LowClear(Half(Half(c)), n + 2);
    assert LowClear(Half(c), n + 3);
  }

  function LowByte(c: bv32): bv8 { (c & 0xFF) as bv8 }

  function HighBits(c: bv32): bv32 { c & 0xFFFF_FF00 }

  /** Bits above the low eight are only shifted. */
  lemma StepsOfHighBits(c: bv32)
    ensures BitSteps(HighBits(c), 8) == ShiftByte(c)
  {
    hide BitSteps, Shifted, HighBits, ShiftByte, NibbleClear, DropNibble, Half, Even;
    var h := HighBits(c);
    LowNibblesClear(c);
    DropBothNibbles(c);
    FourClear(DropNibble(h), 0);
    FourClear(h, 4);
    StepsOfClearBits(h, 8);
    ShiftedEight(h);
  }

  lemma LowNibblesClear(c: bv32)
    ensures NibbleClear(HighBits(c)) && NibbleClear(DropNibble(HighBits(c)))
  {}

  lemma DropBothNibbles(c: bv32)
    ensures ShiftByte(HighBits(c)) == ShiftByte(c)
  {}

  lemma SplitLowByte(c: bv32)
    ensures Xor(LowByte(c) as bv32, HighBits(c)) == c
  {}

  lemma ShiftByteOfXor(c: bv32, u: bv8)
    ensures ShiftByte(Xor(c, u as bv32)) == ShiftByte(c)
  {}

  /** One table look-up does eight bit steps, for every register and byte. */
  lemma TableStepIsByteStep(c: bv32, u: bv8)
    ensures ByteStep(c, u) == Xor(Entry(LowByte(Xor(c, u as bv32))), ShiftByte(c))
  {
    hide BitSteps, Xor, LowByte, HighBits, ShiftByte;
    var x := Xor(c, u as bv32);
    SplitLowByte(x);
    ShiftByteOfXor(c, u);
    BitStepsAreLinear(LowByte(x) as bv32, HighBits(x), 8);
    StepsOfHighBits(x);
  }

  /** Only the entry for 0 is zero: a nonzero last entry means the table has been filled. */
  lemma EntryIsZeroOnlyForZero(u: bv8)
    ensures Entry(u) == 0 <==> u == 0
  {
    ZeroSteps(8);
    if Entry(u) == 0 { BitStepsAreInjective(u as bv32, 0, 8); }
  }

  lemma {:induction false} ZeroSteps(n: nat)
    ensures BitSteps(0, n) == 0
  {
    if n == 0 {
    } else {
      ZeroSteps(n - 1);
    }
  }

  /** The static table and the update that uses it. */
  class Crc32Table {
    const table: array<bv32>

    /** The first n entries have been computed and the others are still zero, as a static array starts out. */
    ghost predicate FilledUpTo(n: nat)
      reads table
    {
      table.Length == 256 && n <= 256 && forall i :: 0 <= i < 256 ==> table[i] == if i < n then Entry(i as bv8) else 0
    }

    ghost predicate Filled()
      reads table
    {
      FilledUpTo(256)
    }

    ghost predicate PartlyFilled()
      reads table
    {
      exists n: nat :: FilledUpTo(n)
    }

    /** A zero-initialised array. */
    constructor ()
      ensures FilledUpTo(0) && fresh(table)
    {
      table := new bv32[256](_ => 0);
    }

    /** However far an earlier call has come, the last entry tells whether the whole table is there. */
    lemma LastEntryTells(n: nat)
      requires FilledUpTo(n)
      ensures table[255] != 0 <==> n == 256
    {
      EntryIsZeroOnlyForZero(255);
      assert 255 as bv8 == 255;
    }

    method EnsureCrc32TableInited()
      requires PartlyFilled()
      modifies table
      ensures Filled()
    {
      ghost var n: nat :| FilledUpTo(n);
      LastEntryTells(n);
      if table[255] != 0 { return; }
      hide Entry;
      for i := 0 to 256
        invariant forall k :: 0 <= k < i ==> table[k] == Entry(k as bv8)
      {
        table[i] := ComputeEntry(i as bv8);
      }
    }

    /** The inner loop: eight bit steps. */
    static method ComputeEntry(i: bv8) returns (c: bv32)
      ensures c == Entry(i)
    {
      c := i as bv32;
      for j := 0 to 8
        invariant BitSteps(c, 8 - j) == Entry(i)
      {
        if c & 1 == 1 { c := POLYNOMIAL ^ (c >> 1); } else { c := c >> 1; }
      }
    }

    method UpdateCrc32(start: bv32, buf: seq<bv8>) returns (crc: bv32)
      requires PartlyFilled()
      modifies table
      ensures Filled() && crc == Crc(start, buf)
    {
      hide BitSteps, ByteStep, Complement;
      EnsureCrc32TableInited();
      var c := Complement(start);
      var i := 0;
      while i < |buf|
        invariant 0 <= i <= |buf| && Filled()
        invariant Fold(c, buf[i..]) == Fold(Complement(start), buf)
      {
        c := LookUp(c, buf[i]);
        SuffixOfSuffix(buf, i, 1);
        i := i + 1;
      }
      crc := Complement(c);
    }

    /** kCrc32Table[(c ^ u[i]) & 0xFF] ^ (c >> 8) */
    method LookUp(c: bv32, u: bv8) returns (r: bv32)
      requires Filled()
      ensures r == ByteStep(c, u)
    {
      hide BitSteps, ByteStep, Entry, Xor, ShiftByte, LowByte;
      var low := LowByte(Xor(c, u as bv32));
      assert low as int as bv8 == low;
      TableStepIsByteStep(c, u);
      r := Xor(table[low as int], ShiftByte(c));
    }
  }

  // ------------------------------------------------------------ bursts

  function ToBits(u: bv8): seq<bool> {
    [u & 1 != 0, u & 2 != 0, u & 4 != 0, u & 8 != 0, u & 16 != 0, u & 32 != 0, u & 64 != 0, u & 128 != 0]
  }

  /** The message in the order its bits go through the register. */
  function MessageBits(s: seq<bv8>): (bits: seq<bool>)
    ensures |bits| == 8 * |s|
  {
    if s == [] then [] else ToBits(s[0]) + MessageBits(s[1..])
  }

  lemma WordOfFour(bits: seq<bool>, rest: seq<bool>)
    requires |bits| == 4
    ensures WordOf(bits + rest) == Push(bits[0], Push(bits[1], Push(bits[2], Push(bits[3], WordOf(rest)))))
  {
    hide Push;
    var s := bits + rest;
    assert s[1..][1..] == s[2..];
    assert s[2..][1..] == s[3..];
    assert s[3..][1..] == s[4..] == rest;
    assert WordOf(s[2..]) == Push(s[2], WordOf(s[3..])) && WordOf(s[1..]) == Push(s[1], WordOf(s[2..]));
  }

  lemma WordOfByte(u: bv8)
    ensures WordOf(ToBits(u)) == u as bv32
  {
    var bits := ToBits(u);
    WordOfFour(bits[..4], bits[4..]);
    WordOfFour(bits[4..], []);
    assert bits == bits[..4] + bits[4..] && bits[4..] == bits[4..] + [];
    PushesOfByte(u);
  }

  lemma PushesOfByte(u: bv8)
    ensures Push(u & 1 != 0, Push(u & 2 != 0, Push(u & 4 != 0, Push(u & 8 != 0,
              Push(u & 16 != 0, Push(u & 32 != 0, Push(u & 64 != 0, Push(u & 128 != 0, 0)))))))) == u as bv32
  {}

  lemma ByteStepIsEightFeeds(c: bv32, u: bv8)
    ensures ByteStep(c, u) == FoldBits(c, ToBits(u))
  {
    hide BitSteps, WordOf, FoldBits;
    WordOfByte(u);
    Absorb(c, ToBits(u));
  }

  lemma {:induction false} FoldBitsAppend(c: bv32, a: seq<bool>, b: seq<bool>)
    ensures FoldBits(c, a + b) == FoldBits(FoldBits(c, a), b)
    decreases |a|
  {
    hide Feed;
    if a == [] {
      assert a + b == b;
    } else {
      FoldBitsAppend(Feed(c, a[0]), a[1..], b);
      assert (a + b)[1..] == a[1..] + b;
    }
  }

  lemma {:induction false} FoldIsFoldBits(c: bv32, s: seq<bv8>)
    ensures Fold(c, s) == FoldBits(c, MessageBits(s))
    decreases |s|
  {
    hide ByteStep, ToBits;
    if s == [] {
    } else {
      ByteStepIsEightFeeds(c, s[0]);
      FoldIsFoldBits(ByteStep(c, s[0]), s[1..]);
      FoldBitsAppend(c, ToBits(s[0]), MessageBits(s[1..]));
    }
  }

  lemma XorCancels(a: bv32, b: bv32, w: bv32)
    ensures Xor(a, w) == Xor(b, w) ==> a == b
    ensures Xor(w, a) == Xor(w, b) ==> a == b
  {}

  /** Whatever follows, registers that differ stay different. */
  lemma {:induction false} FoldBitsIsInjective(a: bv32, b: bv32, bits: seq<bool>)
    requires FoldBits(a, bits) == FoldBits(b, bits)
    ensures a == b
    decreases |bits|
  {
    if bits == [] {
    } else {
      hide BitStep, Xor;
      var bit: bv32 := if bits[0] then 1 else 0;
      FoldBitsIsInjective(Feed(a, bits[0]), Feed(b, bits[0]), bits[1..]);
      BitStepIsInjective(Xor(a, bit), Xor(b, bit));
      XorCancels(a, b, bit);
    }
  }

  /** Up to 32 different bits leave different registers. */
  lemma BurstChangesRegister(c: bv32, a: seq<bool>, b: seq<bool>)
    requires |a| == |b| <= 32 && a != b
    ensures FoldBits(c, a) != FoldBits(c, b)
  {
    hide BitSteps, WordOf, FoldBits, Xor;
    Absorb(c, a);
    Absorb(c, b);
    if FoldBits(c, a) == FoldBits(c, b) {
      BitStepsAreInjective(Xor(c, WordOf(a)), Xor(c, WordOf(b)), |a|);
      XorCancels(WordOf(a), WordOf(b), c);
      WordOfIsInjective(a, b);
    }
  }

  /** Both bit strings are the same outside the n bits from k on. */
  ghost predicate AgreeOutside(x: seq<bool>, y: seq<bool>, k: nat, n: nat)
  {
    |x| == |y| && k + n <= |x| && x[..k] == y[..k] && x[k + n..] == y[k + n..]
  }

  lemma BurstChangesFold(c: bv32, x: seq<bool>, y: seq<bool>, k: nat, n: nat)
    requires AgreeOutside(x, y, k, n) && n <= 32 && x != y
    ensures FoldBits(c, x) != FoldBits(c, y)
  {
    hide FoldBits;
    var p, a, b, q := x[..k], x[k..k + n], y[k..k + n], x[k + n..];
    assert x == p + a + q && y == p + b + q;
    FoldBitsAppend(c, p + a, q);
    FoldBitsAppend(c, p + b, q);
    FoldBitsAppend(c, p, a);
    FoldBitsAppend(c, p, b);
    BurstChangesRegister(FoldBits(c, p), a, b);
    if FoldBits(c, x) == FoldBits(c, y) { FoldBitsIsInjective(FoldBits(c, p + a), FoldBits(c, p + b), q); }
  }

  lemma {:induction false} MessageBitsAppend(a: seq<bv8>, b: seq<bv8>)
    ensures MessageBits(a + b) == MessageBits(a) + MessageBits(b)
  {
    hide ToBits;
    if a == [] {
      assert a + b == b;
    } else {
      MessageBitsAppend(a[1..], b);
      assert (a + b)[1..] == a[1..] + b;
      Assoc(ToBits(a[0]), MessageBits(a[1..]), MessageBits(b));
    }
  }

  lemma SplitByte(u: bv8, rest: seq<bool>)
    ensures (ToBits(u) + rest)[..8] == ToBits(u) && (ToBits(u) + rest)[8..] == rest
  {}

  lemma {:induction false} MessageBitsIsInjective(a: seq<bv8>, b: seq<bv8>)
    requires MessageBits(a) == MessageBits(b)
    ensures a == b
  {
    assert |a| == |b|;
    if a == [] {
    } else {
      hide ToBits;
      SplitByte(a[0], MessageBits(a[1..]));
      SplitByte(b[0], MessageBits(b[1..]));
      WordOfByte(a[0]);
      WordOfByte(b[0]);
      MessageBitsIsInjective(a[1..], b[1..]);
      assert a == [a[0]] + a[1..] && b == [b[0]] + b[1..];
    }
  }

  /** Two messages of the same length that differ only inside 32 consecutive bits, wherever those
      lie, have different checksums. */
  lemma BurstIsDetected(start: bv32, x: seq<bv8>, y: seq<bv8>, k: nat, n: nat)
    requires AgreeOutside(MessageBits(x), MessageBits(y), k, n) && n <= 32 && x != y
    ensures Crc(start, x) != Crc(start, y)
  {
    hide Fold, FoldBits, MessageBits, AgreeOutside, Complement;
    var c := Complement(start);
    if MessageBits(x) == MessageBits(y) { MessageBitsIsInjective(x, y); }
    FoldIsFoldBits(c, x);
    FoldIsFoldBits(c, y);
    BurstChangesFold(c, MessageBits(x), MessageBits(y), k, n);
    ComplementTwice(Fold(c, x));
    ComplementTwice(Fold(c, y));
  }

  /** In particular, messages that differ only inside some four consecutive bytes. */
  lemma FourByteChangeIsDetected(start: bv32, p: seq<bv8>, a: seq<bv8>, b: seq<bv8>, q: seq<bv8>)
    requires |a| == |b| <= 4 && a != b
    ensures Crc(start, p + a + q) != Crc(start, p + b + q)
  {
    hide Crc, MessageBits, ToBits;
    var x, y := p + a + q, p + b + q;
    MessageBitsAppend(p + a, q);
    MessageBitsAppend(p, a);
    MessageBitsAppend(p + b, q);
    MessageBitsAppend(p, b);
    assert x[|p|..|p| + |a|] == a && y[|p|..|p| + |a|] == b;
    BurstIsDetected(start, x, y, 8 * |p|, 8 * |a|);
  }

  // ------------------------------------------------------------ 33 bits

  /** Two windows of 33 bits differ in the first bit, and then exactly where the polynomial has bits. */
  predicate DifferByPolynomial(a: seq<bool>, b: seq<bool>)
    requires |a| == |b| == 33
  {
    a[0] != b[0] && Xor(WordOf(a[1..]), WordOf(b[1..])) == POLYNOMIAL
  }

  /** Feeding different bits leaves registers that differ by the polynomial. */
  lemma FeedDiffers(c: bv32)
    ensures Xor(Feed(c, true), Feed(c, false)) == POLYNOMIAL
  {
    hide BitStep;
    StepOfXor(c, 1);
    XorZero(c);
    StepOfOne();
    XorTwice(BitStep(c), BitStep(1));
  }

  lemma StepOfOne()
    ensures BitStep(1) == POLYNOMIAL
  {}

  lemma XorTwice(a: bv32, b: bv32)
    ensures Xor(Xor(a, b), a) == b
  {}

  lemma XorEqual(a: bv32, v: bv32, b: bv32, w: bv32)
    ensures Xor(a, v) == Xor(b, w) <==> Xor(a, b) == Xor(v, w)
  {
    hide Xor;
    XorRearranged(a, v, b, w);
    XorIsZero(Xor(a, v), Xor(b, w));
    XorIsZero(Xor(a, b), Xor(v, w));
  }

  lemma XorRearranged(a: bv32, v: bv32, b: bv32, w: bv32)
    ensures Xor(Xor(a, v), Xor(b, w)) == Xor(Xor(a, b), Xor(v, w))
  {
    hide Xor;
    XorIsAssociative(a, v, Xor(b, w));
    XorIsAssociative(v, b, w);
    XorCommutes(v, b);
    XorIsAssociative(b, v, w);
    XorIsAssociative(a, b, Xor(v, w));
  }

  lemma XorIsZero(a: bv32, b: bv32)
    ensures Xor(a, b) == 0 <==> a == b
  {
    hide Xor;
    XorTwice(a, b);
    XorSelf(a);
  }

  lemma XorSelf(a: bv32)
    ensures Xor(a, a) == 0 && Xor(0, a) == a
  {}

  lemma XorCommutes(a: bv32, b: bv32)
    ensures Xor(a, b) == Xor(b, a)
  {}

  lemma WindowUnnoticedIff(c: bv32, a: seq<bool>, b: seq<bool>)
    requires |a| == |b| == 33
    ensures FoldBits(c, a) == FoldBits(c, b) <==> a == b || DifferByPolynomial(a, b)
  {
    hide BitSteps, WordOf, FoldBits, Feed, Xor;
    FoldOne(c, a);
    FoldOne(c, b);
    assert a == [a[0]] + a[1..] && b == [b[0]] + b[1..];
    var p, q := Feed(c, a[0]), Feed(c, b[0]);
    if a[0] == b[0] {
      if a != b { BurstChangesRegister(p, a[1..], b[1..]); }
    } else {
      Absorb(p, a[1..]);
      Absorb(q, b[1..]);
      FeedDiffers(c);
      XorCommutes(Feed(c, true), Feed(c, false));
      XorEqual(p, WordOf(a[1..]), q, WordOf(b[1..]));
      if FoldBits(c, a) == FoldBits(c, b) {
        BitStepsAreInjective(Xor(p, WordOf(a[1..])), Xor(q, WordOf(b[1..])), 32);
      }
    }
  }

  lemma FoldOne(c: bv32, bits: seq<bool>)
    requires bits != []
    ensures FoldBits(c, bits) == FoldBits(Feed(c, bits[0]), bits[1..])
  {
    hide Feed;
  }

  /** 32 is the most that can be promised: for every start value, messages and position, a difference
      within 33 bits goes unnoticed if and only if it is the polynomial's own pattern. */
  lemma WiderBurstUnnoticedIff(start: bv32, x: seq<bv8>, y: seq<bv8>, k: nat)
    requires AgreeOutside(MessageBits(x), MessageBits(y), k, 33)
    ensures Crc(start, x) == Crc(start, y)
       <==> x == y || DifferByPolynomial(MessageBits(x)[k..k + 33], MessageBits(y)[k..k + 33])
  {
    hide Fold, FoldBits, MessageBits, Complement, DifferByPolynomial;
    var c, s, t := Complement(start), MessageBits(x), MessageBits(y);
    var p, a, b, q := s[..k], s[k..k + 33], t[k..k + 33], s[k + 33..];
    assert s == p + a + q && t == p + b + q;
    if s == t { MessageBitsIsInjective(x, y); }
    FoldIsFoldBits(c, x);
    FoldIsFoldBits(c, y);
    JoinedUnnoticedIff(c, p, a, b, q);
    ComplementTwice(Fold(c, x));
    ComplementTwice(Fold(c, y));
  }

  lemma JoinedUnnoticedIff(c: bv32, p: seq<bool>, a: seq<bool>, b: seq<bool>, q: seq<bool>)
    requires |a| == |b| == 33
    ensures FoldBits(c, p + a + q) == FoldBits(c, p + b + q) <==> a == b || DifferByPolynomial(a, b)
  {
    hide FoldBits, DifferByPolynomial;
    FoldBitsAppend(c, p + a, q);
    FoldBitsAppend(c, p + b, q);
    FoldBitsAppend(c, p, a);
    FoldBitsAppend(c, p, b);
    WindowUnnoticedIff(FoldBits(c, p), a, b);
    if FoldBits(c, p + a + q) == FoldBits(c, p + b + q) { FoldBitsIsInjective(FoldBits(c, p + a), FoldBits(c, p + b), q); }
  }

  /** Such a pair of messages. */
  lemma WiderBurstCanGoUnnoticed()
    ensures var x, y := [0x41, 0x06, 0x71, 0xDB, 0x01], [0, 0, 0, 0, 0];
            && Crc(0xFFFF_FFFF, x) == Crc(0xFFFF_FFFF, y)
            && AgreeOutside(MessageBits(x), MessageBits(y), 0, 33)
  {
    FiveBytes([0x41, 0x06, 0x71, 0xDB, 0x01]);
    FiveBytes([0, 0, 0, 0, 0]);
  }

  lemma FiveBytes(s: seq<bv8>)
    requires |s| == 5
    ensures MessageBits(s)[33..] == ToBits(s[4])[1..]
  {
    hide ToBits;
    MessageBitsAppend(s[..4], s[4..]);
    assert s == s[..4] + s[4..] && s[4..][1..] == [];
  }
}
