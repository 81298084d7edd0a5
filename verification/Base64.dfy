/** Base64 over octets (section 4 of RFC 4648): the encoder, and the decoder with its three
    parsing, three padding and three termination modes. */
module Base64 {
  import opened Sequences

  type octet = bv8

  const PAD_CHAR: octet := 61 // '='

  // Classes in the decoding table that are not sextets.
  const PADDING: octet := 0xFD
  const WHITESPACE: octet := 0xFE
  const ILLEGAL: octet := 0xFF

  datatype Parse = ParseStrict | ParseWhite | ParseAny
  datatype Pad = PadYes | PadAny | PadNo
  datatype Term = TermBuffer | TermChar | TermAny
  datatype Flags = Flags(parse: Parse, pad: Pad, term: Term)

  const DO_STRICT := Flags(ParseStrict, PadYes, TermBuffer)
  const DO_LAX := Flags(ParseAny, PadAny, TermChar)

  // ------------------------------------------------------------ the two tables

  /** Base64Table: A-Z, a-z, 0-9, '+', '/'. */
  function EncodeTable(i: octet): octet
    requires i < 64
  {
    if i < 26 then i + 65
    else if i < 52 then i + 71
    else if i < 62 then i - 4
    else if i == 62 then 43
    else 47
  }

  function DecodeTable(ch: octet): octet {
    if 65 <= ch <= 90 then ch - 65
    else if 97 <= ch <= 122 then ch - 71
    else if 48 <= ch <= 57 then ch + 4
    else if ch == 43 then 62
    else if ch == 47 then 63
    else if ch == PAD_CHAR then PADDING
    else if 9 <= ch <= 13 || ch == 32 then WHITESPACE
    else ILLEGAL
  }

  predicate InAlphabet(ch: octet) { DecodeTable(ch) < 64 }

  predicate IsBlank(ch: octet) { DecodeTable(ch) == WHITESPACE }

  /** The tables are inverse to each other. */
  lemma TablesInverse(i: octet, ch: octet)
    ensures i < 64 ==> DecodeTable(EncodeTable(i)) == i
    ensures InAlphabet(ch) ==> EncodeTable(DecodeTable(ch)) == ch
    ensures InAlphabet(ch) || DecodeTable(ch) in {PADDING, WHITESPACE, ILLEGAL}
    ensures DecodeTable(ch) == PADDING <==> ch == PAD_CHAR
  {}

  /** The alphabet of RFC 4648, its pad, and the white space. */
  lemma AlphabetIs(i: octet, ch: octet)
    requires i < 64
    ensures var c, n := EncodeTable(i) as int as char, i as int;
            c == if n < 26 then 'A' + n as char else if n < 52 then 'a' + (n - 26) as char
                 else if n < 62 then '0' + (n - 52) as char else if n == 62 then '+' else '/'
    ensures PAD_CHAR as int as char == '='
    ensures IsBlank(ch) <==> ch as int as char in "\t\n\U{0B}\U{0C}\r "
  {
    BlankIs(ch);
    CodeIs(i);
  }

  lemma CodeIs(i: octet)
    requires i < 64
    ensures var n := i as int;
            EncodeTable(i) as int == if n < 26 then 65 + n else if n < 52 then 97 + (n - 26)
                                     else if n < 62 then 48 + (n - 52) else if n == 62 then 43 else 47
  {}

  lemma BlankIs(ch: octet)
    ensures IsBlank(ch) <==> ch as int == 9 || ch as int == 10 || ch as int == 11 || ch as int == 12 || ch as int == 13 || ch as int == 32
  {}

  // ------------------------------------------------------------ encoding

  // The four sextets of three octets a, b and c.

  function First(a: octet): (i: octet)
    ensures i < 64
  {
    (a >> 2) & 0x3f
  }

  function Second(a: octet, b: octet): (i: octet)
    ensures i < 64
  {
    ((a << 4) & 0x3f) | ((b >> 4) & 0x0f)
  }

  function Third(b: octet, c: octet): (i: octet)
    ensures i < 64
  {
    ((b << 2) & 0x3f) | ((c >> 6) & 0x03)
  }

  function Fourth(c: octet): (i: octet)
    ensures i < 64
  {
    c & 0x3f
  }

  /** The encoder starts a sextet from one octet and joins the bits of the next one to it. */
  /** c |= (b >> 4) & 0x0f and c |= (b >> 6) & 0x03 */
  function WithHigh(c: octet, b: octet): octet { c | ((b >> 4) & 0x0f) }

  function WithTop(c: octet, b: octet): octet { c | ((b >> 6) & 0x03) }

  lemma JoinedBits(a: octet, b: octet)
    ensures WithHigh(Second(a, 0), b) == Second(a, b) && WithTop(Third(a, 0), b) == Third(a, b)
  {}

  function GroupSize(x: seq<octet>): nat { if |x| < 3 then |x| else 3 }

  /** The four characters for the first three octets, or for what there is. */
  function FirstGroup(x: seq<octet>): (s: seq<octet>)
    requires x != []
    ensures |s| == 4
  {
    var a, b, c := x[0], if |x| > 1 then x[1] else 0, if |x| > 2 then x[2] else 0;
    [EncodeTable(First(a)), EncodeTable(Second(a, b)),
     if |x| > 1 then EncodeTable(Third(b, c)) else PAD_CHAR, if |x| > 2 then EncodeTable(Fourth(c)) else PAD_CHAR]
  }

  /** The octets in a row as 24 bits, cut into four times six. */
  lemma GroupIsBits(x: seq<octet>)
    requires x != []
    ensures var a, b, c := x[0], if |x| > 1 then x[1] else 0, if |x| > 2 then x[2] else 0;
            var n := ((a as bv24) << 16) | ((b as bv24) << 8) | (c as bv24);
            FirstGroup(x) == [EncodeTable(((n >> 18) & 0x3f) as octet), EncodeTable(((n >> 12) & 0x3f) as octet),
                              if |x| > 1 then EncodeTable(((n >> 6) & 0x3f) as octet) else PAD_CHAR,
                              if |x| > 2 then EncodeTable((n & 0x3f) as octet) else PAD_CHAR]
  {
    hide EncodeTable;
    SixBits(x[0], if |x| > 1 then x[1] else 0, if |x| > 2 then x[2] else 0);
  }

  lemma SixBits(a: octet, b: octet, c: octet)
    ensures var n := ((a as bv24) << 16) | ((b as bv24) << 8) | (c as bv24);
            && First(a) == ((n >> 18) & 0x3f) as octet && Second(a, b) == ((n >> 12) & 0x3f) as octet
            && Third(b, c) == ((n >> 6) & 0x3f) as octet && Fourth(c) == (n & 0x3f) as octet
  {}

  function Encode(x: seq<octet>): (s: seq<octet>)
    ensures |s| == (|x| + 2) / 3 * 4
  {
    if x == [] then [] else FirstGroup(x) + Encode(x[GroupSize(x)..])
  }

  lemma EncodeOnce(x: seq<octet>)
    requires x != []
    ensures Encode(x) == FirstGroup(x) + Encode(x[GroupSize(x)..])
  {}

  /** EncodeFromArray: the result has exactly the room that is filled. */
  method EncodeFromArray(data: seq<octet>) returns (result: array<octet>)
    ensures fresh(result) && result.Length == (|data| + 2) / 3 * 4
    ensures result[..] == Encode(data)
  {
    hide FirstGroup, Encode;
    result := new octet[(|data| + 2) / 3 * 4];
    var i, destIx := 0, 0;
    assert data[0..] == data;
    while i < |data|
      invariant i <= |data| && destIx + |Encode(data[i..])| == result.Length
      invariant result[..destIx] + Encode(data[i..]) == Encode(data)
      decreases |data| - i
    {
      ghost var group, done := data[i..], result[..destIx];
      EncodeOnce(group);
      SuffixOfSuffix(data, i, GroupSize(group));
      Assoc(done, FirstGroup(group), Encode(group[GroupSize(group)..]));
      i := EncodeGroup(data, i, result, destIx);
      destIx := destIx + 4;
    }
    assert result[..destIx] == result[..];
  }

  /** One turn of the encoder's loop. */
  method EncodeGroup(data: seq<octet>, from: nat, result: array<octet>, destIx: nat) returns (i: nat)
    requires from < |data| && destIx + 4 <= result.Length
    modifies result
    ensures i == from + GroupSize(data[from..])
    ensures result[..destIx + 4] == old(result[..destIx]) + FirstGroup(data[from..])
  {
    hide EncodeTable, First, Second, Third, Fourth, WithHigh, WithTop;
    ghost var done := result[..destIx];
    i := from;
    result[destIx] := EncodeTable(First(data[i]));
    var a := data[i];
    var c := Second(a, 0);
    i := i + 1;
    if i < |data| {
      JoinedBits(a, data[i]);
      c := WithHigh(c, data[i]);
    }
    result[destIx + 1] := EncodeTable(c);
    if i < |data| {
      a := data[i];
      c := Third(a, 0);
      i := i + 1;
      if i < |data| {
        JoinedBits(a, data[i]);
        c := WithTop(c, data[i]);
      }
      result[destIx + 2] := EncodeTable(c);
    } else {
      result[destIx + 2] := PAD_CHAR;
    }
    if i < |data| {
      result[destIx + 3] := EncodeTable(Fourth(data[i]));
      i := i + 1;
    } else {
      result[destIx + 3] := PAD_CHAR;
    }
    assert result[..destIx + 4] == done + result[destIx..destIx + 4];
  }

  // ------------------------------------------------------------ decoding: what it means

  /** What the scanning loop does with one character. */
  datatype Action = Stop | Skip | CountPad | TakeSextet

  function ActionOn(parse: Parse, illegalPads: bool, qlen: nat, pads: nat, c: octet): Action {
    var tolerated := if parse == ParseAny then Skip else Stop;
    if c == ILLEGAL || (illegalPads && c == PADDING) then tolerated
    else if c == WHITESPACE then if parse == ParseStrict then Stop else Skip
    else if c == PADDING then if qlen < 2 || qlen + pads >= 4 then tolerated else CountPad
    else if pads > 0 && parse != ParseAny then Stop
    else TakeSextet
  }

  /** A quantum being read: the sextets so far, the pads after them, where the first pad was. */
  datatype Scan = Scan(q: seq<octet>, pads: nat, atPad: seq<octet>, rest: seq<octet>)

  /** The scanning loop of GetNextQuantum from a state in which s is still unread. */
  function ScanFrom(parse: Parse, illegalPads: bool, q: seq<octet>, pads: nat, atPad: seq<octet>, s: seq<octet>): (r: Scan)
    requires |q| <= 4
    ensures q <= r.q && |r.q| <= 4 && (|q| < 4 == |r.q| ==> r.pads == 0)
    ensures |r.rest| <= |s| && |r.rest| + |r.q| - |q| <= |s|
    ensures |r.atPad| <= |s| || r.atPad == atPad
    decreases |s|
  {
    if |q| == 4 || s == [] then Scan(q, pads, atPad, s)
    else
      match ActionOn(parse, illegalPads, |q|, pads, DecodeTable(s[0]))
      case Stop => Scan(q, pads, atPad, s)
      case Skip => ScanFrom(parse, illegalPads, q, pads, atPad, s[1..])
      case CountPad => ScanFrom(parse, illegalPads, q, pads + 1, if pads == 0 then s else atPad, s[1..])
      case TakeSextet => ScanFrom(parse, illegalPads, q + [DecodeTable(s[0])], 0, atPad, s[1..])
  }

  /** GetNextQuantum: the sextets, whether they fill the quantum together with their pads, and
      the text after it; illegal padding is given back. */
  datatype Quantum = Quantum(q: seq<octet>, padded: bool, rest: seq<octet>)

  function NextQuantum(flags: Flags, s: seq<octet>): (r: Quantum)
    ensures |r.q| <= 4 && |r.rest| <= |s| && (|r.q| == 4 ==> |r.rest| < |s|)
  {
    var r := ScanFrom(flags.parse, flags.pad == PadNo, [], 0, [], s);
    if |r.q| + r.pads == 4 then Quantum(r.q, true, r.rest)
    else Quantum(r.q, false, if r.pads > 0 then r.atPad else r.rest)
  }

  function Sextet(q: seq<octet>, i: nat): octet { if i < |q| then q[i] else 0 }

  // The three octets of four sextets.

  function JoinFirst(q0: octet, q1: octet): octet { (q0 << 2) | ((q1 >> 4) & 0x3) }

  function JoinSecond(q1: octet, q2: octet): octet { ((q1 << 4) & 0xf0) | ((q2 >> 2) & 0xf) }

  function JoinThird(q2: octet, q3: octet): octet { ((q2 << 6) & 0xc0) | q3 }

  /** The octets a quantum holds in full. */
  function Octets(q: seq<octet>): seq<octet> {
    var a := JoinFirst(Sextet(q, 0), Sextet(q, 1));
    var b := JoinSecond(Sextet(q, 1), Sextet(q, 2));
    var c := JoinThird(Sextet(q, 2), Sextet(q, 3));
    if |q| < 2 then [] else if |q| == 2 then [a] else if |q| == 3 then [a, b] else [a, b, c]
  }

  /** The bits of an incomplete quantum that do not make up an octet. */
  function UnusedBits(q: seq<octet>): octet {
    if |q| < 2 then JoinFirst(Sextet(q, 0), Sextet(q, 1))
    else if |q| == 2 then JoinSecond(Sextet(q, 1), Sextet(q, 2))
    else if |q| == 3 then JoinThird(Sextet(q, 2), Sextet(q, 3))
    else 0
  }

  datatype Decoded = Decoded(bytes: seq<octet>, success: bool, rest: seq<octet>)

  function Decode(flags: Flags, s: seq<octet>): Decoded
    decreases |s|
  {
    if s == [] then Decoded([], true, [])
    else
      var r := NextQuantum(flags, s);
      if |r.q| < 4 then
        Decoded(Octets(r.q),
                && (flags.term == TermAny || UnusedBits(r.q) == 0)
                && (flags.pad != PadYes || r.padded)
                && (flags.term != TermBuffer || r.rest == []),
                r.rest)
      else
        var d := Decode(flags, r.rest);
        Decoded(Octets(r.q) + d.bytes, d.success, d.rest)
  }

  // ------------------------------------------------------------ decoding: the code

  lemma ScanOnce(parse: Parse, illegalPads: bool, q: seq<octet>, pads: nat, atPad: seq<octet>, s: seq<octet>)
    requires |q| < 4 && s != []
    ensures var action := ActionOn(parse, illegalPads, |q|, pads, DecodeTable(s[0]));
            var r := ScanFrom(parse, illegalPads, q, pads, atPad, s);
            && (action == Stop ==> r == Scan(q, pads, atPad, s))
            && (action == Skip ==> r == ScanFrom(parse, illegalPads, q, pads, atPad, s[1..]))
            && (action == CountPad ==>
                  r == ScanFrom(parse, illegalPads, q, pads + 1, if pads == 0 then s else atPad, s[1..]))
            && (action == TakeSextet ==>
                  r == ScanFrom(parse, illegalPads, q + [DecodeTable(s[0])], 0, atPad, s[1..]))
  {}

  /** The scanning loop of GetNextQuantum. */
  method ScanText(parse: Parse, illegalPads: bool, data: seq<octet>, from: nat, qbuf: array<octet>)
    returns (byteLen: nat, padLen: nat, padStart: nat, dpos: nat, ghost atPad: seq<octet>)
    requires from <= |data| && qbuf.Length == 4
    modifies qbuf
    ensures byteLen <= 4 && from <= dpos <= |data| && from <= padStart <= |data|
    ensures padLen > 0 ==> atPad == data[padStart..]
    ensures ScanFrom(parse, illegalPads, [], 0, [], data[from..]) == Scan(qbuf[..byteLen], padLen, atPad, data[dpos..])
  {
    hide DecodeTable, ActionOn, ScanFrom;
    byteLen, padLen, padStart, dpos, atPad := 0, 0, from, from, [];
    ghost var meant := ScanFrom(parse, illegalPads, [], 0, [], data[from..]);
    assert qbuf[..0] == [];
    while byteLen < 4 && dpos < |data|
      invariant byteLen <= 4 && from <= dpos <= |data| && from <= padStart <= |data|
      invariant padLen > 0 ==> atPad == data[padStart..]
      invariant meant == ScanFrom(parse, illegalPads, qbuf[..byteLen], padLen, atPad, data[dpos..])
    {
      ghost var q, s := qbuf[..byteLen], data[dpos..];
      ScanOnce(parse, illegalPads, q, padLen, atPad, s);
      SuffixOfSuffix(data, dpos, 1);
      var c := DecodeTable(data[dpos]);
      qbuf[byteLen] := c;
      assert qbuf[..byteLen] == q && qbuf[..byteLen + 1] == q + [c];
      match ActionOn(parse, illegalPads, byteLen, padLen, c) {
        case Stop =>
          return;
        case Skip =>
        case CountPad =>
          padLen := padLen + 1;
          if padLen == 1 { padStart, atPad := dpos, s; }
        case TakeSextet =>
          padLen, byteLen := 0, byteLen + 1;
      }
      dpos := dpos + 1;
    }
    ScanEnd(parse, illegalPads, qbuf[..byteLen], padLen, atPad, data[dpos..]);
  }

  lemma ScanEnd(parse: Parse, illegalPads: bool, q: seq<octet>, pads: nat, atPad: seq<octet>, s: seq<octet>)
    requires |q| == 4 || (|q| < 4 && s == [])
    ensures ScanFrom(parse, illegalPads, q, pads, atPad, s) == Scan(q, pads, atPad, s)
  {}

  /** GetNextQuantum: fill qbuf from the text at dpos. */
  method GetNextQuantum(flags: Flags, data: seq<octet>, from: nat, qbuf: array<octet>)
    returns (byteLen: nat, dpos: nat, padded: bool)
    requires from <= |data| && qbuf.Length == 4
    modifies qbuf
    ensures byteLen <= 4 && from <= dpos <= |data|
    ensures NextQuantum(flags, data[from..]) == Quantum(qbuf[..byteLen], padded, data[dpos..])
    ensures forall i :: byteLen <= i < 4 ==> qbuf[i] == 0
  {
    hide ScanFrom;
    var padLen, padStart;
    ghost var atPad;
    byteLen, padLen, padStart, dpos, atPad := ScanText(flags.parse, flags.pad == PadNo, data, from, qbuf);
    ghost var q := qbuf[..byteLen];
    for i := byteLen to 4
      invariant qbuf[..byteLen] == q && forall j :: byteLen <= j < i ==> qbuf[j] == 0
    {
      qbuf[i] := 0;
    }
    padded := byteLen + padLen == 4;
    if !padded && padLen > 0 { dpos := padStart; }
  }

  /** The octets in qbuf, and the bits left over. */
  method JoinSextets(qbuf: array<octet>, qlen: nat) returns (octets: seq<octet>, c: octet)
    requires qbuf.Length == 4 && qlen <= 4 && forall i :: qlen <= i < 4 ==> qbuf[i] == 0
    ensures octets == Octets(qbuf[..qlen]) && c == UnusedBits(qbuf[..qlen])
  {
    hide JoinFirst, JoinSecond, JoinThird;
    ghost var q := qbuf[..qlen];
    assert forall i :: 0 <= i < 4 ==> qbuf[i] == Sextet(q, i);
    octets := [];
    c := JoinFirst(qbuf[0], qbuf[1]);
    if qlen >= 2 {
      octets := octets + [c];
      c := JoinSecond(qbuf[1], qbuf[2]);
      if qlen >= 3 {
        octets := octets + [c];
        c := JoinThird(qbuf[2], qbuf[3]);
        if qlen >= 4 {
          octets := octets + [c];
          c := 0;
        }
      }
    }
  }

  /** DecodeFromArrayTemplate. */
  method DecodeFromArray(data: seq<octet>, flags: Flags) returns (success: bool, result: seq<octet>, dataUsed: nat)
    ensures dataUsed <= |data| && Decode(flags, data) == Decoded(result, success, data[dataUsed..])
  {
    hide NextQuantum, Octets, UnusedBits;
    result, success, dataUsed := [], true, 0;
    var qbuf := new octet[4];
    assert data[0..] == data;
    ghost var whole := Decode(flags, data);
    assert [] + whole.bytes == whole.bytes;
    while dataUsed < |data|
      invariant dataUsed <= |data| && success
      invariant var d := Decode(flags, data[dataUsed..]);
                whole == Decoded(result + d.bytes, d.success, d.rest)
      decreases |data| - dataUsed
    {
      ghost var text, d := data[dataUsed..], Decode(flags, data[dataUsed..]);
      var qlen, padded;
      qlen, dataUsed, padded := GetNextQuantum(flags, data, dataUsed, qbuf);
      ghost var q := qbuf[..qlen];
      ghost var before := result;
      var octets, c := JoinSextets(qbuf, qlen);
      result := result + octets;
      if qlen < 4 {
        if flags.term != TermAny && c != 0 { success := false; }
        if flags.pad == PadYes && !padded { success := false; }
        break;
      }
      Assoc(before, Octets(q), Decode(flags, data[dataUsed..]).bytes);
    }
    if flags.term == TermBuffer && dataUsed != |data| { success := false; }
  }
}
