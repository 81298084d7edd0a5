/** What the Base64 coder promises: strict decoding and encoding are inverse to each other
    (canonical form, section 3.5 of RFC 4648), and lax decoding is decoding of filtered text. */
module Base64Laws {
  import opened Base64
  import opened Sequences

  // ------------------------------------------------------------ strict decoding

  predicate Sextets(q: seq<octet>) { forall i :: 0 <= i < |q| ==> q[i] < 64 }

  function Chars(q: seq<octet>): (s: seq<octet>)
    requires Sextets(q)
    ensures |s| == |q|
  {
    seq(|q|, i requires 0 <= i < |q| => EncodeTable(q[i]))
  }

  /** The characters of a quantum: its sextets, then its pads. */
  function QuantumText(q: seq<octet>, pads: nat): (s: seq<octet>)
    requires Sextets(q)
    ensures |s| == |q| + pads
  {
    Chars(q) + seq(pads, i => PAD_CHAR)
  }

  lemma TextGrows(q: seq<octet>, pads: nat, c: octet)
    requires Sextets(q) && c < 64
    ensures QuantumText(q, pads) + [PAD_CHAR] == QuantumText(q, pads + 1)
    ensures QuantumText(q, 0) + [EncodeTable(c)] == QuantumText(q + [c], 0)
  {
    hide EncodeTable;
  }

  /** What makes up a legal quantum, and what strict scanning can do next. */
  predicate Legal(qlen: nat, pads: nat) { qlen + pads <= 4 && (pads > 0 ==> qlen >= 2) }

  lemma StrictAction(qlen: nat, pads: nat, ch: octet)
    requires Legal(qlen, pads)
    ensures var c := DecodeTable(ch);
            match ActionOn(ParseStrict, false, qlen, pads, c)
            case Stop => true
            case Skip => false
            case CountPad => ch == PAD_CHAR && Legal(qlen, pads + 1)
            case TakeSextet => pads == 0 && c < 64 && EncodeTable(c) == ch
  {
    TablesInverse(0, ch);
  }

  /** Strict scanning accepts only sextets followed by pads, in that order, and has consumed
      exactly their characters. */
  lemma {:induction false} StrictScan(q: seq<octet>, pads: nat, atPad: seq<octet>, s: seq<octet>)
    requires |q| <= 4 && Sextets(q) && Legal(|q|, pads)
    ensures var r := ScanFrom(ParseStrict, false, q, pads, atPad, s);
            && Sextets(r.q) && Legal(|r.q|, r.pads)
            && QuantumText(q, pads) + s == QuantumText(r.q, r.pads) + r.rest
    decreases |s|
  {
    hide EncodeTable, DecodeTable, ActionOn, ScanFrom, QuantumText;
    if |q| == 4 || s == [] {
      ScanEnd(ParseStrict, false, q, pads, atPad, s);
    } else {
      var c := DecodeTable(s[0]);
      StrictAction(|q|, pads, s[0]);
      ScanOnce(ParseStrict, false, q, pads, atPad, s);
      assert s == [s[0]] + s[1..];
      Assoc(QuantumText(q, pads), [s[0]], s[1..]);
      match ActionOn(ParseStrict, false, |q|, pads, c)
      case Stop =>
      case Skip =>
      case CountPad =>
        TextGrows(q, pads, 0);
        StrictScan(q, pads + 1, if pads == 0 then s else atPad, s[1..]);
      case TakeSextet =>
        TextGrows(q, 0, c);
        StrictScan(q + [c], 0, atPad, s[1..]);
    }
  }

  lemma TextFront(more: seq<octet>, pads: nat, tail: seq<octet>)
    requires Sextets(more) && more != []
    ensures var s := QuantumText(more, pads) + tail;
            s[0] == EncodeTable(more[0]) && s[1..] == QuantumText(more[1..], pads) + tail
  {
    hide EncodeTable;
  }

  lemma TextPads(pads: nat, tail: seq<octet>)
    requires pads > 0
    ensures var s := QuantumText([], pads) + tail;
            s[0] == PAD_CHAR && s[1..] == QuantumText([], pads - 1) + tail
  {}

  lemma TakesSextet(parse: Parse, illegalPads: bool, q: seq<octet>, atPad: seq<octet>, s: seq<octet>, c: octet)
    requires |q| < 4 && s != [] && c < 64 && s[0] == EncodeTable(c)
    ensures ScanFrom(parse, illegalPads, q, 0, atPad, s) == ScanFrom(parse, illegalPads, q + [c], 0, atPad, s[1..])
  {
    hide EncodeTable, DecodeTable, ScanFrom;
    TablesInverse(c, 0);
    ScanOnce(parse, illegalPads, q, 0, atPad, s);
  }

  lemma CountsPad(parse: Parse, q: seq<octet>, pads: nat, atPad: seq<octet>, s: seq<octet>)
    requires Legal(|q|, pads + 1) && s != [] && s[0] == PAD_CHAR
    ensures ScanFrom(parse, false, q, pads, atPad, s)
         == ScanFrom(parse, false, q, pads + 1, if pads == 0 then s else atPad, s[1..])
  {
    hide EncodeTable, DecodeTable, ScanFrom;
    TablesInverse(0, PAD_CHAR);
    ScanOnce(parse, false, q, pads, atPad, s);
  }

  /** Scanning of the pads that complete a quantum. */
  lemma {:induction false} ScanOfPads(parse: Parse, q: seq<octet>, pads: nat, atPad: seq<octet>, more: nat)
    requires Legal(|q|, pads + more) && |q| + pads + more == 4
    ensures var r := ScanFrom(parse, false, q, pads, atPad, QuantumText([], more));
            r.q == q && r.pads == pads + more && r.rest == []
    decreases more
  {
    hide EncodeTable, DecodeTable, ScanFrom, QuantumText, ActionOn;
    var s := QuantumText([], more);
    if more == 0 {
      NoText();
      ScanEnd(parse, false, q, pads, atPad, s);
    } else {
      TextPads(more, []);
      assert s + [] == s && QuantumText([], more - 1) + [] == QuantumText([], more - 1);
      CountsPad(parse, q, pads, atPad, s);
      ScanOfPads(parse, q, pads + 1, if pads == 0 then s else atPad, more - 1);
    }
  }

  /** Scanning of sextets comes to what follows them. */
  lemma {:induction false} ScanOfSextets(parse: Parse, illegalPads: bool, q: seq<octet>, atPad: seq<octet>, more: seq<octet>, tail: seq<octet>)
    requires Sextets(more) && |q| + |more| <= 4
    ensures ScanFrom(parse, illegalPads, q, 0, atPad, QuantumText(more, 0) + tail)
         == ScanFrom(parse, illegalPads, q + more, 0, atPad, tail)
    decreases |more|
  {
    hide EncodeTable, DecodeTable, ScanFrom, QuantumText, ActionOn;
    if more == [] {
      NoText();
      assert q + [] == q && [] + tail == tail;
    } else {
      TextFront(more, 0, tail);
      TakesSextet(parse, illegalPads, q, atPad, QuantumText(more, 0) + tail, more[0]);
      Assoc(q, [more[0]], more[1..]);
      assert more == [more[0]] + more[1..];
      ScanOfSextets(parse, illegalPads, q + [more[0]], atPad, more[1..], tail);
    }
  }

  lemma TextSplits(q: seq<octet>, pads: nat)
    requires Sextets(q)
    ensures QuantumText(q, pads) == QuantumText(q, 0) + QuantumText([], pads)
  {}

  /** Scanning pads that are not allowed: strict scanning and scanning over white space stop at them, the other
      mode passes them by. */
  lemma {:induction false} ScanOfIllegalPads(parse: Parse, q: seq<octet>, atPad: seq<octet>, more: nat)
    requires |q| < 4
    ensures ScanFrom(parse, true, q, 0, atPad, QuantumText([], more))
         == Scan(q, 0, atPad, if parse == ParseAny then [] else QuantumText([], more))
    decreases more
  {
    hide EncodeTable, DecodeTable, ScanFrom, QuantumText;
    var s := QuantumText([], more);
    if more == 0 {
      NoText();
      ScanEnd(parse, true, q, 0, atPad, s);
    } else {
      TextPads(more, []);
      assert s + [] == s && QuantumText([], more - 1) + [] == QuantumText([], more - 1);
      TablesInverse(0, PAD_CHAR);
      ScanOnce(parse, true, q, 0, atPad, s);
      if parse == ParseAny { ScanOfIllegalPads(parse, q, atPad, more - 1); }
    }
  }

  /** The first quantum of the encoding of what starts with this group. */
  lemma GroupScanned(flags: Flags, q: seq<octet>, tail: seq<octet>)
    requires Sextets(q) && 2 <= |q| <= 4 && (|q| < 4 ==> tail == [])
    ensures NextQuantum(flags, QuantumText(q, 4 - |q|) + tail)
         == if flags.pad != PadNo || |q| == 4 then Quantum(q, true, tail)
            else Quantum(q, false, if flags.parse == ParseAny then [] else QuantumText([], 4 - |q|))
  {
    hide ScanFrom, QuantumText;
    var illegalPads := flags.pad == PadNo;
    TextSplits(q, 4 - |q|);
    Assoc(QuantumText(q, 0), QuantumText([], 4 - |q|), tail);
    ScanOfSextets(flags.parse, illegalPads, [], [], q, QuantumText([], 4 - |q|) + tail);
    assert [] + q == q;
    if |q| == 4 {
      NoText();
      assert [] + tail == tail;
      ScanEnd(flags.parse, illegalPads, q, 0, [], tail);
    } else {
      assert QuantumText([], 4 - |q|) + [] == QuantumText([], 4 - |q|);
      if illegalPads { ScanOfIllegalPads(flags.parse, q, [], 4 - |q|); } else { ScanOfPads(flags.parse, q, 0, [], 4 - |q|); }
    }
  }

  // ------------------------------------------------------------ groups of bits

  /** The sextets of the first group of x. */
  function GroupSextets(x: seq<octet>): (q: seq<octet>)
    requires x != []
    ensures Sextets(q) && |q| == GroupSize(x) + 1
  {
    var a, b, c := x[0], if |x| > 1 then x[1] else 0, if |x| > 2 then x[2] else 0;
    [First(a), Second(a, b)] + (if |x| > 1 then [Third(b, c)] else []) + if |x| > 2 then [Fourth(c)] else []
  }

  lemma FirstGroupText(x: seq<octet>)
    requires x != []
    ensures FirstGroup(x) == QuantumText(GroupSextets(x), 3 - GroupSize(x))
  {
    hide EncodeTable, First, Second, Third, Fourth;
  }

  lemma TripleDecodes(a: octet, b: octet, c: octet)
    ensures JoinFirst(First(a), Second(a, b)) == a
    ensures JoinSecond(Second(a, b), Third(b, c)) == b
    ensures JoinThird(Third(b, c), Fourth(c)) == c
    ensures JoinSecond(Second(a, 0), 0) == 0 && JoinThird(Third(b, 0), 0) == 0
  {}

  lemma TripleEncodes(q0: octet, q1: octet, q2: octet, q3: octet)
    requires q0 < 64 && q1 < 64 && q2 < 64 && q3 < 64
    ensures First(JoinFirst(q0, q1)) == q0
    ensures Second(JoinFirst(q0, q1), JoinSecond(q1, q2)) == q1
    ensures Third(JoinSecond(q1, q2), JoinThird(q2, q3)) == q2
    ensures Fourth(JoinThird(q2, q3)) == q3
  {}

  /** Decoding the sextets of a group gives back its octets and leaves no bit unused. */
  lemma GroupDecodes(x: seq<octet>)
    requires x != []
    ensures Octets(GroupSextets(x)) == x[..GroupSize(x)] && UnusedBits(GroupSextets(x)) == 0
  {
    hide First, Second, Third, Fourth, JoinFirst, JoinSecond, JoinThird;
    TripleDecodes(x[0], if |x| > 1 then x[1] else 0, if |x| > 2 then x[2] else 0);
  }

  /** Sextets without unused bits are the sextets of the octets they hold. */
  lemma GroupEncodes(q: seq<octet>)
    requires Sextets(q) && 2 <= |q| <= 4 && UnusedBits(q) == 0
    ensures |Octets(q)| == |q| - 1 && GroupSextets(Octets(q)) == q
  {
    hide First, Second, Third, Fourth, JoinFirst, JoinSecond, JoinThird;
    TripleEncodes(q[0], q[1], Sextet(q, 2), Sextet(q, 3));
  }

  // ------------------------------------------------------------ strict decoding and encoding

  lemma DecodeOnce(flags: Flags, s: seq<octet>)
    requires s != []
    ensures var r := NextQuantum(flags, s);
            var d := Decode(flags, s);
            if |r.q| == 4 then d == Decode(flags, r.rest).(bytes := Octets(r.q) + Decode(flags, r.rest).bytes)
            else && d.bytes == Octets(r.q) && d.rest == r.rest
                 && (d.success <==> (flags.term == TermAny || UnusedBits(r.q) == 0)
                                    && (flags.pad != PadYes || r.padded)
                                    && (flags.term != TermBuffer || r.rest == []))
  {}

  /** The pads that complete the encoding of x. */
  function PadsOf(x: seq<octet>): seq<octet> { QuantumText([], if |x| % 3 == 0 then 0 else 3 - |x| % 3) }

  /** Decoding undoes encoding, under all flags. Every character is used and decoding succeeds; only where pads
      are not allowed, and not ignored either, are they left, which is a failure if the text must be used up. */
  lemma {:induction false} RoundTrip(flags: Flags, x: seq<octet>)
    ensures var left := if flags.pad == PadNo && flags.parse != ParseAny then PadsOf(x) else [];
            Decode(flags, Encode(x)) == Decoded(x, left == [] || flags.term != TermBuffer, left)
    decreases |x|
  {
    hide Octets, UnusedBits, FirstGroup, Decode, Encode, QuantumText, GroupSextets, NextQuantum;
    NoText();
    if x == [] {
      EmptyTexts();
      EmptyQuantum(flags);
    } else {
      var q, n := GroupSextets(x), GroupSize(x);
      var tail := Encode(x[n..]);
      FirstGroupText(x);
      GroupDecodes(x);
      EncodeOnce(x);
      if n < 3 { EmptyTexts(); }
      GroupScanned(flags, q, tail);
      DecodeOnce(flags, Encode(x));
      if n < 3 { assert x[..n] == x; } else { assert x[..n] + x[n..] == x; }
      RoundTrip(flags, x[n..]);
    }
  }

  /** Strict decoding undoes encoding and uses every character. */
  lemma StrictRoundTrip(x: seq<octet>)
    ensures Decode(DO_STRICT, Encode(x)) == Decoded(x, true, [])
  {
    hide Decode, Encode, QuantumText;
    RoundTrip(DO_STRICT, x);
  }

  lemma EmptyTexts()
    ensures Encode([]) == [] && Decode(DO_STRICT, []) == Decoded([], true, [])
  {}

  lemma EncodeAfterGroup(q: seq<octet>, more: seq<octet>)
    requires Sextets(q) && 2 <= |q| <= 4 && UnusedBits(q) == 0 && (|q| < 4 ==> more == [])
    ensures Encode(Octets(q) + more) == QuantumText(q, 4 - |q|) + Encode(more)
  {
    hide UnusedBits, FirstGroup, Encode, QuantumText;
    GroupEncodes(q);
    var x := Octets(q) + more;
    SameFirstGroup(Octets(q), more);
    FirstGroupText(x);
    EncodeOnce(x);
    assert x[GroupSize(x)..] == more;
  }

  lemma SameFirstGroup(x: seq<octet>, more: seq<octet>)
    requires 0 < |x| <= 3 && (|x| < 3 ==> more == [])
    ensures GroupSize(x + more) == |x| && GroupSextets(x + more) == GroupSextets(x)
  {
    hide First, Second, Third, Fourth;
    if more == [] { assert x + more == x; }
  }

  /** Whatever strict decoding accepts is the encoding of what it returns, to the last character. */
  lemma {:induction false} StrictAccepts(s: seq<octet>)
    requires Decode(DO_STRICT, s).success
    ensures Encode(Decode(DO_STRICT, s).bytes) == s && Decode(DO_STRICT, s).rest == []
    decreases |s|
  {
    hide Octets, UnusedBits, Decode, Encode, QuantumText, ScanFrom;
    if s == [] {
      EmptyTexts();
    } else {
      NoText();
      StrictScan([], 0, [], s);
      DecodeOnce(DO_STRICT, s);
      var r := ScanFrom(ParseStrict, false, [], 0, [], s);
      if |r.q| == 4 {
        StrictAccepts(r.rest);
        FullQuantum(r.q);
        EncodeAfterGroup(r.q, Decode(DO_STRICT, r.rest).bytes);
      } else {
        EmptyTexts();
        EncodeAfterGroup(r.q, []);
        assert Octets(r.q) + [] == Octets(r.q);
      }
    }
  }

  lemma NoText()
    ensures QuantumText([], 0) == []
  {}

  lemma FullQuantum(q: seq<octet>)
    requires |q| == 4
    ensures UnusedBits(q) == 0
  {}

  /** Strict decoding succeeds on a text if and only if it is the encoding of some octets. */
  lemma StrictAcceptsExactlyEncodings(s: seq<octet>)
    ensures Decode(DO_STRICT, s).success <==> exists x :: s == Encode(x)
  {
    if Decode(DO_STRICT, s).success {
      StrictAccepts(s);
    }
    forall x | s == Encode(x)
      ensures Decode(DO_STRICT, s).success
    {
      StrictRoundTrip(x);
    }
  }

  // ------------------------------------------------------------ lax decoding

  /** The characters of the alphabet, in order. */
  function OnlyAlphabet(s: seq<octet>): (t: seq<octet>)
    ensures |t| <= |s| && forall i :: 0 <= i < |t| ==> InAlphabet(t[i])
  {
    if s == [] then []
    else if InAlphabet(s[0]) then [s[0]] + OnlyAlphabet(s[1..])
    else OnlyAlphabet(s[1..])
  }

  /** Scanning in DO_PARSE_ANY mode sees only the characters of the alphabet: it takes up to
      four of them and leaves the others. */
  lemma {:induction false} LaxScan(illegalPads: bool, q: seq<octet>, pads: nat, atPad: seq<octet>,
                                   pads': nat, atPad': seq<octet>, s: seq<octet>)
    requires |q| <= 4
    ensures var r := ScanFrom(ParseAny, illegalPads, q, pads, atPad, s);
            var r' := ScanFrom(ParseAny, illegalPads, q, pads', atPad', OnlyAlphabet(s));
            && r.q == r'.q && OnlyAlphabet(r.rest) == r'.rest
            && (|r.q| < 4 ==> r'.rest == [])
    decreases |s|
  {
    hide DecodeTable, ScanFrom;
    if |q| == 4 || s == [] {
      ScanEnd(ParseAny, illegalPads, q, pads, atPad, s);
      ScanEnd(ParseAny, illegalPads, q, pads', atPad', OnlyAlphabet(s));
    } else {
      TablesInverse(0, s[0]);
      ScanOnce(ParseAny, illegalPads, q, pads, atPad, s);
      var action := ActionOn(ParseAny, illegalPads, |q|, pads, DecodeTable(s[0]));
      if InAlphabet(s[0]) {
        var t := OnlyAlphabet(s);
        assert t[1..] == OnlyAlphabet(s[1..]);
        ScanOnce(ParseAny, illegalPads, q, pads', atPad', t);
        LaxScan(illegalPads, q + [DecodeTable(s[0])], 0, atPad, 0, atPad', s[1..]);
      } else if action == CountPad {
        LaxScan(illegalPads, q, pads + 1, if pads == 0 then s else atPad, pads', atPad', s[1..]);
      } else {
        LaxScan(illegalPads, q, pads, atPad, pads', atPad', s[1..]);
      }
    }
  }

  /** How many pad characters follow the last character of the alphabet, count of them being known. */
  function PadsAfter(count: nat, s: seq<octet>): nat
    decreases |s|
  {
    if s == [] then count
    else PadsAfter(if InAlphabet(s[0]) then 0 else if s[0] == PAD_CHAR then count + 1 else count, s[1..])
  }

  /** The text ends with a character of the alphabet; clean says so of what came before it. */
  predicate EndsClean(clean: bool, s: seq<octet>)
    decreases |s|
  {
    if s == [] then clean else EndsClean(InAlphabet(s[0]), s[1..])
  }

  /** The pads an incomplete quantum of n sextets keeps out of count of them. */
  function PadsKept(illegalPads: bool, n: nat, count: nat): nat {
    if illegalPads || n < 2 || n > 4 then 0 else if count < 4 - n then count else 4 - n
  }

  /** Scanning in DO_PARSE_ANY mode either fills the quantum, and stops right after a character of the
      alphabet, or consumes everything and keeps the pads at the end. */
  ghost predicate LaxResult(illegalPads: bool, qlen: nat, s: seq<octet>, count: nat, clean: bool, r: Scan) {
    if |r.q| == 4 then
      PadsAfter(count, s) == PadsAfter(0, r.rest) && EndsClean(clean, s) == EndsClean(true, r.rest)
    else
      && r.rest == [] && (r.pads > 0 ==> r.atPad != [])
      && r.pads == PadsKept(illegalPads, |r.q|, PadsAfter(count, s))
  }

  lemma {:induction false} LaxExtent(illegalPads: bool, q: seq<octet>, pads: nat, atPad: seq<octet>, s: seq<octet>, count: nat, clean: bool)
    requires |q| < 4 && pads == PadsKept(illegalPads, |q|, count) && (pads > 0 ==> atPad != [])
    ensures LaxResult(illegalPads, |q|, s, count, clean, ScanFrom(ParseAny, illegalPads, q, pads, atPad, s))
    decreases |s|
  {
    hide DecodeTable, ScanFrom;
    if s == [] {
      ScanEnd(ParseAny, illegalPads, q, pads, atPad, s);
    } else {
      TablesInverse(0, s[0]);
      ScanOnce(ParseAny, illegalPads, q, pads, atPad, s);
      if InAlphabet(s[0]) {
        var more := q + [DecodeTable(s[0])];
        if |more| == 4 {
          ScanEnd(ParseAny, illegalPads, more, 0, atPad, s[1..]);
        } else {
          LaxExtent(illegalPads, more, 0, atPad, s[1..], 0, true);
        }
      } else {
        LaxOther(illegalPads, |q|, pads, s[0], count);
        var counted := ActionOn(ParseAny, illegalPads, |q|, pads, DecodeTable(s[0])) == CountPad;
        LaxExtent(illegalPads, q, if counted then pads + 1 else pads, if counted && pads == 0 then s else atPad, s[1..],
                  if s[0] == PAD_CHAR then count + 1 else count, false);
      }
    }
  }

  /** A character outside the alphabet is skipped, or is a pad that is counted while pads are wanted. */
  lemma LaxOther(illegalPads: bool, qlen: nat, pads: nat, ch: octet, count: nat)
    requires qlen < 4 && pads == PadsKept(illegalPads, qlen, count) && !InAlphabet(ch)
    ensures var action := ActionOn(ParseAny, illegalPads, qlen, pads, DecodeTable(ch));
            && (action == Skip || action == CountPad)
            && PadsKept(illegalPads, qlen, if ch == PAD_CHAR then count + 1 else count) == if action == CountPad then pads + 1 else pads
  {
    TablesInverse(0, ch);
  }

  /** The sextets of characters of the alphabet. */
  function Values(t: seq<octet>): (v: seq<octet>)
    ensures |v| == |t|
  {
    seq(|t|, i requires 0 <= i < |t| => DecodeTable(t[i]))
  }

  lemma NoValues(t: seq<octet>)
    ensures Values(t[..0]) == []
  {}

  lemma OneMoreValue(q: seq<octet>, ch: octet, t: seq<octet>, n: nat)
    requires 0 < n <= |t| + 1
    ensures q + [DecodeTable(ch)] + Values(t[..n - 1]) == q + Values(([ch] + t)[..n]) && t[n - 1..] == ([ch] + t)[n..]
  {
    hide DecodeTable;
    assert ([ch] + t)[..n] == [ch] + t[..n - 1];
    assert Values([ch] + t[..n - 1]) == [DecodeTable(ch)] + Values(t[..n - 1]);
    Assoc(q, [DecodeTable(ch)], Values(t[..n - 1]));
  }

  /** A quantum takes the next characters of the alphabet, four if there are so many. */
  lemma {:induction false} LaxSextets(illegalPads: bool, q: seq<octet>, pads: nat, atPad: seq<octet>, s: seq<octet>)
    requires |q| <= 4
    ensures var r, t := ScanFrom(ParseAny, illegalPads, q, pads, atPad, s), OnlyAlphabet(s);
            var n := if |t| < 4 - |q| then |t| else 4 - |q|;
            r.q == q + Values(t[..n]) && OnlyAlphabet(r.rest) == t[n..]
    decreases |s|
  {
    hide DecodeTable, ScanFrom, Values, InAlphabet;
    var t := OnlyAlphabet(s);
    NoValues(t);
    if |q| == 4 || s == [] {
      ScanEnd(ParseAny, illegalPads, q, pads, atPad, s);
      assert t[0..] == t && q + [] == q;
    } else {
      var pads', atPad' := LaxOnce(illegalPads, q, pads, atPad, s);
      if InAlphabet(s[0]) {
        LaxSextets(illegalPads, q + [DecodeTable(s[0])], 0, atPad, s[1..]);
        OneMoreValue(q, s[0], OnlyAlphabet(s[1..]), if |t| < 4 - |q| then |t| else 4 - |q|);
      } else {
        LaxSextets(illegalPads, q, pads', atPad', s[1..]);
      }
    }
  }

  /** In DO_PARSE_ANY mode a character of the alphabet is taken, and nothing else stops the scan. */
  lemma LaxOnce(illegalPads: bool, q: seq<octet>, pads: nat, atPad: seq<octet>, s: seq<octet>) returns (pads': nat, atPad': seq<octet>)
    requires |q| < 4 && s != []
    ensures ScanFrom(ParseAny, illegalPads, q, pads, atPad, s)
         == if InAlphabet(s[0]) then ScanFrom(ParseAny, illegalPads, q + [DecodeTable(s[0])], 0, atPad, s[1..])
            else ScanFrom(ParseAny, illegalPads, q, pads', atPad', s[1..])
  {
    hide DecodeTable, ScanFrom;
    TablesInverse(0, s[0]);
    ScanOnce(ParseAny, illegalPads, q, pads, atPad, s);
    pads', atPad' := pads, atPad;
    if ActionOn(ParseAny, illegalPads, |q|, pads, DecodeTable(s[0])) == CountPad {
      pads', atPad' := pads + 1, if pads == 0 then s else atPad;
    }
  }

  /** Every quantum ends where its padding demands. */
  predicate WellPadded(s: seq<octet>) {
    var n := |OnlyAlphabet(s)| % 4;
    if n == 0 then EndsClean(true, s) else n >= 2 && PadsAfter(0, s) >= 4 - n
  }

  /** One pad where two are needed: it is given back, and left unused. */
  predicate HalfPadded(s: seq<octet>) { |OnlyAlphabet(s)| % 4 == 2 && PadsAfter(0, s) == 1 }

  /** The characters left over from whole quanta carry no bits that make up no octet. */
  predicate BitsUsed(t: seq<octet>) { UnusedBits(Values(t[|t| - |t| % 4..])) == 0 }

  /** In DO_PARSE_ANY mode decoding gives the octets of the alphabet characters alone. */
  lemma {:induction false} LaxDecoding(flags: Flags, s: seq<octet>)
    requires flags.parse == ParseAny
    ensures Decode(flags, s).bytes == Decode(flags, OnlyAlphabet(s)).bytes
    decreases |s|
  {
    hide Octets, UnusedBits, Decode, ScanFrom;
    if s == [] {
    } else {
      var t := OnlyAlphabet(s);
      LaxScan(flags.pad == PadNo, [], 0, [], 0, [], s);
      DecodeOnce(flags, s);
      var r := NextQuantum(flags, s);
      if t == [] {
        NothingInAlphabet(flags, s);
      } else {
        DecodeOnce(flags, t);
        if |r.q| == 4 { LaxDecoding(flags, r.rest); }
      }
    }
  }

  /** The octets of any number of sextets. */
  function AllOctets(v: seq<octet>): seq<octet> {
    if |v| < 4 then Octets(v) else Octets(v[..4]) + AllOctets(v[4..])
  }

  lemma FewOctets(v: seq<octet>)
    ensures AllOctets(v) == if |v| < 4 then Octets(v) else Octets(v[..4]) + AllOctets(v[4..])
  {
    hide Octets;
  }

  /** They are the octets of the sextets of the text, all of them and nothing else. */
  lemma {:induction false} LaxOctets(flags: Flags, s: seq<octet>)
    requires flags.parse == ParseAny
    ensures Decode(flags, s).bytes == AllOctets(Values(OnlyAlphabet(s)))
    decreases |s|
  {
    hide Octets, UnusedBits, Decode, ScanFrom, Values, AllOctets;
    var t := OnlyAlphabet(s);
    FewOctets(Values(t));
    ValuesSplit(t);
    if s == [] {
      EmptyQuantum(flags);
    } else {
      LaxSextets(flags.pad == PadNo, [], 0, [], s);
      DecodeOnce(flags, s);
      if |NextQuantum(flags, s).q| == 4 { LaxOctets(flags, NextQuantum(flags, s).rest); }
    }
  }

  lemma ValuesSplit(t: seq<octet>)
    ensures |t| < 4 ==> [] + Values(t[..|t|]) == Values(t)
    ensures |t| >= 4 ==> [] + Values(t[..4]) == Values(t)[..4] && Values(t[4..]) == Values(t)[4..]
  {
    hide DecodeTable;
    if |t| < 4 { assert t[..|t|] == t; }
  }

  /** end is the end of s, starts with a pad, and has no character of the alphabet in it. */
  predicate PadTail(s: seq<octet>, end: seq<octet>) {
    0 < |end| <= |s| && end == s[|s| - |end|..] && end[0] == PAD_CHAR && OnlyAlphabet(end) == []
  }

  lemma OnlyAlphabetOnce(s: seq<octet>)
    requires s != []
    ensures OnlyAlphabet(s) == (if InAlphabet(s[0]) then [s[0]] else []) + OnlyAlphabet(s[1..])
  {}

  /** The first of the pads kept is where the scan says it is, before the end s of the whole text. */
  lemma {:induction false} LaxAtPad(illegalPads: bool, q: seq<octet>, pads: nat, atPad: seq<octet>, s: seq<octet>, whole: seq<octet>)
    requires |q| <= 4 && |s| <= |whole| && s == whole[|whole| - |s|..]
    requires pads > 0 ==> 0 < |atPad| <= |whole| && atPad == whole[|whole| - |atPad|..] && atPad[0] == PAD_CHAR
                          && OnlyAlphabet(atPad) == OnlyAlphabet(s)
    ensures var r := ScanFrom(ParseAny, illegalPads, q, pads, atPad, s); |r.q| < 4 && r.pads > 0 ==> PadTail(whole, r.atPad)
    decreases |s|
  {
    hide DecodeTable, ScanFrom, ActionOn, InAlphabet, OnlyAlphabet;
    if |q| == 4 || s == [] {
      ScanEnd(ParseAny, illegalPads, q, pads, atPad, s);
    } else {
      OnlyAlphabetOnce(s);
      AnyAction(illegalPads, |q|, pads, s[0]);
      ScanOnce(ParseAny, illegalPads, q, pads, atPad, s);
      assert s[1..] == whole[|whole| - |s| + 1..];
      match ActionOn(ParseAny, illegalPads, |q|, pads, DecodeTable(s[0]))
      case Stop =>
      case Skip => LaxAtPad(illegalPads, q, pads, atPad, s[1..], whole);
      case CountPad => LaxAtPad(illegalPads, q, pads + 1, if pads == 0 then s else atPad, s[1..], whole);
      case TakeSextet => LaxAtPad(illegalPads, q + [DecodeTable(s[0])], 0, atPad, s[1..], whole);
    }
  }

  lemma AnyAction(illegalPads: bool, qlen: nat, pads: nat, ch: octet)
    ensures match ActionOn(ParseAny, illegalPads, qlen, pads, DecodeTable(ch))
            case Stop => false
            case Skip => !InAlphabet(ch)
            case CountPad => ch == PAD_CHAR && !InAlphabet(ch)
            case TakeSextet => InAlphabet(ch)
  {
    TablesInverse(0, ch);
  }

  /** Nothing is left unused but a single pad where two are needed, with what follows it. */
  lemma {:induction false} LaxRest(flags: Flags, s: seq<octet>)
    requires flags.parse == ParseAny
    ensures var rest := Decode(flags, s).rest;
            if flags.pad != PadNo && HalfPadded(s) then PadTail(s, rest) else rest == []
    decreases |s|
  {
    hide Octets, UnusedBits, Decode, ScanFrom, HalfPadded, WellPadded, BitsUsed, OnlyAlphabet;
    if s == [] {
      EmptyQuantum(flags);
      NothingToPad();
    } else {
      DecodeOnce(flags, s);
      var r := NextQuantum(flags, s);
      if |r.q| == 4 {
        FullLaxQuantum(flags, s);
        LaxRest(flags, r.rest);
        LaxSuffix(flags.pad == PadNo, [], 0, [], s);
        if r.rest != [] { SuffixOfTail(s, r.rest, Decode(flags, r.rest).rest); }
      } else {
        LastLaxQuantum(flags, s);
        LaxExtent(flags.pad == PadNo, [], 0, [], s, 0, true);
        LaxAtPad(flags.pad == PadNo, [], 0, [], s, s);
      }
    }
  }

  lemma SuffixOfTail(s: seq<octet>, rest: seq<octet>, end: seq<octet>)
    requires |rest| <= |s| && rest == s[|s| - |rest|..]
    ensures PadTail(rest, end) ==> PadTail(s, end)
  {
    hide OnlyAlphabet;
  }

  lemma {:induction false} LaxSuffix(illegalPads: bool, q: seq<octet>, pads: nat, atPad: seq<octet>, s: seq<octet>)
    requires |q| <= 4
    ensures var rest := ScanFrom(ParseAny, illegalPads, q, pads, atPad, s).rest; |rest| <= |s| && rest == s[|s| - |rest|..]
    decreases |s|
  {
    hide DecodeTable, ScanFrom, InAlphabet;
    if |q| == 4 || s == [] {
      ScanEnd(ParseAny, illegalPads, q, pads, atPad, s);
    } else {
      var pads', atPad' := LaxOnce(illegalPads, q, pads, atPad, s);
      if InAlphabet(s[0]) {
        LaxSuffix(illegalPads, q + [DecodeTable(s[0])], 0, atPad, s[1..]);
      } else {
        LaxSuffix(illegalPads, q, pads', atPad', s[1..]);
      }
    }
  }

  /** It succeeds if and only if the alphabet characters leave no bits unused (where that matters),
      padding that is demanded is there, and no half padding is left in a text that must be used up. */
  lemma {:induction false} LaxSuccessIff(flags: Flags, s: seq<octet>)
    requires flags.parse == ParseAny
    ensures Decode(flags, s).success
       <==> && (flags.term == TermAny || BitsUsed(OnlyAlphabet(s)))
            && (flags.pad == PadYes ==> WellPadded(s))
            && (flags.pad == PadAny && flags.term == TermBuffer ==> !HalfPadded(s))
    decreases |s|
  {
    hide Octets, UnusedBits, Decode, NextQuantum, WellPadded, HalfPadded, BitsUsed, Values;
    if s == [] {
      EmptyQuantum(flags);
      NothingToPad();
    } else {
      DecodeOnce(flags, s);
      if |NextQuantum(flags, s).q| == 4 {
        FullLaxQuantum(flags, s);
        LaxSuccessIff(flags, NextQuantum(flags, s).rest);
      } else {
        LastLaxQuantum(flags, s);
      }
    }
  }

  lemma NothingToPad()
    ensures WellPadded([]) && !HalfPadded([]) && (UnusedBits([]) == 0 ==> BitsUsed(OnlyAlphabet([])))
  {
    hide UnusedBits;
    assert Values([]) == [];
  }

  /** After a full quantum the same remains to be padded and to be used. */
  lemma FullLaxQuantum(flags: Flags, s: seq<octet>)
    requires flags.parse == ParseAny && |NextQuantum(flags, s).q| == 4
    ensures var rest := NextQuantum(flags, s).rest;
            && WellPadded(rest) == WellPadded(s) && HalfPadded(rest) == HalfPadded(s)
            && BitsUsed(OnlyAlphabet(rest)) == BitsUsed(OnlyAlphabet(s))
  {
    hide ScanFrom, BitsUsed, Values;
    LaxSextets(flags.pad == PadNo, [], 0, [], s);
    LaxExtent(flags.pad == PadNo, [], 0, [], s, 0, true);
    SameLeftover(OnlyAlphabet(s));
  }

  lemma SameLeftover(t: seq<octet>)
    requires |t| >= 4
    ensures |t[4..]| % 4 == |t| % 4 && BitsUsed(t) == BitsUsed(t[4..])
  {
    hide UnusedBits;
    assert t[4..][|t| - 4 - |t| % 4..] == t[|t| - |t| % 4..];
  }

  lemma LastLeftover(t: seq<octet>)
    requires |t| < 4
    ensures BitsUsed(t) == (UnusedBits([] + Values(t[..|t|])) == 0)
  {
    hide UnusedBits;
    assert t[0..] == t == t[..|t|] && [] + Values(t) == Values(t);
  }

  /** The bits and the padding of an incomplete last quantum. */
  lemma LastLaxQuantum(flags: Flags, s: seq<octet>)
    requires flags.parse == ParseAny && s != [] && |NextQuantum(flags, s).q| < 4
    ensures var r := NextQuantum(flags, s);
            && BitsUsed(OnlyAlphabet(s)) == (UnusedBits(r.q) == 0)
            && (flags.pad == PadYes ==> (r.padded <==> WellPadded(s)))
            && (r.rest == [] <==> flags.pad == PadNo || !HalfPadded(s))
            && (flags.pad == PadYes && WellPadded(s) ==> r.rest == [])
  {
    hide ScanFrom, BitsUsed, Values, UnusedBits, WellPadded, HalfPadded, OnlyAlphabet, PadsAfter, EndsClean;
    LaxSextets(flags.pad == PadNo, [], 0, [], s);
    LaxExtent(flags.pad == PadNo, [], 0, [], s, 0, true);
    LastLeftover(OnlyAlphabet(s));
    ShortPadding(s);
  }

  lemma ShortPadding(s: seq<octet>)
    requires |OnlyAlphabet(s)| < 4 && s != []
    ensures var n := |OnlyAlphabet(s)|;
            && (WellPadded(s) <==> n >= 2 && PadsAfter(0, s) >= 4 - n)
            && (HalfPadded(s) <==> n == 2 && PadsAfter(0, s) == 1)
  {
    if OnlyAlphabet(s) == [] { NothingMeansUnclean(true, s); }
  }

  lemma {:induction false} NothingMeansUnclean(clean: bool, s: seq<octet>)
    requires OnlyAlphabet(s) == [] && (s != [] || !clean)
    ensures !EndsClean(clean, s)
    decreases |s|
  {
    if s == [] {
    } else {
      NothingMeansUnclean(false, s[1..]);
    }
  }

  lemma NothingInAlphabet(flags: Flags, s: seq<octet>)
    requires s != [] && flags.parse == ParseAny && OnlyAlphabet(s) == []
    ensures Octets(NextQuantum(flags, s).q) == [] && NextQuantum(flags, s).q == []
    ensures Decode(flags, []) == Decoded([], true, []) && UnusedBits([]) == 0
  {
    hide ScanFrom;
    LaxScan(flags.pad == PadNo, [], 0, [], 0, [], s);
    ScanEnd(ParseAny, flags.pad == PadNo, [], 0, [], []);
  }

  // ------------------------------------------------------------ white space

  function WithoutBlanks(s: seq<octet>): (t: seq<octet>)
    ensures |t| <= |s| && forall i :: 0 <= i < |t| ==> !IsBlank(t[i])
  {
    if s == [] then []
    else if IsBlank(s[0]) then WithoutBlanks(s[1..])
    else [s[0]] + WithoutBlanks(s[1..])
  }

  /** s is empty or starts with something that is not white space. */
  predicate StartsVisibly(s: seq<octet>) { s == [] || !IsBlank(s[0]) }

  lemma {:induction false} WhiteScan(illegalPads: bool, q: seq<octet>, pads: nat, atPad: seq<octet>, s: seq<octet>)
    requires |q| <= 4 && (pads > 0 ==> StartsVisibly(atPad))
    ensures var r := ScanFrom(ParseWhite, illegalPads, q, pads, atPad, s);
            var r' := ScanFrom(ParseWhite, illegalPads, q, pads, WithoutBlanks(atPad), WithoutBlanks(s));
            && r.q == r'.q && r.pads == r'.pads && r'.rest == WithoutBlanks(r.rest)
            && (r.pads > 0 ==> StartsVisibly(r.atPad) && r'.atPad == WithoutBlanks(r.atPad))
            && (|r.q| < 4 ==> StartsVisibly(r.rest))
    decreases |s|
  {
    hide DecodeTable, ScanFrom, ActionOn, IsBlank;
    var t, atPad' := WithoutBlanks(s), WithoutBlanks(atPad);
    if |q| == 4 || s == [] {
      ScanEnd(ParseWhite, illegalPads, q, pads, atPad, s);
      ScanEnd(ParseWhite, illegalPads, q, pads, atPad', t);
    } else {
      ScanOnce(ParseWhite, illegalPads, q, pads, atPad, s);
      OnlyBlanksAreSkipped(illegalPads, |q|, pads, s[0]);
      if IsBlank(s[0]) {
        WhiteScan(illegalPads, q, pads, atPad, s[1..]);
      } else {
        assert t[1..] == WithoutBlanks(s[1..]);
        ScanOnce(ParseWhite, illegalPads, q, pads, atPad', t);
        match ActionOn(ParseWhite, illegalPads, |q|, pads, DecodeTable(s[0]))
        case Stop =>
        case Skip =>
        case CountPad => WhiteScan(illegalPads, q, pads + 1, if pads == 0 then s else atPad, s[1..]);
        case TakeSextet => WhiteScan(illegalPads, q + [DecodeTable(s[0])], 0, atPad, s[1..]);
      }
    }
  }

  lemma OnlyBlanksAreSkipped(illegalPads: bool, qlen: nat, pads: nat, ch: octet)
    ensures ActionOn(ParseWhite, illegalPads, qlen, pads, DecodeTable(ch)) == Skip <==> IsBlank(ch)
  {
    TablesInverse(0, ch);
  }

  /** Only sextets and white space. */
  predicate Unpadded(s: seq<octet>) { forall i :: 0 <= i < |s| ==> InAlphabet(s[i]) || IsBlank(s[i]) }

  /** White space after a text that needs no padding: the decoder starts one more quantum for
      it, finds it empty, and misses the padding there. */
  predicate BlankTail(s: seq<octet>) {
    s != [] && IsBlank(s[|s| - 1]) && Unpadded(s) && |WithoutBlanks(s)| % 4 == 0
  }

  lemma {:induction false} PaddedScan(illegalPads: bool, q: seq<octet>, pads: nat, atPad: seq<octet>, s: seq<octet>)
    requires |q| < 4 && pads > 0
    ensures var r := ScanFrom(ParseWhite, illegalPads, q, pads, atPad, s); r.q == q
    decreases |s|
  {
    hide DecodeTable, ScanFrom;
    if s == [] {
      ScanEnd(ParseWhite, illegalPads, q, pads, atPad, s);
    } else {
      ScanOnce(ParseWhite, illegalPads, q, pads, atPad, s);
      match ActionOn(ParseWhite, illegalPads, |q|, pads, DecodeTable(s[0]))
      case Stop =>
      case Skip => PaddedScan(illegalPads, q, pads, atPad, s[1..]);
      case CountPad => PaddedScan(illegalPads, q, pads + 1, atPad, s[1..]);
      case TakeSextet =>
    }
  }

  /** rest is what remains of s after count sextets, the last of which ends the part before it. */
  predicate Consumed(s: seq<octet>, rest: seq<octet>, count: nat) {
    && |rest| < |s|
    && var n := |s| - |rest|;
       && rest == s[n..] && Unpadded(s[..n]) && InAlphabet(s[n - 1])
       && |WithoutBlanks(s)| == count + |WithoutBlanks(rest)|
  }

  lemma ConsumedOne(s: seq<octet>)
    requires s != [] && InAlphabet(s[0])
    ensures Consumed(s, s[1..], 1)
  {
    TablesInverse(0, s[0]);
  }

  lemma ConsumedMore(s: seq<octet>, rest: seq<octet>, count: nat)
    requires s != [] && Consumed(s[1..], rest, count) && (InAlphabet(s[0]) || IsBlank(s[0]))
    ensures Consumed(s, rest, if IsBlank(s[0]) then count else count + 1)
  {
    hide DecodeTable;
    ExtendedPrefix(s, |s| - |rest|);
  }

  /** A full quantum ends at a character of the alphabet and contains only sextets and white space. */
  lemma {:induction false} FullQuantumExtent(illegalPads: bool, q: seq<octet>, atPad: seq<octet>, s: seq<octet>)
    requires |q| < 4 && |ScanFrom(ParseWhite, illegalPads, q, 0, atPad, s).q| == 4
    ensures Consumed(s, ScanFrom(ParseWhite, illegalPads, q, 0, atPad, s).rest, 4 - |q|)
    decreases |s|
  {
    hide DecodeTable, ScanFrom, Consumed;
    if s == [] {
    } else {
      ScanOnce(ParseWhite, illegalPads, q, 0, atPad, s);
      TablesInverse(0, s[0]);
      var rest := ScanFrom(ParseWhite, illegalPads, q, 0, atPad, s).rest;
      match ActionOn(ParseWhite, illegalPads, |q|, 0, DecodeTable(s[0]))
      case Stop =>
      case Skip =>
        FullQuantumExtent(illegalPads, q, atPad, s[1..]);
        ConsumedMore(s, rest, 4 - |q|);
      case CountPad =>
        PaddedScan(illegalPads, q, 1, s, s[1..]);
      case TakeSextet =>
        var longer := q + [DecodeTable(s[0])];
        if |longer| == 4 {
          ScanEnd(ParseWhite, illegalPads, longer, 0, atPad, s[1..]);
          ConsumedOne(s);
        } else {
          FullQuantumExtent(illegalPads, longer, atPad, s[1..]);
          ConsumedMore(s, rest, 3 - |q|);
        }
    }
  }

  /** An unpadded text that does not fill a quantum is used up. */
  lemma {:induction false} UnpaddedExtent(illegalPads: bool, q: seq<octet>, atPad: seq<octet>, s: seq<octet>)
    requires |q| < 4 && |ScanFrom(ParseWhite, illegalPads, q, 0, atPad, s).q| < 4 && Unpadded(s)
    ensures var r := ScanFrom(ParseWhite, illegalPads, q, 0, atPad, s);
            r.rest == [] && r.pads == 0 && |WithoutBlanks(s)| == |r.q| - |q|
    decreases |s|
  {
    hide DecodeTable, ScanFrom;
    if s == [] {
      ScanEnd(ParseWhite, illegalPads, q, 0, atPad, s);
    } else {
      ScanOnce(ParseWhite, illegalPads, q, 0, atPad, s);
      TablesInverse(0, s[0]);
      ExtendedPrefix(s, 0);
      if IsBlank(s[0]) {
        UnpaddedExtent(illegalPads, q, atPad, s[1..]);
      } else {
        UnpaddedExtent(illegalPads, q + [DecodeTable(s[0])], atPad, s[1..]);
      }
    }
  }

  lemma ExtendedPrefix(s: seq<octet>, n: nat)
    requires s != [] && (InAlphabet(s[0]) || IsBlank(s[0])) && n <= |s|
    ensures Unpadded(s) <==> Unpadded(s[1..])
    ensures n > 0 ==> (Unpadded(s[..n]) <==> Unpadded(s[1..][..n - 1])) && s[1..][n - 1..] == s[n..]
  {
    hide DecodeTable;
    assert forall i :: 0 < i < |s| ==> s[i] == s[1..][i - 1];
    if n > 0 {
      assert s[1..][..n - 1] == s[1..n];
      assert forall i :: 0 < i < n ==> s[..n][i] == s[1..n][i - 1];
    }
  }

  lemma BlankTailOfRest(s: seq<octet>, rest: seq<octet>)
    requires Consumed(s, rest, 4)
    ensures BlankTail(s) <==> BlankTail(rest)
  {
    hide DecodeTable;
    var n := |s| - |rest|;
    TablesInverse(0, s[n - 1]);
    assert forall i :: 0 <= i < n ==> s[i] == s[..n][i];
    assert forall i :: n <= i < |s| ==> s[i] == s[n..][i - n];
  }

  /** In DO_PARSE_WHITE mode white space never changes the octets. It changes success in one
      case only: padding is required, and white space follows a text that needs none. */
  lemma {:induction false} WhiteDecoding(flags: Flags, s: seq<octet>)
    requires flags.parse == ParseWhite
    ensures Decode(flags, s).bytes == Decode(flags, WithoutBlanks(s)).bytes
    ensures Decode(flags, s).success == Decode(flags, WithoutBlanks(s)).success
            <==> !(flags.pad == PadYes && BlankTail(s))
    decreases |s|
  {
    hide Octets, UnusedBits, Decode, ScanFrom, DecodeTable, BlankTail, Consumed;
    if s == [] {
      NoBlankTail();
    } else {
      var t := WithoutBlanks(s);
      NoBlanks();
      WhiteScan(flags.pad == PadNo, [], 0, [], s);
      DecodeOnce(flags, s);
      var r := NextQuantum(flags, s);
      if |r.q| == 4 {
        FullQuantumExtent(flags.pad == PadNo, [], [], s);
        DecodeOnce(flags, t);
        WhiteDecoding(flags, r.rest);
        BlankTailOfRest(s, r.rest);
      } else {
        EmptyQuantum(flags);
        LastQuantum(flags, s);
        if t != [] { DecodeOnce(flags, t); }
      }
    }
  }

  lemma NoBlanks()
    ensures WithoutBlanks([]) == []
  {}

  lemma NoBlankTail()
    ensures WithoutBlanks([]) == [] && !BlankTail([])
  {}

  lemma EmptyQuantum(flags: Flags)
    ensures Decode(flags, []) == Decoded([], true, []) && Octets([]) == [] && UnusedBits([]) == 0
  {}

  /** The last quantum is empty exactly when it starts at a tail of white space. */
  lemma LastQuantum(flags: Flags, s: seq<octet>)
    requires flags.parse == ParseWhite && s != [] && |NextQuantum(flags, s).q| < 4
    ensures BlankTail(s) <==> WithoutBlanks(s) == []
    ensures BlankTail(s) ==> NextQuantum(flags, s) == Quantum([], false, [])
  {
    hide ScanFrom, DecodeTable;
    if WithoutBlanks(s) == [] { AllBlank(s); }
    if Unpadded(s) { UnpaddedExtent(flags.pad == PadNo, [], [], s); }
  }

  lemma {:induction false} AllBlank(s: seq<octet>)
    requires WithoutBlanks(s) == []
    ensures forall i :: 0 <= i < |s| ==> IsBlank(s[i])
  {
    hide DecodeTable;
    if s == [] {
    } else {
      AllBlank(s[1..]);
      assert forall i :: 0 < i < |s| ==> s[i] == s[1..][i - 1];
    }
  }

  /** So white space inside an encoding does no harm, but for that one case. */
  lemma WhiteRoundTrip(flags: Flags, s: seq<octet>, x: seq<octet>)
    requires flags.parse == ParseWhite && flags.pad != PadNo && WithoutBlanks(s) == Encode(x)
    ensures Decode(flags, s).bytes == x && (Decode(flags, s).success <==> !(flags.pad == PadYes && BlankTail(s)))
  {
    hide Decode, Encode, WithoutBlanks, BlankTail;
    WhiteDecoding(flags, s);
    RoundTrip(flags, x);
  }

  // ------------------------------------------------------------ what the two exact modes make of any text

  /** Strict decoding gets past sextets, and decoding over white space past that too. */
  predicate Passes(parse: Parse, c: octet) { InAlphabet(c) || (parse == ParseWhite && IsBlank(c)) }

  /** The sextets at the front of a text, and what follows them. */
  function Body(parse: Parse, s: seq<octet>): (r: (seq<octet>, seq<octet>))
    ensures |r.1| <= |s| && (r.1 == [] || !Passes(parse, r.1[0]))
  {
    if s == [] || !Passes(parse, s[0]) then ([], s)
    else
      var r := Body(parse, s[1..]);
      (if InAlphabet(s[0]) then [DecodeTable(s[0])] + r.0 else r.0, r.1)
  }

  function AfterBlanks(parse: Parse, s: seq<octet>): (t: seq<octet>)
    ensures |t| <= |s|
  {
    if s != [] && parse == ParseWhite && IsBlank(s[0]) then AfterBlanks(parse, s[1..]) else s
  }

  /** So many pads, and what follows them; or they are not there. */
  datatype Padding = Complete(rest: seq<octet>) | Incomplete

  function Pads(parse: Parse, n: nat, s: seq<octet>): (r: Padding)
    decreases |s|
  {
    if n == 0 then Complete(AfterBlanks(parse, s))
    else if AfterBlanks(parse, s) == [] || AfterBlanks(parse, s)[0] != PAD_CHAR then Incomplete
    else Pads(parse, n - 1, AfterBlanks(parse, s)[1..])
  }

  /** The pads that belong to a text with these sextets at its front, if they may be there and are. */
  function PaddingOf(flags: Flags, v: seq<octet>, after: seq<octet>): Padding {
    if flags.pad != PadNo && |v| % 4 >= 2 then Pads(flags.parse, 4 - |v| % 4, after) else Incomplete
  }

  /** The text ends with its last sextet. */
  predicate EndsExactly(s: seq<octet>, after: seq<octet>) { after == [] && (s == [] || InAlphabet(s[|s| - 1])) }

  /** What decoding means for a whole text, where nothing is ignored but perhaps white space: the octets of the
      sextets at its front; success, if no bits are left over (where that matters), padding that is demanded is
      there, and nothing is left (where that matters); and what is left, behind the sextets or behind their pads. */
  function Expected(flags: Flags, s: seq<octet>): Decoded {
    var (v, after) := Body(flags.parse, s);
    var padding := PaddingOf(flags, v, after);
    var rest := if padding.Complete? then padding.rest else after;
    Decoded(AllOctets(v),
            && (flags.term == TermAny || UnusedBits(v[|v| - |v| % 4..]) == 0)
            && (flags.pad == PadYes ==> padding.Complete? || (|v| % 4 == 0 && EndsExactly(s, after)))
            && (flags.term == TermBuffer ==> rest == []),
            rest)
  }

  lemma OneTaken(q: seq<octet>, c: octet, w: seq<octet>)
    requires |q| < 4
    ensures q + ([c] + w) == (q + [c]) + w
    ensures |w| >= 3 - |q| ==>
              q + ([c] + w)[..4 - |q|] == (q + [c]) + w[..3 - |q|] && ([c] + w)[4 - |q|..] == w[3 - |q|..]
  {
    if |w| >= 3 - |q| { assert ([c] + w)[..4 - |q|] == [c] + w[..3 - |q|]; }
  }

  /** Scanning over the sextets at the front. */
  lemma {:induction false} ScanOfBody(parse: Parse, illegalPads: bool, q: seq<octet>, atPad: seq<octet>, s: seq<octet>)
    returns (rest: seq<octet>)
    requires parse != ParseAny && |q| < 4
    ensures var (v, after) := Body(parse, s); var n := 4 - |q|;
            if |v| < n then ScanFrom(parse, illegalPads, q, 0, atPad, s) == ScanFrom(parse, illegalPads, q + v, 0, atPad, after)
            else && ScanFrom(parse, illegalPads, q, 0, atPad, s) == Scan(q + v[..n], 0, atPad, rest)
                 && Body(parse, rest) == (v[n..], after) && Behind(s, rest)
    decreases |s|
  {
    hide DecodeTable, ScanFrom, Behind, ActionOn;
    var (v, after) := Body(parse, s);
    rest := [];
    if s == [] || !Passes(parse, s[0]) {
      assert q + [] == q;
    } else {
      BodyStep(parse, illegalPads, q, atPad, s);
      if InAlphabet(s[0]) {
        var longer, w := q + [DecodeTable(s[0])], Body(parse, s[1..]).0;
        OneTaken(q, DecodeTable(s[0]), w);
        if |longer| == 4 {
          ScanEnd(parse, illegalPads, longer, 0, atPad, s[1..]);
          rest := s[1..];
          JustBehind(s);
        } else {
          rest := ScanOfBody(parse, illegalPads, longer, atPad, s[1..]);
          if |w| >= 4 - |longer| { FurtherBehind(s, rest); }
        }
      } else {
        rest := ScanOfBody(parse, illegalPads, q, atPad, s[1..]);
        if |v| >= 4 - |q| { FurtherBehind(s, rest); }
      }
    }
  }

  lemma BodyStep(parse: Parse, illegalPads: bool, q: seq<octet>, atPad: seq<octet>, s: seq<octet>)
    requires |q| < 4 && s != [] && Passes(parse, s[0])
    ensures ScanFrom(parse, illegalPads, q, 0, atPad, s)
         == ScanFrom(parse, illegalPads, if InAlphabet(s[0]) then q + [DecodeTable(s[0])] else q, 0, atPad, s[1..])
  {
    hide DecodeTable, ScanFrom;
    TablesInverse(0, s[0]);
    ScanOnce(parse, illegalPads, q, 0, atPad, s);
  }

  /** rest is what follows some sextet of s. */
  predicate Behind(s: seq<octet>, rest: seq<octet>) {
    |rest| < |s| && rest == s[|s| - |rest|..] && InAlphabet(s[|s| - |rest| - 1])
  }

  lemma JustBehind(s: seq<octet>)
    requires s != [] && InAlphabet(s[0])
    ensures Behind(s, s[1..])
  {}

  lemma FurtherBehind(s: seq<octet>, rest: seq<octet>)
    requires s != [] && Behind(s[1..], rest)
    ensures Behind(s, rest)
  {
    assert s[1..][|s| - 1 - |rest|..] == s[|s| - |rest|..];
  }

  lemma StillExact(s: seq<octet>, rest: seq<octet>, after: seq<octet>)
    requires Behind(s, rest)
    ensures EndsExactly(s, after) <==> EndsExactly(rest, after)
  {}

  /** Scanning on from the pads of a quantum: they are counted as far as they are wanted, and nothing gets past. */
  lemma {:induction false} ScanOnPads(parse: Parse, q: seq<octet>, pads: nat, atPad: seq<octet>, s: seq<octet>)
    requires parse != ParseAny && 2 <= |q| < 4 && |q| + pads <= 4
    requires pads == 0 ==> s == [] || !Passes(parse, s[0])
    ensures var r := ScanFrom(parse, false, q, pads, atPad, s); var padding := Pads(parse, 4 - |q| - pads, s);
            && r.q == q && pads <= r.pads
            && (if padding.Complete? then |q| + r.pads == 4 && r.rest == padding.rest
                else && |q| + r.pads < 4 && (r.pads == 0 ==> r.rest == s)
                     && (r.pads > 0 ==> r.atPad == if pads > 0 then atPad else s))
    decreases |s|
  {
    hide DecodeTable, ScanFrom;
    PadsOnce(parse, 4 - |q| - pads, s);
    if s == [] {
      ScanEnd(parse, false, q, pads, atPad, s);
    } else {
      TablesInverse(0, s[0]);
      TablesInverse(0, PAD_CHAR);
      ScanOnce(parse, false, q, pads, atPad, s);
      if parse == ParseWhite && IsBlank(s[0]) {
        ScanOnPads(parse, q, pads, atPad, s[1..]);
      } else if s[0] == PAD_CHAR && |q| + pads < 4 {
        ScanOnPads(parse, q, pads + 1, if pads == 0 then s else atPad, s[1..]);
      }
    }
  }

  lemma PadsOnce(parse: Parse, n: nat, s: seq<octet>)
    ensures Pads(parse, n, s)
         == if s == [] then if n == 0 then Complete([]) else Incomplete
            else if parse == ParseWhite && IsBlank(s[0]) then Pads(parse, n, s[1..])
            else if n == 0 then Complete(s)
            else if s[0] == PAD_CHAR then Pads(parse, n - 1, s[1..])
            else Incomplete
  {
    hide DecodeTable;
  }

  /** The first quantum of a text. */
  lemma FirstQuantum(flags: Flags, s: seq<octet>) returns (rest: seq<octet>)
    requires flags.parse != ParseAny
    ensures var (v, after) := Body(flags.parse, s); var padding := PaddingOf(flags, v, after); var r := NextQuantum(flags, s);
            if |v| < 4 then r == Quantum(v, padding.Complete?, if padding.Complete? then padding.rest else after)
            else r.q == v[..4] && r.rest == rest && Body(flags.parse, rest) == (v[4..], after) && Behind(s, rest)
  {
    hide DecodeTable, ScanFrom, Body, Pads, Behind;
    var illegalPads := flags.pad == PadNo;
    var (v, after) := Body(flags.parse, s);
    rest := ScanOfBody(flags.parse, illegalPads, [], [], s);
    assert [] + v == v;
    if |v| >= 4 {
      assert [] + v[..4] == v[..4];
    } else if !illegalPads && |v| >= 2 {
      ScanOnPads(flags.parse, v, 0, [], after);
    } else if after == [] {
      ScanEnd(flags.parse, illegalPads, v, 0, [], after);
    } else {
      StopsThere(flags.parse, illegalPads, v, after);
    }
  }

  lemma StopsThere(parse: Parse, illegalPads: bool, q: seq<octet>, s: seq<octet>)
    requires parse != ParseAny && |q| < 4 && (illegalPads || |q| < 2) && s != [] && !Passes(parse, s[0])
    ensures ScanFrom(parse, illegalPads, q, 0, [], s) == Scan(q, 0, [], s)
  {
    hide DecodeTable, ScanFrom;
    TablesInverse(0, s[0]);
    ScanOnce(parse, illegalPads, q, 0, [], s);
  }

  /** Strict decoding, and decoding over white space, of any text under any flags is exactly that. */
  lemma {:induction false} DecodingIsExpected(flags: Flags, s: seq<octet>)
    requires flags.parse != ParseAny
    ensures Decode(flags, s) == Expected(flags, s)
    decreases |s|
  {
    hide Octets, UnusedBits, Decode, NextQuantum, Body, Pads, AllOctets;
    var (v, after) := Body(flags.parse, s);
    FewOctets(v);
    if s == [] {
      EmptyQuantum(flags);
      NoBody(flags.parse);
    } else {
      DecodeOnce(flags, s);
      var rest := FirstQuantum(flags, s);
      if |v| < 4 {
        assert v[|v| - |v| % 4..] == v;
        if InAlphabet(s[|s| - 1]) && after == [] { LastIsSextet(flags.parse, s); }
      } else {
        DecodingIsExpected(flags, rest);
        StillExact(s, rest, after);
        var w := v[4..];
        assert w[|w| - |w| % 4..] == v[|v| - |v| % 4..];
      }
    }
  }

  lemma {:induction false} LastIsSextet(parse: Parse, s: seq<octet>)
    requires s != [] && Body(parse, s).1 == [] && InAlphabet(s[|s| - 1])
    ensures Body(parse, s).0 != []
    decreases |s|
  {
    hide DecodeTable;
    if |s| == 1 {
    } else {
      assert s[1..][|s| - 2] == s[|s| - 1];
      LastIsSextet(parse, s[1..]);
    }
  }

  lemma NoBody(parse: Parse)
    ensures Body(parse, []) == ([], [])
  {}
}
