/** client/rosterhandler.cc: cutting a long status message without splitting a UTF-8 character. */
module StatusText {
  import opened ByteOrder
  import opened Sequences

  const LIMIT: nat := 300

  // ------------------------------------------------------------ UTF-8, section 4 of RFC 3629

  predicate Tail(b: byte) { 0x80 <= b <= 0xBF }

  /** The length of the character at the front, or 0 if there is no well-formed one. */
  function FrontLength(s: seq<byte>): (n: nat)
    ensures n <= |s| && n <= 4
  {
    if s == [] then 0
    else if s[0] <= 0x7F then 1
    else if |s| >= 2 && 0xC2 <= s[0] <= 0xDF && Tail(s[1]) then 2
    else if |s| >= 3 && SecondOfThree(s[0], s[1]) && Tail(s[2]) then 3
    else if |s| >= 4 && SecondOfFour(s[0], s[1]) && Tail(s[2]) && Tail(s[3]) then 4
    else 0
  }

  predicate SecondOfThree(a: byte, b: byte) {
    if a == 0xE0 then 0xA0 <= b <= 0xBF
    else if a == 0xED then 0x80 <= b <= 0x9F
    else 0xE1 <= a <= 0xEF && Tail(b)
  }

  predicate SecondOfFour(a: byte, b: byte) {
    if a == 0xF0 then 0x90 <= b <= 0xBF
    else if a == 0xF4 then 0x80 <= b <= 0x8F
    else 0xF1 <= a <= 0xF3 && Tail(b)
  }

  predicate ValidUtf8(s: seq<byte>)
    decreases |s|
  {
    s == [] || (FrontLength(s) > 0 && ValidUtf8(s[FrontLength(s)..]))
  }

  // ------------------------------------------------------------ character boundaries

  /** The bytes taken for the first of a character, more than start one in well-formed text; the
      cast to unsigned char wraps. */
  predicate IsUtf8FirstByte(c: byte): (first: bool)
    ensures first <==> c <= 0x7F || 0xC0 <= c <= 0xFD
  {
    c < 0x80 || (c as int - 0xC0) % 0x100 < 0x3E
  }

  lemma FrontBytes(s: seq<byte>)
    requires FrontLength(s) > 0
    ensures IsUtf8FirstByte(s[0])
    ensures forall i :: 0 < i < FrontLength(s) ==> !IsUtf8FirstByte(s[i])
  {}

  /** A character is recognised by its own bytes alone, and no shorter text has it at its front. */
  lemma FrontOfPrefix(s: seq<byte>, k: nat)
    requires FrontLength(s) > 0 && k <= |s|
    ensures FrontLength(s[..k]) == if k < FrontLength(s) then 0 else FrontLength(s)
  {}

  /** In well-formed text, a cut leaves a well-formed prefix if and only if it is made before a first
      byte, and then the rest is well formed too. */
  lemma {:induction false} CutBeforeFirstByte(s: seq<byte>, k: nat)
    requires ValidUtf8(s) && k < |s|
    ensures ValidUtf8(s[..k]) <==> IsUtf8FirstByte(s[k])
    ensures IsUtf8FirstByte(s[k]) ==> ValidUtf8(s[k..])
    decreases |s|
  {
    hide IsUtf8FirstByte, FrontLength;
    var n := FrontLength(s);
    FrontBytes(s);
    if k > 0 { FrontOfPrefix(s, k); }
    if k >= n {
      CutBeforeFirstByte(s[n..], k - n);
      assert s[..k][n..] == s[n..][..k - n];
      SuffixOfSuffix(s, n, k - n);
    } else if k == 0 {
      assert s[0..] == s;
    }
  }

  /** No four bytes in a row are without a first byte. */
  lemma {:induction false} FirstByteIsNear(s: seq<byte>, k: nat) returns (j: nat)
    requires ValidUtf8(s) && k < |s|
    ensures j <= k <= j + 3 && IsUtf8FirstByte(s[j])
    decreases |s|
  {
    var n := FrontLength(s);
    FrontBytes(s);
    if k < n {
      j := 0;
    } else {
      j := FirstByteIsNear(s[n..], k - n);
      j := j + n;
    }
  }

  // ------------------------------------------------------------ the truncation

  /** A status of at most 300 bytes is kept. Of a longer one, the longest prefix of at most 300 bytes
      that is whole characters is kept: at least 297 bytes, and what is cut off is whole too. Text that
      is not UTF-8 is cut before the last first byte there is, or completely. */
  method Truncated(status: seq<byte>) returns (kept: seq<byte>)
    ensures |status| <= 300 ==> kept == status
    ensures |status| > 300 ==>
              && |kept| <= 300 && kept == status[..|kept|]
              && (kept == [] || IsUtf8FirstByte(status[|kept|]))
              && forall k :: |kept| < k <= 300 ==> !IsUtf8FirstByte(status[k])
    ensures |status| > 300 && ValidUtf8(status) ==>
              && ValidUtf8(kept) && ValidUtf8(status[|kept|..]) && 297 <= |kept|
              && forall k :: |kept| < k <= 300 ==> !ValidUtf8(status[..k])
  {
    kept := status;
    if |status| > LIMIT {
      var len: nat := LIMIT;
      while !IsUtf8FirstByte(status[len]) && len > 0
        invariant len <= LIMIT
        invariant forall k :: len < k <= LIMIT ==> !IsUtf8FirstByte(status[k])
      {
        len := len - 1;
      }
      kept := status[..len];
      if ValidUtf8(status) { LongestWhole(status, len); }
    }
  }

  lemma LongestWhole(s: seq<byte>, len: nat)
    requires ValidUtf8(s) && len <= LIMIT < |s|
    requires len == 0 || IsUtf8FirstByte(s[len])
    requires forall k :: len < k <= LIMIT ==> !IsUtf8FirstByte(s[k])
    ensures ValidUtf8(s[..len]) && ValidUtf8(s[len..]) && LIMIT - 3 <= len
    ensures forall k :: len < k <= LIMIT ==> !ValidUtf8(s[..k])
  {
    hide IsUtf8FirstByte, FrontLength;
    var j := FirstByteIsNear(s, LIMIT);
    CutBeforeFirstByte(s, len);
    forall k | len < k <= LIMIT
      ensures !ValidUtf8(s[..k])
    {
      CutBeforeFirstByte(s, k);
    }
  }
}
