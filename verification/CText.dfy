/** The C library text routines the HTTP and URL code relies on: isspace, strchr,
    _strnicmp, strtoul and the "%.*x" / "%hu" conversions of sprintf. */
module CText {
  import opened Arithmetic

  datatype Option<+T> = None | Some(value: T)

  // unsigned long is 32 bits wide on the armv7 target.
  const ULONG_MAX: nat := 0xFFFF_FFFF

  predicate IsSpace(c: char) {
    c == ' ' || c == '\t' || c == '\n' || c == '\U{0B}' || c == '\U{0C}' || c == '\r'
  }

  /** strchrn: the offset of the first c, or |s| when there is none. */
  function IndexOf(s: string, c: char): (i: nat)
    ensures i <= |s|
    ensures forall j :: 0 <= j < i ==> s[j] != c
    ensures i < |s| ==> s[i] == c
  {
    if s == [] || s[0] == c then 0 else 1 + IndexOf(s[1..], c)
  }

  lemma IndexOfUnique(s: string, c: char, i: nat)
    requires i <= |s|
    requires forall j :: 0 <= j < i ==> s[j] != c
    requires i < |s| ==> s[i] == c
    ensures IndexOf(s, c) == i
  {
  }

  /** s without its trailing white space. */
  function TrimRight(s: string): (t: string)
    ensures t <= s
    ensures t == [] || !IsSpace(t[|t| - 1])
    ensures forall i :: |t| <= i < |s| ==> IsSpace(s[i])
  {
    if s != [] && IsSpace(s[|s| - 1]) then TrimRight(s[..|s| - 1]) else s
  }

  lemma {:induction false} TrimRightUnique(s: string, n: nat)
    requires n <= |s|
    requires n == 0 || !IsSpace(s[n - 1])
    requires forall i :: n <= i < |s| ==> IsSpace(s[i])
    ensures TrimRight(s) == s[..n]
  {
    if n == |s| {
    } else {
      TrimRightUnique(s[..|s| - 1], n);
      assert s[..|s| - 1][..n] == s[..n];
    }
  }

  /** The number of leading white-space characters. */
  function LeadingSpaces(s: string): (n: nat)
    ensures n <= |s|
    ensures forall i :: 0 <= i < n ==> IsSpace(s[i])
    ensures n < |s| ==> !IsSpace(s[n])
  {
    if s != [] && IsSpace(s[0]) then 1 + LeadingSpaces(s[1..]) else 0
  }

  lemma LeadingSpacesUnique(s: string, n: nat)
    requires n <= |s|
    requires forall i :: 0 <= i < n ==> IsSpace(s[i])
    requires n < |s| ==> !IsSpace(s[n])
    ensures LeadingSpaces(s) == n
  {}

  function ToLower(c: char): char {
    if 'A' <= c <= 'Z' then c - 'A' + 'a' else c
  }

  /** _strnicmp(a, b, n) == 0 for two texts of the same known length. */
  predicate EqualsIgnoreCase(a: string, b: string) { Lower(a) == Lower(b) }

  function Lower(s: string): (t: string)
    ensures |t| == |s|
  {
    seq(|s|, i requires 0 <= i < |s| => ToLower(s[i]))
  }

  // ------------------------------------------------------------ numbers

  type Base = b: nat | b == 10 || b == 16 witness 10

  function DigitOf(c: char): (d: nat)
    ensures d <= 16
  {
    if '0' <= c <= '9' then (c - '0') as nat
    else if 'a' <= c <= 'f' then (c - 'a') as nat + 10
    else if 'A' <= c <= 'F' then (c - 'A') as nat + 10
    else 16
  }

  predicate IsDigit(c: char, base: Base) { DigitOf(c) < base }

  function DigitChar(d: nat): (c: char)
    requires d < 16
    ensures DigitOf(c) == d && !IsSpace(c)
    ensures c != '+' && c != '-' && c != 'x' && c != 'X' && c != '\n'
    ensures d < 10 ==> '0' <= c <= '9'
  {
    if d < 10 then '0' + d as char else 'a' + (d - 10) as char
  }

  /** The length of the longest prefix made of digits. */
  function DigitRun(s: string, base: Base): (n: nat)
    ensures n <= |s|
    ensures forall i :: 0 <= i < n ==> IsDigit(s[i], base)
    ensures n < |s| ==> !IsDigit(s[n], base)
  {
    if s != [] && IsDigit(s[0], base) then 1 + DigitRun(s[1..], base) else 0
  }

  function DigitValue(s: string, base: Base): nat
    requires forall i :: 0 <= i < |s| ==> IsDigit(s[i], base)
  {
    if s == [] then 0 else DigitValue(s[..|s| - 1], base) * base + DigitOf(s[|s| - 1])
  }

  /** What strtoul returns and how many characters it used (0 when it found no number). */
  datatype Scanned = Scanned(value: nat, used: nat)

  function Strtoul(s: string, base: Base): (r: Scanned)
    ensures r.value <= ULONG_MAX && r.used <= |s|
  {
    var blanks := LeadingSpaces(s);
    var minus := blanks < |s| && s[blanks] == '-';
    var sign := if blanks < |s| && (s[blanks] == '-' || s[blanks] == '+') then 1 else 0;
    var afterSign := blanks + sign;
    var prefix := if base == 16 && afterSign + 2 < |s| && s[afterSign] == '0'
                     && (s[afterSign + 1] == 'x' || s[afterSign + 1] == 'X')
                     && IsDigit(s[afterSign + 2], 16) then 2 else 0;
    var start := afterSign + prefix;
    var n := DigitRun(s[start..], base);
    if n == 0 then Scanned(0, 0)
    else
      var v := DigitValue(s[start..][..n], base);
      var value := if v > ULONG_MAX then ULONG_MAX
                   else if minus && v > 0 then ULONG_MAX + 1 - v
                   else v;
      Scanned(value, start + n)
  }

  /** sscanf(s, "%u"): the number at the front of s, if there is one. */
  function ScanUnsigned(s: string): (r: Option<nat>)
    ensures r.Some? ==> r.value <= ULONG_MAX
  {
    var t := Strtoul(s, 10);
    if t.used == 0 then None else Some(t.value)
  }

  // ------------------------------------------------------------ printing

  function Power(base: Base, k: nat): (p: nat)
    ensures p > 0
  {
    if k == 0 then 1 else base * Power(base, k - 1)
  }

  /** The k low digits of n, most significant first: "%.*x" when n fits. */
  function FixedDigits(n: nat, k: nat, base: Base): (s: string)
    ensures |s| == k
    ensures forall i :: 0 <= i < k ==> IsDigit(s[i], base) && !IsSpace(s[i])
                                       && s[i] !in "+-xX\n"
  {
    if k == 0 then [] else FixedDigits(n / base, k - 1, base) + [DigitChar(n % base)]
  }

  lemma QuotientBelow(n: nat, base: Base, bound: nat)
    requires n < base * bound
    ensures n / base < bound && n == n / base * base + n % base
  {
    if base == 10 {} else {}
  }

  lemma {:induction false} FixedDigitsValue(n: nat, k: nat, base: Base)
    requires n < Power(base, k)
    ensures DigitValue(FixedDigits(n, k, base), base) == n
  {
    if k == 0 {
    } else {
      QuotientBelow(n, base, Power(base, k - 1));
      FixedDigitsValue(n / base, k - 1, base);
      var s := FixedDigits(n, k, base);
      assert s[..|s| - 1] == FixedDigits(n / base, k - 1, base);
    }
  }

  /** "%hu": n in decimal without leading zeros. */
  function Decimal(n: nat): (s: string)
    ensures |s| > 0
    ensures forall i :: 0 <= i < |s| ==> '0' <= s[i] <= '9'
  {
    if n < 10 then [DigitChar(n)] else Decimal(n / 10) + [DigitChar(n % 10)]
  }

  lemma {:induction false} DecimalValue(n: nat)
    ensures DigitValue(Decimal(n), 10) == n
  {
    if n < 10 {
      var s := Decimal(n);
      assert s[..|s| - 1] == [];
      assert DigitValue(s[..|s| - 1], 10) == 0;
    } else {
      DecimalValue(n / 10);
      var s := Decimal(n);
      assert s[..|s| - 1] == Decimal(n / 10);
    }
  }

  /** strtoul reads back a run of digits that is followed by nothing, and uses all of it. */
  lemma StrtoulOfDigits(s: string, base: Base)
    requires s != []
    requires forall i :: 0 <= i < |s| ==> IsDigit(s[i], base) && !IsSpace(s[i]) && s[i] !in "+-xX\n"
    ensures DigitValue(s, base) <= ULONG_MAX ==>
              Strtoul(s, base) == Scanned(DigitValue(s, base), |s|)
  {
    assert LeadingSpaces(s) == 0 by { assert !IsSpace(s[0]); }
    assert s[0] != '+' && s[0] != '-' by { assert s[0] !in "+-xX\n"; }
    if |s| > 2 { assert s[1] != 'x' && s[1] != 'X' by { assert s[1] !in "+-xX\n"; } }
    assert s[0..] == s;
    assert DigitRun(s, base) == |s|;
    assert s[..|s|] == s;
  }

  predicate Digits(s: string) { forall i :: 0 <= i < |s| ==> IsDigit(s[i], 10) }

  lemma {:induction false} DigitRunIs(digits: string, tail: string)
    requires Digits(digits) && (tail == "" || !IsDigit(tail[0], 10))
    ensures DigitRun(digits + tail, 10) == |digits|
  {
    if digits == "" {
      assert "" + tail == tail;
    } else {
      assert (digits + tail)[1..] == digits[1..] + tail;
      DigitRunIs(digits[1..], tail);
    }
  }

  lemma BlanksAre(blanks: string, rest: string)
    requires (forall i :: 0 <= i < |blanks| ==> IsSpace(blanks[i])) && (rest == "" || !IsSpace(rest[0]))
    ensures LeadingSpaces(blanks + rest) == |blanks| && (blanks + rest)[|blanks|..] == rest
  {
    LeadingSpacesUnique(blanks + rest, |blanks|);
  }

  /** Where the digits of a decimal number start. */
  function SignEnd(s: string): (j: nat)
    ensures j <= |s|
  {
    var i := LeadingSpaces(s);
    if i < |s| && (s[i] == '+' || s[i] == '-') then i + 1 else i
  }

  lemma StrtoulInTen(s: string)
    ensures var j := SignEnd(s); var n := DigitRun(s[j..], 10);
            Strtoul(s, 10)
            == if n == 0 then Scanned(0, 0)
               else
                 var v := DigitValue(s[j..][..n], 10);
                 Scanned(if v > ULONG_MAX then ULONG_MAX else if s[LeadingSpaces(s)] == '-' && v > 0 then ULONG_MAX + 1 - v else v, j + n)
  {
    hide DigitValue, LeadingSpaces, DigitRun, IsDigit;
  }

  lemma SignEndIs(blanks: string, sign: string, rest: string)
    requires forall i :: 0 <= i < |blanks| ==> IsSpace(blanks[i])
    requires (sign == "" || sign == "+" || sign == "-") && rest != "" && IsDigit(rest[0], 10)
    ensures var s := blanks + (sign + rest);
            && SignEnd(s) == |blanks| + |sign| && s[SignEnd(s)..] == rest
            && LeadingSpaces(s) == |blanks| && (s[|blanks|] == '-' <==> sign == "-")
  {
    hide LeadingSpaces;
    TenDigits(rest[0]);
    assert sign == "" ==> sign + rest == rest;
    BlanksAre(blanks, sign + rest);
  }

  /** What sscanf makes of the number in a text: white space, a sign or none, the digits, and whatever follows. */
  lemma ScanUnsignedReads(blanks: string, sign: string, digits: string, tail: string)
    requires forall i :: 0 <= i < |blanks| ==> IsSpace(blanks[i])
    requires (sign == "" || sign == "+" || sign == "-") && digits != "" && Digits(digits)
    requires tail == "" || !IsDigit(tail[0], 10)
    ensures var v := DigitValue(digits, 10);
            ScanUnsigned(blanks + (sign + (digits + tail)))
            == Some(if v > 0xFFFF_FFFF then 0xFFFF_FFFF else if sign == "-" && v > 0 then 0x1_0000_0000 - v else v)
  {
    hide DigitValue, LeadingSpaces, DigitRun, IsDigit, IsSpace, Strtoul, SignEnd;
    SignEndIs(blanks, sign, digits + tail);
    DigitRunIs(digits, tail);
    StrtoulInTen(blanks + (sign + (digits + tail)));
    assert (digits + tail)[..|digits|] == digits;
  }

  /** It finds none if and only if no digit follows the white space and the sign. */
  lemma ScanUnsignedRefusesIff(s: string)
    ensures var j := SignEnd(s); ScanUnsigned(s) == None <==> j == |s| || !('0' <= s[j] <= '9')
  {
    hide DigitValue, Strtoul, SignEnd;
    var j := SignEnd(s);
    StrtoulInTen(s);
    if j < |s| {
      assert s[j..][0] == s[j];
      TenDigits(s[j]);
    }
  }

  lemma TenDigits(c: char)
    ensures IsDigit(c, 10) <==> '0' <= c <= '9'
    ensures IsDigit(c, 10) ==> !IsSpace(c)
  {}

  /** A number printed in decimal is read back. */
  lemma DecimalReadsBack(n: nat)
    requires n <= ULONG_MAX
    ensures ScanUnsigned(Decimal(n)) == Some(n)
  {
    hide DigitValue, Decimal, IsDigit, ScanUnsigned;
    var digits := Decimal(n);
    forall i | 0 <= i < |digits| ensures IsDigit(digits[i], 10) { TenDigits(digits[i]); }
    DecimalValue(n);
    ScanUnsignedReads("", "", digits, "");
    assert "" + ("" + (digits + "")) == digits;
  }

  /** Each of the padded digits is the one it should be, the most significant first. */
  lemma {:induction false} FixedDigitAt(n: nat, k: nat, base: Base, i: nat)
    requires i < k
    ensures FixedDigits(n, k, base)[i] == "0123456789abcdef"[n / Power(base, k - 1 - i) % base]
    decreases k
  {
    if i == k - 1 {
      HexChar(n % base);
      assert Power(base, 0) == 1 && n / 1 == n;
    } else {
      FixedDigitAt(n / base, k - 1, base, i);
      DivideTwice(n, base, Power(base, k - 2 - i));
    }
  }

  lemma HexChar(d: nat)
    requires d < 16
    ensures DigitChar(d) == "0123456789abcdef"[d]
  {}
}
