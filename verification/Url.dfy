/** httpcommon-inl.h: taking an http or https URL apart and printing it again. */
module Urls {
  import opened ByteOrder
  import opened CText
  import opened Sequences

  const HTTP_DEFAULT_PORT: nat := 80
  const HTTP_SECURE_PORT: nat := 443

  datatype Parts = Parts(host: string, port: uint16, secure: bool, path: string, query: string)

  function HttpDefaultPort(secure: bool): uint16 { if secure then HTTP_SECURE_PORT else HTTP_DEFAULT_PORT }

  const CLEARED := Parts("", HTTP_DEFAULT_PORT, false, "/", "")

  // ------------------------------------------------------------ parsing

  predicate StartsWith(s: string, scheme: string) {
    |s| >= |scheme| && EqualsIgnoreCase(s[..|scheme|], scheme)
  }

  /** What follows a user:password@ prefix, up to the first @. */
  function AfterUser(address: string): string {
    var at := IndexOf(address, '@');
    if at < |address| then address[at + 1..] else address
  }

  function ParseAddress(address: string, secure: bool): (r: (string, uint16)) {
    var a := AfterUser(address);
    var colon := IndexOf(a, ':');
    if colon < |a| then (a[..colon], Strtoul(a[colon + 1..], 10).value % 0x1_0000)
    else (a, HttpDefaultPort(secure))
  }

  function ParseFullPath(fullPath: string): (string, string) {
    var mark := IndexOf(fullPath, '?');
    (if mark == 0 then "/" else fullPath[..mark], fullPath[mark..])
  }

  function ParseRest(rest: string, secure: bool): Parts {
    var slash := IndexOf(rest, '/');
    var (host, port) := ParseAddress(rest[..slash], secure);
    var (path, query) := ParseFullPath(rest[slash..]);
    Parts(host, port, secure, path, query)
  }

  function Parse(url: string): Parts {
    if StartsWith(url, "http://") then ParseRest(url[7..], false)
    else if StartsWith(url, "https://") then ParseRest(url[8..], true)
    else CLEARED
  }

  // ------------------------------------------------------------ printing

  function PrintAddress(u: Parts): string {
    u.host + if u.port != HttpDefaultPort(u.secure) then ":" + Decimal(u.port) else ""
  }

  function Print(u: Parts): string {
    (if u.secure then "https://" else "http://") + PrintAddress(u) + (u.path + u.query)
  }

  // ------------------------------------------------------------ what comes out of the parser

  predicate PathAndQuery(u: Parts) {
    && u.path != "" && u.path[0] == '/' && '?' !in u.path
    && (u.query == "" || u.query[0] == '?')
  }

  /** Every URL the parser produces is like this, whatever it was given. */
  predicate Parsed(u: Parts) { '/' !in u.host && ':' !in u.host && PathAndQuery(u) }

  lemma NotBefore(s: string, c: char)
    ensures c !in s[..IndexOf(s, c)]
    ensures IndexOf(s, c) == |s| <==> c !in s
  {}

  lemma AddressIsParsed(address: string, secure: bool)
    requires '/' !in address
    ensures '/' !in ParseAddress(address, secure).0 && ':' !in ParseAddress(address, secure).0
    ensures |ParseAddress(address, secure).0| <= |address|
    ensures '@' in address ==> |ParseAddress(address, secure).0| < |address|
  {
    NotBefore(address, '@');
    NotBefore(AfterUser(address), ':');
  }

  lemma ParseIsParsed(url: string)
    ensures Parsed(Parse(url))
  {
    forall rest: string, secure: bool
      ensures Parsed(ParseRest(rest, secure))
    {
      var slash := IndexOf(rest, '/');
      NotBefore(rest, '/');
      AddressIsParsed(rest[..slash], secure);
      NotBefore(rest[slash..], '?');
    }
  }

  // ------------------------------------------------------------ the round trip

  lemma IndexInJoin(a: string, b: string, c: char)
    requires c !in a && (b == "" || b[0] == c)
    ensures IndexOf(a + b, c) == |a| && (a + b)[..|a|] == a && (a + b)[|a|..] == b
  {
    IndexOfUnique(a + b, c, |a|);
  }

  lemma DigitsAreHarmless(n: nat, c: char)
    requires c == '/' || c == '@' || c == ':'
    ensures c !in Decimal(n)
  {}

  lemma DecimalDigit(c: char)
    requires '0' <= c <= '9'
    ensures IsDigit(c, 10) && !IsSpace(c) && c !in "+-xX\n"
  {}

  lemma DecimalPort(n: uint16)
    ensures Strtoul(Decimal(n), 10).value == n
  {
    hide Strtoul, Decimal, DigitValue, IsDigit, IsSpace;
    var s := Decimal(n);
    forall i | 0 <= i < |s|
      ensures IsDigit(s[i], 10) && !IsSpace(s[i]) && s[i] !in "+-xX\n"
    {
      DecimalDigit(s[i]);
    }
    DecimalValue(n);
    StrtoulOfDigits(s, 10);
  }

  lemma NoUser(a: string)
    requires '@' !in a
    ensures AfterUser(a) == a
  {
    NotBefore(a, '@');
  }

  lemma NoAtPrinted(u: Parts)
    requires '@' !in u.host
    ensures '@' !in PrintAddress(u)
  {
    hide Decimal;
    DigitsAreHarmless(u.port, '@');
  }

  lemma AddressReadsBack(u: Parts)
    requires '@' !in u.host && ':' !in u.host
    ensures ParseAddress(PrintAddress(u), u.secure) == (u.host, u.port)
  {
    hide Strtoul, Decimal, AfterUser, IndexOf;
    NoAtPrinted(u);
    NoUser(PrintAddress(u));
    DecimalPort(u.port);
    HostAndPort(u.host, Decimal(u.port));
  }

  lemma HostAndPort(host: string, digits: string)
    requires ':' !in host
    ensures IndexOf(host + (":" + digits), ':') == |host|
    ensures (host + (":" + digits))[..|host|] == host && (host + (":" + digits))[|host| + 1..] == digits
    ensures IndexOf(host + "", ':') == |host + ""| && host + "" == host
  {
    IndexInJoin(host, ":" + digits, ':');
    IndexInJoin(host, "", ':');
  }

  lemma FullPathReadsBack(u: Parts)
    requires PathAndQuery(u)
    ensures ParseFullPath(u.path + u.query) == (u.path, u.query)
  {
    IndexInJoin(u.path, u.query, '?');
  }

  lemma RestReadsBack(u: Parts)
    requires PathAndQuery(u) && '/' !in u.host
    ensures var r := ParseRest(PrintAddress(u) + (u.path + u.query), u.secure);
            && (r.host, r.port) == ParseAddress(PrintAddress(u), u.secure)
            && r.secure == u.secure && r.path == u.path && r.query == u.query
  {
    hide Decimal, ParseAddress;
    DigitsAreHarmless(u.port, '/');
    IndexInJoin(PrintAddress(u), u.path + u.query, '/');
    FullPathReadsBack(u);
  }

  lemma SchemeReadsBack(secure: bool, rest: string)
    ensures Parse((if secure then "https://" else "http://") + rest) == ParseRest(rest, secure)
  {
    hide ParseRest;
    var url := (if secure then "https://" else "http://") + rest;
    if secure {
      assert url[..8] == "https://" && url[8..] == rest;
      assert Lower(url[..7])[4] == 's' && Lower("http://")[4] == ':';
    } else {
      assert url[..7] == "http://" && url[7..] == rest;
    }
  }

  /** Printing and parsing again gives the URL back if and only if its host has no /, @ or :, its
      path starts with / and has no ?, and its query is empty or starts with ?. */
  lemma PrintThenParse(u: Parts)
    ensures Parse(Print(u)) == u <==> Parsed(u) && '@' !in u.host
  {
    hide Parse, Print, ParseRest, ParseAddress, PrintAddress, AfterUser;
    var rest := PrintAddress(u) + (u.path + u.query);
    PrintIsSchemeAndRest(u);
    SchemeReadsBack(u.secure, rest);
    ParseIsParsed(Print(u));
    if Parsed(u) {
      RestReadsBack(u);
      if '@' !in u.host { AddressReadsBack(u); } else { UserIsCutOff(u); }
    }
  }

  lemma PrintIsSchemeAndRest(u: Parts)
    ensures Print(u) == (if u.secure then "https://" else "http://") + (PrintAddress(u) + (u.path + u.query))
  {
    Assoc(if u.secure then "https://" else "http://", PrintAddress(u), u.path + u.query);
  }

  /** What is left of a host with an @ in it: what stands before the first @ is taken for a user name,
      and what stands after it is cut at a colon. */
  function AfterCut(host: string): string {
    var t := AfterUser(host);
    t[..IndexOf(t, ':')]
  }

  lemma UserIsCutOff(u: Parts)
    requires '@' in u.host
    ensures ParseAddress(PrintAddress(u), u.secure).0 == AfterCut(u.host)
    ensures |AfterCut(u.host)| < |u.host|
  {
    hide Strtoul, Decimal, AfterUser, IndexOf;
    CutThenPort(u.host, if u.port != HttpDefaultPort(u.secure) then ":" + Decimal(u.port) else "");
  }

  lemma CutThenPort(host: string, port: string)
    requires '@' in host && (port == "" || port[0] == ':')
    ensures var t := AfterUser(host + port); t[..IndexOf(t, ':')] == AfterCut(host)
    ensures |AfterCut(host)| < |host|
  {
    var at := IndexOf(host, '@');
    NotBefore(host, '@');
    IndexOfUnique(host + port, '@', at);
    var t := host[at + 1..];
    assert (host + port)[at + 1..] == t + port;
    assert AfterUser(host + port) == t + port && AfterUser(host) == t;
    hide AfterUser;
    HostBeforePort(t, port);
  }

  lemma HostBeforePort(t: string, port: string)
    requires port == "" || port[0] == ':'
    ensures IndexOf(t + port, ':') == IndexOf(t, ':') && (t + port)[..IndexOf(t, ':')] == t[..IndexOf(t, ':')]
  {
    IndexOfUnique(t + port, ':', IndexOf(t, ':'));
  }

  /** The address of a URL text: what stands between the scheme and the first slash. */
  function AddressOf(url: string): string {
    var rest := if StartsWith(url, "http://") then url[7..] else if StartsWith(url, "https://") then url[8..] else "";
    rest[..IndexOf(rest, '/')]
  }

  /** There is another @ after the first, and no colon between the two. */
  predicate TwoAts(a: string) {
    exists i: nat, j: nat :: i < j < |a| && a[i] == '@' == a[j] && '@' !in a[..i] && ':' !in a[i + 1..j]
  }

  lemma TwoAtsCut(a: string, i: nat, j: nat)
    requires i < j < |a| && a[i] == '@' == a[j] && '@' !in a[..i] && ':' !in a[i + 1..j]
    ensures '@' in AfterCut(a)
  {
    hide IndexOf;
    assert forall k :: 0 <= k < i ==> a[k] == a[..i][k] != '@';
    IndexOfUnique(a, '@', i);
    var t, k := AfterUser(a), j - i - 1;
    assert t == a[i + 1..] && t[k] == '@' && t[..k] == a[i + 1..j];
    var colon := IndexOf(t, ':');
    assert forall n :: 0 <= n < k ==> t[n] == t[..k][n] != ':';
    assert k < colon;
    assert t[..colon][k] == '@';
  }

  lemma AtAfterUser(a: string)
    requires '@' in AfterUser(a)
    ensures var i := IndexOf(a, '@'); i < |a| && a[i] == '@' && '@' !in a[..i] && AfterUser(a) == a[i + 1..]
  {
    NotBefore(a, '@');
  }

  lemma TheseTwoAts(a: string, i: nat, t: string, k: nat)
    requires i < |a| && a[i] == '@' && '@' !in a[..i] && t == a[i + 1..]
    requires k < |t| && t[k] == '@' && ':' !in t[..k]
    ensures TwoAts(a)
  {
    var j := i + 1 + k;
    assert a[i + 1..j] == t[..k] && a[j] == '@';
  }

  lemma CutHasTwoAts(a: string)
    requires '@' in AfterCut(a)
    ensures TwoAts(a)
  {
    hide TwoAts, AfterUser, IndexOf;
    var t := AfterUser(a);
    var colon := IndexOf(t, ':');
    var k :| 0 <= k < colon && t[..colon][k] == '@';
    AtAfterUser(a);
    PrefixOfPrefix(t, colon, k);
    TheseTwoAts(a, IndexOf(a, '@'), t, k);
  }

  /** The parsed host keeps an @ if and only if the text's address has another one after the first, with no
      colon between them. */
  lemma HostKeepsAtIff(url: string)
    ensures '@' in Parse(url).host <==> TwoAts(AddressOf(url))
  {
    hide Strtoul, EqualsIgnoreCase, AfterUser;
    var a := AddressOf(url);
    if !StartsWith(url, "http://") && !StartsWith(url, "https://") { assert a == ""; }
    if TwoAts(a) {
      var i: nat, j: nat :| i < j < |a| && a[i] == '@' == a[j] && '@' !in a[..i] && ':' !in a[i + 1..j];
      TwoAtsCut(a, i, j);
    }
    if '@' in AfterCut(a) { CutHasTwoAts(a); }
    HostIsAfterCut(url);
  }

  lemma HostIsAfterCut(url: string)
    ensures Parse(url).host == AfterCut(AddressOf(url))
  {
    hide Strtoul, EqualsIgnoreCase;
    if !StartsWith(url, "http://") && !StartsWith(url, "https://") { assert AddressOf(url) == ""; }
  }

  /** Whatever text was parsed, printing the result and parsing that changes nothing more, unless the
      address has two @ signs with no colon between them: then one of them stays in the host. */
  lemma ReparseIsStable(url: string)
    ensures Parse(Print(Parse(url))) == Parse(url) <==> '@' !in Parse(url).host
    ensures Parse(Print(Parse(url))) == Parse(url) <==> !TwoAts(AddressOf(url))
  {
    hide Parse, Print;
    ParseIsParsed(url);
    PrintThenParse(Parse(url));
    HostKeepsAtIff(url);
  }

  /** Such a text. */
  lemma TwoAtSigns()
    ensures var u := Parse("http://a@b@c/"); u.host == "b@c" && Parse(Print(u)).host == "c"
  {
    hide Parse, ParseRest, PrintAddress, AfterUser, Print;
    var u := Parse("http://a@b@c/");
    assert "http://" + "a@b@c/" == "http://a@b@c/";
    SchemeReadsBack(false, "a@b@c/");
    FirstParse();
    ParseIsParsed("http://a@b@c/");
    PrintIsSchemeAndRest(u);
    SchemeReadsBack(u.secure, PrintAddress(u) + (u.path + u.query));
    RestReadsBack(u);
    UserIsCutOff(u);
    SecondCut();
  }

  lemma FirstParse()
    ensures ParseRest("a@b@c/", false).host == "b@c"
  {
    hide Strtoul;
    IndexOfUnique("a@b@c/", '/', 5);
    assert "a@b@c/"[..5] == "a@b@c";
    IndexOfUnique("a@b@c", '@', 1);
    assert "a@b@c"[2..] == "b@c";
    IndexOfUnique("b@c", ':', 3);
  }

  lemma SecondCut()
    ensures AfterCut("b@c") == "c"
  {
    IndexOfUnique("b@c", '@', 1);
    assert "b@c"[2..] == "c";
    IndexOfUnique("c", ':', 1);
  }

  /** The port is left out of the printed URL if and only if it is the one the scheme stands for. */
  lemma PortLeftOutIff(u: Parts)
    ensures Print(u) == (if u.secure then "https://" else "http://") + u.host + (u.path + u.query)
       <==> u.port == if u.secure then 443 else 80
  {
    var rest := u.path + u.query;
    var front := (if u.secure then "https://" else "http://") + u.host;
    if u.port == HttpDefaultPort(u.secure) {
      assert u.host + "" == u.host;
    } else {
      assert |Print(u)| == |front| + |":" + Decimal(u.port)| + |rest|;
    }
  }

  // ------------------------------------------------------------ any URL text

  /** A user part to skip: nothing, or anything up to an @. */
  predicate UserPart(user: string) {
    user == "" || ('/' !in user && user[|user| - 1] == '@' && '@' !in user[..|user| - 1])
  }

  /** A port to read: nothing, or a colon, digits, and what is ignored. */
  datatype PortText = NoPort | Port(digits: string, ignored: string)
  {
    predicate Valid() {
      Port? ==> digits != "" && Digits(digits) && '/' !in digits && '@' !in digits && '/' !in ignored && '@' !in ignored
                && (ignored == "" || !IsDigit(ignored[0], 10))
    }

    function Text(): string { if Port? then ":" + (digits + ignored) else "" }

    /** The number, as strtoul and the cast to 16 bits have it. */
    function Number(secure: bool): uint16
      requires Valid()
    {
      if NoPort? then if secure then 443 else 80
      else (if DigitValue(digits, 10) > 0xFFFF_FFFF then 0xFFFF_FFFF else DigitValue(digits, 10)) % 0x1_0000
    }
  }

  lemma StrtoulOfPort(digits: string, ignored: string)
    requires digits != "" && Digits(digits) && (ignored == "" || !IsDigit(ignored[0], 10))
    ensures Strtoul(digits + ignored, 10).value
         == if DigitValue(digits, 10) > 0xFFFF_FFFF then 0xFFFF_FFFF else DigitValue(digits, 10)
  {
    hide DigitValue, LeadingSpaces, DigitRun, IsDigit, IsSpace, Strtoul, SignEnd;
    var s := digits + ignored;
    assert "" + ("" + s) == s;
    SignEndIs("", "", s);
    DigitRunIs(digits, ignored);
    StrtoulInTen(s);
    assert s[0..] == s && s[..|digits|] == digits;
  }

  lemma UserIsSkipped(user: string, rest: string)
    requires UserPart(user) && (user == "" ==> '@' !in rest)
    ensures AfterUser(user + rest) == rest
  {
    hide IndexOf;
    if user == "" {
      assert user + rest == rest;
      NoUser(rest);
    } else {
      var at := |user| - 1;
      assert forall i :: 0 <= i < at ==> (user + rest)[i] == user[..at][i];
      IndexOfUnique(user + rest, '@', at);
      assert (user + rest)[at + 1..] == rest;
    }
  }

  lemma AddressTakenApart(user: string, host: string, port: PortText, secure: bool)
    requires UserPart(user) && port.Valid() && ':' !in host && (user == "" ==> '@' !in host)
    ensures ParseAddress(user + (host + port.Text()), secure) == (host, port.Number(secure))
  {
    hide Strtoul, AfterUser, IndexOf, DigitValue, IsDigit;
    if user == "" && port.Port? { assert '@' !in port.Text(); }
    UserIsSkipped(user, host + port.Text());
    IndexInJoin(host, port.Text(), ':');
    if port.Port? {
      StrtoulOfPort(port.digits, port.ignored);
      assert (host + port.Text())[|host| + 1..] == port.digits + port.ignored;
    } else {
      assert host + "" == host;
    }
  }

  predicate IsScheme(scheme: string, secure: bool) { EqualsIgnoreCase(scheme, if secure then "https://" else "http://") }

  lemma SchemeTaken(scheme: string, secure: bool, rest: string)
    requires IsScheme(scheme, secure)
    ensures Parse(scheme + rest) == ParseRest(rest, secure)
  {
    hide ParseRest;
    var url := scheme + rest;
    assert |scheme| == |Lower(scheme)| == if secure then 8 else 7;
    assert url[..|scheme|] == scheme && url[|scheme|..] == rest;
    if secure {
      assert Lower(url[..7])[4] == Lower(scheme)[4] == 's' && Lower("http://")[4] == ':';
    }
  }

  /** The parser takes any URL text apart as it is written: scheme in any letters, user, host, port, path, query. */
  lemma TakenApart(scheme: string, secure: bool, user: string, host: string, port: PortText, path: string, query: string)
    requires IsScheme(scheme, secure) && UserPart(user) && port.Valid()
    requires '/' !in host && ':' !in host && (user == "" ==> '@' !in host)
    requires if path == "" then query == "" else path[0] == '/' && '?' !in path && (query == "" || query[0] == '?')
    ensures Parse(scheme + ((user + (host + port.Text())) + (path + query)))
         == Parts(host, port.Number(secure), secure, if path == "" then "/" else path, query)
  {
    hide Parse, ParseAddress, ParseFullPath, IsScheme, PortText.Number, UserPart, IsDigit;
    var address := user + (host + port.Text());
    SchemeTaken(scheme, secure, address + (path + query));
    AddressTakenApart(user, host, port, secure);
    NoSlash(user, port);
    IndexInJoin(address, path + query, '/');
    PathTaken(path, query);
  }

  lemma NoSlash(user: string, port: PortText)
    requires UserPart(user) && port.Valid()
    ensures '/' !in user && '/' !in port.Text()
  {}

  lemma PathTaken(path: string, query: string)
    requires if path == "" then query == "" else '?' !in path && (query == "" || query[0] == '?')
    ensures ParseFullPath(path + query) == (if path == "" then "/" else path, query)
  {
    IndexInJoin(path, query, '?');
  }

  /** Any other text is cleared to nothing. */
  lemma NoSchemeClears(url: string)
    requires forall k: nat, secure :: k <= |url| ==> !IsScheme(url[..k], secure)
    ensures Parse(url) == Parts("", 80, false, "/", "")
  {
    if |url| >= 7 { assert !IsScheme(url[..7], false); }
    if |url| >= 8 { assert !IsScheme(url[..8], true); }
  }

  // ------------------------------------------------------------ the class

  class Url {
    var host: string
    var path: string
    var query: string
    var port: uint16
    var secure: bool

    function Fields(): Parts
      reads this
    {
      Parts(host, port, secure, path, query)
    }

    constructor (url: string)
      ensures Fields() == Parse(url)
    {
      host, path, query, port, secure := "", "", "", 0, false;
      new;
      SetUrl(url);
    }

    method Clear()
      modifies this
      ensures Fields() == CLEARED
    {
      host, port, secure, path, query := "", HTTP_DEFAULT_PORT, false, "/", "";
    }

    method SetUrl(url: string)
      modifies this
      ensures Fields() == Parse(url)
    {
      hide EqualsIgnoreCase;
      var val := url;
      if StartsWith(val, "http://") {
        val := val[7..];
        secure := false;
      } else if StartsWith(val, "https://") {
        val := val[8..];
        secure := true;
      } else {
        Clear();
        return;
      }
      var path := IndexOf(val, '/');
      SetAddress(val[..path]);
      SetFullPath(val[path..]);
    }

    /** Everything before an @ is skipped. */
    method SetAddress(address: string)
      modifies this`host, this`port
      ensures (host, port) == ParseAddress(address, secure)
    {
      hide Strtoul, IndexOf;
      var val := address;
      var at := IndexOf(val, '@');
      if at < |val| { val := val[at + 1..]; }
      var colon := IndexOf(val, ':');
      if colon < |val| {
        host := val[..colon];
        port := Strtoul(val[colon + 1..], 10).value % 0x1_0000;
      } else {
        host := val;
        port := HttpDefaultPort(secure);
      }
    }

    method SetFullPath(fullPath: string)
      modifies this`path, this`query
      ensures (path, query) == ParseFullPath(fullPath)
    {
      var mark := IndexOf(fullPath, '?');
      path := if mark == 0 then "/" else fullPath[..mark];
      query := fullPath[mark..];
    }

    method GetUrl() returns (val: string)
      ensures val == Print(Fields())
    {
      val := if secure then "https://" else "http://";
      val := val + host;
      if port != HttpDefaultPort(secure) { val := val + (":" + Decimal(port)); }
      val := val + path;
      val := val + query;
      PrintInOrder(Fields());
    }
  }

  lemma PrintInOrder(u: Parts)
    ensures var port := if u.port != HttpDefaultPort(u.secure) then ":" + Decimal(u.port) else "";
            Print(u) == (if u.secure then "https://" else "http://") + u.host + port + u.path + u.query
  {
    hide Decimal;
    var scheme := if u.secure then "https://" else "http://";
    var port := if u.port != HttpDefaultPort(u.secure) then ":" + Decimal(u.port) else "";
    Assoc(scheme, u.host, port);
    Assoc(scheme + PrintAddress(u), u.path, u.query);
  }

  /** Setting a URL to its own printed text leaves it as it was under the same condition, however its
      fields were set. */
  method Refresh(u: Url)
    modifies u
    ensures u.Fields() == old(u.Fields()) <==> Parsed(old(u.Fields())) && '@' !in old(u.host)
  {
    hide Parse, Print, Parsed;
    var text := u.GetUrl();
    PrintThenParse(u.Fields());
    u.SetUrl(text);
  }
}
