/** The answers of the streams the HTTP engine reads from and writes to. A stream answers by an
    arbitrary script, so what the engine does can be said exactly, for every script. */
module Streams {

  /** An answer to a read: so many characters at most, nothing yet, the end, or a failure. */
  datatype Reading = Delivers(most: nat) | NothingYet | Ends | Fails(code: int)

  /** An answer to a write: so many characters at most, not now, or a failure. */
  datatype Writing = Accepts(most: nat) | Refuses | Breaks(code: int)

  predicate NeverFails(readings: seq<Reading>) { forall i :: 0 <= i < |readings| ==> !readings[i].Fails? }

  /** No failure comes without an error code. */
  predicate NoSilentFailure(readings: seq<Reading>) { forall i :: 0 <= i < |readings| ==> readings[i] != Fails(0) }

  lemma NoneSilentLeft(script: seq<Reading>, left: seq<Reading>)
    requires LeftOf(script, left) && NoSilentFailure(script)
    ensures NoSilentFailure(left) && !LastUsed(script, left, Fails(0))
  {}

  predicate NeverBreaks(writings: seq<Writing>) { forall i :: 0 <= i < |writings| ==> !writings[i].Breaks? }

  function Rest<T>(answers: seq<T>): seq<T> { if answers == [] then [] else answers[1..] }

  /** The last answer of a script to have been used when these are left. */
  predicate LastUsed<T(==)>(script: seq<T>, left: seq<T>, answer: T) {
    |left| < |script| && left == script[|script| - |left|..] && script[|script| - |left| - 1] == answer
  }

  /** What is left of a script. */
  predicate LeftOf<T(==)>(script: seq<T>, left: seq<T>) { |left| <= |script| && left == script[|script| - |left|..] }

  lemma LastUsedEarlier<T>(script: seq<T>, middle: seq<T>, left: seq<T>)
    requires LeftOf(script, middle) && LeftOf(middle, left)
    ensures LeftOf(script, left)
    ensures forall answer :: LastUsed(middle, left, answer) ==> LastUsed(script, left, answer)
  {}

  lemma RestIsLeft<T>(script: seq<T>)
    ensures LeftOf(script, Rest(script)) && LeftOf(script, script)
    ensures script != [] ==> LastUsed(script, Rest(script), script[0])
  {
    assert script[0..] == script;
  }

  /** At least one character, and no more than there is room for. */
  function Share(most: nat, room: nat): (n: nat)
    requires room > 0
    ensures 0 < n <= room
  {
    if most == 0 then 1 else if most < room then most else room
  }

  /** A network with this much to come answers a read for n characters. It ends only once everything has
      been delivered; when its script has run out it delivers whatever there is. */
  function Delivery(readings: seq<Reading>, incoming: string, n: nat): (r: Reading)
    requires n > 0
    ensures r.Delivers? ==> 0 < r.most <= n && r.most <= |incoming|
    ensures r.Ends? ==> incoming == ""
  {
    var next := if readings == [] then Delivers(n) else readings[0];
    if next.Delivers? && incoming != "" then Delivers(Share(next.most, if n < |incoming| then n else |incoming|))
    else if next.Fails? || (next.Ends? && incoming == "") then next
    else NothingYet
  }

  /** A document with this much to hand out answers likewise, but it ends of itself once it is handed out. */
  function Supply(readings: seq<Reading>, remaining: string, n: nat): (r: Reading)
    requires n > 0
    ensures r.Delivers? ==> 0 < r.most <= n && r.most <= |remaining|
    ensures r.Ends? ==> remaining == ""
    ensures r.NothingYet? || r.Fails? ==> readings != []
    ensures r.Fails? ==> !NeverFails(readings)
    ensures r.Fails? ==> r == readings[0]
  {
    if remaining == "" && (readings == [] || readings[0].Delivers?) then Ends
    else Delivery(readings, remaining, n)
  }

  /** A transport answers a write of n characters; when its script has run out it takes them all. */
  function Acceptance(writings: seq<Writing>, n: nat): (w: Writing)
    requires n > 0
    ensures w.Accepts? ==> 0 < w.most <= n
    ensures !w.Accepts? ==> writings != []
    ensures w.Breaks? ==> !NeverBreaks(writings)
    ensures w.Breaks? ==> w == writings[0]
  {
    var next := if writings == [] then Accepts(n) else writings[0];
    if next.Accepts? then Accepts(Share(next.most, n)) else next
  }

  /** A socket answers an offer of n bytes, or a request for n: how many it takes or gives, or zero or an error.
      When its script has run out it takes or gives them all. */
  function Answer(script: seq<int>, n: nat): (res: int)
    ensures res <= n
  {
    var next := if script == [] then n else script[0];
    if next > n then n else next
  }

  function Amount(res: int): nat { if res > 0 then res else 0 }
}
