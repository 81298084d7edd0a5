/** diskcache.cc: what the limit check can do, and when it evicts the entry that is being locked. */
module DiskCacheLimit {
  import opened DiskCaching
  import opened DiskCacheSizes

  predicate AllDeletes(ops: seq<Op>) { forall i :: 0 <= i < |ops| ==> ops[i].Delete? }

  predicate SomeIdle(c: Cache) { exists id :: id in c.entries && Idle(c.entries[id]) }

  /** The resource is idle and all its files can be deleted. */
  predicate Succeeds(c: Cache, op: Op)
    requires op.Delete?
  {
    op.id in c.entries && Idle(c.entries[op.id]) && op.undeletable == {}
  }

  /** What CheckLimit may do and return: while the total is over the limit and something is idle it
      deletes some resource, and gives up if that fails. */
  predicate Limits(c: Cache, max: nat, ops: seq<Op>, ok: bool)
    decreases |ops|
  {
    if c.totalSize <= max then ops == [] && ok
    else if !SomeIdle(c) then ops == [] && !ok
    else
      && ops != [] && ops[0].Delete? && ops[0].id in c.entries
      && if Succeeds(c, ops[0]) then Limits(Next(c, ops[0]), max, ops[1..], ok) else ops[1..] == [] && !ok
  }

  /** The successful part of such a check. */
  predicate LimitsSoFar(c: Cache, max: nat, ops: seq<Op>)
    decreases |ops|
  {
    ops == [] || (c.totalSize > max && SomeIdle(c) && ops[0].Delete? && Succeeds(c, ops[0]) && LimitsSoFar(Next(c, ops[0]), max, ops[1..]))
  }

  lemma {:induction false} LimitsGoesOn(c: Cache, max: nat, ops: seq<Op>, more: seq<Op>, ok: bool)
    requires LimitsSoFar(c, max, ops) && Limits(Run(c, ops), max, more, ok)
    ensures Limits(c, max, ops + more, ok)
    decreases |ops|
  {
    hide Next;
    if ops == [] {
      assert ops + more == more;
    } else {
      LimitsGoesOn(Next(c, ops[0]), max, ops[1..], more, ok);
      assert (ops + more)[1..] == ops[1..] + more;
    }
  }

  lemma {:induction false} LimitsOneMore(c: Cache, max: nat, ops: seq<Op>, op: Op)
    requires LimitsSoFar(c, max, ops)
    requires var d := Run(c, ops); d.totalSize > max && SomeIdle(d) && op.Delete? && Succeeds(d, op)
    ensures LimitsSoFar(c, max, ops + [op]) && Run(c, ops + [op]) == Next(Run(c, ops), op)
    decreases |ops|
  {
    hide Next;
    RunAppend(c, ops, [op]);
    RunOne(Run(c, ops), op);
    if ops == [] {
      assert ops + [op] == [op] && [op][1..] == [];
    } else {
      LimitsOneMore(Next(c, ops[0]), max, ops[1..], op);
      assert (ops + [op])[1..] == ops[1..] + [op];
    }
  }

  lemma {:induction false} LimitsDeletes(c: Cache, max: nat, ops: seq<Op>, ok: bool)
    requires Limits(c, max, ops, ok)
    ensures AllDeletes(ops) && (ok ==> Run(c, ops).totalSize <= max)
    decreases |ops|
  {
    hide Next;
    if ops == [] {
    } else {
      if Succeeds(c, ops[0]) { LimitsDeletes(Next(c, ops[0]), max, ops[1..], ok); }
      assert ops == [ops[0]] + ops[1..];
    }
  }

  /** Deleting resources leaves the entries that remain as they were, and never brings one back. */
  lemma {:induction false} DeletesKeepEntries(c: Cache, ops: seq<Op>, id: string)
    requires AllDeletes(ops)
    ensures var c' := Run(c, ops);
            && c'.open == c.open
            && (id in c'.entries ==> id in c.entries && c'.entries[id] == c.entries[id])
            && (id in c.entries && id !in c'.entries ==> Idle(c.entries[id]))
    decreases |ops|
  {
    if ops == [] {
    } else {
      assert ops[0].Delete?;
      assert forall i :: 0 <= i < |ops[1..]| ==> ops[1..][i] == ops[i + 1];
      DeletesKeepEntries(Next(c, ops[0]), ops[1..], id);
    }
  }

  // ------------------------------------------------------------ when a check can succeed

  const BUSY := (e: Entry) => if Idle(e) then 0 else e.size as int

  /** The size of everything that cannot be deleted now. */
  ghost function BusySize(c: Cache): int { Sum(c.entries, BUSY) }

  lemma {:induction false} BusyAtMost(entries: map<string, Entry>)
    ensures Sum(entries, BUSY) <= Sum(entries, SIZE)
    ensures (forall id :: id in entries ==> !Idle(entries[id])) ==> Sum(entries, BUSY) == Sum(entries, SIZE)
  {
    if entries == map[] {
    } else {
      var id :| id in entries;
      SumWithout(entries, id, BUSY);
      SumWithout(entries, id, SIZE);
      BusyAtMost(entries - {id});
    }
  }

  lemma DeleteKeepsBusy(c: Cache, id: string)
    requires id in c.entries && Idle(c.entries[id])
    ensures BusySize(Next(c, Delete(id, {}))) == BusySize(c)
  {
    SumWithout(c.entries, id, BUSY);
  }

  lemma {:induction false} SuccessNeedsRoom(c: Cache, max: nat, ops: seq<Op>)
    requires Inv(c) && Limits(c, max, ops, true)
    ensures BusySize(c) <= max
    decreases |ops|
  {
    hide Next, Sum;
    BusyAtMost(c.entries);
    if ops == [] {
    } else {
      var op := ops[0];
      DeleteKeepsBusy(c, op.id);
      assert op == Delete(op.id, {});
      StepKeepsInv(c, op);
      SuccessNeedsRoom(Next(c, op), max, ops[1..]);
    }
  }

  lemma {:induction false} RoomAllowsSuccess(c: Cache, max: nat) returns (ops: seq<Op>)
    requires Inv(c) && BusySize(c) <= max
    ensures Limits(c, max, ops, true)
    decreases |c.entries|
  {
    hide Sum, Inv, Next, BusySize;
    if c.totalSize <= max {
      ops := [];
    } else {
      var id := IdleIfOver(c, max);
      var op := Delete(id, {});
      DeleteKeepsBusy(c, id);
      DeleteShrinks(c, id);
      StepKeepsInv(c, op);
      ops := RoomAllowsSuccess(Next(c, op), max);
      assert ([op] + ops)[1..] == ops;
      ops := [op] + ops;
    }
  }

  /** Over the limit although what is in use fits: then something is idle. */
  lemma IdleIfOver(c: Cache, max: nat) returns (id: string)
    requires Inv(c) && BusySize(c) <= max < c.totalSize
    ensures id in c.entries && Idle(c.entries[id])
  {
    hide Sum, AllGuarded;
    BusyAtMost(c.entries);
    id :| id in c.entries && Idle(c.entries[id]);
  }

  lemma DeleteShrinks(c: Cache, id: string)
    requires id in c.entries && Idle(c.entries[id])
    ensures |Next(c, Delete(id, {})).entries| < |c.entries|
  {}

  /** The limit check can succeed if and only if what is in use fits by itself. */
  lemma LimitCanBeMetIff(c: Cache, max: nat)
    requires Inv(c)
    ensures (exists ops :: Limits(c, max, ops, true)) <==> BusySize(c) <= max
  {
    if BusySize(c) <= max {
      var ops := RoomAllowsSuccess(c, max);
    }
    forall ops | Limits(c, max, ops, true)
      ensures BusySize(c) <= max
    {
      SuccessNeedsRoom(c, max, ops);
    }
  }

  // ------------------------------------------------------------ the entry that is being locked

  /** The check made by LockResource ends well and has evicted the very entry being locked. */
  predicate EvictsItself(c: Cache, id: string, max: nat, ops: seq<Op>) {
    var created := Next(c, Create(id));
    Limits(created, max, ops, true) && id !in Run(created, ops).entries
  }

  /** A caller can tell beforehand: the cache is over its limit, the resource is not in use, and what
      is in use fits. */
  ghost predicate MayGoStale(c: Cache, id: string, max: nat) {
    c.totalSize > max && Idle(Found(c, id)) && BusySize(c) <= max
  }

  lemma CreateKeepsBusy(c: Cache, id: string)
    requires Inv(c)
    ensures Inv(Next(c, Create(id))) && BusySize(Next(c, Create(id))) == BusySize(c)
  {
    LockKeepsInv(c, id);
    SumUpdated(c.entries, id, Found(c, id), BUSY);
  }

  /** Locking can write through the pointer to an evicted entry exactly then. An entry in use, or being
      unlocked, is safe; so is every entry within the limit. */
  lemma StaleLockIff(c: Cache, id: string, max: nat)
    requires Inv(c)
    ensures (exists ops :: EvictsItself(c, id, max, ops)) <==> MayGoStale(c, id, max)
  {
    hide Inv, Next, Sum;
    var created := Next(c, Create(id));
    CreateKeepsBusy(c, id);
    CreateFinds(c, id);
    forall ops | EvictsItself(c, id, max, ops)
      ensures MayGoStale(c, id, max)
    {
      SuccessNeedsRoom(created, max, ops);
      LimitsDeletes(created, max, ops, true);
      DeletesKeepEntries(created, ops, id);
    }
    if MayGoStale(c, id, max) {
      var op := Delete(id, {});
      DeleteKeepsBusy(created, id);
      StepKeepsInv(created, op);
      var ops := RoomAllowsSuccess(Next(created, op), max);
      LimitsDeletes(Next(created, op), max, ops, true);
      DeleteErases(created, id);
      DeletesKeepEntries(Next(created, op), ops, id);
      assert ([op] + ops)[1..] == ops;
      assert EvictsItself(c, id, max, [op] + ops);
    }
  }

  lemma CreateFinds(c: Cache, id: string)
    ensures var created := Next(c, Create(id));
            id in created.entries && created.entries[id] == Found(c, id) && created.totalSize == c.totalSize
  {}

  lemma DeleteErases(c: Cache, id: string)
    requires id in c.entries && Idle(c.entries[id])
    ensures id !in Next(c, Delete(id, {})).entries
  {}

  /** And such a state is reached by careful users: one resource stored and idle, another one locked and
      written, within a limit of 5 each but not together. */
  function Stored(id: string, size: nat): seq<Op> {
    [Lock(id), Write(id, 0, true), Grow(id, 0, size), Release(id, Handle(0, true))]
  }

  lemma StaleLockIsReachable()
    ensures var c := Run(Empty(map[]), Stored("a", 3) + [Unlock("a")] + Stored("b", 4));
            Inv(c) && MayGoStale(c, "a", 5)
  {
    hide Next, Inv, Sum;
    var c0 := Empty(map[]);
    var c1 := Run(c0, Stored("a", 3));
    var c2 := Run(c1, [Unlock("a")]);
    var c3 := Run(c2, Stored("b", 4));
    RunAppend(c0, Stored("a", 3) + [Unlock("a")], Stored("b", 4));
    RunAppend(c0, Stored("a", 3), [Unlock("a")]);
    EmptyIsSound(map[]);
    RunKeepsInv(c0, Stored("a", 3) + [Unlock("a")] + Stored("b", 4));
    StoredResult(c0, "a", 3);
    RunOne(c1, Unlock("a"));
    Unlocking(c1, "a");
    assert "a"[0] != "b"[0];
    StoredLeavesOthers(c0, "a", 3, "b");
    assert c2.OpenOn("b") == c1.OpenOn("b") && c2.FileSize("b", 0) == c1.FileSize("b", 0);
    StoredResult(c2, "b", 4);
    var ea := Entry(Unlocked, 0, 3, 1);
    assert c2.entries == map[]["a" := ea];
    SumUpdated(map[], "a", ea, BUSY);
    SumUpdated(c2.entries, "b", Entry(Locked, 0, 4, 1), BUSY);
    NoSum(BUSY);
  }

  lemma NoSum(f: Entry -> int)
    ensures Sum(map[], f) == 0
  {}

  lemma Unlocking(c: Cache, id: string)
    requires id in c.entries && c.entries[id].lockState == Locked && c.entries[id].accessors == 0
    ensures Next(c, Unlock(id)) == c.WithEntry(id, c.entries[id].(lockState := Unlocked))
  {}

  /** A resource that was not there, stored. */
  lemma StoredResult(c: Cache, id: string, size: nat)
    requires id !in c.entries && c.OpenOn(id) == multiset{} && c.FileSize(id, 0) == 0
    ensures var c' := Run(c, Stored(id, size));
            c'.entries == c.entries[id := Entry(Locked, 0, size, 1)] && c'.totalSize == c.totalSize + size
  {
    hide Next;
    var h := Handle(0, true);
    RunFour(c, Lock(id), Write(id, 0, true), Grow(id, 0, size), Release(id, h));
    var a := c.WithEntry(id, Entry(Locked, 0, 0, 0));
    NewlyLocked(c, id);
    NewlyWritten(a, id);
    var b := Next(a, Write(id, 0, true));
    NewlyGrown(b, id, size);
    NewlyReleased(Next(b, Grow(id, 0, size)), id, size);
  }

  lemma NewlyLocked(c: Cache, id: string)
    requires id !in c.entries
    ensures Next(c, Lock(id)) == c.WithEntry(id, Entry(Locked, 0, 0, 0))
  {}

  lemma NewlyWritten(c: Cache, id: string)
    requires id in c.entries && c.entries[id] == Entry(Locked, 0, 0, 0) && c.OpenOn(id) == multiset{} && c.FileSize(id, 0) == 0
    ensures var c' := Next(c, Write(id, 0, true));
            && c'.entries == c.entries[id := Entry(Locked, 1, 0, 1)] && c'.totalSize == c.totalSize
            && c'.OpenOn(id) == multiset{Handle(0, true)} && c'.FileSize(id, 0) == 0
  {}

  lemma NewlyGrown(c: Cache, id: string, size: nat)
    requires c.BeingWritten(id, 0) && c.FileSize(id, 0) == 0
    ensures var c' := Next(c, Grow(id, 0, size));
            && c'.entries == c.entries && c'.totalSize == c.totalSize && c'.OpenOn(id) == c.OpenOn(id) && c'.FileSize(id, 0) == size
  {}

  lemma NewlyReleased(c: Cache, id: string, size: nat)
    requires id in c.entries && c.entries[id] == Entry(Locked, 1, 0, 1)
    requires c.OpenOn(id) == multiset{Handle(0, true)} && c.FileSize(id, 0) == size
    ensures var c' := Next(c, Release(id, Handle(0, true)));
            c'.entries == c.entries[id := Entry(Locked, 0, size, 1)] && c'.totalSize == c.totalSize + size
  {}

  lemma StoredLeavesOthers(c: Cache, id: string, size: nat, other: string)
    requires other != id
    ensures var c' := Run(c, Stored(id, size)); c'.OpenOn(other) == c.OpenOn(other) && c'.FileSize(other, 0) == c.FileSize(other, 0)
  {
    hide Next, Cache.OpenOn, Cache.FileSize;
    var h := Handle(0, true);
    RunFour(c, Lock(id), Write(id, 0, true), Grow(id, 0, size), Release(id, h));
    var a := Next(c, Lock(id));
    var b := Next(a, Write(id, 0, true));
    var d := Next(b, Grow(id, 0, size));
    OtherEntrySame(c, Lock(id), other);
    OtherEntrySame(a, Write(id, 0, true), other);
    OtherEntrySame(b, Grow(id, 0, size), other);
    OtherEntrySame(d, Release(id, h), other);
    OtherFileSame(c, Lock(id), other, 0);
    OtherFileSame(a, Write(id, 0, true), other, 0);
    OtherFileSame(b, Grow(id, 0, size), other, 0);
    OtherFileSame(d, Release(id, h), other, 0);
  }
}
