/** The DiskCache and CacheLock classes: each call does some steps of the model. */
module DiskCacheClass {
  import opened DiskCaching
  import opened DiskCacheLimit

  datatype LockOutcome = Granted | Refused
    | Stale  // reported as granted: the limit check evicted the very entry being locked

  class DiskCache {
    const maxCache: nat
    var entries: map<string, Entry>
    var totalSize: int
    var totalAccessors: int
    // The folder: the size of each file, by resource and stream number.
    var files: Files
    // The adapters that exist.
    ghost var open: map<string, multiset<Handle>>

    ghost function Model(): Cache
      reads this
    {
      Cache(entries, totalSize, totalAccessors, files, open)
    }

    constructor (maxCache: nat, files: Files)
      ensures Model() == Empty(files) && Inv(Model()) && this.maxCache == maxCache
    {
      this.maxCache := maxCache;
      entries, totalSize, totalAccessors, this.files, open := map[], 0, 0, files, map[];
      EmptyIsSound(files);
    }

    /** Some files cannot be deleted now; stuck says which. */
    method DeleteResource(id: string, stuck: set<(string, nat)>) returns (success: bool, ghost undeletable: set<nat>)
      requires Inv(Model())
      modifies this
      ensures Inv(Model()) && Model() == Next(old(Model()), Delete(id, undeletable))
      ensures success <==> id !in old(entries) || (Idle(old(entries)[id]) && undeletable == {})
      ensures undeletable == if id in old(entries) && Idle(old(entries)[id]) then StuckOf(old(files), id, old(entries)[id].streams, stuck) else {}
      ensures open == old(open) && |entries| <= |old(entries)|
      ensures success && id in old(entries) ==> |entries| < |old(entries)|
    {
      hide Inv, Guarded, StuckOf;
      if id !in entries { return true, {}; }
      if !Idle(entries[id]) { return false, {}; }
      success, undeletable := DeleteFiles(id, entries[id].streams, stuck);
      totalSize := totalSize - entries[id].size;
      entries := entries - {id};
      StepKeepsInv(old(Model()), Delete(id, undeletable));
    }

    method DeleteFiles(id: string, streams: nat, stuck: set<(string, nat)>) returns (success: bool, ghost undeletable: set<nat>)
      modifies this`files
      ensures files == Without(old(files), id, streams, undeletable)
      ensures success <==> undeletable == {}
      ensures undeletable == StuckOf(old(files), id, streams, stuck)
    {
      hide Without, StuckOf;
      success, undeletable := true, {};
      WithoutNone(files, id);
      StuckNone(files, id, stuck);
      var index := 0;
      while index < streams
        invariant index <= streams
        invariant success <==> undeletable == {}
        invariant files == Without(old(files), id, index, undeletable)
        invariant undeletable == StuckOf(old(files), id, index, stuck)
      {
        StuckNext(old(files), id, index, stuck);
        WithoutNext(old(files), id, index, undeletable);
        if (id, index) in files {
          if (id, index) !in stuck {
            files := files - {(id, index)};
          } else {
            success, undeletable := false, undeletable + {index};
          }
        }
        index := index + 1;
      }
    }

    /** Delete idle resources until the total is within the limit, or one cannot be deleted. The scan for
        the oldest may settle on any entry. */
    method CheckLimit(stuck: set<(string, nat)>) returns (ok: bool, ghost ops: seq<Op>)
      requires Inv(Model())
      modifies this
      ensures Inv(Model()) && Model() == Run(old(Model()), ops) && open == old(open)
      ensures Limits(old(Model()), maxCache, ops, ok) && OnlyStuck(ops, stuck)
      ensures ok ==> totalSize <= maxCache && BusySize(old(Model())) <= maxCache
    {
      hide Inv, Next, Run, Limits, LimitsSoFar, BusySize, OnlyStuck, StuckOf;
      ops := [];
      NoneStuck(stuck);
      ghost var start := Model();
      NothingLimited(start, maxCache);
      while totalSize > maxCache
        invariant Inv(Model()) && Model() == Run(start, ops) && LimitsSoFar(start, maxCache, ops) && open == old(open)
        invariant OnlyStuck(ops, stuck)
        decreases |entries|
      {
        ghost var before := Model();
        if !exists id :: id in entries && Idle(entries[id]) {
          LimitsGivesUp(before, maxCache, []);
          LimitsGoesOn(start, maxCache, ops, [], false);
          assert ops + [] == ops;
          return false, ops;
        }
        var victim :| victim in entries;
        var deleted; ghost var undeletable;
        deleted, undeletable := DeleteResource(victim, stuck);
        ghost var op := Delete(victim, undeletable);
        OneMoreStuck(ops, before.files, victim, before.entries[victim].streams, undeletable, stuck);
        if !deleted {
          LimitsGivesUp(before, maxCache, [op]);
          LimitsGoesOn(start, maxCache, ops, [op], false);
          RunAppend(start, ops, [op]);
          RunOne(before, op);
          return false, ops + [op];
        }
        LimitsOneMore(start, maxCache, ops, op);
        ops := ops + [op];
      }
      LimitsMet(Model(), maxCache);
      LimitsGoesOn(start, maxCache, ops, [], true);
      assert ops + [] == ops;
      SuccessNeedsRoom(start, maxCache, ops);
      ok := true;
    }

    /** Locks the resource, creating its entry. Above the limit it first makes room, and that may evict
        the entry it is about to lock; it then writes through a pointer to an entry that is gone. */
    method LockResource(id: string, stuck: set<(string, nat)>) returns (outcome: LockOutcome, ghost checks: seq<Op>)
      requires Inv(Model())
      modifies this
      ensures Inv(Model()) && open == old(open) && OnlyStuck(checks, stuck)
      ensures outcome.Granted? ==> id in entries && entries[id].lockState == Locked && totalSize <= maxCache
      ensures outcome.Stale? ==> MayGoStale(old(Model()), id, maxCache) && id !in entries
      ensures var c := old(Model()); var created := Next(c, Create(id));
              if !Lockable(Found(c, id)) then outcome == Refused && checks == [] && Model() == created
              else if c.totalSize <= maxCache then outcome == Granted && checks == [] && Model() == Next(c, Lock(id))
              else
                && Limits(created, maxCache, checks, outcome != Refused)
                && (outcome != Refused ==> (outcome.Stale? <==> EvictsItself(c, id, maxCache, checks)))
                && Model() == if outcome.Granted? then Next(Run(created, checks), Lock(id)) else Run(created, checks)
    {
      ghost var start := Model();
      hide Inv, Run, Limits, BusySize, MayGoStale, OnlyStuck;
      checks := [];
      NoneStuck(stuck);
      LockKeepsInv(start, id);
      if id !in entries { entries := entries[id := NEW_ENTRY]; }
      ghost var created := Model();
      assert created == Next(start, Create(id));
      if entries[id].lockState == Locked { return Refused, []; }
      if entries[id].lockState == Unlocked && entries[id].accessors > 0 { return Refused, []; }
      if totalSize > maxCache {
        var ok;
        ok, checks := CheckLimit(stuck);
        if !ok { return Refused, checks; }
        if id !in entries {
          assert EvictsItself(start, id, maxCache, checks);
          StaleLockIff(start, id, maxCache);
          return Stale, checks;
        }
        LimitsDeletes(created, maxCache, checks, true);
        DeletesKeepEntries(created, checks, id);
      }
      ghost var limited := Model();
      LockKeepsInv(limited, id);
      entries := entries[id := entries[id].(lockState := Locked)];
      assert Model() == Next(limited, Lock(id));
      outcome := Granted;
    }

    /** Opens a stream for writing; fileOpens is the answer of the file system. The C++ does not check that the
        resource exists. */
    method WriteResource(id: string, index: nat, fileOpens: bool) returns (ok: bool)
      requires Inv(Model()) && id in entries
      modifies this
      ensures Inv(Model()) && Model() == Next(old(Model()), Write(id, index, fileOpens))
      ensures ok <==> old(entries)[id].lockState == Locked && fileOpens
      ensures ok ==> id in entries && entries[id].lockState == Locked && Model().OpenOn(id) == old(Model().OpenOn(id)) + multiset{Handle(index, true)}
      ensures !ok ==> Model() == old(Model())
    {
      hide Inv, Next, WriteStep;
      ghost var start := Model();
      WriteIsStep(start, id, index);
      if entries[id].lockState != Locked { return false; }
      if !fileOpens { return false; }
      WriteKeepsInv(start, id, index);
      WriteOpens(start, id, index);
      OpenForWriting(id, index);
      ok := true;
    }

    /** What WriteResource does once the file, whose old size it has asked for, is open. */
    method OpenForWriting(id: string, index: nat)
      requires id in entries
      modifies this
      ensures Model() == WriteStep(old(Model()), id, index)
    {
      ghost var start := Model();
      var e := entries[id];
      var previous := if (id, index) in files then files[(id, index)] else 0;
      if previous > e.size { previous := e.size; }
      files := files[(id, index) := 0];
      e := e.(streams := Max(e.streams, index + 1));
      e := e.(size := e.size - previous);
      totalSize := totalSize - previous;
      e := e.(accessors := e.accessors + 1);
      entries := entries[id := e];
      totalAccessors := totalAccessors + 1;
      open := open[id := start.OpenOn(id) + multiset{Handle(index, true)}];
    }

    /** A user writes through a stream it has open. */
    method WriteStream(id: string, index: nat, added: nat)
      requires Inv(Model()) && Model().BeingWritten(id, index)
      modifies this`files
      ensures Inv(Model()) && Model() == Next(old(Model()), Grow(id, index, added))
    {
      hide Inv, Next;
      ghost var start := Model();
      GrowIsStep(start, id, index, added);
      files := files[(id, index) := (if (id, index) in files then files[(id, index)] else 0) + added];
      FilesDoNotMatter(start, Model());
    }

    method UnlockResource(id: string, stuck: set<(string, nat)>) returns (ok: bool, ghost ops: seq<Op>)
      requires Inv(Model()) && id in entries
      modifies this
      ensures Inv(Model()) && Model() == Run(old(Model()), ops)
      ensures ok <==> old(entries)[id].lockState == Locked
      ensures ops != [] && ops[0] == Unlock(id) && AllDeletes(ops[1..]) && OnlyStuck(ops[1..], stuck)
      ensures if !ok || old(entries)[id].accessors > 0 then ops == [Unlock(id)]
              else exists limited :: Limits(Next(old(Model()), Unlock(id)), maxCache, ops[1..], limited)
      ensures open == old(open)
      ensures ok && old(entries)[id].accessors > 0 ==> id in entries
      ensures ok && id in entries ==> entries[id] == old(entries)[id].(lockState := if old(entries)[id].accessors > 0 then Unlocking else Unlocked)
    {
      hide Inv, Run, Limits, OnlyStuck;
      ghost var start := Model();
      NoneStuck(stuck);
      RunOne(start, Unlock(id));
      LockKeepsInv(start, id);
      ops := [Unlock(id)];
      var e := entries[id];
      if e.lockState != Locked { return false, ops; }
      if e.accessors > 0 {
        entries := entries[id := e.(lockState := Unlocking)];
      } else {
        entries := entries[id := e.(lockState := Unlocked)];
        assert Model() == Next(start, Unlock(id));
        var limited; ghost var deletes;
        ghost var unlocked := Model();
        limited, deletes := CheckLimit(stuck);
        LimitsDeletes(unlocked, maxCache, deletes, limited);
        DeletesKeepEntries(unlocked, deletes, id);
        RunAppend(start, ops, deletes);
        ops := ops + deletes;
      }
      ok := true;
    }

    /** Opens a stream for reading: that makes one reader more. */
    method ReadResource(id: string, index: nat, fileOpens: bool) returns (ok: bool)
      requires Inv(Model()) && id in entries
      modifies this
      ensures Inv(Model()) && Model() == Next(old(Model()), Read(id, index, fileOpens && (id, index) in old(files)))
      ensures ok <==> old(entries)[id].lockState == Unlocked && index < old(entries)[id].streams && fileOpens && (id, index) in old(files)
      ensures ok ==> id in entries && entries[id] == old(entries)[id].(accessors := old(entries)[id].accessors + 1)
                     && Model().OpenOn(id) == old(Model().OpenOn(id)) + multiset{Handle(index, false)} && files == old(files)
      ensures !ok ==> Model() == old(Model())
    {
      hide Inv;
      ghost var start := Model();
      var e := entries[id];
      if e.lockState != Unlocked || index >= e.streams { return false; }
      if !fileOpens || (id, index) !in files { return false; }
      entries := entries[id := e.(accessors := e.accessors + 1)];
      totalAccessors := totalAccessors + 1;
      open := open[id := start.OpenOn(id) + multiset{Handle(index, false)}];
      ReadKeepsInv(start, id, index, true);
      return true;
    }

    /** An adapter goes away. Its entry is always there. */
    method ReleaseResource(id: string, ghost handle: Handle, index: nat, stuck: set<(string, nat)>) returns (ghost ops: seq<Op>)
      requires Inv(Model()) && handle in Model().OpenOn(id) && handle.index == index
      modifies this
      ensures Inv(Model()) && Model() == Run(old(Model()), ops)
      ensures id in old(entries)
      ensures ops != [] && ops[0] == Release(id, handle) && AllDeletes(ops[1..]) && OnlyStuck(ops[1..], stuck)
      ensures if old(entries)[id].lockState == Unlocking && old(entries)[id].accessors == 1
              then exists limited :: Limits(Next(old(Model()), Release(id, handle)), maxCache, ops[1..], limited)
              else ops == [Release(id, handle)]
      ensures old(entries)[id].lockState == Locked ==>
                id in entries && entries[id].lockState == Locked && Model().OpenOn(id) == old(Model().OpenOn(id)) - multiset{handle}
      ensures old(entries)[id].lockState == Unlocking && old(entries)[id].accessors == 1 && id in entries ==>
                entries[id].lockState == Unlocked && entries[id].accessors == 0
    {
      ghost var start := Model();
      if id !in entries { assert false; }
      hide Inv, Run, Next, Limits, OnlyStuck;
      NoneStuck(stuck);
      RunOne(start, Release(id, handle));
      ReleaseKeepsInv(start, id, handle);
      var unlocked := Settle(id, handle, index);
      ops := [Release(id, handle)];
      if unlocked {
        var limited; ghost var deletes;
        ghost var settled := Model();
        limited, deletes := CheckLimit(stuck);
        LimitsDeletes(settled, maxCache, deletes, limited);
        DeletesKeepEntries(settled, deletes, id);
        RunAppend(start, ops, deletes);
        ops := ops + deletes;
      }
    }

    /** ReleaseResource up to the limit check, which is due if the last writer has finished the unlocking. */
    method Settle(id: string, ghost handle: Handle, index: nat) returns (unlocked: bool)
      requires id in entries && handle in Model().OpenOn(id) && handle.index == index
      modifies this
      ensures Model() == ReleaseStep(old(Model()), id, handle) == Next(old(Model()), Release(id, handle))
      ensures unlocked <==> old(entries)[id].lockState == Unlocking && old(entries)[id].accessors == 1
    {
      hide Next;
      ghost var start := Model();
      ReleaseIsStep(start, id, handle);
      open := open[id := start.OpenOn(id) - multiset{handle}];
      var e := entries[id];
      e := e.(accessors := e.accessors - 1);
      totalAccessors := totalAccessors - 1;
      unlocked := false;
      if e.lockState != Unlocked {
        var newSize := if (id, index) in files then files[(id, index)] else 0;
        e := e.(size := e.size + newSize);
        totalSize := totalSize + newSize;
        if e.lockState == Unlocking && e.accessors == 0 {
          e := e.(lockState := Unlocked);
          unlocked := true;
        }
      }
      entries := entries[id := e];
      assert Model() == ReleaseStep(start, id, handle);
    }
  }

  lemma NothingLimited(c: Cache, max: nat)
    ensures Run(c, []) == c && LimitsSoFar(c, max, [])
  {}

  lemma LimitsMet(c: Cache, max: nat)
    requires c.totalSize <= max
    ensures Limits(c, max, [], true)
  {}

  /** The two ways to give up: nothing is idle, or a deletion has failed. */
  lemma LimitsGivesUp(c: Cache, max: nat, last: seq<Op>)
    requires c.totalSize > max
    requires if last == [] then !SomeIdle(c)
             else |last| == 1 && SomeIdle(c) && last[0].Delete? && last[0].id in c.entries && !Succeeds(c, last[0])
    ensures Limits(c, max, last, false)
  {}

  lemma GrowIsStep(c: Cache, id: string, index: nat, added: nat)
    requires c.BeingWritten(id, index)
    ensures Next(c, Grow(id, index, added)) == c.(files := c.files[(id, index) := c.FileSize(id, index) + added])
  {}

  lemma WriteOpens(c: Cache, id: string, index: nat)
    requires id in c.entries
    ensures var c' := WriteStep(c, id, index);
            && id in c'.entries && c'.entries[id].lockState == c.entries[id].lockState
            && c'.OpenOn(id) == c.OpenOn(id) + multiset{Handle(index, true)}
  {}

  lemma WriteIsStep(c: Cache, id: string, index: nat)
    requires id in c.entries
    ensures Next(c, Write(id, index, false)) == c
    ensures c.entries[id].lockState != Locked ==> Next(c, Write(id, index, true)) == c
    ensures c.entries[id].lockState == Locked ==> Next(c, Write(id, index, true)) == WriteStep(c, id, index)
  {}

  lemma ReleaseIsStep(c: Cache, id: string, h: Handle)
    requires id in c.entries && h in c.OpenOn(id)
    ensures Next(c, Release(id, h)) == ReleaseStep(c, id, h)
  {}

  /** Holds a resource locked for as long as the object lives. */
  class CacheLock {
    const cache: DiskCache
    const id: string
    var rollback: bool
    var locked: bool
    // The lock was given on an entry that had been evicted: nothing is locked, and the next call on
    // the resource, the destructor's included, dereferences NULL.
    ghost var stale: bool

    constructor (cache: DiskCache, id: string, rollback: bool, stuck: set<(string, nat)>)
      requires Inv(cache.Model())
      modifies cache
      ensures Inv(cache.Model()) && this.cache == cache && this.id == id && this.rollback == rollback
      ensures locked && !stale ==> id in cache.entries && cache.entries[id].lockState == Locked
      ensures stale ==> locked && MayGoStale(old(cache.Model()), id, cache.maxCache) && id !in cache.entries
      ensures locked ==> Lockable(Found(old(cache.Model()), id))
      ensures Lockable(Found(old(cache.Model()), id)) && old(cache.totalSize) <= cache.maxCache ==> locked
      ensures cache.open == old(cache.open)
    {
      hide Inv, Run, Limits, MayGoStale, Next;
      this.cache, this.id, this.rollback := cache, id, rollback;
      var outcome; ghost var checks;
      outcome, checks := cache.LockResource(id, stuck);
      locked, stale := !outcome.Refused?, outcome.Stale?;
    }

    method Commit()
      modifies this`rollback
      ensures !rollback
    {
      rollback := false;
    }

    /** The destructor. A resource locked with rollback is gone afterwards if and only if none of its
        streams is still open; if one is, it stays, and keeps what was written. */
    method Dispose(stuck: set<(string, nat)>) returns (ghost ops: seq<Op>)
      requires Inv(cache.Model())
      requires locked ==> id in cache.entries && cache.entries[id].lockState == Locked
      modifies cache
      ensures Inv(cache.Model()) && cache.Model() == Run(old(cache.Model()), ops)
      ensures !locked ==> ops == []
      ensures cache.open == old(cache.open)
      ensures locked ==> |ops| > 0 && ops[0] == Unlock(id) && AllDeletes(ops[1..])
      ensures locked && rollback ==> (id in cache.entries <==> old(cache.entries)[id].accessors > 0)
      ensures locked && old(cache.entries)[id].accessors > 0 ==> id in cache.entries
      ensures locked && id in cache.entries ==>
                cache.entries[id] == old(cache.entries)[id].(lockState := if old(cache.entries)[id].accessors > 0 then Unlocking else Unlocked)
    {
      hide Inv;
      ops := [];
      if locked {
        hide Run;
        ghost var start := cache.Model();
        var ok;
        ok, ops := cache.UnlockResource(id, stuck);
        if rollback {
          ghost var unlocked := cache.Model();
          ghost var undeletable;
          ok, undeletable := cache.DeleteResource(id, stuck);
          RunAppend(start, ops, [Delete(id, undeletable)]);
          RunOne(unlocked, Delete(id, undeletable));
          ops := ops + [Delete(id, undeletable)];
        }
      }
    }
  }

  /** The files of the resource that cannot be deleted. */
  ghost function StuckOf(files: Files, id: string, n: nat, stuck: set<(string, nat)>): set<nat> {
    set i: nat | i < n && (id, i) in files && (id, i) in stuck
  }

  lemma StuckNone(files: Files, id: string, stuck: set<(string, nat)>)
    ensures StuckOf(files, id, 0, stuck) == {}
  {}

  lemma StuckNext(files: Files, id: string, n: nat, stuck: set<(string, nat)>)
    ensures StuckOf(files, id, n + 1, stuck) == StuckOf(files, id, n, stuck) + if (id, n) in files && (id, n) in stuck then {n} else {}
    ensures forall i :: i in StuckOf(files, id, n, stuck) ==> i < n
  {}

  /** These deletions failed at most for files that are stuck. */
  ghost predicate OnlyStuck(ops: seq<Op>, stuck: set<(string, nat)>) {
    forall i, j :: 0 <= i < |ops| && ops[i].Delete? && j in ops[i].undeletable ==> (ops[i].id, j) in stuck
  }

  lemma NoneStuck(stuck: set<(string, nat)>)
    ensures OnlyStuck([], stuck)
    ensures forall op: Op :: [op][1..] == []
  {}

  lemma OneMoreStuck(ops: seq<Op>, files: Files, id: string, streams: nat, undeletable: set<nat>, stuck: set<(string, nat)>)
    requires OnlyStuck(ops, stuck) && (undeletable == {} || undeletable == StuckOf(files, id, streams, stuck))
    ensures OnlyStuck(ops + [Delete(id, undeletable)], stuck)
  {}

  ghost function Without(files: Files, id: string, n: nat, kept: set<nat>): Files {
    map f <- files | !(f.0 == id && f.1 < n && f.1 !in kept) :: files[f]
  }

  lemma WithoutNone(files: Files, id: string)
    ensures Without(files, id, 0, {}) == files
  {}

  lemma WithoutNext(files: Files, id: string, n: nat, kept: set<nat>)
    requires forall i :: i in kept ==> i < n
    ensures Without(files, id, n + 1, kept) == Without(files, id, n, kept) - {(id, n)}
    ensures Without(files, id, n + 1, kept + {n}) == Without(files, id, n, kept)
    ensures (id, n) in Without(files, id, n, kept) <==> (id, n) in files
    ensures (id, n) !in files ==> Without(files, id, n + 1, kept) == Without(files, id, n, kept)
  {}
}
