/** httpclient.cc: putting a response into the disk cache while it is received. */
module HttpCaching {
  import opened DiskCaching
  import opened DiskCacheClass
  import opened DiskCacheLimit

  const CACHE_HEADER: nat := 0
  const CACHE_BODY: nat := 1

  /** What the file system will answer: whether the two files can be opened, how much of the headers can be written
      and whether that is all of them, and which files cannot be deleted. */
  datatype Disk = Disk(headersOpen: bool, headersWritten: nat, headersComplete: bool, bodyOpens: bool, stuck: set<(string, nat)>)

  /** The header stream: opened, written as far as the disk allows, closed again. */
  method WriteCacheHeaders(cache: DiskCache, id: string, disk: Disk) returns (ok: bool)
    requires Inv(cache.Model()) && id in cache.entries && cache.entries[id].lockState == Locked
    modifies cache
    ensures Inv(cache.Model()) && id in cache.entries && cache.entries[id].lockState == Locked
    ensures cache.Model().OpenOn(id) == old(cache.Model().OpenOn(id))
    ensures ok <==> disk.headersOpen && disk.headersComplete
    ensures ok ==> cache.Model() == Run(old(cache.Model()), [Write(id, CACHE_HEADER, true), Grow(id, CACHE_HEADER, disk.headersWritten),
                                                             Release(id, Handle(CACHE_HEADER, true))])
  {
    hide Inv, Next, Run;
    ghost var start := cache.Model();
    var opens := cache.WriteResource(id, CACHE_HEADER, disk.headersOpen);
    if !opens { return false; }
    cache.WriteStream(id, CACHE_HEADER, disk.headersWritten);
    ghost var h := Handle(CACHE_HEADER, true);
    ghost var grown := cache.Model();
    ghost var ops := cache.ReleaseResource(id, h, CACHE_HEADER, disk.stuck);
    RunOne(grown, Release(id, h));
    RunThree(start, Write(id, CACHE_HEADER, true), Grow(id, CACHE_HEADER, disk.headersWritten), Release(id, h));
    ok := disk.headersComplete;
  }

  lemma RunThree(c: Cache, o1: Op, o2: Op, o3: Op)
    ensures Run(c, [o1, o2, o3]) == Next(Next(Next(c, o1), o2), o3)
  {
    hide Next;
    assert [o1, o2, o3][1..] == [o2, o3] && [o2, o3][1..] == [o3] && [o3][1..] == [];
    assert Run(c, [o1, o2, o3]) == Run(Next(c, o1), [o2, o3]) == Run(Next(Next(c, o1), o2), [o3]);
  }

  datatype Beginning = Begun | NotLocked | Abandoned
    | NullEntry  // the lock was given on an evicted entry; WriteResource dereferences NULL

  /** Starts caching a response. On success the body is being written and the resource unlocks itself
      when that ends. On failure nothing is left of the resource, if and only if nobody else was still
      writing it when it was locked. Within the size limit, or with the resource in use, the program
      does not crash here; and then only the file system, or a resource that is in use, makes it fail. */
  method BeginCacheFile(cache: DiskCache, id: string, disk: Disk) returns (outcome: Beginning)
    requires Inv(cache.Model())
    modifies cache
    ensures Inv(cache.Model())
    ensures outcome == Begun ==> id in cache.entries && cache.entries[id].lockState == Unlocking && cache.Model().BeingWritten(id, CACHE_BODY)
    ensures outcome == Begun ==> cache.entries[id].accessors == |old(cache.Model().OpenOn(id))| + 1
    ensures outcome == Abandoned ==> (id in cache.entries <==> old(cache.Model().OpenOn(id)) != multiset{})
    ensures outcome == NotLocked ==> cache.open == old(cache.open)
    ensures outcome == NotLocked ==> !Lockable(Found(old(cache.Model()), id)) || old(cache.totalSize) > cache.maxCache
    ensures outcome == NullEntry ==> MayGoStale(old(cache.Model()), id, cache.maxCache)
    ensures outcome == Begun ==> disk.headersOpen && disk.headersComplete && disk.bodyOpens
    ensures outcome == Abandoned ==> !(disk.headersOpen && disk.headersComplete && disk.bodyOpens)
    ensures !Lockable(Found(old(cache.Model()), id)) ==> outcome == NotLocked
  {
    hide Inv, Next, Run, Guarded, MayGoStale, Limits;
    var lock := new CacheLock(cache, id, true, disk.stuck);
    if !lock.locked { return NotLocked; }
    if id !in cache.entries { return NullEntry; }
    var headers := WriteCacheHeaders(cache, id, disk);
    AccessorsCounted(cache.Model(), id);
    if !headers {
      ghost var ops := lock.Dispose(disk.stuck);
      return Abandoned;
    }
    var body := cache.WriteResource(id, CACHE_BODY, disk.bodyOpens);
    AccessorsCounted(cache.Model(), id);
    if body { lock.Commit(); }
    ghost var ops := lock.Dispose(disk.stuck);
    outcome := if body then Begun else Abandoned;
  }

  lemma AccessorsCounted(c: Cache, id: string)
    requires Inv(c) && id in c.entries
    ensures c.entries[id].accessors == |c.OpenOn(id)|
  {
    GuardedAt(c, id);
  }

  /** Ends caching. If this was the last writer the resource is unlocked and complete, unless the limit
      has already evicted it, or after a failed write it is gone. */
  method CompleteCacheFile(cache: DiskCache, id: string, tapSucceeded: bool, stuck: set<(string, nat)>)
    requires Inv(cache.Model()) && cache.Model().BeingWritten(id, CACHE_BODY)
    modifies cache
    ensures Inv(cache.Model()) && id in old(cache.entries)
    ensures old(cache.entries)[id].accessors > 1 ==> cache.Model() == Next(old(cache.Model()), Release(id, Handle(CACHE_BODY, true)))
    ensures old(cache.entries)[id].lockState == Unlocking && old(cache.entries)[id].accessors == 1 ==>
              if tapSucceeded then id in cache.entries ==> cache.entries[id].lockState == Unlocked && cache.entries[id].accessors == 0
              else id !in cache.entries
  {
    hide Inv, Run, Next;
    ghost var h := Handle(CACHE_BODY, true);
    ghost var start := cache.Model();
    GuardedAt(start, id);
    ghost var ops := cache.ReleaseResource(id, h, CACHE_BODY, stuck);
    RunOne(start, Release(id, h));
    ReleaseCloses(start, id, h);
    ghost var released := cache.Model();
    if !tapSucceeded {
      var deleted; ghost var undeletable;
      deleted, undeletable := cache.DeleteResource(id, stuck);
      DeleteIsStep(released, id, undeletable);
    }
  }

  lemma DeleteIsStep(c: Cache, id: string, undeletable: set<nat>)
    ensures id in c.entries && !Idle(c.entries[id]) ==> Next(c, Delete(id, undeletable)) == c
    ensures id in c.entries && Idle(c.entries[id]) ==> id !in Next(c, Delete(id, undeletable)).entries
    ensures id !in c.entries ==> Next(c, Delete(id, undeletable)) == c
  {}
}
