/** diskcache.cc and diskcache.h: resources on disk, each a numbered set of streams, guarded by a
    lock state and an accessor count, with a running total of sizes. Every operation is a step
    on a value; the class at the end performs the steps the way the C++ does. */
module DiskCaching {

  datatype LockState = Unlocked | Locked | Unlocking

  datatype Entry = Entry(lockState: LockState, accessors: int, size: nat, streams: nat)

  /** An open DiskCacheAdapter on some resource. */
  datatype Handle = Handle(index: nat, writing: bool)

  type Files = map<(string, nat), nat>

  /** The cache's fields, the sizes of the files in its folder, and the streams its users have open. */
  datatype Cache = Cache(entries: map<string, Entry>, totalSize: int, totalAccessors: int,
                         files: Files, open: map<string, multiset<Handle>>)
  {
    function OpenOn(id: string): multiset<Handle> { if id in open then open[id] else multiset{} }

    function FileSize(id: string, index: nat): nat { if (id, index) in files then files[(id, index)] else 0 }

    predicate BeingWritten(id: string, index: nat) { Handle(index, true) in OpenOn(id) }

    function WithEntry(id: string, e: Entry): Cache { this.(entries := entries[id := e]) }
  }

  const NEW_ENTRY := Entry(Unlocked, 0, 0, 0)

  datatype Op =
    | Create(id: string)                              // GetOrCreateEntry(id, true)
    | Lock(id: string)                                // LockResource, within the limit
    | Write(id: string, index: nat, fileOpens: bool)  // WriteResource
    | Grow(id: string, index: nat, added: nat)        // a user writes to a stream it has open
    | Unlock(id: string)                              // UnlockResource, without the limit check
    | Read(id: string, index: nat, fileOpens: bool)   // ReadResource
    | Release(id: string, handle: Handle)             // an adapter is destroyed: ReleaseResource
    | Delete(id: string, undeletable: set<nat>)       // DeleteResource, failing for some files

  // ------------------------------------------------------------ steps

  function Found(c: Cache, id: string): Entry { if id in c.entries then c.entries[id] else NEW_ENTRY }

  predicate Lockable(e: Entry) { e.lockState != Locked && !(e.lockState == Unlocked && e.accessors > 0) }

  predicate Idle(e: Entry) { e.lockState == Unlocked && e.accessors <= 0 }

  function OpenHandle(c: Cache, id: string, h: Handle): Cache {
    c.(totalAccessors := c.totalAccessors + 1, open := c.open[id := c.OpenOn(id) + multiset{h}])
  }

  /** What WriteResource takes off the size: the file's old size, cut to the entry's size. */
  function Previous(c: Cache, id: string, index: nat): nat
    requires id in c.entries
  {
    if c.FileSize(id, index) > c.entries[id].size then c.entries[id].size else c.FileSize(id, index)
  }

  function Max(a: nat, b: nat): nat { if a < b then b else a }

  function WriteStep(c: Cache, id: string, index: nat): Cache
    requires id in c.entries
  {
    var e, previous := c.entries[id], Previous(c, id, index);
    var truncated := c.(files := c.files[(id, index) := 0], totalSize := c.totalSize - previous);
    OpenHandle(truncated.WithEntry(id, e.(streams := Max(e.streams, index + 1), size := e.size - previous,
                                          accessors := e.accessors + 1)), id, Handle(index, true))
  }

  function ReleaseStep(c: Cache, id: string, h: Handle): Cache
    requires id in c.entries
  {
    var e := c.entries[id];
    var closed := c.(totalAccessors := c.totalAccessors - 1, open := c.open[id := c.OpenOn(id) - multiset{h}]);
    var left := e.(accessors := e.accessors - 1);
    if e.lockState == Unlocked then closed.WithEntry(id, left)
    else
      var size := c.FileSize(id, h.index);
      var counted := left.(size := left.size + size);
      var state := if e.lockState == Unlocking && left.accessors == 0 then Unlocked else e.lockState;
      closed.WithEntry(id, counted.(lockState := state)).(totalSize := c.totalSize + size)
  }

  function DeleteStep(c: Cache, id: string, undeletable: set<nat>): Cache
    requires id in c.entries
  {
    var streams := c.entries[id].streams;
    c.(entries := c.entries - {id}, totalSize := c.totalSize - c.entries[id].size,
       files := map f <- c.files | !(f.0 == id && f.1 < streams && f.1 !in undeletable) :: c.files[f])
  }

  /** One operation; where the C++ refuses, or has nothing to work on, nothing changes. */
  function Next(c: Cache, op: Op): Cache {
    match op
    case Create(id) => c.WithEntry(id, Found(c, id))
    case Lock(id) =>
      var e := Found(c, id);
      c.WithEntry(id, if Lockable(e) then e.(lockState := Locked) else e)
    case Write(id, index, fileOpens) =>
      if id in c.entries && c.entries[id].lockState == Locked && fileOpens then WriteStep(c, id, index) else c
    case Grow(id, index, added) =>
      if c.BeingWritten(id, index) then c.(files := c.files[(id, index) := c.FileSize(id, index) + added]) else c
    case Unlock(id) =>
      if id in c.entries && c.entries[id].lockState == Locked then
        var e := c.entries[id];
        c.WithEntry(id, e.(lockState := if e.accessors > 0 then Unlocking else Unlocked))
      else c
    case Read(id, index, fileOpens) =>
      if id in c.entries && c.entries[id].lockState == Unlocked && index < c.entries[id].streams && fileOpens then
        var e := c.entries[id];
        OpenHandle(c.WithEntry(id, e.(accessors := e.accessors + 1)), id, Handle(index, false))
      else c
    case Release(id, h) =>
      if id in c.entries && h in c.OpenOn(id) then ReleaseStep(c, id, h) else c
    case Delete(id, undeletable) =>
      if id in c.entries && Idle(c.entries[id]) then DeleteStep(c, id, undeletable) else c
  }

  function Run(c: Cache, ops: seq<Op>): Cache
    decreases |ops|
  {
    if ops == [] then c else Run(Next(c, ops[0]), ops[1..])
  }

  function Empty(files: Files): Cache { Cache(map[], 0, 0, files, map[]) }

  // ------------------------------------------------------------ totals over the entries

  ghost function Sum(entries: map<string, Entry>, f: Entry -> int): int {
    if entries == map[] then 0
    else var id :| id in entries; f(entries[id]) + Sum(entries - {id}, f)
  }

  lemma {:induction false} SumWithout(entries: map<string, Entry>, id: string, f: Entry -> int)
    requires id in entries
    ensures Sum(entries, f) == f(entries[id]) + Sum(entries - {id}, f)
  {
    var first :| first in entries && Sum(entries, f) == f(entries[first]) + Sum(entries - {first}, f);
    if first != id {
      SumWithout(entries - {first}, id, f);
      SumWithout(entries - {id}, first, f);
      assert entries - {first} - {id} == entries - {id} - {first};
    }
  }

  lemma SumUpdated(entries: map<string, Entry>, id: string, e: Entry, f: Entry -> int)
    ensures Sum(entries[id := e], f) == f(e) + Sum(entries - {id}, f)
    ensures id in entries ==> Sum(entries[id := e], f) == Sum(entries, f) - f(entries[id]) + f(e)
    ensures id !in entries ==> Sum(entries[id := e], f) == Sum(entries, f) + f(e)
  {
    SumWithout(entries[id := e], id, f);
    assert entries[id := e] - {id} == entries - {id};
    if id in entries { SumWithout(entries, id, f); } else { assert entries - {id} == entries; }
  }

  const SIZE := (e: Entry) => e.size as int
  const ACCESSORS := (e: Entry) => e.accessors

  // ------------------------------------------------------------ what every operation keeps

  /** The streams open on one resource: as many as its accessors, all of one kind, all numbered
      below its stream count; and a resource that is being unlocked still has a writer. */
  ghost predicate Guarded(e: Entry, open: multiset<Handle>) {
    && e.accessors == |open|
    && (forall h :: h in open ==> h.index < e.streams && (h.writing <==> e.lockState != Unlocked))
    && (e.lockState == Unlocking ==> e.accessors > 0)
  }

  ghost predicate Inv(c: Cache) { AllGuarded(c) && TotalsExact(c) }

  ghost predicate AllGuarded(c: Cache) {
    && (forall id :: id in c.entries ==> Guarded(c.entries[id], c.OpenOn(id)))
    && (forall id :: id !in c.entries ==> c.OpenOn(id) == multiset{})
  }

  ghost predicate TotalsExact(c: Cache) {
    c.totalSize == Sum(c.entries, SIZE) && c.totalAccessors == Sum(c.entries, ACCESSORS)
  }

  /** Changing one entry and the streams open on it keeps everything if that entry is right and
      the totals follow. */
  lemma EntryChangeKeepsInv(c: Cache, id: string, e: Entry, open: multiset<Handle>, c': Cache)
    requires Inv(c) && Guarded(e, open)
    requires c'.entries == c.entries[id := e] && c'.open == c.open[id := open]
    requires c'.totalSize == c.totalSize + e.size - (if id in c.entries then c.entries[id].size else 0)
    requires c'.totalAccessors == c.totalAccessors + e.accessors - (if id in c.entries then c.entries[id].accessors else 0)
    ensures Inv(c')
  {
    hide AllGuarded, TotalsExact, Guarded;
    TotalsFollow(c, id, e, c');
    GuardsFollow(c, id, e, open, c');
  }

  lemma OpenOnUpdated(c: Cache, c': Cache, id: string, open: multiset<Handle>, other: string)
    requires c'.open == c.open[id := open]
    ensures c'.OpenOn(other) == if other == id then open else c.OpenOn(other)
  {}

  lemma GuardsFollow(c: Cache, id: string, e: Entry, open: multiset<Handle>, c': Cache)
    requires AllGuarded(c) && Guarded(e, open)
    requires c'.entries == c.entries[id := e] && c'.open == c.open[id := open]
    ensures AllGuarded(c')
  {
    hide Guarded, Cache.OpenOn;
    forall other: string
      ensures c'.OpenOn(other) == if other == id then open else c.OpenOn(other)
    {
      OpenOnUpdated(c, c', id, open, other);
    }
  }

  lemma TotalsFollow(c: Cache, id: string, e: Entry, c': Cache)
    requires TotalsExact(c) && c'.entries == c.entries[id := e]
    requires c'.totalSize == c.totalSize + e.size - (if id in c.entries then c.entries[id].size else 0)
    requires c'.totalAccessors == c.totalAccessors + e.accessors - (if id in c.entries then c.entries[id].accessors else 0)
    ensures TotalsExact(c')
  {
    hide Sum;
    SumUpdated(c.entries, id, e, SIZE);
    SumUpdated(c.entries, id, e, ACCESSORS);
  }

  lemma GuardedAt(c: Cache, id: string)
    requires Inv(c)
    ensures Guarded(Found(c, id), c.OpenOn(id))
  {}

  lemma WriteKeepsInv(c: Cache, id: string, index: nat)
    requires Inv(c) && id in c.entries && c.entries[id].lockState == Locked
    ensures Inv(WriteStep(c, id, index))
  {
    hide Inv;
    var c' := WriteStep(c, id, index);
    GuardedAt(c, id);
    EntryChangeKeepsInv(c, id, c'.entries[id], c'.OpenOn(id), c');
  }

  lemma ReadKeepsInv(c: Cache, id: string, index: nat, fileOpens: bool)
    requires Inv(c)
    ensures Inv(Next(c, Read(id, index, fileOpens)))
  {
    hide Inv;
    var c' := Next(c, Read(id, index, fileOpens));
    GuardedAt(c, id);
    if c' != c {
      var e := c.entries[id];
      assert c'.entries == c.entries[id := e.(accessors := e.accessors + 1)];
      EntryChangeKeepsInv(c, id, e.(accessors := e.accessors + 1), c.OpenOn(id) + multiset{Handle(index, false)}, c');
    }
  }

  lemma OneFewer(open: multiset<Handle>, h: Handle)
    requires h in open
    ensures |open - multiset{h}| == |open| - 1
  {}

  lemma ReleaseKeepsInv(c: Cache, id: string, h: Handle)
    requires Inv(c) && id in c.entries && h in c.OpenOn(id)
    ensures Inv(ReleaseStep(c, id, h))
  {
    hide Inv;
    var c' := ReleaseStep(c, id, h);
    GuardedAt(c, id);
    OneFewer(c.OpenOn(id), h);
    var open := c.OpenOn(id) - multiset{h};
    EntryChangeKeepsInv(c, id, c'.entries[id], open, c');
  }

  /** Creating an entry, locking and unlocking change one entry's lock state at most. */
  lemma LockStateKeepsInv(c: Cache, id: string, state: LockState)
    requires Inv(c)
    requires state != Found(c, id).lockState ==> Found(c, id).accessors == 0 || (state != Unlocked && Found(c, id).lockState != Unlocked)
    requires state == Unlocking ==> Found(c, id).accessors > 0
    ensures Inv(c.WithEntry(id, Found(c, id).(lockState := state)))
  {
    hide Inv;
    var open, e := c.OpenOn(id), Found(c, id).(lockState := state);
    var c' := c.WithEntry(id, e);
    GuardedAt(c, id);
    assert Guarded(e, open);
    var same := c'.(open := c.open[id := open]);
    EntryChangeKeepsInv(c, id, e, open, same);
    SameOpen(same, c');
  }

  lemma SameOpen(c: Cache, c': Cache)
    requires Inv(c) && c'.entries == c.entries && forall id :: c'.OpenOn(id) == c.OpenOn(id)
    requires c'.totalSize == c.totalSize && c'.totalAccessors == c.totalAccessors
    ensures Inv(c')
  {
    hide Guarded;
  }

  lemma LockKeepsInv(c: Cache, id: string)
    requires Inv(c)
    ensures Inv(Next(c, Create(id))) && Inv(Next(c, Lock(id))) && Inv(Next(c, Unlock(id)))
  {
    hide Inv;
    var e := Found(c, id);
    GuardedAt(c, id);
    LockStateKeepsInv(c, id, e.lockState);
    if Lockable(e) { LockStateKeepsInv(c, id, Locked); }
    if e.lockState == Locked { LockStateKeepsInv(c, id, if e.accessors > 0 then Unlocking else Unlocked); }
  }

  lemma DeleteKeepsInv(c: Cache, id: string, undeletable: set<nat>)
    requires Inv(c) && id in c.entries && Idle(c.entries[id])
    ensures Inv(DeleteStep(c, id, undeletable))
  {
    GuardedAt(c, id);
    var c' := DeleteStep(c, id, undeletable);
    assert c.OpenOn(id) == multiset{};
    IdleEntryTotals(c, id, c');
    hide AllGuarded, TotalsExact, Guarded;
    EntryErased(c, id, c');
  }

  lemma EntryErased(c: Cache, id: string, c': Cache)
    requires AllGuarded(c) && c.OpenOn(id) == multiset{}
    requires c'.entries == c.entries - {id} && c'.open == c.open
    ensures AllGuarded(c')
  {
    hide Guarded;
    assert forall other :: c'.OpenOn(other) == c.OpenOn(other);
  }

  lemma IdleEntryTotals(c: Cache, id: string, c': Cache)
    requires TotalsExact(c) && id in c.entries && c.entries[id].accessors == 0 && c'.entries == c.entries - {id}
    requires c'.totalSize == c.totalSize - c.entries[id].size && c'.totalAccessors == c.totalAccessors
    ensures TotalsExact(c')
  {
    hide Sum;
    SumWithout(c.entries, id, SIZE);
    SumWithout(c.entries, id, ACCESSORS);
  }

  lemma StepKeepsInv(c: Cache, op: Op)
    requires Inv(c)
    ensures Inv(Next(c, op))
  {
    hide Inv, WriteStep, ReleaseStep, DeleteStep;
    match op
    case Create(id) => LockKeepsInv(c, id);
    case Lock(id) => LockKeepsInv(c, id);
    case Write(id, index, fileOpens) => if id in c.entries && c.entries[id].lockState == Locked { WriteKeepsInv(c, id, index); }
    case Grow(id, index, added) => FilesDoNotMatter(c, Next(c, op));
    case Unlock(id) => LockKeepsInv(c, id);
    case Read(id, index, fileOpens) => ReadKeepsInv(c, id, index, fileOpens);
    case Release(id, h) => if id in c.entries && h in c.OpenOn(id) { ReleaseKeepsInv(c, id, h); }
    case Delete(id, undeletable) => if id in c.entries && Idle(c.entries[id]) { DeleteKeepsInv(c, id, undeletable); }
  }

  lemma FilesDoNotMatter(c: Cache, c': Cache)
    requires Inv(c) && c' == c.(files := c'.files)
    ensures Inv(c')
  {
    SameOpen(c, c');
  }

  lemma {:induction false} RunKeepsInv(c: Cache, ops: seq<Op>)
    requires Inv(c)
    ensures Inv(Run(c, ops))
    decreases |ops|
  {
    if ops == [] {
    } else {
      StepKeepsInv(c, ops[0]);
      RunKeepsInv(Next(c, ops[0]), ops[1..]);
    }
  }

  /** Over every run, readers and writers never share a resource, writers are alone with a locked or
      unlocking one, a resource being unlocked has a writer, the accessor counts and the total size
      are exact, and no resource with an open stream has been erased. */
  lemma ReadersAndWritersExclude(files: Files, ops: seq<Op>, id: string, h: Handle)
    requires h in Run(Empty(files), ops).OpenOn(id)
    ensures var c := Run(Empty(files), ops);
            && id in c.entries
            && c.entries[id].accessors == |c.OpenOn(id)|
            && (h.writing <==> c.entries[id].lockState != Unlocked)
            && (forall g :: g in c.OpenOn(id) ==> g.writing == h.writing)
  {
    EmptyIsSound(files);
    RunKeepsInv(Empty(files), ops);
  }

  lemma EmptyIsSound(files: Files)
    ensures Inv(Empty(files))
  {}

  /** The unlocking state lasts exactly as long as writers do, and the totals are always sums. */
  lemma TotalsAreSums(files: Files, ops: seq<Op>)
    ensures var c := Run(Empty(files), ops);
            && c.totalSize == Sum(c.entries, SIZE) >= 0
            && c.totalAccessors == Sum(c.entries, ACCESSORS)
            && forall id :: id in c.entries && c.entries[id].lockState == Unlocking ==> c.entries[id].accessors > 0
  {
    EmptyIsSound(files);
    RunKeepsInv(Empty(files), ops);
    SizesAddUp(Run(Empty(files), ops).entries);
  }

  lemma {:induction false} SizesAddUp(entries: map<string, Entry>)
    ensures Sum(entries, SIZE) >= 0
  {
    if entries == map[] {
    } else {
      var id :| id in entries;
      SumWithout(entries, id, SIZE);
      SizesAddUp(entries - {id});
    }
  }

  lemma {:induction false} RunAppend(c: Cache, a: seq<Op>, b: seq<Op>)
    ensures Run(c, a + b) == Run(Run(c, a), b)
    decreases |a|
  {
    hide Next;
    if a == [] {
      assert a + b == b;
    } else {
      RunAppend(Next(c, a[0]), a[1..], b);
      assert (a + b)[1..] == a[1..] + b;
    }
  }

  lemma RunOne(c: Cache, op: Op)
    ensures Run(c, [op]) == Next(c, op)
  {
    hide Next;
    assert [op][1..] == [];
  }

  /** Once locked, a resource stays in the cache, locked, until it is unlocked, whatever else happens. */
  lemma {:induction false} LockedSurvives(c: Cache, ops: seq<Op>, id: string)
    requires id in c.entries && c.entries[id].lockState == Locked && Unlock(id) !in ops
    ensures id in Run(c, ops).entries && Run(c, ops).entries[id].lockState == Locked
    decreases |ops|
  {
    if ops == [] {
    } else {
      LockedSurvivesStep(c, ops[0], id);
      hide Next;
      LockedSurvives(Next(c, ops[0]), ops[1..], id);
    }
  }

  lemma LockedSurvivesStep(c: Cache, op: Op, id: string)
    requires id in c.entries && c.entries[id].lockState == Locked && op != Unlock(id)
    ensures id in Next(c, op).entries && Next(c, op).entries[id].lockState == Locked
  {}

  /** Reading an unlocked resource makes one reader more, and nothing else. */
  lemma ReadOpens(c: Cache, id: string, index: nat)
    requires id in c.entries && c.entries[id].lockState == Unlocked && index < c.entries[id].streams
    ensures var d := Next(c, Read(id, index, true));
            && d.OpenOn(id) == c.OpenOn(id) + multiset{Handle(index, false)}
            && id in d.entries && d.entries[id] == c.entries[id].(accessors := c.entries[id].accessors + 1)
            && d.files == c.files && d.totalAccessors == c.totalAccessors + 1
  {}

  /** Writing a locked resource makes one writer more, cuts the file off, and makes the resource have that stream. */
  lemma WriteTruncates(c: Cache, id: string, index: nat)
    requires id in c.entries && c.entries[id].lockState == Locked
    ensures var d := Next(c, Write(id, index, true));
            && d.OpenOn(id) == c.OpenOn(id) + multiset{Handle(index, true)}
            && id in d.entries && d.entries[id].lockState == Locked && d.entries[id].accessors == c.entries[id].accessors + 1
            && index < d.entries[id].streams && c.entries[id].streams <= d.entries[id].streams
            && (id, index) in d.files && d.FileSize(id, index) == 0
            && forall f :: f in c.files && f != (id, index) ==> f in d.files && d.files[f] == c.files[f]
  {}

  /** What is written makes the file longer by as much. */
  lemma GrowLengthens(c: Cache, id: string, index: nat, added: nat)
    requires c.BeingWritten(id, index)
    ensures Next(c, Grow(id, index, added)).FileSize(id, index) == c.FileSize(id, index) + added
  {}

  /** Releasing a stream closes just that one. */
  lemma ReleaseCloses(c: Cache, id: string, h: Handle)
    requires id in c.entries && h in c.OpenOn(id)
    ensures var d := Next(c, Release(id, h));
            && d.OpenOn(id) == c.OpenOn(id) - multiset{h} && d.totalAccessors == c.totalAccessors - 1
            && id in d.entries && d.entries[id].accessors == c.entries[id].accessors - 1 && d.files == c.files
            && d.entries[id].lockState == if c.entries[id].lockState == Unlocking && c.entries[id].accessors == 1 then Unlocked
                                          else c.entries[id].lockState
  {}

  /** Deleting an idle resource removes it, with every file of its streams that can be deleted, and no other. */
  lemma DeleteRemoves(c: Cache, id: string, kept: set<nat>)
    requires id in c.entries && Idle(c.entries[id])
    ensures var d := Next(c, Delete(id, kept));
            && d.entries == c.entries - {id} && d.open == c.open
            && (forall i: nat :: (id, i) in d.files <==> (id, i) in c.files && (i >= c.entries[id].streams || i in kept))
            && (forall f :: f in d.files ==> f in c.files && d.files[f] == c.files[f])
            && (forall f :: f in c.files && f.0 != id ==> f in d.files)
  {}

  /** While a stream is open on a resource it is there, in use, and unlocked just for readers. It cannot be deleted;
      while it is read it cannot be locked or written, and while it is written it cannot be read. */
  ghost predicate Held(c: Cache, id: string, h: Handle) {
    && h in c.OpenOn(id) && id in c.entries && c.entries[id].accessors > 0
    && (c.entries[id].lockState == Unlocked <==> !h.writing)
    && (forall kept :: Next(c, Delete(id, kept)) == c)
    && (!h.writing ==> Next(c, Lock(id)) == c && forall i, opens :: Next(c, Write(id, i, opens)) == c)
    && (h.writing ==> forall i, opens :: Next(c, Read(id, i, opens)) == c)
  }

  lemma OpenIsHeld(c: Cache, id: string, h: Handle)
    requires Inv(c) && h in c.OpenOn(id)
    ensures Held(c, id, h)
  {
    hide TotalsExact;
    GuardedAt(c, id);
    if !h.writing { assert c.entries[id := c.entries[id]] == c.entries; }
  }

  /** The files of a resource are the same. */
  ghost predicate SameFiles(c: Cache, d: Cache, id: string) {
    forall i: nat :: ((id, i) in c.files <==> (id, i) in d.files) && c.FileSize(id, i) == d.FileSize(id, i)
  }

  lemma OneReleased(c: Cache, other: string, g: Handle, id: string, h: Handle)
    requires h in c.OpenOn(id) && (other, g) != (id, h)
    ensures h in Next(c, Release(other, g)).OpenOn(id)
  {
    if other == id && id in c.entries && g in c.OpenOn(id) {
      assert Next(c, Release(id, g)).OpenOn(id) == c.OpenOn(id) - multiset{g};
      assert (c.OpenOn(id) - multiset{g})[h] == c.OpenOn(id)[h];
    }
  }

  lemma NoneReleased(c: Cache, op: Op, id: string)
    requires !op.Release?
    ensures c.OpenOn(id) <= Next(c, op).OpenOn(id)
  {
    hide ReleaseStep, Max, Previous;
  }

  lemma HandleStays(c: Cache, op: Op, id: string, h: Handle)
    requires h in c.OpenOn(id) && op != Release(id, h)
    ensures h in Next(c, op).OpenOn(id)
  {
    hide Next;
    if op.Release? { OneReleased(c, op.id, op.handle, id, h); } else { NoneReleased(c, op, id); }
  }

  lemma FileStays(c: Cache, op: Op, id: string, i: nat)
    requires id in c.entries && c.entries[id].lockState == Unlocked && c.entries[id].accessors > 0
    requires forall g :: g in c.OpenOn(id) ==> !g.writing
    ensures var d := Next(c, op); ((id, i) in c.files <==> (id, i) in d.files) && c.FileSize(id, i) == d.FileSize(id, i)
  {
    hide Max;
  }

  lemma StreamStays(c: Cache, op: Op, id: string, h: Handle)
    requires Inv(c) && h in c.OpenOn(id) && op != Release(id, h)
    ensures h in Next(c, op).OpenOn(id)
    ensures !h.writing ==> SameFiles(c, Next(c, op), id)
  {
    hide TotalsExact, Next;
    HandleStays(c, op, id, h);
    GuardedAt(c, id);
    if !h.writing {
      forall i: nat ensures ((id, i) in c.files <==> (id, i) in Next(c, op).files) && c.FileSize(id, i) == Next(c, op).FileSize(id, i) {
        FileStays(c, op, id, i);
      }
    }
  }

  /** So it stays until that stream is released, whatever else happens; and the files being read stay as they are. */
  lemma {:induction false} StreamSurvives(c: Cache, ops: seq<Op>, id: string, h: Handle)
    requires Inv(c) && h in c.OpenOn(id) && Release(id, h) !in ops
    ensures Inv(Run(c, ops)) && Held(Run(c, ops), id, h) && (!h.writing ==> SameFiles(c, Run(c, ops), id))
    decreases |ops|
  {
    hide Next, Inv, Held;
    if ops == [] {
      OpenIsHeld(c, id, h);
    } else {
      StepKeepsInv(c, ops[0]);
      StreamStays(c, ops[0], id, h);
      StreamSurvives(Next(c, ops[0]), ops[1..], id, h);
    }
  }

  lemma RunFour(c: Cache, o1: Op, o2: Op, o3: Op, o4: Op)
    ensures Run(c, [o1, o2, o3, o4]) == Next(Next(Next(Next(c, o1), o2), o3), o4)
  {
    hide Next;
    assert [o1, o2, o3, o4][1..] == [o2, o3, o4] && [o2, o3, o4][1..] == [o3, o4] && [o3, o4][1..] == [o4] && [o4][1..] == [];
    assert Run(c, [o1, o2, o3, o4]) == Run(Next(c, o1), [o2, o3, o4]) == Run(Next(Next(c, o1), o2), [o3, o4]);
    assert Run(Next(Next(c, o1), o2), [o3, o4]) == Run(Next(Next(Next(c, o1), o2), o3), [o4]);
  }
}
