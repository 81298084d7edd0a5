/** diskcache.cc: an entry's recorded size against the files it stands for. */
module DiskCacheSizes {
  import opened DiskCaching

  /** What a file contributes: nothing while a stream is still writing it. */
  function Settled(c: Cache, id: string, index: nat): nat {
    if c.BeingWritten(id, index) then 0 else c.FileSize(id, index)
  }

  /** The total of the first n files of a resource that are not being written. */
  function SettledSize(c: Cache, id: string, n: nat): nat {
    if n == 0 then 0 else SettledSize(c, id, n - 1) + Settled(c, id, n - 1)
  }

  /** No stream is open for writing twice. */
  ghost predicate WritersDistinct(open: multiset<Handle>) {
    forall h: Handle :: h.writing ==> open[h] <= 1
  }

  ghost predicate NoFilesFrom(c: Cache, id: string, n: nat) {
    forall index: nat :: index >= n ==> c.FileSize(id, index) == 0
  }

  /** The recorded size is the size of the files, and there are no files beyond the stream count. */
  ghost predicate ExactAt(c: Cache, id: string) {
    var e := Found(c, id);
    && e.size == SettledSize(c, id, e.streams)
    && NoFilesFrom(c, id, e.streams)
    && WritersDistinct(c.OpenOn(id))
  }

  ghost predicate Accounted(c: Cache) { forall id :: ExactAt(c, id) }

  // ------------------------------------------------------------ sums of file sizes

  lemma {:induction false} SettledSizeSame(c: Cache, c': Cache, id: string, n: nat)
    requires forall i :: 0 <= i < n ==> Settled(c', id, i) == Settled(c, id, i)
    ensures SettledSize(c', id, n) == SettledSize(c, id, n)
  {
    if n == 0 {
    } else {
      SettledSizeSame(c, c', id, n - 1);
    }
  }

  /** Changing one file changes the total by as much. */
  lemma {:induction false} SettledSizeChange(c: Cache, c': Cache, id: string, index: nat, n: nat)
    requires index < n && forall i :: 0 <= i < n && i != index ==> Settled(c', id, i) == Settled(c, id, i)
    ensures SettledSize(c', id, n) - Settled(c', id, index) == SettledSize(c, id, n) - Settled(c, id, index)
  {
    hide Settled;
    if index == n - 1 { SettledSizeSame(c, c', id, n - 1); } else { SettledSizeChange(c, c', id, index, n - 1); }
  }

  lemma {:induction false} SettledSizeBeyond(c: Cache, id: string, n: nat, m: nat)
    requires n <= m && forall i :: n <= i < m ==> Settled(c, id, i) == 0
    ensures SettledSize(c, id, m) == SettledSize(c, id, n)
  {
    if n < m { SettledSizeBeyond(c, id, n, m - 1); }
  }

  lemma {:induction false} SettledAtMost(c: Cache, id: string, index: nat, n: nat)
    requires index < n
    ensures Settled(c, id, index) <= SettledSize(c, id, n)
  {
    if index < n - 1 { SettledAtMost(c, id, index, n - 1); }
  }

  // ------------------------------------------------------------ the assertion in WriteResource

  /** ASSERT(previous_size <= entry->size) */
  predicate PreviousFits(c: Cache, id: string, index: nat)
    requires id in c.entries
  {
    c.FileSize(id, index) <= c.entries[id].size
  }

  lemma PreviousSizeFits(c: Cache, id: string, index: nat)
    requires ExactAt(c, id) && id in c.entries && !c.BeingWritten(id, index)
    ensures PreviousFits(c, id, index) && Previous(c, id, index) == Settled(c, id, index)
  {
    if index < c.entries[id].streams { SettledAtMost(c, id, index, c.entries[id].streams); }
  }

  // ------------------------------------------------------------ each operation

  /** What keeps the sizes exact: no stream is opened for writing twice, and any file that cannot
      be deleted with its resource is empty. */
  predicate Careful(c: Cache, op: Op) {
    match op
    case Write(id, index, _) => !c.BeingWritten(id, index)
    case Delete(id, undeletable) => forall index :: index in undeletable ==> c.FileSize(id, index) == 0
    case _ => true
  }

  /** An operation on one resource leaves the others' sizes and files alone. */
  lemma OthersUnchanged(c: Cache, c': Cache, id: string)
    requires ExactAt(c, id) && Found(c', id) == Found(c, id) && c'.OpenOn(id) == c.OpenOn(id)
    requires forall index :: c'.FileSize(id, index) == c.FileSize(id, index)
    ensures ExactAt(c', id)
  {
    SettledSizeSame(c, c', id, Found(c, id).streams);
  }

  lemma WriteKeepsExact(c: Cache, id: string, index: nat)
    requires ExactAt(c, id) && id in c.entries && !c.BeingWritten(id, index)
    ensures ExactAt(WriteStep(c, id, index), id)
  {
    var c', e := WriteStep(c, id, index), c.entries[id];
    var n := Max(e.streams, index + 1);
    PreviousSizeFits(c, id, index);
    SettledSizeBeyond(c, id, e.streams, n);
    WriteSettles(c, id, index);
    SettledSizeChange(c, c', id, index, n);
  }

  /** Opening a stream for writing truncates its file and takes it out of the account. */
  lemma WriteSettles(c: Cache, id: string, index: nat)
    requires id in c.entries && WritersDistinct(c.OpenOn(id)) && !c.BeingWritten(id, index)
    ensures var c' := WriteStep(c, id, index);
            && Settled(c', id, index) == 0
            && (forall i: nat :: i != index ==> Settled(c', id, i) == Settled(c, id, i))
            && (forall i: nat :: i != index ==> c'.FileSize(id, i) == c.FileSize(id, i))
            && WritersDistinct(c'.OpenOn(id))
  {}

  lemma ReleaseKeepsExact(c: Cache, id: string, h: Handle)
    requires ExactAt(c, id) && id in c.entries && h in c.OpenOn(id) && Guarded(c.entries[id], c.OpenOn(id))
    ensures ExactAt(ReleaseStep(c, id, h), id)
  {
    var c', n := ReleaseStep(c, id, h), c.entries[id].streams;
    ReleaseSettles(c, id, h);
    if h.writing { SettledSizeChange(c, c', id, h.index, n); } else { SettledSizeSame(c, c', id, n); }
  }

  /** The last writer of a file puts it into the account; a reader changes nothing. */
  lemma ReleaseSettles(c: Cache, id: string, h: Handle)
    requires id in c.entries && WritersDistinct(c.OpenOn(id)) && h in c.OpenOn(id)
    ensures var c' := ReleaseStep(c, id, h);
            && (forall i: nat :: i != h.index || !h.writing ==> Settled(c', id, i) == Settled(c, id, i))
            && (h.writing ==> Settled(c, id, h.index) == 0 && Settled(c', id, h.index) == c.FileSize(id, h.index))
            && (forall i: nat :: c'.FileSize(id, i) == c.FileSize(id, i))
            && WritersDistinct(c'.OpenOn(id))
  {}

  /** Deleting a resource leaves no size behind if and only if every file that could not be deleted is empty. */
  lemma DeleteIsExactIff(c: Cache, id: string, undeletable: set<nat>)
    requires ExactAt(c, id) && id in c.entries && c.OpenOn(id) == multiset{}
    ensures ExactAt(DeleteStep(c, id, undeletable), id)
       <==> forall index :: index in undeletable ==> c.FileSize(id, index) == 0
  {
    var c' := DeleteStep(c, id, undeletable);
    forall index: nat
      ensures c'.FileSize(id, index) == if index in undeletable then c.FileSize(id, index) else 0
    {
      assert index >= c.entries[id].streams ==> c.FileSize(id, index) == 0;
    }
  }

  lemma GrowKeepsExact(c: Cache, id: string, index: nat, added: nat)
    requires ExactAt(c, id) && id in c.entries && Guarded(c.entries[id], c.OpenOn(id))
    ensures ExactAt(Next(c, Grow(id, index, added)), id)
  {
    if c.BeingWritten(id, index) {
      var c' := Next(c, Grow(id, index, added));
      assert forall i: nat :: i != index ==> c'.FileSize(id, i) == c.FileSize(id, i);
      SettledSizeSame(c, c', id, c.entries[id].streams);
    }
  }

  /** Locking, unlocking and reading do not touch sizes or files. */
  lemma SizesUntouched(c: Cache, c': Cache, id: string)
    requires ExactAt(c, id) && c'.files == c.files
    requires Found(c', id).size == Found(c, id).size && Found(c', id).streams == Found(c, id).streams
    requires forall h: Handle :: h.writing ==> c'.OpenOn(id)[h] == c.OpenOn(id)[h]
    ensures ExactAt(c', id)
  {
    assert forall index: nat :: c'.FileSize(id, index) == c.FileSize(id, index);
    SettledSizeSame(c, c', id, Found(c, id).streams);
  }

  lemma OthersLeftAlone(c: Cache, op: Op, id: string)
    requires ExactAt(c, id) && id != op.id
    ensures ExactAt(Next(c, op), id)
  {
    hide ExactAt, Next, Cache.FileSize;
    OtherEntrySame(c, op, id);
    forall index: nat
      ensures Next(c, op).FileSize(id, index) == c.FileSize(id, index)
    {
      OtherFileSame(c, op, id, index);
    }
    OthersUnchanged(c, Next(c, op), id);
  }

  lemma OtherEntrySame(c: Cache, op: Op, id: string)
    requires id != op.id
    ensures Found(Next(c, op), id) == Found(c, id) && Next(c, op).OpenOn(id) == c.OpenOn(id)
  {}

  lemma OtherFileSame(c: Cache, op: Op, id: string, index: nat)
    requires id != op.id
    ensures Next(c, op).FileSize(id, index) == c.FileSize(id, index)
  {}

  lemma OwnKept(c: Cache, op: Op)
    requires Inv(c) && ExactAt(c, op.id) && Careful(c, op)
    ensures ExactAt(Next(c, op), op.id)
  {
    hide Inv, ExactAt, WriteStep, ReleaseStep, DeleteStep, SettledSize, Careful;
    GuardedAt(c, op.id);
    match op
    case Write(id, index, _) => CarefulWrite(c, op); if Next(c, op) != c { WriteKeepsExact(c, id, index); }
    case Grow(id, index, added) => GrowIsKnown(c, op); if Next(c, op) != c { GrowKeepsExact(c, id, index, added); }
    case Release(id, h) => if Next(c, op) != c { ReleaseKeepsExact(c, id, h); }
    case Delete(id, undeletable) => CarefulDelete(c, op); if Next(c, op) != c { DeleteIsExactIff(c, id, undeletable); }
    case _ => SizesUntouched(c, Next(c, op), op.id);
  }

  lemma CarefulWrite(c: Cache, op: Op)
    requires op.Write? && Careful(c, op)
    ensures !c.BeingWritten(op.id, op.index)
  {}

  lemma CarefulDelete(c: Cache, op: Op)
    requires Inv(c) && op.Delete? && Careful(c, op)
    ensures forall index :: index in op.undeletable ==> c.FileSize(op.id, index) == 0
    ensures op.id in c.entries && Idle(c.entries[op.id]) ==> c.OpenOn(op.id) == multiset{}
  {
    GuardedAt(c, op.id);
  }

  lemma GrowIsKnown(c: Cache, op: Op)
    requires Inv(c) && op.Grow?
    ensures Next(c, op) != c ==> op.id in c.entries
  {}

  lemma StepKeepsAccounted(c: Cache, op: Op)
    requires Inv(c) && Accounted(c) && Careful(c, op)
    ensures Accounted(Next(c, op))
  {
    hide Inv, ExactAt, Next, Careful;
    forall id: string
      ensures ExactAt(Next(c, op), id)
    {
      if id == op.id { OwnKept(c, op); } else { OthersLeftAlone(c, op, id); }
    }
  }

  // ------------------------------------------------------------ whole runs

  /** Every operation of the run is careful when its turn comes. */
  predicate AllCareful(c: Cache, ops: seq<Op>)
    decreases |ops|
  {
    ops == [] || (Careful(c, ops[0]) && AllCareful(Next(c, ops[0]), ops[1..]))
  }

  lemma {:induction false} RunKeepsAccounted(c: Cache, ops: seq<Op>)
    requires Inv(c) && Accounted(c) && AllCareful(c, ops)
    ensures Inv(Run(c, ops)) && Accounted(Run(c, ops))
    decreases |ops|
  {
    if ops == [] {
    } else {
      hide Inv, Accounted, Next, Careful;
      StepKeepsInv(c, ops[0]);
      StepKeepsAccounted(c, ops[0]);
      RunKeepsAccounted(Next(c, ops[0]), ops[1..]);
    }
  }

  /** Starting from an empty folder, after any careful run every recorded size is the total size of
      the resource's files that are not being written, the running total is the sum of those, and
      the next careful WriteResource meets its own assertion. */
  lemma SizesAreConserved(ops: seq<Op>, id: string, index: nat)
    requires AllCareful(Empty(map[]), ops)
    ensures var c := Run(Empty(map[]), ops);
            && (id in c.entries ==> c.entries[id].size == SettledSize(c, id, c.entries[id].streams))
            && (id in c.entries && !c.BeingWritten(id, index) ==> PreviousFits(c, id, index))
            && c.totalSize == Sum(c.entries, SIZE)
  {
    EmptyIsSound(map[]);
    assert Accounted(Empty(map[]));
    RunKeepsAccounted(Empty(map[]), ops);
    var c := Run(Empty(map[]), ops);
    hide Run, SettledSize, Sum;
    assert ExactAt(c, id);
    if id in c.entries && !c.BeingWritten(id, index) { PreviousSizeFits(c, id, index); }
  }

  // ------------------------------------------------------------ a stream opened for writing twice

  function WriteTwice(c: Cache, id: string, index: nat, added: nat): Cache {
    var h := Handle(index, true);
    Run(c, [Write(id, index, true), Grow(id, index, added), Release(id, h), Release(id, h)])
  }

  /** A second stream opened on a file that is being written, some bytes written, both closed: the
      entry then counts the file twice, less what the second opening took off. The size comes out
      right if and only if those two happen to be equal. */
  lemma SecondWriterMiscounts(c: Cache, id: string, index: nat, added: nat)
    requires Inv(c) && ExactAt(c, id) && id in c.entries && c.entries[id].lockState == Locked && c.BeingWritten(id, index)
    ensures var c' := WriteTwice(c, id, index, added);
            && id in c'.entries
            && c'.entries[id].size == SettledSize(c', id, c'.entries[id].streams) + added - Previous(c, id, index)
            && (ExactAt(c', id) <==> added == Previous(c, id, index))
  {
    hide Inv, WriteTwice, Settled, SettledSize;
    GuardedAt(c, id);
    var c' := WriteTwice(c, id, index, added);
    WriteTwiceResult(c, id, index, added);
    SettledTwice(c, c', id, index);
    SettledSizeChange(c, c', id, index, c.entries[id].streams);
  }

  lemma SettledTwice(c: Cache, c': Cache, id: string, index: nat)
    requires c.BeingWritten(id, index) && WritersDistinct(c.OpenOn(id))
    requires c'.OpenOn(id) == c.OpenOn(id) - multiset{Handle(index, true)}
    requires forall i: nat :: i != index ==> c'.FileSize(id, i) == c.FileSize(id, i)
    ensures Settled(c, id, index) == 0 && Settled(c', id, index) == c'.FileSize(id, index)
    ensures forall i: nat :: i != index ==> Settled(c', id, i) == Settled(c, id, i)
    ensures WritersDistinct(c'.OpenOn(id))
  {}

  lemma WriteTwiceResult(c: Cache, id: string, index: nat, added: nat)
    requires id in c.entries && c.entries[id].lockState == Locked && index < c.entries[id].streams
    requires c.BeingWritten(id, index)
    ensures var c', e := WriteTwice(c, id, index, added), c.entries[id];
            && id in c'.entries
            && c'.entries[id].size == e.size - Previous(c, id, index) + 2 * added && c'.entries[id].streams == e.streams
            && c'.OpenOn(id) == c.OpenOn(id) - multiset{Handle(index, true)}
            && c'.FileSize(id, index) == added
            && (forall i: nat :: i != index ==> c'.FileSize(id, i) == c.FileSize(id, i))
  {
    hide Next, Previous, Cache.OpenOn, Cache.FileSize;
    var h, open := Handle(index, true), c.OpenOn(id);
    RunFour(c, Write(id, index, true), Grow(id, index, added), Release(id, h), Release(id, h));
    var a := Next(c, Write(id, index, true));
    WriteResult(c, id, index);
    var b := Next(a, Grow(id, index, added));
    GrowResult(a, id, index, added);
    var d := Next(b, Release(id, h));
    ReleaseResult(b, id, h);
    assert open + multiset{h} - multiset{h} == open;
    ReleaseResult(d, id, h);
  }

  lemma WriteResult(c: Cache, id: string, index: nat)
    requires id in c.entries && c.entries[id].lockState == Locked && index < c.entries[id].streams
    ensures var c', e := Next(c, Write(id, index, true)), c.entries[id];
            && id in c'.entries && c'.entries[id] == e.(size := e.size - Previous(c, id, index), accessors := e.accessors + 1)
            && c'.OpenOn(id) == c.OpenOn(id) + multiset{Handle(index, true)}
            && c'.FileSize(id, index) == 0
            && (forall i: nat :: i != index ==> c'.FileSize(id, i) == c.FileSize(id, i))
  {}

  lemma GrowResult(c: Cache, id: string, index: nat, added: nat)
    requires c.BeingWritten(id, index)
    ensures var c' := Next(c, Grow(id, index, added));
            && c'.entries == c.entries && c'.OpenOn(id) == c.OpenOn(id)
            && c'.FileSize(id, index) == c.FileSize(id, index) + added
            && (forall i: nat :: i != index ==> c'.FileSize(id, i) == c.FileSize(id, i))
  {}

  lemma ReleaseResult(c: Cache, id: string, h: Handle)
    requires id in c.entries && c.entries[id].lockState == Locked && h in c.OpenOn(id)
    ensures var c', e := Next(c, Release(id, h)), c.entries[id];
            && id in c'.entries && c'.entries[id] == e.(size := e.size + c.FileSize(id, h.index), accessors := e.accessors - 1)
            && c'.OpenOn(id) == c.OpenOn(id) - multiset{h}
            && (forall i: nat :: c'.FileSize(id, i) == c.FileSize(id, i))
  {}
}
