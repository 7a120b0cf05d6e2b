// Where the code parts from the plain store: batches that are not conflict-free, for which both
// halves of the hypothesis are needed, and resurrected reads.
module Conflicts {
  import opened Basics
  import opened Commands
  import opened PlainStore
  import opened PendingQueue
  import opened ShardStore
  import opened DiskView
  import opened Deciding
  import opened Overlay
  import opened Batches

  lemma SliceOfPair(e1: UpdateEntry, e2: UpdateEntry)
    requires e1.shardId == e2.shardId
    ensures SliceFor([e1, e2], e1.shardId) == [e1, e2]
  {
    SliceOfOwn([e1, e2], e1.shardId);
  }

  predicate DeletesPart(dec: Decoder, e: UpdateEntry, part: string) {
    Queueable(dec, e) && e.cmd.kind.DELETE_PART? && e.cmd.part == part && e.cmd.id == ""
  }

  lemma DeleteCode(dec: Decoder, disk: Disk, q: Queue, part: string, e: UpdateEntry, batch: Queue)
    requires Sound(dec, disk, q) && part in View(dec, disk, q) && FirstRune(part) in disk
    requires DeletesPart(dec, e, part) && SliceFor(batch, e.shardId) == batch
    requires e in batch && forall d :: d in batch ==> DeletesPart(dec, d, part)
    ensures BatchCode(dec, disk, q, batch, e) == Some(200)
  {
    assert NeedDisk(q, batch) <==> LatestHit(q, part, "").None?;
    FindingTruth(dec, disk, q, NeedDisk(q, batch), e.cmd);
  }

  lemma TwoDeletesAccepted(dec: Decoder, disk: Disk, q: Queue, part: string,
                           e1: UpdateEntry, e2: UpdateEntry, order: seq<char>)
    requires Sound(dec, disk, q) && part in View(dec, disk, q) && FirstRune(part) in disk
    requires DeletesPart(dec, e1, part) && DeletesPart(dec, e2, part) && CompleteOrder(disk, order)
    ensures !UpdateInOrder(dec, disk, q, [e1, e2], order).failed
    ensures UpdateInOrder(dec, disk, q, [e1, e2], order).codes == [Some(200), Some(200)]
  {
    var batch := [e1, e2];
    NeverFails(dec, disk, q, batch);
    UpdateOutcome(dec, disk, q, batch, order);
    SliceOfPair(e1, e2);
    assert e1 in batch && e2 in batch;
    DeleteCode(dec, disk, q, part, e1, batch);
    DeleteCode(dec, disk, q, part, e2, batch);
    var codes := BatchCodes(dec, disk, q, batch);
    assert codes[0] == Some(200) && codes[1] == Some(200);
  }

  // Two deletions of a partition in a row are never committed.
  lemma SecondDeletePanics(sh: ShardState, slice: Queue, e1: UpdateEntry, e2: UpdateEntry)
    requires e1.cmd.kind.DELETE_PART? && e2.cmd.kind.DELETE_PART? && e1.cmd.part == e2.cmd.part
    ensures Commit(sh, slice + [e1, e2]).None?
  {
    var q1 := slice + [e1];
    assert Front(q1) == slice && Last(q1) == e1;
    assert Front(slice + [e1, e2]) == q1 && Last(slice + [e1, e2]) == e2;
    var r := RunTxn(sh.block, q1);
    assert r.Some? ==> e1.cmd.part !in r.value.block;
    assert RunTxn(sh.block, slice + [e1, e2]) == if r.None? then None else TxnStep(r.value, e2.cmd);
  }

  // Deleting one partition twice in a batch is accepted twice, from any sound state that has the
  // partition, and the next Sync then panics on the missing bucket.
  lemma TwoDeletesPanicSync(dec: Decoder, disk: Disk, q: Queue, part: string,
                            e1: UpdateEntry, e2: UpdateEntry, order: seq<char>)
    requires Sound(dec, disk, q) && part in View(dec, disk, q) && FirstRune(part) in disk
    requires DeletesPart(dec, e1, part) && DeletesPart(dec, e2, part) && CompleteOrder(disk, order)
    ensures var o := UpdateInOrder(dec, disk, q, [e1, e2], order);
      && !o.failed
      && o.codes == [Some(200), Some(200)]
      && !Committable(disk, o.pending)
  {
    var c := FirstRune(part);
    TwoDeletesAccepted(dec, disk, q, part, e1, e2, order);
    UpdateOutcome(dec, disk, q, [e1, e2], order);
    var o := UpdateInOrder(dec, disk, q, [e1, e2], order);
    AllAccepted(e1, e2);
    SliceConcat(q, [e1, e2], c);
    SliceOfPair(e1, e2);
    assert SliceFor(o.pending, c) == SliceFor(q + [e1, e2], c);
    SecondDeletePanics(disk[c], SliceFor(q, c), e1, e2);
  }

  lemma AllAccepted(e1: UpdateEntry, e2: UpdateEntry)
    ensures AcceptedOf([e1, e2], [Some(200), Some(200)]) == [e1, e2]
  {
    var batch, codes: Codes := [e1, e2], [Some(200), Some(200)];
    assert Front(batch) == [e1] && Front(codes) == [Some(200)] && Front([e1]) == [];
    assert AcceptedOf([e1], [Some(200)]) == [e1];
  }

  // A write into a partition that is only created in the queue is refused when an entry of the same
  // slice needs the disk, though on its own it finds its partition.
  lemma MixedSliceLosesPartition(dec: Decoder, disk: Disk, q: Queue,
                                 e: UpdateEntry, other: UpdateEntry, order: seq<char>)
    requires Sound(dec, disk, q) && CompleteOrder(disk, order)
    requires Queueable(dec, e) && Queueable(dec, other) && e.shardId == other.shardId && e.shardId in disk
    requires e.cmd.kind.POST? && e.cmd.part !in DiskStore(dec, disk)
    requires HitOf(q, e).Some? && HitOf(q, e).value.kind.CREATE_PART? && HitOf(q, other).None?
    ensures !UpdateInOrder(dec, disk, q, [e, other], order).failed
    ensures UpdateInOrder(dec, disk, q, [e, other], order).codes[0] == Some(404)
    ensures Submit(dec, disk, q, e).1 == Some(200)
  {
    var batch := [e, other];
    NeverFails(dec, disk, q, batch);
    UpdateOutcome(dec, disk, q, batch, order);
    SliceOfPair(e, other);
    assert other in batch && NeedDisk(q, batch);
    DiskStoreAt(dec, disk, e.cmd.part);
    NeedDiskAlone(q, e);
    assert BatchCodes(dec, disk, q, batch)[0] == BatchCode(dec, disk, q, batch, e);
  }

  // ---------------------------------------------------------------- resurrected reads

  predicate CreatesPart(dec: Decoder, e: UpdateEntry, part: string) {
    Queueable(dec, e) && e.cmd.kind.CREATE_PART? && e.cmd.part == part
  }

  lemma DeleteIsQueued(dec: Decoder, disk: Disk, part: string, del: UpdateEntry)
    requires Sound(dec, disk, []) && FirstRune(part) in disk && part in DiskStore(dec, disk)
    requires DeletesPart(dec, del, part)
    ensures Submit(dec, disk, [], del) == ([del], Some(200)) && Sound(dec, disk, [del])
  {
    NeedDiskAlone([], del);
    FindingTruth(dec, disk, [], true, del.cmd);
    assert [] + [del] == [del];
    SubmitKeepsSound(dec, disk, [], del);
  }

  // A creation right behind a queued deletion of the partition never asks the disk.
  lemma CreateAfterDelete(dec: Decoder, disk: Disk, part: string, del: UpdateEntry, create: UpdateEntry)
    requires DeletesPart(dec, del, part) && CreatesPart(dec, create, part) && FirstRune(part) in disk
    ensures Submit(dec, disk, [del], create) == ([del, create], Some(200))
  {
    assert LatestHit([del], part, create.cmd.id) == Some(del.cmd);
    NeedDiskAlone([del], create);
    assert FindInQueue([del], create.cmd) == Finding(false, None);
    assert [del] + [create] == [del, create];
  }

  lemma CreateIsQueued(dec: Decoder, disk: Disk, part: string, del: UpdateEntry, create: UpdateEntry)
    requires Sound(dec, disk, [del]) && FirstRune(part) in disk
    requires DeletesPart(dec, del, part) && CreatesPart(dec, create, part)
    ensures Submit(dec, disk, [del], create) == ([del, create], Some(200)) && Sound(dec, disk, [del, create])
  {
    CreateAfterDelete(dec, disk, part, del, create);
    SubmitKeepsSound(dec, disk, [del], create);
  }

  // Deleting a stored partition and creating it again, both before a Sync, brings its documents back
  // for GET until the Sync.
  lemma DeleteThenCreateResurrects(dec: Decoder, disk: Disk, part: string, id: string,
                                   del: UpdateEntry, create: UpdateEntry)
    requires Sound(dec, disk, []) && FirstRune(part) in disk && Holds(DiskStore(dec, disk), part, id)
    requires DeletesPart(dec, del, part) && CreatesPart(dec, create, part)
    ensures Submit(dec, disk, [], del) == ([del], Some(200))
    ensures Submit(dec, disk, [del], create) == ([del, create], Some(200))
    ensures Sound(dec, disk, [del, create]) && Resurrected(dec, disk, [del, create], part, id)
    ensures Expected(View(dec, disk, [del, create]), part, id) == NotFound
    ensures Get(disk, [del, create], part, id) == Success(DiskStore(dec, disk)[part][id].text)
  {
    DeleteIsQueued(dec, disk, part, del);
    CreateIsQueued(dec, disk, part, del, create);
    assert LatestHit([del, create], part, id) == Some(create.cmd);
    QueueReveals(dec, DiskStore(dec, disk), [del, create], part, id);
    DiskLookup(dec, disk, part, id);
  }
}
