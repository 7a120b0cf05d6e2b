// Nothing is lost, duplicated or written twice by an Update.
module Conservation {
  import opened Basics
  import opened Commands
  import opened PendingQueue
  import opened DiskView
  import opened Deciding

  lemma {:induction false} SliceCount(q: Queue, e: UpdateEntry)
    ensures multiset(SliceFor(q, e.shardId))[e] == multiset(q)[e]
  {
    if q != [] {
      FrontLast(q);
      SliceCount(Front(q), e);
      assert multiset(q) == multiset(Front(q)) + multiset{Last(q)};
      if Last(q).shardId == e.shardId {
        assert multiset(SliceFor(q, e.shardId)) == multiset(SliceFor(Front(q), e.shardId)) + multiset{Last(q)};
      }
    }
  }

  // Queues with the same slices hold the same entries, each as often.
  lemma SameSlicesSameEntries(q1: Queue, q2: Queue)
    requires SameSlices(q1, q2)
    ensures multiset(q1) == multiset(q2)
  {
    forall e ensures multiset(q1)[e] == multiset(q2)[e] {
      SliceCount(q1, e);
      SliceCount(q2, e);
      assert SliceFor(q1, e.shardId) == SliceFor(q2, e.shardId);
    }
  }

  lemma SliceOfEntry(dec: Decoder, batch: Queue, i: nat, c: char)
    requires WellFormedQueue(dec, batch) && i < |batch|
    ensures batch[i] in SliceFor(batch, c) <==> c == FirstRune(batch[i].cmd.part)
  {
    SliceMembers(batch, c);
    assert Queueable(dec, batch[i]);
  }

  lemma CodedExactly(dec: Decoder, disk: Disk, q: Queue, batch: Queue, i: nat)
    requires WellFormedQueue(dec, batch) && i < |batch| && !BatchFails(dec, disk, q, batch, disk.Keys)
    ensures BatchCode(dec, disk, q, batch, batch[i]).Some? <==>
              FirstRune(batch[i].cmd.part) in disk && IsWrite(batch[i].cmd.kind)
  {
    var e := batch[i];
    assert Queueable(dec, e);
    SliceMembers(batch, e.shardId);
    if e.shardId in disk {
      assert !ShardFails(dec, disk[e.shardId].block, q, SliceFor(batch, e.shardId));
    }
  }

  // Every entry is in the slice of its own shard and in no other, so it is decided once when that
  // shard exists and never when it does not; exactly the decided writes get a code, and the queue
  // grows by exactly the entries coded 200.
  lemma EntryConservation(dec: Decoder, disk: Disk, q: Queue, batch: Queue, order: seq<char>)
    requires WellFormedQueue(dec, q) && WellFormedQueue(dec, batch) && CompleteOrder(disk, order)
    requires !UpdateInOrder(dec, disk, q, batch, order).failed
    ensures forall i, c :: 0 <= i < |batch| ==> (batch[i] in SliceFor(batch, c) <==> c == FirstRune(batch[i].cmd.part))
    ensures var o := UpdateInOrder(dec, disk, q, batch, order);
      && (forall i :: 0 <= i < |batch| ==>
            (o.codes[i].Some? <==> FirstRune(batch[i].cmd.part) in disk && IsWrite(batch[i].cmd.kind)))
      && multiset(o.pending) == multiset(q) + multiset(AcceptedOf(batch, o.codes))
  {
    UpdateOutcome(dec, disk, q, batch, order);
    var o := UpdateInOrder(dec, disk, q, batch, order);
    forall i, c | 0 <= i < |batch| ensures batch[i] in SliceFor(batch, c) <==> c == FirstRune(batch[i].cmd.part) {
      SliceOfEntry(dec, batch, i, c);
    }
    forall i | 0 <= i < |batch|
      ensures o.codes[i].Some? <==> FirstRune(batch[i].cmd.part) in disk && IsWrite(batch[i].cmd.kind)
    {
      CodedExactly(dec, disk, q, batch, i);
    }
    SameSlicesSameEntries(o.pending, q + AcceptedOf(batch, o.codes));
  }
}
