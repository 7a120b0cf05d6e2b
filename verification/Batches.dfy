// When one Update of a batch is the same as one-entry Updates in log order.
module Batches {
  import opened Basics
  import opened Commands
  import opened PlainStore
  import opened PendingQueue
  import opened ShardStore
  import opened DiskView
  import opened Deciding
  import opened Overlay

  function HitOf(q: Queue, e: UpdateEntry): (hit: Option<Command>) {
    LatestHit(q, e.cmd.part, e.cmd.id)
  }

  // No write of the batch answers a later lookup of the same batch, and in the slice of one shard a
  // part command is only ever the latest hit when no entry of the slice needs the disk.
  predicate ConflictFree(q: Queue, batch: Queue) {
    && (forall i, j :: 0 <= i < j < |batch| && IsWrite(batch[i].cmd.kind) ==>
          !Hits(batch[i].cmd, batch[j].cmd.part, batch[j].cmd.id))
    && (forall d, e :: d in batch && e in batch && d.shardId == e.shardId ==>
          HitOf(q, d).Some? && HitOf(q, d).value.isPart ==> HitOf(q, e).Some?)
  }

  // A batch of one is always conflict-free.
  lemma SingletonConflictFree(q: Queue, e: UpdateEntry)
    ensures ConflictFree(q, [e])
  {
  }

  lemma ConflictFreeFront(q: Queue, batch: Queue)
    requires batch != [] && ConflictFree(q, batch)
    ensures ConflictFree(q, Front(batch))
  {
    assert forall e :: e in Front(batch) ==> e in batch;
  }

  // One-entry Updates in log order.
  function SubmitAll(dec: Decoder, disk: Disk, q: Queue, batch: Queue): (r: (Queue, Codes))
    ensures |r.1| == |batch|
  {
    if batch == [] then (q, [])
    else
      var (q', codes) := SubmitAll(dec, disk, q, Front(batch));
      var (q'', code) := Submit(dec, disk, q', Last(batch));
      (q'', codes + [code])
  }

  lemma {:induction false} AcceptedOfMembers(batch: Queue, codes: Codes)
    requires |codes| == |batch|
    ensures forall e :: e in AcceptedOf(batch, codes) ==>
              exists i :: 0 <= i < |batch| && batch[i] == e && codes[i] == Some(200)
  {
    if batch != [] {
      AcceptedOfMembers(Front(batch), Front(codes));
      forall e | e in AcceptedOf(batch, codes)
        ensures exists i :: 0 <= i < |batch| && batch[i] == e && codes[i] == Some(200)
      {
        if e in AcceptedOf(Front(batch), Front(codes)) {
          var i :| 0 <= i < |batch| - 1 && Front(batch)[i] == e && Front(codes)[i] == Some(200);
          assert batch[i] == e && codes[i] == Some(200);
        } else {
          assert batch[|batch| - 1] == e && codes[|batch| - 1] == Some(200);
        }
      }
    }
  }

  // Under conflict-freedom every entry reads as if it were alone.
  lemma BatchReadsAlone(dec: Decoder, q: Queue, batch: Queue, e: UpdateEntry)
    requires WellFormedQueue(dec, q) && ConflictFree(q, batch) && e in batch
    ensures ReadsAlone(q, NeedDisk(q, SliceFor(batch, e.shardId)), e.cmd)
  {
    SliceMembers(batch, e.shardId);
  }

  lemma VerdictAlone(dec: Decoder, block: BoltDb, q: Queue, need: bool, cmd: Command)
    requires ReadsAlone(q, need, cmd) && WellFormedQueue(dec, q)
    ensures Verdict(dec, block, q, need, cmd) ==
              Verdict(dec, block, q, LatestHit(q, cmd.part, cmd.id).None?, cmd)
  {
    LatestHitSound(dec, q, cmd.part, cmd.id);
  }

  lemma PrefixUnfold(dec: Decoder, disk: Disk, q: Queue, batch: Queue, codes: Codes, n: nat)
    requires 0 < n <= |batch| && |codes| == |batch|
    requires SubmitAll(dec, disk, q, batch[..n - 1]) == (q + AcceptedOf(batch[..n - 1], codes[..n - 1]), codes[..n - 1])
    requires Submit(dec, disk, q + AcceptedOf(batch[..n - 1], codes[..n - 1]), batch[n - 1]).1 == codes[n - 1]
    ensures SubmitAll(dec, disk, q, batch[..n]) == (q + AcceptedOf(batch[..n], codes[..n]), codes[..n])
  {
    var e, added := batch[n - 1], AcceptedOf(batch[..n - 1], codes[..n - 1]);
    assert Front(batch[..n]) == batch[..n - 1] && Last(batch[..n]) == e;
    assert Front(codes[..n]) == codes[..n - 1] && Last(codes[..n]) == codes[n - 1];
    assert (q + added) + [e] == q + (added + [e]);
    assert codes[..n] == codes[..n - 1] + [codes[n - 1]];
  }

  // What one-entry Updates have decided after n entries of a conflict-free batch.
  lemma {:induction false} SequencePrefix(dec: Decoder, disk: Disk, q: Queue, batch: Queue, n: nat)
    requires WellFormedQueue(dec, q) && WellFormedQueue(dec, batch) && ConflictFree(q, batch)
    requires n <= |batch|
    ensures var r := SubmitAll(dec, disk, q, batch[..n]); var codes := BatchCodes(dec, disk, q, batch)[..n];
      r.1 == codes && r.0 == q + AcceptedOf(batch[..n], codes)
  {
    if n == 0 {
      assert q + [] == q;
    } else {
      SequencePrefix(dec, disk, q, batch, n - 1);
      SequenceStep(dec, disk, q, batch, n - 1);
      PrefixUnfold(dec, disk, q, batch, BatchCodes(dec, disk, q, batch), n);
    }
  }

  // The entry at position n is decided alike on the starting queue and after its predecessors.
  lemma SequenceStep(dec: Decoder, disk: Disk, q: Queue, batch: Queue, n: nat)
    requires WellFormedQueue(dec, q) && WellFormedQueue(dec, batch) && ConflictFree(q, batch)
    requires n < |batch|
    ensures var codes := BatchCodes(dec, disk, q, batch);
            var q' := q + AcceptedOf(batch[..n], codes[..n]);
      && Submit(dec, disk, q', batch[n]).1 == codes[n]
      && HitOf(q', batch[n]) == HitOf(q, batch[n])
  {
    var codes, e := BatchCodes(dec, disk, q, batch), batch[n];
    var added := AcceptedOf(batch[..n], codes[..n]);
    var q' := q + added;
    AcceptedOfMembers(batch[..n], codes[..n]);
    forall a | a in added ensures Queueable(dec, a) && !Hits(a.cmd, e.cmd.part, e.cmd.id) {
      var i :| 0 <= i < n && batch[..n][i] == a && codes[..n][i] == Some(200);
      assert batch[i] == a && codes[i] == Some(200);
    }
    LatestHitSkips(q, added, e.cmd.part, e.cmd.id);
    NeedDiskAlone(q', e);
    if e.shardId in disk {
      BatchReadsAlone(dec, q, batch, e);
      VerdictAlone(dec, disk[e.shardId].block, q, NeedDisk(q, SliceFor(batch, e.shardId)), e.cmd);
    }
  }

  // One Update of a conflict-free batch is one-entry Updates in log order: the same codes and, shard
  // by shard, the same queue.
  lemma BatchEqualsSequence(dec: Decoder, disk: Disk, q: Queue, batch: Queue, order: seq<char>)
    requires WellFormedQueue(dec, q) && WellFormedQueue(dec, batch) && ConflictFree(q, batch)
    requires CompleteOrder(disk, order) && !UpdateInOrder(dec, disk, q, batch, order).failed
    ensures var o := UpdateInOrder(dec, disk, q, batch, order); var r := SubmitAll(dec, disk, q, batch);
      o.codes == r.1 && SameSlices(o.pending, r.0)
  {
    UpdateOutcome(dec, disk, q, batch, order);
    SequencePrefix(dec, disk, q, batch, |batch|);
    var codes := BatchCodes(dec, disk, q, batch);
    assert batch[..|batch|] == batch && codes[..|batch|] == codes;
  }

  // ---------------------------------------------------------------- validity

  // Documents the state machine stored itself always decode.
  lemma NeverFails(dec: Decoder, disk: Disk, q: Queue, batch: Queue)
    requires SoundDisk(dec, disk) && WellFormedQueue(dec, batch)
    ensures !BatchFails(dec, disk, q, batch, disk.Keys)
  {
    forall c | c in disk ensures !ShardFails(dec, disk[c].block, q, SliceFor(batch, c)) {
      SliceMembers(batch, c);
      forall e | e in SliceFor(batch, c) ensures FindingFor(dec, disk[c].block, q, true, e.cmd).Some? {
        assert Queueable(dec, e);
        DiskLookup(dec, disk, e.cmd.part, e.cmd.id);
      }
    }
  }

  lemma {:induction false} SubmitAllKeepsSound(dec: Decoder, disk: Disk, q: Queue, batch: Queue)
    requires Sound(dec, disk, q) && WellFormedQueue(dec, batch)
    ensures Sound(dec, disk, SubmitAll(dec, disk, q, batch).0)
  {
    if batch != [] {
      SubmitAllKeepsSound(dec, disk, q, Front(batch));
      assert Queueable(dec, Last(batch));
      SubmitKeepsSound(dec, disk, SubmitAll(dec, disk, q, Front(batch)).0, Last(batch));
    }
  }

  // Interleaving keeps everything the state machine relies on.
  lemma SoundUpToInterleaving(dec: Decoder, disk: Disk, q1: Queue, q2: Queue)
    requires Sound(dec, disk, q1) && WellFormedQueue(dec, q2) && SameSlices(q1, q2)
    ensures Sound(dec, disk, q2) && View(dec, disk, q2) == View(dec, disk, q1)
  {
    InterleavingIrrelevant(dec, DiskStore(dec, disk), q1, q2);
    forall e | e in q2 ensures e.shardId in disk {
      SliceMembers(q2, e.shardId);
      SliceMembers(q1, e.shardId);
      assert SliceFor(q1, e.shardId) == SliceFor(q2, e.shardId);
      assert e in SliceFor(q1, e.shardId);
    }
  }

  // A conflict-free batch never fails and keeps the queue valid, pending DELs or not.
  lemma BatchKeepsSound(dec: Decoder, disk: Disk, q: Queue, batch: Queue, order: seq<char>)
    requires Sound(dec, disk, q) && WellFormedQueue(dec, batch) && ConflictFree(q, batch)
    requires CompleteOrder(disk, order)
    ensures var o := UpdateInOrder(dec, disk, q, batch, order);
      !o.failed && Sound(dec, disk, o.pending)
  {
    NeverFails(dec, disk, q, batch);
    UpdateOutcome(dec, disk, q, batch, order);
    BatchEqualsSequence(dec, disk, q, batch, order);
    SubmitAllKeepsSound(dec, disk, q, batch);
    var pending := UpdateInOrder(dec, disk, q, batch, order).pending;
    SoundUpToInterleaving(dec, disk, SubmitAll(dec, disk, q, batch).0, pending);
  }

  // What a batch finds of every partition is whether the store has it.
  lemma BatchPartExists(dec: Decoder, disk: Disk, q: Queue, batch: Queue, e: UpdateEntry)
    requires Sound(dec, disk, q) && WellFormedQueue(dec, batch) && ConflictFree(q, batch)
    requires e in batch && e.shardId in disk
    ensures var f := FindingFor(dec, disk[e.shardId].block, q, NeedDisk(q, SliceFor(batch, e.shardId)), e.cmd);
      f.Some? && (f.value.partExists <==> e.cmd.part in View(dec, disk, q))
  {
    assert Queueable(dec, e);
    BatchReadsAlone(dec, q, batch, e);
    FindingTruth(dec, disk, q, NeedDisk(q, SliceFor(batch, e.shardId)), e.cmd);
  }

  // ---------------------------------------------------------------- refinement

  function CmdsOf(batch: Queue): (log: seq<Command>)
    ensures |log| == |batch|
  {
    seq(|batch|, i requires 0 <= i < |batch| => batch[i].cmd)
  }

  // Every entry has a shard, and no document command follows a pending DEL of its document.
  predicate Plain(disk: Disk, q: Queue, batch: Queue) {
    forall e :: e in batch ==> e.shardId in disk && !HitsDelete(q, e.cmd)
  }

  lemma SubmitJoins(dec: Decoder, disk: Disk, st: Store, log: seq<Command>, codes: Codes, q: Queue, e: UpdateEntry)
    requires Sound(dec, disk, q) && Executes(st, log, codes, View(dec, disk, q))
    requires Queueable(dec, e) && e.shardId in disk && !HitsDelete(q, e.cmd)
    ensures var r := Submit(dec, disk, q, e);
      && Sound(dec, disk, r.0)
      && Executes(st, log + [e.cmd], codes + [r.1], View(dec, disk, r.0))
  {
    SubmitRefines(dec, disk, q, e);
    var (q', code) := Submit(dec, disk, q, e);
    ExecutesOne(View(dec, disk, q), e.cmd);
    ExecutesJoin(st, log, codes, View(dec, disk, q), [e.cmd], [code], View(dec, disk, q'));
  }

  lemma SubmitAllLast(dec: Decoder, disk: Disk, q: Queue, batch: Queue)
    requires batch != []
    ensures var (q', codes) := SubmitAll(dec, disk, q, Front(batch));
            var (q'', code) := Submit(dec, disk, q', Last(batch));
      SubmitAll(dec, disk, q, batch) == (q'', codes + [code])
    ensures CmdsOf(batch) == CmdsOf(Front(batch)) + [Last(batch).cmd]
  {
  }

  lemma {:induction false} SequenceRefines(dec: Decoder, disk: Disk, q: Queue, batch: Queue)
    requires Sound(dec, disk, q) && WellFormedQueue(dec, batch) && ConflictFree(q, batch) && Plain(disk, q, batch)
    ensures var r := SubmitAll(dec, disk, q, batch);
      && Sound(dec, disk, r.0)
      && Executes(View(dec, disk, q), CmdsOf(batch), r.1, View(dec, disk, r.0))
  {
    if batch == [] {
      assert CmdsOf(batch) == [];
    } else {
      var rest, e := Front(batch), Last(batch);
      ConflictFreeFront(q, batch);
      SequenceRefines(dec, disk, q, rest);
      var (q', codes) := SubmitAll(dec, disk, q, rest);
      SubmitAllLast(dec, disk, q, batch);
      LastAvoidsDelete(dec, disk, q, batch);
      SubmitJoins(dec, disk, View(dec, disk, q), CmdsOf(rest), codes, q', e);
    }
  }

  // The last entry still does not follow a pending DEL once its predecessors are queued.
  lemma LastAvoidsDelete(dec: Decoder, disk: Disk, q: Queue, batch: Queue)
    requires WellFormedQueue(dec, q) && WellFormedQueue(dec, batch) && ConflictFree(q, batch)
    requires batch != [] && Plain(disk, q, batch)
    ensures !HitsDelete(SubmitAll(dec, disk, q, Front(batch)).0, Last(batch).cmd)
  {
    SequencePrefix(dec, disk, q, batch, |batch| - 1);
    SequenceStep(dec, disk, q, batch, |batch| - 1);
  }

  // One Update of such a batch is the plain execution of its entries one at a time.
  lemma BatchRefines(dec: Decoder, disk: Disk, q: Queue, batch: Queue, order: seq<char>)
    requires Sound(dec, disk, q) && WellFormedQueue(dec, batch) && ConflictFree(q, batch) && Plain(disk, q, batch)
    requires CompleteOrder(disk, order)
    ensures var o := UpdateInOrder(dec, disk, q, batch, order);
      && !o.failed && Sound(dec, disk, o.pending)
      && Executes(View(dec, disk, q), CmdsOf(batch), o.codes, View(dec, disk, o.pending))
  {
    BatchKeepsSound(dec, disk, q, batch, order);
    BatchEqualsSequence(dec, disk, q, batch, order);
    SequenceRefines(dec, disk, q, batch);
    var pending := UpdateInOrder(dec, disk, q, batch, order).pending;
    SoundUpToInterleaving(dec, disk, SubmitAll(dec, disk, q, batch).0, pending);
  }
}
