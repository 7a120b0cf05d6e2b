// What an Update does of any batch, conflict-free or not: every entry is decided against a snapshot
// taken before the batch. Exactly when the queue stays valid, when the next Sync completes, and when
// the batch is answered as the plain log or as one-entry Updates would be.
module Snapshots {
  import opened Basics
  import opened Commands
  import opened PlainStore
  import opened PendingQueue
  import opened ShardStore
  import opened DiskView
  import opened Deciding
  import opened Overlay
  import opened Batches

  // ---------------------------------------------------------------- the snapshot

  // Another entry of the slice needs the disk, whose pass then overwrites what the queue said of
  // this entry's partition.
  predicate Misread(q: Queue, batch: Queue, e: UpdateEntry) {
    && NeedDisk(q, SliceFor(batch, e.shardId))
    && HitOf(q, e).Some? && HitOf(q, e).value.isPart
  }

  // The store the entry is decided against: the folded one, or the bare disk.
  ghost function Seen(dec: Decoder, disk: Disk, q: Queue, batch: Queue, e: UpdateEntry): (st: Store)
    requires SoundDisk(dec, disk)
  {
    if Misread(q, batch, e) then DiskStore(dec, disk) else View(dec, disk, q)
  }

  function AfterDeleteCode(cmd: Command): (code: nat) {
    if cmd.kind.POST? || cmd.ts != 0 then 409 else 200
  }

  // The code of an entry, from plain stores and the latest hit alone.
  ghost function Predicted(dec: Decoder, disk: Disk, q: Queue, batch: Queue, e: UpdateEntry): (code: Option<nat>)
    requires SoundDisk(dec, disk)
  {
    if e.shardId !in disk then None
    else if HitsDelete(q, e.cmd) then Some(AfterDeleteCode(e.cmd))
    else Code(Seen(dec, disk, q, batch, e), e.cmd)
  }

  ghost function PredictedCodes(dec: Decoder, disk: Disk, q: Queue, batch: Queue): (codes: Codes)
    requires SoundDisk(dec, disk)
    ensures |codes| == |batch|
  {
    seq(|batch|, i requires 0 <= i < |batch| => Predicted(dec, disk, q, batch, batch[i]))
  }

  // The entries that will be accepted, in log order.
  ghost function PredictedAccepted(dec: Decoder, disk: Disk, q: Queue, batch: Queue): (r: Queue)
    requires SoundDisk(dec, disk)
  {
    AcceptedOf(batch, PredictedCodes(dec, disk, q, batch))
  }

  // An overwritten finding is the one an empty queue would have given.
  lemma MisreadVerdict(dec: Decoder, block: BoltDb, q: Queue, cmd: Command)
    requires LatestHit(q, cmd.part, cmd.id).Some? && IsPartKind(LatestHit(q, cmd.part, cmd.id).value.kind)
    ensures Verdict(dec, block, q, true, cmd) == Verdict(dec, block, [], true, cmd)
  {
  }

  lemma EmptyIsSound(dec: Decoder, disk: Disk)
    requires SoundDisk(dec, disk)
    ensures Sound(dec, disk, []) && View(dec, disk, []) == DiskStore(dec, disk)
  {
  }

  lemma BatchCodeExact(dec: Decoder, disk: Disk, q: Queue, batch: Queue, e: UpdateEntry)
    requires Sound(dec, disk, q) && WellFormedQueue(dec, batch) && e in batch
    ensures BatchCode(dec, disk, q, batch, e) == Predicted(dec, disk, q, batch, e)
  {
    if e.shardId in disk {
      assert Queueable(dec, e);
      SliceMembers(batch, e.shardId);
      LatestHitSound(dec, q, e.cmd.part, e.cmd.id);
      var need := NeedDisk(q, SliceFor(batch, e.shardId));
      if Misread(q, batch, e) {
        MisreadVerdict(dec, disk[e.shardId].block, q, e.cmd);
        EmptyIsSound(dec, disk);
        CodePlain(dec, disk, [], true, e.cmd);
      } else if HitsDelete(q, e.cmd) {
        CodeAfterDelete(dec, disk, q, need, e.cmd);
      } else {
        CodePlain(dec, disk, q, need, e.cmd);
      }
    }
  }

  // The store an Update leaves, in plain terms: the accepted entries of the snapshot, applied in log
  // order.
  lemma UpdateExact(dec: Decoder, disk: Disk, q: Queue, batch: Queue, order: seq<char>)
    requires Sound(dec, disk, q) && WellFormedQueue(dec, batch) && CompleteOrder(disk, order)
    ensures var o := UpdateInOrder(dec, disk, q, batch, order);
      && !o.failed
      && o.codes == PredictedCodes(dec, disk, q, batch)
      && WellFormedQueue(dec, o.pending) && Routed(disk, o.pending)
      && SameSlices(o.pending, q + PredictedAccepted(dec, disk, q, batch))
      && View(dec, disk, o.pending) == Fold(View(dec, disk, q), PredictedAccepted(dec, disk, q, batch))
  {
    NeverFails(dec, disk, q, batch);
    UpdateOutcome(dec, disk, q, batch, order);
    var o := UpdateInOrder(dec, disk, q, batch, order);
    forall i | 0 <= i < |batch| ensures o.codes[i] == Predicted(dec, disk, q, batch, batch[i]) {
      BatchCodeExact(dec, disk, q, batch, batch[i]);
    }
    assert o.codes == PredictedCodes(dec, disk, q, batch);
    var acc := AcceptedOf(batch, o.codes);
    AcceptedOfMembers(batch, o.codes);
    UpdateMembers(dec, disk, q, batch, order);
    assert WellFormedQueue(dec, q + acc);
    InterleavingIrrelevant(dec, DiskStore(dec, disk), o.pending, q + acc);
    FoldConcat(DiskStore(dec, disk), q, acc);
  }

  // ---------------------------------------------------------------- presence of partitions

  predicate CreatesIn(q: Queue, p: string) {
    exists e :: e in q && e.cmd.kind.CREATE_PART? && e.cmd.part == p
  }

  predicate DeletesIn(q: Queue, p: string) {
    exists e :: e in q && e.cmd.kind.DELETE_PART? && e.cmd.part == p
  }

  lemma {:induction false} StaysAbsent(st: Store, q: Queue, p: string)
    requires !CreatesIn(q, p) && (p !in st || DeletesIn(q, p))
    ensures p !in Fold(st, q)
  {
    if q != [] {
      FrontLast(q);
      assert !CreatesIn(Front(q), p);
      if Last(q).cmd.kind.DELETE_PART? && Last(q).cmd.part == p {
      } else {
        StaysAbsent(st, Front(q), p);
      }
    }
  }

  lemma {:induction false} StaysPresent(st: Store, q: Queue, p: string)
    requires !DeletesIn(q, p) && (p in st || CreatesIn(q, p))
    ensures p in Fold(st, q)
  {
    if q != [] {
      FrontLast(q);
      assert !DeletesIn(Front(q), p);
      if Last(q).cmd.kind.CREATE_PART? && Last(q).cmd.part == p {
      } else {
        StaysPresent(st, Front(q), p);
      }
    }
  }

  // No partition is both created and deleted, nor created and written though it is absent.
  predicate OneSided(st: Store, q: Queue) {
    && (forall a, b :: a in q && b in q && a.cmd.part == b.cmd.part && a.cmd.kind.CREATE_PART? ==>
          !b.cmd.kind.DELETE_PART? && (a.cmd.part !in st ==> b.cmd.kind.CREATE_PART?))
    && (forall e :: e in q ==> IsWrite(e.cmd.kind))
  }

  // No part command is followed by a command of its partition.
  predicate PartsOnce(q: Queue) {
    forall i, j :: 0 <= i < j < |q| && IsPartKind(q[i].cmd.kind) ==> q[i].cmd.part != q[j].cmd.part
  }

  // No DELETE_PART is followed by a command of its partition.
  predicate DeletesLast(q: Queue) {
    forall i, j :: 0 <= i < j < |q| && q[i].cmd.kind.DELETE_PART? ==> q[i].cmd.part != q[j].cmd.part
  }

  lemma PrefixMembers(q: Queue, k: nat)
    requires k < |q|
    ensures forall e :: e in q[..k] ==> e in q
    ensures q[k] in q
  {
  }

  // Before its own partition's part commands a command meets what the store held.
  lemma PresenceBefore(st: Store, q: Queue, k: nat)
    requires k < |q|
    requires forall i :: 0 <= i < k && IsPartKind(q[i].cmd.kind) ==> q[i].cmd.part != q[k].cmd.part
    ensures q[k].cmd.part in Fold(st, q[..k]) <==> q[k].cmd.part in st
    ensures ApplicableAt(st, q, k) <==> Applicable(st, q[k].cmd)
  {
    var p := q[k].cmd.part;
    assert !CreatesIn(q[..k], p) && !DeletesIn(q[..k], p);
    if p in st {
      StaysPresent(st, q[..k], p);
    } else {
      StaysAbsent(st, q[..k], p);
    }
  }

  lemma OneSidedValidOnce(st: Store, q: Queue, i: nat, j: nat)
    requires OneSided(st, q) && i < j < |q| && IsPartKind(q[i].cmd.kind) && q[i].cmd.part == q[j].cmd.part
    ensures !(ApplicableAt(st, q, i) && ApplicableAt(st, q, j))
  {
    var p := q[i].cmd.part;
    assert q[i] in q && q[j] in q && q[i] in q[..j];
    PrefixMembers(q, i);
    PrefixMembers(q, j);
    if q[i].cmd.kind.DELETE_PART? {
      assert forall e :: e in q && e.cmd.part == p ==> !e.cmd.kind.CREATE_PART?;
      assert DeletesIn(q[..j], p) && !CreatesIn(q[..j], p);
      StaysAbsent(st, q[..j], p);
    } else {
      assert forall e :: e in q && e.cmd.part == p ==> !e.cmd.kind.DELETE_PART?;
      assert CreatesIn(q[..j], p) && !DeletesIn(q[..j], p) && !DeletesIn(q[..i], p);
      StaysPresent(st, q[..j], p);
      if p in st {
        StaysPresent(st, q[..i], p);
      }
    }
  }

  // Exactly when a one-sided queue is valid on a store.
  lemma ValidExact(st: Store, q: Queue)
    requires OneSided(st, q)
    ensures Valid(st, q) <==> PartsOnce(q) && forall e :: e in q ==> Applicable(st, e.cmd)
  {
    assert q[..|q|] == q;
    ValidPointwise(st, q, |q|);
    if Valid(st, q) {
      forall i, j | 0 <= i < j < |q| && IsPartKind(q[i].cmd.kind) ensures q[i].cmd.part != q[j].cmd.part {
        if q[i].cmd.part == q[j].cmd.part {
          assert ApplicableAt(st, q, i) && ApplicableAt(st, q, j);
          OneSidedValidOnce(st, q, i, j);
        }
      }
    }
    if PartsOnce(q) {
      forall k | 0 <= k < |q| ensures ApplicableAt(st, q, k) <==> Applicable(st, q[k].cmd) {
        PresenceBefore(st, q, k);
      }
      assert forall k :: 0 <= k < |q| ==> q[k] in q;
    }
  }

  lemma OneSidedRunnable(st: Store, q: Queue, k: nat)
    requires OneSided(st, q) && k < |q|
    ensures RunnableAt(st, q, k) <==>
              q[k].cmd.kind.CREATE_PART? || (q[k].cmd.part in st && !DeletesIn(q[..k], q[k].cmd.part))
  {
    var p := q[k].cmd.part;
    assert q[k] in q;
    if q[k].cmd.kind.CREATE_PART? {
      return;
    }
    PrefixMembers(q, k);
    if p in st && !DeletesIn(q[..k], p) {
      StaysPresent(st, q[..k], p);
    } else {
      if e :| e in q[..k] && e.cmd.kind.DELETE_PART? && e.cmd.part == p {
        assert !CreatesIn(q[..k], p);
      } else {
        assert p !in st && !CreatesIn(q[..k], p);
      }
      StaysAbsent(st, q[..k], p);
    }
  }

  // Exactly when every command of a one-sided queue finds its bucket.
  lemma CompletesExact(st: Store, q: Queue)
    requires OneSided(st, q)
    ensures Completes(st, q) <==> DeletesLast(q) && forall e :: e in q && !e.cmd.kind.CREATE_PART? ==> e.cmd.part in st
  {
    assert q[..|q|] == q;
    ValidPointwise(st, q, |q|);
    forall k | 0 <= k < |q|
      ensures RunnableAt(st, q, k) <==>
                q[k].cmd.kind.CREATE_PART? || (q[k].cmd.part in st && !DeletesIn(q[..k], q[k].cmd.part))
    {
      OneSidedRunnable(st, q, k);
    }
    if Completes(st, q) {
      forall i, j | 0 <= i < j < |q| && q[i].cmd.kind.DELETE_PART? ensures q[i].cmd.part != q[j].cmd.part {
        assert RunnableAt(st, q, j) && q[i] in q[..j] && q[i] in q && q[j] in q;
      }
    }
    if DeletesLast(q) {
      forall k | 0 <= k < |q| ensures !DeletesIn(q[..k], q[k].cmd.part) {
        assert forall e :: e in q[..k] ==> exists i :: 0 <= i < k && q[i] == e;
      }
      assert forall k :: 0 <= k < |q| ==> q[k] in q;
    }
  }

  // ---------------------------------------------------------------- validity after a batch

  lemma AcceptedFacts(dec: Decoder, disk: Disk, q: Queue, batch: Queue, e: UpdateEntry)
    requires SoundDisk(dec, disk) && WellFormedQueue(dec, batch)
    requires e in PredictedAccepted(dec, disk, q, batch)
    ensures e in batch && Queueable(dec, e) && e.shardId in disk && IsWrite(e.cmd.kind)
    ensures Predicted(dec, disk, q, batch, e) == Some(200)
  {
    AcceptedOfMembers(batch, PredictedCodes(dec, disk, q, batch));
  }

  lemma AcceptedCodeFits(st: Store, cmd: Command)
    requires Code(st, cmd) == Some(200)
    ensures cmd.kind.CREATE_PART? <==> cmd.part !in st
  {
  }

  // Behind a pending DEL the partition is there, and nothing is overwritten.
  lemma DeleteHitFits(dec: Decoder, disk: Disk, q: Queue, batch: Queue, e: UpdateEntry)
    requires Sound(dec, disk, q) && HitsDelete(q, e.cmd)
    ensures e.cmd.part in View(dec, disk, q) && !Misread(q, batch, e)
  {
    LatestHitSound(dec, q, e.cmd.part, e.cmd.id);
    QueueReveals(dec, DiskStore(dec, disk), q, e.cmd.part, e.cmd.id);
  }

  // An accepted command fits what it was decided against.
  lemma AcceptedFitsSeen(dec: Decoder, disk: Disk, q: Queue, batch: Queue, e: UpdateEntry)
    requires Sound(dec, disk, q) && WellFormedQueue(dec, batch)
    requires e in PredictedAccepted(dec, disk, q, batch)
    ensures e.cmd.kind.CREATE_PART? <==> e.cmd.part !in Seen(dec, disk, q, batch, e)
  {
    AcceptedFacts(dec, disk, q, batch, e);
    if HitsDelete(q, e.cmd) {
      DeleteHitFits(dec, disk, q, batch, e);
    } else {
      AcceptedCodeFits(Seen(dec, disk, q, batch, e), e.cmd);
    }
  }

  // A queued part command of the partition is seen by a lookup of the partition.
  lemma {:induction false} PartHitIsSeen(dec: Decoder, q: Queue, part: string, id: string)
    requires WellFormedQueue(dec, q)
    requires LatestHit(q, part, id).Some? && LatestHit(q, part, id).value.isPart
    ensures LatestHit(q, part, "").Some?
  {
    if !Hits(Last(q).cmd, part, "") {
      PartHitIsSeen(dec, Front(q), part, id);
    }
  }

  lemma SameSlice(dec: Decoder, a: UpdateEntry, b: UpdateEntry)
    requires Queueable(dec, a) && Queueable(dec, b) && a.cmd.part == b.cmd.part
    ensures a.shardId == b.shardId
  {
  }

  // A creation and another command of an absent partition are never both accepted.
  lemma AbsentCreate(dec: Decoder, disk: Disk, q: Queue, batch: Queue, a: UpdateEntry, b: UpdateEntry)
    requires Sound(dec, disk, q) && WellFormedQueue(dec, batch)
    requires a in PredictedAccepted(dec, disk, q, batch) && b in PredictedAccepted(dec, disk, q, batch)
    requires a.cmd.part == b.cmd.part && a.cmd.kind.CREATE_PART? && a.cmd.part !in View(dec, disk, q)
    ensures b.cmd.kind.CREATE_PART?
  {
    var part := a.cmd.part;
    AcceptedFacts(dec, disk, q, batch, a);
    AcceptedFacts(dec, disk, q, batch, b);
    AcceptedFitsSeen(dec, disk, q, batch, a);
    AcceptedFitsSeen(dec, disk, q, batch, b);
    SameSlice(dec, a, b);
    if Misread(q, batch, b) {
      PartHitIsSeen(dec, q, part, b.cmd.id);
      LatestHitSound(dec, q, part, "");
      QueueReveals(dec, DiskStore(dec, disk), q, part, "");
      assert Misread(q, batch, a);
    }
  }

  lemma AcceptedOneSided(dec: Decoder, disk: Disk, q: Queue, batch: Queue)
    requires Sound(dec, disk, q) && WellFormedQueue(dec, batch)
    ensures OneSided(View(dec, disk, q), PredictedAccepted(dec, disk, q, batch))
  {
    var acc := PredictedAccepted(dec, disk, q, batch);
    forall e | e in acc ensures IsWrite(e.cmd.kind) {
      AcceptedFacts(dec, disk, q, batch, e);
    }
    forall a, b | a in acc && b in acc && a.cmd.part == b.cmd.part && a.cmd.kind.CREATE_PART?
      ensures !b.cmd.kind.DELETE_PART?
      ensures a.cmd.part !in View(dec, disk, q) ==> b.cmd.kind.CREATE_PART?
    {
      AcceptedFacts(dec, disk, q, batch, a);
      AcceptedFacts(dec, disk, q, batch, b);
      SameSlice(dec, a, b);
      if b.cmd.kind.DELETE_PART? {
        AcceptedFitsSeen(dec, disk, q, batch, a);
        AcceptedFitsSeen(dec, disk, q, batch, b);
        assert false;
      }
      if a.cmd.part !in View(dec, disk, q) {
        AbsentCreate(dec, disk, q, batch, a, b);
      }
    }
  }

  // No accepted part command is followed by an accepted command of its partition, and every accepted
  // command fits the store before the batch.
  ghost predicate StaysValid(dec: Decoder, disk: Disk, q: Queue, batch: Queue)
    requires SoundDisk(dec, disk)
  {
    var acc := PredictedAccepted(dec, disk, q, batch);
    PartsOnce(acc) && forall e :: e in acc ==> Applicable(View(dec, disk, q), e.cmd)
  }

  // The same with CREATE_PART, which commits harmlessly a second time, left out.
  ghost predicate StaysCommittable(dec: Decoder, disk: Disk, q: Queue, batch: Queue)
    requires SoundDisk(dec, disk)
  {
    var acc := PredictedAccepted(dec, disk, q, batch);
    DeletesLast(acc) && forall e :: e in acc && !e.cmd.kind.CREATE_PART? ==> e.cmd.part in View(dec, disk, q)
  }

  // For every sound state and every batch: exactly when the queue is valid after the Update.
  lemma BatchValidExact(dec: Decoder, disk: Disk, q: Queue, batch: Queue, order: seq<char>)
    requires Sound(dec, disk, q) && WellFormedQueue(dec, batch) && CompleteOrder(disk, order)
    ensures Sound(dec, disk, UpdateInOrder(dec, disk, q, batch, order).pending) <==> StaysValid(dec, disk, q, batch)
  {
    UpdateExact(dec, disk, q, batch, order);
    var pending, acc := UpdateInOrder(dec, disk, q, batch, order).pending, PredictedAccepted(dec, disk, q, batch);
    AcceptedAppends(dec, disk, q, batch, pending);
    AcceptedOneSided(dec, disk, q, batch);
    ValidExact(View(dec, disk, q), acc);
  }

  lemma AcceptedAppends(dec: Decoder, disk: Disk, q: Queue, batch: Queue, pending: Queue)
    requires Sound(dec, disk, q) && WellFormedQueue(dec, batch) && WellFormedQueue(dec, pending)
    requires SameSlices(pending, q + PredictedAccepted(dec, disk, q, batch))
    ensures Valid(DiskStore(dec, disk), pending) <==> Valid(View(dec, disk, q), PredictedAccepted(dec, disk, q, batch))
  {
    var st, acc := DiskStore(dec, disk), PredictedAccepted(dec, disk, q, batch);
    forall e | e in acc ensures Queueable(dec, e) {
      AcceptedFacts(dec, disk, q, batch, e);
    }
    InterleavingIrrelevant(dec, st, pending, q + acc);
    InterleavingIrrelevant(dec, st, q + acc, pending);
    FoldConcat(st, q, acc);
  }

  // For every sound state and every batch: exactly when the next Sync completes.
  lemma BatchSyncExact(dec: Decoder, disk: Disk, q: Queue, batch: Queue, order: seq<char>)
    requires Sound(dec, disk, q) && WellFormedQueue(dec, batch) && CompleteOrder(disk, order)
    ensures Committable(disk, UpdateInOrder(dec, disk, q, batch, order).pending) <==>
              StaysCommittable(dec, disk, q, batch)
  {
    UpdateExact(dec, disk, q, batch, order);
    var st, acc := DiskStore(dec, disk), PredictedAccepted(dec, disk, q, batch);
    forall e | e in acc ensures Queueable(dec, e) && e.shardId in disk {
      AcceptedFacts(dec, disk, q, batch, e);
    }
    SameSlicesSameCommit(disk, UpdateInOrder(dec, disk, q, batch, order).pending, q + acc);
    SyncCompletesExactly(dec, disk, q + acc);
    ValidCompletes(st, q);
    FoldConcat(st, q, acc);
    AcceptedOneSided(dec, disk, q, batch);
    CompletesExact(View(dec, disk, q), acc);
  }

  // ---------------------------------------------------------------- against the plain log

  // Every entry's code is the one the plain log gives it in its place.
  ghost predicate MatchesPlain(dec: Decoder, disk: Disk, q: Queue, batch: Queue)
    requires SoundDisk(dec, disk)
  {
    forall k :: 0 <= k < |batch| ==>
      Predicted(dec, disk, q, batch, batch[k]) == Code(ExecuteAll(View(dec, disk, q), CmdsOf(batch)[..k]), batch[k].cmd)
  }

  lemma {:induction false} AcceptedExecutes(st: Store, batch: Queue)
    ensures Fold(st, AcceptedOf(batch, CodesOf(st, CmdsOf(batch)))) == ExecuteAll(st, CmdsOf(batch))
  {
    if batch != [] {
      AcceptedExecutes(st, Front(batch));
      assert Front(CmdsOf(batch)) == CmdsOf(Front(batch)) && Last(CmdsOf(batch)) == Last(batch).cmd;
      var codes := CodesOf(st, CmdsOf(batch));
      assert Front(codes) == CodesOf(st, CmdsOf(Front(batch)));
      var before := AcceptedOf(Front(batch), Front(codes));
      assert Front(before + [Last(batch)]) == before && Last(before + [Last(batch)]) == Last(batch);
    }
  }

  lemma PredictedIsPlain(dec: Decoder, disk: Disk, q: Queue, batch: Queue)
    requires SoundDisk(dec, disk)
    ensures PredictedCodes(dec, disk, q, batch) == CodesOf(View(dec, disk, q), CmdsOf(batch)) <==>
              MatchesPlain(dec, disk, q, batch)
  {
    var st, log := View(dec, disk, q), CmdsOf(batch);
    forall k | 0 <= k < |batch| ensures CodesOf(st, log)[k] == Code(ExecuteAll(st, log[..k]), batch[k].cmd) {
      CodeAt(st, log, k);
    }
    assert forall k :: 0 <= k < |batch| ==>
        PredictedCodes(dec, disk, q, batch)[k] == Predicted(dec, disk, q, batch, batch[k]);
  }

  // The accepted entries of the snapshot have the effect of the plain log.
  ghost predicate LeavesPlainStore(dec: Decoder, disk: Disk, q: Queue, batch: Queue)
    requires SoundDisk(dec, disk)
  {
    var st := View(dec, disk, q);
    Fold(st, PredictedAccepted(dec, disk, q, batch)) == ExecuteAll(st, CmdsOf(batch))
  }

  // For every sound state and every batch: exactly when an Update answers as the plain log does,
  // and exactly when it leaves the plain log's store; the first implies the second.
  lemma BatchPlainExact(dec: Decoder, disk: Disk, q: Queue, batch: Queue, order: seq<char>)
    requires Sound(dec, disk, q) && WellFormedQueue(dec, batch) && CompleteOrder(disk, order)
    ensures var o := UpdateInOrder(dec, disk, q, batch, order); var st := View(dec, disk, q);
      && !o.failed
      && (o.codes == CodesOf(st, CmdsOf(batch)) <==> MatchesPlain(dec, disk, q, batch))
      && (View(dec, disk, o.pending) == ExecuteAll(st, CmdsOf(batch)) <==> LeavesPlainStore(dec, disk, q, batch))
      && (MatchesPlain(dec, disk, q, batch) ==> Executes(st, CmdsOf(batch), o.codes, View(dec, disk, o.pending)))
  {
    UpdateExact(dec, disk, q, batch, order);
    PredictedIsPlain(dec, disk, q, batch);
    AcceptedExecutes(View(dec, disk, q), batch);
  }

  // ---------------------------------------------------------------- against one-entry Updates

  // Every entry's code is the one a one-entry Update gives it after the accepted entries before it.
  ghost predicate MatchesSequence(dec: Decoder, disk: Disk, q: Queue, batch: Queue)
    requires SoundDisk(dec, disk)
  {
    var codes := PredictedCodes(dec, disk, q, batch);
    forall k :: 0 <= k < |batch| ==> MatchesAt(dec, disk, q, batch, codes, k)
  }

  ghost predicate MatchesAt(dec: Decoder, disk: Disk, q: Queue, batch: Queue, codes: Codes, k: nat)
    requires SoundDisk(dec, disk) && k < |batch| == |codes|
  {
    codes[k] == Predicted(dec, disk, q + AcceptedOf(batch[..k], codes[..k]), [batch[k]], batch[k])
  }

  lemma SubmitCodeExact(dec: Decoder, disk: Disk, q: Queue, e: UpdateEntry)
    requires Sound(dec, disk, q) && Queueable(dec, e)
    ensures Submit(dec, disk, q, e).1 == Predicted(dec, disk, q, [e], e)
  {
    BatchCodeExact(dec, disk, q, [e], e);
  }

  ghost predicate MatchesUpTo(dec: Decoder, disk: Disk, q: Queue, batch: Queue, codes: Codes, n: nat)
    requires SoundDisk(dec, disk) && n <= |batch| == |codes|
  {
    n == 0 || (MatchesUpTo(dec, disk, q, batch, codes, n - 1) && MatchesAt(dec, disk, q, batch, codes, n - 1))
  }

  lemma {:induction false} MatchesUpToAll(dec: Decoder, disk: Disk, q: Queue, batch: Queue, codes: Codes, n: nat)
    requires SoundDisk(dec, disk) && n <= |batch| == |codes|
    ensures MatchesUpTo(dec, disk, q, batch, codes, n) <==>
              forall k :: 0 <= k < n ==> MatchesAt(dec, disk, q, batch, codes, k)
  {
    if n > 0 {
      MatchesUpToAll(dec, disk, q, batch, codes, n - 1);
    }
  }

  lemma {:induction false} SequenceMatches(dec: Decoder, disk: Disk, q: Queue, batch: Queue, codes: Codes, n: nat)
    requires Sound(dec, disk, q) && WellFormedQueue(dec, batch) && |codes| == |batch| && n <= |batch|
    ensures SubmitAll(dec, disk, q, batch[..n]).1 == codes[..n] <==> MatchesUpTo(dec, disk, q, batch, codes, n)
    ensures SubmitAll(dec, disk, q, batch[..n]).1 == codes[..n] ==>
              SubmitAll(dec, disk, q, batch[..n]).0 == q + AcceptedOf(batch[..n], codes[..n])
  {
    if n == 0 {
      assert q + [] == q;
    } else {
      SequenceMatches(dec, disk, q, batch, codes, n - 1);
      SequenceMatchesStep(dec, disk, q, batch, codes, n);
    }
  }

  lemma SequenceMatchesStep(dec: Decoder, disk: Disk, q: Queue, batch: Queue, codes: Codes, n: nat)
    requires Sound(dec, disk, q) && WellFormedQueue(dec, batch) && |codes| == |batch| && 0 < n <= |batch|
    requires SubmitAll(dec, disk, q, batch[..n - 1]).1 == codes[..n - 1] ==>
               SubmitAll(dec, disk, q, batch[..n - 1]).0 == q + AcceptedOf(batch[..n - 1], codes[..n - 1])
    ensures SubmitAll(dec, disk, q, batch[..n]).1 == codes[..n] <==>
              && SubmitAll(dec, disk, q, batch[..n - 1]).1 == codes[..n - 1]
              && MatchesAt(dec, disk, q, batch, codes, n - 1)
    ensures SubmitAll(dec, disk, q, batch[..n]).1 == codes[..n] ==>
              SubmitAll(dec, disk, q, batch[..n]).0 == q + AcceptedOf(batch[..n], codes[..n])
  {
    var prefix, e := batch[..n - 1], batch[n - 1];
    var (q', codes') := SubmitAll(dec, disk, q, prefix);
    SubmitPrefix(dec, disk, q, batch, n);
    assert codes[..n] == codes[..n - 1] + [codes[n - 1]];
    SnocEqual(codes', Submit(dec, disk, q', e).1, codes[..n - 1], codes[n - 1]);
    if codes' == codes[..n - 1] {
      assert e in batch && forall d :: d in prefix ==> d in batch;
      SubmitAllKeepsSound(dec, disk, q, prefix);
      SubmitCodeExact(dec, disk, q', e);
      if Submit(dec, disk, q', e).1 == codes[n - 1] {
        PrefixUnfold(dec, disk, q, batch, codes, n);
      }
    }
  }

  lemma SubmitPrefix(dec: Decoder, disk: Disk, q: Queue, batch: Queue, n: nat)
    requires 0 < n <= |batch|
    ensures var (q', codes) := SubmitAll(dec, disk, q, batch[..n - 1]);
      SubmitAll(dec, disk, q, batch[..n]).1 == codes + [Submit(dec, disk, q', batch[n - 1]).1]
  {
    assert Front(batch[..n]) == batch[..n - 1] && Last(batch[..n]) == batch[n - 1];
  }

  // For every sound state and every batch: exactly when an Update answers as one-entry Updates in
  // log order do; it then leaves, shard by shard, their queue.
  lemma BatchSequenceExact(dec: Decoder, disk: Disk, q: Queue, batch: Queue, order: seq<char>)
    requires Sound(dec, disk, q) && WellFormedQueue(dec, batch) && CompleteOrder(disk, order)
    ensures var o := UpdateInOrder(dec, disk, q, batch, order); var r := SubmitAll(dec, disk, q, batch);
      && (o.codes == r.1 <==> MatchesSequence(dec, disk, q, batch))
      && (MatchesSequence(dec, disk, q, batch) ==> SameSlices(o.pending, r.0))
  {
    UpdateExact(dec, disk, q, batch, order);
    var codes := PredictedCodes(dec, disk, q, batch);
    SequenceMatches(dec, disk, q, batch, codes, |batch|);
    MatchesUpToAll(dec, disk, q, batch, codes, |batch|);
    assert batch[..|batch|] == batch && codes[..|batch|] == codes;
  }

  // ---------------------------------------------------------------- conflict-free batches

  // Conflict-freedom is one way to meet the conditions.
  lemma ConflictFreeMeetsAll(dec: Decoder, disk: Disk, q: Queue, batch: Queue, order: seq<char>)
    requires Sound(dec, disk, q) && WellFormedQueue(dec, batch) && CompleteOrder(disk, order)
    requires ConflictFree(q, batch)
    ensures StaysValid(dec, disk, q, batch) && MatchesSequence(dec, disk, q, batch)
    ensures Plain(disk, q, batch) ==> MatchesPlain(dec, disk, q, batch)
  {
    BatchKeepsSound(dec, disk, q, batch, order);
    BatchValidExact(dec, disk, q, batch, order);
    BatchEqualsSequence(dec, disk, q, batch, order);
    BatchSequenceExact(dec, disk, q, batch, order);
    if Plain(disk, q, batch) {
      BatchRefines(dec, disk, q, batch, order);
      BatchPlainExact(dec, disk, q, batch, order);
    }
  }
}
