// How `Update` decides a batch of entries: first against the pending queue, then against the disk,
// one shard at a time in the order the shard map happens to be walked.
module Deciding {
  import opened Basics
  import opened Commands
  import opened PendingQueue
  import opened ShardStore
  import opened DiskView

  type Codes = seq<Option<nat>>

  // ---------------------------------------------------------------- one entry

  function FindInQueue(q: Queue, cmd: Command): (f: Finding) {
    match LatestHit(q, cmd.part, cmd.id)
    case None => Finding(false, None)
    case Some(hit) =>
      if hit.kind.CREATE_PART? then Finding(true, None)
      else if hit.kind.DELETE_PART? then Finding(false, None)
      else Finding(true, Some(hit.doc))
  }

  // The disk is consulted for every entry of a shard's slice as soon as one of them needs it.
  function FindingFor(dec: Decoder, block: BoltDb, q: Queue, needDisk: bool, cmd: Command): (f: Option<Finding>) {
    if needDisk then FindOnDisk(dec, block, cmd, FindInQueue(q, cmd)) else Some(FindInQueue(q, cmd))
  }

  // The code for a command given what was found; None when the result slot is left untouched.
  function Decide(cmd: Command, f: Finding): (code: Option<nat>) {
    match cmd.kind
    case PUT | DEL =>
      Some(if !f.partExists || f.existingDoc.None? then 404
           else if f.existingDoc.value.updated != cmd.ts then 409
           else 200)
    case POST => Some(if !f.partExists then 404 else if f.existingDoc.Some? then 409 else 200)
    case CREATE_PART => Some(if f.partExists then 409 else 200)
    case DELETE_PART => Some(if f.partExists then 200 else 404)
    case _ => None
  }

  function Verdict(dec: Decoder, block: BoltDb, q: Queue, needDisk: bool, cmd: Command): (code: Option<nat>) {
    match FindingFor(dec, block, q, needDisk, cmd)
    case None => None
    case Some(f) => Decide(cmd, f)
  }

  // ---------------------------------------------------------------- one shard

  predicate NeedDisk(q: Queue, slice: Queue) {
    exists e :: e in slice && LatestHit(q, e.cmd.part, e.cmd.id).None?
  }

  function Accepted(dec: Decoder, block: BoltDb, q: Queue, needDisk: bool, slice: Queue): (r: Queue) {
    if slice == [] then []
    else
      var before := Accepted(dec, block, q, needDisk, Front(slice));
      if Verdict(dec, block, q, needDisk, Last(slice).cmd) == Some(200) then before + [Last(slice)] else before
  }

  // A stored document of the slice does not decode.
  predicate ShardFails(dec: Decoder, block: BoltDb, q: Queue, slice: Queue) {
    NeedDisk(q, slice) && exists e :: e in slice && FindingFor(dec, block, q, true, e.cmd).None?
  }

  // ---------------------------------------------------------------- the walk over the shards

  // The queue, the result slots written so far (None: untouched), and whether the call was cut
  // short by a document that does not decode.
  datatype Outcome = Outcome(pending: Queue, codes: Codes, failed: bool)

  function ShardPass(dec: Decoder, block: BoltDb, batch: Queue, c: char, o: Outcome): (r: Outcome)
    requires |o.codes| == |batch|
    ensures |r.codes| == |batch|
  {
    var slice := SliceFor(batch, c);
    if ShardFails(dec, block, o.pending, slice) then o.(failed := true)
    else
      var need := NeedDisk(o.pending, slice);
      Outcome(o.pending + Accepted(dec, block, o.pending, need, slice),
              seq(|batch|, i requires 0 <= i < |batch| =>
                if batch[i].shardId == c then Verdict(dec, block, o.pending, need, batch[i].cmd) else o.codes[i]),
              false)
  }

  function Untouched(batch: Queue): (codes: Codes)
    ensures |codes| == |batch|
  {
    seq(|batch|, _ => None)
  }

  function UpdateInOrder(dec: Decoder, disk: Disk, q: Queue, batch: Queue, order: seq<char>): (o: Outcome)
    requires forall c :: c in order ==> c in disk
    ensures |o.codes| == |batch|
  {
    if order == [] then Outcome(q, Untouched(batch), false)
    else
      var o := UpdateInOrder(dec, disk, q, batch, Front(order));
      if o.failed then o else ShardPass(dec, disk[Last(order)].block, batch, Last(order), o)
  }

  // A walk over the shard map: every shard exactly once.
  predicate CompleteOrder(disk: Disk, order: seq<char>) {
    && (forall c :: c in disk <==> c in order)
    && (forall i, j :: 0 <= i < j < |order| ==> order[i] != order[j])
  }

  // ---------------------------------------------------------------- the order does not matter

  // What the code of every entry is, whatever the order.
  function BatchCode(dec: Decoder, disk: Disk, q: Queue, batch: Queue, e: UpdateEntry): (code: Option<nat>) {
    if e.shardId in disk
    then Verdict(dec, disk[e.shardId].block, q, NeedDisk(q, SliceFor(batch, e.shardId)), e.cmd)
    else None
  }

  function BatchCodes(dec: Decoder, disk: Disk, q: Queue, batch: Queue): (codes: Codes)
    ensures |codes| == |batch|
  {
    seq(|batch|, i requires 0 <= i < |batch| => BatchCode(dec, disk, q, batch, batch[i]))
  }

  // The entries whose code is 200, in log order.
  function AcceptedOf(batch: Queue, codes: Codes): (r: Queue)
    requires |codes| == |batch|
  {
    if batch == [] then []
    else
      var before := AcceptedOf(Front(batch), Front(codes));
      if Last(codes) == Some(200) then before + [Last(batch)] else before
  }

  predicate BatchFails(dec: Decoder, disk: Disk, q: Queue, batch: Queue, shards: set<char>) {
    exists c :: c in shards && c in disk && ShardFails(dec, disk[c].block, q, SliceFor(batch, c))
  }

  // Queues with the same slice for a shard look the same to the entries of that shard.
  lemma PassIsLocal(dec: Decoder, block: BoltDb, q1: Queue, q2: Queue, slice: Queue, c: char)
    requires WellFormedQueue(dec, q1) && WellFormedQueue(dec, q2) && SliceFor(q1, c) == SliceFor(q2, c)
    requires WellFormedQueue(dec, slice) && forall e :: e in slice ==> e.shardId == c
    ensures forall e :: e in slice ==> FindInQueue(q1, e.cmd) == FindInQueue(q2, e.cmd)
    ensures NeedDisk(q1, slice) == NeedDisk(q2, slice)
    ensures ShardFails(dec, block, q1, slice) == ShardFails(dec, block, q2, slice)
    ensures forall need :: Accepted(dec, block, q1, need, slice) == Accepted(dec, block, q2, need, slice)
  {
    forall e | e in slice
      ensures LatestHit(q1, e.cmd.part, e.cmd.id) == LatestHit(q2, e.cmd.part, e.cmd.id)
    {
      assert Queueable(dec, e);
      LatestHitInSlice(dec, q1, e.cmd.part, e.cmd.id);
      LatestHitInSlice(dec, q2, e.cmd.part, e.cmd.id);
    }
    forall need ensures Accepted(dec, block, q1, need, slice) == Accepted(dec, block, q2, need, slice) {
      AcceptedIsLocal(dec, block, q1, q2, need, slice);
    }
  }

  lemma {:induction false} AcceptedIsLocal(dec: Decoder, block: BoltDb, q1: Queue, q2: Queue, need: bool, slice: Queue)
    requires forall e :: e in slice ==> FindInQueue(q1, e.cmd) == FindInQueue(q2, e.cmd)
    ensures Accepted(dec, block, q1, need, slice) == Accepted(dec, block, q2, need, slice)
  {
    if slice != [] {
      AcceptedIsLocal(dec, block, q1, q2, need, Front(slice));
    }
  }

  lemma AcceptedSnoc(dec: Decoder, block: BoltDb, q: Queue, need: bool, slice: Queue, k: nat)
    requires k < |slice|
    ensures q + Accepted(dec, block, q, need, slice[..k + 1]) ==
              var before := q + Accepted(dec, block, q, need, slice[..k]);
              if Verdict(dec, block, q, need, slice[k].cmd) == Some(200) then before + [slice[k]] else before
  {
    assert Front(slice[..k + 1]) == slice[..k] && Last(slice[..k + 1]) == slice[k];
    ConcatAssociative(q, Accepted(dec, block, q, need, slice[..k]), [slice[k]]);
  }

  lemma WalkSnoc(dec: Decoder, disk: Disk, q: Queue, batch: Queue, order: seq<char>, c: char)
    requires c in disk && (forall d :: d in order ==> d in disk)
    requires !UpdateInOrder(dec, disk, q, batch, order).failed
    ensures forall d :: d in order + [c] ==> d in disk
    ensures UpdateInOrder(dec, disk, q, batch, order + [c]) ==
              ShardPass(dec, disk[c].block, batch, c, UpdateInOrder(dec, disk, q, batch, order))
  {
    assert Front(order + [c]) == order && Last(order + [c]) == c;
  }

  lemma {:induction false} AcceptedMembers(dec: Decoder, block: BoltDb, q: Queue, need: bool, slice: Queue)
    ensures forall e :: e in Accepted(dec, block, q, need, slice) ==>
              e in slice && Verdict(dec, block, q, need, e.cmd) == Some(200)
  {
    if slice != [] {
      AcceptedMembers(dec, block, q, need, Front(slice));
      FrontLast(slice);
    }
  }

  // One shard's pass, seen from the queue the call started with.
  lemma PassFromStart(dec: Decoder, block: BoltDb, q: Queue, batch: Queue, c: char, o: Outcome)
    requires WellFormedQueue(dec, q) && WellFormedQueue(dec, batch) && WellFormedQueue(dec, o.pending)
    requires |o.codes| == |batch| && !o.failed
    requires SliceFor(o.pending, c) == SliceFor(q, c)
    ensures var r := ShardPass(dec, block, batch, c, o); var slice := SliceFor(batch, c);
      && (r.failed <==> ShardFails(dec, block, q, slice))
      && (!r.failed ==>
            && WellFormedQueue(dec, r.pending)
            && SliceFor(r.pending, c) == SliceFor(q, c) + Accepted(dec, block, q, NeedDisk(q, slice), slice)
            && (forall d :: d != c ==> SliceFor(r.pending, d) == SliceFor(o.pending, d))
            && (forall i :: 0 <= i < |batch| ==>
                  r.codes[i] == (if batch[i].shardId == c
                                 then Verdict(dec, block, q, NeedDisk(q, slice), batch[i].cmd)
                                 else o.codes[i])))
  {
    var slice := SliceFor(batch, c);
    SliceMembers(batch, c);
    PassIsLocal(dec, block, o.pending, q, slice, c);
    var need := NeedDisk(q, slice);
    var added := Accepted(dec, block, q, need, slice);
    AcceptedMembers(dec, block, q, need, slice);
    SliceConcat(o.pending, added, c);
    SliceOfOwn(added, c);
    forall d | d != c ensures SliceFor(o.pending + added, d) == SliceFor(o.pending, d) {
      SliceConcat(o.pending, added, d);
      SliceOfOther(added, d);
    }
    forall i | 0 <= i < |batch| && batch[i].shardId == c
      ensures Verdict(dec, block, o.pending, need, batch[i].cmd) == Verdict(dec, block, q, need, batch[i].cmd)
    {
      assert batch[i] in slice;
    }
  }

  // The walk in any order, seen from the queue the call started with.
  lemma {:induction false} WalkFromStart(dec: Decoder, disk: Disk, q: Queue, batch: Queue, order: seq<char>)
    requires WellFormedQueue(dec, q) && WellFormedQueue(dec, batch)
    requires forall c :: c in order ==> c in disk
    requires forall i, j :: 0 <= i < j < |order| ==> order[i] != order[j]
    ensures var o := UpdateInOrder(dec, disk, q, batch, order);
      && (o.failed <==> BatchFails(dec, disk, q, batch, set c | c in order))
      && (!o.failed ==>
            && WellFormedQueue(dec, o.pending)
            && (forall c :: c in order ==>
                  var slice := SliceFor(batch, c);
                  SliceFor(o.pending, c) ==
                    SliceFor(q, c) + Accepted(dec, disk[c].block, q, NeedDisk(q, slice), slice))
            && (forall c :: c !in order ==> SliceFor(o.pending, c) == SliceFor(q, c))
            && (forall i :: 0 <= i < |batch| ==>
                  o.codes[i] == (if batch[i].shardId in order
                                 then BatchCode(dec, disk, q, batch, batch[i])
                                 else None)))
  {
    if order != [] {
      var c, rest := Last(order), Front(order);
      assert c !in rest;
      FrontLast(order);
      WalkFromStart(dec, disk, q, batch, rest);
      var o := UpdateInOrder(dec, disk, q, batch, rest);
      var shards, shards0 := set d | d in order, set d | d in rest;
      assert shards == shards0 + {c};
      if !o.failed {
        PassFromStart(dec, disk[c].block, q, batch, c, o);
      }
    }
  }

  // The disk pass of a shard fails exactly when it runs and, for some document command whose document
  // no queued document command names, the stored bytes do not decode.
  lemma ShardFailsExactly(dec: Decoder, block: BoltDb, q: Queue, slice: Queue)
    ensures ShardFails(dec, block, q, slice) <==>
              && (exists e :: e in slice && LatestHit(q, e.cmd.part, e.cmd.id).None?)
              && exists e :: e in slice && Undecodable(dec, block, q, e.cmd)
  {
    forall e | e in slice
      ensures FindingFor(dec, block, q, true, e.cmd).None? <==> Undecodable(dec, block, q, e.cmd)
    {
    }
  }

  predicate Undecodable(dec: Decoder, block: BoltDb, q: Queue, cmd: Command) {
    var hit, key := LatestHit(q, cmd.part, cmd.id), cmd.part + ":" + cmd.id;
    && !cmd.isPart && (hit.Some? ==> IsPartKind(hit.value.kind))
    && cmd.part in block && key in block[cmd.part]
    && block[cmd.part][key] != "" && dec(block[cmd.part][key]).None?
  }

  // A walk cut short by a document that does not decode has decided the shards before that one and
  // nothing else.
  lemma {:induction false} FailedWalk(dec: Decoder, disk: Disk, q: Queue, batch: Queue, order: seq<char>)
    returns (n: nat)
    requires forall c :: c in order ==> c in disk
    requires UpdateInOrder(dec, disk, q, batch, order).failed
    ensures n < |order|
    ensures var o := UpdateInOrder(dec, disk, q, batch, order);
            var before := UpdateInOrder(dec, disk, q, batch, order[..n]);
      && !before.failed && o.pending == before.pending && o.codes == before.codes
      && ShardFails(dec, disk[order[n]].block, o.pending, SliceFor(batch, order[n]))
  {
    if UpdateInOrder(dec, disk, q, batch, Front(order)).failed {
      n := FailedWalk(dec, disk, q, batch, Front(order));
      assert Front(order)[..n] == order[..n];
    } else {
      n := |order| - 1;
    }
  }

  // An Update cut short: exactly the entries of the shards walked before the failing one have codes,
  // and the queue has grown by exactly those coded 200, shard by shard.
  lemma FailedOutcome(dec: Decoder, disk: Disk, q: Queue, batch: Queue, order: seq<char>) returns (n: nat)
    requires WellFormedQueue(dec, q) && WellFormedQueue(dec, batch)
    requires forall c :: c in order ==> c in disk
    requires forall i, j :: 0 <= i < j < |order| ==> order[i] != order[j]
    requires UpdateInOrder(dec, disk, q, batch, order).failed
    ensures n < |order|
    ensures ShardFails(dec, disk[order[n]].block, q, SliceFor(batch, order[n]))
    ensures var o := UpdateInOrder(dec, disk, q, batch, order);
      && (forall i :: 0 <= i < |batch| ==>
            o.codes[i] == if batch[i].shardId in order[..n] then BatchCode(dec, disk, q, batch, batch[i]) else None)
      && (forall c :: SliceFor(o.pending, c) ==
            SliceFor(q, c) +
              if c in order[..n]
              then Accepted(dec, disk[c].block, q, NeedDisk(q, SliceFor(batch, c)), SliceFor(batch, c))
              else [])
  {
    n := FailedWalk(dec, disk, q, batch, order);
    assert forall c :: c in order[..n] ==> c in order;
    WalkFromStart(dec, disk, q, batch, order[..n]);
    var o, c := UpdateInOrder(dec, disk, q, batch, order), order[n];
    assert c !in order[..n];
    SliceMembers(batch, c);
    PassIsLocal(dec, disk[c].block, o.pending, q, SliceFor(batch, c), c);
    forall d ensures SliceFor(q, d) + [] == SliceFor(q, d) {
    }
  }

  // The slice of the accepted entries is what the shard's pass accepts.
  lemma {:induction false} AcceptedBySlice(dec: Decoder, disk: Disk, q: Queue, batch: Queue,
                                           need: map<char, bool>, codes: Codes, c: char)
    requires |codes| == |batch| && need.Keys == disk.Keys
    requires forall i :: 0 <= i < |batch| ==>
               codes[i] == (if batch[i].shardId in disk
                            then Verdict(dec, disk[batch[i].shardId].block, q, need[batch[i].shardId], batch[i].cmd)
                            else None)
    ensures SliceFor(AcceptedOf(batch, codes), c) ==
              if c in disk then Accepted(dec, disk[c].block, q, need[c], SliceFor(batch, c)) else []
  {
    if batch != [] {
      AcceptedBySlice(dec, disk, q, Front(batch), need, Front(codes), c);
      SliceConcat(AcceptedOf(Front(batch), Front(codes)), [Last(batch)], c);
      if c in disk && Last(batch).shardId == c {
        assert Front(SliceFor(batch, c)) == SliceFor(Front(batch), c);
      }
      assert SliceFor([Last(batch)], c) == if Last(batch).shardId == c then [Last(batch)] else [];
    }
  }

  // An error-free call, whatever the order of the walk: the codes are the order-free ones and the
  // queue grows, shard by shard and in log order, by exactly the entries coded 200.
  lemma UpdateOutcome(dec: Decoder, disk: Disk, q: Queue, batch: Queue, order: seq<char>)
    requires WellFormedQueue(dec, q) && WellFormedQueue(dec, batch) && CompleteOrder(disk, order)
    ensures var o := UpdateInOrder(dec, disk, q, batch, order);
      && (o.failed <==> BatchFails(dec, disk, q, batch, disk.Keys))
      && (!o.failed ==>
            && o.codes == BatchCodes(dec, disk, q, batch)
            && WellFormedQueue(dec, o.pending)
            && SameSlices(o.pending, q + AcceptedOf(batch, o.codes)))
  {
    WalkFromStart(dec, disk, q, batch, order);
    assert disk.Keys == set c | c in order;
    var o := UpdateInOrder(dec, disk, q, batch, order);
    if !o.failed {
      assert o.codes == BatchCodes(dec, disk, q, batch);
      var need := map c | c in disk :: NeedDisk(q, SliceFor(batch, c));
      forall c ensures SliceFor(o.pending, c) == SliceFor(q + AcceptedOf(batch, o.codes), c) {
        AcceptedBySlice(dec, disk, q, batch, need, o.codes, c);
        SliceConcat(q, AcceptedOf(batch, o.codes), c);
      }
    }
  }

  // The queue after an error-free Update, member by member.
  lemma UpdateMembers(dec: Decoder, disk: Disk, q: Queue, batch: Queue, order: seq<char>)
    requires WellFormedQueue(dec, q) && WellFormedQueue(dec, batch) && CompleteOrder(disk, order)
    requires !UpdateInOrder(dec, disk, q, batch, order).failed
    ensures var o := UpdateInOrder(dec, disk, q, batch, order);
      && WellFormedQueue(dec, o.pending)
      && (forall e :: e in o.pending <==> e in q || e in AcceptedOf(batch, o.codes))
  {
    UpdateOutcome(dec, disk, q, batch, order);
    var o := UpdateInOrder(dec, disk, q, batch, order);
    var q' := q + AcceptedOf(batch, o.codes);
    forall e ensures e in o.pending <==> e in q' {
      SliceMembers(o.pending, e.shardId);
      SliceMembers(q', e.shardId);
      assert SliceFor(o.pending, e.shardId) == SliceFor(q', e.shardId);
    }
  }

  // Replica determinism: two replicas that walk their shard maps in different orders fail together,
  // or answer alike, keep the same slices and sync to the same disk (or panic together).
  lemma ReplicaDeterminism(dec: Decoder, disk: Disk, q: Queue, batch: Queue, order1: seq<char>, order2: seq<char>)
    requires WellFormedQueue(dec, q) && WellFormedQueue(dec, batch)
    requires CompleteOrder(disk, order1) && CompleteOrder(disk, order2)
    ensures var o1 := UpdateInOrder(dec, disk, q, batch, order1);
            var o2 := UpdateInOrder(dec, disk, q, batch, order2);
      && o1.failed == o2.failed
      && (!o1.failed ==>
            && o1.codes == o2.codes
            && SameSlices(o1.pending, o2.pending)
            && (Committable(disk, o1.pending) <==> Committable(disk, o2.pending))
            && (Committable(disk, o1.pending) ==>
                  CommitShards(disk, o1.pending, disk.Keys) == CommitShards(disk, o2.pending, disk.Keys)))
  {
    UpdateOutcome(dec, disk, q, batch, order1);
    UpdateOutcome(dec, disk, q, batch, order2);
    var o1 := UpdateInOrder(dec, disk, q, batch, order1);
    var o2 := UpdateInOrder(dec, disk, q, batch, order2);
    if !o1.failed {
      assert SameSlices(o1.pending, o2.pending);
      SameSlicesSameCommit(disk, o1.pending, o2.pending);
    }
  }

  lemma SameSlicesSameCommit(disk: Disk, q1: Queue, q2: Queue)
    requires SameSlices(q1, q2)
    ensures Committable(disk, q1) <==> Committable(disk, q2)
    ensures Committable(disk, q1) ==> CommitShards(disk, q1, disk.Keys) == CommitShards(disk, q2, disk.Keys)
  {
    assert forall c :: c in disk ==> SliceFor(q1, c) == SliceFor(q2, c);
  }
}
