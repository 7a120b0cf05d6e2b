// The pending queue: lookups from the back, per-shard slices, and the store it stands for when it
// is laid over another one.
module PendingQueue {
  import opened Basics
  import opened Commands
  import opened PlainStore

  datatype UpdateEntry = UpdateEntry(cmd: Command, index: uint64, shardId: char)

  type Queue = seq<UpdateEntry>

  predicate Queueable(dec: Decoder, e: UpdateEntry) {
    WellFormed(dec, e.cmd) && e.shardId == FirstRune(e.cmd.part)
  }

  predicate WellFormedQueue(dec: Decoder, q: Queue) {
    forall e :: e in q ==> Queueable(dec, e)
  }

  // A queued command answers a lookup of (part, id).
  predicate Hits(pending: Command, part: string, id: string) {
    (pending.isPart && part == pending.part) || (id == pending.id && part == pending.part)
  }

  function LatestHit(q: Queue, part: string, id: string): (hit: Option<Command>) {
    if q == [] then None
    else if Hits(Last(q).cmd, part, id) then Some(Last(q).cmd)
    else LatestHit(Front(q), part, id)
  }

  function SliceFor(q: Queue, c: char): (slice: Queue) {
    if q == [] then []
    else if Last(q).shardId == c then SliceFor(Front(q), c) + [Last(q)]
    else SliceFor(Front(q), c)
  }

  // Two queues that differ only in how the shards are interleaved.
  ghost predicate SameSlices(q1: Queue, q2: Queue) {
    forall c :: SliceFor(q1, c) == SliceFor(q2, c)
  }

  // The store left by applying a queue in order.
  function Fold(st: Store, q: Queue): (r: Store) {
    if q == [] then st else Apply(Fold(st, Front(q)), Last(q).cmd)
  }

  // A CREATE_PART meets an absent partition, every other queued command a present one.
  predicate Applicable(st: Store, cmd: Command) {
    && IsWrite(cmd.kind)
    && (cmd.kind.CREATE_PART? <==> cmd.part !in st)
  }

  predicate Valid(st: Store, q: Queue) {
    q == [] || (Valid(st, Front(q)) && Applicable(Fold(st, Front(q)), Last(q).cmd))
  }

  // A queued command that finds its bucket when it is committed. Creating a bucket again does nothing.
  predicate Runnable(st: Store, cmd: Command) {
    IsWrite(cmd.kind) && !cmd.kind.CREATE_PART? ==> cmd.part in st
  }

  predicate Completes(st: Store, q: Queue) {
    q == [] || (Completes(st, Front(q)) && Runnable(Fold(st, Front(q)), Last(q).cmd))
  }

  lemma {:induction false} ValidCompletes(st: Store, q: Queue)
    requires Valid(st, q)
    ensures Completes(st, q)
  {
    if q != [] {
      ValidCompletes(st, Front(q));
    }
  }

  lemma {:induction false} FoldConcat(st: Store, a: Queue, b: Queue)
    ensures Fold(st, a + b) == Fold(Fold(st, a), b)
    ensures Valid(st, a + b) <==> Valid(st, a) && Valid(Fold(st, a), b)
    ensures Completes(st, a + b) <==> Completes(st, a) && Completes(Fold(st, a), b)
  {
    if b == [] {
      assert a + b == a;
    } else {
      assert Front(a + b) == a + Front(b) && Last(a + b) == Last(b);
      FoldConcat(st, a, Front(b));
    }
  }

  predicate ApplicableAt(st: Store, q: Queue, k: nat)
    requires k < |q|
  {
    Applicable(Fold(st, q[..k]), q[k].cmd)
  }

  predicate RunnableAt(st: Store, q: Queue, k: nat)
    requires k < |q|
  {
    Runnable(Fold(st, q[..k]), q[k].cmd)
  }

  lemma UpTo(st: Store, q: Queue, n: nat)
    requires n < |q|
    ensures Valid(st, q[..n + 1]) <==> Valid(st, q[..n]) && ApplicableAt(st, q, n)
    ensures Completes(st, q[..n + 1]) <==> Completes(st, q[..n]) && RunnableAt(st, q, n)
  {
    assert Front(q[..n + 1]) == q[..n] && Last(q[..n + 1]) == q[n];
  }

  // Validity and completion, position by position.
  lemma {:induction false} ValidPointwise(st: Store, q: Queue, n: nat)
    requires n <= |q|
    ensures Valid(st, q[..n]) <==> forall k :: 0 <= k < n ==> ApplicableAt(st, q, k)
    ensures Completes(st, q[..n]) <==> forall k :: 0 <= k < n ==> RunnableAt(st, q, k)
  {
    if n > 0 {
      ValidPointwise(st, q, n - 1);
      UpTo(st, q, n - 1);
    }
  }

  lemma ValidSnoc(st: Store, q: Queue, e: UpdateEntry)
    ensures Fold(st, q + [e]) == Apply(Fold(st, q), e.cmd)
    ensures Valid(st, q + [e]) <==> Valid(st, q) && Applicable(Fold(st, q), e.cmd)
  {
    assert Front(q + [e]) == q && Last(q + [e]) == e;
  }

  // ---------------------------------------------------------------- lookups

  // What a lookup of (part, id) that ended at `hit` says about a store `s` laid over `st`.
  predicate Reveals(st: Store, s: Store, hit: Option<Command>, part: string, id: string) {
    match hit
    case None =>
      && (part in s <==> part in st)
      && (Holds(s, part, id) <==> Holds(st, part, id))
      && (Holds(st, part, id) ==> s[part][id] == st[part][id])
    case Some(h) =>
      && IsWrite(h.kind)
      && (part in s <==> !h.kind.DELETE_PART?)
      && (Holds(s, part, id) <==> h.kind.PUT? || h.kind.POST?)
      && (h.kind.PUT? || h.kind.POST? ==> s[part][id] == Stored(h.text, h.doc))
  }

  lemma ApplyReveals(dec: Decoder, st: Store, s: Store, hit: Option<Command>, cmd: Command, part: string, id: string)
    requires Reveals(st, s, hit, part, id) && WellFormed(dec, cmd) && Applicable(s, cmd)
    ensures Reveals(st, Apply(s, cmd), if Hits(cmd, part, id) then Some(cmd) else hit, part, id)
  {
    var s' := Apply(s, cmd);
    if cmd.part != part {
      assert (part in s' <==> part in s) && (part in s ==> s'[part] == s[part]);
    } else if cmd.isPart {
      assert part in s' ==> s'[part] == map[];
    } else {
      assert part in s && part in s';
    }
  }

  // A valid queue answers every lookup with the truth about the store it stands for.
  lemma {:induction false} QueueReveals(dec: Decoder, st: Store, q: Queue, part: string, id: string)
    requires WellFormedQueue(dec, q) && Valid(st, q)
    ensures Reveals(st, Fold(st, q), LatestHit(q, part, id), part, id)
  {
    if q != [] {
      QueueReveals(dec, st, Front(q), part, id);
      assert Queueable(dec, Last(q));
      ApplyReveals(dec, st, Fold(st, Front(q)), LatestHit(Front(q), part, id), Last(q).cmd, part, id);
    }
  }

  lemma {:induction false} LatestHitSound(dec: Decoder, q: Queue, part: string, id: string)
    requires WellFormedQueue(dec, q)
    ensures var h := LatestHit(q, part, id);
      h.Some? ==> WellFormed(dec, h.value) && h.value.part == part && Hits(h.value, part, id)
  {
    if q != [] {
      assert Queueable(dec, Last(q));
      LatestHitSound(dec, Front(q), part, id);
    }
  }

  // Entries that do not answer the lookup do not matter.
  lemma {:induction false} LatestHitSkips(q: Queue, more: Queue, part: string, id: string)
    requires forall e :: e in more ==> !Hits(e.cmd, part, id)
    ensures LatestHit(q + more, part, id) == LatestHit(q, part, id)
  {
    if more == [] {
      assert q + more == q;
    } else {
      assert Front(q + more) == q + Front(more) && Last(q + more) == Last(more);
      LatestHitSkips(q, Front(more), part, id);
    }
  }

  // A lookup only ever sees the slice of its own shard.
  lemma {:induction false} LatestHitInSlice(dec: Decoder, q: Queue, part: string, id: string)
    requires WellFormedQueue(dec, q)
    ensures LatestHit(SliceFor(q, FirstRune(part)), part, id) == LatestHit(q, part, id)
  {
    if q != [] {
      var c := FirstRune(part);
      assert Queueable(dec, Last(q));
      LatestHitInSlice(dec, Front(q), part, id);
      if Last(q).shardId == c {
        assert Front(SliceFor(q, c)) == SliceFor(Front(q), c);
      }
    }
  }

  // ---------------------------------------------------------------- slices

  lemma {:induction false} SliceConcat(a: Queue, b: Queue, c: char)
    ensures SliceFor(a + b, c) == SliceFor(a, c) + SliceFor(b, c)
  {
    if b == [] {
      assert a + b == a;
    } else {
      assert Front(a + b) == a + Front(b) && Last(a + b) == Last(b);
      SliceConcat(a, Front(b), c);
    }
  }

  lemma {:induction false} SliceMembers(q: Queue, c: char)
    ensures forall e :: e in SliceFor(q, c) <==> e in q && e.shardId == c
  {
    if q != [] {
      SliceMembers(Front(q), c);
      FrontLast(q);
    }
  }

  lemma {:induction false} SliceOfOwn(q: Queue, c: char)
    requires forall e :: e in q ==> e.shardId == c
    ensures SliceFor(q, c) == q
  {
    if q != [] {
      SliceOfOwn(Front(q), c);
      FrontLast(q);
    }
  }

  lemma {:induction false} SliceOfOther(q: Queue, c: char)
    requires forall e :: e in q ==> e.shardId != c
    ensures SliceFor(q, c) == []
  {
    if q != [] {
      SliceOfOther(Front(q), c);
    }
  }

  // The stores agree on every partition of shard c.
  ghost predicate AgreeOn(st1: Store, st2: Store, c: char) {
    forall p :: FirstRune(p) == c ==>
      && (p in st1 <==> p in st2)
      && (p in st1 ==> st1[p] == st2[p])
  }

  lemma AgreeOnJoin(st1: Store, st2: Store, mid: Store, c: char)
    requires AgreeOn(st1, mid, c) && AgreeOn(st2, mid, c)
    ensures AgreeOn(st1, st2, c)
  {
  }

  // A command changes the partitions of its own shard only, and by what it finds there.
  lemma ApplyAgrees(st1: Store, st2: Store, cmd: Command, c: char)
    requires AgreeOn(st1, st2, c)
    ensures FirstRune(cmd.part) == c ==> AgreeOn(Apply(st1, cmd), Apply(st2, cmd), c)
    ensures FirstRune(cmd.part) != c ==> AgreeOn(Apply(st1, cmd), st2, c)
  {
  }

  // On the partitions of a shard, the whole queue and the shard's slice do the same.
  lemma {:induction false} SliceFold(dec: Decoder, st1: Store, st2: Store, q: Queue, c: char)
    requires WellFormedQueue(dec, q) && AgreeOn(st1, st2, c)
    ensures AgreeOn(Fold(st1, q), Fold(st2, SliceFor(q, c)), c)
    ensures Valid(st1, q) ==> Valid(st2, SliceFor(q, c))
    ensures Completes(st1, q) ==> Completes(st2, SliceFor(q, c))
  {
    if q != [] {
      assert Queueable(dec, Last(q));
      SliceFold(dec, st1, st2, Front(q), c);
      ApplyAgrees(Fold(st1, Front(q)), Fold(st2, SliceFor(Front(q), c)), Last(q).cmd, c);
      if Last(q).shardId == c {
        assert Front(SliceFor(q, c)) == SliceFor(Front(q), c);
      }
    }
  }

  // The slices of the front of a queue, against those of the queue.
  lemma SlicesOfFront(q: Queue, c: char)
    requires q != []
    ensures SliceFor(q, c) == SliceFor(Front(q), c) + (if Last(q).shardId == c then [Last(q)] else [])
    ensures Last(q).shardId == c ==> Front(SliceFor(q, c)) == SliceFor(Front(q), c) && Last(SliceFor(q, c)) == Last(q)
  {
    if Last(q).shardId == c {
      assert Front(SliceFor(q, c)) == SliceFor(Front(q), c);
    }
  }

  // Validity of a queue is validity of its slices.
  lemma {:induction false} ValidFromSlices(dec: Decoder, st: Store, q: Queue)
    requires WellFormedQueue(dec, q)
    requires forall c :: Valid(st, SliceFor(q, c))
    ensures Valid(st, q)
  {
    if q != [] {
      assert Queueable(dec, Last(q));
      forall d ensures Valid(st, SliceFor(Front(q), d)) {
        assert Valid(st, SliceFor(q, d));
        SlicesOfFront(q, d);
      }
      ValidFromSlices(dec, st, Front(q));
      var c := Last(q).shardId;
      assert Valid(st, SliceFor(q, c));
      SlicesOfFront(q, c);
      SliceFold(dec, st, st, Front(q), c);
    }
  }

  // And a queue completes when its slices do.
  lemma {:induction false} CompletesFromSlices(dec: Decoder, st: Store, q: Queue)
    requires WellFormedQueue(dec, q)
    requires forall c :: Completes(st, SliceFor(q, c))
    ensures Completes(st, q)
  {
    if q != [] {
      assert Queueable(dec, Last(q));
      forall d ensures Completes(st, SliceFor(Front(q), d)) {
        assert Completes(st, SliceFor(q, d));
        SlicesOfFront(q, d);
      }
      CompletesFromSlices(dec, st, Front(q));
      var c := Last(q).shardId;
      assert Completes(st, SliceFor(q, c));
      SlicesOfFront(q, c);
      SliceFold(dec, st, st, Front(q), c);
    }
  }

  lemma StoresEqual(st1: Store, st2: Store)
    requires forall c :: AgreeOn(st1, st2, c)
    ensures st1 == st2
  {
    forall p ensures (p in st1 <==> p in st2) && (p in st1 ==> st1[p] == st2[p]) {
      assert AgreeOn(st1, st2, FirstRune(p));
    }
  }

  // The interleaving of the shards is unobservable: lookups, validity and the store it stands for.
  lemma InterleavingIrrelevant(dec: Decoder, st: Store, q1: Queue, q2: Queue)
    requires WellFormedQueue(dec, q1) && WellFormedQueue(dec, q2) && SameSlices(q1, q2)
    ensures Fold(st, q1) == Fold(st, q2)
    ensures Valid(st, q1) ==> Valid(st, q2)
    ensures forall part, id :: LatestHit(q1, part, id) == LatestHit(q2, part, id)
  {
    forall c ensures AgreeOn(Fold(st, q1), Fold(st, q2), c) {
      SliceFold(dec, st, st, q1, c);
      SliceFold(dec, st, st, q2, c);
      assert SliceFor(q1, c) == SliceFor(q2, c);
    }
    StoresEqual(Fold(st, q1), Fold(st, q2));
    if Valid(st, q1) {
      forall c ensures Valid(st, SliceFor(q2, c)) {
        SliceFold(dec, st, st, q1, c);
        assert SliceFor(q1, c) == SliceFor(q2, c);
      }
      ValidFromSlices(dec, st, q2);
    }
    forall part, id ensures LatestHit(q1, part, id) == LatestHit(q2, part, id) {
      LatestHitInSlice(dec, q1, part, id);
      LatestHitInSlice(dec, q2, part, id);
      assert SliceFor(q1, FirstRune(part)) == SliceFor(q2, FirstRune(part));
    }
  }
}
