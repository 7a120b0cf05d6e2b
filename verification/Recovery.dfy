// The order of the log in the queue, the replay index over runs, and replay after a crash.
module Recovery {
  import opened Basics
  import opened Commands
  import opened PlainStore
  import opened PendingQueue
  import opened DiskView
  import opened Deciding
  import opened Batches
  import opened ReplayIndex
  import opened Runs

  predicate Increasing(log: Queue) {
    forall i, j :: 0 <= i < j < |log| ==> log[i].index < log[j].index
  }

  ghost predicate SlicesIncreasing(q: Queue) {
    forall c :: Increasing(SliceFor(q, c))
  }

  predicate Precedes(a: Queue, b: Queue) {
    forall d, e :: d in a && e in b ==> d.index < e.index
  }

  predicate ParsedEvents(dec: Decoder, events: seq<Event>) {
    forall ev :: ev in events && ev.Batch? ==> WellFormedQueue(dec, ev.entries)
  }

  // ---------------------------------------------------------------- log order

  lemma IncreasingSnoc(q: Queue, e: UpdateEntry)
    requires Increasing(q) && forall d :: d in q ==> d.index < e.index
    ensures Increasing(q + [e])
  {
    forall i, j | 0 <= i < j < |q + [e]| ensures (q + [e])[i].index < (q + [e])[j].index {
      assert q[i] in q;
    }
  }

  lemma IncreasingFront(q: Queue)
    requires q != [] && Increasing(q)
    ensures Increasing(Front(q)) && forall d :: d in Front(q) ==> d.index < Last(q).index
  {
  }

  lemma {:induction false} SliceIncreasing(q: Queue, c: char)
    requires Increasing(q)
    ensures Increasing(SliceFor(q, c))
  {
    if q != [] {
      IncreasingFront(q);
      SliceIncreasing(Front(q), c);
      SliceMembers(Front(q), c);
      if Last(q).shardId == c {
        IncreasingSnoc(SliceFor(Front(q), c), Last(q));
      }
    }
  }

  lemma {:induction false} AcceptedIncreasing(batch: Queue, codes: Codes)
    requires |codes| == |batch| && Increasing(batch)
    ensures Increasing(AcceptedOf(batch, codes))
    ensures forall e :: e in AcceptedOf(batch, codes) ==> e in batch
  {
    if batch != [] {
      IncreasingFront(batch);
      AcceptedIncreasing(Front(batch), Front(codes));
      if Last(codes) == Some(200) {
        IncreasingSnoc(AcceptedOf(Front(batch), Front(codes)), Last(batch));
      }
    }
  }

  lemma {:induction false} IncreasingConcat(a: Queue, b: Queue)
    requires Increasing(a) && Increasing(b) && Precedes(a, b)
    ensures Increasing(a + b)
  {
    forall i, j | 0 <= i < j < |a + b| ensures (a + b)[i].index < (a + b)[j].index {
      if i < |a| <= j {
        assert a[i] in a && b[j - |a|] in b;
      }
    }
  }

  lemma BatchKeepsOrder(dec: Decoder, disk: Disk, q: Queue, batch: Queue, order: seq<char>)
    requires WellFormedQueue(dec, q) && WellFormedQueue(dec, batch) && CompleteOrder(disk, order)
    requires !UpdateInOrder(dec, disk, q, batch, order).failed
    requires SlicesIncreasing(q) && Increasing(batch) && Precedes(q, batch)
    ensures SlicesIncreasing(UpdateInOrder(dec, disk, q, batch, order).pending)
  {
    UpdateOutcome(dec, disk, q, batch, order);
    var o := UpdateInOrder(dec, disk, q, batch, order);
    var added := AcceptedOf(batch, o.codes);
    AcceptedIncreasing(batch, o.codes);
    forall c ensures Increasing(SliceFor(o.pending, c)) {
      SliceConcat(q, added, c);
      SliceIncreasing(added, c);
      SliceMembers(q, c);
      SliceMembers(added, c);
      IncreasingConcat(SliceFor(q, c), SliceFor(added, c));
      assert SliceFor(o.pending, c) == SliceFor(q + added, c);
    }
  }

  lemma LogUnfold(events: seq<Event>)
    requires events != []
    ensures LogOf(events) == LogOf(Front(events)) + (if Last(events).Batch? then Last(events).entries else [])
    ensures forall ev :: ev in Front(events) ==> ev in events
    ensures Last(events) in events
  {
  }

  // Over every completed run of increasing entries, conflict-free or not, each shard's slice of the
  // queue is in log order.
  lemma {:induction false} LogOrder(dec: Decoder, m: Machine, events: seq<Event>)
    requires WellFormedQueue(dec, m.pending) && ParsedEvents(dec, events) && NoRestart(events)
    requires SlicesIncreasing(m.pending) && Increasing(LogOf(events)) && Precedes(m.pending, LogOf(events))
    requires Run(dec, m, events).Some?
    ensures var m' := Run(dec, m, events).value.0;
      && WellFormedQueue(dec, m'.pending)
      && SlicesIncreasing(m'.pending)
      && forall e :: e in m'.pending ==> e in m.pending || e in LogOf(events)
  {
    if events != [] {
      var rest, ev := Front(events), Last(events);
      LogUnfold(events);
      assert Increasing(LogOf(rest)) by { IncreasingPrefix(LogOf(events), LogOf(rest)); }
      LogOrder(dec, m, rest);
      var m' := Run(dec, m, rest).value.0;
      match ev
      case Batch(entries, order) =>
        IncreasingSplit(LogOf(rest), entries);
        AcceptedIncreasing(entries, UpdateInOrder(dec, m'.disk, m'.pending, entries, order).codes);
        UpdateMembers(dec, m'.disk, m'.pending, entries, order);
        BatchKeepsOrder(dec, m'.disk, m'.pending, entries, order);
      case Flush =>
    }
  }

  lemma IncreasingPrefix(log: Queue, prefix: Queue)
    requires Increasing(log) && prefix <= log
    ensures Increasing(prefix)
  {
    forall i, j | 0 <= i < j < |prefix| ensures prefix[i].index < prefix[j].index {
      assert prefix[i] == log[i] && prefix[j] == log[j];
    }
  }

  lemma IncreasingSplit(a: Queue, b: Queue)
    requires Increasing(a + b)
    ensures Increasing(a) && Increasing(b) && Precedes(a, b)
  {
    forall i, j | 0 <= i < j < |b| ensures b[i].index < b[j].index {
      assert (a + b)[|a| + i] == b[i] && (a + b)[|a| + j] == b[j];
    }
    forall d, e | d in a && e in b ensures d.index < e.index {
      var i :| 0 <= i < |a| && a[i] == d;
      var j :| 0 <= j < |b| && b[j] == e;
      assert (a + b)[i] == d && (a + b)[|a| + j] == e;
    }
    IncreasingPrefix(a + b, a);
  }

  // ---------------------------------------------------------------- the replay index

  // A Sync moves the replay index to the highest index it flushes and never back.
  lemma FlushIndex(dec: Decoder, m: Machine)
    requires Step(dec, m, Flush).Some?
    ensures var m' := Step(dec, m, Flush).value.0;
      && m.lastIndex <= m'.lastIndex
      && (forall e :: e in m.pending ==> e.index <= m'.lastIndex)
      && (m'.lastIndex == m.lastIndex || exists e :: e in m.pending && e.index == m'.lastIndex)
      && ReadIndex(m'.meta) == Some(m'.lastIndex)
  {
    HighestIndexIsMaximum(m.pending, m.lastIndex);
    WrittenIndexIsRead(m.meta, HighestIndex(m.pending, m.lastIndex));
  }

  predicate IndexPersisted(m: Machine) {
    META_BUCKET in m.meta && ReadIndex(m.meta) == Some(m.lastIndex)
  }

  // Across any Updates, Syncs and restarts the index Open would read is the one in memory, and it
  // never decreases.
  lemma {:induction false} IndexNeverDecreases(dec: Decoder, m: Machine, events: seq<Event>)
    requires IndexPersisted(m) && Run(dec, m, events).Some?
    ensures var m' := Run(dec, m, events).value.0;
      && IndexPersisted(m')
      && m.lastIndex <= m'.lastIndex
      && Step(dec, m', Restart) == Some((m'.(pending := []), []))
  {
    if events != [] {
      IndexNeverDecreases(dec, m, Front(events));
      if Last(events).Flush? {
        FlushIndex(dec, Run(dec, m, Front(events)).value.0);
      }
    }
  }

  // Every accepted entry is still queued or covered by the replay index, and the replay index is an
  // index the run started with or one of its entries.
  ghost predicate Tracked(m: Machine, log: Queue, codes: Codes, m': Machine)
    requires |codes| == |log|
  {
    && (forall i :: 0 <= i < |log| && codes[i] == Some(200) ==> log[i] in m'.pending || log[i].index <= m'.lastIndex)
    && (m'.lastIndex == m.lastIndex || exists e :: (e in m.pending || e in log) && e.index == m'.lastIndex)
    && (forall e :: e in m'.pending ==> e in m.pending || e in log)
  }

  lemma TrackedBatch(dec: Decoder, m: Machine, log: Queue, codes: Codes, m': Machine, entries: Queue, order: seq<char>)
    requires |codes| == |log| && Tracked(m, log, codes, m')
    requires WellFormedQueue(dec, m'.pending) && WellFormedQueue(dec, entries)
    requires Step(dec, m', Batch(entries, order)).Some?
    ensures var (m'', more) := Step(dec, m', Batch(entries, order)).value;
      && Tracked(m, log + entries, codes + more, m'')
      && WellFormedQueue(dec, m''.pending)
  {
    var (m'', more) := Step(dec, m', Batch(entries, order)).value;
    UpdateMembers(dec, m'.disk, m'.pending, entries, order);
    AcceptedOfMembers(entries, more);
    forall i | 0 <= i < |log + entries| && (codes + more)[i] == Some(200)
      ensures (log + entries)[i] in m''.pending || (log + entries)[i].index <= m''.lastIndex
    {
      if i >= |log| {
        AcceptedHas(entries, more, i - |log|);
      }
    }
  }

  lemma {:induction false} AcceptedHas(batch: Queue, codes: Codes, i: nat)
    requires |codes| == |batch| && i < |batch| && codes[i] == Some(200)
    ensures batch[i] in AcceptedOf(batch, codes)
  {
    if i < |batch| - 1 {
      AcceptedHas(Front(batch), Front(codes), i);
    }
  }

  lemma {:induction false} AcceptedTracked(dec: Decoder, m: Machine, events: seq<Event>)
    requires WellFormedQueue(dec, m.pending) && ParsedEvents(dec, events) && NoRestart(events)
    requires Run(dec, m, events).Some?
    ensures var (m', codes) := Run(dec, m, events).value;
      && |codes| == |LogOf(events)|
      && Tracked(m, LogOf(events), codes, m')
      && WellFormedQueue(dec, m'.pending)
  {
    RunShape(dec, m, events);
    if events != [] {
      var rest, ev := Front(events), Last(events);
      LogUnfold(events);
      RunShape(dec, m, rest);
      AcceptedTracked(dec, m, rest);
      var (m', codes) := Run(dec, m, rest).value;
      match ev
      case Batch(entries, order) => TrackedBatch(dec, m, LogOf(rest), codes, m', entries, order);
      case Flush => FlushIndex(dec, m');
    }
  }

  // ---------------------------------------------------------------- crash and replay

  // The entries a replica is given again: those above its replay index.
  function Above(log: Queue, last: uint64): (r: Queue)
    ensures |r| <= |log|
    ensures forall e :: e in r ==> e in log && last < e.index
  {
    if log == [] then []
    else if Last(log).index > last then Above(Front(log), last) + [Last(log)]
    else Above(Front(log), last)
  }

  lemma {:induction false} AboveAll(log: Queue, last: uint64)
    requires forall e :: e in log ==> last < e.index
    ensures Above(log, last) == log
  {
    if log != [] {
      assert Last(log) in log && forall e :: e in Front(log) ==> e in log;
      AboveAll(Front(log), last);
      FrontLast(log);
    }
  }

  // A later index leaves fewer entries, and those of the earlier one.
  lemma {:induction false} AboveTwice(log: Queue, last0: uint64, last1: uint64)
    requires last0 <= last1
    ensures Above(Above(log, last0), last1) == Above(log, last1)
  {
    if log != [] {
      AboveTwice(Front(log), last0, last1);
      if Last(log).index > last0 {
        var r := Above(Front(log), last0) + [Last(log)];
        assert Front(r) == Above(Front(log), last0) && Last(r) == Last(log);
      }
    }
  }

  lemma {:induction false} AboveNone(log: Queue, last: uint64)
    requires forall e :: e in log ==> e.index <= last
    ensures Above(log, last) == []
  {
    if log != [] {
      assert Last(log) in log && forall e :: e in Front(log) ==> e in log;
      AboveNone(Front(log), last);
    }
  }

  lemma {:induction false} AboveMembers(log: Queue, last: uint64)
    ensures forall e :: e in Above(log, last) <==> e in log && last < e.index
  {
    if log != [] {
      FrontLast(log);
      AboveMembers(Front(log), last);
    }
  }

  lemma {:induction false} AboveIsSuffix(log: Queue, last: uint64) returns (k: nat)
    requires Increasing(log)
    ensures k <= |log| && Above(log, last) == log[k..]
  {
    if log == [] {
      k := 0;
    } else if Last(log).index <= last {
      IncreasingFront(log);
      FrontLast(log);
      AboveNone(log, last);
      k := |log|;
    } else {
      IncreasingFront(log);
      k := AboveIsSuffix(Front(log), last);
      FrontLast(log);
      SuffixOfConcat(Front(log), [Last(log)], k);
    }
  }

  lemma {:induction false} LogOfConcat(a: seq<Event>, b: seq<Event>)
    ensures LogOf(a + b) == LogOf(a) + LogOf(b)
  {
    if b == [] {
      assert a + b == a;
    } else {
      assert Front(a + b) == a + Front(b) && Last(a + b) == Last(b);
      LogOfConcat(a, Front(b));
      ConcatAssociative(LogOf(a), LogOf(Front(b)), if Last(b).Batch? then Last(b).entries else []);
    }
  }

  lemma {:induction false} PrefixConditions(dec: Decoder, m: Machine, a: seq<Event>, b: seq<Event>)
    requires Admissible(dec, m, a + b) && PlainRun(dec, m, a + b)
    ensures Admissible(dec, m, a) && PlainRun(dec, m, a)
  {
    if b == [] {
      assert a + b == a;
    } else {
      assert Front(a + b) == a + Front(b);
      PrefixConditions(dec, m, a, Front(b));
    }
  }

  predicate OnlyBatches(events: seq<Event>) {
    forall ev :: ev in events ==> ev.Batch?
  }

  // Updates touch neither the disk nor the replay index.
  lemma {:induction false} UpdatesKeepDisk(dec: Decoder, m: Machine, a: seq<Event>, b: seq<Event>)
    requires OnlyBatches(b) && Run(dec, m, a + b).Some?
    ensures Run(dec, m, a).Some?
    ensures Run(dec, m, a + b).value.0 == Run(dec, m, a).value.0.(pending := Run(dec, m, a + b).value.0.pending)
  {
    if b == [] {
      assert a + b == a;
    } else {
      assert Front(a + b) == a + Front(b) && Last(a + b) == Last(b);
      UpdatesKeepDisk(dec, m, a, Front(b));
    }
  }

  // A rejected tail leaves the plain store where it was.
  lemma {:induction false} RejectedTail(st: Store, log: seq<Command>, k: nat)
    requires k <= |log|
    requires forall i :: k <= i < |log| ==> CodesOf(st, log)[i] != Some(200)
    ensures ExecuteAll(st, log[..k]) == ExecuteAll(st, log)
  {
    if k == |log| {
      assert log[..k] == log;
    } else {
      CodeAt(st, log, |log| - 1);
      assert log[..|log| - 1] == Front(log);
      assert CodesOf(st, Front(log)) == CodesOf(st, log)[..|log| - 1];
      RejectedTail(st, Front(log), k);
      assert Front(log)[..k] == log[..k];
    }
  }

  // Replaying a plain log from any point after its last acceptance before a state gives the rest of
  // the codes and the same end.
  lemma PlainReplay(st: Store, log1: seq<Command>, codes1: Codes, mid: Store, log2: seq<Command>, k: nat,
                    codes: Codes, end: Store)
    requires Executes(st, log1, codes1, mid) && Executes(st, log1 + log2, codes, end)
    requires k <= |log1| && forall i :: k <= i < |codes1| ==> codes1[i] != Some(200)
    ensures k <= |codes| && Executes(mid, log1[k..] + log2, codes[k..], end)
  {
    RejectedTail(st, log1, k);
    var again := log1[k..] + log2;
    assert log1 + log2 == log1[..k] + again;
    ExecuteAllConcat(st, log1[..k], again);
  }

  lemma {:induction false} AboveConcat(a: Queue, b: Queue, last: uint64)
    ensures Above(a + b, last) == Above(a, last) + Above(b, last)
  {
    if b == [] {
      assert a + b == a;
    } else {
      assert Front(a + b) == a + Front(b) && Last(a + b) == Last(b);
      AboveConcat(a, Front(b), last);
    }
  }

  // Where the entries above the replay index start, when it covers every accepted entry of log1 and
  // none of log2.
  lemma ReplayPoint(log1: Queue, codes1: Codes, log2: Queue, last: uint64) returns (k: nat)
    requires Increasing(log1) && |codes1| == |log1|
    requires forall i :: 0 <= i < |log1| && codes1[i] == Some(200) ==> log1[i].index <= last
    requires forall e :: e in log2 ==> last < e.index
    ensures k <= |log1| && Above(log1 + log2, last) == log1[k..] + log2
    ensures forall i :: k <= i < |codes1| ==> codes1[i] != Some(200)
  {
    AboveConcat(log1, log2, last);
    AboveAll(log2, last);
    k := AboveIsSuffix(log1, last);
    AboveMembers(log1, last);
    forall i | k <= i < |codes1| ensures codes1[i] != Some(200) {
      assert log1[k..][i - k] == log1[i] && log1[i] in log1[k..];
    }
  }

  // The events up to the last Sync, and the Updates since.
  predicate SplitsAtFlush(events: seq<Event>, synced: seq<Event>, tail: seq<Event>) {
    && events == synced + tail
    && OnlyBatches(tail)
    && (synced == [] || Last(synced).Flush?)
  }

  lemma {:induction false} SplitAtFlush(events: seq<Event>) returns (synced: seq<Event>, tail: seq<Event>)
    requires NoRestart(events)
    ensures SplitsAtFlush(events, synced, tail)
  {
    if events == [] {
      synced, tail := [], [];
    } else if Last(events).Flush? {
      synced, tail := events, [];
    } else {
      assert Last(events) in events && forall ev :: ev in Front(events) ==> ev in events;
      synced, tail := SplitAtFlush(Front(events));
      FrontLast(events);
      ConcatAssociative(synced, tail, [Last(events)]);
      tail := tail + [Last(events)];
    }
  }

  // The state Open finds after a crash outside a Sync is the one the last completed Sync left, the
  // starting one when there was none.
  lemma CrashPoint(dec: Decoder, m0: Machine, synced: seq<Event>, tail: seq<Event>)
    requires IndexPersisted(m0) && m0.pending == [] && SplitsAtFlush(synced + tail, synced, tail)
    requires Run(dec, m0, synced + tail).Some?
    ensures Run(dec, m0, synced).Some?
    ensures var m1 := Run(dec, m0, synced).value.0; var m := Run(dec, m0, synced + tail).value.0;
      m1.pending == [] && Step(dec, m, Restart) == Some((m1, []))
  {
    UpdatesKeepDisk(dec, m0, synced, tail);
    IndexNeverDecreases(dec, m0, synced + tail);
    assert Run(dec, m0, synced).value.0.pending == [];
  }

  // What is replayed is a tail of the synced log without acceptances, then every later entry.
  lemma ReplayedEntries(dec: Decoder, m0: Machine, synced: seq<Event>, log2: Queue) returns (k: nat)
    requires m0.pending == [] && NoRestart(synced) && ParsedEvents(dec, synced)
    requires Run(dec, m0, synced).Some? && Run(dec, m0, synced).value.0.pending == []
    requires Increasing(LogOf(synced) + log2) && forall e :: e in LogOf(synced) + log2 ==> m0.lastIndex < e.index
    ensures var (m1, codes1) := Run(dec, m0, synced).value; var log1 := LogOf(synced);
      && |codes1| == |log1|
      && k <= |log1| && Above(log1 + log2, m1.lastIndex) == log1[k..] + log2
      && (forall i :: k <= i < |codes1| ==> codes1[i] != Some(200))
  {
    var log1 := LogOf(synced);
    var (m1, codes1) := Run(dec, m0, synced).value;
    AcceptedTracked(dec, m0, synced);
    IncreasingSplit(log1, log2);
    forall e | e in log2 ensures m1.lastIndex < e.index {
      assert e in log1 + log2;
    }
    k := ReplayPoint(log1, codes1, log2, m1.lastIndex);
  }

  lemma {:induction false} AdmissibleIsParsed(dec: Decoder, m: Machine, events: seq<Event>)
    requires Inv(dec, m) && Admissible(dec, m, events)
    ensures ParsedEvents(dec, events)
  {
    if events != [] {
      AdmissibleIsParsed(dec, m, Front(events));
      RunKeepsInvariant(dec, m, Front(events));
      FrontLast(events);
    }
  }

  // Executing the entries on the store gives the last of the codes and ends there.
  predicate Leads(st: Store, again: Queue, codes: Codes, end: Store) {
    |again| <= |codes| && Executes(st, CmdsOf(again), codes[|codes| - |again|..], end)
  }

  // Executing the entries above an index leads where the log led from `st0`, with the log's codes.
  predicate Continues(st: Store, st0: Store, log: Queue, last: uint64) {
    Leads(st, Above(log, last), CodesOf(st0, CmdsOf(log)), ExecuteAll(st0, CmdsOf(log)))
  }

  ghost predicate Resumes(dec: Decoder, st0: Store, log: Queue, m: Machine) {
    Inv(dec, m) && m.pending == [] && Increasing(log) && Continues(ViewOf(dec, m), st0, log, m.lastIndex)
  }

  // A state with an empty queue, before any of the log.
  lemma StartResumes(dec: Decoder, m: Machine, log: Queue)
    requires Inv(dec, m) && m.pending == [] && Increasing(log) && forall e :: e in log ==> m.lastIndex < e.index
    ensures Resumes(dec, ViewOf(dec, m), log, m)
  {
    AboveAll(log, m.lastIndex);
  }

  lemma ReplayedCommands(log1: Queue, log2: Queue, k: nat)
    requires k <= |log1|
    ensures CmdsOf(log1 + log2) == CmdsOf(log1) + CmdsOf(log2)
    ensures CmdsOf(log1[k..] + log2) == CmdsOf(log1)[k..] + CmdsOf(log2)
  {
  }

  // A run that replays a first part of what is above the index.
  ghost predicate Replays(dec: Decoder, log: Queue, m: Machine, events: seq<Event>) {
    && Admissible(dec, m, events) && PlainRun(dec, m, events)
    && LogOf(events) <= Above(log, m.lastIndex)
  }

  lemma {:induction false} PlainHasNoRestart(dec: Decoder, m: Machine, events: seq<Event>)
    requires PlainRun(dec, m, events)
    ensures NoRestart(events)
  {
    if events != [] {
      PlainHasNoRestart(dec, m, Front(events));
      FrontLast(events);
    }
  }

  lemma IncreasingSuffix(log: Queue, k: nat)
    requires Increasing(log) && k <= |log|
    ensures Increasing(log[k..])
  {
  }

  // Where the entries above the index start once a part of the replay is synced.
  lemma SyncedPoint(dec: Decoder, log: Queue, m: Machine, synced: seq<Event>, log2: Queue) returns (k: nat)
    requires Inv(dec, m) && m.pending == [] && Increasing(log)
    requires NoRestart(synced) && ParsedEvents(dec, synced)
    requires Above(log, m.lastIndex) == LogOf(synced) + log2
    requires Run(dec, m, synced).Some? && Run(dec, m, synced).value.0.pending == []
    ensures var (m1, codes1) := Run(dec, m, synced).value; var log1 := LogOf(synced);
      && |codes1| == |log1| && k <= |log1|
      && Above(log, m1.lastIndex) == log1[k..] + log2
      && (forall i :: k <= i < |codes1| ==> codes1[i] != Some(200))
  {
    var cut := AboveIsSuffix(log, m.lastIndex);
    IncreasingSuffix(log, cut);
    k := ReplayedEntries(dec, m, synced, log2);
    IndexNeverDecreases(dec, m, synced);
    AboveTwice(log, m.lastIndex, Run(dec, m, synced).value.0.lastIndex);
  }

  // A replay moved past its synced part, on the plain store.
  lemma ReplayMoves(st: Store, log1: Queue, codes1: Codes, mid: Store, log2: Queue, k: nat, codes: Codes, end: Store)
    requires Executes(st, CmdsOf(log1), codes1, mid) && Executes(st, CmdsOf(log1 + log2), codes, end)
    requires k <= |log1| && forall i :: k <= i < |codes1| ==> codes1[i] != Some(200)
    ensures k <= |codes| && Executes(mid, CmdsOf(log1[k..] + log2), codes[k..], end)
  {
    ReplayedCommands(log1, log2, k);
    PlainReplay(st, CmdsOf(log1), codes1, mid, CmdsOf(log2), k, codes, end);
  }

  lemma SuffixOfCodes(codes: Codes, n: nat, k: nat, rest: nat)
    requires n <= |codes| && rest + k == |codes| - n
    ensures codes[n..][k..] == codes[|codes| - rest..]
  {
  }

  // The synced part of a replay leaves a state that resumes.
  lemma SyncedPartResumes(dec: Decoder, st0: Store, log: Queue, m: Machine, synced: seq<Event>, log2: Queue)
    requires Resumes(dec, st0, log, m) && Admissible(dec, m, synced) && PlainRun(dec, m, synced)
    requires Above(log, m.lastIndex) == LogOf(synced) + log2
    requires Run(dec, m, synced).Some? && Run(dec, m, synced).value.0.pending == []
    ensures Resumes(dec, st0, log, Run(dec, m, synced).value.0)
  {
    PlainHasNoRestart(dec, m, synced);
    AdmissibleIsParsed(dec, m, synced);
    var k := SyncedPoint(dec, log, m, synced, log2);
    RunRefinement(dec, m, synced);
    var (m1, codes1) := Run(dec, m, synced).value;
    MovedResumes(ViewOf(dec, m), st0, log, m.lastIndex, LogOf(synced), codes1, ViewOf(dec, m1), log2, k, m1.lastIndex);
  }

  lemma MovedResumes(st: Store, st0: Store, log: Queue, last: uint64, log1: Queue, codes1: Codes,
                     mid: Store, log2: Queue, k: nat, last1: uint64)
    requires Above(log, last) == log1 + log2
    requires k <= |log1| && Above(log, last1) == log1[k..] + log2
    requires Executes(st, CmdsOf(log1), codes1, mid)
    requires Continues(st, st0, log, last)
    requires forall i :: k <= i < |codes1| ==> codes1[i] != Some(200)
    ensures Continues(mid, st0, log, last1)
  {
    var all := CodesOf(st0, CmdsOf(log));
    var n := |log| - |log1 + log2|;
    ReplayMoves(st, log1, codes1, mid, log2, k, all[n..], ExecuteAll(st0, CmdsOf(log)));
    SuffixOfCodes(all, n, k, |log1[k..] + log2|);
  }

  // The entries still to come when the replay is cut short at its last Sync.
  lemma RestOfReplay(synced: seq<Event>, tail: seq<Event>, again: Queue) returns (log2: Queue)
    requires LogOf(synced + tail) <= again
    ensures again == LogOf(synced) + log2
  {
    LogOfConcat(synced, tail);
    var rest := again[|LogOf(synced + tail)|..];
    ConcatAssociative(LogOf(synced), LogOf(tail), rest);
    log2 := LogOf(tail) + rest;
  }

  lemma CutAtFlush(dec: Decoder, m: Machine, synced: seq<Event>, tail: seq<Event>)
    requires Inv(dec, m) && m.pending == [] && SplitsAtFlush(synced + tail, synced, tail)
    requires Admissible(dec, m, synced + tail) && PlainRun(dec, m, synced + tail)
    ensures Admissible(dec, m, synced) && PlainRun(dec, m, synced)
    ensures Run(dec, m, synced + tail).Some? && Run(dec, m, synced).Some?
    ensures var m1 := Run(dec, m, synced).value.0;
      m1.pending == [] && Step(dec, Run(dec, m, synced + tail).value.0, Restart) == Some((m1, []))
  {
    RunKeepsInvariant(dec, m, synced + tail);
    CrashPoint(dec, m, synced, tail);
    PrefixConditions(dec, m, synced, tail);
  }

  // A crash anywhere in a replay, outside a Sync, leaves a state from which the replay can start over.
  lemma InterruptedReplay(dec: Decoder, st0: Store, log: Queue, m: Machine, events: seq<Event>)
    requires Resumes(dec, st0, log, m) && Replays(dec, log, m, events)
    ensures Run(dec, m, events).Some?
    ensures var r := Step(dec, Run(dec, m, events).value.0, Restart);
      r.Some? && Resumes(dec, st0, log, r.value.0)
  {
    PlainHasNoRestart(dec, m, events);
    var synced, tail := SplitAtFlush(events);
    CutAtFlush(dec, m, synced, tail);
    var log2 := RestOfReplay(synced, tail, Above(log, m.lastIndex));
    SyncedPartResumes(dec, st0, log, m, synced, log2);
  }

  // The same store again, and the last of the old codes.
  predicate Recovers(codes: Codes, end: Store, codes': Codes, end': Store) {
    end' == end && |codes'| <= |codes| && codes' == codes[|codes| - |codes'|..]
  }

  lemma ReplayRecovers(st: Store, again: Queue, codes: Codes, end: Store, codes': Codes, end': Store)
    requires Leads(st, again, codes, end) && Executes(st, CmdsOf(again), codes', end')
    ensures Recovers(codes, end, codes', end')
  {
  }

  lemma ReplayedRun(dec: Decoder, m: Machine, events: seq<Event>, codes: Codes, end: Store)
    requires Inv(dec, m) && Admissible(dec, m, events) && PlainRun(dec, m, events)
    requires Leads(ViewOf(dec, m), LogOf(events), codes, end)
    ensures Run(dec, m, events).Some? && Inv(dec, Run(dec, m, events).value.0)
    ensures Recovers(codes, end, Run(dec, m, events).value.1, ViewOf(dec, Run(dec, m, events).value.0))
  {
    RunRefinement(dec, m, events);
    var (m', codes') := Run(dec, m, events).value;
    ReplayRecovers(ViewOf(dec, m), LogOf(events), codes, end, codes', ViewOf(dec, m'));
  }

  // A replay that gets through gives every entry its old code again and the log's store.
  lemma ReplayFinishes(dec: Decoder, st0: Store, log: Queue, m: Machine, events: seq<Event>)
    requires Resumes(dec, st0, log, m) && Replays(dec, log, m, events) && LogOf(events) == Above(log, m.lastIndex)
    ensures Run(dec, m, events).Some? && Inv(dec, Run(dec, m, events).value.0)
    ensures var (m', codes) := Run(dec, m, events).value;
      Recovers(CodesOf(st0, CmdsOf(log)), ExecuteAll(st0, CmdsOf(log)), codes, ViewOf(dec, m'))
  {
    ReplayedRun(dec, m, events, CodesOf(st0, CmdsOf(log)), ExecuteAll(st0, CmdsOf(log)));
  }

  lemma ContinuesLog(st: Store, st0: Store, log: Queue, last: uint64, codes: Codes, end: Store)
    requires Continues(st, st0, log, last) && Executes(st0, CmdsOf(log), codes, end)
    ensures Leads(st, Above(log, last), codes, end)
  {
  }

  // Outside a Sync the entries above the index lead from the bare disk to the state of the log.
  lemma FromBareDisk(dec: Decoder, m0: Machine, events: seq<Event>, m: Machine, codes: Codes,
                     crashed: Machine, again: Queue)
    requires Inv(dec, m0) && m0.pending == []
    requires Admissible(dec, m0, events) && PlainRun(dec, m0, events)
    requires Increasing(LogOf(events)) && forall e :: e in LogOf(events) ==> m0.lastIndex < e.index
    requires Run(dec, m0, events) == Some((m, codes)) && Step(dec, m, Restart) == Some((crashed, []))
    requires again == Above(LogOf(events), crashed.lastIndex)
    ensures Inv(dec, m) && Inv(dec, crashed)
    ensures Leads(ViewOf(dec, crashed), again, codes, ViewOf(dec, m))
  {
    var log := LogOf(events);
    StartResumes(dec, m0, log);
    AboveAll(log, m0.lastIndex);
    InterruptedReplay(dec, ViewOf(dec, m0), log, m0, events);
    RunRefinement(dec, m0, events);
    ContinuesLog(ViewOf(dec, crashed), ViewOf(dec, m0), log, crashed.lastIndex, codes, ViewOf(dec, m));
  }

  // Crash recovery: after any run outside a Sync, with or without a Sync in it, replaying every entry
  // above the stored index, in whatever batches and with whatever Syncs, gives every entry its old
  // code again and the same store.
  lemma CrashRecovery(dec: Decoder, m0: Machine, events: seq<Event>, replay: seq<Event>,
                      m: Machine, codes: Codes, crashed: Machine)
    requires Inv(dec, m0) && m0.pending == []
    requires Admissible(dec, m0, events) && PlainRun(dec, m0, events)
    requires Increasing(LogOf(events)) && forall e :: e in LogOf(events) ==> m0.lastIndex < e.index
    requires Run(dec, m0, events) == Some((m, codes)) && Step(dec, m, Restart) == Some((crashed, []))
    requires Admissible(dec, crashed, replay) && PlainRun(dec, crashed, replay)
    requires LogOf(replay) == Above(LogOf(events), crashed.lastIndex)
    ensures Run(dec, crashed, replay).Some?
    ensures var (m', codes') := Run(dec, crashed, replay).value;
      Inv(dec, m') && Inv(dec, m) && Recovers(codes, ViewOf(dec, m), codes', ViewOf(dec, m'))
  {
    FromBareDisk(dec, m0, events, m, codes, crashed, LogOf(replay));
    ReplayedRun(dec, crashed, replay, codes, ViewOf(dec, m));
  }

  // ---------------------------------------------------------------- repeated crashes

  // The state after several replays, each cut short by a crash and a restart.
  function AfterCrashes(dec: Decoder, m: Machine, rounds: seq<seq<Event>>): (r: Option<Machine>) {
    if rounds == [] then Some(m)
    else match AfterCrashes(dec, m, Front(rounds))
      case None => None
      case Some(m1) =>
        match Run(dec, m1, Last(rounds) + [Restart])
        case None => None
        case Some((m2, _)) => Some(m2)
  }

  // Every round starts the replay over from the index it finds.
  ghost predicate ReplaysAgain(dec: Decoder, log: Queue, m: Machine, rounds: seq<seq<Event>>) {
    rounds == [] ||
    (&& ReplaysAgain(dec, log, m, Front(rounds))
     && (AfterCrashes(dec, m, Front(rounds)).Some? ==>
           Replays(dec, log, AfterCrashes(dec, m, Front(rounds)).value, Last(rounds))))
  }

  lemma RunThenRestart(dec: Decoder, m: Machine, events: seq<Event>)
    requires Run(dec, m, events).Some? && Step(dec, Run(dec, m, events).value.0, Restart).Some?
    ensures var r := Run(dec, m, events + [Restart]);
      r.Some? && r.value.0 == Step(dec, Run(dec, m, events).value.0, Restart).value.0
  {
    assert Front(events + [Restart]) == events && Last(events + [Restart]) == Restart;
  }

  lemma LastRound(dec: Decoder, log: Queue, m: Machine, rounds: seq<seq<Event>>, m1: Machine)
    requires rounds != [] && ReplaysAgain(dec, log, m, rounds) && AfterCrashes(dec, m, Front(rounds)) == Some(m1)
    ensures ReplaysAgain(dec, log, m, Front(rounds)) && Replays(dec, log, m1, Last(rounds))
    ensures var r := Run(dec, m1, Last(rounds) + [Restart]);
      AfterCrashes(dec, m, rounds) == if r.Some? then Some(r.value.0) else None
  {
  }

  lemma RoundResumes(dec: Decoder, st0: Store, log: Queue, m: Machine, events: seq<Event>) returns (m': Machine)
    requires Resumes(dec, st0, log, m) && Replays(dec, log, m, events)
    ensures Run(dec, m, events + [Restart]).Some? && Run(dec, m, events + [Restart]).value.0 == m'
    ensures Resumes(dec, st0, log, m')
  {
    InterruptedReplay(dec, st0, log, m, events);
    RunThenRestart(dec, m, events);
    m' := Step(dec, Run(dec, m, events).value.0, Restart).value.0;
  }

  // Rounds of interrupted replays, with the state after each.
  lemma {:induction false} CrashesResume(dec: Decoder, st0: Store, log: Queue, m: Machine, rounds: seq<seq<Event>>)
    returns (m': Machine)
    requires Resumes(dec, st0, log, m) && ReplaysAgain(dec, log, m, rounds)
    ensures AfterCrashes(dec, m, rounds) == Some(m') && Resumes(dec, st0, log, m')
  {
    if rounds == [] {
      m' := m;
    } else {
      var m1 := CrashesResume(dec, st0, log, m, Front(rounds));
      LastRound(dec, log, m, rounds, m1);
      m' := RoundResumes(dec, st0, log, m1, Last(rounds));
    }
  }

  // However often the replica crashes outside a Sync, the replay that gets through gives the entries
  // it replays their codes in the log from the start and ends with the log's store.
  lemma RepeatedCrashes(dec: Decoder, m0: Machine, log: Queue, rounds: seq<seq<Event>>, replay: seq<Event>, m: Machine)
    requires Inv(dec, m0) && m0.pending == []
    requires Increasing(log) && forall e :: e in log ==> m0.lastIndex < e.index
    requires ReplaysAgain(dec, log, m0, rounds) && AfterCrashes(dec, m0, rounds) == Some(m)
    requires Replays(dec, log, m, replay) && LogOf(replay) == Above(log, m.lastIndex)
    ensures Run(dec, m, replay).Some? && Inv(dec, Run(dec, m, replay).value.0)
    ensures var (m', codes) := Run(dec, m, replay).value;
      var st0 := ViewOf(dec, m0);
      Recovers(CodesOf(st0, CmdsOf(log)), ExecuteAll(st0, CmdsOf(log)), codes, ViewOf(dec, m'))
  {
    StartResumes(dec, m0, log);
    var m1 := CrashesResume(dec, ViewOf(dec, m0), log, m0, rounds);
    ReplayFinishes(dec, ViewOf(dec, m0), log, m, replay);
  }
}
