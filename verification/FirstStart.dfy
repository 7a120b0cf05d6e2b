// Where runs start.
module FirstStart {
  import opened Basics
  import opened Commands
  import opened PlainStore
  import opened PendingQueue
  import opened ShardStore
  import opened DiskView
  import opened Deciding
  import opened Overlay
  import opened Batches
  import opened Snapshots
  import opened ReplayIndex
  import opened Runs
  import opened IndexAgreement
  import opened StateMachine

  // The first machine: an empty shard for every character.
  function FirstMachine(): (m: Machine) {
    Machine(map c | c in ALPHABET :: ShardState(map[], map[]), [], 0, EnsureBucket(map[]))
  }

  lemma EmptyAgrees(dec: Decoder)
    ensures Agrees(dec, ShardState(map[], map[]))
  {
  }

  lemma EmptyDisk(dec: Decoder, disk: Disk)
    requires forall c :: c in disk ==> disk[c] == ShardState(map[], map[])
    ensures Sound(dec, disk, []) && View(dec, disk, []) == map[] && DiskAgrees(dec, disk)
  {
    EmptyAgrees(dec);
    assert Parts(disk) == {};
  }

  lemma EmptyMeta()
    ensures META_BUCKET in EnsureBucket(map[]) && ReadIndex(EnsureBucket(map[])) == Some(0)
  {
  }

  // It satisfies the invariant, with its indexes in agreement, and stands for the empty store.
  lemma FirstMachineIsSound(dec: Decoder)
    ensures Inv(dec, FirstMachine()) && DiskAgrees(dec, FirstMachine().disk)
    ensures ViewOf(dec, FirstMachine()) == map[]
  {
    EmptyDisk(dec, FirstMachine().disk);
    EmptyMeta();
  }

  // ---------------------------------------------------------------- one entry at a time

  // The shard map never changes over a run.
  lemma {:induction false} ShardsStay(dec: Decoder, m: Machine, events: seq<Event>)
    requires Run(dec, m, events).Some?
    ensures Run(dec, m, events).value.0.disk.Keys == m.disk.Keys
  {
    if events != [] {
      ShardsStay(dec, m, Front(events));
    }
  }

  predicate OneAtATime(dec: Decoder, disk: Disk, events: seq<Event>) {
    forall ev :: ev in events && ev.Batch? ==>
      |ev.entries| == 1 && WellFormedQueue(dec, ev.entries) && CompleteOrder(disk, ev.order)
  }

  lemma {:induction false} OneAtATimeIsConflictFree(dec: Decoder, m: Machine, events: seq<Event>)
    requires OneAtATime(dec, m.disk, events)
    ensures ConflictFreeRun(dec, m, events)
  {
    if events != [] {
      var rest, ev := Front(events), Last(events);
      assert (forall e :: e in rest ==> e in events) && ev in events;
      OneAtATimeIsConflictFree(dec, m, rest);
      if ev.Batch? && Run(dec, m, rest).Some? {
        ShardsStay(dec, m, rest);
        assert ev.entries == [ev.entries[0]];
        SingletonConflictFree(Run(dec, m, rest).value.0.pending, ev.entries[0]);
      }
    }
  }

  // From any sound start, any run of one-entry Updates of parsed commands, with Syncs and restarts
  // anywhere, completes and keeps the invariant.
  lemma EveryRunOfSinglesCompletes(dec: Decoder, m: Machine, events: seq<Event>)
    requires Inv(dec, m) && OneAtATime(dec, m.disk, events)
    ensures var r := Run(dec, m, events); r.Some? && Inv(dec, r.value.0)
    ensures Admissible(dec, m, events)
  {
    OneAtATimeIsConflictFree(dec, m, events);
    ConflictFreeRunFits(dec, m, events);
    RunKeepsInvariant(dec, m, events);
  }

  // ---------------------------------------------------------------- settled deletions

  // The entries since the last Sync or restart.
  function SinceFlush(events: seq<Event>): (log: Queue) {
    if events == [] || !Last(events).Batch? then [] else SinceFlush(Front(events)) + Last(events).entries
  }

  // The log holds a DEL of the document with no DELETE_PART of its partition after it. A CREATE_PART
  // does not count: behind a pending DEL it is refused.
  predicate Lingers(log: Queue, part: string, id: string) {
    if log == [] then false
    else
      var cmd := Last(log).cmd;
      if cmd.kind.DEL? && cmd.part == part && cmd.id == id then true
      else if cmd.kind.DELETE_PART? && cmd.part == part then false
      else Lingers(Front(log), part, id)
  }

  // No document command follows a DEL of its document without a Sync or a DELETE_PART in between.
  predicate SettledDeletes(events: seq<Event>) {
    events == [] ||
    (&& SettledDeletes(Front(events))
     && (Last(events).Batch? ==>
           forall e :: e in Last(events).entries && IsDocKind(e.cmd.kind) ==>
             !Lingers(SinceFlush(Front(events)), e.cmd.part, e.cmd.id)))
  }

  predicate DeleteIsLatest(q: Queue, part: string, id: string) {
    LatestHit(q, part, id).Some? && LatestHit(q, part, id).value.kind.DEL?
  }

  lemma AcceptedOfOne(e: UpdateEntry, codes: Codes)
    requires |codes| == 1
    ensures AcceptedOf([e], codes) == if codes[0] == Some(200) then [e] else []
  {
    assert Front([e]) == [] && AcceptedOf(Front([e]), Front(codes)) == [];
    assert [] + [e] == [e];
  }

  // What a one-entry Update does to a lookup.
  lemma SingleHit(dec: Decoder, disk: Disk, q: Queue, e: UpdateEntry, order: seq<char>, part: string, id: string)
    requires Sound(dec, disk, q) && Queueable(dec, e) && CompleteOrder(disk, order)
    ensures LatestHit(UpdateInOrder(dec, disk, q, [e], order).pending, part, id) ==
              if Predicted(dec, disk, q, [e], e) == Some(200) && Hits(e.cmd, part, id) then Some(e.cmd)
              else LatestHit(q, part, id)
  {
    UpdateExact(dec, disk, q, [e], order);
    var codes := PredictedCodes(dec, disk, q, [e]);
    var acc := AcceptedOf([e], codes);
    AcceptedOfOne(e, codes);
    var pending := UpdateInOrder(dec, disk, q, [e], order).pending;
    InterleavingIrrelevant(dec, DiskStore(dec, disk), pending, q + acc);
    if acc == [] {
      assert q + acc == q;
    } else {
      assert Front(q + [e]) == q && Last(q + [e]) == e;
    }
  }

  // A DELETE_PART behind a pending DEL is accepted.
  lemma DropIsAccepted(dec: Decoder, disk: Disk, q: Queue, e: UpdateEntry, id: string)
    requires Sound(dec, disk, q) && Queueable(dec, e) && e.shardId in disk
    requires e.cmd.kind.DELETE_PART? && DeleteIsLatest(q, e.cmd.part, id)
    ensures Predicted(dec, disk, q, [e], e) == Some(200)
  {
    QueueReveals(dec, DiskStore(dec, disk), q, e.cmd.part, id);
    NeedDiskAlone(q, e);
  }

  lemma LingersAfter(log: Queue, e: UpdateEntry, part: string, id: string)
    ensures Lingers(log + [e], part, id) <==>
              || (e.cmd.kind.DEL? && e.cmd.part == part && e.cmd.id == id)
              || (Lingers(log, part, id) && !(e.cmd.kind.DELETE_PART? && e.cmd.part == part))
  {
    assert Front(log + [e]) == log && Last(log + [e]) == e;
  }

  // One entry of a log: a DEL that is still the latest hit after it lingers after it.
  lemma LingersStep(dec: Decoder, disk: Disk, q: Queue, e: UpdateEntry, order: seq<char>,
                    log: Queue, part: string, id: string)
    requires Sound(dec, disk, q) && Queueable(dec, e) && CompleteOrder(disk, order) && e.shardId in disk
    requires DeleteIsLatest(UpdateInOrder(dec, disk, q, [e], order).pending, part, id)
    requires DeleteIsLatest(q, part, id) ==> Lingers(log, part, id)
    ensures Lingers(log + [e], part, id)
  {
    LingersAfter(log, e, part, id);
    SingleHit(dec, disk, q, e, order, part, id);
    if e.cmd.kind.DELETE_PART? && e.cmd.part == part && DeleteIsLatest(q, part, id) {
      DropIsAccepted(dec, disk, q, e, id);
    }
  }

  // A run whose last event is a one-entry Update.
  lemma LastSingle(dec: Decoder, m: Machine, events: seq<Event>)
    requires events != [] && Run(dec, m, events).Some?
    requires Last(events).Batch? && |Last(events).entries| == 1
    ensures Run(dec, m, Front(events)).Some?
    ensures var m' := Run(dec, m, Front(events)).value.0; var e := Last(events).entries[0];
      && CompleteOrder(m'.disk, Last(events).order)
      && Run(dec, m, events).value.0.pending ==
           UpdateInOrder(dec, m'.disk, m'.pending, [e], Last(events).order).pending
      && SinceFlush(events) == SinceFlush(Front(events)) + [e]
      && LogOf(events) == LogOf(Front(events)) + [e]
  {
    assert Last(events).entries == [Last(events).entries[0]];
  }

  // A lookup that ends at a pending DEL has that DEL lingering in the log.
  lemma {:induction false} PendingDeleteLingers(dec: Decoder, m: Machine, events: seq<Event>, part: string, id: string)
    requires Inv(dec, m) && m.pending == [] && OneAtATime(dec, m.disk, events)
    requires forall e :: e in LogOf(events) ==> e.shardId in m.disk
    requires Run(dec, m, events).Some? && DeleteIsLatest(Run(dec, m, events).value.0.pending, part, id)
    ensures Lingers(SinceFlush(events), part, id)
  {
    if events != [] {
      var rest, ev := Front(events), Last(events);
      assert (forall e :: e in rest ==> e in events) && ev in events;
      if ev.Batch? {
        EveryRunOfSinglesCompletes(dec, m, rest);
        ShardsStay(dec, m, rest);
        LastSingle(dec, m, events);
        var m' := Run(dec, m, rest).value.0;
        var e := ev.entries[0];
        assert e in LogOf(events) && e in ev.entries;
        if DeleteIsLatest(m'.pending, part, id) {
          PendingDeleteLingers(dec, m, rest, part, id);
        }
        LingersStep(dec, m'.disk, m'.pending, e, ev.order, SinceFlush(rest), part, id);
      }
    }
  }

  lemma {:induction false} SettledAvoidsDeletes(dec: Decoder, m: Machine, events: seq<Event>)
    requires Inv(dec, m) && m.pending == [] && OneAtATime(dec, m.disk, events) && NoRestart(events)
    requires SettledDeletes(events) && forall e :: e in LogOf(events) ==> e.shardId in m.disk
    ensures AvoidsDeletes(dec, m, events)
  {
    if events != [] {
      var rest, ev := Front(events), Last(events);
      assert (forall e :: e in rest ==> e in events) && ev in events;
      SettledAvoidsDeletes(dec, m, rest);
      if ev.Batch? && Run(dec, m, rest).Some? {
        ShardsStay(dec, m, rest);
        var m' := Run(dec, m, rest).value.0;
        forall e | e in ev.entries ensures e.shardId in m'.disk && !HitsDelete(m'.pending, e.cmd) {
          assert e in LogOf(events);
          if HitsDelete(m'.pending, e.cmd) {
            PendingDeleteLingers(dec, m, rest, e.cmd.part, e.cmd.id);
          }
        }
      }
    }
  }

  lemma SettledRunFits(dec: Decoder, m: Machine, events: seq<Event>)
    requires Inv(dec, m) && m.pending == [] && OneAtATime(dec, m.disk, events) && NoRestart(events)
    requires SettledDeletes(events) && forall e :: e in LogOf(events) ==> e.shardId in m.disk
    ensures Admissible(dec, m, events) && PlainRun(dec, m, events)
  {
    OneAtATimeIsConflictFree(dec, m, events);
    SettledAvoidsDeletes(dec, m, events);
    ConflictFreeRunFits(dec, m, events);
  }

  // With conditions on the log alone: any run of routed one-entry Updates with settled deletions and
  // no restart answers and ends as the plain map does.
  lemma SettledRunsArePlain(dec: Decoder, m: Machine, events: seq<Event>)
    requires Inv(dec, m) && m.pending == [] && OneAtATime(dec, m.disk, events) && NoRestart(events)
    requires SettledDeletes(events) && forall e :: e in LogOf(events) ==> e.shardId in m.disk
    ensures var r := Run(dec, m, events);
      && r.Some? && Inv(dec, r.value.0)
      && Executes(ViewOf(dec, m), CmdsOf(LogOf(events)), r.value.1, ViewOf(dec, r.value.0))
  {
    SettledRunFits(dec, m, events);
    RunRefinement(dec, m, events);
  }

  predicate NoDelete(q: Queue) {
    forall e :: e in q ==> !e.cmd.kind.DEL?
  }

  lemma {:induction false} NothingLingers(log: Queue, part: string, id: string)
    requires NoDelete(log)
    ensures !Lingers(log, part, id)
  {
    if log != [] {
      assert Last(log) in log && forall e :: e in Front(log) ==> e in log;
      NothingLingers(Front(log), part, id);
    }
  }

  lemma {:induction false} NoDeleteIsSettled(events: seq<Event>)
    requires NoDelete(LogOf(events))
    ensures SettledDeletes(events) && NoDelete(SinceFlush(events))
  {
    if events != [] {
      assert forall e :: e in LogOf(Front(events)) ==> e in LogOf(events);
      NoDeleteIsSettled(Front(events));
      forall part, id ensures !Lingers(SinceFlush(Front(events)), part, id) {
        NothingLingers(SinceFlush(Front(events)), part, id);
      }
    }
  }

  // In particular, from the first start, any such log without DEL.
  lemma RunsWithoutDeleteArePlain(dec: Decoder, events: seq<Event>)
    requires OneAtATime(dec, FirstMachine().disk, events) && NoRestart(events)
    requires NoDelete(LogOf(events)) && forall e :: e in LogOf(events) ==> e.shardId in FirstMachine().disk
    ensures var r := Run(dec, FirstMachine(), events);
      && r.Some? && Inv(dec, r.value.0)
      && Executes(map[], CmdsOf(LogOf(events)), r.value.1, ViewOf(dec, r.value.0))
  {
    FirstMachineIsSound(dec);
    NoDeleteIsSettled(events);
    SettledRunsArePlain(dec, FirstMachine(), events);
  }
}
