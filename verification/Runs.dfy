// Whole runs of the state machine: Updates in batches, Syncs and restarts at arbitrary points.
module Runs {
  import opened Basics
  import opened Commands
  import opened PlainStore
  import opened PendingQueue
  import opened ShardStore
  import opened DiskView
  import opened Deciding
  import opened Overlay
  import opened Batches
  import opened Snapshots
  import opened ReplayIndex

  datatype Machine = Machine(disk: Disk, pending: Queue, lastIndex: uint64, meta: BoltDb)

  // `order` is the order in which this Update happens to walk the shard map.
  datatype Event = Batch(entries: Queue, order: seq<char>) | Flush | Restart

  // None when the event cannot complete: an Update cut short by a document that does not decode, a
  // Sync that panics, an Open whose stored index does not parse.
  function Step(dec: Decoder, m: Machine, ev: Event): (r: Option<(Machine, Codes)>) {
    match ev
    case Batch(entries, order) =>
      if !CompleteOrder(m.disk, order) then None
      else
        var o := UpdateInOrder(dec, m.disk, m.pending, entries, order);
        if o.failed then None else Some((m.(pending := o.pending), o.codes))
    case Flush =>
      if !Committable(m.disk, m.pending) || META_BUCKET !in m.meta then None
      else
        var last := HighestIndex(m.pending, m.lastIndex);
        Some((Machine(CommitShards(m.disk, m.pending, m.disk.Keys), [], last, WriteIndex(m.meta, last)), []))
    case Restart =>
      var meta := EnsureBucket(m.meta);
      match ReadIndex(meta)
      case None => None
      case Some(last) => Some((Machine(m.disk, [], last, meta), []))
  }

  function Run(dec: Decoder, m: Machine, events: seq<Event>): (r: Option<(Machine, Codes)>) {
    if events == [] then Some((m, []))
    else match Run(dec, m, Front(events))
      case None => None
      case Some((m', codes)) =>
        match Step(dec, m', Last(events))
        case None => None
        case Some((m'', more)) => Some((m'', codes + more))
  }

  function LogOf(events: seq<Event>): (log: Queue) {
    if events == [] then []
    else LogOf(Front(events)) + (if Last(events).Batch? then Last(events).entries else [])
  }

  // Where the last event happens.
  function Before(dec: Decoder, m: Machine, events: seq<Event>): (r: Option<Machine>)
    requires events != []
  {
    match Run(dec, m, Front(events))
    case None => None
    case Some((m', _)) => Some(m')
  }

  // A batch of parsed entries that walks every shard once.
  predicate Parsed(dec: Decoder, m: Machine, ev: Event) {
    ev.Batch? ==> WellFormedQueue(dec, ev.entries) && CompleteOrder(m.disk, ev.order)
  }

  ghost predicate KeepsValid(dec: Decoder, m: Machine, ev: Event) {
    ev.Batch? && Sound(dec, m.disk, m.pending) ==> StaysValid(dec, m.disk, m.pending, ev.entries)
  }

  ghost predicate AnswersPlainly(dec: Decoder, m: Machine, ev: Event) {
    && !ev.Restart?
    && (ev.Batch? && Sound(dec, m.disk, m.pending) ==> MatchesPlain(dec, m.disk, m.pending, ev.entries))
  }

  ghost predicate ParsedRun(dec: Decoder, m: Machine, events: seq<Event>) {
    events == [] ||
    (&& ParsedRun(dec, m, Front(events))
     && (Before(dec, m, events).Some? ==> Parsed(dec, Before(dec, m, events).value, Last(events))))
  }

  // Every batch is parsed and meets, where it happens, the exact condition for a valid queue.
  ghost predicate Admissible(dec: Decoder, m: Machine, events: seq<Event>) {
    events == [] ||
    (&& Admissible(dec, m, Front(events))
     && (Before(dec, m, events).Some? ==>
           && Parsed(dec, Before(dec, m, events).value, Last(events))
           && KeepsValid(dec, Before(dec, m, events).value, Last(events))))
  }

  // Every batch meets, where it happens, the exact condition for plain answers; no restarts.
  ghost predicate PlainRun(dec: Decoder, m: Machine, events: seq<Event>) {
    events == [] ||
    (&& PlainRun(dec, m, Front(events))
     && !Last(events).Restart?
     && (Before(dec, m, events).Some? ==> AnswersPlainly(dec, Before(dec, m, events).value, Last(events))))
  }

  // Every batch is parsed and conflict-free where it happens.
  ghost predicate ConflictFreeRun(dec: Decoder, m: Machine, events: seq<Event>) {
    events == [] ||
    (&& ConflictFreeRun(dec, m, Front(events))
     && (Before(dec, m, events).Some? ==>
           var m' := Before(dec, m, events).value;
           && Parsed(dec, m', Last(events))
           && (Last(events).Batch? ==> ConflictFree(m'.pending, Last(events).entries))))
  }

  // Every entry has a shard and no document command follows a pending DEL of its document; no
  // restarts.
  ghost predicate AvoidsDeletes(dec: Decoder, m: Machine, events: seq<Event>) {
    events == [] ||
    (&& AvoidsDeletes(dec, m, Front(events))
     && !Last(events).Restart?
     && (Last(events).Batch? && Before(dec, m, events).Some? ==>
           var m' := Before(dec, m, events).value;
           Plain(m'.disk, m'.pending, Last(events).entries)))
  }

  ghost predicate Inv(dec: Decoder, m: Machine) {
    && Sound(dec, m.disk, m.pending)
    && META_BUCKET in m.meta
    && ReadIndex(m.meta) == Some(m.lastIndex)
  }

  ghost function ViewOf(dec: Decoder, m: Machine): (st: Store)
    requires Inv(dec, m)
  {
    View(dec, m.disk, m.pending)
  }

  // ---------------------------------------------------------------- the invariant

  // A Sync of a valid queue completes, empties the queue and leaves the store as it was, all of it on disk.
  lemma FlushKeepsStore(dec: Decoder, m: Machine)
    requires Inv(dec, m)
    ensures var r := Step(dec, m, Flush);
      && r.Some?
      && Inv(dec, r.value.0)
      && r.value.0.pending == []
      && ViewOf(dec, r.value.0) == ViewOf(dec, m)
      && DiskStore(dec, r.value.0.disk) == ViewOf(dec, m)
  {
    SyncPreservesStore(dec, m.disk, m.pending);
    WrittenIndexIsRead(m.meta, HighestIndex(m.pending, m.lastIndex));
  }

  lemma RestartKeepsInvariant(dec: Decoder, m: Machine)
    requires Inv(dec, m)
    ensures Step(dec, m, Restart) == Some((m.(pending := []), []))
    ensures Inv(dec, m.(pending := []))
  {
  }

  // One event: exactly when the machine completes it with a valid queue.
  lemma StepKeepsInvariant(dec: Decoder, m: Machine, ev: Event)
    requires Inv(dec, m) && Parsed(dec, m, ev)
    ensures var r := Step(dec, m, ev); (r.Some? && Inv(dec, r.value.0)) <==> KeepsValid(dec, m, ev)
    ensures Step(dec, m, ev).Some?
  {
    match ev
    case Batch(entries, order) =>
      BatchValidExact(dec, m.disk, m.pending, entries, order);
      UpdateExact(dec, m.disk, m.pending, entries, order);
    case Flush => FlushKeepsStore(dec, m);
    case Restart => RestartKeepsInvariant(dec, m);
  }

  lemma RunSplits(dec: Decoder, m: Machine, events: seq<Event>)
    requires events != [] && Run(dec, m, Front(events)).Some?
    ensures var (m', codes) := Run(dec, m, Front(events)).value; var r := Step(dec, m', Last(events));
      && Before(dec, m, events) == Some(m')
      && (Run(dec, m, events).Some? <==> r.Some?)
      && (r.Some? ==> Run(dec, m, events) == Some((r.value.0, codes + r.value.1)))
  {
  }

  // Every admissible run completes, pending DELs, unrouted entries and restarts included: no Sync
  // panics, no Update is cut short, and the queue stays valid.
  lemma {:induction false} RunKeepsInvariant(dec: Decoder, m: Machine, events: seq<Event>)
    requires Inv(dec, m) && Admissible(dec, m, events)
    ensures var r := Run(dec, m, events); r.Some? && Inv(dec, r.value.0)
  {
    if events != [] {
      RunKeepsInvariant(dec, m, Front(events));
      RunSplits(dec, m, events);
      StepKeepsInvariant(dec, Run(dec, m, Front(events)).value.0, Last(events));
    }
  }

  // The run completes with the invariant, and so did every run it continues.
  ghost predicate AlwaysSound(dec: Decoder, m: Machine, events: seq<Event>) {
    && Run(dec, m, events).Some?
    && Inv(dec, Run(dec, m, events).value.0)
    && (events != [] ==> AlwaysSound(dec, m, Front(events)))
  }

  // Admissibility is exactly what it takes.
  lemma {:induction false} AdmissibleExact(dec: Decoder, m: Machine, events: seq<Event>)
    requires Inv(dec, m) && ParsedRun(dec, m, events)
    ensures Admissible(dec, m, events) <==> AlwaysSound(dec, m, events)
  {
    if events != [] {
      AdmissibleExact(dec, m, Front(events));
      if AlwaysSound(dec, m, Front(events)) {
        RunSplits(dec, m, events);
        StepKeepsInvariant(dec, Run(dec, m, Front(events)).value.0, Last(events));
      }
    }
  }

  // ---------------------------------------------------------------- any completed run

  // What every run keeps that completes, whether its queue is valid or not.
  ghost predicate Orderly(dec: Decoder, m: Machine) {
    SoundDisk(dec, m.disk) && WellFormedQueue(dec, m.pending) && Routed(m.disk, m.pending)
  }

  lemma FlushKeepsOrderly(dec: Decoder, m: Machine)
    requires Orderly(dec, m) && Step(dec, m, Flush).Some?
    ensures Orderly(dec, Step(dec, m, Flush).value.0)
  {
    forall c | c in m.disk
      ensures var sh := Commit(m.disk[c], SliceFor(m.pending, c)).value;
        SoundBlock(dec, sh.block) && forall p :: p in sh.block ==> FirstRune(p) == c
    {
      SliceMembers(m.pending, c);
      CommitExact(dec, m.disk[c].block, SliceFor(m.pending, c));
      CommitKeepsRouting(dec, m.disk[c].block, SliceFor(m.pending, c), c);
    }
  }

  lemma BatchKeepsOrderly(dec: Decoder, m: Machine, entries: Queue, order: seq<char>)
    requires Orderly(dec, m) && WellFormedQueue(dec, entries) && Step(dec, m, Batch(entries, order)).Some?
    ensures Orderly(dec, Step(dec, m, Batch(entries, order)).value.0)
  {
    var o := UpdateInOrder(dec, m.disk, m.pending, entries, order);
    UpdateOutcome(dec, m.disk, m.pending, entries, order);
    UpdateMembers(dec, m.disk, m.pending, entries, order);
    AcceptedOfMembers(entries, o.codes);
  }

  lemma {:induction false} CompletedRunIsOrderly(dec: Decoder, m: Machine, events: seq<Event>)
    requires Orderly(dec, m) && ParsedRun(dec, m, events) && Run(dec, m, events).Some?
    ensures Orderly(dec, Run(dec, m, events).value.0)
    ensures Run(dec, m, events).value.0.disk.Keys == m.disk.Keys
  {
    if events != [] {
      CompletedRunIsOrderly(dec, m, Front(events));
      RunSplits(dec, m, events);
      var m' := Run(dec, m, Front(events)).value.0;
      match Last(events)
      case Batch(entries, order) => BatchKeepsOrderly(dec, m', entries, order);
      case Flush => FlushKeepsOrderly(dec, m');
      case Restart =>
    }
  }

  // ---------------------------------------------------------------- refinement

  lemma CmdsOfConcat(a: Queue, b: Queue)
    ensures CmdsOf(a + b) == CmdsOf(a) + CmdsOf(b)
  {
  }

  lemma BatchEvent(dec: Decoder, m: Machine, entries: Queue, order: seq<char>)
    requires Inv(dec, m) && Parsed(dec, m, Batch(entries, order)) && KeepsValid(dec, m, Batch(entries, order))
    ensures var r := Step(dec, m, Batch(entries, order)); var st := ViewOf(dec, m);
      && r.Some? && Inv(dec, r.value.0)
      && |r.value.1| == |entries|
      && (r.value.1 == CodesOf(st, CmdsOf(entries)) <==> AnswersPlainly(dec, m, Batch(entries, order)))
      && (AnswersPlainly(dec, m, Batch(entries, order)) ==>
            Executes(st, CmdsOf(entries), r.value.1, ViewOf(dec, r.value.0)))
  {
    StepKeepsInvariant(dec, m, Batch(entries, order));
    BatchPlainExact(dec, m.disk, m.pending, entries, order);
  }

  lemma FlushEvent(dec: Decoder, m: Machine)
    requires Inv(dec, m)
    ensures var r := Step(dec, m, Flush);
      r.Some? && Inv(dec, r.value.0) && Executes(ViewOf(dec, m), [], r.value.1, ViewOf(dec, r.value.0))
  {
    FlushKeepsStore(dec, m);
  }

  function CmdsIn(ev: Event): (log: seq<Command>) {
    if ev.Batch? then CmdsOf(ev.entries) else []
  }

  // One event: exactly when it is answered as its entries are on the plain store.
  lemma StepRefines(dec: Decoder, m: Machine, ev: Event)
    requires Inv(dec, m) && !ev.Restart? && Parsed(dec, m, ev) && KeepsValid(dec, m, ev)
    ensures Step(dec, m, ev).Some? && Inv(dec, Step(dec, m, ev).value.0)
    ensures |Step(dec, m, ev).value.1| == |CmdsIn(ev)|
    ensures Step(dec, m, ev).value.1 == CodesOf(ViewOf(dec, m), CmdsIn(ev)) <==> AnswersPlainly(dec, m, ev)
    ensures AnswersPlainly(dec, m, ev) ==>
              Executes(ViewOf(dec, m), CmdsIn(ev), Step(dec, m, ev).value.1, ViewOf(dec, Step(dec, m, ev).value.0))
  {
    match ev
    case Batch(entries, order) => BatchEvent(dec, m, entries, order);
    case Flush => FlushEvent(dec, m);
  }

  lemma RunUnfold(dec: Decoder, m: Machine, events: seq<Event>)
    requires events != [] && Run(dec, m, Front(events)).Some?
    requires Step(dec, Run(dec, m, Front(events)).value.0, Last(events)).Some?
    ensures var (m', codes) := Run(dec, m, Front(events)).value; var (m'', more) := Step(dec, m', Last(events)).value;
      Run(dec, m, events) == Some((m'', codes + more))
    ensures CmdsOf(LogOf(events)) == CmdsOf(LogOf(Front(events))) + CmdsIn(Last(events))
  {
    CmdsOfConcat(LogOf(Front(events)), if Last(events).Batch? then Last(events).entries else []);
  }

  predicate NoRestart(events: seq<Event>) {
    Restart !in events
  }

  lemma {:induction false} RunShape(dec: Decoder, m: Machine, events: seq<Event>)
    requires Run(dec, m, events).Some?
    ensures |Run(dec, m, events).value.1| == |LogOf(events)|
  {
    if events != [] {
      RunShape(dec, m, Front(events));
    }
  }

  lemma RefineLast(dec: Decoder, m: Machine, events: seq<Event>, m': Machine, codes: Codes, m'': Machine, more: Codes)
    requires events != [] && Inv(dec, m) && Inv(dec, m') && Inv(dec, m'')
    requires Run(dec, m, Front(events)) == Some((m', codes)) && Step(dec, m', Last(events)) == Some((m'', more))
    requires Executes(ViewOf(dec, m), CmdsOf(LogOf(Front(events))), codes, ViewOf(dec, m'))
    requires Executes(ViewOf(dec, m'), CmdsIn(Last(events)), more, ViewOf(dec, m''))
    ensures Run(dec, m, events) == Some((m'', codes + more))
    ensures Executes(ViewOf(dec, m), CmdsOf(LogOf(events)), codes + more, ViewOf(dec, m''))
  {
    RunUnfold(dec, m, events);
    ExecutesJoin(ViewOf(dec, m), CmdsOf(LogOf(Front(events))), codes, ViewOf(dec, m'),
                 CmdsIn(Last(events)), more, ViewOf(dec, m''));
  }

  // Run refinement: codes and store are those of the plain map executing the log one entry at a time.
  lemma {:induction false} RunRefinement(dec: Decoder, m: Machine, events: seq<Event>)
    requires Inv(dec, m) && Admissible(dec, m, events) && PlainRun(dec, m, events)
    ensures var r := Run(dec, m, events); var log := CmdsOf(LogOf(events));
      && r.Some? && Inv(dec, r.value.0)
      && Executes(ViewOf(dec, m), log, r.value.1, ViewOf(dec, r.value.0))
  {
    if events == [] {
      assert CmdsOf(LogOf(events)) == [];
    } else {
      RunRefinement(dec, m, Front(events));
      var (m', codes) := Run(dec, m, Front(events)).value;
      StepRefines(dec, m', Last(events));
      var (m'', more) := Step(dec, m', Last(events)).value;
      RefineLast(dec, m, events, m', codes, m'', more);
    }
  }

  lemma PlainJoin(st: Store, a: seq<Command>, codesA: Codes, b: seq<Command>, codesB: Codes)
    requires |codesA| == |a|
    ensures codesA + codesB == CodesOf(st, a + b) <==>
              codesA == CodesOf(st, a) && codesB == CodesOf(ExecuteAll(st, a), b)
  {
    ExecuteAllConcat(st, a, b);
    assert CodesOf(st, a + b)[..|a|] == CodesOf(st, a);
    assert CodesOf(st, a + b)[|a|..] == CodesOf(ExecuteAll(st, a), b);
    assert (codesA + codesB)[..|a|] == codesA && (codesA + codesB)[|a|..] == codesB;
  }

  // And exactly so: an admissible run without restarts answers as the plain map does if and only if
  // every batch meets its condition.
  lemma {:induction false} RunPlainExact(dec: Decoder, m: Machine, events: seq<Event>)
    requires Inv(dec, m) && Admissible(dec, m, events) && NoRestart(events)
    ensures Run(dec, m, events).Some?
    ensures Run(dec, m, events).value.1 == CodesOf(ViewOf(dec, m), CmdsOf(LogOf(events))) <==> PlainRun(dec, m, events)
  {
    RunKeepsInvariant(dec, m, events);
    if events == [] {
      assert CmdsOf(LogOf(events)) == [];
    } else {
      var rest, ev := Front(events), Last(events);
      assert (forall e :: e in rest ==> e in events) && ev in events;
      RunPlainExact(dec, m, rest);
      RunKeepsInvariant(dec, m, rest);
      RunSplits(dec, m, events);
      LastEventExact(dec, m, events);
    }
  }

  lemma LastEventExact(dec: Decoder, m: Machine, events: seq<Event>)
    requires Inv(dec, m) && Admissible(dec, m, events) && events != [] && !Last(events).Restart?
    requires Run(dec, m, events).Some? && Run(dec, m, Front(events)).Some?
    requires Run(dec, m, Front(events)).value.1 == CodesOf(ViewOf(dec, m), CmdsOf(LogOf(Front(events)))) <==>
               PlainRun(dec, m, Front(events))
    ensures Run(dec, m, events).value.1 == CodesOf(ViewOf(dec, m), CmdsOf(LogOf(events))) <==> PlainRun(dec, m, events)
  {
    var rest, ev := Front(events), Last(events);
    var (m', codes) := Run(dec, m, rest).value;
    RunKeepsInvariant(dec, m, rest);
    RunSplits(dec, m, events);
    RunShape(dec, m, rest);
    StepRefines(dec, m', ev);
    RunUnfold(dec, m, events);
    PlainJoin(ViewOf(dec, m), CmdsOf(LogOf(rest)), codes, CmdsIn(ev), Step(dec, m', ev).value.1);
    if PlainRun(dec, m, rest) {
      RunRefinement(dec, m, rest);
    }
  }

  // Conflict-free runs are admissible, and plain when they avoid pending DELs.
  lemma {:induction false} ConflictFreeRunFits(dec: Decoder, m: Machine, events: seq<Event>)
    requires Inv(dec, m) && ConflictFreeRun(dec, m, events)
    ensures Admissible(dec, m, events)
    ensures AvoidsDeletes(dec, m, events) ==> PlainRun(dec, m, events)
  {
    if events != [] {
      var rest, ev := Front(events), Last(events);
      ConflictFreeRunFits(dec, m, rest);
      RunKeepsInvariant(dec, m, rest);
      var m' := Run(dec, m, rest).value.0;
      if ev.Batch? {
        ConflictFreeMeetsAll(dec, m'.disk, m'.pending, ev.entries, ev.order);
      }
    }
  }

  // A routed one-entry Update away from pending DELs is one step of the plain map.
  lemma OneEntryRuns(dec: Decoder, m: Machine, e: UpdateEntry, order: seq<char>)
    requires Inv(dec, m) && CompleteOrder(m.disk, order)
    requires Queueable(dec, e) && e.shardId in m.disk && !HitsDelete(m.pending, e.cmd)
    ensures var r := Step(dec, m, Batch([e], order));
      && r.Some? && Inv(dec, r.value.0)
      && r.value.1 == [Code(ViewOf(dec, m), e.cmd)]
      && ViewOf(dec, r.value.0) == Execute(ViewOf(dec, m), e.cmd)
  {
    SingletonConflictFree(m.pending, e);
    BatchRefines(dec, m.disk, m.pending, [e], order);
    ExecutesOne(ViewOf(dec, m), e.cmd);
    assert CmdsOf([e]) == [e.cmd];
  }

  // Batch boundaries, Sync placement and walk orders are unobservable: two runs of the same commands
  // from states that stand for the same store answer alike, stand for the same store again, and
  // answer every GET alike that neither of them resurrects.
  lemma ScheduleUnobservable(dec: Decoder, m1: Machine, events1: seq<Event>, m2: Machine, events2: seq<Event>)
    requires Inv(dec, m1) && Admissible(dec, m1, events1) && PlainRun(dec, m1, events1)
    requires Inv(dec, m2) && Admissible(dec, m2, events2) && PlainRun(dec, m2, events2)
    requires ViewOf(dec, m1) == ViewOf(dec, m2) && CmdsOf(LogOf(events1)) == CmdsOf(LogOf(events2))
    ensures var r1 := Run(dec, m1, events1); var r2 := Run(dec, m2, events2);
      && r1.Some? && r2.Some? && Inv(dec, r1.value.0) && Inv(dec, r2.value.0)
      && r1.value.1 == r2.value.1
      && ViewOf(dec, r1.value.0) == ViewOf(dec, r2.value.0)
    ensures var a := Run(dec, m1, events1).value.0; var b := Run(dec, m2, events2).value.0;
      forall part, id ::
        && FirstRune(part) in a.disk && FirstRune(part) in b.disk
        && !Resurrected(dec, a.disk, a.pending, part, id) && !Resurrected(dec, b.disk, b.pending, part, id)
        ==> Get(a.disk, a.pending, part, id) == Get(b.disk, b.pending, part, id)
  {
    RunRefinement(dec, m1, events1);
    RunRefinement(dec, m2, events2);
    var a := Run(dec, m1, events1).value.0;
    var b := Run(dec, m2, events2).value.0;
    forall part, id |
      && FirstRune(part) in a.disk && FirstRune(part) in b.disk
      && !Resurrected(dec, a.disk, a.pending, part, id) && !Resurrected(dec, b.disk, b.pending, part, id)
      ensures Get(a.disk, a.pending, part, id) == Get(b.disk, b.pending, part, id)
    {
      GetExact(dec, a.disk, a.pending, part, id);
      GetExact(dec, b.disk, b.pending, part, id);
    }
  }
}
