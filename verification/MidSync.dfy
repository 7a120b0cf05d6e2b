// A crash inside a Sync: some shards are committed and the replay index is still the old one.
module MidSync {
  import opened Basics
  import opened Commands
  import opened PlainStore
  import opened PendingQueue
  import opened DiskView
  import opened Deciding
  import opened Overlay
  import opened Batches
  import opened Snapshots
  import opened Runs
  import opened Recovery
  import opened FirstStart

  // ---------------------------------------------------------------- the plain store, shard by shard

  // A command is decided by its own shard and changes no other.
  lemma ExecuteLocal(st1: Store, st2: Store, cmd: Command, c: char)
    requires AgreeOn(st1, st2, c)
    ensures FirstRune(cmd.part) == c ==> Code(st1, cmd) == Code(st2, cmd)
    ensures AgreeOn(Execute(st1, cmd), Execute(st2, cmd), c)
  {
    ApplyAgrees(st1, st2, cmd, c);
    ApplyAgrees(st2, st1, cmd, c);
  }

  lemma {:induction false} ExecuteAllLocal(st1: Store, st2: Store, log: seq<Command>, c: char)
    requires AgreeOn(st1, st2, c)
    ensures AgreeOn(ExecuteAll(st1, log), ExecuteAll(st2, log), c)
  {
    if log != [] {
      ExecuteAllLocal(st1, st2, Front(log), c);
      ExecuteLocal(ExecuteAll(st1, Front(log)), ExecuteAll(st2, Front(log)), Last(log), c);
    }
  }

  lemma CodesLocal(st1: Store, st2: Store, log: seq<Command>, k: nat)
    requires k < |log| && AgreeOn(st1, st2, FirstRune(log[k].part))
    ensures CodesOf(st1, log)[k] == CodesOf(st2, log)[k]
  {
    var c := FirstRune(log[k].part);
    CodeAt(st1, log, k);
    CodeAt(st2, log, k);
    ExecuteAllLocal(st1, st2, log[..k], c);
    ExecuteLocal(ExecuteAll(st1, log[..k]), ExecuteAll(st2, log[..k]), log[k], c);
  }

  // The shards of `done` as the log left them, the others as it found them.
  ghost predicate Mixed(mid: Store, start: Store, end: Store, done: set<char>) {
    forall c :: AgreeOn(mid, if c in done then end else start, c)
  }

  // Executing the log over again on its own end leaves the shards of `done` as they are.
  ghost predicate Repeats(end: Store, log: seq<Command>, done: set<char>) {
    forall c :: c in done ==> AgreeOn(ExecuteAll(end, log), end, c)
  }

  // Executed on a mixed store the log restores its end exactly when it repeats on the shards already
  // there, and every entry gets the code its own shard gives it.
  lemma MixedReplay(mid: Store, start: Store, log: seq<Command>, done: set<char>)
    requires Mixed(mid, start, ExecuteAll(start, log), done)
    ensures var end := ExecuteAll(start, log);
      && (ExecuteAll(mid, log) == end <==> Repeats(end, log, done))
      && (forall k :: 0 <= k < |log| ==>
            CodesOf(mid, log)[k] == CodesOf(if FirstRune(log[k].part) in done then end else start, log)[k])
  {
    var end, end' := ExecuteAll(start, log), ExecuteAll(mid, log);
    forall c ensures AgreeOn(end', if c in done then ExecuteAll(end, log) else end, c) {
      ExecuteAllLocal(mid, if c in done then end else start, log, c);
    }
    if Repeats(end, log, done) {
      forall c ensures AgreeOn(end', end, c) {
        assert AgreeOn(end', if c in done then ExecuteAll(end, log) else end, c);
        if c in done {
          AgreeOnJoin(end', end, ExecuteAll(end, log), c);
        }
      }
      StoresEqual(end', end);
    }
    if end' == end {
      forall c | c in done ensures AgreeOn(ExecuteAll(end, log), end, c) {
        assert AgreeOn(end', ExecuteAll(end, log), c);
      }
    }
    forall k | 0 <= k < |log|
      ensures CodesOf(mid, log)[k] == CodesOf(if FirstRune(log[k].part) in done then end else start, log)[k]
    {
      CodesLocal(mid, if FirstRune(log[k].part) in done then end else start, log, k);
    }
  }

  // ---------------------------------------------------------------- the machine

  // What a restart finds when the shards of `done` have committed and the index has not been stored.
  function Torn(m: Machine, done: set<char>): (mid: Machine)
    requires Committable(m.disk, m.pending)
  {
    m.(disk := CommitShards(m.disk, m.pending, done), pending := [])
  }

  lemma TornStore(dec: Decoder, disk: Disk, q: Queue, done: set<char>, c: char)
    requires Sound(dec, disk, q)
    ensures Committable(disk, q) && SoundDisk(dec, CommitShards(disk, q, done))
    ensures AgreeOn(DiskStore(dec, CommitShards(disk, q, done)),
                    if c in done then View(dec, disk, q) else DiskStore(dec, disk), c)
  {
    PartialCommitSound(dec, disk, q, done);
    if c in disk {
      PartialCommit(dec, disk, q, done, c);
    } else {
      NothingUnrouted(dec, disk, q, c);
      NothingUnrouted(dec, CommitShards(disk, q, done), [], c);
    }
  }

  lemma TornIsSound(dec: Decoder, m: Machine, done: set<char>)
    requires Inv(dec, m)
    ensures Committable(m.disk, m.pending) && Inv(dec, Torn(m, done))
  {
    PartialCommitSound(dec, m.disk, m.pending, done);
    EmptyIsSound(dec, CommitShards(m.disk, m.pending, done));
  }

  // It is indeed what a restart finds.
  lemma TornIsFound(dec: Decoder, m: Machine, done: set<char>)
    requires Committable(m.disk, m.pending) && IndexPersisted(m)
    ensures Step(dec, m.(disk := CommitShards(m.disk, m.pending, done)), Restart) == Some((Torn(m, done), []))
  {
  }

  lemma TornIsMixed(dec: Decoder, m: Machine, done: set<char>)
    requires Inv(dec, m) && Committable(m.disk, m.pending) && Inv(dec, Torn(m, done)) && Inv(dec, m.(pending := []))
    ensures Mixed(ViewOf(dec, Torn(m, done)), ViewOf(dec, m.(pending := [])), ViewOf(dec, m), done)
  {
    forall c
      ensures AgreeOn(ViewOf(dec, Torn(m, done)),
                      if c in done then ViewOf(dec, m) else ViewOf(dec, m.(pending := [])), c)
    {
      TornStore(dec, m.disk, m.pending, done, c);
    }
  }

  lemma NothingUnrouted(dec: Decoder, disk: Disk, q: Queue, c: char)
    requires SoundDisk(dec, disk) && WellFormedQueue(dec, q) && Routed(disk, q) && c !in disk
    ensures forall p :: FirstRune(p) == c ==> p !in Fold(DiskStore(dec, disk), q) && p !in DiskStore(dec, disk)
  {
    forall p | FirstRune(p) == c ensures p !in Fold(DiskStore(dec, disk), q) && p !in DiskStore(dec, disk) {
      UnroutedAbsent(dec, disk, q, p);
      DiskStoreAt(dec, disk, p);
    }
  }

  // What replaying a log on a torn state gives: the store `end` of the log is restored exactly when,
  // on the committed shards, the log leaves it as it is; an entry of a shard not committed gets its old
  // code, one of a committed shard the code it gets on `end`.
  ghost predicate TornReplay(end: Store, log: seq<Command>, done: set<char>, was: Codes, codes: Codes, end': Store) {
    && |codes| == |log| <= |was|
    && (end' == end <==> Repeats(end, log, done))
    && (forall k :: 0 <= k < |log| ==>
          codes[k] == if FirstRune(log[k].part) in done then CodesOf(end, log)[k] else was[|was| - |log| + k])
  }

  // A store on which a log from elsewhere, with the codes at the end of `was`, has been half done.
  ghost predicate HalfDone(mid: Store, again: Queue, done: set<char>, was: Codes, end: Store) {
    exists start :: Leads(start, again, was, end) && Mixed(mid, start, end, done)
  }

  lemma HalfDoneFrom(mid: Store, start: Store, again: Queue, done: set<char>, was: Codes, end: Store)
    requires Leads(start, again, was, end) && Mixed(mid, start, end, done)
    ensures HalfDone(mid, again, done, was, end)
  {
  }

  lemma TornStart(dec: Decoder, m0: Machine, events: seq<Event>, m: Machine, codes: Codes, done: set<char>)
    requires Inv(dec, m0) && m0.pending == []
    requires Admissible(dec, m0, events) && PlainRun(dec, m0, events)
    requires Increasing(LogOf(events)) && forall e :: e in LogOf(events) ==> m0.lastIndex < e.index
    requires Run(dec, m0, events) == Some((m, codes)) && Committable(m.disk, m.pending)
    ensures Inv(dec, m) && Inv(dec, Torn(m, done))
    ensures HalfDone(ViewOf(dec, Torn(m, done)), Above(LogOf(events), m.lastIndex), done, codes, ViewOf(dec, m))
  {
    RunRefinement(dec, m0, events);
    RestartKeepsInvariant(dec, m);
    var again := Above(LogOf(events), m.lastIndex);
    FromBareDisk(dec, m0, events, m, codes, m.(pending := []), again);
    TornIsSound(dec, m, done);
    TornIsMixed(dec, m, done);
    HalfDoneFrom(ViewOf(dec, Torn(m, done)), ViewOf(dec, m.(pending := [])), again, done, codes, ViewOf(dec, m));
  }

  lemma TornExecutes(mid: Store, again: Queue, done: set<char>,
                     was: Codes, codes: Codes, end: Store, end': Store)
    requires HalfDone(mid, again, done, was, end) && Executes(mid, CmdsOf(again), codes, end')
    ensures TornReplay(end, CmdsOf(again), done, was, codes, end')
  {
    var start :| Leads(start, again, was, end) && Mixed(mid, start, end, done);
    MixedReplay(mid, start, CmdsOf(again), done);
  }

  // A crash inside the Sync that follows a run, with any set of shards committed, and the replay of
  // the entries above the old index.
  lemma MidSyncReplayExact(dec: Decoder, m0: Machine, events: seq<Event>, replay: seq<Event>,
                           m: Machine, codes: Codes, done: set<char>)
    requires Inv(dec, m0) && m0.pending == []
    requires Admissible(dec, m0, events) && PlainRun(dec, m0, events)
    requires Increasing(LogOf(events)) && forall e :: e in LogOf(events) ==> m0.lastIndex < e.index
    requires Run(dec, m0, events) == Some((m, codes)) && Committable(m.disk, m.pending)
    requires Admissible(dec, Torn(m, done), replay) && PlainRun(dec, Torn(m, done), replay)
    requires LogOf(replay) == Above(LogOf(events), m.lastIndex)
    ensures Inv(dec, m) && Run(dec, Torn(m, done), replay).Some? && Inv(dec, Run(dec, Torn(m, done), replay).value.0)
    ensures var (m', codes') := Run(dec, Torn(m, done), replay).value;
      TornReplay(ViewOf(dec, m), CmdsOf(LogOf(replay)), done, codes, codes', ViewOf(dec, m'))
  {
    TornStart(dec, m0, events, m, codes, done);
    RunRefinement(dec, Torn(m, done), replay);
    var (m', codes') := Run(dec, Torn(m, done), replay).value;
    TornExecutes(ViewOf(dec, Torn(m, done)), LogOf(replay), done,
                 codes, codes', ViewOf(dec, m), ViewOf(dec, m'));
  }

  // With every replayed entry of the committed shards refused by the final store, nothing is lost.
  lemma {:induction false} RefusedRepeats(end: Store, log: seq<Command>, done: set<char>)
    requires forall cmd :: cmd in log && FirstRune(cmd.part) in done ==> Code(end, cmd) != Some(200)
    ensures Repeats(end, log, done)
  {
    if log != [] {
      var rest, cmd := Front(log), Last(log);
      assert cmd in log && forall d :: d in rest ==> d in log;
      RefusedRepeats(end, rest, done);
      forall c | c in done ensures AgreeOn(ExecuteAll(end, log), end, c) {
        assert AgreeOn(ExecuteAll(end, rest), end, c);
        ExecuteLocal(ExecuteAll(end, rest), end, cmd, c);
        if FirstRune(cmd.part) != c {
          ApplyAgrees(end, end, cmd, c);
        }
      }
    }
  }

  // ---------------------------------------------------------------- an update that makes room

  predicate IsPutOf(cmd: Command, part: string, id: string) {
    cmd.kind.PUT? && cmd.part == part && cmd.id == id
  }

  // The document is there at b's timestamp, and b gives it the one a carries.
  ghost predicate MakesRoom(dec: Decoder, m: Machine, part: string, id: string, a: UpdateEntry, b: UpdateEntry)
    requires Inv(dec, m)
  {
    && Queueable(dec, a) && Queueable(dec, b) && IsPutOf(a.cmd, part, id) && IsPutOf(b.cmd, part, id)
    && Holds(ViewOf(dec, m), part, id)
    && ViewOf(dec, m)[part][id].doc.updated == b.cmd.ts != b.cmd.doc.updated == a.cmd.ts
  }

  lemma ExecutesTwo(st: Store, a: Command, b: Command)
    ensures Executes(st, [a, b], [Code(st, a), Code(Execute(st, a), b)], Execute(Execute(st, a), b))
  {
    ExecutesOne(st, a);
    ExecutesOne(Execute(st, a), b);
    ExecutesJoin(st, [a], [Code(st, a)], Execute(st, a), [b], [Code(Execute(st, a), b)], Execute(Execute(st, a), b));
    assert [a] + [b] == [a, b];
  }

  function Put(st: Store, cmd: Command): (r: Store)
    requires cmd.part in st
  {
    st[cmd.part := st[cmd.part][cmd.id := Stored(cmd.text, cmd.doc)]]
  }

  // On the plain store a is refused and b accepted; over again a is accepted, and b makes up for it
  // only when a left b's timestamp, or b's own document.
  lemma PutMakesRoom(st: Store, part: string, id: string, a: Command, b: Command)
    requires IsPutOf(a, part, id) && IsPutOf(b, part, id) && Holds(st, part, id)
    requires st[part][id].doc.updated == b.ts != b.doc.updated == a.ts
    ensures Executes(st, [a, b], [Some(409), Some(200)], Put(st, b))
    ensures CodesOf(Put(st, b), [a, b]) == [Some(200), Some(if a.doc.updated == b.ts then 200 else 409)]
    ensures AgreeOn(ExecuteAll(Put(st, b), [a, b]), Put(st, b), FirstRune(part)) <==>
              a.doc.updated == b.ts || Stored(a.text, a.doc) == Stored(b.text, b.doc)
  {
    var end := Put(st, b);
    ExecutesTwo(st, a, b);
    ExecutesTwo(end, a, b);
    var again := ExecuteAll(end, [a, b]);
    assert again[part].Keys == end[part].Keys;
    assert again[part][id] == if a.doc.updated == b.ts then Stored(b.text, b.doc) else Stored(a.text, a.doc);
    assert end[part][id] == Stored(b.text, b.doc);
    assert forall other :: other in end[part] && other != id ==> again[part][other] == end[part][other];
    if again[part][id] == end[part][id] {
      assert again[part] == end[part];
    }
  }

  lemma RejectedBatchRuns(dec: Decoder, m: Machine, e: UpdateEntry, order: seq<char>)
    requires m.pending == [] && Queueable(dec, e)
    requires Step(dec, m, Batch([e], order)).Some? && Step(dec, m, Batch([e], order)).value.1 != [Some(200)]
    ensures Step(dec, m, Batch([e], order)).value.0 == m
  {
    var o := UpdateInOrder(dec, m.disk, [], [e], order);
    UpdateMembers(dec, m.disk, [], [e], order);
    AcceptedOfMembers([e], o.codes);
    assert o.codes == [o.codes[0]];
    assert o.pending == [] || Last(o.pending) in o.pending;
  }

  // In log order a is refused, which changes nothing, and b is accepted.
  lemma RefusedThenAccepted(dec: Decoder, m0: Machine, part: string, id: string,
                            a: UpdateEntry, b: UpdateEntry, order: seq<char>)
    requires Inv(dec, m0) && m0.pending == [] && CompleteOrder(m0.disk, order) && FirstRune(part) in m0.disk
    requires MakesRoom(dec, m0, part, id, a, b)
    ensures Step(dec, m0, Batch([a], order)) == Some((m0, [Some(409)]))
    ensures Step(dec, m0, Batch([b], order)).Some? && Step(dec, m0, Batch([b], order)).value.1 == [Some(200)]
  {
    OneEntryRuns(dec, m0, a, order);
    RejectedBatchRuns(dec, m0, a, order);
    OneEntryRuns(dec, m0, b, order);
  }

  // A run of Updates that gives the log in plain batches.
  ghost predicate Plays(dec: Decoder, m: Machine, events: seq<Event>, log: Queue) {
    OnlyBatches(events) && Admissible(dec, m, events) && PlainRun(dec, m, events) && LogOf(events) == log
  }

  // Two PUTs can always be given one at a time.
  lemma PairPlays(dec: Decoder, m: Machine, a: UpdateEntry, b: UpdateEntry, events: seq<Event>)
    requires Inv(dec, m) && m.pending == [] && OneAtATime(dec, m.disk, events) && OnlyBatches(events)
    requires LogOf(events) == [a, b] && a.shardId in m.disk && b.shardId in m.disk
    requires a.cmd.kind.PUT? && b.cmd.kind.PUT?
    ensures Plays(dec, m, events, [a, b])
  {
    NoDeleteIsSettled(events);
    SettledRunFits(dec, m, events);
  }

  lemma UpdatesKeepIndex(dec: Decoder, m: Machine, events: seq<Event>)
    requires OnlyBatches(events) && Run(dec, m, events).Some?
    ensures Run(dec, m, events).value.0.lastIndex == m.lastIndex
  {
    assert [] + events == events;
    UpdatesKeepDisk(dec, m, [], events);
  }

  lemma RepeatsInShard(end: Store, log: seq<Command>, done: set<char>, c: char)
    requires c in done && forall cmd :: cmd in log ==> FirstRune(cmd.part) == c
    ensures Repeats(end, log, done) <==> AgreeOn(ExecuteAll(end, log), end, c)
  {
    RefusedRepeats(end, log, done - {c});
  }

  lemma FirstTime(dec: Decoder, m0: Machine, part: string, id: string,
                  a: UpdateEntry, b: UpdateEntry, events: seq<Event>)
    requires Inv(dec, m0) && MakesRoom(dec, m0, part, id, a, b) && Plays(dec, m0, events, [a, b])
    ensures var r := Run(dec, m0, events);
      && r.Some? && Inv(dec, r.value.0)
      && r.value.1 == [Some(409), Some(200)]
      && ViewOf(dec, r.value.0) == Put(ViewOf(dec, m0), b.cmd)
  {
    RunRefinement(dec, m0, events);
    var (m, codes) := Run(dec, m0, events).value;
    FirstEnd(ViewOf(dec, m0), part, id, a, b, codes, ViewOf(dec, m));
  }

  lemma FirstEnd(st: Store, part: string, id: string, a: UpdateEntry, b: UpdateEntry, codes: Codes, end: Store)
    requires IsPutOf(a.cmd, part, id) && IsPutOf(b.cmd, part, id) && Holds(st, part, id)
    requires st[part][id].doc.updated == b.cmd.ts != b.cmd.doc.updated == a.cmd.ts
    requires Executes(st, CmdsOf([a, b]), codes, end)
    ensures codes == [Some(409), Some(200)] && end == Put(st, b.cmd)
  {
    assert CmdsOf([a, b]) == [a.cmd, b.cmd];
    PutMakesRoom(st, part, id, a.cmd, b.cmd);
  }

  lemma StillAbove(dec: Decoder, m0: Machine, a: UpdateEntry, b: UpdateEntry, events: seq<Event>)
    requires OnlyBatches(events) && Run(dec, m0, events).Some? && m0.lastIndex < a.index < b.index
    ensures Above([a, b], Run(dec, m0, events).value.0.lastIndex) == [a, b]
  {
    UpdatesKeepIndex(dec, m0, events);
    AboveAll([a, b], m0.lastIndex);
  }

  lemma PairFacts(a: UpdateEntry, b: UpdateEntry, last: uint64)
    requires last < a.index < b.index
    ensures Increasing([a, b]) && forall e :: e in [a, b] ==> last < e.index
  {
  }

  // The refused PUT is accepted, and the store is lost unless the two leave the same document or the
  // refused one sets back the timestamp the other waits for.
  ghost predicate RoomReplay(a: Command, b: Command, codes: Codes, end': Store, end: Store) {
    && codes == [Some(200), Some(if a.doc.updated == b.ts then 200 else 409)]
    && (end' == end <==> a.doc.updated == b.ts || Stored(a.text, a.doc) == Stored(b.text, b.doc))
  }

  lemma SecondEnd(st: Store, part: string, id: string, a: UpdateEntry, b: UpdateEntry, done: set<char>,
                  was: Codes, codes: Codes, end: Store, end': Store)
    requires IsPutOf(a.cmd, part, id) && IsPutOf(b.cmd, part, id) && Holds(st, part, id) && FirstRune(part) in done
    requires st[part][id].doc.updated == b.cmd.ts != b.cmd.doc.updated == a.cmd.ts
    requires end == Put(st, b.cmd) && TornReplay(end, CmdsOf([a, b]), done, was, codes, end')
    ensures RoomReplay(a.cmd, b.cmd, codes, end', end)
  {
    var log := CmdsOf([a, b]);
    assert log == [a.cmd, b.cmd];
    PutMakesRoom(st, part, id, a.cmd, b.cmd);
    RepeatsInShard(end, log, done, FirstRune(part));
    assert codes[0] == CodesOf(end, log)[0] && codes[1] == CodesOf(end, log)[1];
  }

  // A PUT that log order refuses, and the PUT that then sets the timestamp it waits for. When the
  // process dies in the following Sync with their shard committed and the index not yet stored, both
  // are replayed on the committed shard.
  lemma MidSyncReplayDiverges(dec: Decoder, m0: Machine, part: string, id: string, a: UpdateEntry, b: UpdateEntry,
                              events: seq<Event>, m: Machine, codes: Codes, done: set<char>, replay: seq<Event>)
    requires Inv(dec, m0) && m0.pending == [] && m0.lastIndex < a.index < b.index
    requires MakesRoom(dec, m0, part, id, a, b) && Plays(dec, m0, events, [a, b]) && FirstRune(part) in done
    requires Run(dec, m0, events) == Some((m, codes)) && Committable(m.disk, m.pending)
    requires Plays(dec, Torn(m, done), replay, [a, b])
    ensures codes == [Some(409), Some(200)] && Above([a, b], m.lastIndex) == [a, b]
    ensures Inv(dec, m) && Run(dec, Torn(m, done), replay).Some? && Inv(dec, Run(dec, Torn(m, done), replay).value.0)
    ensures var (m', codes') := Run(dec, Torn(m, done), replay).value;
      RoomReplay(a.cmd, b.cmd, codes', ViewOf(dec, m'), ViewOf(dec, m))
  {
    FirstTime(dec, m0, part, id, a, b, events);
    StillAbove(dec, m0, a, b, events);
    PairFacts(a, b, m0.lastIndex);
    MidSyncReplayExact(dec, m0, events, replay, m, codes, done);
    var (m', codes') := Run(dec, Torn(m, done), replay).value;
    SecondEnd(ViewOf(dec, m0), part, id, a, b, done, codes, codes', ViewOf(dec, m), ViewOf(dec, m'));
  }
}
