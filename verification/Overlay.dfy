// Reads and single decisions against the queue laid over the disk, compared with the store the two
// stand for.
module Overlay {
  import opened Basics
  import opened Commands
  import opened PlainStore
  import opened PendingQueue
  import opened ShardStore
  import opened DiskView
  import opened Deciding

  // What the queue over the disk stands for.
  ghost function View(dec: Decoder, disk: Disk, q: Queue): (st: Store)
    requires SoundDisk(dec, disk)
  {
    Fold(DiskStore(dec, disk), q)
  }

  // The shards and the queue as the state machine keeps them.
  ghost predicate Sound(dec: Decoder, disk: Disk, q: Queue) {
    && SoundDisk(dec, disk)
    && WellFormedQueue(dec, q)
    && Routed(disk, q)
    && Valid(DiskStore(dec, disk), q)
  }

  // ---------------------------------------------------------------- the disk

  lemma DiskLookup(dec: Decoder, disk: Disk, part: string, id: string)
    requires SoundDisk(dec, disk) && FirstRune(part) in disk
    ensures var st := DiskStore(dec, disk); var block := disk[FirstRune(part)].block;
      && (part in st <==> part in block)
      && (Holds(st, part, id) <==> RawDocument(block, part, FullId(part, id)) != "")
      && (Holds(st, part, id) ==>
            && RawDocument(block, part, FullId(part, id)) == st[part][id].text
            && dec(st[part][id].text) == Some(st[part][id].doc))
  {
    var block := disk[FirstRune(part)].block;
    DiskStoreAt(dec, disk, part);
    if part in block && FullId(part, id) in block[part] {
      assert SoundRecord(dec, part, FullId(part, id), block[part][FullId(part, id)]);
    }
  }

  // ---------------------------------------------------------------- GET

  datatype Answer = NoSuchShard | NotFound | Success(text: string)

  function GetInState(disk: Disk, part: string, id: string): (a: Answer) {
    if FirstRune(part) !in disk then NoSuchShard
    else
      var raw := RawDocument(disk[FirstRune(part)].block, part, FullId(part, id));
      if raw == "" then NotFound else Success(raw)
  }

  function Get(disk: Disk, q: Queue, part: string, id: string): (a: Answer) {
    match LatestHit(q, part, id)
    case None => GetInState(disk, part, id)
    case Some(hit) =>
      if hit.kind.DEL? || hit.kind.DELETE_PART? then NotFound
      else if hit.kind.POST? || hit.kind.PUT? then Success(hit.text)
      else GetInState(disk, part, id)
  }

  ghost function Expected(st: Store, part: string, id: string): (a: Answer) {
    if Holds(st, part, id) then Success(st[part][id].text) else NotFound
  }

  // The document is still in a bucket that the queue has since deleted and created again.
  ghost predicate Resurrected(dec: Decoder, disk: Disk, q: Queue, part: string, id: string)
    requires SoundDisk(dec, disk)
  {
    var hit := LatestHit(q, part, id);
    hit.Some? && hit.value.kind.CREATE_PART? && Holds(DiskStore(dec, disk), part, id)
  }

  lemma GetInStateTruth(dec: Decoder, disk: Disk, part: string, id: string)
    requires SoundDisk(dec, disk) && FirstRune(part) in disk
    ensures GetInState(disk, part, id) == Expected(DiskStore(dec, disk), part, id)
  {
    DiskLookup(dec, disk, part, id);
  }

  // What a true lookup says of the expected answer.
  lemma ExpectedFromHit(st: Store, s: Store, hit: Option<Command>, part: string, id: string)
    requires Reveals(st, s, hit, part, id)
    ensures Expected(s, part, id) ==
              match hit
              case None => Expected(st, part, id)
              case Some(h) => if h.kind.PUT? || h.kind.POST? then Success(h.text) else NotFound
    ensures Holds(st, part, id) <==> Expected(st, part, id) != NotFound
  {
  }

  // GET tells the truth exactly when it does not resurrect a deleted document.
  lemma GetExact(dec: Decoder, disk: Disk, q: Queue, part: string, id: string)
    requires Sound(dec, disk, q) && FirstRune(part) in disk
    ensures Get(disk, q, part, id) == Expected(View(dec, disk, q), part, id) <==> !Resurrected(dec, disk, q, part, id)
  {
    QueueReveals(dec, DiskStore(dec, disk), q, part, id);
    ExpectedFromHit(DiskStore(dec, disk), View(dec, disk, q), LatestHit(q, part, id), part, id);
    GetInStateTruth(dec, disk, part, id);
  }

  // A GET whose partition has no shard is refused, whatever the queue.
  lemma GetUnrouted(dec: Decoder, disk: Disk, q: Queue, part: string, id: string)
    requires Sound(dec, disk, q) && FirstRune(part) !in disk
    ensures Get(disk, q, part, id) == NoSuchShard
  {
    NoHitOutsideShards(dec, disk, q, part, id);
  }

  lemma {:induction false} NoHitOutsideShards(dec: Decoder, disk: Disk, q: Queue, part: string, id: string)
    requires WellFormedQueue(dec, q) && Routed(disk, q) && FirstRune(part) !in disk
    ensures LatestHit(q, part, id).None?
  {
    if q != [] {
      assert Queueable(dec, Last(q)) && Last(q).shardId in disk;
      NoHitOutsideShards(dec, disk, Front(q), part, id);
    }
  }

  // Once its shard is committed a GET tells the truth, whether the queue still stands or not.
  lemma GetAfterCommit(dec: Decoder, disk: Disk, q: Queue, done: set<char>, part: string, id: string)
    requires Sound(dec, disk, q) && FirstRune(part) in disk && FirstRune(part) in done
    ensures Committable(disk, q)
    ensures Get(CommitShards(disk, q, done), q, part, id) == Expected(View(dec, disk, q), part, id)
    ensures Get(CommitShards(disk, q, done), [], part, id) == Expected(View(dec, disk, q), part, id)
  {
    var c := FirstRune(part);
    PartialCommit(dec, disk, q, done, c);
    var disk' := CommitShards(disk, q, done);
    QueueReveals(dec, DiskStore(dec, disk), q, part, id);
    DiskLookup(dec, disk', part, id);
    assert part in DiskStore(dec, disk') <==> part in View(dec, disk, q);
  }

  // Before the commit of its shard a GET is the one before the Sync.
  lemma GetBeforeCommit(dec: Decoder, disk: Disk, q: Queue, done: set<char>, part: string, id: string)
    requires Sound(dec, disk, q) && FirstRune(part) !in done
    ensures Committable(disk, q)
    ensures Get(CommitShards(disk, q, done), q, part, id) == Get(disk, q, part, id)
  {
    PartialCommitSound(dec, disk, q, done);
  }

  // Reads are stable through a whole Sync, whatever shards have been committed when they happen,
  // exactly for the documents that were not resurrected before it.
  lemma ReadsStableThroughSync(dec: Decoder, disk: Disk, q: Queue, part: string, id: string)
    requires Sound(dec, disk, q) && FirstRune(part) in disk
    ensures Committable(disk, q)
    ensures (&& (forall done :: Get(CommitShards(disk, q, done), q, part, id) == Get(disk, q, part, id))
             && Get(CommitShards(disk, q, disk.Keys), [], part, id) == Get(disk, q, part, id))
            <==> !Resurrected(dec, disk, q, part, id)
  {
    GetExact(dec, disk, q, part, id);
    GetAfterCommit(dec, disk, q, disk.Keys, part, id);
    forall done
      ensures !Resurrected(dec, disk, q, part, id) ==>
                Get(CommitShards(disk, q, done), q, part, id) == Get(disk, q, part, id)
    {
      if FirstRune(part) in done {
        GetAfterCommit(dec, disk, q, done, part, id);
      } else {
        GetBeforeCommit(dec, disk, q, done, part, id);
      }
    }
  }

  // ---------------------------------------------------------------- one decision

  predicate HitsDelete(q: Queue, cmd: Command) {
    var hit := LatestHit(q, cmd.part, cmd.id);
    IsDocKind(cmd.kind) && hit.Some? && hit.value.kind.DEL?
  }

  // The disk pass changes nothing for an entry the queue answered with a document command, and an
  // entry the queue did not answer always gets it.
  predicate ReadsAlone(q: Queue, needDisk: bool, cmd: Command) {
    match LatestHit(q, cmd.part, cmd.id)
    case None => needDisk
    case Some(hit) => needDisk ==> !hit.isPart
  }

  // What the lookups find for a command, against the store that queue and disk stand for.
  lemma FindingTruth(dec: Decoder, disk: Disk, q: Queue, needDisk: bool, cmd: Command)
    requires Sound(dec, disk, q) && WellFormed(dec, cmd)
    requires FirstRune(cmd.part) in disk && ReadsAlone(q, needDisk, cmd)
    ensures var f := FindingFor(dec, disk[FirstRune(cmd.part)].block, q, needDisk, cmd); var st := View(dec, disk, q);
      && f.Some?
      && (f.value.partExists <==> cmd.part in st)
      && (!IsPartKind(cmd.kind) ==>
            f.value.existingDoc ==
              if Holds(st, cmd.part, cmd.id) then Some(st[cmd.part][cmd.id].doc)
              else if LatestHit(q, cmd.part, cmd.id).Some? && LatestHit(q, cmd.part, cmd.id).value.kind.DEL?
              then Some(EMPTY_DOCUMENT)
              else None)
  {
    QueueReveals(dec, DiskStore(dec, disk), q, cmd.part, cmd.id);
    LatestHitSound(dec, q, cmd.part, cmd.id);
    DiskLookup(dec, disk, cmd.part, cmd.id);
  }

  // The decision on a true finding is the plain store's.
  lemma DecideIsCode(cmd: Command, f: Finding, st: Store)
    requires f.partExists <==> cmd.part in st
    requires IsDocKind(cmd.kind) ==>
               f.existingDoc == if Holds(st, cmd.part, cmd.id) then Some(st[cmd.part][cmd.id].doc) else None
    ensures Decide(cmd, f) == Code(st, cmd)
  {
  }

  // The decision on the empty document a pending DEL leaves behind never is.
  lemma DecideAfterDelete(cmd: Command, st: Store)
    requires cmd.part in st && !Holds(st, cmd.part, cmd.id) && IsDocKind(cmd.kind)
    ensures Decide(cmd, Finding(true, Some(EMPTY_DOCUMENT))) ==
              Some(if cmd.kind.POST? || cmd.ts != 0 then 409 else 200)
    ensures Code(st, cmd) == Some(if cmd.kind.POST? then 200 else 404)
  {
  }

  // Whatever the kind of the latest hit, an accepted command is one the store can take.
  lemma AcceptedIsApplicable(dec: Decoder, disk: Disk, q: Queue, needDisk: bool, cmd: Command)
    requires Sound(dec, disk, q) && WellFormed(dec, cmd)
    requires FirstRune(cmd.part) in disk && ReadsAlone(q, needDisk, cmd)
    requires Verdict(dec, disk[FirstRune(cmd.part)].block, q, needDisk, cmd) == Some(200)
    ensures Applicable(View(dec, disk, q), cmd)
  {
    FindingTruth(dec, disk, q, needDisk, cmd);
  }

  lemma CodePlain(dec: Decoder, disk: Disk, q: Queue, needDisk: bool, cmd: Command)
    requires Sound(dec, disk, q) && WellFormed(dec, cmd)
    requires FirstRune(cmd.part) in disk && ReadsAlone(q, needDisk, cmd) && !HitsDelete(q, cmd)
    ensures Verdict(dec, disk[FirstRune(cmd.part)].block, q, needDisk, cmd) == Code(View(dec, disk, q), cmd)
  {
    FindingTruth(dec, disk, q, needDisk, cmd);
    DecideIsCode(cmd, FindingFor(dec, disk[FirstRune(cmd.part)].block, q, needDisk, cmd).value, View(dec, disk, q));
  }

  // The plain map gives 404 to a PUT or DEL of a missing document and 200 to a POST of it. After a
  // pending DEL of the document the answers are these instead.
  lemma CodeAfterDelete(dec: Decoder, disk: Disk, q: Queue, needDisk: bool, cmd: Command)
    requires Sound(dec, disk, q) && WellFormed(dec, cmd)
    requires FirstRune(cmd.part) in disk && ReadsAlone(q, needDisk, cmd) && HitsDelete(q, cmd)
    ensures cmd.part in View(dec, disk, q) && !Holds(View(dec, disk, q), cmd.part, cmd.id)
    ensures Verdict(dec, disk[FirstRune(cmd.part)].block, q, needDisk, cmd) ==
              Some(if cmd.kind.POST? || cmd.ts != 0 then 409 else 200)
    ensures Code(View(dec, disk, q), cmd) == Some(if cmd.kind.POST? then 200 else 404)
  {
    QueueReveals(dec, DiskStore(dec, disk), q, cmd.part, cmd.id);
    LatestHitSound(dec, q, cmd.part, cmd.id);
    assert FindInQueue(q, cmd) == Finding(true, Some(EMPTY_DOCUMENT));
    DecideAfterDelete(cmd, View(dec, disk, q));
  }

  // A one-entry Update: the entry and its code, None when the result is left untouched.
  function Submit(dec: Decoder, disk: Disk, q: Queue, e: UpdateEntry): (r: (Queue, Option<nat>)) {
    var code := BatchCode(dec, disk, q, [e], e);
    (if code == Some(200) then q + [e] else q, code)
  }

  // The two ways a pending DEL makes a one-entry Update change the store differently.
  predicate DivergesAfterDelete(q: Queue, cmd: Command) {
    HitsDelete(q, cmd) && (cmd.kind.POST? || (cmd.kind.PUT? && cmd.ts == 0))
  }

  lemma NeedDiskAlone(q: Queue, e: UpdateEntry)
    ensures SliceFor([e], e.shardId) == [e]
    ensures NeedDisk(q, [e]) <==> LatestHit(q, e.cmd.part, e.cmd.id).None?
    ensures ReadsAlone(q, NeedDisk(q, [e]), e.cmd)
  {
    assert SliceFor([e], e.shardId) == SliceFor([], e.shardId) + [e];
    assert e in [e];
  }

  // Even after a pending DEL a one-entry Update keeps the queue valid.
  lemma SubmitKeepsSound(dec: Decoder, disk: Disk, q: Queue, e: UpdateEntry)
    requires Sound(dec, disk, q) && Queueable(dec, e)
    ensures Sound(dec, disk, Submit(dec, disk, q, e).0)
  {
    NeedDiskAlone(q, e);
    if Submit(dec, disk, q, e).1 == Some(200) {
      AcceptedIsApplicable(dec, disk, q, NeedDisk(q, [e]), e.cmd);
      assert Front(q + [e]) == q && Last(q + [e]) == e;
    }
  }

  lemma SubmitView(dec: Decoder, disk: Disk, q: Queue, e: UpdateEntry)
    requires SoundDisk(dec, disk)
    ensures View(dec, disk, Submit(dec, disk, q, e).0) ==
              if Submit(dec, disk, q, e).1 == Some(200) then Apply(View(dec, disk, q), e.cmd) else View(dec, disk, q)
  {
    assert Front(q + [e]) == q && Last(q + [e]) == e;
  }

  // A routed one-entry Update does to the store and answers what the plain execution does, each
  // with its exact exception.
  lemma OneEntryExact(dec: Decoder, disk: Disk, q: Queue, e: UpdateEntry)
    requires Sound(dec, disk, q) && Queueable(dec, e) && e.shardId in disk
    ensures var r := Submit(dec, disk, q, e); var st := View(dec, disk, q);
      && (r.1 == Code(st, e.cmd) <==> !HitsDelete(q, e.cmd))
      && (View(dec, disk, r.0) == Execute(st, e.cmd) <==> !DivergesAfterDelete(q, e.cmd))
  {
    NeedDiskAlone(q, e);
    SubmitView(dec, disk, q, e);
    if HitsDelete(q, e.cmd) {
      CodeAfterDelete(dec, disk, q, NeedDisk(q, [e]), e.cmd);
      DeletedDocument(View(dec, disk, q), e.cmd);
    } else {
      CodePlain(dec, disk, q, NeedDisk(q, [e]), e.cmd);
    }
  }

  // Away from pending DELs a one-entry Update is the plain execution.
  lemma SubmitRefines(dec: Decoder, disk: Disk, q: Queue, e: UpdateEntry)
    requires Sound(dec, disk, q) && Queueable(dec, e) && e.shardId in disk && !HitsDelete(q, e.cmd)
    ensures var r := Submit(dec, disk, q, e); var st := View(dec, disk, q);
      && Sound(dec, disk, r.0)
      && r.1 == Code(st, e.cmd)
      && View(dec, disk, r.0) == Execute(st, e.cmd)
  {
    OneEntryExact(dec, disk, q, e);
    SubmitKeepsSound(dec, disk, q, e);
  }

  // What the commands do to a document that is not there: a DEL nothing, the others something.
  lemma DeletedDocument(st: Store, cmd: Command)
    requires cmd.part in st && cmd.id !in st[cmd.part] && IsDocKind(cmd.kind)
    ensures Apply(st, cmd) == st <==> cmd.kind.DEL?
  {
    if cmd.kind.DEL? {
      assert Without(st[cmd.part], cmd.id) == st[cmd.part];
    } else {
      assert cmd.id in Apply(st, cmd)[cmd.part];
    }
  }
}
