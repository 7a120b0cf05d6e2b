// The search index against the stored documents.
module IndexAgreement {
  import opened Basics
  import opened Commands
  import opened PlainStore
  import opened PendingQueue
  import opened ShardStore
  import opened DiskView
  import opened Deciding
  import opened Batches
  import opened Runs

  // Some bucket stores the key.
  predicate IsStored(block: BoltDb, key: string) {
    exists p :: p in block && key in block[p]
  }

  // The index holds exactly the stored keys, each with the decoding of its bytes.
  ghost predicate Agrees(dec: Decoder, sh: ShardState) {
    && (forall k :: k in sh.index <==> IsStored(sh.block, k))
    && (forall p, k :: p in sh.block && k in sh.block[p] && k in sh.index ==>
          dec(sh.block[p][k]) == Some(sh.index[k]))
  }

  // No two partitions of the set can share a document key.
  predicate Separate(parts: set<string>) {
    forall p, q :: p in parts && q in parts && p != q ==> !Collide(p, q)
  }

  function PartsOf(q: Queue): (parts: set<string>) {
    set e | e in q :: e.cmd.part
  }

  lemma ColonFreeIsSeparate(parts: set<string>)
    requires forall p :: p in parts ==> ColonFree(p)
    ensures Separate(parts)
  {
    forall p, q | p in parts && q in parts && p != q ensures !Collide(p, q) {
      ColonFreeNeverCollide(p, q);
    }
  }

  // In separate partitions a key of one is never stored in another.
  lemma KeyHasOnePartition(dec: Decoder, block: BoltDb, parts: set<string>, part: string, id: string, p: string)
    requires SoundBlock(dec, block) && Separate(parts) && block.Keys <= parts && part in parts
    requires p in block && FullId(part, id) in block[p]
    ensures p == part
  {
    var key := FullId(part, id);
    assert SoundRecord(dec, p, key, block[p][key]);
    CollideIffSharedKey(p, part);
    assert FullId(p, dec(block[p][key]).value.id) == FullId(part, id);
  }

  // ---------------------------------------------------------------- one transaction

  // The shard as it would be committed now.
  function Snapshot(index: Index, t: Txn): (sh: ShardState) {
    ShardState(t.block, ApplyBatch(index, t.batch))
  }

  lemma SnapshotAtStart(sh: ShardState)
    ensures Snapshot(sh.index, Txn(sh.block, map[])) == sh
  {
    CommitNothing(sh);
  }

  lemma WriteAgrees(dec: Decoder, sh: ShardState, parts: set<string>, cmd: Command)
    requires Agrees(dec, sh) && SoundBlock(dec, sh.block) && WellFormed(dec, cmd)
    requires Separate(parts) && sh.block.Keys <= parts && cmd.part in sh.block
    requires cmd.kind.PUT? || cmd.kind.POST?
    ensures var key := FullId(cmd.part, cmd.id);
      Agrees(dec, ShardState(sh.block[cmd.part := sh.block[cmd.part][key := cmd.text]], sh.index[key := cmd.doc]))
  {
    var key := FullId(cmd.part, cmd.id);
    var block' := sh.block[cmd.part := sh.block[cmd.part][key := cmd.text]];
    var sh' := ShardState(block', sh.index[key := cmd.doc]);
    forall k ensures k in sh'.index <==> IsStored(block', k) {
      assert key in block'[cmd.part];
      if k in sh.index {
        var p :| p in sh.block && k in sh.block[p];
        assert p in block' && k in block'[p];
      }
      if k != key && IsStored(block', k) {
        var p :| p in block' && k in block'[p];
        assert p in sh.block && k in sh.block[p];
      }
    }
    forall p, k | p in block' && k in block'[p] ensures dec(block'[p][k]) == Some(sh'.index[k]) {
      if k == key && p != cmd.part {
        KeyHasOnePartition(dec, sh.block, parts, cmd.part, cmd.id, p);
        assert false;
      }
    }
  }

  lemma DeletedFromBucket(dec: Decoder, block: BoltDb, parts: set<string>, part: string, id: string, k: string)
    requires SoundBlock(dec, block) && Separate(parts) && block.Keys <= parts && part in block
    ensures var key := FullId(part, id);
      IsStored(block[part := Without(block[part], key)], k) <==> IsStored(block, k) && k != key
  {
    var key := FullId(part, id);
    var block' := block[part := Without(block[part], key)];
    if k == key {
      if p :| p in block' && key in block'[p] {
        KeyHasOnePartition(dec, block, parts, part, id, p);
        assert false;
      }
    } else if p :| p in block && k in block[p] {
      assert p in block' && k in block'[p];
    }
  }

  lemma DeleteAgrees(dec: Decoder, sh: ShardState, parts: set<string>, part: string, id: string)
    requires Agrees(dec, sh) && SoundBlock(dec, sh.block)
    requires Separate(parts) && sh.block.Keys <= parts && part in sh.block
    ensures var key := FullId(part, id);
      Agrees(dec, ShardState(sh.block[part := Without(sh.block[part], key)], Without(sh.index, key)))
  {
    var key := FullId(part, id);
    var block' := sh.block[part := Without(sh.block[part], key)];
    forall k ensures k in Without(sh.index, key) <==> IsStored(block', k) {
      DeletedFromBucket(dec, sh.block, parts, part, id, k);
    }
  }

  lemma SweepAgrees(dec: Decoder, sh: ShardState, parts: set<string>, part: string)
    requires Agrees(dec, sh) && SoundBlock(dec, sh.block)
    requires Separate(parts) && sh.block.Keys <= parts && part in sh.block
    ensures Agrees(dec, ShardState(Without(sh.block, part), sh.index - sh.block[part].Keys))
  {
    var block' := Without(sh.block, part);
    var index' := sh.index - sh.block[part].Keys;
    forall k ensures k in index' <==> IsStored(block', k) {
      if IsStored(block', k) {
        var p :| p in block' && k in block'[p];
        assert p in sh.block && k in sh.block[p];
        if k in sh.block[part] {
          var id := dec(sh.block[part][k]).value.id;
          assert SoundRecord(dec, part, k, sh.block[part][k]);
          KeyHasOnePartition(dec, sh.block, parts, part, id, p);
          assert false;
        }
      }
      if k in index' {
        var p :| p in sh.block && k in sh.block[p];
        assert p in block' && k in block'[p];
      }
    }
  }

  lemma CreateAgrees(dec: Decoder, sh: ShardState, part: string)
    requires Agrees(dec, sh) && part !in sh.block
    ensures Agrees(dec, sh.(block := sh.block[part := map[]]))
  {
    var block' := sh.block[part := map[]];
    forall k ensures IsStored(block', k) <==> IsStored(sh.block, k) {
      if p :| p in sh.block && k in sh.block[p] {
        assert p in block' && k in block'[p];
      }
    }
  }

  lemma BatchedDelete(index: Index, batch: map<string, Option<Document>>, key: string)
    ensures ApplyBatch(index, batch[key := None]) == Without(ApplyBatch(index, batch), key)
  {
    MapExtensionality(ApplyBatch(index, batch[key := None]), Without(ApplyBatch(index, batch), key));
  }

  lemma BatchedWrite(index: Index, batch: map<string, Option<Document>>, key: string, doc: Document)
    ensures ApplyBatch(index, batch[key := Some(doc)]) == ApplyBatch(index, batch)[key := doc]
  {
    MapExtensionality(ApplyBatch(index, batch[key := Some(doc)]), ApplyBatch(index, batch)[key := doc]);
  }

  lemma BatchedSweep(index: Index, batch: map<string, Option<Document>>, keys: set<string>)
    ensures ApplyBatch(index, batch + Deletions(keys)) == ApplyBatch(index, batch) - keys
  {
    MapExtensionality(ApplyBatch(index, batch + Deletions(keys)), ApplyBatch(index, batch) - keys);
  }

  lemma PartStepAgrees(dec: Decoder, index: Index, t: Txn, parts: set<string>, cmd: Command)
    requires Agrees(dec, Snapshot(index, t)) && SoundBlock(dec, t.block) && IsPartKind(cmd.kind)
    requires Separate(parts) && t.block.Keys <= parts
    requires cmd.kind.DELETE_PART? ==> cmd.part in t.block
    ensures TxnStep(t, cmd).Some? && Agrees(dec, Snapshot(index, TxnStep(t, cmd).value))
  {
    var sh := Snapshot(index, t);
    if cmd.kind.DELETE_PART? {
      BatchedSweep(index, t.batch, t.block[cmd.part].Keys);
      SweepAgrees(dec, sh, parts, cmd.part);
    } else if cmd.part !in t.block {
      CreateAgrees(dec, sh, cmd.part);
    }
  }

  lemma StepAgrees(dec: Decoder, index: Index, t: Txn, parts: set<string>, cmd: Command)
    requires Agrees(dec, Snapshot(index, t)) && SoundBlock(dec, t.block) && WellFormed(dec, cmd)
    requires Separate(parts) && t.block.Keys <= parts
    requires IsWrite(cmd.kind) && !cmd.kind.CREATE_PART? ==> cmd.part in t.block
    ensures TxnStep(t, cmd).Some? && Agrees(dec, Snapshot(index, TxnStep(t, cmd).value))
  {
    var sh, key := Snapshot(index, t), FullId(cmd.part, cmd.id);
    if cmd.isPart {
      PartStepAgrees(dec, index, t, parts, cmd);
    } else if cmd.kind.DEL? {
      BatchedDelete(index, t.batch, key);
      DeleteAgrees(dec, sh, parts, cmd.part, cmd.id);
    } else if cmd.kind.PUT? || cmd.kind.POST? {
      BatchedWrite(index, t.batch, key, cmd.doc);
      WriteAgrees(dec, sh, parts, cmd);
    }
  }

  lemma StepParts(t: Txn, cmd: Command, parts: set<string>)
    requires TxnStep(t, cmd).Some? && t.block.Keys <= parts && cmd.part in parts
    ensures TxnStep(t, cmd).value.block.Keys <= parts
  {
  }

  lemma StartAgrees(dec: Decoder, sh: ShardState)
    requires Agrees(dec, sh)
    ensures Agrees(dec, Snapshot(sh.index, Txn(sh.block, map[])))
  {
    SnapshotAtStart(sh);
  }

  lemma LastStepAgrees(dec: Decoder, sh: ShardState, q: Queue, parts: set<string>, t: Txn)
    requires SoundBlock(dec, sh.block) && WellFormedQueue(dec, q) && Completes(BlockView(dec, sh.block), q)
    requires q != [] && RunTxn(sh.block, Front(q)) == Some(t)
    requires Agrees(dec, Snapshot(sh.index, t)) && Separate(parts) && t.block.Keys <= parts && Last(q).cmd.part in parts
    ensures TxnStep(t, Last(q).cmd).Some?
    ensures Agrees(dec, Snapshot(sh.index, TxnStep(t, Last(q).cmd).value))
    ensures TxnStep(t, Last(q).cmd).value.block.Keys <= parts
  {
    var cmd := Last(q).cmd;
    assert Queueable(dec, Last(q));
    CommitExact(dec, sh.block, Front(q));
    RunnableInBlock(dec, t.block, Fold(BlockView(dec, sh.block), Front(q)), cmd);
    StepAgrees(dec, sh.index, t, parts, cmd);
    StepParts(t, cmd, parts);
  }

  lemma {:induction false} TxnAgrees(dec: Decoder, sh: ShardState, q: Queue, parts: set<string>)
    requires Agrees(dec, sh) && SoundBlock(dec, sh.block) && WellFormedQueue(dec, q)
    requires Completes(BlockView(dec, sh.block), q)
    requires Separate(parts) && sh.block.Keys <= parts && PartsOf(q) <= parts
    ensures RunTxn(sh.block, q).Some?
    ensures Agrees(dec, Snapshot(sh.index, RunTxn(sh.block, q).value))
    ensures RunTxn(sh.block, q).value.block.Keys <= parts
  {
    if q == [] {
      assert RunTxn(sh.block, q) == Some(Txn(sh.block, map[]));
      StartAgrees(dec, sh);
    } else {
      assert PartsOf(Front(q)) <= PartsOf(q) && Last(q).cmd.part in PartsOf(q);
      TxnAgrees(dec, sh, Front(q), parts);
      LastStepAgrees(dec, sh, q, parts, RunTxn(sh.block, Front(q)).value);
    }
  }

  // Committing any slice that can be committed, over separate partitions, keeps the index in agreement.
  lemma CommitAgrees(dec: Decoder, sh: ShardState, q: Queue)
    requires Agrees(dec, sh) && SoundBlock(dec, sh.block) && WellFormedQueue(dec, q)
    requires Completes(BlockView(dec, sh.block), q) && Separate(sh.block.Keys + PartsOf(q))
    ensures Commit(sh, q).Some? && Agrees(dec, Commit(sh, q).value)
  {
    TxnAgrees(dec, sh, q, sh.block.Keys + PartsOf(q));
  }

  // Two partitions, a document in each, then the deletion of the first document.
  predicate CreatesPostsAndDeletes(es: Queue, p: string, i: string, q: string, j: string) {
    && |es| == 5
    && es[0].cmd.kind.CREATE_PART? && es[0].cmd.part == p
    && es[1].cmd.kind.CREATE_PART? && es[1].cmd.part == q
    && es[2].cmd.kind.POST? && es[2].cmd.part == p && es[2].cmd.id == i
    && es[3].cmd.kind.POST? && es[3].cmd.part == q && es[3].cmd.id == j
    && es[4].cmd.kind.DEL? && es[4].cmd.part == p && es[4].cmd.id == i
  }

  lemma PrefixesOfFive(es: Queue)
    requires |es| == 5
    ensures es[..1] == [] + [es[0]] && es[..2] == es[..1] + [es[1]] && es[..3] == es[..2] + [es[2]]
    ensures es[..4] == es[..3] + [es[3]] && es == es[..4] + [es[4]]
  {
  }

  lemma CollidingListValid(es: Queue, p: string, i: string, q: string, j: string)
    requires p != q && CreatesPostsAndDeletes(es, p, i, q, j)
    ensures Valid(map[], es)
  {
    var st: Store := map[];
    PrefixesOfFive(es);
    ValidSnoc(st, [], es[0]);
    ValidSnoc(st, es[..1], es[1]);
    ValidSnoc(st, es[..2], es[2]);
    ValidSnoc(st, es[..3], es[3]);
    ValidSnoc(st, es[..4], es[4]);
  }

  lemma RunTxnSnoc(block: BoltDb, q: Queue, e: UpdateEntry)
    ensures RunTxn(block, q).Some? ==> RunTxn(block, q + [e]) == TxnStep(RunTxn(block, q).value, e.cmd)
  {
    assert Front(q + [e]) == q && Last(q + [e]) == e;
  }

  // After every such list over two colliding partitions a stored document is missing from the index.
  lemma CollidingPartsDisagree(dec: Decoder, es: Queue, p: string, i: string, q: string, j: string)
    requires p != q && FullId(p, i) == FullId(q, j) && CreatesPostsAndDeletes(es, p, i, q, j)
    ensures Valid(map[], es) && Agrees(dec, ShardState(map[], map[]))
    ensures var r := Commit(ShardState(map[], map[]), es); r.Some? && !Agrees(dec, r.value)
  {
    CollidingListValid(es, p, i, q, j);
    var block: BoltDb, key := map[], FullId(p, i);
    PrefixesOfFive(es);
    RunTxnSnoc(block, [], es[0]);
    RunTxnSnoc(block, es[..1], es[1]);
    RunTxnSnoc(block, es[..2], es[2]);
    RunTxnSnoc(block, es[..3], es[3]);
    RunTxnSnoc(block, es[..4], es[4]);
    var t := RunTxn(block, es).value;
    assert q in t.block && key in t.block[q];
    assert IsStored(t.block, key) && key !in ApplyBatch(map[], t.batch);
  }

  // Some text decodes to a document of that partition and id.
  ghost predicate CanDecode(dec: Decoder, p: string, id: string) {
    exists text :: text != "" && dec(text).Some? && dec(text).value.part == p && dec(text).value.id == id
  }

  ghost predicate Expressive(dec: Decoder, names: set<string>) {
    forall p, id :: p in names ==> CanDecode(dec, p, id)
  }

  // A shard in agreement and a list that can be committed to it, all over the given names.
  ghost predicate Commits(dec: Decoder, names: set<string>, sh: ShardState, q: Queue) {
    && Agrees(dec, sh) && SoundBlock(dec, sh.block) && WellFormedQueue(dec, q)
    && Completes(BlockView(dec, sh.block), q)
    && sh.block.Keys <= names && PartsOf(q) <= names
  }

  ghost predicate KeepsAgreement(dec: Decoder, names: set<string>) {
    forall sh, q :: Commits(dec, names, sh, q) ==> Commit(sh, q).Some? && Agrees(dec, Commit(sh, q).value)
  }

  function PartEntry(part: string): (e: UpdateEntry) {
    UpdateEntry(Command(CREATE_PART, part, "", 0, EMPTY_DOCUMENT, "", "", "", true), 0, FirstRune(part))
  }

  function PostEntry(doc: Document, text: string): (e: UpdateEntry) {
    UpdateEntry(Command(POST, doc.part, doc.id, 0, doc, text, "", "", false), 0, FirstRune(doc.part))
  }

  function DelEntry(part: string, id: string): (e: UpdateEntry) {
    UpdateEntry(Command(DEL, part, id, 0, EMPTY_DOCUMENT, "", "", "", false), 0, FirstRune(part))
  }

  lemma CollidingList(dec: Decoder, p: string, i: string, q: string, j: string) returns (es: Queue)
    requires CanDecode(dec, p, i) && CanDecode(dec, q, j)
    ensures CreatesPostsAndDeletes(es, p, i, q, j) && WellFormedQueue(dec, es) && PartsOf(es) == {p, q}
  {
    var text1 :| text1 != "" && dec(text1).Some? && dec(text1).value.part == p && dec(text1).value.id == i;
    var text2 :| text2 != "" && dec(text2).Some? && dec(text2).value.part == q && dec(text2).value.id == j;
    var doc1, doc2 := dec(text1).value, dec(text2).value;
    es := [PartEntry(p), PartEntry(q), PostEntry(doc1, text1), PostEntry(doc2, text2), DelEntry(p, i)];
    assert es[0] in es && es[1] in es;
  }

  // Separate names are exactly what index agreement needs: every list over the names that can be
  // committed to a shard in agreement keeps agreement if and only if no two names can share a key.
  lemma AgreementExact(dec: Decoder, names: set<string>)
    requires Expressive(dec, names)
    ensures KeepsAgreement(dec, names) <==> Separate(names)
  {
    if Separate(names) {
      forall sh, q | Commits(dec, names, sh, q) ensures Commit(sh, q).Some? && Agrees(dec, Commit(sh, q).value) {
        TxnAgrees(dec, sh, q, names);
      }
    } else {
      var p, q :| p in names && q in names && p != q && Collide(p, q);
      CollideIffSharedKey(p, q);
      var i, j :| FullId(p, i) == FullId(q, j);
      var es := CollidingList(dec, p, i, q, j);
      CollidingPartsDisagree(dec, es, p, i, q, j);
      assert BlockView(dec, map[]) == map[];
      ValidCompletes(map[], es);
      assert Commits(dec, names, ShardState(map[], map[]), es);
    }
  }

  // ---------------------------------------------------------------- whole runs

  ghost predicate DiskAgrees(dec: Decoder, disk: Disk) {
    forall c :: c in disk ==> Agrees(dec, disk[c])
  }

  // What the runs below keep of a machine, whether its queue is valid or not.
  ghost predicate Tidy(dec: Decoder, m: Machine, names: set<string>) {
    && Orderly(dec, m)
    && DiskAgrees(dec, m.disk)
    && Parts(m.disk) <= names && PartsOf(m.pending) <= names
  }

  lemma ShardCommitAgrees(dec: Decoder, disk: Disk, q: Queue, names: set<string>, c: char)
    requires SoundDisk(dec, disk) && WellFormedQueue(dec, q) && DiskAgrees(dec, disk) && c in disk
    requires Separate(names) && Parts(disk) <= names && PartsOf(q) <= names
    requires Commit(disk[c], SliceFor(q, c)).Some?
    ensures var sh := Commit(disk[c], SliceFor(q, c)).value; Agrees(dec, sh) && sh.block.Keys <= names
  {
    var slice := SliceFor(q, c);
    SliceMembers(q, c);
    assert PartsOf(slice) <= PartsOf(q);
    assert disk[c].block.Keys <= Parts(disk);
    CommitExact(dec, disk[c].block, slice);
    TxnAgrees(dec, disk[c], slice, names);
  }

  // A Sync that completes keeps every shard's index in agreement and brings no name in.
  lemma SyncAgrees(dec: Decoder, m: Machine, names: set<string>)
    requires Tidy(dec, m, names) && Separate(names) && Step(dec, m, Flush).Some?
    ensures Tidy(dec, Step(dec, m, Flush).value.0, names)
  {
    FlushKeepsOrderly(dec, m);
    forall c | c in m.disk
      ensures var sh := Commit(m.disk[c], SliceFor(m.pending, c)).value; Agrees(dec, sh) && sh.block.Keys <= names
    {
      ShardCommitAgrees(dec, m.disk, m.pending, names, c);
    }
  }

  lemma BatchNames(dec: Decoder, disk: Disk, q: Queue, batch: Queue, order: seq<char>, names: set<string>)
    requires WellFormedQueue(dec, q) && WellFormedQueue(dec, batch) && CompleteOrder(disk, order)
    requires !UpdateInOrder(dec, disk, q, batch, order).failed
    requires PartsOf(q) <= names && PartsOf(batch) <= names
    ensures PartsOf(UpdateInOrder(dec, disk, q, batch, order).pending) <= names
  {
    UpdateMembers(dec, disk, q, batch, order);
    var o := UpdateInOrder(dec, disk, q, batch, order);
    AcceptedOfMembers(batch, o.codes);
    forall e | e in o.pending ensures e.cmd.part in names {
      assert e in q || e in batch;
      assert e.cmd.part in PartsOf(q) || e.cmd.part in PartsOf(batch);
    }
  }

  lemma EventAgrees(dec: Decoder, m: Machine, ev: Event, names: set<string>)
    requires Tidy(dec, m, names) && Separate(names) && Parsed(dec, m, ev) && Step(dec, m, ev).Some?
    requires ev.Batch? ==> PartsOf(ev.entries) <= names
    ensures Tidy(dec, Step(dec, m, ev).value.0, names)
  {
    match ev
    case Batch(entries, order) =>
      BatchKeepsOrderly(dec, m, entries, order);
      BatchNames(dec, m.disk, m.pending, entries, order, names);
    case Flush => SyncAgrees(dec, m, names);
    case Restart =>
  }

  // Over every run that completes and whose partition names are separate, colon-free ones for
  // instance, every index agrees with its storage whenever the machine is between two events, whatever
  // the batches: a valid queue is not needed.
  lemma {:induction false} CompletedRunKeepsIndex(dec: Decoder, m: Machine, events: seq<Event>, names: set<string>)
    requires Tidy(dec, m, names) && Separate(names) && PartsOf(LogOf(events)) <= names
    requires ParsedRun(dec, m, events) && Run(dec, m, events).Some?
    ensures Tidy(dec, Run(dec, m, events).value.0, names)
  {
    if events != [] {
      var rest, ev := Front(events), Last(events);
      assert PartsOf(LogOf(rest)) <= PartsOf(LogOf(events));
      assert ev.Batch? ==> PartsOf(ev.entries) <= PartsOf(LogOf(events));
      CompletedRunKeepsIndex(dec, m, rest, names);
      RunSplits(dec, m, events);
      EventAgrees(dec, Run(dec, m, rest).value.0, ev, names);
    }
  }

  lemma {:induction false} AdmissibleIsParsedRun(dec: Decoder, m: Machine, events: seq<Event>)
    requires Admissible(dec, m, events)
    ensures ParsedRun(dec, m, events)
  {
    if events != [] {
      AdmissibleIsParsedRun(dec, m, Front(events));
    }
  }

  // Admissible runs complete, so they do.
  lemma RunKeepsIndex(dec: Decoder, m: Machine, events: seq<Event>, names: set<string>)
    requires Inv(dec, m) && Admissible(dec, m, events) && DiskAgrees(dec, m.disk)
    requires Separate(names) && Parts(m.disk) <= names && PartsOf(m.pending) <= names && PartsOf(LogOf(events)) <= names
    ensures var r := Run(dec, m, events);
      && r.Some?
      && DiskAgrees(dec, r.value.0.disk)
      && Parts(r.value.0.disk) <= names && PartsOf(r.value.0.pending) <= names
  {
    RunKeepsInvariant(dec, m, events);
    AdmissibleIsParsedRun(dec, m, events);
    CompletedRunKeepsIndex(dec, m, events, names);
  }

  // ---------------------------------------------------------------- search

  // The matches are those of the hits at these positions, in order: exactly the hits in the bucket.
  predicate MatchesAt(dec: Decoder, bucket: Bucket, hits: seq<Hit>, at: seq<nat>, ms: seq<Match>) {
    && |at| == |ms|
    && (forall k :: 0 <= k < |at| ==> at[k] < |hits|)
    && (forall k, l :: 0 <= k < l < |at| ==> at[k] < at[l])
    && (forall i :: 0 <= i < |hits| ==> (i in at <==> hits[i].id in bucket))
    && (forall k :: 0 <= k < |at| ==>
          && ms[k].score == hits[at[k]].score
          && hits[at[k]].id in bucket && dec(bucket[hits[at[k]].id]) == Some(ms[k].doc))
  }

  lemma MatchesSkip(dec: Decoder, bucket: Bucket, hits: seq<Hit>, at: seq<nat>, ms: seq<Match>)
    requires hits != [] && MatchesAt(dec, bucket, Front(hits), at, ms) && Last(hits).id !in bucket
    ensures MatchesAt(dec, bucket, hits, at, ms)
  {
  }

  lemma MatchesSnoc(dec: Decoder, bucket: Bucket, hits: seq<Hit>, at: seq<nat>, ms: seq<Match>, doc: Document)
    requires hits != [] && MatchesAt(dec, bucket, Front(hits), at, ms)
    requires Last(hits).id in bucket && dec(bucket[Last(hits).id]) == Some(doc)
    ensures MatchesAt(dec, bucket, hits, at + [|hits| - 1], ms + [Match(Last(hits).score, doc)])
  {
    var at' := at + [|hits| - 1];
    forall i | 0 <= i < |hits| ensures i in at' <==> hits[i].id in bucket {
      assert at'[|at|] == |hits| - 1;
    }
  }

  // Resolution in any bucket, whatever the index says: it fails exactly when a hit's stored document does
  // not decode, and else keeps exactly the hits in the bucket, in order, with the stored documents.
  lemma {:induction false} ResolveAny(dec: Decoder, bucket: Bucket, hits: seq<Hit>) returns (at: seq<nat>)
    ensures Resolve(dec, bucket, hits).None? <==>
              exists h :: h in hits && h.id in bucket && dec(bucket[h.id]).None?
    ensures Resolve(dec, bucket, hits).Some? ==> MatchesAt(dec, bucket, hits, at, Resolve(dec, bucket, hits).value)
  {
    at := [];
    if hits != [] {
      FrontLast(hits);
      at := ResolveAny(dec, bucket, Front(hits));
      var before := Resolve(dec, bucket, Front(hits));
      if before.Some? && Last(hits).id !in bucket {
        MatchesSkip(dec, bucket, hits, at, before.value);
      } else if before.Some? && dec(bucket[Last(hits).id]).Some? {
        MatchesSnoc(dec, bucket, hits, at, before.value, dec(bucket[Last(hits).id]).value);
        at := at + [|hits| - 1];
      }
    }
  }

  // The hits that belong to a partition, by what the index says of them.
  function Belonging(index: Index, part: string, hits: seq<Hit>): (ms: seq<Match>)
    requires forall h :: h in hits ==> h.id in index
  {
    if hits == [] then []
    else
      var doc := index[Last(hits).id];
      var before := Belonging(index, part, Front(hits));
      if doc.part == part then before + [Match(Last(hits).score, doc)] else before
  }

  // An indexed key is in the bucket of its document's partition, and in no other.
  lemma IndexedKey(dec: Decoder, sh: ShardState, part: string, key: string)
    requires Agrees(dec, sh) && SoundBlock(dec, sh.block) && key in sh.index
    ensures part in sh.block && key in sh.block[part] <==> sh.index[key].part == part
    ensures part in sh.block && key in sh.block[part] ==> dec(sh.block[part][key]) == Some(sh.index[key])
  {
    assert IsStored(sh.block, key);
    var p :| p in sh.block && key in sh.block[p];
    assert SoundRecord(dec, p, key, sh.block[p][key]);
    if part in sh.block && key in sh.block[part] {
      assert SoundRecord(dec, part, key, sh.block[part][key]);
    }
  }

  lemma {:induction false} ResolveExact(dec: Decoder, sh: ShardState, part: string, hits: seq<Hit>)
    requires Agrees(dec, sh) && SoundBlock(dec, sh.block) && part in sh.block
    requires forall h :: h in hits ==> h.id in sh.index
    ensures Resolve(dec, sh.block[part], hits) == Some(Belonging(sh.index, part, hits))
  {
    if hits != [] {
      ResolveExact(dec, sh, part, Front(hits));
      IndexedKey(dec, sh, part, Last(hits).id);
    }
  }

  lemma {:induction false} NothingBelongs(dec: Decoder, sh: ShardState, part: string, hits: seq<Hit>)
    requires Agrees(dec, sh) && SoundBlock(dec, sh.block) && part !in sh.block
    requires forall h :: h in hits ==> h.id in sh.index
    ensures Belonging(sh.index, part, hits) == []
  {
    if hits != [] {
      NothingBelongs(dec, sh, part, Front(hits));
      IndexedKey(dec, sh, part, Last(hits).id);
    }
  }

  // Of any hit list drawn from the index, Search returns exactly the hits of the requested
  // partition, in order; none is dropped as missing and none fails to decode.
  lemma {:induction false} SearchExact(dec: Decoder, sh: ShardState, part: string, hits: seq<Hit>)
    requires Agrees(dec, sh) && SoundBlock(dec, sh.block)
    requires forall h :: h in hits ==> h.id in sh.index
    ensures SearchSpec(dec, sh.block, part, hits) == Some(Belonging(sh.index, part, hits))
  {
    if part in sh.block {
      ResolveExact(dec, sh, part, hits);
    } else {
      NothingBelongs(dec, sh, part, hits);
    }
  }
}
