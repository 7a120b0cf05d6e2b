// The store a set of shards holds, and what committing the queue does to it.
module DiskView {
  import opened Basics
  import opened Commands
  import opened PlainStore
  import opened PendingQueue
  import opened ShardStore

  type Disk = map<char, ShardState>

  // A record the state machine wrote: bytes that decode to the document the key names.
  predicate SoundRecord(dec: Decoder, part: string, key: string, text: string) {
    && text != ""
    && dec(text).Some?
    && dec(text).value.part == part
    && key == FullId(part, dec(text).value.id)
  }

  predicate SoundBucket(dec: Decoder, part: string, b: Bucket) {
    forall k :: k in b ==> SoundRecord(dec, part, k, b[k])
  }

  predicate SoundBlock(dec: Decoder, block: BoltDb) {
    forall p :: p in block ==> SoundBucket(dec, p, block[p])
  }

  // Every partition lives in the shard of its first rune.
  predicate SoundDisk(dec: Decoder, disk: Disk) {
    && (forall c :: c in disk ==> SoundBlock(dec, disk[c].block))
    && (forall c, p :: c in disk && p in disk[c].block ==> FirstRune(p) == c)
  }

  // `view` holds a document for exactly the ids that have a key in the bucket.
  ghost predicate IsBucketView(dec: Decoder, part: string, b: Bucket, view: map<string, Stored>) {
    forall id ::
      && (id in view <==> FullId(part, id) in b)
      && (id in view ==> view[id].text == b[FullId(part, id)] && Some(view[id].doc) == dec(b[FullId(part, id)]))
  }

  lemma BucketViewExists(dec: Decoder, part: string, b: Bucket)
    requires SoundBucket(dec, part, b)
    ensures exists view :: IsBucketView(dec, part, b, view)
  {
    var ids := set k | k in b :: dec(b[k]).value.id;
    forall id ensures id in ids <==> FullId(part, id) in b {
      if id in ids {
        var k :| k in b && id == dec(b[k]).value.id;
        assert SoundRecord(dec, part, k, b[k]);
      }
      if FullId(part, id) in b {
        var k := FullId(part, id);
        assert SoundRecord(dec, part, k, b[k]);
        FullIdUniqueInPart(part, id, dec(b[k]).value.id);
      }
    }
    var view := map id | id in ids :: Stored(b[FullId(part, id)], dec(b[FullId(part, id)]).value);
    assert IsBucketView(dec, part, b, view);
  }

  ghost function BucketView(dec: Decoder, part: string, b: Bucket): (view: map<string, Stored>)
    requires SoundBucket(dec, part, b)
    ensures IsBucketView(dec, part, b, view)
  {
    BucketViewExists(dec, part, b);
    var view :| IsBucketView(dec, part, b, view);
    view
  }

  ghost function BlockView(dec: Decoder, block: BoltDb): (st: Store)
    requires SoundBlock(dec, block)
  {
    map p | p in block :: BucketView(dec, p, block[p])
  }

  function Parts(disk: Disk): (parts: set<string>) {
    set c, p | c in disk && p in disk[c].block :: p
  }

  ghost function DiskStore(dec: Decoder, disk: Disk): (st: Store)
    requires SoundDisk(dec, disk)
  {
    map p | p in Parts(disk) :: BucketView(dec, p, disk[FirstRune(p)].block[p])
  }

  // A bucket has only one view.
  lemma BucketViewIs(dec: Decoder, part: string, b: Bucket, view: map<string, Stored>)
    requires SoundBucket(dec, part, b) && IsBucketView(dec, part, b, view)
    ensures BucketView(dec, part, b) == view
  {
    var v := BucketView(dec, part, b);
    assert v.Keys == view.Keys;
  }

  lemma BucketPut(dec: Decoder, part: string, id: string, text: string, doc: Document, b: Bucket)
    requires SoundBucket(dec, part, b) && SoundRecord(dec, part, FullId(part, id), text) && dec(text) == Some(doc)
    ensures SoundBucket(dec, part, b[FullId(part, id) := text])
    ensures BucketView(dec, part, b[FullId(part, id) := text]) == BucketView(dec, part, b)[id := Stored(text, doc)]
  {
    var b' := b[FullId(part, id) := text];
    var view := BucketView(dec, part, b)[id := Stored(text, doc)];
    forall other | FullId(part, other) == FullId(part, id) ensures other == id {
      FullIdUniqueInPart(part, other, id);
    }
    BucketViewIs(dec, part, b', view);
  }

  lemma BucketDelete(dec: Decoder, part: string, id: string, b: Bucket)
    requires SoundBucket(dec, part, b)
    ensures SoundBucket(dec, part, Without(b, FullId(part, id)))
    ensures BucketView(dec, part, Without(b, FullId(part, id))) == Without(BucketView(dec, part, b), id)
  {
    var b' := Without(b, FullId(part, id));
    var view := Without(BucketView(dec, part, b), id);
    forall other | FullId(part, other) == FullId(part, id) ensures other == id {
      FullIdUniqueInPart(part, other, id);
    }
    BucketViewIs(dec, part, b', view);
  }

  // ---------------------------------------------------------------- committing

  lemma BlockPut(dec: Decoder, block: BoltDb, part: string, b: Bucket)
    requires SoundBlock(dec, block) && SoundBucket(dec, part, b)
    ensures SoundBlock(dec, block[part := b])
    ensures BlockView(dec, block[part := b]) == BlockView(dec, block)[part := BucketView(dec, part, b)]
  {
    MapExtensionality(BlockView(dec, block[part := b]), BlockView(dec, block)[part := BucketView(dec, part, b)]);
  }

  lemma BlockDelete(dec: Decoder, block: BoltDb, part: string)
    requires SoundBlock(dec, block)
    ensures SoundBlock(dec, Without(block, part))
    ensures BlockView(dec, Without(block, part)) == Without(BlockView(dec, block), part)
  {
    var view, view' := BlockView(dec, block), BlockView(dec, Without(block, part));
    var expected := Without(view, part);
    assert view'.Keys == Without(block, part).Keys == expected.Keys;
    forall p | p in view' ensures view'[p] == expected[p] {
      assert view'[p] == BucketView(dec, p, block[p]) == view[p];
    }
    MapExtensionality(view', expected);
  }

  lemma WriteRefines(dec: Decoder, block: BoltDb, cmd: Command)
    requires SoundBlock(dec, block) && WellFormed(dec, cmd) && cmd.part in block
    requires cmd.kind.PUT? || cmd.kind.POST?
    ensures var block' := block[cmd.part := block[cmd.part][FullId(cmd.part, cmd.id) := cmd.text]];
      SoundBlock(dec, block') && BlockView(dec, block') == Apply(BlockView(dec, block), cmd)
  {
    var b := block[cmd.part];
    assert SoundBucket(dec, cmd.part, b);
    BucketPut(dec, cmd.part, cmd.id, cmd.text, cmd.doc, b);
    BlockPut(dec, block, cmd.part, b[FullId(cmd.part, cmd.id) := cmd.text]);
    ApplyWrites(BlockView(dec, block), cmd, BucketView(dec, cmd.part, b));
  }

  lemma DeleteRefines(dec: Decoder, block: BoltDb, cmd: Command)
    requires SoundBlock(dec, block) && cmd.part in block && cmd.kind.DEL?
    ensures var block' := block[cmd.part := Without(block[cmd.part], FullId(cmd.part, cmd.id))];
      SoundBlock(dec, block') && BlockView(dec, block') == Apply(BlockView(dec, block), cmd)
  {
    var b := block[cmd.part];
    assert SoundBucket(dec, cmd.part, b);
    BucketDelete(dec, cmd.part, cmd.id, b);
    BlockPut(dec, block, cmd.part, Without(b, FullId(cmd.part, cmd.id)));
    ApplyWrites(BlockView(dec, block), cmd, BucketView(dec, cmd.part, b));
  }

  lemma CreateRefines(dec: Decoder, block: BoltDb, cmd: Command)
    requires SoundBlock(dec, block) && cmd.part !in block && cmd.kind.CREATE_PART?
    ensures SoundBlock(dec, block[cmd.part := map[]])
    ensures BlockView(dec, block[cmd.part := map[]]) == Apply(BlockView(dec, block), cmd)
  {
    BucketViewIs(dec, cmd.part, map[], map[]);
    BlockPut(dec, block, cmd.part, map[]);
    ApplyToPart(BlockView(dec, block), cmd);
  }

  lemma DropRefines(dec: Decoder, block: BoltDb, cmd: Command)
    requires SoundBlock(dec, block) && cmd.kind.DELETE_PART?
    ensures SoundBlock(dec, Without(block, cmd.part))
    ensures BlockView(dec, Without(block, cmd.part)) == Apply(BlockView(dec, block), cmd)
  {
    BlockDelete(dec, block, cmd.part);
    ApplyToPart(BlockView(dec, block), cmd);
  }

  // A command that finds its bucket does to the buckets what the plain command does to the store.
  lemma StepRefines(dec: Decoder, t: Txn, cmd: Command)
    requires SoundBlock(dec, t.block) && WellFormed(dec, cmd)
    requires IsWrite(cmd.kind) && !cmd.kind.CREATE_PART? ==> cmd.part in t.block
    ensures TxnStep(t, cmd).Some?
    ensures SoundBlock(dec, TxnStep(t, cmd).value.block)
    ensures BlockView(dec, TxnStep(t, cmd).value.block) == Apply(BlockView(dec, t.block), cmd)
  {
    StepBlocks(t, cmd);
    if cmd.kind.CREATE_PART? {
      if cmd.part !in t.block {
        CreateRefines(dec, t.block, cmd);
      }
    } else if cmd.kind.DELETE_PART? {
      DropRefines(dec, t.block, cmd);
    } else if cmd.kind.DEL? {
      DeleteRefines(dec, t.block, cmd);
    } else if cmd.kind.PUT? || cmd.kind.POST? {
      WriteRefines(dec, t.block, cmd);
    }
  }

  lemma RunnableInBlock(dec: Decoder, block: BoltDb, st: Store, cmd: Command)
    requires SoundBlock(dec, block) && BlockView(dec, block) == st
    ensures Runnable(st, cmd) <==> (IsWrite(cmd.kind) && !cmd.kind.CREATE_PART? ==> cmd.part in block)
  {
  }

  // A slice can be committed exactly when every command but CREATE_PART finds its partition, and it
  // then does to the buckets what the plain commands do to the store.
  lemma {:induction false} CommitExact(dec: Decoder, block: BoltDb, q: Queue)
    requires SoundBlock(dec, block) && WellFormedQueue(dec, q)
    ensures RunTxn(block, q).Some? <==> Completes(BlockView(dec, block), q)
    ensures RunTxn(block, q).Some? ==>
      && SoundBlock(dec, RunTxn(block, q).value.block)
      && BlockView(dec, RunTxn(block, q).value.block) == Fold(BlockView(dec, block), q)
  {
    if q != [] {
      CommitExact(dec, block, Front(q));
      assert Queueable(dec, Last(q));
      if RunTxn(block, Front(q)).Some? {
        var t := RunTxn(block, Front(q)).value;
        RunnableInBlock(dec, t.block, Fold(BlockView(dec, block), Front(q)), Last(q).cmd);
        if Runnable(Fold(BlockView(dec, block), Front(q)), Last(q).cmd) {
          StepRefines(dec, t, Last(q).cmd);
        }
      }
    }
  }

  // Committing a valid slice never meets a missing bucket.
  lemma CommitRefines(dec: Decoder, block: BoltDb, q: Queue)
    requires SoundBlock(dec, block) && WellFormedQueue(dec, q)
    requires Valid(BlockView(dec, block), q)
    ensures RunTxn(block, q).Some?
    ensures SoundBlock(dec, RunTxn(block, q).value.block)
    ensures BlockView(dec, RunTxn(block, q).value.block) == Fold(BlockView(dec, block), q)
  {
    ValidCompletes(BlockView(dec, block), q);
    CommitExact(dec, block, q);
  }

  // The partition-local part of the disk store.
  lemma DiskStoreAt(dec: Decoder, disk: Disk, p: string)
    requires SoundDisk(dec, disk)
    ensures p in DiskStore(dec, disk) <==> FirstRune(p) in disk && p in disk[FirstRune(p)].block
    ensures p in DiskStore(dec, disk) ==>
              DiskStore(dec, disk)[p] == BucketView(dec, p, disk[FirstRune(p)].block[p])
  {
  }

  lemma ShardAgrees(dec: Decoder, disk: Disk, c: char)
    requires SoundDisk(dec, disk) && c in disk
    ensures AgreeOn(DiskStore(dec, disk), BlockView(dec, disk[c].block), c)
  {
    forall p | FirstRune(p) == c
      ensures p in DiskStore(dec, disk) <==> p in BlockView(dec, disk[c].block)
      ensures p in DiskStore(dec, disk) ==> DiskStore(dec, disk)[p] == BlockView(dec, disk[c].block)[p]
    {
      DiskStoreAt(dec, disk, p);
    }
  }

  // The partitions of a committed shard are still its own.
  lemma {:induction false} CommitKeepsRouting(dec: Decoder, block: BoltDb, q: Queue, c: char)
    requires forall p :: p in block ==> FirstRune(p) == c
    requires WellFormedQueue(dec, q) && forall e :: e in q ==> e.shardId == c
    ensures RunTxn(block, q).Some? ==> forall p :: p in RunTxn(block, q).value.block ==> FirstRune(p) == c
  {
    if q != [] {
      assert Queueable(dec, Last(q));
      CommitKeepsRouting(dec, block, Front(q), c);
    }
  }

  // What a valid queue promises of shard c.
  lemma ShardCommit(dec: Decoder, disk: Disk, q: Queue, c: char)
    requires SoundDisk(dec, disk) && WellFormedQueue(dec, q) && Valid(DiskStore(dec, disk), q)
    requires c in disk
    ensures var r := Commit(disk[c], SliceFor(q, c));
      && r.Some?
      && SoundBlock(dec, r.value.block)
      && (forall p :: p in r.value.block ==> FirstRune(p) == c)
      && AgreeOn(Fold(DiskStore(dec, disk), q), BlockView(dec, r.value.block), c)
  {
    var slice := SliceFor(q, c);
    var view := BlockView(dec, disk[c].block);
    SliceMembers(q, c);
    ShardAgrees(dec, disk, c);
    SliceFold(dec, DiskStore(dec, disk), view, q, c);
    CommitRefines(dec, disk[c].block, slice);
    CommitKeepsRouting(dec, disk[c].block, slice, c);
  }

  // The disk with the shards of `done` committed and the others not yet.
  function CommitShards(disk: Disk, q: Queue, done: set<char>): (r: Disk)
    requires forall c :: c in done && c in disk ==> Commit(disk[c], SliceFor(q, c)).Some?
  {
    map c | c in disk :: if c in done then Commit(disk[c], SliceFor(q, c)).value else disk[c]
  }

  predicate Committable(disk: Disk, q: Queue) {
    forall c :: c in disk ==> Commit(disk[c], SliceFor(q, c)).Some?
  }

  // Every partition a queue touches has a shard.
  predicate Routed(disk: Disk, q: Queue) {
    forall e :: e in q ==> e.shardId in disk
  }

  // A Sync completes exactly when every queued command but CREATE_PART finds its partition.
  lemma SyncCompletesExactly(dec: Decoder, disk: Disk, q: Queue)
    requires SoundDisk(dec, disk) && WellFormedQueue(dec, q) && Routed(disk, q)
    ensures Committable(disk, q) <==> Completes(DiskStore(dec, disk), q)
  {
    var st := DiskStore(dec, disk);
    forall c | c in disk
      ensures Commit(disk[c], SliceFor(q, c)).Some? <==> Completes(st, SliceFor(q, c))
    {
      SliceMembers(q, c);
      SliceOfOwn(SliceFor(q, c), c);
      ShardAgrees(dec, disk, c);
      SliceFold(dec, st, BlockView(dec, disk[c].block), SliceFor(q, c), c);
      SliceFold(dec, BlockView(dec, disk[c].block), st, SliceFor(q, c), c);
      CommitExact(dec, disk[c].block, SliceFor(q, c));
    }
    forall c ensures Completes(st, q) ==> Completes(st, SliceFor(q, c)) {
      SliceFold(dec, st, st, q, c);
    }
    if forall c :: c in disk ==> Completes(st, SliceFor(q, c)) {
      forall c ensures Completes(st, SliceFor(q, c)) {
        if c !in disk {
          SliceOfOther(q, c);
        }
      }
      CompletesFromSlices(dec, st, q);
    }
  }

  lemma PartialCommitSound(dec: Decoder, disk: Disk, q: Queue, done: set<char>)
    requires SoundDisk(dec, disk) && WellFormedQueue(dec, q) && Valid(DiskStore(dec, disk), q)
    ensures Committable(disk, q)
    ensures SoundDisk(dec, CommitShards(disk, q, done))
  {
    forall c | c in disk
      ensures Commit(disk[c], SliceFor(q, c)).Some?
      ensures SoundBlock(dec, Commit(disk[c], SliceFor(q, c)).value.block)
      ensures forall p :: p in Commit(disk[c], SliceFor(q, c)).value.block ==> FirstRune(p) == c
    {
      ShardCommit(dec, disk, q, c);
    }
  }

  // The partitions of a committed shard read as the folded store, those of the others as before.
  lemma PartialCommit(dec: Decoder, disk: Disk, q: Queue, done: set<char>, c: char)
    requires SoundDisk(dec, disk) && WellFormedQueue(dec, q) && Valid(DiskStore(dec, disk), q)
    requires c in disk
    ensures Committable(disk, q) && SoundDisk(dec, CommitShards(disk, q, done))
    ensures AgreeOn(DiskStore(dec, CommitShards(disk, q, done)),
                    if c in done then Fold(DiskStore(dec, disk), q) else DiskStore(dec, disk), c)
  {
    PartialCommitSound(dec, disk, q, done);
    ShardCommit(dec, disk, q, c);
    ShardAgrees(dec, disk, c);
    var disk' := CommitShards(disk, q, done);
    ShardAgrees(dec, disk', c);
    var mid := BlockView(dec, disk'[c].block);
    if c in done {
      assert disk'[c] == Commit(disk[c], SliceFor(q, c)).value;
      AgreeOnJoin(DiskStore(dec, disk'), Fold(DiskStore(dec, disk), q), mid, c);
    } else {
      assert disk'[c] == disk[c];
      AgreeOnJoin(DiskStore(dec, disk'), DiskStore(dec, disk), mid, c);
    }
  }

  // Partitions outside the shard map never exist.
  lemma {:induction false} UnroutedAbsent(dec: Decoder, disk: Disk, q: Queue, p: string)
    requires SoundDisk(dec, disk) && WellFormedQueue(dec, q) && Routed(disk, q)
    requires FirstRune(p) !in disk
    ensures p !in Fold(DiskStore(dec, disk), q)
  {
    if q != [] {
      assert Queueable(dec, Last(q)) && Last(q).shardId in disk;
      UnroutedAbsent(dec, disk, Front(q), p);
    }
  }

  // Committing every shard its own slice, in whatever order, is the whole queue applied in order.
  lemma SyncPreservesStore(dec: Decoder, disk: Disk, q: Queue)
    requires SoundDisk(dec, disk) && WellFormedQueue(dec, q) && Routed(disk, q)
    requires Valid(DiskStore(dec, disk), q)
    ensures Committable(disk, q)
    ensures SoundDisk(dec, CommitShards(disk, q, disk.Keys))
    ensures DiskStore(dec, CommitShards(disk, q, disk.Keys)) == Fold(DiskStore(dec, disk), q)
  {
    PartialCommitSound(dec, disk, q, disk.Keys);
    var st', st := DiskStore(dec, CommitShards(disk, q, disk.Keys)), Fold(DiskStore(dec, disk), q);
    forall c ensures AgreeOn(st', st, c) {
      if c in disk {
        PartialCommit(dec, disk, q, disk.Keys, c);
      } else {
        forall p | FirstRune(p) == c ensures p !in st' && p !in st {
          UnroutedAbsent(dec, disk, q, p);
        }
      }
    }
    StoresEqual(st', st);
  }
}
