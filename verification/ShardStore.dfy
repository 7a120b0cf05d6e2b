// One shard: a Bolt file of buckets and a Bleve index, read and committed by the state machine.
module ShardStore {
  import opened Basics
  import opened Commands
  import opened PendingQueue

  type Bucket = map<string, string>
  type BoltDb = map<string, Bucket>
  type Index = map<string, Document>

  // The contents of a shard as a value.
  datatype ShardState = ShardState(block: BoltDb, index: Index)

  // The scratch fields of an update entry: what the lookups found for it.
  datatype Finding = Finding(partExists: bool, existingDoc: Option<Document>)

  // The bytes stored under a key, empty when there are none.
  function RawDocument(block: BoltDb, part: string, key: string): (raw: string) {
    if part in block && key in block[part] then block[part][key] else ""
  }

  // One step of the disk pass; None when the stored bytes do not decode.
  function FindOnDisk(dec: Decoder, block: BoltDb, cmd: Command, f: Finding): (r: Option<Finding>) {
    if f.existingDoc.Some? then Some(f)
    else if cmd.part !in block then Some(f.(partExists := false))
    else if cmd.isPart then Some(f.(partExists := true))
    else
      var raw := RawDocument(block, cmd.part, FullId(cmd.part, cmd.id));
      if raw == "" then Some(f.(partExists := true))
      else match dec(raw)
        case None => None
        case Some(doc) => Some(Finding(true, Some(doc)))
  }

  // ---------------------------------------------------------------- the commit transaction

  // An open transaction: the buckets written so far, and the index batch, in which a key is either
  // to be indexed with a document or to be deleted, the last write winning.
  datatype Txn = Txn(block: BoltDb, batch: map<string, Option<Document>>)

  // None when the step dereferences a missing bucket.
  function TxnStep(t: Txn, cmd: Command): (r: Option<Txn>) {
    var key := FullId(cmd.part, cmd.id);
    match cmd.kind
    case CREATE_PART =>
      Some(if cmd.part in t.block then t else t.(block := t.block[cmd.part := map[]]))
    case DELETE_PART =>
      if cmd.part !in t.block then None
      else Some(Txn(Without(t.block, cmd.part), t.batch + Deletions(t.block[cmd.part].Keys)))
    case PUT | POST =>
      if cmd.part !in t.block then None
      else Some(Txn(t.block[cmd.part := t.block[cmd.part][key := cmd.text]], t.batch[key := Some(cmd.doc)]))
    case DEL =>
      if cmd.part !in t.block then None
      else Some(Txn(t.block[cmd.part := Without(t.block[cmd.part], key)], t.batch[key := None]))
    case _ => Some(t)
  }

  // The buckets after a step that finds its bucket.
  lemma StepBlocks(t: Txn, cmd: Command)
    requires IsWrite(cmd.kind) && !cmd.kind.CREATE_PART? ==> cmd.part in t.block
    ensures TxnStep(t, cmd).Some?
    ensures var block' := TxnStep(t, cmd).value.block; var key := FullId(cmd.part, cmd.id);
      match cmd.kind
      case CREATE_PART => block' == if cmd.part in t.block then t.block else t.block[cmd.part := map[]]
      case DELETE_PART => block' == Without(t.block, cmd.part)
      case DEL => block' == t.block[cmd.part := Without(t.block[cmd.part], key)]
      case PUT | POST => block' == t.block[cmd.part := t.block[cmd.part][key := cmd.text]]
      case _ => block' == t.block
  {
  }

  function Deletions(keys: set<string>): (batch: map<string, Option<Document>>) {
    map k | k in keys :: None
  }

  function RunTxn(block: BoltDb, q: Queue): (r: Option<Txn>) {
    if q == [] then Some(Txn(block, map[]))
    else match RunTxn(block, Front(q))
      case None => None
      case Some(t) => TxnStep(t, Last(q).cmd)
  }

  function ApplyBatch(index: Index, batch: map<string, Option<Document>>): (r: Index) {
    map k | k in index.Keys + batch.Keys && !(k in batch && batch[k].None?) ::
      if k in batch then batch[k].value else index[k]
  }

  // The shard after committing a slice of the queue; None when the commit panics.
  function Commit(sh: ShardState, q: Queue): (r: Option<ShardState>) {
    match RunTxn(sh.block, q)
    case None => None
    case Some(t) => Some(ShardState(t.block, ApplyBatch(sh.index, t.batch)))
  }

  lemma CommitNothing(sh: ShardState)
    ensures Commit(sh, []) == Some(sh)
    ensures ApplyBatch(sh.index, map[]) == sh.index
  {
    MapExtensionality(ApplyBatch(sh.index, map[]), sh.index);
  }

  // A panic is final: no longer slice can be committed.
  lemma {:induction false} PanicIsFinal(block: BoltDb, q: Queue, n: nat)
    requires n <= |q| && RunTxn(block, q[..n]).None?
    ensures RunTxn(block, q).None?
  {
    if n == |q| {
      assert q[..n] == q;
    } else {
      assert Front(q)[..n] == q[..n];
      PanicIsFinal(block, Front(q), n);
    }
  }

  // ---------------------------------------------------------------- search

  datatype Hit = Hit(id: string, score: real)
  datatype Match = Match(score: real, doc: Document)

  // The matches for a hit list in one bucket; None when a stored document does not decode.
  function Resolve(dec: Decoder, bucket: Bucket, hits: seq<Hit>): (r: Option<seq<Match>>) {
    if hits == [] then Some([])
    else match Resolve(dec, bucket, Front(hits))
      case None => None
      case Some(ms) =>
        if Last(hits).id !in bucket then Some(ms)
        else match dec(bucket[Last(hits).id])
          case None => None
          case Some(doc) => Some(ms + [Match(Last(hits).score, doc)])
  }

  lemma {:induction false} ResolveFailureIsFinal(dec: Decoder, bucket: Bucket, hits: seq<Hit>, n: nat)
    requires n <= |hits| && Resolve(dec, bucket, hits[..n]).None?
    ensures Resolve(dec, bucket, hits).None?
  {
    if n == |hits| {
      assert hits[..n] == hits;
    } else {
      assert Front(hits)[..n] == hits[..n];
      ResolveFailureIsFinal(dec, bucket, Front(hits), n);
    }
  }

  function SearchSpec(dec: Decoder, block: BoltDb, part: string, hits: seq<Hit>): (r: Option<seq<Match>>) {
    if part in block then Resolve(dec, block[part], hits) else Some([])
  }

  // ---------------------------------------------------------------- the shard object

  class Shard {
    var block: BoltDb
    var index: Index

    constructor (block: BoltDb, index: Index)
      ensures Contents() == ShardState(block, index)
    {
      this.block, this.index := block, index;
    }

    function Contents(): (sh: ShardState)
      reads this
    {
      ShardState(block, index)
    }

    method GetDocumentString(id: string, part: string) returns (text: string, found: bool)
      ensures found <==> part in block && id in block[part] && block[part][id] != ""
      ensures text == if found then block[part][id] else ""
    {
      var raw: Option<string> := None;
      if part in block {
        raw := Some(if id in block[part] then block[part][id] else "");
      }
      if raw.None? || |raw.value| == 0 {
        return "", false;
      }
      return raw.value, true;
    }

    method FindExistingDocumentsForUpdates(dec: Decoder, entries: Queue, found: array<Finding>) returns (ok: bool)
      requires found.Length == |entries|
      modifies found
      ensures ok <==> forall i :: 0 <= i < |entries| ==> FindOnDisk(dec, block, entries[i].cmd, old(found[i])).Some?
      ensures ok ==> forall i :: 0 <= i < |entries| ==>
                Some(found[i]) == FindOnDisk(dec, block, entries[i].cmd, old(found[i]))
    {
      for i := 0 to |entries|
        invariant forall j :: i <= j < |entries| ==> found[j] == old(found[j])
        invariant forall j :: 0 <= j < i ==>
                    Some(found[j]) == FindOnDisk(dec, block, entries[j].cmd, old(found[j]))
      {
        var cmd := entries[i].cmd;
        if found[i].existingDoc.Some? {
          continue;
        }
        if cmd.part !in block {
          found[i] := found[i].(partExists := false);
          continue;
        }
        found[i] := found[i].(partExists := true);
        if cmd.isPart {
          continue;
        }
        var key := FullId(cmd.part, cmd.id);
        var raw := if key in block[cmd.part] then block[cmd.part][key] else "";
        if |raw| == 0 {
          continue;
        }
        var doc := dec(raw);
        if doc.None? {
          assert FindOnDisk(dec, block, cmd, old(found[i])).None?;
          return false;
        }
        found[i] := found[i].(existingDoc := doc);
      }
      return true;
    }

    // One Bolt transaction: nothing is kept of it when it panics.
    method ApplyUpdates(entries: Queue) returns (ok: bool)
      modifies this
      ensures ok <==> Commit(old(Contents()), entries).Some?
      ensures Contents() == if ok then Commit(old(Contents()), entries).value else old(Contents())
    {
      var tx := block;
      var batch: map<string, Option<Document>> := map[];
      for i := 0 to |entries|
        invariant Contents() == old(Contents())
        invariant RunTxn(block, entries[..i]) == Some(Txn(tx, batch))
      {
        var cmd := entries[i].cmd;
        ghost var before := Txn(tx, batch);
        assert Front(entries[..i + 1]) == entries[..i] && Last(entries[..i + 1]) == entries[i];
        if cmd.kind.CREATE_PART? {
          if cmd.part !in tx {
            tx := tx[cmd.part := map[]];
          }
          continue;
        }
        if cmd.part !in tx && IsWrite(cmd.kind) {
          assert RunTxn(block, entries[..i + 1]).None?;
          PanicIsFinal(block, entries, i + 1);
          return false;
        }
        match cmd.kind
        case DELETE_PART =>
          batch := SweepBucket(tx[cmd.part], batch);
          tx := Without(tx, cmd.part);
        case PUT | POST =>
          tx := tx[cmd.part := tx[cmd.part][FullId(cmd.part, cmd.id) := cmd.text]];
          batch := batch[FullId(cmd.part, cmd.id) := Some(cmd.doc)];
        case DEL =>
          tx := tx[cmd.part := Without(tx[cmd.part], FullId(cmd.part, cmd.id))];
          batch := batch[FullId(cmd.part, cmd.id) := None];
        case _ =>
      }
      assert entries[..|entries|] == entries;
      block := tx;
      index := ApplyBatch(index, batch);
      return true;
    }

    // The cursor walk of DELETE_PART: every key of the bucket, in whatever order, leaves the index.
    static method SweepBucket(bucket: Bucket, batch0: map<string, Option<Document>>)
      returns (batch: map<string, Option<Document>>)
      ensures batch == batch0 + Deletions(bucket.Keys)
    {
      batch := batch0;
      var rest := bucket.Keys;
      while rest != {}
        invariant rest <= bucket.Keys
        invariant batch == batch0 + Deletions(bucket.Keys - rest)
        decreases rest
      {
        var k :| k in rest;
        batch := batch[k := None];
        rest := rest - {k};
      }
    }

    // From the hit list onward; Err when a stored document does not decode.
    method Search(dec: Decoder, part: string, hits: seq<Hit>) returns (r: Result<seq<Match>>)
      ensures r.Ok? <==> SearchSpec(dec, block, part, hits).Some?
      ensures r.Ok? ==> Some(r.value) == SearchSpec(dec, block, part, hits)
    {
      if part !in block {
        return Ok([]);
      }
      var b := block[part];
      var matches: seq<Match> := [];
      for i := 0 to |hits|
        invariant Resolve(dec, b, hits[..i]) == Some(matches)
      {
        assert Front(hits[..i + 1]) == hits[..i] && Last(hits[..i + 1]) == hits[i];
        if hits[i].id !in b {
          continue;
        }
        var doc := dec(b[hits[i].id]);
        if doc.None? {
          ResolveFailureIsFinal(dec, b, hits, i + 1);
          return Err("stored document does not decode");
        }
        matches := matches + [Match(hits[i].score, doc.value)];
      }
      assert hits[..|hits|] == hits;
      return Ok(matches);
    }
  }
}
