// The state machine object: the methods Dragonboat calls, proved against the value model.
module StateMachine {
  import opened Basics
  import opened Commands
  import opened CommandParser
  import opened PendingQueue
  import opened ShardStore
  import opened DiskView
  import opened Deciding
  import opened Overlay
  import opened ReplayIndex
  import opened Runs

  const ALPHABET := "abcdefghijklmnopqrstuvwxyz0123456789"

  // A Dragonboat log entry: the raw command, its index and the slot its result is written to.
  datatype LogEntry = LogEntry(cmd: string, index: uint64, result: nat)

  datatype Status = Completed | DecodeFailed | Panicked

  predicate Parses(dec: Decoder, entry: LogEntry) {
    ParseCommand(dec, entry.cmd).Ok?
  }

  function EntryOf(dec: Decoder, entry: LogEntry): (e: UpdateEntry)
    requires Parses(dec, entry)
  {
    var cmd := ParseCommand(dec, entry.cmd).value;
    UpdateEntry(cmd, entry.index, FirstRune(cmd.part))
  }

  function BatchOf(dec: Decoder, updates: seq<LogEntry>): (batch: Queue)
    requires forall e :: e in updates ==> Parses(dec, e)
    ensures |batch| == |updates|
  {
    seq(|updates|, i requires 0 <= i < |updates| => EntryOf(dec, updates[i]))
  }

  lemma BatchIsWellFormed(dec: Decoder, updates: seq<LogEntry>)
    requires forall e :: e in updates ==> Parses(dec, e)
    ensures WellFormedQueue(dec, BatchOf(dec, updates))
    ensures forall i :: 0 <= i < |updates| ==>
      var e := BatchOf(dec, updates)[i];
      && ParseCommand(dec, updates[i].cmd) == Ok(e.cmd)
      && e.index == updates[i].index
      && e.shardId == if e.cmd.part == "" then '\0' else e.cmd.part[0]
  {
    assert forall i :: 0 <= i < |updates| ==> updates[i] in updates;
    forall e | e in BatchOf(dec, updates) ensures Queueable(dec, e) {
      var i :| 0 <= i < |updates| && BatchOf(dec, updates)[i] == e;
      assert updates[i] in updates;
      ParsedIsWellFormed(dec, updates[i].cmd);
    }
  }

  // The entry after its slot has been written, or left alone.
  function WithCode(entry: LogEntry, code: Option<nat>): (r: LogEntry) {
    if code.Some? then entry.(result := code.value) else entry
  }

  predicate Written(now: seq<LogEntry>, before: seq<LogEntry>, codes: Codes) {
    |now| == |before| == |codes| && forall i :: 0 <= i < |now| ==> now[i] == WithCode(before[i], codes[i])
  }

  lemma WrittenFields(now: seq<LogEntry>, before: seq<LogEntry>, codes: Codes)
    requires Written(now, before, codes)
    ensures forall i :: 0 <= i < |now| ==>
      && now[i].cmd == before[i].cmd && now[i].index == before[i].index
      && now[i].result == if codes[i].Some? then codes[i].value else before[i].result
  {
  }

  // The walk leaves the slots of the shards it has not reached.
  lemma {:induction false} UnreachedUntouched(dec: Decoder, disk: Disk, q: Queue, batch: Queue, order: seq<char>)
    requires forall c :: c in order ==> c in disk
    ensures var o := UpdateInOrder(dec, disk, q, batch, order);
      forall i :: 0 <= i < |batch| && batch[i].shardId !in order ==> o.codes[i] == None
  {
    if order != [] {
      UnreachedUntouched(dec, disk, q, batch, Front(order));
      FrontLast(order);
    }
  }

  // A walk that has visited the shards in `order` and not yet those in `rest`.
  predicate WalkedSo(disk: Disk, order: seq<char>, rest: set<char>) {
    && rest <= disk.Keys
    && (forall c :: c in order <==> c in disk && c !in rest)
    && (forall i, j :: 0 <= i < j < |order| ==> order[i] != order[j])
  }

  // The walk visits one more shard, none of whose slots has been written.
  lemma WalkStep(dec: Decoder, disk: Disk, q: Queue, batch: Queue, order: seq<char>, rest: set<char>, c: char)
    requires WalkedSo(disk, order, rest) && c in rest && !UpdateInOrder(dec, disk, q, batch, order).failed
    ensures WalkedSo(disk, order + [c], rest - {c})
    ensures var o := UpdateInOrder(dec, disk, q, batch, order);
      && (forall i :: 0 <= i < |batch| && batch[i].shardId == c ==> o.codes[i] == None)
      && UpdateInOrder(dec, disk, q, batch, order + [c]) == ShardPass(dec, disk[c].block, batch, c, o)
  {
    UnreachedUntouched(dec, disk, q, batch, order);
    WalkSnoc(dec, disk, q, batch, order, c);
  }

  // Every shard is as it was or has committed its slice.
  predicate PartlyCommitted(before: Disk, now: Disk, q: Queue) {
    && before.Keys == now.Keys
    && forall c :: c in before ==> now[c] == before[c] || Some(now[c]) == Commit(before[c], SliceFor(q, c))
  }

  // The shards in `rest` are as they were, the others have committed their slices.
  predicate CommittedSo(before: Disk, now: Disk, q: Queue, rest: set<char>) {
    && before.Keys == now.Keys
    && forall c :: c in before ==>
         if c in rest then now[c] == before[c] else Some(now[c]) == Commit(before[c], SliceFor(q, c))
  }

  lemma AllCommitted(before: Disk, now: Disk, q: Queue)
    requires CommittedSo(before, now, q, {})
    ensures Committable(before, q) && now == CommitShards(before, q, before.Keys)
  {
    forall c | c in before ensures Commit(before[c], SliceFor(q, c)) == Some(now[c]) {
    }
    MapExtensionality(now, CommitShards(before, q, before.Keys));
  }

  // The positions of a shard's entries in the batch.
  predicate Positions(batch: Queue, c: char, at: seq<nat>, n: nat) {
    && (forall k :: 0 <= k < |at| ==> at[k] < n)
    && (forall k, l :: 0 <= k < l < |at| ==> at[k] < at[l])
    && (forall i :: 0 <= i < n && n <= |batch| ==> (i in at <==> batch[i].shardId == c))
  }

  function Verdicts(dec: Decoder, block: BoltDb, q: Queue, need: bool, slice: Queue): (codes: Codes)
    ensures |codes| == |slice|
  {
    seq(|slice|, k requires 0 <= k < |slice| => Verdict(dec, block, q, need, slice[k].cmd))
  }

  predicate Distinct(at: seq<nat>, n: nat) {
    && (forall k :: 0 <= k < |at| ==> at[k] < n)
    && (forall k, l :: 0 <= k < l < |at| ==> at[k] != at[l])
  }

  // The slots of the first k positions are written, the others as they were.
  predicate SlotsWritten(now: seq<LogEntry>, before: seq<LogEntry>, at: seq<nat>, codes: Codes, k: nat) {
    && |now| == |before| && Distinct(at, |now|) && k <= |at| == |codes|
    && (forall l :: 0 <= l < k ==> now[at[l]] == WithCode(before[at[l]], codes[l]))
    && (forall l :: k <= l < |at| ==> now[at[l]] == before[at[l]])
    && (forall i :: 0 <= i < |now| && i !in at ==> now[i] == before[i])
  }

  lemma WriteSlot(now: seq<LogEntry>, before: seq<LogEntry>, at: seq<nat>, codes: Codes, k: nat)
    requires k < |at| && SlotsWritten(now, before, at, codes, k)
    ensures SlotsWritten(now[at[k] := WithCode(now[at[k]], codes[k])], before, at, codes, k + 1)
  {
  }

  // What opening a shard's files finds: an empty shard when there are none yet.
  function FileOf(files: Disk, c: char): (sh: ShardState) {
    if c in files then files[c] else ShardState(map[], map[])
  }

  class ByStateMachine {
    const dec: Decoder
    var shardMap: map<char, Shard>
    var metaDb: BoltDb
    var lastIndex: uint64
    var pending: Queue

    // Every shard has its own object.
    ghost predicate Valid()
      reads this`shardMap
    {
      forall c, d :: c in shardMap && d in shardMap && c != d ==> shardMap[c] != shardMap[d]
    }

    ghost function DiskState(): (disk: Disk)
      reads this`shardMap, shardMap.Values
      ensures disk.Keys == shardMap.Keys
    {
      map c | c in shardMap :: shardMap[c].Contents()
    }

    ghost function State(): (m: Machine)
      reads this, shardMap.Values
    {
      Machine(DiskState(), pending, lastIndex, metaDb)
    }

    twostate lemma OneShardChanged(c: char)
      requires shardMap == old(shardMap) && Valid() && c in shardMap
      requires forall d :: d in shardMap && d != c ==> unchanged(shardMap[d])
      ensures DiskState() == old(DiskState())[c := shardMap[c].Contents()]
    {
      MapExtensionality(DiskState(), old(DiskState())[c := shardMap[c].Contents()]);
    }

    twostate lemma NoShardChanged()
      requires shardMap == old(shardMap)
      requires forall c :: c in shardMap ==> unchanged(shardMap[c])
      ensures DiskState() == old(DiskState())
    {
    }

    constructor (dec: Decoder)
      ensures this.dec == dec && shardMap == map[] && pending == [] && Valid()
    {
      this.dec := dec;
      shardMap, pending, lastIndex, metaDb := map[], [], 0, map[];
    }

    // ---------------------------------------------------------------- opening

    // One shard for every character, with what its files hold.
    method OpenShardMap(chars: string, files: Disk)
      modifies this`shardMap
      ensures Valid() && shardMap.Keys == set c | c in chars
      ensures forall c :: c in shardMap ==> fresh(shardMap[c]) && shardMap[c].Contents() == FileOf(files, c)
    {
      shardMap := map[];
      for i := 0 to |chars|
        invariant Valid() && shardMap.Keys == set c | c in chars[..i]
        invariant forall c :: c in shardMap ==> fresh(shardMap[c]) && shardMap[c].Contents() == FileOf(files, c)
      {
        var c := chars[i];
        var contents := FileOf(files, c);
        var shard := new Shard(contents.block, contents.index);
        assert chars[..i + 1] == chars[..i] + [c];
        shardMap := shardMap[c := shard];
      }
      assert chars[..|chars|] == chars;
    }

    method GetLastUpdateIndex() returns (r: Result<uint64>)
      modifies this`lastIndex
      ensures var text := RawDocument(metaDb, "meta", "lastUpdateIndex");
        if text == "" then r == Ok(0) else r.Ok? <==> IsNumeral(text) && Value(text) < 0x1_0000_0000_0000_0000
      ensures r.Ok? <==> ReadIndex(metaDb).Some?
      ensures r.Ok? ==> ReadIndex(metaDb) == Some(r.value) && lastIndex == r.value
    {
      lastIndex := 0;
      if META_BUCKET !in metaDb || INDEX_KEY !in metaDb[META_BUCKET] || |metaDb[META_BUCKET][INDEX_KEY]| == 0 {
        return Ok(0);
      }
      var index := ParseBelow(metaDb[META_BUCKET][INDEX_KEY], UINT64_LIMIT);
      if index.None? {
        return Err("stored index does not parse");
      }
      lastIndex := index.value;
      return Ok(lastIndex);
    }

    // Opening on the files another incarnation left.
    method Open(files: Disk, meta: BoltDb) returns (r: Result<uint64>)
      modifies this
      ensures Valid() && pending == old(pending)
      ensures shardMap.Keys == set c | c in ALPHABET
      ensures forall c :: c in shardMap ==> fresh(shardMap[c]) && shardMap[c].Contents() == FileOf(files, c)
      ensures metaDb == EnsureBucket(meta)
      ensures r.Ok? <==> ReadIndex(metaDb).Some?
      ensures r.Ok? ==> ReadIndex(metaDb) == Some(r.value) && lastIndex == r.value
    {
      OpenShardMap(ALPHABET, files);
      metaDb := meta;
      if META_BUCKET !in metaDb {
        metaDb := metaDb[META_BUCKET := map[]];
      }
      r := GetLastUpdateIndex();
    }

    // ---------------------------------------------------------------- reading

    // The scan from the newest queued command backwards.
    method FindCommandInPending(cmd: Command) returns (hit: Option<Command>)
      ensures hit == LatestHit(pending, cmd.part, cmd.id)
    {
      var i := |pending|;
      assert pending[..i] == pending;
      while i > 0
        invariant 0 <= i <= |pending|
        invariant LatestHit(pending, cmd.part, cmd.id) == LatestHit(pending[..i], cmd.part, cmd.id)
      {
        i := i - 1;
        var queued := pending[i].cmd;
        assert Front(pending[..i + 1]) == pending[..i] && Last(pending[..i + 1]) == pending[i];
        if (queued.isPart && cmd.part == queued.part) || (cmd.id == queued.id && cmd.part == queued.part) {
          return Some(queued);
        }
      }
      return None;
    }

    method LookupGetRequestInState(cmd: Command) returns (a: Answer)
      ensures a == GetInState(DiskState(), cmd.part, cmd.id)
    {
      var c := FirstRune(cmd.part);
      if c !in shardMap {
        return NoSuchShard;
      }
      var text, found := shardMap[c].GetDocumentString(FullId(cmd.part, cmd.id), cmd.part);
      if !found {
        return NotFound;
      }
      return Success(text);
    }

    method LookupGetRequest(cmd: Command) returns (a: Answer)
      ensures a == Get(DiskState(), pending, cmd.part, cmd.id)
    {
      var hit := FindCommandInPending(cmd);
      if hit.Some? {
        match hit.value.kind
        case DEL | DELETE_PART => return NotFound;
        case POST | PUT => return Success(hit.value.text);
        case _ =>
      }
      a := LookupGetRequestInState(cmd);
    }

    // From the hit list the index gave onward; Err when there is no shard or a document does not decode.
    method LookupSearchRequest(cmd: Command, hits: seq<Hit>) returns (r: Result<seq<Match>>)
      ensures r.Ok? <==>
                && FirstRune(cmd.part) in shardMap
                && SearchSpec(dec, shardMap[FirstRune(cmd.part)].block, cmd.part, hits).Some?
      ensures r.Ok? ==> Some(r.value) == SearchSpec(dec, shardMap[FirstRune(cmd.part)].block, cmd.part, hits)
    {
      var c := FirstRune(cmd.part);
      if c !in shardMap {
        return Err("No such shard");
      }
      r := shardMap[c].Search(dec, cmd.part, hits);
    }

    // ---------------------------------------------------------------- updating

    // The entries of one shard and where they stand in the batch.
    method SelectShard(batch: Queue, c: char) returns (slice: Queue, at: seq<nat>)
      ensures slice == SliceFor(batch, c) && |at| == |slice|
      ensures Positions(batch, c, at, |batch|)
      ensures forall k :: 0 <= k < |at| ==> batch[at[k]] == slice[k]
    {
      slice, at := [], [];
      for i := 0 to |batch|
        invariant slice == SliceFor(batch[..i], c) && |at| == |slice|
        invariant Positions(batch, c, at, i)
        invariant forall k :: 0 <= k < |at| ==> batch[at[k]] == slice[k]
      {
        assert Front(batch[..i + 1]) == batch[..i] && Last(batch[..i + 1]) == batch[i];
        if batch[i].shardId == c {
          slice, at := slice + [batch[i]], at + [i];
        }
      }
      assert batch[..|batch|] == batch;
    }

    // The first pass: what the queue knows of every entry, and whether the disk must be asked.
    method LookInPending(slice: Queue, found: array<Finding>) returns (stateSearchDocs: nat)
      requires found.Length == |slice|
      modifies found
      ensures forall k :: 0 <= k < |slice| ==> found[k] == FindInQueue(pending, slice[k].cmd)
      ensures stateSearchDocs > 0 <==> NeedDisk(pending, slice)
    {
      stateSearchDocs := 0;
      for k := 0 to |slice|
        invariant forall l :: 0 <= l < k ==> found[l] == FindInQueue(pending, slice[l].cmd)
        invariant stateSearchDocs > 0 <==>
                    exists l :: 0 <= l < k && LatestHit(pending, slice[l].cmd.part, slice[l].cmd.id).None?
      {
        var hit := FindCommandInPending(slice[k].cmd);
        found[k] := Finding(false, None);
        if hit.None? {
          stateSearchDocs := stateSearchDocs + 1;
        } else {
          match hit.value.kind
          case CREATE_PART => found[k] := found[k].(partExists := true);
          case DELETE_PART => found[k] := found[k].(partExists := false);
          case _ => found[k] := Finding(true, Some(hit.value.doc));
        }
      }
      assert NeedDisk(pending, slice) <==>
             exists l :: 0 <= l < |slice| && LatestHit(pending, slice[l].cmd.part, slice[l].cmd.id).None?;
    }

    // Both lookup passes; not ok when a stored document does not decode.
    method FindAll(shard: Shard, slice: Queue) returns (ok: bool, found: array<Finding>, ghost need: bool)
      ensures fresh(found) && found.Length == |slice|
      ensures need == NeedDisk(pending, slice)
      ensures ok <==> !ShardFails(dec, shard.block, pending, slice)
      ensures ok ==> forall k :: 0 <= k < |slice| ==>
                Some(found[k]) == FindingFor(dec, shard.block, pending, need, slice[k].cmd)
    {
      found := new Finding[|slice|](_ => Finding(false, None));
      var stateSearchDocs := LookInPending(slice, found);
      need := stateSearchDocs > 0;
      ok := true;
      if stateSearchDocs > 0 {
        ok := shard.FindExistingDocumentsForUpdates(dec, slice, found);
        assert ok <==> forall k :: 0 <= k < |slice| ==> FindingFor(dec, shard.block, pending, true, slice[k].cmd).Some?;
      }
    }

    // Decide one entry, write its result slot, queue it when it is accepted.
    method DecideOne(e: UpdateEntry, f: Finding, updates: array<LogEntry>, slot: nat)
      requires slot < updates.Length
      modifies this`pending, updates
      ensures updates[..] == old(updates[..])[slot := WithCode(old(updates[slot]), Decide(e.cmd, f))]
      ensures updates[slot].cmd == old(updates[slot].cmd) && updates[slot].index == old(updates[slot].index)
      ensures updates[slot].result ==
                if Decide(e.cmd, f).Some? then Decide(e.cmd, f).value else old(updates[slot].result)
      ensures pending == if Decide(e.cmd, f) == Some(200) then old(pending) + [e] else old(pending)
    {
      match e.cmd.kind
      case PUT | DEL =>
        if !f.partExists || f.existingDoc.None? {
          updates[slot] := updates[slot].(result := 404);
        } else if f.existingDoc.value.updated != e.cmd.ts {
          updates[slot] := updates[slot].(result := 409);
        } else {
          updates[slot] := updates[slot].(result := 200);
          pending := pending + [e];
        }
      case POST =>
        if !f.partExists {
          updates[slot] := updates[slot].(result := 404);
        } else if f.existingDoc.Some? {
          updates[slot] := updates[slot].(result := 409);
        } else {
          updates[slot] := updates[slot].(result := 200);
          pending := pending + [e];
        }
      case CREATE_PART =>
        if f.partExists {
          updates[slot] := updates[slot].(result := 409);
        } else {
          updates[slot] := updates[slot].(result := 200);
          pending := pending + [e];
        }
      case DELETE_PART =>
        if f.partExists {
          updates[slot] := updates[slot].(result := 200);
          pending := pending + [e];
        } else {
          updates[slot] := updates[slot].(result := 404);
        }
      case _ =>
    }

    // The last pass over a shard's entries; entry k of the slice stands at position at[k].
    method DecideAll(block: BoltDb, slice: Queue, at: seq<nat>, found: array<Finding>, ghost need: bool,
                     updates: array<LogEntry>)
      requires |at| == |slice| == found.Length && Distinct(at, updates.Length)
      requires forall k :: 0 <= k < |slice| ==> Some(found[k]) == FindingFor(dec, block, pending, need, slice[k].cmd)
      modifies this`pending, updates
      ensures pending == old(pending) + Accepted(dec, block, old(pending), need, slice)
      ensures SlotsWritten(updates[..], old(updates[..]), at, Verdicts(dec, block, old(pending), need, slice), |at|)
    {
      ghost var q, before := pending, updates[..];
      ghost var codes := Verdicts(dec, block, q, need, slice);
      assert q + [] == q;
      for k := 0 to |slice|
        invariant pending == q + Accepted(dec, block, q, need, slice[..k])
        invariant SlotsWritten(updates[..], before, at, codes, k)
      {
        AcceptedSnoc(dec, block, q, need, slice, k);
        WriteSlot(updates[..], before, at, codes, k);
        assert codes[k] == Decide(slice[k].cmd, found[k]);
        DecideOne(slice[k], found[k], updates, at[k]);
      }
      assert slice[..|slice|] == slice;
    }

    // One shard's turn in Update.
    method UpdateShard(c: char, batch: Queue, updates: array<LogEntry>, ghost before: seq<LogEntry>, ghost codes: Codes)
      returns (ok: bool)
      requires Valid() && c in shardMap && updates.Length == |batch|
      requires Written(updates[..], before, codes)
      requires forall i :: 0 <= i < |batch| && batch[i].shardId == c ==> codes[i] == None
      modifies this`pending, updates
      ensures var o := ShardPass(dec, shardMap[c].block, batch, c, Outcome(old(pending), codes, false));
        ok == !o.failed && pending == o.pending && Written(updates[..], before, o.codes)
    {
      var slice, at := SelectShard(batch, c);
      if |slice| == 0 {
        assert SliceFor(batch, c) == [];
        assert forall i :: 0 <= i < |batch| ==> batch[i].shardId != c;
        return true;
      }
      var found; ghost var need;
      ok, found, need := FindAll(shardMap[c], slice);
      if ok {
        DecideAll(shardMap[c].block, slice, at, found, need, updates);
      }
    }

    // Every entry as a command; not ok when one does not parse.
    method ParseAll(updates: array<LogEntry>) returns (ok: bool, batch: Queue)
      ensures ok <==> forall e :: e in updates[..] ==> Parses(dec, e)
      ensures ok ==> batch == BatchOf(dec, updates[..])
    {
      batch := [];
      for i := 0 to updates.Length
        invariant forall e :: e in updates[..i] ==> Parses(dec, e)
        invariant batch == BatchOf(dec, updates[..i])
      {
        var cmd := ParseCommand(dec, updates[i].cmd);
        assert updates[..i + 1] == updates[..i] + [updates[i]];
        if cmd.Err? {
          assert updates[i] in updates[..];
          return false, [];
        }
        batch := batch + [UpdateEntry(cmd.value, updates[i].index, FirstRune(cmd.value.part))];
      }
      assert updates[..updates.Length] == updates[..];
      ok := true;
    }

    // Every shard in turn, in the order the map is walked, until one fails.
    method WalkShards(batch: Queue, updates: array<LogEntry>, ghost disk: Disk)
      returns (ok: bool, ghost order: seq<char>)
      requires Valid() && updates.Length == |batch| && disk == DiskState()
      modifies this`pending, updates
      ensures (forall c :: c in order ==> c in disk) && (forall i, j :: 0 <= i < j < |order| ==> order[i] != order[j])
      ensures ok ==> CompleteOrder(disk, order)
      ensures var o := UpdateInOrder(dec, disk, old(pending), batch, order);
        ok == !o.failed && pending == o.pending && Written(updates[..], old(updates[..]), o.codes)
    {
      order := [];
      ghost var before, q := updates[..], pending;
      ghost var o := UpdateInOrder(dec, disk, q, batch, order);
      var rest := shardMap.Keys;
      while rest != {}
        invariant WalkedSo(disk, order, rest) && o == UpdateInOrder(dec, disk, q, batch, order)
        invariant disk == DiskState()
        invariant !o.failed && pending == o.pending && Written(updates[..], before, o.codes)
        decreases rest
      {
        var c :| c in rest;
        WalkStep(dec, disk, q, batch, order, rest, c);
        ok := UpdateShard(c, batch, updates, before, o.codes);
        o := ShardPass(dec, disk[c].block, batch, c, o);
        order := order + [c];
        rest := rest - {c};
        if !ok {
          return;
        }
      }
      ok := true;
    }

    // Update: parse every entry, then let every shard decide its own, in the order the map is walked.
    // The codes are those of the walk, and of the run model when it is complete.
    method Update(updates: array<LogEntry>) returns (status: Status, ghost order: seq<char>, ghost codes: Codes)
      requires Valid()
      modifies this`pending, updates
      ensures Valid()
      ensures status.Panicked? <==> exists e :: e in old(updates[..]) && !Parses(dec, e)
      ensures status.Panicked? ==> updates[..] == old(updates[..]) && pending == old(pending)
      ensures !status.Panicked? ==>
        && (forall c :: c in order ==> c in shardMap)
        && (forall i, j :: 0 <= i < j < |order| ==> order[i] != order[j])
        && var o := UpdateInOrder(dec, DiskState(), old(pending), BatchOf(dec, old(updates[..])), order);
        && (status.DecodeFailed? <==> o.failed)
        && (status.Completed? ==> CompleteOrder(DiskState(), order))
        && pending == o.pending && codes == o.codes
      ensures status.Completed? ==>
        Step(dec, old(State()), Batch(BatchOf(dec, old(updates[..])), order)) == Some((State(), codes))
      ensures |codes| == updates.Length
      ensures forall i :: 0 <= i < updates.Length ==>
        && updates[i].cmd == old(updates[i].cmd) && updates[i].index == old(updates[i].index)
        && updates[i].result == if codes[i].Some? then codes[i].value else old(updates[i].result)
    {
      order, codes := [], seq(updates.Length, _ => None);
      var ok, batch := ParseAll(updates);
      if !ok {
        return Panicked, order, codes;
      }
      ghost var before, disk := State(), DiskState();
      ok, order := WalkShards(batch, updates, disk);
      assert DiskState() == disk;
      codes := UpdateInOrder(dec, disk, before.pending, batch, order).codes;
      WrittenFields(updates[..], old(updates[..]), codes);
      return if ok then Completed else DecodeFailed, order, codes;
    }

    // ---------------------------------------------------------------- syncing

    method GetPendingUpdatesForShard(c: char) returns (slice: Queue)
      ensures slice == SliceFor(pending, c)
    {
      slice := [];
      for i := 0 to |pending|
        invariant slice == SliceFor(pending[..i], c)
      {
        assert Front(pending[..i + 1]) == pending[..i] && Last(pending[..i + 1]) == pending[i];
        if pending[i].shardId == c {
          slice := slice + [pending[i]];
        }
      }
      assert pending[..|pending|] == pending;
    }

    method FindHighestIndexInPending() returns (h: uint64)
      ensures h == HighestIndex(pending, lastIndex)
    {
      h := lastIndex;
      for i := 0 to |pending|
        invariant h == HighestIndex(pending[..i], lastIndex)
      {
        assert Front(pending[..i + 1]) == pending[..i] && Last(pending[..i + 1]) == pending[i];
        if pending[i].index > h {
          h := pending[i].index;
        }
      }
      assert pending[..|pending|] == pending;
    }

    // One goroutine of Sync; a shard without entries is skipped.
    method CommitShard(c: char) returns (ok: bool)
      requires c in shardMap
      modifies shardMap[c]
      ensures ok <==> Commit(old(shardMap[c].Contents()), SliceFor(pending, c)).Some?
      ensures shardMap[c].Contents() ==
                if ok then Commit(old(shardMap[c].Contents()), SliceFor(pending, c)).value
                else old(shardMap[c].Contents())
    {
      var slice := GetPendingUpdatesForShard(c);
      if |slice| == 0 {
        CommitNothing(shardMap[c].Contents());
        return true;
      }
      ok := shardMap[c].ApplyUpdates(slice);
    }

    // Commit every shard its slice, in the order the goroutines happen to run. Not ok when one of
    // them panics; by then others may have committed.
    method CommitAll(ghost disk: Disk) returns (ok: bool)
      requires Valid() && disk == DiskState()
      modifies shardMap.Values
      ensures ok <==> Committable(disk, pending)
      ensures ok ==> DiskState() == CommitShards(disk, pending, disk.Keys)
      ensures PartlyCommitted(disk, DiskState(), pending)
    {
      var rest := shardMap.Keys;
      while rest != {}
        invariant rest <= shardMap.Keys
        invariant CommittedSo(disk, DiskState(), pending, rest)
        decreases rest
      {
        var c :| c in rest;
        label before: ok := CommitShard(c);
        OneShardChanged@before(c);
        if !ok {
          return;
        }
        rest := rest - {c};
      }
      AllCommitted(disk, DiskState(), pending);
      ok := true;
    }

    // Not ok when the metadata file has no bucket to write to.
    method UpdateLastUpdateIndex() returns (ok: bool)
      modifies this`metaDb
      ensures ok <==> META_BUCKET in old(metaDb)
      ensures metaDb == if ok then WriteIndex(old(metaDb), lastIndex) else old(metaDb)
      ensures ok ==> "meta" in metaDb && metaDb["meta"]["lastUpdateIndex" := Decimal(lastIndex)] == metaDb["meta"]
    {
      ok := META_BUCKET in metaDb;
      if ok {
        metaDb := metaDb[META_BUCKET := metaDb[META_BUCKET][INDEX_KEY := Decimal(lastIndex)]];
      }
    }

    // Sync: move the replay index, commit every shard, clear the queue, store the index.
    method Sync() returns (ok: bool)
      requires Valid()
      modifies this`pending, this`lastIndex, this`metaDb, shardMap.Values
      ensures Valid() && shardMap == old(shardMap)
      ensures ok <==> Committable(old(DiskState()), old(pending)) && META_BUCKET in old(metaDb)
      ensures ok ==> Step(dec, old(State()), Flush) == Some((State(), []))
      ensures PartlyCommitted(old(DiskState()), DiskState(), old(pending))
      ensures !ok ==> metaDb == old(metaDb)
    {
      ghost var before, disk := State(), DiskState();
      label start: lastIndex := FindHighestIndexInPending();
      NoShardChanged@start();
      ok := CommitAll(disk);
      ghost var after := DiskState();
      label committed: if ok {
        pending := [];
        ok := UpdateLastUpdateIndex();
      }
      NoShardChanged@committed();
      if ok {
        FlushIs(dec, before, Machine(after, pending, lastIndex, metaDb));
      }
    }
  }

  // What a completed Sync amounts to, field by field.
  lemma FlushIs(dec: Decoder, m: Machine, m': Machine)
    requires Committable(m.disk, m.pending) && META_BUCKET in m.meta
    requires m'.disk == CommitShards(m.disk, m.pending, m.disk.Keys) && m'.pending == []
    requires m'.lastIndex == HighestIndex(m.pending, m.lastIndex)
    requires m'.meta == WriteIndex(m.meta, m'.lastIndex)
    ensures Step(dec, m, Flush) == Some((m', []))
  {
  }

  // A crash and a restart: a new state machine opened on the files of the old one.
  method Restart(s: ByStateMachine, files: Disk) returns (t: ByStateMachine, ok: bool)
    requires s.Valid() && files == s.DiskState() && s.shardMap.Keys == set c | c in ALPHABET
    ensures fresh(t) && t.Valid() && t.dec == s.dec
    ensures ok <==> Step(s.dec, s.State(), Event.Restart).Some?
    ensures ok ==> t.State() == Step(s.dec, s.State(), Event.Restart).value.0
  {
    t := new ByStateMachine(s.dec);
    var r := t.Open(files, s.metaDb);
    ok := r.Ok?;
    assert t.DiskState() == s.DiskState();
  }
}
