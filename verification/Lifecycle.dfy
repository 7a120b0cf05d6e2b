// The life of a state machine object: the first opening, which partitions it serves, and the index
// that Update and Sync leave for the next opening.
module Lifecycle {
  import opened Basics
  import opened Commands
  import opened PendingQueue
  import opened DiskView
  import opened Deciding
  import opened Overlay
  import opened Batches
  import opened Conservation
  import opened ReplayIndex
  import opened Recovery
  import opened Runs
  import opened StateMachine
  import opened FirstStart

  // ---------------------------------------------------------------- the first opening

  // Opened on no files at all a new state machine is the first machine, and replay starts at 0.
  method FirstOpen(dec: Decoder) returns (s: ByStateMachine, r: Result<uint64>)
    ensures fresh(s) && s.Valid() && s.dec == dec
    ensures r == Ok(0) && s.State() == FirstMachine()
  {
    s := new ByStateMachine(dec);
    r := s.Open(map[], map[]);
    MapExtensionality(s.DiskState(), FirstMachine().disk);
  }

  // ---------------------------------------------------------------- routing

  // Partition names that start with a small letter or a digit.
  predicate Served(part: string) {
    part != "" && ('a' <= part[0] <= 'z' || '0' <= part[0] <= '9')
  }

  lemma LetterInAlphabet(c: char)
    requires 'a' <= c <= 'z'
    ensures c in ALPHABET
  {
    assert ALPHABET[c as int - 'a' as int] == c;
  }

  lemma DigitInAlphabet(c: char)
    requires '0' <= c <= '9'
    ensures c in ALPHABET
  {
    assert ALPHABET[26 + c as int - '0' as int] == c;
  }

  lemma AlphabetRange(i: nat)
    requires i < |ALPHABET|
    ensures 'a' <= ALPHABET[i] <= 'z' || '0' <= ALPHABET[i] <= '9'
  {
  }

  lemma AlphabetExact(c: char)
    ensures c in ALPHABET <==> 'a' <= c <= 'z' || '0' <= c <= '9'
  {
    if c in ALPHABET {
      var i :| 0 <= i < |ALPHABET| && ALPHABET[i] == c;
      AlphabetRange(i);
    }
    if 'a' <= c <= 'z' {
      LetterInAlphabet(c);
    } else if '0' <= c <= '9' {
      DigitInAlphabet(c);
    }
  }

  lemma ServedExact(part: string)
    ensures FirstRune(part) in FirstMachine().disk <==> Served(part)
  {
    AlphabetExact(FirstRune(part));
  }

  lemma FirstRunIsOrderly(dec: Decoder, events: seq<Event>)
    requires ParsedRun(dec, FirstMachine(), events) && Run(dec, FirstMachine(), events).Some?
    ensures Orderly(dec, Run(dec, FirstMachine(), events).value.0)
    ensures Run(dec, FirstMachine(), events).value.0.disk.Keys == FirstMachine().disk.Keys
  {
    FirstMachineIsSound(dec);
    CompletedRunIsOrderly(dec, FirstMachine(), events);
  }

  lemma GetRouted(dec: Decoder, m: Machine, part: string, id: string)
    requires Orderly(dec, m)
    ensures Get(m.disk, m.pending, part, id) == NoSuchShard <==> FirstRune(part) !in m.disk
  {
    if FirstRune(part) !in m.disk {
      NoHitOutsideShards(dec, m.disk, m.pending, part, id);
    }
  }

  lemma StoredRouted(dec: Decoder, m: Machine, c: char, p: string)
    requires Orderly(dec, m) && c in m.disk && p in m.disk[c].block
    ensures c == FirstRune(p)
  {
  }

  // After any completed run from the first machine a GET is refused for want of a shard exactly when
  // the partition does not start with a small letter or a digit, and a stored partition is in the
  // shard of the character it starts with.
  lemma RoutingExact(dec: Decoder, events: seq<Event>, m: Machine, part: string, id: string)
    requires ParsedRun(dec, FirstMachine(), events)
    requires Run(dec, FirstMachine(), events).Some? && Run(dec, FirstMachine(), events).value.0 == m
    ensures Get(m.disk, m.pending, part, id) == NoSuchShard <==> !Served(part)
    ensures forall c :: c in m.disk && part in m.disk[c].block ==> Served(part) && c == part[0]
  {
    FirstRunIsOrderly(dec, events);
    ServedExact(part);
    GetRouted(dec, m, part, id);
    forall c | c in m.disk && part in m.disk[c].block ensures c == FirstRune(part) {
      StoredRouted(dec, m, c, part);
    }
  }

  // And exactly the writes to such partitions are left without a result.
  lemma ResultsExact(dec: Decoder, events: seq<Event>, m: Machine, entries: Queue, order: seq<char>, codes: Codes)
    requires ParsedRun(dec, FirstMachine(), events)
    requires Run(dec, FirstMachine(), events).Some? && Run(dec, FirstMachine(), events).value.0 == m
    requires WellFormedQueue(dec, entries) && Step(dec, m, Batch(entries, order)).Some?
    requires Step(dec, m, Batch(entries, order)).value.1 == codes
    ensures |codes| == |entries|
    ensures forall i :: 0 <= i < |entries| && IsWrite(entries[i].cmd.kind) ==>
              (codes[i].None? <==> !Served(entries[i].cmd.part))
  {
    FirstRunIsOrderly(dec, events);
    EntryConservation(dec, m.disk, m.pending, entries, order);
    forall i | 0 <= i < |entries| ensures FirstRune(entries[i].cmd.part) in m.disk <==> Served(entries[i].cmd.part) {
      ServedExact(entries[i].cmd.part);
    }
  }

  // ---------------------------------------------------------------- the index left behind

  // The highest index of the queue after an Update: the old one, that of a queued entry, or that of an
  // entry coded 200.
  ghost predicate IsHighest(h: uint64, last: uint64, q: Queue, updates: seq<LogEntry>, codes: Codes)
    requires |codes| == |updates|
  {
    && last <= h
    && (forall e :: e in q ==> e.index <= h)
    && (forall i :: 0 <= i < |updates| && codes[i] == Some(200) ==> updates[i].index <= h)
    && (h == last
        || (exists e :: e in q && e.index == h)
        || (exists i :: 0 <= i < |updates| && codes[i] == Some(200) && updates[i].index == h))
  }

  lemma UpdatedHighest(dec: Decoder, disk: Disk, q: Queue, updates: seq<LogEntry>, order: seq<char>, last: uint64)
    requires WellFormedQueue(dec, q) && CompleteOrder(disk, order)
    requires forall e :: e in updates ==> Parses(dec, e)
    requires !UpdateInOrder(dec, disk, q, BatchOf(dec, updates), order).failed
    ensures var o := UpdateInOrder(dec, disk, q, BatchOf(dec, updates), order);
      IsHighest(HighestIndex(o.pending, last), last, q, updates, o.codes)
  {
    var batch := BatchOf(dec, updates);
    BatchIsWellFormed(dec, updates);
    var o := UpdateInOrder(dec, disk, q, batch, order);
    UpdateMembers(dec, disk, q, batch, order);
    AcceptedOfMembers(batch, o.codes);
    HighestIndexIsMaximum(o.pending, last);
    forall i | 0 <= i < |updates| && o.codes[i] == Some(200)
      ensures updates[i].index <= HighestIndex(o.pending, last)
    {
      AcceptedHas(batch, o.codes, i);
    }
  }

  // An Update and the Sync after it: the stored index, which the next opening reads, is the highest of
  // the old one, those already queued and those of the log entries this Update accepted.
  method UpdateThenSync(s: ByStateMachine, updates: array<LogEntry>) returns (done: bool, ghost codes: Codes)
    requires s.Valid() && WellFormedQueue(s.dec, s.pending)
    modifies s, s.shardMap.Values, updates
    ensures |codes| == updates.Length
    ensures forall i :: 0 <= i < updates.Length ==>
      && updates[i].index == old(updates[i].index)
      && updates[i].result == if codes[i].Some? then codes[i].value else old(updates[i].result)
    ensures done ==>
      && s.pending == []
      && IsHighest(s.lastIndex, old(s.lastIndex), old(s.pending), updates[..], codes)
      && ReadIndex(s.metaDb) == Some(s.lastIndex)
  {
    var status;
    ghost var order;
    ghost var disk, q, last, before := s.DiskState(), s.pending, s.lastIndex, updates[..];
    status, order, codes := s.Update(updates);
    done := status.Completed?;
    if done {
      UpdatedHighest(s.dec, disk, q, before, order, last);
      var meta := s.metaDb;
      done := s.Sync();
      if done {
        WrittenIndexIsRead(meta, s.lastIndex);
        assert forall i :: 0 <= i < updates.Length ==> updates[i].index == before[i].index;
      }
    }
  }
}
