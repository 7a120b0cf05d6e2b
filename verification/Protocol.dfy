// The protocol as a client sees it: the text of a command, the code written for it, and the store
// before and after, written out.
module Protocol {
  import opened Basics
  import opened Commands
  import opened CommandParser
  import opened PlainStore
  import opened PendingQueue
  import opened Deciding
  import opened Overlay
  import opened Runs
  import opened StateMachine

  // An Update of this one log entry writes that code into its slot and leaves that store.
  ghost predicate Gives(dec: Decoder, m: Machine, entry: LogEntry, order: seq<char>, code: nat, st: Store) {
    && Parses(dec, entry)
    && var r := Step(dec, m, Batch(BatchOf(dec, [entry]), order));
    && r.Some? && r.value.1 == [Some(code)]
    && Inv(dec, r.value.0) && ViewOf(dec, r.value.0) == st
  }

  // A sound machine with a shard for the partition.
  ghost predicate Serves(dec: Decoder, m: Machine, order: seq<char>, part: string) {
    && Inv(dec, m) && CompleteOrder(m.disk, order)
    && FirstRune(part) in m.disk
  }

  // No DEL of the document is pending.
  predicate Settled(m: Machine, part: string, id: string) {
    var hit := LatestHit(m.pending, part, id);
    hit.None? || !hit.value.kind.DEL?
  }

  lemma TextRuns(dec: Decoder, m: Machine, entry: LogEntry, order: seq<char>, cmd: Command)
    requires Serves(dec, m, order, cmd.part) && !HitsDelete(m.pending, cmd)
    requires IsTextOf(dec, entry.cmd, cmd) && IsWrite(cmd.kind)
    ensures Gives(dec, m, entry, order, Code(ViewOf(dec, m), cmd).value, Execute(ViewOf(dec, m), cmd))
  {
    ParseExact(dec, entry.cmd, cmd);
    BatchIsWellFormed(dec, [entry]);
    var e := EntryOf(dec, entry);
    assert BatchOf(dec, [entry]) == [e];
    assert e in [e];
    OneEntryRuns(dec, m, e, order);
  }

  lemma CreatePartText(dec: Decoder, m: Machine, p: string, index: uint64, result: nat, order: seq<char>)
    requires Serves(dec, m, order, p) && Word(p)
    ensures var st := ViewOf(dec, m); var entry := LogEntry("CREATE_PART " + p, index, result);
      if p in st then Gives(dec, m, entry, order, 409, st)
      else Gives(dec, m, entry, order, 200, st[p := map[]])
  {
    var raw := "CREATE_PART " + p;
    TextRuns(dec, m, LogEntry(raw, index, result), order, Command(CREATE_PART, p, "", 0, NO_DOC, "", "", raw, true));
  }

  lemma DeletePartText(dec: Decoder, m: Machine, p: string, index: uint64, result: nat, order: seq<char>)
    requires Serves(dec, m, order, p) && Word(p)
    ensures var st := ViewOf(dec, m); var entry := LogEntry("DELETE_PART " + p, index, result);
      if p in st then Gives(dec, m, entry, order, 200, st - {p})
      else Gives(dec, m, entry, order, 404, st)
  {
    var raw := "DELETE_PART " + p;
    TextRuns(dec, m, LogEntry(raw, index, result), order, Command(DELETE_PART, p, "", 0, NO_DOC, "", "", raw, true));
  }

  lemma PostText(dec: Decoder, m: Machine, t: string, doc: Document, index: uint64, result: nat, order: seq<char>)
    requires Serves(dec, m, order, doc.part) && Settled(m, doc.part, doc.id)
    requires Braced(t) && dec(t) == Some(doc)
    ensures var st := ViewOf(dec, m); var entry := LogEntry("POST " + t, index, result);
      if doc.part !in st then Gives(dec, m, entry, order, 404, st)
      else if doc.id in st[doc.part] then Gives(dec, m, entry, order, 409, st)
      else Gives(dec, m, entry, order, 200, st[doc.part := st[doc.part][doc.id := Stored(t, doc)]])
  {
    var raw := "POST " + t;
    TextRuns(dec, m, LogEntry(raw, index, result), order,
             Command(POST, doc.part, doc.id, doc.created, doc, t, "", raw, false));
  }

  lemma PutText(dec: Decoder, m: Machine, d: string, ts: int, t: string, doc: Document,
                index: uint64, result: nat, order: seq<char>)
    requires Serves(dec, m, order, doc.part) && Settled(m, doc.part, doc.id)
    requires Stamp(d, ts) && Braced(t) && dec(t) == Some(doc)
    ensures var st := ViewOf(dec, m); var entry := LogEntry("PUT " + (d + " " + t), index, result);
      if doc.part !in st || doc.id !in st[doc.part] then Gives(dec, m, entry, order, 404, st)
      else if st[doc.part][doc.id].doc.updated != ts then Gives(dec, m, entry, order, 409, st)
      else Gives(dec, m, entry, order, 200, st[doc.part := st[doc.part][doc.id := Stored(t, doc)]])
  {
    var raw := "PUT " + (d + " " + t);
    TextRuns(dec, m, LogEntry(raw, index, result), order, Command(PUT, doc.part, doc.id, ts, doc, t, "", raw, false));
  }

  lemma DelText(dec: Decoder, m: Machine, p: string, i: string, d: string, ts: int,
                index: uint64, result: nat, order: seq<char>)
    requires Serves(dec, m, order, p) && Settled(m, p, i)
    requires Word(p) && Word(i) && Stamp(d, ts)
    ensures var st := ViewOf(dec, m); var entry := LogEntry("DEL " + (p + " " + (i + " " + d)), index, result);
      if p !in st || i !in st[p] then Gives(dec, m, entry, order, 404, st)
      else if st[p][i].doc.updated != ts then Gives(dec, m, entry, order, 409, st)
      else Gives(dec, m, entry, order, 200, st[p := st[p] - {i}])
  {
    var raw := "DEL " + (p + " " + (i + " " + d));
    TextRuns(dec, m, LogEntry(raw, index, result), order, Command(DEL, p, i, ts, NO_DOC, "", "", raw, false));
  }

  // A GET answers the stored text or 404, unless it resurrects the document.
  lemma GetText(dec: Decoder, m: Machine, p: string, i: string, order: seq<char>)
    requires Serves(dec, m, order, p) && Word(p) && Word(i) && !Resurrected(dec, m.disk, m.pending, p, i)
    ensures var st := ViewOf(dec, m); var parsed := ParseCommand(dec, "GET " + (p + " " + i));
      && parsed.Ok? && parsed.value.kind == GET
      && Get(m.disk, m.pending, parsed.value.part, parsed.value.id) ==
           if p in st && i in st[p] then Success(st[p][i].text) else NotFound
  {
    var raw := "GET " + (p + " " + i);
    ParseExact(dec, raw, Command(GET, p, i, 0, NO_DOC, "", "", raw, false));
    GetExact(dec, m.disk, m.pending, p, i);
  }
}
