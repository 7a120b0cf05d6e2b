// The reference: partitions of documents as one plain map, and a log executed on it entry by entry.
module PlainStore {
  import opened Basics
  import opened Commands

  datatype Stored = Stored(text: string, doc: Document)

  type Store = map<string, map<string, Stored>>

  // The effect of an accepted command. A document command of an absent partition has none.
  function Apply(st: Store, cmd: Command): (r: Store) {
    match cmd.kind
    case CREATE_PART => if cmd.part in st then st else st[cmd.part := map[]]
    case DELETE_PART => Without(st, cmd.part)
    case PUT | POST =>
      if cmd.part in st then st[cmd.part := st[cmd.part][cmd.id := Stored(cmd.text, cmd.doc)]] else st
    case DEL => if cmd.part in st then st[cmd.part := Without(st[cmd.part], cmd.id)] else st
    case _ => st
  }

  lemma ApplyWrites(st: Store, cmd: Command, docs: map<string, Stored>)
    requires cmd.part in st && st[cmd.part] == docs
    ensures cmd.kind.PUT? || cmd.kind.POST? ==>
              Apply(st, cmd) == st[cmd.part := docs[cmd.id := Stored(cmd.text, cmd.doc)]]
    ensures cmd.kind.DEL? ==> Apply(st, cmd) == st[cmd.part := Without(docs, cmd.id)]
  {
  }

  lemma ApplyToPart(st: Store, cmd: Command)
    ensures cmd.kind.CREATE_PART? && cmd.part !in st ==> Apply(st, cmd) == st[cmd.part := map[]]
    ensures cmd.kind.DELETE_PART? ==> Apply(st, cmd) == Without(st, cmd.part)
  {
  }

  predicate Holds(st: Store, part: string, id: string) {
    part in st && id in st[part]
  }

  // The code the plain map gives a command; None for the kinds that are not writes.
  function Code(st: Store, cmd: Command): (code: Option<nat>) {
    match cmd.kind
    case CREATE_PART => Some(if cmd.part in st then 409 else 200)
    case DELETE_PART => Some(if cmd.part in st then 200 else 404)
    case POST => Some(if cmd.part !in st then 404 else if cmd.id in st[cmd.part] then 409 else 200)
    case PUT | DEL =>
      Some(if !Holds(st, cmd.part, cmd.id) then 404
           else if st[cmd.part][cmd.id].doc.updated != cmd.ts then 409
           else 200)
    case _ => None
  }

  function Execute(st: Store, cmd: Command): (r: Store) {
    if Code(st, cmd) == Some(200) then Apply(st, cmd) else st
  }

  // The store after a log, one entry at a time.
  function ExecuteAll(st: Store, log: seq<Command>): (r: Store) {
    if log == [] then st else Execute(ExecuteAll(st, Front(log)), Last(log))
  }

  // The codes of a log, one entry at a time.
  function CodesOf(st: Store, log: seq<Command>): (codes: seq<Option<nat>>)
    ensures |codes| == |log|
  {
    if log == [] then [] else CodesOf(st, Front(log)) + [Code(ExecuteAll(st, Front(log)), Last(log))]
  }

  lemma {:induction false} ExecuteAllConcat(st: Store, a: seq<Command>, b: seq<Command>)
    ensures ExecuteAll(st, a + b) == ExecuteAll(ExecuteAll(st, a), b)
    ensures CodesOf(st, a + b) == CodesOf(st, a) + CodesOf(ExecuteAll(st, a), b)
  {
    if b == [] {
      assert a + b == a;
    } else {
      assert Front(a + b) == a + Front(b) && Last(a + b) == Last(b);
      ExecuteAllConcat(st, a, Front(b));
    }
  }

  // `codes` and `end` are what executing the log on the store gives.
  predicate Executes(st: Store, log: seq<Command>, codes: seq<Option<nat>>, end: Store) {
    codes == CodesOf(st, log) && end == ExecuteAll(st, log)
  }

  lemma ExecutesJoin(
    st: Store, a: seq<Command>, codesA: seq<Option<nat>>, mid: Store,
    b: seq<Command>, codesB: seq<Option<nat>>, end: Store)
    requires Executes(st, a, codesA, mid) && Executes(mid, b, codesB, end)
    ensures Executes(st, a + b, codesA + codesB, end)
  {
    ExecuteAllConcat(st, a, b);
  }

  lemma ExecutesOne(st: Store, cmd: Command)
    ensures Executes(st, [cmd], [Code(st, cmd)], Execute(st, cmd))
  {
    assert Front([cmd]) == [];
  }

  // The code of the entry at position k is its code on the store left by the entries before it.
  lemma {:induction false} CodeAt(st: Store, log: seq<Command>, k: nat)
    requires k < |log|
    ensures CodesOf(st, log)[k] == Code(ExecuteAll(st, log[..k]), log[k])
    ensures ExecuteAll(st, log[..k + 1]) == Execute(ExecuteAll(st, log[..k]), log[k])
  {
    assert Front(log[..k + 1]) == log[..k] && Last(log[..k + 1]) == log[k];
    if k < |log| - 1 {
      CodeAt(st, Front(log), k);
      assert Front(log)[..k] == log[..k];
    }
  }
}
