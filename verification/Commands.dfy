// Documents, commands and the keys documents are stored under.
module Commands {
  import opened Basics

  // `rest` stands for the fields the state machine never looks at (index, categories, block).
  datatype Document = Document(id: string, part: string, updated: int, created: int, rest: string)

  const EMPTY_DOCUMENT := Document("", "", 0, 0, "")

  // JSON decoding is a parameter of the whole model: any partial function from text to documents.
  type Decoder = string -> Option<Document>

  datatype Kind = GET | PUT | DEL | POST | SEARCH | CREATE_PART | DELETE_PART | JOIN_NODE | REMOVE_NODE

  // `text` is both StringDoc and BytesDoc: the two hold the same bytes.
  datatype Command = Command(
    kind: Kind, part: string, id: string, ts: int,
    doc: Document, text: string, query: string, raw: string, isPart: bool)

  predicate IsPartKind(k: Kind) {
    k.CREATE_PART? || k.DELETE_PART?
  }

  predicate IsDocKind(k: Kind) {
    k.PUT? || k.POST? || k.DEL?
  }

  // The kinds `Update` can accept into the queue.
  predicate IsWrite(k: Kind) {
    IsPartKind(k) || IsDocKind(k)
  }

  // What every parsed command satisfies (proved of the parser in CommandParser.ParsedIsWellFormed).
  predicate WellFormed(dec: Decoder, cmd: Command) {
    && cmd.isPart == IsPartKind(cmd.kind)
    && (cmd.isPart ==> cmd.id == "")
    && (cmd.kind.DEL? ==> cmd.doc == EMPTY_DOCUMENT)
    && (cmd.kind.PUT? || cmd.kind.POST? ==>
          && cmd.text != ""
          && dec(cmd.text) == Some(cmd.doc)
          && cmd.doc.part == cmd.part
          && cmd.doc.id == cmd.id)
  }

  function FullId(part: string, id: string): (key: string) {
    part + ":" + id
  }

  // The first rune of a string, the zero rune when it is empty.
  function FirstRune(s: string): (c: char) {
    if s == "" then '\0' else s[0]
  }

  // Keys are unique inside one partition, whatever its name.
  lemma FullIdUniqueInPart(part: string, id1: string, id2: string)
    requires FullId(part, id1) == FullId(part, id2)
    ensures id1 == id2
  {
    assert FullId(part, id1)[|part| + 1..] == id1;
    assert FullId(part, id2)[|part| + 1..] == id2;
  }

  // Two partitions can share a document key.
  predicate Collide(p: string, q: string) {
    p + ":" <= q + ":" || q + ":" <= p + ":"
  }

  // Sharing a key is exactly one name, closed by a colon, being a prefix of the other.
  lemma CollideIffSharedKey(p: string, q: string)
    ensures Collide(p, q) <==> exists i, j :: FullId(p, i) == FullId(q, j)
  {
    if p + ":" <= q + ":" {
      var i := (q + ":")[|p| + 1..];
      assert FullId(p, i) == FullId(q, "");
    }
    if q + ":" <= p + ":" {
      var j := (p + ":")[|q| + 1..];
      assert FullId(p, "") == FullId(q, j);
    }
    if i, j :| FullId(p, i) == FullId(q, j) {
      var key := FullId(p, i);
      assert key[..|p| + 1] == p + ":";
      assert key[..|q| + 1] == q + ":";
      if |p| <= |q| {
        assert key[..|p| + 1] <= key[..|q| + 1];
      } else {
        assert key[..|q| + 1] <= key[..|p| + 1];
      }
    }
  }

  predicate ColonFree(s: string) {
    ':' !in s
  }

  // Colon-free names never collide.
  lemma ColonFreeNeverCollide(p: string, q: string)
    requires ColonFree(p) && ColonFree(q) && p != q
    ensures !Collide(p, q)
  {
    if |p| < |q| {
      assert (p + ":")[|p|] == ':' && (q + ":")[|p|] == q[|p|];
    } else if |q| < |p| {
      assert (q + ":")[|q|] == ':' && (p + ":")[|q|] == p[|q|];
    } else {
      assert p == (p + ":")[..|p|] && q == (q + ":")[..|q|];
    }
  }
}
