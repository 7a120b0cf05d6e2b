// The replay index: the decimal text Sync stores in the metadata file and Open reads back.
module ReplayIndex {
  import opened Basics
  import opened PendingQueue
  import opened ShardStore

  const META_BUCKET := "meta"
  const INDEX_KEY := "lastUpdateIndex"

  predicate IsDigit(c: char) {
    '0' <= c <= '9'
  }

  function DigitOf(d: nat): (c: char)
    requires d < 10
    ensures IsDigit(c) && c as nat - '0' as nat == d
  {
    (d + '0' as nat) as char
  }

  // fmt.Sprintf("%d", n)
  function Decimal(n: nat): (s: string) {
    if n < 10 then [DigitOf(n)] else Decimal(n / 10) + [DigitOf(n % 10)]
  }

  // The number a run of digits stands for.
  function Value(s: string): (n: nat)
    requires forall c :: c in s ==> IsDigit(c)
  {
    if s == [] then 0 else assert IsDigit(Last(s)); 10 * Value(Front(s)) + (Last(s) as nat - '0' as nat)
  }

  predicate IsNumeral(s: string) {
    s != "" && forall c :: c in s ==> IsDigit(c)
  }

  // strconv.ParseUint(s, 10, 64) and strconv.ParseInt(s, 10, 64) of a run of digits: an error when
  // there is no digit, another character, or a value out of range.
  function ParseBelow(s: string, limit: nat): (r: Option<nat>) {
    if IsNumeral(s) && Value(s) < limit then Some(Value(s)) else None
  }

  lemma {:induction false} DecimalRoundTrip(n: nat)
    ensures IsNumeral(Decimal(n)) && Value(Decimal(n)) == n
  {
    if n >= 10 {
      DecimalRoundTrip(n / 10);
      var s := Decimal(n);
      assert Front(s) == Decimal(n / 10) && Last(s) == DigitOf(n % 10);
    } else {
      var s := Decimal(n);
      assert Front(s) == "" && Last(s) == DigitOf(n);
      assert Value(Front(s)) == 0;
    }
  }

  // Every uint64, and no larger number, survives being printed and parsed.
  lemma PrintedIndexParses(n: nat)
    ensures ParseBelow(Decimal(n), UINT64_LIMIT) == if n < UINT64_LIMIT then Some(n) else None
  {
    DecimalRoundTrip(n);
  }

  // What Open reads: 0 when nothing has been stored, None when the stored text is not a uint64.
  function ReadIndex(meta: BoltDb): (r: Option<nat>) {
    var text := RawDocument(meta, META_BUCKET, INDEX_KEY);
    if text == "" then Some(0) else ParseBelow(text, UINT64_LIMIT)
  }

  function EnsureBucket(meta: BoltDb): (r: BoltDb) {
    if META_BUCKET in meta then meta else meta[META_BUCKET := map[]]
  }

  function WriteIndex(meta: BoltDb, n: nat): (r: BoltDb)
    requires META_BUCKET in meta
  {
    meta[META_BUCKET := meta[META_BUCKET][INDEX_KEY := Decimal(n)]]
  }

  // What Sync writes is what the next Open reads.
  lemma WrittenIndexIsRead(meta: BoltDb, n: nat)
    requires META_BUCKET in meta && n < UINT64_LIMIT
    ensures ReadIndex(EnsureBucket(WriteIndex(meta, n))) == Some(n)
  {
    PrintedIndexParses(n);
    DecimalRoundTrip(n);
  }

  // ---------------------------------------------------------------- the highest index

  function HighestIndex(q: Queue, last: uint64): (h: uint64) {
    if q == [] then last
    else
      var h := HighestIndex(Front(q), last);
      if Last(q).index > h then Last(q).index else h
  }

  lemma {:induction false} HighestIndexIsMaximum(q: Queue, last: uint64)
    ensures var h := HighestIndex(q, last);
      && last <= h
      && (forall e :: e in q ==> e.index <= h)
      && (h == last || exists e :: e in q && e.index == h)
  {
    if q != [] {
      HighestIndexIsMaximum(Front(q), last);
      FrontLast(q);
    }
  }
}
