// The text form of commands: nine formats, tried in the order of a table.
module CommandParser {
  import opened Basics
  import opened Commands
  import opened ReplayIndex

  // ---------------------------------------------------------------- the character classes

  // What \s matches.
  predicate IsSpace(c: char) {
    c == ' ' || c == '\t' || c == '\n' || c == '\r' || c == '\U{000C}'
  }

  // (\S+)
  predicate IsWord(s: string) {
    s != "" && forall c :: c in s ==> !IsSpace(c)
  }

  // (.+)
  predicate IsLine(s: string) {
    s != "" && '\n' !in s
  }

  // ({.*})
  predicate IsBraced(s: string) {
    |s| >= 2 && s[0] == '{' && s[|s| - 1] == '}' && '\n' !in s
  }

  // ---------------------------------------------------------------- the formats

  const FORMATS: seq<Kind> :=
    [GET, DEL, PUT, POST, SEARCH, CREATE_PART, DELETE_PART, JOIN_NODE, REMOVE_NODE]

  function Prefix(k: Kind): (s: string) {
    match k
    case GET => "GET"
    case DEL => "DEL"
    case PUT => "PUT"
    case POST => "POST"
    case SEARCH => "SEARCH"
    case CREATE_PART => "CREATE_PART"
    case DELETE_PART => "DELETE_PART"
    case JOIN_NODE => "JOIN_NODE"
    case REMOVE_NODE => "REMOVE_NODE"
  }

  predicate Test(k: Kind, raw: string) {
    Prefix(k) + " " <= raw
  }

  function Blank(k: Kind, raw: string): (cmd: Command) {
    Command(k, "", "", 0, EMPTY_DOCUMENT, "", "", raw, false)
  }

  // The position of the first space, the length when there is none.
  function SpaceAt(s: string): (i: nat)
    ensures i <= |s|
    ensures ' ' !in s[..i]
    ensures i < |s| ==> s[i] == ' '
  {
    if s == "" then 0
    else if s[0] == ' ' then 0
    else
      assert forall i :: 0 <= i <= |s| - 1 ==> s[..i + 1] == [s[0]] + s[1..][..i];
      1 + SpaceAt(s[1..])
  }

  const BAD_FORMAT := "invalid format for command"

  function TwoWords(s: string): (r: Option<(string, string)>) {
    var i := SpaceAt(s);
    if i < |s| && IsWord(s[..i]) && IsWord(s[i + 1..]) then Some((s[..i], s[i + 1..])) else None
  }

  function ParseDel(raw: string, rest: string): (r: Result<Command>) {
    var i := SpaceAt(rest);
    if i == |rest| || !IsWord(rest[..i]) then Err(BAD_FORMAT)
    else
      var tail := rest[i + 1..];
      var j := SpaceAt(tail);
      if j == |tail| || !IsWord(tail[..j]) || !IsNumeral(tail[j + 1..]) then Err(BAD_FORMAT)
      else match ParseBelow(tail[j + 1..], INT64_LIMIT)
        case None => Err("value out of range")
        case Some(ts) => Ok(Blank(DEL, raw).(part := rest[..i], id := tail[..j], ts := ts))
  }

  function ParsePut(dec: Decoder, raw: string, rest: string): (r: Result<Command>) {
    var i := SpaceAt(rest);
    if i == |rest| || !IsNumeral(rest[..i]) || !IsBraced(rest[i + 1..]) then Err(BAD_FORMAT)
    else
      var text := rest[i + 1..];
      match dec(text)
      case None => Err("document does not decode")
      case Some(doc) =>
        match ParseBelow(rest[..i], INT64_LIMIT)
        case None => Err("value out of range")
        case Some(ts) => Ok(Blank(PUT, raw).(part := doc.part, id := doc.id, ts := ts, doc := doc, text := text))
  }

  function ParsePost(dec: Decoder, raw: string, rest: string): (r: Result<Command>) {
    if !IsBraced(rest) then Err(BAD_FORMAT)
    else match dec(rest)
      case None => Err("document does not decode")
      case Some(doc) =>
        Ok(Blank(POST, raw).(part := doc.part, id := doc.id, ts := doc.created, doc := doc, text := rest))
  }

  function ParseSearch(raw: string, rest: string): (r: Result<Command>) {
    var i := SpaceAt(rest);
    if i == |rest| || !IsWord(rest[..i]) || !IsLine(rest[i + 1..]) then Err(BAD_FORMAT)
    else Ok(Blank(SEARCH, raw).(part := rest[..i], query := rest[i + 1..]))
  }

  // Matching the format's pattern and filling in a fresh command.
  function RunFormat(dec: Decoder, k: Kind, raw: string): (r: Result<Command>)
    requires Test(k, raw)
  {
    var rest := raw[|Prefix(k)| + 1..];
    match k
    case GET =>
      (match TwoWords(rest)
       case None => Err(BAD_FORMAT)
       case Some((part, id)) => Ok(Blank(GET, raw).(part := part, id := id)))
    case DEL => ParseDel(raw, rest)
    case PUT => ParsePut(dec, raw, rest)
    case POST => ParsePost(dec, raw, rest)
    case SEARCH => ParseSearch(raw, rest)
    case CREATE_PART | DELETE_PART =>
      if IsWord(rest) then Ok(Blank(k, raw).(part := rest, isPart := true)) else Err(BAD_FORMAT)
    case JOIN_NODE => if IsWord(rest) then Ok(Blank(k, raw).(id := rest)) else Err(BAD_FORMAT)
    case REMOVE_NODE => if IsNumeral(rest) then Ok(Blank(k, raw).(id := rest)) else Err(BAD_FORMAT)
  }

  function ParseWith(dec: Decoder, table: seq<Kind>, raw: string): (r: Result<Command>) {
    if table == [] then Err("unknown command")
    else if Test(table[0], raw) then RunFormat(dec, table[0], raw)
    else ParseWith(dec, table[1..], raw)
  }

  function ParseCommand(dec: Decoder, raw: string): (r: Result<Command>) {
    ParseWith(dec, FORMATS, raw)
  }

  // ---------------------------------------------------------------- one format at most

  lemma PrefixHasNoSpace(k: Kind)
    ensures ' ' !in Prefix(k)
  {
  }

  lemma PrefixDetermines(k1: Kind, k2: Kind)
    requires Prefix(k1) == Prefix(k2)
    ensures k1 == k2
  {
    var p := Prefix(k1);
    if |p| == 3 {
      assert p[0] == 'G' || p[0] == 'D' || p[0] == 'P';
    } else if |p| == 11 {
      assert p[0] == 'C' || p[0] == 'D' || p[0] == 'R';
    }
  }

  lemma FirstSpaceOf(a: string, b: string)
    requires ' ' !in a
    ensures SpaceAt(a + " " + b) == |a|
  {
    var s := a + " " + b;
    var i := SpaceAt(s);
    assert s[|a|] == ' ';
    assert forall k :: 0 <= k < |a| ==> s[k] == a[k] && a[k] in a;
    assert forall k :: 0 <= k < i ==> s[k] == s[..i][k];
  }

  // No string tests true for two formats.
  lemma AtMostOneFormat(k1: Kind, k2: Kind, raw: string)
    requires Test(k1, raw) && Test(k2, raw)
    ensures k1 == k2
  {
    var p1, p2 := Prefix(k1), Prefix(k2);
    PrefixHasNoSpace(k1);
    PrefixHasNoSpace(k2);
    assert raw == p1 + " " + raw[|p1| + 1..];
    assert raw == p2 + " " + raw[|p2| + 1..];
    FirstSpaceOf(p1, raw[|p1| + 1..]);
    FirstSpaceOf(p2, raw[|p2| + 1..]);
    assert p1 == raw[..|p1|] == p2;
    PrefixDetermines(k1, k2);
  }

  // Whatever the order of the table, the one format that tests true decides.
  lemma {:induction false} TableDecides(dec: Decoder, table: seq<Kind>, raw: string, k: Kind)
    requires Test(k, raw) && k in table
    ensures ParseWith(dec, table, raw) == RunFormat(dec, k, raw)
  {
    if Test(table[0], raw) {
      AtMostOneFormat(table[0], k, raw);
    } else {
      TableDecides(dec, table[1..], raw, k);
    }
  }

  lemma {:induction false} NoFormat(dec: Decoder, table: seq<Kind>, raw: string)
    requires forall k :: k in table ==> !Test(k, raw)
    ensures ParseWith(dec, table, raw) == Err("unknown command")
  {
    if table != [] {
      NoFormat(dec, table[1..], raw);
    }
  }

  lemma AllFormats(k: Kind)
    ensures k in FORMATS
  {
    match k
    case GET => assert FORMATS[0] == k;
    case DEL => assert FORMATS[1] == k;
    case PUT => assert FORMATS[2] == k;
    case POST => assert FORMATS[3] == k;
    case SEARCH => assert FORMATS[4] == k;
    case CREATE_PART => assert FORMATS[5] == k;
    case DELETE_PART => assert FORMATS[6] == k;
    case JOIN_NODE => assert FORMATS[7] == k;
    case REMOVE_NODE => assert FORMATS[8] == k;
  }

  // Any table of the same formats, in any order, parses every string alike.
  lemma TableOrderIrrelevant(dec: Decoder, table: seq<Kind>, raw: string)
    requires forall k :: k in table <==> k in FORMATS
    ensures ParseWith(dec, table, raw) == ParseCommand(dec, raw)
  {
    if k :| k in FORMATS && Test(k, raw) {
      TableDecides(dec, FORMATS, raw, k);
      TableDecides(dec, table, raw, k);
    } else {
      NoFormat(dec, FORMATS, raw);
      NoFormat(dec, table, raw);
    }
  }

  // ---------------------------------------------------------------- the grammar

  // The text after the prefix, given as the pattern writes it.
  ghost predicate InBody(dec: Decoder, cmd: Command, rest: string) {
    match cmd.kind
    case GET =>
      IsWord(cmd.part) && IsWord(cmd.id) && rest == cmd.part + " " + cmd.id
      && cmd == Blank(GET, cmd.raw).(part := cmd.part, id := cmd.id)
    case DEL =>
      IsWord(cmd.part) && IsWord(cmd.id)
      && (exists digits :: IsTimestamp(digits, cmd.ts) && rest == cmd.part + " " + (cmd.id + " " + digits))
      && cmd == Blank(DEL, cmd.raw).(part := cmd.part, id := cmd.id, ts := cmd.ts)
    case PUT =>
      IsBraced(cmd.text) && dec(cmd.text) == Some(cmd.doc)
      && (exists digits :: IsTimestamp(digits, cmd.ts) && rest == digits + " " + cmd.text)
      && cmd == Blank(PUT, cmd.raw).(
           part := cmd.doc.part, id := cmd.doc.id, ts := cmd.ts, doc := cmd.doc, text := cmd.text)
    case POST =>
      IsBraced(cmd.text) && dec(cmd.text) == Some(cmd.doc) && rest == cmd.text
      && cmd == Blank(POST, cmd.raw).(
           part := cmd.doc.part, id := cmd.doc.id, ts := cmd.doc.created, doc := cmd.doc, text := cmd.text)
    case SEARCH =>
      IsWord(cmd.part) && IsLine(cmd.query) && rest == cmd.part + " " + cmd.query
      && cmd == Blank(SEARCH, cmd.raw).(part := cmd.part, query := cmd.query)
    case CREATE_PART | DELETE_PART =>
      IsWord(cmd.part) && rest == cmd.part && cmd == Blank(cmd.kind, cmd.raw).(part := cmd.part, isPart := true)
    case JOIN_NODE => IsWord(cmd.id) && rest == cmd.id && cmd == Blank(cmd.kind, cmd.raw).(id := cmd.id)
    case REMOVE_NODE => IsNumeral(cmd.id) && rest == cmd.id && cmd == Blank(cmd.kind, cmd.raw).(id := cmd.id)
  }

  predicate IsTimestamp(digits: string, ts: int) {
    IsNumeral(digits) && Value(digits) == ts && ts < INT64_LIMIT
  }

  ghost predicate InGrammar(dec: Decoder, raw: string, cmd: Command) {
    cmd.raw == raw && exists rest :: raw == Prefix(cmd.kind) + " " + rest && InBody(dec, cmd, rest)
  }

  lemma SplitAt(s: string, i: nat)
    requires i < |s| && s[i] == ' '
    ensures s == s[..i] + " " + s[i + 1..]
  {
  }

  lemma SplitAtSpace(s: string)
    requires SpaceAt(s) < |s|
    ensures s == s[..SpaceAt(s)] + " " + s[SpaceAt(s) + 1..]
  {
    SplitAt(s, SpaceAt(s));
  }

  lemma NumeralHasNoSpace(s: string)
    requires IsNumeral(s)
    ensures ' ' !in s
  {
  }

  lemma WordHasNoSpace(s: string)
    requires IsWord(s)
    ensures ' ' !in s
  {
  }

  lemma DelSound(dec: Decoder, raw: string, rest: string, cmd: Command)
    requires ParseDel(raw, rest) == Ok(cmd)
    ensures cmd.kind.DEL? && cmd.raw == raw && InBody(dec, cmd, rest)
  {
    var tail := rest[SpaceAt(rest) + 1..];
    SplitAtSpace(rest);
    SplitAtSpace(tail);
    assert IsTimestamp(tail[SpaceAt(tail) + 1..], cmd.ts);
  }

  lemma DelComplete(dec: Decoder, raw: string, rest: string, cmd: Command)
    requires cmd.kind.DEL? && cmd.raw == raw && InBody(dec, cmd, rest)
    ensures ParseDel(raw, rest) == Ok(cmd)
  {
    var digits :| IsTimestamp(digits, cmd.ts) && rest == cmd.part + " " + (cmd.id + " " + digits);
    var tail := cmd.id + " " + digits;
    WordHasNoSpace(cmd.part);
    WordHasNoSpace(cmd.id);
    SplitBack(cmd.part, tail);
    SplitBack(cmd.id, digits);
    assert SpaceAt(rest) == |cmd.part| && rest[|cmd.part| + 1..] == tail;
  }

  lemma PutSound(dec: Decoder, raw: string, rest: string, cmd: Command)
    requires ParsePut(dec, raw, rest) == Ok(cmd)
    ensures cmd.kind.PUT? && cmd.raw == raw && InBody(dec, cmd, rest)
  {
    SplitAtSpace(rest);
    assert IsTimestamp(rest[..SpaceAt(rest)], cmd.ts);
  }

  lemma PutComplete(dec: Decoder, raw: string, rest: string, cmd: Command)
    requires cmd.kind.PUT? && cmd.raw == raw && InBody(dec, cmd, rest)
    ensures ParsePut(dec, raw, rest) == Ok(cmd)
  {
    var digits :| IsTimestamp(digits, cmd.ts) && rest == digits + " " + cmd.text;
    NumeralHasNoSpace(digits);
    SplitBack(digits, cmd.text);
  }

  // Splitting at the first space undoes the gluing.
  lemma SplitBack(a: string, b: string)
    requires ' ' !in a
    ensures var s := a + " " + b; SpaceAt(s) == |a| && s[..|a|] == a && s[|a| + 1..] == b
  {
    FirstSpaceOf(a, b);
  }

  lemma SearchFormatExact(dec: Decoder, raw: string, rest: string, cmd: Command)
    requires cmd.kind.SEARCH? && cmd.raw == raw
    ensures ParseSearch(raw, rest) == Ok(cmd) <==> InBody(dec, cmd, rest)
  {
    if ParseSearch(raw, rest) == Ok(cmd) {
      SplitAtSpace(rest);
    }
    if InBody(dec, cmd, rest) {
      FirstSpaceOf(cmd.part, cmd.query);
      assert rest[..|cmd.part|] == cmd.part && rest[|cmd.part| + 1..] == cmd.query;
    }
  }

  lemma TwoWordsExact(s: string, a: string, b: string)
    ensures TwoWords(s) == Some((a, b)) <==> IsWord(a) && IsWord(b) && s == a + " " + b
  {
    if TwoWords(s) == Some((a, b)) {
      SplitAtSpace(s);
    }
    if IsWord(a) && IsWord(b) && s == a + " " + b {
      FirstSpaceOf(a, b);
      assert s[..|a|] == a && s[|a| + 1..] == b;
    }
  }

  lemma RunExact(dec: Decoder, k: Kind, raw: string, cmd: Command)
    requires Test(k, raw) && cmd.kind == k && cmd.raw == raw
    ensures RunFormat(dec, k, raw) == Ok(cmd) <==> InBody(dec, cmd, raw[|Prefix(k)| + 1..])
  {
    var rest := raw[|Prefix(k)| + 1..];
    match k
    case GET => TwoWordsExact(rest, cmd.part, cmd.id);
    case DEL =>
      if ParseDel(raw, rest) == Ok(cmd) {
        DelSound(dec, raw, rest, cmd);
      }
      if InBody(dec, cmd, rest) {
        DelComplete(dec, raw, rest, cmd);
      }
    case PUT =>
      if ParsePut(dec, raw, rest) == Ok(cmd) {
        PutSound(dec, raw, rest, cmd);
      }
      if InBody(dec, cmd, rest) {
        PutComplete(dec, raw, rest, cmd);
      }
    case SEARCH => SearchFormatExact(dec, raw, rest, cmd);
    case _ =>
  }

  lemma RunKeepsKind(dec: Decoder, k: Kind, raw: string)
    requires Test(k, raw) && RunFormat(dec, k, raw).Ok?
    ensures RunFormat(dec, k, raw).value.kind == k && RunFormat(dec, k, raw).value.raw == raw
  {
  }

  lemma PrefixAndRest(k: Kind, raw: string, rest: string)
    ensures raw == Prefix(k) + " " + rest <==> Test(k, raw) && rest == raw[|Prefix(k)| + 1..]
  {
  }

  lemma ParseSound(dec: Decoder, raw: string, cmd: Command)
    requires ParseCommand(dec, raw) == Ok(cmd)
    ensures InGrammar(dec, raw, cmd)
  {
    if k :| k in FORMATS && Test(k, raw) {
      TableDecides(dec, FORMATS, raw, k);
      RunKeepsKind(dec, k, raw);
      RunExact(dec, k, raw, cmd);
      PrefixAndRest(k, raw, raw[|Prefix(k)| + 1..]);
    } else {
      NoFormat(dec, FORMATS, raw);
    }
  }

  lemma ParseComplete(dec: Decoder, raw: string, cmd: Command)
    requires InGrammar(dec, raw, cmd)
    ensures ParseCommand(dec, raw) == Ok(cmd)
  {
    var rest :| raw == Prefix(cmd.kind) + " " + rest && InBody(dec, cmd, rest);
    PrefixAndRest(cmd.kind, raw, rest);
    AllFormats(cmd.kind);
    TableDecides(dec, FORMATS, raw, cmd.kind);
    RunExact(dec, cmd.kind, raw, cmd);
  }

  // Parsing succeeds with a command exactly when the text is that command's as the patterns write it.
  lemma PatternExact(dec: Decoder, raw: string, cmd: Command)
    ensures ParseCommand(dec, raw) == Ok(cmd) <==> InGrammar(dec, raw, cmd)
  {
    if ParseCommand(dec, raw) == Ok(cmd) {
      ParseSound(dec, raw, cmd);
    }
    if InGrammar(dec, raw, cmd) {
      ParseComplete(dec, raw, cmd);
    }
  }

  // ---------------------------------------------------------------- printing

  // A timestamp as Go prints it.
  function Signed(ts: int): (s: string) {
    if ts < 0 then "-" + Decimal(-ts) else Decimal(ts)
  }

  // The documented text of a command.
  function Print(cmd: Command): (raw: string) {
    PrintWith(cmd, Signed(cmd.ts))
  }

  // The same with the timestamp, where there is one, written as given.
  function PrintWith(cmd: Command, digits: string): (raw: string) {
    match cmd.kind
    case GET => "GET " + (cmd.part + " " + cmd.id)
    case DEL => "DEL " + (cmd.part + " " + (cmd.id + " " + digits))
    case PUT => "PUT " + (digits + " " + cmd.text)
    case POST => "POST " + cmd.text
    case SEARCH => "SEARCH " + (cmd.part + " " + cmd.query)
    case CREATE_PART => "CREATE_PART " + cmd.part
    case DELETE_PART => "DELETE_PART " + cmd.part
    case JOIN_NODE => "JOIN_NODE " + cmd.id
    case REMOVE_NODE => "REMOVE_NODE " + cmd.id
  }

  // What follows the prefix.
  function Body(cmd: Command, digits: string): (rest: string) {
    match cmd.kind
    case GET => cmd.part + " " + cmd.id
    case DEL => cmd.part + " " + (cmd.id + " " + digits)
    case PUT => digits + " " + cmd.text
    case POST => cmd.text
    case SEARCH => cmd.part + " " + cmd.query
    case CREATE_PART | DELETE_PART => cmd.part
    case JOIN_NODE | REMOVE_NODE => cmd.id
  }

  lemma PrintedBody(cmd: Command, digits: string)
    ensures PrintWith(cmd, digits) == Prefix(cmd.kind) + " " + Body(cmd, digits)
  {
  }

  // The fields can be printed: words where the patterns want words, and so on.
  predicate Printable(dec: Decoder, cmd: Command) {
    match cmd.kind
    case GET => IsWord(cmd.part) && IsWord(cmd.id)
    case DEL => IsWord(cmd.part) && IsWord(cmd.id)
    case PUT => IsBraced(cmd.text) && dec(cmd.text) == Some(cmd.doc)
    case POST => IsBraced(cmd.text) && dec(cmd.text) == Some(cmd.doc)
    case SEARCH => IsWord(cmd.part) && IsLine(cmd.query)
    case CREATE_PART | DELETE_PART => IsWord(cmd.part)
    case JOIN_NODE => IsWord(cmd.id)
    case REMOVE_NODE => IsNumeral(cmd.id)
  }

  // What a parsed command has besides its own fields.
  function Refill(cmd: Command, raw: string): (r: Command) {
    match cmd.kind
    case GET => Blank(GET, raw).(part := cmd.part, id := cmd.id)
    case DEL => Blank(DEL, raw).(part := cmd.part, id := cmd.id, ts := cmd.ts)
    case PUT => Blank(PUT, raw).(part := cmd.doc.part, id := cmd.doc.id, ts := cmd.ts, doc := cmd.doc, text := cmd.text)
    case POST =>
      Blank(POST, raw).(part := cmd.doc.part, id := cmd.doc.id, ts := cmd.doc.created, doc := cmd.doc, text := cmd.text)
    case SEARCH => Blank(SEARCH, raw).(part := cmd.part, query := cmd.query)
    case CREATE_PART | DELETE_PART => Blank(cmd.kind, raw).(part := cmd.part, isPart := true)
    case JOIN_NODE | REMOVE_NODE => Blank(cmd.kind, raw).(id := cmd.id)
  }

  predicate CarriesTimestamp(k: Kind) {
    k.DEL? || k.PUT?
  }

  lemma SignedIsTimestamp(ts: int)
    ensures IsNumeral(Signed(ts)) <==> 0 <= ts
    ensures 0 <= ts ==> Value(Signed(ts)) == ts
  {
    if 0 <= ts {
      DecimalRoundTrip(ts);
    } else {
      assert Signed(ts)[0] == '-' && !IsDigit('-');
      assert Signed(ts)[0] in Signed(ts);
    }
  }

  // Printing then parsing recovers the fields.
  lemma RoundTrip(dec: Decoder, cmd: Command)
    requires Printable(dec, cmd) && (CarriesTimestamp(cmd.kind) ==> 0 <= cmd.ts < 0x8000_0000_0000_0000)
    ensures ParseCommand(dec, Print(cmd)) == Ok(Refill(cmd, Print(cmd)))
  {
    var raw := Print(cmd);
    var r, rest := Refill(cmd, raw), Body(cmd, Signed(cmd.ts));
    PrintedBody(cmd, Signed(cmd.ts));
    if CarriesTimestamp(cmd.kind) {
      SignedIsTimestamp(cmd.ts);
      assert IsTimestamp(Signed(cmd.ts), cmd.ts);
    }
    assert InBody(dec, r, rest);
    PatternExact(dec, raw, r);
  }

  lemma SplitUnique(a: string, b: string, a': string, b': string)
    requires ' ' !in a && ' ' !in a' && a + " " + b == a' + " " + b'
    ensures a == a' && b == b'
  {
    FirstSpaceOf(a, b);
    FirstSpaceOf(a', b');
    assert a == (a + " " + b)[..|a|] && a' == (a' + " " + b')[..|a'|];
    assert b == (a + " " + b)[|a| + 1..] && b' == (a' + " " + b')[|a'| + 1..];
  }

  lemma SplitPrinted(dec: Decoder, cmd: Command, got: Command, rest: string)
    requires CarriesTimestamp(cmd.kind) && Printable(dec, cmd)
    requires Print(cmd) == Prefix(got.kind) + " " + rest && InBody(dec, got, rest)
    ensures IsTimestamp(Signed(cmd.ts), got.ts)
  {
    var body := Body(cmd, Signed(cmd.ts));
    PrintedBody(cmd, Signed(cmd.ts));
    PrefixHasNoSpace(got.kind);
    PrefixHasNoSpace(cmd.kind);
    SplitUnique(Prefix(cmd.kind), body, Prefix(got.kind), rest);
    PrefixDetermines(cmd.kind, got.kind);
    SignedHasNoSpace(cmd.ts);
    if cmd.kind.DEL? {
      var digits :| IsTimestamp(digits, got.ts) && rest == got.part + " " + (got.id + " " + digits);
      SplitUnique(cmd.part, cmd.id + " " + Signed(cmd.ts), got.part, got.id + " " + digits);
      SplitUnique(cmd.id, Signed(cmd.ts), got.id, digits);
    } else {
      var digits :| IsTimestamp(digits, got.ts) && rest == digits + " " + got.text;
      NumeralHasNoSpace(digits);
      SplitUnique(Signed(cmd.ts), cmd.text, digits, got.text);
    }
  }

  lemma SignedHasNoSpace(ts: int)
    ensures ' ' !in Signed(ts)
  {
    DecimalRoundTrip(if ts < 0 then -ts else ts);
    NumeralHasNoSpace(Decimal(if ts < 0 then -ts else ts));
  }

  // The patterns of DEL and PUT have no sign and the timestamps are int64: any other timestamp is
  // refused.
  lemma TimestampExact(dec: Decoder, cmd: Command)
    requires CarriesTimestamp(cmd.kind) && Printable(dec, cmd)
    ensures ParseCommand(dec, Print(cmd)).Ok? <==> 0 <= cmd.ts < 0x8000_0000_0000_0000
  {
    if 0 <= cmd.ts < INT64_LIMIT {
      RoundTrip(dec, cmd);
    } else if ParseCommand(dec, Print(cmd)).Ok? {
      var got := ParseCommand(dec, Print(cmd)).value;
      PatternExact(dec, Print(cmd), got);
      var rest :| Print(cmd) == Prefix(got.kind) + " " + rest && InBody(dec, got, rest);
      SplitPrinted(dec, cmd, got, rest);
      SignedIsTimestamp(cmd.ts);
      assert false;
    }
  }

  // A numeral without leading zeros.
  predicate Canonical(digits: string) {
    IsNumeral(digits) && (|digits| == 1 || digits[0] != '0')
  }

  lemma {:induction false} DecimalIsCanonical(n: nat)
    ensures Canonical(Decimal(n)) && (0 < n ==> Decimal(n)[0] != '0')
  {
    DecimalRoundTrip(n);
    if n >= 10 {
      DecimalIsCanonical(n / 10);
    }
  }

  lemma {:induction false} CanonicalIsDecimal(digits: string)
    requires Canonical(digits)
    ensures Decimal(Value(digits)) == digits && (digits[0] != '0' ==> 0 < Value(digits))
  {
    var d := Last(digits) as nat - '0' as nat;
    assert IsDigit(Last(digits));
    if |digits| == 1 {
      assert Front(digits) == "";
    } else {
      CanonicalIsDecimal(Front(digits));
      FrontLast(digits);
      assert Value(digits) / 10 == Value(Front(digits)) && Value(digits) % 10 == d;
    }
  }

  lemma PrintedOnce(cmd: Command, a: string, b: string)
    requires CarriesTimestamp(cmd.kind) && PrintWith(cmd, a) == PrintWith(cmd, b)
    ensures a == b
  {
    var n := 4 + if cmd.kind.DEL? then |cmd.part| + 1 + |cmd.id| + 1 else 0;
    assert |PrintWith(cmd, a)| == |PrintWith(cmd, b)|;
    assert |a| == |b|;
    assert a == PrintWith(cmd, a)[n..n + |a|] && b == PrintWith(cmd, b)[n..n + |b|];
  }

  // Parsing then printing gives the text back, exactly but for leading zeros of a timestamp.
  lemma ParsedTextIsPrinted(dec: Decoder, raw: string, cmd: Command)
    requires ParseCommand(dec, raw) == Ok(cmd)
    ensures !CarriesTimestamp(cmd.kind) ==> Print(cmd) == raw
    ensures CarriesTimestamp(cmd.kind) ==>
              exists digits ::
                && IsTimestamp(digits, cmd.ts) && raw == PrintWith(cmd, digits)
                && (Print(cmd) == raw <==> Canonical(digits))
  {
    PatternExact(dec, raw, cmd);
    var rest :| raw == Prefix(cmd.kind) + " " + rest && InBody(dec, cmd, rest);
    if !CarriesTimestamp(cmd.kind) {
      assert rest == Body(cmd, "");
      PrintedBody(cmd, Signed(cmd.ts));
    } else {
      var digits :| IsTimestamp(digits, cmd.ts) && rest == Body(cmd, digits);
      PrintedBody(cmd, digits);
      if Print(cmd) == raw {
        PrintedOnce(cmd, Signed(cmd.ts), digits);
        DecimalIsCanonical(cmd.ts);
      }
      if Canonical(digits) {
        CanonicalIsDecimal(digits);
      }
    }
  }

  // What the rest of the model takes for granted of a command.
  lemma ParsedIsWellFormed(dec: Decoder, raw: string)
    requires ParseCommand(dec, raw).Ok?
    ensures var cmd := ParseCommand(dec, raw).value;
      WellFormed(dec, cmd) && (cmd.isPart ==> cmd.id == "") && (cmd.kind.DEL? ==> cmd.id != "" && 0 <= cmd.ts)
  {
    PatternExact(dec, raw, ParseCommand(dec, raw).value);
  }

  // ---------------------------------------------------------------- the nine texts

  // The documented forms written out, with nothing shared with the parser.

  predicate Word(s: string) {
    s != "" && forall c :: c in s ==> c != ' ' && c != '\t' && c != '\n' && c != '\r' && c != '\U{000C}'
  }

  predicate Line(s: string) {
    s != "" && '\n' !in s
  }

  ghost predicate Braced(s: string) {
    exists inner :: s == "{" + inner + "}" && '\n' !in inner
  }

  predicate Digits(s: string) {
    s != "" && forall k :: 0 <= k < |s| ==> '0' <= s[k] <= '9'
  }

  function Pow10(n: nat): (r: nat) {
    if n == 0 then 1 else 10 * Pow10(n - 1)
  }

  function Digit(c: char): (d: nat)
    requires '0' <= c <= '9'
  {
    c as nat - '0' as nat
  }

  // The number in positional notation, digit by digit from the front.
  function Number(s: string): (n: nat)
    requires forall k :: 0 <= k < |s| ==> '0' <= s[k] <= '9'
  {
    if s == "" then 0 else Digit(s[0]) * Pow10(|s| - 1) + Number(s[1..])
  }

  // A timestamp in the text: digits for a number an int64 can hold.
  predicate Stamp(s: string, ts: int) {
    Digits(s) && Number(s) == ts && ts < 9223372036854775808
  }

  const NO_DOC := Document("", "", 0, 0, "")

  // `raw` is the text of `cmd`.
  ghost predicate IsTextOf(dec: Decoder, raw: string, cmd: Command) {
    match cmd.kind
    case GET =>
      && Word(cmd.part) && Word(cmd.id)
      && raw == "GET " + (cmd.part + " " + cmd.id)
      && cmd == Command(GET, cmd.part, cmd.id, 0, NO_DOC, "", "", raw, false)
    case DEL =>
      && Word(cmd.part) && Word(cmd.id)
      && (exists d :: Stamp(d, cmd.ts) && raw == "DEL " + (cmd.part + " " + (cmd.id + " " + d)))
      && cmd == Command(DEL, cmd.part, cmd.id, cmd.ts, NO_DOC, "", "", raw, false)
    case PUT =>
      && Braced(cmd.text) && dec(cmd.text) == Some(cmd.doc)
      && (exists d :: Stamp(d, cmd.ts) && raw == "PUT " + (d + " " + cmd.text))
      && cmd == Command(PUT, cmd.doc.part, cmd.doc.id, cmd.ts, cmd.doc, cmd.text, "", raw, false)
    case POST =>
      && Braced(cmd.text) && dec(cmd.text) == Some(cmd.doc)
      && raw == "POST " + cmd.text
      && cmd == Command(POST, cmd.doc.part, cmd.doc.id, cmd.doc.created, cmd.doc, cmd.text, "", raw, false)
    case SEARCH =>
      && Word(cmd.part) && Line(cmd.query)
      && raw == "SEARCH " + (cmd.part + " " + cmd.query)
      && cmd == Command(SEARCH, cmd.part, "", 0, NO_DOC, "", cmd.query, raw, false)
    case CREATE_PART =>
      && Word(cmd.part) && raw == "CREATE_PART " + cmd.part
      && cmd == Command(CREATE_PART, cmd.part, "", 0, NO_DOC, "", "", raw, true)
    case DELETE_PART =>
      && Word(cmd.part) && raw == "DELETE_PART " + cmd.part
      && cmd == Command(DELETE_PART, cmd.part, "", 0, NO_DOC, "", "", raw, true)
    case JOIN_NODE =>
      && Word(cmd.id) && raw == "JOIN_NODE " + cmd.id
      && cmd == Command(JOIN_NODE, "", cmd.id, 0, NO_DOC, "", "", raw, false)
    case REMOVE_NODE =>
      && Digits(cmd.id) && raw == "REMOVE_NODE " + cmd.id
      && cmd == Command(REMOVE_NODE, "", cmd.id, 0, NO_DOC, "", "", raw, false)
  }

  lemma Shifted(x: nat, p: nat, n: nat, d: nat)
    ensures x * (10 * p) + (10 * n + d) == 10 * (x * p + n) + d
  {
  }

  lemma {:induction false} NumberSnoc(s: string, c: char)
    requires (forall k :: 0 <= k < |s| ==> '0' <= s[k] <= '9') && '0' <= c <= '9'
    ensures Number(s + [c]) == 10 * Number(s) + Digit(c)
  {
    if s == "" {
      assert (s + [c])[1..] == "" && Pow10(0) == 1;
    } else {
      assert (s + [c])[1..] == s[1..] + [c] && (s + [c])[0] == s[0];
      NumberSnoc(s[1..], c);
      assert Pow10(|s|) == 10 * Pow10(|s| - 1);
      Shifted(Digit(s[0]), Pow10(|s| - 1), Number(s[1..]), Digit(c));
    }
  }

  lemma {:induction false} NumberIsValue(s: string)
    requires (forall c :: c in s ==> IsDigit(c)) && forall k :: 0 <= k < |s| ==> '0' <= s[k] <= '9'
    ensures Number(s) == Value(s)
  {
    if s != "" {
      FrontLast(s);
      assert IsDigit(Last(s));
      NumberIsValue(Front(s));
      NumberSnoc(Front(s), Last(s));
    }
  }

  lemma BracedExact(s: string)
    ensures Braced(s) <==> IsBraced(s)
  {
    if IsBraced(s) {
      assert s == "{" + s[1..|s| - 1] + "}";
    }
    if inner :| s == "{" + inner + "}" && '\n' !in inner {
      assert forall c :: c in s ==> c == '{' || c == '}' || c in inner;
    }
  }

  lemma DigitsExact(s: string)
    ensures Digits(s) <==> IsNumeral(s)
  {
    if IsNumeral(s) {
      assert forall k :: 0 <= k < |s| ==> IsDigit(s[k]);
    }
  }

  lemma StampExact(s: string, ts: int)
    ensures Stamp(s, ts) <==> IsTimestamp(s, ts)
  {
    DigitsExact(s);
    if Digits(s) {
      assert forall c :: c in s ==> IsDigit(c);
      NumberIsValue(s);
    }
  }

  lemma TextBody(dec: Decoder, raw: string, cmd: Command, d: string)
    requires CarriesTimestamp(cmd.kind) ==> Stamp(d, cmd.ts)
    requires raw == PrintWith(cmd, d)
    ensures IsTextOf(dec, raw, cmd) <==> cmd.raw == raw && InBody(dec, cmd, Body(cmd, d))
  {
    BracedExact(cmd.text);
    DigitsExact(cmd.id);
    if CarriesTimestamp(cmd.kind) {
      StampExact(d, cmd.ts);
    }
  }

  lemma TextGiven(dec: Decoder, raw: string, cmd: Command)
    requires IsTextOf(dec, raw, cmd)
    ensures InGrammar(dec, raw, cmd)
  {
    var d := "";
    if cmd.kind.DEL? {
      d :| Stamp(d, cmd.ts) && raw == "DEL " + (cmd.part + " " + (cmd.id + " " + d));
    } else if cmd.kind.PUT? {
      d :| Stamp(d, cmd.ts) && raw == "PUT " + (d + " " + cmd.text);
    }
    PrintedBody(cmd, d);
    TextBody(dec, raw, cmd, d);
  }

  lemma TextFound(dec: Decoder, raw: string, cmd: Command)
    requires InGrammar(dec, raw, cmd)
    ensures IsTextOf(dec, raw, cmd)
  {
    var rest :| raw == Prefix(cmd.kind) + " " + rest && InBody(dec, cmd, rest);
    var d := "";
    if CarriesTimestamp(cmd.kind) {
      d :| IsTimestamp(d, cmd.ts) && rest == Body(cmd, d);
      StampExact(d, cmd.ts);
    }
    assert rest == Body(cmd, d);
    PrintedBody(cmd, d);
    TextBody(dec, raw, cmd, d);
  }

  // Parsing succeeds with a command exactly when the text is that command's in the documented form.
  lemma ParseExact(dec: Decoder, raw: string, cmd: Command)
    ensures ParseCommand(dec, raw) == Ok(cmd) <==> IsTextOf(dec, raw, cmd)
  {
    PatternExact(dec, raw, cmd);
    if InGrammar(dec, raw, cmd) {
      TextFound(dec, raw, cmd);
    }
    if IsTextOf(dec, raw, cmd) {
      TextGiven(dec, raw, cmd);
    }
  }
}
