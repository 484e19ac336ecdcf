/** The text of the tape: how the byte stream falls into raw lines, and what one line says. Nothing
    here depends on how the stream is cut into chunks. */
module TapeLines {
  import opened Wrappers
  import opened ByteLines
  import opened CsvFields
  import opened SecondCounts

  const MAX_LINE := 4096
  const MAX_SYMBOLS := 100_000
  const MAX_NAME := 128
  const TWO_64 := 0x1_0000_0000_0000_0000

  // ---------------------------------------------------------------- numbers

  predicate Digit(c: char) { '0' <= c <= '9' }

  function Value(text: string): nat
    requires forall k :: 0 <= k < |text| ==> Digit(text[k])
  {
    if text == "" then 0
    else
      assert Digit(text[|text| - 1]);
      10 * Value(text[..|text| - 1]) + (text[|text| - 1] as int - '0' as int)
  }

  /** `from_chars` over the whole text into 64 bits: digits only, at least one, no overflow. */
  function Number(text: string): Option<nat> {
    if text != "" && (forall k :: 0 <= k < |text| ==> Digit(text[k])) && Value(text) < TWO_64 then Some(Value(text))
      else None
  }

  // ---------------------------------------------------------------- one line

  datatype Header = Header(width: nat, ticker: nat, sip: nat)

  /** A raw line without its carriage return, when it is neither empty nor too long. */
  function Clean(raw: string): Option<string> {
    var line := if raw != "" && raw[|raw| - 1] == '\r' then raw[..|raw| - 1] else raw;
    if line == "" || |line| > MAX_LINE then None else Some(line)
  }

  predicate Distinct(names: seq<string>) {
    forall i, j :: 0 <= i < j < |names| ==> names[i] != names[j]
  }

  const REQUIRED := ["ticker", "sip_timestamp", "price", "size", "conditions"]

  function IndexOf(names: seq<string>, name: string): (i: nat)
    requires name in names
    ensures i < |names| && names[i] == name
  {
    if names[0] == name then 0 else 1 + IndexOf(names[1..], name)
  }

  function ParseHeader(line: string): Option<Header> {
    match Parse(line)
    case None => None
    case Some(names) =>
      if Distinct(names) && forall k :: 0 <= k < |REQUIRED| ==> REQUIRED[k] in names then
        assert REQUIRED[0] in names && REQUIRED[1] in names;
        Some(Header(|names|, IndexOf(names, "ticker"), IndexOf(names, "sip_timestamp")))
      else None
  }

  /** One pair of enclosing quotes is taken off. */
  function Unquote(name: string): string {
    if |name| >= 2 && name[0] == '"' && name[|name| - 1] == '"' then name[1..|name| - 1] else name
  }

  predicate GoodName(name: string) {
    name != "" && |name| <= MAX_NAME && '"' !in name
  }

  function ParsePrint(h: Header, line: string): Option<Print> {
    match Parse(line)
    case None => None
    case Some(parts) =>
      if |parts| != h.width || h.ticker >= |parts| || h.sip >= |parts| then None
      else
        var name, stamp := Unquote(parts[h.ticker]), Number(parts[h.sip]);
        if !GoodName(name) || stamp.None? || stamp.value == 0 then None else Some(Print(name, stamp.value))
  }

  // ---------------------------------------------------------------- the tape

  /** What has been read: the header, once seen, and the prints in order. */
  datatype Tape = Tape(header: Option<Header>, prints: seq<Print>)

  const EMPTY_TAPE := Tape(None, [])

  function Names(prints: seq<Print>): set<string> {
    set p | p in prints :: p.name
  }

  function ReadLine(t: Tape, raw: string): Option<Tape> {
    match Clean(raw)
    case None => None
    case Some(line) =>
      match t.header
      case None =>
        var h := ParseHeader(line);
        if h.None? then None else Some(Tape(h, t.prints))
      case Some(h) =>
        var p := ParsePrint(h, line);
        if p.None? || (p.value.name !in Names(t.prints) && |Names(t.prints)| == MAX_SYMBOLS) then None
        else Some(Tape(t.header, t.prints + [p.value]))
  }

  function ReadLines(lines: seq<string>): Option<Tape> {
    if lines == [] then Some(EMPTY_TAPE)
    else
      var t := ReadLines(lines[..|lines| - 1]);
      if t.None? then None else ReadLine(t.value, lines[|lines| - 1])
  }

  /** The tape that a whole stream holds: its lines and a last one without a newline. */
  function ReadAll(bytes: string): Option<Tape> {
    var t := ReadLines(LinesOf(bytes));
    var t := if t.None? || Tail(bytes) == "" then t else ReadLine(t.value, Tail(bytes));
    if t.None? || t.value.header.None? then None else t
  }

  lemma {:induction false} ReadNextLine(lines: seq<string>, raw: string)
    ensures ReadLines(lines + [raw]) == (var t := ReadLines(lines); if t.None? then None else ReadLine(t.value, raw))
  {
    assert (lines + [raw])[..|lines|] == lines;
  }

  /** A stream that fails at some line fails whatever follows. */
  lemma {:induction false} FailureIsFinal(lines: seq<string>, n: nat)
    requires n <= |lines| && ReadLines(lines[..n]).None?
    ensures ReadLines(lines).None?
  {
    if n < |lines| {
      assert lines[..|lines| - 1][..n] == lines[..n];
      FailureIsFinal(lines[..|lines| - 1], n);
    } else {
      assert lines[..n] == lines;
    }
  }

  /** A complete line that cannot be read, at any point of the stream, fails the whole stream. */
  lemma {:induction false} PrefixFailureIsFinal(bytes: string, n: nat)
    requires n <= |bytes| && ReadLines(LinesOf(bytes[..n])).None?
    ensures ReadAll(bytes).None?
  {
    hide ReadLine;
    LinesGrow(bytes, n);
    FailureIsFinal(LinesOf(bytes), |LinesOf(bytes[..n])|);
  }
}
