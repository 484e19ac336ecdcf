/** The scanner of scripts/momwarn1_trade_second_counts.cpp: chunked reading with a carried partial
    line, one bitmap of seconds per symbol, a cached symbol, and a running count per second. */
module TapeScanner {
  import opened Wrappers
  import opened ByteLines
  import opened CsvFields
  import opened JsonText
  import opened SecondCounts
  import opened TapeLines

  const WORD := 64
  const MAX_SECONDS := 19_800

  /** A 64-bit word, as the set of its bits. */
  type Word = set<nat>

  predicate BitAt(bitmap: seq<Word>, second: nat) {
    second / WORD < |bitmap| && second % WORD in bitmap[second / WORD]
  }

  class Scanner {
    const window: Window
    const words: nat
    const counts: array<nat>
    var header: Option<Header>
    var symbols: map<string, seq<Word>>
    var previous: string
    var cached: bool
    var rows: nat
    var windowRows: nat
    var carry: string
    ghost var tape: Tape

    /** The state is that of the prints read so far. */
    ghost predicate Valid()
      reads `header, `symbols, `previous, `cached, `rows, `windowRows, `tape, counts
    {
      && Whole(window) && words == (Seconds(window) + WORD - 1) / WORD
      && counts[..] == Counts(tape.prints, window)
      && header == tape.header
      && Bitmaps(symbols, tape.prints, window, words)
      && (cached ==> previous in symbols)
      && rows == |tape.prints| && windowRows == InWindow(tape.prints, window)
    }

    constructor (w: Window)
      requires Whole(w)
      ensures Valid() && fresh(counts) && window == w && tape == EMPTY_TAPE && carry == ""
    {
      window, words := w, (Seconds(w) + WORD - 1) / WORD;
      counts := new nat[Seconds(w)](_ => 0);
      header, symbols, previous, cached, rows, windowRows, carry := None, map[], "", false, 0, 0, "";
      tape := EMPTY_TAPE;
      new;
      assert counts[..] == Counts([], window);
    }

    /** Looks the symbol up, unless it is the one seen last. */
    method Lookup(name: string) returns (ok: bool)
      requires Valid()
      modifies this`symbols, this`previous, this`cached
      ensures ok <==> name in old(symbols) || |old(symbols)| != MAX_SYMBOLS
      ensures ok ==> cached && previous == name && symbols == Entered(old(symbols), name)
    {
      hide Bitmaps, Counts, InWindow, Whole, Seconds;
      if name != previous || !cached {
        previous := name;
        if name !in symbols {
          if |symbols| == MAX_SYMBOLS { return false; }
          symbols := symbols[name := []];
        }
        cached := true;
      }
      ok := true;
    }

    /** One print of a known or new symbol. */
    method Record(name: string, stamp: nat) returns (ok: bool)
      requires Valid()
      modifies this`symbols, this`previous, this`cached, this`rows, this`windowRows, this`tape, counts
      ensures ok <==> name in Names(old(tape).prints) || |Names(old(tape).prints)| != MAX_SYMBOLS
      ensures ok ==> Valid() && tape == Tape(header, old(tape).prints + [Print(name, stamp)])
    {
      hide Bitmaps, BitAt, Names, NamesIn, Counts, InWindow, SecondOf, Blank, Seconds, Whole, Inside, Entered;
      ghost var prints, p := tape.prints, Print(name, stamp);
      NewPrint(prints, p, window);
      NamesCount(symbols, prints, window, words);
      CountsAppend(prints, p, window);
      ghost var known := symbols;
      EnteredKeys(known, name);
      ok := Lookup(name);
      if !ok { return; }
      rows := rows + 1;
      tape := Tape(header, prints + [p]);
      if !Inside(window, stamp) {
        MarkOutside(known, prints, p, window, words);
        return;
      }
      windowRows := windowRows + 1;
      MarkSecond(name, stamp, prints, known);
    }

    /** Sets the symbol's bit for the print's second, and counts it when it was not set. */
    method MarkSecond(name: string, stamp: nat, ghost prints: seq<Print>, ghost known: map<string, seq<Word>>)
      requires Whole(window) && words == (Seconds(window) + WORD - 1) / WORD && Inside(window, stamp)
      requires Bitmaps(known, prints, window, words) && symbols == Entered(known, name)
      requires counts[..] == Counts(prints, window)
      modifies this`symbols, counts
      ensures Bitmaps(symbols, prints + [Print(name, stamp)], window, words)
      ensures symbols.Keys == old(symbols).Keys
      ensures counts[..] == Counts(prints + [Print(name, stamp)], window)
    {
      hide Bitmaps, BitAt, Names, NamesIn, Counts, SecondOf, Blank, Whole, Inside;
      ghost var p := Print(name, stamp);
      CountsAppend(prints, p, window);
      MarkInside(known, prints, p, window, words);
      var seen := if symbols[name] == [] then Blank(words) else symbols[name];
      var second := (stamp - window.start) / NS;
      assert second == SecondOf(window, stamp) by { SecondIs(window, stamp); }
      var word, bit := second / WORD, second % WORD;
      if bit !in seen[word] {
        seen := seen[word := seen[word] + {bit}];
        counts[second] := counts[second] + 1;
      }
      symbols := symbols[name := seen];
    }

    /** One raw line: the header first, then one print each. */
    method Consume(raw: string) returns (ok: bool)
      requires Valid()
      modifies this`header, this`symbols, this`previous, this`cached, this`rows, this`windowRows, this`tape, counts
      ensures ok == ReadLine(old(tape), raw).Some?
      ensures ok ==> Valid() && tape == ReadLine(old(tape), raw).value
    {
      hide Bitmaps, Names, Counts, InWindow, Whole, Seconds, Parse, Number, GoodName, IndexOf, Distinct;
      var line := raw;
      if line != "" && line[|line| - 1] == '\r' { line := line[..|line| - 1]; }
      if |line| > MAX_LINE || line == "" { return false; }
      var parts := Fields(line);
      if parts.None? { return false; }
      if header.None? {
        ok := ReadHeader(line, parts.value);
        return;
      }
      var h := header.value;
      if |parts.value| != h.width || h.ticker >= |parts.value| || h.sip >= |parts.value| { return false; }
      var name := parts.value[h.ticker];
      if |name| >= 2 && name[0] == '"' && name[|name| - 1] == '"' { name := name[1..|name| - 1]; }
      var stamp := Number(parts.value[h.sip]);
      if !GoodName(name) || stamp.None? || stamp.value == 0 { return false; }
      ok := Record(name, stamp.value);
    }

    method ReadHeader(line: string, names: seq<string>) returns (ok: bool)
      requires Valid() && tape.header.None? && Parse(line) == Some(names)
      modifies this`header, this`tape
      ensures ok == ParseHeader(line).Some?
      ensures ok ==> Valid() && tape == Tape(ParseHeader(line), old(tape).prints)
    {
      hide Bitmaps, Names, Counts, InWindow, Whole, Seconds, Parse;
      if !Distinct(names) || !forall k :: 0 <= k < |REQUIRED| ==> REQUIRED[k] in names { return false; }
      assert REQUIRED[0] in names && REQUIRED[1] in names;
      header := Some(Header(|names|, IndexOf(names, "ticker"), IndexOf(names, "sip_timestamp")));
      tape := Tape(header, tape.prints);
      ok := true;
    }

    method Summary() returns (r: Report)
      requires Valid()
      ensures r == ReportOf(tape.prints, window)
    {
      r := Report(counts[..], rows, windowRows, symbols.Keys);
    }

    /** What has been read of the stream: every complete line, and the carried tail. */
    ghost predicate Read(bytes: string)
      reads this, counts
    {
      Valid() && ReadLines(LinesOf(bytes)) == Some(tape) && carry == Tail(bytes)
    }

    /** One chunk: each newline completes the carried line; what is left is carried on. */
    method Feed(chunk: string, ghost bytes: string) returns (ok: bool)
      requires Read(bytes)
      modifies this, counts
      ensures ok ==> Read(bytes + chunk)
      ensures ok <==> ReadLines(LinesOf(bytes + chunk)).Some?
                      && (chunk != "" && chunk[|chunk| - 1] != '\n' ==> |Tail(bytes + chunk)| <= MAX_LINE)
    {
      hide Valid, ReadLine, ReadLines, LinesOf, Tail;
      var begin := 0;
      assert bytes + chunk[..0] == bytes;
      while begin < |chunk|
        invariant 0 <= begin <= |chunk|
        invariant begin == 0 || chunk[begin - 1] == '\n'
        invariant Read(bytes + chunk[..begin])
      {
        ghost var done := bytes + chunk[..begin];
        var stop := FindNewline(chunk, begin);
        var piece := chunk[begin..stop];
        ExtendTail(done, piece);
        assert done + piece == bytes + chunk[..stop];
        if stop == |chunk| {
          carry := carry + piece;
          assert chunk[..stop] == chunk;
          assert piece[|piece| - 1] == chunk[|chunk| - 1] && piece[|piece| - 1] in piece;
          ok := |carry| <= MAX_LINE;
          return;
        }
        CompleteLine(done + piece);
        assert done + piece + "\n" == bytes + chunk[..stop + 1];
        ReadNextLine(LinesOf(done), carry + piece);
        ok := Consume(carry + piece);
        if !ok {
          assert (bytes + chunk)[..|bytes| + stop + 1] == bytes + chunk[..stop + 1];
          LinesGrow(bytes + chunk, |bytes| + stop + 1);
          FailureIsFinal(LinesOf(bytes + chunk), |LinesOf(bytes + chunk[..stop + 1])|);
          return;
        }
        carry := "";
        begin := stop + 1;
      }
      assert chunk[..begin] == chunk;
      ok := true;
    }
  }

  /** `memchr`: the first newline from `begin`, or the end of the chunk. */
  method FindNewline(chunk: string, begin: nat) returns (stop: nat)
    requires begin < |chunk|
    ensures begin <= stop <= |chunk| && '\n' !in chunk[begin..stop]
    ensures stop < |chunk| ==> chunk[stop] == '\n'
  {
    stop := begin;
    while stop < |chunk| && chunk[stop] != '\n'
      invariant begin <= stop <= |chunk| && '\n' !in chunk[begin..stop]
    {
      stop := stop + 1;
    }
  }

  lemma {:induction false} SecondIs(w: Window, stamp: nat)
    requires Whole(w) && Inside(w, stamp)
    ensures SecondOf(w, stamp) == (stamp - w.start) / NS
  {
  }

  lemma {:induction false} NewSymbol(prints: seq<Print>, w: Window, words: nat, name: string)
    requires Whole(w) && name !in Names(prints)
    ensures Marks([], prints, w, words, name)
  {
    forall s: nat ensures name !in NamesIn(prints, w, s) { NamesInMeaning(prints, w, s, name); }
  }

  function InWindow(prints: seq<Print>, w: Window): nat {
    if prints == [] then 0
    else InWindow(prints[..|prints| - 1], w) + if Inside(w, prints[|prints| - 1].stamp) then 1 else 0
  }

  /** A symbol's bitmap is absent until its first print in the window; then its bits are exactly the
      seconds in which it printed. */
  ghost predicate Marks(bitmap: seq<Word>, prints: seq<Print>, w: Window, words: nat, name: string)
    requires Whole(w)
  {
    && (bitmap == [] || |bitmap| == words)
    && (bitmap == [] <==> forall s: nat :: name !in NamesIn(prints, w, s))
    && (forall s: nat :: BitAt(bitmap, s) <==> name in NamesIn(prints, w, s))
  }

  lemma {:induction false} NewPrint(prints: seq<Print>, p: Print, w: Window)
    ensures Names(prints + [p]) == Names(prints) + {p.name}
    ensures InWindow(prints + [p], w) == InWindow(prints, w) + if Inside(w, p.stamp) then 1 else 0
  {
    assert (prints + [p])[..|prints|] == prints;
  }

  /** One bitmap per symbol seen, each marking that symbol's seconds. */
  ghost predicate Bitmaps(symbols: map<string, seq<Word>>, prints: seq<Print>, w: Window, words: nat)
    requires Whole(w)
  {
    && symbols.Keys == Names(prints)
    && (forall name :: name in symbols ==> Marks(symbols[name], prints, w, words, name))
  }

  function Entered(symbols: map<string, seq<Word>>, name: string): map<string, seq<Word>> {
    if name in symbols then symbols else symbols[name := []]
  }

  lemma {:induction false} EnteredKeys(symbols: map<string, seq<Word>>, name: string)
    ensures Entered(symbols, name).Keys == symbols.Keys + {name}
  {
  }

  lemma {:induction false} NamesCount(symbols: map<string, seq<Word>>, prints: seq<Print>, w: Window, words: nat)
    requires Whole(w) && Bitmaps(symbols, prints, w, words)
    ensures symbols.Keys == Names(prints) && |symbols| == |Names(prints)|
  {
    assert |symbols| == |symbols.Keys|;
  }

  lemma {:induction false} EnteredMarks(
      symbols: map<string, seq<Word>>, prints: seq<Print>, p: Print, w: Window, words: nat)
    requires Whole(w) && Bitmaps(symbols, prints, w, words)
    ensures var entered := Entered(symbols, p.name);
      && entered.Keys == Names(prints + [p])
      && Marks(entered[p.name], prints, w, words, p.name)
      && (forall n :: n in entered && (n != p.name || !Inside(w, p.stamp)) ==>
           Marks(entered[n], prints + [p], w, words, n))
  {
    hide Marks, Names;
    NewPrint(prints, p, w);
    var entered := Entered(symbols, p.name);
    if p.name !in symbols { NewSymbol(prints, w, words, p.name); }
    forall n | n in entered && (n != p.name || !Inside(w, p.stamp))
      ensures Marks(entered[n], prints + [p], w, words, n)
    {
      MarksElsewhere(entered[n], prints, p, w, words, n);
    }
  }

  lemma {:induction false} MarkOutside(
      symbols: map<string, seq<Word>>, prints: seq<Print>, p: Print, w: Window, words: nat)
    requires Whole(w) && Bitmaps(symbols, prints, w, words) && !Inside(w, p.stamp)
    ensures Bitmaps(Entered(symbols, p.name), prints + [p], w, words)
  {
    hide Marks, Names;
    EnteredMarks(symbols, prints, p, w, words);
  }

  lemma {:induction false} MarkInside(
      symbols: map<string, seq<Word>>, prints: seq<Print>, p: Print, w: Window, words: nat)
    requires Whole(w) && words == (Seconds(w) + WORD - 1) / WORD
    requires Bitmaps(symbols, prints, w, words) && Inside(w, p.stamp)
    ensures var entered := Entered(symbols, p.name);
      var second := SecondOf(w, p.stamp);
      var ready := if entered[p.name] == [] then Blank(words) else entered[p.name];
      && second / WORD < |ready|
      && (second % WORD in ready[second / WORD] <==> p.name in NamesIn(prints, w, second))
      && (second % WORD in ready[second / WORD] ==> Bitmaps(entered[p.name := ready], prints + [p], w, words))
      && Bitmaps(entered[p.name := ready[second / WORD := ready[second / WORD] + {second % WORD}]], prints + [p], w,
         words)
  {
    hide Marks, Names, SecondOf, NamesIn, Blank;
    EnteredMarks(symbols, prints, p, w, words);
    MarksSet(Entered(symbols, p.name)[p.name], prints, p, w, words);
  }

  lemma {:induction false} MarksElsewhere(
      bitmap: seq<Word>, prints: seq<Print>, p: Print, w: Window, words: nat, name: string)
    requires Whole(w) && Marks(bitmap, prints, w, words, name) && (name != p.name || !Inside(w, p.stamp))
    ensures Marks(bitmap, prints + [p], w, words, name)
  {
    hide BitAt, NamesIn, Inside, SecondOf;
    forall s: nat ensures name in NamesIn(prints + [p], w, s) <==> name in NamesIn(prints, w, s) {
      NamesAppend(prints, p, w, s);
    }
  }

  /** A bitmap that has no bits yet. */
  function Blank(words: nat): seq<Word> { seq(words, k => {}) }

  lemma {:induction false} MarksSet(bitmap: seq<Word>, prints: seq<Print>, p: Print, w: Window, words: nat)
    requires Whole(w) && words == (Seconds(w) + WORD - 1) / WORD
    requires Marks(bitmap, prints, w, words, p.name) && Inside(w, p.stamp)
    ensures var second := SecondOf(w, p.stamp);
      var ready := if bitmap == [] then Blank(words) else bitmap;
      && second / WORD < |ready| == words
      && BitAt(ready, second) == (p.name in NamesIn(prints, w, second))
      && (BitAt(ready, second) ==> Marks(ready, prints + [p], w, words, p.name))
      && Marks(ready[second / WORD := ready[second / WORD] + {second % WORD}], prints + [p], w, words, p.name)
  {
    hide NamesIn, SecondOf;
    var second := SecondOf(w, p.stamp);
    var ready := if bitmap == [] then Blank(words) else bitmap;
    assert second / WORD < words;
    var marked := ready[second / WORD := ready[second / WORD] + {second % WORD}];
    forall s: nat
      ensures BitAt(ready, s) <==> p.name in NamesIn(prints, w, s)
      ensures BitAt(marked, s) <==> p.name in NamesIn(prints + [p], w, s)
    {
      assert bitmap == [] ==> !BitAt(ready, s);
      NamesAppend(prints, p, w, s);
    }
    assert p.name in NamesIn(prints + [p], w, second);
  }

  // ---------------------------------------------------------------- a whole stream

  function Concat(chunks: seq<string>): string {
    if chunks == [] then "" else Concat(chunks[..|chunks| - 1]) + chunks[|chunks| - 1]
  }

  /** The stream up to and including chunk k. */
  function Upto(chunks: seq<string>, k: nat): string
    requires k < |chunks|
  {
    Concat(chunks[..k + 1])
  }

  /** Some chunk ends more than MAX_LINE bytes into a line. */
  ghost predicate CutsLongLine(chunks: seq<string>) {
    exists k :: 0 <= k < |chunks| && |Tail(Upto(chunks, k))| > MAX_LINE
  }

  datatype Report = Report(counts: seq<nat>, rows: nat, windowRows: nat, symbols: set<string>)

  function ReportOf(prints: seq<Print>, w: Window): Report
    requires Whole(w)
  {
    Report(Counts(prints, w), |prints|, InWindow(prints, w), Names(prints))
  }

  predicate Scannable(w: Window) { Whole(w) && Seconds(w) <= MAX_SECONDS }

  /** Prints the names of the report. */
  method QuoteNames(names: set<string>) returns (ok: bool)
    ensures ok <==> forall name :: name in names ==> Printable(name)
  {
    var rest := names;
    while rest != {}
      invariant rest <= names && forall name :: name in names && name !in rest ==> Printable(name)
      decreases rest
    {
      var name :| name in rest;
      var text := Quoted(name);
      if text.None? { return false; }
      rest := rest - {name};
    }
    ok := true;
  }

  /** The whole run: it succeeds exactly when the window is accepted, the stream can be read as a whole, no chunk
      ends too far into a line and every symbol can be printed; its report is then a function of the stream
      alone, however it was cut. */
  method Scan(w: Window, chunks: seq<string>) returns (r: Option<Report>)
    requires forall k :: 0 <= k < |chunks| ==> chunks[k] != ""
    ensures r.Some? <==>
      && Scannable(w) && ReadAll(Concat(chunks)).Some? && !CutsLongLine(chunks)
      && forall name :: name in Names(ReadAll(Concat(chunks)).value.prints) ==> Printable(name)
    ensures r.Some? ==> r.value == ReportOf(ReadAll(Concat(chunks)).value.prints, w)
  {
    if !Scannable(w) { return None; }
    r := ReadChunks(w, chunks);
    if r.Some? {
      var ok := QuoteNames(r.value.symbols);
      if !ok { return None; }
    }
  }

  /** Reading, up to the report. */
  method ReadChunks(w: Window, chunks: seq<string>) returns (r: Option<Report>)
    requires Whole(w) && forall k :: 0 <= k < |chunks| ==> chunks[k] != ""
    ensures r.Some? <==> ReadAll(Concat(chunks)).Some? && !CutsLongLine(chunks)
    ensures r.Some? ==> r.value == ReportOf(ReadAll(Concat(chunks)).value.prints, w)
  {
    hide ReadLine, ReadLines, LinesOf, Tail;
    var scanner := new Scanner(w);
    NothingRead();
    for i := 0 to |chunks|
      invariant fresh(scanner) && fresh(scanner.counts) && scanner.window == w
      invariant scanner.Read(Concat(chunks[..i]))
      invariant forall k :: 0 <= k < i ==> |Tail(Upto(chunks, k))| <= MAX_LINE
    {
      assert chunks[..i + 1][..i] == chunks[..i];
      assert Upto(chunks, i) == Concat(chunks[..i]) + chunks[i];
      TailAfterNewline(Concat(chunks[..i]), chunks[i]);
      var ok := scanner.Feed(chunks[i], Concat(chunks[..i]));
      if !ok {
        PrefixOfConcat(chunks, i + 1);
        if ReadLines(LinesOf(Upto(chunks, i))).None? {
          PrefixFailureIsFinal(Concat(chunks), |Upto(chunks, i)|);
        }
        return None;
      }
    }
    assert chunks[..|chunks|] == chunks;
    if scanner.carry != "" {
      var ok := scanner.Consume(scanner.carry);
      if !ok { return None; }
    }
    if scanner.header.None? { return None; }
    var report := scanner.Summary();
    r := Some(report);
  }

  lemma {:induction false} NothingRead()
    ensures ReadLines(LinesOf("")) == Some(EMPTY_TAPE) && Tail("") == "" && Concat([]) == ""
  {
  }

  lemma {:induction false} TailAfterNewline(bytes: string, chunk: string)
    requires chunk != ""
    ensures chunk[|chunk| - 1] == '\n' ==> Tail(bytes + chunk) == ""
  {
  }

  lemma {:induction false} PrefixOfConcat(chunks: seq<string>, n: nat)
    requires n <= |chunks|
    ensures |Concat(chunks[..n])| <= |Concat(chunks)| && Concat(chunks)[..|Concat(chunks[..n])|] == Concat(chunks[..n])
  {
    if n < |chunks| {
      PrefixOfConcat(chunks[..|chunks| - 1], n);
      assert chunks[..|chunks| - 1][..n] == chunks[..n];
    } else {
      assert chunks[..n] == chunks;
    }
  }

  // ---------------------------------------------------------------- the bits

  /** Every set bit of every symbol's bitmap. */
  ghost function SetBits(symbols: map<string, seq<Word>>, w: Window): set<(string, nat)>
    requires Whole(w)
  {
    set name, s | name in symbols && 0 <= s < Seconds(w) && BitAt(symbols[name], s) :: (name, s)
  }

  /** The counts add up to the number of set bits in all the bitmaps. */
  lemma {:induction false} CountsSumToPopcount(scanner: Scanner)
    requires scanner.Valid()
    ensures Sum(scanner.counts[..]) == |SetBits(scanner.symbols, scanner.window)|
  {
    hide Counts, Sum;
    var prints, w := scanner.tape.prints, scanner.window;
    CountsSumToPairs(prints, w);
    BitsArePairs(scanner.symbols, prints, w, scanner.words);
  }

  lemma {:induction false} BitsArePairs(symbols: map<string, seq<Word>>, prints: seq<Print>, w: Window, words: nat)
    requires Whole(w) && Bitmaps(symbols, prints, w, words)
    ensures SetBits(symbols, w) == Pairs(prints, w)
  {
    hide BitAt, NamesIn, Pairs;
    forall p: (string, nat) ensures p in SetBits(symbols, w) <==> p in Pairs(prints, w) {
      var (name, s) := p;
      PairsAreNames(prints, w, name, s);
      if name in symbols { assert Marks(symbols[name], prints, w, words, name); }
      if name in NamesIn(prints, w, s) { PrintedName(prints, w, s, name); }
    }
  }

  lemma {:induction false} PrintedName(prints: seq<Print>, w: Window, s: nat, name: string)
    requires Whole(w) && name in NamesIn(prints, w, s)
    ensures name in Names(prints) && s < Seconds(w)
  {
    NamesInMeaning(prints, w, s, name);
  }
}
