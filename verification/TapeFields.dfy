/** The scanner's reading and report in terms of the text itself: a written tape is read back, and the counts are those
    of the stamps. */
module TapeFields {
  import opened Wrappers
  import opened ByteLines
  import opened CsvFields
  import opened SecondCounts
  import opened TapeLines
  import opened TapeScanner

  // ---------------------------------------------------------------- numbers

  /** The decimal digits of n. */
  function Decimal(n: nat): (text: string)
    ensures text != "" && forall k :: 0 <= k < |text| ==> '0' <= text[k] <= '9'
  {
    var digit := ('0' as int + n % 10) as char;
    if n < 10 then [digit] else Decimal(n / 10) + [digit]
  }

  lemma {:induction false} ValueReadsBack(n: nat)
    ensures Value(Decimal(n)) == n
  {
    var text := Decimal(n);
    if n < 10 {
      assert text[..0] == "";
    } else {
      ValueReadsBack(n / 10);
      assert text[..|text| - 1] == Decimal(n / 10);
    }
  }

  /** A printed number is read back when it fits 64 bits; nothing but digits is a number. */
  lemma {:induction false} NumberReadsBack(n: nat, text: string)
    ensures Number(Decimal(n)) == if n < 18_446_744_073_709_551_616 then Some(n) else None
    ensures Number(text).Some? ==> text != "" && forall k :: 0 <= k < |text| ==> '0' <= text[k] <= '9'
  {
    hide Value;
    ValueReadsBack(n);
  }

  // ---------------------------------------------------------------- lines

  /** The fields can be written as one line. */
  ghost predicate Writable(parts: seq<string>) {
    && 0 < |parts| <= 32 && 0 < |Join(parts)| <= 4096
    && forall k :: 0 <= k < |parts| ==> Closed(parts[k]) && '\n' !in parts[k] && '\r' !in parts[k]
  }

  lemma {:induction false} LineReadsBack(parts: seq<string>)
    requires Writable(parts)
    ensures Parse(Join(parts)) == Some(parts) && Clean(Join(parts)) == Some(Join(parts))
    ensures Clean(Join(parts) + "\r") == Some(Join(parts)) && '\n' !in Join(parts)
  {
    hide Closed, SplitFields, Balanced, Join;
    SplitJoin(parts);
    NotJoined(parts, '\r');
    NotJoined(parts, '\n');
    var line := Join(parts);
    assert line[|line| - 1] in line;
    assert (line + "\r")[..|line|] == line;
  }

  lemma {:induction false} NotJoined(parts: seq<string>, c: char)
    requires |parts| > 0 && c != ',' && forall k :: 0 <= k < |parts| ==> c !in parts[k]
    ensures c !in Join(parts)
  {
    if |parts| > 1 { NotJoined(parts[..|parts| - 1], c); }
  }

  /** A header is accepted exactly when no name repeats and the five columns are there; it points at the ticker and the
      SIP stamp. */
  lemma {:induction false} HeaderReadsBack(names: seq<string>)
    requires Writable(names)
    ensures var h := ParseHeader(Join(names));
      && (h.Some? <==>
           && (forall i, j :: 0 <= i < j < |names| ==> names[i] != names[j])
           && "ticker" in names && "sip_timestamp" in names && "price" in names && "size" in names
           && "conditions" in names)
      && (h.Some? ==>
           && h.value.width == |names| && h.value.ticker < |names| && h.value.sip < |names|
           && names[h.value.ticker] == "ticker" && names[h.value.sip] == "sip_timestamp")
  {
    hide Parse, Join, IndexOf;
    LineReadsBack(names);
    assert REQUIRED[0] == "ticker" && REQUIRED[1] == "sip_timestamp" && REQUIRED[2] == "price";
    assert REQUIRED[3] == "size" && REQUIRED[4] == "conditions";
    assert (forall k :: 0 <= k < |REQUIRED| ==> REQUIRED[k] in names) <==>
      "ticker" in names && "sip_timestamp" in names && "price" in names && "size" in names && "conditions" in names;
  }

  /** A row of the header's width whose ticker is a plain name, quoted or not, and whose stamp is a positive printed
      number. */
  ghost predicate Prints(h: Header, parts: seq<string>, p: Print) {
    && Writable(parts) && |parts| == h.width && h.ticker < |parts| && h.sip < |parts|
    && 0 < |p.name| <= 128 && '"' !in p.name && 0 < p.stamp < 18_446_744_073_709_551_616
    && (parts[h.ticker] == p.name || parts[h.ticker] == "\"" + p.name + "\"")
    && parts[h.sip] == Decimal(p.stamp)
  }

  lemma {:induction false} PrintReadsBack(h: Header, parts: seq<string>, p: Print)
    requires Prints(h, parts, p)
    ensures ParsePrint(h, Join(parts)) == Some(p)
  {
    hide Parse, Join, Number, Closed, Decimal;
    LineReadsBack(parts);
    NumberReadsBack(p.stamp, "");
    UnquotesTo(parts[h.ticker], p.name);
  }

  /** Whatever line is read as a print has the header's width, digits in the place of the stamp, and a name of at most
      128 characters without a quote in the place of the symbol, bare or quoted. */
  lemma {:induction false} OnlyPrintsAreRead(h: Header, line: string)
    requires ParsePrint(h, line).Some?
    ensures Parse(line).Some? && |Parse(line).value| == h.width && h.ticker < h.width && h.sip < h.width
    ensures var parts, p := Parse(line).value, ParsePrint(h, line).value;
      && 0 < |p.name| <= 128 && '"' !in p.name && 0 < p.stamp < 18_446_744_073_709_551_616
      && (parts[h.ticker] == p.name || parts[h.ticker] == "\"" + p.name + "\"")
      && (forall k :: 0 <= k < |parts[h.sip]| ==> '0' <= parts[h.sip][k] <= '9')
  {
    hide Parse, Value;
  }

  lemma {:induction false} UnquotesTo(field: string, name: string)
    requires name != "" && '"' !in name && (field == name || field == "\"" + name + "\"")
    ensures Unquote(field) == name
  {
    if field == name {
      assert name[0] in name;
    } else {
      assert field[1..|field| - 1] == name;
    }
  }

  // ---------------------------------------------------------------- a whole tape

  lemma {:induction false} LinesReadBack(lines: seq<string>)
    requires forall k :: 0 <= k < |lines| ==> '\n' !in lines[k]
    ensures LinesOf(Rejoin(lines, "")) == lines && Tail(Rejoin(lines, "")) == ""
  {
    if lines != [] {
      hide LinesOf, Tail;
      var first, rest := lines[0], Rejoin(lines[1..], "");
      LinesReadBack(lines[1..]);
      PlainText(first);
      CompleteLine(first);
      CutAnywhere(first + "\n", rest);
      assert "" + rest == rest;
      assert [first] + lines[1..] == lines && [] + [first] == [first];
    }
  }

  /** The header line and one line for each row. */
  function Written(names: seq<string>, rows: seq<seq<string>>): seq<string>
    requires |names| > 0 && forall k :: 0 <= k < |rows| ==> |rows[k]| > 0
  {
    [Join(names)] + seq(|rows|, k requires 0 <= k < |rows| => Join(rows[k]))
  }

  ghost predicate AllPrint(h: Header, rows: seq<seq<string>>, prints: seq<Print>) {
    |rows| == |prints| && forall k :: 0 <= k < |rows| ==> Prints(h, rows[k], prints[k])
  }

  /** The line says the print. */
  ghost predicate Says(h: Header, line: string, p: Print) {
    Clean(line) == Some(line) && ParsePrint(h, line) == Some(p)
  }

  lemma {:induction false} RowSays(h: Header, parts: seq<string>, p: Print)
    requires Prints(h, parts, p)
    ensures |parts| > 0 && Says(h, Join(parts), p) && '\n' !in Join(parts)
  {
    hide Join, ParsePrint, Clean, Writable;
    RowIsWritable(h, parts, p);
    LineReadsBack(parts);
    PrintReadsBack(h, parts, p);
  }

  lemma {:induction false} HeaderSays(names: seq<string>)
    requires Writable(names) && ParseHeader(Join(names)).Some?
    ensures ReadLine(EMPTY_TAPE, Join(names)) == Some(Tape(ParseHeader(Join(names)), [])) && '\n' !in Join(names)
  {
    assert |names| > 0;
    hide Join, ParseHeader, Clean, Writable;
    LineReadsBack(names);
  }

  lemma {:induction false} NextSays(h: Header, line: string, prints: seq<Print>, n: nat)
    requires 0 < n <= |prints| && |Names(prints)| <= 100_000 && Says(h, line, prints[n - 1])
    ensures ReadLine(Tape(Some(h), prints[..n - 1]), line) == Some(Tape(Some(h), prints[..n]))
  {
    hide ParsePrint, Clean, Names;
    RoomForName(prints, n);
    assert prints[..n] == prints[..n - 1] + [prints[n - 1]];
  }

  lemma {:induction false} LinesSay(h: Header, lines: seq<string>, prints: seq<Print>, n: nat)
    requires n <= |prints| && |lines| == |prints| + 1 && |Names(prints)| <= 100_000
    requires ReadLine(EMPTY_TAPE, lines[0]) == Some(Tape(Some(h), []))
    requires forall k :: 0 <= k < |prints| ==> Says(h, lines[k + 1], prints[k])
    ensures ReadLines(lines[..n + 1]) == Some(Tape(Some(h), prints[..n]))
  {
    hide ReadLine, Says, Names;
    if n == 0 {
      assert lines[..1][..0] == [];
      assert ReadLines([]) == Some(EMPTY_TAPE);
    } else {
      LinesSay(h, lines, prints, n - 1);
      assert Says(h, lines[n - 1 + 1], prints[n - 1]);
      NextSays(h, lines[n], prints, n);
      assert lines[..n + 1][..n] == lines[..n];
    }
  }

  lemma {:induction false} RowIsWritable(h: Header, parts: seq<string>, p: Print)
    requires Prints(h, parts, p)
    ensures Writable(parts) && |parts| > 0
  {
  }

  lemma {:induction false} RoomForName(prints: seq<Print>, n: nat)
    requires 0 < n <= |prints| && |Names(prints)| <= 100_000
    ensures prints[n - 1].name in Names(prints[..n - 1]) || |Names(prints[..n - 1])| != MAX_SYMBOLS
  {
    var before, name := Names(prints[..n - 1]), prints[n - 1].name;
    if name !in before {
      assert prints[n - 1] in prints;
      assert before + {name} <= Names(prints);
      SmallerSet(before + {name}, Names(prints));
    }
  }

  lemma {:induction false} SmallerSet(a: set<string>, b: set<string>)
    requires a <= b
    ensures |a| <= |b|
  {
    assert b == a + (b - a);
  }

  /** A tape written with an accepted header and rows that print, newline after every line, is read back as just those
      prints in order, with at most 100000 symbols. */
  lemma {:induction false} TapeReadsBack(names: seq<string>, rows: seq<seq<string>>, prints: seq<Print>)
    requires Writable(names) && ParseHeader(Join(names)).Some?
    requires AllPrint(ParseHeader(Join(names)).value, rows, prints) && |Names(prints)| <= 100_000
    requires forall k :: 0 <= k < |rows| ==> |rows[k]| > 0
    ensures ReadAll(Rejoin(Written(names, rows), "")) == Some(Tape(ParseHeader(Join(names)), prints))
  {
    assert |names| > 0;
    hide Writable, Join, ParseHeader, Names, ReadLine, Says, ReadAll, Rejoin, Written, AllPrint;
    var h := ParseHeader(Join(names)).value;
    HeaderSays(names);
    WrittenSays(h, names, rows, prints);
    LinesReadAll(h, Written(names, rows), prints);
  }

  lemma {:induction false} WrittenSays(h: Header, names: seq<string>, rows: seq<seq<string>>, prints: seq<Print>)
    requires |names| > 0 && '\n' !in Join(names) && AllPrint(h, rows, prints)
    requires forall k :: 0 <= k < |rows| ==> |rows[k]| > 0
    ensures var lines := Written(names, rows);
      && |lines| == |prints| + 1 && lines[0] == Join(names)
      && (forall k :: 0 <= k < |prints| ==> Says(h, lines[k + 1], prints[k]))
      && (forall k :: 0 <= k < |lines| ==> '\n' !in lines[k])
  {
    hide Join, Says, Prints;
    var lines := Written(names, rows);
    forall k | 0 <= k < |rows| ensures Says(h, lines[k + 1], prints[k]) && '\n' !in lines[k + 1] {
      RowSays(h, rows[k], prints[k]);
    }
    forall k | 0 <= k < |lines| ensures '\n' !in lines[k] {
      if k > 0 { assert '\n' !in lines[(k - 1) + 1]; }
    }
  }

  lemma {:induction false} LinesReadAll(h: Header, lines: seq<string>, prints: seq<Print>)
    requires |lines| == |prints| + 1 && |Names(prints)| <= 100_000
    requires ReadLine(EMPTY_TAPE, lines[0]) == Some(Tape(Some(h), []))
    requires forall k :: 0 <= k < |prints| ==> Says(h, lines[k + 1], prints[k])
    requires forall k :: 0 <= k < |lines| ==> '\n' !in lines[k]
    ensures ReadAll(Rejoin(lines, "")) == Some(Tape(Some(h), prints))
  {
    hide ReadLine, ReadLines, Says, Names, Rejoin, LinesOf, Tail;
    LinesReadBack(lines);
    LinesSay(h, lines, prints, |prints|);
    assert lines[..|prints| + 1] == lines && prints[..|prints|] == prints;
  }

  // ---------------------------------------------------------------- the report

  /** The symbols that print in second s after the start. */
  function SymbolsIn(prints: seq<Print>, start: nat, s: nat): set<string> {
    set p | p in prints && start + s * 1_000_000_000 <= p.stamp < start + (s + 1) * 1_000_000_000 :: p.name
  }

  function InsideSet(prints: seq<Print>, w: Window): set<nat> {
    set k: nat | k < |prints| && w.start <= prints[k].stamp < w.end
  }

  lemma {:induction false} SecondInFields(w: Window, stamp: nat, s: nat)
    requires Whole(w) && s < Seconds(w)
    ensures Inside(w, stamp) && SecondOf(w, stamp) == s <==>
      w.start + s * 1_000_000_000 <= stamp < w.start + (s + 1) * 1_000_000_000
  {
  }

  /** Each second counts the symbols with a stamp in it; the totals are all rows and those in the window. */
  lemma {:induction false} ReportInFields(prints: seq<Print>, w: Window)
    requires Whole(w)
    ensures var r := ReportOf(prints, w);
      && |r.counts| * 1_000_000_000 == w.end - w.start
      && (forall s :: 0 <= s < |r.counts| ==> r.counts[s] == |SymbolsIn(prints, w.start, s)|)
      && r.rows == |prints| && r.windowRows == |InsideSet(prints, w)|
      && r.symbols == set p | p in prints :: p.name
  {
    hide NamesIn, SecondOf, Inside, SymbolsIn, InsideSet;
    InsideCount(prints, w);
    forall s | 0 <= s < Seconds(w) ensures NamesIn(prints, w, s) == SymbolsIn(prints, w.start, s) {
      SymbolsAreNames(prints, w, s);
    }
  }

  lemma {:induction false} SymbolsAreNames(prints: seq<Print>, w: Window, s: nat)
    requires Whole(w) && s < Seconds(w)
    ensures NamesIn(prints, w, s) == SymbolsIn(prints, w.start, s)
  {
    hide NamesIn, SecondOf, Inside, Whole, Seconds;
    forall name ensures name in NamesIn(prints, w, s) <==> name in SymbolsIn(prints, w.start, s) {
      NamesInMeaning(prints, w, s, name);
      forall p | p in prints
        ensures Inside(w, p.stamp) && SecondOf(w, p.stamp) == s <==>
          w.start + s * 1_000_000_000 <= p.stamp < w.start + (s + 1) * 1_000_000_000
      {
        SecondInFields(w, p.stamp, s);
      }
    }
  }

  lemma {:induction false} InsideCount(prints: seq<Print>, w: Window)
    ensures InWindow(prints, w) == |InsideSet(prints, w)|
  {
    if prints == [] {
      assert InsideSet(prints, w) == {};
    } else {
      var n := |prints| - 1;
      InsideCount(prints[..n], w);
      var before, added := InsideSet(prints[..n], w), w.start <= prints[n].stamp < w.end;
      assert n !in before;
      assert InsideSet(prints, w) == if added then before + {n} else before;
    }
  }
}
