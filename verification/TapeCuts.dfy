/** When the cutting of a stream into reads can decide whether the scanner of
    scripts/momwarn1_trade_second_counts.cpp accepts it. */
module TapeCuts {
  import opened Wrappers
  import opened ByteLines
  import opened CsvFields
  import opened TapeLines
  import opened TapeScanner

  /** A raw line of the stream, complete or last. */
  ghost predicate RawLine(bytes: string, line: string) {
    line in LinesOf(bytes) || line == Tail(bytes)
  }

  /** Wherever the stream is cut, the tail there begins a raw line of the whole. */
  lemma {:induction false} TailBeginsLine(bytes: string, n: nat) returns (line: string)
    requires n <= |bytes|
    ensures RawLine(bytes, line) && Tail(bytes[..n]) <= line
    decreases |bytes| - n
  {
    if n == |bytes| {
      assert bytes[..n] == bytes;
      line := Tail(bytes);
    } else {
      var next := bytes[..n + 1];
      assert next[..|next| - 1] == bytes[..n] && next[|next| - 1] == bytes[n];
      if bytes[n] == '\n' {
        line := Tail(bytes[..n]);
        LinesGrow(bytes, n + 1);
        assert line == LinesOf(next)[|LinesOf(next)| - 1];
      } else {
        line := TailBeginsLine(bytes, n + 1);
      }
    }
  }

  /** A stream whose raw lines all fit the bound is read alike however it is cut. */
  lemma {:induction false} ShortLinesAreNeverCut(chunks: seq<string>)
    requires forall line :: RawLine(Concat(chunks), line) ==> |line| <= MAX_LINE
    ensures !CutsLongLine(chunks)
  {
    forall k | 0 <= k < |chunks| ensures |Tail(Upto(chunks, k))| <= MAX_LINE {
      PrefixOfConcat(chunks, k + 1);
      var line := TailBeginsLine(Concat(chunks), |Upto(chunks, k)|);
    }
  }

  lemma {:induction false} ReadableLine(lines: seq<string>, k: nat)
    requires ReadLines(lines).Some? && k < |lines|
    ensures Clean(lines[k]).Some?
  {
    hide ParseHeader, ParsePrint, Clean;
    var front := lines[..|lines| - 1];
    if k < |front| { ReadableLine(front, k); assert lines[k] == front[k]; }
  }

  /** A readable stream can be cut too far into a line only right after the carriage return of a line
      that is one byte over the bound with it. */
  lemma {:induction false} OnlyCarriageReturnsAreCut(chunks: seq<string>, k: nat)
    requires ReadAll(Concat(chunks)).Some? && k < |chunks| && |Tail(Upto(chunks, k))| > MAX_LINE
    ensures var tail := Tail(Upto(chunks, k));
      |tail| == MAX_LINE + 1 && tail[MAX_LINE] == '\r' && RawLine(Concat(chunks), tail)
  {
    hide ReadLine, ParseHeader, ParsePrint;
    var bytes := Concat(chunks);
    PrefixOfConcat(chunks, k + 1);
    var line := TailBeginsLine(bytes, |Upto(chunks, k)|);
    assert Clean(line).Some? by {
      if line in LinesOf(bytes) {
        var m :| 0 <= m < |LinesOf(bytes)| && LinesOf(bytes)[m] == line;
        ReadableLine(LinesOf(bytes), m);
      } else {
        ReadableTail(bytes);
      }
    }
    assert Tail(Upto(chunks, k)) == line;
  }

  lemma {:induction false} ReadableTail(bytes: string)
    requires ReadAll(bytes).Some? && Tail(bytes) != ""
    ensures Clean(Tail(bytes)).Some?
  {
    hide ParseHeader, ParsePrint, Clean;
  }

  // ---------------------------------------------------------------- exactly when

  /** One way of cutting the stream. */
  ghost predicate Cutting(chunks: seq<string>, bytes: string) {
    Concat(chunks) == bytes && forall k :: 0 <= k < |chunks| ==> chunks[k] != ""
  }

  ghost predicate ShortLines(bytes: string) {
    forall line :: RawLine(bytes, line) ==> |line| <= MAX_LINE
  }

  /** Where a complete line ends, before its newline. */
  lemma {:induction false} LineEnd(bytes: string, line: string) returns (n: nat)
    requires line in LinesOf(bytes)
    ensures n < |bytes| && Tail(bytes[..n]) == line
  {
    var front := bytes[..|bytes| - 1];
    if bytes[|bytes| - 1] == '\n' && line == Tail(front) {
      n := |bytes| - 1;
    } else {
      n := LineEnd(front, line);
      assert front[..n] == bytes[..n];
    }
  }

  /** No cutting of a stream is refused for its cutting if and only if all its raw lines fit the bound. */
  lemma {:induction false} CutsNeverMatter(bytes: string)
    ensures (forall chunks :: Cutting(chunks, bytes) ==> !CutsLongLine(chunks)) <==> ShortLines(bytes)
  {
    hide RawLine, CutsLongLine;
    if ShortLines(bytes) {
      forall chunks | Cutting(chunks, bytes) ensures !CutsLongLine(chunks) { ShortLinesAreNeverCut(chunks); }
    } else {
      var line :| RawLine(bytes, line) && |line| > MAX_LINE;
      var chunks := LongLineCut(bytes, line);
      assert Cutting(chunks, bytes);
    }
  }

  lemma {:induction false} LongLineCut(bytes: string, line: string) returns (chunks: seq<string>)
    requires RawLine(bytes, line) && |line| > MAX_LINE
    ensures Cutting(chunks, bytes) && CutsLongLine(chunks)
  {
    if line in LinesOf(bytes) {
      var n := LineEnd(bytes, line);
      chunks := [bytes[..n], bytes[n..]];
      TwoChunks(bytes[..n], bytes[n..]);
      assert bytes[..n] + bytes[n..] == bytes;
      assert bytes[..n] != "";
      assert |Tail(Upto(chunks, 0))| > MAX_LINE;
    } else {
      chunks := [bytes];
      OneChunk(bytes);
      LongTailIsCut(chunks, bytes);
    }
  }

  // ---------------------------------------------------------------- the cuts of a buffered read

  const CHUNK := 1024 * 1024

  /** Every read fills the buffer, except the last. */
  ghost predicate Buffered(chunks: seq<string>) {
    forall k :: 0 <= k < |chunks| ==> 0 < |chunks[k]| <= CHUNK && (k < |chunks| - 1 ==> |chunks[k]| == CHUNK)
  }

  /** A read of the stream ends after n bytes. */
  predicate ReadEnds(bytes: string, n: nat) { 0 < n <= |bytes| && (n % CHUNK == 0 || n == |bytes|) }

  lemma {:induction false} BufferedLength(chunks: seq<string>, k: nat)
    requires Buffered(chunks) && k < |chunks|
    ensures |Upto(chunks, k)| == if k < |chunks| - 1 then (k + 1) * CHUNK else k * CHUNK + |chunks[k]|
  {
    assert chunks[..k + 1][..k] == chunks[..k];
    if k > 0 {
      BufferedLength(chunks, k - 1);
      assert Upto(chunks, k - 1) == Concat(chunks[..k]);
    } else {
      assert chunks[..0] == [] && Concat([]) == "";
    }
  }

  lemma {:induction false} ReadEndIsUpto(chunks: seq<string>, n: nat) returns (k: nat)
    requires Buffered(chunks) && ReadEnds(Concat(chunks), n)
    ensures k < |chunks| && |Upto(chunks, k)| == n
  {
    assert chunks != [];
    var last := |chunks| - 1;
    assert chunks[..last + 1] == chunks;
    BufferedLength(chunks, last);
    if n == |Concat(chunks)| {
      k := last;
    } else {
      k := n / CHUNK - 1;
      BufferedLength(chunks, k);
    }
  }

  predicate LongAt(bytes: string, n: nat) { ReadEnds(bytes, n) && |Tail(bytes[..n])| > MAX_LINE }

  /** The n bytes end with the carriage return of a raw line one byte over the bound. */
  ghost predicate AfterReturn(bytes: string, n: nat) {
    && 0 < n <= |bytes| && bytes[n - 1] == '\r'
    && |Tail(bytes[..n])| == MAX_LINE + 1 && RawLine(bytes, Tail(bytes[..n]))
  }

  /** With buffered reads, cutting refuses a stream exactly when some read ends more than MAX_LINE bytes into a
      line. On a readable stream that is right after the carriage return of a line one byte over the bound. */
  lemma {:induction false} BufferedCuts(chunks: seq<string>)
    requires Buffered(chunks)
    ensures CutsLongLine(chunks) <==> exists n: nat :: LongAt(Concat(chunks), n)
    ensures ReadAll(Concat(chunks)).Some? ==>
      forall n: nat :: LongAt(Concat(chunks), n) ==> AfterReturn(Concat(chunks), n)
  {
    hide LongAt, AfterReturn, Tail, ReadAll, Buffered;
    var bytes := Concat(chunks);
    if CutsLongLine(chunks) {
      var k :| 0 <= k < |chunks| && |Tail(Upto(chunks, k))| > MAX_LINE;
      var n := UptoIsReadEnd(chunks, k);
      assert LongAt(bytes, n);
    }
    forall n: nat | LongAt(bytes, n)
      ensures CutsLongLine(chunks) && (ReadAll(bytes).Some? ==> AfterReturn(bytes, n))
    {
      LongReadEnd(chunks, n);
    }
  }

  lemma {:induction false} LongReadEnd(chunks: seq<string>, n: nat)
    requires Buffered(chunks) && LongAt(Concat(chunks), n)
    ensures CutsLongLine(chunks) && (ReadAll(Concat(chunks)).Some? ==> AfterReturn(Concat(chunks), n))
  {
    hide Tail, ReadAll, Buffered, RawLine;
    var k := ReadEndIsUpto(chunks, n);
    PrefixOfConcat(chunks, k + 1);
    assert Upto(chunks, k) == Concat(chunks)[..n];
    if ReadAll(Concat(chunks)).Some? {
      OnlyCarriageReturnsAreCut(chunks, k);
      TailEnds(Concat(chunks)[..n]);
    }
  }

  lemma {:induction false} UptoIsReadEnd(chunks: seq<string>, k: nat) returns (n: nat)
    requires Buffered(chunks) && k < |chunks|
    ensures ReadEnds(Concat(chunks), n) && Upto(chunks, k) == Concat(chunks)[..n]
    ensures |Tail(Upto(chunks, k))| > MAX_LINE ==> LongAt(Concat(chunks), n)
  {
    hide Tail;
    n := |Upto(chunks, k)|;
    PrefixOfConcat(chunks, k + 1);
    BufferedLength(chunks, k);
    if k == |chunks| - 1 { assert chunks[..k + 1] == chunks; }
  }

  lemma {:induction false} TailEnds(bytes: string)
    requires Tail(bytes) != ""
    ensures Tail(bytes)[|Tail(bytes)| - 1] == bytes[|bytes| - 1]
  {
  }

  // ---------------------------------------------------------------- a stream that cutting breaks

  function Pad(n: nat): string { seq(n, i => 'x') }

  /** A header of exactly MAX_LINE bytes. */
  function LongHeader(): seq<string> { REQUIRED + [Pad(MAX_LINE - 43)] }

  lemma {:induction false} LongHeaderReads()
    ensures |Join(LongHeader())| == MAX_LINE
    ensures SplitFields(Join(LongHeader())) == LongHeader() && Balanced(Join(LongHeader()))
    ensures '\n' !in Join(LongHeader())
  {
    hide Join, SplitFields, Balanced, Quotes;
    var parts := LongHeader();
    forall k | 0 <= k < |parts| ensures Closed(parts[k]) && '\n' !in parts[k] { PlainIsClosed(parts[k]); }
    SplitJoin(parts);
    NoNewlineJoined(parts);
    RequiredLength();
    JoinLength(REQUIRED, Pad(MAX_LINE - 43));
  }

  lemma {:induction false} RequiredLength()
    ensures |Join(REQUIRED)| == 42
  {
    hide Join;
    SingleJoin(REQUIRED[0]);
    JoinLength([REQUIRED[0]], REQUIRED[1]);
    JoinLength([REQUIRED[0], REQUIRED[1]], REQUIRED[2]);
    JoinLength([REQUIRED[0], REQUIRED[1], REQUIRED[2]], REQUIRED[3]);
    JoinLength([REQUIRED[0], REQUIRED[1], REQUIRED[2], REQUIRED[3]], REQUIRED[4]);
    assert [REQUIRED[0]] + [REQUIRED[1]] == [REQUIRED[0], REQUIRED[1]];
    assert [REQUIRED[0], REQUIRED[1]] + [REQUIRED[2]] == [REQUIRED[0], REQUIRED[1], REQUIRED[2]];
    assert [REQUIRED[0], REQUIRED[1], REQUIRED[2]] + [REQUIRED[3]] ==
      [REQUIRED[0], REQUIRED[1], REQUIRED[2], REQUIRED[3]];
    assert [REQUIRED[0], REQUIRED[1], REQUIRED[2], REQUIRED[3]] + [REQUIRED[4]] == REQUIRED;
  }

  lemma {:induction false} SingleJoin(part: string)
    ensures Join([part]) == part
  {
  }

  lemma {:induction false} NoNewlineJoined(parts: seq<string>)
    requires |parts| > 0 && forall k :: 0 <= k < |parts| ==> '\n' !in parts[k]
    ensures '\n' !in Join(parts)
  {
    if |parts| > 1 { NoNewlineJoined(parts[..|parts| - 1]); }
  }

  lemma {:induction false} JoinLength(parts: seq<string>, last: string)
    requires |parts| > 0
    ensures |Join(parts + [last])| == |Join(parts)| + 1 + |last|
  {
    assert (parts + [last])[..|parts|] == parts;
  }

  /** A header line one byte over the bound, its carriage return included: with its newline, in one read, the
      stream is accepted; without it, it is readable and refused however it is cut. */
  lemma {:induction false} CarriageReturnCutFails()
    ensures var line := Join(LongHeader()) + "\r";
      && ReadAll(line + "\n").Some? && Buffered([line + "\n"]) && !CutsLongLine([line + "\n"])
      && ReadAll(line).Some? && forall chunks :: Cutting(chunks, line) ==> CutsLongLine(chunks)
  {
    var line := Join(LongHeader()) + "\r";
    hide LongHeader, Join, ReadAll, LinesOf, Tail, CutsLongLine;
    LongHeaderReads();
    LongHeaderAlone(line);
    OneChunk(line + "\n");
    WholeIsNotCut(line + "\n");
    forall chunks | Cutting(chunks, line) ensures CutsLongLine(chunks) { LongTailIsCut(chunks, line); }
  }

  lemma {:induction false} LongHeaderAlone(line: string)
    requires line == Join(LongHeader()) + "\r"
    ensures ReadAll(line).Some? && ReadAll(line + "\n").Some? && Tail(line) == line && Tail(line + "\n") == ""
  {
    hide LongHeader, Join, ReadLine, ReadLines;
    LongHeaderReads();
    PlainText(line);
    CompleteLine(line);
    ReadsHeaderOnly(line);
    ReadNextLine([], line);
    NothingRead();
    assert [] + [line] == [line] && LinesOf("") == [];
  }

  lemma {:induction false} WholeIsNotCut(bytes: string)
    requires Tail(bytes) == ""
    ensures !CutsLongLine([bytes])
  {
    hide Tail;
    OneChunk(bytes);
  }

  lemma {:induction false} LongTailIsCut(chunks: seq<string>, bytes: string)
    requires Cutting(chunks, bytes) && |Tail(bytes)| > MAX_LINE
    ensures CutsLongLine(chunks)
  {
    assert chunks != [];
    assert chunks[..|chunks| - 1 + 1] == chunks;
    assert |Tail(Upto(chunks, |chunks| - 1))| > MAX_LINE;
  }

  lemma {:induction false} OneChunk(bytes: string)
    ensures Concat([bytes]) == bytes && Upto([bytes], 0) == bytes
  {
    assert [bytes][..0] == [] && [bytes][..1] == [bytes];
    assert "" + bytes == bytes;
  }

  lemma {:induction false} TwoChunks(a: string, b: string)
    ensures Concat([a, b]) == a + b && Upto([a, b], 0) == a
  {
    assert [a, b][..1] == [a];
    OneChunk(a);
  }

  lemma {:induction false} ReadsHeaderOnly(line: string)
    requires line == Join(LongHeader()) + "\r"
    ensures ReadLines([line]).Some? && ReadLines([line]).value.header.Some?
  {
    hide Join, LongHeader, ParseHeader;
    LongHeaderReads();
    LongHeaderParses();
    assert line[..|line| - 1] == Join(LongHeader());
    assert [line][..0] == [];
    assert ReadLines([]) == Some(EMPTY_TAPE);
  }

  lemma {:induction false} LongHeaderParses()
    ensures ParseHeader(Join(LongHeader())).Some?
  {
    hide Join, SplitFields, Balanced;
    LongHeaderReads();
    var names := LongHeader();
    assert names[0] == REQUIRED[0] && names[1] == REQUIRED[1] && names[2] == REQUIRED[2];
    assert names[3] == REQUIRED[3] && names[4] == REQUIRED[4] && names[5] == Pad(MAX_LINE - 43);
    assert |names[5]| > 20;
    assert Distinct(names);
    assert Parse(Join(names)) == Some(names);
  }
}
