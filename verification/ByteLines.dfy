/** A byte stream as newline-terminated lines and a tail, the way both the tape scanner and the log
    sampler cut it. */
module ByteLines {

  /** The newline-terminated lines, without their newlines. */
  function LinesOf(bytes: string): seq<string> {
    if bytes == "" then []
    else
      var front := bytes[..|bytes| - 1];
      if bytes[|bytes| - 1] == '\n' then LinesOf(front) + [Tail(front)] else LinesOf(front)
  }

  /** What follows the last newline. */
  function Tail(bytes: string): string {
    if bytes == "" || bytes[|bytes| - 1] == '\n' then ""
    else Tail(bytes[..|bytes| - 1]) + [bytes[|bytes| - 1]]
  }

  /** Text without a newline only extends the tail. */
  lemma {:induction false} ExtendTail(bytes: string, more: string)
    requires '\n' !in more
    ensures Tail(bytes + more) == Tail(bytes) + more && LinesOf(bytes + more) == LinesOf(bytes)
  {
    if more == "" {
      assert bytes + more == bytes && Tail(bytes) + more == Tail(bytes);
    } else {
      var front, c := more[..|more| - 1], more[|more| - 1];
      assert forall x :: x in front ==> x in more;
      assert c in more;
      ExtendTail(bytes, front);
      assert (bytes + more)[..|bytes + more| - 1] == bytes + front;
      assert Tail(bytes) + front + [c] == Tail(bytes) + more;
    }
  }

  /** A newline completes the tail as a line. */
  lemma {:induction false} CompleteLine(bytes: string)
    ensures Tail(bytes + "\n") == "" && LinesOf(bytes + "\n") == LinesOf(bytes) + [Tail(bytes)]
  {
    assert (bytes + "\n")[..|bytes|] == bytes;
  }

  lemma {:induction false} LinesGrow(bytes: string, n: nat)
    requires n <= |bytes|
    ensures |LinesOf(bytes[..n])| <= |LinesOf(bytes)|
    ensures LinesOf(bytes)[..|LinesOf(bytes[..n])|] == LinesOf(bytes[..n])
  {
    if n < |bytes| {
      LinesGrow(bytes[..|bytes| - 1], n);
      assert bytes[..|bytes| - 1][..n] == bytes[..n];
    } else {
      assert bytes[..n] == bytes;
    }
  }

  /** Lines with their newlines, and the tail, are the stream. */
  function Rejoin(lines: seq<string>, tail: string): string {
    if lines == [] then tail else lines[0] + "\n" + Rejoin(lines[1..], tail)
  }

  lemma {:induction false} RejoinAppend(lines: seq<string>, line: string, tail: string)
    ensures Rejoin(lines + [line], tail) == Rejoin(lines, line + "\n" + tail)
  {
    if lines == [] {
      assert [line][1..] == [];
    } else {
      assert (lines + [line])[1..] == lines[1..] + [line];
      RejoinAppend(lines[1..], line, tail);
    }
  }

  lemma {:induction false} RejoinExtend(lines: seq<string>, tail: string, more: string)
    ensures Rejoin(lines, tail + more) == Rejoin(lines, tail) + more
  {
    if lines != [] {
      RejoinExtend(lines[1..], tail, more);
      assert lines[0] + "\n" + (Rejoin(lines[1..], tail) + more) == lines[0] + "\n" + Rejoin(lines[1..], tail) + more;
    }
  }

  lemma {:induction false} RejoinSplit(bytes: string)
    ensures Rejoin(LinesOf(bytes), Tail(bytes)) == bytes
  {
    if bytes != "" {
      var front, c := bytes[..|bytes| - 1], bytes[|bytes| - 1];
      RejoinSplit(front);
      assert front + [c] == bytes;
      RejoinExtend(LinesOf(front), Tail(front), [c]);
      if c == '\n' {
        RejoinAppend(LinesOf(front), Tail(front), "");
        assert Tail(front) + "\n" + "" == Tail(front) + [c];
      }
    }
  }

  lemma {:induction false} OneMore(bytes: string, c: char)
    ensures LinesOf(bytes + [c]) == if c == '\n' then LinesOf(bytes) + [Tail(bytes)] else LinesOf(bytes)
    ensures Tail(bytes + [c]) == if c == '\n' then "" else Tail(bytes) + [c]
  {
    assert (bytes + [c])[..|bytes|] == bytes;
  }

  ghost predicate Cuts(a: string, b: string) {
    LinesOf(a + b) == LinesOf(a) + LinesOf(Tail(a) + b) && Tail(a + b) == Tail(Tail(a) + b)
  }

  lemma {:induction false} CutNothing(a: string)
    ensures Cuts(a, "")
  {
    assert a + "" == a && Tail(a) + "" == Tail(a);
    NoNewlineInTail(a);
    PlainText(Tail(a));
  }

  lemma {:induction false} CutOneMore(a: string, b: string, c: char)
    requires Cuts(a, b)
    ensures Cuts(a, b + [c])
  {
    hide LinesOf, Tail;
    assert a + (b + [c]) == (a + b) + [c] && Tail(a) + (b + [c]) == (Tail(a) + b) + [c];
    OneMore(a + b, c);
    OneMore(Tail(a) + b, c);
  }

  /** Cutting a stream in two: the tail of the first part is carried into the second. */
  lemma {:induction false} CutAnywhere(a: string, b: string)
    ensures LinesOf(a + b) == LinesOf(a) + LinesOf(Tail(a) + b)
    ensures Tail(a + b) == Tail(Tail(a) + b)
  {
    hide LinesOf, Tail;
    if b == "" {
      CutNothing(a);
    } else {
      var front, c := b[..|b| - 1], b[|b| - 1];
      CutAnywhere(a, front);
      assert b == front + [c];
      CutOneMore(a, front, c);
    }
  }

  lemma {:induction false} NoNewlineInTail(bytes: string)
    ensures '\n' !in Tail(bytes)
  {
    if bytes != "" && bytes[|bytes| - 1] != '\n' { NoNewlineInTail(bytes[..|bytes| - 1]); }
  }

  lemma {:induction false} PlainText(text: string)
    requires '\n' !in text
    ensures Tail(text) == text && LinesOf(text) == []
  {
    ExtendTail("", text);
    assert "" + text == text;
  }
}
