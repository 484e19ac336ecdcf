/** The log sampler of scripts/option_a_treatment_1008_sampler.py: a cursor into an append-only file,
    advanced once a second, that counts complete lines holding the marker. */
module LogCursor {
  import opened Wrappers
  import opened ByteLines

  const MARKER := "1008 (policy violation)"

  datatype Stat = Stat(device: int, inode: int, size: nat)

  /** What one sample sees: the file's state before and after the read, and the bytes it could read. */
  datatype View = View(stat: Stat, content: string, after: Stat)

  datatype Cursor = Cursor(device: int, inode: int, offset: nat, pending: string)

  datatype Status = Baseline | Fine | StopTrigger | RotatedOrTruncated | ChangedDuringRead | Unreadable

  datatype Row = Row(newLines: nat, readFrom: nat, status: Status)

  predicate MarkerAt(line: string, k: nat) {
    k + |MARKER| <= |line| && line[k..k + |MARKER|] == MARKER
  }

  predicate Marked(line: string) {
    exists k :: 0 <= k <= |line| && MarkerAt(line, k)
  }

  /** A line is marked when the marker stands anywhere in it. */
  lemma {:induction false} MarkedInFields(line: string)
    ensures Marked(line) <==> exists a, b :: line == a + "1008 (policy violation)" + b
  {
    if Marked(line) {
      var k :| 0 <= k <= |line| && MarkerAt(line, k);
      assert line == line[..k] + "1008 (policy violation)" + line[k + |MARKER|..];
    }
    if a, b :| line == a + "1008 (policy violation)" + b {
      assert MarkerAt(line, |a|);
    }
  }

  function CountMarked(lines: seq<string>): nat {
    if lines == [] then 0 else CountMarked(lines[..|lines| - 1]) + if Marked(lines[|lines| - 1]) then 1 else 0
  }

  /** Reading `count` bytes from an offset: fewer when the content ends. */
  function ReadFrom(content: string, offset: nat, count: nat): string {
    if offset >= |content| then ""
    else if offset + count >= |content| then content[offset..]
    else content[offset..offset + count]
  }

  function SampleLog(view: View, cursor: Option<Cursor>): (r: (Row, Cursor)) {
    var stat, after := view.stat, view.after;
    match cursor
    case None => (Row(0, stat.size, Baseline), Cursor(stat.device, stat.inode, stat.size, ""))
    case Some(c) =>
      if stat.device != c.device || stat.inode != c.inode || stat.size < c.offset then
        (Row(0, c.offset, RotatedOrTruncated), Cursor(stat.device, stat.inode, stat.size, ""))
      else
        var appended := ReadFrom(view.content, c.offset, stat.size - c.offset);
        if after.device != stat.device || after.inode != stat.inode || after.size < stat.size then
          (Row(0, c.offset, ChangedDuringRead), Cursor(after.device, after.inode, after.size, ""))
        else
          var bytes := c.pending + appended;
          var marked := CountMarked(LinesOf(bytes));
          (Row(marked, c.offset, if marked > 0 then StopTrigger else Fine),
           Cursor(stat.device, stat.inode, stat.size, Tail(bytes)))
  }

  /** Another file, one shorter than what was read, and one that changed or shrank during the read are unknown: nothing
      is counted, and the next sample goes on as after a baseline of what was seen last. */
  lemma {:induction false} UnknownRestarts(view: View, c: Cursor)
    ensures var (row, next) := SampleLog(view, Some(c));
      var was, now := view.stat, view.after;
      && row.status != Baseline && row.status != Unreadable && row.readFrom == c.offset
      && (row.status == RotatedOrTruncated <==>
           was.device != c.device || was.inode != c.inode || was.size < c.offset)
      && (row.status == ChangedDuringRead ==>
           now.device != was.device || now.inode != was.inode || now.size < was.size)
      && (row.status == Fine || row.status == StopTrigger ==>
           now.device == was.device && now.inode == was.inode && now.size >= was.size)
      && (row.status == RotatedOrTruncated ==> row.newLines == 0 && next == SampleLog(view, None).1)
      && (row.status == ChangedDuringRead ==> row.newLines == 0 && next == SampleLog(view.(stat := now), None).1)
      && SampleLog(view, None) == (Row(0, was.size, Baseline), Cursor(was.device, was.inode, was.size, ""))
  {
    hide CountMarked, LinesOf, Tail, ReadFrom;
  }

  // ---------------------------------------------------------------- runs over an append-only file

  /** The views are of one file that only grows: each content is a prefix of the final one, at least
      as long as the size seen first, and sizes never fall. */
  ghost predicate AppendOnly(views: seq<View>, file: string) {
    && (forall i :: 0 <= i < |views| ==>
          var v := views[i];
          && v.content <= file && v.stat.size <= |v.content|
          && v.after.device == v.stat.device && v.after.inode == v.stat.inode && v.after.size >= v.stat.size)
    && (forall i, j :: 0 <= i < j < |views| ==>
          views[i].stat.device == views[j].stat.device && views[i].stat.inode == views[j].stat.inode
          && views[i].stat.size <= views[j].stat.size)
  }

  /** The cursor after sampling every view in turn. */
  function CursorAfter(views: seq<View>): Option<Cursor> {
    if views == [] then None else Some(SampleLog(views[|views| - 1], CursorAfter(views[..|views| - 1])).1)
  }

  function RowAfter(views: seq<View>): Row
    requires views != []
  {
    SampleLog(views[|views| - 1], CursorAfter(views[..|views| - 1])).0
  }

  function TotalNewLines(views: seq<View>): nat {
    if views == [] then 0 else TotalNewLines(views[..|views| - 1]) + RowAfter(views).newLines
  }

  function Between(file: string, from: nat, to: nat): string {
    if from <= to <= |file| then file[from..to] else ""
  }

  /** The bytes appended between the baseline and the last sample. */
  function Appended(views: seq<View>, file: string): string
    requires views != []
  {
    Between(file, views[0].stat.size, views[|views| - 1].stat.size)
  }

  lemma {:induction false} CountConcat(a: seq<string>, b: seq<string>)
    ensures CountMarked(a + b) == CountMarked(a) + CountMarked(b)
  {
    if b == [] {
      assert a + b == a;
    } else {
      assert (a + b)[..|a + b| - 1] == a + b[..|b| - 1];
      CountConcat(a, b[..|b| - 1]);
    }
  }

  /** One sample of a file that only grew. */
  lemma {:induction false} GrownSample(view: View, c: Cursor, file: string)
    requires view.content <= file && c.offset <= view.stat.size <= |view.content|
    requires view.stat.device == c.device && view.stat.inode == c.inode
    requires view.after.device == view.stat.device && view.after.inode == view.stat.inode &&
      view.after.size >= view.stat.size
    ensures var bytes := c.pending + Between(file, c.offset, view.stat.size);
      var (row, next) := SampleLog(view, Some(c));
      && row.newLines == CountMarked(LinesOf(bytes))
      && row.status == (if row.newLines > 0 then StopTrigger else Fine)
      && next == Cursor(view.stat.device, view.stat.inode, view.stat.size, Tail(bytes))
  {
    hide CountMarked, LinesOf, Tail;
    assert ReadFrom(view.content, c.offset, view.stat.size - c.offset) == file[c.offset..view.stat.size];
  }

  lemma {:induction false} BetweenJoins(file: string, a: nat, b: nat, c: nat)
    requires a <= b <= c <= |file|
    ensures Between(file, a, c) == Between(file, a, b) + Between(file, b, c)
  {
  }

  /** The last two views of a growing file. */
  lemma {:induction false} LastGrows(views: seq<View>, file: string)
    requires AppendOnly(views, file) && |views| > 1
    ensures AppendOnly(views[..|views| - 1], file)
    ensures var first, prev, view := views[0], views[|views| - 2], views[|views| - 1];
      && first.stat.size <= prev.stat.size <= view.stat.size <= |view.content| && view.content <= file
      && view.stat.device == prev.stat.device && view.stat.inode == prev.stat.inode
      && view.after.device == view.stat.device && view.after.inode == view.stat.inode &&
         view.after.size >= view.stat.size
  {
  }

  /** However the samples cut the bytes: the new-line counts add up to the marked lines completed since
      the baseline, and `pending` is exactly what follows the last newline. */
  lemma {:induction false} RunCountsMarkedLines(views: seq<View>, file: string)
    requires AppendOnly(views, file) && views != []
    ensures var bytes := Appended(views, file);
      var last := views[|views| - 1].stat;
      && TotalNewLines(views) == CountMarked(LinesOf(bytes))
      && CursorAfter(views) == Some(Cursor(last.device, last.inode, last.size, Tail(bytes)))
      && RowAfter(views).status ==
         (if |views| == 1 then Baseline else if RowAfter(views).newLines > 0 then StopTrigger else Fine)
      && (|views| == 1 ==> RowAfter(views).newLines == 0)
  {
    if |views| == 1 {
    } else {
      hide SampleLog, CountMarked, LinesOf, Tail, AppendOnly, Between;
      var front, view := views[..|views| - 1], views[|views| - 1];
      LastGrows(views, file);
      RunCountsMarkedLines(front, file);
      var first, from := views[0].stat.size, views[|views| - 2].stat.size;
      GrownSample(view, CursorAfter(front).value, file);
      BetweenJoins(file, first, from, view.stat.size);
      var before, more := Between(file, first, from), Between(file, from, view.stat.size);
      CutAnywhere(before, more);
      CountConcat(LinesOf(before), LinesOf(Tail(before) + more));
    }
  }

  /** Some sample up to the last raises the trigger. */
  ghost predicate Triggered(views: seq<View>) {
    exists k :: 0 <= k < |views| && RowAt(views, k).status == StopTrigger
  }

  function RowAt(views: seq<View>, k: nat): Row
    requires k < |views|
  {
    RowAfter(views[..k + 1])
  }

  /** A trigger is raised exactly when a marked line was completed since the baseline. */
  lemma {:induction false} TriggersAreExact(views: seq<View>, file: string)
    requires AppendOnly(views, file) && views != []
    ensures Triggered(views) <==> CountMarked(LinesOf(Appended(views, file))) > 0
  {
    hide SampleLog, CountMarked, LinesOf, AppendOnly, Appended, CursorAfter;
    RunCountsMarkedLines(views, file);
    var n := |views|;
    assert views[..n] == views;
    assert RowAt(views, n - 1) == RowAfter(views);
    if n > 1 {
      var front := views[..n - 1];
      LastGrows(views, file);
      RunCountsMarkedLines(front, file);
      TriggersAreExact(front, file);
      forall k | 0 <= k < n - 1 ensures RowAt(front, k) == RowAt(views, k) { assert front[..k + 1] == views[..k + 1]; }
    }
  }

  /** Two runs over the same growth, sampled at different moments, report the same totals. */
  lemma {:induction false} SamplingMomentsDoNotMatter(views: seq<View>, others: seq<View>, file: string)
    requires AppendOnly(views, file) && AppendOnly(others, file) && views != [] && others != []
    requires views[0].stat == others[0].stat && views[|views| - 1].stat == others[|others| - 1].stat
    ensures TotalNewLines(views) == TotalNewLines(others) && CursorAfter(views) == CursorAfter(others)
  {
    RunCountsMarkedLines(views, file);
    RunCountsMarkedLines(others, file);
  }

  // ---------------------------------------------------------------- the collector

  predicate AllRead(samples: seq<Option<View>>) {
    forall k :: 0 <= k < |samples| ==> samples[k].Some?
  }

  function Views(samples: seq<Option<View>>): (r: seq<View>)
    requires AllRead(samples)
    ensures |r| == |samples|
  {
    seq(|samples|, k requires 0 <= k < |samples| => samples[k].value)
  }

  /** The row that sample k must write: all samples before it were read. */
  ghost predicate Writes(samples: seq<Option<View>>, k: nat, row: Row) {
    && k < |samples| && AllRead(samples[..k])
    && if samples[k].None? then row.status == Unreadable
       else row == SampleLog(samples[k].value, CursorAfter(Views(samples[..k]))).0
  }

  predicate Goes(row: Row) { row.status == Baseline || row.status == Fine }

  /** The loop of `main`: it stops at the first trigger with 3, at the first unknown evidence with 2, and
      returns 0 when the time is up. */
  method Watch(samples: seq<Option<View>>) returns (code: int, rows: seq<Row>)
    ensures |rows| <= |samples| && forall k :: 0 <= k < |rows| ==> Writes(samples, k, rows[k])
    ensures forall k :: 0 <= k < |rows| - 1 ==> Goes(rows[k])
    ensures code == if rows != [] && !Goes(rows[|rows| - 1]) then
                      if rows[|rows| - 1].status == StopTrigger then 3 else 2
                    else 0
    ensures code == 0 ==> |rows| == |samples|
  {
    hide SampleLog, Writes, CursorAfter;
    var cursor: Option<Cursor> := None;
    rows := [];
    NoSamples(samples);
    for i := 0 to |samples|
      invariant |rows| == i
      invariant AllRead(samples[..i]) && cursor == CursorAfter(Views(samples[..i]))
      invariant forall k :: 0 <= k < i ==> Goes(rows[k]) && Writes(samples, k, rows[k])
    {
      if samples[i].None? {
        WritesUnreadable(samples, i);
        return 2, rows + [Row(0, 0, Unreadable)];
      }
      var (row, next) := SampleLog(samples[i].value, cursor);
      ReadNext(samples, i);
      cursor := Some(next);
      rows := rows + [row];
      if row.status == StopTrigger { return 3, rows; }
      if !Goes(row) { return 2, rows; }
    }
    code := 0;
  }

  lemma {:induction false} NoSamples(samples: seq<Option<View>>)
    ensures AllRead(samples[..0]) && CursorAfter(Views(samples[..0])) == None
  {
  }

  lemma {:induction false} WritesUnreadable(samples: seq<Option<View>>, i: nat)
    requires i < |samples| && AllRead(samples[..i]) && samples[i].None?
    ensures Writes(samples, i, Row(0, 0, Unreadable))
  {
  }

  lemma {:induction false} ReadNext(samples: seq<Option<View>>, i: nat)
    requires i < |samples| && AllRead(samples[..i]) && samples[i].Some?
    ensures AllRead(samples[..i + 1])
    ensures var (row, next) := SampleLog(samples[i].value, CursorAfter(Views(samples[..i])));
      CursorAfter(Views(samples[..i + 1])) == Some(next) && Writes(samples, i, row)
  {
    hide SampleLog;
    assert Views(samples[..i + 1])[..i] == Views(samples[..i]);
  }
}
