/** The flips of a sliced streaming pass over several sessions: a reset starts long again, so they need not
    alternate. */
module AtrSessions {
  import opened Arithmetic
  import opened Sequences
  import opened Wrappers
  import opened AtrTrail
  import opened AtrLaws
  import opened AtrStream
  import opened AtrParity

  // ---------------------------------------------------------------- flips in a row

  function FlipOf(row: Row): seq<Flip> {
    if row.stop.Some? && row.stop.value.flip.Some? then [row.stop.value.flip.value] else []
  }

  function RowFlips(rows: seq<Row>): seq<Flip> {
    if rows == [] then [] else RowFlips(rows[..|rows| - 1]) + FlipOf(rows[|rows| - 1])
  }

  /** The flips that a pass reports, in order. */
  function StageFlips(stages: seq<Stage>): seq<Flip> {
    if stages == [] then []
    else
      var last := stages[|stages| - 1];
      StageFlips(stages[..|stages| - 1]) + if last.flip.Some? then [last.flip.value] else []
  }

  lemma {:induction false} RowFlipsAppend(rows: seq<Row>, row: Row)
    ensures RowFlips(rows + [row]) == RowFlips(rows) + FlipOf(row)
  {
    hide FlipOf;
    assert (rows + [row])[..|rows|] == rows;
  }

  lemma {:induction false} RowFlipsConcat(a: seq<Row>, b: seq<Row>)
    ensures RowFlips(a + b) == RowFlips(a) + RowFlips(b)
  {
    if b == [] {
      assert a + b == a;
    } else {
      hide RowFlips, FlipOf;
      var front, last := b[..|b| - 1], b[|b| - 1];
      LastOf(b);
      Associates(a, front, [last]);
      RowFlipsConcat(a, front);
      RowFlipsAppend(a + front, last);
      RowFlipsAppend(front, last);
      Associates(RowFlips(a), RowFlips(front), FlipOf(last));
    }
  }

  /** A batch run shows the flips of its bars. */
  lemma {:induction false} RunFlips(h: seq<Bar>, s: Settings)
    requires Usable(s)
    ensures RowFlips(Rows(h, s)) == Flips(h, s)
  {
    hide StopAfter, TrueRange, Wilders, Loss;
    if h == [] {
    } else {
      RunFlips(Front(h), s);
      RowFlipsConcat(Rows(Front(h), s), [RowAfter(h, s)]);
      assert [RowAfter(h, s)][..0] == [];
      if Seeded(h, s) { FirstStopHasNoFlip(h, s); } else { NoFlipsYet(Front(h), s); }
    }
  }

  lemma {:induction false} FirstStopHasNoFlip(h: seq<Bar>, s: Settings)
    requires Usable(s) && Seeded(h, s)
    ensures Flips(h, s) == Flips(Front(h), s) + FlipOf(RowAfter(h, s))
  {
    hide TrueRange, Wilders, Loss, StopAfter;
  }

  lemma {:induction false} NoFlipsYet(h: seq<Bar>, s: Settings)
    requires Usable(s) && !Seeded(h, s)
    ensures Flips(h, s) == []
  {
  }

  /** A stage reports the flip of its row. */
  lemma {:induction false} StageFlipsAreRowFlips(
      stages: seq<Stage>, bars: seq<Bar>, anchorOf: int -> int, sliced: bool, s: Settings, n: nat)
    requires Usable(s) && IsStream(stages, bars, anchorOf, sliced, s) && n <= |bars|
    ensures StageFlips(stages[..n]) == RowFlips(StreamRows(bars, anchorOf, sliced, s)[..n])
  {
    hide BlockRow, InContext, RowAfter;
    if n > 0 {
      var rows := StreamRows(bars, anchorOf, sliced, s);
      StageFlipsAreRowFlips(stages, bars, anchorOf, sliced, s, n - 1);
      assert stages[..n][..n - 1] == stages[..n - 1] && rows[..n][..n - 1] == rows[..n - 1];
      assert Correct(stages[n - 1], bars, anchorOf, sliced, s, n - 1);
    }
  }

  // ---------------------------------------------------------------- flips across sessions

  function FlipsAcross(blocks: seq<seq<Flip>>): seq<Flip> {
    if blocks == [] then [] else blocks[0] + FlipsAcross(blocks[1..])
  }

  /** The flips of each block on its own. */
  function BlockFlips(blocks: seq<seq<Bar>>, s: Settings): (r: seq<seq<Flip>>)
    requires Usable(s)
    ensures |r| == |blocks| && forall i :: 0 <= i < |blocks| ==> r[i] == Flips(blocks[i], s)
  {
    seq(|blocks|, i requires 0 <= i < |blocks| => Flips(blocks[i], s))
  }

  lemma {:induction false} FlipsAcrossAppend(blocks: seq<seq<Flip>>, last: seq<Flip>)
    ensures FlipsAcross(blocks + [last]) == FlipsAcross(blocks) + last
  {
    if blocks == [] {
      assert [last][1..] == [];
    } else {
      FlipsAcrossAppend(blocks[1..], last);
      assert (blocks + [last])[1..] == blocks[1..] + [last];
    }
  }

  lemma {:induction false} ConcatFlips(blocks: seq<seq<Bar>>, s: Settings)
    requires Usable(s)
    ensures RowFlips(ConcatRows(blocks, s)) == FlipsAcross(BlockFlips(blocks, s))
  {
    hide Rows, Flips, FlipOf;
    if blocks != [] {
      var front, last := blocks[..|blocks| - 1], blocks[|blocks| - 1];
      ConcatFlips(front, s);
      RowFlipsConcat(ConcatRows(front, s), Rows(last, s));
      RunFlips(last, s);
      FlipsAcrossAppend(BlockFlips(front, s), Flips(last, s));
      assert BlockFlips(blocks, s) == BlockFlips(front, s) + [Flips(last, s)];
    }
  }

  /** Only the last session with any flip may leave the state short. */
  ghost predicate EndsLong(blocks: seq<seq<Flip>>) {
    forall i, j :: 0 <= i < j < |blocks| && |blocks[i]| % 2 == 1 ==> blocks[j] == []
  }

  ghost predicate AllEmpty(blocks: seq<seq<Flip>>) {
    forall j :: 0 <= j < |blocks| ==> blocks[j] == []
  }

  lemma {:induction false} EndsLongTail(blocks: seq<seq<Flip>>)
    requires blocks != [] && EndsLong(blocks)
    ensures EndsLong(blocks[1..]) && (|blocks[0]| % 2 == 1 ==> AllEmpty(blocks[1..]))
  {
    var rest := blocks[1..];
    forall i, j | 0 <= i < j < |rest| && |rest[i]| % 2 == 1 ensures rest[j] == [] {
      assert rest[i] == blocks[i + 1] && rest[j] == blocks[j + 1];
    }
  }

  lemma {:induction false} EndsLongCons(blocks: seq<seq<Flip>>)
    requires blocks != [] && EndsLong(blocks[1..]) && (|blocks[0]| % 2 == 1 ==> AllEmpty(blocks[1..]))
    ensures EndsLong(blocks)
  {
    var rest := blocks[1..];
    forall i, j | 0 <= i < j < |blocks| && |blocks[i]| % 2 == 1 ensures blocks[j] == [] {
      assert blocks[j] == rest[j - 1];
      if i > 0 { assert blocks[i] == rest[i - 1]; }
    }
  }

  lemma {:induction false} AcrossIsEmpty(blocks: seq<seq<Flip>>)
    ensures FlipsAcross(blocks) == [] <==> AllEmpty(blocks)
  {
    if blocks != [] {
      AcrossIsEmpty(blocks[1..]);
      assert forall i :: 0 < i < |blocks| ==> blocks[i] == blocks[1..][i - 1];
    }
  }

  lemma {:induction false} AlternatingAppend(a: seq<Flip>, b: seq<Flip>)
    requires Alternating(a)
    ensures Alternating(a + b) <==> AlternatingFrom(b, if |a| % 2 == 0 then Sell else Buy)
  {
    var c, first := a + b, if |a| % 2 == 0 then Sell else Buy;
    if Alternating(c) {
      forall k | 0 <= k < |b| ensures b[k] == if k % 2 == 0 then first else Other(first) {
        assert c[|a| + k] == b[k];
        Parity(|a|, k);
      }
    }
    if AlternatingFrom(b, first) {
      forall k | 0 <= k < |c| ensures c[k] == if k % 2 == 0 then Sell else Buy {
        if k >= |a| {
          assert c[k] == b[k - |a|];
          Parity(|a|, k - |a|);
        }
      }
    }
  }

  lemma {:induction false} Parity(n: nat, k: nat)
    ensures (n + k) % 2 == if n % 2 == 0 then k % 2 else 1 - k % 2
  {
  }

  lemma {:induction false} FlipsStartWithSell(blocks: seq<seq<Flip>>)
    requires forall i :: 0 <= i < |blocks| ==> Alternating(blocks[i])
    ensures FlipsAcross(blocks) != [] ==> FlipsAcross(blocks)[0] == Sell
  {
    if blocks != [] {
      FlipsStartWithSell(blocks[1..]);
    }
  }

  /** Flip lists that alternate one by one alternate together exactly when no list of odd length is followed
      by one that is not empty. */
  lemma {:induction false} ListsAlternate(blocks: seq<seq<Flip>>)
    requires forall i :: 0 <= i < |blocks| ==> Alternating(blocks[i])
    ensures Alternating(FlipsAcross(blocks)) <==> EndsLong(blocks)
  {
    if blocks == [] {
    } else {
      hide EndsLong, AllEmpty;
      var rest := blocks[1..];
      ListsAlternate(rest);
      FlipsStartWithSell(rest);
      AcrossIsEmpty(rest);
      if EndsLong(blocks) { EndsLongTail(blocks); }
      if EndsLong(rest) && (|blocks[0]| % 2 == 1 ==> AllEmpty(rest)) { EndsLongCons(blocks); }
      AlternatingAppend(blocks[0], FlipsAcross(rest));
    }
  }

  /** A reset starts long again: the flips of a sliced pass alternate exactly when no session that ended short
      is followed by one with a flip. */
  lemma {:induction false} SlicedFlipsAlternate(
      stages: seq<Stage>, bars: seq<Bar>, anchorOf: int -> int, s: Settings)
    requires Usable(s) && IsStream(stages, bars, anchorOf, true, s)
    ensures StageFlips(stages) == FlipsAcross(BlockFlips(Blocks(bars, anchorOf), s))
    ensures Alternating(StageFlips(stages)) <==> EndsLong(BlockFlips(Blocks(bars, anchorOf), s))
  {
    hide Flips, StreamRows, IsStream, Blocks, ConcatRows, EndsLong, FlipsAcross, Alternating;
    StreamLength(stages, bars, anchorOf, s);
    StageFlipsAreRowFlips(stages, bars, anchorOf, true, s, |bars|);
    SlicedStreamIsConcatenatedBatch(bars, anchorOf, s);
    var blocks := Blocks(bars, anchorOf);
    ConcatFlips(blocks, s);
    forall i | 0 <= i < |blocks| ensures Alternating(BlockFlips(blocks, s)[i]) { FlipsAlternate(blocks[i], s); }
    ListsAlternate(BlockFlips(blocks, s));
  }

  lemma {:induction false} StreamLength(stages: seq<Stage>, bars: seq<Bar>, anchorOf: int -> int, s: Settings)
    requires Usable(s) && IsStream(stages, bars, anchorOf, true, s)
    ensures stages[..|bars|] == stages
    ensures StreamRows(bars, anchorOf, true, s)[..|bars|] == StreamRows(bars, anchorOf, true, s)
  {
  }

  // ---------------------------------------------------------------- an example

  // A session of three bars at one price, without a range: the loss is nil, and the third bar's close reaches
  // the stop.
  function Flat(ts: int): Bar { Bar(ts, 10.0, 10.0, 10.0, 10.0, 0) }

  const FLAT_RULE := Settings(1, 3.5, "sma5", false)

  /** Two sessions of three flat bars each, at any times. */
  predicate TwoFlatSessions(bars: seq<Bar>, anchorOf: int -> int) {
    && |bars| == 6 && (forall k :: 0 <= k < 6 ==> bars[k].(ts := 0) == Flat(0))
    && (forall k :: 0 <= k < 3 ==> anchorOf(bars[k].ts) == anchorOf(bars[0].ts))
    && (forall k :: 3 <= k < 6 ==> anchorOf(bars[k].ts) == anchorOf(bars[3].ts))
    && anchorOf(bars[0].ts) != anchorOf(bars[3].ts)
  }

  lemma {:induction false} FlatRanges(h: seq<Bar>)
    requires |h| == 2 || |h| == 3
    requires forall k :: 0 <= k < |h| ==> h[k].(ts := 0) == Flat(0)
    ensures TrueRange(h, FLAT_RULE) == 0.0
  {
    hide Ratio, Times;
    var xs := Spans(h[|h| - 1..]);
    assert xs == [0.0] && xs[..0] == [];
    assert Sum(xs) == 0.0;
    TimesUnits(1.0);
    RatioUnique(0.0, 1.0, 0.0);
    assert Mean(xs, 1) == 0.0;
    var last, previous := h[|h| - 1], h[|h| - 2];
    assert Span(last) == 0.0 && last.high == previous.close == last.low;
    assert CappedSpan(h, 1) == 0.0;
  }

  lemma {:induction false} FlatSession(h: seq<Bar>)
    requires |h| == 3 && forall k :: 0 <= k < 3 ==> h[k].(ts := 0) == Flat(0)
    ensures Flips(h, FLAT_RULE) == [Sell]
  {
    hide TrueRange, Ratio;
    var two := Front(h);
    FlatRanges(h);
    FlatRanges(two);
    assert !Seeded(Front(two), FLAT_RULE);
    var ts := TrueRanges(two, FLAT_RULE);
    assert TrueRanges(Front(two), FLAT_RULE) == [];
    assert ts == [0.0] && ts[..0] == [];
    assert Sum(ts) == 0.0;
    RatioUnique(0.0, 1.0, 0.0);
    assert Wilders(two, FLAT_RULE) == 0.0;
    assert Wilders(h, FLAT_RULE) == 0.0;
    TimesUnits(3.5);
    assert StopAfter(two, FLAT_RULE) == Stop(Long, 10.0, None, 0);
    assert StopAfter(h, FLAT_RULE).flip == Some(Sell);
    assert Flips(Front(two), FLAT_RULE) == [];
    assert Flips(two, FLAT_RULE) == [];
  }

  lemma {:induction false} TwoBlocks(bars: seq<Bar>, anchorOf: int -> int)
    requires TwoFlatSessions(bars, anchorOf)
    ensures Blocks(bars, anchorOf) == [bars[..3], bars[3..]]
  {
    assert Boundary(bars, anchorOf, true, 3);
    assert !Boundary(bars, anchorOf, true, 4) && !Boundary(bars, anchorOf, true, 5);
    assert BlockStart(bars, anchorOf, true, 5) == 3;
    assert !Boundary(bars[..3], anchorOf, true, 1) && !Boundary(bars[..3], anchorOf, true, 2);
    assert BlockStart(bars[..3], anchorOf, true, 2) == 0;
    assert bars[..3][0..] == bars[..3];
    assert bars[..3][..0] == [];
    assert Blocks([], anchorOf) == [];
    assert Blocks(bars[..3], anchorOf) == [bars[..3]];
  }

  /** A sliced pass over two flat sessions reports SELL twice in a row, whatever their times and anchors. */
  lemma {:induction false} TwoSells(stages: seq<Stage>, bars: seq<Bar>, anchorOf: int -> int)
    requires TwoFlatSessions(bars, anchorOf) && IsStream(stages, bars, anchorOf, true, FLAT_RULE)
    ensures StageFlips(stages) == [Sell, Sell] && !Alternating(StageFlips(stages))
  {
    hide IsStream, Flips, Blocks, FlipsAcross, StageFlips, EndsLong;
    SlicedFlipsAlternate(stages, bars, anchorOf, FLAT_RULE);
    TwoBlocks(bars, anchorOf);
    FlatSession(bars[..3]);
    FlatSession(bars[3..]);
    assert BlockFlips(Blocks(bars, anchorOf), FLAT_RULE) == [[Sell], [Sell]];
    AcrossTwo([Sell], [Sell]);
    assert StageFlips(stages)[1] == Sell;
  }

  lemma {:induction false} AcrossTwo(a: seq<Flip>, b: seq<Flip>)
    ensures FlipsAcross([a, b]) == a + b
  {
    assert FlipsAcross([]) == [];
    FlipsAcrossAppend([], a);
    FlipsAcrossAppend([a], b);
    assert [] + [a] == [a] && [a] + [b] == [a, b] && [] + a == a;
  }
}
