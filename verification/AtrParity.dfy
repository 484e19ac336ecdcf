/** How the two engines and their settings compare: sliced streaming against batch runs per session, and
    guarded against unguarded stages. */
module AtrParity {
  import opened Sequences
  import opened Wrappers
  import opened AtrTrail
  import opened AtrLaws
  import opened AtrStream

  // ---------------------------------------------------------------- streaming against batch

  /** The rows that a streaming pass shows. */
  function StreamRows(bars: seq<Bar>, anchorOf: int -> int, sliced: bool, s: Settings): seq<Row>
    requires Usable(s)
  {
    seq(|bars|, i requires 0 <= i < |bars| => BlockRow(bars, anchorOf, sliced, s, i))
  }

  /** The maximal runs of bars with one session anchor, in order. */
  function Blocks(bars: seq<Bar>, anchorOf: int -> int): seq<seq<Bar>> {
    if bars == [] then []
    else
      var b := BlockStart(bars, anchorOf, true, |bars| - 1);
      Blocks(bars[..b], anchorOf) + [bars[b..]]
  }

  function ConcatRows(blocks: seq<seq<Bar>>, s: Settings): seq<Row>
    requires Usable(s)
  {
    if blocks == [] then [] else ConcatRows(blocks[..|blocks| - 1], s) + Rows(blocks[|blocks| - 1], s)
  }

  lemma {:induction false} StartOfPrefix(bars: seq<Bar>, anchorOf: int -> int, sliced: bool, n: nat, i: nat)
    requires i < n <= |bars|
    ensures BlockStart(bars[..n], anchorOf, sliced, i) == BlockStart(bars, anchorOf, sliced, i)
  {
    assert Boundary(bars[..n], anchorOf, sliced, i) == Boundary(bars, anchorOf, sliced, i);
    if !Boundary(bars, anchorOf, sliced, i) { StartOfPrefix(bars, anchorOf, sliced, n, i - 1); }
  }

  /** All bars of a block have its start. */
  lemma {:induction false} StartWithinBlock(bars: seq<Bar>, anchorOf: int -> int, sliced: bool, i: nat, last: nat)
    requires last < |bars| && BlockStart(bars, anchorOf, sliced, last) <= i <= last
    ensures BlockStart(bars, anchorOf, sliced, i) == BlockStart(bars, anchorOf, sliced, last)
    decreases last - i
  {
    if i < last { StartWithinBlock(bars, anchorOf, sliced, i, last - 1); }
  }

  lemma {:induction false} EarlierBlocks(bars: seq<Bar>, anchorOf: int -> int, s: Settings, b: nat)
    requires Usable(s) && b <= |bars|
    ensures StreamRows(bars, anchorOf, true, s)[..b] == StreamRows(bars[..b], anchorOf, true, s)
  {
    hide RowAfter, BlockStart;
    forall i | 0 <= i < b
      ensures BlockRow(bars[..b], anchorOf, true, s, i) == BlockRow(bars, anchorOf, true, s, i)
    {
      StartOfPrefix(bars, anchorOf, true, b, i);
      SliceOfPrefix(bars, b, BlockStart(bars, anchorOf, true, i), i + 1);
    }
  }

  lemma {:induction false} LastBlock(bars: seq<Bar>, anchorOf: int -> int, s: Settings, b: nat)
    requires Usable(s) && bars != [] && b == BlockStart(bars, anchorOf, true, |bars| - 1)
    ensures StreamRows(bars, anchorOf, true, s)[b..] == Rows(bars[b..], s)
  {
    hide RowAfter, BlockStart, Rows;
    forall i | b <= i < |bars| ensures Rows(bars[b..], s)[i - b] == BlockRow(bars, anchorOf, true, s, i) {
      StartWithinBlock(bars, anchorOf, true, i, |bars| - 1);
      RowIs(bars[b..], s, i - b);
      SliceOfSuffix(bars, b, i + 1);
    }
  }

  /** With slicing, one streaming pass is the concatenation of independent batch runs over the
      maximal same-anchor blocks. */
  lemma {:induction false} SlicedStreamIsConcatenatedBatch(bars: seq<Bar>, anchorOf: int -> int, s: Settings)
    requires Usable(s)
    ensures StreamRows(bars, anchorOf, true, s) == ConcatRows(Blocks(bars, anchorOf), s)
  {
    hide BlockRow, BlockStart, Rows;
    if bars != [] {
      var b := BlockStart(bars, anchorOf, true, |bars| - 1);
      SlicedStreamIsConcatenatedBatch(bars[..b], anchorOf, s);
      EarlierBlocks(bars, anchorOf, s, b);
      LastBlock(bars, anchorOf, s, b);
      var rows, blocks := StreamRows(bars, anchorOf, true, s), Blocks(bars, anchorOf);
      assert rows == rows[..b] + rows[b..];
      assert blocks[..|blocks| - 1] == Blocks(bars[..b], anchorOf);
    }
  }

  /** Without slicing, one streaming pass is one batch run. */
  lemma {:induction false} ContinuousStreamIsBatch(bars: seq<Bar>, anchorOf: int -> int, s: Settings)
    requires Usable(s)
    ensures StreamRows(bars, anchorOf, false, s) == Rows(bars, s)
  {
    hide RowAfter, Rows;
    forall i | 0 <= i < |bars| ensures StreamRows(bars, anchorOf, false, s)[i] == Rows(bars, s)[i] {
      assert BlockStart(bars, anchorOf, false, i) == 0;
      RowIs(bars, s, i);
      assert Upto(bars, i) == bars[0..i + 1];
    }
  }

  function Flatten(blocks: seq<seq<Bar>>): seq<Bar> {
    if blocks == [] then [] else Flatten(blocks[..|blocks| - 1]) + blocks[|blocks| - 1]
  }

  ghost predicate OneAnchor(block: seq<Bar>, anchorOf: int -> int) {
    block != [] && forall k :: 0 <= k < |block| ==> anchorOf(block[k].ts) == anchorOf(block[0].ts)
  }

  ghost predicate Maximal(blocks: seq<seq<Bar>>, anchorOf: int -> int) {
    && (forall j :: 0 <= j < |blocks| ==> OneAnchor(blocks[j], anchorOf))
    && (forall j :: 0 < j < |blocks| ==> anchorOf(blocks[j][0].ts) != anchorOf(blocks[j - 1][0].ts))
  }

  /** The blocks partition the series. */
  lemma {:induction false} BlocksPartition(bars: seq<Bar>, anchorOf: int -> int)
    ensures Flatten(Blocks(bars, anchorOf)) == bars
  {
    if bars != [] {
      hide BlockStart;
      var b := BlockStart(bars, anchorOf, true, |bars| - 1);
      BlocksPartition(bars[..b], anchorOf);
      var before := Blocks(bars[..b], anchorOf);
      assert (before + [bars[b..]])[..|before|] == before;
      assert bars == bars[..b] + bars[b..];
    }
  }

  /** Each block holds one anchor, and neighbours differ. */
  lemma {:induction false} BlocksAreMaximal(bars: seq<Bar>, anchorOf: int -> int)
    ensures Maximal(Blocks(bars, anchorOf), anchorOf)
  {
    if bars != [] {
      hide BlockStart, Flatten;
      var b := BlockStart(bars, anchorOf, true, |bars| - 1);
      BlocksAreMaximal(bars[..b], anchorOf);
      SameAnchor(bars, anchorOf, b, |bars| - 1);
      if b > 0 {
        BlocksPartition(bars[..b], anchorOf);
        LastAnchor(Blocks(bars[..b], anchorOf), anchorOf);
      }
      NextBlock(Blocks(bars[..b], anchorOf), bars[b..], anchorOf);
    }
  }

  lemma {:induction false} NextBlock(blocks: seq<seq<Bar>>, block: seq<Bar>, anchorOf: int -> int)
    requires Maximal(blocks, anchorOf) && OneAnchor(block, anchorOf)
    requires blocks != [] ==> anchorOf(blocks[|blocks| - 1][0].ts) != anchorOf(block[0].ts)
    ensures Maximal(blocks + [block], anchorOf)
  {
    hide OneAnchor;
    var r := blocks + [block];
    forall j | 0 <= j < |r| ensures OneAnchor(r[j], anchorOf) {
      assert j < |blocks| ==> OneAnchor(blocks[j], anchorOf);
    }
  }

  lemma {:induction false} LastAnchor(blocks: seq<seq<Bar>>, anchorOf: int -> int)
    requires blocks != [] && Maximal(blocks, anchorOf)
    ensures var all, last := Flatten(blocks), blocks[|blocks| - 1];
      all != [] && anchorOf(all[|all| - 1].ts) == anchorOf(last[0].ts)
  {
    var all, last := Flatten(blocks), blocks[|blocks| - 1];
    assert OneAnchor(last, anchorOf);
    assert all[|all| - 1] == last[|last| - 1];
  }

  lemma {:induction false} SameAnchor(bars: seq<Bar>, anchorOf: int -> int, b: nat, i: nat)
    requires b <= i < |bars| && forall k :: b < k <= i ==> !Boundary(bars, anchorOf, true, k)
    ensures forall k :: b <= k <= i ==> anchorOf(bars[k].ts) == anchorOf(bars[b].ts)
  {
    if b < i {
      SameAnchor(bars, anchorOf, b, i - 1);
      assert !Boundary(bars, anchorOf, true, i);
    }
  }

  // ---------------------------------------------------------------- first divergence

  datatype Field = InputLength | InputOhlcv | SessionBoundary | ModifiedTrueRangeField
                 | WildersSeedOrUpdate | AtrLoss | TrailStateOrFlip

  predicate SameInput(l: Stage, r: Stage) { l.bar == r.bar }

  predicate SameSession(l: Stage, r: Stage) { l.reset == r.reset && l.anchor == r.anchor }

  predicate SameStop(l: Stage, r: Stage) { l.trail == r.trail && l.state == r.state && l.flip == r.flip }

  /** Two stages agree in every compared field. */
  ghost predicate Same(l: Stage, r: Stage) {
    SameInput(l, r) && SameSession(l, r) && l.modifiedTr == r.modifiedTr && l.wilders == r.wilders
    && l.loss == r.loss && SameStop(l, r)
  }

  /** `f` is the earliest calculation stage at which the two differ. */
  ghost predicate Earliest(l: Stage, r: Stage, f: Field) {
    match f
    case InputLength => false
    case InputOhlcv => !SameInput(l, r)
    case SessionBoundary => SameInput(l, r) && !SameSession(l, r)
    case ModifiedTrueRangeField => SameInput(l, r) && SameSession(l, r) && l.modifiedTr != r.modifiedTr
    case WildersSeedOrUpdate =>
      SameInput(l, r) && SameSession(l, r) && l.modifiedTr == r.modifiedTr && l.wilders != r.wilders
    case AtrLoss =>
      SameInput(l, r) && SameSession(l, r) && l.modifiedTr == r.modifiedTr && l.wilders == r.wilders && l.loss != r.loss
    case TrailStateOrFlip =>
      SameInput(l, r) && SameSession(l, r) && l.modifiedTr == r.modifiedTr && l.wilders == r.wilders
      && l.loss == r.loss && !SameStop(l, r)
  }

  ghost predicate FirstDifference(left: seq<Stage>, right: seq<Stage>, i: nat, f: Field) {
    if |left| != |right| then f == InputLength && i == if |left| < |right| then |left| else |right|
    else
      && i < |left| && Earliest(left[i], right[i], f)
      && forall k :: 0 <= k < i ==> Same(left[k], right[k])
  }

  method FirstDivergence(left: seq<Stage>, right: seq<Stage>) returns (r: Option<(nat, Field)>)
    ensures r.None? <==> |left| == |right| && forall k :: 0 <= k < |left| ==> Same(left[k], right[k])
    ensures r.Some? ==> FirstDifference(left, right, r.value.0, r.value.1)
  {
    if |left| != |right| {
      return Some((if |left| <= |right| then |left| else |right|, InputLength));
    }
    for index := 0 to |left|
      invariant forall k :: 0 <= k < index ==> Same(left[k], right[k])
    {
      var lhs, rhs := left[index], right[index];
      if lhs.bar != rhs.bar { return Some((index, InputOhlcv)); }
      if lhs.reset != rhs.reset || lhs.anchor != rhs.anchor { return Some((index, SessionBoundary)); }
      if lhs.modifiedTr != rhs.modifiedTr { return Some((index, ModifiedTrueRangeField)); }
      if lhs.wilders != rhs.wilders { return Some((index, WildersSeedOrUpdate)); }
      if lhs.loss != rhs.loss { return Some((index, AtrLoss)); }
      if lhs.trail != rhs.trail || lhs.state != rhs.state || lhs.flip != rhs.flip {
        return Some((index, TrailStateOrFlip));
      }
    }
    return None;
  }

  // ---------------------------------------------------------------- where the guard shows

  /** Bars b to k, both included. */
  function Part(bars: seq<Bar>, b: nat, k: nat): seq<Bar>
    requires b <= k < |bars|
  {
    bars[b..k + 1]
  }

  /** A guarded and an unguarded pass first differ, if at all, at the true range of a bar whose
      in-session gap exceeds the bound: never at an earlier input stage or a later one. */
  lemma {:induction false} GuardDivergesAtTrueRange(
      guarded: seq<Stage>, unguarded: seq<Stage>, bars: seq<Bar>, anchorOf: int -> int, sliced: bool,
      s: Settings, i: nat, f: Field)
    requires Usable(s)
    requires IsStream(guarded, bars, anchorOf, sliced, s.(guard := true))
    requires IsStream(unguarded, bars, anchorOf, sliced, s.(guard := false))
    requires FirstDifference(guarded, unguarded, i, f)
    ensures f == ModifiedTrueRangeField
    ensures guarded[i].gapMs > GAP_BOUND_MS
  {
    hide RowAfter, BlockStart, RangesAgree, SameRangeAt, Shows, InContext, Same, Earliest;
    var b := BlockStart(bars, anchorOf, sliced, i);
    BothStreams(guarded, unguarded, bars, anchorOf, sliced, s, i);
    forall k | b <= k < i ensures SameRangeAt(Part(bars, b, k), s) {
      BothStreams(guarded, unguarded, bars, anchorOf, sliced, s, k);
      StartWithinBlock(bars, anchorOf, sliced, k, i);
      SameMeansSameRange(guarded[k], unguarded[k], Part(bars, b, k), s);
    }
    EarliestIsRange(guarded[i], unguarded[i], bars, anchorOf, sliced, s, i, f);
  }

  lemma {:induction false} BothStreams(
      guarded: seq<Stage>, unguarded: seq<Stage>, bars: seq<Bar>, anchorOf: int -> int, sliced: bool, s: Settings,
        k: nat)
    requires Usable(s) && k < |bars|
    requires IsStream(guarded, bars, anchorOf, sliced, s.(guard := true))
    requires IsStream(unguarded, bars, anchorOf, sliced, s.(guard := false))
    ensures |guarded| == |unguarded| == |bars|
    ensures Correct(guarded[k], bars, anchorOf, sliced, s.(guard := true), k)
    ensures Correct(unguarded[k], bars, anchorOf, sliced, s.(guard := false), k)
  {
    hide Correct;
  }

  lemma {:induction false} SameMeansSameRange(guarded: Stage, unguarded: Stage, h: seq<Bar>, s: Settings)
    requires Usable(s) && |h| > 0 && Same(guarded, unguarded)
    requires Shows(guarded, RowAfter(h, s.(guard := true))) && Shows(unguarded, RowAfter(h, s.(guard := false)))
    ensures SameRangeAt(h, s)
  {
    hide RowAfter, Shows;
    SameRangeWhenShown(guarded, unguarded, h, s);
  }

  /** Bars b to n - 1 have equal true ranges with and without the guard, in a block that starts at b. */
  ghost predicate SameRanges(bars: seq<Bar>, b: nat, n: nat, s: Settings)
    requires Usable(s) && b <= n <= |bars|
  {
    forall k :: b <= k < n ==> SameRangeAt(Part(bars, b, k), s)
  }

  /** At the first difference, with equal ranges before it in the block. */
  lemma {:induction false} EarliestIsRange(
      guarded: Stage, unguarded: Stage, bars: seq<Bar>, anchorOf: int -> int, sliced: bool, s: Settings, i: nat,
        f: Field)
    requires Usable(s) && i < |bars|
    requires Correct(guarded, bars, anchorOf, sliced, s.(guard := true), i)
    requires Correct(unguarded, bars, anchorOf, sliced, s.(guard := false), i)
    requires SameRanges(bars, BlockStart(bars, anchorOf, sliced, i), i, s)
    requires Earliest(guarded, unguarded, f)
    ensures f == ModifiedTrueRangeField && guarded.gapMs > GAP_BOUND_MS
  {
    hide RowAfter, BlockStart, RangesAgree, SameRangeAt, Shows;
    var b := BlockStart(bars, anchorOf, sliced, i);
    var h := Part(bars, b, i);
    SameRangeWhenShown(guarded, unguarded, h, s);
    if SameRangeAt(h, s) {
      RangesAgreeFromRows(bars, b, i + 1, s);
      RangesDecideRow(h, s);
      EqualRowsAgree(guarded, unguarded, RowAfter(h, s.(guard := true)));
      assert false;
    }
    NoGapSameRange(h, s);
    assert !Boundary(bars, anchorOf, sliced, i);
  }

  lemma {:induction false} EqualRowsAgree(guarded: Stage, unguarded: Stage, row: Row)
    requires Shows(guarded, row) && Shows(unguarded, row)
    ensures SameInput(guarded, unguarded) && SameStop(guarded, unguarded)
    ensures guarded.modifiedTr == unguarded.modifiedTr && guarded.wilders == unguarded.wilders
    ensures guarded.loss == unguarded.loss
  {
  }

  ghost predicate SameRangeAt(h: seq<Bar>, s: Settings)
    requires Usable(s) && |h| > 0
  {
    RowAfter(h, s.(guard := true)).tr == RowAfter(h, s.(guard := false)).tr
  }

  lemma {:induction false} SameRangeWhenShown(guarded: Stage, unguarded: Stage, h: seq<Bar>, s: Settings)
    requires Usable(s) && |h| > 0
    requires Shows(guarded, RowAfter(h, s.(guard := true))) && Shows(unguarded, RowAfter(h, s.(guard := false)))
    ensures SameRangeAt(h, s) <==> guarded.modifiedTr == unguarded.modifiedTr
    ensures SameInput(guarded, unguarded)
  {
    hide TrueRange, Wilders, Loss, StopAfter;
  }

  lemma {:induction false} NoGapSameRange(h: seq<Bar>, s: Settings)
    requires Usable(s) && |h| > 0
    ensures !SameRangeAt(h, s) ==> |h| > 1 && WideGapAt(h, |h| - 1)
  {
    hide TrueRange, Wilders, Loss, StopAfter;
    if |h| > FirstValid(s.period) { GuardedTrueRangeBelow(h, s); }
  }

  lemma {:induction false} RangesAgreeFromRows(bars: seq<Bar>, b: nat, n: nat, s: Settings)
    requires Usable(s) && b <= n <= |bars|
    requires SameRanges(bars, b, n, s)
    ensures RangesAgree(bars[b..n], s)
  {
    hide TrueRange, Wilders, Loss, StopAfter;
    if b < n {
      var h := bars[b..n];
      assert Front(h) == bars[b..n - 1] && h == Part(bars, b, n - 1);
      RangesAgreeFromRows(bars, b, n - 1, s);
      if |h| > FirstValid(s.period) {
        assert SameRangeAt(h, s);
        LastRangesAgree(h, s);
      }
    }
  }
}
