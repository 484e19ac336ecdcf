/** Halt windows as src/project_mai_tai/market_halts.py defines them: a gap between two consecutive prints
    of at least 285 seconds with at least two quote updates inside it. Times are microseconds. */
module Halts {

  const SECOND := 1_000_000
  const MINUTE := 60 * SECOND
  const MIN_PRINT_GAP := 285 * SECOND
  const MIN_QUOTE_UPDATES := 2

  datatype Window = Window(lastPrint: int, reopen: int)

  /** The two prints that bound a window are tradable, so the ends are outside. */
  predicate Inside(at: int, w: Window) { w.lastPrint < at < w.reopen }

  predicate Halted(at: int, halts: seq<Window>) { exists w :: w in halts && Inside(at, w) }

  ghost predicate Sorted(times: seq<int>) { forall i, j :: 0 <= i < j < |times| ==> times[i] <= times[j] }

  function Updates(quotes: seq<int>, after: int, before: int): nat {
    if quotes == [] then 0
    else Updates(quotes[1..], after, before) + if after < quotes[0] < before then 1 else 0
  }

  predicate Confirmed(lastPrint: int, through: int, updates: nat) {
    through - lastPrint >= MIN_PRINT_GAP && updates >= MIN_QUOTE_UPDATES
  }

  /** Print i and the next one bound the halt w. */
  ghost predicate Bounds(prints: seq<int>, quotes: seq<int>, i: int, w: Window) {
    && 0 <= i < |prints| - 1 && w == Window(prints[i], prints[i + 1])
    && Confirmed(prints[i], prints[i + 1], Updates(quotes, prints[i], prints[i + 1]))
  }

  /** In time order with disjoint interiors. */
  ghost predicate Separate(halts: seq<Window>) {
    && (forall i :: 0 <= i < |halts| ==> halts[i].lastPrint < halts[i].reopen)
    && forall i, j :: 0 <= i < j < |halts| ==> halts[i].reopen <= halts[j].lastPrint
  }

  /** As detected: in order, and each at least the minimal print gap long. */
  ghost predicate Detected(halts: seq<Window>) {
    Separate(halts) && forall w :: w in halts ==> w.reopen - w.lastPrint >= MIN_PRINT_GAP
  }

  method DetectHalts(prints: seq<int>, quotes: seq<int>) returns (halts: seq<Window>)
    requires Sorted(prints)
    ensures forall w :: w in halts <==> exists i :: Bounds(prints, quotes, i, w)
    ensures Detected(halts)
  {
    halts := [];
    var k := 0;
    while k < |prints| - 1
      invariant 0 <= k <= |prints| && (k < |prints| || prints == [])
      invariant forall w :: w in halts <==> exists i :: i < k && Bounds(prints, quotes, i, w)
      invariant Detected(halts)
      invariant forall w :: w in halts ==> w.reopen <= prints[k]
    {
      if Confirmed(prints[k], prints[k + 1], Updates(quotes, prints[k], prints[k + 1])) {
        var found := Window(prints[k], prints[k + 1]);
        assert Bounds(prints, quotes, k, found);
        halts := halts + [found];
      }
      k := k + 1;
    }
  }

  /** The end of a window is tradable: windows do not touch inside. */
  lemma {:induction false} ReopenIsTradable(halts: seq<Window>, w: Window)
    requires Separate(halts) && w in halts
    ensures !Halted(w.reopen, halts) && !Halted(w.lastPrint, halts)
  {
  }

  /** Two quotes strictly between the times. */
  ghost predicate TwoBetween(quotes: seq<int>, after: int, before: int) {
    exists i, j :: 0 <= i < j < |quotes| && after < quotes[i] < before && after < quotes[j] < before
  }

  ghost predicate OneBetween(quotes: seq<int>, after: int, before: int) {
    exists i :: 0 <= i < |quotes| && after < quotes[i] < before
  }

  lemma {:induction false} UpdatesInFields(quotes: seq<int>, after: int, before: int)
    ensures Updates(quotes, after, before) >= 1 <==> OneBetween(quotes, after, before)
    ensures Updates(quotes, after, before) >= 2 <==> TwoBetween(quotes, after, before)
  {
    if quotes != [] {
      hide OneBetween, TwoBetween;
      var rest := quotes[1..];
      UpdatesInFields(rest, after, before);
      OneNext(quotes, after, before);
      TwoNext(quotes, after, before);
    }
  }

  lemma {:induction false} OneNext(quotes: seq<int>, after: int, before: int)
    requires quotes != []
    ensures OneBetween(quotes, after, before) <==> after < quotes[0] < before || OneBetween(quotes[1..], after, before)
  {
    var rest := quotes[1..];
    if OneBetween(rest, after, before) {
      var i :| 0 <= i < |rest| && after < rest[i] < before;
      assert quotes[i + 1] == rest[i];
    }
    if OneBetween(quotes, after, before) {
      var i :| 0 <= i < |quotes| && after < quotes[i] < before;
      if i > 0 { assert rest[i - 1] == quotes[i]; }
    }
  }

  lemma {:induction false} TwoNext(quotes: seq<int>, after: int, before: int)
    requires quotes != []
    ensures TwoBetween(quotes, after, before) <==>
      (after < quotes[0] < before && OneBetween(quotes[1..], after, before)) || TwoBetween(quotes[1..], after, before)
  {
    var rest := quotes[1..];
    if TwoBetween(rest, after, before) {
      var i, j :| 0 <= i < j < |rest| && after < rest[i] < before && after < rest[j] < before;
      assert quotes[i + 1] == rest[i] && quotes[j + 1] == rest[j];
    }
    if OneBetween(rest, after, before) {
      var i :| 0 <= i < |rest| && after < rest[i] < before;
      assert quotes[i + 1] == rest[i];
    }
    if TwoBetween(quotes, after, before) {
      var i, j :| 0 <= i < j < |quotes| && after < quotes[i] < before && after < quotes[j] < before;
      assert rest[j - 1] == quotes[j];
      if i > 0 { assert rest[i - 1] == quotes[i]; }
    }
  }

  /** Print i and the next one bound a halt when 285 seconds or more separate them, with two quotes strictly inside. */
  lemma {:induction false} BoundsInFields(prints: seq<int>, quotes: seq<int>, i: int, w: Window)
    ensures Bounds(prints, quotes, i, w) <==>
      && 0 <= i < |prints| - 1 && w.lastPrint == prints[i] && w.reopen == prints[i + 1]
      && w.reopen - w.lastPrint >= 285_000_000 && TwoBetween(quotes, w.lastPrint, w.reopen)
  {
    hide TwoBetween;
    if 0 <= i < |prints| - 1 { UpdatesInFields(quotes, prints[i], prints[i + 1]); }
  }
}
