/** spool of scripts/momold1_bounded_replay.py: each symbol's trades, with a one-second bar written
    when its second is over. */
module BarSpool {
  import opened Arithmetic
  import opened Wrappers

  const NS := 1_000_000_000

  /** A captured trade. Whether its conditions make it eligible for bars is decided elsewhere. */
  datatype Trade = Trade(provider: string, symbol: string, stamp: nat, price: real, size: int, eligible: bool)

  /** Second s of the epoch: its bar starts at s * 1000 ms and ends a second later. */
  datatype Bar = Bar(symbol: string, second: nat, open: real, high: real, low: real, close: real, volume: int)

  datatype Body = Pulse | Print(trade: Trade) | Aggregate(bar: Bar)

  datatype Event = Event(at: nat, kind: nat, symbol: string, body: Body)

  function SecondOf(stamp: nat): nat { stamp / NS }

  function Last(rows: seq<Trade>): Trade
    requires rows != []
  {
    rows[|rows| - 1]
  }

  function Front<T>(xs: seq<T>): seq<T>
    requires xs != []
  {
    xs[..|xs| - 1]
  }

  // ---------------------------------------------------------------- bars

  /** The trade counts towards the bar of second s. */
  predicate Counts(t: Trade, s: nat) { t.eligible && SecondOf(t.stamp) == s }

  /** A bar with one more trade. */
  function Grown(b: Option<Bar>, t: Trade): Bar {
    match b
    case None => Bar(t.symbol, SecondOf(t.stamp), t.price, t.price, t.price, t.price, t.size)
    case Some(bar) => bar.(high := Max(bar.high, t.price), low := Min(bar.low, t.price), close := t.price,
      volume := bar.volume + t.size)
  }

  /** The bar of second s over the rows of one symbol. */
  function BarFor(rows: seq<Trade>, s: nat): Option<Bar> {
    if rows == [] then None
    else if Counts(Last(rows), s) then Some(Grown(BarFor(Front(rows), s), Last(rows)))
    else BarFor(Front(rows), s)
  }

  function VolumeIn(rows: seq<Trade>, s: nat): int {
    if rows == [] then 0 else VolumeIn(Front(rows), s) + if Counts(Last(rows), s) then Last(rows).size else 0
  }

  ghost predicate Within(rows: seq<Trade>, s: nat, low: real, high: real) {
    forall k :: 0 <= k < |rows| && Counts(rows[k], s) ==> low <= rows[k].price <= high
  }

  ghost predicate Traded(rows: seq<Trade>, s: nat, price: real) {
    exists k :: 0 <= k < |rows| && Counts(rows[k], s) && rows[k].price == price
  }

  ghost predicate OpensAt(rows: seq<Trade>, s: nat, price: real) {
    exists k :: 0 <= k < |rows| && Counts(rows[k], s) && rows[k].price == price
                && forall m :: 0 <= m < k ==> !Counts(rows[m], s)
  }

  ghost predicate ClosesAt(rows: seq<Trade>, s: nat, price: real) {
    exists k :: 0 <= k < |rows| && Counts(rows[k], s) && rows[k].price == price
                && forall m :: k < m < |rows| ==> !Counts(rows[m], s)
  }

  /** `bar` summarises the counted trades of second s: first, greatest, least and last price, and the
      sum of the sizes. */
  ghost predicate Summarises(bar: Bar, rows: seq<Trade>, s: nat) {
    && bar.second == s && bar.volume == VolumeIn(rows, s)
    && Within(rows, s, bar.low, bar.high) && Traded(rows, s, bar.high) && Traded(rows, s, bar.low)
    && OpensAt(rows, s, bar.open) && ClosesAt(rows, s, bar.close)
  }

  /** There is a bar exactly for the seconds with an eligible trade, and it summarises them. */
  lemma {:induction false} BarMeaning(rows: seq<Trade>, s: nat)
    ensures BarFor(rows, s).Some? <==> exists k :: 0 <= k < |rows| && Counts(rows[k], s)
    ensures BarFor(rows, s).Some? ==> Summarises(BarFor(rows, s).value, rows, s)
    ensures BarFor(rows, s).None? ==> VolumeIn(rows, s) == 0
  {
    if rows != [] {
      hide Counts;
      var front, last := Front(rows), Last(rows);
      BarMeaning(front, s);
      if BarFor(front, s).None? {
        FirstTrade(rows, s);
      } else if Counts(last, s) {
        MoreTrade(rows, s, BarFor(front, s).value);
      } else {
        OtherTrade(rows, s, BarFor(front, s).value);
      }
    }
  }

  lemma {:induction false} FirstTrade(rows: seq<Trade>, s: nat)
    requires rows != [] && (forall k :: 0 <= k < |Front(rows)| ==> !Counts(Front(rows)[k], s)) &&
      VolumeIn(Front(rows), s) == 0
    ensures Counts(Last(rows), s) ==> Summarises(Grown(None, Last(rows)), rows, s)
    ensures Counts(Last(rows), s) <==> exists k :: 0 <= k < |rows| && Counts(rows[k], s)
  {
    assert forall k :: 0 <= k < |rows| - 1 ==> rows[k] == Front(rows)[k];
    var n := |rows| - 1;
    assert rows[n] == Last(rows);
  }

  /** What holds of all but the last row, and stays. */
  lemma {:induction false} StillTraded(rows: seq<Trade>, s: nat, price: real)
    requires rows != []
    ensures Traded(Front(rows), s, price) || (Counts(Last(rows), s) && price == Last(rows).price) ==>
      Traded(rows, s, price)
  {
    hide Counts;
    var front, n := Front(rows), |rows| - 1;
    assert rows[n] == Last(rows);
    if Traded(front, s, price) {
      var k :| 0 <= k < n && Counts(front[k], s) && front[k].price == price;
      assert front[k] == rows[k];
    }
  }

  lemma {:induction false} StillOpens(rows: seq<Trade>, s: nat, price: real)
    requires rows != [] && OpensAt(Front(rows), s, price)
    ensures OpensAt(rows, s, price)
  {
    hide Counts;
    var front, n := Front(rows), |rows| - 1;
    var k :| 0 <= k < n && Counts(front[k], s) && front[k].price == price
             && forall m :: 0 <= m < k ==> !Counts(front[m], s);
    assert rows[k] == front[k];
    forall m | 0 <= m < k ensures !Counts(rows[m], s) { assert rows[m] == front[m]; }
  }

  lemma {:induction false} StillCloses(rows: seq<Trade>, s: nat, price: real)
    requires rows != []
    ensures ClosesAt(Front(rows), s, price) && !Counts(Last(rows), s) ==> ClosesAt(rows, s, price)
    ensures Counts(Last(rows), s) && price == Last(rows).price ==> ClosesAt(rows, s, price)
  {
    hide Counts;
    var front, n := Front(rows), |rows| - 1;
    assert rows[n] == Last(rows);
    if ClosesAt(front, s, price) && !Counts(Last(rows), s) {
      var k :| 0 <= k < n && Counts(front[k], s) && front[k].price == price
               && forall m :: k < m < n ==> !Counts(front[m], s);
      assert rows[k] == front[k];
      forall m | k < m <= n ensures !Counts(rows[m], s) { if m < n { assert rows[m] == front[m]; } }
    }
  }

  lemma {:induction false} StillWithin(rows: seq<Trade>, s: nat, low: real, high: real, low': real, high': real)
    requires rows != [] && Within(Front(rows), s, low, high) && low' <= low && high <= high'
    requires Counts(Last(rows), s) ==> low' <= Last(rows).price <= high'
    ensures Within(rows, s, low', high')
  {
    hide Counts;
    assert forall k :: 0 <= k < |rows| - 1 ==> rows[k] == Front(rows)[k];
  }

  lemma {:induction false} OtherTrade(rows: seq<Trade>, s: nat, bar: Bar)
    requires rows != [] && !Counts(Last(rows), s) && Summarises(bar, Front(rows), s)
    ensures Summarises(bar, rows, s)
  {
    hide Counts, Traded, OpensAt, ClosesAt, Within;
    StillWithin(rows, s, bar.low, bar.high, bar.low, bar.high);
    StillTraded(rows, s, bar.high);
    StillTraded(rows, s, bar.low);
    StillOpens(rows, s, bar.open);
    StillCloses(rows, s, bar.close);
  }

  lemma {:induction false} MoreTrade(rows: seq<Trade>, s: nat, bar: Bar)
    requires rows != [] && Counts(Last(rows), s) && Summarises(bar, Front(rows), s)
    ensures Summarises(Grown(Some(bar), Last(rows)), rows, s)
  {
    hide Counts, Traded, OpensAt, ClosesAt, Within;
    var price := Last(rows).price;
    StillWithin(rows, s, bar.low, bar.high, Min(bar.low, price), Max(bar.high, price));
    StillTraded(rows, s, bar.high);
    StillTraded(rows, s, bar.low);
    StillOpens(rows, s, bar.open);
    StillTraded(rows, s, price);
    StillCloses(rows, s, price);
  }

  // ---------------------------------------------------------------- one symbol's spool

  function PrintEvent(t: Trade): Event { Event(t.stamp, 2, t.symbol, Print(t)) }

  function BarEvent(b: Bar): Event { Event((b.second + 1) * NS, 1, b.symbol, Aggregate(b)) }

  /** The bar still open after the rows, as an event. */
  function OpenBar(rows: seq<Trade>): seq<Event> {
    if rows == [] then []
    else
      match BarFor(rows, SecondOf(Last(rows).stamp))
      case None => []
      case Some(b) => [BarEvent(b)]
  }

  /** What is on file after the rows, without the bar still open. */
  function Spooled(rows: seq<Trade>): seq<Event> {
    if rows == [] then []
    else
      var front, last := Front(rows), Last(rows);
      var over := front != [] && SecondOf(Last(front).stamp) != SecondOf(last.stamp);
      Spooled(front) + (if over then OpenBar(front) else []) + [PrintEvent(last)]
  }

  /** The finished file of one symbol. */
  function Spool(rows: seq<Trade>): seq<Event> { Spooled(rows) + OpenBar(rows) }

  ghost predicate Timed(rows: seq<Trade>) {
    forall i, j :: 0 <= i < j < |rows| ==> rows[i].stamp <= rows[j].stamp
  }

  predicate NotAfter(a: Event, b: Event) { a.at < b.at || (a.at == b.at && a.kind <= b.kind) }

  ghost predicate Sorted(events: seq<Event>) {
    forall i, j :: 0 <= i < j < |events| ==> NotAfter(events[i], events[j])
  }

  ghost predicate AllNotAfter(events: seq<Event>, e: Event) {
    forall i :: 0 <= i < |events| ==> NotAfter(events[i], e)
  }

  lemma {:induction false} SortedAppend(events: seq<Event>, e: Event)
    requires Sorted(events) && AllNotAfter(events, e)
    ensures Sorted(events + [e]) && AllNotAfter(events + [e], e)
  {
  }

  lemma {:induction false} BarSecond(rows: seq<Trade>, s: nat)
    ensures BarFor(rows, s).Some? ==> BarFor(rows, s).value.second == s
  {
    if rows != [] { BarSecond(Front(rows), s); }
  }

  /** The file so far is sorted by time and kind, and nothing on it comes after the last trade. */
  lemma {:induction false} SpooledSorted(rows: seq<Trade>)
    requires Timed(rows)
    ensures Sorted(Spooled(rows)) && (rows != [] ==> AllNotAfter(Spooled(rows), PrintEvent(Last(rows))))
  {
    if rows != [] {
      hide BarFor, SecondOf, Sorted, AllNotAfter, OpenBar, NotAfter;
      var front, last := Front(rows), Last(rows);
      SpooledSorted(front);
      var before := Spooled(front);
      NothingAfter(PrintEvent(last));
      if front != [] {
        PrintsInOrder(Last(front), last);
        Later(Spooled(front), PrintEvent(Last(front)), PrintEvent(last));
        if SecondOf(Last(front).stamp) != SecondOf(last.stamp) {
          BarInBetween(front, last);
          WithOpenBar(front);
          before := Spooled(front) + OpenBar(front);
          BothNotAfter(Spooled(front), OpenBar(front), PrintEvent(last));
        }
      }
      assert Spooled(rows) == before + [PrintEvent(last)];
      SortedAppend(before, PrintEvent(last));
    }
  }

  lemma {:induction false} NothingAfter(e: Event)
    ensures AllNotAfter([], e)
  {
  }

  lemma {:induction false} PrintsInOrder(a: Trade, b: Trade)
    requires a.stamp <= b.stamp
    ensures NotAfter(PrintEvent(a), PrintEvent(b))
  {
  }

  lemma {:induction false} BothNotAfter(a: seq<Event>, b: seq<Event>, e: Event)
    requires AllNotAfter(a, e) && AllNotAfter(b, e)
    ensures AllNotAfter(a + b, e)
  {
  }

  lemma {:induction false} Later(events: seq<Event>, a: Event, b: Event)
    requires AllNotAfter(events, a) && NotAfter(a, b)
    ensures AllNotAfter(events, b)
  {
  }

  /** The open bar comes after every trade of its second and before any of a later one. */
  lemma {:induction false} BarInBetween(front: seq<Trade>, last: Trade)
    requires front != [] && Last(front).stamp <= last.stamp && SecondOf(Last(front).stamp) != SecondOf(last.stamp)
    ensures AllNotAfter(OpenBar(front), PrintEvent(last))
  {
    BarSecond(front, SecondOf(Last(front).stamp));
  }

  lemma {:induction false} WithOpenBar(rows: seq<Trade>)
    requires rows != [] && Sorted(Spooled(rows)) && AllNotAfter(Spooled(rows), PrintEvent(Last(rows)))
    ensures Sorted(Spooled(rows) + OpenBar(rows))
  {
    hide Spooled;
    BarSecond(rows, SecondOf(Last(rows).stamp));
    var bar := OpenBar(rows);
    if bar != [] {
      Later(Spooled(rows), PrintEvent(Last(rows)), bar[0]);
      SortedAppend(Spooled(rows), bar[0]);
    }
  }

  /** Each finished file is sorted by time and kind. */
  lemma {:induction false} SpoolSorted(rows: seq<Trade>)
    requires Timed(rows)
    ensures Sorted(Spool(rows))
  {
    SpooledSorted(rows);
    if rows != [] { WithOpenBar(rows); }
  }

  // ---------------------------------------------------------------- what the file holds

  function PrintsOn(events: seq<Event>): seq<Trade> {
    if events == [] then []
    else
      var e := events[|events| - 1];
      PrintsOn(Front(events)) + if e.body.Print? then [e.body.trade] else []
  }

  function BarsOn(events: seq<Event>): seq<Bar> {
    if events == [] then []
    else
      var e := events[|events| - 1];
      BarsOn(Front(events)) + if e.body.Aggregate? then [e.body.bar] else []
  }

  lemma {:induction false} PrintsConcat(a: seq<Event>, b: seq<Event>)
    ensures PrintsOn(a + b) == PrintsOn(a) + PrintsOn(b)
  {
    if b == [] {
      assert a + b == a;
    } else {
      assert Front(a + b) == a + Front(b) && (a + b)[|a + b| - 1] == b[|b| - 1];
      PrintsConcat(a, Front(b));
    }
  }

  lemma {:induction false} BarsConcat(a: seq<Event>, b: seq<Event>)
    ensures BarsOn(a + b) == BarsOn(a) + BarsOn(b)
  {
    if b == [] {
      assert a + b == a;
    } else {
      assert Front(a + b) == a + Front(b) && (a + b)[|a + b| - 1] == b[|b| - 1];
      BarsConcat(a, Front(b));
    }
  }

  /** The bars on file are those of the seconds before the open one, in order. */
  ghost predicate BarsAre(bars: seq<Bar>, rows: seq<Trade>, end: nat) {
    && (forall k :: 0 <= k < |bars| ==> bars[k].second < end && BarFor(rows, bars[k].second) == Some(bars[k]))
    && (forall j, k :: 0 <= j < k < |bars| ==> bars[j].second < bars[k].second)
    && (forall s :: 0 <= s < end && BarFor(rows, s).Some? ==> HasBar(bars, s))
  }

  ghost predicate HasBar(bars: seq<Bar>, s: nat) {
    exists k :: 0 <= k < |bars| && bars[k].second == s
  }

  lemma {:induction false} OpenBarOn(rows: seq<Trade>)
    requires rows != []
    ensures var b := BarFor(rows, SecondOf(Last(rows).stamp));
      BarsOn(OpenBar(rows)) == (if b.Some? then [b.value] else []) && PrintsOn(OpenBar(rows)) == []
  {
    hide BarFor, SecondOf;
    var b := OpenBar(rows);
    if b != [] { assert Front(b) == []; }
  }

  /** Closing the open second adds its bar, if it has one. */
  lemma {:induction false} BarsClose(bars: seq<Bar>, rows: seq<Trade>, s: nat, end: nat)
    requires BarsAre(bars, rows, s) && s < end
    requires forall t :: s < t ==> BarFor(rows, t).None?
    ensures BarsAre(bars + (if BarFor(rows, s).Some? then [BarFor(rows, s).value] else []), rows, end)
  {
    BarSecond(rows, s);
    hide BarFor;
    var open := if BarFor(rows, s).Some? then [BarFor(rows, s).value] else [];
    var all := bars + open;
    forall t | 0 <= t < end && BarFor(rows, t).Some? ensures HasBar(all, t) {
      if t < s {
        assert HasBar(bars, t);
        var k :| 0 <= k < |bars| && bars[k].second == t;
        assert all[k].second == t;
      } else {
        assert all[|bars|].second == t;
      }
    }
  }

  /** A trade of the open second or later leaves the earlier bars as they are. */
  lemma {:induction false} BarsKeep(bars: seq<Bar>, rows: seq<Trade>, end: nat)
    requires rows != [] && BarsAre(bars, Front(rows), end) && end <= SecondOf(Last(rows).stamp)
    ensures BarsAre(bars, rows, end)
  {
    hide SecondOf;
    forall s | 0 <= s < end ensures BarFor(rows, s) == BarFor(Front(rows), s) { }
  }

  lemma {:induction false} NoLaterBar(rows: seq<Trade>, s: nat)
    requires Timed(rows) && rows != [] && s > SecondOf(Last(rows).stamp)
    ensures BarFor(rows, s).None?
  {
    if |rows| > 1 {
      Earlier(Last(Front(rows)).stamp, Last(rows).stamp);
      NoLaterBar(Front(rows), s);
    }
  }

  lemma {:induction false} Earlier(a: nat, b: nat)
    requires a <= b
    ensures SecondOf(a) <= SecondOf(b)
  {
  }

  /** The bar that a trade closes, if it opens a new second. */
  function Closed(front: seq<Trade>, last: Trade): seq<Bar> {
    if front == [] || SecondOf(Last(front).stamp) == SecondOf(last.stamp) then []
    else
      match BarFor(front, SecondOf(Last(front).stamp))
      case None => []
      case Some(b) => [b]
  }

  lemma {:induction false} StepOn(rows: seq<Trade>)
    requires rows != []
    ensures PrintsOn(Spooled(rows)) == PrintsOn(Spooled(Front(rows))) + [Last(rows)]
    ensures BarsOn(Spooled(rows)) == BarsOn(Spooled(Front(rows))) + Closed(Front(rows), Last(rows))
  {
    hide BarFor, SecondOf, OpenBar, PrintsOn, BarsOn;
    var front, last := Front(rows), Last(rows);
    PrintOn(last);
    NothingOn();
    var over := front != [] && SecondOf(Last(front).stamp) != SecondOf(last.stamp);
    var closing := if over then OpenBar(front) else [];
    if front != [] { OpenBarOn(front); }
    PrintsConcat(Spooled(front), closing);
    PrintsConcat(Spooled(front) + closing, [PrintEvent(last)]);
    BarsConcat(Spooled(front), closing);
    BarsConcat(Spooled(front) + closing, [PrintEvent(last)]);
  }

  /** The file holds every trade in order, and for every earlier second with an eligible trade exactly
      its bar. */
  lemma {:induction false} SpooledHolds(rows: seq<Trade>)
    requires Timed(rows)
    ensures PrintsOn(Spooled(rows)) == rows
    ensures rows != [] ==> BarsAre(BarsOn(Spooled(rows)), rows, SecondOf(Last(rows).stamp))
  {
    if rows == [] {
      NothingOn();
    } else {
      hide BarFor, SecondOf, BarsAre, PrintsOn, BarsOn, Spooled;
      var front, last := Front(rows), Last(rows);
      SpooledHolds(front);
      StepOn(rows);
      assert front + [last] == rows;
      NothingSpooled();
      if front == [] { FirstRow(rows); } else { BarsStep(rows, BarsOn(Spooled(front))); }
    }
  }

  lemma {:induction false} NothingSpooled()
    ensures BarsOn(Spooled([])) == []
  {
  }

  lemma {:induction false} BarsStep(rows: seq<Trade>, bars: seq<Bar>)
    requires Timed(rows) && |rows| > 1 && BarsAre(bars, Front(rows), SecondOf(Last(Front(rows)).stamp))
    ensures BarsAre(bars + Closed(Front(rows), Last(rows)), rows, SecondOf(Last(rows).stamp))
  {
    hide BarFor, SecondOf, BarsAre;
    var front, last := Front(rows), Last(rows);
    var s, t := SecondOf(Last(front).stamp), SecondOf(last.stamp);
    Earlier(Last(front).stamp, last.stamp);
    if s != t {
      forall u | s < u ensures BarFor(front, u).None? { NoLaterBar(front, u); }
      BarsClose(bars, front, s, t);
    } else {
      assert bars + [] == bars;
    }
    BarsKeep(bars + Closed(front, last), rows, t);
  }

  lemma {:induction false} NothingOn()
    ensures PrintsOn([]) == [] && BarsOn([]) == []
  {
  }

  lemma {:induction false} PrintOn(t: Trade)
    ensures PrintsOn([PrintEvent(t)]) == [t] && BarsOn([PrintEvent(t)]) == []
  {
    assert Front([PrintEvent(t)]) == [];
  }

  lemma {:induction false} FirstRow(rows: seq<Trade>)
    requires |rows| == 1
    ensures BarsAre([], rows, SecondOf(rows[0].stamp))
  {
    hide SecondOf;
    assert Front(rows) == [];
    forall s | 0 <= s < SecondOf(rows[0].stamp) ensures BarFor(rows, s).None? { assert BarFor([], s).None?; }
  }

  /** The finished file: every trade in order, and exactly one bar per second with an eligible trade. */
  lemma {:induction false} SpoolHolds(rows: seq<Trade>, end: nat)
    requires Timed(rows) && forall k :: 0 <= k < |rows| ==> SecondOf(rows[k].stamp) < end
    ensures PrintsOn(Spool(rows)) == rows
    ensures BarsAre(BarsOn(Spool(rows)), rows, end)
  {
    if rows == [] {
      assert Spool(rows) == [];
      NothingOn();
    } else {
      hide BarFor, SecondOf, BarsAre, OpenBar, PrintsOn, BarsOn, Spooled;
      SpooledHolds(rows);
      OpenBarOn(rows);
      PrintsConcat(Spooled(rows), OpenBar(rows));
      BarsConcat(Spooled(rows), OpenBar(rows));
      var s := SecondOf(Last(rows).stamp);
      forall u | s < u ensures BarFor(rows, u).None? { NoLaterBar(rows, u); }
      BarsClose(BarsOn(Spooled(rows)), rows, s, end);
      assert rows + [] == rows;
    }
  }

  // ---------------------------------------------------------------- volume

  function Volume(bars: seq<Bar>): int {
    if bars == [] then 0 else Volume(bars[..|bars| - 1]) + bars[|bars| - 1].volume
  }

  function EligibleSize(rows: seq<Trade>): int {
    if rows == [] then 0 else EligibleSize(Front(rows)) + if Last(rows).eligible then Last(rows).size else 0
  }

  lemma {:induction false} VolumeAppend(bars: seq<Bar>, b: Bar)
    ensures Volume(bars + [b]) == Volume(bars) + b.volume
  {
    assert (bars + [b])[..|bars|] == bars;
  }

  /** The volume of the bar still open. */
  function OpenVolume(rows: seq<Trade>): int {
    if rows == [] then 0
    else
      match BarFor(rows, SecondOf(Last(rows).stamp))
      case None => 0
      case Some(b) => b.volume
  }

  lemma {:induction false} SpooledVolume(rows: seq<Trade>)
    requires Timed(rows)
    ensures Volume(BarsOn(Spooled(rows))) + OpenVolume(rows) == EligibleSize(rows)
  {
    if rows == [] {
      NothingSpooled();
    } else {
      hide SecondOf, BarsOn, Spooled, Volume;
      var front, last := Front(rows), Last(rows);
      SpooledVolume(front);
      StepOn(rows);
      NothingSpooled();
      ClosedVolume(front, last, BarsOn(Spooled(front)));
      if front != [] {
        Earlier(Last(front).stamp, last.stamp);
        if SecondOf(Last(front).stamp) != SecondOf(last.stamp) { NoLaterBar(front, SecondOf(last.stamp)); }
      } else {
        assert BarFor([], SecondOf(last.stamp)).None?;
      }
    }
  }

  lemma {:induction false} ClosedVolume(front: seq<Trade>, last: Trade, bars: seq<Bar>)
    ensures Volume(bars + Closed(front, last)) == Volume(bars) +
      if front == [] || SecondOf(Last(front).stamp) == SecondOf(last.stamp) then 0 else OpenVolume(front)
  {
    hide BarFor, SecondOf, Volume;
    var closed := Closed(front, last);
    if closed == [] { assert bars + [] == bars; } else { VolumeAppend(bars, closed[0]); }
  }

  /** The bars of a symbol carry exactly the size of its eligible trades. */
  lemma {:induction false} SpoolVolume(rows: seq<Trade>)
    requires Timed(rows)
    ensures Volume(BarsOn(Spool(rows))) == EligibleSize(rows)
  {
    SpooledVolume(rows);
    if rows == [] {
      assert Spool(rows) == Spooled(rows);
    } else {
      hide BarFor, SecondOf, Spooled, BarsOn, Volume;
      BarsConcat(Spooled(rows), OpenBar(rows));
      OpenBarOn(rows);
      var b := BarFor(rows, SecondOf(Last(rows).stamp));
      if b.Some? {
        VolumeAppend(BarsOn(Spooled(rows)), b.value);
      } else {
        assert BarsOn(Spooled(rows)) + [] == BarsOn(Spooled(rows));
      }
    }
  }

  // ---------------------------------------------------------------- the whole export

  datatype Limits = Limits(provider: string, symbols: set<string>, start: nat, end: nat)

  predicate Admitted(t: Trade, limits: Limits) {
    t.provider == limits.provider && t.symbol in limits.symbols && limits.start <= t.stamp < limits.end
  }

  /** The rows of one symbol, in order. */
  function RowsOf(rows: seq<Trade>, symbol: string): seq<Trade> {
    if rows == [] then []
    else RowsOf(Front(rows), symbol) + if Last(rows).symbol == symbol then [Last(rows)] else []
  }

  /** Every row is admitted, symbols come in one block each, and times never fall within a block. */
  ghost predicate WellOrdered(rows: seq<Trade>, limits: Limits) {
    rows == [] ||
    (&& WellOrdered(Front(rows), limits) && Admitted(Last(rows), limits)
     && var before := RowsOf(Front(rows), Last(rows).symbol);
        before == [] || (Last(Front(rows)).symbol == Last(rows).symbol && Last(before).stamp <= Last(rows).stamp))
  }

  lemma {:induction false} RowsOfTimed(rows: seq<Trade>, limits: Limits, symbol: string)
    requires WellOrdered(rows, limits)
    ensures Timed(RowsOf(rows, symbol))
    ensures forall k :: 0 <= k < |RowsOf(rows, symbol)| ==> RowsOf(rows, symbol)[k].symbol == symbol
    ensures forall k :: 0 <= k < |RowsOf(rows, symbol)| ==> RowsOf(rows, symbol)[k].stamp < limits.end
  {
    if rows != [] {
      RowsOfTimed(Front(rows), limits, symbol);
      hide Timed;
      if Last(rows).symbol == symbol { TimedNext(RowsOf(Front(rows), symbol), Last(rows)); }
    }
  }

  lemma {:induction false} TimedNext(before: seq<Trade>, t: Trade)
    requires Timed(before) && (before == [] || Last(before).stamp <= t.stamp)
    ensures Timed(before + [t])
  {
    forall k | 0 <= k < |before| ensures before[k].stamp <= t.stamp {
      assert k < |before| - 1 ==> before[k].stamp <= before[|before| - 1].stamp;
    }
  }

  lemma {:induction false} DisorderIsFinal(rows: seq<Trade>, n: nat, limits: Limits)
    requires n <= |rows| && !WellOrdered(rows[..n], limits)
    ensures !WellOrdered(rows, limits)
  {
    if n == |rows| {
      assert rows[..n] == rows;
    } else {
      assert Front(rows)[..n] == rows[..n];
      DisorderIsFinal(Front(rows), n, limits);
    }
  }

  /** The open files after the rows: every symbol's but the current one's is finished. */
  ghost predicate FilesAre(files: map<string, seq<Event>>, rows: seq<Trade>, current: Option<string>) {
    && (forall x :: x in files <==> RowsOf(rows, x) != [])
    && (forall x :: x in files ==>
         files[x] == if Some(x) == current then Spooled(RowsOf(rows, x)) else Spool(RowsOf(rows, x)))
  }

  /** The loop state: the last row's symbol, time and open bar. */
  ghost predicate AtRow(rows: seq<Trade>, current: Option<string>, previousNs: nat, bucket: Option<Bar>) {
    if rows == [] then current == None && bucket == None
    else
      && current == Some(Last(rows).symbol) && previousNs == Last(rows).stamp
      && bucket == BarFor(RowsOf(rows, Last(rows).symbol), SecondOf(previousNs))
  }

  lemma {:induction false} NextRows(rows: seq<Trade>, t: Trade, x: string)
    ensures Front(rows + [t]) == rows && Last(rows + [t]) == t
    ensures RowsOf(rows + [t], x) == RowsOf(rows, x) + if t.symbol == x then [t] else []
  {
    assert Front(rows + [t]) == rows;
  }

  lemma {:induction false} LastRowOf(rows: seq<Trade>)
    requires rows != []
    ensures RowsOf(rows, Last(rows).symbol) != [] && Last(RowsOf(rows, Last(rows).symbol)) == Last(rows)
  {
  }

  function Emitted(
      files: map<string, seq<Event>>, current: Option<string>, bucket: Option<Bar>): map<string, seq<Event>>
  {
    if bucket.None? || current.None? || current.value !in files then files
    else files[current.value := files[current.value] + [BarEvent(bucket.value)]]
  }

  /** Emitting the open bar finishes the current file. */
  lemma {:induction false} EmitFinishes(
      files: map<string, seq<Event>>, rows: seq<Trade>, current: Option<string>, previousNs: nat, bucket: Option<Bar>)
    requires FilesAre(files, rows, current) && AtRow(rows, current, previousNs, bucket)
    ensures FilesAre(Emitted(files, current, bucket), rows, None)
  {
    hide Spooled, Spool, BarFor, SecondOf, RowsOf;
    if rows != [] {
      LastRowOf(rows);
      var own := RowsOf(rows, Last(rows).symbol);
      FinishedFile(own);
    }
  }

  lemma {:induction false} FinishedFile(own: seq<Trade>)
    requires own != []
    ensures var b := BarFor(own, SecondOf(Last(own).stamp));
      Spool(own) == if b.Some? then Spooled(own) + [BarEvent(b.value)] else Spooled(own)
  {
    hide Spooled, BarFor, SecondOf;
    assert Spooled(own) + [] == Spooled(own);
  }

  /** Appending a trade of symbol x touches only x's rows. */
  lemma {:induction false} OtherRows(rows: seq<Trade>, t: Trade, x: string)
    ensures x != t.symbol ==> RowsOf(rows + [t], x) == RowsOf(rows, x)
    ensures x == t.symbol ==> RowsOf(rows + [t], x) == RowsOf(rows, x) + [t]
  {
    NextRows(rows, t, x);
    assert RowsOf(rows, x) + [] == RowsOf(rows, x);
  }

  /** Rewriting the file of the trade's symbol. */
  lemma {:induction false} FilesNext(
      files: map<string, seq<Event>>, rows: seq<Trade>, current: Option<string>, t: Trade, file: seq<Event>)
    requires FilesAre(files, rows, current) && (current == None || current == Some(t.symbol))
    requires file == Spooled(RowsOf(rows, t.symbol) + [t])
    ensures FilesAre(files[t.symbol := file], rows + [t], Some(t.symbol))
  {
    hide Spooled, Spool, RowsOf;
    forall x ensures x != t.symbol ==> RowsOf(rows + [t], x) == RowsOf(rows, x) { OtherRows(rows, t, x); }
    OtherRows(rows, t, t.symbol);
  }

  /** The next trade of the current symbol. */
  lemma {:induction false} SameSymbol(files: map<string, seq<Event>>, rows: seq<Trade>, t: Trade, bucket: Option<Bar>)
    requires rows != [] && Last(rows).symbol == t.symbol && Timed(RowsOf(rows, t.symbol)) && Last(rows).stamp <= t.stamp
    requires FilesAre(files, rows, Some(t.symbol)) && AtRow(rows, Some(t.symbol), Last(rows).stamp, bucket)
    ensures t.symbol in files
    ensures var closing := bucket.Some? && bucket.value.second != SecondOf(t.stamp);
      var ready := if closing then files[t.symbol] + [BarEvent(bucket.value)] else files[t.symbol];
      var open := if closing then None else bucket;
      && FilesAre(files[t.symbol := ready + [PrintEvent(t)]], rows + [t], Some(t.symbol))
      && AtRow(rows + [t], Some(t.symbol), t.stamp, if t.eligible then Some(Grown(open, t)) else open)
  {
    hide Spooled, BarFor, RowsOf, SecondOf, FilesAre, Timed;
    LastRowOf(rows);
    var own, s := RowsOf(rows, t.symbol), SecondOf(Last(rows).stamp);
    OwnFile(files, rows, t.symbol);
    NextSpooled(own, t);
    BarSecond(own, s);
    assert Spooled(own) + [] == Spooled(own);
    var closing := bucket.Some? && bucket.value.second != SecondOf(t.stamp);
    var ready := if closing then files[t.symbol] + [BarEvent(bucket.value)] else files[t.symbol];
    assert ready + [PrintEvent(t)] == Spooled(own + [t]);
    FilesNext(files, rows, Some(t.symbol), t, ready + [PrintEvent(t)]);
    NextRows(rows, t, t.symbol);
    NextBar(own, t, s);
  }

  lemma {:induction false} OwnFile(files: map<string, seq<Event>>, rows: seq<Trade>, x: string)
    requires FilesAre(files, rows, Some(x)) && RowsOf(rows, x) != []
    ensures x in files && files[x] == Spooled(RowsOf(rows, x))
  {
  }

  /** The first trade of a new symbol. */
  lemma {:induction false} NewSymbol(files: map<string, seq<Event>>, rows: seq<Trade>, t: Trade)
    requires FilesAre(files, rows, None) && t.symbol !in files
    ensures FilesAre(files[t.symbol := [PrintEvent(t)]], rows + [t], Some(t.symbol))
    ensures AtRow(rows + [t], Some(t.symbol), t.stamp, if t.eligible then Some(Grown(None, t)) else None)
  {
    hide SecondOf;
    var own := RowsOf(rows, t.symbol);
    assert own == [];
    NextRows(rows, t, t.symbol);
    assert own + [t] == [t];
    FirstSpooled(t);
    FilesNext(files, rows, None, t, [PrintEvent(t)]);
  }

  lemma {:induction false} FirstSpooled(t: Trade)
    ensures Spooled([t]) == [PrintEvent(t)]
    ensures BarFor([t], SecondOf(t.stamp)) == if t.eligible then Some(Grown(None, t)) else None
  {
    assert Front([t]) == [];
  }

  lemma {:induction false} NextSpooled(own: seq<Trade>, t: Trade)
    ensures Spooled(own + [t]) ==
      Spooled(own) + (if own != [] && SecondOf(Last(own).stamp) != SecondOf(t.stamp) then OpenBar(own) else [])
      + [PrintEvent(t)]
  {
    hide OpenBar, SecondOf;
    assert Front(own + [t]) == own && Last(own + [t]) == t;
  }

  lemma {:induction false} NextBar(own: seq<Trade>, t: Trade, s: nat)
    requires own != [] && Timed(own) && s == SecondOf(Last(own).stamp) && Last(own).stamp <= t.stamp
    ensures var open :=
        if BarFor(own, s).Some? && BarFor(own, s).value.second != SecondOf(t.stamp) then None else BarFor(own, s);
      BarFor(own + [t], SecondOf(t.stamp)) == if t.eligible then Some(Grown(open, t)) else open
  {
    hide SecondOf;
    assert Front(own + [t]) == own && Last(own + [t]) == t;
    BarSecond(own, s);
    Earlier(Last(own).stamp, t.stamp);
    if SecondOf(t.stamp) != s { NoLaterBar(own, SecondOf(t.stamp)); }
  }

  lemma {:induction false} OrderedNext(rows: seq<Trade>, t: Trade, limits: Limits)
    ensures WellOrdered(rows + [t], limits) <==>
      WellOrdered(rows, limits) && Admitted(t, limits)
      && (RowsOf(rows, t.symbol) == []
          || (Last(rows).symbol == t.symbol && Last(RowsOf(rows, t.symbol)).stamp <= t.stamp))
  {
    hide RowsOf;
    assert Front(rows + [t]) == rows;
    if rows == [] { NoRows(t.symbol); }
  }

  lemma {:induction false} NoRows(x: string)
    ensures RowsOf([], x) == []
  {
  }

  /** The spool: one finished file per symbol, or nothing when a row is out of place. */
  method SpoolTape(rows: seq<Trade>, limits: Limits) returns (r: Option<map<string, seq<Event>>>)
    ensures r.Some? <==> WellOrdered(rows, limits)
    ensures r.Some? ==> FilesAre(r.value, rows, None)
  {
    hide WellOrdered, FilesAre, AtRow, RowsOf, SecondOf;
    var files: map<string, seq<Event>> := map[];
    var previous: Option<string> := None;
    var previousNs: nat, bucket: Option<Bar> := 0, None;
    StartSpool(rows, limits);
    for i := 0 to |rows|
      invariant WellOrdered(rows[..i], limits)
      invariant FilesAre(files, rows[..i], previous) && AtRow(rows[..i], previous, previousNs, bucket)
    {
      var t := rows[i];
      ghost var done := rows[..i];
      assert rows[..i + 1] == done + [t];
      OrderedNext(done, t, limits);
      if t.provider != limits.provider || t.symbol !in limits.symbols || !(limits.start <= t.stamp < limits.end) {
        DisorderIsFinal(rows, i + 1, limits);
        return None;
      }
      CurrentRow(done, previous, previousNs, bucket);
      ghost var goal;
      if previous != Some(t.symbol) {
        EmitFinishes(files, done, previous, previousNs, bucket);
        files := Emitted(files, previous, bucket);
        KnownSymbol(files, done, t.symbol);
        if t.symbol in files {
          DisorderIsFinal(rows, i + 1, limits);
          return None;
        }
        NewSymbol(files, done, t);
        goal := files[t.symbol := [PrintEvent(t)]];
        files := files[t.symbol := []];
        previous, previousNs, bucket := Some(t.symbol), 0, None;
      } else {
        if t.stamp < previousNs {
          DisorderIsFinal(rows, i + 1, limits);
          return None;
        }
        RowsOfTimed(done, limits, t.symbol);
        SameSymbol(files, done, t, bucket);
        goal := files[t.symbol := (if bucket.Some? && bucket.value.second != SecondOf(t.stamp)
                                   then files[t.symbol] + [BarEvent(bucket.value)] else files[t.symbol])
                                  + [PrintEvent(t)]];
      }
      previousNs := t.stamp;
      var second := t.stamp / NS;
      assert second == SecondOf(t.stamp) by { SecondIs(t.stamp); }
      if bucket.Some? && second != bucket.value.second {
        files := files[t.symbol := files[t.symbol] + [BarEvent(bucket.value)]];
        bucket := None;
      }
      if t.eligible {
        if bucket.None? {
          bucket := Some(Bar(t.symbol, second, t.price, t.price, t.price, t.price, 0));
        }
        var b := bucket.value;
        bucket := Some(b.(high := Max(b.high, t.price), low := Min(b.low, t.price), close := t.price,
          volume := b.volume + t.size));
      }
      files := files[t.symbol := files[t.symbol] + [PrintEvent(t)]];
      assert files[t.symbol] == goal[t.symbol];
      assert files == goal;
    }
    assert rows[..|rows|] == rows;
    EmitFinishes(files, rows, previous, previousNs, bucket);
    r := Some(Emitted(files, previous, bucket));
  }

  lemma {:induction false} SecondIs(stamp: nat)
    ensures SecondOf(stamp) == stamp / NS
  {
  }

  lemma {:induction false} StartSpool(rows: seq<Trade>, limits: Limits)
    ensures WellOrdered(rows[..0], limits) && FilesAre(map[], rows[..0], None) && AtRow(rows[..0], None, 0, None)
  {
  }

  lemma {:induction false} CurrentRow(rows: seq<Trade>, current: Option<string>, previousNs: nat, bucket: Option<Bar>)
    requires AtRow(rows, current, previousNs, bucket)
    ensures rows == [] <==> current == None
    ensures rows != [] ==> current == Some(Last(rows).symbol) && previousNs == Last(rows).stamp
                           && RowsOf(rows, Last(rows).symbol) != []
                           && Last(RowsOf(rows, Last(rows).symbol)) == Last(rows)
  {
    if rows != [] { LastRowOf(rows); }
  }

  lemma {:induction false} KnownSymbol(files: map<string, seq<Event>>, rows: seq<Trade>, x: string)
    requires FilesAre(files, rows, None)
    ensures x in files <==> RowsOf(rows, x) != []
  {
  }

  // ---------------------------------------------------------------- in stamps and prices

  /** The trade is one that the bar of second s is made of. */
  predicate InBar(t: Trade, s: nat) {
    t.eligible && s * 1_000_000_000 <= t.stamp < (s + 1) * 1_000_000_000
  }

  function SizeTotal(rows: seq<Trade>, s: nat): int {
    if rows == [] then 0
    else SizeTotal(rows[..|rows| - 1], s) + if InBar(rows[|rows| - 1], s) then rows[|rows| - 1].size else 0
  }

  lemma {:induction false} CountsInFields(t: Trade, s: nat)
    ensures Counts(t, s) <==> InBar(t, s)
  {
  }

  lemma {:induction false} VolumeInFields(rows: seq<Trade>, s: nat)
    ensures VolumeIn(rows, s) == SizeTotal(rows, s)
  {
    if rows != [] {
      hide Counts, InBar;
      VolumeInFields(Front(rows), s);
      CountsInFields(Last(rows), s);
    }
  }

  /** A second has a bar iff an eligible trade is stamped in it; the bar opens at the first such price, closes at the
      last, spans the least to the greatest, and its volume is the sum of their sizes. */
  lemma {:induction false} BarInFields(rows: seq<Trade>, s: nat)
    ensures BarFor(rows, s).Some? <==> exists k :: 0 <= k < |rows| && InBar(rows[k], s)
    ensures BarFor(rows, s).Some? ==>
      var bar := BarFor(rows, s).value;
      && bar.second == s && bar.volume == SizeTotal(rows, s)
      && (forall k :: 0 <= k < |rows| && InBar(rows[k], s) ==> bar.low <= rows[k].price <= bar.high)
      && (exists k :: 0 <= k < |rows| && InBar(rows[k], s) && rows[k].price == bar.high)
      && (exists k :: 0 <= k < |rows| && InBar(rows[k], s) && rows[k].price == bar.low)
      && (exists k :: 0 <= k < |rows| && InBar(rows[k], s) && rows[k].price == bar.open
                      && forall m :: 0 <= m < k ==> !InBar(rows[m], s))
      && (exists k :: 0 <= k < |rows| && InBar(rows[k], s) && rows[k].price == bar.close
                      && forall m :: k < m < |rows| ==> !InBar(rows[m], s))
  {
    hide BarFor, VolumeIn, Counts, InBar;
    BarMeaning(rows, s);
    VolumeInFields(rows, s);
    forall t ensures Counts(t, s) <==> InBar(t, s) { CountsInFields(t, s); }
  }

  /** A trade is delivered at its own stamp, a bar at the end of its second, and a file holds nothing else. */
  ghost predicate Delivered(e: Event) {
    match e.body
    case Pulse => false
    case Print(t) => e.at == t.stamp && e.kind == 2 && e.symbol == t.symbol
    case Aggregate(bar) => e.at == (bar.second + 1) * 1_000_000_000 && e.kind == 1 && e.symbol == bar.symbol
  }

  lemma {:induction false} SpooledInFields(rows: seq<Trade>)
    ensures forall k :: 0 <= k < |Spooled(rows)| ==> Delivered(Spooled(rows)[k])
  {
    if rows != [] {
      hide BarFor, SecondOf;
      SpooledInFields(Front(rows));
    }
  }

  lemma {:induction false} SpoolInFields(rows: seq<Trade>)
    ensures forall k :: 0 <= k < |Spool(rows)| ==> Delivered(Spool(rows)[k])
  {
    hide BarFor, SecondOf, Spooled;
    SpooledInFields(rows);
  }
}
