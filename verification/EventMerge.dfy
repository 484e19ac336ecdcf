/** The merge in `replay` of scripts/momold1_bounded_replay.py: the second pulses and every symbol's spool,
    taken by time, kind and symbol, earlier streams first among equals. */
module EventMerge {
  import opened Wrappers
  import opened BarSpool

  /** An event and the stream it came from. */
  datatype Tagged = Tagged(stream: nat, event: Event)

  /** `rank` numbers the symbols in their order. */
  predicate Before(a: Event, b: Event, rank: string -> int) {
    || a.at < b.at
    || (a.at == b.at && a.kind < b.kind)
    || (a.at == b.at && a.kind == b.kind && rank(a.symbol) < rank(b.symbol))
  }

  ghost predicate InOrder(events: seq<Event>, rank: string -> int) {
    forall i, j :: 0 <= i < j < |events| ==> !Before(events[j], events[i], rank)
  }

  /** Of two merged events the earlier one is not after the later, and equals keep the stream order. */
  predicate Precedes(a: Tagged, b: Tagged, rank: string -> int) {
    !Before(b.event, a.event, rank) && (!Before(a.event, b.event, rank) ==> a.stream <= b.stream)
  }

  ghost predicate Merged(out: seq<Tagged>, rank: string -> int) {
    forall i, j :: 0 <= i < j < |out| ==> Precedes(out[i], out[j], rank)
  }

  /** What the output took from one stream. */
  function From(out: seq<Tagged>, stream: nat): seq<Event> {
    if out == [] then []
    else
      var last := out[|out| - 1];
      From(out[..|out| - 1], stream) + if last.stream == stream then [last.event] else []
  }

  // ---------------------------------------------------------------- the merge

  /** The first unread event of every stream that has one. */
  predicate Pending(streams: seq<seq<Event>>, pos: seq<nat>, i: nat) {
    i < |streams| == |pos| && pos[i] < |streams[i]|
  }

  function Head(streams: seq<seq<Event>>, pos: seq<nat>, i: nat): Tagged
    requires Pending(streams, pos, i)
  {
    Tagged(i, streams[i][pos[i]])
  }

  ghost predicate State(streams: seq<seq<Event>>, pos: seq<nat>, out: seq<Tagged>, rank: string -> int) {
    && |pos| == |streams|
    && (forall i :: 0 <= i < |streams| ==> pos[i] <= |streams[i]| && From(out, i) == streams[i][..pos[i]])
    && Merged(out, rank)
    && (forall k, i :: 0 <= k < |out| && Pending(streams, pos, i) ==> Precedes(out[k], Head(streams, pos, i), rank))
  }

  ghost predicate Least(streams: seq<seq<Event>>, pos: seq<nat>, best: nat, n: nat, rank: string -> int) {
    && Pending(streams, pos, best)
    && forall i :: 0 <= i < n && Pending(streams, pos, i) ==>
       Precedes(Head(streams, pos, best), Head(streams, pos, i), rank)
  }

  /** The least head; of equal ones the first stream's. */
  method LeastHead(streams: seq<seq<Event>>, pos: seq<nat>, rank: string -> int) returns (best: Option<nat>)
    requires |pos| == |streams| && forall i :: 0 <= i < |pos| ==> pos[i] <= |streams[i]|
    ensures best.None? ==> forall i :: 0 <= i < |pos| ==> pos[i] == |streams[i]|
    ensures best.Some? ==> Least(streams, pos, best.value, |streams|, rank)
  {
    best := None;
    for i := 0 to |streams|
      invariant best.None? ==> forall k :: 0 <= k < i ==> pos[k] == |streams[k]|
      invariant best.Some? ==> best.value < i && Least(streams, pos, best.value, i, rank)
    {
      if pos[i] < |streams[i]| {
        if best.None? || Before(streams[i][pos[i]], streams[best.value][pos[best.value]], rank) {
          best := Some(i);
        }
      }
    }
  }

  lemma {:induction false} FromAppend(out: seq<Tagged>, e: Tagged, stream: nat)
    ensures From(out + [e], stream) == From(out, stream) + if e.stream == stream then [e.event] else []
  {
    assert (out + [e])[..|out|] == out;
  }

  lemma {:induction false} PrecedesTrans(a: Tagged, b: Tagged, c: Tagged, rank: string -> int)
    requires Precedes(a, b, rank) && Precedes(b, c, rank)
    ensures Precedes(a, c, rank)
  {
  }

  lemma {:induction false} TakeLeast(
      streams: seq<seq<Event>>, pos: seq<nat>, out: seq<Tagged>, best: nat, rank: string -> int)
    requires State(streams, pos, out, rank) && Least(streams, pos, best, |streams|, rank)
    requires forall i :: 0 <= i < |streams| ==> InOrder(streams[i], rank)
    ensures State(streams, pos[best := pos[best] + 1], out + [Head(streams, pos, best)], rank)
  {
    hide From, Before;
    var head := Head(streams, pos, best);
    var pos', out' := pos[best := pos[best] + 1], out + [head];
    forall i | 0 <= i < |streams| ensures pos'[i] <= |streams[i]| && From(out', i) == streams[i][..pos'[i]] {
      FromAppend(out, head, i);
      assert i == best ==> streams[i][..pos'[i]] == streams[i][..pos[i]] + [streams[i][pos[i]]];
      assert streams[i][..pos[i]] + [] == streams[i][..pos[i]];
    }
    forall i | Pending(streams, pos', i) ensures Precedes(head, Head(streams, pos', i), rank) {
      if i == best {
        assert InOrder(streams[best], rank);
      } else {
        assert Pending(streams, pos, i);
      }
    }
    forall k, i | 0 <= k < |out'| && Pending(streams, pos', i) ensures Precedes(out'[k], Head(streams, pos', i), rank) {
      if k < |out| {
        assert Precedes(out[k], head, rank);
        PrecedesTrans(out[k], head, Head(streams, pos', i), rank);
      }
    }
    forall i, j | 0 <= i < j < |out'| ensures Precedes(out'[i], out'[j], rank) {
      if j == |out| { assert Precedes(out[i], head, rank); }
    }
  }

  function Remaining(streams: seq<seq<Event>>, pos: seq<nat>): nat
    requires |pos| == |streams| && forall i :: 0 <= i < |pos| ==> pos[i] <= |streams[i]|
  {
    if streams == [] then 0
    else
      var n := |streams| - 1;
      Remaining(streams[..n], pos[..n]) + |streams[n]| - pos[n]
  }

  lemma {:induction false} RemainingFalls(streams: seq<seq<Event>>, pos: seq<nat>, i: nat)
    requires |pos| == |streams| && forall k :: 0 <= k < |pos| ==> pos[k] <= |streams[k]|
    requires i < |pos| && pos[i] < |streams[i]|
    ensures Remaining(streams, pos[i := pos[i] + 1]) < Remaining(streams, pos)
  {
    var n := |streams| - 1;
    if i < n {
      assert pos[i := pos[i] + 1][..n] == pos[..n][i := pos[i] + 1];
      RemainingFalls(streams[..n], pos[..n], i);
    } else {
      assert pos[i := pos[i] + 1][..n] == pos[..n];
    }
  }

  /** `heapq.merge`: an interleaving of all the streams and nothing else, in order. */
  method Merge(streams: seq<seq<Event>>, rank: string -> int) returns (out: seq<Tagged>)
    requires forall i :: 0 <= i < |streams| ==> InOrder(streams[i], rank)
    ensures Merged(out, rank)
    ensures forall i :: 0 <= i < |streams| ==> From(out, i) == streams[i]
    ensures forall k :: 0 <= k < |out| ==> out[k].stream < |streams|
  {
    hide From, InOrder, Least, Remaining;
    var pos: seq<nat> := seq(|streams|, i => 0);
    out := [];
    StartState(streams, pos, rank);
    while true
      invariant State(streams, pos, out, rank)
      invariant forall k :: 0 <= k < |out| ==> out[k].stream < |streams|
      decreases Remaining(streams, pos)
    {
      var best := LeastHead(streams, pos, rank);
      if best.None? { break; }
      LeastPending(streams, pos, best.value, rank);
      TakeLeast(streams, pos, out, best.value, rank);
      RemainingFalls(streams, pos, best.value);
      out := out + [Tagged(best.value, streams[best.value][pos[best.value]])];
      pos := pos[best.value := pos[best.value] + 1];
    }
    forall i | 0 <= i < |streams| ensures From(out, i) == streams[i] {
      assert streams[i][..pos[i]] == streams[i];
    }
  }

  lemma {:induction false} StartState(streams: seq<seq<Event>>, pos: seq<nat>, rank: string -> int)
    requires |pos| == |streams| && forall i :: 0 <= i < |pos| ==> pos[i] == 0
    ensures State(streams, pos, [], rank)
  {
  }

  lemma {:induction false} LeastPending(streams: seq<seq<Event>>, pos: seq<nat>, best: nat, rank: string -> int)
    requires Least(streams, pos, best, |streams|, rank)
    ensures Pending(streams, pos, best)
  {
  }

  // ---------------------------------------------------------------- what the replay sees

  /** A file sorted by time and kind is in order: its events share a symbol. */
  lemma {:induction false} SpoolInOrder(rows: seq<Trade>, symbol: string, rank: string -> int)
    requires Timed(rows) && forall k :: 0 <= k < |rows| ==> rows[k].symbol == symbol
    ensures InOrder(Spool(rows), rank)
  {
    SpoolSorted(rows);
    SpoolSymbol(rows, symbol);
    var events := Spool(rows);
    forall i, j | 0 <= i < j < |events| ensures !Before(events[j], events[i], rank) {
      assert NotAfter(events[i], events[j]) && events[i].symbol == symbol && events[j].symbol == symbol;
    }
  }

  ghost predicate OfSymbol(events: seq<Event>, symbol: string) {
    forall k :: 0 <= k < |events| ==> events[k].symbol == symbol
  }

  lemma {:induction false} BarSymbol(rows: seq<Trade>, symbol: string, s: nat)
    requires forall k :: 0 <= k < |rows| ==> rows[k].symbol == symbol
    ensures BarFor(rows, s).Some? ==> BarFor(rows, s).value.symbol == symbol
  {
    if rows != [] { BarSymbol(Front(rows), symbol, s); }
  }

  lemma {:induction false} SpooledSymbol(rows: seq<Trade>, symbol: string)
    requires forall k :: 0 <= k < |rows| ==> rows[k].symbol == symbol
    ensures OfSymbol(Spooled(rows), symbol)
  {
    if rows != [] {
      hide BarFor, SecondOf;
      SpooledSymbol(Front(rows), symbol);
      if |rows| > 1 { BarSymbol(Front(rows), symbol, SecondOf(Last(Front(rows)).stamp)); }
    }
  }

  lemma {:induction false} SpoolSymbol(rows: seq<Trade>, symbol: string)
    requires forall k :: 0 <= k < |rows| ==> rows[k].symbol == symbol
    ensures OfSymbol(Spool(rows), symbol)
  {
    hide BarFor, SecondOf, Spooled;
    SpooledSymbol(rows, symbol);
    if rows != [] { BarSymbol(rows, symbol, SecondOf(Last(rows).stamp)); }
  }

  ghost predicate IsPrint(e: Event) { e.body.Print? && e == PrintEvent(e.body.trade) }

  ghost predicate IsBar(e: Event) { e.body.Aggregate? && e == BarEvent(e.body.bar) }

  /** A bar is delivered after every trade of its second and before every trade of a later one,
      whatever the symbols. */
  lemma {:induction false} BarAfterItsTrades(out: seq<Tagged>, rank: string -> int, b: nat, t: nat)
    requires Merged(out, rank) && b < |out| && t < |out| && IsBar(out[b].event) && IsPrint(out[t].event)
    ensures SecondOf(out[t].event.at) <= out[b].event.body.bar.second ==> t < b
    ensures out[b].event.body.bar.second < SecondOf(out[t].event.at) ==> b < t
  {
    assert b != t;
    if t < b { assert Precedes(out[t], out[b], rank); } else { assert Precedes(out[b], out[t], rank); }
    var s, u := SecondOf(out[t].event.at), out[b].event.body.bar.second;
    assert s <= u ==> out[t].event.at < (u + 1) * NS;
    assert u < s ==> (u + 1) * NS <= s * NS;
  }

  /** In the merge the times never fall, at one time the kinds never fall, at one time and kind the symbols, and among
      equal ones the streams. */
  lemma {:induction false} OrderInFields(out: seq<Tagged>, rank: string -> int, i: nat, j: nat)
    requires Merged(out, rank) && i < j < |out|
    ensures var a, b := out[i].event, out[j].event;
      || a.at < b.at
      || (a.at == b.at && a.kind < b.kind)
      || (a.at == b.at && a.kind == b.kind && rank(a.symbol) < rank(b.symbol))
      || (a.at == b.at && a.kind == b.kind && rank(a.symbol) == rank(b.symbol) && out[i].stream <= out[j].stream)
  {
    assert Precedes(out[i], out[j], rank);
  }
}
