/** What the per-second counts mean: the distinct symbols that printed in each second of the window,
    as a function of the prints. The C++ scanner (TapeScanner) and the Python twin (PartialDay) are both
    proved against this module. */
module SecondCounts {

  const NS := 1_000_000_000

  /** One trade print: its symbol and its SIP timestamp in nanoseconds. */
  datatype Print = Print(name: string, stamp: nat)

  /** A window of whole seconds. */
  datatype Window = Window(start: nat, end: nat)

  predicate Whole(w: Window) {
    w.start % NS == 0 && w.end % NS == 0 && w.start < w.end
  }

  function Seconds(w: Window): nat
    requires Whole(w)
  {
    (w.end - w.start) / NS
  }

  predicate Inside(w: Window, stamp: nat) { w.start <= stamp < w.end }

  function SecondOf(w: Window, stamp: nat): (s: nat)
    requires Whole(w) && Inside(w, stamp)
    ensures s < Seconds(w)
  {
    (stamp - w.start) / NS
  }

  /** The symbols that printed in second s. */
  function NamesIn(prints: seq<Print>, w: Window, s: nat): set<string>
    requires Whole(w)
  {
    if prints == [] then {}
    else
      var front, last := prints[..|prints| - 1], prints[|prints| - 1];
      NamesIn(front, w, s) + if Inside(w, last.stamp) && SecondOf(w, last.stamp) == s then {last.name} else {}
  }

  lemma {:induction false} NamesInMeaning(prints: seq<Print>, w: Window, s: nat, name: string)
    requires Whole(w)
    ensures name in NamesIn(prints, w, s) <==>
      exists p :: p in prints && p.name == name && Inside(w, p.stamp) && SecondOf(w, p.stamp) == s
  {
    if prints != [] {
      var front, last := prints[..|prints| - 1], prints[|prints| - 1];
      NamesInMeaning(front, w, s, name);
      assert prints == front + [last];
      assert last in prints;
    }
  }

  /** The count of every second. */
  function Counts(prints: seq<Print>, w: Window): (r: seq<nat>)
    requires Whole(w)
    ensures |r| == Seconds(w)
  {
    seq(Seconds(w), s requires 0 <= s < Seconds(w) => |NamesIn(prints, w, s)|)
  }

  /** The counts depend only on which prints there are: not on their order, nor on repeats. */
  lemma {:induction false} CountsIgnoreOrder(prints: seq<Print>, others: seq<Print>, w: Window)
    requires Whole(w)
    requires forall p :: p in prints <==> p in others
    ensures Counts(prints, w) == Counts(others, w)
  {
    forall s | 0 <= s < Seconds(w) ensures NamesIn(prints, w, s) == NamesIn(others, w, s) {
      forall name ensures name in NamesIn(prints, w, s) <==> name in NamesIn(others, w, s) {
        NamesInMeaning(prints, w, s, name);
        NamesInMeaning(others, w, s, name);
      }
    }
  }

  // ---------------------------------------------------------------- the total

  function Sum(counts: seq<nat>): nat {
    if counts == [] then 0 else Sum(counts[..|counts| - 1]) + counts[|counts| - 1]
  }

  /** Every symbol and second in which it printed. */
  function Pairs(prints: seq<Print>, w: Window): set<(string, nat)>
    requires Whole(w)
  {
    if prints == [] then {}
    else
      var front, last := prints[..|prints| - 1], prints[|prints| - 1];
      Pairs(front, w) + if Inside(w, last.stamp) then {(last.name, SecondOf(w, last.stamp))} else {}
  }

  lemma {:induction false} PairsAreNames(prints: seq<Print>, w: Window, name: string, s: nat)
    requires Whole(w)
    ensures (name, s) in Pairs(prints, w) <==> name in NamesIn(prints, w, s)
  {
    if prints != [] { PairsAreNames(prints[..|prints| - 1], w, name, s); }
  }

  lemma {:induction false} SumBump(a: seq<nat>, b: seq<nat>, k: nat)
    requires |a| == |b| && k < |a| && b == a[k := a[k] + 1]
    ensures Sum(b) == Sum(a) + 1
  {
    var n := |a| - 1;
    if k == n {
      assert a[..n] == b[..n];
    } else {
      assert b[..n] == a[..n][k := a[k] + 1];
      SumBump(a[..n], b[..n], k);
    }
  }

  lemma {:induction false} SumZeros(a: seq<nat>)
    requires forall k :: 0 <= k < |a| ==> a[k] == 0
    ensures Sum(a) == 0
  {
    if a != [] { SumZeros(a[..|a| - 1]); }
  }

  lemma {:induction false} NamesAppend(prints: seq<Print>, p: Print, w: Window, t: nat)
    requires Whole(w)
    ensures NamesIn(prints + [p], w, t) ==
      NamesIn(prints, w, t) + if Inside(w, p.stamp) && SecondOf(w, p.stamp) == t then {p.name} else {}
  {
    hide SecondOf, Whole;
    var more := prints + [p];
    assert more[..|more| - 1] == prints;
  }

  /** How one more print changes the counts: a bump when its pair is new, nothing otherwise. */
  lemma {:induction false} CountsAppend(prints: seq<Print>, p: Print, w: Window)
    requires Whole(w)
    ensures !Inside(w, p.stamp) ==> Counts(prints + [p], w) == Counts(prints, w)
    ensures Inside(w, p.stamp) ==>
      var s := SecondOf(w, p.stamp);
      var counts := Counts(prints, w);
      Counts(prints + [p], w) == if p.name in NamesIn(prints, w, s) then counts else counts[s := counts[s] + 1]
  {
    hide SecondOf, NamesIn, Whole, Seconds, Inside;
    forall t | 0 <= t < Seconds(w)
      ensures NamesIn(prints + [p], w, t) ==
        NamesIn(prints, w, t) + if Inside(w, p.stamp) && SecondOf(w, p.stamp) == t then {p.name} else {}
    {
      NamesAppend(prints, p, w, t);
    }
    if Inside(w, p.stamp) {
      var s := SecondOf(w, p.stamp);
      var names := NamesIn(prints, w, s);
      assert p.name in names ==> names + {p.name} == names;
    }
  }

  lemma {:induction false} PairsAppend(prints: seq<Print>, p: Print, w: Window)
    requires Whole(w)
    ensures !Inside(w, p.stamp) ==> Pairs(prints + [p], w) == Pairs(prints, w)
    ensures Inside(w, p.stamp) ==> Pairs(prints + [p], w) == Pairs(prints, w) + {(p.name, SecondOf(w, p.stamp))}
  {
    hide SecondOf;
    var more := prints + [p];
    assert more[..|more| - 1] == prints;
  }

  /** The print shows its symbol in a second where it had not printed yet. */
  predicate NewPair(prints: seq<Print>, p: Print, w: Window)
    requires Whole(w)
  {
    Inside(w, p.stamp) && p.name !in NamesIn(prints, w, SecondOf(w, p.stamp))
  }

  lemma {:induction false} SumAppend(prints: seq<Print>, p: Print, w: Window)
    requires Whole(w)
    ensures Sum(Counts(prints + [p], w)) == Sum(Counts(prints, w)) + if NewPair(prints, p, w) then 1 else 0
  {
    hide Counts, NamesIn, SecondOf, Sum, Whole, Seconds, Inside;
    CountsAppend(prints, p, w);
    if NewPair(prints, p, w) {
      SumBump(Counts(prints, w), Counts(prints + [p], w), SecondOf(w, p.stamp));
    }
  }

  lemma {:induction false} PairsCount(prints: seq<Print>, p: Print, w: Window)
    requires Whole(w)
    ensures |Pairs(prints + [p], w)| == |Pairs(prints, w)| + if NewPair(prints, p, w) then 1 else 0
  {
    hide Pairs, NamesIn, SecondOf, Whole, Seconds, Inside;
    PairsAppend(prints, p, w);
    if Inside(w, p.stamp) {
      PairsAreNames(prints, w, p.name, SecondOf(w, p.stamp));
      var pair := (p.name, SecondOf(w, p.stamp));
      assert pair in Pairs(prints, w) ==> Pairs(prints, w) + {pair} == Pairs(prints, w);
    }
  }

  /** The counts add up to the number of symbol-second pairs. */
  lemma {:induction false} CountsSumToPairs(prints: seq<Print>, w: Window)
    requires Whole(w)
    ensures Sum(Counts(prints, w)) == |Pairs(prints, w)|
  {
    if prints == [] {
      SumZeros(Counts(prints, w));
    } else {
      hide *;
      var front, p := prints[..|prints| - 1], prints[|prints| - 1];
      CountsSumToPairs(front, w);
      SumAppend(front, p, w);
      PairsCount(front, p, w);
      assert front + [p] == prints;
    }
  }
}
