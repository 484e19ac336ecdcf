/** group_events of scripts/actual_resting_entry_extrema.py: a union-find with path halving whose
    groups are exactly the connected components of the same-event relation. */
module FillGroups {
  import opened Fills

  const CROSS_BROKER_MICROS := 10_000_000
  const DUPLICATE_MICROS := 30_000_000

  function Distance(a: int, b: int): int { if a <= b then b - a else a - b }

  /** Two fills that belong to one event: the same symbol and day, and either different brokers
      within ten seconds or the same broker's same slot within thirty. */
  predicate Linked(a: Fill, b: Fill) {
    && a.day == b.day && a.symbol == b.symbol
    && (|| (a.account != b.account && Distance(a.at, b.at) <= CROSS_BROKER_MICROS)
        || (a.account == b.account && a.slotId != "" && a.slotId == b.slotId
            && Distance(a.at, b.at) <= DUPLICATE_MICROS))
  }

  predicate LinkedAt(entries: seq<Fill>, i: nat, j: nat) {
    i < |entries| && j < |entries| && Linked(entries[i], entries[j])
  }

  // ---------------------------------------------------------------- chains

  /** A chain of linked pairs through the entries. */
  ghost predicate Chain(entries: seq<Fill>, path: seq<nat>) {
    && |path| > 0
    && (forall k :: 0 <= k < |path| ==> path[k] < |entries|)
    && (forall k :: 0 < k < |path| ==> LinkedAt(entries, path[k - 1], path[k]))
  }

  ghost predicate Joins(entries: seq<Fill>, path: seq<nat>, i: nat, j: nat) {
    Chain(entries, path) && path[0] == i && path[|path| - 1] == j
  }

  ghost predicate Connected(entries: seq<Fill>, i: nat, j: nat) {
    exists path :: Joins(entries, path, i, j)
  }

  lemma {:induction false} ConnectedSelf(entries: seq<Fill>, i: nat)
    requires i < |entries|
    ensures Connected(entries, i, i)
  {
    assert Joins(entries, [i], i, i);
  }

  lemma {:induction false} ConnectedLink(entries: seq<Fill>, i: nat, j: nat)
    requires LinkedAt(entries, i, j)
    ensures Connected(entries, i, j)
  {
    assert Joins(entries, [i, j], i, j);
  }

  lemma {:induction false} ConnectedTrans(entries: seq<Fill>, i: nat, j: nat, k: nat)
    requires Connected(entries, i, j) && Connected(entries, j, k)
    ensures Connected(entries, i, k)
  {
    var p :| Joins(entries, p, i, j);
    var q :| Joins(entries, q, j, k);
    var r := p + q[1..];
    assert forall m :: |p| <= m < |r| ==> r[m] == q[m - |p| + 1];
    assert Joins(entries, r, i, k);
  }

  lemma {:induction false} ConnectedSym(entries: seq<Fill>, i: nat, j: nat)
    requires Connected(entries, i, j)
    ensures Connected(entries, j, i)
  {
    var p :| Joins(entries, p, i, j);
    var r := seq(|p|, m requires 0 <= m < |p| => p[|p| - 1 - m]);
    forall m | 0 < m < |r| ensures LinkedAt(entries, r[m - 1], r[m]) {
      assert LinkedAt(entries, p[|p| - 1 - m], p[|p| - m]);
    }
    assert Joins(entries, r, j, i);
  }

  // ---------------------------------------------------------------- the forest

  /** Node i lies in a tree: `rep` names its root, and `rank` falls from parent to child. */
  ghost predicate Node(parent: seq<nat>, rep: seq<nat>, rank: seq<nat>, i: nat)
    requires |parent| == |rep| == |rank| && i < |parent|
  {
    && parent[i] < |parent| && rep[i] < |parent|
    && rep[parent[i]] == rep[i] && parent[rep[i]] == rep[i]
    && (if parent[i] == i then rep[i] == i else rank[i] < rank[parent[i]])
  }

  /** The parent array is a forest, so every walk towards a root ends. */
  ghost predicate Forest(parent: seq<nat>, rep: seq<nat>, rank: seq<nat>) {
    |parent| == |rep| == |rank| && forall i :: 0 <= i < |parent| ==> Node(parent, rep, rank, i)
  }

  /** Halving one step keeps the forest, its roots and its ranks. */
  lemma {:induction false} Halve(parent: seq<nat>, rep: seq<nat>, rank: seq<nat>, i: nat)
    requires Forest(parent, rep, rank) && i < |parent| && parent[i] != i
    ensures parent[i] < |parent| && parent[parent[i]] < |parent|
    ensures Forest(parent[i := parent[parent[i]]], rep, rank)
    ensures rank[i] < rank[parent[parent[i]]] && rep[parent[parent[i]]] == rep[i]
  {
    assert Node(parent, rep, rank, i);
    assert Node(parent, rep, rank, parent[i]);
    var up := parent[parent[i]];
    assert Node(parent, rep, rank, up);
    var halved := parent[i := up];
    forall k | 0 <= k < |parent| ensures Node(halved, rep, rank, k) { assert Node(parent, rep, rank, k); }
  }

  ghost function Top(rank: seq<nat>): (t: nat)
    ensures forall k :: 0 <= k < |rank| ==> rank[k] <= t
  {
    if rank == [] then 0
    else
      var t := Top(rank[..|rank| - 1]);
      if t < rank[|rank| - 1] then rank[|rank| - 1] else t
  }

  /** Walks to the root, halving the path on the way; no node's root changes. */
  method Root(parent: array<nat>, start: nat, ghost rep: seq<nat>, ghost rank: seq<nat>) returns (r: nat)
    requires Forest(parent[..], rep, rank) && start < parent.Length
    modifies parent
    ensures Forest(parent[..], rep, rank)
    ensures r < parent.Length && r == rep[start] && parent[r] == r
  {
    hide Forest;
    var index: nat := start;
    ghost var top := Top(rank);
    RootOf(parent[..], rep, rank, start);
    while parent[index] != index
      invariant index < parent.Length && parent.Length == |rep| == |rank| && rep[index] == rep[start]
      invariant Forest(parent[..], rep, rank)
      decreases top - rank[index]
    {
      ghost var before := parent[..];
      Halve(before, rep, rank, index);
      parent[index] := parent[parent[index]];
      assert parent[..] == before[index := before[before[index]]];
      index := parent[index];
    }
    RootOf(parent[..], rep, rank, index);
    r := index;
  }

  lemma {:induction false} RootOf(parent: seq<nat>, rep: seq<nat>, rank: seq<nat>, i: nat)
    requires Forest(parent, rep, rank) && i < |parent|
    ensures |parent| == |rep| == |rank| && rep[i] < |parent|
    ensures parent[i] == i ==> rep[i] == i
    ensures parent[rep[i]] == rep[i] && rep[rep[i]] == rep[i]
  {
    assert Node(parent, rep, rank, i) && Node(parent, rep, rank, rep[i]);
  }

  /** The roots after joining the trees of two roots. */
  function Merged(rep: seq<nat>, left: nat, right: nat): (r: seq<nat>)
    ensures |r| == |rep|
    ensures forall i :: 0 <= i < |rep| ==> r[i] == if rep[i] == right then left else rep[i]
  {
    seq(|rep|, i requires 0 <= i < |rep| => if rep[i] == right then left else rep[i])
  }

  /** Hanging one root under another joins exactly those two trees. */
  lemma {:induction false} Hang(parent: seq<nat>, rep: seq<nat>, rank: seq<nat>, left: nat, right: nat)
    returns (rank': seq<nat>)
    requires Forest(parent, rep, rank) && left < |parent| && right < |parent| && left != right
    requires parent[left] == left && parent[right] == right
    ensures Forest(parent[right := left], Merged(rep, left, right), rank')
  {
    rank' := if rank[left] <= rank[right] then rank[left := rank[right] + 1] else rank;
    var above := parent[right := left];
    assert Node(parent, rep, rank, left) && Node(parent, rep, rank, right);
    forall k | 0 <= k < |parent| ensures Node(above, Merged(rep, left, right), rank', k) {
      assert Node(parent, rep, rank, k) && Node(parent, rep, rank, parent[k]);
    }
  }

  method Union(parent: array<nat>, i: nat, j: nat, ghost rep: seq<nat>, ghost rank: seq<nat>)
    returns (ghost rep': seq<nat>, ghost rank': seq<nat>)
    requires Forest(parent[..], rep, rank) && i < parent.Length && j < parent.Length
    modifies parent
    ensures Forest(parent[..], rep', rank')
    ensures rep' == if rep[i] == rep[j] then rep else Merged(rep, rep[i], rep[j])
  {
    hide Forest;
    var left := Root(parent, i, rep, rank);
    var right := Root(parent, j, rep, rank);
    RootOf(parent[..], rep, rank, i);
    rep', rank' := rep, rank;
    if left != right {
      rank' := Hang(parent[..], rep, rank, left, right);
      ghost var before := parent[..];
      parent[right] := left;
      assert parent[..] == before[right := left];
      rep' := Merged(rep, left, right);
    }
  }

  // ---------------------------------------------------------------- roots against components

  /** Equal roots only within a component. */
  ghost predicate Sound(entries: seq<Fill>, rep: seq<nat>) {
    |rep| == |entries| && forall a, b :: 0 <= a < |rep| && 0 <= b < |rep| && rep[a] == rep[b] ==>
      Connected(entries, a, b)
  }

  /** The linked pair (a, b) has been joined. */
  ghost predicate Joined(entries: seq<Fill>, rep: seq<nat>, a: nat, b: nat)
    requires a < |rep| && b < |rep|
  {
    LinkedAt(entries, a, b) ==> rep[a] == rep[b]
  }

  lemma {:induction false} MergeSound(entries: seq<Fill>, rep: seq<nat>, i: nat, j: nat)
    requires Sound(entries, rep) && LinkedAt(entries, i, j)
    ensures Sound(entries, Merged(rep, rep[i], rep[j]))
  {
    hide Connected;
    var m := Merged(rep, rep[i], rep[j]);
    forall a, b | 0 <= a < |m| && 0 <= b < |m| && m[a] == m[b] ensures Connected(entries, a, b) {
      ToMerged(entries, rep, i, j, a);
      ToMerged(entries, rep, i, j, b);
      if rep[a] != rep[b] {
        ConnectedSym(entries, b, i);
        ConnectedTrans(entries, a, i, b);
      }
    }
  }

  lemma {:induction false} ToMerged(entries: seq<Fill>, rep: seq<nat>, i: nat, j: nat, a: nat)
    requires Sound(entries, rep) && LinkedAt(entries, i, j) && a < |rep|
    ensures rep[a] == rep[i] || rep[a] == rep[j] ==> Connected(entries, a, i)
  {
    hide Connected;
    if rep[a] == rep[j] {
      ConnectedLink(entries, i, j);
      ConnectedSym(entries, i, j);
      ConnectedTrans(entries, a, j, i);
    }
  }

  lemma {:induction false} ChainJoined(entries: seq<Fill>, rep: seq<nat>, path: seq<nat>)
    requires |rep| == |entries| && Chain(entries, path)
    requires forall a, b :: 0 <= a < b < |entries| ==> Joined(entries, rep, a, b)
    ensures rep[path[0]] == rep[path[|path| - 1]]
  {
    if |path| > 1 {
      var front := path[..|path| - 1];
      ChainJoined(entries, rep, front);
      var a, b := path[|path| - 2], path[|path| - 1];
      assert LinkedAt(entries, a, b) && LinkedAt(entries, b, a);
      if a < b { assert Joined(entries, rep, a, b); } else if b < a { assert Joined(entries, rep, b, a); }
    }
  }

  /** Joining every linked pair makes the trees the components. */
  lemma {:induction false} RootsAreComponents(entries: seq<Fill>, rep: seq<nat>)
    requires Sound(entries, rep)
    requires forall a, b :: 0 <= a < b < |entries| ==> Joined(entries, rep, a, b)
    ensures forall a, b :: 0 <= a < |rep| && 0 <= b < |rep| ==> (rep[a] == rep[b] <==> Connected(entries, a, b))
  {
    forall a, b | 0 <= a < |rep| && 0 <= b < |rep| && Connected(entries, a, b) ensures rep[a] == rep[b] {
      var path :| Joins(entries, path, a, b);
      ChainJoined(entries, rep, path);
    }
  }

  /** Every linked pair before (left, right) in loop order has been joined. */
  ghost predicate JoinedBefore(entries: seq<Fill>, rep: seq<nat>, left: nat, right: nat) {
    |rep| == |entries|
    && forall a, b :: 0 <= a < b < |entries| && (a < left || (a == left && b < right)) ==> Joined(entries, rep, a, b)
  }

  lemma {:induction false} JoinedNext(entries: seq<Fill>, rep: seq<nat>, left: nat, right: nat)
    requires JoinedBefore(entries, rep, left, right) && left < right < |entries|
    requires Joined(entries, rep, left, right)
    ensures JoinedBefore(entries, rep, left, right + 1)
  {
  }

  /** Joining more trees keeps joined pairs joined. */
  lemma {:induction false} JoinedMerged(entries: seq<Fill>, rep: seq<nat>, left: nat, right: nat, i: nat, j: nat)
    requires JoinedBefore(entries, rep, left, right) && i < |rep| && j < |rep|
    ensures JoinedBefore(entries, Merged(rep, rep[i], rep[j]), left, right)
  {
    var m := Merged(rep, rep[i], rep[j]);
    forall a, b | 0 <= a < b < |entries| && (a < left || (a == left && b < right)) ensures Joined(entries, m, a, b) {
      assert Joined(entries, rep, a, b);
    }
  }

  lemma {:induction false} JoinedRow(entries: seq<Fill>, rep: seq<nat>, left: nat)
    requires left < |entries| && |rep| == |entries|
    ensures JoinedBefore(entries, rep, left, |entries|) <==> JoinedBefore(entries, rep, left + 1, left + 2)
    ensures JoinedBefore(entries, rep, left, left + 1) <==> JoinedBefore(entries, rep, left, 0)
  {
  }

  lemma {:induction false} StartSound(entries: seq<Fill>, rep: seq<nat>, rank: seq<nat>)
    requires |rep| == |rank| == |entries| && forall k :: 0 <= k < |rep| ==> rep[k] == k
    ensures Forest(rep, rep, rank) && Sound(entries, rep) && JoinedBefore(entries, rep, 0, 1)
  {
    forall a | 0 <= a < |entries| ensures Connected(entries, a, a) { ConnectedSelf(entries, a); }
  }

  /** The double loop over pairs. */
  method JoinLinkedPairs(entries: seq<Fill>) returns (parent: array<nat>, ghost rep: seq<nat>, ghost rank: seq<nat>)
    ensures fresh(parent) && parent.Length == |entries| && Forest(parent[..], rep, rank)
    ensures |rep| == |entries|
    ensures forall a, b :: 0 <= a < |rep| && 0 <= b < |rep| ==> (rep[a] == rep[b] <==> Connected(entries, a, b))
  {
    hide Forest, Sound, JoinedBefore, Connected, Linked;
    var n := |entries|;
    parent := new nat[n](i => i);
    rep, rank := parent[..], seq(n, i => 0);
    StartSound(entries, rep, rank);
    for left := 0 to n
      invariant |rep| == n && Forest(parent[..], rep, rank) && Sound(entries, rep)
      invariant JoinedBefore(entries, rep, left, left + 1)
    {
      for right := left + 1 to n
        invariant |rep| == n && Forest(parent[..], rep, rank) && Sound(entries, rep)
        invariant JoinedBefore(entries, rep, left, right)
      {
        var first, second := entries[left], entries[right];
        if Linked(first, second) {
          MergeSound(entries, rep, left, right);
          JoinedMerged(entries, rep, left, right, left, right);
          rep, rank := Union(parent, left, right, rep, rank);
        }
        JoinedNext(entries, rep, left, right);
      }
      JoinedRow(entries, rep, left);
    }
    assert forall a, b :: 0 <= a < b < n ==> Joined(entries, rep, a, b) by { AllJoined(entries, rep); }
    RootsAreComponents(entries, rep);
  }

  lemma {:induction false} AllJoined(entries: seq<Fill>, rep: seq<nat>)
    requires JoinedBefore(entries, rep, |entries|, |entries| + 1)
    ensures |rep| == |entries| && forall a, b :: 0 <= a < b < |entries| ==> Joined(entries, rep, a, b)
  {
  }

  // ---------------------------------------------------------------- grouping

  /** The moment of a group's first fill. */
  ghost predicate IsEarliest(entries: seq<Fill>, group: seq<nat>, at: int) {
    && (forall k :: 0 <= k < |group| ==> group[k] < |entries| && at <= entries[group[k]].at)
    && (exists k :: 0 <= k < |group| && group[k] < |entries| && entries[group[k]].at == at)
  }

  function Earliest(entries: seq<Fill>, group: seq<nat>): (at: int)
    requires group != [] && forall k :: 0 <= k < |group| ==> group[k] < |entries|
    ensures IsEarliest(entries, group, at)
  {
    var last := entries[group[|group| - 1]].at;
    if |group| == 1 then last
    else
      var before := Earliest(entries, group[..|group| - 1]);
      if last < before then last else before
  }

  /** A group lists positions of the entries in ascending order, at least one. */
  ghost predicate GroupShape(entries: seq<Fill>, group: seq<nat>) {
    && |group| > 0
    && (forall k :: 0 <= k < |group| ==> group[k] < |entries|)
    && (forall k, m :: 0 <= k < m < |group| ==> group[k] < group[m])
  }

  /** By earliest fill, groups with equal times in the order of their first entries. */
  ghost predicate Before(entries: seq<Fill>, g: seq<nat>, h: seq<nat>)
    requires GroupShape(entries, g) && GroupShape(entries, h)
  {
    || Earliest(entries, g) < Earliest(entries, h)
    || (Earliest(entries, g) == Earliest(entries, h) && g[0] < h[0])
  }

  ghost predicate Ordered(entries: seq<Fill>, groups: seq<seq<nat>>) {
    && (forall g :: 0 <= g < |groups| ==> GroupShape(entries, groups[g]))
    && (forall g, h :: 0 <= g < h < |groups| ==> Before(entries, groups[g], groups[h]))
  }

  /** The groups are the components: every entry is in a group, and a group that holds entry i holds
      exactly the entries connected to it. */
  ghost predicate AreComponents(entries: seq<Fill>, groups: seq<seq<nat>>) {
    && (forall i :: 0 <= i < |entries| ==> Grouped(groups, i))
    && (forall g, i: nat, j: nat :: 0 <= g < |groups| && i in groups[g] && j < |entries| ==>
          (j in groups[g] <==> Connected(entries, i, j)))
  }

  ghost predicate Grouped(groups: seq<seq<nat>>, i: nat) {
    exists g :: 0 <= g < |groups| && i in groups[g]
  }

  ghost predicate FirstsAscend(groups: seq<seq<nat>>) {
    forall g, h :: 0 <= g < h < |groups| ==> groups[g] != [] && groups[h] != [] && groups[g][0] < groups[h][0]
  }

  /** Entry i is in the group of its root. */
  ghost predicate InOwnGroup(rep: seq<nat>, slot: map<nat, nat>, groups: seq<seq<nat>>, i: nat)
    requires i < |rep|
  {
    rep[i] in slot && slot[rep[i]] < |groups| && i in groups[slot[rep[i]]]
  }

  /** Group g holds entries below n, all of the root that has slot g. */
  ghost predicate OfOneRoot(rep: seq<nat>, slot: map<nat, nat>, group: seq<nat>, g: nat, n: nat)
    requires n <= |rep|
  {
    forall k :: 0 <= k < |group| ==> group[k] < n && rep[group[k]] in slot && slot[rep[group[k]]] == g
  }

  /** Different roots have different groups. */
  ghost predicate Slots(slot: map<nat, nat>, count: nat) {
    && (forall r :: r in slot ==> slot[r] < count)
    && (forall r, q :: r in slot && q in slot && slot[r] == slot[q] ==> r == q)
  }

  /** The dictionary from root to group, groups in order of first appearance. */
  ghost predicate Collected(entries: seq<Fill>, rep: seq<nat>, slot: map<nat, nat>, groups: seq<seq<nat>>, n: nat) {
    && n <= |entries| == |rep| && Slots(slot, |groups|) && FirstsAscend(groups)
    && (forall g :: 0 <= g < |groups| ==> GroupShape(entries, groups[g]))
    && (forall i :: 0 <= i < n ==> InOwnGroup(rep, slot, groups, i))
    && (forall g :: 0 <= g < |groups| ==> OfOneRoot(rep, slot, groups[g], g, n))
  }

  lemma {:induction false} AppendShape(entries: seq<Fill>, group: seq<nat>, n: nat)
    requires GroupShape(entries, group) && n < |entries| && forall k :: 0 <= k < |group| ==> group[k] < n
    ensures GroupShape(entries, group + [n])
  {
  }

  lemma {:induction false} FirstsStay(groups: seq<seq<nat>>, at: nat, n: nat)
    requires FirstsAscend(groups) && at < |groups| && groups[at] != []
    ensures FirstsAscend(groups[at := groups[at] + [n]])
  {
  }

  lemma {:induction false} OwnGroupGrows(
      rep: seq<nat>, slot: map<nat, nat>, groups: seq<seq<nat>>, at: nat, n: nat, i: nat)
    requires i < |rep| && at < |groups|
    requires InOwnGroup(rep, slot, groups, i) || (i == n && rep[n] in slot && slot[rep[n]] == at)
    ensures InOwnGroup(rep, slot, groups[at := groups[at] + [n]], i)
  {
    assert (groups[at] + [n])[|groups[at]|] == n;
    if InOwnGroup(rep, slot, groups, i) {
      var k :| 0 <= k < |groups[slot[rep[i]]]| && groups[slot[rep[i]]][k] == i;
      assert groups[at := groups[at] + [n]][slot[rep[i]]][k] == i;
    }
  }

  lemma {:induction false} CollectOld(
      entries: seq<Fill>, rep: seq<nat>, slot: map<nat, nat>, groups: seq<seq<nat>>, n: nat)
    requires Collected(entries, rep, slot, groups, n) && n < |entries| && rep[n] in slot
    ensures slot[rep[n]] < |groups|
    ensures Collected(entries, rep, slot, groups[slot[rep[n]] := groups[slot[rep[n]]] + [n]], n + 1)
  {
    hide FirstsAscend, GroupShape, InOwnGroup;
    var at := slot[rep[n]];
    var grown := groups[at := groups[at] + [n]];
    assert GroupShape(entries, groups[at]) && OfOneRoot(rep, slot, groups[at], at, n);
    AppendShape(entries, groups[at], n);
    NotEmpty(entries, groups[at]);
    FirstsStay(groups, at, n);
    forall i | 0 <= i < n + 1 ensures InOwnGroup(rep, slot, grown, i) { OwnGroupGrows(rep, slot, groups, at, n, i); }
    forall g | 0 <= g < |grown| ensures OfOneRoot(rep, slot, grown[g], g, n + 1) {
      assert OfOneRoot(rep, slot, groups[g], g, n);
    }
  }

  lemma {:induction false} NotEmpty(entries: seq<Fill>, group: seq<nat>)
    requires GroupShape(entries, group)
    ensures group != []
  {
  }

  lemma {:induction false} CollectNew(
      entries: seq<Fill>, rep: seq<nat>, slot: map<nat, nat>, groups: seq<seq<nat>>, n: nat)
    requires Collected(entries, rep, slot, groups, n) && n < |entries| && rep[n] !in slot
    ensures Collected(entries, rep, slot[rep[n] := |groups|], groups + [[n]], n + 1)
  {
    hide GroupShape, InOwnGroup;
    var more, next := groups + [[n]], slot[rep[n] := |groups|];
    assert GroupShape(entries, [n]) by { Singleton(entries, n); }
    FirstsAppend(entries, rep, slot, groups, n);
    forall i | 0 <= i < n + 1 ensures InOwnGroup(rep, next, more, i) {
      assert i < n ==> InOwnGroup(rep, slot, groups, i);
      OwnGroupKept(rep, slot, groups, n, i);
    }
    forall g | 0 <= g < |more| ensures OfOneRoot(rep, next, more[g], g, n + 1) {
      assert g < |groups| ==> OfOneRoot(rep, slot, groups[g], g, n);
    }
  }

  lemma {:induction false} Singleton(entries: seq<Fill>, n: nat)
    requires n < |entries|
    ensures GroupShape(entries, [n])
  {
  }

  lemma {:induction false} OwnGroupKept(rep: seq<nat>, slot: map<nat, nat>, groups: seq<seq<nat>>, n: nat, i: nat)
    requires n < |rep| && i <= n && rep[n] !in slot && (i < n ==> InOwnGroup(rep, slot, groups, i))
    ensures InOwnGroup(rep, slot[rep[n] := |groups|], groups + [[n]], i)
  {
    assert (groups + [[n]])[|groups|] == [n];
  }

  lemma {:induction false} FirstsAppend(
      entries: seq<Fill>, rep: seq<nat>, slot: map<nat, nat>, groups: seq<seq<nat>>, n: nat)
    requires Collected(entries, rep, slot, groups, n) && n < |entries|
    ensures FirstsAscend(groups + [[n]])
  {
    hide InOwnGroup;
    forall g | 0 <= g < |groups| ensures groups[g] != [] && groups[g][0] < n {
      assert GroupShape(entries, groups[g]) && OfOneRoot(rep, slot, groups[g], g, n);
    }
  }

  method CollectGroups(entries: seq<Fill>, parent: array<nat>, ghost rep: seq<nat>, ghost rank: seq<nat>)
    returns (groups: seq<seq<nat>>, ghost slot: map<nat, nat>)
    requires Forest(parent[..], rep, rank) && parent.Length == |entries| == |rep|
    modifies parent
    ensures Collected(entries, rep, slot, groups, |entries|)
  {
    hide Forest, Collected;
    groups := [];
    var slots: map<nat, nat> := map[];
    assert Collected(entries, rep, map[], [], 0) by { CollectNone(entries, rep); }
    for index := 0 to |entries|
      invariant Forest(parent[..], rep, rank)
      invariant Collected(entries, rep, slots, groups, index)
    {
      var r := Root(parent, index, rep, rank);
      if r in slots {
        CollectOld(entries, rep, slots, groups, index);
        groups := groups[slots[r] := groups[slots[r]] + [index]];
      } else {
        CollectNew(entries, rep, slots, groups, index);
        slots, groups := slots[r := |groups|], groups + [[index]];
      }
    }
    slot := slots;
  }

  lemma {:induction false} CollectNone(entries: seq<Fill>, rep: seq<nat>)
    requires |rep| == |entries|
    ensures Collected(entries, rep, map[], [], 0)
  {
  }

  lemma {:induction false} CollectedAreComponents(
      entries: seq<Fill>, rep: seq<nat>, slot: map<nat, nat>, groups: seq<seq<nat>>)
    requires Collected(entries, rep, slot, groups, |entries|)
    requires forall a, b :: 0 <= a < |rep| && 0 <= b < |rep| ==> (rep[a] == rep[b] <==> Connected(entries, a, b))
    ensures AreComponents(entries, groups)
  {
    hide Connected, GroupShape, FirstsAscend;
    forall i | 0 <= i < |entries| ensures Grouped(groups, i) { assert InOwnGroup(rep, slot, groups, i); }
    forall g, i: nat, j: nat | 0 <= g < |groups| && i in groups[g] && j < |entries|
      ensures j in groups[g] <==> Connected(entries, i, j)
    {
      assert OfOneRoot(rep, slot, groups[g], g, |entries|) && InOwnGroup(rep, slot, groups, j);
    }
  }

  // ---------------------------------------------------------------- ordering

  /** Places a group after every group that does not start later. */
  method Place(entries: seq<Fill>, groups: seq<seq<nat>>, g: seq<nat>) returns (r: seq<seq<nat>>, ghost p: nat)
    requires Ordered(entries, groups) && GroupShape(entries, g)
    requires forall k :: 0 <= k < |groups| ==> groups[k][0] < g[0]
    ensures p <= |groups| && r == groups[..p] + [g] + groups[p..]
    ensures Ordered(entries, r)
  {
    var i: nat := 0;
    var at := Earliest(entries, g);
    while i < |groups| && Earliest(entries, groups[i]) <= at
      invariant i <= |groups|
      invariant forall k :: 0 <= k < i ==> Before(entries, groups[k], g)
    {
      i := i + 1;
    }
    p := i;
    r := groups[..i] + [g] + groups[i..];
    forall k | i <= k < |groups| ensures Before(entries, g, groups[k]) {
      if k > i { assert Before(entries, groups[i], groups[k]); }
    }
    PlacedInOrder(entries, groups, g, p);
  }

  lemma {:induction false} PlacedInOrder(entries: seq<Fill>, groups: seq<seq<nat>>, g: seq<nat>, p: nat)
    requires Ordered(entries, groups) && GroupShape(entries, g) && p <= |groups|
    requires forall k :: 0 <= k < p ==> Before(entries, groups[k], g)
    requires forall k :: p <= k < |groups| ==> Before(entries, g, groups[k])
    ensures Ordered(entries, groups[..p] + [g] + groups[p..])
  {
    hide Before, GroupShape;
    var r := groups[..p] + [g] + groups[p..];
    forall k | 0 <= k < |r| ensures r[k] == if k < p then groups[k] else if k == p then g else groups[k - 1] {}
  }

  /** `sorted` with the earliest fill as key: a stable sort. */
  method SortGroups(entries: seq<Fill>, groups: seq<seq<nat>>) returns (r: seq<seq<nat>>)
    requires forall g :: 0 <= g < |groups| ==> GroupShape(entries, groups[g])
    requires FirstsAscend(groups)
    ensures Ordered(entries, r) && multiset(r) == multiset(groups)
  {
    hide Ordered, Before, GroupShape;
    r := [];
    OrderedNone(entries);
    for n := 0 to |groups|
      invariant Ordered(entries, r) && multiset(r) == multiset(groups[..n])
    {
      assert groups[..n + 1] == groups[..n] + [groups[n]];
      FirstsBelow(entries, r, groups, n);
      ghost var p;
      ghost var held := r;
      r, p := Place(entries, r, groups[n]);
      assert held == held[..p] + held[p..];
    }
    assert groups[..|groups|] == groups;
  }

  lemma {:induction false} OrderedNone(entries: seq<Fill>)
    ensures Ordered(entries, [])
  {
  }

  lemma {:induction false} FirstsBelow(entries: seq<Fill>, r: seq<seq<nat>>, groups: seq<seq<nat>>, n: nat)
    requires n < |groups| && multiset(r) == multiset(groups[..n])
    requires forall g :: 0 <= g < |groups| ==> GroupShape(entries, groups[g])
    requires FirstsAscend(groups)
    ensures groups[n] != [] && forall k :: 0 <= k < |r| ==> r[k] != [] && r[k][0] < groups[n][0]
  {
    forall k | 0 <= k < |r| ensures r[k] != [] && r[k][0] < groups[n][0] {
      assert r[k] in multiset(groups[..n]);
      assert r[k] in groups[..n];
    }
  }

  lemma {:induction false} ComponentsArePermutable(entries: seq<Fill>, groups: seq<seq<nat>>, r: seq<seq<nat>>)
    requires AreComponents(entries, groups) && multiset(r) == multiset(groups)
    ensures AreComponents(entries, r)
  {
    hide Connected;
    assert forall g :: g in r <==> g in groups by {
      assert forall g :: g in r <==> g in multiset(r);
      assert forall g :: g in groups <==> g in multiset(groups);
    }
    forall i | 0 <= i < |entries| ensures Grouped(r, i) {
      assert Grouped(groups, i);
      var g :| 0 <= g < |groups| && i in groups[g];
      assert groups[g] in r;
    }
    forall h, i: nat, j: nat | 0 <= h < |r| && i in r[h] && j < |entries|
      ensures j in r[h] <==> Connected(entries, i, j)
    {
      assert r[h] in groups;
    }
  }

  /** The events: one group per connected component, in order of first fill. */
  method GroupEvents(entries: seq<Fill>) returns (groups: seq<seq<nat>>)
    ensures AreComponents(entries, groups)
    ensures Ordered(entries, groups)
  {
    hide Forest, Collected, Connected, AreComponents, Ordered;
    var parent, rep, rank := JoinLinkedPairs(entries);
    var collected, slot := CollectGroups(entries, parent, rep, rank);
    CollectedAreComponents(entries, rep, slot, collected);
    CollectedShape(entries, rep, slot, collected);
    groups := SortGroups(entries, collected);
    ComponentsArePermutable(entries, collected, groups);
  }

  lemma {:induction false} CollectedShape(entries: seq<Fill>, rep: seq<nat>, slot: map<nat, nat>, groups: seq<seq<nat>>)
    requires Collected(entries, rep, slot, groups, |entries|)
    ensures forall g :: 0 <= g < |groups| ==> GroupShape(entries, groups[g])
    ensures FirstsAscend(groups)
  {
  }

  /** No entry is reported twice. */
  lemma {:induction false} GroupsAreDisjoint(entries: seq<Fill>, groups: seq<seq<nat>>, g: nat, h: nat, i: nat)
    requires AreComponents(entries, groups) && Ordered(entries, groups)
    requires g < |groups| && h < |groups| && i in groups[g] && i in groups[h]
    ensures g == h
  {
    hide Connected, Earliest;
    var a, b := groups[g], groups[h];
    assert GroupShape(entries, a) && GroupShape(entries, b);
    forall j: nat | j < |entries| ensures j in a <==> j in b {
      assert j in groups[g] <==> Connected(entries, i, j);
      assert j in groups[h] <==> Connected(entries, i, j);
    }
    SameMembers(entries, a, b);
    assert g < h ==> Before(entries, a, b);
    assert h < g ==> Before(entries, b, a);
  }

  lemma {:induction false} SameMembers(entries: seq<Fill>, a: seq<nat>, b: seq<nat>)
    requires GroupShape(entries, a) && GroupShape(entries, b)
    requires forall j: nat :: j < |entries| ==> (j in a <==> j in b)
    ensures a[0] == b[0] && Earliest(entries, a) == Earliest(entries, b)
  {
    assert a[0] in b && b[0] in a;
    var s, t := Earliest(entries, a), Earliest(entries, b);
    var k :| 0 <= k < |a| && entries[a[k]].at == s;
    assert a[k] in b;
    var m :| 0 <= m < |b| && entries[b[m]].at == t;
    assert b[m] in a;
  }

  // ---------------------------------------------------------------- two fills

  /** The same day and symbol, and at most ten seconds between brokers or thirty within one broker's named slot. */
  predicate OneEvent(a: Fill, b: Fill) {
    && a.day == b.day && a.symbol == b.symbol
    && if a.account != b.account then -10_000_000 <= a.at - b.at <= 10_000_000
       else a.slotId != "" && a.slotId == b.slotId && -30_000_000 <= a.at - b.at <= 30_000_000
  }

  lemma {:induction false} LinkInFields(a: Fill, b: Fill)
    ensures Linked(a, b) <==> OneEvent(a, b)
    ensures OneEvent(a, b) <==> OneEvent(b, a)
  {
  }

  /** Two fills alone are one event exactly when they are linked. */
  lemma {:induction false} PairInFields(entries: seq<Fill>)
    requires |entries| == 2
    ensures Connected(entries, 0, 1) <==> OneEvent(entries[0], entries[1])
  {
    hide Linked, OneEvent;
    LinkInFields(entries[0], entries[1]);
    LinkInFields(entries[1], entries[0]);
    if OneEvent(entries[0], entries[1]) { ConnectedLink(entries, 0, 1); }
    if Connected(entries, 0, 1) {
      var path :| Joins(entries, path, 0, 1);
      Crossing(entries, path, |path| - 1);
    }
  }

  lemma {:induction false} Crossing(entries: seq<Fill>, path: seq<nat>, n: nat)
    requires |entries| == 2 && Chain(entries, path) && path[0] == 0 && n < |path| && path[n] == 1
    ensures LinkedAt(entries, 0, 1)
  {
    if path[n - 1] == 1 { Crossing(entries, path, n - 1); }
  }

  /** Groups are closed under links, and no fill is in a group without a chain of them. */
  lemma {:induction false} LinksConnect(entries: seq<Fill>, i: nat, j: nat)
    requires i < |entries| && j < |entries| && OneEvent(entries[i], entries[j])
    ensures Connected(entries, i, j)
  {
    LinkInFields(entries[i], entries[j]);
    ConnectedLink(entries, i, j);
  }
}
