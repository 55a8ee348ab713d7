/** The anchors of a patience diff: lines that occur exactly once on each side, reduced to the
    longest run that is increasing on both (`src/diff.rs`). */
module Anchors {
  import opened EditScript

  /** A line's index on each side. */
  datatype Pair = Pair(i: nat, j: nat)

  // ---- the longest increasing run ----

  /** `at` picks entries of `pairs`, front to back, whose second index strictly increases. */
  ghost predicate IncreasingRun(pairs: seq<Pair>, at: seq<nat>) {
    && (forall k | 0 <= k < |at| :: at[k] < |pairs|)
    && (forall k, l | 0 <= k < l < |at| :: at[k] < at[l] && pairs[at[k]].j < pairs[at[l]].j)
  }

  /** `run` is the pairs at the places `at`. */
  ghost predicate Picked(pairs: seq<Pair>, at: seq<nat>, run: seq<Pair>) {
    && |run| == |at|
    && (forall k | 0 <= k < |at| :: at[k] < |pairs| && run[k] == pairs[at[k]])
  }

  datatype Back = Nothing | Before(index: nat)

  /** What the patience pass knows after its first `n` pairs. `rank[i]` is the length, less one,
      of the best run ending at pair `i`; `tails[k]` is the pair with the smallest second index
      of those ranked `k`. */
  ghost predicate Tails(pairs: seq<Pair>, n: nat, tails: seq<nat>, rank: seq<nat>) {
    && n <= |pairs| && |rank| == n
    && (forall k | 0 <= k < |tails| :: tails[k] < n && rank[tails[k]] == k)
    && (forall k, l | 0 <= k < l < |tails| :: pairs[tails[k]].j < pairs[tails[l]].j)
    && (forall i | 0 <= i < n :: rank[i] < |tails| && pairs[tails[rank[i]]].j <= pairs[i].j)
  }

  /** `back[i]` is the pair before pair `i` in the best run ending at it. */
  ghost predicate Links(pairs: seq<Pair>, n: nat, back: seq<Back>, rank: seq<nat>) {
    && n <= |pairs| == |back| && |rank| == n
    && (forall i | 0 <= i < n ::
          match back[i]
          case Nothing => rank[i] == 0
          case Before(p) => p < i && rank[i] == rank[p] + 1 && pairs[p].j < pairs[i].j)
  }

  ghost predicate RanksRise(pairs: seq<Pair>, n: nat, rank: seq<nat>) {
    && n <= |pairs| && |rank| == n
    && (forall p, q | 0 <= p < q < n && pairs[p].j < pairs[q].j :: rank[p] < rank[q])
  }

  /** Ranks rise along an increasing run, so no run is longer than there are piles. */
  lemma {:induction false} NoLongerRun(pairs: seq<Pair>, rank: seq<nat>, at: seq<nat>)
    requires RanksRise(pairs, |pairs|, rank)
    requires IncreasingRun(pairs, at) && at != []
    ensures |at| - 1 <= rank[at[|at| - 1]]
  {
    if |at| > 1 {
      NoLongerRun(pairs, rank, at[..|at| - 1]);
      assert pairs[at[|at| - 2]].j < pairs[at[|at| - 1]].j;
    }
  }

  /** How many of `tails`, whose pairs' second indices increase, are below `j`: the standard
      library's binary search. */
  method PartitionPoint(pairs: seq<Pair>, tails: seq<nat>, j: nat) returns (k: nat)
    requires forall t | 0 <= t < |tails| :: tails[t] < |pairs|
    requires forall t, u | 0 <= t < u < |tails| :: pairs[tails[t]].j < pairs[tails[u]].j
    ensures k <= |tails|
    ensures forall t | 0 <= t < k :: pairs[tails[t]].j < j
    ensures forall t | k <= t < |tails| :: j <= pairs[tails[t]].j
  {
    k := 0;
    var hi := |tails|;
    while k < hi
      invariant k <= hi <= |tails|
      invariant forall t | 0 <= t < k :: pairs[tails[t]].j < j
      invariant forall t | hi <= t < |tails| :: j <= pairs[tails[t]].j
    {
      var mid := (k + hi) / 2;
      if pairs[tails[mid]].j < j {
        k := mid + 1;
      } else {
        hi := mid;
      }
    }
  }

  function Placed(tails: seq<nat>, k: nat, n: nat): seq<nat>
    requires k <= |tails|
  {
    if k == |tails| then tails + [n] else tails[k := n]
  }

  /** `k` is the first pile whose tail is not below pair `n`. */
  ghost predicate Pile(pairs: seq<Pair>, n: nat, tails: seq<nat>, k: nat) {
    && n < |pairs| && k <= |tails|
    && (forall t | 0 <= t < |tails| :: tails[t] < |pairs|)
    && (forall t | 0 <= t < k :: pairs[tails[t]].j < pairs[n].j)
    && (forall t | k <= t < |tails| :: pairs[n].j <= pairs[tails[t]].j)
  }

  lemma PlaceOnPile(pairs: seq<Pair>, n: nat, tails: seq<nat>, rank: seq<nat>, k: nat)
    requires Tails(pairs, n, tails, rank) && Pile(pairs, n, tails, k)
    ensures Tails(pairs, n + 1, Placed(tails, k, n), rank + [k])
  {
    var tails', rank' := Placed(tails, k, n), rank + [k];
    forall t | 0 <= t < |tails'|
      ensures tails'[t] < n + 1 && rank'[tails'[t]] == t
      ensures t != k ==> tails'[t] == tails[t]
    {
    }
    forall i | 0 <= i < n + 1
      ensures rank'[i] < |tails'| && pairs[tails'[rank'[i]]].j <= pairs[i].j
    {
      if i < n {
        assert rank'[i] == rank[i] && pairs[tails[rank[i]]].j <= pairs[i].j;
      }
    }
    forall t, u | 0 <= t < u < |tails'|
      ensures pairs[tails'[t]].j < pairs[tails'[u]].j
    {
      if t == k {
        assert pairs[tails[t]].j < pairs[tails[u]].j;
      }
    }
  }

  lemma RanksStillRise(pairs: seq<Pair>, n: nat, tails: seq<nat>, rank: seq<nat>, k: nat)
    requires Tails(pairs, n, tails, rank) && Pile(pairs, n, tails, k)
    requires RanksRise(pairs, n, rank)
    ensures RanksRise(pairs, n + 1, rank + [k])
  {
    forall p | 0 <= p < n && pairs[p].j < pairs[n].j
      ensures rank[p] < k
    {
      assert pairs[tails[rank[p]]].j <= pairs[p].j;
    }
  }

  /** Follows `back` from the last tail: the longest run, from its end to its start. */
  method Unwind(pairs: seq<Pair>, tails: seq<nat>, back: seq<Back>, ghost rank: seq<nat>)
    returns (run: seq<Pair>, ghost at: seq<nat>)
    requires Links(pairs, |pairs|, back, rank)
    requires tails != [] ==>
               tails[|tails| - 1] < |pairs| && rank[tails[|tails| - 1]] == |tails| - 1
    ensures IncreasingRun(pairs, at) && Picked(pairs, at, run) && |run| == |tails|
  {
    run := [];
    at := [];
    var cursor := if tails == [] then Nothing else Before(tails[|tails| - 1]);
    while cursor.Before?
      invariant cursor.Before? ==> cursor.index < |pairs|
      invariant |at| + (if cursor.Before? then rank[cursor.index] + 1 else 0) == |tails|
      invariant IncreasingRun(pairs, at) && Picked(pairs, at, run)
      invariant cursor.Before? && at != [] ==>
                  cursor.index < at[0] && pairs[cursor.index].j < pairs[at[0]].j
      decreases if cursor.Before? then cursor.index + 1 else 0
    {
      RunExtends(pairs, cursor.index, at);
      // The source pushes at the end and reverses the whole run afterwards.
      run := [pairs[cursor.index]] + run;
      at := [cursor.index] + at;
      cursor := back[cursor.index];
    }
  }

  lemma RunExtends(pairs: seq<Pair>, first: nat, at: seq<nat>)
    requires IncreasingRun(pairs, at) && first < |pairs|
    requires at != [] ==> first < at[0] && pairs[first].j < pairs[at[0]].j
    ensures IncreasingRun(pairs, [first] + at)
  {
    forall l | 0 < l < |at|
      ensures first < at[l] && pairs[first].j < pairs[at[l]].j
    {
      assert at[0] < at[l] && pairs[at[0]].j < pairs[at[l]].j;
    }
  }

  function Linked(tails: seq<nat>, back: seq<Back>, k: nat, n: nat): seq<Back>
    requires k <= |tails| && n < |back|
  {
    back[n := if k == 0 then Nothing else Before(tails[k - 1])]
  }

  lemma LinkToPile(
    pairs: seq<Pair>, n: nat, tails: seq<nat>, back: seq<Back>, rank: seq<nat>, k: nat)
    requires Tails(pairs, n, tails, rank) && Pile(pairs, n, tails, k)
    requires Links(pairs, n, back, rank)
    ensures Links(pairs, n + 1, Linked(tails, back, k, n), rank + [k])
  {
  }

  /** All that is known of the piles after `n` pairs. */
  ghost predicate Dealt(
    pairs: seq<Pair>, n: nat, tails: seq<nat>, back: seq<Back>, rank: seq<nat>)
  {
    Tails(pairs, n, tails, rank) && Links(pairs, n, back, rank) && RanksRise(pairs, n, rank)
  }

  /** Deals pair `n` onto its pile. */
  method DealOne(
    pairs: seq<Pair>, n: nat, tails: seq<nat>, back: seq<Back>, ghost rank: seq<nat>)
    returns (tails': seq<nat>, back': seq<Back>, ghost rank': seq<nat>)
    requires n < |pairs| && Dealt(pairs, n, tails, back, rank)
    ensures Dealt(pairs, n + 1, tails', back', rank')
  {
    var k := PartitionPoint(pairs, tails, pairs[n].j);
    hide Tails, Links, RanksRise;
    PlaceOnPile(pairs, n, tails, rank, k);
    LinkToPile(pairs, n, tails, back, rank, k);
    RanksStillRise(pairs, n, tails, rank, k);
    back' := Linked(tails, back, k, n);
    tails' := Placed(tails, k, n);
    rank' := rank + [k];
  }

  /** One pass over the pairs, dealing each onto its pile. */
  method Deal(pairs: seq<Pair>)
    returns (tails: seq<nat>, back: seq<Back>, ghost rank: seq<nat>)
    ensures Dealt(pairs, |pairs|, tails, back, rank)
  {
    tails, rank := [], [];
    back := seq(|pairs|, _ => Nothing);
    assert Dealt(pairs, 0, tails, back, rank);
    hide Dealt;
    for i := 0 to |pairs|
      invariant Dealt(pairs, i, tails, back, rank)
    {
      tails, back, rank := DealOne(pairs, i, tails, back, rank);
    }
  }

  /** The longest subsequence of `pairs` whose second index is increasing, by patience sorting. */
  method LongestIncreasing(pairs: seq<Pair>) returns (run: seq<Pair>)
    ensures exists at: seq<nat> :: IncreasingRun(pairs, at) && Picked(pairs, at, run)
    ensures forall at: seq<nat> | IncreasingRun(pairs, at) :: |at| <= |run|
  {
    var tails, back, rank := Deal(pairs);
    ghost var at;
    run, at := Unwind(pairs, tails, back, rank);
    NoRunIsLonger(pairs, tails, rank, |run|);
  }

  lemma NoRunIsLonger(pairs: seq<Pair>, tails: seq<nat>, rank: seq<nat>, length: nat)
    requires Tails(pairs, |pairs|, tails, rank) && RanksRise(pairs, |pairs|, rank)
    requires length == |tails|
    ensures forall at: seq<nat> | IncreasingRun(pairs, at) :: |at| <= length
  {
    forall at: seq<nat> | IncreasingRun(pairs, at)
      ensures |at| <= length
    {
      if at != [] {
        NoLongerRun(pairs, rank, at);
      }
    }
  }

  // ---- the lines to anchor on ----

  /** How often `x` occurs in `lines[lo..hi]`. */
  ghost function Occurrences(lines: seq<Line>, lo: nat, hi: nat, x: Line): nat
    requires lo <= hi <= |lines|
  {
    multiset(lines[lo..hi])[x]
  }

  lemma OccurrencesGrow(lines: seq<Line>, lo: nat, hi: nat, x: Line)
    requires lo <= hi < |lines|
    ensures Occurrences(lines, lo, hi + 1, x)
         == Occurrences(lines, lo, hi, x) + (if lines[hi] == x then 1 else 0)
  {
    assert lines[lo..hi + 1] == lines[lo..hi] + [lines[hi]];
  }

  /** `p` pairs a line that occurs exactly once in each range of the window. */
  ghost predicate UniquePair(a: seq<Line>, b: seq<Line>, w: Window, p: Pair)
    requires Fits(a, b, w)
  {
    && w.al <= p.i < w.ah && w.bl <= p.j < w.bh && a[p.i] == b[p.j]
    && Occurrences(a, w.al, w.ah, a[p.i]) == 1
    && Occurrences(b, w.bl, w.bh, a[p.i]) == 1
  }

  /** Unique pairs, each below the next on both sides. */
  ghost predicate Chain(a: seq<Line>, b: seq<Line>, w: Window, chain: seq<Pair>)
    requires Fits(a, b, w)
  {
    && (forall k | 0 <= k < |chain| :: UniquePair(a, b, w, chain[k]))
    && (forall k, l | 0 <= k < l < |chain| :: chain[k].i < chain[l].i && chain[k].j < chain[l].j)
  }

  predicate Precedes(p: Pair, q: Pair) {
    p.i < q.i || (p.i == q.i && p.j <= q.j)
  }

  ghost predicate Sorted(pairs: seq<Pair>) {
    forall k, l | 0 <= k < l < |pairs| :: Precedes(pairs[k], pairs[l])
  }

  method InsertSorted(sorted: seq<Pair>, p: Pair) returns (more: seq<Pair>)
    requires Sorted(sorted)
    ensures Sorted(more) && multiset(more) == multiset(sorted) + multiset{p}
  {
    var at := 0;
    while at < |sorted| && Precedes(sorted[at], p)
      invariant at <= |sorted|
      invariant forall k | 0 <= k < at :: Precedes(sorted[k], p)
    {
      at := at + 1;
    }
    assert sorted == sorted[..at] + sorted[at..];
    more := sorted[..at] + [p] + sorted[at..];
  }

  /** The pairs in lexicographic order: the standard library's sort. */
  method SortPairs(pairs: seq<Pair>) returns (sorted: seq<Pair>)
    ensures multiset(sorted) == multiset(pairs) && Sorted(sorted)
  {
    sorted := [];
    for i := 0 to |pairs|
      invariant multiset(sorted) == multiset(pairs[..i]) && Sorted(sorted)
    {
      hide Sorted;
      assert pairs[..i + 1] == pairs[..i] + [pairs[i]];
      sorted := InsertSorted(sorted, pairs[i]);
    }
    assert pairs[..|pairs|] == pairs;
  }

  /** What is known of one line: how often it occurs on each side, and an index on each. */
  datatype Entry = Entry(inA: nat, inB: nat, i: nat, j: nat)

  ghost predicate Seen(
    a: seq<Line>, b: seq<Line>, w: Window, i: nat, j: nat, seen: map<Line, Entry>)
    requires Fits(a, b, w) && w.al <= i <= w.ah && w.bl <= j <= w.bh
  {
    && (forall x :: x in seen <==> x in a[w.al..i])
    && (forall x | x in seen ::
          && w.al <= seen[x].i < i && a[seen[x].i] == x
          && seen[x].inA == Occurrences(a, w.al, i, x)
          && seen[x].inB == Occurrences(b, w.bl, j, x)
          && (seen[x].inB > 0 ==> w.bl <= seen[x].j < j && b[seen[x].j] == x))
  }

  /** One more old line. */
  function NoteOld(seen: map<Line, Entry>, x: Line, i: nat): map<Line, Entry> {
    var entry := if x in seen then seen[x] else Entry(0, 0, i, 0);
    seen[x := entry.(inA := entry.inA + 1)]
  }

  /** One more new line, if the old side has it at all. */
  function NoteNew(seen: map<Line, Entry>, x: Line, j: nat): map<Line, Entry> {
    if x in seen then seen[x := seen[x].(inB := seen[x].inB + 1, j := j)] else seen
  }

  lemma NoteOldStep(a: seq<Line>, b: seq<Line>, w: Window, i: nat, seen: map<Line, Entry>)
    requires Fits(a, b, w) && w.al <= i < w.ah && Seen(a, b, w, i, w.bl, seen)
    ensures Seen(a, b, w, i + 1, w.bl, NoteOld(seen, a[i], i))
  {
    var seen' := NoteOld(seen, a[i], i);
    assert a[w.al..i + 1] == a[w.al..i] + [a[i]];
    forall x | x in seen'
      ensures w.al <= seen'[x].i < i + 1 && a[seen'[x].i] == x
      ensures seen'[x].inA == Occurrences(a, w.al, i + 1, x)
      ensures seen'[x].inB == 0
    {
      OccurrencesGrow(a, w.al, i, x);
    }
  }

  lemma NoteNewStep(a: seq<Line>, b: seq<Line>, w: Window, j: nat, seen: map<Line, Entry>)
    requires Fits(a, b, w) && w.bl <= j < w.bh && Seen(a, b, w, w.ah, j, seen)
    ensures Seen(a, b, w, w.ah, j + 1, NoteNew(seen, b[j], j))
  {
    var seen' := NoteNew(seen, b[j], j);
    forall x | x in seen'
      ensures seen'[x].i == seen[x].i && seen'[x].inA == seen[x].inA
      ensures seen'[x].inB == Occurrences(b, w.bl, j + 1, x)
      ensures seen'[x].inB > 0 ==> w.bl <= seen'[x].j < j + 1 && b[seen'[x].j] == x
    {
      OccurrencesGrow(b, w.bl, j, x);
    }
  }

  method CountLines(a: seq<Line>, b: seq<Line>, w: Window) returns (seen: map<Line, Entry>)
    requires Fits(a, b, w)
    ensures Seen(a, b, w, w.ah, w.bh, seen)
  {
    seen := map[];
    for i := w.al to w.ah
      invariant Seen(a, b, w, i, w.bl, seen)
    {
      NoteOldStep(a, b, w, i, seen);
      seen := NoteOld(seen, a[i], i);
    }
    for j := w.bl to w.bh
      invariant Seen(a, b, w, w.ah, j, seen)
    {
      NoteNewStep(a, b, w, j, seen);
      seen := NoteNew(seen, b[j], j);
    }
  }

  lemma OnlyOccurrence(lines: seq<Line>, lo: nat, hi: nat, i: nat, j: nat)
    requires lo <= i < j < hi <= |lines| && lines[i] == lines[j]
    ensures Occurrences(lines, lo, hi, lines[i]) >= 2
  {
    assert lines[lo..hi] == lines[lo..i] + [lines[i]] + lines[i + 1..j] + [lines[j]] + lines[j + 1..hi];
  }

  /** The indices of a unique line are the only ones it has. */
  lemma UniquePairsAgree(a: seq<Line>, b: seq<Line>, w: Window, p: Pair, q: Pair)
    requires Fits(a, b, w) && UniquePair(a, b, w, p) && UniquePair(a, b, w, q)
    requires a[p.i] == a[q.i]
    ensures p == q
  {
    if p.i < q.i { OnlyOccurrence(a, w.al, w.ah, p.i, q.i); }
    if q.i < p.i { OnlyOccurrence(a, w.al, w.ah, q.i, p.i); }
    if p.j < q.j { OnlyOccurrence(b, w.bl, w.bh, p.j, q.j); }
    if q.j < p.j { OnlyOccurrence(b, w.bl, w.bh, q.j, p.j); }
  }

  /** The unique pairs of the window, in whatever order the map yields them, sorted. */
  method UniquePairs(a: seq<Line>, b: seq<Line>, w: Window) returns (pairs: seq<Pair>)
    requires Fits(a, b, w)
    ensures forall p :: p in pairs <==> UniquePair(a, b, w, p)
    ensures forall k, l | 0 <= k < l < |pairs| :: pairs[k].i < pairs[l].i
  {
    var seen := CountLines(a, b, w);
    var left := seen.Keys;
    pairs := [];
    while left != {}
      invariant left <= seen.Keys
      invariant forall p | p in pairs :: UniquePair(a, b, w, p) && a[p.i] !in left
      invariant forall p | UniquePair(a, b, w, p) :: p in pairs || a[p.i] in left
      invariant forall k, l | 0 <= k < l < |pairs| :: pairs[k].i != pairs[l].i
      decreases left
    {
      var x :| x in left;
      var entry := seen[x];
      if entry.inA == 1 && entry.inB == 1 {
        var pair := Pair(entry.i, entry.j);
        assert UniquePair(a, b, w, pair);
        forall p | UniquePair(a, b, w, p) && a[p.i] == x
          ensures p == pair
        {
          UniquePairsAgree(a, b, w, p, pair);
        }
        pairs := pairs + [pair];
      }
      left := left - {x};
    }
    forall p | UniquePair(a, b, w, p)
      ensures p in pairs
    {
      assert a[p.i] !in left;
    }
    var sorted := SortPairs(pairs);
    SortedDistinct(pairs, sorted);
    pairs := sorted;
  }

  /** A value at two places of a sequence occurs at least twice in it. */
  lemma OccursTwice(pairs: seq<Pair>, k: nat, l: nat)
    requires k < l < |pairs| && pairs[k] == pairs[l]
    ensures multiset(pairs)[pairs[k]] >= 2
  {
    assert pairs == pairs[..k] + [pairs[k]] + pairs[k + 1..l] + [pairs[l]] + pairs[l + 1..];
  }

  lemma OccursOnce(pairs: seq<Pair>, i: nat)
    requires i < |pairs|
    requires forall k | 0 <= k < |pairs| && k != i :: pairs[k] != pairs[i]
    ensures multiset(pairs)[pairs[i]] == 1
  {
    assert pairs == pairs[..i] + [pairs[i]] + pairs[i + 1..];
    assert pairs[i] !in pairs[..i] && pairs[i] !in pairs[i + 1..];
  }

  /** Sorting pairs with different first indices puts those strictly in order. */
  lemma SortedDistinct(pairs: seq<Pair>, sorted: seq<Pair>)
    requires multiset(sorted) == multiset(pairs)
    requires Sorted(sorted)
    requires forall k, l | 0 <= k < l < |pairs| :: pairs[k].i != pairs[l].i
    ensures forall p :: p in pairs <==> p in sorted
    ensures forall k, l | 0 <= k < l < |sorted| :: sorted[k].i < sorted[l].i
  {
    forall p ensures p in pairs <==> p in sorted {
      assert p in pairs <==> p in multiset(pairs);
      assert p in sorted <==> p in multiset(sorted);
    }
    forall k, l | 0 <= k < l < |sorted|
      ensures sorted[k].i < sorted[l].i
    {
      SortedDistinctAt(pairs, sorted, k, l);
    }
  }

  lemma SortedDistinctAt(pairs: seq<Pair>, sorted: seq<Pair>, k: nat, l: nat)
    requires multiset(sorted) == multiset(pairs)
    requires k < l < |sorted| && Precedes(sorted[k], sorted[l])
    requires forall k, l | 0 <= k < l < |pairs| :: pairs[k].i != pairs[l].i
    ensures sorted[k].i < sorted[l].i
  {
    assert sorted[k] in multiset(sorted) && sorted[l] in multiset(sorted);
    var x: nat :| x < |pairs| && pairs[x] == sorted[k];
    var y: nat :| y < |pairs| && pairs[y] == sorted[l];
    if x == y {
      OccursTwice(sorted, k, l);
      OccursOnce(pairs, x);
    }
  }

  /** Lines that occur exactly once in each range, paired up, reduced to the longest chain. */
  method UniqueAnchors(a: seq<Line>, b: seq<Line>, w: Window) returns (anchors: seq<Pair>)
    requires Fits(a, b, w)
    ensures Chain(a, b, w, anchors)
    ensures forall chain | Chain(a, b, w, chain) :: |chain| <= |anchors|
    ensures anchors == [] <==> forall p :: !UniquePair(a, b, w, p)
  {
    var pairs := UniquePairs(a, b, w);
    anchors := LongestIncreasing(pairs);
    ghost var at :| IncreasingRun(pairs, at) && Picked(pairs, at, anchors);
    RunIsAChain(a, b, w, pairs, at, anchors);
    NoChainIsLonger(a, b, w, pairs, anchors);
  }

  lemma RunIsAChain(
    a: seq<Line>, b: seq<Line>, w: Window, pairs: seq<Pair>, at: seq<nat>, run: seq<Pair>)
    requires Fits(a, b, w) && IncreasingRun(pairs, at) && Picked(pairs, at, run)
    requires forall p | p in pairs :: UniquePair(a, b, w, p)
    requires forall k, l | 0 <= k < l < |pairs| :: pairs[k].i < pairs[l].i
    ensures Chain(a, b, w, run)
  {
    forall k | 0 <= k < |run|
      ensures UniquePair(a, b, w, run[k])
    {
      assert pairs[at[k]] in pairs;
    }
  }

  lemma NoChainIsLonger(
    a: seq<Line>, b: seq<Line>, w: Window, pairs: seq<Pair>, anchors: seq<Pair>)
    requires Fits(a, b, w)
    requires forall p :: p in pairs <==> UniquePair(a, b, w, p)
    requires forall k, l | 0 <= k < l < |pairs| :: pairs[k].i < pairs[l].i
    requires forall at: seq<nat> | IncreasingRun(pairs, at) :: |at| <= |anchors|
    requires Chain(a, b, w, anchors)
    ensures forall chain | Chain(a, b, w, chain) :: |chain| <= |anchors|
    ensures anchors == [] <==> forall p :: !UniquePair(a, b, w, p)
  {
    forall chain | Chain(a, b, w, chain)
      ensures |chain| <= |anchors|
    {
      var at := PlacesOf(a, b, w, pairs, chain);
    }
    if pairs != [] {
      assert IncreasingRun(pairs, [0]);
      assert pairs[0] in pairs;
    }
    if anchors != [] {
      assert UniquePair(a, b, w, anchors[0]);
    }
  }

  /** Every chain is an increasing run of the sorted pairs. */
  lemma {:induction false} PlacesOf(
    a: seq<Line>, b: seq<Line>, w: Window, pairs: seq<Pair>, chain: seq<Pair>)
    returns (at: seq<nat>)
    requires Fits(a, b, w) && Chain(a, b, w, chain)
    requires forall p | UniquePair(a, b, w, p) :: p in pairs
    requires forall k, l | 0 <= k < l < |pairs| :: pairs[k].i < pairs[l].i
    ensures IncreasingRun(pairs, at) && Picked(pairs, at, chain)
    decreases |chain|
  {
    at := [];
    if chain != [] {
      at := PlacesOf(a, b, w, pairs, chain[1..]);
      assert chain[0] in pairs;
      var first: nat :| first < |pairs| && pairs[first] == chain[0];
      if at != [] {
        assert pairs[at[0]] == chain[1];
      }
      RunExtends(pairs, first, at);
      at := [first] + at;
    }
  }
}
