/** The hunks of an edit script, and what applying them does (`src/diff.rs`). */
module Hunks {
  import opened EditScript

  /** Lines of context around each change. */
  const CONTEXT := 3

  /** The steps `lo..hi` of a script. */
  datatype Hunk = Hunk(lo: nat, hi: nat)

  // ---- which steps belong to which hunk ----

  ghost predicate OnlyEqual(ops: seq<Op>, lo: nat, hi: nat) {
    forall k | lo <= k < hi && k < |ops| :: ops[k].Equal?
  }

  /** From one change of a hunk to its next there are at most twice three equal steps: the context of
      the one touches that of the other. */
  ghost predicate Close(ops: seq<Op>, first: nat, last: nat) {
    forall lo: nat, hi: nat | first <= lo && lo + 7 <= hi <= last :: !OnlyEqual(ops, lo, hi)
  }

  /** `h` starts three equal steps before its first change and ends three after its last, or as many
      as the script has, and its changes are close together. */
  ghost predicate Framed(ops: seq<Op>, h: Hunk, first: nat, last: nat) {
    && h.lo <= first <= last < h.hi <= |ops|
    && !ops[first].Equal? && !ops[last].Equal?
    && h.lo == first - Min(3, first)
    && h.hi == last + 1 + Min(3, |ops| - last - 1)
    && OnlyEqual(ops, h.lo, first) && OnlyEqual(ops, last + 1, h.hi) && Close(ops, first, last)
  }

  /** `h` is a change, or several close together, with the context they should have. */
  ghost predicate IsHunk(ops: seq<Op>, h: Hunk) {
    exists first: nat, last: nat :: Framed(ops, h, first, last)
  }

  /** Every hunk is framed, the hunks are in order and do not even touch, and everything outside
      them is equal: so every change is in exactly one of them. */
  ghost predicate HunksOf(ops: seq<Op>, hunks: seq<Hunk>) {
    && (forall n | 0 <= n < |hunks| :: IsHunk(ops, hunks[n]))
    && Apart(hunks)
    && (forall n | 0 <= n < |hunks| :: Gap(ops, hunks, n))
    && OnlyEqual(ops, Until(hunks, |hunks|), |ops|)
  }

  /** Where the hunks before number `n` end. */
  function Until(hunks: seq<Hunk>, n: nat): nat
    requires n <= |hunks|
  {
    if n == 0 then 0 else hunks[n - 1].hi
  }

  /** A hunk whose last change so far is `last`, with its context after that. */
  ghost predicate Opened(ops: seq<Op>, h: Hunk, first: nat, last: nat) {
    && h.lo <= first <= last < h.hi <= |ops|
    && !ops[first].Equal? && !ops[last].Equal?
    && h.lo == first - Min(CONTEXT, first)
    && h.hi == last + 1 + Min(CONTEXT, |ops| - last - 1)
    && OnlyEqual(ops, h.lo, first) && Close(ops, first, last)
  }

  /** In order, and not even touching. */
  ghost predicate Apart(hunks: seq<Hunk>) {
    forall m, n | 0 <= m < n < |hunks| :: hunks[m].hi < hunks[n].lo
  }

  /** Nothing changes between hunk `n` and what comes before it. */
  ghost predicate Gap(ops: seq<Op>, hunks: seq<Hunk>, n: nat)
    requires n < |hunks|
  {
    OnlyEqual(ops, Until(hunks, n), hunks[n].lo)
  }

  /** `hunks` are hunks, each well clear of the one before it. */
  ghost predicate Complete(ops: seq<Op>, hunks: seq<Hunk>) {
    hunks == [] ||
    var n := |hunks| - 1;
    Complete(ops, hunks[..n]) && IsHunk(ops, hunks[n]) && Clear(ops, hunks[..n], hunks[n].lo)
  }

  /** Nothing changes from the end of `hunks` to `lo`, which is further on. */
  ghost predicate Clear(ops: seq<Op>, hunks: seq<Hunk>, lo: nat) {
    && OnlyEqual(ops, Until(hunks, |hunks|), lo)
    && (hunks != [] ==> hunks[|hunks| - 1].hi < lo)
  }

  /** What is known after looking at the first `i` steps. The last hunk, if there is one, is
      still open: its first change is `first`, and its last so far is `last`. */
  ghost predicate HunksSoFar(ops: seq<Op>, i: nat, hunks: seq<Hunk>, first: nat, last: nat) {
    if hunks == [] then OnlyEqual(ops, 0, i)
    else
      var n := |hunks| - 1;
      && Complete(ops, hunks[..n]) && Clear(ops, hunks[..n], hunks[n].lo)
      && Opened(ops, hunks[n], first, last) && last < i && OnlyEqual(ops, last + 1, i)
  }

  /** A change at `i` joins the last hunk when their contexts would touch, and opens a new one
      otherwise. */
  function WithChange(hunks: seq<Hunk>, i: nat, length: nat): seq<Hunk>
    requires i < length
  {
    var start, end := i - Min(CONTEXT, i), Min(i + 1 + CONTEXT, length);
    if hunks != [] && start <= hunks[|hunks| - 1].hi then
      hunks[|hunks| - 1 := hunks[|hunks| - 1].(hi := end)]
    else
      hunks + [Hunk(start, end)]
  }

  /** A change whose context touches that of the one before is close to it. */
  lemma StaysClose(ops: seq<Op>, first: nat, last: nat, i: nat)
    requires first <= last < i < |ops| && i <= last + 7 && !ops[last].Equal? && Close(ops, first, last)
    ensures Close(ops, first, i)
  {
    forall lo: nat, hi: nat | first <= lo && lo + 7 <= hi <= i
      ensures !OnlyEqual(ops, lo, hi)
    {
      if hi > last { assert lo <= last < hi; }
    }
  }

  lemma ChangeStep(ops: seq<Op>, i: nat, hunks: seq<Hunk>, first: nat, last: nat)
    requires i < |ops| && !ops[i].Equal? && HunksSoFar(ops, i, hunks, first, last)
    ensures var next := WithChange(hunks, i, |ops|);
            HunksSoFar(ops, i + 1, next, if |next| == |hunks| then first else i, i)
  {
    var n, next := |hunks| - 1, WithChange(hunks, i, |ops|);
    if n < 0 {
      assert Opened(ops, next[0], i, i) && next[..0] == [];
    } else if |next| == |hunks| {
      StaysClose(ops, first, last, i);
      assert Opened(ops, next[n], first, i);
      assert next[..n] == hunks[..n];
    } else {
      assert Framed(ops, hunks[n], first, last);
      assert Opened(ops, next[n + 1], i, i);
      assert next[..n + 1] == hunks;
    }
  }

  lemma LastStep(ops: seq<Op>, hunks: seq<Hunk>, first: nat, last: nat)
    requires HunksSoFar(ops, |ops|, hunks, first, last)
    ensures Complete(ops, hunks) && OnlyEqual(ops, Until(hunks, |hunks|), |ops|)
  {
    if hunks != [] {
      assert Framed(ops, hunks[|hunks| - 1], first, last);
    }
  }

  lemma EqualStep(ops: seq<Op>, i: nat, hunks: seq<Hunk>, first: nat, last: nat)
    requires i < |ops| && ops[i].Equal? && HunksSoFar(ops, i, hunks, first, last)
    ensures HunksSoFar(ops, i + 1, hunks, first, last)
  {
  }

  /** Ranges of `ops` that make up each hunk. */
  method FindHunks(ops: seq<Op>) returns (hunks: seq<Hunk>)
    ensures HunksOf(ops, hunks)
  {
    hunks := [];
    ghost var first: nat, last: nat := 0, 0;
    assert HunksSoFar(ops, 0, [], 0, 0);
    hide HunksSoFar, Complete, HunksOf;
    for i := 0 to |ops|
      invariant HunksSoFar(ops, i, hunks, first, last)
    {
      if ops[i].Equal? {
        EqualStep(ops, i, hunks, first, last);
      } else {
        ChangeStep(ops, i, hunks, first, last);
        var next := WithChange(hunks, i, |ops|);
        first, last := if |next| == |hunks| then first else i, i;
        hunks := next;
      }
    }
    LastStep(ops, hunks, first, last);
    CompleteMeansHunks(ops, hunks);
  }

  /** One more hunk, well clear of the rest. */
  lemma ApartGrows(ops: seq<Op>, hunks: seq<Hunk>, h: Hunk)
    requires Apart(hunks) && Clear(ops, hunks, h.lo)
    requires hunks != [] ==> IsHunk(ops, hunks[|hunks| - 1])
    ensures Apart(hunks + [h])
  {
    hide OnlyEqual;
  }

  lemma GapGrows(ops: seq<Op>, hunks: seq<Hunk>, h: Hunk, n: nat)
    requires Clear(ops, hunks, h.lo) && n <= |hunks|
    requires n < |hunks| ==> Gap(ops, hunks, n)
    ensures Gap(ops, hunks + [h], n)
  {
    hide OnlyEqual;
  }

  lemma HunksGrow(ops: seq<Op>, hunks: seq<Hunk>, h: Hunk)
    requires Apart(hunks) && IsHunk(ops, h) && Clear(ops, hunks, h.lo)
    requires forall n | 0 <= n < |hunks| :: IsHunk(ops, hunks[n]) && Gap(ops, hunks, n)
    ensures Apart(hunks + [h])
    ensures forall n | 0 <= n < |hunks + [h]| :: IsHunk(ops, (hunks + [h])[n]) && Gap(ops, hunks + [h], n)
  {
    hide IsHunk, Clear, Gap, Apart;
    ApartGrows(ops, hunks, h);
    forall n | 0 <= n <= |hunks|
      ensures Gap(ops, hunks + [h], n)
    {
      GapGrows(ops, hunks, h, n);
    }
  }

  lemma {:induction false} CompleteMeansHunks(ops: seq<Op>, hunks: seq<Hunk>)
    requires Complete(ops, hunks) && OnlyEqual(ops, Until(hunks, |hunks|), |ops|)
    ensures HunksOf(ops, hunks)
  {
    CompleteHunks(ops, hunks);
  }

  lemma {:induction false} CompleteHunks(ops: seq<Op>, hunks: seq<Hunk>)
    requires Complete(ops, hunks)
    ensures Apart(hunks)
    ensures forall n | 0 <= n < |hunks| :: IsHunk(ops, hunks[n]) && Gap(ops, hunks, n)
  {
    if hunks != [] {
      var n := |hunks| - 1;
      CompleteHunks(ops, hunks[..n]);
      assert IsHunk(ops, hunks[n]) && Clear(ops, hunks[..n], hunks[n].lo);
      hide Complete, IsHunk, Clear, Gap, Apart;
      HunksGrow(ops, hunks[..n], hunks[n]);
      assert hunks == hunks[..n] + [hunks[n]];
    }
  }

  lemma {:induction false} HunkOfChange(ops: seq<Op>, hunks: seq<Hunk>, n: nat, i: nat)
    requires forall m | 0 <= m < |hunks| :: Gap(ops, hunks, m)
    requires OnlyEqual(ops, Until(hunks, |hunks|), |ops|)
    requires i < |ops| && !ops[i].Equal? && n <= |hunks| && Until(hunks, n) <= i
    ensures exists m: nat :: InHunk(hunks, m, i)
    decreases |hunks| - n
  {
    if n < |hunks| {
      assert Gap(ops, hunks, n);
      if i < hunks[n].hi {
        assert InHunk(hunks, n, i);
      } else {
        HunkOfChange(ops, hunks, n + 1, i);
      }
    }
  }

  lemma InOneHunkOnly(hunks: seq<Hunk>, m: nat, n: nat, i: nat)
    requires Apart(hunks) && InHunk(hunks, m, i) && InHunk(hunks, n, i)
    ensures m == n
  {
  }

  /** Every change is in one hunk and in no other. */
  lemma EveryChangeInOneHunk(ops: seq<Op>, hunks: seq<Hunk>, i: nat)
    requires HunksOf(ops, hunks) && i < |ops| && !ops[i].Equal?
    ensures exists n: nat :: InHunk(hunks, n, i)
    ensures forall m: nat, n: nat | InHunk(hunks, m, i) && InHunk(hunks, n, i) :: m == n
  {
    HunkOfChange(ops, hunks, 0, i);
    forall m: nat, n: nat | InHunk(hunks, m, i) && InHunk(hunks, n, i)
      ensures m == n
    {
      InOneHunkOnly(hunks, m, n, i);
    }
  }

  predicate InHunk(hunks: seq<Hunk>, n: nat, i: nat) {
    n < |hunks| && hunks[n].lo <= i < hunks[n].hi
  }

  // ---- where a step stands on each side ----

  /** How many old lines the first `k` steps use. */
  function OldPos(ops: seq<Op>, k: nat): nat
    requires k <= |ops|
  {
    if k == 0 then 0 else OldPos(ops, k - 1) + (if ops[k - 1].Insert? then 0 else 1)
  }

  /** How many new lines the first `k` steps use. */
  function NewPos(ops: seq<Op>, k: nat): nat
    requires k <= |ops|
  {
    if k == 0 then 0 else NewPos(ops, k - 1) + (if ops[k - 1].Delete? then 0 else 1)
  }

  /** The window left after the first `k` steps of a script, for which the rest is a script. */
  lemma {:induction false} ScriptRest(ops: seq<Op>, a: seq<Line>, b: seq<Line>, k: nat)
    requires Script(ops, a, b, Whole(a, b)) && k <= |ops|
    ensures OldPos(ops, k) <= |a| && NewPos(ops, k) <= |b|
    ensures Script(ops[k..], a, b, Window(OldPos(ops, k), |a|, NewPos(ops, k), |b|))
  {
    if k == 0 {
      assert ops[0..] == ops;
    } else {
      ScriptRest(ops, a, b, k - 1);
      assert ops[k - 1..][1..] == ops[k..];
      assert ops[k - 1..][0] == ops[k - 1];
    }
  }

  /** What step `k` of a script is. */
  lemma StepAt(ops: seq<Op>, a: seq<Line>, b: seq<Line>, k: nat)
    requires Script(ops, a, b, Whole(a, b)) && k < |ops|
    ensures OldPos(ops, k + 1) <= |a| && NewPos(ops, k + 1) <= |b|
    ensures match ops[k]
            case Equal(i, j) =>
              i == OldPos(ops, k) < |a| && j == NewPos(ops, k) < |b| && a[i] == b[j]
            case Delete(i) => i == OldPos(ops, k) < |a|
            case Insert(j) => j == NewPos(ops, k) < |b|
  {
    ScriptRest(ops, a, b, k);
    ScriptRest(ops, a, b, k + 1);
    assert ops[k..][0] == ops[k];
  }

  lemma ScriptEnd(ops: seq<Op>, a: seq<Line>, b: seq<Line>)
    requires Script(ops, a, b, Whole(a, b))
    ensures OldPos(ops, |ops|) == |a| && NewPos(ops, |ops|) == |b|
  {
    ScriptRest(ops, a, b, |ops|);
    assert ops[|ops|..] == [];
  }

  lemma {:induction false} PosRise(ops: seq<Op>, k: nat, l: nat)
    requires k <= l <= |ops|
    ensures OldPos(ops, k) <= OldPos(ops, l) && NewPos(ops, k) <= NewPos(ops, l)
    decreases l - k
  {
    if k < l {
      PosRise(ops, k, l - 1);
    }
  }

  lemma SliceGrows(s: seq<Line>, lo: nat, hi: nat)
    requires lo <= hi < |s|
    ensures s[lo..hi + 1] == s[lo..hi] + [s[hi]]
  {
  }

  /** Equal steps copy lines: the old ones between are the new ones between. */
  lemma {:induction false} EqualStepsCopy(ops: seq<Op>, a: seq<Line>, b: seq<Line>, lo: nat, hi: nat)
    requires Script(ops, a, b, Whole(a, b)) && lo <= hi <= |ops| && OnlyEqual(ops, lo, hi)
    ensures OldPos(ops, lo) <= OldPos(ops, hi) <= |a|
    ensures NewPos(ops, lo) <= NewPos(ops, hi) <= |b|
    ensures a[OldPos(ops, lo)..OldPos(ops, hi)] == b[NewPos(ops, lo)..NewPos(ops, hi)]
    decreases hi - lo
  {
    ScriptRest(ops, a, b, hi);
    if lo < hi {
      EqualStepsCopy(ops, a, b, lo, hi - 1);
      StepAt(ops, a, b, hi - 1);
      var i, j := OldPos(ops, hi - 1), NewPos(ops, hi - 1);
      assert OldPos(ops, hi) == i + 1 && NewPos(ops, hi) == j + 1;
      SliceGrows(a, OldPos(ops, lo), i);
      SliceGrows(b, NewPos(ops, lo), j);
    }
  }

  /** The lines of a hunk on the old side, and on the new side. */
  function OldLines(ops: seq<Op>, h: Hunk): int
    requires h.lo <= h.hi <= |ops|
  {
    OldPos(ops, h.hi) - OldPos(ops, h.lo)
  }

  function NewLines(ops: seq<Op>, h: Hunk): int
    requires h.lo <= h.hi <= |ops|
  {
    NewPos(ops, h.hi) - NewPos(ops, h.lo)
  }

  /** A side with no lines in a hunk is a whole file with no lines: with context around every
      change there is nothing else it can be, which is what the `0,0` header assumes. */
  lemma NoLinesMeansEmptyFile(
    ops: seq<Op>, a: seq<Line>, b: seq<Line>, hunks: seq<Hunk>, n: nat)
    requires Script(ops, a, b, Whole(a, b)) && HunksOf(ops, hunks) && n < |hunks|
    ensures hunks[n].lo < hunks[n].hi <= |ops|
    ensures OldLines(ops, hunks[n]) == 0 ==> a == []
    ensures NewLines(ops, hunks[n]) == 0 ==> b == []
  {
    var h := hunks[n];
    assert IsHunk(ops, h);
    var first: nat, last: nat :| Framed(ops, h, first, last);
    ScriptEnd(ops, a, b);
    if h.lo < first {
      EqualStepCounts(ops, h, h.lo);
    } else if last + 1 < h.hi {
      EqualStepCounts(ops, h, last + 1);
    } else {
      assert h.lo == 0 && h.hi == |ops|;
    }
  }

  lemma EqualStepCounts(ops: seq<Op>, h: Hunk, k: nat)
    requires h.lo <= k < h.hi <= |ops| && ops[k].Equal?
    ensures OldLines(ops, h) > 0 && NewLines(ops, h) > 0
  {
    PosRise(ops, h.lo, k);
    PosRise(ops, k + 1, h.hi);
  }
}
