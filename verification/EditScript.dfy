/** Edit scripts between two lists of lines, and how good one can be (`src/diff.rs`).

    Lines are opaque: only equality is ever asked of them. */
module EditScript {

  type Line = string

  /** One step of an edit script: indices into the old and the new line list. */
  datatype Op = Equal(i: nat, j: nat) | Delete(i: nat) | Insert(j: nat)

  /** A range of the old lines (`al..ah`) and a range of the new ones (`bl..bh`). */
  datatype Window = Window(al: nat, ah: nat, bl: nat, bh: nat)

  predicate Fits(a: seq<Line>, b: seq<Line>, w: Window) {
    w.al <= w.ah <= |a| && w.bl <= w.bh <= |b|
  }

  function Whole(a: seq<Line>, b: seq<Line>): (w: Window) {
    Window(0, |a|, 0, |b|)
  }

  function Size(w: Window): int {
    (w.ah - w.al) + (w.bh - w.bl)
  }

  /** `ops` edits the window's old lines into its new ones: it visits every old index in order
      (equal or deleted), every new index in order (equal or inserted), and nothing else, and
      it calls equal only what is. */
  ghost predicate Script(ops: seq<Op>, a: seq<Line>, b: seq<Line>, w: Window)
    requires Fits(a, b, w)
  {
    if ops == [] then
      w.al == w.ah && w.bl == w.bh
    else
      match ops[0]
      case Equal(i, j) =>
        i == w.al < w.ah && j == w.bl < w.bh && a[i] == b[j]
        && Script(ops[1..], a, b, w.(al := i + 1, bl := j + 1))
      case Delete(i) => i == w.al < w.ah && Script(ops[1..], a, b, w.(al := i + 1))
      case Insert(j) => j == w.bl < w.bh && Script(ops[1..], a, b, w.(bl := j + 1))
  }

  /** How many lines a script keeps. */
  ghost function Kept(ops: seq<Op>): nat {
    if ops == [] then 0 else (if ops[0].Equal? then 1 else 0) + Kept(ops[1..])
  }

  /** How many lines a script deletes or inserts: what a diff is charged for. */
  ghost function Cost(ops: seq<Op>): nat {
    if ops == [] then 0 else (if ops[0].Equal? then 0 else 1) + Cost(ops[1..])
  }

  /** No script for the window deletes and inserts fewer lines than `ops`. */
  ghost predicate Minimal(ops: seq<Op>, a: seq<Line>, b: seq<Line>, w: Window)
    requires Fits(a, b, w)
  {
    forall s: seq<Op> :: Script(s, a, b, w) ==> Cost(ops) <= Cost(s)
  }

  // ---- joining scripts ----

  lemma {:induction false} ScriptConcat(
    front: seq<Op>, back: seq<Op>, a: seq<Line>, b: seq<Line>, w: Window, i: nat, j: nat)
    requires Fits(a, b, w) && w.al <= i <= w.ah && w.bl <= j <= w.bh
    requires Script(front, a, b, w.(ah := i, bh := j))
    requires Script(back, a, b, w.(al := i, bl := j))
    ensures Script(front + back, a, b, w)
    decreases |front|
  {
    if front == [] {
      assert front + back == back;
    } else {
      assert (front + back)[1..] == front[1..] + back;
      match front[0]
      case Equal(x, y) => ScriptConcat(front[1..], back, a, b, w.(al := x + 1, bl := y + 1), i, j);
      case Delete(x) => ScriptConcat(front[1..], back, a, b, w.(al := x + 1), i, j);
      case Insert(y) => ScriptConcat(front[1..], back, a, b, w.(bl := y + 1), i, j);
    }
  }

  lemma {:induction false} KeptConcat(front: seq<Op>, back: seq<Op>)
    ensures Kept(front + back) == Kept(front) + Kept(back)
  {
    if front == [] {
      assert front + back == back;
    } else {
      assert (front + back)[1..] == front[1..] + back;
      KeptConcat(front[1..], back);
    }
  }

  /** `op` is a step just past the window's end. */
  predicate Next(op: Op, a: seq<Line>, b: seq<Line>, w: Window) {
    match op
    case Equal(i, j) => i == w.ah < |a| && j == w.bh < |b| && a[i] == b[j]
    case Delete(i) => i == w.ah < |a|
    case Insert(j) => j == w.bh < |b|
  }

  /** The window with that step in it. */
  function Grown(w: Window, op: Op): Window {
    match op
    case Equal(_, _) => w.(ah := w.ah + 1, bh := w.bh + 1)
    case Delete(_) => w.(ah := w.ah + 1)
    case Insert(_) => w.(bh := w.bh + 1)
  }

  /** A script that grows at its end by one step. */
  lemma ScriptSnoc(ops: seq<Op>, op: Op, a: seq<Line>, b: seq<Line>, w: Window)
    requires Fits(a, b, w) && Next(op, a, b, w) && Script(ops, a, b, w)
    ensures Script(ops + [op], a, b, Grown(w, op))
    ensures Kept(ops + [op]) == Kept(ops) + (if op.Equal? then 1 else 0)
  {
    var grown := Grown(w, op);
    assert [op][1..] == [];
    assert Script([], a, b, grown.(al := grown.ah, bl := grown.bh));
    assert Script([op], a, b, grown.(al := w.ah, bl := w.bh));
    ScriptConcat(ops, [op], a, b, grown, w.ah, w.bh);
    KeptConcat(ops, [op]);
    assert Kept([op]) == (if op.Equal? then 1 else 0) + Kept([op][1..]);
  }

  // ---- the longest common subsequence ----

  /** The length of the longest common subsequence of the window's two ranges, by the recurrence
      the table of `lcs` is filled with. */
  ghost function Lcs(a: seq<Line>, b: seq<Line>, w: Window): nat
    requires Fits(a, b, w)
    decreases Size(w)
  {
    if w.al == w.ah || w.bl == w.bh then
      0
    else if a[w.al] == b[w.bl] then
      Lcs(a, b, w.(al := w.al + 1, bl := w.bl + 1)) + 1
    else
      Max(Lcs(a, b, w.(al := w.al + 1)), Lcs(a, b, w.(bl := w.bl + 1)))
  }

  function Max(x: nat, y: nat): nat { if x < y then y else x }

  function Min(x: nat, y: nat): nat { if x < y then x else y }

  /** Giving up one line costs at most one common line, and never gains one. */
  lemma {:induction false} LcsStep(a: seq<Line>, b: seq<Line>, w: Window)
    requires Fits(a, b, w)
    ensures w.al < w.ah ==>
              var less := Lcs(a, b, w.(al := w.al + 1)); less <= Lcs(a, b, w) <= less + 1
    ensures w.bl < w.bh ==>
              var less := Lcs(a, b, w.(bl := w.bl + 1)); less <= Lcs(a, b, w) <= less + 1
    decreases Size(w)
  {
    if w.al < w.ah && w.bl < w.bh {
      LcsStep(a, b, w.(al := w.al + 1));
      LcsStep(a, b, w.(bl := w.bl + 1));
    }
  }

  /** No script keeps more lines than the longest common subsequence has, and every script's
      cost is what its kept lines leave over. */
  lemma {:induction false} ScriptKeepsAtMostLcs(ops: seq<Op>, a: seq<Line>, b: seq<Line>, w: Window)
    requires Fits(a, b, w) && Script(ops, a, b, w)
    ensures Kept(ops) <= Lcs(a, b, w)
    ensures Cost(ops) + 2 * Kept(ops) == Size(w)
    decreases |ops|
  {
    if ops != [] {
      LcsStep(a, b, w);
      match ops[0]
      case Equal(i, j) => ScriptKeepsAtMostLcs(ops[1..], a, b, w.(al := i + 1, bl := j + 1));
      case Delete(i) => ScriptKeepsAtMostLcs(ops[1..], a, b, w.(al := i + 1));
      case Insert(j) => ScriptKeepsAtMostLcs(ops[1..], a, b, w.(bl := j + 1));
    }
  }

  /** A script that keeps a longest common subsequence is minimal. */
  lemma LcsScriptIsMinimal(ops: seq<Op>, a: seq<Line>, b: seq<Line>, w: Window)
    requires Fits(a, b, w) && Script(ops, a, b, w)
    requires Kept(ops) == Lcs(a, b, w)
    ensures Minimal(ops, a, b, w)
  {
    ScriptKeepsAtMostLcs(ops, a, b, w);
    forall s: seq<Op> | Script(s, a, b, w)
      ensures Cost(ops) <= Cost(s)
    {
      ScriptKeepsAtMostLcs(s, a, b, w);
    }
  }

  /** Two ranges that end in the same line share it in some longest common subsequence: the
      recurrence looks only at first lines, so this is what justifies stripping a suffix. */
  lemma {:induction false} LcsLastLine(a: seq<Line>, b: seq<Line>, w: Window)
    requires Fits(a, b, w) && w.al < w.ah && w.bl < w.bh
    requires a[w.ah - 1] == b[w.bh - 1]
    ensures Lcs(a, b, w) == Lcs(a, b, w.(ah := w.ah - 1, bh := w.bh - 1)) + 1
    decreases Size(w)
  {
    if a[w.al] == b[w.bl] {
      if w.al + 1 < w.ah && w.bl + 1 < w.bh {
        LcsLastLine(a, b, w.(al := w.al + 1, bl := w.bl + 1));
      }
    } else {
      if w.al + 1 < w.ah {
        LcsLastLine(a, b, w.(al := w.al + 1));
      }
      if w.bl + 1 < w.bh {
        LcsLastLine(a, b, w.(bl := w.bl + 1));
      }
    }
  }

  lemma {:induction false} LcsBound(a: seq<Line>, b: seq<Line>, w: Window)
    requires Fits(a, b, w)
    ensures Lcs(a, b, w) <= Min(w.ah - w.al, w.bh - w.bl)
    decreases Size(w)
  {
    if w.al < w.ah && w.bl < w.bh {
      LcsBound(a, b, w.(al := w.al + 1, bl := w.bl + 1));
      LcsBound(a, b, w.(al := w.al + 1));
      LcsBound(a, b, w.(bl := w.bl + 1));
    }
  }
}
