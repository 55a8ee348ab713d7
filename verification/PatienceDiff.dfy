/** The patience diff itself (`src/diff.rs`): strip what both ranges start and end with, divide
    on anchors, and fall back to an exact table between them. */
module PatienceDiff {
  import opened EditScript
  import opened Anchors

  /** The largest product of two range lengths that is diffed with an exact table. */
  const LCS_CELLS_MAX := 250_000

  /** The list of steps every part of the diff pushes onto. */
  class OpList {
    var ops: seq<Op>

    constructor ()
      ensures ops == []
    {
      ops := [];
    }

    method Push(op: Op)
      modifies this
      ensures ops == old(ops) + [op]
    {
      ops := ops + [op];
    }
  }

  /** Pushes the deletion of every old line left and the insertion of every new one: a script
      for any window, and a minimal one when a side is empty. */
  method PushReplacement(a: seq<Line>, b: seq<Line>, w: Window, out: OpList)
    returns (ghost steps: seq<Op>)
    requires Fits(a, b, w)
    modifies out
    ensures out.ops == old(out.ops) + steps
    ensures Script(steps, a, b, w) && Kept(steps) == 0 && Replaces(steps, w)
  {
    steps := [];
    NothingReplaced(a, b, w);
    hide Script, Kept, Replaces;
    for i := w.al to w.ah
      invariant out.ops == old(out.ops) + steps
      invariant Replaced(a, b, w.(ah := i, bh := w.bl), steps)
    {
      DeleteOne(a, b, w.(ah := i, bh := w.bl), steps);
      out.Push(Delete(i));
      steps := steps + [Delete(i)];
    }
    for j := w.bl to w.bh
      invariant out.ops == old(out.ops) + steps
      invariant Replaced(a, b, w.(bh := j), steps)
    {
      InsertOne(a, b, w.(bh := j), steps);
      out.Push(Insert(j));
      steps := steps + [Insert(j)];
    }
  }

  ghost predicate Replaced(a: seq<Line>, b: seq<Line>, w: Window, steps: seq<Op>) {
    Fits(a, b, w) && Script(steps, a, b, w) && Kept(steps) == 0 && Replaces(steps, w)
  }

  lemma NothingReplaced(a: seq<Line>, b: seq<Line>, w: Window)
    requires Fits(a, b, w)
    ensures Replaced(a, b, w.(ah := w.al, bh := w.bl), [])
  {
  }

  lemma DeleteOne(a: seq<Line>, b: seq<Line>, w: Window, steps: seq<Op>)
    requires Replaced(a, b, w, steps) && w.ah < |a| && w.bl == w.bh
    ensures Replaced(a, b, w.(ah := w.ah + 1), steps + [Delete(w.ah)])
  {
    ScriptSnoc(steps, Delete(w.ah), a, b, w);
    hide Script, Kept;
  }

  lemma InsertOne(a: seq<Line>, b: seq<Line>, w: Window, steps: seq<Op>)
    requires Replaced(a, b, w, steps) && w.bh < |b|
    ensures Replaced(a, b, w.(bh := w.bh + 1), steps + [Insert(w.bh)])
  {
    ScriptSnoc(steps, Insert(w.bh), a, b, w);
    hide Script, Kept;
  }

  // ---- the exact table ----

  /** Where the flat table keeps row `i`, column `j`, of `m + 1` columns. */
  function At(i: nat, j: nat, m: nat): nat {
    i * (m + 1) + j
  }

  lemma AtInRange(i: nat, j: nat, n: nat, m: nat)
    requires i <= n && j <= m
    ensures At(i, j, m) < (n + 1) * (m + 1)
  {
    assert i * (m + 1) <= n * (m + 1);
  }

  lemma AtRises(i: nat, j: nat, k: nat, l: nat, m: nat)
    requires i < k && j <= m
    ensures At(i, j, m) < At(k, l, m)
  {
    assert (i + 1) * (m + 1) <= k * (m + 1);
  }

  /** No two cells share a place. */
  lemma AtInjective(i: nat, j: nat, k: nat, l: nat, m: nat)
    requires j <= m && l <= m && (i != k || j != l)
    ensures At(i, j, m) != At(k, l, m)
  {
    if i < k {
      AtRises(i, j, k, l, m);
    } else if k < i {
      AtRises(k, l, i, j, m);
    }
  }

  /** What cell (`i`, `j`) should hold: the longest common subsequence from there on. */
  ghost function Cell(a: seq<Line>, b: seq<Line>, w: Window, i: nat, j: nat): nat
    requires Fits(a, b, w) && i <= w.ah - w.al && j <= w.bh - w.bl
  {
    Lcs(a, b, w.(al := w.al + i, bl := w.bl + j))
  }

  /** Every cell from row `row` on, and from column `col` on in the row before it, is right. */
  ghost predicate Filled(
    a: seq<Line>, b: seq<Line>, w: Window, table: seq<nat>, row: nat, col: nat)
    requires Fits(a, b, w)
  {
    var n, m := w.ah - w.al, w.bh - w.bl;
    && |table| == (n + 1) * (m + 1)
    && (forall i, j | 0 <= i <= n && 0 <= j <= m && (row <= i || (row == i + 1 && col <= j)) ::
          At(i, j, m) < |table| && table[At(i, j, m)] == Cell(a, b, w, i, j))
    && (forall i | 0 <= i <= n :: At(i, m, m) < |table| && table[At(i, m, m)] == 0)
  }

  /** The size the flat table has, and its bound under the guard of `diff_range`. */
  lemma TableSize(n: nat, m: nat)
    requires 0 < n && 0 < m && n * m <= LCS_CELLS_MAX
    ensures (n + 1) * (m + 1) <= 2 * LCS_CELLS_MAX + 2
  {
    assert n + m <= n * m + 1 by {
      assert (n - 1) * (m - 1) >= 0;
      assert (n - 1) * (m - 1) == n * m - n - m + 1;
    }
    assert (n + 1) * (m + 1) == n * m + n + m + 1;
  }

  lemma FillCell(
    a: seq<Line>, b: seq<Line>, w: Window, table: seq<nat>, i: nat, j: nat, value: nat)
    requires Fits(a, b, w) && i < w.ah - w.al && j < w.bh - w.bl
    requires Filled(a, b, w, table, i + 1, j + 1)
    requires value == Cell(a, b, w, i, j)
    requires At(i, j, w.bh - w.bl) < |table|
    ensures Filled(a, b, w, table[At(i, j, w.bh - w.bl) := value], i + 1, j)
  {
    var n, m := w.ah - w.al, w.bh - w.bl;
    var next := table[At(i, j, m) := value];
    forall k, l | 0 <= k <= n && 0 <= l <= m && (i + 1 <= k || (i + 1 == k + 1 && j <= l))
      ensures At(k, l, m) < |next| && next[At(k, l, m)] == Cell(a, b, w, k, l)
    {
      if k != i || l != j {
        AtInjective(k, l, i, j, m);
      }
    }
    forall k | 0 <= k <= n
      ensures At(k, m, m) < |next| && next[At(k, m, m)] == 0
    {
      AtInjective(k, m, i, j, m);
    }
  }

  /** The table before anything is computed: row `n` is right, and so is column `m`. */
  lemma StartTable(a: seq<Line>, b: seq<Line>, w: Window, table: seq<nat>)
    requires Fits(a, b, w)
    requires |table| == (w.ah - w.al + 1) * (w.bh - w.bl + 1)
    requires forall k | 0 <= k < |table| :: table[k] == 0
    ensures Filled(a, b, w, table, w.ah - w.al, w.bh - w.bl)
  {
    var n, m := w.ah - w.al, w.bh - w.bl;
    forall i, j | 0 <= i <= n && 0 <= j <= m && (n <= i || (n == i + 1 && m <= j))
      ensures At(i, j, m) < |table| && table[At(i, j, m)] == Cell(a, b, w, i, j)
    {
      AtInRange(i, j, n, m);
    }
    forall i | 0 <= i <= n
      ensures At(i, m, m) < |table| && table[At(i, m, m)] == 0
    {
      AtInRange(i, m, n, m);
    }
  }

  /** What the recurrence makes of the three cells it looks at. */
  function Recurrence(
    a: seq<Line>, b: seq<Line>, w: Window, i: nat, j: nat, diagonal: nat, down: nat, right: nat)
    : nat
    requires Fits(a, b, w) && i < w.ah - w.al && j < w.bh - w.bl
  {
    if a[w.al + i] == b[w.bl + j] then diagonal + 1 else Max(down, right)
  }

  lemma RecurrenceFillsCell(
    a: seq<Line>, b: seq<Line>, w: Window, table: seq<nat>, i: nat, j: nat)
    requires Fits(a, b, w) && i < w.ah - w.al && j < w.bh - w.bl
    requires Filled(a, b, w, table, i + 1, j + 1)
    ensures var m := w.bh - w.bl;
            && At(i, j, m) < |table| && At(i + 1, j + 1, m) < |table|
            && At(i + 1, j, m) < |table| && At(i, j + 1, m) < |table|
            && Recurrence(a, b, w, i, j, table[At(i + 1, j + 1, m)], table[At(i + 1, j, m)],
                          table[At(i, j + 1, m)]) == Cell(a, b, w, i, j)
  {
    AtInRange(i, j, w.ah - w.al, w.bh - w.bl);
  }

  lemma RowFilled(a: seq<Line>, b: seq<Line>, w: Window, table: seq<nat>, i: nat)
    requires Fits(a, b, w) && i <= w.ah - w.al && Filled(a, b, w, table, i + 1, 0)
    ensures Filled(a, b, w, table, i, w.bh - w.bl)
  {
  }

  method NewTable(a: seq<Line>, b: seq<Line>, w: Window) returns (table: array<nat>)
    requires Fits(a, b, w)
    ensures fresh(table)
    ensures Filled(a, b, w, table[..], w.ah - w.al, w.bh - w.bl)
  {
    hide Filled, Lcs, Cell;
    var size := Cells(w.ah - w.al, w.bh - w.bl);
    table := new nat[size](_ => 0);
    assert |table[..]| == size;
    StartTable(a, b, w, table[..]);
  }

  function Cells(n: nat, m: nat): (size: nat)
    ensures size == (n + 1) * (m + 1)
  {
    (n + 1) * (m + 1)
  }

  method FillOne(a: seq<Line>, b: seq<Line>, w: Window, table: array<nat>, i: nat, j: nat)
    requires Fits(a, b, w) && i < w.ah - w.al && j < w.bh - w.bl
    requires Filled(a, b, w, table[..], i + 1, j + 1)
    modifies table
    ensures Filled(a, b, w, table[..], i + 1, j)
  {
    var m := w.bh - w.bl;
    hide Filled, Cell, At, Recurrence;
    RecurrenceFillsCell(a, b, w, table[..], i, j);
    var value := Recurrence(a, b, w, i, j,
      table[At(i + 1, j + 1, m)], table[At(i + 1, j, m)], table[At(i, j + 1, m)]);
    FillCell(a, b, w, table[..], i, j, value);
    table[At(i, j, m)] := value;
  }

  lemma FewerRows(x: nat, y: nat, z: nat)
    requires x * z < y * z
    ensures x < y
  {
    assert (y - x) * z == y * z - x * z > 0;
  }

  /** Every index of a flat table is a cell's. */
  lemma IndexIsCell(k: nat, n: nat, m: nat) returns (i: nat, j: nat)
    requires k < (n + 1) * (m + 1)
    ensures i <= n && j <= m && k == At(i, j, m)
  {
    i, j := k / (m + 1), k % (m + 1);
    FewerRows(i, n + 1, m + 1);
  }

  lemma CellBound(a: seq<Line>, b: seq<Line>, w: Window, i: nat, j: nat)
    requires Fits(a, b, w) && i <= w.ah - w.al && j <= w.bh - w.bl
    ensures Cell(a, b, w, i, j) <= Min(w.ah - w.al, w.bh - w.bl)
  {
    hide Lcs;
    LcsBound(a, b, w.(al := w.al + i, bl := w.bl + j));
  }

  /** No entry of a filled table is larger than the shorter range, and under the guard of
      `diff_range` the table is small: neither its size nor its counts come near a `u32`. */
  lemma TableBounds(a: seq<Line>, b: seq<Line>, w: Window, cells: seq<nat>)
    requires Fits(a, b, w) && Filled(a, b, w, cells, 0, w.bh - w.bl)
    ensures forall k | 0 <= k < |cells| :: cells[k] <= Min(w.ah - w.al, w.bh - w.bl)
    ensures var n, m := w.ah - w.al, w.bh - w.bl;
            0 < n && 0 < m && n * m <= LCS_CELLS_MAX ==> |cells| <= 2 * LCS_CELLS_MAX + 2
  {
    var n, m := w.ah - w.al, w.bh - w.bl;
    if 0 < n && 0 < m && n * m <= LCS_CELLS_MAX { TableSize(n, m); }
    hide Cell, At;
    forall k | 0 <= k < |cells|
      ensures cells[k] <= Min(n, m)
    {
      var i, j := IndexIsCell(k, n, m);
      CellBound(a, b, w, i, j);
    }
  }

  /** Fills the table of `lcs` in place, last row and last column first. */
  method FillTable(a: seq<Line>, b: seq<Line>, w: Window) returns (table: array<nat>)
    requires Fits(a, b, w)
    ensures fresh(table)
    ensures Filled(a, b, w, table[..], 0, w.bh - w.bl)
    ensures forall k | 0 <= k < table.Length :: table[k] <= Min(w.ah - w.al, w.bh - w.bl)
    ensures var n, m := w.ah - w.al, w.bh - w.bl;
            0 < n && 0 < m && n * m <= LCS_CELLS_MAX ==> table.Length <= 2 * LCS_CELLS_MAX + 2
  {
    var n, m := w.ah - w.al, w.bh - w.bl;
    table := NewTable(a, b, w);
    hide Filled, Cell, At, Recurrence;
    for i := n downto 0
      invariant Filled(a, b, w, table[..], i, m)
    {
      for j := m downto 0
        invariant Filled(a, b, w, table[..], i + 1, j)
      {
        FillOne(a, b, w, table, i, j);
      }
      RowFilled(a, b, w, table[..], i);
    }
    TableBounds(a, b, w, table[..]);
    assert forall k | 0 <= k < table.Length :: table[k] == table[..][k];
  }

  /** The step the walk takes from cell (`i`, `j`). */
  function Step(a: seq<Line>, b: seq<Line>, w: Window, i: nat, j: nat, cells: seq<nat>): Op
    requires Fits(a, b, w) && i < w.ah - w.al && j < w.bh - w.bl
    requires At(i + 1, j, w.bh - w.bl) < |cells| && At(i, j + 1, w.bh - w.bl) < |cells|
  {
    var m := w.bh - w.bl;
    if a[w.al + i] == b[w.bl + j] then Equal(w.al + i, w.bl + j)
    else if cells[At(i + 1, j, m)] >= cells[At(i, j + 1, m)] then Delete(w.al + i)
    else Insert(w.bl + j)
  }

  /** That step is on the way to a longest common subsequence. */
  lemma StepIsBest(a: seq<Line>, b: seq<Line>, w: Window, i: nat, j: nat, cells: seq<nat>)
    requires Fits(a, b, w) && i < w.ah - w.al && j < w.bh - w.bl
    requires Filled(a, b, w, cells, 0, w.bh - w.bl)
    ensures At(i + 1, j, w.bh - w.bl) < |cells| && At(i, j + 1, w.bh - w.bl) < |cells|
    ensures var op := Step(a, b, w, i, j, cells);
            && Next(op, a, b, w.(ah := w.al + i, bh := w.bl + j))
            && Cell(a, b, w, i, j)
               == Cell(a, b, w, if op.Insert? then i else i + 1, if op.Delete? then j else j + 1)
                  + (if op.Equal? then 1 else 0)
  {
  }

  /** Every step keeps what it can; and where it cannot, it deletes, unless inserting leaves more to
      keep. */
  ghost predicate Greedy(ops: seq<Op>, a: seq<Line>, b: seq<Line>, w: Window)
    requires Fits(a, b, w)
    decreases |ops|
  {
    ops == [] ||
    match ops[0]
    case Equal(_, _) =>
      && w.al < w.ah && w.bl < w.bh && a[w.al] == b[w.bl]
      && Greedy(ops[1..], a, b, w.(al := w.al + 1, bl := w.bl + 1))
    case Delete(_) =>
      && w.al < w.ah
      && (w.bl < w.bh ==> a[w.al] != b[w.bl] && Lcs(a, b, w.(al := w.al + 1)) >= Lcs(a, b, w.(bl := w.bl + 1)))
      && Greedy(ops[1..], a, b, w.(al := w.al + 1))
    case Insert(_) =>
      && w.bl < w.bh
      && (w.al < w.ah ==> a[w.al] != b[w.bl] && Lcs(a, b, w.(al := w.al + 1)) < Lcs(a, b, w.(bl := w.bl + 1)))
      && Greedy(ops[1..], a, b, w.(bl := w.bl + 1))
  }

  lemma {:induction false} GreedyConcat(front: seq<Op>, back: seq<Op>, a: seq<Line>, b: seq<Line>, w: Window, i: nat, j: nat)
    requires Fits(a, b, w) && w.al <= i <= w.ah && w.bl <= j <= w.bh
    requires Script(front, a, b, w.(ah := i, bh := j)) && Greedy(front, a, b, w)
    requires Greedy(back, a, b, w.(al := i, bl := j))
    ensures Greedy(front + back, a, b, w)
    decreases |front|
  {
    hide Lcs;
    if front == [] {
      assert front + back == back;
    } else {
      assert (front + back)[1..] == front[1..] + back;
      match front[0]
      case Equal(x, y) => GreedyConcat(front[1..], back, a, b, w.(al := x + 1, bl := y + 1), i, j);
      case Delete(x) => GreedyConcat(front[1..], back, a, b, w.(al := x + 1), i, j);
      case Insert(y) => GreedyConcat(front[1..], back, a, b, w.(bl := y + 1), i, j);
    }
  }

  /** With one side used up there is nothing to choose. */
  lemma {:induction false} OneSideIsGreedy(ops: seq<Op>, a: seq<Line>, b: seq<Line>, w: Window)
    requires Fits(a, b, w) && Script(ops, a, b, w) && (w.al == w.ah || w.bl == w.bh)
    ensures Greedy(ops, a, b, w)
    decreases |ops|
  {
    hide Lcs;
    if ops != [] {
      match ops[0]
      case Delete(x) => OneSideIsGreedy(ops[1..], a, b, w.(al := x + 1));
      case Insert(y) => OneSideIsGreedy(ops[1..], a, b, w.(bl := y + 1));
    }
  }

  /** The step taken from a cell is the one to take. */
  lemma StepIsGreedy(a: seq<Line>, b: seq<Line>, w: Window, i: nat, j: nat, cells: seq<nat>)
    requires Fits(a, b, w) && i < w.ah - w.al && j < w.bh - w.bl
    requires Filled(a, b, w, cells, 0, w.bh - w.bl)
    ensures At(i + 1, j, w.bh - w.bl) < |cells| && At(i, j + 1, w.bh - w.bl) < |cells|
    ensures Greedy([Step(a, b, w, i, j, cells)], a, b, w.(al := w.al + i, bl := w.bl + j))
  {
    StepIsBest(a, b, w, i, j, cells);
    hide Lcs, At;
    var op := Step(a, b, w, i, j, cells);
    assert [op][1..] == [];
    assert cells[At(i + 1, j, w.bh - w.bl)] == Cell(a, b, w, i + 1, j);
    assert cells[At(i, j + 1, w.bh - w.bl)] == Cell(a, b, w, i, j + 1);
  }

  /** What is known after walking to cell (`i`, `j`). */
  ghost predicate Walked(
    a: seq<Line>, b: seq<Line>, w: Window, i: nat, j: nat, steps: seq<Op>)
    requires Fits(a, b, w)
  {
    && i <= w.ah - w.al && j <= w.bh - w.bl
    && Script(steps, a, b, w.(ah := w.al + i, bh := w.bl + j)) && Greedy(steps, a, b, w)
    && Kept(steps) + Cell(a, b, w, i, j) == Lcs(a, b, w)
  }

  lemma WalkOn(a: seq<Line>, b: seq<Line>, w: Window, i: nat, j: nat, steps: seq<Op>, cells: seq<nat>)
    requires Fits(a, b, w) && i < w.ah - w.al && j < w.bh - w.bl
    requires Filled(a, b, w, cells, 0, w.bh - w.bl) && Walked(a, b, w, i, j, steps)
    ensures At(i + 1, j, w.bh - w.bl) < |cells| && At(i, j + 1, w.bh - w.bl) < |cells|
    ensures var op := Step(a, b, w, i, j, cells);
            Walked(a, b, w, if op.Insert? then i else i + 1, if op.Delete? then j else j + 1,
                   steps + [op])
  {
    hide Script, Kept, Lcs, Cell, Filled, At, Step, Greedy;
    StepIsBest(a, b, w, i, j, cells);
    StepIsGreedy(a, b, w, i, j, cells);
    GreedyConcat(steps, [Step(a, b, w, i, j, cells)], a, b, w, w.al + i, w.bl + j);
    ScriptSnoc(steps, Step(a, b, w, i, j, cells), a, b, w.(ah := w.al + i, bh := w.bl + j));
  }

  /** Walks the table from its first cell until a range is used up. */
  method WalkTable(a: seq<Line>, b: seq<Line>, w: Window, table: array<nat>, out: OpList)
    returns (i: nat, j: nat, ghost steps: seq<Op>)
    requires Fits(a, b, w) && Filled(a, b, w, table[..], 0, w.bh - w.bl)
    modifies out
    ensures w.al + i == w.ah || w.bl + j == w.bh
    ensures out.ops == old(out.ops) + steps
    ensures Walked(a, b, w, i, j, steps)
  {
    var n, m := w.ah - w.al, w.bh - w.bl;
    i, j, steps := 0, 0, [];
    assert Walked(a, b, w, 0, 0, []);
    hide Script, Kept, Lcs, Cell, Filled, Step, At, Greedy;
    while i < n && j < m
      invariant i <= n && j <= m
      invariant out.ops == old(out.ops) + steps
      invariant Walked(a, b, w, i, j, steps)
      decreases n + m - i - j
    {
      WalkOn(a, b, w, i, j, steps, table[..]);
      var op := Step(a, b, w, i, j, table[..]);
      out.Push(op);
      steps := steps + [op];
      i, j := if op.Insert? then i else i + 1, if op.Delete? then j else j + 1;
    }
  }

  /** A walk that has used up a range has kept all it can. */
  lemma WalkEnds(a: seq<Line>, b: seq<Line>, w: Window, i: nat, j: nat, steps: seq<Op>, rest: seq<Op>)
    requires Fits(a, b, w) && Walked(a, b, w, i, j, steps)
    requires w.al + i == w.ah || w.bl + j == w.bh
    requires Script(rest, a, b, w.(al := w.al + i, bl := w.bl + j)) && Kept(rest) == 0
    ensures Script(steps + rest, a, b, w) && Kept(steps + rest) == Lcs(a, b, w) && Greedy(steps + rest, a, b, w)
  {
    OneSideIsGreedy(rest, a, b, w.(al := w.al + i, bl := w.bl + j));
    GreedyConcat(steps, rest, a, b, w, w.al + i, w.bl + j);
    assert Cell(a, b, w, i, j) == 0;
    ScriptConcat(steps, rest, a, b, w, w.al + i, w.bl + j);
    KeptConcat(steps, rest);
  }

  /** An exact diff of two ranges: a script that keeps a longest common subsequence. */
  method LcsDiff(a: seq<Line>, b: seq<Line>, w: Window, out: OpList) returns (ghost steps: seq<Op>)
    requires Fits(a, b, w)
    modifies out
    ensures out.ops == old(out.ops) + steps
    ensures Script(steps, a, b, w) && Kept(steps) == Lcs(a, b, w) && Greedy(steps, a, b, w)
  {
    hide Script, Filled, Lcs, Kept, Cell, Greedy;
    var table := FillTable(a, b, w);
    var i, j;
    i, j, steps := WalkTable(a, b, w, table, out);
    ghost var rest := PushReplacement(a, b, w.(al := w.al + i, bl := w.bl + j), out);
    WalkEnds(a, b, w, i, j, steps, rest);
    steps := steps + rest;
  }

  predicate SharesFirst(a: seq<Line>, b: seq<Line>, w: Window)
    requires Fits(a, b, w)
  {
    w.al < w.ah && w.bl < w.bh && a[w.al] == b[w.bl]
  }

  predicate SharesLast(a: seq<Line>, b: seq<Line>, w: Window)
    requires Fits(a, b, w)
  {
    w.al < w.ah && w.bl < w.bh && a[w.ah - 1] == b[w.bh - 1]
  }

  // ---- what a patience diff is ----

  /** `ops` deletes every old line of the window, in order, and then inserts every new one. */
  ghost predicate Replaces(ops: seq<Op>, w: Window) {
    var n := w.ah - w.al;
    && |ops| == Size(w)
    && (forall k | 0 <= k < |ops| :: ops[k] == if k < n then Delete(w.al + k) else Insert(Nat(w.bl + k - n)))
  }

  function Nat(n: int): nat {
    if n < 0 then 0 else n
  }

  /** `ops` keeps line after line from (`i`, `j`) on. */
  ghost predicate KeepsFrom(ops: seq<Op>, i: nat, j: nat) {
    forall k | 0 <= k < |ops| :: ops[k] == Equal(i + k, j + k)
  }

  ghost predicate NoUniqueLine(a: seq<Line>, b: seq<Line>, w: Window)
    requires Fits(a, b, w)
  {
    forall p :: !UniquePair(a, b, w, p)
  }

  /** A chain of unique pairs that no other is longer than. */
  ghost predicate LongestChain(a: seq<Line>, b: seq<Line>, w: Window, chain: seq<Pair>)
    requires Fits(a, b, w)
  {
    Chain(a, b, w, chain) && forall other | Chain(a, b, w, other) :: |other| <= |chain|
  }

  /** The window between two neighbours of a chain: before its first, after its last. */
  function Stretch(w: Window, chain: seq<Pair>, k: nat): Window
    requires k <= |chain|
  {
    Window(if k == 0 then w.al else chain[k - 1].i + 1, if k == |chain| then w.ah else chain[k].i,
           if k == 0 then w.bl else chain[k - 1].j + 1, if k == |chain| then w.bh else chain[k].j)
  }

  /** The steps between two neighbouring cuts. */
  ghost function Between(ops: seq<Op>, cuts: seq<nat>, k: nat): seq<Op>
    requires k <= |cuts|
  {
    var from := if k == 0 then 0 else cuts[k - 1] + 1;
    var to := if k == |cuts| then |ops| else cuts[k];
    if from <= to <= |ops| then ops[from..to] else []
  }

  /** The steps at `cuts`, in order, keep the anchors. */
  ghost predicate KeepsAnchors(ops: seq<Op>, chain: seq<Pair>, cuts: seq<nat>) {
    && |cuts| == |chain|
    && (forall k | 0 <= k < |cuts| :: cuts[k] < |ops| && ops[cuts[k]] == Equal(chain[k].i, chain[k].j))
    && (forall k, l | 0 <= k < l < |cuts| :: cuts[k] < cuts[l])
  }

  /** Every anchor of a longest chain is kept, and the stretches between them are diffed in the same
      way. */
  ghost predicate Anchored(ops: seq<Op>, a: seq<Line>, b: seq<Line>, w: Window, chain: seq<Pair>, cuts: seq<nat>)
    requires Fits(a, b, w)
    decreases Size(w), 0
  {
    && chain != [] && LongestChain(a, b, w, chain) && KeepsAnchors(ops, chain, cuts)
    && forall k | 0 <= k <= |chain| ::
         var part := Stretch(w, chain, k);
         Fits(a, b, part) && Size(part) < Size(w) && Patient(Between(ops, cuts, k), a, b, part)
  }

  /** How the middle is diffed, that shares neither a first nor a last line: replaced when a side is
      empty; by its anchors when it has any; otherwise exactly, or replaced when that is too much. */
  ghost predicate PatientMiddle(ops: seq<Op>, a: seq<Line>, b: seq<Line>, w: Window)
    requires Fits(a, b, w)
    decreases Size(w), 1
  {
    if w.al == w.ah || w.bl == w.bh then Replaces(ops, w)
    else if NoUniqueLine(a, b, w) then
      if (w.ah - w.al) * (w.bh - w.bl) <= 250_000 then
        Script(ops, a, b, w) && Kept(ops) == Lcs(a, b, w) && Greedy(ops, a, b, w)
      else Replaces(ops, w)
    else exists chain, cuts :: Anchored(ops, a, b, w, chain, cuts)
  }

  /** The middle that is left of a window without `n` lines in front and `m` behind. */
  function Inner(w: Window, n: nat, m: nat): Window
    requires w.al + n + m <= w.ah && w.bl + n + m <= w.bh
  {
    Window(w.al + n, w.ah - m, w.bl + n, w.bh - m)
  }

  /** Every line both ranges start with is kept, then every line both end with of what is left, and
      the middle is diffed. */
  ghost predicate PatientWith(ops: seq<Op>, a: seq<Line>, b: seq<Line>, w: Window, n: nat, m: nat)
    requires Fits(a, b, w)
    decreases Size(w), 2
  {
    && w.al + n + m <= w.ah && w.bl + n + m <= w.bh && n + m <= |ops|
    && KeepsFrom(ops[..n], w.al, w.bl) && KeepsFrom(ops[|ops| - m..], w.ah - m, w.bh - m)
    && a[w.al..w.al + n] == b[w.bl..w.bl + n] && !SharesFirst(a, b, Inner(w, n, 0))
    && a[w.ah - m..w.ah] == b[w.bh - m..w.bh] && !SharesLast(a, b, Inner(w, n, m))
    && PatientMiddle(ops[n..|ops| - m], a, b, Inner(w, n, m))
  }

  /** `ops` is a patience diff of the window. */
  ghost predicate Patient(ops: seq<Op>, a: seq<Line>, b: seq<Line>, w: Window)
    requires Fits(a, b, w)
    decreases Size(w), 3
  {
    exists n: nat, m: nat :: PatientWith(ops, a, b, w, n, m)
  }

  // ---- the divide ----

  /** The window without the lines both its ranges start with. */
  function WithoutPrefix(a: seq<Line>, b: seq<Line>, w: Window): (mid: Window)
    requires Fits(a, b, w)
    ensures Fits(a, b, mid) && w.al <= mid.al && w.bl <= mid.bl && mid.ah == w.ah && mid.bh == w.bh
    decreases Size(w)
  {
    if SharesFirst(a, b, w) then WithoutPrefix(a, b, w.(al := w.al + 1, bl := w.bl + 1)) else w
  }

  /** The window without the lines both its ranges end with. */
  function WithoutSuffix(a: seq<Line>, b: seq<Line>, w: Window): (mid: Window)
    requires Fits(a, b, w)
    ensures Fits(a, b, mid) && mid.al == w.al && mid.bl == w.bl && mid.ah <= w.ah && mid.bh <= w.bh
    decreases Size(w)
  {
    if SharesLast(a, b, w) then WithoutSuffix(a, b, w.(ah := w.ah - 1, bh := w.bh - 1)) else w
  }

  function Middle(a: seq<Line>, b: seq<Line>, w: Window): (mid: Window)
    requires Fits(a, b, w)
    ensures Fits(a, b, mid)
  {
    WithoutSuffix(a, b, WithoutPrefix(a, b, w))
  }

  /** Where the diff is exact: a side of the middle is empty, or the middle has no unique line
      to anchor on and its table fits. */
  ghost predicate Exact(a: seq<Line>, b: seq<Line>, w: Window)
    requires Fits(a, b, w)
  {
    var mid := Middle(a, b, w);
    || mid.al == mid.ah
    || mid.bl == mid.bh
    || (NoUniqueLine(a, b, mid) && FitsTable(mid))
  }

  /** The window's table is no larger than is allowed. */
  predicate FitsTable(w: Window) {
    (w.ah - w.al) * (w.bh - w.bl) <= LCS_CELLS_MAX
  }

  /** What is known after keeping the first lines of both ranges up to `rest`. */
  ghost predicate PrefixKept(a: seq<Line>, b: seq<Line>, w: Window, rest: Window, steps: seq<Op>)
    requires Fits(a, b, w)
  {
    && Fits(a, b, rest) && w.al <= rest.al && w.bl <= rest.bl && rest.ah == w.ah && rest.bh == w.bh
    && WithoutPrefix(a, b, rest) == WithoutPrefix(a, b, w)
    && Script(steps, a, b, w.(ah := rest.al, bh := rest.bl))
    && Kept(steps) + Lcs(a, b, rest) == Lcs(a, b, w)
    && |steps| == rest.al - w.al == rest.bl - w.bl && KeepsFrom(steps, w.al, w.bl)
    && a[w.al..rest.al] == b[w.bl..rest.bl]
  }

  lemma KeepOne(a: seq<Line>, b: seq<Line>, w: Window, rest: Window, steps: seq<Op>)
    requires Fits(a, b, w) && PrefixKept(a, b, w, rest, steps) && SharesFirst(a, b, rest)
    ensures PrefixKept(a, b, w, rest.(al := rest.al + 1, bl := rest.bl + 1), steps + [Equal(rest.al, rest.bl)])
  {
    ScriptSnoc(steps, Equal(rest.al, rest.bl), a, b, w.(ah := rest.al, bh := rest.bl));
    assert Lcs(a, b, rest) == Lcs(a, b, rest.(al := rest.al + 1, bl := rest.bl + 1)) + 1;
    hide Script, Kept, Lcs;
    assert a[w.al..rest.al + 1] == a[w.al..rest.al] + [a[rest.al]];
    assert b[w.bl..rest.bl + 1] == b[w.bl..rest.bl] + [b[rest.bl]];
  }

  lemma NoneKept(a: seq<Line>, b: seq<Line>, w: Window)
    requires Fits(a, b, w)
    ensures PrefixKept(a, b, w, w, [])
  {
  }

  method PushPrefix(a: seq<Line>, b: seq<Line>, w: Window, out: OpList)
    returns (rest: Window, ghost steps: seq<Op>)
    requires Fits(a, b, w)
    modifies out
    ensures Fits(a, b, rest) && rest == WithoutPrefix(a, b, w)
    ensures out.ops == old(out.ops) + steps
    ensures Script(steps, a, b, w.(ah := rest.al, bh := rest.bl))
    ensures Kept(steps) + Lcs(a, b, rest) == Lcs(a, b, w)
    ensures |steps| == rest.al - w.al == rest.bl - w.bl && KeepsFrom(steps, w.al, w.bl)
    ensures a[w.al..rest.al] == b[w.bl..rest.bl] && !SharesFirst(a, b, rest)
  {
    rest, steps := w, [];
    NoneKept(a, b, w);
    hide Script, Kept, Lcs, KeepsFrom;
    while rest.al < rest.ah && rest.bl < rest.bh && a[rest.al] == b[rest.bl]
      invariant PrefixKept(a, b, w, rest, steps)
      invariant out.ops == old(out.ops) + steps
      decreases rest.ah - rest.al
    {
      KeepOne(a, b, w, rest, steps);
      out.Push(Equal(rest.al, rest.bl));
      steps := steps + [Equal(rest.al, rest.bl)];
      rest := rest.(al := rest.al + 1, bl := rest.bl + 1);
    }
  }

  method StripSuffix(a: seq<Line>, b: seq<Line>, w: Window) returns (rest: Window, suffix: nat)
    requires Fits(a, b, w)
    ensures rest == WithoutSuffix(a, b, w)
    ensures rest.ah + suffix == w.ah && rest.bh + suffix == w.bh
    ensures a[rest.ah..w.ah] == b[rest.bh..w.bh]
    ensures Lcs(a, b, rest) + suffix == Lcs(a, b, w)
    ensures rest.al == w.al && rest.bl == w.bl && !SharesLast(a, b, rest)
  {
    rest, suffix := w, 0;
    while rest.al < rest.ah && rest.bl < rest.bh && a[rest.ah - 1] == b[rest.bh - 1]
      invariant Stripped(a, b, w, rest, suffix)
      decreases rest.ah
    {
      StripOne(a, b, w, rest, suffix);
      rest := rest.(ah := rest.ah - 1, bh := rest.bh - 1);
      suffix := suffix + 1;
    }
  }

  /** What is known after taking `suffix` lines off the end of both ranges. */
  ghost predicate Stripped(a: seq<Line>, b: seq<Line>, w: Window, rest: Window, suffix: nat)
    requires Fits(a, b, w)
  {
    && Fits(a, b, rest) && rest.al == w.al && rest.bl == w.bl
    && WithoutSuffix(a, b, rest) == WithoutSuffix(a, b, w)
    && rest.ah + suffix == w.ah && rest.bh + suffix == w.bh
    && a[rest.ah..w.ah] == b[rest.bh..w.bh]
    && Lcs(a, b, rest) + suffix == Lcs(a, b, w)
  }

  lemma StripOne(a: seq<Line>, b: seq<Line>, w: Window, rest: Window, suffix: nat)
    requires Fits(a, b, w) && Stripped(a, b, w, rest, suffix) && SharesLast(a, b, rest)
    ensures Stripped(a, b, w, rest.(ah := rest.ah - 1, bh := rest.bh - 1), suffix + 1)
  {
    LcsLastLine(a, b, rest);
    hide Lcs;
    assert a[rest.ah - 1..w.ah] == [a[rest.ah - 1]] + a[rest.ah..w.ah];
    assert b[rest.bh - 1..w.bh] == [b[rest.bh - 1]] + b[rest.bh..w.bh];
  }

  method PushSuffix(a: seq<Line>, b: seq<Line>, w: Window, suffix: nat, out: OpList)
    returns (ghost steps: seq<Op>)
    requires w.ah + suffix <= |a| && w.bh + suffix <= |b|
    requires a[w.ah..w.ah + suffix] == b[w.bh..w.bh + suffix]
    modifies out
    ensures out.ops == old(out.ops) + steps
    ensures Script(steps, a, b, Window(w.ah, w.ah + suffix, w.bh, w.bh + suffix))
    ensures Kept(steps) == suffix
    ensures |steps| == suffix && KeepsFrom(steps, w.ah, w.bh)
  {
    steps := [];
    NoSuffixKept(a, b, w);
    hide Script, Kept, KeepsFrom;
    for k := 0 to suffix
      invariant out.ops == old(out.ops) + steps
      invariant SuffixKept(a, b, w, k, steps)
    {
      assert a[w.ah + k] == a[w.ah..w.ah + suffix][k] == b[w.bh..w.bh + suffix][k];
      KeepNext(a, b, w, k, steps);
      out.Push(Equal(w.ah + k, w.bh + k));
      steps := steps + [Equal(w.ah + k, w.bh + k)];
    }
  }

  /** The first `k` lines past the window are kept. */
  ghost predicate SuffixKept(a: seq<Line>, b: seq<Line>, w: Window, k: nat, steps: seq<Op>)
    requires w.ah + k <= |a| && w.bh + k <= |b|
  {
    && Script(steps, a, b, Window(w.ah, w.ah + k, w.bh, w.bh + k))
    && Kept(steps) == k == |steps| && KeepsFrom(steps, w.ah, w.bh)
  }

  lemma NoSuffixKept(a: seq<Line>, b: seq<Line>, w: Window)
    requires w.ah <= |a| && w.bh <= |b|
    ensures SuffixKept(a, b, w, 0, [])
  {
  }

  lemma KeepNext(a: seq<Line>, b: seq<Line>, w: Window, k: nat, steps: seq<Op>)
    requires w.ah + k < |a| && w.bh + k < |b| && SuffixKept(a, b, w, k, steps) && a[w.ah + k] == b[w.bh + k]
    ensures SuffixKept(a, b, w, k + 1, steps + [Equal(w.ah + k, w.bh + k)])
  {
    ScriptSnoc(steps, Equal(w.ah + k, w.bh + k), a, b, Window(w.ah, w.ah + k, w.bh, w.bh + k));
    hide Script, Kept;
  }

  /** The window's lines between one anchor (or its start) and the next. */
  function Before(from: Pair, anchor: Pair): Window {
    Window(from.i, anchor.i, from.j, anchor.j)
  }

  /** Diffs the stretch before one anchor, and keeps the anchor. */
  method DiffUpTo(
    a: seq<Line>, b: seq<Line>, w: Window, from: Pair, anchor: Pair, out: OpList)
    returns (ghost part: seq<Op>)
    requires Fits(a, b, w) && UniquePair(a, b, w, anchor)
    requires w.al <= from.i <= anchor.i && w.bl <= from.j <= anchor.j
    modifies out
    ensures out.ops == old(out.ops) + (part + [Equal(anchor.i, anchor.j)])
    ensures Script(part + [Equal(anchor.i, anchor.j)], a, b, Window(from.i, anchor.i + 1, from.j, anchor.j + 1))
    ensures Patient(part, a, b, Before(from, anchor))
    decreases Size(w), 0
  {
    hide Patient;
    part := DiffRange(a, b, Before(from, anchor), out);
    var op := Equal(anchor.i, anchor.j);
    ScriptSnoc(part, op, a, b, Before(from, anchor));
    out.Push(op);
  }

  /** Where the stretch after `k` anchors starts. */
  function After(w: Window, anchors: seq<Pair>, k: nat): Pair
    requires k <= |anchors|
  {
    if k == 0 then Pair(w.al, w.bl) else Pair(anchors[k - 1].i + 1, anchors[k - 1].j + 1)
  }

  /** `steps` keeps the first anchors, and has diffed the stretches before them. */
  ghost predicate AnchoredUpTo(
    steps: seq<Op>, a: seq<Line>, b: seq<Line>, w: Window, anchors: seq<Pair>, cuts: seq<nat>)
    requires Fits(a, b, w)
  {
    && |cuts| <= |anchors| && KeepsAnchors(steps, anchors[..|cuts|], cuts)
    && |steps| == (if cuts == [] then 0 else cuts[|cuts| - 1] + 1)
    && forall k | 0 <= k < |cuts| ::
         var part := Stretch(w, anchors, k);
         Fits(a, b, part) && Size(part) < Size(w) && Patient(Between(steps, cuts, k), a, b, part)
  }

  lemma NoneAnchored(a: seq<Line>, b: seq<Line>, w: Window, anchors: seq<Pair>)
    requires Fits(a, b, w)
    ensures AnchoredUpTo([], a, b, w, anchors, []) && EditsUpTo(a, b, w, After(w, anchors, 0), [])
  {
  }

  /** What is between the cuts stays so when more steps and cuts are added. */
  lemma BetweenSame(steps: seq<Op>, cuts: seq<nat>, more: seq<Op>, later: seq<nat>, k: nat)
    requires k < |cuts| && forall l | 0 <= l < |cuts| :: cuts[l] < |steps|
    ensures Between(steps + more, cuts + later, k) == Between(steps, cuts, k)
  {
    var from := if k == 0 then 0 else cuts[k - 1] + 1;
    if from <= cuts[k] {
      assert (steps + more)[from..cuts[k]] == steps[from..cuts[k]];
    }
  }

  lemma BetweenLast(steps: seq<Op>, cuts: seq<nat>, part: seq<Op>, op: Op)
    requires |steps| == (if cuts == [] then 0 else cuts[|cuts| - 1] + 1)
    ensures Between(steps + (part + [op]), cuts + [|steps| + |part|], |cuts|) == part
    ensures Between(steps + part, cuts, |cuts|) == part
  {
    assert (steps + (part + [op]))[|steps|..|steps| + |part|] == part;
    assert (steps + part)[|steps|..|steps + part|] == part;
  }

  lemma CutsGrow(steps: seq<Op>, anchors: seq<Pair>, cuts: seq<nat>, part: seq<Op>)
    requires |cuts| < |anchors| && KeepsAnchors(steps, anchors[..|cuts|], cuts)
    requires |steps| == (if cuts == [] then 0 else cuts[|cuts| - 1] + 1)
    ensures forall k | 0 <= k < |cuts| :: cuts[k] < |steps|
    ensures var anchor := anchors[|cuts|];
            KeepsAnchors(steps + (part + [Equal(anchor.i, anchor.j)]), anchors[..|cuts| + 1], cuts + [|steps| + |part|])
  {
    var op := Equal(anchors[|cuts|].i, anchors[|cuts|].j);
    assert (steps + (part + [op]))[|steps| + |part|] == op;
    assert anchors[..|cuts| + 1] == anchors[..|cuts|] + [anchors[|cuts|]];
  }

  lemma AnchoredGrows(steps: seq<Op>, a: seq<Line>, b: seq<Line>, w: Window, anchors: seq<Pair>, cuts: seq<nat>,
                      part: seq<Op>)
    requires Fits(a, b, w) && AnchoredUpTo(steps, a, b, w, anchors, cuts) && |cuts| < |anchors|
    requires var k := |cuts|;
             var middle := Stretch(w, anchors, k);
             Fits(a, b, middle) && Size(middle) < Size(w) && Patient(part, a, b, middle)
    ensures var anchor := anchors[|cuts|];
            AnchoredUpTo(steps + (part + [Equal(anchor.i, anchor.j)]), a, b, w, anchors, cuts + [|steps| + |part|])
  {
    var op := Equal(anchors[|cuts|].i, anchors[|cuts|].j);
    var grown, more := steps + (part + [op]), cuts + [|steps| + |part|];
    CutsGrow(steps, anchors, cuts, part);
    hide Patient, Between, Stretch, KeepsAnchors;
    BetweenLast(steps, cuts, part, op);
    forall k | 0 <= k < |more|
      ensures var part := Stretch(w, anchors, k);
              Fits(a, b, part) && Size(part) < Size(w) && Patient(Between(grown, more, k), a, b, part)
    {
      if k < |cuts| { BetweenSame(steps, cuts, part + [op], [|steps| + |part|], k); }
    }
  }

  lemma AllAnchored(steps: seq<Op>, a: seq<Line>, b: seq<Line>, w: Window, anchors: seq<Pair>, cuts: seq<nat>,
                    rest: seq<Op>)
    requires Fits(a, b, w) && AnchoredUpTo(steps, a, b, w, anchors, cuts) && |cuts| == |anchors|
    requires anchors != [] && LongestChain(a, b, w, anchors)
    requires var last := Stretch(w, anchors, |anchors|);
             Fits(a, b, last) && Size(last) < Size(w) && Patient(rest, a, b, last)
    ensures Anchored(steps + rest, a, b, w, anchors, cuts)
  {
    hide Patient, Between, Stretch, LongestChain;
    assert anchors[..|cuts|] == anchors;
    BetweenLast(steps, cuts, rest, Delete(0));
    forall k | 0 <= k <= |anchors|
      ensures var part := Stretch(w, anchors, k);
              Fits(a, b, part) && Size(part) < Size(w) && Patient(Between(steps + rest, cuts, k), a, b, part)
    {
      if k < |cuts| {
        BetweenSame(steps, cuts, rest, [], k);
        assert cuts + [] == cuts;
      }
    }
  }

  lemma StretchIs(a: seq<Line>, b: seq<Line>, w: Window, anchors: seq<Pair>, k: nat)
    requires Fits(a, b, w) && Chain(a, b, w, anchors) && anchors != [] && k <= |anchors|
    ensures var part := Stretch(w, anchors, k);
            Fits(a, b, part) && Size(part) < Size(w) && part.al == After(w, anchors, k).i && part.bl == After(w, anchors, k).j
            && (k < |anchors| ==> part == Before(After(w, anchors, k), anchors[k]))
            && (k == |anchors| ==> part == w.(al := After(w, anchors, k).i, bl := After(w, anchors, k).j))
  {
    AnchorsFit(a, b, w, anchors);
    hide UniquePair;
  }

  /** Diffs each stretch between anchors on its own, and keeps the anchors. */
  method DiffBetween(a: seq<Line>, b: seq<Line>, w: Window, anchors: seq<Pair>, out: OpList)
    returns (ghost steps: seq<Op>)
    requires Fits(a, b, w) && LongestChain(a, b, w, anchors) && anchors != []
    modifies out
    ensures out.ops == old(out.ops) + steps
    ensures Script(steps, a, b, w)
    ensures exists cuts :: Anchored(steps, a, b, w, anchors, cuts)
    decreases Size(w), 1
  {
    hide Kept, Lcs, Exact, UniquePair, Script, EditsUpTo, AnchoredUpTo, Patient, Stretch, LongestChain, Anchored, Chain;
    ghost var cuts: seq<nat> := [];
    steps := [];
    ChainOf(a, b, w, anchors);
    AnchorsFit(a, b, w, anchors);
    NoneAnchored(a, b, w, anchors);
    for k := 0 to |anchors|
      invariant |cuts| == k
      invariant out.ops == old(out.ops) + steps
      invariant EditsUpTo(a, b, w, After(w, anchors, k), steps)
      invariant AnchoredUpTo(steps, a, b, w, anchors, cuts)
    {
      StretchIs(a, b, w, anchors, k);
      ghost var part := DiffUpTo(a, b, w, After(w, anchors, k), anchors[k], out);
      EditsGrow(a, b, w, After(w, anchors, k), anchors[k], steps, part + [Equal(anchors[k].i, anchors[k].j)]);
      AnchoredGrows(steps, a, b, w, anchors, cuts, part);
      cuts := cuts + [|steps| + |part|];
      steps := steps + (part + [Equal(anchors[k].i, anchors[k].j)]);
    }
    StretchIs(a, b, w, anchors, |anchors|);
    var from := After(w, anchors, |anchors|);
    ghost var rest := DiffRange(a, b, w.(al := from.i, bl := from.j), out);
    EditsEnd(a, b, w, from, steps, rest);
    AllAnchored(steps, a, b, w, anchors, cuts, rest);
    steps := steps + rest;
  }

  lemma ChainOf(a: seq<Line>, b: seq<Line>, w: Window, chain: seq<Pair>)
    requires Fits(a, b, w) && LongestChain(a, b, w, chain)
    ensures Chain(a, b, w, chain)
  {
  }

  /** `steps` edits the window up to `from`. */
  ghost predicate EditsUpTo(a: seq<Line>, b: seq<Line>, w: Window, from: Pair, steps: seq<Op>)
    requires Fits(a, b, w)
  {
    && w.al <= from.i <= w.ah && w.bl <= from.j <= w.bh
    && Script(steps, a, b, w.(ah := from.i, bh := from.j))
  }

  lemma EditsGrow(a: seq<Line>, b: seq<Line>, w: Window, from: Pair, anchor: Pair,
                     steps: seq<Op>, part: seq<Op>)
    requires Fits(a, b, w) && EditsUpTo(a, b, w, from, steps)
    requires from.i <= anchor.i < w.ah && from.j <= anchor.j < w.bh
    requires Script(part, a, b, Window(from.i, anchor.i + 1, from.j, anchor.j + 1))
    ensures EditsUpTo(a, b, w, Pair(anchor.i + 1, anchor.j + 1), steps + part)
  {
    hide Script;
    ScriptConcat(steps, part, a, b, w.(ah := anchor.i + 1, bh := anchor.j + 1), from.i, from.j);
  }

  lemma EditsEnd(a: seq<Line>, b: seq<Line>, w: Window, from: Pair, steps: seq<Op>, rest: seq<Op>)
    requires Fits(a, b, w) && EditsUpTo(a, b, w, from, steps)
    requires Script(rest, a, b, w.(al := from.i, bl := from.j))
    ensures Script(steps + rest, a, b, w)
  {
    hide Script;
    ScriptConcat(steps, rest, a, b, w, from.i, from.j);
  }

  lemma AnchorsFit(a: seq<Line>, b: seq<Line>, w: Window, anchors: seq<Pair>)
    requires Fits(a, b, w) && Chain(a, b, w, anchors)
    ensures forall k | 0 <= k < |anchors| ::
              && UniquePair(a, b, w, anchors[k])
              && w.al <= anchors[k].i < w.ah && w.bl <= anchors[k].j < w.bh
    ensures forall k, l | 0 <= k < l < |anchors| ::
              anchors[k].i < anchors[l].i && anchors[k].j < anchors[l].j
  {
    forall k | 0 <= k < |anchors|
      ensures UniquePair(a, b, w, anchors[k])
    {
    }
  }

  /** Diffs a middle: whatever is done, it is a script for it, and an exact one where it can be. */
  method DiffMiddle(a: seq<Line>, b: seq<Line>, w: Window, out: OpList) returns (ghost steps: seq<Op>)
    requires Fits(a, b, w)
    modifies out
    ensures out.ops == old(out.ops) + steps
    ensures Script(steps, a, b, w)
    ensures w.al == w.ah || w.bl == w.bh ==> Kept(steps) == Lcs(a, b, w)
    ensures NoUniqueLine(a, b, w) && FitsTable(w) ==> Kept(steps) == Lcs(a, b, w)
    ensures PatientMiddle(steps, a, b, w)
    decreases Size(w), 2
  {
    hide Script, Kept, UniquePair, Chain, Replaces, Anchored, Greedy;
    if w.al == w.ah || w.bl == w.bh {
      steps := PushReplacement(a, b, w, out);
    } else {
      var anchors := UniqueAnchors(a, b, w);
      if anchors != [] {
        steps := DiffBetween(a, b, w, anchors, out);
      } else if (w.ah - w.al) * (w.bh - w.bl) <= LCS_CELLS_MAX {
        steps := LcsDiff(a, b, w, out);
      } else {
        steps := PushReplacement(a, b, w, out);
      }
    }
  }

  /** The patience diff of a window: always a script for it, made as a patience diff is, and where it
      is exact, one that keeps a longest common subsequence. */
  method DiffRange(a: seq<Line>, b: seq<Line>, w: Window, out: OpList) returns (ghost steps: seq<Op>)
    requires Fits(a, b, w)
    modifies out
    ensures out.ops == old(out.ops) + steps
    ensures Script(steps, a, b, w)
    ensures Exact(a, b, w) ==> Kept(steps) == Lcs(a, b, w)
    ensures Patient(steps, a, b, w)
    decreases Size(w), 3
  {
    hide Script, Kept, Lcs, UniquePair, WithoutPrefix, WithoutSuffix, PatientMiddle, Patient, KeepsFrom, SharesFirst, SharesLast, Exact, NoUniqueLine, FitsTable;
    var rest, front := PushPrefix(a, b, w, out);
    var mid, suffix := StripSuffix(a, b, rest);
    ghost var middle := DiffMiddle(a, b, mid, out);
    ghost var back := PushSuffix(a, b, mid, suffix, out);
    steps := Joined(a, b, w, mid, front, middle, back);
    ExactKeeps(a, b, w, rest, mid, Kept(front), Kept(middle), suffix);
    InnerIs(w, rest, mid, |front|, suffix);
    JoinedIsPatient(a, b, w, |front|, suffix, front, middle, back);
  }

  /** What is kept in front, in the middle and behind is all there is to keep, where the middle is
      exact. */
  lemma ExactKeeps(a: seq<Line>, b: seq<Line>, w: Window, rest: Window, mid: Window, front: nat, middle: nat, suffix: nat)
    requires Fits(a, b, w) && Fits(a, b, rest) && Fits(a, b, mid)
    requires rest == WithoutPrefix(a, b, w) && mid == WithoutSuffix(a, b, rest)
    requires front + Lcs(a, b, rest) == Lcs(a, b, w) && Lcs(a, b, mid) + suffix == Lcs(a, b, rest)
    requires mid.al == mid.ah || mid.bl == mid.bh ==> middle == Lcs(a, b, mid)
    requires NoUniqueLine(a, b, mid) && FitsTable(mid) ==> middle == Lcs(a, b, mid)
    ensures Exact(a, b, w) ==> front + middle + suffix == Lcs(a, b, w)
  {
    hide Lcs, NoUniqueLine, FitsTable, WithoutPrefix, WithoutSuffix;
  }

  lemma JoinedIsPatient(a: seq<Line>, b: seq<Line>, w: Window, n: nat, m: nat,
                        front: seq<Op>, middle: seq<Op>, back: seq<Op>)
    requires Fits(a, b, w) && w.al + n + m <= w.ah && w.bl + n + m <= w.bh && |front| == n && |back| == m
    requires KeepsFrom(front, w.al, w.bl) && KeepsFrom(back, w.ah - m, w.bh - m)
    requires a[w.al..w.al + n] == b[w.bl..w.bl + n] && !SharesFirst(a, b, Inner(w, n, 0))
    requires a[w.ah - m..w.ah] == b[w.bh - m..w.bh] && !SharesLast(a, b, Inner(w, n, m))
    requires PatientMiddle(middle, a, b, Inner(w, n, m))
    ensures Patient(front + middle + back, a, b, w)
  {
    hide *;
    ThreeParts(front, middle, back);
    var ops := front + middle + back;
    JoinedWith(ops, a, b, w, n, m);
    PatientBy(ops, a, b, w, n, m);
  }

  lemma InnerIs(w: Window, rest: Window, mid: Window, n: nat, m: nat)
    requires rest == w.(al := w.al + n, bl := w.bl + n) && rest.al <= mid.ah <= w.ah && rest.bl <= mid.bh <= w.bh
    requires mid.al == rest.al && mid.bl == rest.bl && m == w.ah - mid.ah == w.bh - mid.bh
    ensures w.al + n + m <= w.ah && w.bl + n + m <= w.bh
    ensures Inner(w, n, 0) == rest && Inner(w, n, m) == mid
  {
  }

  lemma PatientBy(ops: seq<Op>, a: seq<Line>, b: seq<Line>, w: Window, n: nat, m: nat)
    requires Fits(a, b, w) && PatientWith(ops, a, b, w, n, m)
    ensures Patient(ops, a, b, w)
  {
    hide PatientWith;
  }

  lemma JoinedWith(ops: seq<Op>, a: seq<Line>, b: seq<Line>, w: Window, n: nat, m: nat)
    requires Fits(a, b, w) && w.al + n + m <= w.ah && w.bl + n + m <= w.bh && n + m <= |ops|
    requires KeepsFrom(ops[..n], w.al, w.bl) && KeepsFrom(ops[|ops| - m..], w.ah - m, w.bh - m)
    requires a[w.al..w.al + n] == b[w.bl..w.bl + n] && !SharesFirst(a, b, Inner(w, n, 0))
    requires a[w.ah - m..w.ah] == b[w.bh - m..w.bh] && !SharesLast(a, b, Inner(w, n, m))
    requires PatientMiddle(ops[n..|ops| - m], a, b, Inner(w, n, m))
    ensures PatientWith(ops, a, b, w, n, m)
  {
    hide KeepsFrom, PatientMiddle, SharesFirst, SharesLast;
  }

  lemma ThreeParts(front: seq<Op>, middle: seq<Op>, back: seq<Op>)
    ensures var ops := front + middle + back;
            ops[..|front|] == front && ops[|ops| - |back|..] == back && ops[|front|..|ops| - |back|] == middle
  {
  }

  /** A script for what is stripped from the front, one for the middle and one for what is
      stripped from the back make one script. */
  lemma Joined(a: seq<Line>, b: seq<Line>, w: Window, mid: Window,
               front: seq<Op>, middle: seq<Op>, back: seq<Op>) returns (steps: seq<Op>)
    requires Fits(a, b, w) && Fits(a, b, mid)
    requires w.al <= mid.al && w.bl <= mid.bl && mid.ah <= w.ah && mid.bh <= w.bh
    requires Script(front, a, b, w.(ah := mid.al, bh := mid.bl))
    requires Script(middle, a, b, mid)
    requires Script(back, a, b, w.(al := mid.ah, bl := mid.bh))
    ensures steps == front + middle + back
    ensures Script(steps, a, b, w)
    ensures Kept(steps) == Kept(front) + Kept(middle) + Kept(back)
  {
    ScriptConcat(front, middle, a, b, w.(ah := mid.ah, bh := mid.bh), mid.al, mid.bl);
    ScriptConcat(front + middle, back, a, b, w, mid.ah, mid.bh);
    KeptConcat(front, middle);
    KeptConcat(front + middle, back);
    steps := front + middle + back;
  }

  // ---- what a patience diff keeps ----

  lemma {:induction false} PrefixIsInner(a: seq<Line>, b: seq<Line>, w: Window, n: nat)
    requires Fits(a, b, w) && w.al + n <= w.ah && w.bl + n <= w.bh
    requires a[w.al..w.al + n] == b[w.bl..w.bl + n] && !SharesFirst(a, b, Inner(w, n, 0))
    ensures WithoutPrefix(a, b, w) == Inner(w, n, 0)
    decreases n
  {
    if n > 0 {
      var next := w.(al := w.al + 1, bl := w.bl + 1);
      assert a[w.al] == a[w.al..w.al + n][0] == b[w.bl..w.bl + n][0] == b[w.bl];
      assert a[next.al..next.al + (n - 1)] == a[w.al..w.al + n][1..];
      assert b[next.bl..next.bl + (n - 1)] == b[w.bl..w.bl + n][1..];
      PrefixIsInner(a, b, next, n - 1);
    }
  }

  lemma {:induction false} SuffixIsInner(a: seq<Line>, b: seq<Line>, w: Window, m: nat)
    requires Fits(a, b, w) && w.al + m <= w.ah && w.bl + m <= w.bh
    requires a[w.ah - m..w.ah] == b[w.bh - m..w.bh] && !SharesLast(a, b, Inner(w, 0, m))
    ensures WithoutSuffix(a, b, w) == Inner(w, 0, m)
    decreases m
  {
    if m > 0 {
      var next := w.(ah := w.ah - 1, bh := w.bh - 1);
      assert a[w.ah - 1] == a[w.ah - m..w.ah][m - 1] == b[w.bh - m..w.bh][m - 1] == b[w.bh - 1];
      assert a[next.ah - (m - 1)..next.ah] == a[w.ah - m..w.ah][..m - 1];
      assert b[next.bh - (m - 1)..next.bh] == b[w.bh - m..w.bh][..m - 1];
      SuffixIsInner(a, b, next, m - 1);
    }
  }

  lemma {:induction false} KeptAll(ops: seq<Op>, i: nat, j: nat)
    requires KeepsFrom(ops, i, j)
    ensures Kept(ops) == |ops|
  {
    if ops != [] {
      forall k | 0 <= k < |ops| - 1
        ensures ops[1..][k] == Equal(i + 1 + k, j + 1 + k)
      {
        assert ops[1..][k] == ops[k + 1];
      }
      KeptAll(ops[1..], i + 1, j + 1);
    }
  }

  lemma {:induction false} KeptAtCuts(ops: seq<Op>, cuts: seq<nat>)
    requires forall k | 0 <= k < |cuts| :: cuts[k] < |ops| && ops[cuts[k]].Equal?
    requires forall k, l | 0 <= k < l < |cuts| :: cuts[k] < cuts[l]
    ensures Kept(ops) >= |cuts|
    decreases |cuts|
  {
    if cuts != [] {
      var last := cuts[|cuts| - 1];
      KeptAtCuts(ops[..last], cuts[..|cuts| - 1]);
      assert ops == ops[..last] + ([ops[last]] + ops[last + 1..]);
      KeptConcat(ops[..last], [ops[last]] + ops[last + 1..]);
      KeptConcat([ops[last]], ops[last + 1..]);
      assert Kept([ops[last]]) == 1 by { assert [ops[last]][1..] == []; }
    }
  }

  /** A patience diff keeps every line that both sides start or end with, and between them at least
      as many as there are in any chain of unique lines. */
  lemma AnchorsAreKept(ops: seq<Op>, a: seq<Line>, b: seq<Line>, w: Window, chain: seq<Pair>)
    requires Fits(a, b, w) && Patient(ops, a, b, w) && Chain(a, b, Middle(a, b, w), chain)
    ensures var mid := Middle(a, b, w);
            Kept(ops) >= (mid.al - w.al) + |chain| + (w.ah - mid.ah)
  {
    hide Kept, Chain, PatientMiddle, KeepsFrom, SharesFirst, SharesLast, WithoutPrefix, WithoutSuffix;
    var n: nat, m: nat :| PatientWith(ops, a, b, w, n, m);
    var rest := Inner(w, n, 0);
    PrefixIsInner(a, b, w, n);
    assert Inner(rest, 0, m) == Inner(w, n, m);
    SuffixIsInner(a, b, rest, m);
    var front, middle, back := ops[..n], ops[n..|ops| - m], ops[|ops| - m..];
    assert ops == front + (middle + back);
    KeptConcat(front, middle + back);
    KeptConcat(middle, back);
    KeptAll(front, w.al, w.bl);
    KeptAll(back, w.ah - m, w.bh - m);
    MiddleKeepsChain(middle, a, b, Inner(w, n, m), chain);
  }

  lemma MiddleKeepsChain(ops: seq<Op>, a: seq<Line>, b: seq<Line>, w: Window, chain: seq<Pair>)
    requires Fits(a, b, w) && PatientMiddle(ops, a, b, w) && Chain(a, b, w, chain)
    ensures Kept(ops) >= |chain|
  {
    hide Kept, Replaces, Lcs, Script, Greedy;
    if chain != [] {
      assert UniquePair(a, b, w, chain[0]);
      var longest, cuts :| Anchored(ops, a, b, w, longest, cuts);
      KeptAtCuts(ops, cuts);
    }
  }

  /** The edit script from `a` to `b`. It is always one, and no valid script is cheaper wherever
      the middle left after stripping has no unique line and fits the table. */
  method DiffLines(a: seq<Line>, b: seq<Line>) returns (ops: seq<Op>)
    ensures Script(ops, a, b, Whole(a, b))
    ensures Exact(a, b, Whole(a, b)) ==> Minimal(ops, a, b, Whole(a, b))
    ensures Patient(ops, a, b, Whole(a, b))
    ensures a == b ==> Kept(ops) == |a|
  {
    hide Patient;
    var out := new OpList();
    ghost var steps := DiffRange(a, b, Whole(a, b), out);
    assert [] + steps == steps;
    ops := out.ops;
    if Exact(a, b, Whole(a, b)) {
      LcsScriptIsMinimal(ops, a, b, Whole(a, b));
    }
    if a == b {
      SameLinesStripped(a, Whole(a, a));
      LcsOfSame(a, Whole(a, a));
    }
  }

  /** Equal ranges are all prefix. */
  lemma {:induction false} SameLinesStripped(a: seq<Line>, w: Window)
    requires Fits(a, a, w) && w.al == w.bl && w.ah == w.bh
    ensures Exact(a, a, w)
    decreases w.ah - w.al
  {
    if w.al < w.ah {
      SameLinesStripped(a, w.(al := w.al + 1, bl := w.bl + 1));
    }
  }

  lemma {:induction false} LcsOfSame(a: seq<Line>, w: Window)
    requires Fits(a, a, w) && w.al == w.bl && w.ah == w.bh
    ensures Lcs(a, a, w) == w.ah - w.al
    decreases w.ah - w.al
  {
    if w.al < w.ah {
      LcsOfSame(a, w.(al := w.al + 1, bl := w.bl + 1));
    }
  }
}
