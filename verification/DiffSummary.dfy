/** What the summary of a diff, and its notice, are worth (`src/diff.rs`). */
module DiffSummary {
  import opened EditScript
  import opened Hunks
  import opened Text
  import opened UnifiedDiff

  // ---- counts ----

  datatype Tally = Tally(added: nat, removed: nat)

  function Sum(s: Tally, t: Tally): Tally {
    Tally(s.added + t.added, s.removed + t.removed)
  }

  /** What `counts` makes of one diff line. */
  function CountLine(line: string): Tally {
    if StartsWith(line, "+++") || StartsWith(line, "---") then Tally(0, 0)
    else if StartsWith(line, "+") then Tally(1, 0)
    else if StartsWith(line, "-") then Tally(0, 1)
    else Tally(0, 0)
  }

  /** How many lines a diff adds and removes, from its text. */
  method Counts(diff: string) returns (t: Tally)
    ensures t == CountText(diff)
  {
    t := Tally(0, 0);
    var lines := Lines(diff);
    for k := 0 to |lines|
      invariant t == CountLines(lines[..k])
    {
      assert lines[..k + 1][..k] == lines[..k];
      t := Sum(t, CountLine(lines[k]));
    }
    assert lines[..|lines|] == lines;
  }

  function CountText(diff: string): Tally {
    CountLines(Lines(diff))
  }

  function CountLines(diff: seq<string>): Tally {
    if diff == [] then Tally(0, 0)
    else Sum(CountLines(diff[..|diff| - 1]), CountLine(diff[|diff| - 1]))
  }

  lemma {:induction false} CountConcat(front: seq<string>, back: seq<string>)
    ensures CountLines(front + back) == Sum(CountLines(front), CountLines(back))
  {
    hide CountLine;
    if back == [] {
      assert front + back == front;
    } else {
      CountConcat(front, back[..|back| - 1]);
      assert (front + back)[..|front + back| - 1] == front + back[..|back| - 1];
    }
  }

  /** A change `counts` does not see: an added line that starts with `++`, or a removed one that
      starts with `--`, prints like a file header. */
  predicate Hidden(op: Op, a: seq<Line>, b: seq<Line>) {
    match op
    case Equal(_, _) => false
    case Delete(i) => i < |a| && StartsWith(a[i], "--")
    case Insert(j) => j < |b| && StartsWith(b[j], "++")
  }

  /** The changes among the first `k` steps: all of them, or those that can be seen. */
  function Changes(ops: seq<Op>, a: seq<Line>, b: seq<Line>, k: nat, hiddenToo: bool): Tally
    requires k <= |ops|
  {
    if k == 0 then Tally(0, 0)
    else
      var op := ops[k - 1];
      Sum(Changes(ops, a, b, k - 1, hiddenToo),
          if !hiddenToo && Hidden(op, a, b) then Tally(0, 0)
          else match op
               case Equal(_, _) => Tally(0, 0)
               case Delete(_) => Tally(0, 1)
               case Insert(_) => Tally(1, 0))
  }

  lemma CountOp(op: Op, a: seq<Line>, b: seq<Line>)
    requires InRange([op], a, b)
    ensures CountLine(OpText(op, a, b))
         == if Hidden(op, a, b) then Tally(0, 0)
            else match op
                 case Equal(_, _) => Tally(0, 0)
                 case Delete(_) => Tally(0, 1)
                 case Insert(_) => Tally(1, 0)
  {
    assert [op][0] == op;
    var text := OpText(op, a, b);
    match op
    case Equal(i, _) => assert text[0] == ' ';
    case Delete(i) =>
      assert text[0] == '-' && text[1..] == a[i];
      PrefixTail(text, "---");
    case Insert(j) =>
      assert text[0] == '+' && text[1..] == b[j];
      PrefixTail(text, "+++");
  }

  lemma PrefixTail(s: string, prefix: string)
    requires s != "" && prefix != "" && s[0] == prefix[0]
    ensures StartsWith(s, prefix) <==> StartsWith(s[1..], prefix[1..])
  {
    assert s == [s[0]] + s[1..] && prefix == [prefix[0]] + prefix[1..];
    if |prefix| <= |s| {
      assert s[1..][..|prefix| - 1] == s[..|prefix|][1..];
    }
  }

  lemma CountSnoc(lines: seq<string>, line: string)
    ensures CountLines(lines + [line]) == Sum(CountLines(lines), CountLine(line))
  {
    assert (lines + [line])[..|lines|] == lines;
  }

  lemma CountOne(line: string)
    ensures CountLines([line]) == CountLine(line)
  {
    CountSnoc([], line);
    assert [] + [line] == [line];
  }

  lemma CountStep(ops: seq<Op>, a: seq<Line>, b: seq<Line>, k: nat)
    requires k < |ops| && InRange([ops[k]], a, b)
    ensures Sum(Changes(ops, a, b, k, false), CountLine(OpText(ops[k], a, b)))
         == Changes(ops, a, b, k + 1, false)
  {
    CountOp(ops[k], a, b);
  }

  lemma {:induction false} CountBody(ops: seq<Op>, a: seq<Line>, b: seq<Line>, lo: nat, hi: nat)
    requires lo <= hi <= |ops| && InRange(ops[lo..hi], a, b)
    ensures Sum(Changes(ops, a, b, lo, false), CountLines(BodyText(ops[lo..hi], a, b)))
         == Changes(ops, a, b, hi, false)
    decreases hi - lo
  {
    hide CountLine, Changes, BodyText, CountLines, Hidden;
    var part := ops[lo..hi];
    if lo == hi {
      EmptyBody(part, a, b);
    } else {
      assert part[0] == ops[lo] && part[1..] == ops[lo + 1..hi];
      BodyCons(part, a, b);
      CountStep(ops, a, b, lo);
      CountBody(ops, a, b, lo + 1, hi);
      CountConcat([OpText(ops[lo], a, b)], BodyText(part[1..], a, b));
      CountOne(OpText(ops[lo], a, b));
    }
  }

  lemma EmptyBody(ops: seq<Op>, a: seq<Line>, b: seq<Line>)
    requires ops == [] && InRange(ops, a, b)
    ensures CountLines(BodyText(ops, a, b)) == Tally(0, 0)
  {
  }

  lemma BodyCons(ops: seq<Op>, a: seq<Line>, b: seq<Line>)
    requires ops != [] && InRange(ops, a, b)
    ensures InRange([ops[0]], a, b) && InRange(ops[1..], a, b)
    ensures BodyText(ops, a, b) == [OpText(ops[0], a, b)] + BodyText(ops[1..], a, b)
  {
  }

  lemma {:induction false} CountGap(ops: seq<Op>, a: seq<Line>, b: seq<Line>, lo: nat, hi: nat)
    requires lo <= hi <= |ops| && OnlyEqual(ops, lo, hi)
    ensures Changes(ops, a, b, lo, false) == Changes(ops, a, b, hi, false)
    decreases hi - lo
  {
    if lo < hi {
      CountGap(ops, a, b, lo, hi - 1);
    }
  }

  lemma CountHunk(ops: seq<Op>, a: seq<Line>, b: seq<Line>, h: Hunk)
    requires HunkFits(ops, h, a, b)
    ensures CountLines(HunkText(ops[h.lo..h.hi], a, b)) == CountLines(BodyText(ops[h.lo..h.hi], a, b))
  {
    var part := ops[h.lo..h.hi];
    var header := HeaderText(SpanOf(FirstOld(part), CountOld(part)), SpanOf(FirstNew(part), CountNew(part)));
    assert header[0] == '@';
    assert CountLine(header) == Tally(0, 0);
    hide CountLine, HeaderText;
    CountConcat([header], BodyText(part, a, b));
    CountOne(header);
  }

  /** The first `n` hunks count what is seen up to their end. */
  ghost predicate Counted(ops: seq<Op>, a: seq<Line>, b: seq<Line>, hunks: seq<Hunk>, n: nat)
    requires n <= |hunks|
  {
    && HunksFit(ops, hunks[..n], a, b) && Until(hunks, n) <= |ops|
    && CountLines(DiffText(ops, hunks[..n], a, b)) == Changes(ops, a, b, Until(hunks, n), false)
  }

  lemma CountNext(ops: seq<Op>, a: seq<Line>, b: seq<Line>, hunks: seq<Hunk>, n: nat)
    requires n < |hunks| && Counted(ops, a, b, hunks, n) && HunkFits(ops, hunks[n], a, b)
    requires Until(hunks, n) <= hunks[n].lo && Gap(ops, hunks, n)
    ensures Counted(ops, a, b, hunks, n + 1)
  {
    var h := hunks[n];
    hide CountLine, CountLines, Changes, HunksFit, HunkText, InRange, DiffText, BodyText, Hidden, OnlyEqual;
    DiffTextSnoc(ops, hunks[..n], h, a, b);
    assert hunks[..n + 1] == hunks[..n] + [h];
    CountGap(ops, a, b, Until(hunks, n), h.lo);
    CountBody(ops, a, b, h.lo, h.hi);
    CountHunk(ops, a, b, h);
    CountConcat(DiffText(ops, hunks[..n], a, b), HunkText(ops[h.lo..h.hi], a, b));
  }

  lemma {:induction false} CountHunks(
    ops: seq<Op>, a: seq<Line>, b: seq<Line>, hunks: seq<Hunk>, n: nat)
    requires HunksOf(ops, hunks) && HunksFit(ops, hunks, a, b) && n <= |hunks|
    ensures Counted(ops, a, b, hunks, n)
  {
    if n == 0 {
      assert hunks[..0] == [];
    } else {
      CountHunks(ops, a, b, hunks, n - 1);
      assert HunkFits(ops, hunks[n - 1], a, b) && Gap(ops, hunks, n - 1);
      hide Counted, HunkFits, Gap;
      CountNext(ops, a, b, hunks, n - 1);
    }
  }

  lemma {:induction false} HiddenAreLost(ops: seq<Op>, a: seq<Line>, b: seq<Line>, k: nat)
    requires k <= |ops|
    requires forall m | 0 <= m < |ops| :: InRange([ops[m]], a, b)
    ensures var all, seen := Changes(ops, a, b, k, true), Changes(ops, a, b, k, false);
            && seen.added <= all.added && seen.removed <= all.removed
            && (seen == all <==> forall m | 0 <= m < k :: !Hidden(ops[m], a, b))
  {
    if k > 0 {
      HiddenAreLost(ops, a, b, k - 1);
    }
  }

  lemma LabelUncounted(line: string)
    requires |line| >= 3 && (line[..3] == "---" || line[..3] == "+++")
    ensures CountLine(line) == Tally(0, 0)
  {
  }

  lemma CountTwoLabels(first: string, second: string)
    requires |first| >= 3 && first[..3] == "---" && |second| >= 3 && second[..3] == "+++"
    ensures CountLines([first] + [second]) == Tally(0, 0)
  {
    LabelUncounted(first);
    LabelUncounted(second);
    hide CountLine, CountLines;
    CountOne(first);
    CountSnoc([first], second);
  }

  lemma LabelStarts(name: string)
    ensures ("--- " + name)[..3] == "---" && ("+++ " + name)[..3] == "+++"
  {
  }

  lemma CountLabels(oldLabel: string, newLabel: string)
    ensures CountLines(["--- " + oldLabel] + ["+++ " + newLabel]) == Tally(0, 0)
  {
    hide CountLine, CountLines;
    LabelStarts(oldLabel);
    LabelStarts(newLabel);
    CountTwoLabels("--- " + oldLabel, "+++ " + newLabel);
  }

  /** What is counted is what of the script can be seen, whatever the labels. */
  lemma CountsAreOfTheSeen(
    ops: seq<Op>, a: seq<Line>, b: seq<Line>, hunks: seq<Hunk>, oldLabel: string, newLabel: string)
    requires IsScript(ops, a, b) && HunksOf(ops, hunks) && HunksFit(ops, hunks, a, b)
    ensures CountLines(LabelLines(oldLabel, newLabel) + DiffText(ops, hunks, a, b))
         == Changes(ops, a, b, |ops|, false)
  {
    var labels := LabelLines(oldLabel, newLabel);
    CountLabels(oldLabel, newLabel);
    assert labels == ["--- " + oldLabel] + ["+++ " + newLabel];
    CountConcat(labels, DiffText(ops, hunks, a, b));
    CountHunks(ops, a, b, hunks, |hunks|);
    assert hunks[..|hunks|] == hunks;
    CountGap(ops, a, b, Until(hunks, |hunks|), |ops|);
  }

  lemma StartsBare(line: string, prefix: string)
    requires '\r' !in prefix
    ensures StartsWith(Bare(line), prefix) <==> StartsWith(line, prefix)
  {
    if EndsInReturn(line) && |prefix| == |line| {
      assert prefix[|line| - 1] in prefix;
    }
  }

  /** A carriage return at the end of a line does not matter to what it counts as. */
  lemma CountBare(line: string)
    ensures CountLine(Bare(line)) == CountLine(line)
  {
    StartsBare(line, "+++");
    StartsBare(line, "---");
    StartsBare(line, "+");
    StartsBare(line, "-");
  }

  lemma {:induction false} CountBared(lines: seq<string>)
    ensures CountLines(Bared(lines)) == CountLines(lines)
  {
    hide CountLine, Bare;
    if lines != [] {
      var front, last := lines[..|lines| - 1], lines[|lines| - 1];
      assert lines == front + [last];
      CountBared(front);
      BaredConcat(front, [last]);
      BaredCons(last, []);
      assert [last] + [] == [last] && [Bare(last)] + Bared([]) == [Bare(last)];
      CountSnoc(Bared(front), Bare(last));
      CountBare(last);
    }
  }

  /** So it is when the lines are read from the text. */
  lemma TextCountsTheSeen(
    ops: seq<Op>, a: seq<Line>, b: seq<Line>, hunks: seq<Hunk>, oldLabel: string, newLabel: string)
    requires IsScript(ops, a, b) && HunksOf(ops, hunks) && HunksFit(ops, hunks, a, b)
    requires Unbroken(a) && Unbroken(b) && Unbroken([oldLabel, newLabel])
    ensures CountText(Unlines(LabelLines(oldLabel, newLabel) + DiffText(ops, hunks, a, b)))
         == Changes(ops, a, b, |ops|, false)
  {
    hide CountLine, CountLines, Changes, HunksFit, DiffText, HunksOf, IsScript, Unlines, Lines;
    var labels := LabelLines(oldLabel, newLabel);
    CountsAreOfTheSeen(ops, a, b, hunks, oldLabel, newLabel);
    LabelsUnbroken(oldLabel, newLabel);
    DiffUnbroken(ops, a, b, hunks);
    UnbrokenConcat(labels, DiffText(ops, hunks, a, b));
    LinesReadAgain(labels + DiffText(ops, hunks, a, b));
    CountBared(labels + DiffText(ops, hunks, a, b));
  }

  /** The counts of a diff's text are its script's insertions and deletions exactly when no added
      line starts with `++` and no removed one with `--`. */
  lemma CountsAreExactUnlessHidden(
    ops: seq<Op>, a: seq<Line>, b: seq<Line>, hunks: seq<Hunk>, oldLabel: string, newLabel: string)
    requires IsScript(ops, a, b) && HunksOf(ops, hunks) && HunksFit(ops, hunks, a, b)
    requires Unbroken(a) && Unbroken(b) && Unbroken([oldLabel, newLabel])
    ensures CountText(Unlines(LabelLines(oldLabel, newLabel) + DiffText(ops, hunks, a, b)))
            == Changes(ops, a, b, |ops|, true)
       <==> forall k | 0 <= k < |ops| :: !Hidden(ops[k], a, b)
  {
    hide CountText, Changes, HunksFit, DiffText, Hidden, HunksOf, IsScript, Unlines;
    TextCountsTheSeen(ops, a, b, hunks, oldLabel, newLabel);
    forall m | 0 <= m < |ops|
      ensures InRange([ops[m]], a, b)
    {
      ScriptInRange(ops, a, b, m, m + 1);
      assert ops[m..m + 1] == [ops[m]];
    }
    HiddenAreLost(ops, a, b, |ops|);
  }

  lemma LabelsUnbroken(oldLabel: string, newLabel: string)
    requires Unbroken([oldLabel, newLabel])
    ensures Unbroken(LabelLines(oldLabel, newLabel))
  {
    assert [oldLabel, newLabel][0] == oldLabel && [oldLabel, newLabel][1] == newLabel;
    assert '\n' !in "--- " && '\n' !in "+++ ";
  }

  /** A file that gains one line after its only one. If that line is `++b`, say, its diff has one
      insertion, and is counted as adding nothing. */
  lemma AnAddedLineNotCounted(
    a: seq<Line>, b: seq<Line>, ops: seq<Op>, hunks: seq<Hunk>, oldLabel: string, newLabel: string)
    requires |a| == 1 && |b| == 2 && a[0] == b[0] && StartsWith(b[1], "++")
    requires |ops| == 2 && ops[0] == Equal(0, 0) && ops[1] == Insert(1)
    requires HunksOf(ops, hunks) && HunksFit(ops, hunks, a, b)
    requires Unbroken(a) && Unbroken(b) && Unbroken([oldLabel, newLabel])
    ensures IsScript(ops, a, b)
    ensures Changes(ops, a, b, |ops|, true) == Tally(1, 0)
    ensures CountText(Unlines(LabelLines(oldLabel, newLabel) + DiffText(ops, hunks, a, b))) == Tally(0, 0)
  {
    assert Hidden(ops[1], a, b);
    hide Hidden, StartsWith, HunksOf, HunksFit, DiffText, Lines, Unlines;
    assert Script(ops[1..][1..], a, b, Window(1, 1, 2, 2));
    assert Script(ops[1..], a, b, Window(1, 1, 1, 2));
    OnlyEqualCounts(ops, a, b, |ops| - 1, true);
    OnlyEqualCounts(ops, a, b, |ops| - 1, false);
    TextCountsTheSeen(ops, a, b, hunks, oldLabel, newLabel);
  }

  lemma OnlyEqualCounts(ops: seq<Op>, a: seq<Line>, b: seq<Line>, k: nat, hiddenToo: bool)
    requires k == 1 && |ops| > 1 && ops[0].Equal?
    ensures Changes(ops, a, b, k, hiddenToo) == Tally(0, 0)
  {
  }

  // ---- the notice ----

  /** What the notice says: both sides are there, and differ in the final line break. */
  predicate NoticeIsTrue(before: Option<string>, after: Option<string>) {
    match (before, after)
    case (Some(s), Some(t)) => s == t + "\n" || t == s + "\n"
    case _ => false
  }

  /** When the notice is printed, for two sides that differ but have the same lines, it is true if
      and only if both are there and the same lines of both are ended by `\r\n`. */
  lemma NoticeIsTrueExactly(before: Option<string>, after: Option<string>)
    requires before != after && LinesOf(before) == LinesOf(after)
    ensures NoticeIsTrue(before, after)
       <==> before.Some? && after.Some? && Returns(before.value) == Returns(after.value)
  {
    hide Lines, Returns;
    match (before, after)
    case (Some(s), Some(t)) => FinalBreakAlone(s, t);
    case _ =>
  }

  /** So it is true of any two texts without carriage returns. */
  lemma NoticeIsTrueWithoutReturns(s: string, t: string)
    requires '\r' !in s && '\r' !in t
    requires Lines(s) == Lines(t) && s != t
    ensures s == t + "\n" || t == s + "\n"
  {
    NoReturnsAtAll(s);
    NoReturnsAtAll(t);
    FinalBreakAlone(s, t);
  }

  lemma {:induction false} NoReturnsAtAll(s: string)
    requires '\r' !in s
    ensures |Returns(s)| == |Lines(s)| && forall k | 0 <= k < |Returns(s)| :: !Returns(s)[k]
    decreases |s|
  {
    if s != "" {
      NoReturnsAtAll(s[LineEnd(s)..]);
    }
  }

  /** It is wrong of a text and one that differs in nothing but a carriage return before a line
      break, `a\r\nb\n` and `a\nb\n` say. */
  lemma NoticeMissesAReturn(line: string, rest: string)
    requires '\n' !in line && !EndsInReturn(line)
    ensures var before, after := Some(line + "\r" + "\n" + rest), Some(line + "\n" + rest);
            before != after && LinesOf(before) == LinesOf(after) && !NoticeIsTrue(before, after)
  {
    hide Lines;
    ReturnIsDropped(line, rest);
    var s, t := line + "\r" + "\n" + rest, line + "\n" + rest;
    assert s[|line|] == '\r' && t[|line|] == '\n' && (t + "\n")[|line|] == '\n';
  }

  /** And it is of an empty file that is made or removed: there is no line, nor a line break. */
  lemma NoticeMissesAMissingFile()
    ensures var before, after := None, Some("");
            before != after && LinesOf(before) == LinesOf(after) && !NoticeIsTrue(before, after)
  {
    NothingWritten();
  }

  lemma ReturnIsDropped(line: string, rest: string)
    requires '\n' !in line && !EndsInReturn(line)
    ensures Lines(line + "\r" + "\n" + rest) == Lines(line + "\n" + rest)
  {
    LinesCons(line + "\r", rest);
    LinesCons(line, rest);
    assert (line + "\r" + "\n")[..|line| + 1] == line + "\r" && (line + "\r")[..|line|] == line;
  }
}
