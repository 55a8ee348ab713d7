/** The unified diff as text, and what `patch` makes of it (`src/diff.rs`). */
module UnifiedDiff {
  import opened EditScript
  import opened Hunks
  import opened Text
  import PatienceDiff

  // ---- writing ----

  /** The numbers a header gives for one side. */
  datatype Span = Span(start: nat, len: nat)

  function SpanText(s: Span): string {
    PrintNat(s.start) + "," + PrintNat(s.len)
  }

  /** The first old index in `ops`, and the first new one. */
  function FirstOld(ops: seq<Op>): Option<nat> {
    if ops == [] then None
    else match ops[0]
         case Equal(i, _) => Some(i)
         case Delete(i) => Some(i)
         case Insert(_) => FirstOld(ops[1..])
  }

  function FirstNew(ops: seq<Op>): Option<nat> {
    if ops == [] then None
    else match ops[0]
         case Equal(_, j) => Some(j)
         case Insert(j) => Some(j)
         case Delete(_) => FirstNew(ops[1..])
  }

  function CountOld(ops: seq<Op>): nat {
    if ops == [] then 0 else (if ops[0].Insert? then 0 else 1) + CountOld(ops[1..])
  }

  function CountNew(ops: seq<Op>): nat {
    if ops == [] then 0 else (if ops[0].Delete? then 0 else 1) + CountNew(ops[1..])
  }

  /** Where a hunk starts on one side, counted from one, and how many lines it has there. */
  function SpanOf(start: Option<nat>, len: nat): Span {
    match start
    case Some(first) => Span(first + 1, len)
    case None => Span(0, 0)
  }

  function HeaderText(oldSpan: Span, newSpan: Span): string {
    "@@ -" + SpanText(oldSpan) + " +" + SpanText(newSpan) + " @@"
  }

  /** Every index of `ops` is one its side has. */
  predicate InRange(ops: seq<Op>, a: seq<Line>, b: seq<Line>) {
    forall k | 0 <= k < |ops| ::
      match ops[k]
      case Equal(i, j) => i < |a| && j < |b|
      case Delete(i) => i < |a|
      case Insert(j) => j < |b|
  }

  function BodyText(ops: seq<Op>, a: seq<Line>, b: seq<Line>): seq<string>
    requires InRange(ops, a, b)
  {
    if ops == [] then []
    else
      [match ops[0]
       case Equal(i, _) => " " + a[i]
       case Delete(i) => "-" + a[i]
       case Insert(j) => "+" + b[j]]
      + BodyText(ops[1..], a, b)
  }

  /** One hunk's lines. */
  function HunkText(ops: seq<Op>, a: seq<Line>, b: seq<Line>): seq<string>
    requires InRange(ops, a, b)
  {
    [HeaderText(SpanOf(FirstOld(ops), CountOld(ops)), SpanOf(FirstNew(ops), CountNew(ops)))]
    + BodyText(ops, a, b)
  }

  lemma UnlinesCons(line: string, lines: seq<string>)
    ensures Unlines([line] + lines) == line + "\n" + Unlines(lines)
  {
    assert ([line] + lines)[1..] == lines;
  }

  /** Prints a hunk's header and body after what is there. */
  method WriteHunk(out: string, ops: seq<Op>, a: seq<Line>, b: seq<Line>) returns (written: string)
    requires InRange(ops, a, b)
    ensures written == out + Unlines(HunkText(ops, a, b))
  {
    hide Unlines, HeaderText;
    var oldSpan := SpanOf(FirstOld(ops), CountOld(ops));
    var newSpan := SpanOf(FirstNew(ops), CountNew(ops));
    written := out + HeaderText(oldSpan, newSpan) + "\n";
    UnlinesCons(HeaderText(oldSpan, newSpan), BodyText(ops, a, b));
    for k := 0 to |ops|
      invariant written + Unlines(BodyText(ops[k..], a, b)) == out + Unlines(HunkText(ops, a, b))
    {
      assert ops[k..][1..] == ops[k + 1..];
      var line := match ops[k]
        case Equal(i, _) => " " + a[i]
        case Delete(i) => "-" + a[i]
        case Insert(j) => "+" + b[j];
      assert BodyText(ops[k..], a, b) == [line] + BodyText(ops[k + 1..], a, b);
      UnlinesCons(line, BodyText(ops[k + 1..], a, b));
      written := written + line + "\n";
    }
    NothingWritten();
  }

  // ---- reading, as `patch` does ----

  /** Which way a diff is applied: forwards to the old file, or in reverse to the new one. */
  datatype Side = Old | New

  /** What a diff line tells `patch`. */
  datatype Read = At(span: Span) | Keep(text: Line) | Drop(text: Line) | Add(text: Line) | Nothing

  predicate IsSeparator(c: char) {
    c == ',' || c == ' '
  }

  /** A header's fields: `split` on commas and spaces. */
  function Fields(s: string): (fields: seq<string>)
    ensures fields != []
  {
    if s == "" then [""]
    else
      var rest := Fields(s[1..]);
      if IsSeparator(s[0]) then [""] + rest else [[s[0]] + rest[0]] + rest[1..]
  }

  /** The numbers of one side of a header. */
  function ReadSpan(start: string, len: string): Option<Span> {
    match (ParseNat(start), ParseNat(len))
    case (Some(first), Some(count)) => Some(Span(first, count))
    case _ => None
  }

  /** One line of a diff, for a side. `None` is a header that has no such numbers. */
  function ReadLine(line: string, side: Side): Option<Read> {
    if StartsWith(line, "@@ -") then
      var fields := Fields(line[4..]);
      var span :=
        match side
        case Old => if |fields| < 2 then None else ReadSpan(fields[0], fields[1])
        case New =>
          if |fields| < 4 || !StartsWith(fields[2], "+") then None
          else ReadSpan(fields[2][1..], fields[3]);
      match span
      case None => None
      case Some(s) => Some(At(s))
    else if StartsWith(line, " ") then Some(Keep(line[1..]))
    else if StartsWith(line, "-") then Some(if side.Old? then Drop(line[1..]) else Add(line[1..]))
    else if StartsWith(line, "+") then Some(if side.Old? then Add(line[1..]) else Drop(line[1..]))
    else Some(Nothing)
  }

  /** What is written so far, and the next line not yet copied. */
  datatype Progress = Progress(out: seq<Line>, next: nat)

  /** Acts on one line. `None` is a hunk that does not apply. */
  function Act(from: seq<Line>, p: Progress, read: Read): Option<Progress> {
    match read
    case At(span) =>
      // A zero-length side names the line it comes after.
      if span.len != 0 && span.start == 0 then None
      else
        var begin := if span.len == 0 then span.start else span.start - 1;
        if p.next <= begin <= |from| then Some(Progress(p.out + from[p.next..begin], begin)) else None
    case Keep(text) =>
      if p.next < |from| && from[p.next] == text then Some(Progress(p.out + [text], p.next + 1)) else None
    case Drop(text) =>
      if p.next < |from| && from[p.next] == text then Some(Progress(p.out, p.next + 1)) else None
    case Add(text) => Some(Progress(p.out + [text], p.next))
    case Nothing => Some(p)
  }

  function Run(from: seq<Line>, p: Progress, lines: seq<string>, side: Side): Option<Progress>
    decreases |lines|
  {
    if lines == [] then Some(p)
    else
      match ReadLine(lines[0], side)
      case None => None
      case Some(read) =>
        match Act(from, p, read)
        case None => None
        case Some(q) => Run(from, q, lines[1..], side)
  }

  /** Applies a diff, skipping its two label lines. */
  function Patch(from: seq<Line>, diff: seq<string>, side: Side): Option<seq<Line>> {
    if |diff| < 2 then None
    else
      match Run(from, Progress([], 0), diff[2..], side)
      case None => None
      case Some(p) => if p.next <= |from| then Some(p.out + from[p.next..]) else None
  }

  lemma {:induction false} RunConcat(
    from: seq<Line>, p: Progress, front: seq<string>, back: seq<string>, side: Side)
    ensures Run(from, p, front + back, side)
         == match Run(from, p, front, side)
            case None => None
            case Some(q) => Run(from, q, back, side)
    decreases |front|
  {
    if front == [] {
      assert front + back == back;
    } else {
      assert (front + back)[1..] == front[1..] + back;
      match ReadLine(front[0], side)
      case None =>
      case Some(read) =>
        match Act(from, p, read)
        case None =>
        case Some(q) => RunConcat(from, q, front[1..], back, side);
    }
  }

  // ---- a printed header reads back ----

  lemma {:induction false} FieldsHead(field: string, c: char, rest: string)
    requires forall d | d in field :: !IsSeparator(d)
    requires IsSeparator(c)
    ensures Fields(field + [c] + rest) == [field] + Fields(rest)
  {
    var s := field + [c] + rest;
    if field == "" {
      assert s[1..] == rest;
    } else {
      assert s[1..] == field[1..] + [c] + rest;
      FieldsHead(field[1..], c, rest);
      assert [s[0]] + field[1..] == field;
    }
  }

  predicate OneField(field: string) {
    forall c | c in field :: !IsSeparator(c)
  }

  lemma SpanFields(start: string, len: string, rest: string)
    requires OneField(start) && OneField(len)
    ensures Fields(start + "," + len + " " + rest) == [start, len] + Fields(rest)
  {
    assert start + "," + len + " " + rest == start + [','] + (len + [' '] + rest);
    FieldsHead(start, ',', len + [' '] + rest);
    FieldsHead(len, ' ', rest);
  }

  lemma HeaderFields(s: string, t: string, u: string, v: string)
    requires OneField(s) && OneField(t) && OneField(u) && OneField(v)
    ensures var fields := Fields(s + "," + t + " " + ("+" + u + "," + v + " " + "@@"));
            |fields| >= 4 && fields[..4] == [s, t, "+" + u, v]
  {
    SpanFields(s, t, "+" + u + "," + v + " " + "@@");
    SpanFields("+" + u, v, "@@");
  }

  lemma HeaderShape(s: string, t: string, u: string, v: string)
    ensures var line := "@@ -" + (s + "," + t) + " +" + (u + "," + v) + " @@";
            && StartsWith(line, "@@ -")
            && line[4..] == s + "," + t + " " + ("+" + u + "," + v + " " + "@@")
  {
    assert " +" == " " + "+" && " @@" == " " + "@@";
  }

  /** Reading a header whose numbers are texts. */
  lemma ReadHeader(s: string, t: string, u: string, v: string)
    requires OneField(s) && OneField(t) && OneField(u) && OneField(v)
    ensures var line := "@@ -" + (s + "," + t) + " +" + (u + "," + v) + " @@";
            && (ReadSpan(s, t).Some? ==> ReadLine(line, Old) == Some(At(ReadSpan(s, t).value)))
            && (ReadSpan(u, v).Some? ==> ReadLine(line, New) == Some(At(ReadSpan(u, v).value)))
  {
    HeaderFields(s, t, u, v);
    HeaderShape(s, t, u, v);
    var fields := Fields(s + "," + t + " " + ("+" + u + "," + v + " " + "@@"));
    assert fields[0] == fields[..4][0] && fields[1] == fields[..4][1];
    assert fields[2] == fields[..4][2] && fields[3] == fields[..4][3];
    assert ("+" + u)[1..] == u;
  }

  /** A printed header gives each side its own numbers back. */
  lemma HeaderReadsBack(oldSpan: Span, newSpan: Span)
    ensures ReadLine(HeaderText(oldSpan, newSpan), Old) == Some(At(oldSpan))
    ensures ReadLine(HeaderText(oldSpan, newSpan), New) == Some(At(newSpan))
  {
    hide ReadLine;
    ParsePrinted(oldSpan.start);
    ParsePrinted(oldSpan.len);
    ParsePrinted(newSpan.start);
    ParsePrinted(newSpan.len);
    ReadHeader(PrintNat(oldSpan.start), PrintNat(oldSpan.len),
               PrintNat(newSpan.start), PrintNat(newSpan.len));
  }

  // ---- applying what was written ----

  function From(a: seq<Line>, b: seq<Line>, side: Side): seq<Line> {
    if side.Old? then a else b
  }

  function To(a: seq<Line>, b: seq<Line>, side: Side): seq<Line> {
    if side.Old? then b else a
  }

  function FromPos(ops: seq<Op>, k: nat, side: Side): nat
    requires k <= |ops|
  {
    if side.Old? then OldPos(ops, k) else NewPos(ops, k)
  }

  function ToPos(ops: seq<Op>, k: nat, side: Side): nat
    requires k <= |ops|
  {
    if side.Old? then NewPos(ops, k) else OldPos(ops, k)
  }

  ghost predicate IsScript(ops: seq<Op>, a: seq<Line>, b: seq<Line>) {
    Script(ops, a, b, Whole(a, b))
  }

  /** Where applying stands after the first `k` steps. */
  ghost function Upto(ops: seq<Op>, a: seq<Line>, b: seq<Line>, k: nat, side: Side): Progress
    requires IsScript(ops, a, b) && k <= |ops|
  {
    ScriptRest(ops, a, b, k);
    Progress(To(a, b, side)[..ToPos(ops, k, side)], FromPos(ops, k, side))
  }

  lemma ScriptInRange(ops: seq<Op>, a: seq<Line>, b: seq<Line>, lo: nat, hi: nat)
    requires IsScript(ops, a, b) && lo <= hi <= |ops|
    ensures InRange(ops[lo..hi], a, b)
  {
    forall k | 0 <= k < hi - lo
      ensures InRange([ops[lo + k]], a, b) && ops[lo..hi][k] == ops[lo + k]
    {
      StepAt(ops, a, b, lo + k);
    }
    forall k | 0 <= k < hi - lo
      ensures InRange([ops[lo..hi][k]], a, b)
    {
      assert [ops[lo + k]][0] == ops[lo + k];
    }
    assert forall k | 0 <= k < hi - lo :: [ops[lo..hi][k]][0] == ops[lo..hi][k];
  }

  function OpText(op: Op, a: seq<Line>, b: seq<Line>): string
    requires InRange([op], a, b)
  {
    assert [op][0] == op;
    match op
    case Equal(i, _) => " " + a[i]
    case Delete(i) => "-" + a[i]
    case Insert(j) => "+" + b[j]
  }

  /** What a step's line tells `patch`. */
  function OpRead(op: Op, a: seq<Line>, b: seq<Line>, side: Side): Read
    requires InRange([op], a, b)
  {
    assert [op][0] == op;
    match op
    case Equal(i, _) => Keep(a[i])
    case Delete(i) => if side.Old? then Drop(a[i]) else Add(a[i])
    case Insert(j) => if side.Old? then Add(b[j]) else Drop(b[j])
  }

  lemma OpReadsBack(op: Op, a: seq<Line>, b: seq<Line>, side: Side)
    requires InRange([op], a, b)
    ensures ReadLine(OpText(op, a, b), side) == Some(OpRead(op, a, b, side))
  {
    assert [op][0] == op;
    var text := OpText(op, a, b);
    assert text[0] == (match op case Equal(_, _) => ' ' case Delete(_) => '-' case Insert(_) => '+');
    assert !StartsWith(text, "@@ -");
  }

  /** Acting on one step's line does that step. */
  lemma ActStep(ops: seq<Op>, a: seq<Line>, b: seq<Line>, k: nat, side: Side)
    requires IsScript(ops, a, b) && k < |ops| && InRange([ops[k]], a, b)
    ensures Act(From(a, b, side), Upto(ops, a, b, k, side), OpRead(ops[k], a, b, side))
         == Some(Upto(ops, a, b, k + 1, side))
  {
    StepAt(ops, a, b, k);
    ScriptRest(ops, a, b, k + 1);
    var i, j := OldPos(ops, k), NewPos(ops, k);
    if i < |a| { assert a[..i + 1] == a[..i] + [a[i]]; }
    if j < |b| { assert b[..j + 1] == b[..j] + [b[j]]; }
  }

  lemma ApplyStep(ops: seq<Op>, a: seq<Line>, b: seq<Line>, k: nat, side: Side)
    requires IsScript(ops, a, b) && k < |ops| && InRange([ops[k]], a, b)
    ensures ReadLine(OpText(ops[k], a, b), side).Some?
    ensures Act(From(a, b, side), Upto(ops, a, b, k, side), ReadLine(OpText(ops[k], a, b), side).value)
         == Some(Upto(ops, a, b, k + 1, side))
  {
    hide ReadLine, Act, Upto, InRange, IsScript;
    OpReadsBack(ops[k], a, b, side);
    ActStep(ops, a, b, k, side);
  }

  lemma {:induction false} ApplyBody(
    ops: seq<Op>, a: seq<Line>, b: seq<Line>, lo: nat, hi: nat, side: Side)
    requires IsScript(ops, a, b) && lo <= hi <= |ops| && InRange(ops[lo..hi], a, b)
    ensures Run(From(a, b, side), Upto(ops, a, b, lo, side), BodyText(ops[lo..hi], a, b), side)
         == Some(Upto(ops, a, b, hi, side))
    decreases hi - lo
  {
    if lo < hi {
      assert ops[lo..hi][0] == ops[lo];
      assert ops[lo..hi][1..] == ops[lo + 1..hi];
      ApplyStep(ops, a, b, lo, side);
      ApplyBody(ops, a, b, lo + 1, hi, side);
      var body := BodyText(ops[lo..hi], a, b);
      assert body[0] == OpText(ops[lo], a, b) && body[1..] == BodyText(ops[lo + 1..hi], a, b);
    }
  }

  /** What a header says of each side: where the hunk starts there, and how many lines it has. */
  lemma {:induction false} HeaderNumbers(ops: seq<Op>, a: seq<Line>, b: seq<Line>, lo: nat, hi: nat)
    requires IsScript(ops, a, b) && lo <= hi <= |ops|
    ensures OldPos(ops, lo) <= OldPos(ops, hi) && NewPos(ops, lo) <= NewPos(ops, hi)
    ensures CountOld(ops[lo..hi]) == OldPos(ops, hi) - OldPos(ops, lo)
    ensures CountNew(ops[lo..hi]) == NewPos(ops, hi) - NewPos(ops, lo)
    ensures FirstOld(ops[lo..hi])
         == if OldPos(ops, lo) == OldPos(ops, hi) then None else Some(OldPos(ops, lo))
    ensures FirstNew(ops[lo..hi])
         == if NewPos(ops, lo) == NewPos(ops, hi) then None else Some(NewPos(ops, lo))
    decreases hi - lo
  {
    if lo < hi {
      assert ops[lo..hi][0] == ops[lo];
      assert ops[lo..hi][1..] == ops[lo + 1..hi];
      StepAt(ops, a, b, lo);
      HeaderNumbers(ops, a, b, lo + 1, hi);
    }
  }

  function SideSpan(ops: seq<Op>, side: Side): Span {
    if side.Old? then SpanOf(FirstOld(ops), CountOld(ops)) else SpanOf(FirstNew(ops), CountNew(ops))
  }

  /** A side's span names the place its hunk starts, or an empty file. */
  lemma SpanStarts(ops: seq<Op>, a: seq<Line>, b: seq<Line>, hunks: seq<Hunk>, n: nat, side: Side)
    requires IsScript(ops, a, b) && HunksOf(ops, hunks) && n < |hunks|
    ensures Until(hunks, n) <= hunks[n].lo < hunks[n].hi <= |ops|
    ensures var span := SideSpan(ops[hunks[n].lo..hunks[n].hi], side);
            var at := FromPos(ops, hunks[n].lo, side);
            if span.len == 0 then span.start == at == 0 else span.start == at + 1
  {
    var h := hunks[n];
    assert Gap(ops, hunks, n) && IsHunk(ops, h);
    HeaderNumbers(ops, a, b, h.lo, h.hi);
    NoLinesMeansEmptyFile(ops, a, b, hunks, n);
    ScriptRest(ops, a, b, h.lo);
  }

  /** Copying the equal steps `lo..hi` on a side. */
  lemma CopyEqual(ops: seq<Op>, a: seq<Line>, b: seq<Line>, lo: nat, hi: nat, side: Side)
    requires IsScript(ops, a, b) && lo <= hi <= |ops| && OnlyEqual(ops, lo, hi)
    ensures FromPos(ops, lo, side) <= FromPos(ops, hi, side) <= |From(a, b, side)|
    ensures Upto(ops, a, b, hi, side).out
         == Upto(ops, a, b, lo, side).out
            + From(a, b, side)[FromPos(ops, lo, side)..FromPos(ops, hi, side)]
  {
    EqualStepsCopy(ops, a, b, lo, hi);
    ScriptRest(ops, a, b, hi);
    var to := To(a, b, side);
    assert to[..ToPos(ops, hi, side)]
        == to[..ToPos(ops, lo, side)] + to[ToPos(ops, lo, side)..ToPos(ops, hi, side)];
  }

  /** Applying a hunk's header copies the equal lines before it. */
  lemma ApplyHeader(
    ops: seq<Op>, a: seq<Line>, b: seq<Line>, hunks: seq<Hunk>, n: nat, side: Side)
    requires IsScript(ops, a, b) && HunksOf(ops, hunks) && n < |hunks|
    ensures Until(hunks, n) <= hunks[n].lo < hunks[n].hi <= |ops|
    ensures Act(From(a, b, side), Upto(ops, a, b, Until(hunks, n), side),
                At(SideSpan(ops[hunks[n].lo..hunks[n].hi], side)))
         == Some(Upto(ops, a, b, hunks[n].lo, side))
  {
    assert Gap(ops, hunks, n) && IsHunk(ops, hunks[n]);
    hide SideSpan, HunksOf, Script, OldPos, NewPos;
    SpanStarts(ops, a, b, hunks, n, side);
    CopyEqual(ops, a, b, Until(hunks, n), hunks[n].lo, side);
  }

  predicate HunkFits(ops: seq<Op>, h: Hunk, a: seq<Line>, b: seq<Line>) {
    h.lo <= h.hi <= |ops| && InRange(ops[h.lo..h.hi], a, b)
  }

  predicate HunksFit(ops: seq<Op>, hunks: seq<Hunk>, a: seq<Line>, b: seq<Line>) {
    forall n | 0 <= n < |hunks| :: HunkFits(ops, hunks[n], a, b)
  }

  /** The text of all hunks. */
  function DiffText(ops: seq<Op>, hunks: seq<Hunk>, a: seq<Line>, b: seq<Line>): seq<string>
    requires HunksFit(ops, hunks, a, b)
  {
    if hunks == [] then []
    else
      var last := hunks[|hunks| - 1];
      DiffText(ops, hunks[..|hunks| - 1], a, b) + HunkText(ops[last.lo..last.hi], a, b)
  }

  /** Applying one hunk. */
  lemma ApplyHunk(
    ops: seq<Op>, a: seq<Line>, b: seq<Line>, hunks: seq<Hunk>, n: nat, side: Side)
    requires IsScript(ops, a, b) && HunksOf(ops, hunks) && n < |hunks|
    ensures Until(hunks, n) <= |ops| && HunkFits(ops, hunks[n], a, b)
    ensures Run(From(a, b, side), Upto(ops, a, b, Until(hunks, n), side),
                HunkText(ops[hunks[n].lo..hunks[n].hi], a, b), side)
         == Some(Upto(ops, a, b, hunks[n].hi, side))
  {
    ApplyHeader(ops, a, b, hunks, n, side);
    var h := hunks[n];
    var part := ops[h.lo..h.hi];
    ScriptInRange(ops, a, b, h.lo, h.hi);
    HeaderReadsBack(SpanOf(FirstOld(part), CountOld(part)), SpanOf(FirstNew(part), CountNew(part)));
    ApplyBody(ops, a, b, h.lo, h.hi, side);
    var text := HunkText(part, a, b);
    assert text[1..] == BodyText(part, a, b);
  }

  lemma DiffTextSnoc(ops: seq<Op>, hunks: seq<Hunk>, h: Hunk, a: seq<Line>, b: seq<Line>)
    requires HunksFit(ops, hunks, a, b) && HunkFits(ops, h, a, b)
    ensures HunksFit(ops, hunks + [h], a, b)
    ensures DiffText(ops, hunks + [h], a, b)
         == DiffText(ops, hunks, a, b) + HunkText(ops[h.lo..h.hi], a, b)
  {
    assert (hunks + [h])[..|hunks|] == hunks;
  }

  /** Applying the first `n` hunks gets as far as the last of them. */
  ghost predicate Applied(
    ops: seq<Op>, a: seq<Line>, b: seq<Line>, hunks: seq<Hunk>, n: nat, side: Side)
    requires IsScript(ops, a, b) && n <= |hunks|
  {
    && HunksFit(ops, hunks[..n], a, b) && Until(hunks, n) <= |ops|
    && Run(From(a, b, side), Progress([], 0), DiffText(ops, hunks[..n], a, b), side)
       == Some(Upto(ops, a, b, Until(hunks, n), side))
  }

  lemma ApplyOneMore(
    ops: seq<Op>, a: seq<Line>, b: seq<Line>, hunks: seq<Hunk>, n: nat, side: Side)
    requires IsScript(ops, a, b) && HunksOf(ops, hunks) && n < |hunks|
    requires Applied(ops, a, b, hunks, n, side)
    ensures Applied(ops, a, b, hunks, n + 1, side)
  {
    hide HunksOf, HunkFits, HunksFit, Run, HunkText, IsScript, DiffText, Upto, InRange;
    ApplyHunk(ops, a, b, hunks, n, side);
    var h := hunks[n];
    DiffTextSnoc(ops, hunks[..n], h, a, b);
    assert hunks[..n + 1] == hunks[..n] + [h];
    RunConcat(From(a, b, side), Progress([], 0), DiffText(ops, hunks[..n], a, b),
              HunkText(ops[h.lo..h.hi], a, b), side);
  }

  lemma {:induction false} ApplyHunks(
    ops: seq<Op>, a: seq<Line>, b: seq<Line>, hunks: seq<Hunk>, n: nat, side: Side)
    requires IsScript(ops, a, b) && HunksOf(ops, hunks) && n <= |hunks|
    ensures Applied(ops, a, b, hunks, n, side)
  {
    hide HunksOf, IsScript, Applied;
    if n == 0 {
      NothingApplied(ops, a, b, hunks, side);
    } else {
      ApplyHunks(ops, a, b, hunks, n - 1, side);
      ApplyOneMore(ops, a, b, hunks, n - 1, side);
    }
  }

  lemma NothingApplied(ops: seq<Op>, a: seq<Line>, b: seq<Line>, hunks: seq<Hunk>, side: Side)
    requires IsScript(ops, a, b)
    ensures Applied(ops, a, b, hunks, 0, side)
  {
    hide IsScript;
    assert hunks[..0] == [];
    assert To(a, b, side)[..0] == [];
  }

  /** Applied with nothing but its headers and bodies, a diff turns the one side into the other. */
  lemma DiffApplies(ops: seq<Op>, a: seq<Line>, b: seq<Line>, hunks: seq<Hunk>,
                    labels: seq<string>, side: Side)
    requires IsScript(ops, a, b) && HunksOf(ops, hunks) && |labels| == 2
    ensures HunksFit(ops, hunks, a, b)
    ensures Patch(From(a, b, side), labels + DiffText(ops, hunks, a, b), side)
         == Some(To(a, b, side))
  {
    ApplyHunks(ops, a, b, hunks, |hunks|, side);
    assert hunks[..|hunks|] == hunks;
    assert (labels + DiffText(ops, hunks, a, b))[2..] == DiffText(ops, hunks, a, b);
    CopyRest(ops, a, b, hunks, side);
  }

  /** What is left after the last hunk is the same on both sides. */
  lemma CopyRest(ops: seq<Op>, a: seq<Line>, b: seq<Line>, hunks: seq<Hunk>, side: Side)
    requires IsScript(ops, a, b) && HunksOf(ops, hunks) && Until(hunks, |hunks|) <= |ops|
    ensures var done := Upto(ops, a, b, Until(hunks, |hunks|), side);
            && done.next <= |From(a, b, side)|
            && done.out + From(a, b, side)[done.next..] == To(a, b, side)
  {
    CopyEqual(ops, a, b, Until(hunks, |hunks|), |ops|, side);
    ScriptEnd(ops, a, b);
    assert ToPos(ops, |ops|, side) == |To(a, b, side)|;
    assert FromPos(ops, |ops|, side) == |From(a, b, side)|;
    hide Script, HunksOf, OldPos, NewPos, IsScript;
    var from, done := From(a, b, side), Upto(ops, a, b, Until(hunks, |hunks|), side);
    assert from[done.next..|from|] == from[done.next..];
  }

  // ---- applying the text ----

  predicate NoReturns(lines: seq<string>) {
    forall k | 0 <= k < |lines| :: !EndsInReturn(lines[k])
  }

  /** An applying that has failed, or has written what the other side does not start with. */
  predicate Lost(p: Option<Progress>, to: seq<Line>) {
    p.None? || !(p.value.out <= to)
  }

  lemma ActOnlyAdds(from: seq<Line>, p: Progress, read: Read)
    ensures Act(from, p, read).Some? ==> p.out <= Act(from, p, read).value.out
  {
  }

  lemma {:induction false} RunOnlyAdds(from: seq<Line>, p: Progress, lines: seq<string>, side: Side)
    ensures Run(from, p, lines, side).Some? ==> p.out <= Run(from, p, lines, side).value.out
    decreases |lines|
  {
    hide Act, ReadLine;
    if lines != [] {
      match ReadLine(lines[0], side)
      case None =>
      case Some(read) =>
        ActOnlyAdds(from, p, read);
        match Act(from, p, read)
        case None =>
        case Some(q) => RunOnlyAdds(from, q, lines[1..], side);
    }
  }

  /** What is lost stays lost. */
  lemma LostForGood(from: seq<Line>, p: Progress, front: seq<string>, back: seq<string>, side: Side, to: seq<Line>)
    requires Lost(Run(from, p, front, side), to)
    ensures Lost(Run(from, p, front + back, side), to)
  {
    hide Run;
    RunConcat(from, p, front, back, side);
    match Run(from, p, front, side)
    case None =>
    case Some(q) => RunOnlyAdds(from, q, back, side);
  }

  lemma RunOne(from: seq<Line>, p: Progress, line: string, side: Side)
    ensures Run(from, p, [line], side)
         == match ReadLine(line, side) case None => None case Some(read) => Act(from, p, read)
  {
    hide ReadLine, Act;
    assert [line][1..] == [];
  }

  lemma BareMark(mark: char, line: string)
    requires EndsInReturn(line)
    ensures EndsInReturn([mark] + line) && Bare([mark] + line) == [mark] + line[..|line| - 1]
  {
    assert ([mark] + line)[..|line|] == [mark] + line[..|line| - 1];
  }

  lemma ReadMarked(mark: char, line: string, side: Side)
    requires mark == ' ' || mark == '-' || mark == '+'
    ensures ReadLine([mark] + line, side)
         == Some(if mark == ' ' then Keep(line)
                 else if (mark == '-') == side.Old? then Drop(line)
                 else Add(line))
  {
    assert ([mark] + line)[1..] == line;
    assert "@@ -"[0] == '@' && ([mark] + line)[0] == mark;
  }

  function MarkOf(op: Op): char {
    match op case Equal(_, _) => ' ' case Delete(_) => '-' case Insert(_) => '+'
  }

  function LineOf(op: Op, a: seq<Line>, b: seq<Line>): Line
    requires InRange([op], a, b)
  {
    assert [op][0] == op;
    match op case Equal(i, _) => a[i] case Delete(i) => a[i] case Insert(j) => b[j]
  }

  lemma OpTextMarked(op: Op, a: seq<Line>, b: seq<Line>)
    requires InRange([op], a, b)
    ensures OpText(op, a, b) == [MarkOf(op)] + LineOf(op, a, b) 
    ensures EndsInReturn(OpText(op, a, b)) <==> EndsInReturn(LineOf(op, a, b))
  {
    assert [op][0] == op;
  }

  /** A step whose line lost its carriage return does not do that step. */
  lemma BareStepIsLost(ops: seq<Op>, a: seq<Line>, b: seq<Line>, k: nat, side: Side)
    requires IsScript(ops, a, b) && k < |ops| && InRange([ops[k]], a, b) && EndsInReturn(OpText(ops[k], a, b))
    ensures Lost(Run(From(a, b, side), Upto(ops, a, b, k, side), [Bare(OpText(ops[k], a, b))], side), To(a, b, side))
  {
    var line := LineOf(ops[k], a, b);
    var mark := MarkOf(ops[k]);
    OpTextMarked(ops[k], a, b);
    BareMark(mark, line);
    ReadMarked(mark, line[..|line| - 1], side);
    RunOne(From(a, b, side), Upto(ops, a, b, k, side), [mark] + line[..|line| - 1], side);
    StepAt(ops, a, b, k);
    ScriptRest(ops, a, b, k);
    hide ReadLine, Run, Script, Bare;
    assert line[..|line| - 1] != line;
    if !(mark == ' ' || (mark == '-') == side.Old?) {
      AddingAnother(To(a, b, side), ToPos(ops, k, side), line[..|line| - 1]);
    }
  }

  lemma AddingAnother(to: seq<Line>, at: nat, line: Line)
    requires at <= |to| && (at < |to| ==> to[at] != line)
    ensures !(to[..at] + [line] <= to)
  {
    assert (to[..at] + [line])[at] == line;
  }

  lemma {:induction false} BodyIsLost(
    ops: seq<Op>, a: seq<Line>, b: seq<Line>, lo: nat, hi: nat, side: Side)
    requires IsScript(ops, a, b) && lo <= hi <= |ops| && InRange(ops[lo..hi], a, b)
    requires !NoReturns(BodyText(ops[lo..hi], a, b))
    ensures Lost(Run(From(a, b, side), Upto(ops, a, b, lo, side), Bared(BodyText(ops[lo..hi], a, b)), side),
                 To(a, b, side))
    decreases hi - lo
  {
    hide Run, Upto, IsScript, ReadLine, Act, EndsInReturn, Lost;
    if lo < hi {
      var part := ops[lo..hi];
      assert part[0] == ops[lo] && part[1..] == ops[lo + 1..hi];
      BodyOfSteps(part, a, b);
      var line, rest := OpText(ops[lo], a, b), BodyText(ops[lo + 1..hi], a, b);
      BaredCons(line, rest);
      if EndsInReturn(line) {
        BareStepIsLost(ops, a, b, lo, side);
        LostForGood(From(a, b, side), Upto(ops, a, b, lo, side), [Bare(line)], Bared(rest), side, To(a, b, side));
      } else {
        NoReturnsCons(line, rest);
        BodyIsLost(ops, a, b, lo + 1, hi, side);
        ApplyStep(ops, a, b, lo, side);
        RunOne(From(a, b, side), Upto(ops, a, b, lo, side), line, side);
        RunConcat(From(a, b, side), Upto(ops, a, b, lo, side), [line], Bared(rest), side);
      }
    }
  }

  lemma BodyOfSteps(ops: seq<Op>, a: seq<Line>, b: seq<Line>)
    requires ops != [] && InRange(ops, a, b)
    ensures InRange([ops[0]], a, b) && InRange(ops[1..], a, b)
    ensures BodyText(ops, a, b) == [OpText(ops[0], a, b)] + BodyText(ops[1..], a, b)
  {
  }

  lemma NoReturnsCons(line: string, lines: seq<string>)
    ensures NoReturns([line] + lines) <==> !EndsInReturn(line) && NoReturns(lines)
  {
    hide EndsInReturn;
    assert ([line] + lines)[0] == line;
    assert forall k | 0 <= k < |lines| :: ([line] + lines)[k + 1] == lines[k];
  }

  lemma NoReturnsConcat(front: seq<string>, back: seq<string>)
    ensures NoReturns(front + back) <==> NoReturns(front) && NoReturns(back)
  {
    hide EndsInReturn;
    assert forall k | 0 <= k < |front| :: (front + back)[k] == front[k];
    assert forall k | 0 <= k < |back| :: (front + back)[|front| + k] == back[k];
  }

  lemma HunkIsLost(
    ops: seq<Op>, a: seq<Line>, b: seq<Line>, hunks: seq<Hunk>, n: nat, side: Side)
    requires IsScript(ops, a, b) && HunksOf(ops, hunks) && n < |hunks| && HunkFits(ops, hunks[n], a, b)
    requires !NoReturns(HunkText(ops[hunks[n].lo..hunks[n].hi], a, b)) && Until(hunks, n) <= |ops|
    ensures Lost(Run(From(a, b, side), Upto(ops, a, b, Until(hunks, n), side),
                     Bared(HunkText(ops[hunks[n].lo..hunks[n].hi], a, b)), side), To(a, b, side))
  {
    var h := hunks[n];
    var part := ops[h.lo..h.hi];
    ApplyHeader(ops, a, b, hunks, n, side);
    var oldSpan, newSpan := SpanOf(FirstOld(part), CountOld(part)), SpanOf(FirstNew(part), CountNew(part));
    var header, body := HeaderText(oldSpan, newSpan), BodyText(part, a, b);
    HeaderReadsBack(oldSpan, newSpan);
    HeaderIsOneLine(oldSpan, newSpan);
    hide Run, Upto, IsScript, ReadLine, Act, EndsInReturn, Lost, HunksOf, InRange, HeaderText, BodyText, NoReturns;
    NoReturnsCons(header, body);
    BodyIsLost(ops, a, b, h.lo, h.hi, side);
    BaredCons(header, body);
    RunOne(From(a, b, side), Upto(ops, a, b, Until(hunks, n), side), header, side);
    RunConcat(From(a, b, side), Upto(ops, a, b, Until(hunks, n), side), [header], Bared(body), side);
  }

  lemma HeaderIsOneLine(oldSpan: Span, newSpan: Span)
    ensures !EndsInReturn(HeaderText(oldSpan, newSpan)) && '\n' !in HeaderText(oldSpan, newSpan)
    ensures Bare(HeaderText(oldSpan, newSpan)) == HeaderText(oldSpan, newSpan)
  {
    var s, t := SpanText(oldSpan), SpanText(newSpan);
    assert '\n' !in s && '\n' !in t;
    var header := "@@ -" + s + " +" + t + " @@";
    assert header[|header| - 1] == '@';
  }

  lemma OneMoreIsLost(
    ops: seq<Op>, a: seq<Line>, b: seq<Line>, hunks: seq<Hunk>, n: nat, side: Side)
    requires IsScript(ops, a, b) && HunksOf(ops, hunks) && n < |hunks| && HunkFits(ops, hunks[n], a, b)
    requires Applied(ops, a, b, hunks, n, side) && NoReturns(DiffText(ops, hunks[..n], a, b))
    requires !NoReturns(HunkText(ops[hunks[n].lo..hunks[n].hi], a, b))
    ensures Lost(Run(From(a, b, side), Progress([], 0),
                     Bared(DiffText(ops, hunks[..n], a, b) + HunkText(ops[hunks[n].lo..hunks[n].hi], a, b)), side),
                 To(a, b, side))
  {
    hide Run, Upto, IsScript, Lost, HunksOf, InRange, NoReturns, HunkText, DiffText, Bared, Until;
    var front, back := DiffText(ops, hunks[..n], a, b), HunkText(ops[hunks[n].lo..hunks[n].hi], a, b);
    BaredConcat(front, back);
    BaredNothing(front);
    HunkIsLost(ops, a, b, hunks, n, side);
    RunConcat(From(a, b, side), Progress([], 0), front, Bared(back), side);
  }

  lemma {:induction false} DiffIsLost(
    ops: seq<Op>, a: seq<Line>, b: seq<Line>, hunks: seq<Hunk>, n: nat, side: Side)
    requires IsScript(ops, a, b) && HunksOf(ops, hunks) && n <= |hunks| && HunksFit(ops, hunks, a, b)
    requires HunksFit(ops, hunks[..n], a, b) && !NoReturns(DiffText(ops, hunks[..n], a, b))
    ensures Lost(Run(From(a, b, side), Progress([], 0), Bared(DiffText(ops, hunks[..n], a, b)), side),
                 To(a, b, side))
  {
    hide Run, Upto, IsScript, Lost, HunksOf, InRange, HunkText, OnlyEqual, Applied, Bared, Until;
    if n > 0 {
      var h := hunks[n - 1];
      assert HunkFits(ops, h, a, b);
      assert HunksFit(ops, hunks[..n - 1], a, b);
      hide NoReturns, DiffText;
      DiffTextSnoc(ops, hunks[..n - 1], h, a, b);
      assert hunks[..n] == hunks[..n - 1] + [h];
      var front, back := DiffText(ops, hunks[..n - 1], a, b), HunkText(ops[h.lo..h.hi], a, b);
      NoReturnsConcat(front, back);
      if NoReturns(front) {
        ApplyHunks(ops, a, b, hunks, n - 1, side);
        OneMoreIsLost(ops, a, b, hunks, n - 1, side);
      } else {
        BaredConcat(front, back);
        DiffIsLost(ops, a, b, hunks, n - 1, side);
        LostForGood(From(a, b, side), Progress([], 0), Bared(front), Bared(back), side, To(a, b, side));
      }
    }
  }

  lemma BaredNothing(lines: seq<string>)
    requires NoReturns(lines)
    ensures Bared(lines) == lines
  {
    BaredIsSame(lines);
  }

  /** Read as text, a diff turns the one side into the other if and only if none of the lines it
      prints ends in a carriage return: reading takes such a one for part of the line break. */
  lemma TextApplies(ops: seq<Op>, a: seq<Line>, b: seq<Line>, hunks: seq<Hunk>,
                    labels: seq<string>, side: Side)
    requires IsScript(ops, a, b) && HunksOf(ops, hunks) && HunksFit(ops, hunks, a, b)
    requires |labels| == 2 && Unbroken(labels) && Unbroken(a) && Unbroken(b)
    ensures Patch(From(a, b, side), Lines(Unlines(labels + DiffText(ops, hunks, a, b))), side) == Some(To(a, b, side))
       <==> NoReturns(DiffText(ops, hunks, a, b))
  {
    var diff := DiffText(ops, hunks, a, b);
    DiffUnbroken(ops, a, b, hunks);
    UnbrokenConcat(labels, diff);
    hide Run, IsScript, HunksOf, HunksFit, DiffText, NoReturns, Unbroken, Lines, Unlines;
    LinesReadAgain(labels + diff);
    BaredConcat(labels, diff);
    assert (Bared(labels) + Bared(diff))[2..] == Bared(diff);
    if NoReturns(diff) {
      DiffApplies(ops, a, b, hunks, labels, side);
      BaredNothing(diff);
      assert (labels + diff)[2..] == diff;
    } else {
      assert hunks[..|hunks|] == hunks;
      DiffIsLost(ops, a, b, hunks, |hunks|, side);
    }
  }

  lemma UnbrokenConcat(front: seq<string>, back: seq<string>)
    requires Unbroken(front) && Unbroken(back)
    ensures Unbroken(front + back)
  {
    assert forall k | 0 <= k < |front + back| ::
      (front + back)[k] == if k < |front| then front[k] else back[k - |front|];
  }

  lemma {:induction false} BodyLines(ops: seq<Op>, a: seq<Line>, b: seq<Line>)
    requires InRange(ops, a, b)
    ensures Unbroken(a) && Unbroken(b) ==> Unbroken(BodyText(ops, a, b))
    ensures NoReturns(a) && NoReturns(b) ==> NoReturns(BodyText(ops, a, b))
  {
    if ops != [] {
      BodyOfSteps(ops, a, b);
      BodyLines(ops[1..], a, b);
      OpTextMarked(ops[0], a, b);
      var line, rest := OpText(ops[0], a, b), BodyText(ops[1..], a, b);
      assert [ops[0]][0] == ops[0];
      assert LineOf(ops[0], a, b) in a || LineOf(ops[0], a, b) in b;
      hide BodyText, InRange, EndsInReturn, OpText, LineOf;
      NoReturnsCons(line, rest);
      if Unbroken(a) && Unbroken(b) {
        assert '\n' !in line;
        UnbrokenConcat([line], rest);
      }
    }
  }

  lemma {:induction false} DiffUnbroken(ops: seq<Op>, a: seq<Line>, b: seq<Line>, hunks: seq<Hunk>)
    requires HunksFit(ops, hunks, a, b)
    ensures Unbroken(a) && Unbroken(b) ==> Unbroken(DiffText(ops, hunks, a, b))
    ensures NoReturns(a) && NoReturns(b) ==> NoReturns(DiffText(ops, hunks, a, b))
  {
    if hunks != [] {
      var front, h := hunks[..|hunks| - 1], hunks[|hunks| - 1];
      assert HunkFits(ops, h, a, b);
      DiffUnbroken(ops, a, b, front);
      HunkLines(ops[h.lo..h.hi], a, b);
      hide NoReturns, Unbroken, InRange, HunkText;
      var body := HunkText(ops[h.lo..h.hi], a, b);
      NoReturnsConcat(DiffText(ops, front, a, b), body);
      if Unbroken(a) && Unbroken(b) { UnbrokenConcat(DiffText(ops, front, a, b), body); }
    }
  }

  lemma HunkLines(ops: seq<Op>, a: seq<Line>, b: seq<Line>)
    requires InRange(ops, a, b)
    ensures Unbroken(a) && Unbroken(b) ==> Unbroken(HunkText(ops, a, b))
    ensures NoReturns(a) && NoReturns(b) ==> NoReturns(HunkText(ops, a, b))
  {
    var oldSpan, newSpan := SpanOf(FirstOld(ops), CountOld(ops)), SpanOf(FirstNew(ops), CountNew(ops));
    var header, body := HeaderText(oldSpan, newSpan), BodyText(ops, a, b);
    HeaderIsOneLine(oldSpan, newSpan);
    BodyLines(ops, a, b);
    hide HeaderText, BodyText, InRange, EndsInReturn;
    NoReturnsCons(header, body);
    if Unbroken(a) && Unbroken(b) { UnbrokenConcat([header], body); }
  }

  // ---- the whole diff ----

  function LinesOf(text: Option<string>): seq<Line> {
    match text
    case None => []
    case Some(t) => Lines(t)
  }

  function Labelled(name: string, present: bool): string {
    if present then name else name + " (does not exist)"
  }

  predicate AllEqual(ops: seq<Op>) {
    forall k | 0 <= k < |ops| :: ops[k].Equal?
  }

  /** A script with no change is one for equal lines. */
  lemma NoChangeMeansSame(ops: seq<Op>, a: seq<Line>, b: seq<Line>)
    requires IsScript(ops, a, b)
    ensures AllEqual(ops) ==> a == b
    ensures a == b && Kept(ops) == |a| ==> AllEqual(ops)
  {
    ScriptKeepsAtMostLcs(ops, a, b, Whole(a, b));
    CostNothing(ops);
    ScriptEnd(ops, a, b);
    hide Script, Lcs, Kept, Cost, OldPos, NewPos;
    if AllEqual(ops) {
      EqualStepsCopy(ops, a, b, 0, |ops|);
      NowhereYet(ops);
      assert a[0..|a|] == a && b[0..|b|] == b;
    }
  }

  lemma NowhereYet(ops: seq<Op>)
    ensures OldPos(ops, 0) == 0 && NewPos(ops, 0) == 0
  {
  }

  lemma {:induction false} CostNothing(ops: seq<Op>)
    ensures Cost(ops) == 0 <==> AllEqual(ops)
  {
    if ops != [] {
      CostNothing(ops[1..]);
      assert ops == [ops[0]] + ops[1..];
    }
  }

  lemma OneMoreText(ops: seq<Op>, a: seq<Line>, b: seq<Line>, hunks: seq<Hunk>, n: nat, labels: seq<string>)
    requires n < |hunks| && HunkFits(ops, hunks[n], a, b) && HunksFit(ops, hunks[..n], a, b)
    ensures HunksFit(ops, hunks[..n + 1], a, b)
    ensures Unlines(labels + DiffText(ops, hunks[..n + 1], a, b))
         == Unlines(labels + DiffText(ops, hunks[..n], a, b)) + Unlines(HunkText(ops[hunks[n].lo..hunks[n].hi], a, b))
  {
    hide HunkText, DiffText, InRange, HunksFit, Unlines;
    var h := hunks[n];
    DiffTextSnoc(ops, hunks[..n], h, a, b);
    assert hunks[..n + 1] == hunks[..n] + [h];
    var front, back := DiffText(ops, hunks[..n], a, b), HunkText(ops[h.lo..h.hi], a, b);
    UnlinesConcat(labels + front, back);
    assert labels + (front + back) == labels + front + back;
  }

  /** Prints one more hunk. */
  method WriteNext(ops: seq<Op>, a: seq<Line>, b: seq<Line>, hunks: seq<Hunk>, n: nat, out: string,
                   ghost labels: seq<string>)
    returns (written: string)
    requires n < |hunks| && HunkFits(ops, hunks[n], a, b) && HunksFit(ops, hunks[..n], a, b)
    requires out == Unlines(labels + DiffText(ops, hunks[..n], a, b))
    ensures HunksFit(ops, hunks[..n + 1], a, b)
    ensures written == Unlines(labels + DiffText(ops, hunks[..n + 1], a, b))
  {
    hide HunkText, DiffText, InRange, HunksFit, Unlines;
    var h := hunks[n];
    written := WriteHunk(out, ops[h.lo..h.hi], a, b);
    OneMoreText(ops, a, b, hunks, n, labels);
  }

  /** Prints each hunk after the labels. */
  method WriteHunks(ops: seq<Op>, a: seq<Line>, b: seq<Line>, hunks: seq<Hunk>, top: string,
                    ghost labels: seq<string>)
    returns (diff: string)
    requires HunksFit(ops, hunks, a, b) && top == Unlines(labels)
    ensures diff == Unlines(labels + DiffText(ops, hunks, a, b))
  {
    diff := top;
    assert labels == labels + DiffText(ops, hunks[..0], a, b);
    hide DiffText, HunkFits, Unlines;
    for n := 0 to |hunks|
      invariant HunksFit(ops, hunks[..n], a, b)
      invariant diff == Unlines(labels + DiffText(ops, hunks[..n], a, b))
    {
      diff := WriteNext(ops, a, b, hunks, n, diff, labels);
    }
    assert hunks[..|hunks|] == hunks;
  }

  /** A script as the diff makes them: a patience diff of the two files, and one that no script is
      cheaper than where it is exact. */
  ghost predicate BestScript(ops: seq<Op>, a: seq<Line>, b: seq<Line>) {
    && IsScript(ops, a, b) && PatienceDiff.Patient(ops, a, b, Whole(a, b))
    && (PatienceDiff.Exact(a, b, Whole(a, b)) ==> Minimal(ops, a, b, Whole(a, b)))
  }

  /** The lines of the text the two differ in are the diff of the lines they differ in. */
  ghost predicate Diffed(a: seq<Line>, b: seq<Line>, labels: seq<string>, diff: seq<string>) {
    exists ops: seq<Op>, hunks: seq<Hunk> ::
      && BestScript(ops, a, b) && HunksOf(ops, hunks) && HunksFit(ops, hunks, a, b)
      && diff == labels + DiffText(ops, hunks, a, b)
  }

  /** The two lines a diff starts with. */
  function LabelLines(oldLabel: string, newLabel: string): (labels: seq<string>)
    ensures |labels| == 2
  {
    ["--- " + oldLabel, "+++ " + newLabel]
  }

  /** A diff's text patches each side's lines into the other's. */
  predicate PatchesBoth(a: seq<Line>, b: seq<Line>, diff: string) {
    Patch(a, Lines(diff), Old) == Some(b) && Patch(b, Lines(diff), New) == Some(a)
  }

  /** What a diff's text is worth: its lines are a diff, which patches each side into the other. So
      does the text, if the labels are a line each, if and only if no line printed after them ends
      in a carriage return; and none does if no line of either side does. */
  ghost predicate Prints(a: seq<Line>, b: seq<Line>, labels: seq<string>, diff: string, lines: seq<string>) {
    && diff == Unlines(lines) && Diffed(a, b, labels, lines) && |lines| >= 2
    && Patch(a, lines, Old) == Some(b) && Patch(b, lines, New) == Some(a)
    && (Unbroken(labels) ==> (PatchesBoth(a, b, diff) <==> NoReturns(lines[2..])))
    && (NoReturns(a) && NoReturns(b) ==> NoReturns(lines[2..]))
  }

  ghost predicate IsDiffText(a: seq<Line>, b: seq<Line>, labels: seq<string>, diff: string) {
    exists lines :: Prints(a, b, labels, diff, lines)
  }

  lemma BestIsScript(ops: seq<Op>, a: seq<Line>, b: seq<Line>)
    requires BestScript(ops, a, b)
    ensures IsScript(ops, a, b)
  {
    hide PatienceDiff.Patient, PatienceDiff.Exact, Script;
  }

  lemma DiffIsBest(ops: seq<Op>, a: seq<Line>, b: seq<Line>)
    requires Script(ops, a, b, Whole(a, b)) && PatienceDiff.Patient(ops, a, b, Whole(a, b))
    requires PatienceDiff.Exact(a, b, Whole(a, b)) ==> Minimal(ops, a, b, Whole(a, b))
    ensures BestScript(ops, a, b)
  {
    hide Script, PatienceDiff.Patient, PatienceDiff.Exact;
  }

  lemma IsDiffed(ops: seq<Op>, a: seq<Line>, b: seq<Line>, hunks: seq<Hunk>, labels: seq<string>)
    requires BestScript(ops, a, b) && HunksOf(ops, hunks) && HunksFit(ops, hunks, a, b)
    ensures Diffed(a, b, labels, labels + DiffText(ops, hunks, a, b))
  {
    hide BestScript, HunksOf, HunksFit, DiffText;
  }

  lemma TextPatches(ops: seq<Op>, a: seq<Line>, b: seq<Line>, hunks: seq<Hunk>, labels: seq<string>)
    requires IsScript(ops, a, b) && HunksOf(ops, hunks) && HunksFit(ops, hunks, a, b)
    requires |labels| == 2 && Unbroken(labels) && Unbroken(a) && Unbroken(b)
    ensures PatchesBoth(a, b, Unlines(labels + DiffText(ops, hunks, a, b))) <==> NoReturns(DiffText(ops, hunks, a, b))
  {
    hide IsScript, HunksOf, HunksFit, DiffText, Unlines, Lines, Patch, Unbroken, NoReturns;
    TextApplies(ops, a, b, hunks, labels, Old);
    TextApplies(ops, a, b, hunks, labels, New);
  }

  lemma DiffPrints(ops: seq<Op>, a: seq<Line>, b: seq<Line>, hunks: seq<Hunk>, labels: seq<string>)
    requires BestScript(ops, a, b) && HunksOf(ops, hunks) && HunksFit(ops, hunks, a, b)
    requires |labels| == 2 && Unbroken(a) && Unbroken(b)
    ensures Prints(a, b, labels, Unlines(labels + DiffText(ops, hunks, a, b)), labels + DiffText(ops, hunks, a, b))
  {
    BestIsScript(ops, a, b);
    IsDiffed(ops, a, b, hunks, labels);
    hide IsScript, BestScript, HunksOf, HunksFit, DiffText, Diffed, Unlines, Lines, Patch, Unbroken, NoReturns, PatchesBoth;
    DiffApplies(ops, a, b, hunks, labels, Old);
    DiffApplies(ops, a, b, hunks, labels, New);
    DiffUnbroken(ops, a, b, hunks);
    var diff := DiffText(ops, hunks, a, b);
    assert (labels + diff)[2..] == diff;
    if Unbroken(labels) {
      TextPatches(ops, a, b, hunks, labels);
    }
  }

  lemma LinesUnbroken(text: Option<string>)
    ensures Unbroken(LinesOf(text))
  {
    match text
    case None =>
    case Some(t) => LinesHaveNoBreak(t);
  }

  lemma {:induction false} PlainLinesEndPlain(t: string)
    requires '\r' !in t
    ensures NoReturns(Lines(t))
    decreases |t|
  {
    if t != "" {
      PlainLinesEndPlain(t[LineEnd(t)..]);
      var line := t[..LineEnd(t)];
      BreakBack(line);
      assert forall k | 0 <= k < |WithoutBreak(line)| :: WithoutBreak(line)[k] == line[k];
    }
  }

  /** Of texts without carriage returns, the diff's text turns each into the other, character for
      character but for a final line break that was not there. */
  lemma PatchedTexts(before: string, after: string, labels: seq<string>, diff: string, side: Side)
    requires '\r' !in before && '\r' !in after && Unbroken(labels)
    requires IsDiffText(Lines(before), Lines(after), labels, diff)
    ensures var from, to := if side.Old? then before else after, if side.Old? then after else before;
            var patched := Patch(Lines(from), Lines(diff), side);
            patched.Some? && Unlines(patched.value) == WithFinalBreak(to)
  {
    hide Patch, Lines, Unlines, Unbroken, NoReturns, Diffed, WithFinalBreak;
    PlainLinesEndPlain(before);
    PlainLinesEndPlain(after);
    UnlinesOfLines(before);
    UnlinesOfLines(after);
  }

  lemma TopOf(first: string, second: string, lines: seq<string>)
    ensures Unlines([first, second] + lines) == first + "\n" + second + "\n" + Unlines(lines)
    ensures Unlines([first, second] + lines) != ""
  {
    hide Unlines;
    assert [first, second] + lines == [first] + ([second] + lines);
    UnlinesCons(first, [second] + lines);
    UnlinesCons(second, lines);
  }

  lemma TopAlone(first: string, second: string)
    ensures Unlines([first, second]) == first + "\n" + second + "\n"
  {
    hide Unlines;
    TopOf(first, second, []);
    NothingWritten();
    assert [first, second] + [] == [first, second];
  }

  lemma LabelIs(mark: string, name: string, present: bool)
    ensures mark + Labelled(name, present) == mark + name + (if present then "" else " (does not exist)")
  {
  }

  /** The text for two files with different lines. */
  method PrintDiff(ops: seq<Op>, a: seq<Line>, b: seq<Line>, oldLine: string, newLine: string)
    returns (diff: string)
    requires BestScript(ops, a, b) && Unbroken(a) && Unbroken(b)
    ensures diff != "" && IsDiffText(a, b, [oldLine, newLine], diff)
  {
    BestIsScript(ops, a, b);
    hide Unlines, Prints, IsScript, BestScript, HunksOf, HunksFit, DiffText, Unbroken;
    var hunks := FindHunks(ops);
    DiffApplies(ops, a, b, hunks, [oldLine, newLine], Old);
    TopAlone(oldLine, newLine);
    diff := WriteHunks(ops, a, b, hunks, oldLine + "\n" + newLine + "\n", [oldLine, newLine]);
    DiffPrints(ops, a, b, hunks, [oldLine, newLine]);
    TopOf(oldLine, newLine, DiffText(ops, hunks, a, b));
    assert Prints(a, b, [oldLine, newLine], diff, [oldLine, newLine] + DiffText(ops, hunks, a, b));
  }

  /** A unified diff turning `before` into `after`. It is empty exactly when the two are the same;
      a notice when only their lines are; and otherwise the text of a diff of their lines. */
  method Unified(
    before: Option<string>, after: Option<string>, oldLabel: string, newLabel: string)
    returns (diff: string)
    ensures diff == "" <==> before == after
    ensures before != after && LinesOf(before) == LinesOf(after) ==>
              diff == "--- " + oldLabel + "\n" + "+++ " + newLabel + "\n" + "(differs only in the final newline)\n"
    ensures LinesOf(before) != LinesOf(after) ==>
              var labels := ["--- " + oldLabel + (if before.Some? then "" else " (does not exist)"),
                             "+++ " + newLabel + (if after.Some? then "" else " (does not exist)")];
              IsDiffText(LinesOf(before), LinesOf(after), labels, diff)
  {
    hide Unlines, IsDiffText, Lines, Unbroken, Labelled, BestScript, PatienceDiff.Patient, PatienceDiff.Exact, Minimal;
    if before == after {
      return "";
    }
    var a, b := LinesOf(before), LinesOf(after);
    LinesUnbroken(before);
    LinesUnbroken(after);
    var ops := PatienceDiff.DiffLines(a, b);
    NoChangeMeansSame(ops, a, b);
    DiffIsBest(ops, a, b);
    hide Script;
    if AllEqual(ops) {
      return "--- " + oldLabel + "\n" + "+++ " + newLabel + "\n" + "(differs only in the final newline)\n";
    }
    LabelIs("--- ", oldLabel, before.Some?);
    LabelIs("+++ ", newLabel, after.Some?);
    diff := PrintDiff(ops, a, b, "--- " + Labelled(oldLabel, before.Some?), "+++ " + Labelled(newLabel, after.Some?));
  }
}
