/** How an Apache configuration file reads as text: logical lines, words, sections
    (`src/apache.rs`, "reading a config"). */
module ConfText {
  import opened Text

  // ---- logical lines ----

  /** A physical line without its line break and the carriage returns before it. */
  function Bare(line: string): string {
    WithoutReturns(if line != "" && line[|line| - 1] == '\n' then line[..|line| - 1] else line)
  }

  function WithoutReturns(s: string): (bare: string)
    ensures bare <= s
  {
    if s != "" && s[|s| - 1] == '\r' then WithoutReturns(s[..|s| - 1]) else s
  }

  predicate Continues(bare: string) {
    bare != "" && bare[|bare| - 1] == '\\'
  }

  /** What ends a logical line: a line break that is not continued, the end of the file, or a
      continuation the end of the file cuts off. */
  datatype End = Broken | Eof | Cut

  /** The first logical line of a text: how many characters it takes, its joined text, and what
      ends it. */
  datatype First = First(n: nat, text: string, end: End)

  function FirstLine(content: string): (f: First)
    requires content != ""
    ensures 0 < f.n <= |content|
    ensures f.end != Broken ==> f.n == |content|
    decreases |content|
  {
    var n := LineEnd(content);
    var bare := Bare(content[..n]);
    if Continues(bare) then
      var joined := bare[..|bare| - 1];
      if n == |content| then First(n, joined, Cut)
      else
        var rest := FirstLine(content[n..]);
        First(n + rest.n, joined + rest.text, rest.end)
    else
      First(n, bare, if content[n - 1] == '\n' then Broken else Eof)
  }

  /** A logical line: the characters it was read from, and its text. */
  datatype LogicalLine = LogicalLine(raw: string, text: string)

  /** The logical lines of a text. One the end of the file cuts off is a line here even when
      nothing is in it. */
  function Logical(content: string): seq<LogicalLine>
    decreases |content|
  {
    if content == "" then []
    else
      var f := FirstLine(content);
      [LogicalLine(content[..f.n], f.text)] + Logical(content[f.n..])
  }

  /** The text logical lines were read from. */
  function Raw(ls: seq<LogicalLine>): string {
    if ls == [] then "" else ls[0].raw + Raw(ls[1..])
  }

  /** A line that stays the same whatever follows it. */
  predicate Closed(l: LogicalLine) {
    l.raw != "" && FirstLine(l.raw) == First(|l.raw|, l.text, Broken)
  }

  /** A line that reads as it does when nothing follows it. */
  predicate Final(l: LogicalLine) {
    l.raw != "" && FirstLine(l.raw).n == |l.raw| && FirstLine(l.raw).text == l.text
  }

  /** Lines as a file can have them: all but the last are closed. */
  ghost predicate WellFormed(ls: seq<LogicalLine>) {
    && (forall k | 0 <= k < |ls| - 1 :: Closed(ls[k]))
    && (ls != [] ==> Final(ls[|ls| - 1]))
  }

  lemma LineEndPrefix(s: string, rest: string)
    requires s != "" && (LineEnd(s) < |s| || s[|s| - 1] == '\n')
    ensures LineEnd(s + rest) == LineEnd(s)
  {
    if s[0] != '\n' {
      assert (s + rest)[1..] == s[1..] + rest;
      if |s| > 1 {
        LineEndPrefix(s[1..], rest);
      }
    }
  }

  /** One step of `FirstLine`. */
  lemma FirstLineStep(s: string, n: nat, bare: string)
    requires s != "" && n == LineEnd(s) && bare == Bare(s[..n])
    ensures !Continues(bare) ==> FirstLine(s) == First(n, bare, if s[n - 1] == '\n' then Broken else Eof)
    ensures Continues(bare) && n == |s| ==> FirstLine(s) == First(n, bare[..|bare| - 1], Cut)
    ensures Continues(bare) && n < |s| ==>
              FirstLine(s) == After(n, bare[..|bare| - 1], FirstLine(s[n..]))
  {
  }

  /** A first logical line ended by a line break does not depend on what follows. */
  lemma {:induction false} FirstLinePrefix(s: string, rest: string)
    requires s != "" && FirstLine(s).end == Broken
    ensures FirstLine(s + rest) == FirstLine(s)
    decreases |s|
  {
    hide FirstLine, Bare, LineEnd;
    var n := LineEnd(s);
    var bare := Bare(s[..n]);
    FirstLineStep(s, n, bare);
    LineEndPrefix(s, rest);
    assert (s + rest)[..n] == s[..n] && (s + rest)[n - 1] == s[n - 1];
    FirstLineStep(s + rest, n, bare);
    if Continues(bare) {
      assert (s + rest)[n..] == s[n..] + rest;
      FirstLinePrefix(s[n..], rest);
    }
  }

  lemma {:induction false} FirstLineOfItself(s: string)
    requires s != ""
    ensures var f := FirstLine(s);
            FirstLine(s[..f.n]) == f
    decreases |s|
  {
    hide FirstLine, Bare, LineEnd;
    var n := LineEnd(s);
    var bare := Bare(s[..n]);
    FirstLineStep(s, n, bare);
    var f := FirstLine(s);
    var t := s[..f.n];
    LineEndShorter(s, f.n);
    assert t[..n] == s[..n] && t[n - 1] == s[n - 1];
    FirstLineStep(t, n, bare);
    if Continues(bare) && n < |s| {
      FirstLineOfItself(s[n..]);
      assert t[n..] == s[n..][..f.n - n];
    }
  }

  lemma {:induction false} LineEndShorter(s: string, m: nat)
    requires LineEnd(s) <= m <= |s|
    ensures LineEnd(s[..m]) == LineEnd(s)
  {
    if s != "" && s[0] != '\n' {
      assert s[..m][1..] == s[1..][..m - 1];
      LineEndShorter(s[1..], m - 1);
    }
  }

  /** A closed line in front is the first logical line. */
  lemma LogicalCons(l: LogicalLine, rest: string)
    requires Closed(l)
    ensures Logical(l.raw + rest) == [l] + Logical(rest)
  {
    FirstLinePrefix(l.raw, rest);
    var content := l.raw + rest;
    assert content[..|l.raw|] == l.raw && content[|l.raw|..] == rest;
  }

  lemma {:induction false} LogicalOfClosed(ls: seq<LogicalLine>, rest: string)
    requires forall k | 0 <= k < |ls| :: Closed(ls[k])
    ensures Logical(Raw(ls) + rest) == ls + Logical(rest)
  {
    hide FirstLine, Logical, Closed;
    if ls == [] {
      assert Raw(ls) + rest == rest;
    } else {
      LogicalOfClosed(ls[1..], rest);
      assert Raw(ls) + rest == ls[0].raw + (Raw(ls[1..]) + rest);
      LogicalCons(ls[0], Raw(ls[1..]) + rest);
      assert [ls[0]] + (ls[1..] + Logical(rest)) == ls + Logical(rest);
    }
  }

  lemma LogicalOfFinal(l: LogicalLine)
    requires Final(l)
    ensures Logical(l.raw) == [l]
  {
    hide FirstLine;
    assert l.raw[|l.raw|..] == "" && l.raw[..|l.raw|] == l.raw;
  }

  lemma RawOne(l: LogicalLine)
    ensures Raw([l]) == l.raw && Raw([]) == "" && Logical("") == []
  {
    assert [l][1..] == [];
  }

  /** Writing well-formed lines out and reading them gives them back. */
  lemma LogicalOfRaw(ls: seq<LogicalLine>)
    requires WellFormed(ls)
    ensures Logical(Raw(ls)) == ls
  {
    hide FirstLine, Logical, Closed, Final, Raw;
    if ls == [] {
      RawOne(LogicalLine("", ""));
    } else {
      var front, last := ls[..|ls| - 1], ls[|ls| - 1];
      LogicalOfFinal(last);
      LogicalOfClosed(front, last.raw);
      RawConcat(front, [last]);
      RawOne(last);
      assert ls == front + [last];
    }
  }

  lemma {:induction false} RawConcat(front: seq<LogicalLine>, back: seq<LogicalLine>)
    ensures Raw(front + back) == Raw(front) + Raw(back)
  {
    if front == [] {
      assert front + back == back;
    } else {
      assert (front + back)[1..] == front[1..] + back;
      RawConcat(front[1..], back);
    }
  }

  /** One more line in front of well-formed ones. */
  lemma WellFormedCons(l: LogicalLine, ls: seq<LogicalLine>)
    requires WellFormed(ls) && (if ls == [] then Final(l) else Closed(l))
    ensures WellFormed([l] + ls)
  {
    hide FirstLine, Closed, Final;
    var more := [l] + ls;
    forall k | 0 <= k < |more| - 1
      ensures Closed(more[k])
    {
      if k > 0 { assert more[k] == ls[k - 1]; }
    }
    if ls != [] { assert more[|more| - 1] == ls[|ls| - 1]; }
  }

  /** The first logical line of a text, cut off there, is the line it was. */
  lemma FirstIsLine(content: string)
    requires content != ""
    ensures var f := FirstLine(content);
            var l := LogicalLine(content[..f.n], f.text);
            if f.n < |content| then Closed(l) else Final(l)
  {
    FirstLineOfItself(content);
  }

  /** The first logical line of a text, and the text after it. */
  lemma LogicalSplit(content: string) returns (l: LogicalLine, rest: string)
    requires content != ""
    ensures content == l.raw + rest && |rest| < |content|
    ensures Logical(content) == [l] + Logical(rest)
    ensures if rest == "" then Final(l) else Closed(l)
    ensures Logical(rest) == [] <==> rest == ""
  {
    var f := FirstLine(content);
    l, rest := LogicalLine(content[..f.n], f.text), content[f.n..];
    FirstIsLine(content);
    hide FirstLine, Closed, Final;
    assert content == content[..f.n] + content[f.n..];
  }

  /** Reading a text and writing its lines out gives it back. */
  lemma {:induction false} RawOfLogical(content: string)
    ensures Raw(Logical(content)) == content
    ensures WellFormed(Logical(content))
    decreases |content|
  {
    hide FirstLine, Logical, WellFormed, Closed, Final, Raw;
    if content == "" {
      NothingIsWellFormed();
    } else {
      var l, rest := LogicalSplit(content);
      RawOfLogical(rest);
      WellFormedCons(l, Logical(rest));
      RawConcat([l], Logical(rest));
      RawOne(l);
    }
  }

  lemma NothingIsWellFormed()
    ensures Logical("") == [] && Raw([]) == "" && WellFormed([])
  {
  }

  // ---- the reader's own loop ----

  /** A logical line as the reader records it: where it starts, just past where it ends, and its
      text. */
  datatype Line = Line(start: nat, end: nat, text: string)

  /** The first `k` characters of `s` all continue: `text` is what they join to. */
  ghost predicate Joining(s: string, k: nat, text: string) {
    && k <= |s|
    && (if k == |s| then s == "" == text || (s != "" && FirstLine(s) == First(k, text, Cut))
        else FirstLine(s) == After(k, text, FirstLine(s[k..])))
  }

  /** A first line with `k` more characters in front that join to `text`. */
  function After(k: nat, text: string, f: First): First {
    First(k + f.n, text + f.text, f.end)
  }

  /** The lines of `ls` with their places, the first of them at `at`; a last one cut off with no
      text is none. */
  function Placed(ls: seq<LogicalLine>, at: nat): seq<Line> {
    if ls == [] then []
    else if |ls| == 1 && ls[0].text == "" && ls[0].raw != "" && FirstLine(ls[0].raw).end == Cut then []
    else [Line(at, at + |ls[0].raw|, ls[0].text)] + Placed(ls[1..], at + |ls[0].raw|)
  }

  lemma AfterTwice(k: nat, text: string, n: nat, more: string, f: First)
    ensures After(k, text, After(n, more, f)) == After(k + n, text + more, f)
  {
    assert text + (more + f.text) == (text + more) + f.text;
  }

  /** One more physical line. */
  lemma JoinStep(s: string, k: nat, text: string, n: nat, bare: string)
    requires k < |s| && Joining(s, k, text)
    requires n == LineEnd(s[k..]) && bare == Bare(s[k..][..n])
    ensures k < k + n <= |s|
    ensures Continues(bare) ==> Joining(s, k + n, text + bare[..|bare| - 1])
    ensures !Continues(bare) ==>
              FirstLine(s) == First(k + n, text + bare, if s[k + n - 1] == '\n' then Broken else Eof)
  {
    hide FirstLine, LineEnd, Bare;
    FirstLineStep(s[k..], n, bare);
    assert s[k..][n..] == s[k + n..];
    assert s[k..][n - 1] == s[k + n - 1];
    if Continues(bare) && k + n < |s| {
      AfterTwice(k, text, n, bare[..|bare| - 1], FirstLine(s[k + n..]));
    }
  }

  /** The loop's invariant. */
  ghost predicate Reading(content: string, start: nat, at: nat, text: string, out: seq<Line>) {
    && start <= at <= |content|
    && Joining(content[start..], at - start, text)
    && out + Placed(Logical(content[start..]), start) == Placed(Logical(content), 0)
  }

  /** A text's logical lines, with their places: physical lines joined where one ends in a
      backslash. */
  method Lines(content: string) returns (out: seq<Line>)
    ensures out == Placed(Logical(content), 0)
  {
    out := [];
    var start, text, at := 0, "", 0;
    ReadingStarts(content);
    hide Reading, Joining, Placed, Logical, FirstLine;
    while at < |content|
      invariant start <= at <= |content|
      invariant Reading(content, start, at, text, out)
      decreases |content| - at
    {
      var n := LineEnd(content[at..]);
      var bare := Bare(content[at..][..n]);
      ReadOn(content, start, at, text, out, n, bare);
      at := at + n;
      if Continues(bare) {
        text := text + bare[..|bare| - 1];
      } else {
        out := out + [Line(start, at, text + bare)];
        text := "";
        start := at;
      }
    }
    ReadingEnds(content, start, text, out);
    if text != "" {
      out := out + [Line(start, at, text)];
    }
  }

  lemma ReadingStarts(content: string)
    ensures Reading(content, 0, 0, "", [])
  {
    assert content[0..] == content;
    JoiningNothing(content);
    hide FirstLine, Logical, Placed, Joining;
    assert [] + Placed(Logical(content), 0) == Placed(Logical(content), 0);
  }

  lemma JoiningNothing(s: string)
    ensures Joining(s, 0, "")
  {
    assert s[0..] == s;
    hide FirstLine;
    if s != "" {
      assert "" + FirstLine(s).text == FirstLine(s).text;
    }
  }

  lemma ReadOn(content: string, start: nat, at: nat, text: string, out: seq<Line>, n: nat, bare: string)
    requires at < |content| && Reading(content, start, at, text, out)
    requires n == LineEnd(content[at..]) && bare == Bare(content[at..][..n])
    ensures at < at + n <= |content| && start <= at
    ensures Continues(bare) ==> Reading(content, start, at + n, text + bare[..|bare| - 1], out)
    ensures !Continues(bare) ==>
              Reading(content, at + n, at + n, "", out + [Line(start, at + n, text + bare)])
  {
    hide FirstLine, Logical, Placed, Bare, LineEnd, Joining, Continues;
    var s, k := content[start..], at - start;
    assert s[k..] == content[at..];
    JoinStep(s, k, text, n, bare);
    if !Continues(bare) {
      PlacedCons(s, start);
      JoiningNothing(content[at + n..]);
      assert s[k + n..] == content[at + n..];
    }
  }

  lemma ReadingEnds(content: string, start: nat, text: string, out: seq<Line>)
    requires Reading(content, start, |content|, text, out)
    ensures out + (if text == "" then [] else [Line(start, |content|, text)])
         == Placed(Logical(content), 0)
  {
    hide FirstLine, Logical, Placed;
    var s := content[start..];
    if s == "" {
      NothingPlaced(start);
    } else if text == "" {
      PlacedCut(s, start);
    } else {
      PlacedCons(s, start);
      assert s[|s|..] == "";
      NothingPlaced(|content|);
    }
  }

  lemma NothingPlaced(at: nat)
    ensures Placed(Logical(""), at) == []
  {
  }

  lemma PlacedOne(l: LogicalLine, ls: seq<LogicalLine>, at: nat)
    requires l.raw != "" && (l.text != "" || FirstLine(l.raw).end != Cut)
    ensures Placed([l] + ls, at) == [Line(at, at + |l.raw|, l.text)] + Placed(ls, at + |l.raw|)
  {
    hide FirstLine;
    assert ([l] + ls)[1..] == ls;
  }

  /** The first line of a text, unless it is one cut off with no text. */
  lemma PlacedCons(s: string, at: nat)
    requires s != ""
    requires var f := FirstLine(s); f.text != "" || f.end != Cut
    ensures var f := FirstLine(s);
            Placed(Logical(s), at) == [Line(at, at + f.n, f.text)] + Placed(Logical(s[f.n..]), at + f.n)
  {
    hide Logical, FirstLine, Placed;
    var f := FirstLine(s);
    FirstLineOfItself(s);
    LogicalStep(s);
    PlacedOne(LogicalLine(s[..f.n], f.text), Logical(s[f.n..]), at);
  }

  lemma LogicalStep(s: string)
    requires s != ""
    ensures var f := FirstLine(s);
            Logical(s) == [LogicalLine(s[..f.n], f.text)] + Logical(s[f.n..])
  {
    hide FirstLine;
  }

  lemma PlacedCut(s: string, at: nat)
    requires s != "" && FirstLine(s) == First(|s|, "", Cut)
    ensures Placed(Logical(s), at) == []
  {
    assert s[..|s|] == s && s[|s|..] == "";
  }

  // ---- how physical lines join ----

  lemma {:induction false} ReturnsComeOff(line: string, crs: string)
    requires (line == "" || line[|line| - 1] != '\r') && forall k | 0 <= k < |crs| :: crs[k] == '\r'
    ensures WithoutReturns(line + crs) == line
  {
    if crs != "" {
      var shorter := crs[..|crs| - 1];
      assert (line + crs)[..|line + crs| - 1] == line + shorter;
      ReturnsComeOff(line, shorter);
    } else {
      assert line + crs == line;
    }
  }

  /** A physical line, whatever carriage returns are in front of its break. */
  lemma PhysicalLine(line: string, crs: string, rest: string)
    requires '\n' !in line && (line == "" || line[|line| - 1] != '\r') && forall k | 0 <= k < |crs| :: crs[k] == '\r'
    ensures var first := line + crs + "\n";
            LineEnd(first + rest) == |first| && (first + rest)[..|first|] == first && Bare(first) == line
  {
    var whole := line + crs;
    assert '\n' !in whole;
    LineEndOfLine(whole, rest);
    var first := whole + "\n";
    assert (first + rest)[..|first|] == first && first[..|first| - 1] == whole;
    ReturnsComeOff(line, crs);
  }

  /** A line that ends in a backslash goes on with the next, without that backslash; any other ends
      there. */
  lemma LinesJoin(line: string, crs: string, rest: string)
    requires '\n' !in line && (line == "" || line[|line| - 1] != '\r') && forall k | 0 <= k < |crs| :: crs[k] == '\r'
    ensures var first := line + crs + "\n";
            if line != "" && line[|line| - 1] == '\\' then
              rest != "" ==>
                FirstLine(first + rest) == First(|first| + FirstLine(rest).n, line[..|line| - 1] + FirstLine(rest).text, FirstLine(rest).end)
            else FirstLine(first + rest) == First(|first|, line, Broken)
  {
    hide WithoutReturns;
    PhysicalLine(line, crs, rest);
    var first := line + crs + "\n";
    assert (first + rest)[|first|..] == rest;
  }
}
