/** Small pieces of Rust's string library the modelled files lean on. */
module Text {

  datatype Option<T> = None | Some(value: T)

  predicate StartsWith(s: string, prefix: string) {
    |prefix| <= |s| && forall k | 0 <= k < |prefix| :: s[k] == prefix[k]
  }

  /** The text before the first `c`, or all of it. */
  function Before(s: string, c: char): string {
    if s == "" || s[0] == c then "" else [s[0]] + Before(s[1..], c)
  }

  // ---- characters ----

  /** `char::is_whitespace`. */
  predicate IsSpace(c: char) {
    var n := c as int;
    || 0x09 <= n <= 0x0D || n == 0x20 || n == 0x85 || n == 0xA0 || n == 0x1680
    || 0x2000 <= n <= 0x200A || n == 0x2028 || n == 0x2029 || n == 0x202F || n == 0x205F || n == 0x3000
  }

  function LowerChar(c: char): char {
    if 'A' <= c <= 'Z' then (c as int + 32) as char else c
  }

  /** `to_ascii_lowercase`. */
  function Lower(s: string): (l: string)
    ensures |l| == |s|
  {
    seq(|s|, k requires 0 <= k < |s| => LowerChar(s[k]))
  }

  function TrimStart(s: string): string {
    if s != "" && IsSpace(s[0]) then TrimStart(s[1..]) else s
  }

  function TrimEnd(s: string): string {
    if s != "" && IsSpace(s[|s| - 1]) then TrimEnd(s[..|s| - 1]) else s
  }

  function Trim(s: string): string {
    TrimEnd(TrimStart(s))
  }

  /** The index of the first whitespace character, or the end. */
  function WordEnd(s: string): (n: nat)
    ensures n <= |s|
    ensures s != "" && !IsSpace(s[0]) ==> n > 0
  {
    if s == "" || IsSpace(s[0]) then 0 else 1 + WordEnd(s[1..])
  }

  lemma TrimStartShrinks(s: string)
    ensures |TrimStart(s)| <= |s|
    ensures TrimStart(s) == "" || !IsSpace(TrimStart(s)[0])
  {
  }

  /** `join`. */
  function JoinWith(parts: seq<string>, separator: string): string {
    if parts == [] then ""
    else if |parts| == 1 then parts[0]
    else parts[0] + separator + JoinWith(parts[1..], separator)
  }

  // ---- finding and splitting ----

  function FindText(s: string, needle: string): Option<nat> {
    if StartsWith(s, needle) then Some(0)
    else if s == "" then None
    else
      match FindText(s[1..], needle)
      case None => None
      case Some(n) => Some(n + 1)
  }

  datatype Halves = Halves(before: string, after: string)

  /** `split_once`. */
  function SplitOnce(s: string, c: char): (h: Option<Halves>)
    ensures h.Some? ==> |h.value.after| < |s|
  {
    if s == "" then None
    else if s[0] == c then Some(Halves("", s[1..]))
    else
      match SplitOnce(s[1..], c)
      case None => None
      case Some(h) => Some(Halves([s[0]] + h.before, h.after))
  }

  lemma {:induction false} SplitOnceAt(a: string, c: char, b: string)
    requires c !in a
    ensures SplitOnce(a + [c] + b, c) == Some(Halves(a, b))
  {
    var s := a + [c] + b;
    if a == "" {
      assert s[1..] == b;
    } else {
      assert s[1..] == a[1..] + [c] + b;
      SplitOnceAt(a[1..], c, b);
      assert [a[0]] + a[1..] == a;
    }
  }

  /** A word: something, and no whitespace in it. */
  predicate IsWord(word: string) {
    word != "" && forall k | 0 <= k < |word| :: !IsSpace(word[k])
  }

  lemma {:induction false} SpaceAfter(word: string, rest: string)
    requires forall k | 0 <= k < |word| :: !IsSpace(word[k])
    requires rest == "" || IsSpace(rest[0])
    ensures WordEnd(word + rest) == |word|
  {
    var s := word + rest;
    if word != "" {
      assert s[1..] == word[1..] + rest;
      SpaceAfter(word[1..], rest);
    } else {
      assert s == rest;
    }
  }

  // ---- decimal numbers ----

  predicate IsDigit(c: char) {
    '0' <= c <= '9'
  }

  function Digit(n: nat): (c: char)
    requires n < 10
    ensures IsDigit(c)
  {
    ('0' as int + n) as char
  }

  function DigitValue(c: char): (n: nat)
    requires IsDigit(c)
    ensures n < 10
  {
    c as int - '0' as int
  }

  /** A number as `{}` prints it. */
  function PrintNat(n: nat): (s: string)
    ensures s != "" && forall c | c in s :: IsDigit(c)
  {
    if n < 10 then [Digit(n)] else PrintNat(n / 10) + [Digit(n % 10)]
  }

  /** A number as `parse` reads it, of any size. */
  function ParseNat(s: string): Option<nat> {
    if s == "" || !IsDigit(s[|s| - 1]) then None
    else if |s| == 1 then Some(DigitValue(s[0]))
    else
      match ParseNat(s[..|s| - 1])
      case None => None
      case Some(n) => Some(10 * n + DigitValue(s[|s| - 1]))
  }

  lemma {:induction false} ParsePrinted(n: nat)
    ensures ParseNat(PrintNat(n)) == Some(n)
  {
    if n >= 10 {
      ParsePrinted(n / 10);
      assert PrintNat(n)[..|PrintNat(n)| - 1] == PrintNat(n / 10);
    }
  }

  // ---- lines ----

  /** The index just past the first line break, or the end. */
  function LineEnd(s: string): (n: nat)
    ensures n <= |s| && (s != "" ==> n > 0)
    ensures forall k | 0 <= k < n - 1 :: s[k] != '\n'
    ensures n < |s| ==> s[n - 1] == '\n'
  {
    if s == "" then 0
    else if s[0] == '\n' then 1
    else 1 + LineEnd(s[1..])
  }

  /** One physical line without its line break: `\n`, or `\r\n`. */
  function WithoutBreak(line: string): string {
    if line == "" || line[|line| - 1] != '\n' then line
    else
      var bare := line[..|line| - 1];
      if bare != "" && bare[|bare| - 1] == '\r' then bare[..|bare| - 1] else bare
  }

  /** `str::lines`. */
  function Lines(s: string): seq<string>
    decreases |s|
  {
    if s == "" then [] else [WithoutBreak(s[..LineEnd(s)])] + Lines(s[LineEnd(s)..])
  }

  /** Each line with a line break after it. */
  function Unlines(lines: seq<string>): string {
    if lines == [] then "" else lines[0] + "\n" + Unlines(lines[1..])
  }

  predicate EndsInReturn(line: string) {
    line != "" && line[|line| - 1] == '\r'
  }

  lemma {:induction false} LineEndOfLine(line: string, rest: string)
    requires '\n' !in line
    ensures LineEnd(line + "\n" + rest) == |line| + 1
  {
    var s := line + "\n" + rest;
    if line != "" {
      assert s[1..] == line[1..] + "\n" + rest;
      LineEndOfLine(line[1..], rest);
    }
  }

  lemma LinesCons(line: string, rest: string)
    requires '\n' !in line
    ensures Lines(line + "\n" + rest) == [WithoutBreak(line + "\n")] + Lines(rest)
    ensures WithoutBreak(line + "\n") == line <==> !EndsInReturn(line)
  {
    var s := line + "\n" + rest;
    LineEndOfLine(line, rest);
    assert s[..|line| + 1] == line + "\n" && s[|line| + 1..] == rest;
    assert (line + "\n")[..|line|] == line;
  }

  predicate Unbroken(lines: seq<string>) {
    forall k | 0 <= k < |lines| :: '\n' !in lines[k]
  }

  /** A line as it is read again: a carriage return at its end is taken for part of the break. */
  function Bare(line: string): string {
    if EndsInReturn(line) then line[..|line| - 1] else line
  }

  function Bared(lines: seq<string>): (bared: seq<string>)
    ensures |bared| == |lines|
  {
    if lines == [] then [] else [Bare(lines[0])] + Bared(lines[1..])
  }

  /** Lines written out and read again. */
  lemma {:induction false} LinesReadAgain(lines: seq<string>)
    requires Unbroken(lines)
    ensures Lines(Unlines(lines)) == Bared(lines)
  {
    hide Lines, WithoutBreak, LineEnd, Bare;
    if lines == [] {
      NothingWritten();
    } else {
      LinesReadAgain(lines[1..]);
      LinesCons(lines[0], Unlines(lines[1..]));
      BareIs(lines[0]);
    }
  }

  lemma BareIs(line: string)
    ensures WithoutBreak(line + "\n") == Bare(line)
  {
    assert (line + "\n")[..|line|] == line;
  }

  lemma {:induction false} BaredIsSame(lines: seq<string>)
    ensures Bared(lines) == lines <==> forall k | 0 <= k < |lines| :: !EndsInReturn(lines[k])
  {
    if lines != [] {
      BaredIsSame(lines[1..]);
      assert lines == [lines[0]] + lines[1..];
      assert Bared(lines) == lines <==> Bare(lines[0]) == lines[0] && Bared(lines[1..]) == lines[1..] by {
        if Bared(lines) == lines { ConsInjective(Bare(lines[0]), lines[0], Bared(lines[1..]), lines[1..]); }
      }
    }
  }

  /** Written out and read again, lines are themselves exactly when none ends in a carriage
      return. */
  lemma LinesOfUnlines(lines: seq<string>)
    requires Unbroken(lines)
    ensures Lines(Unlines(lines)) == lines <==> forall k | 0 <= k < |lines| :: !EndsInReturn(lines[k])
  {
    LinesReadAgain(lines);
    BaredIsSame(lines);
  }

  lemma BaredCons(line: string, lines: seq<string>)
    ensures Bared([line] + lines) == [Bare(line)] + Bared(lines)
  {
    assert ([line] + lines)[1..] == lines;
  }

  lemma {:induction false} BaredConcat(front: seq<string>, back: seq<string>)
    ensures Bared(front + back) == Bared(front) + Bared(back)
  {
    hide *;
    if front == [] {
      NothingBared();
      assert front + back == back && [] + Bared(back) == Bared(back);
    } else {
      var line, rest := front[0], front[1..];
      BaredConcat(rest, back);
      BaredCons(line, rest);
      BaredCons(line, rest + back);
      assert front + back == [line] + (rest + back) && front == [line] + rest;
    }
  }

  lemma NothingBared()
    ensures Bared([]) == []
  {
  }

  lemma {:induction false} UnlinesConcat(front: seq<string>, back: seq<string>)
    ensures Unlines(front + back) == Unlines(front) + Unlines(back)
  {
    if front == [] {
      assert front + back == back;
    } else {
      UnlinesConcat(front[1..], back);
      assert (front + back)[1..] == front[1..] + back;
    }
  }

  lemma {:induction false} LinesHaveNoBreak(s: string)
    ensures Unbroken(Lines(s))
    decreases |s|
  {
    if s != "" {
      LinesHaveNoBreak(s[LineEnd(s)..]);
      var line := s[..LineEnd(s)];
      assert forall k | 0 <= k < |WithoutBreak(line)| :: WithoutBreak(line)[k] == line[k];
    }
  }

  lemma NothingWritten()
    ensures Unlines([]) == "" && Lines("") == []
  {
  }

  // ---- what `lines` loses ----

  function WithFinalBreak(s: string): string {
    if s != "" && s[|s| - 1] != '\n' then s + "\n" else s
  }

  lemma FinalBreakOfRest(line: string, rest: string)
    requires line != "" && line[|line| - 1] == '\n'
    ensures WithFinalBreak(line + rest) == line + WithFinalBreak(rest)
  {
    if rest == "" {
      assert line + rest == line;
    } else {
      assert (line + rest)[|line + rest| - 1] == rest[|rest| - 1];
    }
  }

  lemma BreakBack(line: string)
    requires line != "" && '\r' !in line
    ensures line[|line| - 1] == '\n' ==> WithoutBreak(line) + "\n" == line
    ensures line[|line| - 1] != '\n' ==> WithoutBreak(line) == line
  {
    if line[|line| - 1] == '\n' {
      assert line == line[..|line| - 1] + "\n";
    }
  }

  /** Without carriage returns, lines lose only whether the last one was ended. */
  lemma {:induction false} UnlinesOfLines(s: string)
    requires '\r' !in s
    ensures Unlines(Lines(s)) == WithFinalBreak(s)
    decreases |s|
  {
    if s != "" {
      var line, rest := s[..LineEnd(s)], s[LineEnd(s)..];
      assert s == line + rest;
      BreakBack(line);
      UnlinesOfLines(rest);
      assert Unlines(Lines(s)) == WithoutBreak(line) + "\n" + Unlines(Lines(rest));
      if line[|line| - 1] == '\n' {
        FinalBreakOfRest(line, rest);
      } else {
        assert rest == "";
      }
    }
  }

  // ---- where carriage returns ended lines ----

  predicate BreaksWithReturn(line: string) {
    |line| >= 2 && line[|line| - 2] == '\r' && line[|line| - 1] == '\n'
  }

  /** For each line of a text, whether it was ended by `\r\n`: what `lines` drops besides the last
      line break. */
  function Returns(s: string): (r: seq<bool>)
    decreases |s|
  {
    if s == "" then [] else [BreaksWithReturn(s[..LineEnd(s)])] + Returns(s[LineEnd(s)..])
  }

  /** A line and what comes after it. */
  lemma LineAndRest(s: string)
    requires s != ""
    ensures var line, rest := s[..LineEnd(s)], s[LineEnd(s)..];
            && s == line + rest && line != "" && |rest| < |s|
            && Lines(s) == [WithoutBreak(line)] + Lines(rest)
            && Returns(s) == [BreaksWithReturn(line)] + Returns(rest)
            && (line[|line| - 1] != '\n' ==> rest == "")
  {
  }

  /** A line's text and how it was ended are the line. */
  lemma LineIs(line: string)
    requires line != ""
    ensures BreaksWithReturn(line) ==> line == WithoutBreak(line) + "\r\n"
    ensures !BreaksWithReturn(line) && line[|line| - 1] == '\n' ==> line == WithoutBreak(line) + "\n"
    ensures line[|line| - 1] != '\n' ==> line == WithoutBreak(line)
  {
    if BreaksWithReturn(line) {
      assert line == line[..|line| - 2] + "\r\n";
      assert line[..|line| - 1][..|line| - 2] == line[..|line| - 2];
    } else if line[|line| - 1] == '\n' {
      assert line == line[..|line| - 1] + "\n";
    }
  }

  lemma NoLines(s: string)
    ensures Lines(s) == [] <==> s == ""
  {
  }

  lemma SameFirstLine(line: string, other: string)
    requires line != "" && other != "" && WithoutBreak(line) == WithoutBreak(other)
    requires BreaksWithReturn(line) == BreaksWithReturn(other)
    requires line[|line| - 1] == '\n' <==> other[|other| - 1] == '\n'
    ensures line == other
  {
    hide WithoutBreak, BreaksWithReturn;
    LineIs(line);
    LineIs(other);
  }

  lemma ConsInjective<T>(x: T, y: T, s: seq<T>, t: seq<T>)
    requires [x] + s == [y] + t
    ensures x == y && s == t
  {
    assert ([x] + s)[0] == x && ([x] + s)[1..] == s;
    assert ([y] + t)[0] == y && ([y] + t)[1..] == t;
  }

  /** Texts with the same lines, ended alike, are the same but for the last line break. */
  lemma {:induction false} EndedAlike(s: string, t: string)
    requires Lines(s) == Lines(t) && Returns(s) == Returns(t)
    ensures s == t || s == t + "\n" || t == s + "\n"
    decreases |s|
  {
    hide Lines, Returns, WithoutBreak, BreaksWithReturn, LineEnd;
    NoLines(s);
    NoLines(t);
    if s != "" && t != "" {
      LineAndRest(s);
      LineAndRest(t);
      var line, rest := s[..LineEnd(s)], s[LineEnd(s)..];
      var other, after := t[..LineEnd(t)], t[LineEnd(t)..];
      ConsInjective(WithoutBreak(line), WithoutBreak(other), Lines(rest), Lines(after));
      ConsInjective(BreaksWithReturn(line), BreaksWithReturn(other), Returns(rest), Returns(after));
      if line[|line| - 1] == '\n' <==> other[|other| - 1] == '\n' {
        SameFirstLine(line, other);
        EndedAlike(rest, after);
        JoinedAgain(line, rest, after);
      } else {
        NoLines(rest);
        NoLines(after);
        OnlyOneEnded(line, other);
        assert s == line && t == other;
      }
    }
  }

  lemma JoinedAgain(line: string, rest: string, after: string)
    requires rest == after || rest == after + "\n" || after == rest + "\n"
    ensures var s, t := line + rest, line + after; s == t || s == t + "\n" || t == s + "\n"
  {
    assert line + (after + "\n") == line + after + "\n";
    assert line + (rest + "\n") == line + rest + "\n";
  }

  lemma OnlyOneEnded(line: string, other: string)
    requires line != "" && other != "" && WithoutBreak(line) == WithoutBreak(other)
    requires BreaksWithReturn(line) == BreaksWithReturn(other)
    requires line[|line| - 1] == '\n' <==> other[|other| - 1] != '\n'
    ensures line == other + "\n" || other == line + "\n"
  {
    if line[|line| - 1] != '\n' { NoBreakNoReturn(line); } else { NoBreakNoReturn(other); }
    hide WithoutBreak, BreaksWithReturn;
    LineIs(line);
    LineIs(other);
  }

  lemma NoBreakNoReturn(line: string)
    requires line != "" && line[|line| - 1] != '\n'
    ensures !BreaksWithReturn(line)
  {
  }

  /** A line that ends in its break is the first of any text it starts. */
  lemma FirstOfMore(line: string, rest: string)
    requires line != "" && line[|line| - 1] == '\n' && '\n' !in line[..|line| - 1]
    ensures LineEnd(line + rest) == |line|
    ensures (line + rest)[..|line|] == line && (line + rest)[|line|..] == rest
  {
    assert line == line[..|line| - 1] + "\n";
    LineEndOfLine(line[..|line| - 1], rest);
  }

  /** A break added after a last line that had none is no `\r\n`, if the line reads the same. */
  lemma LastLineEnded(line: string)
    requires line != "" && '\n' !in line && Lines(line + "\n") == Lines(line)
    ensures Returns(line + "\n") == Returns(line)
  {
    FirstOfMore(line + "\n", "");
    assert line + "\n" + "" == line + "\n";
    assert (line + "\n")[..|line|] == line;
    NoBreakAtAll(line);
    LinesCons(line, "");
    ConsInjective(WithoutBreak(line + "\n"), line, Lines(""), []);
    LineAndRest(line + "\n");
    assert !BreaksWithReturn(line + "\n");
  }

  lemma {:induction false} NoBreakAtAll(line: string)
    requires line != "" && '\n' !in line
    ensures LineEnd(line) == |line| && Lines(line) == [line] && Returns(line) == [false]
  {
    assert line[LineEnd(line) - 1] in line;
    assert line[..|line|] == line && line[|line|..] == "";
    assert line[|line| - 1] in line;
  }

  /** If a final line break changes nothing of what `lines` gives, it changes no line's ending. */
  lemma {:induction false} FinalBreakKeepsReturns(t: string)
    requires Lines(t + "\n") == Lines(t)
    ensures Returns(t + "\n") == Returns(t)
    decreases |t|
  {
    hide Lines, Returns, WithoutBreak, BreaksWithReturn, LineEnd;
    NoLines(t);
    NoLines(t + "\n");
    LineAndRest(t);
    var line, rest := t[..LineEnd(t)], t[LineEnd(t)..];
    if '\n' in line {
      assert '\n' !in line[..|line| - 1];
      assert t + "\n" == line + (rest + "\n");
      FirstOfMore(line, rest + "\n");
      LineAndRest(t + "\n");
      ConsInjective(WithoutBreak(line), WithoutBreak(line), Lines(rest + "\n"), Lines(rest));
      FinalBreakKeepsReturns(rest);
    } else {
      assert line[|line| - 1] in line;
      assert t == line;
      LastLineEnded(t);
    }
  }

  /** Two different texts with the same lines differ in the final line break alone if and only if
      the same lines of both were ended by `\r\n`. */
  lemma FinalBreakAlone(s: string, t: string)
    requires Lines(s) == Lines(t) && s != t
    ensures (s == t + "\n" || t == s + "\n") <==> Returns(s) == Returns(t)
  {
    hide Lines, Returns;
    if Returns(s) == Returns(t) {
      EndedAlike(s, t);
    }
    if s == t + "\n" { FinalBreakKeepsReturns(t); }
    if t == s + "\n" { FinalBreakKeepsReturns(s); }
  }

  // ---- what the string functions give ----

  /** Only capital ASCII letters change. */
  lemma LowerIs(s: string, k: nat)
    requires k < |s|
    ensures 'A' <= s[k] <= 'Z' ==> Lower(s)[k] as int == s[k] as int + ('a' as int - 'A' as int)
    ensures !('A' <= s[k] <= 'Z') ==> Lower(s)[k] == s[k]
  {
    assert Lower(s)[k] == LowerChar(s[k]);
  }

  ghost predicate AllSpace(s: string) {
    forall k | 0 <= k < |s| :: IsSpace(s[k])
  }

  ghost predicate NoSpaceAtEnds(s: string) {
    s != "" ==> !IsSpace(s[0]) && !IsSpace(s[|s| - 1])
  }

  lemma {:induction false} TrimStartIs(s: string) returns (front: string)
    ensures s == front + TrimStart(s) && AllSpace(front)
    ensures TrimStart(s) != "" ==> !IsSpace(TrimStart(s)[0])
  {
    hide IsSpace;
    front := "";
    if s != "" && IsSpace(s[0]) {
      front := TrimStartIs(s[1..]);
      front := [s[0]] + front;
      assert s == [s[0]] + s[1..];
    }
  }

  lemma {:induction false} TrimEndIs(s: string) returns (back: string)
    ensures s == TrimEnd(s) + back && AllSpace(back)
    ensures TrimEnd(s) != "" ==> !IsSpace(TrimEnd(s)[|TrimEnd(s)| - 1])
  {
    hide IsSpace;
    back := "";
    if s != "" && IsSpace(s[|s| - 1]) {
      back := TrimEndIs(s[..|s| - 1]);
      back := back + [s[|s| - 1]];
      assert s == s[..|s| - 1] + [s[|s| - 1]];
    }
  }

  /** Trimming takes spaces off both ends, all of them and nothing else. */
  lemma TrimIs(s: string) returns (front: string, back: string)
    ensures s == front + Trim(s) + back && AllSpace(front) && AllSpace(back) && NoSpaceAtEnds(Trim(s))
  {
    hide IsSpace;
    front := TrimStartIs(s);
    var t := TrimStart(s);
    back := TrimEndIs(t);
    assert s == front + (Trim(s) + back);
    if Trim(s) != "" { assert t[0] == Trim(s)[0]; }
  }

  lemma TrimmedAway(text: string)
    ensures Trim(text) == "" <==> AllSpace(text)
  {
    hide IsSpace, Trim;
    var front, back := TrimIs(text);
    if Trim(text) != "" {
      assert text[|front|] == Trim(text)[0];
    } else {
      assert text == front + back;
    }
  }

  /** The first place a text is found at, if any. */
  lemma {:induction false} FindTextIs(s: string, needle: string)
    ensures match FindText(s, needle)
            case None => forall k | 0 <= k <= |s| :: !StartsWith(s[k..], needle)
            case Some(n) => n <= |s| && StartsWith(s[n..], needle) && forall k | 0 <= k < n :: !StartsWith(s[k..], needle)
  {
    hide StartsWith;
    assert s[0..] == s;
    if !StartsWith(s, needle) && s != "" {
      FindTextIs(s[1..], needle);
      forall k | 0 < k <= |s|
        ensures s[k..] == s[1..][k - 1..]
      {
      }
    }
  }

  /** What is before and after the first such character, if there is one. */
  lemma {:induction false} SplitOnceIs(s: string, c: char)
    ensures match SplitOnce(s, c)
            case None => c !in s
            case Some(h) => s == h.before + [c] + h.after && c !in h.before
  {
    if s != "" && s[0] != c {
      SplitOnceIs(s[1..], c);
      assert s == [s[0]] + s[1..];
    }
  }

  lemma {:induction false} BeforeIs(a: string, c: char, b: string)
    requires c !in a
    ensures Before(a + [c] + b, c) == a && Before(a, c) == a
  {
    if a != "" {
      assert (a + [c] + b)[1..] == a[1..] + [c] + b && a == [a[0]] + a[1..];
      BeforeIs(a[1..], c, b);
    }
  }
}
