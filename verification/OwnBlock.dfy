/** What the configuration reader makes of a block's own lines (`src/apache.rs`, "a line this tool
    writes ... can never be read as structure"). */
module OwnBlock {
  import opened Text
  import opened ConfText
  import opened ConfWords
  import opened ConfHosts
  import opened BlockConfig
  import opened RewriteProgram
  import opened BlockText

  // ---- what is asked of a block's lines ----

  /** Only a line that is exactly the marker counts. */
  predicate Marks(l: LogicalLine, mark: string) {
    Trim(l.text) == mark
  }

  /** A directive that neither names a host nor says whether it speaks TLS or HTTP/2, and does not
      switch its rewrite rules off. */
  predicate QuietDirective(d: Directive) {
    && d.name !in ["servername", "serveralias", "sslengine", "protocols"]
    && (d.name == "rewriteengine" ==> d.args == [] || Lower(d.args[0]) != "off")
  }

  predicate Quiet(l: LogicalLine) {
    && !OpensHost(l) && !ClosesHost(l)
    && !Marks(l, CONSOLE_BEGIN) && !Marks(l, CONSOLE_END)
    && (KindOf(l).Sets? ==> QuietDirective(KindOf(l).directive))
  }

  ghost predicate Balanced(ls: seq<LogicalLine>) {
    forall open :: StackAfter(ls, open) == open
  }

  /** A block as this project writes one: whole lines from the first marker to the only closing
      one, which open and close no host and leave the sections around them as they were. */
  ghost predicate IsOwnBlock(ls: seq<LogicalLine>) {
    && |ls| >= 2 && Marks(ls[0], BLOCK_BEGIN) && Marks(ls[|ls| - 1], BLOCK_END)
    && (forall k | 0 <= k < |ls| :: Closed(ls[k]) && Quiet(ls[k]))
    && (forall k | 0 <= k < |ls| - 1 :: !Marks(ls[k], BLOCK_END))
    && Balanced(ls)
  }

  // ---- lines ----

  function Logged(l: BlockLine): LogicalLine {
    LogicalLine(LineText(l) + "\n", LineText(l))
  }

  function LoggedAll(lines: seq<BlockLine>): seq<LogicalLine> {
    if lines == [] then [] else [Logged(lines[0])] + LoggedAll(lines[1..])
  }

  lemma {:induction false} LoggedRaw(lines: seq<BlockLine>)
    ensures Raw(LoggedAll(lines)) == Written(lines)
  {
    hide LineText;
    if lines != [] {
      LoggedRaw(lines[1..]);
    }
  }

  predicate GoodEnd(c: char) {
    !IsSpace(c) && c != '\\'
  }

  predicate NoBreak(s: string) {
    '\n' !in s
  }

  /** A physical line that goes on nowhere. */
  lemma WholeLineCloses(text: string)
    requires text != "" && NoBreak(text) && GoodEnd(text[|text| - 1])
    ensures Closed(LogicalLine(text + "\n", text))
  {
    var raw := text + "\n";
    LineEndOfLine(text, "");
    assert text + "\n" + "" == raw;
    assert raw[..|raw|] == raw && raw[..|text|] == text;
    assert text[|text| - 1] != '\r';
    hide LineEnd;
    FirstLineStep(raw, |raw|, text);
  }

  lemma TrimIndented(t: string, indent: string)
    requires t != "" && !IsSpace(t[0]) && !IsSpace(t[|t| - 1])
    requires forall k | 0 <= k < |indent| :: indent[k] == ' '
    ensures Trim(indent + t) == t
    decreases |indent|
  {
    if indent == "" {
      assert indent + t == t;
    } else {
      assert (indent + t)[1..] == indent[1..] + t;
      TrimIndented(t, indent[1..]);
      assert TrimStart(indent + t) == TrimStart(indent[1..] + t);
    }
  }

  predicate Letter(c: char) {
    'a' <= c <= 'z' || 'A' <= c <= 'Z'
  }

  predicate Letters(s: string) {
    s != "" && forall k | 0 <= k < |s| :: Letter(s[k])
  }

  lemma {:induction false} WordEndOfLetters(name: string, rest: string)
    requires forall k | 0 <= k < |name| :: Letter(name[k])
    ensures WordEnd(name + " " + rest) == |name|
  {
    var s := name + " " + rest;
    if name != "" {
      assert s[1..] == name[1..] + " " + rest;
      WordEndOfLetters(name[1..], rest);
    }
  }

  lemma FirstWord(name: string, rest: string)
    requires Letters(name)
    ensures Words(name + " " + rest) == [name] + Words(" " + rest)
  {
    hide WordEnd;
    var t := name + " " + rest;
    WordEndOfLetters(name, rest);
    assert t[..|name|] == name && t[|name|..] == " " + rest;
    assert TrimStart(t) == t;
    WordsStep(t, name, " " + rest);
  }

  /** A line that trims to a name and its arguments is that directive. */
  lemma KindOfWords(text: string, t: string, name: string, args: seq<string>)
    requires Trim(text) == t && Trim(t) == t && t != "" && Letter(t[0])
    requires Words(t) == [name] + args
    ensures TextKind(text) == Sets(Directive(Lower(name), args))
  {
    hide Trim, Words, Lower;
    assert ([name] + args)[1..] == args;
  }

  /** A directive's name is the first word of its line. */
  lemma SettingKind(indent: string, name: string, rest: string)
    requires Letters(name) && rest != "" && !IsSpace(rest[|rest| - 1])
    requires forall k | 0 <= k < |indent| :: indent[k] == ' '
    ensures TextKind(indent + (name + " " + rest)) == Sets(Directive(Lower(name), Words(" " + rest)))
    ensures Trim(indent + (name + " " + rest)) == name + " " + rest
  {
    hide Trim, Words, TextKind, Lower;
    var t := name + " " + rest;
    assert Letter(t[0]) && !IsSpace(t[0]);
    assert t[|t| - 1] == rest[|rest| - 1];
    TrimIndented(t, indent);
    TrimIndented(t, "");
    assert "" + t == t;
    FirstWord(name, rest);
    KindOfWords(indent + t, t, name, Words(" " + rest));
  }

  /** A name that is none of those the reader acts on. */
  predicate QuietName(name: string) {
    Letters(name) && LowerChar(name[0]) == 'r' && |name| != 13
  }

  lemma QuietNameIsQuiet(name: string, args: seq<string>)
    requires QuietName(name)
    ensures QuietDirective(Directive(Lower(name), args))
  {
    assert Lower(name)[0] == 'r';
    assert |"rewriteengine"| == 13;
  }

  // ---- each kind of line ----

  /** Comments are the two markers, directives three of `mod_rewrite`'s. */
  predicate Writable(l: BlockLine) {
    match l
    case Comment(text) => text == BLOCK_BEGIN || text == BLOCK_END
    case Setting(name, args) =>
      && args != "" && NoBreak(args) && GoodEnd(args[|args| - 1])
      && (QuietName(name) || (name == "RewriteEngine" && args == "On"))
    case InDirectory(dir) => NoBreak(ConfQuoted(dir))
    case _ => true
  }

  /** What the reader makes of a line: nothing, a quiet directive, or one side of a section that is
      not a host. */
  ghost predicate Reads(l: BlockLine) {
    var k := KindOf(Logged(l));
    match l
    case Comment(_) => k == Nothing
    case Setting(_, _) => k.Sets? && QuietDirective(k.directive)
    case InDirectory(_) => k.Open? && k.name != HOST
    case Granted => k.Sets? && QuietDirective(k.directive)
    case OutOfDirectory => k.Close? && k.name != HOST
  }

  /** The text a line trims to. */
  function Trimmed(l: BlockLine): string {
    match l
    case Comment(text) => text
    case Setting(name, args) => name + " " + args
    case InDirectory(dir) => "<Directory " + ConfQuoted(dir) + ">"
    case Granted => "Require all granted"
    case OutOfDirectory => "</Directory>"
  }

  lemma SettingReads(name: string, args: string)
    requires Writable(Setting(name, args)) && QuietName(name)
    ensures Reads(Setting(name, args)) && Closed(Logged(Setting(name, args)))
    ensures Trim(LineText(Setting(name, args))) == Trimmed(Setting(name, args))
  {
    hide TextKind, Trim, Words, Lower, FirstLine, QuietDirective;
    assert "    " + name + " " + args == "    " + (name + " " + args);
    SettingKind("    ", name, args);
    QuietNameIsQuiet(name, Words(" " + args));
    WholeLineCloses(LineText(Setting(name, args)));
  }

  /** A single word of letters. */
  lemma {:induction false} WordEndAtEnd(w: string)
    requires forall k | 0 <= k < |w| :: Letter(w[k])
    ensures WordEnd(w) == |w|
  {
    if w != "" {
      WordEndAtEnd(w[1..]);
    }
  }

  lemma OneWord(w: string)
    requires Letters(w)
    ensures Words(w) == [w] && Words(" " + w) == [w]
  {
    hide WordEnd;
    WordEndAtEnd(w);
    assert Letter(w[0]) && TrimStart(w) == w;
    assert w[..|w|] == w && w[|w|..] == "";
    assert Words("") == [];
    WordsStep(w, w, "");
    assert (" " + w)[1..] == w;
    WordsStep(" " + w, w, "");
  }

  lemma EngineReads()
    ensures Reads(Setting("RewriteEngine", "On")) && Closed(Logged(Setting("RewriteEngine", "On")))
    ensures Trim(LineText(Setting("RewriteEngine", "On"))) == Trimmed(Setting("RewriteEngine", "On"))
  {
    EngineReadsAs("RewriteEngine", "On");
  }

  lemma EngineReadsAs(name: string, args: string)
    requires Letters(name) && LowerChar(name[0]) == 'r' && Letters(args) && |args| == 2
    ensures Reads(Setting(name, args)) && Closed(Logged(Setting(name, args)))
    ensures Trim(LineText(Setting(name, args))) == Trimmed(Setting(name, args))
  {
    hide TextKind, Trim, Words, FirstLine;
    assert Letter(args[1]);
    assert "    " + name + " " + args == "    " + (name + " " + args);
    SettingKind("    ", name, args);
    OneWord(args);
    assert Lower(name)[0] == 'r' && |Lower(args)| == 2 && |"off"| == 3;
    assert NoBreak(LineText(Setting(name, args))) by {
      assert forall k | 0 <= k < |name| :: Letter(name[k]);
    }
    WholeLineCloses(LineText(Setting(name, args)));
  }

  /** A line in angle brackets is a section's tag. */
  lemma TagKind(text: string, inner: string, closing: bool, name: string, args: seq<string>)
    requires Trim(text) == "<" + inner + ">" && Trim("<" + inner + ">") == "<" + inner + ">" && inner != ""
    requires closing == StartsWith(inner, "/")
    requires Words(if closing then inner[1..] else inner) == [name] + args
    ensures TextKind(text) == if closing then Close(Lower(name)) else Open(Lower(name), args)
  {
    hide Trim, Words, Lower;
    var t := "<" + inner + ">";
    assert t[1..|t| - 1] == inner;
    assert ([name] + args)[1..] == args;
  }

  lemma DirectoryReads(name: string, dir: string, indent: string)
    requires Letters(name) && NoBreak(ConfQuoted(dir)) && indent == "    "
    ensures var t := "<" + (name + " " + ConfQuoted(dir)) + ">";
            var text := indent + t;
            TextKind(text) == Open(Lower(name), Words(" " + ConfQuoted(dir))) && Trim(text) == t
            && Closed(LogicalLine(text + "\n", text))
  {
    hide TextKind, Trim, Words, Lower, ConfQuoted, FirstLine;
    var inner := name + " " + ConfQuoted(dir);
    var t := "<" + inner + ">";
    assert Letter(inner[0]);
    TrimIndented(t, indent);
    TrimIndented(t, "");
    assert "" + t == t;
    FirstWord(name, ConfQuoted(dir));
    TagKind(indent + t, inner, false, name, Words(" " + ConfQuoted(dir)));
    assert forall k | 0 <= k < |name| :: Letter(name[k]);
    WholeLineCloses(indent + t);
  }

  lemma OutReads(name: string, indent: string)
    requires Letters(name) && indent == "    "
    ensures var t := "<" + ("/" + name) + ">";
            var text := indent + t;
            TextKind(text) == Close(Lower(name)) && Trim(text) == t && Closed(LogicalLine(text + "\n", text))
  {
    hide TextKind, Trim, Words, Lower, FirstLine;
    var inner := "/" + name;
    var t := "<" + inner + ">";
    TrimIndented(t, indent);
    TrimIndented(t, "");
    assert "" + t == t;
    assert inner[1..] == name;
    OneWord(name);
    TagKind(indent + t, inner, true, name, []);
    assert forall k | 0 <= k < |name| :: Letter(name[k]);
    WholeLineCloses(indent + t);
  }

  lemma CommentReads(t: string, indent: string)
    requires t != "" && t[0] == '#' && NoBreak(t) && GoodEnd(t[|t| - 1]) && indent == "    "
    ensures TextKind(indent + t) == Nothing && Trim(indent + t) == t
    ensures Closed(LogicalLine(indent + t + "\n", indent + t))
  {
    hide Trim, FirstLine;
    TrimIndented(t, indent);
    WholeLineCloses(indent + t);
  }

  lemma InDirectoryReads(dir: string)
    requires NoBreak(ConfQuoted(dir))
    ensures Reads(InDirectory(dir)) && Closed(Logged(InDirectory(dir)))
    ensures Trim(LineText(InDirectory(dir))) == Trimmed(InDirectory(dir))
  {
    hide TextKind, Trim, Words, FirstLine, ConfQuoted, Closed;
    DirectoryReads("Directory", dir, "    ");
    assert "    " + ("<" + ("Directory" + " " + ConfQuoted(dir)) + ">") == "    <Directory " + ConfQuoted(dir) + ">";
    assert "<" + ("Directory" + " " + ConfQuoted(dir)) + ">" == "<Directory " + ConfQuoted(dir) + ">";
    assert |Lower("Directory")| == 9 && |HOST| == 11;
  }

  lemma OutOfDirectoryReads()
    ensures Reads(OutOfDirectory) && Closed(Logged(OutOfDirectory))
    ensures Trim(LineText(OutOfDirectory)) == Trimmed(OutOfDirectory)
  {
    hide TextKind, Trim, Words, FirstLine, Closed;
    OutReads("Directory", "    ");
    assert "    " + ("<" + ("/" + "Directory") + ">") == "    </Directory>";
    assert "<" + ("/" + "Directory") + ">" == "</Directory>";
    assert |Lower("Directory")| == 9 && |HOST| == 11;
  }

  lemma CommentLineReads(t: string)
    requires Writable(Comment(t))
    ensures Reads(Comment(t)) && Closed(Logged(Comment(t))) && Trim(LineText(Comment(t))) == t
  {
    hide TextKind, Trim, FirstLine, Closed;
    CommentReads(t, "    ");
  }

  /** Every line written stands by itself, and reads as what it is. */
  lemma LineReads(l: BlockLine)
    requires Writable(l)
    ensures Reads(l) && Closed(Logged(l)) && Trim(LineText(l)) == Trimmed(l)
  {
    hide Reads, Trim, ConfQuoted, Closed, Logged, LineText;
    match l
    case Comment(text) => CommentLineReads(text);
    case Setting(name, args) =>
      if QuietName(name) { SettingReads(name, args); } else { EngineReads(); }
    case InDirectory(dir) => InDirectoryReads(dir);
    case Granted => GrantedReads();
    case OutOfDirectory => OutOfDirectoryReads();
  }

  lemma GrantedReads()
    ensures Reads(Granted) && Closed(Logged(Granted)) && Trim(LineText(Granted)) == Trimmed(Granted)
  {
    hide TextKind, Trim, QuietDirective, Closed;
    assert "        " + ("Require" + " " + "all granted") == "        Require all granted";
    assert "Require" + " " + "all granted" == "Require all granted";
    NamedLineReads("        ", "Require", "all granted");
  }

  lemma NamedLineReads(indent: string, name: string, args: string)
    requires QuietName(name) && args != "" && NoBreak(args) && GoodEnd(args[|args| - 1])
    requires forall k | 0 <= k < |indent| :: indent[k] == ' '
    ensures var text := indent + (name + " " + args);
            && TextKind(text).Sets? && QuietDirective(TextKind(text).directive)
            && Trim(text) == name + " " + args && Closed(LogicalLine(text + "\n", text))
  {
    hide TextKind, Trim, Words, FirstLine, Lower, QuietDirective, Closed;
    SettingKind(indent, name, args);
    QuietNameIsQuiet(name, Words(" " + args));
    var text := indent + (name + " " + args);
    assert forall k | 0 <= k < |name| :: Letter(name[k]);
    WholeLineCloses(text);
  }

  // ---- a whole block ----

  /** Of the markers, a line is at most the one it is written as. */
  lemma LineIsQuiet(l: BlockLine)
    requires Writable(l)
    ensures Closed(Logged(l)) && Quiet(Logged(l))
    ensures Marks(Logged(l), BLOCK_BEGIN) <==> l == Comment(BLOCK_BEGIN)
    ensures Marks(Logged(l), BLOCK_END) <==> l == Comment(BLOCK_END)
  {
    hide TextKind, Trim, FirstLine, ConfQuoted, QuietDirective, Closed, Writable;
    LineReads(l);
    TrimmedMarks(l);
  }

  lemma TrimmedMarks(l: BlockLine)
    requires Writable(l)
    ensures Trimmed(l) != CONSOLE_BEGIN && Trimmed(l) != CONSOLE_END
    ensures Trimmed(l) == BLOCK_BEGIN <==> l == Comment(BLOCK_BEGIN)
    ensures Trimmed(l) == BLOCK_END <==> l == Comment(BLOCK_END)
  {
    hide ConfQuoted;
    assert |BLOCK_BEGIN| == 31 && |BLOCK_END| == 15 && |CONSOLE_BEGIN| == 39 && |CONSOLE_END| == 23;
    assert BLOCK_BEGIN[0] == BLOCK_END[0] == CONSOLE_BEGIN[0] == CONSOLE_END[0] == '#';
    match l
    case Comment(_) =>
    case Setting(name, args) => assert Trimmed(l)[0] == name[0]; assert Letter(name[0]);
    case InDirectory(_) => assert Trimmed(l)[0] == '<';
    case Granted => assert Trimmed(l)[0] == 'R';
    case OutOfDirectory => assert Trimmed(l)[0] == '<';
  }

  lemma {:induction false} LoggedAt(lines: seq<BlockLine>)
    ensures |LoggedAll(lines)| == |lines|
    ensures forall k | 0 <= k < |lines| :: LoggedAll(lines)[k] == Logged(lines[k])
  {
    hide Logged;
    if lines != [] {
      LoggedAt(lines[1..]);
    }
  }

  ghost predicate AllWritable(lines: seq<BlockLine>) {
    forall k | 0 <= k < |lines| :: Writable(lines[k])
  }

  /** Lines that open or close nothing. */
  ghost predicate AllFlat(lines: seq<BlockLine>) {
    forall k | 0 <= k < |lines| :: !lines[k].InDirectory? && !lines[k].OutOfDirectory?
  }

  lemma {:induction false} FlatStack(lines: seq<BlockLine>, rest: seq<LogicalLine>, open: seq<string>)
    requires AllWritable(lines) && AllFlat(lines)
    ensures StackAfter(LoggedAll(lines) + rest, open) == StackAfter(rest, open)
  {
    hide Logged, KindOf, Writable;
    if lines == [] {
      assert LoggedAll(lines) + rest == rest;
    } else {
      LineKeepsStack(lines[0], open);
      FlatStack(lines[1..], rest, open);
      var more := LoggedAll(lines[1..]) + rest;
      assert LoggedAll(lines) + rest == [Logged(lines[0])] + more;
      assert ([Logged(lines[0])] + more)[1..] == more;
    }
  }

  lemma LineKeepsStack(l: BlockLine, open: seq<string>)
    requires Writable(l) && !l.InDirectory? && !l.OutOfDirectory?
    ensures Stack(open, KindOf(Logged(l))) == open
  {
    hide Logged, KindOf, Writable;
    LineReads(l);
  }

  /** A section opened and closed again. */
  lemma OpenedAndClosed(a: LogicalLine, b: LogicalLine, c: LogicalLine, rest: seq<LogicalLine>, open: seq<string>)
    requires KindOf(a).Open? && KindOf(b).Sets? && KindOf(c).Close?
    ensures StackAfter([a] + ([b] + ([c] + rest)), open) == StackAfter(rest, open)
  {
    hide KindOf, StackAfter;
    StackCons(a, [b] + ([c] + rest), open);
    var inside := Stack(open, KindOf(a));
    StackCons(b, [c] + rest, inside);
    StackCons(c, rest, inside);
    assert inside[..|inside| - 1] == open;
  }

  lemma DirectoryTags(dir: string)
    requires NoBreak(ConfQuoted(dir))
    ensures KindOf(Logged(InDirectory(dir))).Open?
    ensures KindOf(Logged(Granted)).Sets? && KindOf(Logged(OutOfDirectory)).Close?
  {
    hide Logged, KindOf, ConfQuoted, QuietDirective;
    InDirectoryReads(dir);
    GrantedReads();
    OutOfDirectoryReads();
  }

  lemma ServeStack(dir: string, rest: seq<LogicalLine>, open: seq<string>)
    requires NoBreak(ConfQuoted(dir))
    ensures StackAfter(LoggedAll([InDirectory(dir), Granted, OutOfDirectory]) + rest, open) == StackAfter(rest, open)
  {
    hide *;
    var a, b, c := Logged(InDirectory(dir)), Logged(Granted), Logged(OutOfDirectory);
    LoggedThree(InDirectory(dir), Granted, OutOfDirectory);
    DirectoryTags(dir);
    OpenedAndClosed(a, b, c, rest, open);
    assert [a, b, c] + rest == [a] + ([b] + ([c] + rest));
  }

  lemma LoggedThree(a: BlockLine, b: BlockLine, c: BlockLine)
    ensures LoggedAll([a, b, c]) == [Logged(a), Logged(b), Logged(c)]
  {
    hide Logged;
    LoggedAt([a, b, c]);
  }

  lemma StackCons(l: LogicalLine, rest: seq<LogicalLine>, open: seq<string>)
    ensures StackAfter([l] + rest, open) == StackAfter(rest, Stack(open, KindOf(l)))
  {
    hide KindOf;
    assert ([l] + rest)[1..] == rest;
  }

  lemma {:induction false} LoggedConcat(a: seq<BlockLine>, b: seq<BlockLine>)
    ensures LoggedAll(a + b) == LoggedAll(a) + LoggedAll(b)
  {
    hide Logged;
    if a == [] {
      assert a + b == b;
    } else {
      assert (a + b)[1..] == a[1..] + b;
      LoggedConcat(a[1..], b);
    }
  }

  /** The lines between a block's markers. */
  ghost predicate InnerLines(inner: seq<BlockLine>) {
    AllWritable(inner) && forall k | 0 <= k < |inner| :: !inner[k].Comment?
  }

  /** Lines that keep the sections open, between the two markers, are a block. */
  lemma MarkedIsOwn(inner: seq<BlockLine>)
    requires InnerLines(inner)
    requires forall rest, open :: StackAfter(LoggedAll(inner) + rest, open) == StackAfter(rest, open)
    ensures IsOwnBlock(LoggedAll([Comment(BLOCK_BEGIN)] + inner + [Comment(BLOCK_END)]))
  {
    hide Logged, KindOf, Marks, Quiet, Closed, StackAfter, LoggedAll, Writable;
    var first, last := Comment(BLOCK_BEGIN), Comment(BLOCK_END);
    var lines := [first] + inner + [last];
    var ls := LoggedAll(lines);
    LoggedAt(lines);
    MarkersDiffer();
    forall k | 0 <= k < |lines|
      ensures Closed(ls[k]) && Quiet(ls[k])
      ensures k < |lines| - 1 ==> !Marks(ls[k], BLOCK_END)
    {
      MarkersWritable();
      if 0 < k < |lines| - 1 { assert lines[k] == inner[k - 1]; }
      LineIsQuiet(lines[k]);
    }
    MarkersWritable();
    LineIsQuiet(first);
    LineIsQuiet(last);
    assert ls[0] == Logged(first) && ls[|ls| - 1] == Logged(last);
    forall open
      ensures StackAfter(ls, open) == open
    {
      LoggedConcat([first] + inner, [last]);
      LoggedConcat([first], inner);
      assert ls == LoggedAll([first]) + (LoggedAll(inner) + LoggedAll([last]));
      OneFlat(first, LoggedAll(inner) + LoggedAll([last]), open);
      OneFlat(last, [], open);
      assert LoggedAll([last]) + [] == LoggedAll([last]);
      assert StackAfter([], open) == open by { NoStack(open); }
    }
  }

  lemma NoStack(open: seq<string>)
    ensures StackAfter([], open) == open
  {
  }

  lemma OneFlat(l: BlockLine, rest: seq<LogicalLine>, open: seq<string>)
    requires Writable(l) && l.Comment?
    ensures StackAfter(LoggedAll([l]) + rest, open) == StackAfter(rest, open)
  {
    hide StackAfter, LoggedAll, Writable;
    FlatStack([l], rest, open);
  }

  lemma MarkersDiffer()
    ensures BLOCK_BEGIN != BLOCK_END
  {
    assert |BLOCK_BEGIN| == 31 && |BLOCK_END| == 15;
  }

  lemma MarkersWritable()
    ensures Writable(Comment(BLOCK_BEGIN)) && Writable(Comment(BLOCK_END))
  {
  }

  // ---- a compiled block ----

  ghost predicate AllUnbroken(texts: seq<string>) {
    forall k | 0 <= k < |texts| :: NoBreak(texts[k])
  }

  lemma {:induction false} JoinUnbroken(texts: seq<string>)
    requires AllUnbroken(texts)
    ensures NoBreak(Join(texts))
  {
    if |texts| > 1 {
      var n := |texts| - 1;
      JoinUnbroken(texts[..n]);
      assert NoBreak(texts[n]);
    } else if |texts| == 1 {
      assert NoBreak(texts[0]);
    }
  }

  lemma {:induction false} JoinedUnbroken(groups: seq<Group>)
    requires AllUnbroken(Members(groups))
    ensures AllUnbroken(Joined(groups))
  {
    hide Join, NoBreak;
    if groups != [] {
      var front, g := groups[..|groups| - 1], groups[|groups| - 1];
      UnbrokenSplit(Members(front), g.patterns);
      JoinedUnbroken(front);
      JoinUnbroken(g.patterns);
    }
  }

  lemma UnbrokenSplit(a: seq<string>, b: seq<string>)
    ensures AllUnbroken(a + b) <==> AllUnbroken(a) && AllUnbroken(b)
  {
    hide NoBreak;
    if AllUnbroken(a + b) {
      forall k | 0 <= k < |a| ensures NoBreak(a[k]) { assert (a + b)[k] == a[k]; }
      forall k | 0 <= k < |b| ensures NoBreak(b[k]) { assert (a + b)[|a| + k] == b[k]; }
    }
  }

  lemma ChunksUnbroken(env: Env, regexes: seq<string>, max: nat)
    requires AllUnbroken(regexes)
    ensures AllUnbroken(Chunks(env, regexes, max))
  {
    hide Joined, Members, Groups, NoBreak;
    GroupsKeepPatterns(env, [], regexes, max);
    assert Members([]) + regexes == regexes by { NoMembers(); }
    JoinedUnbroken(Groups(env, [], regexes, max));
  }

  lemma NoMembers()
    ensures Members([]) == []
  {
  }

  lemma {:induction false} EscapedUnbroken(s: string)
    requires NoBreak(s)
    ensures NoBreak(EscapeLiteral(s))
  {
    if s != "" {
      assert s == [s[0]] + s[1..];
      EscapedUnbroken(s[1..]);
    }
  }

  lemma {:induction false} BodyUnbroken(regex: string)
    requires NoBreak(regex)
    ensures NoBreak(RewriteBody(regex))
    decreases |regex|
  {
    if regex == "" {
    } else if regex[0] == '\\' && |regex| > 1 {
      assert regex == [regex[0], regex[1]] + regex[2..];
      BodyUnbroken(regex[2..]);
    } else {
      assert regex == [regex[0]] + regex[1..];
      BodyUnbroken(regex[1..]);
    }
  }

  lemma {:induction false} EscapedPathsUnbroken(paths: seq<string>, end: string)
    requires NoBreak(end)
    ensures AllUnbroken(EscapedPaths(paths, end))
  {
    hide EscapeLiteral;
    if paths != [] {
      EscapedPathsUnbroken(paths[1..], end);
      if ValidPath(paths[0]) {
        PathUnbroken(paths[0]);
        EscapedUnbroken(paths[0]);
      }
    }
  }

  lemma PathUnbroken(path: string)
    requires ValidPath(path)
    ensures NoBreak(path)
  {
    hide Utf8Length, EscapeLiteral, Trim;
  }

  lemma AgentUnbroken(agent: string)
    requires ValidAgent(agent)
    ensures NoBreak(EscapeLiteral(agent))
  {
    hide Utf8Length, EscapeLiteral, Trim;
    assert NoBreak(agent);
    EscapedUnbroken(agent);
  }

  lemma {:induction false} AnchoredUnbroken(chunks: seq<string>)
    requires AllUnbroken(chunks)
    ensures AllUnbroken(Anchored(chunks))
  {
    if chunks != [] {
      assert NoBreak(chunks[0]);
      AnchoredUnbroken(chunks[1..]);
    }
  }

  lemma ExemptionsUnbroken(env: Env, prefixes: seq<string>, exact: seq<string>)
    ensures AllUnbroken(ExemptionRegexes(env, prefixes, exact))
  {
    hide EscapedPaths, Chunks, Anchored;
    EscapedPathsUnbroken(prefixes, "");
    EscapedPathsUnbroken(exact, "$");
    var all := EscapedPaths(prefixes, "") + EscapedPaths(exact, "$");
    UnbrokenSplit(EscapedPaths(prefixes, ""), EscapedPaths(exact, "$"));
    ChunksUnbroken(env, all, MAX_CHUNK - 3);
    AnchoredUnbroken(Chunks(env, all, MAX_CHUNK - 3));
  }

  lemma AgentChunksUnbroken(env: Env, c: Config)
    ensures AllUnbroken(AgentChunks(env, c))
  {
    hide Chunks, FindText;
    var usable := UsablePatterns(env, c.patterns);
    forall k | 0 <= k < |usable|
      ensures NoBreak(usable[k])
    {
      assert usable[k] in usable;
      assert SurvivesApache(usable[k]);
    }
    ChunksUnbroken(env, usable, MAX_CHUNK);
  }

  // ---- the lines of rules ----

  predicate FineCond(c: Cond) {
    c.test.Grouped? ==> NoBreak(c.test.regex)
  }

  ghost predicate AllFine(conds: seq<Cond>) {
    forall k | 0 <= k < |conds| :: FineCond(conds[k])
  }

  ghost predicate FineRule(rule: Rule) {
    AllFine(rule.conds) && (rule.action.Serve? ==> NoBreak(rule.action.file))
  }

  lemma CondWritable(c: Cond)
    requires FineCond(c)
    ensures Writable(CondLine(c))
  {
    hide RewriteBody;
    if c.test.Grouped? { BodyUnbroken(c.test.regex); }
    VarUnbroken(c.v);
    var a, b, d := VarText(c.v) + " ", TestText(c.test), FlagsText(c);
    assert NoBreak(a + b + d);
    var args := a + b + d;
    assert GoodEnd(args[|args| - 1]) by {
      if d == "" { assert args[|args| - 1] == b[|b| - 1]; } else { assert args[|args| - 1] == d[|d| - 1] == ']'; }
    }
    assert VarText(c.v) + " " + TestText(c.test) + FlagsText(c) == args;
  }

  lemma VarUnbroken(v: Var)
    ensures NoBreak(VarText(v))
  {
    if v in [UserAgent, Uri, Protocol, Accept, AcceptLanguage] {
      HeaderVarUnbroken(v);
    } else {
      OtherVarUnbroken(v);
    }
  }

  lemma HeaderVarUnbroken(v: Var)
    requires v == UserAgent || v == Uri || v == Protocol || v == Accept || v == AcceptLanguage
    ensures NoBreak(VarText(v))
  {
  }

  lemma OtherVarUnbroken(v: Var)
    requires v == HostHeader || v == TlsVersion || v == Trusted || v == RedirectStatus || v == Flag
    ensures NoBreak(VarText(v))
  {
  }

  lemma RuleWritable(rule: Rule)
    requires FineRule(rule)
    ensures Writable(RuleLine(rule))
  {
    var a, b := UrlText(rule.url) + " ", ActionText(rule.action);
    assert NoBreak(a);
    assert NoBreak(b) && b[|b| - 1] == ']';
    var args := a + b;
    assert NoBreak(args) && args[|args| - 1] == b[|b| - 1];
  }

  ghost predicate AllFineRules(rules: seq<Rule>) {
    forall k | 0 <= k < |rules| :: FineRule(rules[k])
  }

  /** Lines between the markers that are neither a marker nor a tag. */
  ghost predicate PlainLines(lines: seq<BlockLine>) {
    InnerLines(lines) && AllFlat(lines)
  }

  lemma PlainConcat(a: seq<BlockLine>, b: seq<BlockLine>)
    requires PlainLines(a) && PlainLines(b)
    ensures PlainLines(a + b)
  {
    hide Writable;
  }

  lemma {:induction false} CondLinesPlain(conds: seq<Cond>)
    requires AllFine(conds)
    ensures PlainLines(CondLines(conds))
  {
    hide Writable, FineCond, VarText, TestText, FlagsText;
    if conds != [] {
      CondWritable(conds[0]);
      CondLinesPlain(conds[1..]);
      PlainConcat([CondLine(conds[0])], CondLines(conds[1..]));
    }
  }

  lemma {:induction false} RuleLinesPlain(rules: seq<Rule>)
    requires AllFineRules(rules)
    ensures PlainLines(RuleLines(rules))
  {
    hide Writable, PlainLines, FineCond, UrlText, ActionText;
    if rules == [] {
      NoLinesPlain();
    } else {
      assert FineRule(rules[0]);
      CondLinesPlain(rules[0].conds);
      RuleWritable(rules[0]);
      OneLinePlain(RuleLine(rules[0]));
      RuleLinesPlain(rules[1..]);
      PlainConcat(CondLines(rules[0].conds), [RuleLine(rules[0])]);
      PlainConcat(CondLines(rules[0].conds) + [RuleLine(rules[0])], RuleLines(rules[1..]));
    }
  }

  lemma NoLinesPlain()
    ensures PlainLines([])
  {
  }

  lemma OneLinePlain(l: BlockLine)
    requires Writable(l) && l.Setting?
    ensures PlainLines([l])
  {
    hide Writable;
  }

  lemma FineRulesConcat(a: seq<Rule>, b: seq<Rule>)
    requires AllFineRules(a) && AllFineRules(b)
    ensures AllFineRules(a + b)
  {
    hide FineRule;
  }

  lemma {:induction false} WhensFine(conds: seq<Cond>, on: bool)
    requires AllFine(conds)
    ensures AllFineRules(Whens(conds, on))
  {
    hide FineCond;
    if conds != [] {
      assert FineCond(conds[0]);
      WhensFine(conds[1..], on);
    }
  }

  lemma {:induction false} GroupedFine(v: Var, regexes: seq<string>, either: bool)
    requires AllUnbroken(regexes)
    ensures AllFine(GroupedConds(v, regexes, either))
  {
    hide NoBreak;
    if regexes != [] {
      assert NoBreak(regexes[0]);
      GroupedFine(v, regexes[1..], either);
    }
  }

  lemma {:induction false} ConditionsFine(rules: seq<RequestRule>)
    ensures AllFine(Conditions(rules))
  {
    if rules != [] {
      ConditionFine(rules[0]);
      hide Condition, FineCond;
      ConditionsFine(rules[1..]);
    }
  }

  lemma ConditionFine(rule: RequestRule)
    ensures FineCond(Condition(rule))
  {
    if rule == IpLiteralHost {
      AddressRuleFine();
    } else {
      ShortRuleFine(rule);
    }
  }

  lemma AddressRuleFine()
    ensures FineCond(Condition(IpLiteralHost))
  {
  }

  lemma ShortRuleFine(rule: RequestRule)
    requires rule != IpLiteralHost
    ensures FineCond(Condition(rule))
  {
  }

  lemma ClearFine(env: Env, agent: string, paths: seq<string>)
    ensures AllFineRules(AgentClear(env, agent, paths))
  {
    hide NoBreak, ExemptionRegexes, EscapeLiteral, ValidAgent, GroupedConds;
    var regexes := ExemptionRegexes(env, paths, []);
    if ValidAgent(agent) && regexes != [] {
      AgentUnbroken(agent);
      ExemptionsUnbroken(env, paths, []);
      GroupedFine(Uri, regexes, true);
      var conds := [Cond(UserAgent, Grouped(EscapeLiteral(agent)), true, false)] + GroupedConds(Uri, regexes, true);
      assert AllFine(conds);
    }
  }

  lemma {:induction false} ClearsFine(env: Env, exemptions: seq<AgentExemption>)
    ensures AllFineRules(AgentClears(env, exemptions))
    decreases |exemptions|
  {
    hide AgentClear, FineRule, PathsOf;
    if exemptions != [] {
      var agent := exemptions[0].userAgent;
      var n := SameAgent(exemptions, agent);
      ClearFine(env, agent, PathsOf(exemptions[..n]));
      ClearsFine(env, exemptions[n..]);
    }
  }

  lemma FinalFine(trusts: bool, status: nat)
    ensures AllFineRules(TrustRules(trusts)) && AllFineRules([FinalRule(status)])
  {
  }

  lemma BlockRulesFine(env: Env, c: Config)
    ensures AllFineRules(BlockRules(env, c))
  {
    hide AllFineRules, AgentChunks, ExemptionRegexes, AgentClears, GroupedConds, Conditions, Whens, TrustRules, FinalRule, AllFine;
    var a := Whens(GroupedConds(UserAgent, AgentChunks(env, c), false), true);
    var b := Whens(Conditions(c.requestRules), true);
    var d := Whens(GroupedConds(Uri, ExemptionRegexes(env, Prefixes(c), Exact(c)), false), false);
    var e := AgentClears(env, c.agentExemptions);
    AgentChunksUnbroken(env, c);
    GroupedFine(UserAgent, AgentChunks(env, c), false);
    WhensFine(GroupedConds(UserAgent, AgentChunks(env, c), false), true);
    ConditionsFine(c.requestRules);
    WhensFine(Conditions(c.requestRules), true);
    ExemptionsUnbroken(env, Prefixes(c), Exact(c));
    GroupedFine(Uri, ExemptionRegexes(env, Prefixes(c), Exact(c)), false);
    WhensFine(GroupedConds(Uri, ExemptionRegexes(env, Prefixes(c), Exact(c)), false), false);
    ClearsFine(env, c.agentExemptions);
    FinalFine(c.trusts, StatusCode(c.response));
    FineRulesConcat(a, b);
    FineRulesConcat(a + b, d);
    FineRulesConcat(a + b + d, e);
    FineRulesConcat(a + b + d + e, TrustRules(c.trusts));
    FineRulesConcat(a + b + d + e + TrustRules(c.trusts), [FinalRule(StatusCode(c.response))]);
  }

  // ---- the whole block ----

  /** The directory of a plain path has no line break in its name. */
  predicate SaneEnv(env: Env) {
    PlainPath(env.robots) ==> NoBreak(env.robotsDir)
  }

  lemma {:induction false} ReplaceUnbroken(s: string, c: char, with: string)
    requires NoBreak(s) && NoBreak(with)
    ensures NoBreak(Replace(s, c, with))
  {
    if s != "" {
      assert s == [s[0]] + s[1..];
      ReplaceUnbroken(s[1..], c, with);
    }
  }

  lemma QuotedUnbroken(text: string)
    requires NoBreak(text)
    ensures NoBreak(ConfQuoted(text))
  {
    hide Replace;
    ReplaceUnbroken(text, '\\', "\\\\");
    ReplaceUnbroken(Replace(text, '\\', "\\\\"), '"', "\\\"");
  }

  /** The lines of the block a configuration compiles to, as the reader finds them; none for no
      block. */
  function OwnLines(env: Env, c: Config): seq<LogicalLine> {
    match Compile(env, c)
    case None => []
    case Some(b) => LoggedAll(BlockLines(env, b))
  }

  lemma BlockWithoutFile(rules: seq<BlockLine>)
    requires PlainLines(rules)
    ensures IsOwnBlock(LoggedAll([Comment(BLOCK_BEGIN)] + rules + [Comment(BLOCK_END)]))
  {
    hide Writable, LoggedAll, StackAfter, IsOwnBlock, InnerLines;
    forall rest, open
      ensures StackAfter(LoggedAll(rules) + rest, open) == StackAfter(rest, open)
    {
      PlainIsFlat(rules);
      FlatStack(rules, rest, open);
    }
    MarkedIsOwn(rules);
  }

  lemma PlainIsFlat(lines: seq<BlockLine>)
    requires PlainLines(lines)
    ensures AllWritable(lines) && AllFlat(lines)
  {
  }

  lemma BlockWithFile(before: seq<BlockLine>, dir: string, rules: seq<BlockLine>)
    requires PlainLines(before) && PlainLines(rules) && NoBreak(ConfQuoted(dir))
    ensures var inner := before + [InDirectory(dir), Granted, OutOfDirectory] + rules;
            IsOwnBlock(LoggedAll([Comment(BLOCK_BEGIN)] + inner + [Comment(BLOCK_END)]))
  {
    hide LoggedAll, StackAfter, IsOwnBlock, ConfQuoted, PlainLines, InnerLines;
    var serve := [InDirectory(dir), Granted, OutOfDirectory];
    var inner := before + serve + rules;
    PlainIsFlat(before);
    PlainIsFlat(rules);
    forall rest, open
      ensures StackAfter(LoggedAll(inner) + rest, open) == StackAfter(rest, open)
    {
      LoggedConcat(before + serve, rules);
      LoggedConcat(before, serve);
      var after := LoggedAll(rules) + rest;
      assert LoggedAll(inner) + rest == LoggedAll(before) + (LoggedAll(serve) + after);
      FlatStack(before, LoggedAll(serve) + after, open);
      ServeStack(dir, after, open);
      FlatStack(rules, rest, open);
    }
    InnerWithFile(before, dir, rules);
    MarkedIsOwn(inner);
  }

  lemma InnerWithFile(before: seq<BlockLine>, dir: string, rules: seq<BlockLine>)
    requires PlainLines(before) && PlainLines(rules) && NoBreak(ConfQuoted(dir))
    ensures InnerLines(before + [InDirectory(dir), Granted, OutOfDirectory] + rules)
  {
    hide ConfQuoted;
  }

  /** What is compiled and written is a block the reader takes for one, whole and by itself. */
  lemma CompiledIsOwn(env: Env, c: Config)
    requires SaneEnv(env) && Compile(env, c).Some?
    ensures IsOwnBlock(OwnLines(env, c))
    ensures BlockTextOf(env, c) == Some(Raw(OwnLines(env, c)))
  {
    hide LoggedAll, Written, IsOwnBlock, PlainLines, RuleLines, BlocksSomething, BlockRules, UrlText, ActionText, ConfQuoted;
    var b := Compile(env, c).value;
    LoggedRaw(BlockLines(env, b));
    BlockRulesFine(env, c);
    NoRulesFine();
    RuleLinesPlain(b.rules);
    EnginePlain();
    var engine := [Setting("RewriteEngine", "On")];
    match b.robots
    case None =>
      PlainConcat(engine, RuleLines(b.rules));
      BlockWithoutFile(engine + RuleLines(b.rules));
      assert BlockLines(env, b) == [Comment(BLOCK_BEGIN)] + (engine + RuleLines(b.rules)) + [Comment(BLOCK_END)];
    case Some(file) =>
      QuotedUnbroken(env.robotsDir);
      ServeRulePlain(file);
      var serve := RuleLine(Rule([], RobotsUrl, Serve(file)));
      PlainConcat(engine, [serve]);
      BlockWithFile(engine + [serve], env.robotsDir, RuleLines(b.rules));
      assert BlockLines(env, b)
          == [Comment(BLOCK_BEGIN)]
             + (engine + [serve] + [InDirectory(env.robotsDir), Granted, OutOfDirectory] + RuleLines(b.rules))
             + [Comment(BLOCK_END)];
  }

  lemma NoRulesFine()
    ensures AllFineRules([])
  {
  }

  lemma EnginePlain()
    ensures PlainLines([Setting("RewriteEngine", "On")])
  {
    OneLinePlain(Setting("RewriteEngine", "On"));
  }

  lemma ServeRulePlain(file: string)
    requires PlainPath(file)
    ensures PlainLines([RuleLine(Rule([], RobotsUrl, Serve(file)))])
  {
    RuleWritable(Rule([], RobotsUrl, Serve(file)));
    OneLinePlain(RuleLine(Rule([], RobotsUrl, Serve(file))));
  }
}
