/** The text of a block, read the way `mod_rewrite` reads it, is the program it was compiled to
    (`src/apache.rs`, "writing a block"). */
module RewriteReader {
  import opened Text
  import opened ConfText
  import opened ConfWords
  import opened BlockConfig
  import opened RewriteProgram
  import opened BlockText
  import opened OwnBlock

  // ---- mod_rewrite's own reading ----

  /** A directive's arguments: a quoted one runs to the next quote, and nothing escapes it. */
  function Args(text: string): seq<string>
    decreases |text|
  {
    TrimStartShrinks(text);
    var s := TrimStart(text);
    if s == "" then []
    else if s[0] == '"' then
      match SplitOnce(s[1..], '"')
      case None => [s[1..]]
      case Some(h) => [h.before] + Args(h.after)
    else [s[..WordEnd(s)]] + Args(s[WordEnd(s)..])
  }

  /** A condition as it is read: the variable, the pattern, the flags. */
  datatype SeenCond = SeenCond(v: Var, pattern: string, nocase: bool, ornext: bool)

  /** A rule as it is read, with the conditions in front of it. */
  datatype SeenRule = SeenRule(conds: seq<SeenCond>, url: string, target: string, flags: string)

  function VarOf(text: string): Option<Var> {
    if text == VarText(UserAgent) then Some(UserAgent)
    else if text == VarText(Uri) then Some(Uri)
    else if text == VarText(Protocol) then Some(Protocol)
    else if text == VarText(Accept) then Some(Accept)
    else if text == VarText(AcceptLanguage) then Some(AcceptLanguage)
    else if text == VarText(HostHeader) then Some(HostHeader)
    else if text == VarText(TlsVersion) then Some(TlsVersion)
    else if text == VarText(Trusted) then Some(Trusted)
    else if text == VarText(RedirectStatus) then Some(RedirectStatus)
    else if text == VarText(Flag) then Some(Flag)
    else None
  }

  function ReadCond(args: seq<string>): Option<SeenCond> {
    if |args| < 2 || |args| > 3 || VarOf(args[0]).None? then None
    else
      var v := VarOf(args[0]).value;
      if |args| == 2 then Some(SeenCond(v, args[1], false, false))
      else if args[2] == "[NC]" then Some(SeenCond(v, args[1], true, false))
      else if args[2] == "[NC,OR]" then Some(SeenCond(v, args[1], true, true))
      else if args[2] == "[OR]" then Some(SeenCond(v, args[1], false, true))
      else None
  }

  /** Conditions gather until the rule they guard. */
  function ReadRules(lines: seq<BlockLine>, conds: seq<SeenCond>): Option<seq<SeenRule>>
    decreases |lines|
  {
    if lines == [] then Some([])
    else if lines[0].Setting? && lines[0].name == "RewriteCond" then
      match ReadCond(Args(lines[0].args))
      case None => None
      case Some(c) => ReadRules(lines[1..], conds + [c])
    else if lines[0].Setting? && lines[0].name == "RewriteRule" then
      var args := Args(lines[0].args);
      if |args| != 3 then None
      else
        match ReadRules(lines[1..], [])
        case None => None
        case Some(rest) => Some([SeenRule(conds, args[0], args[1], args[2])] + rest)
    else ReadRules(lines[1..], conds)
  }

  // ---- what a program looks like ----

  function PatternText(t: Test): string {
    match t
    case Grouped(regex) => "(?:" + RewriteBody(regex) + ")"
    case Empty => "^$"
    case IsOne => "=1"
  }

  function SeeCond(c: Cond): SeenCond {
    SeenCond(c.v, PatternText(c.test), c.nocase, c.ornext)
  }

  function SeeConds(conds: seq<Cond>): seq<SeenCond> {
    if conds == [] then [] else [SeeCond(conds[0])] + SeeConds(conds[1..])
  }

  function TargetText(a: Action): string {
    match a
    case Serve(file) => file
    case _ => "-"
  }

  function FlagWord(a: Action): string {
    match a
    case Mark(on) => "[E=stop_bots_block:" + FlagText(on) + "]"
    case Deny(status) => "[R=" + PrintNat(status) + ",L,NS]"
    case Serve(_) => "[L]"
  }

  function See(rule: Rule): SeenRule {
    SeenRule(SeeConds(rule.conds), UrlText(rule.url), TargetText(rule.action), FlagWord(rule.action))
  }

  function SeeAll(rules: seq<Rule>): seq<SeenRule> {
    if rules == [] then [] else [See(rules[0])] + SeeAll(rules[1..])
  }

  // ---- arguments ----

  lemma ArgsSkipSpace(rest: string)
    ensures Args(" " + rest) == Args(rest)
  {
    assert (" " + rest)[1..] == rest;
    assert TrimStart(" " + rest) == TrimStart(rest);
  }

  /** A bare word, up to a space or the end. */
  lemma ArgWord(word: string, rest: string)
    requires IsWord(word) && word[0] != '"' && (rest == "" || IsSpace(rest[0]))
    ensures Args(word + rest) == [word] + Args(rest)
  {
    var s := word + rest;
    assert s[0] == word[0] && TrimStart(s) == s;
    SpaceAfter(word, rest);
    assert s[..|word|] == word && s[|word|..] == rest;
  }

  /** A quoted argument. */
  lemma ArgQuoted(text: string, rest: string)
    requires '"' !in text
    ensures Args("\"" + text + "\"" + rest) == [text] + Args(rest)
  {
    hide SplitOnce;
    var s := "\"" + text + "\"" + rest;
    assert s[0] == '"' && TrimStart(s) == s;
    assert s[1..] == text + ['"'] + rest;
    SplitOnceAt(text, '"', rest);
  }

  lemma NoArgs()
    ensures Args("") == []
  {
  }

  /** One more word after a space, at the end. */
  lemma LastArg(word: string)
    requires IsWord(word) && word[0] != '"'
    ensures Args(" " + word) == [word]
  {
    hide Args;
    ArgsSkipSpace(word);
    ArgWord(word, "");
    assert word + "" == word;
    NoArgs();
  }

  function FlagArgs(c: Cond): seq<string> {
    if c.nocase then if c.ornext then ["[NC,OR]"] else ["[NC]"] else if c.ornext then ["[OR]"] else []
  }

  lemma FlagsRead(c: Cond)
    ensures Args(FlagsText(c)) == FlagArgs(c)
    ensures FlagsText(c) == "" || IsSpace(FlagsText(c)[0])
  {
    hide Args;
    NoArgs();
    assert " [NC,OR]" == " " + "[NC,OR]" && " [NC]" == " " + "[NC]" && " [OR]" == " " + "[OR]";
    if c.nocase && c.ornext {
      LastArg("[NC,OR]");
    } else if c.nocase {
      LastArg("[NC]");
    } else if c.ornext {
      LastArg("[OR]");
    }
  }

  lemma TestReads(c: Cond)
    ensures Args(TestText(c.test) + FlagsText(c)) == [PatternText(c.test)] + FlagArgs(c)
  {
    hide Args, FlagsText, FlagArgs, RewriteBody;
    FlagsRead(c);
    match c.test
    case Grouped(regex) =>
      RewriteBodyHasNoQuote(regex);
      ArgQuoted(PatternText(c.test), FlagsText(c));
      assert TestText(c.test) == "\"" + PatternText(c.test) + "\"";
    case Empty => ArgWord("^$", FlagsText(c));
    case IsOne => ArgWord("=1", FlagsText(c));
  }

  lemma VarIsWord(v: Var)
    ensures IsWord(VarText(v)) && VarText(v)[0] != '"'
  {
    if v in [UserAgent, Uri, Protocol] {
      RequestVarIsWord(v);
    } else if v in [Accept, AcceptLanguage, HostHeader] {
      HeaderVarIsWord(v);
    } else if v in [TlsVersion, Trusted] {
      OtherVarIsWord(v);
    } else {
      StateVarIsWord(v);
    }
  }

  lemma RequestVarIsWord(v: Var)
    requires v == UserAgent || v == Uri || v == Protocol
    ensures IsWord(VarText(v)) && VarText(v)[0] != '"'
  {
  }

  lemma HeaderVarIsWord(v: Var)
    requires v == Accept || v == AcceptLanguage || v == HostHeader
    ensures IsWord(VarText(v)) && VarText(v)[0] != '"'
  {
  }

  lemma OtherVarIsWord(v: Var)
    requires v == TlsVersion || v == Trusted
    ensures IsWord(VarText(v)) && VarText(v)[0] != '"'
  {
  }

  lemma StateVarIsWord(v: Var)
    requires v == RedirectStatus || v == Flag
    ensures IsWord(VarText(v)) && VarText(v)[0] != '"'
  {
  }

  /** No two variables are written alike. */
  lemma VarReads(v: Var)
    ensures VarOf(VarText(v)) == Some(v)
  {
    assert |VarText(UserAgent)| == 18 && |VarText(Uri)| == 14 && |VarText(Protocol)| == 18 && |VarText(Accept)| == 14
        && |VarText(AcceptLanguage)| == 23 && |VarText(HostHeader)| == 12 && |VarText(TlsVersion)| == 19
        && |VarText(Trusted)| == 24 && |VarText(RedirectStatus)| == 22 && |VarText(Flag)| == 22;
    assert VarText(UserAgent)[2] == 'H' && VarText(Protocol)[2] == 'S' && VarText(Uri)[2] == 'R' && VarText(Accept)[2] == 'H'
        && VarText(RedirectStatus)[6] == 'R' && VarText(Flag)[6] == 's';
  }

  /** A condition's line is read back as the condition. */
  lemma CondReads(c: Cond)
    ensures ReadCond(Args(CondLine(c).args)) == Some(SeeCond(c))
  {
    hide Args, VarText, TestText, FlagsText, PatternText, VarOf;
    var rest := TestText(c.test) + FlagsText(c);
    VarIsWord(c.v);
    VarReads(c.v);
    TestReads(c);
    ArgWord(VarText(c.v), " " + rest);
    ArgsSkipSpace(rest);
    assert VarText(c.v) + " " + TestText(c.test) + FlagsText(c) == VarText(c.v) + (" " + rest);
    assert [VarText(c.v)] + ([PatternText(c.test)] + FlagArgs(c)) == [VarText(c.v), PatternText(c.test)] + FlagArgs(c);
    FlagsTellApart();
  }

  lemma FlagsTellApart()
    ensures "[NC]" != "[NC,OR]" && "[NC]" != "[OR]" && "[NC,OR]" != "[OR]"
  {
    assert |"[NC]"| == 4 && |"[NC,OR]"| == 7 && "[NC]"[1] == 'N' && "[OR]"[1] == 'O';
  }

  // ---- rules ----

  predicate WordlyAction(a: Action) {
    a.Serve? ==> IsWord(a.file) && a.file[0] != '"'
  }

  lemma UrlIsWord(url: Url)
    ensures IsWord(UrlText(url)) && UrlText(url)[0] != '"'
  {
  }

  lemma FlagWordIsWord(a: Action)
    ensures IsWord(FlagWord(a)) && FlagWord(a)[0] != '"'
  {
    if a.Deny? {
      var n := PrintNat(a.status);
      hide PrintNat;
      assert forall k | 0 <= k < |n| :: n[k] in n;
      assert FlagWord(a) == "[R=" + n + ",L,NS]";
    }
  }

  /** A rule's line is read back as its three arguments. */
  lemma RuleReads(rule: Rule)
    requires WordlyAction(rule.action)
    ensures Args(RuleLine(rule).args) == [UrlText(rule.url), TargetText(rule.action), FlagWord(rule.action)]
  {
    hide Args, UrlText, FlagWord, IsWord;
    var url, target, flags := UrlText(rule.url), TargetText(rule.action), FlagWord(rule.action);
    ActionIsTwoWords(rule.action);
    UrlIsWord(rule.url);
    FlagWordIsWord(rule.action);
    DashIsWord();
    assert url + " " + (target + " " + flags) == url + (" " + (target + (" " + flags)));
    ArgWord(url, " " + (target + (" " + flags)));
    ArgsSkipSpace(target + (" " + flags));
    ArgWord(target, " " + flags);
    LastArg(flags);
  }

  lemma DashIsWord()
    ensures IsWord("-") && "-"[0] != '"'
  {
  }

  lemma ActionIsTwoWords(a: Action)
    ensures ActionText(a) == TargetText(a) + " " + FlagWord(a)
  {
    hide PrintNat, FlagText;
    match a
    case Mark(on) => DashFlags("- [E=stop_bots_block:", "[E=stop_bots_block:", FlagText(on), "]");
    case Deny(status) => DashFlags("- [R=", "[R=", PrintNat(status), ",L,NS]");
    case Serve(file) => assert file + " [L]" == file + " " + "[L]";
  }

  lemma DashFlags(first: string, flags: string, value: string, end: string)
    requires first == "-" + (" " + flags)
    ensures first + value + end == "-" + " " + (flags + value + end)
  {
  }

  lemma NamesDiffer()
    ensures "RewriteCond" != "RewriteRule" && "RewriteEngine" != "RewriteCond" && "RewriteEngine" != "RewriteRule"
  {
    assert |"RewriteEngine"| == 13 && |"RewriteCond"| == 11 && |"RewriteRule"| == 11;
    assert "RewriteCond"[7] == 'C' && "RewriteRule"[7] == 'R';
  }

  lemma ReadCondLine(c: Cond, more: seq<BlockLine>, conds: seq<SeenCond>)
    ensures ReadRules([CondLine(c)] + more, conds) == ReadRules(more, conds + [SeeCond(c)])
  {
    hide Args, SeeCond, ReadCond, VarText, TestText, FlagsText;
    CondReads(c);
    assert ([CondLine(c)] + more)[1..] == more;
  }

  lemma ReadRuleLine(rule: Rule, more: seq<BlockLine>, conds: seq<SeenCond>)
    requires WordlyAction(rule.action)
    ensures ReadRules([RuleLine(rule)] + more, conds)
         == match ReadRules(more, [])
            case None => None
            case Some(rest) =>
              Some([SeenRule(conds, UrlText(rule.url), TargetText(rule.action), FlagWord(rule.action))] + rest)
  {
    hide Args, ReadCond, UrlText, ActionText, TargetText, FlagWord;
    RuleReads(rule);
    NamesDiffer();
    assert ([RuleLine(rule)] + more)[1..] == more;
  }

  lemma ReadOtherLine(l: BlockLine, more: seq<BlockLine>, conds: seq<SeenCond>)
    requires !l.Setting? || (l.name != "RewriteCond" && l.name != "RewriteRule")
    ensures ReadRules([l] + more, conds) == ReadRules(more, conds)
  {
    hide Args, ReadCond;
    assert ([l] + more)[1..] == more;
  }

  /** The lines of a rule's conditions, before more. */
  lemma {:induction false} ReadCondLines(conds: seq<Cond>, more: seq<BlockLine>, before: seq<SeenCond>)
    ensures ReadRules(CondLines(conds) + more, before) == ReadRules(more, before + SeeConds(conds))
    decreases |conds|
  {
    hide ReadRules, CondLine, SeeCond;
    if conds == [] {
      assert CondLines(conds) + more == more && before + SeeConds(conds) == before;
    } else {
      var rest := CondLines(conds[1..]) + more;
      assert CondLines(conds) + more == [CondLine(conds[0])] + rest;
      ReadCondLine(conds[0], rest, before);
      ReadCondLines(conds[1..], more, before + [SeeCond(conds[0])]);
      assert before + [SeeCond(conds[0])] + SeeConds(conds[1..]) == before + SeeConds(conds);
    }
  }

  ghost predicate AllWordly(rules: seq<Rule>) {
    forall k | 0 <= k < |rules| :: WordlyAction(rules[k].action)
  }

  /** The lines of rules, before lines that read as no rule. */
  lemma {:induction false} ReadRuleLines(rules: seq<Rule>, more: seq<BlockLine>)
    requires AllWordly(rules) && ReadRules(more, []) == Some([])
    ensures ReadRules(RuleLines(rules) + more, []) == Some(SeeAll(rules))
    decreases |rules|
  {
    hide ReadRules, RuleLine, CondLines, SeeConds, UrlText, TargetText, FlagWord, WordlyAction;
    if rules == [] {
      assert RuleLines(rules) + more == more;
    } else {
      var rule, rest := rules[0], RuleLines(rules[1..]) + more;
      assert RuleLines(rules) + more == CondLines(rule.conds) + ([RuleLine(rule)] + rest);
      ReadCondLines(rule.conds, [RuleLine(rule)] + rest, []);
      assert [] + SeeConds(rule.conds) == SeeConds(rule.conds);
      assert WordlyAction(rule.action);
      ReadRuleLine(rule, rest, SeeConds(rule.conds));
      ReadRuleLines(rules[1..], more);
    }
  }

  // ---- a whole block ----

  lemma MarksOnly(rules: seq<Rule>)
    requires forall k | 0 <= k < |rules| :: !rules[k].action.Serve?
    ensures AllWordly(rules)
  {
  }

  lemma {:induction false} WhensServeNothing(conds: seq<Cond>, on: bool)
    ensures forall k | 0 <= k < |Whens(conds, on)| :: !Whens(conds, on)[k].action.Serve?
  {
    if conds != [] { WhensServeNothing(conds[1..], on); }
  }

  lemma {:induction false} ClearsServeNothing(env: Env, exemptions: seq<AgentExemption>)
    ensures forall k | 0 <= k < |AgentClears(env, exemptions)| :: !AgentClears(env, exemptions)[k].action.Serve?
    decreases |exemptions|
  {
    hide ExemptionRegexes, ValidAgent, PathsOf, EscapeLiteral;
    if exemptions != [] {
      ClearsServeNothing(env, exemptions[SameAgent(exemptions, exemptions[0].userAgent)..]);
    }
  }

  lemma BlockRulesServeNothing(env: Env, c: Config)
    ensures AllWordly(BlockRules(env, c))
  {
    hide AgentChunks, ExemptionRegexes, AgentClears, GroupedConds, Conditions, Whens;
    WhensServeNothing(GroupedConds(UserAgent, AgentChunks(env, c), false), true);
    WhensServeNothing(Conditions(c.requestRules), true);
    WhensServeNothing(GroupedConds(Uri, ExemptionRegexes(env, Prefixes(c), Exact(c)), false), false);
    ClearsServeNothing(env, c.agentExemptions);
    MarksOnly(BlockRules(env, c));
  }

  lemma PlainIsWord(path: string)
    requires PlainPath(path) && path != ""
    ensures IsWord(path) && path[0] != '"'
  {
    assert PlainChar(path[0]);
  }

  /** A block's lines, read as `mod_rewrite` reads them, are exactly the program it was compiled to:
      the same conditions under the same rules, in the same order. */
  lemma BlockReadsBack(env: Env, c: Config)
    requires Compile(env, c).Some? && (c.serveRobots ==> env.robots != "")
    ensures var b := Compile(env, c).value;
            ReadRules(BlockLines(env, b), []) == Some(SeeAll(Program(b)))
  {
    hide ReadRules, BlocksSomething, BlockRules, RuleLines, UrlText, ActionText, SeeAll;
    var b := Compile(env, c).value;
    var last := [Comment(BLOCK_END)];
    BlockRulesServeNothing(env, c);
    NoneWordly();
    NoRulesRead();
    ReadOtherLine(Comment(BLOCK_END), [], []);
    assert last + [] == last;
    ReadRuleLines(b.rules, last);
    var tail := RuleLines(b.rules) + last;
    FirstLinesRead(ServeLines(env, b.robots) + tail);
    assert BlockLines(env, b) == FIRST_LINES + (ServeLines(env, b.robots) + tail);
    match b.robots
    case None =>
      assert [] + tail == tail && [] + b.rules == b.rules;
    case Some(file) =>
      PlainIsWord(file);
      ServeLinesRead(env, file, tail);
      SeeServe(file, b.rules);
  }

  lemma NoneWordly()
    ensures AllWordly([])
  {
  }

  lemma NoRulesRead()
    ensures ReadRules([], []) == Some([])
  {
  }

  lemma SeeServe(file: string, rules: seq<Rule>)
    ensures SeeAll([Rule([], RobotsUrl, Serve(file))] + rules) == [See(Rule([], RobotsUrl, Serve(file)))] + SeeAll(rules)
  {
    hide See;
    assert ([Rule([], RobotsUrl, Serve(file))] + rules)[1..] == rules;
  }

  lemma FirstLinesRead(more: seq<BlockLine>)
    ensures ReadRules(FIRST_LINES + more, []) == ReadRules(more, [])
  {
    hide ReadRules;
    var engine := Setting("RewriteEngine", "On");
    NamesDiffer();
    ReadOtherLine(engine, more, []);
    ReadOtherLine(Comment(BLOCK_BEGIN), [engine] + more, []);
    assert FIRST_LINES + more == [Comment(BLOCK_BEGIN)] + ([engine] + more);
  }

  lemma ServeLinesRead(env: Env, file: string, more: seq<BlockLine>)
    requires IsWord(file) && file[0] != '"'
    ensures ReadRules(ServeLines(env, Some(file)) + more, [])
         == match ReadRules(more, [])
            case None => None
            case Some(rest) => Some([See(Rule([], RobotsUrl, Serve(file)))] + rest)
  {
    hide ReadRules, RuleLine, UrlText, TargetText, FlagWord, IsWord;
    var rule := Rule([], RobotsUrl, Serve(file));
    var third := [OutOfDirectory] + more;
    var second := [Granted] + third;
    var first := [InDirectory(env.robotsDir)] + second;
    ReadOtherLine(OutOfDirectory, more, []);
    ReadOtherLine(Granted, third, []);
    ReadOtherLine(InDirectory(env.robotsDir), second, []);
    ReadRuleLine(rule, first, []);
    assert ServeLines(env, Some(file)) + more == [RuleLine(rule)] + first;
  }

  // ---- what is read decides what is run ----

  lemma SeenPasses(m: Matcher, c: Cond, d: Cond, r: Request, flag: string)
    requires SeeCond(c) == SeeCond(d)
    ensures Passes(m, c, r, flag) == Passes(m, d, r, flag)
  {
    hide RewriteBody;
    var x, y := PatternText(c.test), PatternText(d.test);
    assert c.test.Grouped? <==> x[0] == '(';
    assert d.test.Grouped? <==> y[0] == '(';
    assert c.test.Empty? <==> x[0] == '^';
    assert d.test.Empty? <==> y[0] == '^';
  }

  lemma {:induction false} SeenHolds(m: Matcher, x: seq<Cond>, y: seq<Cond>, r: Request, flag: string)
    requires SeeConds(x) == SeeConds(y)
    ensures Hold(m, x, r, flag) == Hold(m, y, r, flag)
    ensures SeeConds(PastChain(x)) == SeeConds(PastChain(y))
    decreases |x|
  {
    hide Passes, PatternText;
    SeeCount(x);
    SeeCount(y);
    if x != [] {
      SeenTail(x, y);
      SeenPasses(m, x[0], y[0], r, flag);
      SeenHolds(m, x[1..], y[1..], r, flag);
      SeenChain(x, y);
      SeenHolds(m, PastChain(x), PastChain(y), r, flag);
    }
  }

  lemma {:induction false} SeenChain(x: seq<Cond>, y: seq<Cond>)
    requires SeeConds(x) == SeeConds(y)
    ensures SeeConds(PastChain(x)) == SeeConds(PastChain(y))
    decreases |x|
  {
    hide PatternText;
    SeeCount(x);
    SeeCount(y);
    if x != [] {
      SeenTail(x, y);
      SeenChain(x[1..], y[1..]);
    }
  }

  lemma {:induction false} SeeCount(conds: seq<Cond>)
    ensures |SeeConds(conds)| == |conds|
  {
    hide SeeCond;
    if conds != [] { SeeCount(conds[1..]); }
  }

  lemma SeenTail(x: seq<Cond>, y: seq<Cond>)
    requires x != [] && y != [] && SeeConds(x) == SeeConds(y)
    ensures SeeCond(x[0]) == SeeCond(y[0]) && SeeConds(x[1..]) == SeeConds(y[1..])
  {
    hide SeeCond;
    assert SeeConds(x)[0] == SeeConds(y)[0] && SeeConds(x)[1..] == SeeConds(y)[1..];
  }

  /** An action is told by its target and its flags. */
  lemma SeenAction(a: Action, b: Action)
    requires TargetText(a) == TargetText(b) && FlagWord(a) == FlagWord(b)
    ensures a == b
  {
    hide PrintNat;
    var x, y := FlagWord(a), FlagWord(b);
    assert a.Mark? <==> x[1] == 'E';
    assert b.Mark? <==> y[1] == 'E';
    assert a.Deny? <==> x[1] == 'R';
    assert b.Deny? <==> y[1] == 'R';
    if a.Mark? {
      assert x[|x| - 2] == FlagText(a.on)[0] && y[|y| - 2] == FlagText(b.on)[0];
    } else if a.Deny? {
      StatusOf(a.status);
      StatusOf(b.status);
      ParsePrinted(a.status);
      ParsePrinted(b.status);
    }
  }

  lemma StatusOf(status: nat)
    ensures var x := FlagWord(Deny(status));
            |x| >= 9 && x[3..|x| - 6] == PrintNat(status)
  {
    hide PrintNat;
    var n := PrintNat(status);
    assert FlagWord(Deny(status)) == "[R=" + n + ",L,NS]";
  }

  lemma SeenApplies(m: Matcher, x: Rule, y: Rule, r: Request, flag: string)
    requires See(x) == See(y)
    ensures x.action == y.action && Applies(m, x, r, flag) == Applies(m, y, r, flag)
  {
    hide Hold, TargetText, FlagWord, SeeConds;
    SeenAction(x.action, y.action);
    SeenHolds(m, x.conds, y.conds, r, flag);
    assert x.url == y.url by { assert UrlText(x.url) == UrlText(y.url); assert |"^"| == 1 && |"^/robots\\.txt$"| == 14; }
  }

  lemma {:induction false} SeeRules(rules: seq<Rule>)
    ensures |SeeAll(rules)| == |rules|
  {
    hide See;
    if rules != [] { SeeRules(rules[1..]); }
  }

  lemma SeenRest(x: seq<Rule>, y: seq<Rule>)
    requires x != [] && y != [] && SeeAll(x) == SeeAll(y)
    ensures See(x[0]) == See(y[0]) && SeeAll(x[1..]) == SeeAll(y[1..])
  {
    hide See;
    assert SeeAll(x)[0] == SeeAll(y)[0] && SeeAll(x)[1..] == SeeAll(y)[1..];
  }

  /** What is read decides what is run: programs that read alike do alike, for every request. */
  lemma {:induction false} SeenDecidesRun(m: Matcher, x: seq<Rule>, y: seq<Rule>, r: Request, flag: string)
    requires SeeAll(x) == SeeAll(y)
    ensures Run(m, x, r, flag) == Run(m, y, r, flag)
    decreases |x|
  {
    hide Applies, See;
    SeeRules(x);
    SeeRules(y);
    if x != [] {
      SeenRest(x, y);
      SeenApplies(m, x[0], y[0], r, flag);
      SeenDecidesRun(m, x[1..], y[1..], r, flag);
      if x[0].action.Mark? {
        SeenDecidesRun(m, x[1..], y[1..], r, FlagText(x[0].action.on));
      }
    }
  }
}
