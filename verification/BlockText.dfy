/** The text of a block, and what of it the configuration reader sees (`src/apache.rs`, "writing a
    block"). */
module BlockText {
  import opened Text
  import opened ConfText
  import opened ConfWords
  import opened ConfHosts
  import opened BlockConfig
  import opened RewriteProgram

  const BLOCK_BEGIN := "# BEGIN stop-bots (DO NOT EDIT)"
  const BLOCK_END := "# END stop-bots"
  const CONSOLE_BEGIN := "# BEGIN stop-bots console (DO NOT EDIT)"
  const CONSOLE_END := "# END stop-bots console"

  // ---- the lines of a block ----

  datatype BlockLine = Comment(text: string) | Setting(name: string, args: string) | InDirectory(dir: string) | Granted | OutOfDirectory

  function LineText(l: BlockLine): string {
    match l
    case Comment(text) => "    " + text
    case Setting(name, args) => "    " + name + " " + args
    case InDirectory(dir) => "    <Directory " + ConfQuoted(dir) + ">"
    case Granted => "        Require all granted"
    case OutOfDirectory => "    </Directory>"
  }

  function VarText(v: Var): string {
    match v
    case UserAgent => "%{HTTP_USER_AGENT}"
    case Uri => "%{REQUEST_URI}"
    case Protocol => "%{SERVER_PROTOCOL}"
    case Accept => "%{HTTP:Accept}"
    case AcceptLanguage => "%{HTTP:Accept-Language}"
    case HostHeader => "%{HTTP_HOST}"
    case TlsVersion => "%{SSL:SSL_PROTOCOL}"
    case Trusted => "%{ENV:stop_bots_trusted}"
    case RedirectStatus => "%{ENV:REDIRECT_STATUS}"
    case Flag => "%{ENV:stop_bots_block}"
  }

  function TestText(t: Test): string {
    match t
    case Grouped(regex) => "\"(?:" + RewriteBody(regex) + ")\""
    case Empty => "^$"
    case IsOne => "=1"
  }

  function FlagsText(c: Cond): string {
    if c.nocase then if c.ornext then " [NC,OR]" else " [NC]"
    else if c.ornext then " [OR]" else ""
  }

  function CondLine(c: Cond): BlockLine {
    Setting("RewriteCond", VarText(c.v) + " " + TestText(c.test) + FlagsText(c))
  }

  function UrlText(url: Url): string {
    match url
    case AnyUrl => "^"
    case RobotsUrl => "^/robots\\.txt$"
  }

  function ActionText(a: Action): string {
    match a
    case Mark(on) => "- [E=stop_bots_block:" + FlagText(on) + "]"
    case Deny(status) => "- [R=" + PrintNat(status) + ",L,NS]"
    case Serve(file) => file + " [L]"
  }

  function RuleLine(rule: Rule): BlockLine {
    Setting("RewriteRule", UrlText(rule.url) + " " + ActionText(rule.action))
  }

  function CondLines(conds: seq<Cond>): seq<BlockLine> {
    if conds == [] then [] else [CondLine(conds[0])] + CondLines(conds[1..])
  }

  function RuleLines(rules: seq<Rule>): seq<BlockLine> {
    if rules == [] then [] else CondLines(rules[0].conds) + [RuleLine(rules[0])] + RuleLines(rules[1..])
  }

  /** Serving the generated file: the rule, and the permission to read where it is. */
  function ServeLines(env: Env, robots: Option<string>): seq<BlockLine> {
    match robots
    case None => []
    case Some(file) =>
      [RuleLine(Rule([], RobotsUrl, Serve(file))), InDirectory(env.robotsDir), Granted, OutOfDirectory]
  }

  const FIRST_LINES := [Comment(BLOCK_BEGIN), Setting("RewriteEngine", "On")]

  function BlockLines(env: Env, b: Block): seq<BlockLine> {
    FIRST_LINES + ServeLines(env, b.robots) + RuleLines(b.rules) + [Comment(BLOCK_END)]
  }

  /** Each line with its line break. */
  function Written(lines: seq<BlockLine>): string {
    if lines == [] then "" else LineText(lines[0]) + "\n" + Written(lines[1..])
  }

  /** The block's text, or none when there is nothing to block and nothing to serve. */
  function BlockTextOf(env: Env, c: Config): Option<string> {
    match Compile(env, c)
    case None => None
    case Some(b) => Some(Written(BlockLines(env, b)))
  }

  // ---- writing it ----

  lemma {:induction false} WrittenConcat(a: seq<BlockLine>, b: seq<BlockLine>)
    ensures Written(a + b) == Written(a) + Written(b)
  {
    hide LineText;
    if a == [] {
      assert a + b == b;
    } else {
      assert (a + b)[1..] == a[1..] + b;
      WrittenConcat(a[1..], b);
      var t := LineText(a[0]) + "\n";
      assert t + (Written(a[1..]) + Written(b)) == (t + Written(a[1..])) + Written(b);
    }
  }

  lemma WrittenOne(l: BlockLine)
    ensures Written([l]) == LineText(l) + "\n"
  {
    hide LineText;
    assert [l][1..] == [];
  }

  lemma {:induction false} RuleLinesConcat(a: seq<Rule>, b: seq<Rule>)
    ensures RuleLines(a + b) == RuleLines(a) + RuleLines(b)
  {
    hide RuleLine, CondLines;
    if a == [] {
      assert a + b == b;
    } else {
      assert (a + b)[1..] == a[1..] + b;
      RuleLinesConcat(a[1..], b);
    }
  }

  /** The text of rules. */
  function RulesText(rules: seq<Rule>): string {
    Written(RuleLines(rules))
  }

  lemma RulesTextConcat(a: seq<Rule>, b: seq<Rule>)
    ensures RulesText(a + b) == RulesText(a) + RulesText(b)
  {
    hide Written, RuleLines;
    RuleLinesConcat(a, b);
    WrittenConcat(RuleLines(a), RuleLines(b));
  }

  /** A rule of one condition. */
  lemma RuleOfOne(c: Cond, action: Action)
    ensures RulesText([Rule([c], AnyUrl, action)])
         == LineText(CondLine(c)) + "\n" + LineText(RuleLine(Rule([], AnyUrl, action))) + "\n"
  {
    hide LineText, CondLine, UrlText, ActionText;
    var rule := Rule([c], AnyUrl, action);
    assert [rule][1..] == [] && [c][1..] == [];
    assert RuleLine(rule) == RuleLine(Rule([], AnyUrl, action));
    assert CondLines([c]) == [CondLine(c)] + CondLines([]) && CondLines([]) == [];
    assert RuleLines([]) == [];
    assert RuleLines([rule]) == [CondLine(c)] + [RuleLine(rule)];
    WrittenConcat([CondLine(c)], [RuleLine(rule)]);
    WrittenOne(CondLine(c));
    WrittenOne(RuleLine(rule));
  }

  lemma WhensStep(conds: seq<Cond>, on: bool, k: nat)
    requires k < |conds|
    ensures RulesText(Whens(conds[k..], on))
         == LineText(CondLine(conds[k])) + "\n" + LineText(SetLine(on)) + "\n"
            + RulesText(Whens(conds[k + 1..], on))
  {
    hide LineText, CondLine, RuleLine, RulesText;
    assert conds[k..][1..] == conds[k + 1..];
    RuleOfOne(conds[k], Mark(on));
    RulesTextConcat([Rule([conds[k]], AnyUrl, Mark(on))], Whens(conds[k + 1..], on));
  }

  /** The rule that sets or clears the flag. */
  function SetLine(on: bool): BlockLine {
    RuleLine(Rule([], AnyUrl, Mark(on)))
  }

  /** Appends a rule for each condition. */
  method PushWhens(before: string, conds: seq<Cond>, on: bool) returns (out: string)
    ensures out == before + RulesText(Whens(conds, on))
  {
    hide LineText, CondLine, RuleLine, RulesText, SetLine;
    out := before;
    for k := 0 to |conds|
      invariant out + RulesText(Whens(conds[k..], on)) == before + RulesText(Whens(conds, on))
    {
      WhensStep(conds, on, k);
      ghost var rest := RulesText(Whens(conds[k + 1..], on));
      ghost var text := LineText(CondLine(conds[k])) + "\n" + LineText(SetLine(on)) + "\n";
      assert out + (text + rest) == (out + text) + rest;
      out := out + (LineText(CondLine(conds[k])) + "\n" + LineText(SetLine(on)) + "\n");
    }
    assert conds[|conds|..] == [];
    NoRulesNoText(on);
    assert out + "" == out;
  }

  lemma NoRulesNoText(on: bool)
    ensures Whens([], on) == [] && RulesText([]) == ""
  {
  }

  /** The regexes paths are exempted by. */
  method ExemptionRegexList(env: Env, prefixes: seq<string>, exact: seq<string>) returns (regexes: seq<string>)
    ensures regexes == ExemptionRegexes(env, prefixes, exact)
  {
    var chunks := ChunkPatterns(env, EscapedPaths(prefixes, "") + EscapedPaths(exact, "$"), MAX_CHUNK - 3);
    regexes := [];
    for k := 0 to |chunks|
      invariant regexes + Anchored(chunks[k..]) == Anchored(chunks)
    {
      assert chunks[k..][1..] == chunks[k + 1..];
      regexes := regexes + ["^(" + chunks[k] + ")"];
    }
    assert chunks[|chunks|..] == [];
  }

  /** One user agent's rule. */
  function ClearText(agent: string, regexes: seq<string>): string {
    LineText(CondLine(AgentCond(agent))) + "\n" + CondsText(GroupedConds(Uri, regexes, true))
    + LineText(SetLine(false)) + "\n"
  }

  function AgentCond(agent: string): Cond {
    Cond(UserAgent, Grouped(EscapeLiteral(agent)), true, false)
  }

  function CondsText(conds: seq<Cond>): string {
    Written(CondLines(conds))
  }

  lemma ClearIsText(env: Env, agent: string, paths: seq<string>)
    ensures var regexes := ExemptionRegexes(env, paths, []);
            RulesText(AgentClear(env, agent, paths))
            == if !ValidAgent(agent) || regexes == [] then "" else ClearText(agent, regexes)
  {
    hide LineText, CondLine, RuleLine, ExemptionRegexes, ValidAgent, EscapeLiteral, GroupedConds, Written;
    var regexes := ExemptionRegexes(env, paths, []);
    if !ValidAgent(agent) || regexes == [] {
      NoRulesNoText(true);
    } else {
      var conds := GroupedConds(Uri, regexes, true);
      ClearRule([AgentCond(agent)] + conds, Mark(false));
      assert ([AgentCond(agent)] + conds)[1..] == conds;
      WrittenConcat([CondLine(AgentCond(agent))], CondLines(conds));
      WrittenOne(CondLine(AgentCond(agent)));
    }
  }

  lemma ClearRule(conds: seq<Cond>, action: Action)
    ensures RulesText([Rule(conds, AnyUrl, action)])
         == CondsText(conds) + LineText(RuleLine(Rule([], AnyUrl, action))) + "\n"
  {
    hide LineText, CondLine, CondLines, UrlText, ActionText, Written;
    var rule := Rule(conds, AnyUrl, action);
    assert [rule][1..] == [];
    assert RuleLine(rule) == RuleLine(Rule([], AnyUrl, action));
    assert RuleLines([]) == [];
    assert RuleLines([rule]) == CondLines(conds) + [RuleLine(rule)];
    WrittenConcat(CondLines(conds), [RuleLine(rule)]);
    WrittenOne(RuleLine(rule));
  }

  /** Appends a condition for each path, all but the last joined to the next. */
  method PushPaths(before: string, regexes: seq<string>) returns (out: string)
    ensures out == before + CondsText(GroupedConds(Uri, regexes, true))
  {
    hide LineText, CondLine, Written;
    out := before;
    for k := 0 to |regexes|
      invariant out + CondsText(GroupedConds(Uri, regexes[k..], true))
             == before + CondsText(GroupedConds(Uri, regexes, true))
    {
      var c := Cond(Uri, Grouped(regexes[k]), true, k + 1 < |regexes|);
      PathStep(regexes, k);
      ghost var rest := CondsText(GroupedConds(Uri, regexes[k + 1..], true));
      ghost var text := LineText(CondLine(c)) + "\n";
      assert out + (text + rest) == (out + text) + rest;
      out := out + (LineText(CondLine(c)) + "\n");
    }
    assert regexes[|regexes|..] == [];
    NoPathsNoText();
    assert out + "" == out;
  }

  lemma NoPathsNoText()
    ensures GroupedConds(Uri, [], true) == [] && CondsText([]) == ""
  {
  }

  lemma PathStep(regexes: seq<string>, k: nat)
    requires k < |regexes|
    ensures CondsText(GroupedConds(Uri, regexes[k..], true))
         == LineText(CondLine(Cond(Uri, Grouped(regexes[k]), true, k + 1 < |regexes|))) + "\n"
            + CondsText(GroupedConds(Uri, regexes[k + 1..], true))
  {
    hide LineText, CondLine;
    assert regexes[k..][1..] == regexes[k + 1..];
  }

  lemma ClearsStep(env: Env, exemptions: seq<AgentExemption>, k: nat, n: nat)
    requires k < |exemptions| && n == SameAgent(exemptions[k..], exemptions[k].userAgent)
    ensures 0 < n <= |exemptions| - k
    ensures RulesText(AgentClears(env, exemptions[k..]))
         == RulesText(AgentClear(env, exemptions[k].userAgent, PathsOf(exemptions[k..][..n])))
            + RulesText(AgentClears(env, exemptions[k + n..]))
  {
    hide RulesText, AgentClear, PathsOf;
    var rest := exemptions[k..];
    assert rest[n..] == exemptions[k + n..];
    RulesTextConcat(AgentClear(env, exemptions[k].userAgent, PathsOf(rest[..n])), AgentClears(env, rest[n..]));
  }

  lemma NoClearsNoText(env: Env)
    ensures AgentClears(env, []) == [] && RulesText([]) == ""
  {
  }

  /** The rules that clear the flag for agent exemptions, a user agent at a time. */
  method AgentExemptionClears(env: Env, exemptions: seq<AgentExemption>) returns (out: string)
    ensures out == RulesText(AgentClears(env, exemptions))
  {
    hide LineText, CondLine, RulesText, SetLine, AgentClear, AgentClears, ExemptionRegexes, ValidAgent, EscapeLiteral, CondsText, GroupedConds, PathsOf;
    out := "";
    var k: nat := 0;
    assert exemptions[0..] == exemptions;
    while k < |exemptions|
      invariant k <= |exemptions|
      invariant out + RulesText(AgentClears(env, exemptions[k..])) == RulesText(AgentClears(env, exemptions))
    {
      var agent := exemptions[k].userAgent;
      var n := SameAgent(exemptions[k..], agent);
      var paths := PathsOf(exemptions[k..][..n]);
      ClearsStep(env, exemptions, k, n);
      ClearIsText(env, agent, paths);
      ghost var rest := RulesText(AgentClears(env, exemptions[k + n..]));
      ghost var was := out;
      ghost var text := RulesText(AgentClear(env, agent, paths));
      assert was + (text + rest) == (was + text) + rest;
      if ValidAgent(agent) {
        var regexes := ExemptionRegexList(env, paths, []);
        if regexes != [] {
          out := out + (LineText(CondLine(AgentCond(agent))) + "\n");
          out := PushPaths(out, regexes);
          out := out + (LineText(SetLine(false)) + "\n");
        }
      }
      assert out == was + text;
      k := k + n;
    }
    NoClearsNoText(env);
    assert exemptions[k..] == [];
  }

  lemma TrustText(trusts: bool)
    ensures RulesText(TrustRules(trusts))
         == if trusts then LineText(CondLine(Cond(Trusted, IsOne, false, false))) + "\n"
                           + LineText(SetLine(false)) + "\n"
            else ""
  {
    hide LineText, CondLine, RulesText, RuleLine;
    NoRulesNoText(true);
    if trusts {
      RuleOfOne(Cond(Trusted, IsOne, false, false), Mark(false));
    }
  }

  lemma FinalText(status: nat)
    ensures RulesText([FinalRule(status)])
         == LineText(CondLine(Cond(RedirectStatus, Empty, false, false))) + "\n"
            + LineText(CondLine(Cond(Flag, IsOne, false, false))) + "\n"
            + LineText(RuleLine(Rule([], AnyUrl, Deny(status)))) + "\n"
  {
    hide LineText, CondLine, RuleLine, Written;
    var a, b := Cond(RedirectStatus, Empty, false, false), Cond(Flag, IsOne, false, false);
    ClearRule([a, b], Deny(status));
    assert [a, b][1..] == [b] && [b][1..] == [];
    assert CondLines([]) == [] && CondLines([b]) == [CondLine(b)];
    assert CondLines([a, b]) == [CondLine(a)] + [CondLine(b)];
    WrittenConcat([CondLine(a)], [CondLine(b)]);
    WrittenOne(CondLine(a));
    WrittenOne(CondLine(b));
  }

  lemma ServeText(env: Env, file: string)
    ensures Written(ServeLines(env, Some(file)))
         == LineText(RuleLine(Rule([], RobotsUrl, Serve(file)))) + "\n" + LineText(InDirectory(env.robotsDir)) + "\n"
            + LineText(Granted) + "\n" + LineText(OutOfDirectory) + "\n"
  {
    hide LineText, RuleLine;
    var a, b := RuleLine(Rule([], RobotsUrl, Serve(file))), InDirectory(env.robotsDir);
    WrittenConcat([a, b], [Granted, OutOfDirectory]);
    WrittenTwo(a, b);
    WrittenTwo(Granted, OutOfDirectory);
    assert ServeLines(env, Some(file)) == [a, b] + [Granted, OutOfDirectory];
  }

  lemma WrittenTwo(a: BlockLine, b: BlockLine)
    ensures Written([a, b]) == LineText(a) + "\n" + LineText(b) + "\n"
  {
    hide LineText;
    assert [a, b][1..] == [b] && [b][1..] == [];
    assert Written([b]) == LineText(b) + "\n" + "";
  }

  /** The parts of a block's text, in order. */
  lemma BlockParts(env: Env, c: Config, b: Block)
    requires Compile(env, c) == Some(b)
    ensures Written(BlockLines(env, b))
         == LineText(Comment(BLOCK_BEGIN)) + "\n" + LineText(Setting("RewriteEngine", "On")) + "\n"
            + Written(ServeLines(env, b.robots)) + RulesText(b.rules) + (LineText(Comment(BLOCK_END)) + "\n")
  {
    hide LineText, ServeLines, RuleLines, BlocksSomething, BlockRules, Written;
    WrittenTwo(Comment(BLOCK_BEGIN), Setting("RewriteEngine", "On"));
    WrittenConcat(FIRST_LINES, ServeLines(env, b.robots));
    WrittenConcat(FIRST_LINES + ServeLines(env, b.robots), RuleLines(b.rules));
    WrittenConcat(FIRST_LINES + ServeLines(env, b.robots) + RuleLines(b.rules), [Comment(BLOCK_END)]);
    WrittenOne(Comment(BLOCK_END));
  }

  lemma RulesParts(env: Env, c: Config)
    ensures RulesText(BlockRules(env, c))
         == RulesText(Whens(GroupedConds(UserAgent, AgentChunks(env, c), false), true))
            + RulesText(Whens(Conditions(c.requestRules), true))
            + RulesText(Whens(GroupedConds(Uri, ExemptionRegexes(env, Prefixes(c), Exact(c)), false), false))
            + RulesText(AgentClears(env, c.agentExemptions))
            + RulesText(TrustRules(c.trusts)) + RulesText([FinalRule(StatusCode(c.response))])
  {
    hide RulesText, Whens, AgentClears, TrustRules, FinalRule, ExemptionRegexes, AgentChunks, GroupedConds;
    var a := Whens(GroupedConds(UserAgent, AgentChunks(env, c), false), true);
    var b := Whens(Conditions(c.requestRules), true);
    var d := Whens(GroupedConds(Uri, ExemptionRegexes(env, Prefixes(c), Exact(c)), false), false);
    var e := AgentClears(env, c.agentExemptions);
    RulesTextConcat(a, b);
    RulesTextConcat(a + b, d);
    RulesTextConcat(a + b + d, e);
    RulesTextConcat(a + b + d + e, TrustRules(c.trusts));
    RulesTextConcat(a + b + d + e + TrustRules(c.trusts), [FinalRule(StatusCode(c.response))]);
  }

  /** The rules of a block, one kind after another. */
  method PushRules(before: string, env: Env, c: Config, chunks: seq<string>) returns (out: string)
    requires chunks == AgentChunks(env, c)
    ensures out == before + RulesText(BlockRules(env, c))
  {
    hide LineText, CondLine, RulesText, SetLine, BlockRules, AgentClears, ExemptionRegexes, GroupedConds, Conditions, Whens, AgentChunks, RuleLine;
    out := PushWhens(before, GroupedConds(UserAgent, chunks, false), true);
    out := PushWhens(out, Conditions(c.requestRules), true);
    var regexes := ExemptionRegexList(env, Prefixes(c), Exact(c));
    out := PushWhens(out, GroupedConds(Uri, regexes, false), false);
    var clears := AgentExemptionClears(env, c.agentExemptions);
    out := out + clears;
    TrustText(c.trusts);
    out := out + (if c.trusts then LineText(CondLine(Cond(Trusted, IsOne, false, false))) + "\n"
                                   + LineText(SetLine(false)) + "\n" else "");
    FinalText(StatusCode(c.response));
    out := out + (LineText(CondLine(Cond(RedirectStatus, Empty, false, false))) + "\n"
                  + LineText(CondLine(Cond(Flag, IsOne, false, false))) + "\n"
                  + LineText(RuleLine(Rule([], AnyUrl, Deny(StatusCode(c.response))))) + "\n");
    RulesParts(env, c);
  }

  /** Renders the block for a configuration. */
  method WriteBlock(env: Env, c: Config) returns (out: Option<string>)
    ensures out == BlockTextOf(env, c)
  {
    hide LineText, RulesText, BlockRules, AgentChunks, RuleLine, BlockLines, Written, ServeLines;
    var chunks := ChunkPatterns(env, UsablePatterns(env, c.patterns), MAX_CHUNK);
    assert chunks == AgentChunks(env, c) by { ChunksAre(env, c); }
    var blocksSomething := chunks != [] || c.requestRules != [];
    if !blocksSomething && !c.serveRobots {
      return None;
    }
    var text := LineText(Comment(BLOCK_BEGIN)) + "\n" + LineText(Setting("RewriteEngine", "On")) + "\n";
    ghost var b := Compile(env, c).value;
    ghost var first := text;
    BlockParts(env, c, b);
    NoRulesNoText(true);
    NothingServed(env);
    if c.serveRobots && PlainPath(env.robots) {
      ServeText(env, env.robots);
      text := text + (LineText(RuleLine(Rule([], RobotsUrl, Serve(env.robots)))) + "\n"
                      + LineText(InDirectory(env.robotsDir)) + "\n"
                      + LineText(Granted) + "\n" + LineText(OutOfDirectory) + "\n");
    }
    assert first + "" == first;
    assert text == first + Written(ServeLines(env, b.robots));
    ghost var second := text;
    assert second + "" == second;
    if blocksSomething {
      text := PushRules(text, env, c, chunks);
    }
    assert text == second + RulesText(b.rules);
    return Some(text + (LineText(Comment(BLOCK_END)) + "\n"));
  }

  lemma ChunksAre(env: Env, c: Config)
    ensures AgentChunks(env, c) == Chunks(env, UsablePatterns(env, c.patterns), MAX_CHUNK)
  {
  }

  lemma NothingServed(env: Env)
    ensures Written(ServeLines(env, None)) == ""
  {
  }
}
