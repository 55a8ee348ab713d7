/** Running a compiled block decides what the block is for (`src/apache.rs`, "how a block
    decides"). */
module RewriteDecision {
  import opened Text
  import opened ConfText
  import opened ConfWords
  import opened ConfHosts
  import opened BlockConfig
  import opened RewriteProgram

  // ---- what is written means the regex ----

  lemma GroupTokens(body: string)
    ensures Tokens("(?:" + body + ")") == [Plain('('), Plain('?'), Plain(':')] + Tokens(body + ")")
  {
    hide Tokens;
    var rest := body + ")";
    assert "(?:" + body + ")" == ['('] + (['?'] + ([':'] + rest));
    PlainFirst('(', ['?'] + ([':'] + rest));
    PlainFirst('?', [':'] + rest);
    PlainFirst(':', rest);
    assert [Plain('(')] + ([Plain('?')] + ([Plain(':')] + Tokens(rest)))
        == [Plain('('), Plain('?'), Plain(':')] + Tokens(rest);
  }

  lemma PlainFirst(c: char, rest: string)
    requires c != '\\' && c != '"'
    ensures Tokens([c] + rest) == [Plain(c)] + Tokens(rest)
  {
    assert ([c] + rest)[1..] == rest;
  }

  /** Quoting and grouping a regex leave what it matches alone. */
  lemma GroupedMeans(m: Matcher, valid: string -> bool, regex: string, s: string, nocase: bool)
    requires GroupLaw(m, valid) && valid(regex)
    ensures m("(?:" + RewriteBody(regex) + ")", s, nocase) == m(regex, s, nocase)
  {
    hide Tokens, RewriteBody;
    RewriteQuotedMeansTheRegex(regex);
    ClosingBracketCloses(regex);
    GroupTokens(RewriteBody(regex));
    GroupTokens(regex);
    assert valid("(?:" + regex + ")");
    assert m("(?:" + regex + ")", s, nocase) == m("(?:" + RewriteBody(regex) + ")", s, nocase);
  }

  // ---- any of several regexes ----

  lemma {:induction false} AnyMatchConcat(m: Matcher, a: seq<string>, b: seq<string>, s: string, nocase: bool)
    ensures AnyMatch(m, a + b, s, nocase) == (AnyMatch(m, a, s, nocase) || AnyMatch(m, b, s, nocase))
  {
    if a == [] {
      assert a + b == b;
    } else {
      assert (a + b)[1..] == a[1..] + b;
      AnyMatchConcat(m, a[1..], b, s, nocase);
    }
  }

  lemma {:induction false} AnyMatchExists(m: Matcher, regexes: seq<string>, s: string, nocase: bool)
    ensures AnyMatch(m, regexes, s, nocase) <==> exists p :: p in regexes && m(p, s, nocase)
  {
    if regexes != [] {
      AnyMatchExists(m, regexes[1..], s, nocase);
      assert regexes == [regexes[0]] + regexes[1..];
    }
  }

  /** Regexes as they stand, or each with the anchor of an exemption. */
  function Shaped(regexes: seq<string>, anchored: bool): seq<string> {
    if anchored then Anchored(regexes) else regexes
  }

  lemma {:induction false} AnchoredConcat(a: seq<string>, b: seq<string>)
    ensures Anchored(a + b) == Anchored(a) + Anchored(b)
  {
    if a == [] {
      assert a + b == b;
    } else {
      assert (a + b)[1..] == a[1..] + b;
      AnchoredConcat(a[1..], b);
    }
  }

  lemma ShapedConcat(m: Matcher, a: seq<string>, b: seq<string>, anchored: bool, s: string, nocase: bool)
    ensures AnyMatch(m, Shaped(a + b, anchored), s, nocase)
         == (AnyMatch(m, Shaped(a, anchored), s, nocase) || AnyMatch(m, Shaped(b, anchored), s, nocase))
  {
    hide AnyMatch, Anchored;
    AnchoredConcat(a, b);
    AnyMatchConcat(m, Shaped(a, anchored), Shaped(b, anchored), s, nocase);
  }

  lemma AnyMatchOne(m: Matcher, regex: string, s: string, nocase: bool)
    ensures AnyMatch(m, [regex], s, nocase) == m(regex, s, nocase)
    ensures Anchored([regex]) == ["^(" + regex + ")"]
  {
  }

  /** A joined chunk matches what any of its patterns does. */
  lemma ChunkMatches(m: Matcher, valid: string -> bool, regexes: seq<string>, anchored: bool, s: string, nocase: bool)
    requires JoinLaw(m, valid) && regexes != [] && AllValid(valid, regexes)
    ensures AnyMatch(m, Shaped([Join(regexes)], anchored), s, nocase)
         == AnyMatch(m, Shaped(regexes, anchored), s, nocase)
    ensures AllValid(valid, Shaped([Join(regexes)], anchored))
  {
    hide AnyMatch, Anchored, Join;
    AnyMatchOne(m, Join(regexes), s, nocase);
    AnyMatchOne(m, "^(" + Join(regexes) + ")", s, nocase);
  }

  /** Grouping patterns into chunks leaves what they match together alone. */
  lemma {:induction false} JoinedMatches(m: Matcher, valid: string -> bool, groups: seq<Group>, anchored: bool, s: string, nocase: bool)
    requires JoinLaw(m, valid) && NoneEmpty(groups) && AllValid(valid, Members(groups))
    ensures AnyMatch(m, Shaped(Joined(groups), anchored), s, nocase)
         == AnyMatch(m, Shaped(Members(groups), anchored), s, nocase)
    ensures AllValid(valid, Shaped(Joined(groups), anchored))
  {
    hide AnyMatch, Join, JoinLaw, Anchored;
    if groups == [] {
      assert Anchored([]) == [] by { NoneAnchored(); }
    } else {
      var front, g := groups[..|groups| - 1], groups[|groups| - 1];
      AllValidSplit(valid, Members(front), g.patterns);
      JoinedMatches(m, valid, front, anchored, s, nocase);
      ChunkMatches(m, valid, g.patterns, anchored, s, nocase);
      ShapedConcat(m, Joined(front), [Join(g.patterns)], anchored, s, nocase);
      ShapedConcat(m, Members(front), g.patterns, anchored, s, nocase);
      AnchoredConcat(Joined(front), [Join(g.patterns)]);
    }
  }

  lemma NoneAnchored()
    ensures Anchored([]) == []
  {
  }

  lemma AllValidSplit(valid: string -> bool, a: seq<string>, b: seq<string>)
    requires AllValid(valid, a + b)
    ensures AllValid(valid, a) && AllValid(valid, b)
  {
    forall k | 0 <= k < |a| ensures valid(a[k]) { assert (a + b)[k] == a[k]; }
    forall k | 0 <= k < |b| ensures valid(b[k]) { assert (a + b)[|a| + k] == b[k]; }
  }

  lemma ChunksMatch(m: Matcher, valid: string -> bool, env: Env, regexes: seq<string>, max: nat, anchored: bool, s: string, nocase: bool)
    requires JoinLaw(m, valid) && AllValid(valid, regexes)
    ensures AnyMatch(m, Shaped(Chunks(env, regexes, max), anchored), s, nocase)
         == AnyMatch(m, Shaped(regexes, anchored), s, nocase)
    ensures AllValid(valid, Shaped(Chunks(env, regexes, max), anchored))
    ensures Chunks(env, regexes, max) == [] <==> regexes == []
  {
    hide AnyMatch, JoinLaw, Shaped, Groups;
    var groups := Groups(env, [], regexes, max);
    GroupsKeepPatterns(env, [], regexes, max);
    assert Members([]) + regexes == regexes;
    JoinedMatches(m, valid, groups, anchored, s, nocase);
  }

  // ---- conditions and rules ----

  predicate AnyPasses(m: Matcher, conds: seq<Cond>, r: Request) {
    conds != [] && (Passes(m, conds[0], r, "") || AnyPasses(m, conds[1..], r))
  }

  /** Conditions a rule of their own is made of. */
  ghost predicate Lone(conds: seq<Cond>) {
    forall k | 0 <= k < |conds| :: !conds[k].ornext && conds[k].v != Flag
  }

  lemma HoldOne(m: Matcher, c: Cond, r: Request, flag: string)
    requires !c.ornext && c.v != Flag
    ensures Hold(m, [c], r, flag) == Passes(m, c, r, "")
  {
    hide RewriteBody;
    assert [c][1..] == [];
  }

  lemma RunStep(m: Matcher, rule: Rule, more: seq<Rule>, r: Request, flag: string)
    ensures Run(m, [rule] + more, r, flag)
         == (if !Applies(m, rule, r, flag) then Run(m, more, r, flag)
             else match rule.action
                  case Mark(on) => Run(m, more, r, FlagText(on))
                  case Deny(status) => Denied(status)
                  case Serve(file) => Served(file))
  {
    hide Applies;
    assert ([rule] + more)[1..] == more;
  }

  /** Rules of one condition each set the flag when any condition passes. */
  lemma {:induction false} RunWhens(m: Matcher, conds: seq<Cond>, on: bool, more: seq<Rule>, r: Request, flag: string)
    requires Lone(conds) && m("^", r.uri, false)
    ensures Run(m, Whens(conds, on) + more, r, flag)
         == Run(m, more, r, if AnyPasses(m, conds, r) then FlagText(on) else flag)
  {
    hide Run, Hold, Passes;
    if conds == [] {
      assert Whens(conds, on) + more == more;
    } else {
      var rule := Rule([conds[0]], AnyUrl, Mark(on));
      var rest := Whens(conds[1..], on) + more;
      assert Whens(conds, on) + more == [rule] + rest;
      HoldOne(m, conds[0], r, flag);
      RunStep(m, rule, rest, r, flag);
      RunWhens(m, conds[1..], on, more, r, flag);
      RunWhens(m, conds[1..], on, more, r, FlagText(on));
    }
  }

  lemma {:induction false} GroupedPass(m: Matcher, valid: string -> bool, v: Var, regexes: seq<string>, r: Request)
    requires GroupLaw(m, valid) && AllValid(valid, regexes) && v != Flag
    ensures AnyPasses(m, GroupedConds(v, regexes, false), r) == AnyMatch(m, regexes, Value(v, r, ""), true)
    ensures Lone(GroupedConds(v, regexes, false))
  {
    hide GroupLaw, RewriteBody;
    if regexes != [] {
      GroupedMeans(m, valid, regexes[0], Value(v, r, ""), true);
      GroupedPass(m, valid, v, regexes[1..], r);
    }
  }

  lemma {:induction false} ChainEnds(v: Var, regexes: seq<string>)
    requires regexes != []
    ensures PastChain(GroupedConds(v, regexes, true)) == []
  {
    if |regexes| > 1 {
      ChainEnds(v, regexes[1..]);
    }
  }

  /** Conditions joined by `OR` hold when any of them passes. */
  lemma {:induction false} ChainHolds(m: Matcher, valid: string -> bool, v: Var, regexes: seq<string>, r: Request, flag: string)
    requires GroupLaw(m, valid) && AllValid(valid, regexes) && v != Flag && regexes != []
    ensures Hold(m, GroupedConds(v, regexes, true), r, flag) == AnyMatch(m, regexes, Value(v, r, ""), true)
  {
    hide GroupLaw, RewriteBody, PastChain;
    var conds := GroupedConds(v, regexes, true);
    GroupedMeans(m, valid, regexes[0], Value(v, r, ""), true);
    assert conds[1..] == GroupedConds(v, regexes[1..], true);
    if |regexes| > 1 {
      ChainHolds(m, valid, v, regexes[1..], r, flag);
      ChainEnds(v, regexes);
    } else {
      NothingHolds(m, v, r, flag);
      assert regexes[1..] == [];
    }
  }

  lemma NothingHolds(m: Matcher, v: Var, r: Request, flag: string)
    ensures GroupedConds(v, [], true) == [] && Hold(m, [], r, flag)
  {
  }

  // ---- exempt paths ----

  predicate AnyUnder(paths: seq<string>, r: Request) {
    paths != [] && (Under(paths[0], r) || AnyUnder(paths[1..], r))
  }

  lemma {:induction false} AnyUnderExists(paths: seq<string>, r: Request)
    ensures AnyUnder(paths, r) <==> exists p :: p in paths && Under(p, r)
  {
    if paths != [] {
      AnyUnderExists(paths[1..], r);
      assert paths == [paths[0]] + paths[1..];
    }
  }

  lemma {:induction false} PrefixesMatch(m: Matcher, valid: string -> bool, paths: seq<string>, r: Request)
    requires LiteralLaw(m, valid)
    ensures AnyMatch(m, Anchored(EscapedPaths(paths, "")), r.uri, true) == AnyUnder(paths, r)
    ensures AllValid(valid, EscapedPaths(paths, ""))
  {
    hide AnyMatch, Anchored, ValidPath, StartsWith, Literal, EscapeLiteral;
    if paths == [] {
      NothingMatches(m, r);
    } else {
      PrefixesMatch(m, valid, paths[1..], r);
      if ValidPath(paths[0]) {
        var first := EscapeLiteral(paths[0]);
        EscapedIsLiteral(paths[0]);
        assert first + "" == first;
        AnchoredConcat([first], EscapedPaths(paths[1..], ""));
        AnyMatchConcat(m, Anchored([first]), Anchored(EscapedPaths(paths[1..], "")), r.uri, true);
        AnyMatchOne(m, first, r.uri, true);
        AnyMatchOne(m, "^(" + first + ")", r.uri, true);
      } else {
        assert [] + EscapedPaths(paths[1..], "") == EscapedPaths(paths[1..], "");
      }
    }
  }

  lemma NothingMatches(m: Matcher, r: Request)
    ensures !AnyMatch(m, Anchored([]), r.uri, true)
  {
  }

  lemma ExactMatchesOne(m: Matcher, valid: string -> bool, path: string, r: Request)
    requires LiteralLaw(m, valid) && ValidPath(path)
    ensures AnyMatch(m, Anchored(EscapedPaths([path], "$")), r.uri, true) == Is(Lower(r.uri), Lower(path))
    ensures AllValid(valid, EscapedPaths([path], "$"))
  {
    hide AnyMatch, EscapedPaths, ValidPath, Is, Literal, EscapeLiteral;
    var first := EscapeLiteral(path) + "$";
    EscapedIsLiteral(path);
    EscapedPathsOne(path, "$");
    AnyMatchOne(m, first, r.uri, true);
    AnyMatchOne(m, "^(" + first + ")", r.uri, true);
    assert "^(" + EscapeLiteral(path) + "$" + ")" == "^(" + first + ")";
  }

  /** The path of the generated file itself, when it is served. */
  lemma ExactMatches(m: Matcher, valid: string -> bool, c: Config, r: Request)
    requires LiteralLaw(m, valid)
    ensures AnyMatch(m, Anchored(EscapedPaths(Exact(c), "$")), r.uri, true)
         == (c.serveRobots && Is(Lower(r.uri), "/robots.txt"))
    ensures AllValid(valid, EscapedPaths(Exact(c), "$"))
  {
    hide AnyMatch, EscapedPaths, Anchored, Lower, Is, ValidPath, LiteralLaw, EscapeLiteral;
    NothingMatches(m, r);
    NoPaths();
    if c.serveRobots {
      PlainPathIsValid("/robots.txt");
      AlreadyLower("/robots.txt");
      ExactMatchesOne(m, valid, "/robots.txt", r);
    }
  }

  lemma NoPaths()
    ensures EscapedPaths([], "$") == [] && Anchored([]) == []
  {
  }

  lemma AlreadyLower(s: string)
    requires forall k | 0 <= k < |s| :: !('A' <= s[k] <= 'Z')
    ensures Lower(s) == s
  {
  }

  lemma EscapedPathsOne(path: string, end: string)
    ensures EscapedPaths([path], end) == if ValidPath(path) then [EscapeLiteral(path) + end] else []
  {
    hide ValidPath, EscapeLiteral;
    assert [path][1..] == [];
  }

  lemma PlainPathIsValid(path: string)
    requires PlainPath(path) && path != "" && path[0] == '/' && |path| <= MAX_PATTERN_LEN / 2
    ensures ValidPath(path)
  {
    hide Utf8Length, EscapeLiteral;
    EscapedLength(path);
    assert TrimStart(path) == path && TrimEnd(path) == path;
  }

  /** A plain text, escaped, is at most twice as long. */
  lemma {:induction false} EscapedLength(s: string)
    requires PlainPath(s)
    ensures Utf8Length(EscapeLiteral(s)) <= 2 * |s|
  {
    if s != "" {
      EscapedLength(s[1..]);
      var rest := EscapeLiteral(s[1..]);
      LengthCons(s[0], rest);
      LengthCons('\\', [s[0]] + rest);
      assert "\\" + [s[0]] + rest == ['\\'] + ([s[0]] + rest);
    }
  }

  lemma LengthCons(c: char, rest: string)
    requires c as int < 0x80
    ensures Utf8Length([c] + rest) == 1 + Utf8Length(rest)
  {
    assert ([c] + rest)[1..] == rest;
  }

  /** The regexes an exemption is written as, together, match its prefixes and exact paths. */
  lemma ExemptionsMatch(m: Matcher, valid: string -> bool, env: Env, prefixes: seq<string>, exact: seq<string>, r: Request)
    requires JoinLaw(m, valid) && LiteralLaw(m, valid) && AllValid(valid, EscapedPaths(exact, "$"))
    ensures AnyMatch(m, ExemptionRegexes(env, prefixes, exact), r.uri, true)
         == (AnyUnder(prefixes, r) || AnyMatch(m, Anchored(EscapedPaths(exact, "$")), r.uri, true))
    ensures AllValid(valid, ExemptionRegexes(env, prefixes, exact))
    ensures ExemptionRegexes(env, prefixes, exact) == [] && exact == [] ==> !AnyUnder(prefixes, r)
  {
    hide AnyMatch, JoinLaw, LiteralLaw, EscapedPaths, Chunks, Anchored, AnyUnder;
    var a, b := EscapedPaths(prefixes, ""), EscapedPaths(exact, "$");
    PrefixesMatch(m, valid, prefixes, r);
    ChunksMatch(m, valid, env, a + b, MAX_CHUNK - 3, true, r.uri, true);
    ShapedConcat(m, a, b, true, r.uri, true);
    if ExemptionRegexes(env, prefixes, exact) == [] && exact == [] {
      NoPaths();
      NothingMatches(m, r);
    }
  }

  // ---- exempt user agents ----

  /** Whether an exemption for `agent` and one of `paths` lets a request through. */
  predicate ClearedBy(agent: string, paths: seq<string>, r: Request) {
    ValidAgent(agent) && FindText(Lower(r.userAgent), Lower(agent)).Some? && AnyUnder(paths, r)
  }

  lemma HoldFirst(m: Matcher, c: Cond, conds: seq<Cond>, r: Request, flag: string)
    requires !c.ornext && c.v != Flag
    ensures Hold(m, [c] + conds, r, flag) == (Passes(m, c, r, "") && Hold(m, conds, r, flag))
  {
    hide RewriteBody;
    assert ([c] + conds)[1..] == conds;
  }

  lemma RunAgentClear(m: Matcher, valid: string -> bool, env: Env, agent: string, paths: seq<string>, more: seq<Rule>, r: Request, flag: string)
    requires Lawful(m, valid, env)
    ensures Run(m, AgentClear(env, agent, paths) + more, r, flag)
         == Run(m, more, r, if ClearedBy(agent, paths, r) then "0" else flag)
  {
    hide Run, Hold, AnyMatch, GroupLaw, JoinLaw, ExemptionRegexes, AnyUnder, ValidAgent, RewriteBody, EscapedPaths, Anchored;
    var regexes := ExemptionRegexes(env, paths, []);
    NoPaths();
    NothingMatches(m, r);
    ExemptionsMatch(m, valid, env, paths, [], r);
    if !ValidAgent(agent) || regexes == [] {
      assert AgentClear(env, agent, paths) + more == more;
    } else {
      var c := Cond(UserAgent, Grouped(EscapeLiteral(agent)), true, false);
      var conds := GroupedConds(Uri, regexes, true);
      EscapedIsLiteral(agent);
      GroupedMeans(m, valid, EscapeLiteral(agent), r.userAgent, true);
      HoldFirst(m, c, conds, r, flag);
      ChainHolds(m, valid, Uri, regexes, r, flag);
      RunStep(m, Rule([c] + conds, AnyUrl, Mark(false)), more, r, flag);
    }
  }

  predicate AnyExempt(exemptions: seq<AgentExemption>, r: Request) {
    exemptions != [] && (ExemptBy(exemptions[0], r) || AnyExempt(exemptions[1..], r))
  }

  lemma {:induction false} AnyExemptExists(exemptions: seq<AgentExemption>, r: Request)
    ensures AnyExempt(exemptions, r) <==> exists e :: e in exemptions && ExemptBy(e, r)
  {
    if exemptions != [] {
      AnyExemptExists(exemptions[1..], r);
      assert exemptions == [exemptions[0]] + exemptions[1..];
    }
  }

  /** One user agent's group of exemptions, and the rest. */
  lemma {:induction false} GroupExempts(exemptions: seq<AgentExemption>, agent: string, n: nat, r: Request)
    requires n <= |exemptions| && forall k | 0 <= k < n :: exemptions[k].userAgent == agent
    ensures AnyExempt(exemptions, r)
         == (ClearedBy(agent, PathsOf(exemptions[..n]), r) || AnyExempt(exemptions[n..], r))
  {
    hide ValidAgent, Under, FindText;
    if n > 0 {
      GroupExempts(exemptions[1..], agent, n - 1, r);
      assert exemptions[..n][1..] == exemptions[1..][..n - 1];
      assert exemptions[1..][n - 1..] == exemptions[n..];
    }
  }

  lemma {:induction false} RunAgentClears(m: Matcher, valid: string -> bool, env: Env, exemptions: seq<AgentExemption>, more: seq<Rule>, r: Request, flag: string)
    requires Lawful(m, valid, env)
    ensures Run(m, AgentClears(env, exemptions) + more, r, flag)
         == Run(m, more, r, if AnyExempt(exemptions, r) then "0" else flag)
    decreases |exemptions|
  {
    hide Run, Lawful, AgentClear, ClearedBy, ExemptBy;
    if exemptions == [] {
      assert AgentClears(env, exemptions) + more == more;
    } else {
      var agent := exemptions[0].userAgent;
      var n := SameAgent(exemptions, agent);
      var rest := AgentClears(env, exemptions[n..]);
      GroupExempts(exemptions, agent, n, r);
      assert AgentClears(env, exemptions) + more == AgentClear(env, agent, PathsOf(exemptions[..n])) + (rest + more);
      RunAgentClear(m, valid, env, agent, PathsOf(exemptions[..n]), rest + more, r, flag);
      RunAgentClears(m, valid, env, exemptions[n..], more, r, flag);
      RunAgentClears(m, valid, env, exemptions[n..], more, r, "0");
    }
  }

  // ---- request rules ----

  lemma ConditionMeans(m: Matcher, valid: string -> bool, rule: RequestRule, r: Request)
    requires GroupLaw(m, valid) && FixedLaw(m, valid)
    ensures Passes(m, Condition(rule), r, "") <==> Meets(rule, r)
    ensures !Condition(rule).ornext && Condition(rule).v != Flag
  {
    hide GroupLaw, RewriteBody, StartsWith, Is, StartsWithAddress;
    var c := Condition(rule);
    RuleRegexValid(m, valid, rule);
    GroupedMeans(m, valid, c.test.regex, Value(c.v, r, ""), false);
  }

  lemma RuleRegexValid(m: Matcher, valid: string -> bool, rule: RequestRule)
    requires FixedLaw(m, valid)
    ensures Condition(rule).test.Grouped? && valid(Condition(rule).test.regex)
  {
    hide StartsWith, Is, StartsWithAddress;
  }

  lemma AnyMeetsCons(rules: seq<RequestRule>, r: Request)
    ensures AnyMeets(rules, r) <==> rules != [] && (Meets(rules[0], r) || AnyMeets(rules[1..], r))
  {
    hide Meets;
    if rules != [] { assert rules == [rules[0]] + rules[1..]; }
  }

  lemma {:induction false} ConditionsPass(m: Matcher, valid: string -> bool, rules: seq<RequestRule>, r: Request)
    requires GroupLaw(m, valid) && FixedLaw(m, valid)
    ensures AnyPasses(m, Conditions(rules), r) <==> AnyMeets(rules, r)
    ensures Lone(Conditions(rules))
  {
    hide GroupLaw, FixedLaw, Meets, Passes, Condition, AnyMeets;
    AnyMeetsCons(rules, r);
    if rules != [] {
      ConditionMeans(m, valid, rules[0], r);
      ConditionsPass(m, valid, rules[1..], r);
    }
  }

  // ---- the decision ----

  /** The client's own request: not a redirect's round, not a subrequest's. */
  predicate Original(r: Request) {
    Is(r.redirectStatus, "") && !r.subrequest
  }

  lemma PatternsMatch(m: Matcher, valid: string -> bool, env: Env, c: Config, r: Request)
    requires Lawful(m, valid, env)
    ensures AnyMatch(m, AgentChunks(env, c), r.userAgent, true) <==> AgentBlocked(m, env, c, r)
    ensures AllValid(valid, AgentChunks(env, c))
  {
    hide AnyMatch, GroupLaw, JoinLaw, LiteralLaw, FixedLaw, Chunks, SurvivesApache;
    var usable := UsablePatterns(env, c.patterns);
    ChunksMatch(m, valid, env, usable, MAX_CHUNK, false, r.userAgent, true);
    AnyMatchExists(m, usable, r.userAgent, true);
  }

  lemma PathsMatch(m: Matcher, valid: string -> bool, env: Env, c: Config, r: Request)
    requires Lawful(m, valid, env)
    ensures AnyMatch(m, ExemptionRegexes(env, Prefixes(c), Exact(c)), r.uri, true) <==> PathExempt(c, r)
    ensures AllValid(valid, ExemptionRegexes(env, Prefixes(c), Exact(c)))
  {
    hide AnyMatch, GroupLaw, JoinLaw, LiteralLaw, FixedLaw, ExemptionRegexes, AnyUnder, Under, Prefixes, Exact, EscapedPaths;
    ExactMatches(m, valid, c, r);
    ExemptionsMatch(m, valid, env, Prefixes(c), Exact(c), r);
    AnyUnderExists(Prefixes(c), r);
  }

  lemma RunTrust(m: Matcher, trusts: bool, more: seq<Rule>, r: Request, flag: string)
    requires m("^", r.uri, false)
    ensures Run(m, TrustRules(trusts) + more, r, flag)
         == Run(m, more, r, if trusts && r.trusted == "1" then "0" else flag)
  {
    hide Run, Hold;
    if trusts {
      var c := Cond(Trusted, IsOne, false, false);
      HoldOne(m, c, r, flag);
      RunStep(m, Rule([c], AnyUrl, Mark(false)), more, r, flag);
    } else {
      assert TrustRules(trusts) + more == more;
    }
  }

  lemma RunFinal(m: Matcher, valid: string -> bool, status: nat, r: Request, flag: string)
    requires FixedLaw(m, valid)
    ensures Run(m, [FinalRule(status)], r, flag)
         == if Original(r) && flag == "1" then Denied(status) else Passed(flag)
  {
    hide Run, RewriteBody;
    assert [FinalRule(status)] + [] == [FinalRule(status)];
    RunStep(m, FinalRule(status), [], r, flag);
    assert Run(m, [], r, flag) == Passed(flag) by { RunNothing(m, r, flag); }
    var conds := FinalRule(status).conds;
    assert conds[1..][1..] == [];
  }

  lemma RunNothing(m: Matcher, r: Request, flag: string)
    ensures Run(m, [], r, flag) == Passed(flag)
  {
  }

  /** The rules, one kind after another. */
  lemma RunBlockRules(m: Matcher, valid: string -> bool, env: Env, c: Config, r: Request, flag: string)
    requires Lawful(m, valid, env)
    ensures var f1 := if AgentBlocked(m, env, c, r) || RequestBlocked(c, r) then "1" else flag;
            var f2 := if PathExempt(c, r) || AgentExempt(c, r) || (c.trusts && r.trusted == "1") then "0" else f1;
            Run(m, BlockRules(env, c), r, flag)
            == if Original(r) && f2 == "1" then Denied(StatusCode(c.response)) else Passed(f2)
  {
    hide Run, AnyMatch, GroupLaw, JoinLaw, LiteralLaw, AgentChunks, ExemptionRegexes, AgentClears, AgentBlocked, PathExempt, AnyPasses, Meets, ExemptBy, Whens, GroupedConds, TrustRules, FinalRule, Conditions, Lone, StatusCode, Original;
    var agents := GroupedConds(UserAgent, AgentChunks(env, c), false);
    var paths := GroupedConds(Uri, ExemptionRegexes(env, Prefixes(c), Exact(c)), false);
    var final := [FinalRule(StatusCode(c.response))];
    var afterPaths := AgentClears(env, c.agentExemptions) + (TrustRules(c.trusts) + final);
    var afterRules := Whens(paths, false) + afterPaths;
    var afterAgents := Whens(Conditions(c.requestRules), true) + afterRules;
    assert BlockRules(env, c) == Whens(agents, true) + afterAgents;
    PatternsMatch(m, valid, env, c, r);
    GroupedPass(m, valid, UserAgent, AgentChunks(env, c), r);
    RunWhens(m, agents, true, afterAgents, r, flag);
    ConditionsPass(m, valid, c.requestRules, r);
    var a := if AgentBlocked(m, env, c, r) then "1" else flag;
    RunWhens(m, Conditions(c.requestRules), true, afterRules, r, a);
    var b := if AgentBlocked(m, env, c, r) || RequestBlocked(c, r) then "1" else flag;
    PathsMatch(m, valid, env, c, r);
    GroupedPass(m, valid, Uri, ExemptionRegexes(env, Prefixes(c), Exact(c)), r);
    RunWhens(m, paths, false, afterPaths, r, b);
    var d := if PathExempt(c, r) then "0" else b;
    AnyExemptExists(c.agentExemptions, r);
    RunAgentClears(m, valid, env, c.agentExemptions, TrustRules(c.trusts) + final, r, d);
    var e := if AgentExempt(c, r) then "0" else d;
    RunTrust(m, c.trusts, final, r, e);
    RunFinal(m, valid, StatusCode(c.response), r, if c.trusts && r.trusted == "1" then "0" else e);
  }

  /** Whether the block answers a request with the generated `robots.txt`. */
  predicate ServesRobots(b: Block, r: Request) {
    b.robots.Some? && Is(r.uri, "/robots.txt")
  }

  lemma RunProgram(m: Matcher, valid: string -> bool, b: Block, r: Request, flag: string)
    requires FixedLaw(m, valid)
    ensures Run(m, Program(b), r, flag)
         == if ServesRobots(b, r) then Served(b.robots.value) else Run(m, b.rules, r, flag)
  {
    hide Run, Is;
    if b.robots.Some? {
      RunStep(m, Rule([], RobotsUrl, Serve(b.robots.value)), b.rules, r, flag);
    } else {
      assert [] + b.rules == b.rules;
    }
  }

  /** A configuration that blocks nothing turns no request away. */
  lemma NothingToBlock(m: Matcher, valid: string -> bool, env: Env, c: Config, r: Request)
    requires Lawful(m, valid, env) && !BlocksSomething(env, c)
    ensures !AgentBlocked(m, env, c, r) && !RequestBlocked(c, r)
  {
    hide GroupLaw, JoinLaw, LiteralLaw, FixedLaw, AgentChunks, AgentBlocked, Meets;
    PatternsMatch(m, valid, env, c, r);
  }

  /** A request whose flag is set before any rule: it is turned away too, unless it is cleared, by
      a block that has rules at all. */
  ghost predicate FlaggedBefore(env: Env, c: Config, r: Request, flag: string) {
    flag == "1" && BlocksSomething(env, c) && !Cleared(c, r)
  }

  /** What a compiled block does with the client's own request: serves the generated
      `robots.txt`, or denies exactly what the configuration says to block, and what comes flagged
      already. */
  lemma BlockDecides(m: Matcher, valid: string -> bool, env: Env, c: Config, r: Request, flag: string)
    requires Lawful(m, valid, env) && Original(r) && Compile(env, c).Some?
    ensures var b := Compile(env, c).value;
            var end := Run(m, Program(b), r, flag);
            if ServesRobots(b, r) then end == Served(env.robots)
            else if ShouldBlock(m, env, c, r) || FlaggedBefore(env, c, r, flag) then end == Denied(StatusCode(c.response))
            else end.Passed?
  {
    hide Run, GroupLaw, JoinLaw, LiteralLaw, BlockRules, AgentBlocked, RequestBlocked, PathExempt, AgentExempt, Program, BlocksSomething;
    var b := Compile(env, c).value;
    RunProgram(m, valid, b, r, flag);
    if BlocksSomething(env, c) {
      RunBlockRules(m, valid, env, c, r, flag);
    } else {
      NothingToBlock(m, valid, env, c, r);
      RunNothing(m, r, flag);
    }
  }

  /** No block is written exactly when there is nothing to block or serve; then no request should
      be blocked. */
  lemma NoBlockBlocksNothing(m: Matcher, valid: string -> bool, env: Env, c: Config, r: Request)
    requires Lawful(m, valid, env) && Compile(env, c).None?
    ensures !ShouldBlock(m, env, c, r) && !c.serveRobots
  {
    hide Lawful, AgentBlocked, RequestBlocked, PathExempt, AgentExempt, BlocksSomething;
    NothingToBlock(m, valid, env, c, r);
  }

  // ---- later rounds ----

  /** One run of the rules, for the client's request or for what follows from it. */
  datatype Round = Round(request: Request, flag: string)

  function Outcomes(m: Matcher, rules: seq<Rule>, rounds: seq<Round>): seq<Outcome> {
    if rounds == [] then []
    else [Run(m, rules, rounds[0].request, rounds[0].flag)] + Outcomes(m, rules, rounds[1..])
  }

  ghost predicate Turned(outcomes: seq<Outcome>) {
    exists k | 0 <= k < |outcomes| :: outcomes[k].Denied?
  }

  /** An internal redirect or a subrequest is never denied, whatever its path and whatever the flag
      was left at. */
  lemma LaterRoundPasses(m: Matcher, valid: string -> bool, env: Env, c: Config, r: Request, flag: string)
    requires Lawful(m, valid, env) && Compile(env, c).Some? && !Original(r)
    ensures !Run(m, Program(Compile(env, c).value), r, flag).Denied?
  {
    hide Run, GroupLaw, JoinLaw, LiteralLaw, BlockRules, AgentBlocked, RequestBlocked, PathExempt, AgentExempt, Program, BlocksSomething, Original;
    RunProgram(m, valid, Compile(env, c).value, r, flag);
    RunBlockRules(m, valid, env, c, r, flag);
    RunNothing(m, r, flag);
  }

  lemma {:induction false} LaterRoundsPass(m: Matcher, valid: string -> bool, env: Env, c: Config, rounds: seq<Round>)
    requires Lawful(m, valid, env) && Compile(env, c).Some?
    requires forall k | 0 <= k < |rounds| :: !Original(rounds[k].request)
    ensures !Turned(Outcomes(m, Program(Compile(env, c).value), rounds))
  {
    hide Run, Lawful, Program, Compile, Original;
    if rounds != [] {
      LaterRoundPasses(m, valid, env, c, rounds[0].request, rounds[0].flag);
      LaterRoundsPass(m, valid, env, c, rounds[1..]);
    }
  }

  /** Over the client's request and any internal redirects and subrequests after it, something is
      denied exactly when the request itself was to be blocked, or came flagged, and did not ask for
      the `robots.txt` the block serves: only the first round decides. */
  lemma FirstRoundDecides(m: Matcher, valid: string -> bool, env: Env, c: Config, first: Round, later: seq<Round>)
    requires Lawful(m, valid, env) && Compile(env, c).Some?
    requires Original(first.request)
    requires forall k | 0 <= k < |later| :: !Original(later[k].request)
    ensures var b := Compile(env, c).value;
            Turned(Outcomes(m, Program(b), [first] + later))
            <==> !ServesRobots(b, first.request)
                 && (ShouldBlock(m, env, c, first.request) || FlaggedBefore(env, c, first.request, first.flag))
  {
    hide *;
    BlockDecides(m, valid, env, c, first.request, first.flag);
    LaterRoundsPass(m, valid, env, c, later);
    TurnedCons(m, Program(Compile(env, c).value), first, later);
  }

  lemma TurnedCons(m: Matcher, rules: seq<Rule>, first: Round, later: seq<Round>)
    ensures Turned(Outcomes(m, rules, [first] + later))
       <==> Run(m, rules, first.request, first.flag).Denied? || Turned(Outcomes(m, rules, later))
  {
    hide Run, Turned;
    OutcomesCons(m, rules, first, later);
    TurnedFirst(Run(m, rules, first.request, first.flag), Outcomes(m, rules, later));
  }

  lemma TurnedFirst(o: Outcome, more: seq<Outcome>)
    ensures Turned([o] + more) <==> o.Denied? || Turned(more)
  {
    var out := [o] + more;
    if o.Denied? {
      assert out[0].Denied?;
    } else if Turned(more) {
      var k :| 0 <= k < |more| && more[k].Denied?;
      assert out[k + 1].Denied?;
    } else {
      forall k | 0 <= k < |out|
        ensures !out[k].Denied?
      {
        if k > 0 { assert out[k] == more[k - 1]; }
      }
    }
  }

  lemma OutcomesCons(m: Matcher, rules: seq<Rule>, first: Round, later: seq<Round>)
    ensures Outcomes(m, rules, [first] + later)
         == [Run(m, rules, first.request, first.flag)] + Outcomes(m, rules, later)
  {
    hide Run;
    assert ([first] + later)[1..] == later;
  }
}
