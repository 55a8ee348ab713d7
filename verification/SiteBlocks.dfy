/** What the block written into a host does, in terms of the site's own settings
    (`src/apache.rs`, `for_host`, `refusal`, `apply_block` and `blocks_for_file`). */
module SiteBlocks {
  import opened Text
  import opened ConfText
  import opened ConfWords
  import opened ConfHosts
  import opened BlockConfig
  import opened RewriteProgram
  import opened RewriteDecision
  import opened BlockText
  import opened OwnBlock
  import opened BlockEdits
  import opened ApplyBlocks
  import opened ApplyTheorems

  // ---- what may be written ----

  /** Whether a substitution would start somewhere in a text. */
  ghost predicate StartsVariable(regex: string) {
    exists k | 0 <= k < |regex| - 1 :: regex[k] == '$' && regex[k + 1] == '{'
  }

  lemma VariableIsFound(regex: string)
    ensures FindText(regex, "${").Some? <==> StartsVariable(regex)
  {
    hide FindText;
    if StartsVariable(regex) {
      var k :| 0 <= k < |regex| - 1 && regex[k] == '$' && regex[k + 1] == '{';
      assert regex[k..][0] == '$' && regex[k..][1] == '{';
      assert StartsWith(regex[k..], "${");
    }
    FindTextIs(regex, "${");
    if FindText(regex, "${").Some? {
      var n := FindText(regex, "${").value;
      assert regex[n..][0] == regex[n] && regex[n..][1] == regex[n + 1];
      assert "${"[0] == '$' && "${"[1] == '{';
    }
  }

  /** A regex survives Apache's reading of a line when nothing in it starts a substitution and no
      character is a control character. */
  lemma SurvivesWhen(regex: string)
    ensures SurvivesApache(regex)
       <==> !StartsVariable(regex) && forall k | 0 <= k < |regex| :: 0x20 <= regex[k] as int < 0x7F || regex[k] as int > 0x9F
  {
    hide FindText, StartsVariable;
    VariableIsFound(regex);
  }

  /** A letter, digit or mark that needs no second thought in a path. */
  predicate Ordinary(c: char) {
    'a' <= c <= 'z' || 'A' <= c <= 'Z' || '0' <= c <= '9' || c == '/' || c == '.' || c == '-' || c == '_'
  }

  lemma OrdinaryIsPlain(s: string)
    requires forall k | 0 <= k < |s| :: Ordinary(s[k])
    ensures PlainPath(s)
    ensures forall k | 0 <= k < |s| :: s[k] != '"' && s[k] != '\\' && !IsControl(s[k]) && !IsSpace(s[k])
  {
  }

  /** Every ordinary path of up to 512 characters is written; nothing that does not start with a
      slash, or has a blank, a quote, a backslash or a control character in it, is. */
  lemma ValidPathWhen(path: string)
    ensures path != "" && path[0] == '/' && |path| <= 512 && (forall k | 0 <= k < |path| :: Ordinary(path[k])) ==> ValidPath(path)
    ensures ValidPath(path) ==>
              && path != "" && path[0] == '/' && Utf8Length(EscapeLiteral(path)) <= 1024
              && forall k | 0 <= k < |path| ::
                   !IsSpace(path[k]) && path[k] != '"' && path[k] != '\\' && 0x20 <= path[k] as int && path[k] as int != 0x7F
  {
    if path != "" && path[0] == '/' && |path| <= 512 && forall k | 0 <= k < |path| :: Ordinary(path[k]) {
      OrdinaryIsPlain(path);
      PlainPathIsValid(path);
    }
  }

  /** And so with the user agent of an exemption, which may have blanks inside. */
  lemma ValidAgentWhen(agent: string)
    ensures agent != "" && |agent| <= 512 && (forall k | 0 <= k < |agent| :: Ordinary(agent[k])) ==> ValidAgent(agent)
    ensures ValidAgent(agent) ==>
              && agent != "" && NoSpaceAtEnds(agent) && Utf8Length(EscapeLiteral(agent)) <= 1024
              && forall k | 0 <= k < |agent| ::
                   agent[k] != '"' && agent[k] != '\\' && 0x20 <= agent[k] as int && agent[k] as int != 0x7F
  {
    if agent != "" && |agent| <= 512 && forall k | 0 <= k < |agent| :: Ordinary(agent[k]) {
      OrdinaryIsPlain(agent);
      EscapedLength(agent);
      hide EscapeLiteral, Utf8Length;
      assert TrimStart(agent) == agent && TrimEnd(agent) == agent;
    } else if ValidAgent(agent) {
      TrimmedEnds(agent);
    }
  }

  lemma TrimmedEnds(s: string)
    requires Trim(s) == s
    ensures NoSpaceAtEnds(s)
  {
    var front, back := TrimIs(s);
  }

  // ---- what is asked of a host's block ----

  /** A request rule that is written into a host: what tells TLS clients apart only where there is
      TLS. */
  predicate RuleHolds(rule: RequestRule, isTls: bool) {
    isTls || (rule != Http1x && rule != OldTls)
  }

  ghost predicate SomeRule(c: Config, isTls: bool) {
    exists rule :: rule in c.requestRules && RuleHolds(rule, isTls)
  }

  ghost predicate SomePattern(env: Env, c: Config) {
    exists p :: p in c.patterns && env.usable(p) && SurvivesApache(p)
  }

  /** What a site's settings say to turn away in a host. */
  ghost predicate Wanted(m: Matcher, env: Env, c: Config, isTls: bool, r: Request) {
    || (exists p :: p in c.patterns && env.usable(p) && SurvivesApache(p) && m(p, r.userAgent, true))
    || (exists rule :: rule in c.requestRules && RuleHolds(rule, isTls) && Meets(rule, r))
  }

  /** And what they say to let through all the same: exempt paths; certificate renewal, where there
      is a request rule; the `robots.txt` that is served; exempt user agents on their paths; and who
      is trusted. */
  ghost predicate LetThrough(c: Config, isTls: bool, r: Request) {
    || (exists p :: p in c.exemptPaths && ValidPath(p) && StartsWith(Lower(r.uri), Lower(p)))
    || (SomeRule(c, isTls) && StartsWith(Lower(r.uri), "/.well-known/"))
    || (c.serveRobots && Is(Lower(r.uri), "/robots.txt"))
    || (exists e :: e in c.agentExemptions && ExemptBy(e, r))
    || (c.trusts && r.trusted == "1")
  }

  /** The status a request is turned away with. */
  function TurnedAwayWith(response: Response): nat {
    if response == Response.NotFound then 404
    else if response == Gone then 410
    else if response == TooManyRequests then 429
    else 403
  }

  /** The answer a client's own request is to get from a host's block. */
  ghost predicate IsAnswer(m: Matcher, env: Env, c: Config, isTls: bool, r: Request, flag: string, end: Outcome) {
    if c.serveRobots && (forall k | 0 <= k < |env.robots| :: Ordinary(env.robots[k])) && Is(r.uri, "/robots.txt") then
      end == Served(env.robots)
    else if (Wanted(m, env, c, isTls, r) || (flag == "1" && (SomePattern(env, c) || SomeRule(c, isTls)))) && !LetThrough(c, isTls, r) then
      end == Denied(TurnedAwayWith(c.response))
    else end.Passed?
  }

  // ---- narrowing a configuration to a host ----

  lemma {:induction false} WithoutTlsKeeps(rules: seq<RequestRule>, rule: RequestRule)
    ensures rule in WithoutTlsRules(rules) <==> rule in rules && rule != Http1x && rule != OldTls
  {
    if rules != [] {
      WithoutTlsKeeps(rules[1..], rule);
      assert rules == [rules[0]] + rules[1..];
    }
  }

  lemma ForHostKeeps(c: Config, host: VirtualHost, rule: RequestRule)
    ensures rule in ForHost(c, host).requestRules <==> rule in c.requestRules && RuleHolds(rule, host.isTls)
    ensures ForHost(c, host) == c.(requestRules := ForHost(c, host).requestRules)
  {
    hide WithoutTlsRules;
    WithoutTlsKeeps(c.requestRules, rule);
  }

  lemma AnyRuleKept(c: Config, host: VirtualHost)
    ensures ForHost(c, host).requestRules != [] <==> SomeRule(c, host.isTls)
  {
    hide ForHost;
    var rules := ForHost(c, host).requestRules;
    if rules != [] {
      assert rules[0] in rules;
      ForHostKeeps(c, host, rules[0]);
    }
    if SomeRule(c, host.isTls) {
      var rule :| rule in c.requestRules && RuleHolds(rule, host.isTls);
      ForHostKeeps(c, host, rule);
    }
  }

  lemma RulesBlock(c: Config, host: VirtualHost, r: Request)
    ensures RequestBlocked(ForHost(c, host), r)
       <==> exists rule :: rule in c.requestRules && RuleHolds(rule, host.isTls) && Meets(rule, r)
  {
    hide ForHost, Meets;
    forall rule
      ensures rule in ForHost(c, host).requestRules <==> rule in c.requestRules && RuleHolds(rule, host.isTls)
    {
      ForHostKeeps(c, host, rule);
    }
  }

  lemma WellKnown(r: Request)
    ensures Under("/.well-known/", r) <==> StartsWith(Lower(r.uri), "/.well-known/")
  {
    var path := "/.well-known/";
    assert forall k | 0 <= k < |path| :: Ordinary(path[k]) && !('A' <= path[k] <= 'Z');
    hide Ordinary, Lower, ValidPath;
    ValidPathWhen(path);
    AlreadyLower(path);
  }

  lemma UnderOneMore(paths: seq<string>, more: string, r: Request)
    ensures (exists p :: p in paths + [more] && Under(p, r)) <==> (exists p :: p in paths && Under(p, r)) || Under(more, r)
  {
    hide Under;
    if exists p :: p in paths && Under(p, r) {
      var p :| p in paths && Under(p, r);
      assert p in paths + [more];
    }
    assert more in paths + [more];
  }

  lemma ExemptPaths(c: Config, r: Request)
    ensures (exists p :: p in c.exemptPaths && Under(p, r))
       <==> exists p :: p in c.exemptPaths && ValidPath(p) && StartsWith(Lower(r.uri), Lower(p))
  {
    hide ValidPath, StartsWith, Lower;
  }

  lemma PathsLetThrough(c: Config, host: VirtualHost, r: Request)
    ensures PathExempt(ForHost(c, host), r)
       <==> || (exists p :: p in c.exemptPaths && ValidPath(p) && StartsWith(Lower(r.uri), Lower(p)))
            || (SomeRule(c, host.isTls) && StartsWith(Lower(r.uri), "/.well-known/"))
            || (c.serveRobots && Is(Lower(r.uri), "/robots.txt"))
  {
    hide ForHost, ValidPath, Lower, StartsWith, SomeRule, Under, Is;
    ForHostKeeps(c, host, NoAccept);
    AnyRuleKept(c, host);
    WellKnown(r);
    ExemptPaths(c, r);
    UnderOneMore(c.exemptPaths, "/.well-known/", r);
    assert c.exemptPaths + [] == c.exemptPaths;
  }

  lemma ClearedMeans(c: Config, host: VirtualHost, r: Request)
    ensures Cleared(ForHost(c, host), r) <==> LetThrough(c, host.isTls, r)
  {
    hide PathExempt, ValidPath, Lower, StartsWith, SomeRule, ExemptBy, ForHost;
    PathsLetThrough(c, host, r);
    ForHostKeeps(c, host, NoAccept);
  }

  lemma ShouldBlockMeans(m: Matcher, env: Env, c: Config, host: VirtualHost, r: Request)
    ensures ShouldBlock(m, env, ForHost(c, host), r) <==> Wanted(m, env, c, host.isTls, r) && !LetThrough(c, host.isTls, r)
  {
    hide Cleared, LetThrough, RequestBlocked, ForHost, SurvivesApache;
    ClearedMeans(c, host, r);
    RulesBlock(c, host, r);
    ForHostKeeps(c, host, NoAccept);
  }

  // ---- when a block is written at all ----

  lemma {:induction false} SomeGroup(env: Env, groups: seq<Group>, patterns: seq<string>, max: nat)
    ensures Groups(env, groups, patterns, max) == [] <==> groups == [] && patterns == []
    decreases |patterns|
  {
    if patterns != [] { SomeGroup(env, Grown(groups, patterns[0], env.length(patterns[0]), max), patterns[1..], max); }
  }

  lemma {:induction false} JoinedLength(groups: seq<Group>)
    ensures |Joined(groups)| == |groups|
  {
    hide Join;
    if groups != [] { JoinedLength(groups[..|groups| - 1]); }
  }

  lemma SomeChunk(env: Env, c: Config)
    ensures AgentChunks(env, c) != [] <==> SomePattern(env, c)
  {
    hide Groups, Joined, SurvivesApache;
    var usable := UsablePatterns(env, c.patterns);
    SomeGroup(env, [], usable, MAX_CHUNK);
    JoinedLength(Groups(env, [], usable, MAX_CHUNK));
    if usable != [] { assert usable[0] in usable; }
  }

  lemma SomethingToBlock(env: Env, c: Config, host: VirtualHost)
    ensures BlocksSomething(env, ForHost(c, host)) <==> SomePattern(env, c) || SomeRule(c, host.isTls)
  {
    hide AgentChunks, ForHost, SomeRule, SurvivesApache;
    SomeChunk(env, ForHost(c, host));
    AnyRuleKept(c, host);
    ForHostKeeps(c, host, NoAccept);
  }

  /** A host's block is written exactly when there is something to block in it, or a `robots.txt` to
      serve. */
  lemma BlockIsWritten(env: Env, c: Config, host: VirtualHost)
    ensures Compile(env, ForHost(c, host)).Some? <==> SomePattern(env, c) || SomeRule(c, host.isTls) || c.serveRobots
  {
    hide BlocksSomething, BlockRules, ForHost, SomeRule, SomePattern, PlainPath;
    SomethingToBlock(env, c, host);
    ForHostKeeps(c, host, NoAccept);
  }

  lemma RobotsMeans(env: Env, c: Config, host: VirtualHost)
    requires Compile(env, ForHost(c, host)).Some?
    ensures Compile(env, ForHost(c, host)).value.robots
         == if c.serveRobots && (forall k | 0 <= k < |env.robots| :: Ordinary(env.robots[k])) then Some(env.robots) else None
  {
    hide BlocksSomething, BlockRules, ForHost;
    ForHostKeeps(c, host, NoAccept);
    assert forall ch :: PlainChar(ch) <==> Ordinary(ch);
  }

  lemma StatusMeans(response: Response)
    ensures StatusCode(response) == TurnedAwayWith(response)
  {
  }

  /** What a block does that was written into a host for a site's settings: it answers every request
      of a client as the settings say for a host with TLS, or without. */
  lemma HostBlockDecides(m: Matcher, valid: string -> bool, env: Env, c: Config, host: VirtualHost, r: Request, flag: string)
    requires Lawful(m, valid, env) && Original(r) && Compile(env, ForHost(c, host)).Some?
    ensures IsAnswer(m, env, c, host.isTls, r, flag, Run(m, Program(Compile(env, ForHost(c, host)).value), r, flag))
  {
    hide *;
    BlockDecides(m, valid, env, ForHost(c, host), r, flag);
    ShouldBlockMeans(m, env, c, host, r);
    ClearedMeans(c, host, r);
    SomethingToBlock(env, c, host);
    RobotsMeans(env, c, host);
    StatusMeans(c.response);
    ForHostKeeps(c, host, NoAccept);
    Decided(m, env, c, host, r, flag);
  }

  lemma Decided(m: Matcher, env: Env, c: Config, host: VirtualHost, r: Request, flag: string)
    requires Compile(env, ForHost(c, host)).Some?
    requires var b := Compile(env, ForHost(c, host)).value;
             var end := Run(m, Program(b), r, flag);
             if ServesRobots(b, r) then end == Served(env.robots)
             else if ShouldBlock(m, env, ForHost(c, host), r) || FlaggedBefore(env, ForHost(c, host), r, flag) then
               end == Denied(StatusCode(ForHost(c, host).response))
             else end.Passed?
    requires ShouldBlock(m, env, ForHost(c, host), r) <==> Wanted(m, env, c, host.isTls, r) && !LetThrough(c, host.isTls, r)
    requires Cleared(ForHost(c, host), r) <==> LetThrough(c, host.isTls, r)
    requires BlocksSomething(env, ForHost(c, host)) <==> SomePattern(env, c) || SomeRule(c, host.isTls)
    requires Compile(env, ForHost(c, host)).value.robots
          == if c.serveRobots && (forall k | 0 <= k < |env.robots| :: Ordinary(env.robots[k])) then Some(env.robots) else None
    requires StatusCode(c.response) == TurnedAwayWith(c.response) && ForHost(c, host).response == c.response
    ensures IsAnswer(m, env, c, host.isTls, r, flag, Run(m, Program(Compile(env, ForHost(c, host)).value), r, flag))
  {
    hide Run, Program, Compile, ForHost, ShouldBlock, Cleared, BlocksSomething, Wanted, LetThrough, SomePattern, SomeRule, StatusCode, TurnedAwayWith, Is, Ordinary;
  }

  /** Where none is written, there is nothing to turn away and nothing to serve. */
  lemma NoHostBlock(m: Matcher, env: Env, c: Config, host: VirtualHost, r: Request)
    requires Compile(env, ForHost(c, host)).None?
    ensures !Wanted(m, env, c, host.isTls, r) && !c.serveRobots
  {
    hide Compile, ForHost, SurvivesApache, Meets;
    BlockIsWritten(env, c, host);
  }

  // ---- which settings a host gets ----

  /** The settings a host of a name is to get: those of the first site of that name, or the default
      ones; or, when one site is written, that site's, if it is the one. */
  ghost predicate Given(choice: Choice, name: string, c: Config) {
    match choice
    case WholeFile(sites, default) =>
      || (exists k | 0 <= k < |sites| ::
            sites[k].name == name && sites[k].config == c && forall j | 0 <= j < k :: sites[j].name != name)
      || ((forall k | 0 <= k < |sites| :: sites[k].name != name) && c == default)
    case OneSite(site, config) => name == site && c == config
  }

  /** The name a host is written under: its first one, or the name of those that have none. */
  predicate GoesBy(host: VirtualHost, name: string) {
    if |host.names| > 0 then host.names[0] == name else name == ['_']
  }

  lemma FirstNameIs(host: VirtualHost, name: string)
    ensures FirstName(host) == name <==> GoesBy(host, name)
  {
  }

  /** A host is to get these settings. */
  ghost predicate Gets(choice: Choice, host: VirtualHost, c: Config) {
    exists name :: GoesBy(host, name) && Given(choice, name, c)
  }

  lemma ChosenIsGot(choice: Choice, host: VirtualHost, c: Config)
    ensures Chosen(choice, FirstName(host)) == Some(c) <==> Gets(choice, host, c)
  {
    hide FirstName, GoesBy, Chosen, Given;
    var name := FirstName(host);
    forall other
      ensures GoesBy(host, other) <==> other == name
    {
      FirstNameIs(host, other);
    }
    ChosenIsGiven(choice, name, c);
  }

  lemma {:induction false} FindSiteFinds(sites: seq<Site>, name: string)
    ensures match FindSite(sites, name)
            case None => forall k | 0 <= k < |sites| :: sites[k].name != name
            case Some(c) =>
              exists k | 0 <= k < |sites| ::
                sites[k].name == name && sites[k].config == c && forall j | 0 <= j < k :: sites[j].name != name
  {
    if sites != [] && sites[0].name != name {
      FindSiteFinds(sites[1..], name);
      assert sites == [sites[0]] + sites[1..];
      if FindSite(sites[1..], name).Some? {
        var k :| 0 <= k < |sites[1..]| && sites[1..][k].name == name && sites[1..][k].config == FindSite(sites[1..], name).value
                 && forall j | 0 <= j < k :: sites[1..][j].name != name;
        assert sites[k + 1] == sites[1..][k];
      }
    }
  }

  lemma ChosenIsGiven(choice: Choice, name: string, c: Config)
    ensures Chosen(choice, name) == Some(c) <==> Given(choice, name, c)
  {
    hide FindSite;
    match choice
    case OneSite(_, _) =>
    case WholeFile(sites, default) => FindSiteFinds(sites, name);
  }

  // ---- what is refused ----

  /** The last directive of a name says `args`. */
  ghost predicate LastSays(ds: seq<Directive>, name: string, args: seq<string>) {
    exists k | 0 <= k < |ds| ::
      ds[k].name == name && ds[k].args == args && forall j | k < j < |ds| :: ds[j].name != name
  }

  ghost predicate NeverSays(ds: seq<Directive>, name: string) {
    forall k | 0 <= k < |ds| :: ds[k].name != name
  }

  lemma {:induction false} LastOfSays(name: string, ds: seq<Directive>)
    ensures match LastOf(name, ds)
            case None => NeverSays(ds, name)
            case Some(args) => LastSays(ds, name, args)
  {
    if ds != [] {
      var n := |ds| - 1;
      if ds[n].name != name {
        LastOfSays(name, ds[..n]);
        if LastOf(name, ds[..n]).Some? {
          var args := LastOf(name, ds[..n]).value;
          var k :| 0 <= k < n && ds[..n][k].name == name && ds[..n][k].args == args && forall j | k < j < n :: ds[..n][j].name != name;
          assert ds[k] == ds[..n][k];
          forall j | k < j < |ds| ensures ds[j].name != name { if j < n { assert ds[j] == ds[..n][j]; } }
        } else {
          forall k | 0 <= k < |ds| ensures ds[k].name != name { if k < n { assert ds[k] == ds[..n][k]; } }
        }
      }
    }
  }

  lemma OneLast(ds: seq<Directive>, name: string, args: seq<string>, other: seq<string>)
    ensures LastSays(ds, name, args) && LastSays(ds, name, other) ==> args == other
    ensures !(LastSays(ds, name, args) && NeverSays(ds, name))
  {
  }

  ghost predicate HasWord(words: seq<string>, word: string) {
    exists k | 0 <= k < |words| :: Lower(words[k]) == word
  }

  /** HTTP/2 is spoken in a host: the module is there, under a server that serves it, and the
      protocols in force, the host's own last word or else the server's, include it. */
  ghost predicate SpeaksH2(tree: Option<Tree>, host: VirtualHost) {
    && tree.Some? && tree.value.http2 && !tree.value.prefork
    && (|| (exists args :: LastSays(host.serverScope, "protocols", args) && HasWord(args, "h2"))
        || (NeverSays(host.serverScope, "protocols") && tree.value.protocols.Some? && HasWord(tree.value.protocols.value, "h2")))
  }

  /** The host's last word on its rewrite rules is that they are off. */
  ghost predicate RewritesAreOff(host: VirtualHost) {
    exists args :: LastSays(host.serverScope, "rewriteengine", args) && args != [] && Lower(args[0]) == "off"
  }

  /** What passes a configuration test and would not do what it says: turning away everyone who
      speaks HTTP/1.x where nobody can speak anything else, and a block that is switched off. */
  ghost predicate MustRefuse(env: Env, c: Config, host: VirtualHost, tree: Option<Tree>) {
    || (Http1x in c.requestRules && host.isTls && !SpeaksH2(tree, host))
    || ((SomePattern(env, c) || SomeRule(c, host.isTls) || c.serveRobots) && RewritesAreOff(host))
  }

  lemma H2Means(tree: Option<Tree>, host: VirtualHost)
    ensures WithoutH2(tree, host).None? <==> SpeaksH2(tree, host)
  {
    hide LastOf, LastSays, NeverSays, Lower;
    LastOfSays("protocols", host.serverScope);
    forall args, other
      ensures LastSays(host.serverScope, "protocols", args) && LastSays(host.serverScope, "protocols", other) ==> args == other
      ensures !(LastSays(host.serverScope, "protocols", args) && NeverSays(host.serverScope, "protocols"))
    {
      OneLast(host.serverScope, "protocols", args, other);
    }
  }

  lemma OffMeans(host: VirtualHost)
    ensures RewriteSwitchedOff(host) <==> RewritesAreOff(host)
  {
    hide LastOf, LastSays, NeverSays, Lower;
    LastOfSays("rewriteengine", host.serverScope);
    forall args, other
      ensures LastSays(host.serverScope, "rewriteengine", args) && LastSays(host.serverScope, "rewriteengine", other) ==> args == other
      ensures !(LastSays(host.serverScope, "rewriteengine", args) && NeverSays(host.serverScope, "rewriteengine"))
    {
      OneLast(host.serverScope, "rewriteengine", args, other);
    }
  }

  /** A configuration is refused for a host exactly when it must be. */
  lemma RefusalMeans(env: Env, c: Config, host: VirtualHost, tree: Option<Tree>)
    ensures Refusal(env, ForHost(c, host), host, tree).Some? <==> MustRefuse(env, c, host, tree)
  {
    hide ForHost, Compile, WithoutH2, RewriteSwitchedOff, SpeaksH2, RewritesAreOff, SomePattern, SomeRule;
    ForHostKeeps(c, host, Http1x);
    BlockIsWritten(env, c, host);
    H2Means(tree, host);
    OffMeans(host);
  }

  lemma NewBodyMeans(w: World, choice: Choice, p: Piece)
    requires p.Host?
    ensures NewBody(w, choice, p).Err?
       <==> exists c :: Gets(choice, Shown(p), c) && MustRefuse(w.env, c, Shown(p), w.tree)
  {
    hide Chosen, Gets, Refusal, MustRefuse, Shown, FirstName, ForHost, OwnLines, Edited;
    var name := FirstName(Shown(p));
    forall c
      ensures Chosen(choice, name) == Some(c) <==> Gets(choice, Shown(p), c)
    {
      ChosenIsGot(choice, Shown(p), c);
    }
    if Chosen(choice, name).Some? {
      RefusalMeans(w.env, Chosen(choice, name).value, Shown(p), w.tree);
    }
  }

  lemma {:induction false} PlanFailsWhen(w: World, choice: Choice, ps: seq<Piece>)
    ensures Plan(w, choice, ps).Err? <==> exists k | 0 <= k < |ps| :: ps[k].Host? && NewBody(w, choice, ps[k]).Err?
  {
    hide NewBody;
    if ps != [] {
      PlanFailsWhen(w, choice, ps[1..]);
      assert ps == [ps[0]] + ps[1..];
      if exists k | 0 <= k < |ps[1..]| :: ps[1..][k].Host? && NewBody(w, choice, ps[1..][k]).Err? {
        var k :| 0 <= k < |ps[1..]| && ps[1..][k].Host? && NewBody(w, choice, ps[1..][k]).Err?;
        assert ps[k + 1] == ps[1..][k];
      }
    }
  }

  ghost predicate RefusedAt(w: World, choice: Choice, p: Piece) {
    p.Host? && exists c :: Gets(choice, Shown(p), c) && MustRefuse(w.env, c, Shown(p), w.tree)
  }

  /** An apply is refused exactly when some host must not be written what it is to get. */
  lemma ApplyIsRefusedWhen(w: World, choice: Choice, content: string)
    requires SaneEnv(w.env) && Tidy(Pieces(Logical(content)))
    ensures Applied(w, choice, content).Err?
       <==> exists k | 0 <= k < |Pieces(Logical(content))| :: RefusedAt(w, choice, Pieces(Logical(content))[k])
  {
    hide Applied, Pieces, Logical, TidyBody, Plan, TextOf, NewBody, Gets, MustRefuse, Shown, FirstName, FileIs;
    var ps := Pieces(Logical(content));
    ApplyIsOnePass(w, choice, content);
    PlanFailsWhen(w, choice, ps);
    forall k | 0 <= k < |ps| && ps[k].Host?
      ensures NewBody(w, choice, ps[k]).Err? <==> RefusedAt(w, choice, ps[k])
    {
      NewBodyMeans(w, choice, ps[k]);
    }
  }

  // ---- where a block goes ----

  /** A section: from the first line that is the opening marker to the first closing one from there
      on. */
  ghost predicate SectionAt(body: seq<LogicalLine>, begin: string, end: string, r: Range) {
    && r.from < r.to <= |body| && Trim(body[r.from].text) == begin && Trim(body[r.to - 1].text) == end
    && (forall k | 0 <= k < r.from :: Trim(body[k].text) != begin)
    && (forall k | r.from <= k < r.to - 1 :: Trim(body[k].text) != end)
  }

  lemma LocatedMeans(body: seq<LogicalLine>, begin: string, end: string, r: Range)
    ensures Located(body, begin, end) == Some(r) <==> SectionAt(body, begin, end, r)
  {
    hide Trim;
    MarkAtMeans(body, begin);
    if MarkAt(body, begin).Some? {
      var first := MarkAt(body, begin).value;
      MarkAtMeans(body[first..], end);
      forall k | first <= k < |body| ensures body[k] == body[first..][k - first] {}
    }
  }

  lemma {:induction false} MarkAtMeans(ls: seq<LogicalLine>, mark: string)
    ensures match MarkAt(ls, mark)
            case None => forall k | 0 <= k < |ls| :: Trim(ls[k].text) != mark
            case Some(n) => n < |ls| && Trim(ls[n].text) == mark && forall k | 0 <= k < n :: Trim(ls[k].text) != mark
  {
    hide Trim;
    if ls != [] {
      MarkAtMeans(ls[1..], mark);
      assert ls == [ls[0]] + ls[1..];
    }
  }

  /** Lines put in the place of a host's section, or in front of all its lines if it has none. */
  ghost predicate PutIn(body: seq<LogicalLine>, lines: seq<LogicalLine>, out: seq<LogicalLine>) {
    || (exists r :: SectionAt(body, BLOCK_BEGIN, BLOCK_END, r) && out == body[..r.from] + lines + body[r.to..])
    || ((forall r :: !SectionAt(body, BLOCK_BEGIN, BLOCK_END, r)) && out == lines + body)
  }

  lemma EditedMeans(body: seq<LogicalLine>, lines: seq<LogicalLine>)
    ensures PutIn(body, lines, Edited(body, lines))
  {
    hide SectionAt, Located;
    forall r: Range
      ensures Located(body, BLOCK_BEGIN, BLOCK_END) == Some(r) <==> SectionAt(body, BLOCK_BEGIN, BLOCK_END, r)
    {
      LocatedMeans(body, BLOCK_BEGIN, BLOCK_END, r);
    }
    if Located(body, BLOCK_BEGIN, BLOCK_END).Some? {
      LocatedMeans(body, BLOCK_BEGIN, BLOCK_END, Located(body, BLOCK_BEGIN, BLOCK_END).value);
    }
  }

  // ---- what is written ----

  /** Lines that are a host's block for a site's settings: none, where there is nothing to do; or
      those of a program that answers every client as the settings say. */
  ghost predicate BlockFor(m: Matcher, env: Env, c: Config, isTls: bool, lines: seq<LogicalLine>) {
    if lines == [] then !c.serveRobots && forall r :: !Wanted(m, env, c, isTls, r)
    else
      exists b ::
        && lines == LoggedAll(BlockLines(env, b))
        && forall r, flag | Original(r) :: IsAnswer(m, env, c, isTls, r, flag, Run(m, Program(b), r, flag))
  }

  lemma OwnLinesAreFor(m: Matcher, valid: string -> bool, env: Env, c: Config, host: VirtualHost)
    requires Lawful(m, valid, env) && SaneEnv(env)
    ensures BlockFor(m, env, c, host.isTls, OwnLines(env, ForHost(c, host)))
  {
    hide Lawful, IsAnswer, Wanted, Run, Program, Compile, ForHost, LoggedAll, BlockLines, Original, IsOwnBlock;
    if Compile(env, ForHost(c, host)).None? {
      forall r
        ensures !Wanted(m, env, c, host.isTls, r) && !c.serveRobots
      {
        NoHostBlock(m, env, c, host, r);
      }
      var any: Request :| true;
      NoHostBlock(m, env, c, host, any);
    } else {
      var b := Compile(env, ForHost(c, host)).value;
      CompiledIsOwn(env, ForHost(c, host));
      OwnIsSome(OwnLines(env, ForHost(c, host)));
      forall r, flag | Original(r)
        ensures IsAnswer(m, env, c, host.isTls, r, flag, Run(m, Program(b), r, flag))
      {
        HostBlockDecides(m, valid, env, c, host, r, flag);
      }
    }
  }

  lemma OwnIsSome(ls: seq<LogicalLine>)
    requires IsOwnBlock(ls)
    ensures ls != []
  {
    hide Marks, Quiet, Balanced, Closed;
  }

  /** What becomes of a host: it is left alone if it is to get no settings; otherwise what is in the
      place of its section, or in front of its lines, is the block for the settings it is to get. */
  ghost predicate Becomes(m: Matcher, w: World, choice: Choice, p: Piece, q: Piece)
    requires p.Host?
  {
    && ((forall c :: !Gets(choice, Shown(p), c)) ==> q == p)
    && (forall c | Gets(choice, Shown(p), c) ::
          exists lines, body :: BlockFor(m, w.env, c, Shown(p).isTls, lines) && PutIn(p.body, lines, body) && q == p.(body := body))
  }

  lemma PieceBecomes(m: Matcher, valid: string -> bool, w: World, choice: Choice, p: Piece)
    requires Lawful(m, valid, w.env) && SaneEnv(w.env) && p.Host? && NewBody(w, choice, p).Ok?
    ensures Becomes(m, w, choice, p, p.(body := NewBody(w, choice, p).value))
  {
    hide Lawful, Chosen, Gets, Refusal, Shown, FirstName, ForHost, OwnLines, Edited, BlockFor, PutIn;
    var name := FirstName(Shown(p));
    forall c
      ensures Chosen(choice, name) == Some(c) <==> Gets(choice, Shown(p), c)
    {
      ChosenIsGot(choice, Shown(p), c);
    }
    if Chosen(choice, name).Some? {
      var c := Chosen(choice, name).value;
      OwnLinesAreFor(m, valid, w.env, c, Shown(p));
      EditedMeans(p.body, OwnLines(w.env, ForHost(c, Shown(p))));
    }
  }

  /** The file an apply writes: every host of it, in its place, has become what its settings ask
      for, and nothing else in the file has changed. */
  lemma WrittenFileDecides(m: Matcher, valid: string -> bool, w: World, choice: Choice, content: string)
    requires Lawful(m, valid, w.env) && SaneEnv(w.env) && Tidy(Pieces(Logical(content))) && Applied(w, choice, content).Ok?
    ensures var ps, qs := Pieces(Logical(content)), Pieces(Logical(Applied(w, choice, content).value));
            && |qs| == |ps|
            && (forall k | 0 <= k < |ps| && !ps[k].Host? :: qs[k] == ps[k])
            && (forall k | 0 <= k < |ps| && ps[k].Host? :: Becomes(m, w, choice, ps[k], qs[k]))
  {
    hide Lawful, Applied, Pieces, Logical, TidyBody, Plan, TextOf, NewBody, Becomes, FileIs;
    var ps := Pieces(Logical(content));
    ApplyIsOnePass(w, choice, content);
    var qs := Plan(w, choice, ps).value;
    ReadsBack(TextOf(qs), qs);
    PlanIsPointwise(w, choice, ps);
    forall k | 0 <= k < |ps|
      ensures !ps[k].Host? ==> qs[k] == ps[k]
      ensures ps[k].Host? ==> Becomes(m, w, choice, ps[k], qs[k])
    {
      assert PlanPiece(w, choice, ps[k]) == Ok(qs[k]);
      if ps[k].Host? { PieceBecomes(m, valid, w, choice, ps[k]); }
    }
  }
}
