/** The `mod_rewrite` program a site's block is: what it is compiled from, and what running it
    decides (`src/apache.rs`, "how a block decides" and "writing a block"). */
module RewriteProgram {
  import opened Text
  import opened ConfText
  import opened ConfWords
  import opened ConfHosts
  import opened BlockConfig

  // ---- the language ----

  datatype Var =
    | UserAgent | Uri | Protocol | Accept | AcceptLanguage | HostHeader | TlsVersion
    | Trusted | RedirectStatus | Flag

  /** A condition's right-hand side: a regex written quoted and grouped, the bare `^$`, or a
      comparison with `1`. */
  datatype Test = Grouped(regex: string) | Empty | IsOne

  datatype Cond = Cond(v: Var, test: Test, nocase: bool, ornext: bool)

  datatype Url = AnyUrl | RobotsUrl

  datatype Action = Mark(on: bool) | Deny(status: nat) | Serve(file: string)

  /** Conditions, and the rule they guard. `Deny` carries `[L,NS]`, `Serve` carries `[L]`. */
  datatype Rule = Rule(conds: seq<Cond>, url: Url, action: Action)

  // ---- the compiler ----

  const MAX_CHUNK := 2000

  function FlagText(on: bool): string {
    if on then "1" else "0"
  }

  /** One rule for each condition. */
  function Whens(conds: seq<Cond>, on: bool): seq<Rule> {
    if conds == [] then [] else [Rule([conds[0]], AnyUrl, Mark(on))] + Whens(conds[1..], on)
  }

  /** A condition for each regex, ignoring case; `either` joins them so that one is enough. */
  function GroupedConds(v: Var, regexes: seq<string>, either: bool): seq<Cond> {
    if regexes == [] then []
    else
      [Cond(v, Grouped(regexes[0]), true, either && |regexes| > 1)] + GroupedConds(v, regexes[1..], either)
  }

  function Condition(rule: RequestRule): Cond {
    match rule
    case Http1x => Cond(Protocol, Grouped("^HTTP/1\\."), false, false)
    case NoAccept => Cond(Accept, Grouped("^$"), false, false)
    case NoAcceptLanguage => Cond(AcceptLanguage, Grouped("^$"), false, false)
    case NoUserAgent => Cond(UserAgent, Grouped("^$"), false, false)
    case IpLiteralHost => Cond(HostHeader, Grouped("^(\\d+\\.\\d+\\.\\d+\\.\\d+|\\[)"), false, false)
    case OldTls => Cond(TlsVersion, Grouped("^TLSv1(\\.[01])?$"), false, false)
  }

  function Conditions(rules: seq<RequestRule>): seq<Cond> {
    if rules == [] then [] else [Condition(rules[0])] + Conditions(rules[1..])
  }

  /** The exempt prefixes in effect: certificate renewal always gets through a request rule. */
  function Prefixes(c: Config): seq<string> {
    c.exemptPaths + (if c.requestRules != [] then ["/.well-known/"] else [])
  }

  function Exact(c: Config): seq<string> {
    if c.serveRobots then ["/robots.txt"] else []
  }

  function EscapedPaths(paths: seq<string>, end: string): seq<string> {
    if paths == [] then []
    else (if ValidPath(paths[0]) then [EscapeLiteral(paths[0]) + end] else []) + EscapedPaths(paths[1..], end)
  }

  function Anchored(chunks: seq<string>): seq<string> {
    if chunks == [] then [] else ["^(" + chunks[0] + ")"] + Anchored(chunks[1..])
  }

  function ExemptionRegexes(env: Env, prefixes: seq<string>, exact: seq<string>): seq<string> {
    Anchored(Chunks(env, EscapedPaths(prefixes, "") + EscapedPaths(exact, "$"), MAX_CHUNK - 3))
  }

  /** How many exemptions at the front are for `agent`. */
  function SameAgent(exemptions: seq<AgentExemption>, agent: string): (n: nat)
    ensures n <= |exemptions|
    ensures exemptions != [] && exemptions[0].userAgent == agent ==> n > 0
    ensures forall k | 0 <= k < n :: exemptions[k].userAgent == agent
  {
    if exemptions == [] || exemptions[0].userAgent != agent then 0
    else 1 + SameAgent(exemptions[1..], agent)
  }

  function PathsOf(exemptions: seq<AgentExemption>): seq<string> {
    if exemptions == [] then [] else [exemptions[0].path] + PathsOf(exemptions[1..])
  }

  /** One user agent's exemptions: a rule for the agent and any of its paths. */
  function AgentClear(env: Env, agent: string, paths: seq<string>): seq<Rule> {
    var regexes := ExemptionRegexes(env, paths, []);
    if !ValidAgent(agent) || regexes == [] then []
    else
      [Rule([Cond(UserAgent, Grouped(EscapeLiteral(agent)), true, false)] + GroupedConds(Uri, regexes, true),
            AnyUrl, Mark(false))]
  }

  function AgentClears(env: Env, exemptions: seq<AgentExemption>): seq<Rule>
    decreases |exemptions|
  {
    if exemptions == [] then []
    else
      var n := SameAgent(exemptions, exemptions[0].userAgent);
      AgentClear(env, exemptions[0].userAgent, PathsOf(exemptions[..n])) + AgentClears(env, exemptions[n..])
  }

  function TrustRules(trusts: bool): seq<Rule> {
    if trusts then [Rule([Cond(Trusted, IsOne, false, false)], AnyUrl, Mark(false))] else []
  }

  function FinalRule(status: nat): Rule {
    Rule([Cond(RedirectStatus, Empty, false, false), Cond(Flag, IsOne, false, false)], AnyUrl, Deny(status))
  }

  /** A block: the `robots.txt` it serves, if any, and its rules after that. */
  datatype Block = Block(robots: Option<string>, rules: seq<Rule>)

  predicate PlainChar(c: char) {
    'a' <= c <= 'z' || 'A' <= c <= 'Z' || '0' <= c <= '9' || c in "/._-"
  }

  predicate PlainPath(path: string) {
    forall k | 0 <= k < |path| :: PlainChar(path[k])
  }

  function AgentChunks(env: Env, c: Config): seq<string> {
    Chunks(env, UsablePatterns(env, c.patterns), MAX_CHUNK)
  }

  predicate BlocksSomething(env: Env, c: Config) {
    AgentChunks(env, c) != [] || c.requestRules != []
  }

  /** The rules, in the order that is the whole mechanism: what sets the flag, what clears it, and
      the one that acts on it. */
  function BlockRules(env: Env, c: Config): seq<Rule> {
    Whens(GroupedConds(UserAgent, AgentChunks(env, c), false), true)
    + Whens(Conditions(c.requestRules), true)
    + Whens(GroupedConds(Uri, ExemptionRegexes(env, Prefixes(c), Exact(c)), false), false)
    + AgentClears(env, c.agentExemptions) + TrustRules(c.trusts) + [FinalRule(StatusCode(c.response))]
  }

  function Compile(env: Env, c: Config): Option<Block> {
    if !BlocksSomething(env, c) && !c.serveRobots then None
    else
      Some(Block(if c.serveRobots && PlainPath(env.robots) then Some(env.robots) else None,
                 if BlocksSomething(env, c) then BlockRules(env, c) else []))
  }

  function Program(b: Block): seq<Rule> {
    (match b.robots case None => [] case Some(file) => [Rule([], RobotsUrl, Serve(file))]) + b.rules
  }

  // ---- running it ----

  /** A request as `mod_rewrite` sees it in one round. */
  datatype Request = Request(
    userAgent: string, uri: string, protocol: string, accept: string, acceptLanguage: string,
    host: string, tlsVersion: string, trusted: string, redirectStatus: string, subrequest: bool)

  function Value(v: Var, r: Request, flag: string): string {
    match v
    case UserAgent => r.userAgent
    case Uri => r.uri
    case Protocol => r.protocol
    case Accept => r.accept
    case AcceptLanguage => r.acceptLanguage
    case HostHeader => r.host
    case TlsVersion => r.tlsVersion
    case Trusted => r.trusted
    case RedirectStatus => r.redirectStatus
    case Flag => flag
  }

  /** Whether a regex matches a text, ignoring case or not. */
  type Matcher = (string, string, bool) -> bool

  predicate Passes(m: Matcher, c: Cond, r: Request, flag: string) {
    var value := Value(c.v, r, flag);
    match c.test
    case Grouped(regex) => m("(?:" + RewriteBody(regex) + ")", value, c.nocase)
    case Empty => m("^$", value, c.nocase)
    case IsOne => value == "1"
  }

  /** Past a condition that passed and says `OR`: the rest of its chain is not looked at. */
  function PastChain(conds: seq<Cond>): (rest: seq<Cond>)
    ensures |rest| < |conds| || conds == []
  {
    if conds == [] then [] else if conds[0].ornext then PastChain(conds[1..]) else conds[1..]
  }

  /** Whether a rule's conditions hold: all of them, those joined by `OR` counting as one. */
  predicate Hold(m: Matcher, conds: seq<Cond>, r: Request, flag: string)
    decreases |conds|
  {
    if conds == [] then true
    else if !conds[0].ornext then Passes(m, conds[0], r, flag) && Hold(m, conds[1..], r, flag)
    else if Passes(m, conds[0], r, flag) then Hold(m, PastChain(conds), r, flag)
    else Hold(m, conds[1..], r, flag)
  }

  predicate UrlMatches(m: Matcher, url: Url, r: Request) {
    match url
    case AnyUrl => m("^", r.uri, false)
    case RobotsUrl => m("^/robots\\.txt$", r.uri, false)
  }

  predicate Applies(m: Matcher, rule: Rule, r: Request, flag: string) {
    && !(rule.action.Deny? && r.subrequest)
    && UrlMatches(m, rule.url, r) && Hold(m, rule.conds, r, flag)
  }

  datatype Outcome = Denied(status: nat) | Served(file: string) | Passed(flag: string)

  /** Runs rules in order, from a value of the flag. */
  function Run(m: Matcher, rules: seq<Rule>, r: Request, flag: string): Outcome {
    if rules == [] then Passed(flag)
    else if !Applies(m, rules[0], r, flag) then Run(m, rules[1..], r, flag)
    else
      match rules[0].action
      case Mark(on) => Run(m, rules[1..], r, FlagText(on))
      case Deny(status) => Denied(status)
      case Serve(file) => Served(file)
  }

  // ---- what is taken from PCRE ----

  predicate AnyMatch(m: Matcher, regexes: seq<string>, s: string, nocase: bool) {
    regexes != [] && (m(regexes[0], s, nocase) || AnyMatch(m, regexes[1..], s, nocase))
  }

  ghost predicate AllValid(valid: string -> bool, regexes: seq<string>) {
    forall k | 0 <= k < |regexes| :: valid(regexes[k])
  }

  /** What `$` accepts: the end, or a line break before it. */
  predicate Is(s: string, whole: string) {
    s == whole || s == whole + "\n"
  }

  /** A regex means what its tokens are, and what a group around it means. */
  ghost predicate GroupLaw(m: Matcher, valid: string -> bool) {
    && (forall regex | valid(regex) :: Dangling !in Tokens(regex) && valid("(?:" + regex + ")"))
    && (forall regex, s, nocase | valid(regex) :: m("(?:" + regex + ")", s, nocase) == m(regex, s, nocase))
    && (forall x, y, s, nocase | valid(x) && Tokens(x) == Tokens(y) :: m(x, s, nocase) == m(y, s, nocase))
  }

  /** Regexes joined with `|` match what any of them does, with or without an anchor. */
  ghost predicate JoinLaw(m: Matcher, valid: string -> bool) {
    forall regexes | regexes != [] && AllValid(valid, regexes) ::
      && valid(Join(regexes)) && valid("^(" + Join(regexes) + ")")
      && (forall s, nocase :: m(Join(regexes), s, nocase) == AnyMatch(m, regexes, s, nocase))
      && (forall s, nocase ::
            m("^(" + Join(regexes) + ")", s, nocase) == AnyMatch(m, Anchored(regexes), s, nocase))
  }

  /** A token that stands for one character and no more: an operator only when it is escaped. */
  predicate StandsFor(token: Token, c: char) {
    match token
    case Plain(d) => d == c && c !in ".^$|()[]{}*+?\\"
    case Quote => c == '"'
    case Escape(d) => d == c && c in ".^$|()[]{}*+?\\"
    case Dangling => false
  }

  /** A regex that says a text, character for character. */
  ghost predicate Literal(regex: string, text: string) {
    |Tokens(regex)| == |text| && forall k | 0 <= k < |text| :: StandsFor(Tokens(regex)[k], text[k])
  }

  /** Such a regex matches that text, ignoring case: anywhere, from the start, or as the whole. */
  ghost predicate LiteralLaw(m: Matcher, valid: string -> bool) {
    forall x, t | Literal(x, t) ::
      && valid(x) && valid(x + "$")
      && (forall s :: m(x, s, true) == FindText(Lower(s), Lower(t)).Some?)
      && (forall s :: m("^(" + x + ")", s, true) == StartsWith(Lower(s), Lower(t)))
      && (forall s :: m("^(" + x + "$" + ")", s, true) == Is(Lower(s), Lower(t)))
  }

  lemma TokensOfOne(c: char, rest: string)
    requires c != '\\'
    ensures Tokens([c] + rest) == [if c == '"' then Quote else Plain(c)] + Tokens(rest)
  {
    assert ([c] + rest)[1..] == rest;
  }

  lemma TokensOfEscaped(c: char, rest: string)
    requires c != 'x' && c != '"'
    ensures Tokens("\\" + [c] + rest) == [Escape(c)] + Tokens(rest)
  {
    assert ("\\" + [c] + rest)[2..] == rest;
  }

  /** An escaped text is a regex that says it: every operator is escaped, and nothing else is. */
  lemma {:induction false} EscapedIsLiteral(text: string)
    ensures Literal(EscapeLiteral(text), text)
  {
    hide Tokens;
    if text == "" {
      NoTokens();
    } else {
      EscapedIsLiteral(text[1..]);
      var rest := EscapeLiteral(text[1..]);
      if IsRegexSpecial(text[0]) {
        TokensOfEscaped(text[0], rest);
      } else {
        TokensOfOne(text[0], rest);
      }
    }
  }

  lemma NoTokens()
    ensures Tokens("") == []
  {
  }

  predicate AllDigits(s: string) {
    s != "" && forall k | 0 <= k < |s| :: '0' <= s[k] <= '9'
  }

  /** Four runs of digits with dots between, and anything after. */
  ghost predicate StartsWithAddress(s: string) {
    exists a, b, c, d, rest ::
      && AllDigits(a) && AllDigits(b) && AllDigits(c) && AllDigits(d)
      && s == a + "." + b + "." + c + "." + d + rest
  }

  /** What each request rule looks for. */
  ghost predicate Meets(rule: RequestRule, r: Request) {
    match rule
    case Http1x => StartsWith(r.protocol, "HTTP/1.")
    case NoAccept => Is(r.accept, "")
    case NoAcceptLanguage => Is(r.acceptLanguage, "")
    case NoUserAgent => Is(r.userAgent, "")
    case IpLiteralHost => StartsWithAddress(r.host) || StartsWith(r.host, "[")
    case OldTls => Is(r.tlsVersion, "TLSv1") || Is(r.tlsVersion, "TLSv1.0") || Is(r.tlsVersion, "TLSv1.1")
  }

  /** The fixed regexes. */
  ghost predicate FixedLaw(m: Matcher, valid: string -> bool) {
    && (forall s, nocase :: m("^$", s, nocase) == Is(s, "")) && valid("^$")
    && (forall s :: m("^", s, false))
    && (forall s :: m("^/robots\\.txt$", s, false) == Is(s, "/robots.txt"))
    && (forall s :: m("^HTTP/1\\.", s, false) == StartsWith(s, "HTTP/1.")) && valid("^HTTP/1\\.")
    && (forall s :: m("^(\\d+\\.\\d+\\.\\d+\\.\\d+|\\[)", s, false) == (StartsWithAddress(s) || StartsWith(s, "[")))
    && valid("^(\\d+\\.\\d+\\.\\d+\\.\\d+|\\[)")
    && (forall s :: m("^TLSv1(\\.[01])?$", s, false) == (Is(s, "TLSv1") || Is(s, "TLSv1.0") || Is(s, "TLSv1.1")))
    && valid("^TLSv1(\\.[01])?$")
  }

  ghost predicate Lawful(m: Matcher, valid: string -> bool, env: Env) {
    && GroupLaw(m, valid) && JoinLaw(m, valid) && LiteralLaw(m, valid) && FixedLaw(m, valid)
    && (forall regex | env.usable(regex) :: valid(regex))
  }

  // ---- what the block is for ----

  ghost predicate AgentBlocked(m: Matcher, env: Env, c: Config, r: Request) {
    exists p :: p in c.patterns && env.usable(p) && SurvivesApache(p) && m(p, r.userAgent, true)
  }

  ghost predicate AnyMeets(rules: seq<RequestRule>, r: Request) {
    exists rule :: rule in rules && Meets(rule, r)
  }

  ghost predicate RequestBlocked(c: Config, r: Request) {
    AnyMeets(c.requestRules, r)
  }

  predicate Under(path: string, r: Request) {
    ValidPath(path) && StartsWith(Lower(r.uri), Lower(path))
  }

  ghost predicate PathExempt(c: Config, r: Request) {
    || (exists p :: p in Prefixes(c) && Under(p, r))
    || (c.serveRobots && Is(Lower(r.uri), "/robots.txt"))
  }

  predicate ExemptBy(e: AgentExemption, r: Request) {
    ValidAgent(e.userAgent) && FindText(Lower(r.userAgent), Lower(e.userAgent)).Some? && Under(e.path, r)
  }

  ghost predicate AgentExempt(c: Config, r: Request) {
    exists e :: e in c.agentExemptions && ExemptBy(e, r)
  }

  /** What lets a request through that would be blocked. */
  ghost predicate Cleared(c: Config, r: Request) {
    PathExempt(c, r) || AgentExempt(c, r) || (c.trusts && r.trusted == "1")
  }

  /** The decision a block is to make. */
  ghost predicate ShouldBlock(m: Matcher, env: Env, c: Config, r: Request) {
    (AgentBlocked(m, env, c, r) || RequestBlocked(c, r)) && !Cleared(c, r)
  }
}
