/** What one site's block is made from, and the `mod_rewrite` program it is compiled to
    (`src/apache.rs`, "writing a block"). */
module BlockConfig {
  import opened Text
  import opened ConfText
  import opened ConfWords
  import opened ConfHosts

  datatype RequestRule = Http1x | NoAccept | NoAcceptLanguage | NoUserAgent | IpLiteralHost | OldTls

  predicate NeedsTls(rule: RequestRule) {
    rule == Http1x || rule == OldTls
  }

  datatype Response = Forbidden | NotFound | Gone | Teapot | TooManyRequests | CloseConnection | Tarpit

  /** The status a blocked request is answered with: what Apache cannot send is a 403. */
  function StatusCode(response: Response): nat {
    match response
    case NotFound => 404
    case Gone => 410
    case TooManyRequests => 429
    case _ => 403
  }

  datatype AgentExemption = AgentExemption(path: string, userAgent: string)

  /** A site's settings, less those Apache's block does not render. */
  datatype Config = Config(
    patterns: seq<string>, response: Response, serveRobots: bool, exemptPaths: seq<string>,
    agentExemptions: seq<AgentExemption>, requestRules: seq<RequestRule>, trusts: bool)

  /** What this project knows from elsewhere: which patterns its own parser finds usable, how long
      a pattern is once written, where the generated `robots.txt` is, and the directory that is in. */
  datatype Env = Env(usable: string -> bool, length: string -> nat, robots: string, robotsDir: string)

  // ---- what may be written ----

  predicate IsControl(c: char) {
    var n := c as int;
    n < 0x20 || 0x7F <= n <= 0x9F
  }

  predicate HasControl(s: string) {
    exists k | 0 <= k < |s| :: IsControl(s[k])
  }

  /** Whether a regex can be written into an Apache configuration at all. */
  predicate SurvivesApache(regex: string) {
    FindText(regex, "${").None? && !HasControl(regex)
  }

  function UsablePatterns(env: Env, patterns: seq<string>): (usable: seq<string>)
    ensures forall p | p in usable :: p in patterns && env.usable(p) && SurvivesApache(p)
    ensures forall p | p in patterns && env.usable(p) && SurvivesApache(p) :: p in usable
  {
    if patterns == [] then []
    else
      var rest := UsablePatterns(env, patterns[1..]);
      assert patterns == [patterns[0]] + patterns[1..];
      if env.usable(patterns[0]) && SurvivesApache(patterns[0]) then [patterns[0]] + rest else rest
  }

  predicate IsRegexSpecial(c: char) {
    c in ".^$|()[]{}*+?\\"
  }

  /** A literal text as a regex that matches it. */
  function EscapeLiteral(s: string): string {
    if s == "" then ""
    else (if IsRegexSpecial(s[0]) then "\\" + [s[0]] else [s[0]]) + EscapeLiteral(s[1..])
  }

  const MAX_PATTERN_LEN := 1024

  function Utf8Length(s: string): nat {
    if s == "" then 0
    else
      var n := s[0] as int;
      (if n < 0x80 then 1 else if n < 0x800 then 2 else if n < 0x10000 then 3 else 4) + Utf8Length(s[1..])
  }

  predicate Unwritable(c: char) {
    c == '"' || c == '\\' || IsControl(c)
  }

  /** A stored exempt path is written only if it is what validating it gives. */
  predicate ValidPath(path: string) {
    && path != "" && path[0] == '/' && Trim(path) == path
    && (forall k | 0 <= k < |path| :: !Unwritable(path[k]) && !IsSpace(path[k]))
    && Utf8Length(EscapeLiteral(path)) <= MAX_PATTERN_LEN
  }

  /** And so is the user agent of an exemption. */
  predicate ValidAgent(agent: string) {
    && agent != "" && Trim(agent) == agent
    && (forall k | 0 <= k < |agent| :: !Unwritable(agent[k]))
    && Utf8Length(EscapeLiteral(agent)) <= MAX_PATTERN_LEN
  }

  // ---- joining patterns into chunks ----

  /** Patterns that share one chunk, and how long it is written. */
  datatype Group = Group(patterns: seq<string>, length: nat)

  predicate FitsLast(groups: seq<Group>, length: nat, max: nat) {
    groups != [] && groups[|groups| - 1].length + 1 + length <= max
  }

  /** A pattern joins the last group if it still fits there; otherwise it gets one of its own,
      however long it is. */
  function Grown(groups: seq<Group>, pattern: string, length: nat, max: nat): seq<Group> {
    if FitsLast(groups, length, max) then
      var last := groups[|groups| - 1];
      groups[..|groups| - 1] + [Group(last.patterns + [pattern], last.length + 1 + length)]
    else groups + [Group([pattern], length)]
  }

  /** The groups of `patterns`, after those already there. */
  function Groups(env: Env, groups: seq<Group>, patterns: seq<string>, max: nat): seq<Group>
    decreases |patterns|
  {
    if patterns == [] then groups
    else Groups(env, Grown(groups, patterns[0], env.length(patterns[0]), max), patterns[1..], max)
  }

  /** Patterns as one regex, with `|` between them. */
  function Join(patterns: seq<string>): string {
    if patterns == [] then ""
    else if |patterns| == 1 then patterns[0]
    else Join(patterns[..|patterns| - 1]) + "|" + patterns[|patterns| - 1]
  }

  function Joined(groups: seq<Group>): seq<string> {
    if groups == [] then [] else Joined(groups[..|groups| - 1]) + [Join(groups[|groups| - 1].patterns)]
  }

  function Chunks(env: Env, patterns: seq<string>, max: nat): seq<string> {
    Joined(Groups(env, [], patterns, max))
  }

  ghost predicate NoneEmpty(groups: seq<Group>) {
    forall k | 0 <= k < |groups| :: groups[k].patterns != []
  }

  /** The chunks so far, as text, and the length of the last. */
  ghost predicate Chunked(groups: seq<Group>, chunks: seq<string>, length: nat) {
    && NoneEmpty(groups) && chunks == Joined(groups) && |chunks| == |groups|
    && (groups != [] ==> length == groups[|groups| - 1].length)
  }

  lemma JoinedSnoc(groups: seq<Group>, g: Group)
    ensures Joined(groups + [g]) == Joined(groups) + [Join(g.patterns)]
  {
    hide Join;
    assert (groups + [g])[..|groups|] == groups;
  }

  lemma JoinMore(patterns: seq<string>, pattern: string)
    requires patterns != []
    ensures Join(patterns + [pattern]) == Join(patterns) + "|" + pattern
  {
    assert (patterns + [pattern])[..|patterns|] == patterns;
  }

  /** One more pattern, in the text. */
  lemma ChunkStep(groups: seq<Group>, chunks: seq<string>, last: nat, pattern: string, length: nat, max: nat)
    requires Chunked(groups, chunks, last)
    ensures chunks != [] && last + 1 + length <= max ==>
              Chunked(Grown(groups, pattern, length, max),
                      chunks[..|chunks| - 1] + [chunks[|chunks| - 1] + "|" + pattern], last + 1 + length)
    ensures !(chunks != [] && last + 1 + length <= max) ==>
              Chunked(Grown(groups, pattern, length, max), chunks + [pattern], length)
  {
    hide Join, Joined;
    if chunks != [] && last + 1 + length <= max {
      var front, g := groups[..|groups| - 1], groups[|groups| - 1];
      assert groups == front + [g];
      JoinedSnoc(front, g);
      JoinMore(g.patterns, pattern);
      JoinedSnoc(front, Group(g.patterns + [pattern], g.length + 1 + length));
    } else {
      JoinedSnoc(groups, Group([pattern], length));
      assert Join([pattern]) == pattern by { JoinOne(pattern); }
    }
  }

  lemma JoinOne(pattern: string)
    ensures Join([pattern]) == pattern
  {
  }

  /** Joins patterns into regexes of at most `max` characters, never splitting one. */
  method ChunkPatterns(env: Env, patterns: seq<string>, max: nat) returns (chunks: seq<string>)
    ensures chunks == Chunks(env, patterns, max)
  {
    chunks := [];
    var length: nat := 0;
    ghost var groups := [];
    hide Join, Joined, Grown, Chunked;
    assert Chunked(groups, chunks, length) by { NoChunks(); }
    for k := 0 to |patterns|
      invariant Chunked(groups, chunks, length)
      invariant Groups(env, groups, patterns[k..], max) == Groups(env, [], patterns, max)
    {
      var n := env.length(patterns[k]);
      ChunkStep(groups, chunks, length, patterns[k], n, max);
      assert patterns[k..][1..] == patterns[k + 1..];
      groups := Grown(groups, patterns[k], n, max);
      if chunks != [] && length + 1 + n <= max {
        chunks := chunks[..|chunks| - 1] + [chunks[|chunks| - 1] + "|" + patterns[k]];
        length := length + 1 + n;
      } else {
        chunks := chunks + [patterns[k]];
        length := n;
      }
    }
    ChunkedIsJoined(groups, chunks, length);
  }

  lemma NoChunks()
    ensures Chunked([], [], 0)
  {
  }

  lemma ChunkedIsJoined(groups: seq<Group>, chunks: seq<string>, length: nat)
    requires Chunked(groups, chunks, length)
    ensures chunks == Joined(groups)
  {
  }

  function Members(groups: seq<Group>): seq<string> {
    if groups == [] then [] else Members(groups[..|groups| - 1]) + groups[|groups| - 1].patterns
  }

  lemma MembersSnoc(groups: seq<Group>, g: Group)
    ensures Members(groups + [g]) == Members(groups) + g.patterns
  {
    assert (groups + [g])[..|groups|] == groups;
  }

  lemma MembersGrow(groups: seq<Group>, pattern: string, length: nat, max: nat)
    ensures Members(Grown(groups, pattern, length, max)) == Members(groups) + [pattern]
  {
    hide Members;
    if FitsLast(groups, length, max) {
      var front, g := groups[..|groups| - 1], groups[|groups| - 1];
      assert groups == front + [g];
      MembersSnoc(front, g);
      MembersSnoc(front, Group(g.patterns + [pattern], g.length + 1 + length));
    } else {
      MembersSnoc(groups, Group([pattern], length));
    }
  }

  /** A group no longer than `max`, unless it is one pattern that is. */
  predicate Fits(g: Group, max: nat) {
    g.patterns != [] && (g.length <= max || |g.patterns| == 1)
  }

  ghost predicate AllFit(groups: seq<Group>, max: nat) {
    forall k | 0 <= k < |groups| :: Fits(groups[k], max)
  }

  /** The groups hold every pattern once, in order: nothing is dropped, cut or split, and only a
      pattern too long by itself makes a group too long. */
  lemma {:induction false} GroupsKeepPatterns(env: Env, groups: seq<Group>, patterns: seq<string>, max: nat)
    requires AllFit(groups, max)
    ensures Members(Groups(env, groups, patterns, max)) == Members(groups) + patterns
    ensures AllFit(Groups(env, groups, patterns, max), max)
    decreases |patterns|
  {
    hide Members, Grown, AllFit;
    if patterns != [] {
      var n := env.length(patterns[0]);
      MembersGrow(groups, patterns[0], n, max);
      GrownFits(groups, patterns[0], n, max);
      GroupsKeepPatterns(env, Grown(groups, patterns[0], n, max), patterns[1..], max);
      assert Members(groups) + [patterns[0]] + patterns[1..] == Members(groups) + patterns;
    }
  }

  lemma GrownFits(groups: seq<Group>, pattern: string, length: nat, max: nat)
    requires AllFit(groups, max)
    ensures AllFit(Grown(groups, pattern, length, max), max)
  {
  }
}
