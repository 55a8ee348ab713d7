/** Which user agents a host's blocking turns away, from one pass over a log
    (`src/accesslog.rs`, `Survey`). */
module TurnedAway {
  import opened Text
  import opened LogLines

  // ---- what is known from elsewhere ----

  /** A crawler that publishes its addresses. */
  datatype Claim = Claim(name: string, marker: string, ranges: seq<string>)

  /** How a line reads, and what other modules say of it. */
  datatype Setup = Setup(
    parse: string -> Option<ParsedLine>, isOwnProbe: ParsedLine -> bool, isLocal: string -> bool,
    isEdge: string -> bool, lower: string -> string, inRange: (string, string) -> bool,
    payload: ParsedLine -> bool, probePaths: seq<string>, sample: string -> string,
    claims: seq<Claim>, blockStatus: nat)

  /** A claim with ranges that a user agent names. */
  predicate Named(setup: Setup, line: ParsedLine, claim: Claim) {
    claim.ranges != [] && FindText(setup.lower(line.userAgent), claim.marker).Some?
  }

  predicate Vouches(setup: Setup, line: ParsedLine, claim: Claim) {
    exists k | 0 <= k < |claim.ranges| :: setup.inRange(claim.ranges[k], line.ip)
  }

  /** A user agent that names a crawler, from an address no crawler it names publishes. */
  predicate Impersonates(setup: Setup, line: ParsedLine) {
    && (exists k | 0 <= k < |setup.claims| :: Named(setup, line, setup.claims[k]))
    && (forall k | 0 <= k < |setup.claims| && Named(setup, line, setup.claims[k]) ::
          !Vouches(setup, line, setup.claims[k]))
  }

  predicate Attacks(setup: Setup, line: ParsedLine) {
    || (exists k | 0 <= k < |setup.probePaths| :: FindText(setup.lower(line.path), setup.lower(setup.probePaths[k])).Some?)
    || setup.payload(line)
  }

  predicate NamesAgent(line: ParsedLine) {
    line.userAgent != "" && line.userAgent != "-"
  }

  // ---- a log, line by line ----

  predicate Blank(text: string) {
    Trim(text) == ""
  }

  /** A line that counts at all: not blank, not the project's own probe. */
  predicate Counted(setup: Setup, text: string) {
    !Blank(text) && match setup.parse(text) case None => true case Some(line) => !setup.isOwnProbe(line)
  }

  /** The request a line is, if it is one that says whom the host turns away: by a named client, from
      a public address, under its own name. */
  function Request(setup: Setup, text: string): Option<ParsedLine> {
    if !Counted(setup, text) then None
    else
      match setup.parse(text)
      case None => None
      case Some(line) =>
        if setup.isLocal(line.ip) || !NamesAgent(line) || Impersonates(setup, line) then None else Some(line)
  }

  /** How often a test holds in a log. */
  function Tally(log: seq<string>, test: string -> bool): nat {
    if log == [] then 0 else (if test(log[0]) then 1 else 0) + Tally(log[1..], test)
  }

  predicate IsAttack(setup: Setup, ip: string, text: string) {
    var line := Request(setup, text);
    line.Some? && line.value.ip == ip && Attacks(setup, line.value)
  }

  /** The first pass: the addresses that attacked anywhere in the log. */
  ghost predicate Attacker(setup: Setup, log: seq<string>, ip: string) {
    exists text :: text in log && IsAttack(setup, ip, text)
  }

  /** Whether a line is a request of `agent` that was refused, or served. */
  predicate Answers(setup: Setup, agent: string, refused: bool, text: string) {
    var line := Request(setup, text);
    && line.Some? && line.value.userAgent == agent
    && (if refused then line.value.status == setup.blockStatus
        else line.value.status != setup.blockStatus && line.value.status < 400)
  }

  /** The second pass: how often an agent was refused, or served, from addresses that never
      attacked. */
  ghost function Count(setup: Setup, log: seq<string>, agent: string, refused: bool): nat {
    Tally(log, text => Answers(setup, agent, refused, text) && !Attacker(setup, log, Request(setup, text).value.ip))
  }

  // ---- the report ----

  datatype Entry = Entry(agent: string, refused: nat, served: nat)

  /** Texts in the order of their characters. */
  predicate Below(a: string, b: string) {
    if a == "" then b != ""
    else b != "" && (a[0] < b[0] || (a[0] == b[0] && Below(a[1..], b[1..])))
  }

  /** Most refused first, then least served, then by agent. */
  predicate Ahead(a: Entry, b: Entry) {
    || a.refused > b.refused
    || (a.refused == b.refused && a.served < b.served)
    || (a.refused == b.refused && a.served == b.served && Below(a.agent, b.agent))
  }

  ghost predicate Ordered(r: seq<Entry>) {
    forall j, k | 0 <= j < k < |r| :: Ahead(r[j], r[k])
  }

  /** A report of a log: every agent that was refused, once, with its counts, in order. */
  ghost predicate Reports(setup: Setup, log: seq<string>, r: seq<Entry>) {
    && Ordered(r)
    && (forall e | e in r ::
          e.refused > 0 && e.refused == Count(setup, log, e.agent, true) && e.served == Count(setup, log, e.agent, false))
    && (forall agent | Count(setup, log, agent, true) > 0 ::
          Entry(agent, Count(setup, log, agent, true), Count(setup, log, agent, false)) in r)
  }

  lemma {:induction false} BelowTotal(a: string, b: string)
    ensures Below(a, b) || Below(b, a) || a == b
    ensures !(Below(a, b) && Below(b, a)) && !Below(a, a)
  {
    if a != "" {
      if b != "" {
        BelowTotal(a[1..], b[1..]);
        assert a == [a[0]] + a[1..] && b == [b[0]] + b[1..];
      }
      BelowTotal(a[1..], a[1..]);
    }
  }

  lemma AheadIsStrict(a: Entry, b: Entry)
    ensures !(Ahead(a, b) && Ahead(b, a)) && !Ahead(a, a)
    ensures Ahead(a, b) || Ahead(b, a) || a == b
  {
    hide Below;
    BelowTotal(a.agent, b.agent);
    BelowTotal(a.agent, a.agent);
  }

  /** Entries in order, with the same members, are the same list. */
  lemma {:induction false} OrderedIsUnique(a: seq<Entry>, b: seq<Entry>)
    requires Ordered(a) && Ordered(b) && forall e :: e in a <==> e in b
    ensures a == b
  {
    hide Ahead;
    if a == [] {
      HasMember(b);
    } else {
      assert a[0] in b && (b != [] ==> b[0] in a);
      var j :| 0 <= j < |b| && b[j] == a[0];
      var k :| 0 <= k < |a| && a[k] == b[0];
      AheadIsStrict(a[0], b[0]);
      assert a[0] == b[0];
      TailMembers(a, b);
      OrderedTail(a);
      OrderedTail(b);
      OrderedIsUnique(a[1..], b[1..]);
      assert a == [a[0]] + a[1..] && b == [b[0]] + b[1..];
    }
  }

  lemma HasMember(a: seq<Entry>)
    ensures a != [] ==> exists e :: e in a
  {
    if a != [] { assert a[0] in a; }
  }

  lemma OrderedTail(a: seq<Entry>)
    requires a != [] && Ordered(a)
    ensures Ordered(a[1..])
  {
    hide Ahead;
  }

  lemma TailMembers(a: seq<Entry>, b: seq<Entry>)
    requires a != [] && b != [] && a[0] == b[0] && Ordered(a) && Ordered(b) && forall e :: e in a <==> e in b
    ensures forall e :: e in a[1..] <==> e in b[1..]
  {
    hide Ahead;
    forall e
      ensures e in a[1..] <==> e in b[1..]
    {
      TailMember(a, e);
      TailMember(b, e);
    }
  }

  /** Past the first entry are exactly the others. */
  lemma TailMember(a: seq<Entry>, e: Entry)
    requires a != [] && Ordered(a)
    ensures e in a[1..] <==> e in a && e != a[0]
  {
    hide Ahead;
    AheadIsStrict(a[0], a[0]);
    if e in a && e != a[0] {
      var k :| 0 <= k < |a| && a[k] == e;
      assert a[1..][k - 1] == e;
    }
    if e in a[1..] {
      var k :| 0 <= k < |a[1..]| && a[1..][k] == e;
      assert a[k + 1] == e && Ahead(a[0], a[k + 1]);
    }
  }

  // ---- the order of the lines does not matter ----

  lemma {:induction false} TallyConcat(a: seq<string>, b: seq<string>, test: string -> bool)
    ensures Tally(a + b, test) == Tally(a, test) + Tally(b, test)
  {
    if a == [] {
      assert a + b == b;
    } else {
      assert (a + b)[1..] == a[1..] + b;
      TallyConcat(a[1..], b, test);
    }
  }

  lemma TallyCons(x: string, log: seq<string>, test: string -> bool)
    ensures Tally([x] + log, test) == (if test(x) then 1 else 0) + Tally(log, test)
  {
    assert ([x] + log)[1..] == log;
  }

  /** The first of `a` taken out of both. */
  lemma WithoutFirst(a: seq<string>, b: seq<string>) returns (k: nat)
    requires a != [] && multiset(a) == multiset(b)
    ensures k < |b| && b[k] == a[0]
    ensures multiset(a[1..]) == multiset(b[..k] + b[k + 1..])
  {
    assert a[0] in multiset(a) && a[0] in multiset(b);
    k :| 0 <= k < |b| && b[k] == a[0];
    assert a == [a[0]] + a[1..];
    assert b == b[..k] + [b[k]] + b[k + 1..];
    assert multiset(a) == multiset{a[0]} + multiset(a[1..]);
    assert multiset(b) == multiset(b[..k]) + multiset{b[k]} + multiset(b[k + 1..]);
    assert multiset(a[1..]) == multiset(a) - multiset{a[0]};
  }

  lemma {:induction false} TallyPermuted(a: seq<string>, b: seq<string>, test: string -> bool)
    requires multiset(a) == multiset(b)
    ensures Tally(a, test) == Tally(b, test)
    decreases |a|
  {
    hide Tally;
    if a == [] {
      assert |multiset(b)| == 0;
      assert a == b;
    } else {
      var k := WithoutFirst(a, b);
      TallyPermuted(a[1..], b[..k] + b[k + 1..], test);
      TallyCons(a[0], a[1..], test);
      assert [a[0]] + a[1..] == a;
      TallyConcat(b[..k], b[k + 1..], test);
      TallyConcat(b[..k], [b[k]] + b[k + 1..], test);
      TallyCons(b[k], b[k + 1..], test);
      assert b[..k] + ([b[k]] + b[k + 1..]) == b;
    }
  }

  lemma {:induction false} TallySame(log: seq<string>, p: string -> bool, q: string -> bool)
    requires forall text | text in log :: p(text) == q(text)
    ensures Tally(log, p) == Tally(log, q)
  {
    if log != [] {
      assert log[0] in log;
      assert forall text | text in log[1..] :: text in log;
      TallySame(log[1..], p, q);
    }
  }

  lemma CountPermuted(setup: Setup, a: seq<string>, b: seq<string>, agent: string, refused: bool)
    requires multiset(a) == multiset(b)
    ensures Count(setup, a, agent, refused) == Count(setup, b, agent, refused)
  {
    hide Tally, Request, IsAttack;
    var p := text => Answers(setup, agent, refused, text) && !Attacker(setup, a, Request(setup, text).value.ip);
    var q := text => Answers(setup, agent, refused, text) && !Attacker(setup, b, Request(setup, text).value.ip);
    forall text
      ensures text in a <==> text in b
    {
      assert text in a <==> text in multiset(a);
    }
    TallyPermuted(a, b, p);
    TallySame(b, p, q);
  }

  /** Whatever order a log's lines come in, its report is the same list. */
  lemma ReportIsUnique(setup: Setup, a: seq<string>, b: seq<string>, r: seq<Entry>, q: seq<Entry>)
    requires multiset(a) == multiset(b) && Reports(setup, a, r) && Reports(setup, b, q)
    ensures r == q
  {
    hide Count, Ahead;
    forall agent, refused
      ensures Count(setup, a, agent, refused) == Count(setup, b, agent, refused)
    {
      CountPermuted(setup, a, b, agent, refused);
    }
    OrderedIsUnique(r, q);
  }

  // ---- in so many words ----

  ghost predicate Contains(s: string, needle: string) {
    exists n | 0 <= n <= |s| :: StartsWith(s[n..], needle)
  }

  lemma FoundMeans(s: string, needle: string)
    ensures FindText(s, needle).Some? <==> Contains(s, needle)
  {
    hide FindText, StartsWith;
    FindTextIs(s, needle);
  }

  /** Whether a user agent names a crawler whose addresses are known. */
  ghost predicate NamesCrawler(setup: Setup, line: ParsedLine, k: nat) {
    k < |setup.claims| && setup.claims[k].ranges != [] && Contains(setup.lower(line.userAgent), setup.claims[k].marker)
  }

  ghost predicate IsCrawler(setup: Setup, line: ParsedLine, k: nat) {
    k < |setup.claims| && exists range :: range in setup.claims[k].ranges && setup.inRange(range, line.ip)
  }

  /** An impersonator names some crawler and is none it names. */
  lemma ImpersonatesMeans(setup: Setup, line: ParsedLine)
    ensures Impersonates(setup, line)
       <==> && (exists k: nat :: NamesCrawler(setup, line, k))
            && (forall k: nat | NamesCrawler(setup, line, k) :: !IsCrawler(setup, line, k))
  {
    hide FindText, Contains;
    forall k: nat | k < |setup.claims|
      ensures NamesCrawler(setup, line, k) <==> Named(setup, line, setup.claims[k])
      ensures IsCrawler(setup, line, k) <==> Vouches(setup, line, setup.claims[k])
    {
      FoundMeans(setup.lower(line.userAgent), setup.claims[k].marker);
      VouchesMeans(setup, line, k);
    }
    if exists k: nat :: NamesCrawler(setup, line, k) {
      var k: nat :| NamesCrawler(setup, line, k);
      assert Named(setup, line, setup.claims[k]);
    }
  }

  lemma VouchesMeans(setup: Setup, line: ParsedLine, k: nat)
    requires k < |setup.claims|
    ensures IsCrawler(setup, line, k) <==> Vouches(setup, line, setup.claims[k])
  {
    if IsCrawler(setup, line, k) {
      var range :| range in setup.claims[k].ranges && setup.inRange(range, line.ip);
      var j :| 0 <= j < |setup.claims[k].ranges| && setup.claims[k].ranges[j] == range;
    }
  }

  /** An attacker asks for a path with a probe in it, or sends a payload. */
  lemma AttacksMeans(setup: Setup, line: ParsedLine)
    ensures Attacks(setup, line)
       <==> (exists probe :: probe in setup.probePaths && Contains(setup.lower(line.path), setup.lower(probe))) || setup.payload(line)
  {
    hide FindText, Contains;
    forall k | 0 <= k < |setup.probePaths|
      ensures FindText(setup.lower(line.path), setup.lower(setup.probePaths[k])).Some? <==> Contains(setup.lower(line.path), setup.lower(setup.probePaths[k]))
    {
      FoundMeans(setup.lower(line.path), setup.lower(setup.probePaths[k]));
    }
    if exists probe :: probe in setup.probePaths && Contains(setup.lower(line.path), setup.lower(probe)) {
      var probe :| probe in setup.probePaths && Contains(setup.lower(line.path), setup.lower(probe));
      var k :| 0 <= k < |setup.probePaths| && setup.probePaths[k] == probe;
    }
  }

  /** A line counts for an agent when it says something, reads, is not this project's own probe, comes
      from a public address under that name, which is one and not borrowed, and was refused, or
      served. */
  lemma AnswersMeans(setup: Setup, agent: string, refused: bool, text: string)
    ensures Answers(setup, agent, refused, text)
       <==> && !AllSpace(text) && setup.parse(text).Some?
            && var line := setup.parse(text).value;
               && !setup.isOwnProbe(line) && !setup.isLocal(line.ip)
               && line.userAgent == agent && agent != "" && agent != "-" && !Impersonates(setup, line)
               && (if refused then line.status == setup.blockStatus
                   else line.status != setup.blockStatus && line.status < 400)
  {
    hide Impersonates, Trim;
    TrimmedAway(text);
  }

  /** The first `n` characters are the same, and `a` ends there or goes on with the smaller one. */
  predicate SmallerAt(a: string, b: string, n: nat) {
    n <= |a| && n < |b| && a[..n] == b[..n] && (n == |a| || a[n] < b[n])
  }

  /** One text is below another when it is what the other starts with, or has the smaller character
      where they first differ. */
  lemma {:induction false} BelowMeans(a: string, b: string)
    ensures Below(a, b) <==> exists n: nat :: SmallerAt(a, b, n)
  {
    if a == "" {
      if b != "" { assert SmallerAt(a, b, 0); }
    } else if b != "" && a[0] != b[0] {
      if a[0] < b[0] { assert SmallerAt(a, b, 0); }
      forall n: nat | n > 0 ensures !SmallerAt(a, b, n) { FirstDiffers(a, b, n); }
    } else if b != "" {
      BelowMeans(a[1..], b[1..]);
      forall n: nat
        ensures SmallerAt(a, b, n + 1) <==> SmallerAt(a[1..], b[1..], n)
      {
        SmallerLater(a, b, n);
      }
      if Below(a[1..], b[1..]) {
        var n: nat :| SmallerAt(a[1..], b[1..], n);
        assert SmallerAt(a, b, n + 1);
      }
      if exists n: nat :: SmallerAt(a, b, n) {
        var n: nat :| SmallerAt(a, b, n);
        SmallerLater(a, b, if n > 0 then n - 1 else 0);
      }
    }
  }

  lemma FirstDiffers(a: string, b: string, n: nat)
    requires a != "" && b != "" && a[0] != b[0] && n > 0
    ensures !SmallerAt(a, b, n)
  {
    if n <= |a| && n <= |b| { assert a[..n][0] == a[0] && b[..n][0] == b[0]; }
  }

  lemma SmallerLater(a: string, b: string, n: nat)
    requires a != "" && b != "" && a[0] == b[0]
    ensures SmallerAt(a, b, n + 1) <==> SmallerAt(a[1..], b[1..], n)
  {
    if n + 1 <= |a| && n + 1 <= |b| {
      assert a[..n + 1] == [a[0]] + a[1..][..n] && b[..n + 1] == [b[0]] + b[1..][..n];
      if a[..n + 1] == b[..n + 1] { assert a[1..][..n] == a[..n + 1][1..] == b[..n + 1][1..] == b[1..][..n]; }
    }
  }

  /** In a report the most refused come first; of those refused as often, the ones least served; and
      then it goes by name. */
  lemma ReportOrder(setup: Setup, log: seq<string>, r: seq<Entry>, j: nat, k: nat)
    requires Reports(setup, log, r) && j < k < |r|
    ensures r[j].refused >= r[k].refused
    ensures r[j].refused == r[k].refused ==> r[j].served <= r[k].served
    ensures r[j].refused == r[k].refused && r[j].served == r[k].served ==>
              exists n: nat :: SmallerAt(r[j].agent, r[k].agent, n)
  {
    hide Below, Count;
    assert Ahead(r[j], r[k]);
    BelowMeans(r[j].agent, r[k].agent);
  }
}
