/** The survey of an access log, kept up line by line (`src/accesslog.rs`, `Survey`). */
module Survey {
  import opened Text
  import opened LogLines
  import opened TurnedAway

  // ---- what the fields say of the lines seen ----

  predicate Parses(setup: Setup, text: string) {
    Counted(setup, text) && setup.parse(text).Some?
  }

  predicate WithAgent(setup: Setup, text: string) {
    Parses(setup, text) && NamesAgent(setup.parse(text).value)
  }

  predicate Public(setup: Setup, text: string) {
    Parses(setup, text) && !setup.isLocal(setup.parse(text).value.ip)
  }

  predicate FromEdge(setup: Setup, text: string) {
    Public(setup, text) && setup.isEdge(setup.parse(text).value.ip)
  }

  /** How many lines of each kind a log has. */
  datatype Totals = Totals(lines: nat, parsed: nat, withAgent: nat, public: nat, cdn: nat)

  function TotalsOf(setup: Setup, log: seq<string>): Totals {
    Totals(Tally(log, text => Counted(setup, text)), Tally(log, text => Parses(setup, text)),
           Tally(log, text => WithAgent(setup, text)), Tally(log, text => Public(setup, text)),
           Tally(log, text => FromEdge(setup, text)))
  }

  /** The first line that counts and does not parse, as it is safe to show. */
  function Sample(setup: Setup, log: seq<string>): Option<string> {
    if log == [] then None
    else if Counted(setup, log[0]) && setup.parse(log[0]).None? then Some(setup.sample(log[0]))
    else Sample(setup, log[1..])
  }

  /** How often an agent was refused, or served, from one address. */
  function From(setup: Setup, log: seq<string>, agent: string, ip: string, refused: bool): nat {
    Tally(log, text => Answers(setup, agent, refused, text) && Request(setup, text).value.ip == ip)
  }

  /** Per agent and address, refusals and visits. */
  type Table = map<string, map<string, (nat, nat)>>

  function Stored(table: Table, agent: string, ip: string, refused: bool): nat {
    if agent in table && ip in table[agent] then
      if refused then table[agent][ip].0 else table[agent][ip].1
    else 0
  }

  ghost predicate TableIs(setup: Setup, log: seq<string>, table: Table) {
    forall agent, ip, refused :: Stored(table, agent, ip, refused) == From(setup, log, agent, ip, refused)
  }

  ghost predicate AttackersAre(setup: Setup, log: seq<string>, attackers: set<string>) {
    forall ip :: ip in attackers <==> Attacker(setup, log, ip)
  }

  // ---- one more line ----

  lemma TallySnoc(log: seq<string>, x: string, test: string -> bool)
    ensures Tally(log + [x], test) == Tally(log, test) + (if test(x) then 1 else 0)
  {
    hide Tally;
    TallyConcat(log, [x], test);
    TallyCons(x, [], test);
    assert [x] + [] == [x];
    TallyNothing(test);
  }

  lemma TallyNothing(test: string -> bool)
    ensures Tally([], test) == 0
  {
  }

  lemma TotalsSnoc(setup: Setup, log: seq<string>, x: string)
    ensures var a, b := TotalsOf(setup, log), TotalsOf(setup, log + [x]);
            && b.lines == a.lines + (if Counted(setup, x) then 1 else 0)
            && b.parsed == a.parsed + (if Parses(setup, x) then 1 else 0)
            && b.withAgent == a.withAgent + (if WithAgent(setup, x) then 1 else 0)
            && b.public == a.public + (if Public(setup, x) then 1 else 0)
            && b.cdn == a.cdn + (if FromEdge(setup, x) then 1 else 0)
  {
    hide Tally, Counted, Parses, WithAgent, Public, FromEdge;
    TallySnoc(log, x, text => Counted(setup, text));
    TallySnoc(log, x, text => Parses(setup, text));
    TallySnoc(log, x, text => WithAgent(setup, text));
    TallySnoc(log, x, text => Public(setup, text));
    TallySnoc(log, x, text => FromEdge(setup, text));
  }

  lemma {:induction false} SampleSnoc(setup: Setup, log: seq<string>, x: string)
    ensures Sample(setup, log + [x])
         == if Sample(setup, log).Some? then Sample(setup, log)
            else if Counted(setup, x) && setup.parse(x).None? then Some(setup.sample(x)) else None
  {
    hide Counted;
    if log == [] {
      assert [] + [x] == [x] && [x][1..] == [];
    } else {
      assert (log + [x])[1..] == log[1..] + [x];
      SampleSnoc(setup, log[1..], x);
    }
  }

  lemma FromSnoc(setup: Setup, log: seq<string>, x: string, agent: string, ip: string, refused: bool)
    ensures From(setup, log + [x], agent, ip, refused)
         == From(setup, log, agent, ip, refused)
            + (if Answers(setup, agent, refused, x) && Request(setup, x).value.ip == ip then 1 else 0)
  {
    hide Tally, Request;
    TallySnoc(log, x, text => Answers(setup, agent, refused, text) && Request(setup, text).value.ip == ip);
  }

  lemma AttackersSnoc(setup: Setup, log: seq<string>, x: string, attackers: set<string>)
    requires AttackersAre(setup, log, attackers)
    ensures match Request(setup, x)
            case None => AttackersAre(setup, log + [x], attackers)
            case Some(line) =>
              AttackersAre(setup, log + [x], if Attacks(setup, line) then attackers + {line.ip} else attackers)
  {
    hide Request, Attacks;
    forall ip
      ensures Attacker(setup, log + [x], ip) <==> Attacker(setup, log, ip) || IsAttack(setup, ip, x)
    {
      AttackerSnoc(setup, log, x, ip);
    }
  }

  lemma AttackerSnoc(setup: Setup, log: seq<string>, x: string, ip: string)
    ensures Attacker(setup, log + [x], ip) <==> Attacker(setup, log, ip) || IsAttack(setup, ip, x)
  {
    hide IsAttack;
    assert x in log + [x];
    forall text | text in log ensures text in log + [x] {}
  }

  /** What one request adds to a table. */
  function Noted(setup: Setup, table: Table, line: ParsedLine): Table {
    var byIp := if line.userAgent in table then table[line.userAgent] else map[];
    var was := if line.ip in byIp then byIp[line.ip] else (0, 0);
    var now := if line.status == setup.blockStatus then (was.0 + 1, was.1)
               else if line.status < 400 then (was.0, was.1 + 1) else was;
    table[line.userAgent := byIp[line.ip := now]]
  }

  lemma NotedStores(setup: Setup, table: Table, line: ParsedLine, agent: string, ip: string, refused: bool)
    ensures Stored(Noted(setup, table, line), agent, ip, refused)
         == Stored(table, agent, ip, refused)
            + (if agent == line.userAgent && ip == line.ip
                  && (if refused then line.status == setup.blockStatus
                      else line.status != setup.blockStatus && line.status < 400) then 1 else 0)
  {
  }

  lemma TableSnoc(setup: Setup, log: seq<string>, x: string, table: Table)
    requires TableIs(setup, log, table)
    ensures match Request(setup, x)
            case None => TableIs(setup, log + [x], table)
            case Some(line) => TableIs(setup, log + [x], Noted(setup, table, line))
  {
    hide Request, From, Stored, Noted;
    var next := match Request(setup, x) case None => table case Some(line) => Noted(setup, table, line);
    forall agent, ip, refused
      ensures Stored(next, agent, ip, refused) == From(setup, log + [x], agent, ip, refused)
    {
      FromSnoc(setup, log, x, agent, ip, refused);
      if Request(setup, x).Some? { NotedStores(setup, table, Request(setup, x).value, agent, ip, refused); }
    }
  }

  // ---- adding up an agent's addresses ----

  /** How often an agent was answered so from any of `ips`. */
  function Among(setup: Setup, log: seq<string>, agent: string, ips: set<string>, refused: bool): nat {
    Tally(log, text => Answers(setup, agent, refused, text) && Request(setup, text).value.ip in ips)
  }

  lemma {:induction false} TallyDisjoint(log: seq<string>, p: string -> bool, q: string -> bool, both: string -> bool)
    requires forall text :: both(text) == (p(text) || q(text)) && !(p(text) && q(text))
    ensures Tally(log, both) == Tally(log, p) + Tally(log, q)
  {
    if log != [] { TallyDisjoint(log[1..], p, q, both); }
  }

  lemma AmongMore(setup: Setup, log: seq<string>, agent: string, ips: set<string>, ip: string, refused: bool)
    requires ip !in ips
    ensures Among(setup, log, agent, ips + {ip}, refused)
         == Among(setup, log, agent, ips, refused) + From(setup, log, agent, ip, refused)
  {
    hide Tally, Request;
    TallyDisjoint(log, text => Answers(setup, agent, refused, text) && Request(setup, text).value.ip in ips,
                  text => Answers(setup, agent, refused, text) && Request(setup, text).value.ip == ip,
                  text => Answers(setup, agent, refused, text) && Request(setup, text).value.ip in ips + {ip});
  }

  lemma AmongNone(setup: Setup, log: seq<string>, agent: string, refused: bool)
    ensures Among(setup, log, agent, {}, refused) == 0
  {
    hide Request;
    var none: set<string> := {};
    NeverHolds(log, text => Answers(setup, agent, refused, text) && Request(setup, text).value.ip in none);
  }

  lemma {:induction false} NeverHolds(log: seq<string>, test: string -> bool)
    requires forall text :: !test(text)
    ensures Tally(log, test) == 0
  {
    if log != [] { NeverHolds(log[1..], test); }
  }

  lemma {:induction false} HoldsOnce(log: seq<string>, text: string, test: string -> bool)
    requires text in log && test(text)
    ensures Tally(log, test) > 0
  {
    if log[0] != text { HoldsOnce(log[1..], text, test); }
  }

  /** All an agent's addresses but the attackers': what a report counts. */
  lemma AmongIsCount(setup: Setup, log: seq<string>, agent: string, ips: set<string>, attackers: set<string>, refused: bool)
    requires AttackersAre(setup, log, attackers)
    requires forall ip :: ip in ips ==> ip !in attackers
    requires forall ip :: From(setup, log, agent, ip, refused) > 0 && ip !in attackers ==> ip in ips
    ensures Among(setup, log, agent, ips, refused) == Count(setup, log, agent, refused)
  {
    hide Tally, Request, Attacker, From;
    var p := text => Answers(setup, agent, refused, text) && Request(setup, text).value.ip in ips;
    var q := text => Answers(setup, agent, refused, text) && !Attacker(setup, log, Request(setup, text).value.ip);
    forall text | text in log
      ensures p(text) == q(text)
    {
      if Answers(setup, agent, refused, text) { AnsweredFrom(setup, log, agent, text, refused); }
    }
    TallySame(log, p, q);
  }

  lemma AnsweredFrom(setup: Setup, log: seq<string>, agent: string, text: string, refused: bool)
    requires text in log && Answers(setup, agent, refused, text)
    ensures From(setup, log, agent, Request(setup, text).value.ip, refused) > 0
  {
    hide Tally, Request;
    var ip := Request(setup, text).value.ip;
    HoldsOnce(log, text, t => Answers(setup, agent, refused, t) && Request(setup, t).value.ip == ip);
  }

  // ---- sorting ----

  /** Puts an entry where it belongs. */
  function Insert(e: Entry, r: seq<Entry>): seq<Entry> {
    if r == [] || Ahead(e, r[0]) then [e] + r else [r[0]] + Insert(e, r[1..])
  }

  lemma {:induction false} InsertMembers(e: Entry, r: seq<Entry>)
    ensures forall x :: x in Insert(e, r) <==> x == e || x in r
  {
    hide Ahead;
    if !(r == [] || Ahead(e, r[0])) {
      InsertMembers(e, r[1..]);
      assert r == [r[0]] + r[1..];
    }
  }

  lemma AheadChains(a: Entry, b: Entry, c: Entry)
    requires Ahead(a, b) && Ahead(b, c)
    ensures Ahead(a, c)
  {
    hide Below;
    if Below(a.agent, b.agent) && Below(b.agent, c.agent) { BelowChains(a.agent, b.agent, c.agent); }
  }

  lemma {:induction false} BelowChains(a: string, b: string, c: string)
    requires Below(a, b) && Below(b, c)
    ensures Below(a, c)
  {
    if a != "" && a[0] == b[0] == c[0] { BelowChains(a[1..], b[1..], c[1..]); }
  }

  lemma {:induction false} InsertOrders(e: Entry, r: seq<Entry>)
    requires Ordered(r) && e !in r
    ensures Ordered(Insert(e, r))
  {
    hide Ahead;
    if r == [] {
    } else if Ahead(e, r[0]) {
      forall k | 0 <= k < |r|
        ensures Ahead(e, r[k])
      {
        if k > 0 { AheadChains(e, r[0], r[k]); }
      }
    } else {
      assert e != r[0];
      AheadIsStrict(e, r[0]);
      OrderedTail(r);
      InsertOrders(e, r[1..]);
      InsertMembers(e, r[1..]);
      var tail := Insert(e, r[1..]);
      forall k | 0 <= k < |tail|
        ensures Ahead(r[0], tail[k])
      {
        assert tail[k] in tail;
        if tail[k] != e {
          var j :| 0 <= j < |r[1..]| && r[1..][j] == tail[k];
          assert tail[k] == r[j + 1];
        }
      }
      OrderedCons(r[0], tail);
    }
  }

  lemma OrderedCons(e: Entry, r: seq<Entry>)
    requires Ordered(r) && forall k | 0 <= k < |r| :: Ahead(e, r[k])
    ensures Ordered([e] + r)
  {
    hide Ahead;
  }

  /** The agents that were refused at all, in the order of a report. */
  method SortedTurnedAway(counts: seq<Entry>) returns (report: seq<Entry>)
    requires forall j, k | 0 <= j < k < |counts| :: counts[j].agent != counts[k].agent
    ensures Ordered(report)
    ensures forall e :: e in report <==> e in counts && e.refused > 0
  {
    hide Ahead, Insert;
    report := [];
    for k := 0 to |counts|
      invariant Ordered(report)
      invariant forall e :: e in report <==> e in counts[..k] && e.refused > 0
    {
      var e := counts[k];
      assert counts[..k + 1] == counts[..k] + [e];
      if e.refused > 0 {
        assert e !in counts[..k];
        InsertMembers(e, report);
        InsertOrders(e, report);
        report := Insert(e, report);
      }
    }
    assert counts[..|counts|] == counts;
  }

  // ---- the survey itself ----

  class Survey {
    const setup: Setup
    var lines: nat
    var parsed: nat
    var withAgent: nat
    var public: nat
    var cdn: nat
    var sample: Option<string>
    var table: Table
    var attackers: set<string>
    ghost var seen: seq<string>

    /** Every field says what it should of the lines seen so far. */
    ghost predicate Valid()
      reads this
    {
      && Totals(lines, parsed, withAgent, public, cdn) == TotalsOf(setup, seen)
      && sample == Sample(setup, seen)
      && TableIs(setup, seen, table) && AttackersAre(setup, seen, attackers)
    }

    constructor (setup: Setup)
      ensures Valid() && seen == [] && this.setup == setup
    {
      this.setup := setup;
      lines, parsed, withAgent, public, cdn := 0, 0, 0, 0, 0;
      sample, table, attackers, seen := None, map[], {}, [];
      new;
      NothingSeen(setup);
    }

    /** Reads one line. */
    method Line(text: string)
      requires Valid()
      modifies this
      ensures Valid() && seen == old(seen) + [text]
    {
      hide Tally, TableIs, AttackersAre, Sample, Attacks, Impersonates, TotalsOf, Blank, Noted;
      TotalsSnoc(setup, seen, text);
      SampleSnoc(setup, seen, text);
      TableSnoc(setup, seen, text, table);
      AttackersSnoc(setup, seen, text, attackers);
      seen := seen + [text];
      if Blank(text) {
        return;
      }
      var reading := setup.parse(text);
      if reading.Some? && setup.isOwnProbe(reading.value) {
        return;
      }
      lines := lines + 1;
      if reading.None? {
        if sample.None? {
          sample := Some(setup.sample(text));
        }
        return;
      }
      var line := reading.value;
      parsed := parsed + 1;
      if NamesAgent(line) {
        withAgent := withAgent + 1;
      }
      if setup.isLocal(line.ip) {
        return;
      }
      public := public + 1;
      if setup.isEdge(line.ip) {
        cdn := cdn + 1;
      }
      if !NamesAgent(line) {
        return;
      }
      if Impersonates(setup, line) {
        return;
      }
      assert line.ip in attackers ==> attackers + {line.ip} == attackers;
      if line.ip !in attackers && Attacks(setup, line) {
        attackers := attackers + {line.ip};
      }
      table := Noted(setup, table, line);
    }

    /** How often an agent was refused, and served, from addresses that never attacked. */
    method AddUp(agent: string) returns (refused: nat, served: nat)
      requires Valid() && agent in table
      ensures refused == Count(setup, seen, agent, true) && served == Count(setup, seen, agent, false)
    {
      hide Count, AttackersAre, TotalsOf, Sample;
      refused, served := 0, 0;
      var byIp := table[agent];
      var left := byIp.Keys;
      ghost var done: set<string> := {};
      AmongNone(setup, seen, agent, true);
      AmongNone(setup, seen, agent, false);
      while left != {}
        invariant left <= byIp.Keys && done == (byIp.Keys - left) - attackers
        invariant refused == Among(setup, seen, agent, done, true)
        invariant served == Among(setup, seen, agent, done, false)
        decreases left
      {
        hide Among, From;
        var ip :| ip in left;
        left := left - {ip};
        if ip !in attackers {
          AmongMore(setup, seen, agent, done, ip, true);
          AmongMore(setup, seen, agent, done, ip, false);
          assert Stored(table, agent, ip, true) == From(setup, seen, agent, ip, true);
          assert Stored(table, agent, ip, false) == From(setup, seen, agent, ip, false);
          refused, served := refused + byIp[ip].0, served + byIp[ip].1;
          done := done + {ip};
        }
      }
      hide Among, From;
      assert forall ip, kind :: From(setup, seen, agent, ip, kind) == Stored(table, agent, ip, kind);
      AmongIsCount(setup, seen, agent, done, attackers, true);
      AmongIsCount(setup, seen, agent, done, attackers, false);
    }

    /** The report of the lines seen: read once, it counts as if the attackers had been known from
        the start. */
    method TurnedAway() returns (report: seq<Entry>)
      requires Valid()
      ensures Reports(setup, seen, report)
    {
      hide Count, AttackersAre, TableIs, TotalsOf, Sample, Ahead;
      var counts: seq<Entry> := [];
      var left := table.Keys;
      while left != {}
        invariant left <= table.Keys
        invariant forall e :: e in counts ==> IsCount(setup, seen, e) && e.agent in table.Keys - left
        invariant forall agent :: agent in table.Keys - left ==> HasEntry(counts, agent)
        invariant forall j, k | 0 <= j < k < |counts| :: counts[j].agent != counts[k].agent
        decreases left
      {
        var agent :| agent in left;
        left := left - {agent};
        var refused, served := AddUp(agent);
        ghost var before := counts;
        counts := counts + [Entry(agent, refused, served)];
        MoreCounts(before, Entry(agent, refused, served));
      }
      report := SortedTurnedAway(counts);
      forall agent | Count(setup, seen, agent, true) > 0
        ensures Entry(agent, Count(setup, seen, agent, true), Count(setup, seen, agent, false)) in report
      {
        CountedIsStored(setup, seen, table, agent);
        assert HasEntry(counts, agent);
        var e :| e in counts && e.agent == agent;
        assert IsCount(setup, seen, e);
      }
    }
  }

  /** An entry with an agent's counts. */
  ghost predicate IsCount(setup: Setup, log: seq<string>, e: Entry) {
    e.refused == Count(setup, log, e.agent, true) && e.served == Count(setup, log, e.agent, false)
  }

  ghost predicate HasEntry(counts: seq<Entry>, agent: string) {
    exists e :: e in counts && e.agent == agent
  }

  lemma MoreCounts(counts: seq<Entry>, e: Entry)
    ensures forall x :: x in counts + [e] <==> x in counts || x == e
    ensures forall agent :: HasEntry(counts, agent) || agent == e.agent ==> HasEntry(counts + [e], agent)
  {
    assert e in counts + [e];
    forall agent | HasEntry(counts, agent)
      ensures HasEntry(counts + [e], agent)
    {
      var x :| x in counts && x.agent == agent;
      assert x in counts + [e];
    }
  }

  lemma {:induction false} TallyFinds(log: seq<string>, test: string -> bool)
    requires Tally(log, test) > 0
    ensures exists text :: text in log && test(text)
  {
    if test(log[0]) {
      assert log[0] in log;
    } else {
      TallyFinds(log[1..], test);
      var text :| text in log[1..] && test(text);
      assert text in log;
    }
  }

  /** An agent that counts for anything has an entry in the table. */
  lemma CountedIsStored(setup: Setup, log: seq<string>, table: Table, agent: string)
    requires TableIs(setup, log, table) && Count(setup, log, agent, true) > 0
    ensures agent in table
  {
    hide Tally, Request, From, Attacker;
    var test := text => Answers(setup, agent, true, text) && !Attacker(setup, log, Request(setup, text).value.ip);
    TallyFinds(log, test);
    var text :| text in log && test(text);
    AnsweredFrom(setup, log, agent, text, true);
    assert Stored(table, agent, Request(setup, text).value.ip, true) > 0;
  }

  lemma NothingSeen(setup: Setup)
    ensures TotalsOf(setup, []) == Totals(0, 0, 0, 0, 0) && Sample(setup, []) == None
    ensures TableIs(setup, [], map[]) && AttackersAre(setup, [], {})
  {
  }

  /** For every log, and every order of its lines, surveying it line by line gives the one list that
      two passes over it would. */
  method SurveyLog(setup: Setup, log: seq<string>) returns (report: seq<Entry>)
    ensures Reports(setup, log, report)
    ensures forall other, r :: multiset(other) == multiset(log) && Reports(setup, other, r) ==> r == report
  {
    hide Reports, Survey.Valid;
    var survey := new Survey(setup);
    for k := 0 to |log|
      invariant fresh(survey) && survey.Valid() && survey.setup == setup && survey.seen == log[..k]
    {
      survey.Line(log[k]);
      assert log[..k + 1] == log[..k] + [log[k]];
    }
    assert log[..|log|] == log;
    report := survey.TurnedAway();
    forall other, r | multiset(other) == multiset(log) && Reports(setup, other, r)
      ensures r == report
    {
      ReportIsUnique(setup, other, log, r, report);
    }
  }
}
