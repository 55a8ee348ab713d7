/** Finding the addresses that sent a payload, with verdicts remembered (`src/accesslog.rs`,
    `Observer`). */
module Injections {
  import opened Text
  import opened LogLines

  /** When a line happened. */
  datatype Clock = Logged(now: int, undated: Option<int>) | Ordinal(n: int)

  /** What judges a request, a user agent and a referer. */
  datatype Judges = Judges(
    request: string -> Option<string>, agent: string -> Option<string>, referer: string -> Option<string>)

  /** How a line reads, whose it is, and how far back evidence counts. */
  datatype Watch = Watch(
    parse: string -> Option<ParsedLine>, isOwnProbe: ParsedLine -> bool, isLocal: string -> bool,
    judges: Judges, cutoff: Option<int>)

  /** A line as it was read. */
  datatype Reading = Reading(text: string, clock: Clock)

  /** The payload kind recorded for an address, and when. */
  datatype Item = Item(ip: string, kind: string, at: int)

  function At(line: ParsedLine, clock: Clock): Option<int> {
    match clock
    case Ordinal(n) => Some(n)
    case Logged(now, undated) =>
      match if line.time.Some? then line.time else undated
      case None => None
      case Some(at) => Some(if at < now then at else now)
  }

  /** What a reading says, when the injection detector looks at it at all. */
  function Eligible(w: Watch, r: Reading): Option<ParsedLine> {
    if Trim(r.text) == "" then None
    else
      match w.parse(r.text)
      case None => None
      case Some(line) =>
        if w.isOwnProbe(line) || w.isLocal(line.ip) then None
        else
          match At(line, r.clock)
          case None => None
          case Some(at) => if w.cutoff.Some? && at < w.cutoff.value then None else Some(line)
  }

  /** The payload a line carries: in its request, its user agent, or its referer. */
  function Payload(j: Judges, line: ParsedLine): Option<string> {
    if j.request(line.request).Some? then j.request(line.request)
    else if j.agent(line.userAgent).Some? then j.agent(line.userAgent)
    else match line.referer case None => None case Some(referer) => j.referer(referer)
  }

  /** Whether a reading, judged afresh, convicts an address. */
  predicate Convicts(w: Watch, ip: string, r: Reading) {
    var line := Eligible(w, r);
    line.Some? && line.value.ip == ip && Payload(w.judges, line.value).Some?
  }

  /** The addresses an uncached judgement of every eligible line gives. */
  ghost predicate Convicted(w: Watch, log: seq<Reading>, ip: string) {
    exists r :: r in log && Convicts(w, ip, r)
  }

  /** The record a line gives: the kind of its payload, and its time. */
  function ItemOf(w: Watch, r: Reading): Option<Item> {
    match Eligible(w, r)
    case None => None
    case Some(line) =>
      match Payload(w.judges, line)
      case None => None
      case Some(kind) =>
        match At(line, r.clock) case None => None case Some(at) => Some(Item(line.ip, kind, at))
  }

  predicate HasItem(items: seq<Item>, ip: string) {
    exists k | 0 <= k < |items| :: items[k].ip == ip
  }

  /** The evidence of a log with nothing remembered: the first payload of each address. */
  function Evidence(w: Watch, log: seq<Reading>): seq<Item> {
    if log == [] then []
    else
      var before := Evidence(w, log[..|log| - 1]);
      match ItemOf(w, log[|log| - 1])
      case None => before
      case Some(item) => if HasItem(before, item.ip) then before else before + [item]
  }

  lemma EvidenceSnoc(w: Watch, log: seq<Reading>, r: Reading)
    ensures Evidence(w, log + [r])
         == match ItemOf(w, r)
            case None => Evidence(w, log)
            case Some(item) =>
              if HasItem(Evidence(w, log), item.ip) then Evidence(w, log) else Evidence(w, log) + [item]
  {
    hide ItemOf, HasItem;
    assert (log + [r])[..|log|] == log;
  }

  /** When a line is taken to have happened: where lines are numbered, at its number; else when it
      says, or when it is said for it, but not later than now. */
  ghost predicate HappenedAt(line: ParsedLine, clock: Clock, at: int) {
    match clock
    case Ordinal(n) => at == n
    case Logged(now, undated) =>
      exists said :: (line.time == Some(said) || (line.time == None && undated == Some(said))) && at <= now && at <= said && (at == now || at == said)
  }

  lemma AtMeans(line: ParsedLine, clock: Clock, at: int)
    ensures At(line, clock) == Some(at) <==> HappenedAt(line, clock, at)
  {
  }

  /** A reading convicts an address when it says something, reads, is of that address, which is a
      public one, and not this project's own probe, happened no earlier than evidence counts, and
      its request, its user agent or its referer is judged a payload. */
  lemma ConvictsMeans(w: Watch, ip: string, r: Reading)
    ensures Convicts(w, ip, r)
       <==> && !AllSpace(r.text) && w.parse(r.text).Some?
            && var line := w.parse(r.text).value;
               && line.ip == ip && !w.isOwnProbe(line) && !w.isLocal(ip)
               && (exists at :: HappenedAt(line, r.clock, at) && (w.cutoff.Some? ==> at >= w.cutoff.value))
               && (|| w.judges.request(line.request).Some? || w.judges.agent(line.userAgent).Some?
                   || (line.referer.Some? && w.judges.referer(line.referer.value).Some?))
  {
    hide Trim, At, HappenedAt;
    TrimmedAway(r.text);
    if w.parse(r.text).Some? {
      var line := w.parse(r.text).value;
      forall at
        ensures At(line, r.clock) == Some(at) <==> HappenedAt(line, r.clock, at)
      {
        AtMeans(line, r.clock, at);
      }
      if At(line, r.clock).Some? { assert HappenedAt(line, r.clock, At(line, r.clock).value); }
    }
  }

  lemma ItemConvicts(w: Watch, r: Reading)
    ensures ItemOf(w, r).Some? ==> Convicts(w, ItemOf(w, r).value.ip, r)
    ensures forall ip :: Convicts(w, ip, r) ==> ItemOf(w, r).Some? && ItemOf(w, r).value.ip == ip
  {
    hide Payload;
  }

  /** The evidence names exactly the addresses convicted by some line, each once. */
  lemma {:induction false} EvidenceIsConviction(w: Watch, log: seq<Reading>)
    ensures forall ip :: HasItem(Evidence(w, log), ip) <==> Convicted(w, log, ip)
    ensures var items := Evidence(w, log);
            forall j, k | 0 <= j < k < |items| :: items[j].ip != items[k].ip
    decreases |log|
  {
    hide ItemOf, Convicts;
    if log != [] {
      var front, r := log[..|log| - 1], log[|log| - 1];
      assert log == front + [r];
      EvidenceIsConviction(w, front);
      ItemConvicts(w, r);
      EvidenceSnoc(w, front, r);
      forall ip
        ensures HasItem(Evidence(w, log), ip) <==> Convicted(w, log, ip)
      {
        ConvictedSnoc(w, front, r, ip);
        if ItemOf(w, r).Some? { HasItemSnoc(Evidence(w, front), ItemOf(w, r).value, ip); }
      }
    }
  }

  lemma ConvictedSnoc(w: Watch, log: seq<Reading>, r: Reading, ip: string)
    ensures Convicted(w, log + [r], ip) <==> Convicted(w, log, ip) || Convicts(w, ip, r)
  {
    hide Convicts;
    assert r in log + [r];
    forall x | x in log ensures x in log + [r] {}
  }

  lemma HasItemSnoc(items: seq<Item>, item: Item, ip: string)
    ensures HasItem(items + [item], ip) <==> HasItem(items, ip) || item.ip == ip
  {
    var more := items + [item];
    assert more[|items|] == item;
    if HasItem(items, ip) {
      var k :| 0 <= k < |items| && items[k].ip == ip;
      assert more[k].ip == ip;
    }
  }

  /** What a line has on record: what its request is judged, or else its user agent, or else its
      referer, and when it happened. */
  ghost predicate Says(w: Watch, r: Reading, item: Item) {
    && Convicts(w, item.ip, r)
    && var line := w.parse(r.text).value;
       && HappenedAt(line, r.clock, item.at)
       && (var asked, agent := w.judges.request(line.request), w.judges.agent(line.userAgent);
           || asked == Some(item.kind)
           || (asked.None? && agent == Some(item.kind))
           || (asked.None? && agent.None? && line.referer.Some? && w.judges.referer(line.referer.value) == Some(item.kind)))
  }

  lemma ItemSays(w: Watch, r: Reading, item: Item)
    ensures ItemOf(w, r) == Some(item) <==> Says(w, r, item)
  {
    hide Trim, At, HappenedAt;
    if w.parse(r.text).Some? {
      var line := w.parse(r.text).value;
      forall at
        ensures At(line, r.clock) == Some(at) <==> HappenedAt(line, r.clock, at)
      {
        AtMeans(line, r.clock, at);
      }
    }
  }

  /** The first line that convicts an address, and what it says. */
  ghost predicate FirstSays(w: Watch, log: seq<Reading>, item: Item, k: nat) {
    k < |log| && Says(w, log[k], item) && forall j | 0 <= j < k :: !Convicts(w, item.ip, log[j])
  }

  /** On record is exactly what the first line says that convicts an address. */
  lemma {:induction false} EvidenceIsTheFirst(w: Watch, log: seq<Reading>, item: Item)
    ensures item in Evidence(w, log) <==> exists k: nat :: FirstSays(w, log, item, k)
    decreases |log|
  {
    hide ItemOf, Convicts, Says, HasItem;
    if log != [] {
      var front, r := log[..|log| - 1], log[|log| - 1];
      assert log == front + [r];
      EvidenceIsTheFirst(w, front, item);
      EvidenceIsConviction(w, front);
      EvidenceSnoc(w, front, r);
      ItemConvicts(w, r);
      ItemSays(w, r, item);
      FirstSaysSnoc(w, front, r, item);
      NoneConvicts(w, front, item.ip);
    }
  }

  lemma NoneConvicts(w: Watch, log: seq<Reading>, ip: string)
    ensures Convicted(w, log, ip) <==> exists j :: 0 <= j < |log| && Convicts(w, ip, log[j])
  {
    hide Convicts;
    if Convicted(w, log, ip) {
      var r :| r in log && Convicts(w, ip, r);
      var j :| 0 <= j < |log| && log[j] == r;
    }
  }

  lemma FirstSaysSnoc(w: Watch, log: seq<Reading>, r: Reading, item: Item)
    ensures (exists k: nat :: FirstSays(w, log + [r], item, k))
       <==> || (exists k: nat :: FirstSays(w, log, item, k))
            || (Says(w, r, item) && forall j | 0 <= j < |log| :: !Convicts(w, item.ip, log[j]))
  {
    hide Convicts, Says;
    var more := log + [r];
    assert more[|log|] == r;
    assert forall j | 0 <= j < |log| :: more[j] == log[j];
    if exists k: nat :: FirstSays(w, log, item, k) {
      var k: nat :| FirstSays(w, log, item, k);
      assert FirstSays(w, more, item, k);
    } else if Says(w, r, item) && forall j | 0 <= j < |log| :: !Convicts(w, item.ip, log[j]) {
      assert FirstSays(w, more, item, |log|);
    }
    if exists k: nat :: FirstSays(w, more, item, k) {
      var k: nat :| FirstSays(w, more, item, k);
      if k < |log| { assert FirstSays(w, log, item, k); }
    }
  }

  // ---- remembering ----

  const JUDGED_MAX := 50_000

  /** Verdicts already reached by one judge. */
  class Verdicts {
    const judge: string -> Option<string>
    var seen: map<string, Option<string>>

    ghost predicate Valid()
      reads this
    {
      |seen| <= JUDGED_MAX && forall text | text in seen :: seen[text] == judge(text)
    }

    constructor (judge: string -> Option<string>)
      ensures Valid() && this.judge == judge
    {
      this.judge := judge;
      seen := map[];
    }

    /** The judge's answer, remembered or reached now; a full memory is emptied first. */
    method Judged(text: string) returns (answer: Option<string>)
      requires Valid()
      modifies this
      ensures Valid() && answer == judge(text)
      ensures text in seen
    {
      if text in seen {
        return seen[text];
      }
      if |seen| >= JUDGED_MAX {
        seen := map[];
      }
      answer := judge(text);
      MapGrows(seen, text, answer);
      seen := seen[text := answer];
    }
  }

  lemma MapGrows(m: map<string, Option<string>>, key: string, value: Option<string>)
    requires key !in m
    ensures |m[key := value]| == |m| + 1
  {
    assert m[key := value].Keys == m.Keys + {key};
    assert |m[key := value].Keys| == |m.Keys| + 1;
  }

  class Observer {
    const watch: Watch
    const requests: Verdicts
    const agents: Verdicts
    const referers: Verdicts
    var injecting: set<string>
    var items: seq<Item>
    ghost var log: seq<Reading>

    /** The memories hold true verdicts. */
    ghost predicate Memories()
      reads requests, agents, referers
    {
      && requests != agents && agents != referers && requests != referers
      && requests.Valid() && agents.Valid() && referers.Valid()
      && requests.judge == watch.judges.request && agents.judge == watch.judges.agent
      && referers.judge == watch.judges.referer
    }

    /** The evidence is that of the lines read, with nothing remembered. */
    ghost predicate Kept()
      reads this
    {
      items == Evidence(watch, log) && forall ip :: ip in injecting <==> HasItem(items, ip)
    }

    ghost predicate Valid()
      reads this, requests, agents, referers
    {
      Memories() && Kept()
    }

    constructor (watch: Watch)
      ensures Valid() && log == [] && this.watch == watch
      ensures fresh(requests) && fresh(agents) && fresh(referers)
    {
      this.watch := watch;
      requests := new Verdicts(watch.judges.request);
      agents := new Verdicts(watch.judges.agent);
      referers := new Verdicts(watch.judges.referer);
      injecting, items, log := {}, [], [];
    }

    /** The payload a line carries, if any. */
    method Injection(line: ParsedLine) returns (kind: Option<string>)
      requires Memories()
      modifies requests, agents, referers
      ensures Memories() && kind == Payload(watch.judges, line)
    {
      kind := requests.Judged(line.request);
      if kind.Some? {
        return;
      }
      kind := agents.Judged(line.userAgent);
      if kind.Some? || line.referer.None? {
        return;
      }
      kind := referers.Judged(line.referer.value);
    }

    /** Reads one line. */
    method Line(text: string, clock: Clock)
      requires Valid()
      modifies this, requests, agents, referers
      ensures Valid() && log == old(log) + [Reading(text, clock)]
    {
      hide Evidence, HasItem, Payload, ItemOf, At, Memories;
      ghost var r := Reading(text, clock);
      EvidenceSnoc(watch, log, r);
      ItemOfReading(watch, r);
      log := log + [r];
      if Trim(text) == "" {
        return;
      }
      var parsed := watch.parse(text);
      if parsed.None? {
        return;
      }
      var line := parsed.value;
      if watch.isOwnProbe(line) || watch.isLocal(line.ip) {
        return;
      }
      var at := At(line, clock);
      if at.None? {
        return;
      }
      if watch.cutoff.Some? && at.value < watch.cutoff.value {
        return;
      }
      if line.ip in injecting {
        return;
      }
      var kind := Injection(line);
      if kind.Some? {
        var item := Item(line.ip, kind.value, at.value);
        NewItem(items, item);
        injecting := injecting + {line.ip};
        items := items + [item];
      }
    }
  }

  /** What a reading gives, branch by branch. */
  lemma ItemOfReading(w: Watch, r: Reading)
    ensures Trim(r.text) == "" ==> ItemOf(w, r) == None
    ensures w.parse(r.text).None? ==> ItemOf(w, r) == None
    ensures Trim(r.text) != "" && w.parse(r.text).Some? ==>
              var line := w.parse(r.text).value;
              var at := At(line, r.clock);
              ItemOf(w, r) ==
                if w.isOwnProbe(line) || w.isLocal(line.ip) || at.None? then None
                else if w.cutoff.Some? && at.value < w.cutoff.value then None
                else
                  match Payload(w.judges, line)
                  case None => None
                  case Some(kind) => Some(Item(line.ip, kind, at.value))
  {
    hide Payload, At, Trim;
  }

  lemma NewItem(items: seq<Item>, item: Item)
    ensures forall ip :: HasItem(items + [item], ip) <==> HasItem(items, ip) || item.ip == ip
  {
    hide HasItem;
    forall ip
      ensures HasItem(items + [item], ip) <==> HasItem(items, ip) || item.ip == ip
    {
      HasItemSnoc(items, item, ip);
    }
  }

  /** Over every log, the memories and the addresses already convicted change nothing: the addresses
      with evidence are those some line convicts when every line is judged afresh. */
  method ObserveLog(watch: Watch, log: seq<Reading>) returns (items: seq<Item>)
    ensures items == Evidence(watch, log)
    ensures forall ip :: HasItem(items, ip) <==> Convicted(watch, log, ip)
  {
    hide Evidence, HasItem, Convicted;
    var observer := new Observer(watch);
    for k := 0 to |log|
      invariant fresh(observer) && fresh(observer.requests) && fresh(observer.agents) && fresh(observer.referers)
      invariant observer.Valid() && observer.watch == watch && observer.log == log[..k]
    {
      observer.Line(log[k].text, log[k].clock);
      assert log[..k + 1] == log[..k] + [log[k]];
    }
    assert log[..|log|] == log;
    items := observer.items;
    EvidenceIsConviction(watch, log);
  }
}
