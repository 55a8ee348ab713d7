/** Answering hits on listed destinations, and the breaker that stops automatic containment
    (`src/contain.rs`, `respond`). */
module Breaker {
  import opened Text
  import opened Containment

  // ---- who a hit came from ----

  datatype Origin = Forward(source: string) | FromHost(uid: Option<nat>)

  /** An unanswered hit, with whether a feed that lists its destination may contain. */
  datatype Hit = Hit(destination: string, origin: Origin, may: bool)

  /** What the host looks like: its containers, its users' names, who is logged in. */
  datatype Host = Host(boxes: Boxes, names: nat -> Option<string>, loggedIn: seq<string>)

  datatype Culprit = ByBox(box: Box) | ByUser(uid: nat, name: Option<string>) | Forwarded(source: string) | Unknown

  function BoxWith(boxes: seq<Box>, address: string): Option<Box> {
    if boxes == [] then None else if address in boxes[0].addresses then Some(boxes[0]) else BoxWith(boxes[1..], address)
  }

  function CulpritOf(hit: Hit, host: Host): Culprit {
    match hit.origin
    case Forward(source) =>
      (match (match host.boxes case None => None case Some(boxes) => BoxWith(boxes, source))
       case Some(box) => ByBox(box)
       case None => Forwarded(source))
    case FromHost(None) => Unknown
    case FromHost(Some(uid)) => ByUser(uid, host.names(uid))
  }

  function ShortId(id: string): string {
    if |id| <= 12 then id else id[..12]
  }

  function Label(culprit: Culprit): string {
    match culprit
    case ByBox(box) => "container " + (if box.name == "" then ShortId(box.id) else box.name) + " (" + JoinWith(box.addresses, ", ") + ")"
    case ByUser(uid, Some(name)) => "user " + name + " (uid " + PrintNat(uid) + ")"
    case ByUser(uid, None) => "uid " + PrintNat(uid)
    case Forwarded(source) => source + ", forwarded through this host"
    case Unknown => "a process on this host"
  }

  function CulpritTarget(culprit: Culprit): Option<Target> {
    match culprit
    case ByBox(box) => Some(TheContainer(box))
    case ByUser(uid, name) => Some(TheUser(uid, name))
    case _ => None
  }

  // ---- who may be contained automatically ----

  datatype Settings = Settings(
    auto: bool, blocking: bool, containers: bool, users: bool, containerAction: Action, userAction: Action,
    never: seq<string>, breakerMax: nat)

  predicate NeverContains(settings: Settings, names: seq<string>) {
    exists k | 0 <= k < |settings.never| :: settings.never[k] in names
  }

  predicate MayContain(culprit: Culprit, settings: Settings, host: Host) {
    match culprit
    case ByBox(box) => settings.containers && !NeverContains(settings, [box.name, box.id, ShortId(box.id)])
    case ByUser(uid, name) =>
      var known := match name case Some(n) => n case None => "";
      && uid != 0 && settings.users
      && !NeverContains(settings, [known, PrintNat(uid)])
      && !(known != "" && known in host.loggedIn)
    case _ => false
  }

  predicate Automatic(settings: Settings) {
    settings.auto && settings.blocking
  }

  // ---- what a pass would contain ----

  /** A hit and who is behind it. */
  datatype Case = Case(hit: Hit, culprit: Culprit)

  function Cases(hits: seq<Hit>, host: Host): seq<Case> {
    if hits == [] then [] else [Case(hits[0], CulpritOf(hits[0], host))] + Cases(hits[1..], host)
  }

  /** The labels of those who reached a destination. */
  function Sources(cases: seq<Case>, destination: string): set<string> {
    if cases == [] then {}
    else
      (if cases[0].hit.destination == destination then {Label(cases[0].culprit)} else {})
      + Sources(cases[1..], destination)
  }

  function CrowdLimit(settings: Settings): nat {
    if settings.breakerMax < 2 then 2 else settings.breakerMax
  }

  /** Reached from so many at once that it looks like a feed's mistake. */
  predicate Crowded(settings: Settings, cases: seq<Case>, destination: string) {
    |Sources(cases, destination)| >= CrowdLimit(settings)
  }

  predicate AnyCrowded(settings: Settings, cases: seq<Case>) {
    exists k | 0 <= k < |cases| :: Crowded(settings, cases, cases[k].hit.destination)
  }

  /** Whether a hit's culprit is to be contained, before the breaker has its say. */
  predicate Wanted(s: State, settings: Settings, host: Host, cases: seq<Case>, c: Case) {
    var target := CulpritTarget(c.culprit);
    && target.Some? && SubjectOf(target.value).Some?
    && !OpenOf(s, SubjectOf(target.value).value)
    && c.hit.may && !Crowded(settings, cases, c.hit.destination)
    && MayContain(c.culprit, settings, host)
  }

  /** The targets wanted among the first `n` cases, each once. */
  function Candidates(s: State, settings: Settings, host: Host, cases: seq<Case>, n: nat): seq<Target>
    requires n <= |cases|
  {
    if n == 0 then []
    else
      var before := Candidates(s, settings, host, cases, n - 1);
      var c := cases[n - 1];
      if Wanted(s, settings, host, cases, c) && CulpritTarget(c.culprit).value !in before then
        before + [CulpritTarget(c.culprit).value]
      else before
  }

  predicate Wants(s: State, settings: Settings, host: Host, cases: seq<Case>, c: Case, t: Target) {
    Wanted(s, settings, host, cases, c) && CulpritTarget(c.culprit) == Some(t)
  }

  ghost predicate WantedBy(s: State, settings: Settings, host: Host, cases: seq<Case>, n: nat, t: Target)
    requires n <= |cases|
  {
    exists k | 0 <= k < n :: Wants(s, settings, host, cases, cases[k], t)
  }

  lemma WantedByMore(s: State, settings: Settings, host: Host, cases: seq<Case>, n: nat, t: Target)
    requires 0 < n <= |cases|
    ensures WantedBy(s, settings, host, cases, n, t)
       <==> WantedBy(s, settings, host, cases, n - 1, t) || Wants(s, settings, host, cases, cases[n - 1], t)
  {
    hide Wants;
  }

  /** A target is a candidate exactly when some case wants it, and once. */
  lemma {:induction false} CandidatesAreWanted(s: State, settings: Settings, host: Host, cases: seq<Case>, n: nat)
    requires n <= |cases|
    ensures forall t :: t in Candidates(s, settings, host, cases, n) <==> WantedBy(s, settings, host, cases, n, t)
    ensures Distinct(Candidates(s, settings, host, cases, n))
  {
    hide Wanted, CulpritTarget, WantedBy, Distinct;
    if n == 0 {
      NoneWanted(s, settings, host, cases);
    } else {
      CandidatesAreWanted(s, settings, host, cases, n - 1);
      WantedHasTarget(s, settings, host, cases, cases[n - 1]);
      var before := Candidates(s, settings, host, cases, n - 1);
      if Wanted(s, settings, host, cases, cases[n - 1]) {
        DistinctSnoc(before, CulpritTarget(cases[n - 1].culprit).value);
      }
      forall t
        ensures t in Candidates(s, settings, host, cases, n) <==> WantedBy(s, settings, host, cases, n, t)
      {
        WantedByMore(s, settings, host, cases, n, t);
      }
    }
  }

  lemma NoneWanted(s: State, settings: Settings, host: Host, cases: seq<Case>)
    ensures forall t :: !WantedBy(s, settings, host, cases, 0, t)
    ensures Distinct([])
  {
    hide Wants;
  }

  predicate Distinct(targets: seq<Target>) {
    forall j, k | 0 <= j < k < |targets| :: targets[j] != targets[k]
  }

  lemma DistinctSnoc(targets: seq<Target>, t: Target)
    requires Distinct(targets)
    ensures t !in targets ==> Distinct(targets + [t])
  {
  }

  lemma WantedHasTarget(s: State, settings: Settings, host: Host, cases: seq<Case>, c: Case)
    ensures Wanted(s, settings, host, cases, c) ==> CulpritTarget(c.culprit).Some?
  {
    hide Crowded, MayContain, OpenOf;
  }

  // ---- the breaker ----

  /** The automatic containments opened since a time, released ones too. */
  function Since(s: State, since: int): set<nat> {
    set id | id in s.rows && s.rows[id].automatic && s.rows[id].createdAt >= since
  }

  const HOUR := 3600

  function Wanting(s: State, settings: Settings, host: Host, cases: seq<Case>): seq<Target> {
    if Automatic(settings) then Candidates(s, settings, host, cases, |cases|) else []
  }

  predicate Trips(s: State, settings: Settings, host: Host, cases: seq<Case>, now: int) {
    && Automatic(settings)
    && (|| AnyCrowded(settings, cases)
        || |Since(s, now - HOUR)| + |Wanting(s, settings, host, cases)| > settings.breakerMax)
  }

  function ActionFor(settings: Settings, target: Target): Action {
    if target.TheUser? then settings.userAction else settings.containerAction
  }

  function ContainEach(s: State, ctx: Ctx, settings: Settings, targets: seq<Target>, now: int): State
    decreases |targets|
  {
    if targets == [] then s
    else
      ContainEach(Contained(s, ctx, targets[0], ActionFor(settings, targets[0]), true, now), ctx, settings, targets[1..], now)
  }

  /** A pass, up to keeping the open containments up. */
  function Answered(s: State, ctx: Ctx, settings: Settings, host: Host, hits: seq<Hit>, now: int): State {
    var cases := Cases(hits, host);
    var trips := Trips(s, settings, host, cases, now);
    if trips && ctx.forReal then s.(tripped := Some(now))
    else if trips || s.tripped.Some? then s
    else ContainEach(s, ctx, settings, Wanting(s, settings, host, cases), now)
  }

  function Responded(s: State, ctx: Ctx, settings: Settings, host: Host, hits: seq<Hit>, now: int, order: seq<nat>): State
    requires ListsOpen(Answered(s, ctx, settings, host, hits, now), order)
  {
    Maintained(Answered(s, ctx, settings, host, hits, now), ctx, host.boxes, order)
  }

  // ---- what one pass opens ----

  /** Settings as they are read: an action that does not apply to a kind is replaced. */
  predicate ActionsFit(settings: Settings) {
    AppliesTo(settings.containerAction, Container) && AppliesTo(settings.userAction, User)
  }

  /** What is wanted is never refused, so a pass always goes through. */
  lemma WantedIsNotRefused(s: State, settings: Settings, host: Host, cases: seq<Case>, c: Case)
    requires ActionsFit(settings) && Wanted(s, settings, host, cases, c)
    ensures var target := CulpritTarget(c.culprit).value;
            Refused(target, ActionFor(settings, target)).None?
  {
    hide Crowded, OpenOf, NeverContains;
  }

  /** What was there keeps its date and whether it was automatic; what is new is automatic and
      dated `now`. */
  ghost predicate OpensAt(s: State, t: State, now: int) {
    && s.rows.Keys <= t.rows.Keys
    && (forall id | id in s.rows :: t.rows[id] == s.rows[id])
    && (forall id | id in t.rows && id !in s.rows :: t.rows[id].automatic && t.rows[id].createdAt == now)
  }

  lemma ContainOpensOne(s: State, ctx: Ctx, target: Target, action: Action, now: int)
    requires Sane(s)
    ensures var t := Contained(s, ctx, target, action, true, now);
            && OpensAt(s, t, now) && Sane(t) && t.tripped == s.tripped
            && forall since :: |Since(t, since)| <= |Since(s, since)| + 1
  {
    hide AppliesTo, OpenOf;
    var t := Contained(s, ctx, target, action, true, now);
    forall since
      ensures |Since(t, since)| <= |Since(s, since)| + 1
    {
      assert Since(t, since) <= Since(s, since) + {s.next};
      SetGrows(Since(t, since), Since(s, since), s.next);
    }
  }

  lemma SetGrows(a: set<nat>, b: set<nat>, x: nat)
    requires a <= b + {x}
    ensures |a| <= |b| + 1
  {
    SetSize(a, b + {x});
  }

  lemma {:induction false} SetSize(a: set<nat>, b: set<nat>)
    requires a <= b
    ensures |a| <= |b|
  {
    if a != {} {
      var x :| x in a;
      SetSize(a - {x}, b - {x});
    }
  }

  lemma {:induction false} ContainEachOpens(s: State, ctx: Ctx, settings: Settings, targets: seq<Target>, now: int)
    requires Sane(s)
    ensures var t := ContainEach(s, ctx, settings, targets, now);
            && OpensAt(s, t, now) && Sane(t) && t.tripped == s.tripped
            && forall since :: |Since(t, since)| <= |Since(s, since)| + |targets|
    decreases |targets|
  {
    hide Contained, Since;
    if targets != [] {
      var next := Contained(s, ctx, targets[0], ActionFor(settings, targets[0]), true, now);
      ContainOpensOne(s, ctx, targets[0], ActionFor(settings, targets[0]), now);
      ContainEachOpens(next, ctx, settings, targets[1..], now);
    }
  }

  /** A pass that trips opens nothing; while the breaker is tripped no pass does; and one that opens
      anything leaves no more than the limit dated within the hour. */
  lemma PassObeysBreaker(s: State, ctx: Ctx, settings: Settings, host: Host, hits: seq<Hit>, now: int)
    requires Sane(s)
    ensures var t := Answered(s, ctx, settings, host, hits, now);
            && OpensAt(s, t, now) && Sane(t)
            && (Trips(s, settings, host, Cases(hits, host), now) || s.tripped.Some? || !Automatic(settings) || !ctx.forReal
                ==> t.rows == s.rows)
            && (s.tripped.Some? ==> t.tripped.Some?)
            && (Trips(s, settings, host, Cases(hits, host), now) && ctx.forReal ==> t.tripped == Some(now))
            && (t.rows != s.rows ==> |Since(t, now - HOUR)| <= settings.breakerMax)
  {
    hide Cases, Candidates, AnyCrowded, Since;
    var cases := Cases(hits, host);
    if !Trips(s, settings, host, cases, now) && s.tripped.None? {
      var targets := Wanting(s, settings, host, cases);
      ContainEachOpens(s, ctx, settings, targets, now);
      if !ctx.forReal { DryRun(s, ctx, settings, targets, now); }
      if !Automatic(settings) { NothingWanted(s, ctx, settings, now); }
    }
  }

  lemma NothingWanted(s: State, ctx: Ctx, settings: Settings, now: int)
    ensures ContainEach(s, ctx, settings, [], now) == s
  {
  }

  lemma {:induction false} DryRun(s: State, ctx: Ctx, settings: Settings, targets: seq<Target>, now: int)
    requires !ctx.forReal
    ensures ContainEach(s, ctx, settings, targets, now) == s
    decreases |targets|
  {
    if targets != [] { DryRun(s, ctx, settings, targets[1..], now); }
  }

  lemma {:induction false} ContainEachKeepsSync(s: State, ctx: Ctx, settings: Settings, targets: seq<Target>, now: int)
    requires InSync(s)
    ensures InSync(ContainEach(s, ctx, settings, targets, now))
    decreases |targets|
  {
    hide InSync, Contained;
    if targets != [] {
      ContainKeepsSync(s, ctx, targets[0], ActionFor(settings, targets[0]), true, now);
      ContainEachKeepsSync(Contained(s, ctx, targets[0], ActionFor(settings, targets[0]), true, now), ctx, settings, targets[1..], now);
    }
  }

  lemma AnsweredKeepsSync(s: State, ctx: Ctx, settings: Settings, host: Host, hits: seq<Hit>, now: int)
    requires InSync(s)
    ensures InSync(Answered(s, ctx, settings, host, hits, now))
  {
    hide InSync, Trips, Wanting, Cases;
    SyncOfRows(s, s.(tripped := Some(now)));
    ContainEachKeepsSync(s, ctx, settings, Wanting(s, settings, host, Cases(hits, host)), now);
  }

  // ---- who is contained, and why ----

  /** The first listed container that has an address. */
  ghost predicate HasAddress(boxes: Boxes, address: string, k: nat) {
    && boxes.Some? && k < |boxes.value| && address in boxes.value[k].addresses
    && forall j | 0 <= j < k :: address !in boxes.value[j].addresses
  }

  lemma {:induction false} BoxWithFinds(boxes: seq<Box>, address: string)
    ensures match BoxWith(boxes, address)
            case None => forall k | 0 <= k < |boxes| :: address !in boxes[k].addresses
            case Some(box) => exists k: nat :: HasAddress(Some(boxes), address, k) && boxes[k] == box
  {
    if boxes != [] {
      if address in boxes[0].addresses {
        assert HasAddress(Some(boxes), address, 0);
      } else {
        BoxWithFinds(boxes[1..], address);
        assert boxes == [boxes[0]] + boxes[1..];
        if BoxWith(boxes[1..], address).Some? {
          var k: nat :| HasAddress(Some(boxes[1..]), address, k) && boxes[1..][k] == BoxWith(boxes[1..], address).value;
          assert HasAddress(Some(boxes), address, k + 1);
        }
      }
    }
  }

  /** A container that is not on the never-contain list by its name, its id, or the short form of
      that. */
  predicate BoxIsFair(settings: Settings, box: Box) {
    && settings.containers && box.name !in settings.never && box.id !in settings.never
    && (|box.id| > 12 ==> box.id[..12] !in settings.never)
  }

  /** A user who is not root, not on the list by name or number, and not logged in now. */
  predicate UserIsFair(settings: Settings, host: Host, uid: nat) {
    && settings.users && uid != 0 && PrintNat(uid) !in settings.never
    && match host.names(uid)
       case None => "" !in settings.never
       case Some(name) => name !in settings.never && (name != "" ==> name !in host.loggedIn)
  }

  /** Whether a hit asks for a row: a feed that lists its destination may contain, and it came from
      the container that has its address, or from the user, and they may be contained. */
  ghost predicate Blames(hit: Hit, settings: Settings, host: Host, row: Row) {
    && hit.may
    && match hit.origin
       case Forward(source) =>
         exists k: nat :: HasAddress(host.boxes, source, k) && BlamesBox(settings, host.boxes.value[k], row)
       case FromHost(None) => false
       case FromHost(Some(uid)) =>
         row.subject == ByUid(uid) && row.addresses == [] && row.action == settings.userAction && UserIsFair(settings, host, uid)
  }

  predicate BlamesBox(settings: Settings, box: Box, row: Row) {
    && row.subject == ById(box.id) && row.addresses == box.addresses && row.action == settings.containerAction
    && BoxIsFair(settings, box)
  }

  /** The row a target is recorded as. */
  function RowFor(settings: Settings, target: Target, now: int): Row
    requires SubjectOf(target).Some?
  {
    Row(SubjectOf(target).value, AddressesOf(target), ActionFor(settings, target), true, now, false)
  }

  lemma OneHasAddress(boxes: Boxes, address: string, j: nat, k: nat)
    requires HasAddress(boxes, address, j) && HasAddress(boxes, address, k)
    ensures j == k
  {
  }

  /** What it is to have a culprit that may be contained, in terms of the hit. */
  lemma CulpritIsBlamed(hit: Hit, settings: Settings, host: Host, now: int)
    ensures var culprit := CulpritOf(hit, host);
            CulpritTarget(culprit).Some? && hit.may && MayContain(culprit, settings, host) ==>
              && SubjectOf(CulpritTarget(culprit).value).Some?
              && Blames(hit, settings, host, RowFor(settings, CulpritTarget(culprit).value, now))
  {
    hide PrintNat;
    match hit.origin
    case Forward(source) =>
      if host.boxes.Some? {
        BoxWithFinds(host.boxes.value, source);
        if BoxWith(host.boxes.value, source).Some? {
          BoxFair(settings, host, BoxWith(host.boxes.value, source).value);
        }
      }
    case FromHost(uid) => if uid.Some? { UserFair(settings, host, uid.value); }
  }

  lemma BoxFair(settings: Settings, host: Host, box: Box)
    ensures MayContain(ByBox(box), settings, host) <==> BoxIsFair(settings, box)
  {
    var names := [box.name, box.id, ShortId(box.id)];
    assert names[0] == box.name && names[1] == box.id && names[2] == ShortId(box.id);
    assert box.id in names && box.name in names && ShortId(box.id) in names;
    forall x | x in names ensures x == box.name || x == box.id || x == ShortId(box.id) {}
  }

  lemma UserFair(settings: Settings, host: Host, uid: nat)
    ensures MayContain(ByUser(uid, host.names(uid)), settings, host) <==> UserIsFair(settings, host, uid)
  {
    hide PrintNat;
    var known := match host.names(uid) case Some(n) => n case None => "";
    var names := [known, PrintNat(uid)];
    assert names[0] == known && names[1] == PrintNat(uid);
    forall x | x in names ensures x == known || x == PrintNat(uid) {}
  }

  /** And the other way. */
  lemma BlamedIsCulprit(hit: Hit, settings: Settings, host: Host, row: Row)
    requires Blames(hit, settings, host, row)
    ensures var culprit := CulpritOf(hit, host);
            && CulpritTarget(culprit).Some? && MayContain(culprit, settings, host)
            && SubjectOf(CulpritTarget(culprit).value) == Some(row.subject)
            && AddressesOf(CulpritTarget(culprit).value) == row.addresses
  {
    hide PrintNat, BoxIsFair, UserIsFair, MayContain;
    match hit.origin
    case Forward(source) =>
      var k: nat :| HasAddress(host.boxes, source, k) && BlamesBox(settings, host.boxes.value[k], row);
      BoxWithFinds(host.boxes.value, source);
      assert source in host.boxes.value[k].addresses;
      var j: nat :| HasAddress(host.boxes, source, j) && host.boxes.value[j] == BoxWith(host.boxes.value, source).value;
      OneHasAddress(host.boxes, source, j, k);
      BoxFair(settings, host, host.boxes.value[k]);
    case FromHost(uid) => UserFair(settings, host, uid.value);
  }

  /** Whatever a pass opens is the record of one of its targets. */
  lemma {:induction false} OnlyWantedIsOpened(s: State, ctx: Ctx, settings: Settings, targets: seq<Target>, now: int, id: nat)
    requires Sane(s)
    requires var t := ContainEach(s, ctx, settings, targets, now); id in t.rows && id !in s.rows
    ensures exists k | 0 <= k < |targets| ::
              SubjectOf(targets[k]).Some? && ContainEach(s, ctx, settings, targets, now).rows[id] == RowFor(settings, targets[k], now)
    decreases |targets|
  {
    hide AppliesTo, OpenOf, Since, RowFor;
    if targets != [] {
      var next := Contained(s, ctx, targets[0], ActionFor(settings, targets[0]), true, now);
      ContainOpensOne(s, ctx, targets[0], ActionFor(settings, targets[0]), now);
      ContainEachOpens(next, ctx, settings, targets[1..], now);
      if id in next.rows {
        ContainRecords(s, ctx, settings, targets[0], now, id);
      } else {
        OnlyWantedIsOpened(next, ctx, settings, targets[1..], now, id);
        var k :| 0 <= k < |targets[1..]| && SubjectOf(targets[1..][k]).Some?
                 && ContainEach(next, ctx, settings, targets[1..], now).rows[id] == RowFor(settings, targets[1..][k], now);
        assert targets[k + 1] == targets[1..][k];
      }
    }
  }

  lemma ContainRecords(s: State, ctx: Ctx, settings: Settings, target: Target, now: int, id: nat)
    requires Sane(s) && id !in s.rows
    requires id in Contained(s, ctx, target, ActionFor(settings, target), true, now).rows
    ensures SubjectOf(target).Some?
    ensures Contained(s, ctx, target, ActionFor(settings, target), true, now).rows[id] == RowFor(settings, target, now)
  {
    hide AppliesTo, OpenOf;
  }

  lemma {:induction false} CasesAre(hits: seq<Hit>, host: Host)
    ensures |Cases(hits, host)| == |hits|
    ensures forall k | 0 <= k < |hits| :: Cases(hits, host)[k] == Case(hits[k], CulpritOf(hits[k], host))
  {
    hide CulpritOf;
    if hits != [] { CasesAre(hits[1..], host); }
  }

  /** An automatic containment always has a hit of the pass behind it that came from it, whose
      destination a feed that may contain lists: the container that has the address the hit was
      forwarded from, or the user it was logged for; and it is one that may be contained. A pass
      opens one only when it is to, the breaker has not tripped, and no destination is crowded. */
  lemma OpenedForAReason(s: State, ctx: Ctx, settings: Settings, host: Host, hits: seq<Hit>, now: int, id: nat)
    requires Sane(s)
    requires var t := Answered(s, ctx, settings, host, hits, now); id in t.rows && id !in s.rows
    ensures settings.auto && settings.blocking && ctx.forReal && s.tripped.None?
    ensures !AnyCrowded(settings, Cases(hits, host))
    ensures var row := Answered(s, ctx, settings, host, hits, now).rows[id];
            row.automatic && row.createdAt == now && !row.released
            && exists k | 0 <= k < |hits| :: Blames(hits[k], settings, host, row)
  {
    hide Wanted, Since, CulpritTarget, SubjectOf, Cases, CulpritOf, Candidates, AnyCrowded, RowFor, Blames;
    var cases := Cases(hits, host);
    var targets := Wanting(s, settings, host, cases);
    PassObeysBreaker(s, ctx, settings, host, hits, now);
    OnlyWantedIsOpened(s, ctx, settings, targets, now, id);
    var j :| 0 <= j < |targets| && SubjectOf(targets[j]).Some?
             && ContainEach(s, ctx, settings, targets, now).rows[id] == RowFor(settings, targets[j], now);
    assert targets[j] in targets;
    CandidateIsBlamed(s, settings, host, hits, targets[j], now);
    RowForIs(settings, targets[j], now);
  }

  lemma RowForIs(settings: Settings, target: Target, now: int)
    requires SubjectOf(target).Some?
    ensures var row := RowFor(settings, target, now); row.automatic && row.createdAt == now && !row.released
  {
  }

  lemma CandidateIsBlamed(s: State, settings: Settings, host: Host, hits: seq<Hit>, target: Target, now: int)
    requires target in Candidates(s, settings, host, Cases(hits, host), |Cases(hits, host)|) && SubjectOf(target).Some?
    ensures exists k | 0 <= k < |hits| :: Blames(hits[k], settings, host, RowFor(settings, target, now))
  {
    hide CulpritTarget, SubjectOf, Cases, CulpritOf, Candidates, RowFor, Blames, MayContain, Crowded, OpenOf;
    var cases := Cases(hits, host);
    CandidatesAreWanted(s, settings, host, cases, |cases|);
    assert WantedBy(s, settings, host, cases, |cases|, target);
    var k :| 0 <= k < |cases| && Wants(s, settings, host, cases, cases[k], target);
    CasesAre(hits, host);
    CulpritIsBlamed(hits[k], settings, host, now);
  }

  // ---- everyone to blame is contained ----

  lemma ContainKeepsOpen(s: State, ctx: Ctx, target: Target, action: Action, automatic: bool, now: int, subject: Subject)
    requires Sane(s) && OpenOf(s, subject)
    ensures OpenOf(Contained(s, ctx, target, action, automatic, now), subject)
  {
    hide AppliesTo;
    var t := Contained(s, ctx, target, action, automatic, now);
    var id :| id in s.rows && Opens(s, id, subject);
    assert t.rows[id] == s.rows[id];
    assert Opens(t, id, subject);
  }

  lemma ContainOpens(s: State, ctx: Ctx, target: Target, action: Action, now: int)
    requires Sane(s) && ctx.forReal && Refused(target, action).None? && SubjectOf(target).Some?
    ensures OpenOf(Contained(s, ctx, target, action, true, now), SubjectOf(target).value)
  {
    hide AppliesTo;
    if !OpenOf(s, SubjectOf(target).value) {
      assert Opens(Contained(s, ctx, target, action, true, now), s.next, SubjectOf(target).value);
    }
  }

  lemma {:induction false} ContainEachKeepsOpen(s: State, ctx: Ctx, settings: Settings, targets: seq<Target>, now: int, subject: Subject)
    requires Sane(s) && OpenOf(s, subject)
    ensures OpenOf(ContainEach(s, ctx, settings, targets, now), subject)
    decreases |targets|
  {
    hide Contained, OpenOf, Since;
    if targets != [] {
      ContainKeepsOpen(s, ctx, targets[0], ActionFor(settings, targets[0]), true, now, subject);
      ContainOpensOne(s, ctx, targets[0], ActionFor(settings, targets[0]), now);
      ContainEachKeepsOpen(Contained(s, ctx, targets[0], ActionFor(settings, targets[0]), true, now), ctx, settings, targets[1..], now, subject);
    }
  }

  lemma {:induction false} ContainEachOpensAll(s: State, ctx: Ctx, settings: Settings, targets: seq<Target>, now: int, k: nat)
    requires Sane(s) && ctx.forReal && k < |targets|
    requires SubjectOf(targets[k]).Some? && Refused(targets[k], ActionFor(settings, targets[k])).None?
    ensures OpenOf(ContainEach(s, ctx, settings, targets, now), SubjectOf(targets[k]).value)
    decreases |targets|
  {
    hide Contained, OpenOf, Since, SubjectOf, Refused;
    var next := Contained(s, ctx, targets[0], ActionFor(settings, targets[0]), true, now);
    ContainOpensOne(s, ctx, targets[0], ActionFor(settings, targets[0]), now);
    if k == 0 {
      ContainOpens(s, ctx, targets[0], ActionFor(settings, targets[0]), now);
      ContainEachKeepsOpen(next, ctx, settings, targets[1..], now, SubjectOf(targets[0]).value);
    } else {
      ContainEachOpensAll(next, ctx, settings, targets[1..], now, k - 1);
    }
  }

  /** The other half: a pass that is to contain, and does not trip, leaves everyone a hit blames
      contained. */
  lemma BlamedAreContained(s: State, ctx: Ctx, settings: Settings, host: Host, hits: seq<Hit>, now: int, k: nat, row: Row)
    requires Sane(s) && ctx.forReal && settings.auto && settings.blocking && ActionsFit(settings) && s.tripped.None?
    requires !Trips(s, settings, host, Cases(hits, host), now)
    requires k < |hits| && Blames(hits[k], settings, host, row)
    ensures OpenOf(Answered(s, ctx, settings, host, hits, now), row.subject)
  {
    hide Since, CulpritTarget, SubjectOf, Cases, CulpritOf, Candidates, Blames, OpenOf, Crowded, MayContain, Refused, ActionsFit;
    var cases := Cases(hits, host);
    var targets := Wanting(s, settings, host, cases);
    CasesAre(hits, host);
    MayIsMay(hits[k], settings, host, row);
    BlamedIsCulprit(hits[k], settings, host, row);
    var target := CulpritTarget(cases[k].culprit).value;
    if OpenOf(s, row.subject) {
      ContainEachKeepsOpen(s, ctx, settings, targets, now, row.subject);
    } else {
      assert !Crowded(settings, cases, cases[k].hit.destination);
      assert Wanted(s, settings, host, cases, cases[k]);
      CandidatesAreWanted(s, settings, host, cases, |cases|);
      assert Wants(s, settings, host, cases, cases[k], target);
      assert WantedBy(s, settings, host, cases, |cases|, target);
      WantedIsNotRefused(s, settings, host, cases, cases[k]);
      var j :| 0 <= j < |targets| && targets[j] == target;
      ContainEachOpensAll(s, ctx, settings, targets, now, j);
    }
  }

  lemma MayIsMay(hit: Hit, settings: Settings, host: Host, row: Row)
    requires Blames(hit, settings, host, row)
    ensures hit.may
  {
  }

  // ---- when the breaker trips ----

  /** How many hits reached a destination. */
  function HitsTo(hits: seq<Hit>, destination: string): nat {
    if hits == [] then 0
    else (if hits[0].destination == destination then 1 else 0) + HitsTo(hits[1..], destination)
  }

  lemma {:induction false} SourcesAreHits(hits: seq<Hit>, host: Host, destination: string)
    ensures |Sources(Cases(hits, host), destination)| <= HitsTo(hits, destination)
  {
    hide Label, CulpritOf;
    if hits != [] {
      SourcesAreHits(hits[1..], host, destination);
      var rest := Sources(Cases(hits, host)[1..], destination);
      var name := Label(Cases(hits, host)[0].culprit);
      OneMore(rest, name);
      assert {} + rest == rest;
    }
  }

  lemma OneMore(labels: set<string>, name: string)
    ensures |{name} + labels| <= |labels| + 1
  {
    if name in labels { assert {name} + labels == labels; } else { assert |{name} + labels| == |labels| + 1; }
  }

  lemma {:induction false} CandidatesAreFew(s: State, settings: Settings, host: Host, cases: seq<Case>, n: nat)
    requires n <= |cases|
    ensures |Candidates(s, settings, host, cases, n)| <= n
  {
    hide Wanted, CulpritTarget;
    if n > 0 {
      CandidatesAreFew(s, settings, host, cases, n - 1);
      WantedHasTarget(s, settings, host, cases, cases[n - 1]);
    }
  }

  /** A pass does not trip that has too few hits to crowd a destination, or to open more than the
      limit with what was opened within the hour. */
  lemma FewHitsDoNotTrip(s: State, settings: Settings, host: Host, hits: seq<Hit>, now: int)
    requires forall k | 0 <= k < |hits| :: HitsTo(hits, hits[k].destination) < settings.breakerMax || HitsTo(hits, hits[k].destination) < 2
    requires |set id | id in s.rows && s.rows[id].automatic && s.rows[id].createdAt >= now - 3600| + |hits| <= settings.breakerMax
    ensures !Trips(s, settings, host, Cases(hits, host), now)
  {
    hide Sources, CulpritOf, Candidates, HitsTo, Cases;
    var cases := Cases(hits, host);
    CasesAre(hits, host);
    CandidatesAreFew(s, settings, host, cases, |cases|);
    forall k | 0 <= k < |cases|
      ensures !Crowded(settings, cases, cases[k].hit.destination)
    {
      SourcesAreHits(hits, host, cases[k].hit.destination);
    }
    assert Since(s, now - HOUR) == set id | id in s.rows && s.rows[id].automatic && s.rows[id].createdAt >= now - 3600;
  }

  /** Whether a hit asks for a target to be contained. */
  ghost predicate AsksFor(hit: Hit, settings: Settings, host: Host, target: Target) {
    && hit.may
    && match hit.origin
       case Forward(source) =>
         exists k: nat :: HasAddress(host.boxes, source, k) && target == TheContainer(host.boxes.value[k]) && BoxIsFair(settings, host.boxes.value[k])
       case FromHost(None) => false
       case FromHost(Some(uid)) => target == TheUser(uid, host.names(uid)) && UserIsFair(settings, host, uid)
  }

  lemma AsksMeans(hit: Hit, settings: Settings, host: Host, target: Target)
    ensures AsksFor(hit, settings, host, target)
       <==> hit.may && CulpritTarget(CulpritOf(hit, host)) == Some(target) && MayContain(CulpritOf(hit, host), settings, host)
  {
    hide PrintNat, BoxIsFair, UserIsFair, MayContain;
    match hit.origin
    case Forward(source) =>
      if host.boxes.Some? {
        BoxWithFinds(host.boxes.value, source);
        forall j: nat, k: nat | HasAddress(host.boxes, source, j) && HasAddress(host.boxes, source, k)
          ensures j == k
        {
          OneHasAddress(host.boxes, source, j, k);
        }
        if BoxWith(host.boxes.value, source).Some? {
          BoxFair(settings, host, BoxWith(host.boxes.value, source).value);
        }
      }
      NotContained(settings, host, source);
    case FromHost(uid) =>
      if uid.Some? { UserFair(settings, host, uid.value); }
  }

  lemma NotContained(settings: Settings, host: Host, source: string)
    ensures !MayContain(Forwarded(source), settings, host) && !MayContain(Unknown, settings, host)
  {
  }

  /** A target that some hit asks for and that is not contained yet. */
  ghost predicate NewlyAsked(s: State, settings: Settings, host: Host, hits: seq<Hit>, target: Target) {
    && (exists k | 0 <= k < |hits| :: AsksFor(hits[k], settings, host, target))
    && !(exists id | id in s.rows ::
           !s.rows[id].released
           && s.rows[id].subject == match target case TheContainer(box) => ById(box.id) case TheUser(uid, _) => ByUid(uid) case TheAddress(_) => ByIp(""))
  }

  lemma {:induction false} DistinctSize(targets: seq<Target>)
    requires Distinct(targets)
    ensures |set t | t in targets| == |targets|
  {
    if targets != [] {
      var n := |targets| - 1;
      DistinctSize(targets[..n]);
      assert (set t | t in targets) == (set t | t in targets[..n]) + {targets[n]} by {
        assert targets == targets[..n] + [targets[n]];
      }
    }
  }

  lemma AskedIsCandidate(s: State, settings: Settings, host: Host, hits: seq<Hit>, target: Target)
    requires !AnyCrowded(settings, Cases(hits, host))
    ensures target in Candidates(s, settings, host, Cases(hits, host), |Cases(hits, host)|) <==> NewlyAsked(s, settings, host, hits, target)
  {
    hide AsksFor, CulpritOf, CulpritTarget, MayContain, Crowded, Candidates, Cases;
    var cases := Cases(hits, host);
    CasesAre(hits, host);
    CandidatesAreWanted(s, settings, host, cases, |cases|);
    forall k | 0 <= k < |hits|
      ensures AsksFor(hits[k], settings, host, target)
         <==> hits[k].may && CulpritTarget(cases[k].culprit) == Some(target) && MayContain(cases[k].culprit, settings, host)
      ensures !Crowded(settings, cases, cases[k].hit.destination)
    {
      AsksMeans(hits[k], settings, host, target);
      assert !Crowded(settings, cases, cases[k].hit.destination);
    }
    forall k | 0 <= k < |hits|
      ensures Wants(s, settings, host, cases, cases[k], target)
         <==> AsksFor(hits[k], settings, host, target) && SubjectOf(target).Some? && !OpenOf(s, SubjectOf(target).value)
    {
    }
    if exists k | 0 <= k < |hits| :: AsksFor(hits[k], settings, host, target) {
      NoAddressAsked(hits, settings, host, target);
    }
    if WantedBy(s, settings, host, cases, |cases|, target) {
      var k :| 0 <= k < |cases| && Wants(s, settings, host, cases, cases[k], target);
      assert AsksFor(hits[k], settings, host, target);
    }
  }

  lemma NoAddressAsked(hits: seq<Hit>, settings: Settings, host: Host, target: Target)
    requires exists k | 0 <= k < |hits| :: AsksFor(hits[k], settings, host, target)
    ensures !target.TheAddress?
  {
  }

  /** Where no destination is crowded, a pass trips exactly when those it would newly contain, and
      those contained automatically within the hour, are more than the limit. */
  lemma TripsExactly(s: State, settings: Settings, host: Host, hits: seq<Hit>, now: int, asked: set<Target>)
    requires settings.auto && settings.blocking && !AnyCrowded(settings, Cases(hits, host))
    requires forall t :: t in asked <==> NewlyAsked(s, settings, host, hits, t)
    ensures Trips(s, settings, host, Cases(hits, host), now)
       <==> |set id | id in s.rows && s.rows[id].automatic && s.rows[id].createdAt >= now - 3600| + |asked| > settings.breakerMax
  {
    hide NewlyAsked, Candidates, Cases, AnyCrowded;
    var cases := Cases(hits, host);
    var candidates := Candidates(s, settings, host, cases, |cases|);
    CandidatesAreWanted(s, settings, host, cases, |cases|);
    DistinctSize(candidates);
    forall t
      ensures t in asked <==> t in candidates
    {
      AskedIsCandidate(s, settings, host, hits, t);
    }
    assert asked == set t | t in candidates;
    assert Since(s, now - HOUR) == set id | id in s.rows && s.rows[id].automatic && s.rows[id].createdAt >= now - 3600;
  }

  /** Culprits that are one and the same, as far as the operator is told. */
  predicate SameWho(a: Culprit, b: Culprit) {
    match (a, b)
    case (ByBox(x), ByBox(y)) => x.name == y.name
    case (ByUser(u, _), ByUser(v, _)) => u == v
    case (Forwarded(x), Forwarded(y)) => x == y
    case (Unknown, Unknown) => true
    case _ => false
  }

  /** A container with a name a runtime gives: not empty, no bracket in it. */
  predicate WellNamed(culprit: Culprit) {
    culprit.ByBox? ==> culprit.box.name != "" && '(' !in culprit.box.name
  }

  lemma BoxLabels(a: Box, b: Box)
    requires a.name != "" && b.name != "" && '(' !in a.name && '(' !in b.name && Label(ByBox(a)) == Label(ByBox(b))
    ensures a.name == b.name
  {
    hide JoinWith, SplitOnce;
    var x, y := "container " + a.name + " ", "container " + b.name + " ";
    var p, q := JoinWith(a.addresses, ", ") + ")", JoinWith(b.addresses, ", ") + ")";
    assert Label(ByBox(a)) == x + ['('] + p && Label(ByBox(b)) == y + ['('] + q;
    SplitOnceAt(x, '(', p);
    SplitOnceAt(y, '(', q);
    assert x[10..|x| - 1] == a.name && y[10..|y| - 1] == b.name;
  }

  lemma ShorterDiffers(front: string, p: string, other: string, q: string)
    requires |p| < |q| && forall c | c in q :: IsDigit(c)
    ensures front + " " + p != other + " " + q
  {
    var s, t := front + " " + p, other + " " + q;
    if |s| == |t| {
      assert s[|front|] == ' ' && t[|front|] == q[|front| - |other| - 1];
      assert q[|front| - |other| - 1] in q;
    }
  }

  /** Digits after a blank, at the end of a text, are read off it. */
  lemma LastNumber(front: string, m: nat, other: string, n: nat)
    requires front + " " + PrintNat(m) == other + " " + PrintNat(n)
    ensures m == n
  {
    hide PrintNat;
    var s, t := front + " " + PrintNat(m), other + " " + PrintNat(n);
    if |PrintNat(m)| < |PrintNat(n)| { ShorterDiffers(front, PrintNat(m), other, PrintNat(n)); }
    if |PrintNat(n)| < |PrintNat(m)| { ShorterDiffers(other, PrintNat(n), front, PrintNat(m)); }
    assert s[|s| - |PrintNat(m)|..] == PrintNat(m) && t[|t| - |PrintNat(n)|..] == PrintNat(n);
    ParsePrinted(m);
    ParsePrinted(n);
  }

  /** The label of a user, with its number at the end. */
  function UserFront(uid: nat, name: Option<string>): string {
    match name case Some(n) => "user " + n + " (uid" case None => "uid"
  }

  lemma UserLabel(uid: nat, name: Option<string>)
    ensures Label(ByUser(uid, name)) == UserFront(uid, name) + " " + PrintNat(uid) + (if name.Some? then ")" else "")
  {
    hide PrintNat;
    match name
    case Some(n) => assert Label(ByUser(uid, name)) == "user " + n + (" (uid" + " ") + PrintNat(uid) + ")";
    case None => assert "uid " == "uid" + " ";
  }

  lemma UserLabels(u: nat, m: Option<string>, v: nat, n: Option<string>)
    requires Label(ByUser(u, m)) == Label(ByUser(v, n))
    ensures u == v
  {
    hide PrintNat, Label, UserFront;
    UserLabel(u, m);
    UserLabel(v, n);
    var x, y := UserFront(u, m) + " " + PrintNat(u), UserFront(v, n) + " " + PrintNat(v);
    LastOfNumber(u, UserFront(u, m) + " ");
    LastOfNumber(v, UserFront(v, n) + " ");
    assert x + "" == x && y + "" == y;
    assert (x + ")")[..|x|] == x && (y + ")")[..|y|] == y;
    assert (x + ")")[|x|] == ')' && (y + ")")[|y|] == ')';
    if m.Some? == n.Some? {
      LastNumber(UserFront(u, m), u, UserFront(v, n), v);
    }
  }

  lemma LastOfNumber(n: nat, front: string)
    ensures var s := front + PrintNat(n); s[|s| - 1] != ')' && s[|s| - 1] != 't'
  {
    hide PrintNat;
    assert PrintNat(n)[|PrintNat(n)| - 1] in PrintNat(n);
  }

  lemma ForwardLabels(x: string, y: string)
    requires Label(Forwarded(x)) == Label(Forwarded(y))
    ensures x == y
  {
    var tail := ", forwarded through this host";
    assert (x + tail)[..|x|] == x && (y + tail)[..|y|] == y;
  }

  lemma LabelEnds(c: Culprit)
    ensures Label(c) != ""
    ensures var last := Label(c)[|Label(c)| - 1];
            match c
            case ByBox(_) => last == ')' && Label(c)[0] == 'c'
            case ByUser(_, _) => last != 't' && Label(c)[0] == 'u'
            case Forwarded(_) => last == 't' && |Label(c)| > 28
            case Unknown => last == 't' && |Label(c)| < 28
  {
    hide PrintNat, JoinWith;
    if c.ByUser? {
      UserLabel(c.uid, c.name);
      LastOfNumber(c.uid, UserFront(c.uid, c.name) + " ");
    }
  }

  /** Labels tell culprits apart. */
  lemma LabelsTellApart(a: Culprit, b: Culprit)
    requires WellNamed(a) && WellNamed(b) && Label(a) == Label(b)
    ensures SameWho(a, b)
  {
    hide Label;
    LabelEnds(a);
    LabelEnds(b);
    match (a, b)
    case (ByBox(x), ByBox(y)) => BoxLabels(x, y);
    case (ByUser(u, m), ByUser(v, n)) => UserLabels(u, m, v, n);
    case (Forwarded(x), Forwarded(y)) => ForwardLabels(x, y);
    case _ =>
  }

  /** Hits on one destination, no two of the same culprit. */
  ghost predicate AllApart(hits: seq<Hit>, host: Host, destination: string, picks: seq<nat>) {
    && (forall k | 0 <= k < |picks| ::
          picks[k] < |hits| && hits[picks[k]].destination == destination && WellNamed(CulpritOf(hits[picks[k]], host)))
    && (forall j, k | 0 <= j < k < |picks| ::
          !SameWho(CulpritOf(hits[picks[j]], host), CulpritOf(hits[picks[k]], host)))
  }

  lemma {:induction false} SourcesHave(cases: seq<Case>, destination: string, k: nat)
    requires k < |cases| && cases[k].hit.destination == destination
    ensures Label(cases[k].culprit) in Sources(cases, destination)
  {
    hide Label;
    if k > 0 { SourcesHave(cases[1..], destination, k - 1); }
  }

  /** The labels of picked hits: as many as there are picks. */
  lemma {:induction false} PickedLabels(hits: seq<Hit>, host: Host, destination: string, picks: seq<nat>) returns (labels: set<string>)
    requires AllApart(hits, host, destination, picks)
    ensures |labels| == |picks| && labels <= Sources(Cases(hits, host), destination)
    ensures forall x | x in labels :: exists k | 0 <= k < |picks| :: x == Label(CulpritOf(hits[picks[k]], host))
    decreases |picks|
  {
    hide Label, CulpritOf, Cases, Sources, SameWho, WellNamed;
    labels := {};
    if picks != [] {
      var n := |picks| - 1;
      var front := picks[..n];
      var before := PickedLabels(hits, host, destination, front);
      CasesAre(hits, host);
      var name := Label(CulpritOf(hits[picks[n]], host));
      SourcesHave(Cases(hits, host), destination, picks[n]);
      if name in before {
        var k :| 0 <= k < |front| && name == Label(CulpritOf(hits[front[k]], host));
        assert front[k] == picks[k];
        LabelsTellApart(CulpritOf(hits[picks[k]], host), CulpritOf(hits[picks[n]], host));
      }
      labels := before + {name};
      forall x | x in labels
        ensures exists k | 0 <= k < |picks| :: x == Label(CulpritOf(hits[picks[k]], host))
      {
        if x in before {
          var k :| 0 <= k < |front| && x == Label(CulpritOf(hits[front[k]], host));
          assert front[k] == picks[k];
        }
      }
    }
  }

  /** A pass trips when one destination was reached by as many different culprits as the limit, two
      at least. */
  lemma CrowdTrips(s: State, settings: Settings, host: Host, hits: seq<Hit>, now: int, destination: string, picks: seq<nat>)
    requires settings.auto && settings.blocking && AllApart(hits, host, destination, picks)
    requires |picks| >= 2 && |picks| >= settings.breakerMax
    ensures Trips(s, settings, host, Cases(hits, host), now)
  {
    hide Label, CulpritOf, Cases, Sources, SameWho, WellNamed, Candidates, Since;
    var labels := PickedLabels(hits, host, destination, picks);
    var cases := Cases(hits, host);
    LabelsFit(labels, Sources(cases, destination));
    CasesAre(hits, host);
    assert cases[picks[0]].hit.destination == destination;
    assert Crowded(settings, cases, cases[picks[0]].hit.destination);
  }

  lemma {:induction false} LabelsFit(a: set<string>, b: set<string>)
    requires a <= b
    ensures |a| <= |b|
  {
    if a != {} {
      var x :| x in a;
      LabelsFit(a - {x}, b - {x});
    }
  }

  // ---- runs ----

  /** Everything that changes containments: an operator's own containing and releasing, keeping up,
      answering hits, and resetting the breaker. */
  datatype Op =
    | Contain(target: Target, action: Action, now: int)
    | Release(id: nat)
    | Maintain(boxes: Boxes, order: seq<nat>)
    | Respond(settings: Settings, host: Host, hits: seq<Hit>, now: int, order: seq<nat>)
    | ResetBreaker

  ghost predicate Step(s: State, ctx: Ctx, op: Op, t: State) {
    match op
    case Contain(target, action, now) => t == Contained(s, ctx, target, action, false, now)
    case Release(id) => t == Released(s, ctx, id)
    case Maintain(boxes, order) => ListsOpen(s, order) && t == Maintained(s, ctx, boxes, order)
    case Respond(settings, host, hits, now, order) =>
      && ListsOpen(Answered(s, ctx, settings, host, hits, now), order)
      && t == Responded(s, ctx, settings, host, hits, now, order)
    case ResetBreaker => t == s.(tripped := None)
  }

  /** One operation after another, each for real or not. */
  datatype Move = Move(ctx: Ctx, op: Op)

  ghost predicate Runs(states: seq<State>, moves: seq<Move>) {
    && |states| == |moves| + 1
    && forall k | 0 <= k < |moves| :: Step(states[k], moves[k].ctx, moves[k].op, states[k + 1])
  }

  lemma StepKeepsSync(s: State, ctx: Ctx, op: Op, t: State)
    requires InSync(s) && Step(s, ctx, op, t)
    ensures InSync(t)
  {
    hide InSync, Contained, Released, Maintained, Answered;
    match op
    case Contain(target, action, now) => ContainKeepsSync(s, ctx, target, action, false, now);
    case Release(id) => ReleaseKeepsSync(s, ctx, id);
    case Maintain(boxes, order) => MaintainKeepsSync(s, ctx, boxes, order);
    case Respond(settings, host, hits, now, order) =>
      AnsweredKeepsSync(s, ctx, settings, host, hits, now);
      MaintainKeepsSync(Answered(s, ctx, settings, host, hits, now), ctx, host.boxes, order);
    case ResetBreaker => SyncOfRows(s, t);
  }

  /** Over every run, what the firewall cuts off stays exactly what the open containments say. */
  lemma {:induction false} RunKeepsSync(states: seq<State>, moves: seq<Move>)
    requires Runs(states, moves) && InSync(states[0])
    ensures forall k | 0 <= k < |states| :: InSync(states[k])
    decreases |moves|
  {
    hide InSync, Step;
    if moves != [] {
      var n := |moves| - 1;
      RunKeepsSync(states[..n + 1], moves[..n]);
      assert states[..n + 1][n] == states[n];
      assert Step(states[n], moves[n].ctx, moves[n].op, states[n + 1]);
      StepKeepsSync(states[n], moves[n].ctx, moves[n].op, states[n + 1]);
      forall k | 0 <= k < |states|
        ensures InSync(states[k])
      {
        if k <= n { assert states[..n + 1][k] == states[k]; }
      }
    }
  }

  // ---- the limit over a run ----

  /** The automatic containments dated within an hour of `from`, whenever they were opened. */
  function AutomaticIn(s: State, from: int): set<nat> {
    set id | id in s.rows && s.rows[id].automatic && from <= s.rows[id].createdAt <= from + HOUR
  }

  /** Rows whose dates and origins are kept, with none automatic among the new. */
  ghost predicate OpensNone(s: State, t: State) {
    && s.rows.Keys <= t.rows.Keys
    && (forall id | id in s.rows ::
          t.rows[id].automatic == s.rows[id].automatic && t.rows[id].createdAt == s.rows[id].createdAt)
    && (forall id | id in t.rows && id !in s.rows :: !t.rows[id].automatic)
  }

  lemma KeptUpOpensNone(s: State, ctx: Ctx, boxes: Boxes, id: nat, was: Row)
    requires id in s.rows
    ensures var t := KeptUp(s, ctx, boxes, id, was);
            OpensNone(s, t) && t.rows.Keys == s.rows.Keys && t.tripped == s.tripped && t.next == s.next
  {
    hide FindBox, Elsewhere, Elements;
  }

  lemma {:induction false} KeptAllOpensNone(s: State, ctx: Ctx, boxes: Boxes, listed: map<nat, Row>, order: seq<nat>)
    requires forall id | id in order :: id in s.rows && id in listed
    ensures var t := KeptAll(s, ctx, boxes, listed, order);
            OpensNone(s, t) && t.tripped == s.tripped && t.next == s.next
    decreases |order|
  {
    hide KeptUp, OpensNone;
    if order == [] {
      SameRowsOpenNone(s, s);
    } else {
      var next := KeptUp(s, ctx, boxes, order[0], listed[order[0]]);
      KeptUpOpensNone(s, ctx, boxes, order[0], listed[order[0]]);
      assert forall id | id in order[1..] :: id in order;
      KeptAllOpensNone(next, ctx, boxes, listed, order[1..]);
      OpensNoneTwice(s, next, KeptAll(s, ctx, boxes, listed, order));
    }
  }

  lemma MaintainOpensNone(s: State, ctx: Ctx, boxes: Boxes, order: seq<nat>)
    requires ListsOpen(s, order)
    ensures var t := Maintained(s, ctx, boxes, order);
            OpensNone(s, t) && t.tripped == s.tripped && t.next == s.next
  {
    hide KeptAll;
    if ctx.forReal { KeptAllOpensNone(s, ctx, boxes, s.rows, order); }
  }

  lemma ContainByHandOpensNone(s: State, ctx: Ctx, target: Target, action: Action, now: int)
    requires Sane(s)
    ensures var t := Contained(s, ctx, target, action, false, now);
            OpensNone(s, t) && t.tripped == s.tripped
  {
    hide AppliesTo, OpenOf;
  }

  lemma ReleaseOpensNone(s: State, ctx: Ctx, id: nat)
    ensures var t := Released(s, ctx, id);
            OpensNone(s, t) && t.tripped == s.tripped
  {
    hide Elsewhere;
  }

  /** Every hour holds no more than the limit, or just what it held before the run. */
  ghost predicate Within(first: State, s: State, max: nat) {
    forall from: int :: |AutomaticIn(s, from)| <= max || AutomaticIn(s, from) == AutomaticIn(first, from)
  }

  lemma NoneOpenedKeepsLimit(first: State, s: State, t: State, max: nat)
    requires Within(first, s, max) && OpensNone(s, t)
    ensures Within(first, t, max)
  {
    forall from: int
      ensures AutomaticIn(t, from) == AutomaticIn(s, from)
    {
    }
  }

  /** A pass that opens something within its limit keeps every hour within it: an hour with the
      pass in it starts no earlier than the hour the pass looked at, and whatever else is dated in
      it was counted. */
  lemma PassKeepsLimit(first: State, s: State, t: State, now: int, max: nat)
    requires Within(first, s, max) && OpensAt(s, t, now)
    requires t.rows != s.rows ==> |Since(t, now - HOUR)| <= max
    ensures Within(first, t, max)
  {
    forall from: int
      ensures |AutomaticIn(t, from)| <= max || AutomaticIn(t, from) == AutomaticIn(first, from)
    {
      if t.rows != s.rows && from <= now <= from + HOUR {
        SetSize(AutomaticIn(t, from), Since(t, now - HOUR));
      } else {
        assert AutomaticIn(t, from) == AutomaticIn(s, from);
      }
    }
  }

  predicate LimitOf(op: Op, max: nat) {
    op.Respond? ==> op.settings.breakerMax == max
  }

  lemma StepKeepsLimit(first: State, s: State, ctx: Ctx, op: Op, t: State, max: nat)
    requires InSync(s) && Step(s, ctx, op, t) && Within(first, s, max) && LimitOf(op, max)
    ensures Within(first, t, max)
  {
    hide Contained, Released, Maintained, Answered, Within, OneEach, AddressesMatch, UidsMatch, Sane, OpensNone, OpensAt, Since;
    match op
    case Contain(target, action, now) =>
      ContainByHandOpensNone(s, ctx, target, action, now);
      NoneOpenedKeepsLimit(first, s, t, max);
    case Release(id) =>
      ReleaseOpensNone(s, ctx, id);
      NoneOpenedKeepsLimit(first, s, t, max);
    case Maintain(boxes, order) =>
      MaintainOpensNone(s, ctx, boxes, order);
      NoneOpenedKeepsLimit(first, s, t, max);
    case Respond(settings, host, hits, now, order) =>
      var a := Answered(s, ctx, settings, host, hits, now);
      PassObeysBreaker(s, ctx, settings, host, hits, now);
      PassKeepsLimit(first, s, a, now, max);
      MaintainOpensNone(a, ctx, host.boxes, order);
      NoneOpenedKeepsLimit(first, a, t, max);
    case ResetBreaker => SameRowsOpenNone(s, t); NoneOpenedKeepsLimit(first, s, t, max);
  }

  lemma SameRowsOpenNone(s: State, t: State)
    requires t.rows == s.rows
    ensures OpensNone(s, t)
  {
  }

  lemma WithinAtFirst(s: State, max: nat)
    ensures Within(s, s, max)
  {
  }

  /** Those of them that were opened since a run began. */
  function OpenedIn(first: State, s: State, from: int): set<nat> {
    set id | id in AutomaticIn(s, from) && id !in first.rows
  }

  ghost predicate OpenedWithin(first: State, s: State, max: nat) {
    forall from: int :: |OpenedIn(first, s, from)| <= max
  }

  lemma WithinLimitsOpened(first: State, s: State, max: nat)
    requires Within(first, s, max)
    ensures OpenedWithin(first, s, max)
  {
    forall from: int
      ensures |OpenedIn(first, s, from)| <= max
    {
      if AutomaticIn(s, from) == AutomaticIn(first, from) {
        assert OpenedIn(first, s, from) == {};
      } else {
        SetSize(OpenedIn(first, s, from), AutomaticIn(s, from));
      }
    }
  }

  /** Over every run with one limit, however its passes are timed and the breaker is reset: no hour
      holds more automatic containments than the limit, those from before the run counted too,
      unless it already did and nothing was added to it. So no hour holds more opened in the run. */
  lemma {:induction false} RunKeepsLimit(states: seq<State>, moves: seq<Move>, max: nat)
    requires Runs(states, moves) && InSync(states[0])
    requires forall k | 0 <= k < |moves| :: LimitOf(moves[k].op, max)
    ensures Within(states[0], states[|states| - 1], max)
    ensures OpenedWithin(states[0], states[|states| - 1], max)
    decreases |moves|
  {
    hide InSync, Step, Within, LimitOf, OpenedWithin;
    if moves == [] {
      WithinAtFirst(states[0], max);
    } else {
      var n := |moves| - 1;
      assert states[..n + 1][n] == states[n];
      RunKeepsLimit(states[..n + 1], moves[..n], max);
      RunKeepsSync(states, moves);
      assert Step(states[n], moves[n].ctx, moves[n].op, states[n + 1]);
      assert LimitOf(moves[n].op, max);
      StepKeepsLimit(states[0], states[n], moves[n].ctx, moves[n].op, states[n + 1], max);
    }
    WithinLimitsOpened(states[0], states[|states| - 1], max);
  }

  // ---- a tripped breaker stays tripped ----

  lemma StepStaysTripped(s: State, ctx: Ctx, op: Op, t: State)
    requires InSync(s) && Step(s, ctx, op, t) && s.tripped.Some? && op != ResetBreaker
    ensures t.tripped.Some? && OpensNone(s, t)
  {
    hide Contained, Released, Maintained, Answered, OneEach, AddressesMatch, UidsMatch, Sane, Since;
    match op
    case Contain(target, action, now) => ContainByHandOpensNone(s, ctx, target, action, now);
    case Release(id) => ReleaseOpensNone(s, ctx, id);
    case Maintain(boxes, order) => MaintainOpensNone(s, ctx, boxes, order);
    case Respond(settings, host, hits, now, order) =>
      var a := Answered(s, ctx, settings, host, hits, now);
      PassObeysBreaker(s, ctx, settings, host, hits, now);
      MaintainOpensNone(a, ctx, host.boxes, order);
    case ResetBreaker =>
  }

  lemma OpensNoneTwice(s: State, t: State, u: State)
    requires OpensNone(s, t) && OpensNone(t, u)
    ensures OpensNone(s, u)
  {
  }

  /** Once tripped, nothing is contained automatically until the breaker is reset. */
  lemma {:induction false} TrippedUntilReset(states: seq<State>, moves: seq<Move>)
    requires Runs(states, moves) && InSync(states[0]) && states[0].tripped.Some?
    requires forall k | 0 <= k < |moves| :: moves[k].op != ResetBreaker
    ensures states[|states| - 1].tripped.Some? && OpensNone(states[0], states[|states| - 1])
    decreases |moves|
  {
    hide InSync, Step, OpensNone;
    if moves == [] {
      SameRowsOpenNone(states[0], states[0]);
    } else {
      var n := |moves| - 1;
      assert states[..n + 1][n] == states[n];
      TrippedUntilReset(states[..n + 1], moves[..n]);
      RunKeepsSync(states, moves);
      assert Step(states[n], moves[n].ctx, moves[n].op, states[n + 1]);
      StepStaysTripped(states[n], moves[n].ctx, moves[n].op, states[n + 1]);
      OpensNoneTwice(states[0], states[n], states[n + 1]);
    }
  }

  /** A pass that trips the breaker for real leaves it tripped and opens nothing. */
  lemma TrippingOpensNone(s: State, ctx: Ctx, settings: Settings, host: Host, hits: seq<Hit>, now: int, order: seq<nat>)
    requires InSync(s) && Trips(s, settings, host, Cases(hits, host), now)
    requires ListsOpen(Answered(s, ctx, settings, host, hits, now), order)
    ensures var t := Responded(s, ctx, settings, host, hits, now, order);
            OpensNone(s, t) && (ctx.forReal ==> t.tripped == Some(now))
  {
    hide Trips, Answered, Maintained, Cases, Since;
    var a := Answered(s, ctx, settings, host, hits, now);
    PassObeysBreaker(s, ctx, settings, host, hits, now);
    MaintainOpensNone(a, ctx, host.boxes, order);
    SameRowsOpenNone(s, a);
    OpensNoneTwice(s, a, Maintained(a, ctx, host.boxes, order));
  }

  // ---- root is never contained ----

  predicate RootFree(s: State) {
    forall id | id in s.rows :: s.rows[id].subject != ByUid(0)
  }

  lemma ContainKeepsRootFree(s: State, ctx: Ctx, target: Target, action: Action, automatic: bool, now: int)
    requires RootFree(s)
    ensures RootFree(Contained(s, ctx, target, action, automatic, now))
  {
    hide AppliesTo, OpenOf;
  }

  lemma {:induction false} ContainEachKeepsRootFree(s: State, ctx: Ctx, settings: Settings, targets: seq<Target>, now: int)
    requires RootFree(s)
    ensures RootFree(ContainEach(s, ctx, settings, targets, now))
    decreases |targets|
  {
    hide RootFree, Contained;
    if targets != [] {
      ContainKeepsRootFree(s, ctx, targets[0], ActionFor(settings, targets[0]), true, now);
      ContainEachKeepsRootFree(Contained(s, ctx, targets[0], ActionFor(settings, targets[0]), true, now), ctx, settings, targets[1..], now);
    }
  }

  lemma MaintainKeepsRootFree(s: State, ctx: Ctx, boxes: Boxes, order: seq<nat>)
    requires RootFree(s) && ListsOpen(s, order)
    ensures RootFree(Maintained(s, ctx, boxes, order))
  {
    hide Maintained;
    MaintainOnlyFollows(s, ctx, boxes, order);
  }

  lemma StepKeepsRootFree(s: State, ctx: Ctx, op: Op, t: State)
    requires RootFree(s) && Step(s, ctx, op, t)
    ensures RootFree(t)
  {
    hide Contained, Maintained, Cases, Trips, Wanting;
    match op
    case Contain(target, action, now) => ContainKeepsRootFree(s, ctx, target, action, false, now);
    case Release(id) =>
    case Maintain(boxes, order) => MaintainKeepsRootFree(s, ctx, boxes, order);
    case Respond(settings, host, hits, now, order) =>
      ContainEachKeepsRootFree(s, ctx, settings, Wanting(s, settings, host, Cases(hits, host)), now);
      MaintainKeepsRootFree(Answered(s, ctx, settings, host, hits, now), ctx, host.boxes, order);
    case ResetBreaker =>
  }

  /** Over every run, whoever asks and whatever is hit, root is never contained. */
  lemma {:induction false} RootIsNeverContained(states: seq<State>, moves: seq<Move>)
    requires Runs(states, moves) && RootFree(states[0])
    ensures forall k | 0 <= k < |states| :: RootFree(states[k])
    decreases |moves|
  {
    hide Step, RootFree;
    if moves != [] {
      var n := |moves| - 1;
      RootIsNeverContained(states[..n + 1], moves[..n]);
      assert states[..n + 1][n] == states[n];
      assert Step(states[n], moves[n].ctx, moves[n].op, states[n + 1]);
      StepKeepsRootFree(states[n], moves[n].ctx, moves[n].op, states[n + 1]);
      forall k | 0 <= k < |states|
        ensures RootFree(states[k])
      {
        if k <= n { assert states[..n + 1][k] == states[k]; }
      }
    }
  }
}
