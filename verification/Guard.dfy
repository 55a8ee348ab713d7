/** The containments of a host, changed in place (`src/contain.rs`). */
module Guard {
  import opened Text
  import opened Containment
  import opened Breaker

  function AnswerTo(s: State, ctx: Ctx, target: Target, action: Action): Answer {
    match Refused(target, action)
    case Some(why) => why
    case None =>
      if !ctx.forReal then Would
      else if SubjectOf(target).Some? && OpenOf(s, SubjectOf(target).value) then Already
      else Done
  }

  lemma ContainedStep(s: State, ctx: Ctx, target: Target, action: Action, automatic: bool, now: int)
    requires Refused(target, action).None? && ctx.forReal
    ensures SubjectOf(target).Some?
    ensures Contained(s, ctx, target, action, automatic, now)
         == if OpenOf(s, SubjectOf(target).value) then s
            else Acted(CutOff(Opened(s, target, SubjectOf(target).value, action, automatic, now), target), ctx, target, action)
  {
    hide AppliesTo, OpenOf;
  }

  lemma {:induction false} SourcesSnoc(cases: seq<Case>, c: Case, destination: string)
    ensures Sources(cases + [c], destination)
         == Sources(cases, destination) + (if c.hit.destination == destination then {Label(c.culprit)} else {})
  {
    hide Label;
    if cases == [] {
      assert [] + [c] == [c] && [c][1..] == [];
    } else {
      assert (cases + [c])[1..] == cases[1..] + [c];
      SourcesSnoc(cases[1..], c, destination);
    }
  }

  lemma {:induction false} NoSources(cases: seq<Case>, destination: string)
    requires forall k | 0 <= k < |cases| :: cases[k].hit.destination != destination
    ensures Sources(cases, destination) == {}
  {
    hide Label;
    if cases != [] { NoSources(cases[1..], destination); }
  }

  /** Who reached each destination. */
  ghost predicate Tallied(tally: map<string, set<string>>, cases: seq<Case>) {
    && (forall d | d in tally :: tally[d] == Sources(cases, d))
    && (forall k | 0 <= k < |cases| :: cases[k].hit.destination in tally)
    && (forall d | d in tally :: exists k | 0 <= k < |cases| :: cases[k].hit.destination == d)
  }

  lemma TallyStep(tally: map<string, set<string>>, cases: seq<Case>, c: Case)
    requires Tallied(tally, cases)
    ensures var d := c.hit.destination;
            var was := if d in tally then tally[d] else {};
            Tallied(tally[d := was + {Label(c.culprit)}], cases + [c])
  {
    hide Label, Sources;
    var d := c.hit.destination;
    var was := if d in tally then tally[d] else {};
    var more := cases + [c];
    forall other | other == d || other in tally
      ensures Sources(more, other) == if other == d then was + {Label(c.culprit)} else tally[other]
      ensures exists k | 0 <= k < |more| :: more[k].hit.destination == other
    {
      SourcesSnoc(cases, c, other);
      if other == d {
        assert more[|cases|].hit.destination == other;
        if d !in tally { NoSources(cases, d); }
      } else {
        var k :| 0 <= k < |cases| && cases[k].hit.destination == other;
        assert more[k].hit.destination == other;
      }
    }
  }

  lemma NothingTallied()
    ensures Tallied(map[], [])
  {
  }

  /** The destinations reached from too many sources in a pass. */
  method CrowdedDestinations(settings: Settings, cases: seq<Case>) returns (crowded: set<string>)
    ensures forall k | 0 <= k < |cases| ::
              cases[k].hit.destination in crowded <==> Crowded(settings, cases, cases[k].hit.destination)
    ensures crowded == {} <==> !AnyCrowded(settings, cases)
  {
    hide Tallied, Sources, Label;
    var tally: map<string, set<string>> := map[];
    NothingTallied();
    for k := 0 to |cases|
      invariant Tallied(tally, cases[..k])
    {
      var d := cases[k].hit.destination;
      TallyStep(tally, cases[..k], cases[k]);
      assert cases[..k + 1] == cases[..k] + [cases[k]];
      tally := tally[d := (if d in tally then tally[d] else {}) + {Label(cases[k].culprit)}];
    }
    assert cases[..|cases|] == cases;
    crowded := set d | d in tally && |tally[d]| >= CrowdLimit(settings);
    CrowdedIs(settings, cases, tally, crowded);
  }

  lemma CrowdedIs(settings: Settings, cases: seq<Case>, tally: map<string, set<string>>, crowded: set<string>)
    requires Tallied(tally, cases) && crowded == set d | d in tally && |tally[d]| >= CrowdLimit(settings)
    ensures forall k | 0 <= k < |cases| ::
              cases[k].hit.destination in crowded <==> Crowded(settings, cases, cases[k].hit.destination)
    ensures crowded == {} <==> !AnyCrowded(settings, cases)
  {
    hide Sources, Label, CrowdLimit;
    if crowded != {} {
      var d :| d in crowded;
      var k :| 0 <= k < |cases| && cases[k].hit.destination == d;
      assert Crowded(settings, cases, cases[k].hit.destination);
    }
  }

  class Containments {
    var rows: map<nat, Row>
    var next: nat
    var addresses: set<string>
    var uids: set<nat>
    var paused: set<string>
    var tripped: Option<int>

    /** A host with nothing contained. */
    constructor ()
      ensures Now() == State(map[], 0, {}, {}, {}, None) && InSync(Now())
    {
      rows, next, addresses, uids, paused, tripped := map[], 0, {}, {}, {}, None;
    }

    function Now(): State
      reads this
    {
      State(rows, next, addresses, uids, paused, tripped)
    }

    method AddAddresses(more: seq<string>)
      modifies this`addresses
      ensures addresses == old(addresses) + Elements(more)
    {
      for k := 0 to |more|
        invariant addresses == old(addresses) + Elements(more[..k])
      {
        assert more[..k + 1] == more[..k] + [more[k]];
        addresses := addresses + {more[k]};
      }
      assert more[..|more|] == more;
    }

    /** Contains a target: records it, cuts it off and acts on it, unless it is refused, already
        contained or only asked about. */
    method Contain(ctx: Ctx, target: Target, action: Action, automatic: bool, now: int) returns (answer: Answer)
      modifies this
      ensures Now() == Contained(old(Now()), ctx, target, action, automatic, now)
      ensures answer == AnswerTo(old(Now()), ctx, target, action)
      ensures old(InSync(Now())) ==> InSync(Now())
    {
      hide InSync, Refused, OpenOf, Contained, Elements;
      ContainKeeps(Now(), ctx, target, action, automatic, now);
      if Refused(target, action).Some? {
        return Refused(target, action).value;
      }
      if !ctx.forReal {
        return Would;
      }
      ContainedStep(Now(), ctx, target, action, automatic, now);
      var subject := SubjectOf(target).value;
      if OpenOf(Now(), subject) {
        return Already;
      }
      rows := rows[next := Row(subject, AddressesOf(target), action, automatic, now, false)];
      next := next + 1;
      match target {
        case TheUser(uid, _) => uids := uids + {uid};
        case _ => AddAddresses(AddressesOf(target));
      }
      if target.TheContainer? && action == Pause && !target.box.paused && ctx.runtime {
        paused := paused + {target.box.id};
      }
      return Done;
    }

    /** Releases an open containment; its addresses stay cut off where another one holds them. */
    method Release(ctx: Ctx, id: nat) returns (answer: Answer)
      modifies this
      ensures Now() == Released(old(Now()), ctx, id)
      ensures answer == if !old(IsOpen(Now(), id)) then NoSuchContainment else if !ctx.forReal then Would else Done
      ensures old(InSync(Now())) ==> InSync(Now())
    {
      hide InSync, Elsewhere;
      ReleaseKeeps(Now(), ctx, id);
      if !IsOpen(Now(), id) {
        return NoSuchContainment;
      }
      if !ctx.forReal {
        return Would;
      }
      var row := rows[id];
      ghost var was := Now();
      match row.subject {
        case ByUid(uid) => uids := uids - {uid};
        case _ =>
          for k := 0 to |row.addresses|
            invariant Now() == was.(addresses := was.addresses - NotElsewhere(was, id, row.addresses[..k]))
          {
            NotElsewhereStep(was, id, row.addresses, k);
            ElsewhereByRows(was, Now(), id, row.addresses[k]);
            if !Elsewhere(Now(), id, row.addresses[k]) {
              addresses := addresses - {row.addresses[k]};
            }
          }
          assert row.addresses[..|row.addresses|] == row.addresses;
      }
      if row.subject.ById? && row.action == Pause && ctx.runtime {
        paused := paused - {row.subject.id};
      }
      rows := rows[id := row.(released := true)];
      return Done;
    }

    /** The open containments, each once. */
    method OpenContainments() returns (order: seq<nat>)
      requires Sane(Now())
      ensures ListsOpen(Now(), order)
    {
      order := [];
      for id := 0 to next
        invariant forall k: nat :: k in order <==> k < id && IsOpen(Now(), k)
        invariant forall j, k | 0 <= j < k < |order| :: order[j] != order[k]
      {
        if IsOpen(Now(), id) {
          order := order + [id];
        }
      }
    }

    /** A container's containment kept up, as it was listed. */
    method MaintainContainer(ctx: Ctx, boxes: Boxes, id: nat, was: Row)
      requires id in rows && was.subject.ById?
      modifies this
      ensures Now() == KeptContainer(old(Now()), ctx, boxes, id, was)
    {
      hide Elsewhere, FindBox, Elements;
      if boxes.None? {
        AddAddresses(was.addresses);
        return;
      }
      var found := FindBox(boxes.value, was.subject.id);
      if found.None? {
        return;
      }
      var current, known := found.value.addresses, was.addresses;
      if multiset(current) != multiset(known) && current != [] {
        ghost var before := Now();
        for k := 0 to |known|
          invariant Now() == before.(addresses := before.addresses - LeftBehind(before, id, known[..k], current))
        {
          LeftBehindStep(before, id, known, k, current);
          ElsewhereByRows(before, Now(), id, known[k]);
          if known[k] !in current && !Elsewhere(Now(), id, known[k]) {
            addresses := addresses - {known[k]};
          }
        }
        assert known[..|known|] == known;
        rows := rows[id := rows[id].(addresses := current)];
      }
      AddAddresses(current);
      if was.action == Pause && found.value.running && !found.value.paused && ctx.runtime {
        paused := paused + {found.value.id};
      }
    }

    /** One containment kept up, as it was listed. */
    method KeepUp(ctx: Ctx, boxes: Boxes, id: nat, was: Row)
      requires id in rows
      modifies this
      ensures Now() == KeptUp(old(Now()), ctx, boxes, id, was)
    {
      hide KeptContainer, Elements;
      match was.subject {
        case ByUid(uid) => uids := uids + {uid};
        case ByIp(_) => AddAddresses(was.addresses);
        case ById(_) => MaintainContainer(ctx, boxes, id, was);
      }
    }

    /** Keeps every open containment up, from one listing of them. */
    method Maintain(ctx: Ctx, boxes: Boxes) returns (order: seq<nat>)
      requires Sane(Now())
      modifies this
      ensures old(ListsOpen(Now(), order))
      ensures Now() == Maintained(old(Now()), ctx, boxes, order)
      ensures old(InSync(Now())) ==> InSync(Now())
    {
      hide InSync, Sane, KeptUp, KeptAll, ListsOpen;
      ghost var before := Now();
      order := OpenContainments();
      if InSync(before) { MaintainKeepsSync(before, ctx, boxes, order); }
      if !ctx.forReal {
        return;
      }
      var listed := rows;
      ListedIsOpen(before, order);
      assert order[0..] == order;
      for k := 0 to |order|
        invariant rows.Keys == listed.Keys && (forall id | id in order :: id in listed)
        invariant forall id | id in order[k..] :: id in order
        invariant KeptAll(Now(), ctx, boxes, listed, order[k..]) == KeptAll(before, ctx, boxes, listed, order)
      {
        KeptAllStep(Now(), ctx, boxes, listed, order, k);
        KeepUp(ctx, boxes, order[k], listed[order[k]]);
      }
      assert order[|order|..] == [];
      NothingKept(Now(), ctx, boxes, listed);
    }

    /** Answers every hit of a pass: contains who is behind it, where automatic containment and the
        breaker allow it, then keeps every open containment up. */
    method Respond(ctx: Ctx, settings: Settings, view: Host, hits: seq<Hit>, now: int)
      returns (trips: bool, order: seq<nat>)
      requires Sane(Now())
      modifies this
      ensures old(ListsOpen(Answered(Now(), ctx, settings, view, hits, now), order))
      ensures trips == old(Trips(Now(), settings, view, Cases(hits, view), now))
      ensures Now() == Responded(old(Now()), ctx, settings, view, hits, now, order)
      ensures old(InSync(Now())) ==> InSync(Now())
    {
      hide InSync, Sane, Crowded, Label, Since, Contained, Maintained, KeptAll, Candidates, AnyCrowded, Wanting, Trips;
      ghost var before := Now();
      var cases: seq<Case> := [];
      for k := 0 to |hits|
        invariant cases + Cases(hits[k..], view) == Cases(hits, view)
      {
        assert hits[k..][1..] == hits[k + 1..];
        cases := cases + [Case(hits[k], CulpritOf(hits[k], view))];
      }
      assert hits[|hits|..] == [];
      assert cases == Cases(hits, view) by { NoCases(view); assert cases + [] == cases; }
      var crowded := CrowdedDestinations(settings, cases);
      var candidates := WantedTargets(settings, view, cases, crowded);
      trips := Automatic(settings) && (crowded != {} || |Since(Now(), now - HOUR)| + |candidates| > settings.breakerMax);
      TripsWhen(before, settings, view, cases, now, candidates, crowded);
      PassKeeps(before, ctx, settings, view, hits, now);
      var stopped := trips || tripped.Some?;
      if trips && ctx.forReal {
        tripped := Some(now);
      }
      if !stopped {
        for k := 0 to |candidates|
          invariant ContainEach(Now(), ctx, settings, candidates[k..], now) == ContainEach(before, ctx, settings, candidates, now)
        {
          ContainEachStep(Now(), ctx, settings, candidates, k, now);
          var answer := Contain(ctx, candidates[k], ActionFor(settings, candidates[k]), true, now);
        }
        assert candidates[|candidates|..] == [];
        NothingWanted(Now(), ctx, settings, now);
      }
      assert Now() == Answered(before, ctx, settings, view, hits, now);
      order := Maintain(ctx, view.boxes);
    }

    /** The targets to contain, each once, in the order of the hits. */
    method WantedTargets(settings: Settings, view: Host, cases: seq<Case>, crowded: set<string>)
      returns (targets: seq<Target>)
      requires forall k | 0 <= k < |cases| ::
                 cases[k].hit.destination in crowded <==> Crowded(settings, cases, cases[k].hit.destination)
      ensures targets == Wanting(Now(), settings, view, cases)
    {
      hide Crowded, OpenOf, MayContain, Automatic;
      targets := [];
      if !Automatic(settings) {
        return;
      }
      for k := 0 to |cases|
        invariant targets == Candidates(Now(), settings, view, cases, k)
      {
        var c := cases[k];
        var target := CulpritTarget(c.culprit);
        if target.Some? && SubjectOf(target.value).Some? && !OpenOf(Now(), SubjectOf(target.value).value)
           && c.hit.may && c.hit.destination !in crowded && MayContain(c.culprit, settings, view)
           && target.value !in targets {
          targets := targets + [target.value];
        }
      }
    }

    /** Re-arms the breaker. */
    method ResetBreaker()
      modifies this`tripped
      ensures Now() == old(Now()).(tripped := None)
      ensures old(InSync(Now())) ==> InSync(Now())
    {
      ResetKeeps(Now());
      tripped := None;
    }
  }

  lemma ContainKeeps(s: State, ctx: Ctx, target: Target, action: Action, automatic: bool, now: int)
    ensures InSync(s) ==> InSync(Contained(s, ctx, target, action, automatic, now))
    ensures Refused(target, action).Some? || !ctx.forReal ==> Contained(s, ctx, target, action, automatic, now) == s
  {
    hide InSync, Refused;
    if InSync(s) { ContainKeepsSync(s, ctx, target, action, automatic, now); }
  }

  lemma ReleaseKeeps(s: State, ctx: Ctx, id: nat)
    ensures InSync(s) ==> InSync(Released(s, ctx, id))
  {
    hide InSync, Released;
    if InSync(s) { ReleaseKeepsSync(s, ctx, id); }
  }

  lemma ResetKeeps(s: State)
    ensures InSync(s) ==> InSync(s.(tripped := None))
  {
    hide InSync;
    if InSync(s) { SyncOfRows(s, s.(tripped := None)); }
  }

  function NotElsewhere(s: State, id: nat, held: seq<string>): set<string> {
    set a | a in held && !Elsewhere(s, id, a)
  }

  lemma NotElsewhereStep(s: State, id: nat, held: seq<string>, k: nat)
    requires k < |held|
    ensures NotElsewhere(s, id, held[..k + 1])
         == NotElsewhere(s, id, held[..k]) + (if Elsewhere(s, id, held[k]) then {} else {held[k]})
  {
    hide Elsewhere;
    assert held[..k + 1] == held[..k] + [held[k]];
  }

  function LeftBehind(s: State, id: nat, known: seq<string>, current: seq<string>): set<string> {
    set a | a in known && a !in current && !Elsewhere(s, id, a)
  }

  lemma LeftBehindStep(s: State, id: nat, known: seq<string>, k: nat, current: seq<string>)
    requires k < |known|
    ensures LeftBehind(s, id, known[..k + 1], current)
         == LeftBehind(s, id, known[..k], current)
            + (if known[k] in current || Elsewhere(s, id, known[k]) then {} else {known[k]})
  {
    hide Elsewhere;
    assert known[..k + 1] == known[..k] + [known[k]];
  }

  lemma ElsewhereByRows(s: State, t: State, id: nat, a: string)
    requires t.rows == s.rows
    ensures Elsewhere(t, id, a) == Elsewhere(s, id, a)
  {
    assert forall k :: Holds(t, k, a) == Holds(s, k, a);
  }

  lemma KeptAllStep(s: State, ctx: Ctx, boxes: Boxes, listed: map<nat, Row>, order: seq<nat>, k: nat)
    requires k < |order| && forall id | id in order :: id in s.rows && id in listed
    ensures forall id | id in order[k + 1..] :: id in order
    ensures KeptAll(s, ctx, boxes, listed, order[k..])
         == KeptAll(KeptUp(s, ctx, boxes, order[k], listed[order[k]]), ctx, boxes, listed, order[k + 1..])
    ensures KeptUp(s, ctx, boxes, order[k], listed[order[k]]).rows.Keys == s.rows.Keys
  {
    hide KeptContainer;
    assert order[k..][1..] == order[k + 1..];
    KeepsKeys(s, ctx, boxes, order[k], listed[order[k]]);
  }

  lemma ListedIsOpen(s: State, order: seq<nat>)
    requires ListsOpen(s, order)
    ensures forall id | id in order :: id in s.rows
  {
    forall id | id in order ensures id in s.rows { assert IsOpen(s, id); }
  }

  lemma NothingKept(s: State, ctx: Ctx, boxes: Boxes, listed: map<nat, Row>)
    ensures KeptAll(s, ctx, boxes, listed, []) == s
  {
  }

  lemma KeepsKeys(s: State, ctx: Ctx, boxes: Boxes, id: nat, was: Row)
    requires id in s.rows
    ensures KeptUp(s, ctx, boxes, id, was).rows.Keys == s.rows.Keys
  {
    hide FindBox, Elements, Elsewhere;
  }

  lemma TripsWhen(s: State, settings: Settings, view: Host, cases: seq<Case>, now: int, candidates: seq<Target>,
                  crowded: set<string>)
    requires candidates == Wanting(s, settings, view, cases) && (crowded == {} <==> !AnyCrowded(settings, cases))
    ensures Trips(s, settings, view, cases, now)
       <==> Automatic(settings) && (crowded != {} || |Since(s, now - HOUR)| + |candidates| > settings.breakerMax)
  {
    hide AnyCrowded, Candidates, Since;
  }

  lemma PassKeeps(s: State, ctx: Ctx, settings: Settings, view: Host, hits: seq<Hit>, now: int)
    requires Sane(s)
    ensures Sane(Answered(s, ctx, settings, view, hits, now))
    ensures InSync(s) ==> InSync(Answered(s, ctx, settings, view, hits, now))
  {
    hide InSync, Answered, Since, Trips;
    PassObeysBreaker(s, ctx, settings, view, hits, now);
    if InSync(s) { AnsweredKeepsSync(s, ctx, settings, view, hits, now); }
  }

  lemma ContainEachStep(s: State, ctx: Ctx, settings: Settings, targets: seq<Target>, k: nat, now: int)
    requires k < |targets|
    ensures ContainEach(s, ctx, settings, targets[k..], now)
         == ContainEach(Contained(s, ctx, targets[k], ActionFor(settings, targets[k]), true, now), ctx, settings, targets[k + 1..], now)
  {
    hide Contained;
    assert targets[k..][1..] == targets[k + 1..];
  }

  lemma NoCases(view: Host)
    ensures Cases([], view) == []
  {
  }
}
