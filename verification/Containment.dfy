/** What containing, releasing and keeping up containments does to the host (`src/contain.rs`). */
module Containment {
  import opened Text

  datatype Kind = Container | User | Address

  datatype Action = Isolate | Pause | Stop | Kill

  predicate AppliesTo(action: Action, kind: Kind) {
    match action
    case Isolate => true
    case Kill => kind == User
    case _ => kind == Container
  }

  /** What is contained: a container by id, a user by uid, an address by its canonical text. */
  datatype Subject = ById(id: string) | ByUid(uid: nat) | ByIp(ip: string)

  function KindOf(subject: Subject): Kind {
    match subject
    case ById(_) => Container
    case ByUid(_) => User
    case ByIp(_) => Address
  }

  /** A containment, as recorded. */
  datatype Row = Row(
    subject: Subject, addresses: seq<string>, action: Action, automatic: bool, createdAt: int, released: bool)

  /** A container, as the runtime describes it. */
  datatype Box = Box(id: string, name: string, addresses: seq<string>, running: bool, paused: bool)

  /** An address given to contain: what it parses to, if it does. */
  datatype Ip = Ip(text: string, thisHost: bool)

  datatype Target = TheContainer(box: Box) | TheUser(uid: nat, name: Option<string>) | TheAddress(parsed: Option<Ip>)

  /** The database's containments and breaker, the live firewall's sets, and what is paused. */
  datatype State = State(
    rows: map<nat, Row>, next: nat, addresses: set<string>, uids: set<nat>, paused: set<string>, tripped: Option<int>)

  /** Whether to change the host, and whether there is a container runtime to do it with. */
  datatype Ctx = Ctx(forReal: bool, runtime: bool)

  datatype Answer =
    | NotApplicable | RootRefused | NotAnAddress | ThisHost | NoSuchContainment
    | Would | Already | Done

  // ---- open containments ----

  predicate IsOpen(s: State, id: nat) {
    id in s.rows && !s.rows[id].released
  }

  predicate Opens(s: State, id: nat, subject: Subject) {
    IsOpen(s, id) && s.rows[id].subject == subject
  }

  predicate OpenOf(s: State, subject: Subject) {
    exists id | id in s.rows :: Opens(s, id, subject)
  }

  /** Whether an open containment says to cut an address off. */
  predicate Holds(s: State, id: nat, a: string) {
    IsOpen(s, id) && a in s.rows[id].addresses
  }

  /** Whether an open containment other than `id` has an address. */
  predicate Elsewhere(s: State, id: nat, a: string) {
    exists other | other in s.rows :: other != id && Holds(s, other, a)
  }

  function Elements(addresses: seq<string>): set<string> {
    set a | a in addresses
  }

  // ---- containing ----

  function SubjectOf(target: Target): Option<Subject> {
    match target
    case TheContainer(box) => Some(ById(box.id))
    case TheUser(uid, _) => Some(ByUid(uid))
    case TheAddress(parsed) => (match parsed case Some(ip) => Some(ByIp(ip.text)) case None => None)
  }

  function TargetKind(target: Target): Kind {
    match target
    case TheContainer(_) => Container
    case TheUser(_, _) => User
    case TheAddress(_) => Address
  }

  function AddressesOf(target: Target): seq<string> {
    match target
    case TheContainer(box) => box.addresses
    case TheUser(_, _) => []
    case TheAddress(parsed) => (match parsed case Some(ip) => [ip.text] case None => [])
  }

  /** Why a target cannot be contained so, if it cannot. */
  function Refused(target: Target, action: Action): Option<Answer> {
    if !AppliesTo(action, TargetKind(target)) then Some(NotApplicable)
    else
      match target
      case TheUser(uid, _) => if uid == 0 then Some(RootRefused) else None
      case TheAddress(None) => Some(NotAnAddress)
      case TheAddress(Some(ip)) => if ip.thisHost then Some(ThisHost) else None
      case TheContainer(_) => None
  }

  function Opened(s: State, target: Target, subject: Subject, action: Action, automatic: bool, now: int): State {
    s.(rows := s.rows[s.next := Row(subject, AddressesOf(target), action, automatic, now, false)], next := s.next + 1)
  }

  function CutOff(s: State, target: Target): State {
    match target
    case TheUser(uid, _) => s.(uids := s.uids + {uid})
    case _ => s.(addresses := s.addresses + Elements(AddressesOf(target)))
  }

  function Acted(s: State, ctx: Ctx, target: Target, action: Action): State {
    match target
    case TheContainer(box) =>
      if action == Pause && !box.paused && ctx.runtime then s.(paused := s.paused + {box.id}) else s
    case _ => s
  }

  /** What containing a target comes to. */
  function Contained(s: State, ctx: Ctx, target: Target, action: Action, automatic: bool, now: int): State {
    if Refused(target, action).Some? || !ctx.forReal then s
    else
      match SubjectOf(target)
      case None => s
      case Some(subject) =>
        if OpenOf(s, subject) then s
        else Acted(CutOff(Opened(s, target, subject, action, automatic, now), target), ctx, target, action)
  }

  // ---- releasing ----

  function LetBack(s: State, id: nat): State
    requires id in s.rows
  {
    match s.rows[id].subject
    case ByUid(uid) => s.(uids := s.uids - {uid})
    case _ => s.(addresses := s.addresses - (set a | a in s.rows[id].addresses && !Elsewhere(s, id, a)))
  }

  function Unpaused(s: State, ctx: Ctx, id: nat): State
    requires id in s.rows
  {
    var row := s.rows[id];
    if row.subject.ById? && row.action == Pause && ctx.runtime then s.(paused := s.paused - {row.subject.id}) else s
  }

  function Closed(s: State, id: nat): State
    requires id in s.rows
  {
    s.(rows := s.rows[id := s.rows[id].(released := true)])
  }

  /** What releasing a containment comes to. */
  function Released(s: State, ctx: Ctx, id: nat): State {
    if !IsOpen(s, id) || !ctx.forReal then s
    else Closed(Unpaused(LetBack(s, id), ctx, id), id)
  }

  // ---- keeping up ----

  /** The containers there are, if the runtime could be asked. */
  type Boxes = Option<seq<Box>>

  function FindBox(boxes: seq<Box>, id: string): Option<Box> {
    if boxes == [] then None else if boxes[0].id == id then Some(boxes[0]) else FindBox(boxes[1..], id)
  }

  /** Where a container that moved no longer is, unless something else contained is there. */
  function Moved(s: State, id: nat, known: seq<string>, current: seq<string>): State {
    s.(addresses := s.addresses - (set a | a in known && a !in current && !Elsewhere(s, id, a)))
  }

  function Readdressed(s: State, id: nat, current: seq<string>): State
    requires id in s.rows
  {
    s.(rows := s.rows[id := s.rows[id].(addresses := current)])
  }

  function Followed(s: State, id: nat, known: seq<string>, current: seq<string>): State
    requires id in s.rows
  {
    if multiset(current) != multiset(known) && current != [] then
      Readdressed(Moved(s, id, known, current), id, current)
    else s
  }

  function Repaused(s: State, ctx: Ctx, box: Box, action: Action): State {
    if action == Pause && box.running && !box.paused && ctx.runtime then s.(paused := s.paused + {box.id}) else s
  }

  function Added(s: State, addresses: seq<string>): State {
    s.(addresses := s.addresses + Elements(addresses))
  }

  /** A container's containment, as it was listed, kept up. */
  function KeptContainer(s: State, ctx: Ctx, boxes: Boxes, id: nat, was: Row): State
    requires id in s.rows && was.subject.ById?
  {
    match boxes
    case None => Added(s, was.addresses)
    case Some(all) =>
      match FindBox(all, was.subject.id)
      case None => s
      case Some(box) =>
        Repaused(Added(Followed(s, id, was.addresses, box.addresses), box.addresses), ctx, box, was.action)
  }

  /** Any containment kept up. */
  function KeptUp(s: State, ctx: Ctx, boxes: Boxes, id: nat, was: Row): State
    requires id in s.rows
  {
    match was.subject
    case ByUid(uid) => s.(uids := s.uids + {uid})
    case ByIp(_) => Added(s, was.addresses)
    case ById(_) => KeptContainer(s, ctx, boxes, id, was)
  }

  /** The containments of a listing kept up, each as the listing has it. */
  function KeptAll(s: State, ctx: Ctx, boxes: Boxes, listed: map<nat, Row>, order: seq<nat>): (t: State)
    requires forall id | id in order :: id in s.rows && id in listed
    ensures t.rows.Keys == s.rows.Keys
    decreases |order|
  {
    if order == [] then s
    else KeptAll(KeptUp(s, ctx, boxes, order[0], listed[order[0]]), ctx, boxes, listed, order[1..])
  }

  /** A listing of the open containments: each once, in some order. */
  ghost predicate ListsOpen(s: State, order: seq<nat>) {
    && (forall id :: id in order <==> IsOpen(s, id))
    && (forall j, k | 0 <= j < k < |order| :: order[j] != order[k])
  }

  function Maintained(s: State, ctx: Ctx, boxes: Boxes, order: seq<nat>): State
    requires ListsOpen(s, order)
  {
    if !ctx.forReal then s else KeptAll(s, ctx, boxes, s.rows, order)
  }

  // ---- the firewall says what the containments say ----

  predicate Sane(s: State) {
    && (forall id | id in s.rows :: id < s.next)
    && (forall id | id in s.rows && s.rows[id].subject.ByUid? :: s.rows[id].addresses == [])
  }

  /** At most one containment of a subject is open. */
  ghost predicate OneEach(s: State) {
    forall a, b, subject :: Opens(s, a, subject) && Opens(s, b, subject) ==> a == b
  }

  ghost predicate AddressesMatch(s: State) {
    forall a :: a in s.addresses <==> exists id :: Holds(s, id, a)
  }

  ghost predicate UidsMatch(s: State) {
    forall u :: u in s.uids <==> exists id :: Opens(s, id, ByUid(u))
  }

  /** What is cut off is exactly what the open containments say. */
  ghost predicate InSync(s: State) {
    Sane(s) && OneEach(s) && AddressesMatch(s) && UidsMatch(s)
  }

  /** Which addresses a state's rows say, when each row says them as in `s` but for one. */
  lemma MatchByRows(s: State, t: State, id: nat, gone: set<string>, more: set<string>)
    requires AddressesMatch(s) && t.addresses == s.addresses - gone + more
    requires forall other, a :: other != id ==> (Holds(t, other, a) <==> Holds(s, other, a))
    requires forall a :: Holds(s, id, a) && !Holds(t, id, a) && !Elsewhere(s, id, a) ==> a in gone && a !in more
    requires forall a :: a in gone ==> !Elsewhere(s, id, a) && (!Holds(t, id, a) || a in more)
    requires forall a :: a in more ==> Holds(t, id, a)
    requires forall a :: Holds(t, id, a) && !Holds(s, id, a) ==> a in more
    ensures AddressesMatch(t)
  {
    hide Holds, IsOpen;
    forall a
      ensures a in t.addresses <==> exists k :: Holds(t, k, a)
    {
      if Elsewhere(s, id, a) {
        var other :| other in s.rows && other != id && Holds(s, other, a);
        assert Holds(t, other, a);
      } else if exists k :: Holds(t, k, a) {
        var k :| Holds(t, k, a);
        if k != id { HeldElsewhere(s, id, k, a); }
      }
      if a in s.addresses && !Elsewhere(s, id, a) {
        var k :| Holds(s, k, a);
        if k != id { HeldElsewhere(s, id, k, a); }
      }
    }
  }

  lemma HeldElsewhere(s: State, id: nat, other: nat, a: string)
    requires other != id && Holds(s, other, a)
    ensures Elsewhere(s, id, a)
  {
  }

  /** The same for uids: rows other than `id` open what they opened. */
  lemma UidsByRows(s: State, t: State, id: nat)
    requires UidsMatch(s) && OneEach(s)
    requires forall other, subject :: other != id ==> (Opens(t, other, subject) <==> Opens(s, other, subject))
    requires forall u :: u in t.uids <==> Opens(t, id, ByUid(u)) || (u in s.uids && !Opens(s, id, ByUid(u)))
    ensures UidsMatch(t)
  {
    hide Opens;
    forall u
      ensures u in t.uids <==> exists k :: Opens(t, k, ByUid(u))
    {
      if exists k :: Opens(t, k, ByUid(u)) {
        var k :| Opens(t, k, ByUid(u));
        if k != id { assert Opens(s, k, ByUid(u)); }
      }
      if u in s.uids && !Opens(s, id, ByUid(u)) {
        var k :| Opens(s, k, ByUid(u));
        assert Opens(t, k, ByUid(u));
      }
    }
  }

  // ---- contain ----

  lemma ContainKeepsSync(s: State, ctx: Ctx, target: Target, action: Action, automatic: bool, now: int)
    requires InSync(s)
    ensures InSync(Contained(s, ctx, target, action, automatic, now))
  {
    hide AddressesMatch, UidsMatch, OneEach, Sane, Opens, Holds, AppliesTo;
    if Refused(target, action).None? && ctx.forReal && !OpenOf(s, SubjectOf(target).value) {
      var subject := SubjectOf(target).value;
      var t := Opened(s, target, subject, action, automatic, now);
      var cut := CutOff(t, target);
      OpenedIsSane(s, target, action, automatic, now);
      CutOffMatches(s, target, action, automatic, now);
      SyncOfRows(cut, Acted(cut, ctx, target, action));
    }
  }

  /** Only the rows and the firewall matter. */
  lemma SyncOfRows(s: State, t: State)
    requires InSync(s) && t.rows == s.rows && t.next == s.next && t.addresses == s.addresses && t.uids == s.uids
    ensures InSync(t)
  {
    assert forall id, a :: Holds(t, id, a) <==> Holds(s, id, a);
    assert forall id, subject :: Opens(t, id, subject) <==> Opens(s, id, subject);
  }

  lemma OpenedIsSane(s: State, target: Target, action: Action, automatic: bool, now: int)
    requires Sane(s) && OneEach(s) && Refused(target, action).None? && !OpenOf(s, SubjectOf(target).value)
    ensures var t := CutOff(Opened(s, target, SubjectOf(target).value, action, automatic, now), target);
            Sane(t) && OneEach(t)
  {
    hide AppliesTo;
    var subject := SubjectOf(target).value;
    var t := CutOff(Opened(s, target, subject, action, automatic, now), target);
    forall a, b, which | Opens(t, a, which) && Opens(t, b, which)
      ensures a == b
    {
      assert a != s.next ==> Opens(s, a, which);
      assert b != s.next ==> Opens(s, b, which);
    }
  }

  lemma CutOffMatches(s: State, target: Target, action: Action, automatic: bool, now: int)
    requires InSync(s) && Refused(target, action).None? && !OpenOf(s, SubjectOf(target).value)
    ensures var t := CutOff(Opened(s, target, SubjectOf(target).value, action, automatic, now), target);
            AddressesMatch(t) && UidsMatch(t)
  {
    hide AppliesTo, AddressesMatch, UidsMatch, OneEach;
    var subject := SubjectOf(target).value;
    var t := CutOff(Opened(s, target, subject, action, automatic, now), target);
    var more := if target.TheUser? then {} else Elements(AddressesOf(target));
    MatchByRows(s, t, s.next, {}, more);
    UidsByRows(s, t, s.next);
  }

  // ---- release ----

  lemma ReleaseKeepsSync(s: State, ctx: Ctx, id: nat)
    requires InSync(s)
    ensures InSync(Released(s, ctx, id))
  {
    hide AddressesMatch, UidsMatch, OneEach, Opens, Holds, Elsewhere;
    if IsOpen(s, id) && ctx.forReal {
      var t := Closed(LetBack(s, id), id);
      LetBackMatches(s, id);
      SyncOfRows(t, Released(s, ctx, id));
    }
  }

  lemma LetBackMatches(s: State, id: nat)
    requires InSync(s) && IsOpen(s, id)
    ensures InSync(Closed(LetBack(s, id), id))
  {
    hide AddressesMatch, UidsMatch, OneEach, Elsewhere;
    var t := Closed(LetBack(s, id), id);
    var gone := set a | a in s.rows[id].addresses && !Elsewhere(s, id, a);
    MatchByRows(s, t, id, if s.rows[id].subject.ByUid? then {} else gone, {});
    assert forall u :: u in t.uids <==> u in s.uids && !Opens(s, id, ByUid(u));
    UidsByRows(s, t, id);
    ClosedOneEach(s, t, id);
  }

  lemma ClosedOneEach(s: State, t: State, id: nat)
    requires OneEach(s) && forall k, subject :: Opens(t, k, subject) ==> Opens(s, k, subject)
    ensures OneEach(t)
  {
    hide Opens;
  }

  // ---- maintain ----

  /** Rows that differ at most in one containment's addresses. */
  ghost predicate SameButAddresses(s: State, t: State, id: nat) {
    && t.next == s.next && t.rows.Keys == s.rows.Keys && t.tripped == s.tripped
    && (forall k | k in s.rows && k != id :: t.rows[k] == s.rows[k])
    && (id in s.rows ==> t.rows[id] == s.rows[id].(addresses := t.rows[id].addresses))
  }

  lemma AddingHeldChangesNothing(s: State, id: nat)
    requires AddressesMatch(s) && IsOpen(s, id)
    ensures Elements(s.rows[id].addresses) <= s.addresses
  {
    forall a | a in s.rows[id].addresses
      ensures a in s.addresses
    {
      assert Holds(s, id, a);
    }
  }

  lemma FollowedKeepsSync(s: State, id: nat, current: seq<string>)
    requires InSync(s) && IsOpen(s, id) && s.rows[id].subject.ById?
    ensures var t := Added(Followed(s, id, s.rows[id].addresses, current), current);
            InSync(t) && SameButAddresses(s, t, id)
  {
    hide AddressesMatch, UidsMatch, OneEach, Elsewhere;
    var known := s.rows[id].addresses;
    var t := Added(Followed(s, id, known, current), current);
    if multiset(current) != multiset(known) && current != [] {
      var gone := set a | a in known && a !in current && !Elsewhere(s, id, a);
      MatchByRows(s, t, id, gone, Elements(current));
      UidsByRows(s, t, id);
      ClosedOneEach(s, t, id);
    } else {
      SameElements(known, current);
      AddingHeldChangesNothing(s, id);
      assert t.addresses == s.addresses;
      SyncOfRows(s, t);
    }
  }

  lemma SameElements(known: seq<string>, current: seq<string>)
    requires multiset(current) == multiset(known) || current == []
    ensures Elements(current) <= Elements(known)
  {
    forall a | a in current
      ensures a in known
    {
      assert a in multiset(current);
    }
  }

  /** Keeping up a containment as it stands keeps the firewall in step, and touches no other. */
  lemma KeptUpKeepsSync(s: State, ctx: Ctx, boxes: Boxes, id: nat)
    requires InSync(s) && IsOpen(s, id)
    ensures var t := KeptUp(s, ctx, boxes, id, s.rows[id]);
            InSync(t) && SameButAddresses(s, t, id)
  {
    hide AddressesMatch, UidsMatch, OneEach, Elsewhere, FindBox, Sane;
    var was := s.rows[id];
    var t := KeptUp(s, ctx, boxes, id, was);
    AddingHeldChangesNothing(s, id);
    match was.subject
    case ByUid(uid) =>
      UidHeld(s, id);
      assert t.uids == s.uids;
      SyncOfRows(s, t);
    case ByIp(_) =>
      assert t.addresses == s.addresses;
      SyncOfRows(s, t);
    case ById(_) =>
      KeptContainerKeepsSync(s, ctx, boxes, id);
  }

  lemma UidHeld(s: State, id: nat)
    requires UidsMatch(s) && IsOpen(s, id) && s.rows[id].subject.ByUid?
    ensures s.rows[id].subject.uid in s.uids
  {
    assert Opens(s, id, ByUid(s.rows[id].subject.uid));
  }

  lemma KeptContainerKeepsSync(s: State, ctx: Ctx, boxes: Boxes, id: nat)
    requires InSync(s) && IsOpen(s, id) && s.rows[id].subject.ById?
    ensures var t := KeptContainer(s, ctx, boxes, id, s.rows[id]);
            InSync(t) && SameButAddresses(s, t, id)
  {
    hide InSync, Elsewhere, FindBox, Followed, Elements;
    var was := s.rows[id];
    var t := KeptContainer(s, ctx, boxes, id, was);
    match boxes
    case None =>
      SyncParts(s);
      AddingHeldChangesNothing(s, id);
      assert t.addresses == s.addresses;
      SyncOfRows(s, t);
    case Some(all) =>
      match FindBox(all, was.subject.id) {
        case None =>
        case Some(box) =>
          FollowedKeepsSync(s, id, box.addresses);
          SyncOfRows(Added(Followed(s, id, was.addresses, box.addresses), box.addresses), t);
      }
  }

  lemma SyncParts(s: State)
    requires InSync(s)
    ensures AddressesMatch(s) && UidsMatch(s)
  {
  }

  /** A pass keeps every containment up as the listing has it: nothing else has changed a row by
      the time its turn comes. */
  lemma {:induction false} KeptAllKeepsSync(s: State, ctx: Ctx, boxes: Boxes, listed: map<nat, Row>, order: seq<nat>)
    requires InSync(s)
    requires forall id | id in order :: id in s.rows && id in listed
    requires forall id | id in order :: IsOpen(s, id) && s.rows[id] == listed[id]
    requires forall j, k | 0 <= j < k < |order| :: order[j] != order[k]
    ensures InSync(KeptAll(s, ctx, boxes, listed, order))
    decreases |order|
  {
    hide InSync, KeptUp;
    if order != [] {
      var id := order[0];
      var t := KeptUp(s, ctx, boxes, id, listed[id]);
      KeptUpKeepsSync(s, ctx, boxes, id);
      forall other | other in order[1..]
        ensures other in t.rows && other in listed && IsOpen(t, other) && t.rows[other] == listed[other]
      {
        assert other in order;
        var k :| 0 <= k < |order[1..]| && order[1..][k] == other;
        assert order[0] != order[k + 1];
      }
      KeptAllKeepsSync(t, ctx, boxes, listed, order[1..]);
    }
  }

  lemma MaintainKeepsSync(s: State, ctx: Ctx, boxes: Boxes, order: seq<nat>)
    requires InSync(s) && ListsOpen(s, order)
    ensures InSync(Maintained(s, ctx, boxes, order))
  {
    hide InSync;
    if ctx.forReal {
      KeptAllKeepsSync(s, ctx, boxes, s.rows, order);
    }
  }

  // ---- what keeping up achieves ----

  /** The first container of a listing with an id. */
  ghost predicate Lists(boxes: seq<Box>, id: string, k: nat) {
    k < |boxes| && boxes[k].id == id && forall j | 0 <= j < k :: boxes[j].id != id
  }

  /** A containment as a pass should leave it, given its container as it is listed: recorded where
      that is now, if it is anywhere, and paused if it is to be and the container runs. */
  ghost predicate KeptAs(t: State, ctx: Ctx, box: Box, id: nat, was: Row)
    requires id in t.rows
  {
    var row := t.rows[id];
    && row == was.(addresses := row.addresses)
    && (if box.addresses == [] then row.addresses == was.addresses else multiset(row.addresses) == multiset(box.addresses))
    && (was.action == Pause && box.running && !box.paused && ctx.runtime ==> box.id in t.paused)
  }

  /** The same, found in the listing; the containment of a container that is not listed stays. */
  ghost predicate Kept(t: State, ctx: Ctx, boxes: seq<Box>, id: nat, was: Row)
    requires id in t.rows && was.subject.ById?
  {
    && (forall k: nat | Lists(boxes, was.subject.id, k) :: KeptAs(t, ctx, boxes[k], id, was))
    && ((forall k | 0 <= k < |boxes| :: boxes[k].id != was.subject.id) ==> t.rows[id] == was)
  }

  /** The container that is found is the first one listed with the id, if any is. */
  lemma {:induction false} FindBoxFinds(boxes: seq<Box>, id: string)
    ensures match FindBox(boxes, id)
            case None => forall k | 0 <= k < |boxes| :: boxes[k].id != id
            case Some(box) => exists k: nat :: Lists(boxes, id, k) && boxes[k] == box
  {
    if boxes != [] {
      if boxes[0].id == id {
        assert Lists(boxes, id, 0);
      } else {
        FindBoxFinds(boxes[1..], id);
        assert boxes == [boxes[0]] + boxes[1..];
        if FindBox(boxes[1..], id).Some? {
          var k: nat :| Lists(boxes[1..], id, k) && boxes[1..][k] == FindBox(boxes[1..], id).value;
          assert Lists(boxes, id, k + 1);
        }
      }
    }
  }

  lemma ListsOne(boxes: seq<Box>, id: string, j: nat, k: nat)
    requires Lists(boxes, id, j) && Lists(boxes, id, k)
    ensures j == k
  {
  }

  lemma KeptUpKeeps(s: State, ctx: Ctx, boxes: seq<Box>, id: nat)
    requires id in s.rows && s.rows[id].subject.ById?
    ensures Kept(KeptUp(s, ctx, Some(boxes), id, s.rows[id]), ctx, boxes, id, s.rows[id])
  {
    hide FindBox, Elsewhere, Elements;
    var was := s.rows[id];
    var t := KeptUp(s, ctx, Some(boxes), id, was);
    FindBoxFinds(boxes, was.subject.id);
    match FindBox(boxes, was.subject.id)
    case None =>
    case Some(box) =>
      var k: nat :| Lists(boxes, was.subject.id, k) && boxes[k] == box;
      assert KeptAs(t, ctx, box, id, was);
      forall j: nat | Lists(boxes, was.subject.id, j)
        ensures KeptAs(t, ctx, boxes[j], id, was)
      {
        ListsOne(boxes, was.subject.id, j, k);
      }
      assert boxes[k].id == was.subject.id;
  }

  /** A turn leaves other rows alone, and never unpauses. */
  lemma KeptUpSpares(s: State, ctx: Ctx, boxes: Boxes, id: nat, was: Row)
    requires id in s.rows
    ensures var t := KeptUp(s, ctx, boxes, id, was);
            && t.rows.Keys == s.rows.Keys && s.paused <= t.paused
            && forall k | k in s.rows && k != id :: t.rows[k] == s.rows[k]
  {
    hide FindBox, Elsewhere, Elements;
  }

  /** Turns of others leave a containment and its pause alone. */
  lemma {:induction false} KeptAllSpares(s: State, ctx: Ctx, boxes: Boxes, listed: map<nat, Row>, order: seq<nat>, id: nat)
    requires forall k | k in order :: k in s.rows && k in listed
    requires id in s.rows && id !in order
    ensures var t := KeptAll(s, ctx, boxes, listed, order);
            id in t.rows && t.rows[id] == s.rows[id] && s.paused <= t.paused
    decreases |order|
  {
    hide KeptUp;
    if order != [] {
      KeptUpSpares(s, ctx, boxes, order[0], listed[order[0]]);
      assert forall k | k in order[1..] :: k in order;
      KeptAllSpares(KeptUp(s, ctx, boxes, order[0], listed[order[0]]), ctx, boxes, listed, order[1..], id);
    }
  }

  lemma KeptLater(s: State, t: State, ctx: Ctx, boxes: seq<Box>, id: nat, was: Row)
    requires id in s.rows && id in t.rows && was.subject.ById? && Kept(s, ctx, boxes, id, was)
    requires t.rows[id] == s.rows[id] && s.paused <= t.paused
    ensures Kept(t, ctx, boxes, id, was)
  {
    hide Lists;
  }

  lemma {:induction false} KeptAllKeeps(s: State, ctx: Ctx, boxes: seq<Box>, listed: map<nat, Row>, order: seq<nat>, id: nat)
    requires forall k | k in order :: k in s.rows && k in listed
    requires forall j, k | 0 <= j < k < |order| :: order[j] != order[k]
    requires id in order && s.rows[id] == listed[id] && listed[id].subject.ById?
    ensures var t := KeptAll(s, ctx, Some(boxes), listed, order);
            Kept(t, ctx, boxes, id, listed[id])
    decreases |order|
  {
    hide KeptUp, Kept;
    var first := order[0];
    var next := KeptUp(s, ctx, Some(boxes), first, listed[first]);
    KeptUpSpares(s, ctx, Some(boxes), first, listed[first]);
    assert forall k | k in order[1..] :: k in order;
    if first == id {
      KeptUpKeeps(s, ctx, boxes, id);
      assert id !in order[1..];
      KeptAllSpares(next, ctx, Some(boxes), listed, order[1..], id);
      KeptLater(next, KeptAll(next, ctx, Some(boxes), listed, order[1..]), ctx, boxes, id, listed[id]);
    } else {
      assert order == [first] + order[1..];
      KeptAllKeeps(next, ctx, boxes, listed, order[1..], id);
    }
  }

  /** After a pass, every open containment of a container the runtime lists is recorded at exactly
      the addresses it has now, and cut off there; one that is to be paused and runs is paused; and
      one of a container that is not listed stays as it was. */
  lemma MaintainFollows(s: State, ctx: Ctx, boxes: seq<Box>, order: seq<nat>, id: nat)
    requires InSync(s) && ctx.forReal && ListsOpen(s, order) && IsOpen(s, id) && s.rows[id].subject.ById?
    ensures var t := Maintained(s, ctx, Some(boxes), order);
            && id in t.rows && Kept(t, ctx, boxes, id, s.rows[id])
            && (IsOpen(t, id) ==> Elements(t.rows[id].addresses) <= t.addresses)
  {
    hide InSync, Kept, KeptAll;
    assert forall k | k in order :: k in s.rows by { forall k | k in order ensures k in s.rows { assert IsOpen(s, k); } }
    KeptAllKeeps(s, ctx, boxes, s.rows, order, id);
    MaintainKeepsSync(s, ctx, Some(boxes), order);
    var t := Maintained(s, ctx, Some(boxes), order);
    SyncParts(t);
    if IsOpen(t, id) { AddingHeldChangesNothing(t, id); }
  }

  /** Whether a pass may pause a container: an open containment says so, and it runs. */
  ghost predicate ToPause(s: State, ctx: Ctx, boxes: Boxes, box: string) {
    && ctx.runtime && boxes.Some?
    && (exists id :: Opens(s, id, ById(box)) && s.rows[id].action == Pause)
    && (exists k | 0 <= k < |boxes.value| :: boxes.value[k].id == box && boxes.value[k].running && !boxes.value[k].paused)
  }

  /** Turns that pause no container but those of `first` that are to be, and change nothing but the
      addresses of a container's containment, and that only with a listing to go by. */
  ghost predicate OnlyFollows(first: State, s: State, t: State, ctx: Ctx, boxes: Boxes) {
    && t.rows.Keys == s.rows.Keys && t.next == s.next && t.tripped == s.tripped
    && (forall id | id in s.rows ::
          && t.rows[id] == s.rows[id].(addresses := t.rows[id].addresses)
          && (t.rows[id] != s.rows[id] ==> s.rows[id].subject.ById? && IsOpen(s, id) && boxes.Some?))
    && (forall box | box in t.paused && box !in s.paused :: ToPause(first, ctx, boxes, box))
    && s.paused <= t.paused
  }

  lemma FoundIsToPause(first: State, ctx: Ctx, boxes: seq<Box>, id: nat, box: Box)
    requires IsOpen(first, id) && first.rows[id].subject.ById? && FindBox(boxes, first.rows[id].subject.id) == Some(box)
    requires first.rows[id].action == Pause && box.running && !box.paused && ctx.runtime
    ensures ToPause(first, ctx, Some(boxes), box.id)
  {
    hide FindBox;
    var subject := first.rows[id].subject;
    FindBoxFinds(boxes, subject.id);
    var k: nat :| Lists(boxes, subject.id, k) && boxes[k] == box;
    assert Opens(first, id, ById(box.id));
    assert boxes[k].id == box.id;
  }

  lemma TurnOnlyFollows(first: State, s: State, ctx: Ctx, boxes: Boxes, id: nat)
    requires IsOpen(first, id) && IsOpen(s, id) && s.rows[id].subject == first.rows[id].subject
    ensures OnlyFollows(first, s, KeptUp(s, ctx, boxes, id, first.rows[id]), ctx, boxes)
  {
    hide FindBox, Elsewhere, Elements, ToPause;
    var was := first.rows[id];
    if was.subject.ById? && boxes.Some? {
      var found := FindBox(boxes.value, was.subject.id);
      if found.Some? && was.action == Pause && found.value.running && !found.value.paused && ctx.runtime {
        FoundIsToPause(first, ctx, boxes.value, id, found.value);
      }
    }
  }

  lemma FollowsTwice(first: State, s: State, t: State, u: State, ctx: Ctx, boxes: Boxes)
    requires OnlyFollows(first, s, t, ctx, boxes) && OnlyFollows(first, t, u, ctx, boxes)
    ensures OnlyFollows(first, s, u, ctx, boxes)
  {
    hide ToPause;
  }

  lemma {:induction false} KeptAllOnlyFollows(first: State, s: State, ctx: Ctx, boxes: Boxes, order: seq<nat>)
    requires forall id | id in order :: id in first.rows && id in s.rows && IsOpen(first, id) && IsOpen(s, id)
    requires forall id | id in order :: s.rows[id].subject == first.rows[id].subject
    ensures OnlyFollows(first, s, KeptAll(s, ctx, boxes, first.rows, order), ctx, boxes)
    decreases |order|
  {
    hide KeptUp, ToPause;
    if order != [] {
      var next := KeptUp(s, ctx, boxes, order[0], first.rows[order[0]]);
      TurnOnlyFollows(first, s, ctx, boxes, order[0]);
      assert forall id | id in order[1..] :: id in order;
      KeptAllOnlyFollows(first, next, ctx, boxes, order[1..]);
      FollowsTwice(first, s, next, KeptAll(next, ctx, boxes, first.rows, order[1..]), ctx, boxes);
    }
  }

  /** A pass does no more than that: it opens and closes nothing, changes no containment but where a
      listed container is, and pauses only what an open containment says to and the runtime lists
      as running. */
  lemma MaintainOnlyFollows(s: State, ctx: Ctx, boxes: Boxes, order: seq<nat>)
    requires ListsOpen(s, order)
    ensures OnlyFollows(s, s, Maintained(s, ctx, boxes, order), ctx, boxes)
  {
    hide KeptAll, ToPause;
    if ctx.forReal {
      forall id | id in order ensures IsOpen(s, id) {}
      KeptAllOnlyFollows(s, s, ctx, boxes, order);
    }
  }

  // ---- what containing and releasing do ----

  /** What may be contained, and how: anything by being cut off; a container also by pausing or
      stopping it, a user by killing what they run; never root, nor an address of this host. */
  ghost predicate Containable(target: Target, action: Action) {
    match target
    case TheContainer(_) => action == Isolate || action == Pause || action == Stop
    case TheUser(uid, _) => uid != 0 && (action == Isolate || action == Kill)
    case TheAddress(parsed) => action == Isolate && parsed.Some? && !parsed.value.thisHost
  }

  /** Whether `row` is the record of containing a target. */
  ghost predicate Records(row: Row, target: Target) {
    match target
    case TheContainer(box) => row.subject == ById(box.id) && row.addresses == box.addresses
    case TheUser(uid, _) => row.subject == ByUid(uid) && row.addresses == []
    case TheAddress(parsed) => parsed.Some? && row.subject == ByIp(parsed.value.text) && row.addresses == [parsed.value.text]
  }

  /** Containing changes nothing, or opens one containment of the target, cuts it off and nothing
      else, and pauses no more than its container. It does open one exactly when the target may be
      contained so, is not contained yet, and it is for real. */
  lemma ContainMeans(s: State, ctx: Ctx, target: Target, action: Action, automatic: bool, now: int, row: Row)
    requires Sane(s) && Records(row, target)
    requires row == Row(row.subject, row.addresses, action, automatic, now, false)
    ensures var t := Contained(s, ctx, target, action, automatic, now);
            if ctx.forReal && Containable(target, action) && (forall id | id in s.rows :: !(!s.rows[id].released && s.rows[id].subject == row.subject)) then
              && s.next !in s.rows && t.rows == s.rows[s.next := row] && t.next == s.next + 1 && t.tripped == s.tripped
              && (forall a :: a in t.addresses <==> a in s.addresses || a in row.addresses)
              && (forall u :: u in t.uids <==> u in s.uids || row.subject == ByUid(u))
              && (forall box :: box in t.paused <==>
                    (box in s.paused
                     || (target.TheContainer? && box == target.box.id && action == Pause && !target.box.paused && ctx.runtime)))
            else t == s
  {
  }

  /** A target that is not one at all, or may not be contained so, is not. */
  lemma ContainRefuses(s: State, ctx: Ctx, target: Target, action: Action, automatic: bool, now: int)
    requires !Containable(target, action)
    ensures Contained(s, ctx, target, action, automatic, now) == s
  {
  }

  /** Releasing an open containment closes it, and lets back exactly what no other one holds. */
  lemma ReleaseMeans(s: State, ctx: Ctx, id: nat)
    ensures var t := Released(s, ctx, id);
            if ctx.forReal && id in s.rows && !s.rows[id].released then
              var row := s.rows[id];
              && t.rows == s.rows[id := row.(released := true)] && t.next == s.next && t.tripped == s.tripped
              && (forall u :: u in t.uids <==> u in s.uids && row.subject != ByUid(u))
              && (forall box :: box in t.paused <==> box in s.paused && !(row.subject == ById(box) && row.action == Pause && ctx.runtime))
              && (!row.subject.ByUid? ==>
                    forall a :: a in t.addresses <==>
                      a in s.addresses && (a in row.addresses ==> exists other | other in s.rows :: other != id && Holds(s, other, a)))
            else t == s
  {
  }

  // ---- what release undoes ----

  /** Releasing what was just contained lets the firewall be what it was; and so are the paused
      containers, exactly unless the container contained by pausing was paused already: release
      unpauses it although containing did not pause it. */
  lemma ReleaseUndoesContain(s: State, ctx: Ctx, target: Target, action: Action, automatic: bool, now: int)
    requires InSync(s) && ctx.forReal && Refused(target, action).None? && !OpenOf(s, SubjectOf(target).value)
    ensures var t := Contained(s, ctx, target, action, automatic, now);
            var u := Released(t, ctx, s.next);
            && IsOpen(t, s.next) && u.addresses == s.addresses && u.uids == s.uids
            && (u.paused == s.paused
                <==> !(target.TheContainer? && action == Pause && ctx.runtime && target.box.id in s.paused))
  {
    hide AddressesMatch, UidsMatch, OneEach, Sane, Contained, Released, Refused, OpenOf, Holds, Opens;
    var t := Contained(s, ctx, target, action, automatic, now);
    ContainKeepsSync(s, ctx, target, action, automatic, now);
    ReleaseKeepsSync(t, ctx, s.next);
    var u := ContainedAndReleased(s, ctx, target, action, automatic, now);
    SyncSaysSets(s, u);
  }

  /** A host where that happens: someone else had paused the container. Containing it by pausing
      pauses nothing, and releasing it unpauses it. */
  lemma ReleaseUnpausesAnothers(id: string, name: string, now: int)
    ensures var s := State(map[], 0, {}, {}, {id}, None);
            var ctx := Ctx(true, true);
            var t := Contained(s, ctx, TheContainer(Box(id, name, [], true, true)), Pause, true, now);
            && InSync(s) && !OpenOf(s, ById(id)) && IsOpen(t, 0)
            && t.paused == s.paused && Released(t, ctx, 0).paused == {}
  {
    var s := State(map[], 0, {}, {}, {id}, None);
    var ctx := Ctx(true, true);
    var target := TheContainer(Box(id, name, [], true, true));
    assert InSync(s);
    hide InSync;
    var row := ContainedRow(s, ctx, target, Pause, true, now);
    var t := Contained(s, ctx, target, Pause, true, now);
    hide Contained;
    assert t.rows[0] == row;
  }

  /** What containing a target for the first time records, and pauses. */
  lemma ContainedRow(s: State, ctx: Ctx, target: Target, action: Action, automatic: bool, now: int) returns (row: Row)
    requires ctx.forReal && Refused(target, action).None? && !OpenOf(s, SubjectOf(target).value)
    ensures var t := Contained(s, ctx, target, action, automatic, now);
            && t.rows == s.rows[s.next := row] && !row.released && row.action == action
            && SubjectOf(target) == Some(row.subject)
            && t.paused == (if target.TheContainer? && action == Pause && !target.box.paused && ctx.runtime
                            then s.paused + {target.box.id} else s.paused)
  {
    hide AppliesTo, OpenOf, Elements;
    row := Row(SubjectOf(target).value, AddressesOf(target), action, automatic, now, false);
  }

  /** What containing and releasing leave of a state: one more row, closed. */
  lemma ContainedAndReleased(s: State, ctx: Ctx, target: Target, action: Action, automatic: bool, now: int) returns (u: State)
    requires Sane(s) && ctx.forReal && Refused(target, action).None? && !OpenOf(s, SubjectOf(target).value)
    ensures var t := Contained(s, ctx, target, action, automatic, now);
            u == Released(t, ctx, s.next) && IsOpen(t, s.next)
            && (u.paused == s.paused
                <==> !(target.TheContainer? && action == Pause && ctx.runtime && target.box.id in s.paused))
    ensures forall id, a :: Holds(u, id, a) <==> Holds(s, id, a)
    ensures forall id, subject :: Opens(u, id, subject) <==> Opens(s, id, subject)
  {
    hide Refused, OpenOf, Elsewhere, Contained;
    var row := ContainedRow(s, ctx, target, action, automatic, now);
    var t := Contained(s, ctx, target, action, automatic, now);
    u := Released(t, ctx, s.next);
    assert u.rows == s.rows[s.next := row.(released := true)];
    assert forall id :: IsOpen(u, id) <==> IsOpen(s, id);
  }

  /** Two states in step with the same open containments cut off the same. */
  lemma SyncSaysSets(s: State, u: State)
    requires InSync(s) && InSync(u)
    requires forall id, a :: Holds(u, id, a) <==> Holds(s, id, a)
    requires forall id, subject :: Opens(u, id, subject) <==> Opens(s, id, subject)
    ensures u.addresses == s.addresses && u.uids == s.uids
  {
    hide Holds, Opens, OneEach, Sane;
    forall a
      ensures a in u.addresses <==> a in s.addresses
    {
      if a in u.addresses { var id :| Holds(u, id, a); assert Holds(s, id, a); }
      if a in s.addresses { var id :| Holds(s, id, a); assert Holds(u, id, a); }
    }
    forall v
      ensures v in u.uids <==> v in s.uids
    {
      if v in u.uids { var id :| Opens(u, id, ByUid(v)); assert Opens(s, id, ByUid(v)); }
      if v in s.uids { var id :| Opens(s, id, ByUid(v)); assert Opens(u, id, ByUid(v)); }
    }
  }
}
