/** One apply at a time: the lock's protocol, as the interleaved steps of many threads
    (`src/applylock.rs`). */
module ApplyLock {
  import opened Text

  // ---- the protocol ----

  /** A guard: the open lock file it keeps, or nothing for a nested one and for one whose lock file
      could not be opened. */
  type Guard = Option<nat>

  /** Where a thread is: between calls, waiting for the lock with a file open, with the lock taken
      and the depth not yet set, or dropping a guard with the depth already lowered. */
  datatype Place = Between | Waiting(file: nat) | Taken(file: nat) | Dropping(guard: Guard)

  /** A thread: its `DEPTH`, its live guards, the outermost first, and where it is. */
  datatype Thread = Thread(depth: nat, guards: seq<Guard>, place: Place)

  /** Every thread of every process, the open file the kernel has locked, and the next file to be
      opened. */
  datatype State = State(threads: seq<Thread>, locked: Option<nat>, next: nat)

  datatype Action =
    | HoldNested
    | HoldOpen
    | HoldUnopened
    | TryLock
    | GiveUp
    | SetDepth
    | Drop
    | Close

  function With(s: State, t: nat, thread: Thread): State
    requires t < |s.threads|
  {
    s.(threads := s.threads[t := thread])
  }

  /** One atomic step of a thread. Guards drop in reverse order. */
  predicate Step(s: State, t: nat, a: Action, u: State) {
    t < |s.threads| &&
    var me := s.threads[t];
    var n := |me.guards|;
    match a
    case HoldNested =>
      // `hold_at` with a guard already held.
      me.place == Between && me.depth > 0
      && u == With(s, t, me.(depth := me.depth + 1, guards := me.guards + [None]))
    case HoldOpen =>
      me.place == Between && me.depth == 0
      && u == With(s, t, me.(place := Waiting(s.next))).(next := s.next + 1)
    case HoldUnopened =>
      // The lock file cannot be opened: the apply proceeds without it.
      me.place == Between && me.depth == 0
      && u == With(s, t, me.(depth := 1, guards := me.guards + [None]))
    case TryLock =>
      me.place.Waiting? && (
        if s.locked.None? then u == With(s, t, me.(place := Taken(me.place.file))).(locked := Some(me.place.file))
        else u == s)
    case GiveUp =>
      // The wait is over: the file is closed, and with it nothing, for it was never locked.
      me.place.Waiting? && u == With(s, t, me.(place := Between))
    case SetDepth =>
      me.place.Taken?
      && u == With(s, t, Thread(1, me.guards + [Some(me.place.file)], Between))
    case Drop =>
      me.place == Between && n > 0
      && u == With(s, t, Thread(if me.depth == 0 then 0 else me.depth - 1, me.guards[..n - 1], Dropping(me.guards[n - 1])))
    case Close =>
      me.place.Dropping?
      && u == With(s, t, me.(place := Between)).(
                locked := if me.place.guard.Some? && s.locked == me.place.guard then None else s.locked)
  }

  datatype Move = Move(thread: nat, action: Action)

  ghost predicate Runs(states: seq<State>, moves: seq<Move>) {
    && |states| == |moves| + 1 && Initial(states[0])
    && forall k | 0 <= k < |moves| :: Step(states[k], moves[k].thread, moves[k].action, states[k + 1])
  }

  predicate Initial(s: State) {
    s.locked == None && forall t | 0 <= t < |s.threads| :: s.threads[t] == Thread(0, [], Between)
  }

  // ---- what every step keeps ----

  /** Inside: from the moment the lock is taken, or passed by, to the moment it is given back. */
  predicate Inside(s: State, t: nat) {
    t < |s.threads| &&
    var me := s.threads[t];
    me.guards != [] || me.place.Taken? || (me.place.Dropping? && me.guards == [])
  }

  /** The file a thread is inside with, if it is inside with one. */
  function FileOf(me: Thread): Option<nat> {
    if me.guards != [] then me.guards[0]
    else if me.place.Taken? then Some(me.place.file)
    else if me.place.Dropping? then me.place.guard
    else None
  }

  /** Inside on a lock file that was never opened. */
  predicate Unlocked(s: State, t: nat) {
    Inside(s, t) && FileOf(s.threads[t]) == None
  }

  predicate ThreadOk(me: Thread) {
    && me.depth == |me.guards|
    && (me.place.Waiting? || me.place.Taken? ==> me.guards == [])
    && (forall k | 0 < k < |me.guards| :: me.guards[k] == None)
    && (me.place.Dropping? && me.guards != [] ==> me.place.guard == None)
  }

  predicate FilesKnown(s: State, t: nat)
    requires t < |s.threads|
  {
    var me := s.threads[t];
    (FileOf(me).Some? ==> FileOf(me).value < s.next) && (me.place.Waiting? ==> me.place.file < s.next)
  }

  /** The kernel's lock is held by the one thread inside with a file, and waited for on files of
      their own by the others. */
  ghost predicate Ok(s: State) {
    && (forall t | 0 <= t < |s.threads| :: ThreadOk(s.threads[t]) && FilesKnown(s, t))
    && (forall t | 0 <= t < |s.threads| && FileOf(s.threads[t]).Some? :: s.locked == FileOf(s.threads[t]))
    && (s.locked.Some? ==> exists t :: 0 <= t < |s.threads| && FileOf(s.threads[t]) == s.locked)
    && (forall t, o | 0 <= t < |s.threads| && 0 <= o < |s.threads| && t != o ::
          Apart(s.threads[t], s.threads[o]))
  }

  /** Two threads have no file in common. */
  predicate Apart(a: Thread, b: Thread) {
    && (FileOf(a).Some? ==> FileOf(a) != FileOf(b) && (b.place.Waiting? ==> FileOf(a).value != b.place.file))
    && (a.place.Waiting? && b.place.Waiting? ==> a.place.file != b.place.file)
    && (FileOf(b).Some? && a.place.Waiting? ==> FileOf(b).value != a.place.file)
  }

  lemma InitialOk(s: State)
    requires Initial(s)
    ensures Ok(s)
  {
  }

  /** What a step does to its own thread. */
  lemma StepThread(s: State, t: nat, a: Action, u: State)
    requires Ok(s) && Step(s, t, a, u)
    ensures |u.threads| == |s.threads| && s.next <= u.next
    ensures forall o | 0 <= o < |s.threads| && o != t :: u.threads[o] == s.threads[o]
    ensures ThreadOk(u.threads[t]) && FilesKnown(u, t)
    ensures FileOf(u.threads[t]) == FileOf(s.threads[t])
            || (a == TryLock && s.locked.None? && u.locked == FileOf(u.threads[t]) == Some(s.threads[t].place.file))
            || (a == Close && FileOf(u.threads[t]) == None && u.locked == None)
    ensures FileOf(u.threads[t]) == FileOf(s.threads[t]) ==> u.locked == s.locked
  {
    assert ThreadOk(s.threads[t]) && FilesKnown(s, t);
  }

  lemma StepApart(s: State, t: nat, a: Action, u: State, o: nat)
    requires Ok(s) && Step(s, t, a, u) && o < |s.threads| && o != t
    ensures Apart(u.threads[t], u.threads[o]) && Apart(u.threads[o], u.threads[t])
  {
    assert Apart(s.threads[t], s.threads[o]) && Apart(s.threads[o], s.threads[t]);
    assert ThreadOk(s.threads[t]) && FilesKnown(s, t) && FilesKnown(s, o);
  }

  lemma StepKeepsOk(s: State, t: nat, a: Action, u: State)
    requires Ok(s) && Step(s, t, a, u)
    ensures Ok(u)
  {
    StepThread(s, t, a, u);
    StepHolds(s, t, a, u);
    hide Step, Apart, ThreadOk, FileOf;
    forall o | 0 <= o < |u.threads|
      ensures ThreadOk(u.threads[o]) && FilesKnown(u, o)
    {
      if o != t { assert ThreadOk(s.threads[o]) && FilesKnown(s, o); }
    }
    forall o, p | 0 <= o < |u.threads| && 0 <= p < |u.threads| && o != p
      ensures Apart(u.threads[o], u.threads[p])
    {
      if o == t { StepApart(s, t, a, u, p); }
      else if p == t { StepApart(s, t, a, u, o); }
      else { assert Apart(s.threads[o], s.threads[p]); }
    }
  }

  /** The lock is still held by exactly who is inside with its file. */
  lemma StepHolds(s: State, t: nat, a: Action, u: State)
    requires Ok(s) && Step(s, t, a, u)
    ensures forall o | 0 <= o < |u.threads| && FileOf(u.threads[o]).Some? :: u.locked == FileOf(u.threads[o])
    ensures u.locked.Some? ==> exists o :: 0 <= o < |u.threads| && FileOf(u.threads[o]) == u.locked
  {
    StepThread(s, t, a, u);
    hide Step, ThreadOk;
    forall o | 0 <= o < |u.threads| && FileOf(u.threads[o]).Some?
      ensures u.locked == FileOf(u.threads[o])
    {
      if o != t {
        assert Apart(s.threads[o], s.threads[t]) && Apart(s.threads[t], s.threads[o]);
        assert s.locked == FileOf(s.threads[o]);
      }
    }
    if u.locked.Some? {
      if FileOf(u.threads[t]) != u.locked {
        var o :| 0 <= o < |s.threads| && FileOf(s.threads[o]) == s.locked;
        assert FileOf(u.threads[o]) == u.locked;
      }
    }
  }

  lemma {:induction false} RunStaysOk(states: seq<State>, moves: seq<Move>)
    requires Runs(states, moves)
    ensures forall k | 0 <= k < |states| :: Ok(states[k])
    decreases |moves|
  {
    hide Ok, Step;
    InitialOk(states[0]);
    if moves != [] {
      var n := |moves| - 1;
      assert states[..n + 1][0] == states[0] && states[..n + 1][n] == states[n];
      forall k | 0 <= k < n
        ensures Step(states[..n + 1][k], moves[..n][k].thread, moves[..n][k].action, states[..n + 1][k + 1])
      {
        assert Step(states[k], moves[k].thread, moves[k].action, states[k + 1]);
      }
      RunStaysOk(states[..n + 1], moves[..n]);
      assert Step(states[n], moves[n].thread, moves[n].action, states[n + 1]);
      StepKeepsOk(states[n], moves[n].thread, moves[n].action, states[n + 1]);
      forall k | 0 <= k < |states|
        ensures Ok(states[k])
      {
        if k <= n { assert states[..n + 1][k] == states[k]; }
      }
    }
  }

  // ---- what follows ----

  /** Of two threads inside, at least one came in past a lock file it could not open: with every
      lock file opened, at most one is. */
  lemma OneInside(s: State, t: nat, o: nat)
    requires Ok(s) && Inside(s, t) && Inside(s, o) && t != o
    ensures Unlocked(s, t) || Unlocked(s, o)
  {
    hide ThreadOk, FilesKnown;
    assert Apart(s.threads[t], s.threads[o]);
  }

  /** `DEPTH` is the number of live guards. */
  lemma DepthIsGuards(s: State, t: nat)
    requires Ok(s) && t < |s.threads|
    ensures s.threads[t].depth == |s.threads[t].guards|
  {
    hide Apart, FilesKnown;
    assert ThreadOk(s.threads[t]);
  }

  /** A thread with a guard never waits for the lock: the only way it can hold again is at once. */
  lemma NestedNeverWaits(s: State, t: nat, a: Action, u: State)
    requires Ok(s) && t < |s.threads| && s.threads[t].guards != []
    ensures !s.threads[t].place.Waiting?
    ensures Step(s, t, a, u) ==> a in [HoldNested, Drop, Close]
    ensures s.threads[t].place == Between ==>
              var me := s.threads[t];
              Step(s, t, HoldNested, With(s, t, me.(depth := me.depth + 1, guards := me.guards + [None])))
  {
    hide Apart, FilesKnown;
    assert ThreadOk(s.threads[t]);
  }

  /** The kernel's lock is free exactly when no thread is inside with a file: so once every guard is
      gone, and then whoever tries takes it. */
  lemma FreeWhenNoneInside(s: State)
    requires Ok(s)
    ensures s.locked == None <==> forall t | 0 <= t < |s.threads| :: Inside(s, t) ==> Unlocked(s, t)
  {
    hide ThreadOk, Apart, FilesKnown;
    if s.locked.Some? {
      var t :| 0 <= t < |s.threads| && FileOf(s.threads[t]) == s.locked;
      FileMeansInside(s, t);
      assert Inside(s, t) && !Unlocked(s, t);
    }
  }

  lemma FileMeansInside(s: State, t: nat)
    requires Ok(s) && t < |s.threads| && FileOf(s.threads[t]).Some?
    ensures Inside(s, t)
  {
    hide Apart, FilesKnown;
    assert ThreadOk(s.threads[t]);
  }

  /** Nothing but a thread inside with a file keeps another waiting: once there is none, whoever is
      waiting gets in by its next try. */
  lemma WaitingGetsIn(s: State, t: nat)
    requires Ok(s) && t < |s.threads| && s.threads[t].place.Waiting?
    ensures var me := s.threads[t];
            var u := With(s, t, me.(place := Taken(me.place.file))).(locked := Some(me.place.file));
            (Step(s, t, TryLock, u) && Inside(u, t) && !Unlocked(u, t))
            <==> forall o | 0 <= o < |s.threads| :: Inside(s, o) ==> Unlocked(s, o)
  {
    FreeWhenNoneInside(s);
    hide Apart, FilesKnown;
    assert ThreadOk(s.threads[t]);
  }

  // ---- lock files that open ----

  predicate Opens(move: Move) {
    move.action != HoldUnopened
  }

  ghost predicate NoneUnlocked(s: State) {
    forall t | 0 <= t < |s.threads| :: !Unlocked(s, t)
  }

  lemma OpeningKeepsLocked(s: State, t: nat, a: Action, u: State)
    requires Ok(s) && NoneUnlocked(s) && Step(s, t, a, u) && a != HoldUnopened
    ensures NoneUnlocked(u)
  {
    hide Apart, FilesKnown;
    assert ThreadOk(s.threads[t]) && !Unlocked(s, t);
    forall o | 0 <= o < |u.threads|
      ensures !Unlocked(u, o)
    {
      if o != t {
        assert !Unlocked(s, o);
        assert u.threads[o] == s.threads[o];
      }
    }
  }

  /** In every interleaving of any number of threads whose lock files open, at every moment at most
      one thread is inside, and the kernel's lock is free exactly when none is. */
  lemma {:induction false} Exclusive(states: seq<State>, moves: seq<Move>, k: nat)
    requires Runs(states, moves) && k < |states|
    requires forall j | 0 <= j < |moves| :: Opens(moves[j])
    ensures forall t, o :: Inside(states[k], t) && Inside(states[k], o) ==> t == o
    ensures states[k].locked == None <==> forall t :: !Inside(states[k], t)
  {
    hide Ok, Step, Inside, Unlocked;
    RunStaysOk(states, moves);
    LockedThroughout(states, moves, k);
    var s := states[k];
    assert Ok(s);
    forall t, o | Inside(s, t) && Inside(s, o)
      ensures t == o
    {
      InsideIsThread(s, t);
      InsideIsThread(s, o);
      if t != o { OneInside(s, t, o); }
    }
    FreeWhenNoneInside(s);
    forall t: nat | Inside(s, t) ensures t < |s.threads| { InsideIsThread(s, t); }
  }

  lemma InsideIsThread(s: State, t: nat)
    requires Inside(s, t)
    ensures t < |s.threads|
  {
  }

  lemma {:induction false} LockedThroughout(states: seq<State>, moves: seq<Move>, k: nat)
    requires Runs(states, moves) && k < |states|
    requires forall j | 0 <= j < |moves| :: Opens(moves[j])
    ensures NoneUnlocked(states[k])
    decreases k
  {
    hide Ok, Step, NoneUnlocked;
    if k == 0 {
      InitialUnlocked(states[0]);
    } else {
      RunStaysOk(states, moves);
      LockedThroughout(states, moves, k - 1);
      assert Step(states[k - 1], moves[k - 1].thread, moves[k - 1].action, states[k]);
      assert Ok(states[k - 1]) && Opens(moves[k - 1]);
      OpeningKeepsLocked(states[k - 1], moves[k - 1].thread, moves[k - 1].action, states[k]);
    }
  }

  lemma InitialUnlocked(s: State)
    requires Initial(s)
    ensures NoneUnlocked(s)
  {
  }

  /** A lock file that cannot be opened does let a second apply in beside the first: two threads,
      one inside with the lock, one past it. */
  lemma AnUnopenedFileLetsTwoIn() returns (states: seq<State>, moves: seq<Move>)
    ensures Runs(states, moves)
    ensures Inside(states[|states| - 1], 0) && Inside(states[|states| - 1], 1)
  {
    var idle, past := Thread(0, [], Between), Thread(1, [None], Between);
    var s0 := State([idle, idle], None, 0);
    var s1 := With(s0, 0, idle.(place := Waiting(0))).(next := 1);
    var s2 := With(s1, 0, idle.(place := Taken(0))).(locked := Some(0));
    var s3 := With(s2, 1, past);
    assert Step(s0, 0, HoldOpen, s1) && Step(s1, 0, TryLock, s2);
    assert s2.threads[1] == idle && idle.guards + [None] == [None];
    assert Step(s2, 1, HoldUnopened, s3);
    states, moves := [s0, s1, s2, s3], [Move(0, HoldOpen), Move(0, TryLock), Move(1, HoldUnopened)];
    hide Step, With;
    forall k | 0 <= k < 3
      ensures Step(states[k], moves[k].thread, moves[k].action, states[k + 1])
    {
      assert k == 0 || k == 1 || k == 2;
    }
  }
}
