/**
 * Why exclusion assumes that nothing is put in the lock's place while a script
 * has the directory of a live claim set aside: wherever that happens beside a
 * live holder, exclusion is lost a step or two later. And runs that show what
 * the assumption leaves possible, and what happens without it.
 */
module LockWindow {
  import opened Options
  import opened LockLines
  import opened LockProtocol
  import opened LockRemoval

  // --- no state can spare the assumption -------------------------------------

  /**
   * A mkdir beside a live holder whose directory is set aside: two more steps of that
   * take, and two processes hold the lock.
   */
  lemma MkdirMakesTwoHolders(s: State, p: nat, q: nat, r: nat)
    requires Enabled(s, Step(p)) && s.procs[p].Mkdir? && s.lock.None?
    requires Guards(s, q, r) && s.procs[r].Held?
    requires Holder(s.procs[p].me.who, s.procs[p].me.pid, s.now) !in s.used
    ensures var made := StepOf(s, p);
      && Enabled(made, Step(p)) && FreshLine(made, Step(p))
      && var timed := StepOf(made, p);
      && Enabled(timed, Step(p)) && Prompt(timed, Step(p))
      && var taken := StepOf(timed, p);
      && p != r && Holds(taken.procs[p], taken.now) && Holds(taken.procs[r], taken.now) && !Exclusive(taken)
  {
  }

  /** The steps of `q` up to the end of its put-back. */
  function ThroughPutBack(s: State, q: nat): State
    requires q < |s.procs| && SetAsideUnexpected(s.procs[q], s.now)
  {
    if s.procs[q].Recheck? then StepOf(StepOf(s, q), q) else StepOf(s, q)
  }

  /**
   * A put-back beside one: the other put-back is then blocked, and the holder's
   * directory is no longer kept anywhere.
   */
  lemma PutBackLosesALock(s: State, p: nat, q: nat, r: nat)
    requires DirsDistinct(s) && Enabled(s, Step(p)) && s.procs[p].PutBack? && s.lock.None?
    requires p != q && Guards(s, q, r) && s.procs[r].Held?
    ensures !Exclusive(ThroughPutBack(StepOf(s, p), q))
  {
    var t := ThroughPutBack(StepOf(s, p), q);
    StepKeepsDirs(s, p);
    var d := s.procs[q].aside;
    assert t.procs[q].Sweep? && t.lock == Some(s.procs[p].aside);
    forall e | Safe(t, e)
      ensures e.id != d.id
    {
      NotAside(s, p, q, t, e);
    }
    assert Holds(t.procs[r], t.now);
  }

  lemma NotAside(s: State, p: nat, q: nat, t: State, e: Dir)
    requires DirsDistinct(s) && p < |s.procs| && q < |s.procs| && p != q
    requires AsideOf(s.procs[p]).Some? && AsideOf(s.procs[q]).Some?
    requires t.lock == AsideOf(s.procs[p]) && t.now == s.now && |t.procs| == |s.procs| && Safe(t, e)
    requires t.procs[q].Sweep? && t.procs[p].Sweep? && forall k | 0 <= k < |s.procs| && k != p && k != q ::
      t.procs[k] == s.procs[k]
    ensures e.id != AsideOf(s.procs[q]).value.id
  {
    if t.lock != Some(e) {
      var k :| 0 <= k < |t.procs| && SetAsideUnexpected(t.procs[k], t.now) && t.procs[k].aside == e;
      assert AsideOf(s.procs[k]) == Some(e);
    }
  }

  // --- runs ------------------------------------------------------------------

  ghost predicate FairRun(states: seq<State>, actions: seq<Action>) {
    Run(states, actions) && Fair(states, actions)
  }

  lemma Extend(states: seq<State>, actions: seq<Action>, a: Action) returns (longer: seq<State>, more: seq<Action>)
    requires FairRun(states, actions)
    requires var s := states[|states| - 1]; Enabled(s, a) && FreshLine(s, a) && Prompt(s, a)
    ensures FairRun(longer, more)
    ensures longer == states + [Do(states[|states| - 1], a)] && more == actions + [a]
  {
    longer, more := states + [Do(states[|states| - 1], a)], actions + [a];
  }

  /** The same, for what follows from where the run ends. */
  lemma Continue(states: seq<State>, actions: seq<Action>, a: Action) returns (longer: seq<State>, more: seq<Action>)
    requires FairRun(states, actions)
    requires var s := states[|states| - 1]; Enabled(s, a) && FreshLine(s, a) && Prompt(s, a)
    ensures FairRun(longer, more)
    ensures longer[|longer| - 1] == Do(states[|states| - 1], a)
    ensures Undisturbed(states, actions) && OutsideWindows(states[|states| - 1], a) ==> Undisturbed(longer, more)
  {
    longer, more := Extend(states, actions, a);
  }

  ghost predicate NothingUnexpectedAside(s: State) {
    forall q | 0 <= q < |s.procs| :: !SetAsideUnexpected(s.procs[q], s.now)
  }

  /** Process `p`, about to create a lock nobody has, takes it. */
  lemma CreatesIt(states: seq<State>, actions: seq<Action>, p: nat, me: Client)
    returns (longer: seq<State>, more: seq<Action>)
    requires FairRun(states, actions)
    requires var s := states[|states| - 1];
      p < |s.procs| && s.procs[p] == Mkdir(me) && s.lock.None? && Holder(me.who, me.pid, s.now) !in s.used
    ensures FairRun(longer, more)
    ensures var s := states[|states| - 1];
      var line := Holder(me.who, me.pid, s.now);
      var held := s.procs[p := Held(line, Made(s.nextId, s.now))];
      longer[|longer| - 1] == State(s.now, Some(Dir(s.nextId, Some(line), s.now)), held, s.nextId + 1, s.used + {line})
    ensures Undisturbed(states, actions) && NothingUnexpectedAside(states[|states| - 1]) ==> Undisturbed(longer, more)
  {
    var s := states[|states| - 1];
    longer, more := Continue(states, actions, Step(p));
    longer, more := Continue(longer, more, Step(p));
    longer, more := Continue(longer, more, Step(p));
    assert longer[|longer| - 1].procs == s.procs[p := longer[|longer| - 1].procs[p]];
  }

  /** Process `p` takes a free lock without anybody else moving. */
  lemma Takes(states: seq<State>, actions: seq<Action>, p: nat, me: Client)
    returns (longer: seq<State>, more: seq<Action>)
    requires FairRun(states, actions)
    requires var s := states[|states| - 1];
      p < |s.procs| && s.procs[p].Idle? && s.lock.None? && Holder(me.who, me.pid, s.now) !in s.used
    ensures FairRun(longer, more)
    ensures var s := states[|states| - 1];
      var line := Holder(me.who, me.pid, s.now);
      var held := s.procs[p := Held(line, Made(s.nextId, s.now))];
      longer[|longer| - 1] == State(s.now, Some(Dir(s.nextId, Some(line), s.now)), held, s.nextId + 1, s.used + {line})
    ensures Undisturbed(states, actions) && NothingUnexpectedAside(states[|states| - 1]) ==> Undisturbed(longer, more)
  {
    longer, more := Continue(states, actions, BeginTake(p, me));
    longer, more := CreatesIt(longer, more, p, me);
  }

  /** Process `p` begins to hand back the lock in place, its own, and renames it. */
  lemma BeginsToHandBack(states: seq<State>, actions: seq<Action>, p: nat)
    returns (longer: seq<State>, more: seq<Action>)
    requires FairRun(states, actions)
    requires var s := states[|states| - 1];
      p < |s.procs| && s.procs[p].Held? && s.lock.Some? && s.lock.value.holder == Some(s.procs[p].line)
    ensures FairRun(longer, more)
    ensures var s := states[|states| - 1];
      longer[|longer| - 1] == Goto(s.(lock := None), p, Recheck(Job(Some(s.procs[p].line), None), s.lock.value))
  {
    var s := states[|states| - 1];
    longer, more := Continue(states, actions, BeginRelease(p));
    longer, more := Continue(longer, more, Step(p));
    longer, more := Continue(longer, more, Step(p));
    assert longer[|longer| - 1].procs == s.procs[p := longer[|longer| - 1].procs[p]];
  }

  /** It hands it back without anybody else moving. */
  lemma HandsBack(states: seq<State>, actions: seq<Action>, p: nat) returns (longer: seq<State>, more: seq<Action>)
    requires FairRun(states, actions)
    requires var s := states[|states| - 1];
      p < |s.procs| && s.procs[p].Held? && s.lock.Some? && s.lock.value.holder == Some(s.procs[p].line)
    ensures FairRun(longer, more)
    ensures longer[|longer| - 1] == Goto(states[|states| - 1].(lock := None), p, Idle)
  {
    var s := states[|states| - 1];
    longer, more := BeginsToHandBack(states, actions, p);
    longer, more := Continue(longer, more, Step(p));
    longer, more := Continue(longer, more, Step(p));
    assert longer[|longer| - 1].procs == s.procs[p := Idle];
  }

  /** The lock in place, judged stale by its line or, without a readable one, by its age. */
  predicate Stale(d: Dir, expected: Option<Holder>, now: nat) {
    Matches(d, expected, now) && (expected.Some? ==> Expired(expected.value, now))
  }

  /** Process `p` judges the lock in place stale, and stops just before its rename. */
  lemma BeginsToTakeOver(states: seq<State>, actions: seq<Action>, p: nat, me: Client,
      expected: Option<Holder>) returns (longer: seq<State>, more: seq<Action>)
    requires FairRun(states, actions)
    requires var s := states[|states| - 1];
      p < |s.procs| && s.procs[p].Idle? && s.lock.Some? && Stale(s.lock.value, expected, s.now)
    ensures FairRun(longer, more)
    ensures longer[|longer| - 1] == Goto(states[|states| - 1], p, MoveAside(Job(expected, Some(me))))
    ensures Undisturbed(states, actions) ==> Undisturbed(longer, more)
  {
    var s := states[|states| - 1];
    longer, more := Continue(states, actions, BeginTakeover(p, me, expected));
    longer, more := Continue(longer, more, Step(p));
    assert longer[|longer| - 1].procs == s.procs[p := MoveAside(Job(expected, Some(me)))];
  }

  /** From there, with the same lock still in place, it erases it: only the take is left. */
  lemma ErasesTheStale(states: seq<State>, actions: seq<Action>, p: nat, me: Client,
      expected: Option<Holder>) returns (longer: seq<State>, more: seq<Action>)
    requires FairRun(states, actions)
    requires var s := states[|states| - 1];
      && p < |s.procs| && s.procs[p] == MoveAside(Job(expected, Some(me)))
      && s.lock.Some? && Stale(s.lock.value, expected, s.now)
    ensures FairRun(longer, more)
    ensures longer[|longer| - 1] == Goto(states[|states| - 1].(lock := None), p, Mkdir(me))
    ensures Undisturbed(states, actions) ==> Undisturbed(longer, more)
  {
    var s := states[|states| - 1];
    longer, more := Continue(states, actions, Step(p));
    longer, more := Continue(longer, more, Step(p));
    longer, more := Continue(longer, more, Step(p));
    assert longer[|longer| - 1].procs == s.procs[p := Mkdir(me)];
  }

  const LATE: nat := STALE_MS + 1

  const A: Client := Client("a", 0)
  const B: Client := Client("b", 1)
  const C: Client := Client("c", 2)
  const FIRST: Holder := Holder("a", 0, 0)

  /**
   * Process 0's lock outlives fifteen minutes; process 1 is about to set it aside, and
   * process 0 hands it back first.
   */
  lemma HandedBackUnderATakeover() returns (states: seq<State>, actions: seq<Action>)
    ensures FairRun(states, actions)
    ensures states[|states| - 1] == State(LATE, None, [Idle, MoveAside(Job(Some(FIRST), Some(B))), Idle], 1, {FIRST})
  {
    states, actions := [State(0, None, [Idle, Idle, Idle], 0, {})], [];
    states, actions := Takes(states, actions, 0, A);
    states, actions := Continue(states, actions, Tick(LATE));
    states, actions := BeginsToTakeOver(states, actions, 1, B, Some(FIRST));
    states, actions := HandsBack(states, actions, 0);
  }

  /** The line and the directory of process 2 in the run that follows. */
  const SECOND: Holder := Holder("c", 2, LATE)
  const TAKEN: Dir := Dir(1, Some(SECOND), LATE)

  /** Process 2 takes the lock, and process 1 renames it aside after all. */
  lemma AnothersLockIsMovedAside() returns (states: seq<State>, actions: seq<Action>)
    ensures FairRun(states, actions)
    ensures states[|states| - 1] ==
      State(LATE, None, [Idle, Recheck(Job(Some(FIRST), Some(B)), TAKEN), Held(SECOND, Made(1, LATE))], 2,
        {FIRST, SECOND})
  {
    assert "a" != "c";
    states, actions := HandedBackUnderATakeover();
    states, actions := Takes(states, actions, 2, C);
    states, actions := Continue(states, actions, Step(1));
  }

  /**
   * Process 0 takes the lock and outlives fifteen minutes; process 1 begins to
   * take it over and stops between its check and its rename; process 0 hands
   * back, process 2 takes; process 1 sets process 2's lock aside, and before it
   * puts it back process 0 takes the lock anew.
   */
  lemma TwoHolders() returns (states: seq<State>, actions: seq<Action>)
    ensures FairRun(states, actions)
    ensures var s := states[|states| - 1];
      && |s.procs| == 3 && s.now == LATE && s.lock.Some?
      && Holds(s.procs[0], s.now) && s.procs[1] == Recheck(Job(Some(FIRST), Some(B)), TAKEN)
      && s.procs[2] == Held(SECOND, Made(1, LATE))
  {
    states, actions := AnothersLockIsMovedAside();
    assert Holder("a", 0, LATE) !in {FIRST, SECOND} by { assert "a" != "c"; }
    states, actions := Takes(states, actions, 0, A);
  }

  lemma MkdirInTheWindowBreaksExclusion()
    ensures exists states, actions :: FairRun(states, actions) && !Exclusive(states[|states| - 1])
  {
    var states, actions := TwoHolders();
    var s := states[|states| - 1];
    assert Holds(s.procs[0], s.now) && Holds(s.procs[2], s.now);
    assert !Exclusive(s);
  }

  /**
   * From there process 1 finds its put-back blocked, and sweeps: its last step
   * erases the directory of process 2, which still holds the lock.
   */
  lemma ATakeoverErasesAHeldLock()
    ensures exists states: seq<State>, actions: seq<Action> ::
      (&& FairRun(states, actions) && |actions| > 0
       && var s, a := states[|actions| - 1], actions[|actions| - 1];
       && |s.procs| == 3 && a == Step(1) && s.procs[1].Sweep?
       && Holds(s.procs[2], s.now) && Erased(s, a).Some? && Fits(Erased(s, a).value, s.procs[2]))
  {
    var states, actions := TwoHolders();
    states, actions := Continue(states, actions, Step(1));
    states, actions := Continue(states, actions, Step(1));
    var s := states[|states| - 1];
    assert s.procs[1] == Sweep(Job(Some(FIRST), Some(B)), Some(TAKEN));
    assert Fits(TAKEN, s.procs[2]);
    var longer, more := Extend(states, actions, Step(1));
    assert longer[|more| - 1] == s && more[|more| - 1] == Step(1);
  }

  /**
   * The assumptions leave takeovers possible: a run that meets them all, at the
   * end of which process 1 holds the lock it took over from process 0, which
   * outlived fifteen minutes and has not handed it back.
   */
  lemma TakeoverWithinTheAssumptions()
    ensures exists states: seq<State>, actions: seq<Action> ::
      (&& FairRun(states, actions) && Undisturbed(states, actions)
       && |states[|states| - 1].procs| == 2
       && states[|states| - 1].procs[0].Held?
       && Holds(states[|states| - 1].procs[1], states[|states| - 1].now))
  {
    var states, actions := [State(0, None, [Idle, Idle], 0, {})], [];
    states, actions := Takes(states, actions, 0, A);
    states, actions := Continue(states, actions, Tick(LATE));
    states, actions := BeginsToTakeOver(states, actions, 1, B, Some(FIRST));
    states, actions := ErasesTheStale(states, actions, 1, B, Some(FIRST));
    states, actions := CreatesIt(states, actions, 1, B);
  }

  /**
   * And they leave the takeovers of abandoned takes possible: process 0 is
   * killed between its mkdir and its holder line, and once its directory is
   * fifteen minutes old process 1 takes that over.
   */
  lemma AbandonedTakeIsTakenOver()
    ensures exists states: seq<State>, actions: seq<Action> ::
      (&& FairRun(states, actions) && Undisturbed(states, actions)
       && |states[|states| - 1].procs| == 2
       && states[|states| - 1].procs[0].WriteLine?
       && Holds(states[|states| - 1].procs[1], states[|states| - 1].now))
  {
    var states, actions := [State(0, None, [Idle, Idle], 0, {})], [];
    states, actions := Continue(states, actions, BeginTake(0, A));
    states, actions := Continue(states, actions, Step(0));
    states, actions := Continue(states, actions, Step(0));
    states, actions := Continue(states, actions, Tick(LATE));
    assert states[|states| - 1] == State(LATE, Some(Dir(0, None, 0)), [WriteLine(FIRST, Made(0, 0)), Idle], 1, {FIRST});
    states, actions := BeginsToTakeOver(states, actions, 1, B, None);
    states, actions := ErasesTheStale(states, actions, 1, B, None);
    states, actions := CreatesIt(states, actions, 1, B);
  }
}
