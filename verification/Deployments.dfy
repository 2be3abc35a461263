/**
 * Deployments and gatekeeper changes over the lock scripts: each reads the
 * machine's manifests, works for minutes, takes the lock, reads again under it,
 * then deposits or refuses. The lock is not an assumption here: it is the
 * directory and the interleaved scripts of LockProtocol.
 */
module Deployments {
  import opened Options
  import opened LockLines
  import Lock = LockProtocol
  import opened Ports

  /** Where the process that runs a deployment stands. */
  datatype Work =
    | Resting
    /** A manifest to deposit, its ports and its door settled on a reading minutes old. */
    | Prepared(slug: string, manifest: Manifest)
    /** Read again under the lock, and agreed: what the machine carried for this slug then. */
    | Confirmed(slug: string, manifest: Manifest, seen: Option<Option<Manifest>>)

  datatype State = State(lock: Lock.State, sites: Sites, work: seq<Work>)

  datatype Action =
    /** A step of a lock script, or time passing. */
    | LockAction(action: Lock.Action)
    | Prepare(p: nat, slug: string, manifest: Manifest)
    | Confirm(p: nat)
    | Refuse(p: nat)
    | Deposit(p: nat)
    /** The gatekeeper, or `sitesolide lock`, changes a deposited site's door. */
    | ChangeDoor(p: nat, slug: string, door: Door)
    | Remove(p: nat, slug: string)

  ghost predicate Init(s: State) {
    && Lock.Init(s.lock)
    && |s.work| == |s.lock.procs|
    && Disjoint(s.sites)
    && forall p | 0 <= p < |s.work| :: s.work[p].Resting?
  }

  function Carried(sites: Sites, slug: string): Option<Option<Manifest>> {
    if slug in sites then Some(sites[slug]) else None
  }

  /** confirmDoorUnderLock: an absent manifest contradicts nothing, an unreadable one authorises nothing. */
  predicate DoorAgrees(sites: Sites, slug: string, door: Door) {
    slug in sites ==> sites[slug].Some? && sites[slug].value.door == door
  }

  predicate Holding(s: State, p: nat) {
    p < |s.lock.procs| && s.lock.procs[p].Held?
  }

  ghost predicate Enabled(s: State, a: Action) {
    match a
    case LockAction(action) => Lock.Enabled(s.lock, action)
    case Prepare(p, _, _) => p < |s.work| && s.work[p].Resting?
    case Confirm(p) =>
      && p < |s.work| && Holding(s, p) && s.work[p].Prepared?
      && DoorAgrees(s.sites, s.work[p].slug, s.work[p].manifest.door)
      && PortsClear(s.work[p].slug, s.work[p].manifest, s.sites)
    case Refuse(p) => p < |s.work| && s.work[p].Prepared?
    case Deposit(p) => p < |s.work| && Holding(s, p) && s.work[p].Confirmed?
    case ChangeDoor(p, slug, _) =>
      p < |s.work| && Holding(s, p) && s.work[p].Resting? && slug in s.sites && s.sites[slug].Some?
    case Remove(p, slug) => p < |s.work| && Holding(s, p) && s.work[p].Resting?
  }

  /** A hand back ends whatever its process was doing under the lock. */
  function WorkAfter(work: seq<Work>, a: Lock.Action): seq<Work> {
    if a.BeginRelease? && a.p < |work| then work[a.p := Resting] else work
  }

  function Do(s: State, a: Action): State
    requires Enabled(s, a)
  {
    match a
    case LockAction(action) => s.(lock := Lock.Do(s.lock, action), work := WorkAfter(s.work, action))
    case Prepare(p, slug, manifest) => s.(work := s.work[p := Prepared(slug, manifest)])
    case Confirm(p) =>
      var w := s.work[p];
      s.(work := s.work[p := Confirmed(w.slug, w.manifest, Carried(s.sites, w.slug))])
    case Refuse(p) => s.(work := s.work[p := Resting])
    case Deposit(p) => s.(sites := s.sites[s.work[p].slug := Some(s.work[p].manifest)], work := s.work[p := Resting])
    case ChangeDoor(p, slug, door) => s.(sites := s.sites[slug := Some(s.sites[slug].value.(door := door))])
    case Remove(p, slug) => s.(sites := s.sites - {slug})
  }

  /** What a process does to the machine's manifests, or decides on them, it does within fifteen minutes of its take. */
  predicate NotStale(s: State, a: Action) {
    !a.LockAction? && !a.Prepare? && !a.Refuse? && a.p < |s.lock.procs| ==> Lock.Holds(s.lock.procs[a.p], s.lock.now)
  }

  ghost predicate Run(states: seq<State>, actions: seq<Action>) {
    && |states| == |actions| + 1
    && Init(states[0])
    && forall i | 0 <= i < |actions| ::
         Enabled(states[i], actions[i]) && NotStale(states[i], actions[i]) && states[i + 1] == Do(states[i], actions[i])
  }

  // --- the lock's own run ----------------------------------------------------

  /** What an action is to the lock: its own step, or nothing. */
  function LockStep(s: State, a: Action): Lock.Action {
    if a.LockAction? then a.action else Lock.Tick(s.lock.now)
  }

  function LockStates(states: seq<State>): (r: seq<Lock.State>)
    ensures |r| == |states| && forall i | 0 <= i < |states| :: r[i] == states[i].lock
  {
    seq(|states|, i requires 0 <= i < |states| => states[i].lock)
  }

  function LockActions(states: seq<State>, actions: seq<Action>): (r: seq<Lock.Action>)
    requires |states| == |actions| + 1
    ensures |r| == |actions| && forall i | 0 <= i < |actions| :: r[i] == LockStep(states[i], actions[i])
  {
    seq(|actions|, i requires 0 <= i < |actions| => LockStep(states[i], actions[i]))
  }

  lemma LockRuns(states: seq<State>, actions: seq<Action>)
    requires Run(states, actions)
    ensures Lock.Run(LockStates(states), LockActions(states, actions))
  {
  }

  /** The assumptions exclusion needs, on the lock's part of the run. */
  ghost predicate LockAssumptions(states: seq<State>, actions: seq<Action>)
    requires |states| == |actions| + 1
  {
    && Lock.Fair(LockStates(states), LockActions(states, actions))
    && Lock.Undisturbed(LockStates(states), LockActions(states, actions))
  }

  // --- the invariant ---------------------------------------------------------

  /** A confirmed deployment whose lock is live still sees the machine it read. */
  ghost predicate StillTrue(s: State, w: Work) {
    w.Confirmed? ==>
      && Carried(s.sites, w.slug) == w.seen
      && DoorAgrees(s.sites, w.slug, w.manifest.door)
      && PortsClear(w.slug, w.manifest, s.sites)
  }

  ghost predicate Inv(s: State) {
    && |s.work| == |s.lock.procs|
    && Disjoint(s.sites)
    && (forall p | 0 <= p < |s.work| && s.work[p].Confirmed? :: s.lock.procs[p].Held?)
    && (forall p | 0 <= p < |s.work| && Lock.Holds(s.lock.procs[p], s.lock.now) :: StillTrue(s, s.work[p]))
  }

  lemma LockStepKeepsInv(s: State, a: Lock.Action)
    requires Inv(s) && Lock.Enabled(s.lock, a)
    ensures Inv(Do(s, LockAction(a)))
  {
    var t := Do(s, LockAction(a));
    forall p | 0 <= p < |t.work| && t.work[p].Confirmed?
      ensures t.lock.procs[p].Held?
      ensures Lock.Holds(t.lock.procs[p], t.lock.now) ==> Lock.Holds(s.lock.procs[p], s.lock.now)
    {
      assert s.work[p] == t.work[p] && s.lock.procs[p].Held?;
      assert t.lock.procs[p] == s.lock.procs[p];
    }
  }

  lemma DepositKeepsInv(s: State, p: nat)
    requires Inv(s) && Lock.Exclusive(s.lock) && Enabled(s, Deposit(p)) && NotStale(s, Deposit(p))
    ensures Inv(Do(s, Deposit(p)))
  {
    assert StillTrue(s, s.work[p]);
    ClearDepositKeepsDisjoint(s.work[p].slug, s.work[p].manifest, s.sites);
  }

  lemma ChangeDoorKeepsInv(s: State, p: nat, slug: string, door: Door)
    requires Inv(s) && Lock.Exclusive(s.lock) && Enabled(s, ChangeDoor(p, slug, door))
      && NotStale(s, ChangeDoor(p, slug, door))
    ensures Inv(Do(s, ChangeDoor(p, slug, door)))
  {
    DoorChangeKeepsDisjoint(slug, s.sites[slug].value, door, s.sites);
  }

  lemma ActionKeepsInv(s: State, a: Action)
    requires Inv(s) && Lock.Exclusive(s.lock) && Enabled(s, a) && NotStale(s, a)
    ensures Inv(Do(s, a))
  {
    match a
    case LockAction(action) => LockStepKeepsInv(s, action);
    case Deposit(p) => DepositKeepsInv(s, p);
    case ChangeDoor(p, slug, door) => ChangeDoorKeepsInv(s, p, slug, door);
    case _ =>
  }

  lemma {:induction false} RunKeepsInv(states: seq<State>, actions: seq<Action>, i: nat)
    requires Run(states, actions) && LockAssumptions(states, actions) && i < |states|
    ensures Inv(states[i])
  {
    if i > 0 {
      RunKeepsInv(states, actions, i - 1);
      LockRuns(states, actions);
      Lock.MutualExclusion(LockStates(states), LockActions(states, actions), i - 1);
      ActionKeepsInv(states[i - 1], actions[i - 1]);
    }
  }

  /**
   * In every interleaving of deployments, removals and gatekeeper changes, down
   * to the file-system steps of their lock scripts, the deposited manifests keep
   * pairwise disjoint ports, and none declares a reserved one, although each
   * port was chosen on an old reading.
   */
  lemma PortsStayDisjoint(states: seq<State>, actions: seq<Action>, i: nat)
    requires Run(states, actions) && LockAssumptions(states, actions) && i < |states|
    ensures Disjoint(states[i].sites)
  {
    RunKeepsInv(states, actions, i);
  }

  /**
   * At the moment a deployment deposits, its process is the only one that holds
   * the lock, and the machine carries for its slug exactly what was read again
   * under the lock: no deposit overwrites a door other than the one it agrees
   * with, nor a port taken since.
   */
  lemma DepositMeetsItsReading(states: seq<State>, actions: seq<Action>, i: nat, p: nat)
    requires Run(states, actions) && LockAssumptions(states, actions)
    requires i < |actions| && actions[i] == Deposit(p)
    ensures var s := states[i];
      && Lock.Holds(s.lock.procs[p], s.lock.now)
      && (forall q | 0 <= q < |s.lock.procs| && Lock.Holds(s.lock.procs[q], s.lock.now) :: q == p)
      && Carried(s.sites, s.work[p].slug) == s.work[p].seen
      && DoorAgrees(s.sites, s.work[p].slug, s.work[p].manifest.door)
      && PortsClear(s.work[p].slug, s.work[p].manifest, s.sites)
  {
    RunKeepsInv(states, actions, i);
    LockRuns(states, actions);
    Lock.MutualExclusion(LockStates(states), LockActions(states, actions), i);
  }

  /**
   * A deposited site's door changes, or the site goes, only by a gatekeeper's
   * change or a removal, made by a process that holds the lock: a deposit never
   * leaves another door than the one it found.
   */
  lemma DoorsChangeOnlyUnderTheLock(states: seq<State>, actions: seq<Action>, i: nat, slug: string)
    requires Run(states, actions) && LockAssumptions(states, actions) && i < |actions|
    requires slug in states[i].sites && states[i].sites[slug].Some?
    requires slug in states[i + 1].sites ==>
      states[i + 1].sites[slug].None? || states[i + 1].sites[slug].value.door != states[i].sites[slug].value.door
    ensures (actions[i].ChangeDoor? || actions[i].Remove?) && actions[i].slug == slug
    ensures actions[i].p < |states[i].lock.procs| && Lock.Holds(states[i].lock.procs[actions[i].p], states[i].lock.now)
  {
    RunKeepsInv(states, actions, i);
    if actions[i].Deposit? {
      DepositMeetsItsReading(states, actions, i, actions[i].p);
    }
  }

  /** The site an action is about. */
  function Concerned(s: State, a: Action): Option<string>
    requires Enabled(s, a)
  {
    match a
    case Deposit(p) => Some(s.work[p].slug)
    case ChangeDoor(_, slug, _) => Some(slug)
    case Remove(_, slug) => Some(slug)
    case _ => None
  }

  /**
   * Each action changes at most the one site it is about: a deposit leaves the
   * manifest prepared for it, a removal nothing, a door change that door in the
   * manifest that stood; everything else on the machine is as it was.
   */
  lemma OneSiteAtATime(states: seq<State>, actions: seq<Action>, i: nat, slug: string)
    requires Run(states, actions) && i < |actions|
    ensures Concerned(states[i], actions[i]) != Some(slug) ==>
      Carried(states[i + 1].sites, slug) == Carried(states[i].sites, slug)
    ensures actions[i].Deposit? ==>
      var w := states[i].work[actions[i].p]; Carried(states[i + 1].sites, w.slug) == Some(Some(w.manifest))
    ensures actions[i].Remove? ==> actions[i].slug !in states[i + 1].sites
    ensures actions[i].ChangeDoor? ==>
      var before, after := Carried(states[i].sites, actions[i].slug), Carried(states[i + 1].sites, actions[i].slug);
      && before.Some? && before.value.Some? && after.Some? && after.value.Some?
      && after.value.value.door == actions[i].door
      && after.value.value.services == before.value.value.services
      && after.value.value.several == before.value.value.several
  {
    var s, t := states[i], states[i + 1];
    if actions[i].Deposit? || actions[i].ChangeDoor? || actions[i].Remove? {
      assert Concerned(s, actions[i]) != Some(slug) ==> (slug in s.sites <==> slug in t.sites);
    }
  }

  // --- the assumptions leave deployments possible ----------------------------

  ghost predicate SoundRun(states: seq<State>, actions: seq<Action>) {
    Run(states, actions) && LockAssumptions(states, actions)
  }

  lemma Extend(states: seq<State>, actions: seq<Action>, a: Action) returns (longer: seq<State>, more: seq<Action>)
    requires SoundRun(states, actions)
    requires var s := states[|states| - 1];
      && Enabled(s, a) && NotStale(s, a)
      && Lock.FreshLine(s.lock, LockStep(s, a))
      && Lock.OutsideWindows(s.lock, LockStep(s, a))
      && Lock.Prompt(s.lock, LockStep(s, a))
    ensures SoundRun(longer, more)
    ensures longer[|longer| - 1] == Do(states[|states| - 1], a) && more == actions + [a]
  {
    longer, more := states + [Do(states[|states| - 1], a)], actions + [a];
    AssumptionsExtend(states, actions, a, longer, more);
  }

  lemma AssumptionsExtend(states: seq<State>, actions: seq<Action>, a: Action, longer: seq<State>, more: seq<Action>)
    requires |states| == |actions| + 1 && LockAssumptions(states, actions)
    requires |longer| == |states| + 1 && longer[..|states|] == states && more == actions + [a]
    requires var s := states[|states| - 1];
      && Lock.FreshLine(s.lock, LockStep(s, a))
      && Lock.OutsideWindows(s.lock, LockStep(s, a))
      && Lock.Prompt(s.lock, LockStep(s, a))
    ensures LockAssumptions(longer, more)
  {
    var was, now := LockActions(states, actions), LockActions(longer, more);
    assert forall i | 0 <= i < |actions| :: now[i] == was[i];
    assert forall i | 0 <= i < |states| :: LockStates(longer)[i] == LockStates(states)[i];
  }

  const DEPLOY: Lock.Client := Lock.Client("deploy", 1)
  const LINE: Holder := Holder("deploy", 1, 0)

  lemma PreparesAndAsks(slug: string, m: Manifest) returns (states: seq<State>, actions: seq<Action>)
    ensures SoundRun(states, actions)
    ensures states[|states| - 1] == State(Lock.State(0, None, [Lock.Mkdir(DEPLOY)], 0, {}), map[], [Prepared(slug, m)])
  {
    states, actions := [State(Lock.State(0, None, [Lock.Idle], 0, {}), map[], [Resting])], [];
    states, actions := Extend(states, actions, Prepare(0, slug, m));
    states, actions := Extend(states, actions, LockAction(Lock.BeginTake(0, DEPLOY)));
  }

  lemma PreparesAndMakes(slug: string, m: Manifest) returns (states: seq<State>, actions: seq<Action>)
    ensures SoundRun(states, actions)
    ensures states[|states| - 1] ==
      State(
        Lock.State(0, Some(Lock.Dir(0, None, 0)), [Lock.ReadClock(DEPLOY, Lock.Made(0, 0))], 1, {}),
        map[],
        [Prepared(slug, m)])
  {
    states, actions := PreparesAndAsks(slug, m);
    states, actions := Extend(states, actions, LockAction(Lock.Step(0)));
  }

  lemma PreparesAndTakes(slug: string, m: Manifest) returns (states: seq<State>, actions: seq<Action>)
    ensures SoundRun(states, actions)
    ensures states[|states| - 1] ==
      State(
        Lock.State(0, Some(Lock.Dir(0, Some(LINE), 0)), [Lock.Held(LINE, Lock.Made(0, 0))], 1, {LINE}),
        map[],
        [Prepared(slug, m)])
  {
    states, actions := PreparesAndMakes(slug, m);
    states, actions := Extend(states, actions, LockAction(Lock.Step(0)));
    states, actions := Extend(states, actions, LockAction(Lock.Step(0)));
  }

  /** A run that meets every assumption and ends with a deposit. */
  lemma ADeploymentDeposits(slug: string, m: Manifest)
    requires PortsClear(slug, m, map[])
    ensures exists states: seq<State>, actions: seq<Action> ::
      SoundRun(states, actions) && actions != [] && actions[|actions| - 1].Deposit?
        && states[|states| - 1].sites == map[slug := Some(m)]
  {
    var states, actions := PreparesAndTakes(slug, m);
    assert Lock.Holds(states[|states| - 1].lock.procs[0], 0);
    states, actions := Extend(states, actions, Confirm(0));
    states, actions := Extend(states, actions, Deposit(0));
    assert states[|states| - 1].sites == map[slug := Some(m)];
  }
}
