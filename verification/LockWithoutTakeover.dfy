/**
 * The same scripts in a run that contains no takeover: exclusion then needs no
 * assumption at all, neither on the clock, nor on the lines, nor on when a
 * mkdir may succeed, and it does not lapse after fifteen minutes.
 */
module LockWithoutTakeover {
  import opened Options
  import opened LockProtocol

  ghost predicate NoTakeover(actions: seq<Action>) {
    forall i | 0 <= i < |actions| :: !actions[i].BeginTakeover?
  }

  /** A process the lock in place belongs to. */
  predicate Occupies(pc: Pc) {
    pc.ReadClock? || pc.WriteLine? || pc.CleanUp? || pc.Held? || pc.Check? || pc.MoveAside?
  }

  /** What the lock in place looks like to the process it belongs to. */
  predicate IsLockOf(d: Dir, pc: Pc) {
    match pc
    case ReadClock(_, made) => d.id == made.id && d.holder.None?
    case WriteLine(_, made) => d.id == made.id && d.holder.None?
    case CleanUp(made) => d.id == made.id && d.holder.None?
    case Held(line, made) => d.id == made.id && d.holder == Some(line)
    case Check(job) => job.expected.Some? && d.holder == job.expected
    case MoveAside(job) => job.expected.Some? && d.holder == job.expected
    case _ => false
  }

  /** What a process may be doing when no takeover ever ran, and how the lock in place looks to it. */
  predicate CalmAt(lock: Option<Dir>, pc: Pc) {
    && !pc.PutBack? && !pc.Sweep?
    && (Removing(pc) ==> pc.job.next.None?)
    && (pc.Recheck? ==> pc.job.expected.Some? && pc.aside.holder == pc.job.expected)
    && (Occupies(pc) ==> lock.Some? && IsLockOf(lock.value, pc))
  }

  ghost predicate Calm(s: State) {
    && (forall p | 0 <= p < |s.procs| :: CalmAt(s.lock, s.procs[p]))
    && (forall p, q | 0 <= p < |s.procs| && 0 <= q < |s.procs| && Occupies(s.procs[p]) && Occupies(s.procs[q]) ::
      p == q)
  }

  /** A move of `p` that leaves the others' view of the lock alone. */
  lemma MoveKeepsCalm(s: State, p: nat, lock: Option<Dir>, pc: Pc)
    requires Calm(s) && p < |s.procs| && CalmAt(lock, pc)
    requires lock == s.lock || Occupies(s.procs[p]) || s.lock.None?
    requires Occupies(pc) ==> Occupies(s.procs[p]) || s.lock.None?
    ensures Calm(Goto(s.(lock := lock), p, pc))
  {
    var t := Goto(s.(lock := lock), p, pc);
    forall q | 0 <= q < |t.procs| ensures CalmAt(t.lock, t.procs[q]) {
      assert CalmAt(s.lock, s.procs[q]);
    }
  }

  lemma StepKeepsCalm(s: State, p: nat)
    requires Calm(s) && Enabled(s, Step(p))
    ensures Calm(StepOf(s, p))
  {
    var t := StepOf(s, p);
    assert CalmAt(s.lock, s.procs[p]);
    MoveKeepsCalm(s, p, t.lock, t.procs[p]);
    assert t.procs == Goto(s.(lock := t.lock), p, t.procs[p]).procs;
  }

  lemma ActionKeepsCalm(s: State, a: Action)
    requires Calm(s) && Enabled(s, a) && !a.BeginTakeover?
    ensures Calm(Do(s, a))
  {
    match a
    case Tick(_) =>
    case BeginTake(p, me) => MoveKeepsCalm(s, p, s.lock, Mkdir(me));
    case BeginRelease(p) =>
      assert CalmAt(s.lock, s.procs[p]);
      MoveKeepsCalm(s, p, s.lock, Check(Job(Some(s.procs[p].line), None)));
    case Step(p) => StepKeepsCalm(s, p);
    case WriteFails(p, emptied) =>
      assert CalmAt(s.lock, s.procs[p]);
      MoveKeepsCalm(s, p, Do(s, a).lock, CleanUp(s.procs[p].made));
  }

  lemma {:induction false} RunKeepsCalm(states: seq<State>, actions: seq<Action>, i: nat)
    requires Run(states, actions) && NoTakeover(actions) && i < |states|
    ensures Calm(states[i])
  {
    if i > 0 {
      RunKeepsCalm(states, actions, i - 1);
      ActionKeepsCalm(states[i - 1], actions[i - 1]);
    }
  }

  /**
   * Without takeovers, a process answered TAKEN, however long ago, is the only
   * one until it begins its hand back, and the lock in place is the directory
   * it made.
   */
  lemma MutualExclusionWithoutTakeover(states: seq<State>, actions: seq<Action>, i: nat, p: nat)
    requires Run(states, actions) && NoTakeover(actions) && i < |states|
    requires p < |states[i].procs| && states[i].procs[p].Held?
    ensures forall q | 0 <= q < |states[i].procs| && states[i].procs[q].Held? :: q == p
    ensures states[i].lock.Some? && states[i].lock.value.id == states[i].procs[p].made.id
    ensures states[i].lock.value.holder == Some(states[i].procs[p].line)
  {
    RunKeepsCalm(states, actions, i);
  }

  /**
   * Every hand back of such a run finds its own directory: it never has to put
   * one back. Nor does a failed write ever clean up another's.
   */
  lemma HandBackFindsItsOwn(states: seq<State>, actions: seq<Action>, i: nat, p: nat)
    requires Run(states, actions) && NoTakeover(actions) && i < |states|
    requires p < |states[i].procs|
    ensures !states[i].procs[p].PutBack?
    ensures states[i].procs[p].CleanUp? ==>
      states[i].lock.Some? && states[i].lock.value.id == states[i].procs[p].made.id
    ensures states[i].procs[p].MoveAside? ==>
      states[i].lock.Some? && states[i].lock.value.holder == states[i].procs[p].job.expected
  {
    RunKeepsCalm(states, actions, i);
  }
}
