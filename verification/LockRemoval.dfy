/**
 * What one removal script does to directories, whatever other processes do
 * between its steps: no assumption on the run.
 */
module LockRemoval {
  import opened Options
  import opened LockProtocol

  /** The directory step `a` erases for good, if any. */
  function Erased(s: State, a: Action): Option<Dir>
    requires Enabled(s, a)
  {
    if !a.Step? then None
    else match s.procs[a.p]
      case Erase(_, aside) => Some(aside)
      case Sweep(_, left) => left
      case CleanUp(_) => s.lock
      case _ => None
  }

  predicate Erases(s: State, a: Action, d: nat)
    requires Enabled(s, a)
  {
    Erased(s, a).Some? && Erased(s, a).value.id == d
  }

  // --- from its mkdir to its end ---------------------------------------------

  predicate Carries(pc: Pc, d: nat) {
    AsideOf(pc).Some? && AsideOf(pc).value.id == d
  }

  /** A directory is somewhere: in place, or held aside by a script. */
  ghost predicate Present(s: State, d: nat) {
    || (s.lock.Some? && s.lock.value.id == d)
    || exists p | 0 <= p < |s.procs| :: Carries(s.procs[p], d)
  }

  /** A mkdir that succeeds: the directory it makes is the machine's next. */
  predicate Makes(s: State, a: Action) {
    a.Step? && a.p < |s.procs| && s.procs[a.p].Mkdir? && s.lock.None?
  }

  /** Conservation: a directory disappears only in the step that erases it. */
  lemma DisappearsOnlyErased(s: State, a: Action, d: nat)
    requires Enabled(s, a) && Present(s, d) && !Present(Do(s, a), d)
    ensures Erases(s, a, d)
  {
    var t := Do(s, a);
    if s.lock.Some? && s.lock.value.id == d {
      if a.Step? {
        assert !Carries(t.procs[a.p], d);
      }
    } else {
      var p :| 0 <= p < |s.procs| && Carries(s.procs[p], d);
      assert !Carries(t.procs[p], d);
    }
  }

  lemma ErasedIsGone(s: State, a: Action, d: nat)
    requires DirsDistinct(s) && Enabled(s, a) && Erases(s, a, d)
    ensures !Present(Do(s, a), d)
  {
    var t := Do(s, a);
    forall p | 0 <= p < |t.procs|
      ensures !Carries(t.procs[p], d)
    {
      assert p != a.p ==> t.procs[p] == s.procs[p];
    }
  }

  lemma GoneStaysGone(s: State, a: Action, d: nat)
    requires Enabled(s, a) && d < s.nextId && !Present(s, d)
    ensures !Present(Do(s, a), d)
  {
    var t := Do(s, a);
    forall p | 0 <= p < |t.procs|
      ensures !Carries(t.procs[p], d)
    {
      assert !Carries(s.procs[p], d);
    }
    if a.Step? {
      assert !Carries(s.procs[a.p], d);
    }
  }

  lemma StaysUnlessErased(s: State, a: Action, d: nat)
    requires DirsDistinct(s) && Enabled(s, a) && d < s.nextId
    ensures s.nextId <= Do(s, a).nextId
    ensures Present(Do(s, a), d) <==> Present(s, d) && !Erases(s, a, d)
  {
    if !Present(s, d) {
      GoneStaysGone(s, a, d);
    } else if Erases(s, a, d) {
      ErasedIsGone(s, a, d);
    } else if !Present(Do(s, a), d) {
      DisappearsOnlyErased(s, a, d);
    }
  }

  lemma MadeIsPresent(s: State, a: Action)
    requires Enabled(s, a) && Makes(s, a)
    ensures Present(Do(s, a), s.nextId) && s.nextId < Do(s, a).nextId
  {
  }

  /** A directory a take made is somewhere exactly until the one step that erases it, in any run, and never after. */
  lemma {:induction false} LastsUntilErased(states: seq<State>, actions: seq<Action>, m: nat, i: nat)
    requires Run(states, actions) && m < i < |states| && Makes(states[m], actions[m])
    ensures states[m].nextId < states[i].nextId
    ensures var d := states[m].nextId;
      Present(states[i], d) <==> forall j | m < j < i :: !Erases(states[j], actions[j], d)
  {
    if i > m + 1 {
      LastsUntilErased(states, actions, m, i - 1);
      RunKeepsDirs(states, actions, i - 1);
      StaysUnlessErased(states[i - 1], actions[i - 1], states[m].nextId);
    } else {
      MadeIsPresent(states[m], actions[m]);
    }
  }

  // --- what it may erase -----------------------------------------------------

  ghost predicate ErasesAsExpected(s: State) {
    forall p | 0 <= p < |s.procs| && s.procs[p].Erase? :: Matches(s.procs[p].aside, s.procs[p].job.expected, s.now)
  }

  lemma {:induction false} EraseExpected(states: seq<State>, actions: seq<Action>, i: nat)
    requires Run(states, actions) && i < |states|
    ensures ErasesAsExpected(states[i])
  {
    if i > 0 {
      EraseExpected(states, actions, i - 1);
    }
  }

  /** The put-back of `d` by `p` at step `j` found another lock in place. */
  ghost predicate PutBackBlocked(states: seq<State>, actions: seq<Action>, j: nat, p: nat, d: Dir)
    requires Run(states, actions) && j < |actions|
  {
    && actions[j] == Step(p)
    && states[j].procs[p].PutBack? && states[j].procs[p].aside == d
    && states[j].lock.Some?
  }

  lemma {:induction false} SweepWasBlocked(states: seq<State>, actions: seq<Action>, i: nat, p: nat) returns (j: nat)
    requires Run(states, actions) && i < |states| && p < |states[i].procs|
    requires states[i].procs[p].Sweep? && states[i].procs[p].left.Some?
    ensures j < i && PutBackBlocked(states, actions, j, p, states[i].procs[p].left.value)
    ensures states[j].procs[p].job == states[i].procs[p].job
  {
    assert i > 0;
    if states[i - 1].procs[p].Sweep? {
      j := SweepWasBlocked(states, actions, i - 1, p);
    } else {
      j := i - 1;
    }
  }

  /**
   * A takeover or a hand back erases a directory other than the one it expected
   * only if another lock stood in place at its put-back step.
   */
  lemma ErasesOnlyWhatItExpected(states: seq<State>, actions: seq<Action>, i: nat, p: nat)
    requires Run(states, actions) && i < |actions| && actions[i] == Step(p)
    requires Removing(states[i].procs[p]) && Erased(states[i], actions[i]).Some?
    ensures var d := Erased(states[i], actions[i]).value;
      || Matches(d, states[i].procs[p].job.expected, states[i].now)
      || exists j :: 0 <= j < i && PutBackBlocked(states, actions, j, p, d)
  {
    EraseExpected(states, actions, i);
    if states[i].procs[p].Sweep? {
      var j := SweepWasBlocked(states, actions, i, p);
    }
  }

  // --- one removal, from its first condition to its end ----------------------

  /** Step `m` of `p` moves `d` aside. */
  predicate MovesAside(s: State, a: Action, p: nat, d: Dir) {
    a == Step(p) && p < |s.procs| && s.procs[p].MoveAside? && s.lock == Some(d)
  }

  /** The script has exactly this directory aside. */
  predicate HasAside(pc: Pc, d: Dir) {
    match pc
    case Recheck(_, aside) => aside == d
    case Erase(_, aside) => aside == d
    case PutBack(_, aside) => aside == d
    case _ => false
  }

  /** From the move at `m` up to state `k`, `p` has `d` aside, untouched: between its steps nobody else reaches it. */
  ghost predicate KeepsAside(states: seq<State>, actions: seq<Action>, m: nat, k: nat, p: nat, d: Dir)
    requires Run(states, actions) && m < k < |states|
  {
    && MovesAside(states[m], actions[m], p, d)
    && forall i | m < i <= k :: p < |states[i].procs| && HasAside(states[i].procs[p], d)
  }

  /** The script changes nothing on the machine. */
  predicate ChangesNothing(s: State, t: State, p: nat) {
    p < |s.procs| == |t.procs| && t == s.(procs := s.procs[p := t.procs[p]])
  }

  /** The removal that `p` is in at state `i` began with its first condition at state `b`. */
  ghost predicate Began(states: seq<State>, actions: seq<Action>, b: nat, i: nat, p: nat)
    requires Run(states, actions) && i < |states|
  {
    && 0 < b <= i && p < |states[b - 1].procs| && !Removing(states[b - 1].procs[p])
    && p < |states[i].procs| && Removing(states[i].procs[p])
    && (forall k | b <= k <= i ::
          p < |states[k].procs| && Removing(states[k].procs[p]) && states[k].procs[p].job == states[i].procs[p].job)
    && states[b].procs[p].Check?
  }

  /** A removal changes only by its own steps; what is not one becomes one only by beginning. */
  lemma StepOfRemoval(s: State, a: Action, p: nat)
    requires Enabled(s, a) && p < |s.procs| && Removing(Do(s, a).procs[p])
    ensures !Removing(s.procs[p]) ==> Do(s, a).procs[p].Check?
    ensures Removing(s.procs[p]) ==> Do(s, a).procs[p].job == s.procs[p].job
    ensures a != Step(p) && Removing(s.procs[p]) ==> Do(s, a).procs[p] == s.procs[p]
  {
  }

  /** What a removal has done by state `i`, told by where it stands. */
  ghost predicate History(states: seq<State>, actions: seq<Action>, b: nat, i: nat, p: nat, m: nat, j: nat)
    requires Run(states, actions) && i < |states| && Began(states, actions, b, i, p)
  {
    match states[i].procs[p]
    case Check(_) => Untouched(states, b, i, p)
    case MoveAside(_) => Untouched(states, b, i, p)
    case Recheck(_, aside) => b <= m < i && KeepsAside(states, actions, m, i, p, aside)
    case Erase(_, aside) => b <= m < j < i && KeepsAside(states, actions, m, i, p, aside)
      && Rechecked(states, actions, j, p)
    case PutBack(_, aside) => b <= m < i && KeepsAside(states, actions, m, i, p, aside)
    case Sweep(_, left) =>
      && b <= m < j < i && states[j].procs[p].PutBack?
      && KeepsAside(states, actions, m, j, p, states[j].procs[p].aside)
      && (if left.Some? then PutBackBlocked(states, actions, j, p, left.value) else PutsBack(states, actions, j, p))
    case _ => false
  }

  /** Nothing moved yet: the script is still at its first condition, or about to rename. */
  ghost predicate Untouched(states: seq<State>, b: nat, i: nat, p: nat)
    requires i < |states|
  {
    forall k | b <= k <= i :: p < |states[k].procs| && (states[k].procs[p].Check? || states[k].procs[p].MoveAside?)
  }

  /** The second condition, at step `j`, finds what was expected. */
  ghost predicate Rechecked(states: seq<State>, actions: seq<Action>, j: nat, p: nat)
    requires Run(states, actions) && j < |actions|
  {
    && actions[j] == Step(p) && p < |states[j].procs| && states[j].procs[p].Recheck?
    && Matches(states[j].procs[p].aside, states[j].procs[p].job.expected, states[j].now)
  }

  /** The put-back at step `j` finds nothing in place, and leaves there the very directory set aside. */
  ghost predicate PutsBack(states: seq<State>, actions: seq<Action>, j: nat, p: nat)
    requires Run(states, actions) && j < |actions|
  {
    && actions[j] == Step(p) && p < |states[j].procs| && states[j].procs[p].PutBack?
    && states[j].lock.None? && states[j + 1].lock == Some(states[j].procs[p].aside)
  }

  lemma KeepsOneMore(states: seq<State>, actions: seq<Action>, m: nat, k: nat, p: nat, d: Dir)
    requires Run(states, actions) && m < k && k + 1 < |states| && KeepsAside(states, actions, m, k, p, d)
    requires p < |states[k + 1].procs| && HasAside(states[k + 1].procs[p], d)
    ensures KeepsAside(states, actions, m, k + 1, p, d)
  {
  }

  /** Another's action leaves a removal's history as it is. */
  lemma OthersLeaveHistory(states: seq<State>, actions: seq<Action>, b: nat, i: nat, p: nat, m: nat, j: nat)
    requires Run(states, actions) && i + 1 < |states| && Began(states, actions, b, i, p)
      && Began(states, actions, b, i + 1, p)
    requires History(states, actions, b, i, p, m, j) && states[i + 1].procs[p] == states[i].procs[p]
    ensures History(states, actions, b, i + 1, p, m, j)
  {
    match states[i].procs[p]
    case Recheck(_, aside) => KeepsOneMore(states, actions, m, i, p, aside);
    case Erase(_, aside) => KeepsOneMore(states, actions, m, i, p, aside);
    case PutBack(_, aside) => KeepsOneMore(states, actions, m, i, p, aside);
    case _ =>
  }

  /** Its own step adds to it. */
  lemma StepAddsToHistory(states: seq<State>, actions: seq<Action>, b: nat, i: nat, p: nat, m: nat, j: nat)
    returns (n: nat, k: nat)
    requires Run(states, actions) && i + 1 < |states| && actions[i] == Step(p)
    requires Began(states, actions, b, i, p) && Began(states, actions, b, i + 1, p)
    requires History(states, actions, b, i, p, m, j)
    ensures History(states, actions, b, i + 1, p, n, k)
  {
    n, k := m, j;
    match states[i].procs[p]
    case MoveAside(_) => n := i;
    case Recheck(_, aside) =>
      k := i;
      KeepsOneMore(states, actions, m, i, p, aside);
    case PutBack(_, _) => k := i;
    case _ =>
  }

  lemma BeganOneMore(states: seq<State>, actions: seq<Action>, b: nat, i: nat, p: nat)
    requires Run(states, actions) && i + 1 < |states| && Began(states, actions, b, i, p)
    requires p < |states[i + 1].procs| && Removing(states[i + 1].procs[p])
      && states[i + 1].procs[p].job == states[i].procs[p].job
    ensures Began(states, actions, b, i + 1, p)
  {
  }

  lemma {:induction false} RemovalHistory(states: seq<State>, actions: seq<Action>, i: nat, p: nat)
    returns (b: nat, m: nat, j: nat)
    requires Run(states, actions) && i < |states| && p < |states[i].procs| && Removing(states[i].procs[p])
    ensures Began(states, actions, b, i, p) && History(states, actions, b, i, p, m, j)
  {
    assert i > 0;
    StepOfRemoval(states[i - 1], actions[i - 1], p);
    if !Removing(states[i - 1].procs[p]) {
      b, m, j := i, 0, 0;
    } else {
      b, m, j := RemovalHistory(states, actions, i - 1, p);
      BeganOneMore(states, actions, b, i - 1, p);
      if actions[i - 1] == Step(p) {
        m, j := StepAddsToHistory(states, actions, b, i - 1, p, m, j);
      } else {
        OthersLeaveHistory(states, actions, b, i - 1, p, m, j);
      }
    }
  }

  // --- how it ends -----------------------------------------------------------

  /** It moved nothing, and none of its steps changed anything on the machine. */
  ghost predicate MovedNothing(states: seq<State>, actions: seq<Action>, b: nat, i: nat, p: nat)
    requires Run(states, actions) && i < |actions|
  {
    forall k | b <= k <= i && actions[k] == Step(p) :: ChangesNothing(states[k], states[k + 1], p)
  }

  /** It erases, at its last step, the directory it moved aside and found to be what it expected. */
  ghost predicate ErasedExpected(states: seq<State>, actions: seq<Action>, b: nat, i: nat, p: nat)
    requires Run(states, actions) && i < |actions|
  {
    && Erased(states[i], actions[i]).Some?
    && exists m, j :: (&& b <= m < j < i && KeepsAside(states, actions, m, i, p, Erased(states[i], actions[i]).value)
                       && Rechecked(states, actions, j, p))
  }

  /** It put back the very directory it moved aside, unchanged, and erases nothing. */
  ghost predicate Restored(states: seq<State>, actions: seq<Action>, b: nat, i: nat, p: nat)
    requires Run(states, actions) && i < |actions|
  {
    && Erased(states[i], actions[i]).None?
    && exists m, j :: (&& b <= m < j < i && PutsBack(states, actions, j, p)
                       && KeepsAside(states, actions, m, j, p, states[j].procs[p].aside))
  }

  /** Its put-back found another lock in place, and it erases the directory it had moved aside. */
  ghost predicate Blocked(states: seq<State>, actions: seq<Action>, b: nat, i: nat, p: nat)
    requires Run(states, actions) && i < |actions|
  {
    && Erased(states[i], actions[i]).Some? && actions[i] == Step(p) && states[i].procs[p].Sweep?
    && exists m, j :: (&& b <= m < j < i && KeepsAside(states, actions, m, j, p, Erased(states[i], actions[i]).value)
                       && PutBackBlocked(states, actions, j, p, Erased(states[i], actions[i]).value))
  }

  predicate ExactlyOne(a: bool, b: bool, c: bool, d: bool) {
    (if a then 1 else 0) + (if b then 1 else 0) + (if c then 1 else 0) + (if d then 1 else 0) == 1
  }

  lemma UntouchedMovesNothing(states: seq<State>, actions: seq<Action>, b: nat, i: nat, p: nat)
    requires Run(states, actions) && i < |actions| && actions[i] == Step(p) && Untouched(states, b, i, p)
    requires !Removing(states[i + 1].procs[p])
    ensures MovedNothing(states, actions, b, i, p)
  {
    forall k | b <= k <= i && actions[k] == Step(p)
      ensures ChangesNothing(states[k], states[k + 1], p)
    {
      assert states[k].procs[p].Check? || states[k].procs[p].MoveAside?;
      assert k < i ==> states[k + 1].procs[p].Check? || states[k + 1].procs[p].MoveAside?;
    }
  }

  /** A move is a change. */
  lemma MovingChanges(states: seq<State>, actions: seq<Action>, b: nat, i: nat, p: nat, m: nat, k: nat, d: Dir)
    requires Run(states, actions) && i < |actions| && b <= m < k <= i && KeepsAside(states, actions, m, k, p, d)
    ensures !MovedNothing(states, actions, b, i, p)
  {
    assert actions[m] == Step(p) && !ChangesNothing(states[m], states[m + 1], p);
  }

  lemma UntouchedKeptNothing(states: seq<State>, actions: seq<Action>, b: nat, i: nat, p: nat)
    requires Run(states, actions) && i < |actions| && MovedNothing(states, actions, b, i, p)
    ensures !ErasedExpected(states, actions, b, i, p) && !Restored(states, actions, b, i, p)
      && !Blocked(states, actions, b, i, p)
  {
    if ErasedExpected(states, actions, b, i, p) {
      var m, j :| b <= m < j < i && KeepsAside(states, actions, m, i, p, Erased(states[i], actions[i]).value)
        && Rechecked(states, actions, j, p);
      MovingChanges(states, actions, b, i, p, m, i, Erased(states[i], actions[i]).value);
    }
    if Blocked(states, actions, b, i, p) {
      var d := Erased(states[i], actions[i]).value;
      var m, j :| b <= m < j < i && KeepsAside(states, actions, m, j, p, d) && PutBackBlocked(states, actions, j, p, d);
      MovingChanges(states, actions, b, i, p, m, j, d);
    }
  }

  /**
   * However the other processes interleave, a removal ends in exactly one of
   * four ways: it moved nothing and changed nothing; it erased the directory it
   * moved aside, which was the one expected; it put that very directory back;
   * or its put-back found another lock in place.
   */
  lemma RemovalEndsOneWay(states: seq<State>, actions: seq<Action>, i: nat, p: nat) returns (b: nat)
    requires Run(states, actions) && i < |actions| && p < |states[i].procs|
    requires Removing(states[i].procs[p]) && !Removing(states[i + 1].procs[p])
    ensures Began(states, actions, b, i, p) && actions[i] == Step(p)
    ensures ExactlyOne(MovedNothing(states, actions, b, i, p), ErasedExpected(states, actions, b, i, p),
                       Restored(states, actions, b, i, p), Blocked(states, actions, b, i, p))
  {
    var m, j;
    b, m, j := RemovalHistory(states, actions, i, p);
    assert actions[i] == Step(p);
    match states[i].procs[p]
    case Check(_) =>
      UntouchedMovesNothing(states, actions, b, i, p);
      UntouchedKeptNothing(states, actions, b, i, p);
    case MoveAside(_) =>
      UntouchedMovesNothing(states, actions, b, i, p);
      UntouchedKeptNothing(states, actions, b, i, p);
    case Erase(_, aside) =>
      assert ErasedExpected(states, actions, b, i, p);
      MovingChanges(states, actions, b, i, p, m, i, aside);
    case Sweep(_, left) =>
      MovingChanges(states, actions, b, i, p, m, j, states[j].procs[p].aside);
      if left.Some? {
        assert KeepsAside(states, actions, m, j, p, left.value) && PutBackBlocked(states, actions, j, p, left.value);
        assert Erased(states[i], actions[i]) == left;
        assert Blocked(states, actions, b, i, p);
      } else {
        assert Restored(states, actions, b, i, p);
      }
  }

  /** A removal whose first condition fails has changed nothing on the machine, from its beginning to its end. */
  lemma FailedCheckChangesNothing(states: seq<State>, actions: seq<Action>, i: nat, p: nat) returns (b: nat)
    requires Run(states, actions) && i < |actions| && actions[i] == Step(p) && p < |states[i].procs|
      && states[i].procs[p].Check?
    requires states[i].lock.None? || !Matches(states[i].lock.value, states[i].procs[p].job.expected, states[i].now)
    ensures Began(states, actions, b, i, p) && MovedNothing(states, actions, b, i, p)
    ensures states[i + 1].procs[p] == AfterRemoval(states[i].procs[p].job)
  {
    var m, j;
    b, m, j := RemovalHistory(states, actions, i, p);
    UntouchedMovesNothing(states, actions, b, i, p);
  }

  /** What a script has aside is the directory it moved there itself, unchanged since: nobody else can reach it. */
  lemma AsideIsPrivate(states: seq<State>, actions: seq<Action>, i: nat, p: nat, d: Dir) returns (m: nat)
    requires Run(states, actions) && i < |states| && p < |states[i].procs| && HasAside(states[i].procs[p], d)
    ensures m < i && KeepsAside(states, actions, m, i, p, d)
  {
    var b, n, j := RemovalHistory(states, actions, i, p);
    m := n;
  }

  /** With nothing in place at its put-back, the directory it had moved aside itself is back, unchanged. */
  lemma PutBackRestores(states: seq<State>, actions: seq<Action>, i: nat, p: nat) returns (m: nat)
    requires Run(states, actions) && i < |actions| && actions[i] == Step(p) && p < |states[i].procs|
    requires states[i].procs[p].PutBack? && states[i].lock.None?
    ensures m < i && KeepsAside(states, actions, m, i, p, states[i].procs[p].aside)
    ensures states[i + 1].lock == states[m].lock == Some(states[i].procs[p].aside)
  {
    m := AsideIsPrivate(states, actions, i, p, states[i].procs[p].aside);
  }
}
