/**
 * The Caddy lock as the machine sees it: one directory, the lock, and any
 * number of shell scripts that take it, take it over or hand it back, each a
 * sequence of atomic file-system steps that interleave freely.
 *
 * A script is a program counter over those steps. A directory has an identity,
 * which no script can see; scripts only compare the holder line it carries, or
 * its age.
 */
module LockProtocol {
  import opened Options
  import opened LockLines

  /** A lock directory: who it really is, the line it carries once written, and its modification time. */
  datatype Dir = Dir(id: nat, holder: Option<Holder>, stamp: nat)

  datatype Client = Client(who: string, pid: nat)

  /** What a removal looks for (no line: any directory old enough), and the take that follows it, if any. */
  datatype Job = Job(expected: Option<Holder>, next: Option<Client>)

  /** The directory a take created, and when. */
  datatype Made = Made(id: nat, at: nat)

  datatype Pc =
    | Idle
    // removeIfState: first condition, rename aside, second condition, then one of the two ends
    | Check(job: Job)
    | MoveAside(job: Job)
    | Recheck(job: Job, aside: Dir)
    | Erase(job: Job, aside: Dir)
    | PutBack(job: Job, aside: Dir)
    | Sweep(job: Job, left: Option<Dir>)
    // takeBody: mkdir, read the clock, write the holder, or clean up after a write that failed
    | Mkdir(me: Client)
    | ReadClock(me: Client, made: Made)
    | WriteLine(line: Holder, made: Made)
    | CleanUp(made: Made)
    // answered TAKEN, and not handing back yet
    | Held(line: Holder, made: Made)

  datatype State = State(now: nat, lock: Option<Dir>, procs: seq<Pc>, nextId: nat, used: set<Holder>)

  datatype Action =
    | Tick(to: nat)
    | BeginTake(p: nat, me: Client)
    | BeginTakeover(p: nat, me: Client, expected: Option<Holder>)
    | BeginRelease(p: nat)
    | Step(p: nat)
    /** The holder is not written, on a full disk say; its file may have been opened, and so emptied, all the same. */
    | WriteFails(p: nat, emptied: bool)

  ghost predicate Init(s: State) {
    && s.lock == None
    && s.used == {}
    && forall p | 0 <= p < |s.procs| :: s.procs[p] == Idle
  }

  predicate Expired(line: Holder, now: nat) {
    now - line.since > STALE_MS
  }

  /** The condition a removal evaluates, on the lock in place or on the directory set aside. */
  predicate Matches(d: Dir, expected: Option<Holder>, now: nat) {
    match expected
    case Some(line) => d.holder == Some(line)
    case None => now - d.stamp > STALE_MS
  }

  /**
   * Which actions a run may contain. A takeover of a line starts only once
   * that line has expired by the machine's clock (see LockAnswers.DecideTake);
   * a hand back starts only from a process that was answered TAKEN.
   */
  predicate Enabled(s: State, a: Action) {
    match a
    case Tick(to) => s.now <= to
    case BeginTake(p, _) => p < |s.procs| && s.procs[p].Idle?
    case BeginTakeover(p, _, expected) =>
      p < |s.procs| && s.procs[p].Idle? && (expected.Some? ==> Expired(expected.value, s.now))
    case BeginRelease(p) => p < |s.procs| && s.procs[p].Held?
    case Step(p) => p < |s.procs| && !s.procs[p].Idle? && !s.procs[p].Held?
    case WriteFails(p, _) => p < |s.procs| && s.procs[p].WriteLine?
  }

  function AfterRemoval(job: Job): Pc {
    match job.next
    case None => Idle
    case Some(me) => Mkdir(me)
  }

  function Goto(s: State, p: nat, pc: Pc): State
    requires p < |s.procs|
  {
    s.(procs := s.procs[p := pc])
  }

  /** The directory once its holder file is written or emptied; creating that file is what dates the directory anew. */
  function Written(d: Dir, holder: Option<Holder>, now: nat): Dir {
    d.(holder := holder, stamp := if d.holder.None? then now else d.stamp)
  }

  /** One atomic step of the script process `p` runs. */
  function StepOf(s: State, p: nat): State
    requires Enabled(s, Step(p))
  {
    match s.procs[p]
    case Check(job) =>
      Goto(s, p, if s.lock.Some? && Matches(s.lock.value, job.expected, s.now) then MoveAside(job)
        else AfterRemoval(job))
    case MoveAside(job) =>
      if s.lock.Some? then Goto(s.(lock := None), p, Recheck(job, s.lock.value)) else Goto(s, p, AfterRemoval(job))
    case Recheck(job, aside) =>
      Goto(s, p, if Matches(aside, job.expected, s.now) then Erase(job, aside) else PutBack(job, aside))
    case Erase(job, _) => Goto(s, p, AfterRemoval(job))
    case PutBack(job, aside) =>
      if s.lock.None? then Goto(s.(lock := Some(aside)), p, Sweep(job, None)) else Goto(s, p, Sweep(job, Some(aside)))
    case Sweep(job, _) => Goto(s, p, AfterRemoval(job))
    case Mkdir(me) =>
      if s.lock.Some? then Goto(s, p, Idle)
      else
        Goto(s.(lock := Some(Dir(s.nextId, None, s.now)), nextId := s.nextId + 1), p,
          ReadClock(me, Made(s.nextId, s.now)))
    case ReadClock(me, made) =>
      var line := Holder(me.who, me.pid, s.now);
      Goto(s.(used := s.used + {line}), p, WriteLine(line, made))
    case WriteLine(line, made) =>
      if s.lock.None? then Goto(s, p, CleanUp(made))
      else Goto(s.(lock := Some(Written(s.lock.value, Some(line), s.now))), p, Held(line, made))
    case CleanUp(_) => Goto(s.(lock := None), p, Idle)
    case _ => s
  }

  function Do(s: State, a: Action): State
    requires Enabled(s, a)
  {
    match a
    case Tick(to) => s.(now := to)
    case BeginTake(p, me) => Goto(s, p, Mkdir(me))
    case BeginTakeover(p, me, expected) => Goto(s, p, Check(Job(expected, Some(me))))
    case BeginRelease(p) => Goto(s, p, Check(Job(Some(s.procs[p].line), None)))
    case Step(p) => StepOf(s, p)
    case WriteFails(p, emptied) =>
      var lock := if emptied && s.lock.Some? then Some(Written(s.lock.value, None, s.now)) else s.lock;
      Goto(s.(lock := lock), p, CleanUp(s.procs[p].made))
  }

  /** A run: the states it goes through, each the previous one's successor by an enabled action. */
  ghost predicate Run(states: seq<State>, actions: seq<Action>) {
    && |states| == |actions| + 1
    && Init(states[0])
    && forall i | 0 <= i < |actions| :: Enabled(states[i], actions[i]) && states[i + 1] == Do(states[i], actions[i])
  }

  // --- claims ----------------------------------------------------------------

  /** The script holds aside a directory that is not the one it expects, and that it is about to put back. */
  predicate SetAsideUnexpected(pc: Pc, now: nat) {
    pc.PutBack? || (pc.Recheck? && !Matches(pc.aside, pc.job.expected, now))
  }

  /** Between a successful mkdir and the answer. */
  predicate Taking(pc: Pc) {
    pc.ReadClock? || pc.WriteLine? || pc.CleanUp?
  }

  /** Answered TAKEN, hand back not begun, fifteen minutes not passed. */
  predicate Holds(pc: Pc, now: nat) {
    pc.Held? && !Expired(pc.line, now)
  }

  /** A process whose directory must be kept safe: taking or holding, for fifteen minutes. */
  predicate Claims(pc: Pc, now: nat) {
    (Taking(pc) && now - pc.made.at <= STALE_MS) || Holds(pc, now)
  }

  predicate HasMade(pc: Pc) {
    Taking(pc) || pc.Held?
  }

  /** The directory is the one the process made, carries what it wrote, and is no older than that. */
  predicate Fits(d: Dir, pc: Pc)
    requires HasMade(pc)
  {
    && d.id == pc.made.id
    && d.holder == (if pc.Held? then Some(pc.line) else None)
    && (if pc.Held? then pc.line.since else pc.made.at) <= d.stamp
  }

  /** Process `q` has set aside, unexpectedly, the directory process `r` has a live claim to. */
  predicate Guards(s: State, q: nat, r: nat) {
    && q < |s.procs| && r < |s.procs|
    && SetAsideUnexpected(s.procs[q], s.now)
    && Claims(s.procs[r], s.now)
    && Fits(s.procs[q].aside, s.procs[r])
  }

  // --- assumptions -----------------------------------------------------------

  /** The action puts a directory in the place of the lock: a mkdir that succeeds, or a put-back. */
  predicate Fills(s: State, a: Action) {
    && a.Step? && a.p < |s.procs| && s.lock.None?
    && (s.procs[a.p].Mkdir? || s.procs[a.p].PutBack?)
  }

  /** Nothing is put in place while another script has the directory of a live claim set aside. */
  ghost predicate OutsideWindows(s: State, a: Action) {
    Fills(s, a) ==> forall q, r | q != a.p :: !Guards(s, q, r)
  }

  /** Holder lines are unique: the name, the pid and the millisecond never repeat. */
  predicate FreshLine(s: State, a: Action) {
    a.Step? && a.p < |s.procs| && s.procs[a.p].ReadClock? ==>
      Holder(s.procs[a.p].me.who, s.procs[a.p].me.pid, s.now) !in s.used
  }

  /** The action is the take's of `p` on the lock it made: the write, done or failed, or the clean-up after it. */
  predicate Touches(s: State, a: Action, p: nat) {
    && p < |s.procs|
    && (s.procs[p].WriteLine? || s.procs[p].CleanUp?)
    && (a == Step(p) || (a.WriteFails? && a.p == p))
  }

  /**
   * A take writes its holder, or cleans up, within fifteen minutes of its own
   * mkdir or not at all: one that is killed in between is abandoned for good.
   */
  ghost predicate Prompt(s: State, a: Action) {
    forall p | 0 <= p < |s.procs| && Touches(s, a, p) :: s.now - s.procs[p].made.at <= STALE_MS
  }

  /** A run whose takes are prompt and whose holder lines are unique. */
  ghost predicate Fair(states: seq<State>, actions: seq<Action>)
    requires |states| == |actions| + 1
  {
    forall i | 0 <= i < |actions| :: Prompt(states[i], actions[i]) && FreshLine(states[i], actions[i])
  }

  ghost predicate Undisturbed(states: seq<State>, actions: seq<Action>)
    requires |states| == |actions| + 1
  {
    forall i | 0 <= i < |actions| :: OutsideWindows(states[i], actions[i])
  }

  // --- what exclusion means --------------------------------------------------

  /** The directory stands at the lock's path, or a script has it aside and will put it back. */
  ghost predicate Safe(s: State, d: Dir) {
    || s.lock == Some(d)
    || exists q | 0 <= q < |s.procs| :: SetAsideUnexpected(s.procs[q], s.now) && s.procs[q].aside == d
  }

  ghost predicate Exclusive(s: State) {
    && (forall p, q | 0 <= p < |s.procs| && 0 <= q < |s.procs|
          && Holds(s.procs[p], s.now) && Holds(s.procs[q], s.now) :: p == q)
    && (forall p | 0 <= p < |s.procs| && Holds(s.procs[p], s.now) ::
          exists d :: Safe(s, d) && d.id == s.procs[p].made.id && d.holder == Some(s.procs[p].line))
  }

  // --- where each directory is -----------------------------------------------

  /** The directory a script has, aside or left over after a put-back that was blocked. */
  function AsideOf(pc: Pc): Option<Dir> {
    match pc
    case Recheck(_, aside) => Some(aside)
    case Erase(_, aside) => Some(aside)
    case PutBack(_, aside) => Some(aside)
    case Sweep(_, left) => left
    case _ => None
  }

  /** No directory is at two places, and the next one to be made is none of them. */
  ghost predicate DirsDistinct(s: State) {
    && (s.lock.Some? ==> s.lock.value.id < s.nextId)
    && (forall p | 0 <= p < |s.procs| && AsideOf(s.procs[p]).Some? ::
          && AsideOf(s.procs[p]).value.id < s.nextId
          && (s.lock.Some? ==> AsideOf(s.procs[p]).value.id != s.lock.value.id))
    && (forall p, q | 0 <= p < |s.procs| && 0 <= q < |s.procs| && AsideOf(s.procs[p]).Some? && AsideOf(s.procs[q]).Some?
          && AsideOf(s.procs[p]).value.id == AsideOf(s.procs[q]).value.id :: p == q)
  }

  /** A script that keeps what it has aside, or drops it, the lock staying the directory it is or going. */
  lemma MoveKeepsDirs(s: State, lock: Option<Dir>, p: nat, pc: Pc)
    requires DirsDistinct(s) && p < |s.procs|
    requires lock.Some? ==> s.lock.Some? && lock.value.id == s.lock.value.id
    requires AsideOf(pc).Some? ==> AsideOf(pc) == AsideOf(s.procs[p])
    ensures DirsDistinct(Goto(s.(lock := lock), p, pc))
  {
  }

  lemma StepKeepsDirs(s: State, p: nat)
    requires DirsDistinct(s) && Enabled(s, Step(p))
    ensures DirsDistinct(StepOf(s, p))
  {
    var t := StepOf(s, p);
    if s.lock.None? && t.lock.Some? {
      assert AsideOf(t.procs[p]).None?;
    } else if !s.procs[p].MoveAside? {
      MoveKeepsDirs(s, t.lock, p, t.procs[p]);
      assert t == Goto(s.(lock := t.lock, used := t.used), p, t.procs[p]);
    }
  }

  /** Whatever is done, with no assumption. */
  lemma ActionKeepsDirs(s: State, a: Action)
    requires DirsDistinct(s) && Enabled(s, a)
    ensures DirsDistinct(Do(s, a))
  {
    match a
    case Tick(_) =>
    case Step(p) => StepKeepsDirs(s, p);
    case _ => MoveKeepsDirs(s, Do(s, a).lock, a.p, Do(s, a).procs[a.p]);
  }

  lemma {:induction false} RunKeepsDirs(states: seq<State>, actions: seq<Action>, i: nat)
    requires Run(states, actions) && i < |states|
    ensures DirsDistinct(states[i])
  {
    if i > 0 {
      RunKeepsDirs(states, actions, i - 1);
      ActionKeepsDirs(states[i - 1], actions[i - 1]);
    }
  }

  // --- names: what identifies a take -----------------------------------------

  predicate Removing(pc: Pc) {
    pc.Check? || pc.MoveAside? || pc.Recheck? || pc.Erase? || pc.PutBack? || pc.Sweep?
  }

  /** The line a process answers for: the one it writes, holds or hands back. */
  function LineOf(pc: Pc): Option<Holder> {
    match pc
    case WriteLine(line, _) => Some(line)
    case Held(line, _) => Some(line)
    case _ => if Removing(pc) && pc.job.next.None? then pc.job.expected else None
  }

  ghost predicate IdsDistinct(s: State) {
    && (forall p | 0 <= p < |s.procs| && HasMade(s.procs[p]) :: s.procs[p].made.id < s.nextId)
    && (forall p, q | 0 <= p < |s.procs| && 0 <= q < |s.procs| && HasMade(s.procs[p]) && HasMade(s.procs[q])
          && s.procs[p].made.id == s.procs[q].made.id :: p == q)
  }

  ghost predicate LinesDistinct(s: State) {
    && (forall p | 0 <= p < |s.procs| && LineOf(s.procs[p]).Some? :: LineOf(s.procs[p]).value in s.used)
    && (forall p, q | 0 <= p < |s.procs| && 0 <= q < |s.procs| && LineOf(s.procs[p]).Some?
          && LineOf(s.procs[p]) == LineOf(s.procs[q]) :: p == q)
  }

  /** A takeover looks for an expired line; a hand back always names a line; nothing is from the future. */
  predicate Sound(pc: Pc, now: nat) {
    && (Removing(pc) && pc.job.next.Some? && pc.job.expected.Some? ==> Expired(pc.job.expected.value, now))
    && (Removing(pc) && pc.job.next.None? ==> pc.job.expected.Some?)
    && (pc.WriteLine? ==> pc.line.since <= now)
    && (Taking(pc) ==> pc.made.at <= now)
  }

  ghost predicate Names(s: State) {
    && IdsDistinct(s)
    && LinesDistinct(s)
    && forall p | 0 <= p < |s.procs| :: Sound(s.procs[p], s.now)
  }

  /** A process that moves on with what it made and the line it answers for, or with less, keeps the names. */
  lemma MoveKeepsNames(s: State, lock: Option<Dir>, p: nat, pc: Pc)
    requires Names(s) && p < |s.procs| && Sound(pc, s.now)
    requires HasMade(pc) ==> HasMade(s.procs[p]) && pc.made.id == s.procs[p].made.id
    requires LineOf(pc).Some? ==> LineOf(pc) == LineOf(s.procs[p])
    ensures Names(Goto(s.(lock := lock), p, pc))
  {
  }

  lemma MkdirKeepsNames(s: State, p: nat)
    requires Names(s) && Enabled(s, Step(p)) && s.procs[p].Mkdir? && s.lock.None?
    ensures Names(StepOf(s, p))
  {
  }

  lemma ReadClockKeepsNames(s: State, p: nat)
    requires Names(s) && Enabled(s, Step(p)) && s.procs[p].ReadClock? && FreshLine(s, Step(p))
    ensures Names(StepOf(s, p))
  {
  }

  lemma StepKeepsNames(s: State, p: nat)
    requires Names(s) && Enabled(s, Step(p)) && FreshLine(s, Step(p))
    ensures Names(StepOf(s, p))
  {
    var t := StepOf(s, p);
    if s.procs[p].Mkdir? && s.lock.None? {
      MkdirKeepsNames(s, p);
    } else if s.procs[p].ReadClock? {
      ReadClockKeepsNames(s, p);
    } else {
      assert Sound(s.procs[p], s.now);
      MoveKeepsNames(s, t.lock, p, t.procs[p]);
      assert t == Goto(s.(lock := t.lock), p, t.procs[p]);
    }
  }

  lemma ActionKeepsNames(s: State, a: Action)
    requires Names(s) && Enabled(s, a) && FreshLine(s, a)
    ensures Names(Do(s, a))
  {
    match a
    case Tick(_) =>
    case Step(p) => StepKeepsNames(s, p);
    case BeginTake(p, me) => MoveKeepsNames(s, s.lock, p, Mkdir(me));
    case BeginTakeover(p, me, expected) => MoveKeepsNames(s, s.lock, p, Check(Job(expected, Some(me))));
    case BeginRelease(p) => MoveKeepsNames(s, s.lock, p, Check(Job(Some(s.procs[p].line), None)));
    case WriteFails(p, _) =>
      assert Sound(s.procs[p], s.now);
      MoveKeepsNames(s, Do(s, a).lock, p, CleanUp(s.procs[p].made));
  }

  // --- the claims ------------------------------------------------------------

  ghost predicate OneClaim(s: State) {
    forall p, q | 0 <= p < |s.procs| && 0 <= q < |s.procs| && Claims(s.procs[p], s.now) && Claims(s.procs[q], s.now) ::
      p == q
  }

  /** A claim's directory is in place, or a script has it aside and will put it back. */
  ghost predicate Kept(s: State, p: nat)
    requires p < |s.procs| && Claims(s.procs[p], s.now)
  {
    (s.lock.Some? && Fits(s.lock.value, s.procs[p])) || exists q: nat :: Guards(s, q, p)
  }

  ghost predicate ClaimsKept(s: State) {
    forall p | 0 <= p < |s.procs| && Claims(s.procs[p], s.now) :: Kept(s, p)
  }

  /** No lock is in place while a claim's directory is aside. */
  ghost predicate NothingBeside(s: State) {
    s.lock.Some? ==> forall q, r :: !Guards(s, q, r)
  }

  ghost predicate ClaimsSafe(s: State) {
    OneClaim(s) && ClaimsKept(s) && NothingBeside(s)
  }

  ghost predicate Inv(s: State) {
    Names(s) && DirsDistinct(s) && ClaimsSafe(s)
  }

  /** While a claim lives, a lock in place can only be its directory. */
  lemma LockInPlaceIsMine(s: State, p: nat)
    requires ClaimsSafe(s) && p < |s.procs| && Claims(s.procs[p], s.now) && s.lock.Some?
    ensures Fits(s.lock.value, s.procs[p])
    ensures forall q | 0 <= q < |s.procs| && Claims(s.procs[q], s.now) :: q == p
  {
    assert Kept(s, p);
  }

  /** With the lock in place another's, or the place empty and nothing of a claim aside, nobody has a claim. */
  lemma NobodyClaims(s: State)
    requires ClaimsSafe(s)
    requires s.lock.Some? ==> forall p | 0 <= p < |s.procs| && Claims(s.procs[p], s.now) ::
      !Fits(s.lock.value, s.procs[p])
    requires s.lock.None? ==> forall q, r :: !Guards(s, q, r)
    ensures forall p | 0 <= p < |s.procs| :: !Claims(s.procs[p], s.now)
  {
    assert forall p | 0 <= p < |s.procs| && Claims(s.procs[p], s.now) :: Kept(s, p);
  }

  lemma NoClaimsIsSafe(s: State)
    requires forall p | 0 <= p < |s.procs| :: !Claims(s.procs[p], s.now)
    ensures ClaimsSafe(s)
  {
  }

  lemma TickKeepsClaims(s: State, to: nat)
    requires ClaimsSafe(s) && s.now <= to
    ensures ClaimsSafe(s.(now := to))
  {
    var t := s.(now := to);
    forall p | 0 <= p < |t.procs| && Claims(t.procs[p], t.now)
      ensures Kept(t, p)
    {
      assert Kept(s, p);
      if q: nat :| Guards(s, q, p) {
        assert Guards(t, q, p);
      }
    }
    assert forall q, r :: Guards(t, q, r) ==> Guards(s, q, r);
  }

  /**
   * A process that changes only its own program counter, has the same aside
   * before and after, and makes no new claim, keeps everybody's claim.
   */
  lemma QuietMoveKeepsClaims(s: State, p: nat, pc: Pc)
    requires ClaimsSafe(s) && p < |s.procs|
    requires SetAsideUnexpected(s.procs[p], s.now) <==> SetAsideUnexpected(pc, s.now)
    requires SetAsideUnexpected(pc, s.now) ==> pc.aside == s.procs[p].aside
    requires Claims(pc, s.now) ==>
      Claims(s.procs[p], s.now) && forall d :: Fits(d, s.procs[p]) <==> Fits(d, pc)
    ensures ClaimsSafe(Goto(s, p, pc))
  {
    var t := Goto(s, p, pc);
    forall q | 0 <= q < |t.procs| && Claims(t.procs[q], t.now)
      ensures Kept(t, q)
    {
      assert Kept(s, q);
      if g: nat :| Guards(s, g, q) {
        assert Guards(t, g, q);
      }
    }
    assert forall q, r :: Guards(t, q, r) ==> Guards(s, q, r);
  }

  /** What a script moves aside as expected is no claim's directory. */
  lemma ExpectedIsUnclaimed(s: State, p: nat, q: nat, d: Dir)
    requires Names(s) && p < |s.procs| && q < |s.procs|
    requires s.procs[p].MoveAside? && Matches(d, s.procs[p].job.expected, s.now)
    requires Claims(s.procs[q], s.now)
    ensures !Fits(d, s.procs[q])
  {
    assert Sound(s.procs[p], s.now);
  }

  lemma ExpectedMoveKeepsClaims(s: State, p: nat)
    requires Inv(s) && Enabled(s, Step(p)) && s.procs[p].MoveAside? && s.lock.Some?
    requires Matches(s.lock.value, s.procs[p].job.expected, s.now)
    ensures ClaimsSafe(StepOf(s, p))
  {
    forall q | 0 <= q < |s.procs| && Claims(s.procs[q], s.now)
      ensures !Fits(s.lock.value, s.procs[q])
    {
      ExpectedIsUnclaimed(s, p, q, s.lock.value);
    }
    NobodyClaims(s);
    NoClaimsIsSafe(StepOf(s, p));
  }

  lemma UnexpectedMoveKeepsClaims(s: State, p: nat)
    requires ClaimsSafe(s) && Enabled(s, Step(p)) && s.procs[p].MoveAside? && s.lock.Some?
    requires !Matches(s.lock.value, s.procs[p].job.expected, s.now)
    ensures ClaimsSafe(StepOf(s, p))
  {
    var t := StepOf(s, p);
    forall q | 0 <= q < |t.procs| && Claims(t.procs[q], t.now)
      ensures Kept(t, q)
    {
      LockInPlaceIsMine(s, q);
      assert Guards(t, p, q);
    }
  }

  lemma MoveAsideKeepsClaims(s: State, p: nat)
    requires Inv(s) && Enabled(s, Step(p)) && s.procs[p].MoveAside?
    ensures ClaimsSafe(StepOf(s, p))
  {
    if s.lock.None? {
      QuietMoveKeepsClaims(s, p, AfterRemoval(s.procs[p].job));
    } else if Matches(s.lock.value, s.procs[p].job.expected, s.now) {
      ExpectedMoveKeepsClaims(s, p);
    } else {
      UnexpectedMoveKeepsClaims(s, p);
    }
  }

  /** A claim's directory is put back to an empty place; another put-back may be blocked. */
  lemma PutBackKeepsClaims(s: State, p: nat)
    requires ClaimsSafe(s) && Enabled(s, Step(p)) && s.procs[p].PutBack? && OutsideWindows(s, Step(p))
    ensures ClaimsSafe(StepOf(s, p))
    ensures forall r: nat | Guards(s, p, r) :: s.lock.None? && Fits(StepOf(s, p).lock.value, s.procs[r])
  {
    var t := StepOf(s, p);
    forall q | 0 <= q < |t.procs| && Claims(t.procs[q], t.now)
      ensures Kept(t, q)
    {
      assert Kept(s, q);
    }
    assert forall q, r :: Guards(t, q, r) ==> q != p && Guards(s, q, r);
  }

  lemma AsideIsElsewhere(s: State)
    requires DirsDistinct(s)
    ensures forall q | 0 <= q < |s.procs| && SetAsideUnexpected(s.procs[q], s.now) ::
      s.procs[q].aside.id < s.nextId && (s.lock.Some? ==> s.procs[q].aside.id != s.lock.value.id)
  {
    assert forall q | 0 <= q < |s.procs| && SetAsideUnexpected(s.procs[q], s.now) :: AsideOf(s.procs[q]).Some?;
  }

  lemma MkdirKeepsClaims(s: State, p: nat)
    requires Inv(s) && Enabled(s, Step(p)) && s.procs[p].Mkdir? && s.lock.None? && OutsideWindows(s, Step(p))
    ensures ClaimsSafe(StepOf(s, p))
  {
    var t := StepOf(s, p);
    assert Fills(s, Step(p));
    assert forall r :: !Guards(s, p, r);
    NobodyClaims(s);
    assert forall q | 0 <= q < |t.procs| && Claims(t.procs[q], t.now) :: q == p;
    assert Fits(t.lock.value, t.procs[p]);
    AsideIsElsewhere(s);
  }

  /** The only claim is that of `p`, whose directory in place it writes or empties, `p` moving on with it. */
  lemma WritingKeepsClaims(s: State, p: nat, pc: Pc, holder: Option<Holder>)
    requires Inv(s) && p < |s.procs| && s.procs[p].WriteLine? && Claims(s.procs[p], s.now) && s.lock.Some?
    requires pc == (if holder.Some? then Held(holder.value, s.procs[p].made) else CleanUp(s.procs[p].made))
    requires holder.Some? ==> holder.value.since <= s.now
    ensures ClaimsSafe(Goto(s.(lock := Some(Written(s.lock.value, holder, s.now))), p, pc))
  {
    var t := Goto(s.(lock := Some(Written(s.lock.value, holder, s.now))), p, pc);
    LockInPlaceIsMine(s, p);
    assert forall q | 0 <= q < |t.procs| && Claims(t.procs[q], t.now) :: q == p;
    assert Fits(t.lock.value, t.procs[p]);
    AsideIsElsewhere(s);
  }

  lemma WriteLineKeepsClaims(s: State, p: nat)
    requires Inv(s) && Enabled(s, Step(p)) && s.procs[p].WriteLine? && Prompt(s, Step(p))
    ensures ClaimsSafe(StepOf(s, p))
  {
    var pc := s.procs[p];
    assert Touches(s, Step(p), p);
    if s.lock.Some? {
      assert Sound(pc, s.now);
      WritingKeepsClaims(s, p, Held(pc.line, pc.made), Some(pc.line));
    } else {
      QuietMoveKeepsClaims(s, p, CleanUp(pc.made));
    }
  }

  lemma CleanUpKeepsClaims(s: State, p: nat)
    requires ClaimsSafe(s) && Enabled(s, Step(p)) && s.procs[p].CleanUp? && Prompt(s, Step(p))
    ensures ClaimsSafe(StepOf(s, p))
  {
    assert Touches(s, Step(p), p);
    if s.lock.Some? {
      LockInPlaceIsMine(s, p);
      NoClaimsIsSafe(StepOf(s, p));
    } else {
      QuietMoveKeepsClaims(s, p, Idle);
    }
  }

  lemma WriteFailsKeepsClaims(s: State, p: nat, emptied: bool)
    requires Inv(s) && Enabled(s, WriteFails(p, emptied)) && Prompt(s, WriteFails(p, emptied))
    ensures ClaimsSafe(Do(s, WriteFails(p, emptied)))
  {
    assert Touches(s, WriteFails(p, emptied), p);
    if emptied && s.lock.Some? {
      WritingKeepsClaims(s, p, CleanUp(s.procs[p].made), None);
    } else {
      QuietMoveKeepsClaims(s, p, CleanUp(s.procs[p].made));
    }
  }

  lemma StepKeepsClaims(s: State, p: nat)
    requires Inv(s) && Enabled(s, Step(p)) && Prompt(s, Step(p)) && OutsideWindows(s, Step(p))
    ensures ClaimsSafe(StepOf(s, p))
  {
    match s.procs[p]
    case MoveAside(_) => MoveAsideKeepsClaims(s, p);
    case PutBack(_, _) => PutBackKeepsClaims(s, p);
    case Mkdir(_) =>
      if s.lock.None? {
        MkdirKeepsClaims(s, p);
      } else {
        QuietMoveKeepsClaims(s, p, Idle);
      }
    case ReadClock(me, made) =>
      var line := Holder(me.who, me.pid, s.now);
      QuietMoveKeepsClaims(s, p, WriteLine(line, made));
      SameClaims(Goto(s, p, WriteLine(line, made)), StepOf(s, p));
    case WriteLine(_, _) => WriteLineKeepsClaims(s, p);
    case CleanUp(_) => CleanUpKeepsClaims(s, p);
    case Check(_) => QuietMoveKeepsClaims(s, p, StepOf(s, p).procs[p]);
    case Recheck(_, _) => QuietMoveKeepsClaims(s, p, StepOf(s, p).procs[p]);
    case Erase(job, _) => QuietMoveKeepsClaims(s, p, AfterRemoval(job));
    case Sweep(job, _) => QuietMoveKeepsClaims(s, p, AfterRemoval(job));
  }

  /** The lines used so far are nothing to the claims. */
  lemma SameClaims(s: State, t: State)
    requires ClaimsSafe(s) && s.procs == t.procs && s.lock == t.lock && s.now == t.now
    ensures ClaimsSafe(t)
  {
    assert forall q, r :: Guards(s, q, r) <==> Guards(t, q, r);
    forall p | 0 <= p < |t.procs| && Claims(t.procs[p], t.now)
      ensures Kept(t, p)
    {
      assert Kept(s, p);
    }
  }

  lemma ActionKeepsClaims(s: State, a: Action)
    requires Inv(s) && Enabled(s, a) && Prompt(s, a) && OutsideWindows(s, a)
    ensures ClaimsSafe(Do(s, a))
  {
    match a
    case Tick(to) => TickKeepsClaims(s, to);
    case Step(p) => StepKeepsClaims(s, p);
    case BeginTake(p, me) => QuietMoveKeepsClaims(s, p, Mkdir(me));
    case BeginTakeover(p, me, expected) => QuietMoveKeepsClaims(s, p, Check(Job(expected, Some(me))));
    case BeginRelease(p) => QuietMoveKeepsClaims(s, p, Check(Job(Some(s.procs[p].line), None)));
    case WriteFails(p, emptied) => WriteFailsKeepsClaims(s, p, emptied);
  }

  // --- runs ------------------------------------------------------------------

  lemma ActionKeepsInv(s: State, a: Action)
    requires Inv(s) && Enabled(s, a) && Prompt(s, a) && OutsideWindows(s, a) && FreshLine(s, a)
    ensures Inv(Do(s, a))
  {
    ActionKeepsNames(s, a);
    ActionKeepsDirs(s, a);
    ActionKeepsClaims(s, a);
  }

  lemma InitIsInv(s: State)
    requires Init(s)
    ensures Inv(s)
  {
    assert forall p | 0 <= p < |s.procs| :: s.procs[p].Idle? && AsideOf(s.procs[p]).None? && LineOf(s.procs[p]).None?;
    NoClaimsIsSafe(s);
  }

  lemma {:induction false} RunKeepsInv(states: seq<State>, actions: seq<Action>, i: nat)
    requires Run(states, actions) && Fair(states, actions) && Undisturbed(states, actions)
    requires i < |states|
    ensures Inv(states[i])
  {
    if i == 0 {
      InitIsInv(states[0]);
    } else {
      RunKeepsInv(states, actions, i - 1);
      ActionKeepsInv(states[i - 1], actions[i - 1]);
    }
  }

  lemma InvIsExclusive(s: State)
    requires ClaimsSafe(s)
    ensures Exclusive(s)
  {
    forall p | 0 <= p < |s.procs| && Holds(s.procs[p], s.now)
      ensures exists d :: Safe(s, d) && d.id == s.procs[p].made.id && d.holder == Some(s.procs[p].line)
    {
      assert Kept(s, p);
      if q: nat :| Guards(s, q, p) {
        assert Safe(s, s.procs[q].aside);
      } else {
        assert Safe(s, s.lock.value);
      }
    }
  }

  /**
   * In every interleaving of any number of takes, takeovers and hand backs, a
   * process answered TAKEN that has neither begun its hand back nor passed
   * fifteen minutes is the only such process, and its directory still exists,
   * in place or about to be put back, carrying its line.
   */
  lemma MutualExclusion(states: seq<State>, actions: seq<Action>, i: nat)
    requires Run(states, actions) && Fair(states, actions) && Undisturbed(states, actions)
    requires i < |states|
    ensures Exclusive(states[i])
  {
    RunKeepsInv(states, actions, i);
    InvIsExclusive(states[i]);
  }

  // --- a simpler assumption --------------------------------------------------

  /** No mkdir succeeds while any script has set aside a lock it did not expect, whoever it belongs to. */
  ghost predicate NoMkdirInWindow(s: State, a: Action) {
    a.Step? && a.p < |s.procs| && s.procs[a.p].Mkdir? && s.lock.None? ==>
      forall q | 0 <= q < |s.procs| :: !SetAsideUnexpected(s.procs[q], s.now)
  }

  /** At most one directory is in place or about to be put back. */
  ghost predicate OneSafe(s: State) {
    && (s.lock.Some? ==> forall q | 0 <= q < |s.procs| :: !SetAsideUnexpected(s.procs[q], s.now))
    && (forall p, q | 0 <= p < |s.procs| && 0 <= q < |s.procs|
          && SetAsideUnexpected(s.procs[p], s.now) && SetAsideUnexpected(s.procs[q], s.now) :: p == q)
  }

  lemma StepKeepsOneSafe(s: State, p: nat)
    requires OneSafe(s) && Enabled(s, Step(p)) && NoMkdirInWindow(s, Step(p))
    ensures OneSafe(StepOf(s, p))
  {
  }

  lemma ActionKeepsOneSafe(s: State, a: Action)
    requires OneSafe(s) && Enabled(s, a) && NoMkdirInWindow(s, a)
    ensures OneSafe(Do(s, a))
  {
    if a.Step? {
      StepKeepsOneSafe(s, a.p);
    }
  }

  lemma {:induction false} RunKeepsOneSafe(states: seq<State>, actions: seq<Action>, i: nat)
    requires Run(states, actions) && forall k | 0 <= k < |actions| :: NoMkdirInWindow(states[k], actions[k])
    requires i < |states|
    ensures OneSafe(states[i])
  {
    if i > 0 {
      RunKeepsOneSafe(states, actions, i - 1);
      ActionKeepsOneSafe(states[i - 1], actions[i - 1]);
    }
  }

  /** It is enough: where mkdirs keep out of every such window, so does every put-back. */
  lemma NoMkdirInWindowSuffices(states: seq<State>, actions: seq<Action>)
    requires Run(states, actions) && forall k | 0 <= k < |actions| :: NoMkdirInWindow(states[k], actions[k])
    ensures Undisturbed(states, actions)
  {
    forall i | 0 <= i < |actions|
      ensures OutsideWindows(states[i], actions[i])
    {
      RunKeepsOneSafe(states, actions, i);
    }
  }
}
