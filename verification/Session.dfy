/**
 * One run of the command line as far as the Caddy lock goes: the line it holds,
 * the command it waits for, the interruption it remembers, and how it ends.
 *
 * The main thread runs one command at a time and can be interrupted only while
 * it waits. What it tells the outside is a log: the takes the machine granted,
 * the hand backs sent, the counted commands cut short by the end of the process.
 */
module Session {
  import opened Options

  datatype Event =
    | Granted(line: string)
    | ReleaseSent(line: string)
    | CutShort

  datatype Waiting =
    /** Between two counted commands: computing, or waiting for a read nobody counts. */
    | Free
    /** In Executor.run, which stops or dies on its own when the command returns. */
    | InRun
    /** In Executor.execute or pipe, which only hand the result back. */
    | InExecute
    /** In the execute of a take, or of the takeover after it; the line the machine has granted, once it has. */
    | InTake(takeover: bool, granted: Option<string>)

  datatype State = State(
    held: Option<string>,
    running: nat,
    interruption: Option<int>,
    armed: bool,
    exited: Option<int>,
    waiting: Waiting,
    log: seq<Event>)

  const START := State(None, 0, None, false, None, Free, [])

  /** releaseCaddyLock: forgets the line, then sends the one hand back for it. */
  function Release(s: State): State {
    match s.held
    case None => s
    case Some(line) => s.(held := None, log := s.log + [ReleaseSent(line)])
  }

  /** process.exit: the `exit` handler, once armed, then nothing more; a command still running is cut. */
  function Exit(s: State, code: int): State {
    var r := if s.armed then Release(s) else s;
    r.(exited := Some(code), log := if s.running > 0 then r.log + [CutShort] else r.log)
  }

  function StopIfInterrupted(s: State): State {
    match s.interruption
    case None => s
    case Some(code) => Exit(s, code)
  }

  /** A signal: the default action before the handlers are armed, `interrupt` after. */
  function Signal(s: State, code: int): State {
    if !s.armed || s.interruption.Some? || s.running == 0 then Exit(s, code)
    else s.(interruption := Some(code))
  }

  datatype Step =
    | BeginRun
    | EndRun(code: int)
    | BeginExecute
    /** The caller may check for an interruption on its way back, or not. */
    | EndExecute(checks: bool)
    | BeginTake
    | MachineGrants(line: string)
    /** The answer read: taken when granted; otherwise refused, or stale and taken over once. */
    | TakeReturns(stale: bool)
    | HandBack
    | Interrupted(code: int)
    /** `die`, or the end of the program. */
    | Finish(code: int)

  predicate Enabled(s: State, a: Step) {
    s.exited.None? &&
    match a
    case BeginRun => s.waiting.Free?
    case EndRun(_) => s.waiting.InRun?
    case BeginExecute => s.waiting.Free?
    case EndExecute(_) => s.waiting.InExecute?
    case BeginTake => s.waiting.Free? && s.held.None?
    case MachineGrants(_) => s.waiting.InTake? && s.waiting.granted.None?
    case TakeReturns(stale) => s.waiting.InTake? && (stale ==> s.waiting.granted.None? && !s.waiting.takeover)
    case HandBack => s.waiting.Free?
    case Interrupted(_) => true
    case Finish(_) => s.waiting.Free?
  }

  predicate Counted(s: State) {
    s.running > 0
  }

  function Do(s: State, a: Step): State
    requires Enabled(s, a)
    requires !s.waiting.Free? ==> Counted(s)
  {
    match a
    case BeginRun => s.(waiting := InRun, running := s.running + 1)
    case EndRun(code) =>
      var r := StopIfInterrupted(s.(waiting := Free, running := s.running - 1));
      if r.exited.None? && code != 0 then Exit(r, 1) else r
    case BeginExecute => s.(waiting := InExecute, running := s.running + 1)
    case EndExecute(checks) =>
      var r := s.(waiting := Free, running := s.running - 1);
      if checks then StopIfInterrupted(r) else r
    case BeginTake => s.(armed := true, waiting := InTake(false, None), running := s.running + 1)
    case MachineGrants(line) => s.(waiting := InTake(s.waiting.takeover, Some(line)), log := s.log + [Granted(line)])
    case TakeReturns(stale) =>
      if stale then s.(waiting := InTake(true, None))
      else
        var back := s.(waiting := Free, running := s.running - 1);
        if s.waiting.granted.None? then Exit(back, 1)
        else StopIfInterrupted(back.(held := s.waiting.granted))
    case HandBack => Release(s)
    case Interrupted(code) => Signal(s, code)
    case Finish(code) => Exit(s, code)
  }

  // --- the same, as the process runs it --------------------------------------

  /** The module's variables, and the handlers that change them between two awaits. */
  class Process {
    var heldLock: Option<string>
    var running: nat
    var interruption: Option<int>
    var armed: bool
    var exited: Option<int>
    var waiting: Waiting
    ghost var log: seq<Event>

    ghost function View(): State
      reads this
    {
      State(heldLock, running, interruption, armed, exited, waiting, log)
    }

    constructor ()
      ensures View() == START
    {
      heldLock, running, interruption, armed, exited, waiting, log := None, 0, None, false, None, Free, [];
    }

    method ReleaseCaddyLock()
      modifies this
      ensures View() == Release(old(View()))
    {
      if heldLock == None {
        return;
      }
      var line := heldLock.value;
      heldLock := None;
      log := log + [ReleaseSent(line)];
    }

    method ArmRelease()
      modifies this`armed
      ensures View() == old(View()).(armed := true)
    {
      if armed {
        return;
      }
      armed := true;
    }

    method ExitProcess(code: int)
      modifies this
      ensures View() == Exit(old(View()), code)
    {
      if armed {
        ReleaseCaddyLock();
      }
      if running > 0 {
        log := log + [CutShort];
      }
      exited := Some(code);
    }

    method Interrupt(code: int)
      requires armed
      modifies this
      ensures View() == Signal(old(View()), code)
    {
      if interruption != None || running == 0 {
        ExitProcess(code);
        return;
      }
      interruption := Some(code);
    }

    method StopIfInterruptedNow()
      modifies this
      ensures View() == StopIfInterrupted(old(View()))
    {
      if interruption == None {
        return;
      }
      ExitProcess(interruption.value);
    }

    /** Executor.run, up to its await. */
    method Launch()
      requires Enabled(View(), BeginRun)
      modifies this
      ensures View() == Do(old(View()), BeginRun)
    {
      running := running + 1;
      waiting := InRun;
    }

    /** Executor.run, after its await. */
    method Return(code: int)
      requires Enabled(View(), EndRun(code)) && Counted(View())
      modifies this
      ensures View() == Do(old(View()), EndRun(code))
    {
      running := running - 1;
      waiting := Free;
      StopIfInterruptedNow();
      if exited == None && code != 0 {
        ExitProcess(1);
      }
    }

    /** Executor.execute or pipe, up to the await. */
    method LaunchExecute()
      requires Enabled(View(), BeginExecute)
      modifies this
      ensures View() == Do(old(View()), BeginExecute)
    {
      running := running + 1;
      waiting := InExecute;
    }

    /** Executor.execute or pipe, after the await, and what its caller does first. */
    method ReturnExecute(checks: bool)
      requires Enabled(View(), EndExecute(checks)) && Counted(View())
      modifies this
      ensures View() == Do(old(View()), EndExecute(checks))
    {
      running := running - 1;
      waiting := Free;
      if checks {
        StopIfInterruptedNow();
      }
    }

    /** takeCaddyLock, up to the first await. */
    method BeginTakeCaddyLock()
      requires Enabled(View(), BeginTake)
      modifies this
      ensures View() == Do(old(View()), BeginTake)
    {
      ArmRelease();
      running := running + 1;
      waiting := InTake(false, None);
    }

    /** takeCaddyLock, once the executor has handed an answer back: nothing can fall between that and the line kept. */
    method TakeAnswered(stale: bool)
      requires Enabled(View(), TakeReturns(stale)) && Counted(View())
      modifies this
      ensures View() == Do(old(View()), TakeReturns(stale))
    {
      var granted := waiting.granted;
      running := running - 1;
      if stale {
        running := running + 1;
        waiting := InTake(true, None);
        return;
      }
      waiting := Free;
      if granted == None {
        ExitProcess(1);
        return;
      }
      heldLock := granted;
      StopIfInterruptedNow();
    }
  }

  // --- runs ------------------------------------------------------------------

  /** The state after a sequence of steps, from the start of the process. */
  ghost predicate Reaches(steps: seq<Step>, s: State)
    decreases |steps|, 1
  {
    if steps == [] then s == START else exists before :: Precedes(steps, before, s)
  }

  /** The steps but the last reach `before`, and the last leads from there to `s`. */
  ghost predicate Precedes(steps: seq<Step>, before: State, s: State)
    requires steps != []
    decreases |steps|, 0
  {
    var last := |steps| - 1;
    && Reaches(steps[..last], before)
    && Enabled(before, steps[last])
    && (!before.waiting.Free? ==> Counted(before))
    && s == Do(before, steps[last])
  }

  function Count(log: seq<Event>, e: Event): nat {
    if log == [] then 0 else Count(log[..|log| - 1], e) + if log[|log| - 1] == e then 1 else 0
  }

  function Interruptions(steps: seq<Step>): nat {
    if steps == [] then 0 else Interruptions(steps[..|steps| - 1]) + if steps[|steps| - 1].Interrupted? then 1 else 0
  }

  lemma CountOfOneMore(log: seq<Event>, e: Event, f: Event)
    ensures Count(log + [e], f) == Count(log, f) + if e == f then 1 else 0
  {
    assert (log + [e])[..|log|] == log;
  }

  /** A grant not handed back: held, or on its way. */
  predicate Owed(s: State, line: string) {
    s.held == Some(line) || OnItsWay(s, line)
  }

  predicate OnItsWay(s: State, line: string) {
    s.waiting.InTake? && s.waiting.granted == Some(line)
  }

  ghost predicate Balanced(s: State) {
    forall line :: Count(s.log, Granted(line)) == Count(s.log, ReleaseSent(line)) + if Owed(s, line) then 1 else 0
  }

  ghost predicate Inv(s: State) {
    && Balanced(s)
    && (s.exited.None? ==> s.running == if s.waiting.Free? then 0 else 1)
    && (s.exited.Some? ==> s.held.None?)
    && (s.interruption.Some? ==> s.armed)
    && (!s.armed ==> s.held.None? && !s.waiting.InTake?)
    && (s.waiting.InTake? ==> s.held.None?)
    && (CutShort in s.log ==> s.exited.Some?)
  }

  lemma LogOneMore(log: seq<Event>, e: Event)
    ensures forall f :: Count(log + [e], f) == Count(log, f) + if e == f then 1 else 0
  {
    forall f ensures Count(log + [e], f) == Count(log, f) + if e == f then 1 else 0 { CountOfOneMore(log, e, f); }
  }

  lemma ReleaseBalances(s: State)
    requires Balanced(s) && (s.waiting.InTake? ==> s.held.None?)
    ensures Balanced(Release(s)) && Release(s).held.None?
    ensures CutShort in Release(s).log <==> CutShort in s.log
  {
    if s.held.Some? {
      LogOneMore(s.log, ReleaseSent(s.held.value));
    }
  }

  /**
   * Leaving the process hands back what is held, not what is on its way, and cuts a
   * command exactly when one was running.
   */
  lemma ExitSettles(s: State, code: int)
    requires Balanced(s) && (s.held.Some? ==> s.armed) && (s.waiting.InTake? ==> s.held.None?)
    ensures Balanced(Exit(s, code)) && Exit(s, code).held.None? && Exit(s, code).waiting == s.waiting
    ensures CutShort in Exit(s, code).log <==> CutShort in s.log || s.running > 0
  {
    if s.armed {
      ReleaseBalances(s);
    }
    var r := if s.armed then Release(s) else s;
    LogOneMore(r.log, CutShort);
  }

  /** An answer or a command handed back, then the pending interruption honoured. */
  lemma ReturningKeepsInv(s: State)
    requires Inv(s) && s.exited.None? && s.running == 0 && s.waiting.Free?
    ensures Inv(StopIfInterrupted(s)) && Inv(Exit(s, 1))
    ensures CutShort !in StopIfInterrupted(s).log && CutShort !in Exit(s, 1).log
  {
    ExitSettles(s, 1);
    if s.interruption.Some? {
      ExitSettles(s, s.interruption.value);
    }
  }

  /** The steps that leave a command running behind them. */
  predicate Cuts(s: State, a: Step) {
    a.Interrupted? && s.running > 0 && (!s.armed || s.interruption.Some?)
  }

  lemma TakeReturningKeepsInv(s: State, stale: bool)
    requires Inv(s) && Enabled(s, TakeReturns(stale))
    ensures Inv(Do(s, TakeReturns(stale))) && CutShort !in Do(s, TakeReturns(stale)).log
  {
    if !stale {
      var back := s.(waiting := Free, running := s.running - 1, held := s.waiting.granted);
      assert Balanced(back);
      ReturningKeepsInv(back);
    }
  }

  lemma BeginningKeepsInv(s: State, a: Step)
    requires Inv(s) && Enabled(s, a) && (a.BeginRun? || a.BeginExecute? || a.BeginTake?)
    ensures Inv(Do(s, a)) && CutShort !in Do(s, a).log
  {
  }

  lemma CommandReturningKeepsInv(s: State, a: Step)
    requires Inv(s) && Enabled(s, a) && (a.EndRun? || a.EndExecute?)
    ensures Inv(Do(s, a)) && CutShort !in Do(s, a).log
  {
    ReturningKeepsInv(s.(waiting := Free, running := s.running - 1));
  }

  lemma GrantKeepsInv(s: State, line: string)
    requires Inv(s) && Enabled(s, MachineGrants(line))
    ensures Inv(Do(s, MachineGrants(line))) && CutShort !in Do(s, MachineGrants(line)).log
  {
    LogOneMore(s.log, Granted(line));
  }

  lemma LeavingKeepsInv(s: State, a: Step)
    requires Inv(s) && Enabled(s, a) && (a.HandBack? || a.Interrupted? || a.Finish?)
    ensures Inv(Do(s, a))
    ensures CutShort in Do(s, a).log <==> Cuts(s, a)
  {
    ReleaseBalances(s);
    if !a.HandBack? {
      ExitSettles(s, a.code);
    }
  }

  lemma StepKeepsInv(s: State, a: Step)
    requires Inv(s) && Enabled(s, a)
    ensures Inv(Do(s, a))
    ensures CutShort in Do(s, a).log <==> Cuts(s, a)
  {
    match a
    case BeginRun => BeginningKeepsInv(s, a);
    case BeginExecute => BeginningKeepsInv(s, a);
    case BeginTake => BeginningKeepsInv(s, a);
    case EndRun(_) => CommandReturningKeepsInv(s, a);
    case EndExecute(_) => CommandReturningKeepsInv(s, a);
    case MachineGrants(line) => GrantKeepsInv(s, line);
    case TakeReturns(stale) => TakeReturningKeepsInv(s, stale);
    case HandBack => LeavingKeepsInv(s, a);
    case Interrupted(_) => LeavingKeepsInv(s, a);
    case Finish(_) => LeavingKeepsInv(s, a);
  }

  lemma {:induction false} ReachedKeepsInv(steps: seq<Step>, s: State)
    requires Reaches(steps, s)
    ensures Inv(s)
  {
    if steps != [] {
      var before :| Precedes(steps, before, s);
      ReachedKeepsInv(steps[..|steps| - 1], before);
      StepKeepsInv(before, steps[|steps| - 1]);
    }
  }

  lemma {:induction false} PendingWasInterrupted(steps: seq<Step>, s: State)
    requires Reaches(steps, s) && s.interruption.Some?
    ensures Interruptions(steps) >= 1
  {
    var before :| Precedes(steps, before, s);
    if before.interruption.Some? {
      PendingWasInterrupted(steps[..|steps| - 1], before);
    }
  }

  // --- what is handed back ---------------------------------------------------

  ghost predicate AllHandedBack(s: State) {
    forall line :: Count(s.log, Granted(line)) == Count(s.log, ReleaseSent(line))
  }

  /**
   * In every run, whatever the interruptions: no hand back is sent for a line
   * not granted, and when the process has exited every grant has been handed
   * back once but the one, if any, whose answer was on its way.
   */
  lemma HandedBackButWhatIsOnItsWay(steps: seq<Step>, s: State, line: string)
    requires Reaches(steps, s)
    ensures Count(s.log, ReleaseSent(line)) <= Count(s.log, Granted(line)) <= Count(s.log, ReleaseSent(line)) + 1
    ensures s.exited.Some? ==>
      Count(s.log, Granted(line)) == Count(s.log, ReleaseSent(line)) + if OnItsWay(s, line) then 1 else 0
  {
    ReachedKeepsInv(steps, s);
  }

  /**
   * The step that loses a lock: an interruption while a granted answer is on its way,
   * another being already pending.
   */
  predicate Loses(s: State, a: Step) {
    a.Interrupted? && s.waiting.InTake? && s.waiting.granted.Some? && s.interruption.Some?
  }

  lemma ExitedOnItsWay(s: State, a: Step)
    requires Inv(s) && Enabled(s, a) && Do(s, a).exited.Some?
    ensures Do(s, a).waiting.InTake? && Do(s, a).waiting.granted.Some? <==> Loses(s, a)
  {
  }

  /**
   * A process has exited without handing back all it was granted exactly when its last
   * step was such a one: no other run loses a lock.
   */
  lemma LockLostExactlyWhen(steps: seq<Step>, before: State, s: State)
    requires steps != [] && Precedes(steps, before, s) && s.exited.Some?
    ensures AllHandedBack(s) <==> !Loses(before, steps[|steps| - 1])
    ensures AllHandedBack(s) <==> !(s.waiting.InTake? && s.waiting.granted.Some?)
  {
    ReachedKeepsInv(steps, s);
    ReachedKeepsInv(steps[..|steps| - 1], before);
    ExitedOnItsWay(before, steps[|steps| - 1]);
    if s.waiting.InTake? && s.waiting.granted.Some? {
      var line := s.waiting.granted.value;
      assert Count(s.log, Granted(line)) == Count(s.log, ReleaseSent(line)) + 1;
    }
  }

  /**
   * A counted command has been cut short exactly when the last step is an interruption
   * that falls on one before the handlers are armed, or while another is pending.
   */
  lemma CutShortExactlyWhen(steps: seq<Step>, before: State, s: State)
    requires steps != [] && Precedes(steps, before, s)
    ensures CutShort in s.log <==> Cuts(before, steps[|steps| - 1])
  {
    ReachedKeepsInv(steps[..|steps| - 1], before);
    StepKeepsInv(before, steps[|steps| - 1]);
  }

  lemma OnePendingAtMost(steps: seq<Step>, before: State, s: State)
    requires steps != [] && Precedes(steps, before, s) && Interruptions(steps) <= 1
    ensures steps[|steps| - 1].Interrupted? ==> before.interruption.None?
  {
    if before.interruption.Some? {
      PendingWasInterrupted(steps[..|steps| - 1], before);
    }
  }

  /**
   * So in every run with at most one interruption, wherever it falls, each line
   * granted has been handed back as often by the time the process has exited.
   */
  lemma EveryGrantHandedBack(steps: seq<Step>, s: State, line: string)
    requires Reaches(steps, s) && Interruptions(steps) <= 1
    ensures Count(s.log, ReleaseSent(line)) <= Count(s.log, Granted(line)) <= Count(s.log, ReleaseSent(line)) + 1
    ensures s.exited.Some? ==> Count(s.log, ReleaseSent(line)) == Count(s.log, Granted(line))
  {
    HandedBackButWhatIsOnItsWay(steps, s, line);
    if s.exited.Some? {
      var before :| Precedes(steps, before, s);
      LockLostExactlyWhen(steps, before, s);
      OnePendingAtMost(steps, before, s);
    }
  }

  /** And no counted command is cut short, once the first take has armed the handlers. */
  lemma NothingCutShort(steps: seq<Step>, s: State)
    requires Reaches(steps, s) && Interruptions(steps) <= 1 && s.armed
    ensures CutShort !in s.log
  {
    if steps != [] {
      var before :| Precedes(steps, before, s);
      CutShortExactlyWhen(steps, before, s);
      OnePendingAtMost(steps, before, s);
    }
  }

  // --- what a take leaves, and how a process ends ----------------------------

  /** How many takes the process has begun. */
  function Begun(steps: seq<Step>): nat {
    if steps == [] then 0 else Begun(steps[..|steps| - 1]) + if steps[|steps| - 1].BeginTake? then 1 else 0
  }

  function Grants(log: seq<Event>): nat {
    if log == [] then 0 else Grants(log[..|log| - 1]) + if log[|log| - 1].Granted? then 1 else 0
  }

  lemma GrantsOneMore(log: seq<Event>, e: Event)
    ensures Grants(log + [e]) == Grants(log) + if e.Granted? then 1 else 0
  {
    assert (log + [e])[..|log|] == log;
  }

  /** The line granted last, unless it has been handed back since. */
  function LastGrant(log: seq<Event>): Option<string> {
    if log != [] && log[|log| - 1].Granted? then Some(log[|log| - 1].line) else None
  }

  /** The line the process has: held, or on its way. */
  function Line(s: State): Option<string> {
    if s.waiting.InTake? then s.waiting.granted else s.held
  }

  /** Takes begun are granted but the one, if any, that still waits for its answer. */
  predicate Answered(begun: nat, s: State) {
    && begun == Grants(s.log) + (if s.waiting.InTake? && s.waiting.granted.None? then 1 else 0)
    && Line(s) == LastGrant(s.log)
  }

  lemma StepKeepsAnswered(s: State, a: Step, begun: nat)
    requires Inv(s) && Enabled(s, a) && Answered(begun, s) && Do(s, a).exited.None?
    ensures Answered(begun + if a.BeginTake? then 1 else 0, Do(s, a))
  {
    match a
    case MachineGrants(line) => GrantsOneMore(s.log, Granted(line));
    case HandBack =>
      if s.held.Some? {
        GrantsOneMore(s.log, ReleaseSent(s.held.value));
      }
    case _ =>
  }

  lemma {:induction false} RunKeepsAnswered(steps: seq<Step>, s: State)
    requires Reaches(steps, s) && s.exited.None?
    ensures Answered(Begun(steps), s) && (s.armed <==> Begun(steps) > 0)
  {
    if steps != [] {
      var before :| Precedes(steps, before, s);
      RunKeepsAnswered(steps[..|steps| - 1], before);
      ReachedKeepsInv(steps[..|steps| - 1], before);
      StepKeepsAnswered(before, steps[|steps| - 1], Begun(steps[..|steps| - 1]));
    }
  }

  /**
   * A process that has not exited and waits for no take was granted every take
   * it began, and holds the line granted last exactly until it hands it back.
   */
  lemma ComesBackOnlyGranted(steps: seq<Step>, s: State)
    requires Reaches(steps, s) && s.exited.None? && !s.waiting.InTake?
    ensures Begun(steps) == Grants(s.log) && s.held == LastGrant(s.log)
    ensures s.armed <==> Begun(steps) > 0
  {
    RunKeepsAnswered(steps, s);
  }

  /**
   * Once a take has its answer the process holds exactly the line granted, or
   * has exited: with a failure when nothing was granted, and otherwise only for
   * an interruption, having handed the line back.
   */
  lemma TakeEndsHeldOrExited(steps: seq<Step>, before: State, s: State)
    requires steps != [] && Precedes(steps, before, s) && steps[|steps| - 1] == TakeReturns(false)
    ensures before.waiting.InTake? && s.waiting.Free?
    ensures before.waiting.granted.None? ==> s.exited.Some? && s.exited.value != 0 && s.held.None?
    ensures before.waiting.granted.Some? && before.interruption.None? ==>
      s.exited.None? && s.held == before.waiting.granted && s.log == before.log
    ensures before.waiting.granted.Some? && before.interruption.Some? ==>
      s.exited == before.interruption && s.log == before.log + [ReleaseSent(before.waiting.granted.value)]
  {
    ReachedKeepsInv(steps[..|steps| - 1], before);
  }

  /** The hand back is of the line held, and nothing else changes. */
  lemma HandBackHandsBack(steps: seq<Step>, before: State, s: State)
    requires steps != [] && Precedes(steps, before, s) && steps[|steps| - 1] == HandBack
    ensures s.held.None? && s.exited.None?
    ensures s.log == before.log + if before.held.Some? then [ReleaseSent(before.held.value)] else []
  {
  }

  /** The command has come back, and its caller looks for an interruption. */
  predicate Looks(a: Step, before: State) {
    a.EndRun? || a == EndExecute(true)
      || (a == TakeReturns(false) && before.waiting.InTake? && before.waiting.granted.Some?)
  }

  /**
   * The steps that end the process, and its exit code: the end of the program;
   * an interruption that finds the handlers not armed, another pending, or no
   * command running; a pending one, at the first return that looks for it; a
   * command that failed; a take refused.
   */
  predicate Ends(before: State, a: Step, code: int) {
    || a == Finish(code)
    || (a == Interrupted(code) && (!before.armed || before.interruption.Some? || before.waiting.Free?))
    || (Looks(a, before) && before.interruption == Some(code))
    || (code == 1 && a.EndRun? && a.code != 0 && before.interruption.None?)
    || (code == 1 && a == TakeReturns(false) && before.waiting.InTake? && before.waiting.granted.None?)
  }

  /**
   * In every run the process exits exactly on such a step, with that code; and an
   * interruption that does not end it is remembered, alone.
   */
  lemma HowItEnds(steps: seq<Step>, before: State, s: State, code: int)
    requires steps != [] && Precedes(steps, before, s)
    ensures s.exited == Some(code) <==> Ends(before, steps[|steps| - 1], code)
    ensures steps[|steps| - 1] == Interrupted(code) && s.exited.None? ==> s == before.(interruption := Some(code))
    ensures !steps[|steps| - 1].Interrupted? ==> s.interruption == before.interruption
  {
    ReachedKeepsInv(steps[..|steps| - 1], before);
  }

  lemma ReachesOneMore(steps: seq<Step>, s: State, a: Step)
    requires Reaches(steps, s) && Enabled(s, a) && (!s.waiting.Free? ==> Counted(s))
    ensures Reaches(steps + [a], Do(s, a))
  {
    assert (steps + [a])[..|steps|] == steps;
    assert Precedes(steps + [a], s, Do(s, a));
  }

  /**
   * Two interruptions are one too many: the second leaves while a granted answer is on
   * its way, and nobody hands it back.
   */
  lemma SecondInterruptionLosesALock(line: string)
    ensures exists steps, s ::
      (&& Reaches(steps, s) && Interruptions(steps) == 2 && s.exited.Some?
       && Count(s.log, Granted(line)) == 1 && Count(s.log, ReleaseSent(line)) == 0 && CutShort in s.log)
  {
    var s1 := Do(START, BeginTake);
    var s2 := Do(s1, MachineGrants(line));
    var s3 := Do(s2, Interrupted(130));
    var s4 := Do(s3, Interrupted(130));
    ReachesOneMore([], START, BeginTake);
    ReachesOneMore([] + [BeginTake], s1, MachineGrants(line));
    ReachesOneMore([] + [BeginTake] + [MachineGrants(line)], s2, Interrupted(130));
    ReachesOneMore([] + [BeginTake] + [MachineGrants(line)] + [Interrupted(130)], s3, Interrupted(130));
    var three := [] + [BeginTake] + [MachineGrants(line)] + [Interrupted(130)];
    InterruptionsOneMore([] + [BeginTake], MachineGrants(line));
    InterruptionsOneMore([] + [BeginTake] + [MachineGrants(line)], Interrupted(130));
    InterruptionsOneMore(three, Interrupted(130));
    InterruptionsOneMore([], BeginTake);
    CountOfOneMore([], Granted(line), Granted(line));
    CountOfOneMore([], Granted(line), ReleaseSent(line));
    assert s4.log == [] + [Granted(line)] + [CutShort];
    CountOfOneMore([] + [Granted(line)], CutShort, Granted(line));
    CountOfOneMore([] + [Granted(line)], CutShort, ReleaseSent(line));
    assert CutShort == s4.log[1];
    assert Reaches(three + [Interrupted(130)], s4) && Interruptions(three + [Interrupted(130)]) == 2;
  }

  lemma InterruptionsOneMore(steps: seq<Step>, a: Step)
    ensures Interruptions(steps + [a]) == Interruptions(steps) + if a.Interrupted? then 1 else 0
  {
    assert (steps + [a])[..|steps|] == steps;
  }
}
