/**
 * What the workstation makes of a lock script's answer: the text the scripts
 * print, the reading of it, and the decision taken on it.
 */
module LockAnswers {
  import opened Options
  import opened Text
  import opened Digits
  import opened LockLines
  import LockProtocol

  /** What a command on the machine gave back: its exit code and its standard output. */
  datatype Execution = Execution(code: int, output: string)

  datatype TakeAnswer =
    | Taken(holder: Holder)
    | HeldBy(now: nat, stale: bool, content: string)
    | Unreadable

  datatype Decision =
    | Won(line: string)
    | Refused
    /** To take over: the line read, or none for an unreadable holder. */
    | Stale(previous: Option<Holder>)

  predicate Blank(line: string) {
    Trim(line) == ""
  }

  function DropBlankTail(lines: seq<string>): (kept: seq<string>)
    ensures kept <= lines
    ensures kept != [] ==> !Blank(kept[|kept| - 1])
    ensures forall i | |kept| <= i < |lines| :: Blank(lines[i])
  {
    if lines != [] && Blank(lines[|lines| - 1]) then DropBlankTail(lines[..|lines| - 1]) else lines
  }

  /** HELD and one to fifteen digits. */
  function ReadHeldTime(line: string): Option<nat> {
    if StartsWith(line, "HELD ") && AllDigits(line[5..]) && 1 <= |line[5..]| <= 15 then Some(Value(line[5..], 10))
    else None
  }

  /** The reading of an answer's lines, the blank ones at the end dropped. */
  function AnswerIn(lines: seq<string>, expected: Option<LockProtocol.Client>): TakeAnswer {
    var first := if lines == [] then "" else lines[0];
    if StartsWith(first, "TAKEN ") then
      var holder := ReadHolder(first[6..]);
      if holder.None? || |lines| != 1 then Unreadable
      else if expected.Some?
        && !(expected.value.who == holder.value.who && expected.value.pid == holder.value.pid) then Unreadable
      else Taken(holder.value)
    else
      var held := ReadHeldTime(first);
      if held.Some? && |lines| >= 3 && (lines[1] == "STALE" || lines[1] == "RECENT") && lines[|lines| - 1] == "END" then
        HeldBy(held.value, lines[1] == "STALE", Trim(Join(lines[2..|lines| - 1], "\n")))
      else Unreadable
  }

  function AnswerOf(e: Execution, expected: Option<LockProtocol.Client>): TakeAnswer {
    if e.code != 0 then Unreadable else AnswerIn(DropBlankTail(Split(e.output, '\n')), expected)
  }

  /** The reading as the source runs it, popping the blank lines at the end. */
  method ReadTakeAnswer(e: Execution, expected: Option<LockProtocol.Client>) returns (answer: TakeAnswer)
    ensures answer == AnswerOf(e, expected)
  {
    if e.code != 0 {
      return Unreadable;
    }
    var lines := Split(e.output, '\n');
    while |lines| > 0 && Blank(lines[|lines| - 1])
      invariant DropBlankTail(lines) == DropBlankTail(Split(e.output, '\n'))
    {
      lines := lines[..|lines| - 1];
    }
    var first := if lines == [] then "" else lines[0];
    if StartsWith(first, "TAKEN ") {
      var holder := ReadHolder(first[6..]);
      var other := expected.Some?
        && (holder.None? || holder.value.who != expected.value.who || holder.value.pid != expected.value.pid);
      if holder.None? || other || |lines| != 1 {
        return Unreadable;
      }
      return Taken(holder.value);
    }
    var held := ReadHeldTime(first);
    if held.Some? && |lines| >= 3 && (lines[1] == "STALE" || lines[1] == "RECENT") && lines[|lines| - 1] == "END" {
      return HeldBy(held.value, lines[1] == "STALE", Trim(Join(lines[2..|lines| - 1], "\n")));
    }
    return Unreadable;
  }

  /** Taken, held, or stale: a readable holder by its own time, an unreadable one by the directory's age. */
  function DecideTake(answer: TakeAnswer): Decision {
    match answer
    case Taken(holder) => Won(Line(holder))
    case Unreadable => Refused
    case HeldBy(now, stale, content) =>
      var holder := ReadHolder(content);
      var isStale := if holder.None? then stale else now as int - holder.value.since as int > STALE_MS;
      if isStale then Stale(holder) else Refused
  }

  // --- what the scripts print ------------------------------------------------

  function PrintTaken(h: Holder): string {
    "TAKEN " + Line(h) + "\n"
  }

  function PrintHeld(now: nat, stale: bool, content: string): string {
    ("HELD " + Print(now, 10)) + "\n" + ((if stale then "STALE" else "RECENT") + "\n" + (content + "\n" + "END\n"))
  }

  lemma SplitTwo(a: string, b: string)
    requires '\n' !in a
    ensures Split(a + "\n" + b, '\n') == [a] + Split(b, '\n')
  {
    SplitAppend(a, b, '\n');
    SplitPiece(a, '\n');
  }

  /** The answer of a take that succeeded is read as a take of exactly that line, and only in its own name. */
  lemma TakenReadsBack(h: Holder, expected: Option<LockProtocol.Client>)
    requires ValidHolder(h)
    ensures AnswerOf(Execution(0, PrintTaken(h)), expected)
      == if expected.None? || expected == Some(LockProtocol.Client(h.who, h.pid)) then Taken(h) else Unreadable
  {
    LineIsTrimmed(h);
    LineReadsBack(h);
    var first := "TAKEN " + Line(h);
    SplitTwo(first, "");
    assert PrintTaken(h) == first + "\n" + "";
    var lines := [first, ""];
    assert Split(PrintTaken(h), '\n') == lines;
    TrimOfTrimmed(first);
    assert lines[..1] == [first];
    assert DropBlankTail([first]) == [first];
    assert DropBlankTail(lines) == [first];
    assert first[6..] == Line(h);
  }

  lemma FourParts(a: string, b: string, content: string)
    requires '\n' !in a && '\n' !in b
    ensures Split(a + "\n" + (b + "\n" + (content + "\n" + "END\n")), '\n') ==
      [a] + ([b] + (Split(content, '\n') + ["END", ""]))
  {
    var end := "END\n";
    assert Split(end, '\n') == ["END", ""] by {
      SplitTwo("END", "");
      assert "END" + "\n" + "" == end;
    }
    var rest := content + "\n" + end;
    assert Split(rest, '\n') == Split(content, '\n') + ["END", ""] by { SplitAppend(content, end, '\n'); }
    SplitTwo(b, rest);
    SplitTwo(a, b + "\n" + rest);
  }

  /** The lines of a held answer, once the blank one at the end is popped. */
  lemma KeptLines(a: string, b: string, middle: seq<string>)
    ensures DropBlankTail([a] + ([b] + (middle + ["END", ""]))) == [a, b] + middle + ["END"]
  {
    var lines := [a] + ([b] + (middle + ["END", ""]));
    var kept := [a, b] + middle + ["END"];
    assert lines[..|lines| - 1] == kept;
    TrimOfTrimmed("END");
    assert DropBlankTail(kept) == kept;
  }

  lemma HeldTimeReadsBack(now: nat)
    requires now < Pow(10, 15)
    ensures ReadHeldTime("HELD " + Print(now, 10)) == Some(now)
  {
    var first := "HELD " + Print(now, 10);
    assert first[5..] == Print(now, 10);
    LengthOfPrint(now, 10, 15);
    ValueOfPrint(now, 10);
  }

  lemma AnswerInHeldLines(a: string, now: nat, stale: bool, content: string, expected: Option<LockProtocol.Client>)
    requires ReadHeldTime(a) == Some(now)
    ensures AnswerIn([a, if stale then "STALE" else "RECENT"] + Split(content, '\n') + ["END"], expected)
      == HeldBy(now, stale, Trim(content))
  {
    var middle := Split(content, '\n');
    var kept := [a, if stale then "STALE" else "RECENT"] + middle + ["END"];
    assert kept[2..|kept| - 1] == middle;
    JoinSplit(content, '\n');
    assert a[0] == 'H';
    assert "STALE"[0] != "RECENT"[0];
  }

  /**
   * Whatever a holder file contains, lines that look like the answer's own
   * markers included, the answer of a take that found the lock held is read as
   * held, with the machine's time, the directory's age and that content trimmed.
   */
  lemma HeldReadsBack(now: nat, stale: bool, content: string, expected: Option<LockProtocol.Client>)
    requires now < Pow(10, 15)
    ensures AnswerOf(Execution(0, PrintHeld(now, stale, content)), expected) == HeldBy(now, stale, Trim(content))
  {
    var a := "HELD " + Print(now, 10);
    var b := if stale then "STALE" else "RECENT";
    DigitsHoldNoSpace(Print(now, 10));
    FourParts(a, b, content);
    KeptLines(a, b, Split(content, '\n'));
    HeldTimeReadsBack(now);
    AnswerInHeldLines(a, now, stale, content, expected);
  }

  /**
   * On what the machine printed, the workstation decides a takeover exactly when
   * the holder's line is more than fifteen minutes old, or when it is
   * unreadable in a directory that old; it names the line it read.
   */
  lemma TakeoverDecidedExactlyWhenStale(now: nat, stale: bool, content: string, expected: Option<LockProtocol.Client>)
    requires now < Pow(10, 15)
    ensures var d := DecideTake(AnswerOf(Execution(0, PrintHeld(now, stale, content)), expected));
      && !d.Won?
      && (d.Stale? <==>
            if ReadHolder(Trim(content)).Some?
            then now as int - ReadHolder(Trim(content)).value.since as int > STALE_MS
            else stale)
      && (d.Stale? ==> d.previous == ReadHolder(Trim(content)))
  {
    HeldReadsBack(now, stale, content, expected);
  }

  /** A take is believed only on an answer of exactly that take; no other output wins the lock. */
  lemma WonOnlyWhenAnswered(e: Execution, me: LockProtocol.Client)
    requires DecideTake(AnswerOf(e, Some(me))).Won?
    ensures e.code == 0
    ensures exists h: Holder ::
      (&& ValidHolder(h) && h.who == me.who && h.pid == me.pid
       && DecideTake(AnswerOf(e, Some(me))) == Won(Line(h))
       && AnswerOf(Execution(0, PrintTaken(h)), Some(me)) == AnswerOf(e, Some(me)))
  {
    var h := AnswerOf(e, Some(me)).holder;
    var lines := DropBlankTail(Split(e.output, '\n'));
    AcceptedLineIsPlain(lines[0][6..]);
    TakenReadsBack(h, Some(me));
  }

  /**
   * A takeover the workstation launches is one the protocol allows: the line it
   * names had expired by the machine's clock when it was read, and is still
   * expired whenever the takeover begins.
   */
  lemma TakeoverIsEnabled(answer: TakeAnswer, s: LockProtocol.State, p: nat, me: LockProtocol.Client)
    requires answer.HeldBy? && DecideTake(answer).Stale? && answer.now <= s.now
    requires p < |s.procs| && s.procs[p].Idle?
    ensures LockProtocol.Enabled(s, LockProtocol.BeginTakeover(p, me, DecideTake(answer).previous))
  {
  }

  // --- the chain -------------------------------------------------------------

  datatype Acquisition = Acquired(line: string, tookOver: bool) | NotAcquired

  /**
   * Takes the lock, taking over a stale one at most once. `answers` is what the
   * machine gives to the take, then to the takeover; `sent` is how many of the
   * two scripts left.
   */
  method TakeLock(me: LockProtocol.Client, first: Execution, second: Execution) returns (a: Acquisition, sent: nat)
    ensures 1 <= sent <= 2
    ensures sent == 2 <==> DecideTake(AnswerOf(first, Some(me))).Stale?
    ensures a.Acquired? <==>
      || (sent == 1 && DecideTake(AnswerOf(first, Some(me))).Won?)
      || (sent == 2 && DecideTake(AnswerOf(second, Some(me))).Won?)
    ensures a.Acquired? ==>
      && a.tookOver == (sent == 2)
      && DecideTake(AnswerOf(if sent == 1 then first else second, Some(me))) == Won(a.line)
  {
    var answer := ReadTakeAnswer(first, Some(me));
    var decision := DecideTake(answer);
    if !decision.Stale? {
      return if decision.Won? then Acquired(decision.line, false) else NotAcquired, 1;
    }
    answer := ReadTakeAnswer(second, Some(me));
    decision := DecideTake(answer);
    return if decision.Won? then Acquired(decision.line, true) else NotAcquired, 2;
  }
}
