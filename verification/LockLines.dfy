/** The line a lock directory carries, `<who> <pid> <ms>`, written and read strictly. */
module LockLines {
  import opened Options
  import opened Text
  import opened Digits

  /** Fifteen minutes, in milliseconds: the age a lock must have passed to be taken over. */
  const STALE_MS: nat := 15 * 60 * 1000

  datatype Holder = Holder(who: string, pid: nat, since: nat)

  /** [a-z][a-z0-9-]{0,31} */
  predicate ValidWho(who: string) {
    && 1 <= |who| <= 32
    && 'a' <= who[0] <= 'z'
    && forall i | 1 <= i < |who| :: IsLowerAlnum(who[i]) || who[i] == '-'
  }

  predicate ValidHolder(h: Holder) {
    ValidWho(h.who) && h.pid < Pow(10, 10) && h.since < Pow(10, 15)
  }

  function Line(h: Holder): string {
    h.who + " " + Print(h.pid, 10) + " " + Print(h.since, 10)
  }

  /** A name, a pid of one to ten digits and a time of one to fifteen, separated by single spaces. */
  function ReadHolder(text: string): Option<Holder> {
    var parts := Split(Trim(text), ' ');
    if |parts| == 3 && ValidWho(parts[0])
       && AllDigits(parts[1]) && 1 <= |parts[1]| <= 10
       && AllDigits(parts[2]) && 1 <= |parts[2]| <= 15
    then Some(Holder(parts[0], Value(parts[1], 10), Value(parts[2], 10)))
    else None
  }

  lemma DigitsHoldNoSpace(s: string)
    requires AllDigits(s)
    ensures ' ' !in s && forall c | c in s :: !IsSpace(c)
  {
  }

  lemma WhoHoldsNoSpace(who: string)
    requires ValidWho(who)
    ensures ' ' !in who && forall c | c in who :: !IsSpace(c)
  {
    forall i | 0 <= i < |who| ensures !IsSpace(who[i]) {}
  }

  lemma LineIsTrimmed(h: Holder)
    requires ValidWho(h.who)
    ensures Trimmed(Line(h)) && '\n' !in Line(h)
    ensures Split(Line(h), ' ') == [h.who, Print(h.pid, 10), Print(h.since, 10)]
  {
    var parts := [h.who, Print(h.pid, 10), Print(h.since, 10)];
    WhoHoldsNoSpace(h.who);
    DigitsHoldNoSpace(parts[1]);
    DigitsHoldNoSpace(parts[2]);
    JoinThree(parts[0], parts[1], parts[2], " ");
    SplitJoin(parts, ' ');
    assert Line(h)[0] == h.who[0] && Line(h)[|Line(h)| - 1] == parts[2][|parts[2]| - 1];
  }

  /** Every line the scripts write reads back as its holder. */
  lemma LineReadsBack(h: Holder)
    requires ValidHolder(h)
    ensures ReadHolder(Line(h)) == Some(h)
  {
    LineIsTrimmed(h);
    TrimOfTrimmed(Line(h));
    LengthOfPrint(h.pid, 10, 10);
    LengthOfPrint(h.since, 10, 15);
    ValueOfPrint(h.pid, 10);
    ValueOfPrint(h.since, 10);
  }

  lemma {:induction false} ValueBound(s: string)
    requires AllDigits(s)
    ensures Value(s, 10) < Pow(10, |s|)
  {
    if s != "" {
      ValueBound(s[..|s| - 1]);
    }
  }

  lemma {:induction false} PowMonotone(j: nat, k: nat)
    requires j <= k
    ensures Pow(10, j) <= Pow(10, k)
  {
    if j < k {
      PowMonotone(j, k - 1);
    }
  }

  predicate IsPlain(c: char) {
    IsLowerAlnum(c) || c == '-' || c == ' '
  }

  lemma LineIsPlain(h: Holder)
    requires ValidWho(h.who)
    ensures forall c | c in Line(h) :: IsPlain(c)
  {
    forall c | c in h.who
      ensures IsPlain(c)
    {
      var i :| 0 <= i < |h.who| && h.who[i] == c;
    }
  }

  lemma AcceptedIsValid(text: string)
    requires ReadHolder(text).Some?
    ensures ValidHolder(ReadHolder(text).value)
  {
    var parts := Split(Trim(text), ' ');
    ValueBound(parts[1]);
    ValueBound(parts[2]);
    PowMonotone(|parts[1]|, 10);
    PowMonotone(|parts[2]|, 15);
  }

  /**
   * Whatever text is read, an accepted holder is one whose own line reads back,
   * and that line carries only lower case letters, digits, dashes and its two
   * spaces: nothing the remote shell would interpret.
   */
  lemma AcceptedLineIsPlain(text: string)
    requires ReadHolder(text).Some?
    ensures ValidHolder(ReadHolder(text).value)
    ensures ReadHolder(Line(ReadHolder(text).value)) == ReadHolder(text)
    ensures forall c | c in Line(ReadHolder(text).value) :: IsLowerAlnum(c) || c == '-' || c == ' '
  {
    AcceptedIsValid(text);
    LineReadsBack(ReadHolder(text).value);
    LineIsPlain(ReadHolder(text).value);
  }

  /** Two holders with the same line are the same holder: comparing lines compares holders. */
  lemma LineIdentifies(g: Holder, h: Holder)
    requires ValidHolder(g) && ValidHolder(h) && Line(g) == Line(h)
    ensures g == h
  {
    LineReadsBack(g);
    LineReadsBack(h);
  }
}
