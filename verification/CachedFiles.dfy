/** A file read through a cache, and what its value is over any sequence of calls. */
module CachedFiles {

  /** What reading the file gives at one moment: its text, that it is missing, or any other failure. */
  datatype Reading = Content(text: string) | Missing | Failed

  datatype Cached<T> = Cached(value: T, lastRead: int, neverRead: bool)

  /** One call: the time, the window asked for, and the file as it stands. */
  datatype Call = Call(now: int, window: int, disk: Reading)

  predicate Due<T>(c: Cached<T>, now: int, window: int) {
    c.neverRead || now - c.lastRead >= window
  }

  function Got<T>(c: Cached<T>, parse: string -> T, absent: T, now: int, window: int, disk: Reading): Cached<T> {
    if !Due(c, now, window) then c
    else
      match disk
      case Content(text) => Cached(parse(text), now, false)
      case Missing => Cached(absent, now, false)
      case Failed => c.(lastRead := now)
  }

  class CachedFile<T> {
    const parse: string -> T
    const absent: T
    const ttl: int
    var value: T
    var lastRead: int
    var neverRead: bool

    ghost function State(): Cached<T>
      reads this
    {
      Cached(value, lastRead, neverRead)
    }

    constructor (ttl: int, parse: string -> T, absent: T)
      ensures this.ttl == ttl && this.parse == parse && this.absent == absent
      ensures State() == Cached(absent, 0, true)
    {
      this.ttl, this.parse, this.absent := ttl, parse, absent;
      value, lastRead, neverRead := absent, 0, true;
    }

    method Get(now: int, window: int, disk: Reading) returns (r: T)
      modifies this
      ensures State() == Got(old(State()), parse, absent, now, window, disk)
      ensures r == value
    {
      if !neverRead && now - lastRead < window {
        return value;
      }
      match disk {
        case Content(text) => value, neverRead := parse(text), false;
        case Missing => value, neverRead := absent, false;
        case Failed =>
      }
      lastRead := now;
      return value;
    }
  }

  // --- over a sequence of calls ----------------------------------------------

  function After<T>(parse: string -> T, absent: T, calls: seq<Call>): Cached<T> {
    if calls == [] then Cached(absent, 0, true)
    else
      var last := calls[|calls| - 1];
      Got(After(parse, absent, calls[..|calls| - 1]), parse, absent, last.now, last.window, last.disk)
  }

  /** The calls that went to the disk. */
  function Attempts<T>(parse: string -> T, absent: T, calls: seq<Call>): seq<Call> {
    if calls == [] then []
    else
      var front, last := calls[..|calls| - 1], calls[|calls| - 1];
      Attempts(parse, absent, front) + if Due(After(parse, absent, front), last.now, last.window) then [last] else []
  }

  /** The last reading that did not fail. */
  function LastGood(attempts: seq<Call>): Reading {
    if attempts == [] then Failed
    else if !attempts[|attempts| - 1].disk.Failed? then attempts[|attempts| - 1].disk
    else LastGood(attempts[..|attempts| - 1])
  }

  function Meaning<T>(r: Reading, parse: string -> T, absent: T): T {
    if r.Content? then parse(r.text) else absent
  }

  lemma {:induction false} LastGoodAppend(attempts: seq<Call>, c: Call)
    ensures LastGood(attempts + [c]) == if c.disk.Failed? then LastGood(attempts) else c.disk
  {
    assert (attempts + [c])[..|attempts|] == attempts;
  }

  /**
   * The value is always the parse of the last reading that did not fail, or the absent
   * value; a failed reading changes nothing.
   */
  lemma {:induction false} ValueIsLastGoodReading<T>(parse: string -> T, absent: T, calls: seq<Call>)
    ensures After(parse, absent, calls).value == Meaning(LastGood(Attempts(parse, absent, calls)), parse, absent)
    ensures After(parse, absent, calls).neverRead <==> LastGood(Attempts(parse, absent, calls)).Failed?
  {
    if calls != [] {
      var front, last := calls[..|calls| - 1], calls[|calls| - 1];
      ValueIsLastGoodReading(parse, absent, front);
      LastGoodAppend(Attempts(parse, absent, front), last);
      assert Attempts(parse, absent, front) + [] == Attempts(parse, absent, front);
    }
  }

  lemma {:induction false} LastReadIsLastAttempt<T>(parse: string -> T, absent: T, calls: seq<Call>)
    ensures var a := Attempts(parse, absent, calls); |a| > 0 ==> After(parse, absent, calls).lastRead == a[|a| - 1].now
    ensures Attempts(parse, absent, calls) == [] ==> calls == []
  {
    if calls != [] {
      LastReadIsLastAttempt(parse, absent, calls[..|calls| - 1]);
    }
  }

  /** Once a reading has succeeded, two attempts are at least the later one's window apart. */
  lemma {:induction false} AttemptsApart<T>(parse: string -> T, absent: T, calls: seq<Call>, k: nat)
    requires 0 < k < |Attempts(parse, absent, calls)| && !LastGood(Attempts(parse, absent, calls)[..k]).Failed?
    ensures var a := Attempts(parse, absent, calls); a[k].now - a[k - 1].now >= a[k].window
  {
    var front, last := calls[..|calls| - 1], calls[|calls| - 1];
    var a, b := Attempts(parse, absent, calls), Attempts(parse, absent, front);
    if k < |b| {
      assert a[..k] == b[..k];
      AttemptsApart(parse, absent, front, k);
    } else {
      assert a[..k] == b;
      LastReadIsLastAttempt(parse, absent, front);
      ValueIsLastGoodReading(parse, absent, front);
    }
  }

  /** What a call returns was read then, or less than its window before. */
  lemma ValueIsFresh<T>(parse: string -> T, absent: T, calls: seq<Call>)
    requires calls != []
    ensures var a := Attempts(parse, absent, calls); var last := calls[|calls| - 1];
      |a| > 0 && (a[|a| - 1] == last || (!LastGood(a).Failed? && last.now - a[|a| - 1].now < last.window))
  {
    var front := calls[..|calls| - 1];
    LastReadIsLastAttempt(parse, absent, calls);
    LastReadIsLastAttempt(parse, absent, front);
    ValueIsLastGoodReading(parse, absent, front);
    assert Attempts(parse, absent, front) + [] == Attempts(parse, absent, front);
  }

  /** Until then every call goes to the disk. */
  lemma {:induction false} ReadsUntilItSucceeds<T>(parse: string -> T, absent: T, calls: seq<Call>)
    requires forall i | 0 <= i < |calls| :: calls[i].disk.Failed?
    ensures Attempts(parse, absent, calls) == calls
  {
    if calls != [] {
      var front := calls[..|calls| - 1];
      ReadsUntilItSucceeds(parse, absent, front);
      NothingGood(front);
      ValueIsLastGoodReading(parse, absent, front);
    }
  }

  lemma {:induction false} NothingGood(calls: seq<Call>)
    requires forall i | 0 <= i < |calls| :: calls[i].disk.Failed?
    ensures LastGood(calls).Failed?
  {
    if calls != [] {
      NothingGood(calls[..|calls| - 1]);
    }
  }
}
