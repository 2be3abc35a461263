/** Pax extended header records, `<length> <key>=<value>\n`, the length counting itself. */
module Pax {
  import opened Options
  import opened Text
  import opened Digits
  import opened Utf8

  function Body(key: string, value: string): string {
    " " + (key + ("=" + (value + "\n")))
  }

  /** What a record of `body` bytes after its length must satisfy. */
  predicate CountsItself(length: nat, body: nat) {
    |Print(length, 10)| + body == length
  }

  predicate IsLeast(length: nat, body: nat) {
    CountsItself(length, body) && forall other: nat | CountsItself(other, body) :: length <= other
  }

  lemma {:induction false} FewDigits(n: nat)
    ensures |Print(n, 10)| <= n / 2 + 1
  {
    if n >= 10 {
      FewDigits(n / 10);
    }
  }

  /** What the search for a length keeps true: it has not passed any length that counts itself. */
  ghost predicate Searching(length: nat, body: nat) {
    && length <= |Print(length, 10)| + body
    && length <= 2 * body + 20
    && forall other: nat | CountsItself(other, body) :: length <= other
  }

  lemma NextStillSearching(length: nat, body: nat)
    requires Searching(length, body)
    ensures Searching(|Print(length, 10)| + body, body)
  {
    var next := |Print(length, 10)| + body;
    PrintMonotone(length, next, 10);
    PrintMonotone(length, 2 * body + 20, 10);
    FewDigits(2 * body + 20);
    forall other: nat | CountsItself(other, body)
      ensures next <= other
    {
      PrintMonotone(length, other, 10);
    }
  }

  /** The loop of paxRecord: it ends, for every body, on the least length that counts itself. */
  method RecordLength(body: nat) returns (length: nat)
    ensures IsLeast(length, body)
  {
    length := body + 1;
    while |Print(length, 10)| + body != length
      invariant Searching(length, body)
      decreases 2 * body + 20 - length
    {
      NextStillSearching(length, body);
      length := |Print(length, 10)| + body;
    }
  }

  ghost function LeastFrom(from: nat, body: nat): (length: nat)
    requires Searching(from, body)
    ensures IsLeast(length, body)
    decreases 2 * body + 20 - from
  {
    NextStillSearching(from, body);
    var next := |Print(from, 10)| + body;
    if next == from then from else LeastFrom(next, body)
  }

  /** Every body has a least length. */
  ghost function LeastLength(body: nat): (length: nat)
    ensures IsLeast(length, body)
  {
    LeastFrom(body + 1, body)
  }

  /** The least length is not the only one that counts itself: a body of 97 bytes has two. */
  lemma TwoLengthsCountThemselves()
    ensures IsLeast(99, 97) && CountsItself(100, 97)
  {
    assert Print(99, 10) == Print(9, 10) + [DigitChar(9)];
    assert Print(100, 10) == Print(10, 10) + [DigitChar(0)] && Print(10, 10) == Print(1, 10) + [DigitChar(0)];
    assert Print(98, 10) == Print(9, 10) + [DigitChar(8)];
    forall other: nat | CountsItself(other, 97)
      ensures 99 <= other
    {
    }
  }

  ghost function Record(key: string, value: string): string {
    Print(LeastLength(|Encode(Body(key, value))|), 10) + Body(key, value)
  }

  method PaxRecord(key: string, value: string) returns (record: string)
    ensures record == Record(key, value)
  {
    var body := Body(key, value);
    var length := RecordLength(|Encode(body)|);
    assert length == LeastLength(|Encode(body)|);
    record := Print(length, 10) + body;
  }

  // --- the reader ------------------------------------------------------------

  function IndexOf(b: seq<byte>, x: byte): (i: nat)
    ensures i <= |b|
    ensures x !in b[..i]
    ensures i < |b| ==> b[i] == x
  {
    if b == [] || b[0] == x then 0 else IndexOf(b[1..], x) + 1
  }

  lemma {:induction false} IndexOfFirst(a: seq<byte>, x: byte, rest: seq<byte>)
    requires x !in a
    ensures IndexOf(a + [x] + rest, x) == |a|
  {
    var all := a + [x] + rest;
    if a != [] {
      assert all[1..] == a[1..] + [x] + rest;
      assert all[0] == a[0] != x;
      IndexOfFirst(a[1..], x, rest);
    } else {
      assert all[0] == x;
    }
  }

  /** Bytes as text, one character each: what an ASCII field says. */
  function AsText(b: seq<byte>): (s: string)
    ensures |s| == |b| && forall i | 0 <= i < |b| :: s[i] == b[i] as char
  {
    seq(|b|, i requires 0 <= i < |b| => b[i] as char)
  }

  lemma AsTextOfEncode(s: string)
    requires Ascii(s)
    ensures AsText(Encode(s)) == s
  {
    EncodeAscii(s);
  }

  const SPACE: byte := 32
  const EQUALS: byte := 61
  const NEWLINE: byte := 10

  /** The first record: its key, its value, and how many bytes it takes. */
  function ReadRecord(data: seq<byte>): (r: Option<(seq<byte>, seq<byte>, nat)>)
    ensures r.Some? ==> 1 <= r.value.2 <= |data|
  {
    var space := IndexOf(data, SPACE);
    var digits := AsText(data[..space]);
    if space == |data| || digits == "" || !AllDigits(digits) then None
    else
      var length := Value(digits, 10);
      if !(space + 1 < length <= |data|) || data[length - 1] != NEWLINE then None
      else
        var pair := data[space + 1..length - 1];
        var equals := IndexOf(pair, EQUALS);
        if equals == |pair| then None else Some((pair[..equals], pair[equals + 1..], length))
  }

  /** The value the records give to `key`, the last one winning; nothing at all when they do not read. */
  function ReadRecords(data: seq<byte>, key: seq<byte>): Option<Option<seq<byte>>> {
    if data == [] then Some(None)
    else match ReadRecord(data)
      case None => None
      case Some((k, v, n)) =>
        match ReadRecords(data[n..], key)
        case None => None
        case Some(later) => Some(if later.Some? then later else if k == key then Some(v) else None)
  }

  function BodyBytes(key: string, value: string): seq<byte> {
    [SPACE] + (Encode(key) + ([EQUALS] + (Encode(value) + [NEWLINE])))
  }

  lemma EncodeBody(key: string, value: string)
    ensures Encode(Body(key, value)) == BodyBytes(key, value)
  {
    assert Encode(" ") == [SPACE] && Encode("=") == [EQUALS] && Encode("\n") == [NEWLINE];
    EncodeAppend(value, "\n");
    EncodeAppend("=", value + "\n");
    EncodeAppend(key, "=" + (value + "\n"));
    EncodeAppend(" ", key + ("=" + (value + "\n")));
  }

  /** The record's own length is the number it begins with. */
  lemma RecordLengthIsItsPrefix(key: string, value: string)
    ensures var length := LeastLength(|Encode(Body(key, value))|);
      && Encode(Record(key, value)) == Encode(Print(length, 10)) + BodyBytes(key, value)
      && |Encode(Record(key, value))| == length
  {
    var digits := Print(LeastLength(|Encode(Body(key, value))|), 10);
    EncodeBody(key, value);
    EncodeAppend(digits, Body(key, value));
    EncodeAscii(digits);
  }

  lemma PairReadsBack(key: seq<byte>, value: seq<byte>)
    requires EQUALS !in key
    ensures var pair := key + [EQUALS] + value;
      IndexOf(pair, EQUALS) == |key| && pair[..|key|] == key && pair[|key| + 1..] == value
  {
    IndexOfFirst(key, EQUALS, value);
  }

  /** Where the parts of a record's bytes stand. */
  lemma Delimited(digits: seq<byte>, pair: seq<byte>, rest: seq<byte>)
    requires SPACE !in digits
    ensures var data := digits + [SPACE] + (pair + [NEWLINE] + rest);
      && IndexOf(data, SPACE) == |digits|
      && data[..|digits|] == digits
      && |digits| + 1 + |pair| < |data| && data[|digits| + 1 + |pair|] == NEWLINE
      && data[|digits| + 1..|digits| + 1 + |pair|] == pair
  {
    IndexOfFirst(digits, SPACE, pair + [NEWLINE] + rest);
  }

  lemma DigitsReadBack(length: nat)
    ensures var d := Encode(Print(length, 10)); SPACE !in d && AsText(d) == Print(length, 10)
    ensures Value(Print(length, 10), 10) == length
  {
    EncodeAscii(Print(length, 10));
    AsTextOfEncode(Print(length, 10));
    ValueOfPrint(length, 10);
  }

  lemma ReadsDelimited(digits: seq<byte>, key: seq<byte>, value: seq<byte>, rest: seq<byte>)
    requires SPACE !in digits && EQUALS !in key && digits != [] && AllDigits(AsText(digits))
    requires Value(AsText(digits), 10) == |digits| + |key| + |value| + 3
    ensures ReadRecord(digits + [SPACE] + ((key + [EQUALS] + value) + [NEWLINE] + rest)) ==
      Some((key, value, |digits| + |key| + |value| + 3))
  {
    Delimited(digits, key + [EQUALS] + value, rest);
    PairReadsBack(key, value);
  }

  lemma Regroup(digits: seq<byte>, k: seq<byte>, v: seq<byte>, rest: seq<byte>)
    ensures digits + ([SPACE] + (k + ([EQUALS] + (v + [NEWLINE])))) + rest ==
      digits + [SPACE] + ((k + [EQUALS] + v) + [NEWLINE] + rest)
  {
  }

  lemma RecordSize(digits: seq<byte>, k: seq<byte>, v: seq<byte>)
    ensures |digits + ([SPACE] + (k + ([EQUALS] + (v + [NEWLINE]))))| == |digits| + |k| + |v| + 3
  {
  }

  lemma ReadsRecordBytes(record: seq<byte>, digits: seq<byte>, key: seq<byte>, value: seq<byte>, rest: seq<byte>)
    requires record == digits + ([SPACE] + (key + ([EQUALS] + (value + [NEWLINE]))))
    requires SPACE !in digits && EQUALS !in key && digits != [] && AllDigits(AsText(digits))
    requires Value(AsText(digits), 10) == |record|
    ensures ReadRecord(record + rest) == Some((key, value, |record|))
  {
    RecordSize(digits, key, value);
    ReadsDelimited(digits, key, value, rest);
    Regroup(digits, key, value, rest);
  }

  /**
   * The length a record begins with delimits it exactly: whatever follows, the
   * reader gets the key and the value back, any character in the value
   * included, and stops at the record's last byte.
   */
  lemma RecordReadsBack(key: string, value: string, rest: seq<byte>)
    requires EQUALS !in Encode(key)
    ensures ReadRecord(Encode(Record(key, value)) + rest) ==
      Some((Encode(key), Encode(value), |Encode(Record(key, value))|))
  {
    var length := LeastLength(|Encode(Body(key, value))|);
    var digits := Encode(Print(length, 10));
    var k, v := Encode(key), Encode(value);
    RecordLengthIsItsPrefix(key, value);
    DigitsReadBack(length);
    ReadsRecordBytes(Encode(Record(key, value)), digits, k, v, rest);
  }
}
