/** Preview codes: six characters of an alphabet of 32, drawn from six random bytes without bias. */
module Codes {
  import Digits
  import opened Options

  const ALPHABET: string := "ABCDEFGHJKLMNPQRSTUVWXYZ23456789"
  const CODE_LENGTH: nat := 6

  predicate IsByte(b: int) {
    0 <= b < 256
  }

  predicate IsCodeChar(c: char) {
    'A' <= c <= 'H' || 'J' <= c <= 'N' || 'P' <= c <= 'Z' || '2' <= c <= '9'
  }

  /** The place of a character in the alphabet. */
  function IndexOf(c: char): (i: nat)
    requires IsCodeChar(c)
    ensures i < 32
  {
    if c <= '9' then (c as int) - ('2' as int) + 24
    else if c <= 'H' then (c as int) - ('A' as int)
    else if c <= 'N' then (c as int) - ('J' as int) + 8
    else (c as int) - ('P' as int) + 13
  }

  lemma AlphabetIs32()
    ensures |ALPHABET| == 32 && 256 % |ALPHABET| == 0
    ensures forall i | 0 <= i < 32 :: IsCodeChar(ALPHABET[i]) && IndexOf(ALPHABET[i]) == i
    ensures forall c | IsCodeChar(c) :: ALPHABET[IndexOf(c)] == c
  {
  }

  /** Exactly six characters of the alphabet; none stands for what is no text. */
  predicate IsValidCode(code: Option<string>) {
    code.Some? && |code.value| == CODE_LENGTH && forall i | 0 <= i < CODE_LENGTH :: code.value[i] in ALPHABET
  }

  lemma ValidCodeChars(code: Option<string>)
    requires code.Some?
    ensures IsValidCode(code) <==>
      |code.value| == CODE_LENGTH && forall i | 0 <= i < |code.value| :: IsCodeChar(code.value[i])
  {
    AlphabetIs32();
    assert forall c :: c in ALPHABET <==> IsCodeChar(c) by {
      forall c | IsCodeChar(c)
        ensures c in ALPHABET
      {
        assert ALPHABET[IndexOf(c)] == c;
      }
    }
  }

  datatype Error = Biased | SourceTooShort(bytes: nat)

  ghost predicate Yields(draw: seq<int>, code: string) {
    && |draw| == |code|
    && forall i | 0 <= i < |draw| :: IsByte(draw[i]) && IsCodeChar(code[i]) && draw[i] % 32 == IndexOf(code[i])
  }

  /** A draw of six bytes or more gives a valid code, each character from its own byte; a shorter one is refused. */
  method GenerateCode(bytes: seq<int>) returns (r: Result<string, Error>)
    requires forall i | 0 <= i < |bytes| :: IsByte(bytes[i])
    ensures r.Ok? <==> |bytes| >= CODE_LENGTH
    ensures r.Ok? ==> IsValidCode(Some(r.value)) && Yields(bytes[..CODE_LENGTH], r.value)
  {
    AlphabetIs32();
    if 256 % |ALPHABET| != 0 {
      return Err(Biased);
    }
    if |bytes| < CODE_LENGTH {
      return Err(SourceTooShort(|bytes|));
    }
    var code := "";
    for i := 0 to CODE_LENGTH
      invariant Yields(bytes[..i], code)
    {
      code := code + [ALPHABET[bytes[i] % |ALPHABET|]];
    }
    ValidCodeChars(Some(code));
    return Ok(code);
  }

  // --- counting draws --------------------------------------------------------

  predicate Below(b: int, n: nat) {
    0 <= b < n
  }

  function Range(n: nat): set<int> {
    set b: int | 0 <= b < n && Below(b, n)
  }

  lemma {:induction false} RangeSize(n: nat)
    ensures |Range(n)| == n
  {
    if n == 0 {
      assert Range(n) == {};
    } else {
      RangeSize(n - 1);
      assert Range(n) == Range(n - 1) + {n - 1};
    }
  }

  lemma Member<T>(s: set<T>) returns (x: T)
    requires |s| > 0
    ensures x in s
  {
    x :| x in s;
  }

  function Extend<T(==)>(draws: set<seq<T>>, bytes: set<T>): set<seq<T>> {
    set d, b | d in draws && b in bytes :: d + [b]
  }

  lemma InExtend<T>(draws: set<seq<T>>, bytes: set<T>, x: seq<T>)
    ensures x in Extend(draws, bytes) <==> x != [] && x[..|x| - 1] in draws && x[|x| - 1] in bytes
  {
    if x in Extend(draws, bytes) {
      var d, b :| d in draws && b in bytes && x == d + [b];
      assert x[..|x| - 1] == d;
    }
    if x != [] && x[..|x| - 1] in draws && x[|x| - 1] in bytes {
      var d, b := x[..|x| - 1], x[|x| - 1];
      assert d + [b] in Extend(draws, bytes);
      assert x == d + [b];
    }
  }

  lemma OneImage<T>(d: seq<T>, b: T)
    ensures |Extend({d}, {b})| == 1
  {
    assert Extend({d}, {b}) == {d + [b]};
  }

  lemma SplitDraws<T>(draws: set<seq<T>>, d: seq<T>, bytes: set<T>)
    requires d !in draws
    ensures Extend(draws + {d}, bytes) == Extend(draws, bytes) + Extend({d}, bytes)
    ensures Extend(draws, bytes) !! Extend({d}, bytes)
  {
    forall x
      ensures x in Extend(draws + {d}, bytes) <==> x in Extend(draws, bytes) + Extend({d}, bytes)
      ensures !(x in Extend(draws, bytes) && x in Extend({d}, bytes))
    {
      InExtend(draws + {d}, bytes, x);
      InExtend(draws, bytes, x);
      InExtend({d}, bytes, x);
    }
  }

  lemma {:induction false} ImageSize<T>(draws: set<seq<T>>, b: T)
    ensures |Extend(draws, {b})| == |draws|
    decreases |draws|
  {
    if |draws| == 0 {
      assert Extend(draws, {b}) == {};
    } else {
      var d := Member(draws);
      var rest := draws - {d};
      ImageSize(rest, b);
      SplitDraws(rest, d, {b});
      OneImage(d, b);
      assert draws == rest + {d};
    }
  }

  lemma SplitBytes<T>(draws: set<seq<T>>, bytes: set<T>, b: T)
    requires b !in bytes
    ensures Extend(draws, bytes + {b}) == Extend(draws, bytes) + Extend(draws, {b})
    ensures Extend(draws, bytes) !! Extend(draws, {b})
  {
    forall x
      ensures x in Extend(draws, bytes + {b}) <==> x in Extend(draws, bytes) + Extend(draws, {b})
      ensures !(x in Extend(draws, bytes) && x in Extend(draws, {b}))
    {
      InExtend(draws, bytes + {b}, x);
      InExtend(draws, bytes, x);
      InExtend(draws, {b}, x);
    }
  }

  lemma OneByteMore<T>(draws: set<seq<T>>, rest: set<T>, b: T)
    requires b !in rest
    ensures |Extend(draws, rest + {b})| == |Extend(draws, rest)| + |draws|
  {
    ImageSize(draws, b);
    SplitBytes(draws, rest, b);
  }

  lemma {:induction false} ProductSize<T>(draws: set<seq<T>>, bytes: set<T>)
    ensures |Extend(draws, bytes)| == |draws| * |bytes|
    decreases |bytes|
  {
    if |bytes| == 0 {
      assert Extend(draws, bytes) == {};
    } else {
      var b := Member(bytes);
      var rest := bytes - {b};
      ProductSize(draws, rest);
      OneByteMore(draws, rest, b);
      assert bytes == rest + {b};
      OneMore(|draws|, |rest|);
    }
  }

  lemma OneMore(m: int, n: int)
    ensures m * (n + 1) == m * n + m
  {
  }

  /** The bytes that give a character. */
  function BytesFor(c: char): (s: set<int>)
    requires IsCodeChar(c)
    ensures forall b :: b in s <==> IsByte(b) && b % 32 == IndexOf(c)
  {
    var k := IndexOf(c);
    {k, k + 32, k + 64, k + 96, k + 128, k + 160, k + 192, k + 224}
  }

  lemma TwoMore(s: set<int>, x: int, y: int)
    requires x !in s && y !in s && x != y
    ensures |s + {x, y}| == |s| + 2
  {
    assert s + {x, y} == s + {x} + {y};
  }

  lemma EightBytes(k: int)
    ensures |{k, k + 32, k + 64, k + 96, k + 128, k + 160, k + 192, k + 224}| == 8
  {
    var two := {k, k + 32};
    var four := two + {k + 64, k + 96};
    var six := four + {k + 128, k + 160};
    TwoMore({}, k, k + 32);
    assert {} + {k, k + 32} == two;
    TwoMore(two, k + 64, k + 96);
    TwoMore(four, k + 128, k + 160);
    TwoMore(six, k + 192, k + 224);
    assert six + {k + 192, k + 224} == {k, k + 32, k + 64, k + 96, k + 128, k + 160, k + 192, k + 224};
  }

  lemma EightBytesFor(c: char)
    requires IsCodeChar(c)
    ensures |BytesFor(c)| == 8
  {
    EightBytes(IndexOf(c));
  }

  /** The draws that give a code. */
  function DrawsFor(code: string): set<seq<int>>
    requires forall i | 0 <= i < |code| :: IsCodeChar(code[i])
  {
    if code == "" then {[]} else Extend(DrawsFor(code[..|code| - 1]), BytesFor(code[|code| - 1]))
  }

  function AllDraws(n: nat): set<seq<int>> {
    if n == 0 then {[]} else Extend(AllDraws(n - 1), Range(256))
  }

  lemma {:induction false} DrawsForAreThoseThatYield(code: string, draw: seq<int>)
    requires forall i | 0 <= i < |code| :: IsCodeChar(code[i])
    ensures draw in DrawsFor(code) <==> Yields(draw, code)
  {
    if code != "" {
      var n := |code| - 1;
      InExtend(DrawsFor(code[..n]), BytesFor(code[n]), draw);
      if draw != [] {
        DrawsForAreThoseThatYield(code[..n], draw[..|draw| - 1]);
        YieldsLast(draw, code);
      }
    }
  }

  lemma YieldsLast(draw: seq<int>, code: string)
    requires draw != [] && code != "" && forall i | 0 <= i < |code| :: IsCodeChar(code[i])
    ensures var m, n := |draw| - 1, |code| - 1;
      Yields(draw, code) <==> Yields(draw[..m], code[..n]) && IsByte(draw[m]) && draw[m] % 32 == IndexOf(code[n])
  {
    if Yields(draw[..|draw| - 1], code[..|code| - 1]) {
      forall i | 0 <= i < |draw| - 1
        ensures IsByte(draw[i]) && draw[i] % 32 == IndexOf(code[i])
      {
        assert draw[..|draw| - 1][i] == draw[i] && code[..|code| - 1][i] == code[i];
      }
    }
  }

  lemma {:induction false} AllDrawsAreTheByteTexts(n: nat, draw: seq<int>)
    ensures draw in AllDraws(n) <==> |draw| == n && forall i | 0 <= i < n :: IsByte(draw[i])
  {
    if n > 0 {
      InExtend(AllDraws(n - 1), Range(256), draw);
      if draw != [] {
        AllDrawsAreTheByteTexts(n - 1, draw[..|draw| - 1]);
      }
    }
  }

  lemma ProductOfSizes(draws: set<seq<int>>, bytes: set<int>, m: nat, n: nat)
    requires |draws| == m && |bytes| == n
    ensures |Extend(draws, bytes)| == n * m
  {
    ProductSize(draws, bytes);
  }

  lemma OneCharMore(draws: set<seq<int>>, c: char, m: nat)
    requires IsCodeChar(c) && |draws| == m
    ensures |Extend(draws, BytesFor(c))| == 8 * m
  {
    EightBytesFor(c);
    ProductOfSizes(draws, BytesFor(c), m, 8);
  }

  lemma {:induction false} CountDrawsFor(code: string)
    requires forall i | 0 <= i < |code| :: IsCodeChar(code[i])
    ensures |DrawsFor(code)| == Digits.Pow(8, |code|)
  {
    if code != "" {
      var n := |code| - 1;
      CountDrawsFor(code[..n]);
      OneCharMore(DrawsFor(code[..n]), code[n], Digits.Pow(8, n));
    }
  }

  lemma {:induction false} CountAllDraws(n: nat)
    ensures |AllDraws(n)| == Digits.Pow(256, n)
  {
    if n > 0 {
      CountAllDraws(n - 1);
      RangeSize(256);
      ProductOfSizes(AllDraws(n - 1), Range(256), Digits.Pow(256, n - 1), 256);
    }
  }

  /** Of the 256^6 draws of six bytes, exactly 8^6 give any one code: all are as likely. */
  lemma EveryCodeIsAsLikely(code: string)
    requires IsValidCode(Some(code))
    ensures forall draw :: draw in DrawsFor(code) <==> Yields(draw, code)
    ensures |DrawsFor(code)| == 262144 && |AllDraws(CODE_LENGTH)| == 281474976710656
    ensures forall draw :: draw in AllDraws(CODE_LENGTH) <==>
      |draw| == CODE_LENGTH && forall i | 0 <= i < CODE_LENGTH :: IsByte(draw[i])
  {
    ValidCodeChars(Some(code));
    forall draw
      ensures draw in DrawsFor(code) <==> Yields(draw, code)
    {
      DrawsForAreThoseThatYield(code, draw);
    }
    forall draw
      ensures draw in AllDraws(CODE_LENGTH) <==>
        |draw| == CODE_LENGTH && forall i | 0 <= i < CODE_LENGTH :: IsByte(draw[i])
    {
      AllDrawsAreTheByteTexts(CODE_LENGTH, draw);
    }
    CountDrawsFor(code);
    CountAllDraws(CODE_LENGTH);
    PowersOfSix();
  }

  lemma PowersOfSix()
    ensures Digits.Pow(8, 6) == 262144 && Digits.Pow(256, 6) == 281474976710656
  {
    assert Digits.Pow(8, 3) == 512 && Digits.Pow(256, 3) == 16777216;
  }
}
