/** JSON.stringify of a list of strings, as section 25.5.2 of ECMA-262 writes it: no two lists are written alike. */
module JsonArrays {
  import opened Text

  function HexDigit(n: int): char
    requires 0 <= n < 16
  {
    if n < 10 then (n + 48) as char else (n + 87) as char
  }

  predicate IsEscaped(c: char) {
    c == '"' || c == '\\' || c < ' '
  }

  function Letter(c: char): char
    requires IsEscaped(c)
  {
    if c == '"' || c == '\\' then c
    else if c == '\U{08}' then 'b'
    else if c == '\t' then 't'
    else if c == '\n' then 'n'
    else if c == '\U{0C}' then 'f'
    else if c == '\r' then 'r'
    else 'u'
  }

  /** One character inside the quotes. */
  function Escape(c: char): string {
    if !IsEscaped(c) then [c]
    else if Letter(c) != 'u' then ['\\', Letter(c)]
    else ['\\', 'u', '0', '0', HexDigit(c as int / 16), HexDigit(c as int % 16)]
  }

  function Escapes(s: string): string {
    if s == "" then "" else Escape(s[0]) + Escapes(s[1..])
  }

  function Quoted(s: string): string {
    "\"" + (Escapes(s) + "\"")
  }

  function Rest(items: seq<string>): string {
    if items == [] then "]" else "," + (Quoted(items[0]) + Rest(items[1..]))
  }

  function Stringify(items: seq<string>): string {
    if items == [] then "[]" else "[" + (Quoted(items[0]) + Rest(items[1..]))
  }

  lemma HexDigitsDiffer(m: int, n: int)
    requires 0 <= m < 16 && 0 <= n < 16 && HexDigit(m) == HexDigit(n)
    ensures m == n
  {
  }

  /** The escapes are a prefix code, and none begins with a quote. */
  lemma EscapeIsPrefixCode(c: char, x: string, d: char, y: string)
    requires Escape(c) + x == Escape(d) + y
    ensures c == d && x == y
  {
    var e, f := Escape(c), Escape(d);
    var whole := e + x;
    assert whole[0] == e[0] == f[0];
    assert IsEscaped(c) <==> IsEscaped(d);
    if IsEscaped(c) {
      assert whole[1] == e[1] == f[1];
      assert Letter(c) == Letter(d);
      if Letter(c) == 'u' {
        assert whole[4] == e[4] == f[4] && whole[5] == e[5] == f[5];
        HexDigitsDiffer(c as int / 16, d as int / 16);
        HexDigitsDiffer(c as int % 16, d as int % 16);
      }
    }
    assert e == f;
    assert whole[|e|..] == x && (f + y)[|f|..] == y;
  }

  lemma EscapeIsNoQuote(c: char)
    ensures Escape(c) != "" && Escape(c)[0] != '"'
  {
  }

  lemma TextEnds(s: string, x: string)
    ensures (Escapes(s) + ("\"" + x))[0] == '"' <==> s == ""
  {
    if s != "" {
      EscapeIsNoQuote(s[0]);
    }
  }

  lemma EscapesHead(s: string, z: string)
    requires s != ""
    ensures Escapes(s) + z == Escape(s[0]) + (Escapes(s[1..]) + z)
  {
  }

  lemma EmptyEnds(x: string, y: string)
    requires Escapes("") + ("\"" + x) == Escapes("") + ("\"" + y)
    ensures x == y
  {
    assert Escapes("") + ("\"" + x) == "\"" + x && Escapes("") + ("\"" + y) == "\"" + y;
    assert ("\"" + x)[1..] == x && ("\"" + y)[1..] == y;
  }

  lemma {:induction false} QuotedEnds(s: string, x: string, t: string, y: string)
    requires Escapes(s) + ("\"" + x) == Escapes(t) + ("\"" + y)
    ensures s == t && x == y
  {
    TextEnds(s, x);
    TextEnds(t, y);
    if s == "" {
      EmptyEnds(x, y);
    } else {
      EscapesHead(s, "\"" + x);
      EscapesHead(t, "\"" + y);
      EscapeIsPrefixCode(s[0], Escapes(s[1..]) + ("\"" + x), t[0], Escapes(t[1..]) + ("\"" + y));
      QuotedEnds(s[1..], x, t[1..], y);
      assert s == [s[0]] + s[1..] && t == [t[0]] + t[1..];
    }
  }

  lemma QuotedApart(s: string, x: string, t: string, y: string)
    requires Quoted(s) + x == Quoted(t) + y
    ensures s == t && x == y
  {
    assert Quoted(s) + x == "\"" + (Escapes(s) + ("\"" + x));
    assert Quoted(t) + y == "\"" + (Escapes(t) + ("\"" + y));
    assert ("\"" + (Escapes(s) + ("\"" + x)))[1..] == Escapes(s) + ("\"" + x);
    assert ("\"" + (Escapes(t) + ("\"" + y)))[1..] == Escapes(t) + ("\"" + y);
    QuotedEnds(s, x, t, y);
  }

  lemma {:induction false} RestIsInjective(a: seq<string>, b: seq<string>)
    requires Rest(a) == Rest(b)
    ensures a == b
  {
    if a != [] && b != [] {
      assert Rest(a)[1..] == Quoted(a[0]) + Rest(a[1..]);
      assert Rest(b)[1..] == Quoted(b[0]) + Rest(b[1..]);
      QuotedApart(a[0], Rest(a[1..]), b[0], Rest(b[1..]));
      RestIsInjective(a[1..], b[1..]);
      assert a == [a[0]] + a[1..] && b == [b[0]] + b[1..];
    } else {
      assert Rest(a)[0] == (if a == [] then ']' else ',') && Rest(b)[0] == (if b == [] then ']' else ',');
    }
  }

  /** No two lists are written alike. */
  lemma StringifyIsInjective(a: seq<string>, b: seq<string>)
    requires Stringify(a) == Stringify(b)
    ensures a == b
  {
    if a != [] && b != [] {
      assert Stringify(a)[1..] == Quoted(a[0]) + Rest(a[1..]);
      assert Stringify(b)[1..] == Quoted(b[0]) + Rest(b[1..]);
      QuotedApart(a[0], Rest(a[1..]), b[0], Rest(b[1..]));
      RestIsInjective(a[1..], b[1..]);
      assert a == [a[0]] + a[1..] && b == [b[0]] + b[1..];
    } else {
      assert Stringify(a)[1] == (if a == [] then ']' else '"') && Stringify(b)[1] == (if b == [] then ']' else '"');
    }
  }

  lemma {:induction false} EscapesStayOnTheLine(s: string)
    ensures '\n' !in Escapes(s)
  {
    if s != "" {
      EscapesStayOnTheLine(s[1..]);
    }
  }

  lemma StaysOnTheLine(first: string, a: string, b: string)
    requires '\n' !in first && '\n' !in a && '\n' !in b && EndsWith(b, "]")
    ensures var r := first + (("\"" + (a + "\"")) + b); EndsWith(r, "]") && '\n' !in r
  {
    var r := first + (("\"" + (a + "\"")) + b);
    EndsOf(b, ']');
    EndsOf(r, ']');
  }

  lemma QuoteNext(first: string, a: string, b: string)
    ensures StartsWith(first + (("\"" + (a + "\"")) + b), first + "\"")
  {
    assert first + (("\"" + (a + "\"")) + b) == (first + "\"") + (a + "\"" + b);
  }

  lemma {:induction false} RestIsOneLine(items: seq<string>)
    ensures '\n' !in Rest(items) && EndsWith(Rest(items), "]")
  {
    if items != [] {
      EscapesStayOnTheLine(items[0]);
      RestIsOneLine(items[1..]);
      StaysOnTheLine(",", Escapes(items[0]), Rest(items[1..]));
    }
  }

  /** A list that is not empty is one line, which begins with a bracket and a quote and ends with a bracket. */
  lemma StringifyIsOneLine(items: seq<string>)
    requires items != []
    ensures StartsWith(Stringify(items), "[\"") && EndsWith(Stringify(items), "]") && '\n' !in Stringify(items)
  {
    EscapesStayOnTheLine(items[0]);
    RestIsOneLine(items[1..]);
    StaysOnTheLine("[", Escapes(items[0]), Rest(items[1..]));
    QuoteNext("[", Escapes(items[0]), Rest(items[1..]));
  }

  lemma {:induction false} NothingToEscape(s: string)
    requires forall i | 0 <= i < |s| :: !IsEscaped(s[i])
    ensures Escapes(s) == s
  {
    if s != "" {
      NothingToEscape(s[1..]);
      assert s == [s[0]] + s[1..];
    }
  }
}
