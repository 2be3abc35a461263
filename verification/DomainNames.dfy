/** The names the domain table handles: what a manifest may declare, what a handshake may ask for. */
module DomainNames {
  import opened Options
  import opened Text
  import opened ZoneNames

  predicate IsDomainChar(c: char) {
    IsLabelChar(c) || c == '.'
  }

  predicate BoundedByAlnum(part: string) {
    part != "" && IsLowerAlnum(part[0]) && IsLowerAlnum(part[|part| - 1])
  }

  /** Two labels or more, each beginning and ending with a letter or a digit. */
  predicate IsValidDomain(d: string) {
    && 0 < |d| <= 253
    && (forall i | 0 <= i < |d| :: IsDomainChar(d[i]))
    && |Split(d, '.')| >= 2
    && forall i | 0 <= i < |Split(d, '.')| :: BoundedByAlnum(Split(d, '.')[i])
  }

  function DomainForms(d: string): seq<string> {
    if |Split(d, '.')| == 2 then [d, "www." + d] else [d]
  }

  function DropDot(s: string): string {
    if s != "" && s[|s| - 1] == '.' then s[..|s| - 1] else s
  }

  /** The text before the digits it ends with. */
  function BeforeDigits(s: string): (r: string)
    ensures r <= s
  {
    if s != "" && IsDigit(s[|s| - 1]) then BeforeDigits(s[..|s| - 1]) else s
  }

  function DropPort(s: string): string {
    var head := BeforeDigits(s);
    if |head| < |s| && head != "" && head[|head| - 1] == ':' then head[..|head| - 1] else s
  }

  predicate IsNumeric(h: string) {
    forall i | 0 <= i < |Split(h, '.')| :: Split(h, '.')[i] != "" && AllDigits(Split(h, '.')[i])
  }

  /** What Caddy passes along, as one spelling; none for what is no domain name. */
  function NormalizeHost(raw: Option<string>): Option<string> {
    if raw.None? || raw.value == "" then None
    else
      var host := DropDot(DropPort(Lower(Trim(raw.value))));
      if host == "" || |host| > 253 then None
      else if exists i | 0 <= i < |host| :: !IsDomainChar(host[i]) then None
      else if '.' !in host then None
      else if IsNumeric(host) then None
      else Some(host)
  }

  /** What every form a manifest declares looks like. */
  predicate IsForm(f: string) {
    f != "" && (forall i | 0 <= i < |f| :: IsDomainChar(f[i])) && '.' in f && f[|f| - 1] != '.'
  }

  lemma EndsInSeparator(s: string, c: char)
    requires s != "" && s[|s| - 1] == c
    ensures Split(s, c)[|Split(s, c)| - 1] == ""
  {
    SplitAppend(s[..|s| - 1], "", c);
    assert s[..|s| - 1] + [c] + "" == s;
  }

  lemma FormsOfValid(d: string)
    requires IsValidDomain(d)
    ensures forall f | f in DomainForms(d) :: IsForm(f)
  {
    if d[|d| - 1] == '.' {
      EndsInSeparator(d, '.');
    }
    if '.' !in d {
      SplitPiece(d, '.');
    }
    var w := "www." + d;
    assert w[3] == '.' && w[|w| - 1] == d[|d| - 1];
    assert forall i | 0 <= i < |w| :: IsDomainChar(w[i]);
  }

  lemma {:induction false} LowerIsItself(s: string)
    requires forall i | 0 <= i < |s| :: IsDomainChar(s[i])
    ensures Lower(s) == s
  {
    assert forall i | 0 <= i < |s| :: Lower(s)[i] == s[i];
  }

  lemma NoPort(s: string)
    requires ':' !in s
    ensures DropPort(s) == s
  {
    var head := BeforeDigits(s);
    assert head != "" ==> head[|head| - 1] in s;
  }

  /** A declared form is asked for as it is written exactly when it is short enough and not all numbers. */
  lemma FormNormalizes(f: string)
    requires IsForm(f)
    ensures NormalizeHost(Some(f)) == if |f| <= 253 && !IsNumeric(f) then Some(f) else None
  {
    TrimOfTrimmed(f);
    LowerIsItself(f);
    NoPort(f);
  }

  lemma TwoParts(x: string, y: string)
    requires '.' !in x && '.' !in y
    ensures Split(x + "." + y, '.') == [x, y]
  {
    SplitPiece(x, '.');
    SplitPiece(y, '.');
    SplitAppend(x, y, '.');
  }

  /** Whatever is passed along, what comes out is a lower-case domain name with a dot, and not a numeric address. */
  lemma NormalizedIsPlain(raw: Option<string>)
    requires NormalizeHost(raw).Some?
    ensures var h := NormalizeHost(raw).value;
      0 < |h| <= 253 && (forall i | 0 <= i < |h| :: IsDomainChar(h[i])) && '.' in h && !IsNumeric(h) && Lower(h) == h
  {
    LowerIsItself(NormalizeHost(raw).value);
  }

  /** A domain all in numbers that a manifest declares: whatever is passed along, no question ever asks for it. */
  lemma NumbersAreNeverAsked(d: string)
    requires IsValidDomain(d) && IsNumeric(d)
    ensures d in DomainForms(d) && forall raw :: NormalizeHost(raw) != Some(d)
  {
    forall raw
      ensures NormalizeHost(raw) != Some(d)
    {
      if NormalizeHost(raw).Some? {
        NormalizedIsPlain(raw);
      }
    }
  }

  /** And a manifest may declare one. */
  lemma NumbersMayBeDeclared(x: string, y: string)
    requires x == "1" && y == "2"
    ensures IsValidDomain(x + "." + y) && IsNumeric(x + "." + y)
  {
    TwoParts(x, y);
  }

  /** The www form of a declared domain of 250 characters or more is asked for by nobody either. */
  lemma LongFormsAreNeverAsked(d: string)
    requires IsValidDomain(d) && |Split(d, '.')| == 2 && |d| >= 250
    ensures "www." + d in DomainForms(d) && forall raw :: NormalizeHost(raw) != Some("www." + d)
  {
    forall raw
      ensures NormalizeHost(raw) != Some("www." + d)
    {
      if NormalizeHost(raw).Some? {
        NormalizedIsPlain(raw);
      }
    }
  }

  /** And a manifest may declare such a one. */
  lemma LongDomainsMayBeDeclared()
    ensures exists d :: IsValidDomain(d) && |Split(d, '.')| == 2 && |d| >= 250
  {
    var x, y := seq(248, i => 'a'), "b";
    TwoParts(x, y);
    var d := x + "." + y;
    assert forall i | 0 <= i < |d| :: IsDomainChar(d[i]);
    assert BoundedByAlnum(x) && BoundedByAlnum(y);
    assert IsValidDomain(d);
  }

  lemma {:induction false} DigitsDropped(head: string, digits: string)
    requires head != "" && !IsDigit(head[|head| - 1]) && AllDigits(digits)
    ensures BeforeDigits(head + digits) == head
  {
    if digits == "" {
      assert head + digits == head;
    } else {
      var s := head + digits;
      assert s[|s| - 1] == digits[|digits| - 1] && s[..|s| - 1] == head + digits[..|digits| - 1];
      DigitsDropped(head, digits[..|digits| - 1]);
    }
  }

  lemma PortDropped(host: string, port: string)
    requires AllDigits(port) && port != ""
    ensures DropPort(host + (":" + port)) == host
  {
    var head := host + ":";
    assert host + (":" + port) == head + port;
    DigitsDropped(head, port);
    assert head[..|head| - 1] == host;
  }

  /**
   * A name asked for with white space around it, capitals, a final dot or a
   * port, in that order, is the name without them.
   */
  lemma AskedAnyWay(raw: string, f: string, dot: string, port: string)
    requires IsForm(f) && (dot == "" || dot == ".") && AllDigits(port)
    requires Lower(Trim(raw)) == f + dot + if port == "" then "" else ":" + port
    ensures NormalizeHost(Some(raw)) == if |f| <= 253 && !IsNumeric(f) then Some(f) else None
  {
    var t := Lower(Trim(raw));
    assert raw != "";
    if port == "" {
      assert t == f + dot;
      assert ':' !in t;
      NoPort(t);
    } else {
      PortDropped(f + dot, port);
    }
    assert DropPort(t) == f + dot;
    DotDropped(f, dot);
  }

  lemma DotDropped(f: string, dot: string)
    requires f != "" && f[|f| - 1] != '.' && (dot == "" || dot == ".")
    ensures DropDot(f + dot) == f
  {
    if dot == "." {
      assert (f + dot)[..|f + dot| - 1] == f;
    } else {
      assert f + dot == f;
    }
  }

  lemma LabelIsBounded(part: string)
    requires |part| <= 63
    ensures BoundedByAlnum(part) && (forall i | 0 <= i < |part| :: IsLabelChar(part[i])) <==> !ShellSkips(part)
  {
    ShellKeepsLabels(part);
    if ZoneLabel(part) {
      assert forall i | 0 <= i < |part| :: IsLabelChar(part[i]);
    }
  }

  ghost predicate AllDomainChars(s: string) {
    forall i | 0 <= i < |s| :: IsDomainChar(s[i])
  }

  lemma CharsOfThree(a: string, b: string)
    ensures AllDomainChars(a + "." + b) <==> AllDomainChars(a) && AllDomainChars(b)
  {
    var s := a + "." + b;
    if AllDomainChars(s) {
      assert forall i | 0 <= i < |a| :: s[i] == a[i];
      assert forall i | 0 <= i < |b| :: s[|a| + 1 + i] == b[i];
    }
  }

  lemma {:induction false} CharsOfLabels(labels: seq<string>)
    requires labels != []
    ensures AllDomainChars(Join(labels, ".")) <==> forall k | 0 <= k < |labels| :: AllDomainChars(labels[k])
  {
    if |labels| > 1 {
      CharsOfLabels(labels[1..]);
      CharsOfThree(labels[0], Join(labels[1..], "."));
      assert forall k | 0 < k < |labels| :: labels[k] == labels[1..][k - 1];
      assert forall k | 0 <= k < |labels[1..]| :: labels[1..][k] == labels[k + 1];
    }
  }

  lemma LabelChars(part: string)
    requires '.' !in part
    ensures AllDomainChars(part) <==> forall i | 0 <= i < |part| :: IsLabelChar(part[i])
  {
  }

  /**
   * A name of labels of at most 63 characters is a domain exactly when there
   * are two or more, at most 253 characters in all, and each is a label the
   * zone's list would keep.
   */
  lemma DomainOfLabels(labels: seq<string>)
    requires Without(labels, '.') && labels != [] && forall k | 0 <= k < |labels| :: |labels[k]| <= 63
    ensures IsValidDomain(Join(labels, ".")) <==>
      && |labels| >= 2 && |Join(labels, ".")| <= 253
      && forall k | 0 <= k < |labels| :: !ShellSkips(labels[k])
  {
    SplitJoin(labels, '.');
    CharsOfLabels(labels);
    forall k | 0 <= k < |labels|
      ensures BoundedByAlnum(labels[k]) && AllDomainChars(labels[k]) <==> !ShellSkips(labels[k])
    {
      LabelIsBounded(labels[k]);
      LabelChars(labels[k]);
    }
    assert AllDomainChars(Join(labels, ".")) <==>
      forall i | 0 <= i < |Join(labels, ".")| :: IsDomainChar(Join(labels, ".")[i]);
    if |labels| >= 2 {
      assert Join(labels, ".") != "";
    }
  }
}
