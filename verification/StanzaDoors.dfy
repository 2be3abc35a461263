/**
 * Who a stanza lets through, and the cookie its key gives: both are read from
 * the text of its lines, by readers that know the two directives and nothing of
 * how a stanza is written.
 */
module StanzaDoors {
  import opened Options
  import opened Text
  import opened Codes
  import opened Stanzas

  // --- the readers -----------------------------------------------------------

  /** The matcher that opens the site to a request whose cookie of that name is exactly that value. */
  predicate OpensFor(line: string, slug: string, cookie: string, value: string) {
    && '}' !in cookie
    && TrimStart(line) ==
      "@lock_open_" + (slug + (" expression {http.request.cookie." + (cookie + ("} == \"" + (value + "\"")))))
  }

  /** The header that gives a visitor the cookie, whatever its attributes. */
  predicate Gives(line: string, cookie: string, value: string) {
    && '=' !in cookie && ';' !in value
    && StartsWith(TrimStart(line), "header Set-Cookie \"" + (cookie + ("=" + (value + ";"))))
  }

  /** A request with these cookies matches an opening matcher of the slug's. */
  ghost predicate LetsThrough(lines: seq<string>, slug: string, cookies: map<string, string>) {
    exists i, c | 0 <= i < |lines| && c in cookies :: OpensFor(lines[i], slug, c, cookies[c])
  }

  ghost predicate GivesCookie(lines: seq<string>, cookie: string, value: string) {
    exists i | 0 <= i < |lines| :: Gives(lines[i], cookie, value)
  }

  // --- telling texts apart ---------------------------------------------------

  lemma {:induction false} SameUpTo(a: string, x: string, b: string, y: string, c: char)
    requires c !in a && c !in b && a + ([c] + x) <= b + ([c] + y)
    ensures a == b && x <= y
  {
    var s, t := a + ([c] + x), b + ([c] + y);
    assert s[0] == t[0];
    if a == "" {
      assert b == "";
      assert s[1..] == x && t[1..] == y;
    } else {
      assert s[0] == a[0];
      assert b != "" && t[0] == b[0];
      assert s[1..] == a[1..] + ([c] + x) && t[1..] == b[1..] + ([c] + y);
      SameUpTo(a[1..], x, b[1..], y, c);
    }
  }

  lemma {:induction false} TabLead(n: nat, line: string)
    requires line != "" && !IsSpace(line[0])
    ensures TrimStart(Tab(n, line)) == line
  {
    if n > 0 {
      TabLead(n - 1, line);
      assert ("\t" + Tab(n - 1, line))[1..] == Tab(n - 1, line);
    }
  }

  const OPENER: string := "@lock_open_"
  const GIVER: string := "header Set-Cookie \""

  predicate Opener(line: string) {
    StartsWith(TrimStart(line), OPENER)
  }

  predicate Giver(line: string) {
    StartsWith(TrimStart(line), GIVER)
  }

  ghost predicate NoOpener(lines: seq<string>) {
    forall i | 0 <= i < |lines| :: !Opener(lines[i])
  }

  ghost predicate NoGiver(lines: seq<string>) {
    forall i | 0 <= i < |lines| :: !Giver(lines[i])
  }

  lemma OnlyOpenersOpen(line: string, slug: string, cookie: string, value: string)
    requires OpensFor(line, slug, cookie, value)
    ensures Opener(line)
  {
  }

  lemma OnlyGiversGive(line: string, cookie: string, value: string)
    requires Gives(line, cookie, value)
    ensures Giver(line)
  {
    var rest := cookie + ("=" + (value + ";"));
    assert GIVER <= GIVER + rest;
  }

  // --- the lines that do neither ---------------------------------------------

  lemma TabbedNeither(n: nat, line: string)
    requires line != "" && !IsSpace(line[0]) && line[0] != '@' && (|line| > 7 && line[0] == 'h' ==> line[7] != 'S')
    ensures !Opener(Tab(n, line)) && !Giver(Tab(n, line))
  {
    TabLead(n, line);
    assert GIVER[7] == 'S' && GIVER[0] == 'h' && OPENER[0] == '@';
  }

  lemma CommentsNeither(lines: seq<string>)
    requires Comments(lines)
    ensures NoOpener(lines) && NoGiver(lines)
  {
    assert GIVER[0] == 'h' && OPENER[0] == '@';
  }

  lemma EmptyNeither()
    ensures !Opener("") && !Giver("")
  {
  }

  lemma MatcherNeither(line: string, prefix: string)
    requires |prefix| > 6 && prefix[0] == '@' && prefix[6] != 'o' && prefix <= line
    ensures !Opener(Tab(1, line)) && !Giver(Tab(1, line)) && !Opener(line) && !Giver(line)
  {
    TabLead(1, line);
    TabLead(0, line);
    assert OPENER[6] == 'o' && GIVER[0] == 'h';
  }

  lemma OpeningNeither(slug: string, notes: Notes)
    requires PlainNotes(notes)
    ensures NoOpener(Opening(slug, notes)) && NoGiver(Opening(slug, notes))
  {
    TabbedNeither(0, "handle @lock_host_" + (slug + " {"));
    CommentsNeither(notes.vary);
    TabbedNeither(1, "header Vary Cookie");
    EmptyNeither();
  }

  lemma SiteNeither(slug: string, options: LockOptions)
    ensures NoOpener(Site(slug, options)) && NoGiver(Site(slug, options))
  {
    TabbedNeither(1, "handle @lock_open_" + (slug + " {"));
    TabbedNeither(1, "}");
    EmptyNeither();
    TabbedNeither(1, "handle {");
    TabbedNeither(2, "root * " + (options.doorPagesDir + ("/" + slug)));
    TabbedNeither(2, "rewrite * /index.html");
  }

  lemma GuardNeither()
    ensures NoOpener(Guard()) && NoGiver(Guard())
  {
    TabbedNeither(2, "header Cache-Control \"no-store\"");
    TabbedNeither(2, "file_server {");
    TabbedNeither(3, "status 401");
    TabbedNeither(2, "}");
    TabbedNeither(1, "}");
    TabbedNeither(0, "}");
  }

  lemma BothNeither(a: seq<string>, b: seq<string>)
    requires NoOpener(a) && NoGiver(a) && NoOpener(b) && NoGiver(b)
    ensures NoOpener(a + b) && NoGiver(a + b)
  {
  }

  lemma ClosingNeither(notes: Notes)
    requires PlainNotes(notes)
    ensures NoOpener(Closing(notes)) && NoGiver(Closing(notes))
  {
    CommentsNeither(notes.rewriting);
    GuardNeither();
    BothNeither(notes.rewriting, Guard());
  }

  function CookieLine(slug: string, code: string, secure: bool): string {
    Tab(2, "header Set-Cookie \"" + (Attributes(slug, code, secure) + "\""))
  }

  lemma CookieLineOpensNothing(slug: string, code: string, secure: bool)
    ensures !Opener(CookieLine(slug, code, secure))
  {
    TabLead(2, "header Set-Cookie \"" + (Attributes(slug, code, secure) + "\""));
    assert OPENER[0] == '@';
  }

  lemma KeyHandleNeither(slug: string)
    ensures !Opener(Tab(1, "handle @lock_key_" + (slug + " {"))) && !Giver(Tab(1, "handle @lock_key_" + (slug + " {")))
  {
    TabbedNeither(1, "handle @lock_key_" + (slug + " {"));
  }

  lemma RedirectionNeither()
    ensures !Opener(Tab(2, "header Cache-Control \"no-store\"")) && !Giver(Tab(2, "header Cache-Control \"no-store\""))
    ensures !Opener(Tab(2, "redir * / 303")) && !Giver(Tab(2, "redir * / 303"))
    ensures !Opener(Tab(1, "}")) && !Giver(Tab(1, "}"))
    ensures !Opener("") && !Giver("")
  {
    TabbedNeither(2, "header Cache-Control \"no-store\"");
    TabbedNeither(2, "redir * / 303");
    TabbedNeither(1, "}");
    EmptyNeither();
  }

  /** Of six lines, the second may give. */
  lemma SixLines(a: string, b: string, c: string, d: string, e: string, f: string)
    requires !Opener(a) && !Giver(a) && !Opener(b) && !Opener(c) && !Giver(c) && !Opener(d) && !Giver(d)
    requires !Opener(e) && !Giver(e) && !Opener(f) && !Giver(f)
    ensures var lines := [a, b, c, d, e, f];
      NoOpener(lines) && forall i | 0 <= i < 6 && i != 1 :: !Giver(lines[i])
  {
  }

  /** Of the key's door one line gives a cookie, and none opens. */
  lemma DoorsGiveOnce(slug: string, code: string, options: LockOptions)
    ensures var lines := Doors(slug, code, options);
      && |lines| == 6 && NoOpener(lines)
      && lines[1] == CookieLine(slug, code, options.secure)
      && forall i | 0 <= i < 6 && i != 1 :: !Giver(lines[i])
  {
    KeyHandleNeither(slug);
    CookieLineOpensNothing(slug, code, options.secure);
    RedirectionNeither();
    SixLines(Tab(1, "handle @lock_key_" + (slug + " {")), CookieLine(slug, code, options.secure),
      Tab(2, "header Cache-Control \"no-store\""), Tab(2, "redir * / 303"), Tab(1, "}"), "");
  }

  // --- the two that count ----------------------------------------------------

  lemma OpenLineOpens(slug: string, code: string, cookie: string, value: string)
    requires IsLockSlug(slug) && '}' !in cookie
    ensures OpensFor(Tab(1, OpenText(slug, code)), slug, cookie, value) <==> cookie == CookieName(slug) && value == code
  {
    TabLead(1, OpenText(slug, code));
    NoBraceInCookie(slug);
    if OpensFor(Tab(1, OpenText(slug, code)), slug, cookie, value) {
      SameOpening(slug, CookieName(slug), code, cookie, value);
    }
  }

  lemma NoBraceInCookie(slug: string)
    ensures '}' !in CookieName(slug) && '=' !in CookieName(slug)
  {
    assert forall i | 0 <= i < |Plain(slug)| :: Plain(slug)[i] != '}' && Plain(slug)[i] != '=';
  }

  lemma SameOpening(slug: string, a: string, x: string, b: string, y: string)
    requires '}' !in a && '}' !in b
    requires "@lock_open_" + (slug + (" expression {http.request.cookie." + (a + ("} == \"" + (x + "\""))))) ==
      "@lock_open_" + (slug + (" expression {http.request.cookie." + (b + ("} == \"" + (y + "\"")))))
    ensures a == b && x == y
  {
    var p := "@lock_open_" + (slug + " expression {http.request.cookie.");
    AfterPrefix(p, slug, a + ("} == \"" + (x + "\"")));
    AfterPrefix(p, slug, b + ("} == \"" + (y + "\"")));
    SameTail(p, a + ("} == \"" + (x + "\"")), b + ("} == \"" + (y + "\"")));
    BraceFirst(x + "\"");
    BraceFirst(y + "\"");
    SameUpTo(a, " == \"" + (x + "\""), b, " == \"" + (y + "\""), '}');
    SameUpTo(b, " == \"" + (y + "\""), a, " == \"" + (x + "\""), '}');
    SameTail(" == \"", x + "\"", y + "\"");
    assert (x + "\"")[..|x|] == x && (y + "\"")[..|y|] == y;
  }

  lemma AfterPrefix(p: string, slug: string, rest: string)
    requires p == "@lock_open_" + (slug + " expression {http.request.cookie.")
    ensures "@lock_open_" + (slug + (" expression {http.request.cookie." + rest)) == p + rest
  {
  }

  lemma SameTail(p: string, a: string, b: string)
    requires p + a == p + b
    ensures a == b
  {
    assert (p + a)[|p|..] == a && (p + b)[|p|..] == b;
  }

  lemma BraceFirst(rest: string)
    ensures "} == \"" + rest == ['}'] + (" == \"" + rest)
  {
  }

  lemma AttributesBegin(slug: string, code: string, secure: bool)
    ensures StartsWith(Attributes(slug, code, secure), CookieName(slug) + ("=" + (code + ";")))
  {
    var parts := [CookieName(slug) + "=" + code, "Path=/", "Max-Age=" + MAX_AGE]
      + (if secure then ["Secure"] else []) + ["HttpOnly", "SameSite=Lax"];
    assert parts[0] == CookieName(slug) + "=" + code && |parts| > 1;
    BeginsWith(CookieName(slug), code, Join(parts[1..], "; "));
  }

  lemma BeginsWith(cookie: string, code: string, rest: string)
    ensures StartsWith(cookie + "=" + code + "; " + rest, cookie + ("=" + (code + ";")))
  {
    assert cookie + "=" + code + "; " + rest == (cookie + ("=" + (code + ";"))) + (" " + rest);
  }

  lemma CookieLineGives(slug: string, code: string, secure: bool, cookie: string, value: string)
    requires ';' !in code && '=' !in cookie && ';' !in value
    ensures Gives(CookieLine(slug, code, secure), cookie, value) <==> cookie == CookieName(slug) && value == code
  {
    var attributes := Attributes(slug, code, secure);
    TabLead(2, GIVER + (attributes + "\""));
    NoBraceInCookie(slug);
    AttributesBegin(slug, code, secure);
    var own := CookieName(slug) + ("=" + (code + ";"));
    Longer(GIVER, own, attributes);
    if Gives(CookieLine(slug, code, secure), cookie, value) {
      SameGift(attributes + "\"", CookieName(slug), code, cookie, value);
    }
  }

  lemma Longer(p: string, own: string, attributes: string)
    requires own <= attributes
    ensures p + own <= p + (attributes + "\"") && own <= attributes + "\""
  {
  }

  lemma SameGift(line: string, a: string, x: string, b: string, y: string)
    requires '=' !in a && '=' !in b && ';' !in x && ';' !in y
    requires a + ("=" + (x + ";")) <= line && GIVER + (b + ("=" + (y + ";"))) <= GIVER + line
    ensures a == b && x == y
  {
    assert (GIVER + line)[|GIVER|..] == line && (GIVER + (b + ("=" + (y + ";"))))[|GIVER|..] == b + ("=" + (y + ";"));
    var first := a + (['='] + (x + [';']));
    var second := b + (['='] + (y + [';']));
    assert first <= line && second <= line;
    assert x + ([';'] + "") == x + [';'] && y + ([';'] + "") == y + [';'];
    if |first| <= |second| {
      assert first <= second;
      SameUpTo(a, x + [';'], b, y + [';'], '=');
      SameUpTo(x, "", y, "", ';');
    } else {
      assert second <= first;
      SameUpTo(b, y + [';'], a, x + [';'], '=');
      SameUpTo(y, "", x, "", ';');
    }
  }

  // --- the stanza ------------------------------------------------------------

  lemma BeforeKeyNeither(slug: string, host: string, code: string, notes: Notes)
    requires IsLockSlug(slug) && PlainNotes(notes)
    ensures var lines := ["# Preview lock: " + slug]
      + ([HostLine(slug, host)] + (Opening(slug, notes) + [KeyLine(slug, code)]));
      NoOpener(lines) && NoGiver(lines)
  {
    TabbedNeither(0, "# Preview lock: " + slug);
    MatcherNeither(HostLine(slug, host), "@lock_host_");
    OpeningNeither(slug, notes);
    MatcherNeither(KeyPrefix(slug) + code, "@lock_key_");
  }

  lemma AfterOpenNeither(slug: string, notes: Notes, options: LockOptions)
    requires PlainNotes(notes)
    ensures NoOpener(Site(slug, options) + Closing(notes)) && NoGiver(Site(slug, options) + Closing(notes))
  {
    SiteNeither(slug, options);
    ClosingNeither(notes);
  }

  lemma StanzaParts(slug: string, host: string, code: string, notes: Notes, options: LockOptions)
    ensures StanzaLines(slug, host, code, notes, options) ==
      ["# Preview lock: " + slug] + ([HostLine(slug, host)] + (Opening(slug, notes) + [KeyLine(slug, code)]))
      + (Doors(slug, code, options) + ([Tab(1, OpenText(slug, code))] + (Site(slug, options) + Closing(notes))))
  {
  }

  lemma OneOpens(a: seq<string>, d: seq<string>, line: string, b: seq<string>, slug: string,
      cookies: map<string, string>, name: string, code: string)
    requires NoOpener(a) && NoOpener(d) && NoOpener(b)
    requires forall c, v | '}' !in c :: OpensFor(line, slug, c, v) <==> c == name && v == code
    requires '}' !in name
    ensures LetsThrough(a + (d + ([line] + b)), slug, cookies) <==> name in cookies && cookies[name] == code
  {
    var lines := a + (d + ([line] + b));
    var n := |a| + |d|;
    assert lines[n] == line;
    if i, c :| 0 <= i < |lines| && c in cookies && OpensFor(lines[i], slug, c, cookies[c]) {
      OnlyOpenersOpen(lines[i], slug, c, cookies[c]);
      assert i == n;
    }
    if name in cookies && cookies[name] == code {
      assert OpensFor(lines[n], slug, name, cookies[name]);
    }
  }

  /** A stanza lets a request through exactly when its cookie of the site's name is the code. */
  lemma LetsThroughExactly(slug: string, host: string, code: string, notes: Notes, options: LockOptions,
      cookies: map<string, string>)
    requires IsLockable(slug, host, code) && PlainNotes(notes)
    ensures LetsThrough(StanzaLines(slug, host, code, notes, options), slug, cookies) <==>
      CookieName(slug) in cookies && cookies[CookieName(slug)] == code
  {
    StanzaParts(slug, host, code, notes, options);
    BeforeKeyNeither(slug, host, code, notes);
    DoorsGiveOnce(slug, code, options);
    AfterOpenNeither(slug, notes, options);
    NoBraceInCookie(slug);
    forall c, v | '}' !in c
      ensures OpensFor(Tab(1, OpenText(slug, code)), slug, c, v) <==> c == CookieName(slug) && v == code
    {
      OpenLineOpens(slug, code, c, v);
    }
    OneOpens(["# Preview lock: " + slug] + ([HostLine(slug, host)] + (Opening(slug, notes) + [KeyLine(slug, code)])),
      Doors(slug, code, options), Tab(1, OpenText(slug, code)), Site(slug, options) + Closing(notes), slug, cookies,
      CookieName(slug), code);
  }

  lemma OneGives(a: seq<string>, d: seq<string>, line: string, b: seq<string>, cookie: string, value: string)
    requires NoGiver(a) && NoGiver([line] + b)
    requires |d| == 6 && forall i | 0 <= i < 6 && i != 1 :: !Giver(d[i])
    ensures GivesCookie(a + (d + ([line] + b)), cookie, value) <==> Gives(d[1], cookie, value)
  {
    var lines := a + (d + ([line] + b));
    var n := |a| + 1;
    assert lines[n] == d[1];
    if i :| 0 <= i < |lines| && Gives(lines[i], cookie, value) {
      OnlyGiversGive(lines[i], cookie, value);
      if i != n {
        NotElsewhere(a, d, [line] + b, i);
      }
    }
  }

  lemma NotElsewhere(a: seq<string>, d: seq<string>, b: seq<string>, i: nat)
    requires NoGiver(a) && NoGiver(b) && |d| == 6 && forall i | 0 <= i < 6 && i != 1 :: !Giver(d[i])
    requires i < |a + (d + b)| && i != |a| + 1
    ensures !Giver((a + (d + b))[i])
  {
    if i < |a| {
      assert (a + (d + b))[i] == a[i];
    } else if i < |a| + 6 {
      assert (a + (d + b))[i] == d[i - |a|];
    } else {
      assert (a + (d + b))[i] == b[i - |a| - 6];
    }
  }

  /** It gives one cookie, the one that lets through: the site's name, with the code. */
  lemma GivesExactly(slug: string, host: string, code: string, notes: Notes, options: LockOptions,
      cookie: string, value: string)
    requires IsLockable(slug, host, code) && PlainNotes(notes) && '=' !in cookie && ';' !in value
    ensures GivesCookie(StanzaLines(slug, host, code, notes, options), cookie, value) <==>
      cookie == CookieName(slug) && value == code
  {
    StanzaParts(slug, host, code, notes, options);
    BeforeKeyNeither(slug, host, code, notes);
    DoorsGiveOnce(slug, code, options);
    AfterOpenNeither(slug, notes, options);
    OpenLineGivesNothing(slug, code);
    CodeHoldsNoSemicolon(code);
    CookieLineGives(slug, code, options.secure, cookie, value);
    OneGives(["# Preview lock: " + slug] + ([HostLine(slug, host)] + (Opening(slug, notes) + [KeyLine(slug, code)])),
      Doors(slug, code, options), Tab(1, OpenText(slug, code)), Site(slug, options) + Closing(notes), cookie, value);
  }

  lemma OpenLineGivesNothing(slug: string, code: string)
    ensures !Giver(Tab(1, OpenText(slug, code)))
  {
    TabLead(1, OpenText(slug, code));
    assert GIVER[0] == 'h';
  }

  lemma CodeHoldsNoSemicolon(code: string)
    requires IsValidCode(Some(code))
    ensures ';' !in code
  {
    ValidCodeChars(Some(code));
  }
}
