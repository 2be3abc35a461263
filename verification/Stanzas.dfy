/** The stanza that closes a locked site, line by line, and what is read back from a fragment's lines. */
module Stanzas {
  import opened Options
  import opened Text
  import opened ZoneNames
  import opened DomainNames
  import opened Codes

  /** The comments a fragment carries: they say why, and no reader looks at them. */
  datatype Notes = Notes(header: seq<string>, vary: seq<string>, rewriting: seq<string>)

  datatype LockOptions = LockOptions(doorPagesDir: string, secure: bool)

  const MAX_AGE: string := "2592000"

  predicate IsLockSlug(slug: string) {
    && slug != "" && IsLowerAlnum(slug[0]) && IsLowerAlnum(slug[|slug| - 1])
    && forall i | 0 <= i < |slug| :: IsLabelChar(slug[i])
  }

  predicate IsCookieChar(c: char) {
    'A' <= c <= 'Z' || IsLabelChar(c)
  }

  function Plain(s: string): (r: string)
    ensures |r| == |s|
    ensures forall i | 0 <= i < |s| :: r[i] == if IsCookieChar(s[i]) then s[i] else '_'
  {
    seq(|s|, i requires 0 <= i < |s| => if IsCookieChar(s[i]) then s[i] else '_')
  }

  function CookieName(slug: string): string {
    "lock_" + Plain(slug)
  }

  function Attributes(slug: string, code: string, secure: bool): string {
    Join(
      [CookieName(slug) + "=" + code, "Path=/", "Max-Age=" + MAX_AGE]
      + (if secure then ["Secure"] else []) + ["HttpOnly", "SameSite=Lax"], "; ")
  }

  // --- the lines -------------------------------------------------------------

  function Vars(slug: string): string {
    "vars({'sitesolide_site': '" + slug + "'})"
  }

  function HostPrefix(slug: string): string {
    "@lock_host_" + slug + " expression "
  }

  function KeyPrefix(slug: string): string {
    "@lock_key_" + slug + " query key="
  }

  function Tab(n: nat, line: string): string {
    if n == 0 then line else "\t" + Tab(n - 1, line)
  }

  function HostLine(slug: string, host: string): string {
    HostPrefix(slug) + (("`host('" + host + "') || ") + (Vars(slug) + "`"))
  }

  function KeyLine(slug: string, code: string): string {
    Tab(1, KeyPrefix(slug) + code)
  }

  function OpenText(slug: string, code: string): string {
    "@lock_open_" + (slug + (" expression {http.request.cookie." + (CookieName(slug) + ("} == \"" + (code + "\"")))))
  }

  function Opening(slug: string, notes: Notes): seq<string> {
    ["handle @lock_host_" + (slug + " {")] + notes.vary + [Tab(1, "header Vary Cookie"), ""]
  }

  function Doors(slug: string, code: string, options: LockOptions): seq<string> {
    [ Tab(1, "handle @lock_key_" + (slug + " {")),
      Tab(2, "header Set-Cookie \"" + (Attributes(slug, code, options.secure) + "\"")),
      Tab(2, "header Cache-Control \"no-store\""),
      Tab(2, "redir * / 303"),
      Tab(1, "}"),
      "" ]
  }

  function Site(slug: string, options: LockOptions): seq<string> {
    [ Tab(1, "handle @lock_open_" + (slug + " {")),
      Tab(1, "}"),
      "",
      Tab(1, "handle {"),
      Tab(2, "root * " + (options.doorPagesDir + ("/" + slug))),
      Tab(2, "rewrite * /index.html") ]
  }

  function Guard(): seq<string> {
    [Tab(2, "header Cache-Control \"no-store\""), Tab(2, "file_server {"), Tab(3, "status 401"), Tab(2, "}"),
      Tab(1, "}"), "}"]
  }

  function Closing(notes: Notes): seq<string> {
    notes.rewriting + Guard()
  }

  /** After the key: the answer to it, the way open to who has the cookie, the door for the others. */
  function AfterKey(slug: string, code: string, notes: Notes, options: LockOptions): seq<string> {
    Doors(slug, code, options) + ([Tab(1, OpenText(slug, code))] + (Site(slug, options) + Closing(notes)))
  }

  function StanzaLines(slug: string, host: string, code: string, notes: Notes, options: LockOptions): seq<string> {
    ["# Preview lock: " + slug]
    + ([HostLine(slug, host)] + (Opening(slug, notes) + ([KeyLine(slug, code)] + AfterKey(slug, code, notes, options))))
  }

  function Stanza(slug: string, host: string, code: string, notes: Notes, options: LockOptions): string {
    Join(StanzaLines(slug, host, code, notes, options), "\n")
  }

  // --- the readers -----------------------------------------------------------

  function Unified(text: string): (r: string)
    ensures |r| == |text|
    ensures forall i | 0 <= i < |text| :: r[i] == if EndsLine(text[i]) then '\n' else text[i]
  {
    seq(|text|, i requires 0 <= i < |text| => if EndsLine(text[i]) then '\n' else text[i])
  }

  predicate IsKeyChar(c: char) {
    'A' <= c <= 'Z' || IsDigit(c)
  }

  /** The key a line carries for the slug: the matcher, alone on its line but for white space around it. */
  function KeyIn(line: string, slug: string): Option<string> {
    var t := Trim(line);
    if StartsWith(t, KeyPrefix(slug)) then
      var key := t[|KeyPrefix(slug)|..];
      if key != "" && forall i | 0 <= i < |key| :: IsKeyChar(key[i]) then Some(key) else None
    else None
  }

  /** The first key of the lines. */
  function FirstKey(lines: seq<string>, slug: string): Option<string> {
    if lines == [] then None
    else if KeyIn(lines[0], slug).Some? then KeyIn(lines[0], slug)
    else FirstKey(lines[1..], slug)
  }

  /** The code in force in a fragment; none stands for a missing file. */
  function InstalledCode(fragment: Option<string>, slug: string): Option<string> {
    if fragment.None? || !IsLockSlug(slug) then None
    else
      var found := FirstKey(Split(Unified(fragment.value), '\n'), slug);
      if IsValidCode(found) then found else None
  }

  predicate ClosesHere(line: string, slug: string) {
    StartsWith(line, HostPrefix(slug)) && Includes(line, Vars(slug))
  }

  predicate ClosesAmong(lines: seq<string>, slug: string) {
    exists i | 0 <= i < |lines| :: ClosesHere(lines[i], slug)
  }

  predicate ClosesEveryAddress(fragment: Option<string>, slug: string) {
    fragment.Some? && IsLockSlug(slug) && ClosesAmong(Split(fragment.value, '\n'), slug)
  }

  // --- what each line reads as -----------------------------------------------

  predicate OneLine(s: string) {
    forall i | 0 <= i < |s| :: !EndsLine(s[i])
  }

  /** A line no reader looks at, for any slug. */
  ghost predicate Silent(line: string) {
    OneLine(line) && forall slug :: KeyIn(line, slug) == None && !ClosesHere(line, slug)
  }

  ghost predicate AllSilent(lines: seq<string>) {
    forall i | 0 <= i < |lines| :: Silent(lines[i])
  }

  lemma SilentUnlessMatcher(line: string)
    requires OneLine(line) && (line != "" ==> line[0] != '@') && !StartsWith(TrimStart(line), "@lock_key_")
    ensures Silent(line)
  {
    TrimEndShape(TrimStart(line));
    forall slug
      ensures KeyIn(line, slug) == None && !ClosesHere(line, slug)
    {
      assert HostPrefix(slug)[0] == '@';
      assert "@lock_key_" <= KeyPrefix(slug);
    }
  }

  /**
   * Text that neither begins with white space nor is a key matcher, however indented
   * but for a matcher at the margin, is silent.
   */
  lemma {:induction false} TabbedLine(n: nat, line: string)
    requires line != "" && !IsSpace(line[0]) && OneLine(line)
    ensures OneLine(Tab(n, line)) && TrimStart(Tab(n, line)) == line
      && Tab(n, line)[0] == if n == 0 then line[0] else '\t'
  {
    if n > 0 {
      TabbedLine(n - 1, line);
      assert ("\t" + Tab(n - 1, line))[1..] == Tab(n - 1, line);
    }
  }

  lemma TabbedIsSilent(n: nat, line: string)
    requires line != "" && !IsSpace(line[0]) && line[0] != '@' && OneLine(line)
    ensures Silent(Tab(n, line))
  {
    TabbedLine(n, line);
    SilentUnlessMatcher(Tab(n, line));
  }

  lemma EmptyIsSilent()
    ensures Silent("")
  {
    SilentUnlessMatcher("");
  }

  lemma Both(a: string, b: string)
    requires OneLine(a) && OneLine(b)
    ensures OneLine(a + b)
  {
  }

  // --- the parts of a stanza -------------------------------------------------

  ghost predicate IsLockable(slug: string, host: string, code: string) {
    IsLockSlug(slug) && IsValidDomain(host) && IsValidCode(Some(code))
  }

  ghost predicate Comments(lines: seq<string>) {
    forall i | 0 <= i < |lines| ::
      OneLine(lines[i]) && TrimStart(lines[i]) != "" && TrimStart(lines[i])[0] == '#' && lines[i][0] != '@'
  }

  ghost predicate PlainNotes(notes: Notes) {
    notes.header != [] && Comments(notes.header) && Comments(notes.vary) && Comments(notes.rewriting)
  }

  lemma CommentsAreSilent(lines: seq<string>)
    requires Comments(lines)
    ensures AllSilent(lines)
  {
    forall i | 0 <= i < |lines|
      ensures Silent(lines[i])
    {
      assert lines[i] != "";
      SilentUnlessMatcher(lines[i]);
    }
  }

  lemma NamesAreOneLine(slug: string, host: string, code: string)
    requires IsLockable(slug, host, code)
    ensures OneLine(slug) && OneLine(host) && OneLine(code) && OneLine(CookieName(slug))
    ensures forall i | 0 <= i < |code| :: IsCodeChar(code[i])
  {
    ValidCodeChars(Some(code));
    Both("lock_", Plain(slug));
  }

  lemma OpeningIsSilent(slug: string, notes: Notes)
    requires OneLine(slug) && PlainNotes(notes)
    ensures AllSilent(Opening(slug, notes))
  {
    Both(slug, " {");
    Both("handle @lock_host_", slug + " {");
    TabbedIsSilent(0, "handle @lock_host_" + (slug + " {"));
    CommentsAreSilent(notes.vary);
    TabbedIsSilent(1, "header Vary Cookie");
    EmptyIsSilent();
  }

  lemma {:induction false} JoinIsOneLine(parts: seq<string>, glue: string)
    requires OneLine(glue) && forall i | 0 <= i < |parts| :: OneLine(parts[i])
    ensures OneLine(Join(parts, glue))
  {
    if |parts| > 1 {
      JoinIsOneLine(parts[1..], glue);
    }
  }

  lemma AttributesAreOneLine(slug: string, code: string, secure: bool)
    requires OneLine(CookieName(slug)) && OneLine(code)
    ensures OneLine(Attributes(slug, code, secure))
  {
    Both(CookieName(slug), "=");
    Both(CookieName(slug) + "=", code);
    Both("Max-Age=", MAX_AGE);
    JoinIsOneLine(
      [CookieName(slug) + "=" + code, "Path=/", "Max-Age=" + MAX_AGE]
      + (if secure then ["Secure"] else []) + ["HttpOnly", "SameSite=Lax"], "; ");
  }

  lemma NoStoreIsSilent()
    ensures Silent(Tab(2, "header Cache-Control \"no-store\""))
  {
    TabbedIsSilent(2, "header Cache-Control \"no-store\"");
  }

  lemma BraceIsSilent(n: nat)
    ensures Silent(Tab(n, "}"))
  {
    TabbedIsSilent(n, "}");
  }

  lemma KeyHandleIsSilent(slug: string)
    requires OneLine(slug)
    ensures Silent(Tab(1, "handle @lock_key_" + (slug + " {")))
  {
    Both(slug, " {");
    Both("handle @lock_key_", slug + " {");
    TabbedIsSilent(1, "handle @lock_key_" + (slug + " {"));
  }

  lemma CookieIsSilent(attributes: string)
    requires OneLine(attributes)
    ensures Silent(Tab(2, "header Set-Cookie \"" + (attributes + "\"")))
  {
    Both(attributes, "\"");
    Both("header Set-Cookie \"", attributes + "\"");
    TabbedIsSilent(2, "header Set-Cookie \"" + (attributes + "\""));
  }

  lemma DoorsAreSilent(slug: string, code: string, options: LockOptions)
    requires OneLine(slug) && OneLine(code) && OneLine(CookieName(slug))
    ensures AllSilent(Doors(slug, code, options))
  {
    KeyHandleIsSilent(slug);
    AttributesAreOneLine(slug, code, options.secure);
    CookieIsSilent(Attributes(slug, code, options.secure));
    NoStoreIsSilent();
    TabbedIsSilent(2, "redir * / 303");
    BraceIsSilent(1);
    EmptyIsSilent();
  }

  lemma SiteIsSilent(slug: string, options: LockOptions)
    requires OneLine(slug) && OneLine(options.doorPagesDir)
    ensures AllSilent(Site(slug, options))
  {
    Both(slug, " {");
    Both("handle @lock_open_", slug + " {");
    TabbedIsSilent(1, "handle @lock_open_" + (slug + " {"));
    TabbedIsSilent(1, "}");
    EmptyIsSilent();
    TabbedIsSilent(1, "handle {");
    Both("/", slug);
    Both(options.doorPagesDir, "/" + slug);
    Both("root * ", options.doorPagesDir + ("/" + slug));
    TabbedIsSilent(2, "root * " + (options.doorPagesDir + ("/" + slug)));
    TabbedIsSilent(2, "rewrite * /index.html");
  }

  lemma GuardIsSilent()
    ensures AllSilent(Guard())
  {
    NoStoreIsSilent();
    TabbedIsSilent(2, "file_server {");
    TabbedIsSilent(3, "status 401");
    BraceIsSilent(2);
    BraceIsSilent(1);
    BraceIsSilent(0);
    assert Tab(0, "}") == "}";
  }

  lemma SilentTogether(a: seq<string>, b: seq<string>)
    requires AllSilent(a) && AllSilent(b)
    ensures AllSilent(a + b)
  {
  }

  lemma ClosingIsSilent(notes: Notes)
    requires PlainNotes(notes)
    ensures AllSilent(Closing(notes))
  {
    CommentsAreSilent(notes.rewriting);
    GuardIsSilent();
    SilentTogether(notes.rewriting, Guard());
  }

  lemma OpenTextIsOneLine(slug: string, code: string)
    requires OneLine(slug) && OneLine(code) && OneLine(CookieName(slug))
    ensures OneLine(OpenText(slug, code))
  {
    Both(code, "\"");
    Both("} == \"", code + "\"");
    Both(CookieName(slug), "} == \"" + (code + "\""));
    Both(" expression {http.request.cookie.", CookieName(slug) + ("} == \"" + (code + "\"")));
    Both(slug, " expression {http.request.cookie." + (CookieName(slug) + ("} == \"" + (code + "\""))));
    Both("@lock_open_", slug + (" expression {http.request.cookie."
      + (CookieName(slug) + ("} == \"" + (code + "\"")))));
  }

  lemma OpenLineIsSilent(slug: string, code: string)
    requires OneLine(slug) && OneLine(code) && OneLine(CookieName(slug))
    ensures Silent(Tab(1, OpenText(slug, code)))
  {
    OpenTextIsOneLine(slug, code);
    TabbedLine(1, OpenText(slug, code));
    assert OpenText(slug, code)[6] == 'o' && "@lock_key_"[6] == 'k';
    SilentUnlessMatcher(Tab(1, OpenText(slug, code)));
  }

  lemma AfterKeyIsSilent(slug: string, host: string, code: string, notes: Notes, options: LockOptions)
    requires IsLockable(slug, host, code) && PlainNotes(notes) && OneLine(options.doorPagesDir)
    ensures AllSilent(AfterKey(slug, code, notes, options))
  {
    NamesAreOneLine(slug, host, code);
    DoorsAreSilent(slug, code, options);
    OpenLineIsSilent(slug, code);
    SiteIsSilent(slug, options);
    ClosingIsSilent(notes);
  }

  // --- the two matchers ------------------------------------------------------

  lemma Head(a: string, x: string)
    ensures (a + (" " + x))[0] == if a == "" then ' ' else a[0]
    ensures a != "" ==> (a + (" " + x))[1..] == a[1..] + (" " + x)
  {
  }

  lemma PrefixHeads(a: string, b: string)
    requires a <= b && a != ""
    ensures b != "" && a[0] == b[0] && a[1..] <= b[1..]
  {
  }

  /** Two matchers that begin alike are for the same slug. */
  lemma {:induction false} SameSlug(a: string, x: string, b: string, y: string)
    requires (forall i | 0 <= i < |a| :: a[i] != ' ') && (forall i | 0 <= i < |b| :: b[i] != ' ')
    requires a + (" " + x) <= b + (" " + y)
    ensures a == b
  {
    Head(a, x);
    Head(b, y);
    PrefixHeads(a + (" " + x), b + (" " + y));
    if a != "" && b != "" {
      SameSlug(a[1..], x, b[1..], y);
    }
  }

  lemma Stripped(p: string, a: string, b: string)
    requires p + a <= p + b
    ensures a <= b
  {
    assert (p + a)[|p|..] == a && (p + b)[|p|..] == b;
  }

  lemma KeyTextIsPlain(slug: string, code: string)
    requires IsLockSlug(slug) && code != "" && forall i | 0 <= i < |code| :: IsKeyChar(code[i])
    ensures OneLine(KeyPrefix(slug) + code) && Trimmed(KeyPrefix(slug) + code)
  {
    var line := KeyPrefix(slug) + code;
    Both("@lock_key_", slug);
    Both("@lock_key_" + slug, " query key=");
    Both(KeyPrefix(slug), code);
    assert line[0] == '@' && line[|line| - 1] == code[|code| - 1];
  }

  lemma KeyPrefixes(slug: string, code: string, asked: string)
    requires IsLockSlug(slug) && IsLockSlug(asked)
    ensures StartsWith(KeyPrefix(slug) + code, KeyPrefix(asked)) <==> slug == asked
  {
    if StartsWith(KeyPrefix(slug) + code, KeyPrefix(asked)) {
      assert KeyPrefix(asked) == "@lock_key_" + (asked + (" " + "query key="));
      assert KeyPrefix(slug) + code == "@lock_key_" + (slug + (" " + ("query key=" + code)));
      Stripped("@lock_key_", asked + (" " + "query key="), slug + (" " + ("query key=" + code)));
      SameSlug(asked, "query key=", slug, "query key=" + code);
    }
  }

  lemma TabTrims(line: string)
    requires line != "" && Trimmed(line)
    ensures Trim(Tab(1, line)) == line
  {
    assert Tab(1, line)[1..] == line;
    assert TrimStart(Tab(1, line)) == TrimStart(line) == line;
  }

  lemma KeyOfMatcher(slug: string, code: string, asked: string)
    requires IsLockSlug(slug) && IsLockSlug(asked) && code != ""
    requires forall i | 0 <= i < |code| :: IsKeyChar(code[i])
    ensures Trim(KeyLine(slug, code)) == KeyPrefix(slug) + code && OneLine(KeyLine(slug, code))
    ensures StartsWith(KeyPrefix(slug) + code, KeyPrefix(asked)) <==> slug == asked
  {
    KeyTextIsPlain(slug, code);
    TabbedLine(1, KeyPrefix(slug) + code);
    TabTrims(KeyPrefix(slug) + code);
    KeyPrefixes(slug, code, asked);
  }

  /** The key line gives its code to its own slug, and nothing to another. */
  lemma KeyLineReads(slug: string, code: string, asked: string)
    requires IsLockSlug(slug) && IsLockSlug(asked) && IsValidCode(Some(code))
    ensures KeyIn(KeyLine(slug, code), asked) == if asked == slug then Some(code) else None
    ensures !ClosesHere(KeyLine(slug, code), asked) && OneLine(KeyLine(slug, code))
  {
    ValidCodeChars(Some(code));
    KeyOfMatcher(slug, code, asked);
    assert (KeyPrefix(slug) + code)[|KeyPrefix(slug)|..] == code;
    assert KeyLine(slug, code)[0] == '\t' && HostPrefix(asked)[0] == '@';
  }

  lemma HostLineIsOneLine(slug: string, host: string)
    requires OneLine(slug) && OneLine(host)
    ensures OneLine(HostLine(slug, host))
  {
    Both("@lock_host_", slug);
    Both("@lock_host_" + slug, " expression ");
    Both("`host('", host);
    Both("`host('" + host, "') || ");
    Both("vars({'sitesolide_site': '", slug);
    Both("vars({'sitesolide_site': '" + slug, "'})");
    Both(Vars(slug), "`");
    Both("`host('" + host + "') || ", Vars(slug) + "`");
    Both(HostPrefix(slug), ("`host('" + host + "') || ") + (Vars(slug) + "`"));
  }

  lemma HostLineHasNoKey(slug: string, rest: string, asked: string)
    ensures KeyIn(HostPrefix(slug) + rest, asked) == None
  {
    var line := HostPrefix(slug) + rest;
    assert line[0] == '@' && line[6] == 'h' && KeyPrefix(asked)[6] == 'k';
    TrimEndShape(line);
  }

  lemma HostLineStarts(slug: string, rest: string, asked: string)
    requires IsLockSlug(slug) && IsLockSlug(asked)
    ensures StartsWith(HostPrefix(slug) + rest, HostPrefix(asked)) <==> asked == slug
  {
    if StartsWith(HostPrefix(slug) + rest, HostPrefix(asked)) {
      assert HostPrefix(asked) == "@lock_host_" + (asked + (" " + "expression "));
      assert HostPrefix(slug) + rest == "@lock_host_" + (slug + (" " + ("expression " + rest)));
      Stripped("@lock_host_", asked + (" " + "expression "), slug + (" " + ("expression " + rest)));
      SameSlug(asked, "expression ", slug, "expression " + rest);
    }
  }

  lemma IncludedLast(prefix: string, a: string, part: string, b: string)
    ensures Includes(prefix + (a + (part + b)), part)
  {
    assert prefix + (a + (part + b)) == (prefix + a) + part + b;
    IncludesMiddle(prefix + a, part, b);
  }

  /** The host line closes every address of its own slug, and of no other. */
  lemma HostLineCloses(slug: string, host: string, asked: string)
    requires IsLockSlug(slug) && IsLockSlug(asked) && OneLine(host)
    ensures ClosesHere(HostLine(slug, host), asked) <==> asked == slug
    ensures KeyIn(HostLine(slug, host), asked) == None && OneLine(HostLine(slug, host))
  {
    var before := "`host('" + host + "') || ";
    HostLineIsOneLine(slug, host);
    HostLineHasNoKey(slug, before + (Vars(slug) + "`"), asked);
    HostLineStarts(slug, before + (Vars(slug) + "`"), asked);
    IncludedLast(HostPrefix(slug), before, Vars(slug), "`");
  }

  // --- a whole stanza --------------------------------------------------------

  lemma {:induction false} FirstKeyTogether(a: seq<string>, b: seq<string>, slug: string)
    ensures FirstKey(a + b, slug) == if FirstKey(a, slug).Some? then FirstKey(a, slug) else FirstKey(b, slug)
  {
    if a == [] {
      assert a + b == b;
    } else {
      assert (a + b)[1..] == a[1..] + b;
      FirstKeyTogether(a[1..], b, slug);
    }
  }

  lemma ClosesTogether(a: seq<string>, b: seq<string>, slug: string)
    ensures ClosesAmong(a + b, slug) <==> ClosesAmong(a, slug) || ClosesAmong(b, slug)
  {
    if i :| 0 <= i < |a| && ClosesHere(a[i], slug) {
      assert ClosesHere((a + b)[i], slug);
    }
    if i :| 0 <= i < |b| && ClosesHere(b[i], slug) {
      assert ClosesHere((a + b)[|a| + i], slug);
    }
  }

  lemma {:induction false} SilentHasNoKey(lines: seq<string>, slug: string)
    requires AllSilent(lines)
    ensures FirstKey(lines, slug) == None && !ClosesAmong(lines, slug)
  {
    if lines != [] {
      SilentHasNoKey(lines[1..], slug);
    }
  }

  lemma OneKey(line: string, slug: string)
    ensures FirstKey([line], slug) == KeyIn(line, slug)
    ensures ClosesAmong([line], slug) <==> ClosesHere(line, slug)
  {
    assert [line][1..] == [];
    assert ClosesAmong([line], slug) <==> ClosesHere([line][0], slug);
  }

  ghost predicate OneLiners(lines: seq<string>) {
    forall i | 0 <= i < |lines| :: OneLine(lines[i])
  }

  lemma TitleIsSilent(slug: string)
    requires OneLine(slug)
    ensures Silent("# Preview lock: " + slug)
  {
    Both("# Preview lock: ", slug);
    TabbedIsSilent(0, "# Preview lock: " + slug);
  }

  /** A stanza gives its code to its own slug alone, and closes every address of that one alone. */
  lemma StanzaReads(slug: string, host: string, code: string, notes: Notes, options: LockOptions, asked: string)
    requires IsLockable(slug, host, code) && IsLockSlug(asked) && PlainNotes(notes) && OneLine(options.doorPagesDir)
    ensures var lines := StanzaLines(slug, host, code, notes, options);
      && OneLiners(lines)
      && FirstKey(lines, asked) == (if asked == slug then Some(code) else None)
      && (ClosesAmong(lines, asked) <==> asked == slug)
  {
    NamesAreOneLine(slug, host, code);
    TitleIsSilent(slug);
    HostLineCloses(slug, host, asked);
    OpeningIsSilent(slug, notes);
    KeyLineReads(slug, code, asked);
    AfterKeyIsSilent(slug, host, code, notes, options);
    TwoAudible("# Preview lock: " + slug, HostLine(slug, host), Opening(slug, notes), KeyLine(slug, code),
      AfterKey(slug, code, notes, options), asked);
  }

  /** The first key and the closing line of lines of which only two are not silent. */
  lemma TwoAudible(title: string, host: string, opening: seq<string>, key: string, after: seq<string>, asked: string)
    requires Silent(title) && AllSilent(opening) && AllSilent(after) && OneLine(host) && OneLine(key)
    requires KeyIn(host, asked) == None && !ClosesHere(key, asked)
    ensures var lines := [title] + ([host] + (opening + ([key] + after)));
      && OneLiners(lines) && FirstKey(lines, asked) == KeyIn(key, asked)
        && (ClosesAmong(lines, asked) <==> ClosesHere(host, asked))
  {
    OneKey(title, asked);
    OneKey(host, asked);
    OneKey(key, asked);
    SilentHasNoKey(opening, asked);
    SilentHasNoKey(after, asked);
    FirstKeyTogether([key], after, asked);
    FirstKeyTogether(opening, [key] + after, asked);
    FirstKeyTogether([host], opening + ([key] + after), asked);
    FirstKeyTogether([title], [host] + (opening + ([key] + after)), asked);
    ClosesTogether([key], after, asked);
    ClosesTogether(opening, [key] + after, asked);
    ClosesTogether([host], opening + ([key] + after), asked);
    ClosesTogether([title], [host] + (opening + ([key] + after)), asked);
  }

  /** A slug of at most 63 characters may be locked exactly when the writer of the zone's list would keep it. */
  lemma LockSlugsAreLabels(slug: string)
    requires |slug| <= 63
    ensures IsLockSlug(slug) <==> !ShellSkips(slug)
  {
    ShellKeepsLabels(slug);
    if ZoneLabel(slug) {
      assert forall i | 0 <= i < |slug| :: IsLabelChar(slug[i]);
    }
  }
}
