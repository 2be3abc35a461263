/** What is read back from a generated fragment, and that its text does not depend on the order of the sites. */
module FragmentReads {
  import opened Options
  import opened Text
  import opened Codes
  import opened Stanzas
  import opened Fragment

  // --- the fragment's lines --------------------------------------------------

  function SiteLines(s: LockSite, notes: Notes, options: LockOptions): seq<string>
    requires s.code.Some?
  {
    StanzaLines(s.slug, s.host, s.code.value, notes, options)
  }

  /** The header, then each stanza after an empty line. */
  function LinesOf(locked: seq<LockSite>, notes: Notes, options: LockOptions): seq<string>
    requires Coded(locked)
  {
    if locked == [] then notes.header
    else LinesOf(locked[..|locked| - 1], notes, options) + ([""] + SiteLines(locked[|locked| - 1], notes, options))
  }

  lemma Glued(a: seq<string>, b: seq<string>)
    requires a != [] && b != []
    ensures Join(a + ([""] + b), "\n") == Join(a, "\n") + "\n\n" + Join(b, "\n")
  {
    JoinAppend(a, [""] + b, "\n");
    JoinAppend([""], b, "\n");
    assert Join([""], "\n") == "";
    assert Join(a, "\n") + "\n" + ("" + "\n" + Join(b, "\n")) == Join(a, "\n") + "\n\n" + Join(b, "\n");
  }

  lemma StanzasGrow(locked: seq<LockSite>, notes: Notes, options: LockOptions)
    requires Coded(locked) && locked != []
    ensures var n := |locked| - 1;
      StanzasOf(locked, notes, options) ==
        StanzasOf(locked[..n], notes, options) + [StanzaOf(locked[n], notes, options)]
  {
  }

  /** A text that is its lines still is with one more stanza. */
  lemma LinesGrow(locked: seq<LockSite>, notes: Notes, options: LockOptions, head: string, stanzas: seq<string>,
      lines: seq<string>)
    requires Coded(locked) && locked != [] && lines != []
    requires Join([head] + stanzas, "\n\n") == Join(lines, "\n")
    ensures var last := locked[|locked| - 1];
      Join([head] + (stanzas + [StanzaOf(last, notes, options)]), "\n\n") ==
        Join(lines + ([""] + SiteLines(last, notes, options)), "\n")
  {
    TextGrows(head, stanzas, lines, SiteLines(locked[|locked| - 1], notes, options));
  }

  lemma {:induction false} TextIsItsLines(locked: seq<LockSite>, notes: Notes, options: LockOptions)
    requires Coded(locked) && notes.header != []
    ensures LinesOf(locked, notes, options) != []
    ensures Join([Join(notes.header, "\n")] + StanzasOf(locked, notes, options), "\n\n") ==
      Join(LinesOf(locked, notes, options), "\n")
  {
    var head := Join(notes.header, "\n");
    if locked == [] {
      HeadAlone(head, StanzasOf(locked, notes, options));
    } else {
      var front := locked[..|locked| - 1];
      TextIsItsLines(front, notes, options);
      StanzasGrow(locked, notes, options);
      LinesGrow(locked, notes, options, head, StanzasOf(front, notes, options), LinesOf(front, notes, options));
    }
  }

  lemma HeadAlone(head: string, stanzas: seq<string>)
    requires stanzas == []
    ensures Join([head] + stanzas, "\n\n") == head
  {
    assert [head] + stanzas == [head];
  }

  lemma TextGrows(head: string, stanzas: seq<string>, lines: seq<string>, more: seq<string>)
    requires lines != [] && more != [] && Join([head] + stanzas, "\n\n") == Join(lines, "\n")
    ensures Join([head] + (stanzas + [Join(more, "\n")]), "\n\n") == Join(lines + ([""] + more), "\n")
  {
    assert [head] + (stanzas + [Join(more, "\n")]) == ([head] + stanzas) + [Join(more, "\n")];
    JoinAppend([head] + stanzas, [Join(more, "\n")], "\n\n");
    Glued(lines, more);
  }

  lemma SplitLines(lines: seq<string>)
    requires lines != [] && Without(lines, '\n')
    ensures Split(Join(lines, "\n") + "\n", '\n') == lines + [""]
  {
    SplitJoin(lines, '\n');
    SplitAppend(Join(lines, "\n"), "", '\n');
    assert Join(lines, "\n") + "\n" == Join(lines, "\n") + ['\n'] + "";
  }

  predicate OnlyNewlines(s: string) {
    forall i | 0 <= i < |s| :: EndsLine(s[i]) ==> s[i] == '\n'
  }

  lemma {:induction false} JoinedByNewlines(lines: seq<string>)
    requires OneLiners(lines)
    ensures OnlyNewlines(Join(lines, "\n"))
  {
    if |lines| == 1 {
      assert OneLine(lines[0]);
    } else if |lines| > 1 {
      JoinedByNewlines(lines[1..]);
      assert OneLine(lines[0]);
      assert Join(lines, "\n") == lines[0] + "\n" + Join(lines[1..], "\n");
    }
  }

  lemma UnifiedIsItself(text: string)
    requires OnlyNewlines(text)
    ensures Unified(text) == text
  {
  }

  /** Both readers see the fragment as these lines. */
  lemma LinesSeen(locked: seq<LockSite>, notes: Notes, options: LockOptions)
    requires Coded(locked) && notes.header != [] && OneLiners(LinesOf(locked, notes, options))
    ensures Unified(Rendered(locked, notes, options)) == Rendered(locked, notes, options)
    ensures Split(Rendered(locked, notes, options), '\n') == LinesOf(locked, notes, options) + [""]
  {
    var lines := LinesOf(locked, notes, options);
    TextIsItsLines(locked, notes, options);
    JoinedByNewlines(lines);
    UnifiedIsItself(Join(lines, "\n") + "\n");
    forall i | 0 <= i < |lines|
      ensures '\n' !in lines[i]
    {
      assert OneLine(lines[i]);
    }
    SplitLines(lines);
  }

  // --- reading ---------------------------------------------------------------

  ghost predicate AllLockable(locked: seq<LockSite>) {
    forall i | 0 <= i < |locked| ::
      locked[i].code.Some? && IsLockable(locked[i].slug, locked[i].host, locked[i].code.value)
  }

  /** The code of the first site of that slug. */
  function CodeIn(locked: seq<LockSite>, asked: string): Option<string> {
    if locked == [] then None
    else
      var front, last := locked[..|locked| - 1], locked[|locked| - 1];
      if CodeIn(front, asked).Some? then CodeIn(front, asked)
      else if last.slug == asked then last.code
      else None
  }

  lemma {:induction false} LinesRead(locked: seq<LockSite>, notes: Notes, options: LockOptions, asked: string)
    requires AllLockable(locked) && Coded(locked) && PlainNotes(notes) && OneLine(options.doorPagesDir)
      && IsLockSlug(asked)
    ensures var lines := LinesOf(locked, notes, options);
      OneLiners(lines) && FirstKey(lines, asked) == CodeIn(locked, asked)
        && (ClosesAmong(lines, asked) <==> CodeIn(locked, asked).Some?)
  {
    if locked == [] {
      CommentsAreSilent(notes.header);
      SilentHasNoKey(notes.header, asked);
      forall i | 0 <= i < |notes.header|
        ensures OneLine(notes.header[i])
      {
        assert Silent(notes.header[i]);
      }
    } else {
      var front, last := locked[..|locked| - 1], locked[|locked| - 1];
      LinesRead(front, notes, options, asked);
      StanzaReads(last.slug, last.host, last.code.value, notes, options, asked);
      EmptyIsSilent();
      OneKey("", asked);
      AfterStanza(LinesOf(front, notes, options), SiteLines(last, notes, options), asked);
    }
  }

  lemma AfterStanza(a: seq<string>, b: seq<string>, asked: string)
    requires OneLiners(a) && OneLiners(b) && Silent("")
    ensures var lines := a + ([""] + b);
      && OneLiners(lines)
      && FirstKey(lines, asked) == (if FirstKey(a, asked).Some? then FirstKey(a, asked) else FirstKey(b, asked))
      && (ClosesAmong(lines, asked) <==> ClosesAmong(a, asked) || ClosesAmong(b, asked))
  {
    OneKey("", asked);
    FirstKeyTogether([""], b, asked);
    FirstKeyTogether(a, [""] + b, asked);
    ClosesTogether([""], b, asked);
    ClosesTogether(a, [""] + b, asked);
  }

  lemma LastEmptyLine(lines: seq<string>, asked: string)
    ensures FirstKey(lines + [""], asked) == FirstKey(lines, asked)
    ensures ClosesAmong(lines + [""], asked) <==> ClosesAmong(lines, asked)
  {
    EmptyIsSilent();
    OneKey("", asked);
    FirstKeyTogether(lines, [""], asked);
    ClosesTogether(lines, [""], asked);
  }

  // --- the locked sites ------------------------------------------------------

  lemma AdmissiblePrefix(sites: seq<LockSite>, n: nat)
    requires n <= |sites| && Admissible(multiset(sites))
    ensures Admissible(multiset(sites[..n]))
  {
    assert sites == sites[..n] + sites[n..];
    assert forall s | s in multiset(sites[..n]) ::
      s in multiset(sites) && multiset(sites[..n])[s] <= multiset(sites)[s];
  }

  ghost predicate SlugsApart(locked: seq<LockSite>) {
    forall i, j | 0 <= i < j < |locked| :: locked[i].slug != locked[j].slug
  }

  lemma {:induction false} LockedApart(sites: seq<LockSite>)
    requires Admissible(multiset(sites))
    ensures SlugsApart(Locked(sites)) && AllLockable(Locked(sites)) && Coded(Locked(sites))
  {
    if sites != [] {
      var n := |sites| - 1;
      AdmissiblePrefix(sites, n);
      LockedApart(sites[..n]);
      if sites[n].lock {
        LastLockedApart(sites, n);
      }
    }
  }

  lemma LastLockedApart(sites: seq<LockSite>, n: nat)
    requires Admissible(multiset(sites)) && n < |sites| && sites[n].lock
    ensures forall i | 0 <= i < |Locked(sites[..n])| :: Locked(sites[..n])[i].slug != sites[n].slug
    ensures sites[n].code.Some? && IsLockable(sites[n].slug, sites[n].host, sites[n].code.value)
  {
    var front := Locked(sites[..n]);
    assert sites[n] in multiset(sites);
    forall i | 0 <= i < |front|
      ensures front[i].slug != sites[n].slug
    {
      assert front[i] in front;
      if front[i].slug == sites[n].slug {
        NotAdmissible(sites, n, front[i]);
      }
    }
  }

  lemma {:induction false} CodeInOnly(locked: seq<LockSite>, s: LockSite)
    requires SlugsApart(locked) && s in locked && s.code.Some?
    ensures CodeIn(locked, s.slug) == s.code
  {
    var n := |locked| - 1;
    if s in locked[..n] {
      CodeInOnly(locked[..n], s);
    } else {
      assert locked == locked[..n] + [locked[n]];
      NoCodeIn(locked[..n], s.slug);
    }
  }

  lemma {:induction false} NoCodeIn(locked: seq<LockSite>, asked: string)
    requires forall i | 0 <= i < |locked| :: locked[i].slug != asked
    ensures CodeIn(locked, asked) == None
  {
    if locked != [] {
      NoCodeIn(locked[..|locked| - 1], asked);
    }
  }

  lemma FragmentLooked(sorted: seq<LockSite>, notes: Notes, options: LockOptions, asked: string)
    requires Admissible(multiset(sorted)) && Coded(Locked(sorted)) && PlainNotes(notes)
    requires OneLine(options.doorPagesDir) && IsLockSlug(asked)
    ensures var code := CodeIn(Locked(sorted), asked);
      && InstalledCode(Some(Rendered(Locked(sorted), notes, options)), asked) ==
        (if IsValidCode(code) then code else None)
      && (ClosesEveryAddress(Some(Rendered(Locked(sorted), notes, options)), asked) <==> code.Some?)
  {
    var locked := Locked(sorted);
    LockedApart(sorted);
    LinesRead(locked, notes, options, asked);
    LinesSeen(locked, notes, options);
    LastEmptyLine(LinesOf(locked, notes, options), asked);
  }

  /** Read back from the fragment, a locked site has its own code and is closed at every address. */
  lemma LockedSiteReadsBack(sorted: seq<LockSite>, notes: Notes, options: LockOptions, s: LockSite)
    requires Admissible(multiset(sorted)) && Coded(Locked(sorted)) && PlainNotes(notes) && OneLine(options.doorPagesDir)
    requires s in sorted && s.lock
    ensures InstalledCode(Some(Rendered(Locked(sorted), notes, options)), s.slug) == s.code && s.code.Some?
    ensures ClosesEveryAddress(Some(Rendered(Locked(sorted), notes, options)), s.slug)
  {
    assert s in multiset(sorted);
    LockedApart(sorted);
    CodeInOnly(Locked(sorted), s);
    FragmentLooked(sorted, notes, options, s.slug);
  }

  /** And a slug no locked site has reads as having no code and closing nothing. */
  lemma OtherSlugReadsNothing(sorted: seq<LockSite>, notes: Notes, options: LockOptions, asked: string)
    requires Admissible(multiset(sorted)) && Coded(Locked(sorted)) && PlainNotes(notes) && OneLine(options.doorPagesDir)
    requires forall s | s in sorted && s.lock :: s.slug != asked
    ensures InstalledCode(Some(Rendered(Locked(sorted), notes, options)), asked) == None
    ensures !ClosesEveryAddress(Some(Rendered(Locked(sorted), notes, options)), asked)
  {
    if IsLockSlug(asked) {
      forall i | 0 <= i < |Locked(sorted)|
        ensures Locked(sorted)[i].slug != asked
      {
        assert Locked(sorted)[i] in Locked(sorted);
      }
      NoCodeIn(Locked(sorted), asked);
      FragmentLooked(sorted, notes, options, asked);
    }
  }

  // --- order -----------------------------------------------------------------

  /**
   * No two slugs of locked sites tie. Texts that are no slugs may, as canonically
   * equivalent ones do under localeCompare.
   */
  ghost predicate Orders(leq: (string, string) -> bool) {
    forall a, b | IsLockSlug(a) && IsLockSlug(b) && leq(a, b) && leq(b, a) :: a == b
  }

  ghost predicate SortedBy(sites: seq<LockSite>, leq: (string, string) -> bool) {
    forall i, j | 0 <= i < j < |sites| :: leq(sites[i].slug, sites[j].slug)
  }

  lemma {:induction false} LockedSorted(sites: seq<LockSite>, leq: (string, string) -> bool)
    requires SortedBy(sites, leq)
    ensures SortedBy(Locked(sites), leq)
  {
    if sites != [] {
      var n := |sites| - 1;
      LockedSorted(sites[..n], leq);
      var front := Locked(sites[..n]);
      if sites[n].lock {
        forall i | 0 <= i < |front|
          ensures leq(front[i].slug, sites[n].slug)
        {
          assert front[i] in front;
          var k :| 0 <= k < n && sites[k] == front[i];
        }
      }
    }
  }

  lemma SameLast(a: seq<LockSite>, b: seq<LockSite>, leq: (string, string) -> bool)
    requires Orders(leq) && SortedBy(a, leq) && SortedBy(b, leq) && SlugsApart(a) && SlugsApart(b)
    requires (forall s :: s in a <==> s in b) && a != [] && forall s | s in a :: IsLockSlug(s.slug)
    ensures b != [] && a[|a| - 1] == b[|b| - 1]
  {
    var x := a[|a| - 1];
    assert x in b;
    var y := b[|b| - 1];
    assert y in a;
    var i :| 0 <= i < |a| && a[i] == y;
    var j :| 0 <= j < |b| && b[j] == x;
    assert i < |a| - 1 ==> leq(y.slug, x.slug);
    assert j < |b| - 1 ==> leq(x.slug, y.slug);
  }

  lemma SomeSite(sites: seq<LockSite>)
    requires sites != []
    ensures exists s :: s in sites
  {
    assert sites[0] in sites;
  }

  lemma {:induction false} SameSorted(a: seq<LockSite>, b: seq<LockSite>, leq: (string, string) -> bool)
    requires Orders(leq) && SortedBy(a, leq) && SortedBy(b, leq) && SlugsApart(a) && SlugsApart(b)
    requires (forall s :: s in a <==> s in b) && forall s | s in a :: IsLockSlug(s.slug)
    ensures a == b
  {
    if a == [] {
      if b != [] {
        SomeSite(b);
      }
    } else {
      SameLast(a, b, leq);
      var front, rest, last := a[..|a| - 1], b[..|b| - 1], a[|a| - 1];
      assert a == front + [last] && b == rest + [last];
      LastApart(front, last);
      LastApart(rest, last);
      forall s
        ensures s in front <==> s in rest
      {
        assert s in front ==> s in a;
        assert s in rest ==> s in b;
      }
      SameSorted(front, rest, leq);
    }
  }

  lemma LastApart(front: seq<LockSite>, last: LockSite)
    requires SlugsApart(front + [last])
    ensures last !in front
  {
    forall i | 0 <= i < |front|
      ensures front[i] != last
    {
      assert (front + [last])[i].slug != (front + [last])[|front|].slug;
    }
  }

  /** Two listings of the same sites, however the sort breaks ties, give the same success and the same text. */
  lemma TextIndependentOfOrder(a: seq<LockSite>, b: seq<LockSite>, notes: Notes, options: LockOptions,
      leq: (string, string) -> bool)
    requires multiset(a) == multiset(b) && Admissible(multiset(a))
    requires Orders(leq) && SortedBy(a, leq) && SortedBy(b, leq)
    requires Coded(Locked(a)) && Coded(Locked(b))
    ensures Rendered(Locked(a), notes, options) == Rendered(Locked(b), notes, options)
  {
    LockedApart(a);
    LockedApart(b);
    LockedSorted(a, leq);
    LockedSorted(b, leq);
    forall s
      ensures s in Locked(a) <==> s in Locked(b)
    {
      assert s in a <==> s in multiset(a);
      assert s in b <==> s in multiset(b);
    }
    SameSorted(Locked(a), Locked(b), leq);
  }
}
