/** The fragment of preview locks: generated all or not at all, and read back slug by slug. */
module Fragment {
  import opened Options
  import opened Text
  import opened DomainNames
  import opened Codes
  import opened Stanzas

  /** A site as the generator reads it: whether its manifest asks for a lock, and its code if that is text. */
  datatype LockSite = LockSite(slug: string, host: string, lock: bool, code: Option<string>)

  datatype Error =
    | CodeWithoutLock(slug: string)
    | UnusableSlug(slug: string)
    | NoValidCode(slug: string)
    | InvalidHost(slug: string, host: string)
    | Shared(slug: string, occupant: string, value: string)

  // --- which sites are admissible --------------------------------------------

  /** A lock exactly where a valid code is in force, and then a usable slug and host. */
  predicate Sound(s: LockSite) {
    (s.lock <==> IsValidCode(s.code)) && (s.lock ==> IsLockSlug(s.slug) && IsValidDomain(s.host))
  }

  predicate Shares(a: LockSite, b: LockSite) {
    a.slug == b.slug || a.host == b.host
  }

  /** Every site is sound, and no two locked ones share a slug or a host. */
  ghost predicate Admissible(sites: multiset<LockSite>) {
    && (forall s | s in sites :: Sound(s))
    && (forall a, b | a in sites && b in sites && a.lock && b.lock && Shares(a, b) :: a == b && sites[a] == 1)
  }

  function Locked(sites: seq<LockSite>): (r: seq<LockSite>)
    ensures forall s :: s in r <==> s in sites && s.lock
  {
    if sites == [] then []
    else
      var front, last := sites[..|sites| - 1], sites[|sites| - 1];
      assert sites == front + [last];
      Locked(front) + if last.lock then [last] else []
  }

  // --- the text --------------------------------------------------------------

  function StanzaOf(s: LockSite, notes: Notes, options: LockOptions): string
    requires s.code.Some?
  {
    Stanza(s.slug, s.host, s.code.value, notes, options)
  }

  ghost predicate Coded(sites: seq<LockSite>) {
    forall i | 0 <= i < |sites| :: sites[i].code.Some?
  }

  function StanzasOf(locked: seq<LockSite>, notes: Notes, options: LockOptions): seq<string>
    requires Coded(locked)
  {
    seq(|locked|, i requires 0 <= i < |locked| => StanzaOf(locked[i], notes, options))
  }

  function Rendered(locked: seq<LockSite>, notes: Notes, options: LockOptions): string
    requires Coded(locked)
  {
    Join([Join(notes.header, "\n")] + StanzasOf(locked, notes, options), "\n\n") + "\n"
  }

  // --- the generator ---------------------------------------------------------

  /** The cookies and hosts taken are those of the locked sites. */
  ghost predicate Seen(seen: map<string, string>, sites: seq<LockSite>) {
    && (forall v :: v in seen <==> Owned(sites, v))
    && (forall v | v in seen :: OwnedBy(sites, v, seen[v]))
  }

  ghost predicate OwnedBy(sites: seq<LockSite>, v: string, slug: string) {
    exists i | 0 <= i < |sites| :: sites[i].slug == slug && Owns(sites[i], v)
  }

  predicate Owns(s: LockSite, v: string) {
    s.lock && (v == CookieName(s.slug) || v == s.host)
  }

  predicate Owned(sites: seq<LockSite>, v: string) {
    exists s | s in sites :: Owns(s, v)
  }

  lemma OwnedByMore(sites: seq<LockSite>, s: LockSite, v: string)
    ensures Owned(sites + [s], v) <==> Owned(sites, v) || Owns(s, v)
  {
    if t :| t in sites && Owns(t, v) {
      assert t in sites + [s];
    }
    if Owns(s, v) {
      assert s in sites + [s];
    }
  }

  lemma CookieOfSlug(slug: string)
    requires IsLockSlug(slug)
    ensures CookieName(slug) == "lock_" + slug
  {
    assert Plain(slug) == slug;
  }

  /** A cookie is never taken for a host, nor for another slug's cookie. */
  lemma CookiesAndHosts(slug: string, other: string, host: string)
    requires IsLockSlug(slug) && IsLockSlug(other) && IsValidDomain(host)
    ensures CookieName(slug) != host
    ensures CookieName(slug) == CookieName(other) <==> slug == other
  {
    CookieOfSlug(slug);
    CookieOfSlug(other);
    assert CookieName(slug)[4] == '_' && |CookieName(slug)| > 4;
    assert |host| > 4 ==> IsDomainChar(host[4]);
    assert ("lock_" + slug)[5..] == slug && ("lock_" + other)[5..] == other;
  }

  lemma CoreNext(sites: seq<LockSite>, i: nat)
    requires i < |sites|
    ensures sites[..i + 1] == sites[..i] + [sites[i]]
    ensures multiset(sites[..i + 1]) == multiset(sites[..i]) + multiset{sites[i]}
    ensures Locked(sites[..i + 1]) == if sites[i].lock then Locked(sites[..i]) + [sites[i]] else Locked(sites[..i])
  {
    assert sites[..i + 1] == sites[..i] + [sites[i]];
    assert sites[..i + 1][..i] == sites[..i];
  }

  ghost predicate Alone(s: LockSite, sites: multiset<LockSite>) {
    forall t | t in sites && t.lock :: !Shares(s, t)
  }

  lemma AdmissibleNext(sites: multiset<LockSite>, s: LockSite)
    requires Admissible(sites) && Sound(s) && (s.lock ==> Alone(s, sites))
    ensures Admissible(sites + multiset{s})
  {
    var all := sites + multiset{s};
    forall a, b | a in all && b in all && a.lock && b.lock && Shares(a, b)
      ensures a == b && all[a] == 1
    {
      if a in sites && b in sites {
        assert a == b && sites[a] == 1;
      }
    }
  }

  lemma {:induction false} PrefixCounts(sites: seq<LockSite>, i: nat, s: LockSite)
    requires i < |sites|
    ensures multiset(sites[..i])[s] + (if sites[i] == s then 1 else 0) <= multiset(sites)[s]
  {
    assert sites == sites[..i] + [sites[i]] + sites[i + 1..];
  }

  lemma NotAdmissible(sites: seq<LockSite>, i: nat, t: LockSite)
    requires i < |sites| && t in sites[..i] && t.lock && sites[i].lock && Shares(sites[i], t)
    ensures !Admissible(multiset(sites))
  {
    PrefixCounts(sites, i, t);
    PrefixCounts(sites, i, sites[i]);
  }

  lemma NotSound(sites: seq<LockSite>, i: nat)
    requires i < |sites| && !Sound(sites[i])
    ensures !Admissible(multiset(sites))
  {
    assert sites[i] in multiset(sites);
  }

  lemma CookieTaken(sites: seq<LockSite>, i: nat)
    requires i < |sites| && Admissible(multiset(sites[..i])) && Sound(sites[i]) && sites[i].lock
    requires Owned(sites[..i], CookieName(sites[i].slug))
    ensures !Admissible(multiset(sites))
  {
    var s := sites[i];
    var t :| t in sites[..i] && Owns(t, CookieName(s.slug));
    assert t in multiset(sites[..i]);
    CookiesAndHosts(s.slug, t.slug, t.host);
    NotAdmissible(sites, i, t);
  }

  lemma HostTaken(sites: seq<LockSite>, i: nat)
    requires i < |sites| && Admissible(multiset(sites[..i])) && Sound(sites[i]) && sites[i].lock
    requires Owned(sites[..i], sites[i].host)
    ensures !Admissible(multiset(sites))
  {
    var s := sites[i];
    var t :| t in sites[..i] && Owns(t, s.host);
    assert t in multiset(sites[..i]);
    CookiesAndHosts(t.slug, t.slug, s.host);
    NotAdmissible(sites, i, t);
  }

  lemma NothingTaken(sites: seq<LockSite>, s: LockSite)
    requires !Owned(sites, CookieName(s.slug)) && !Owned(sites, s.host)
    ensures Alone(s, multiset(sites))
  {
    forall t | t in multiset(sites) && t.lock
      ensures !Shares(s, t)
    {
      assert t in sites;
      assert !Owns(t, CookieName(s.slug)) && !Owns(t, s.host);
    }
  }

  /** What a taken cookie or host means. */
  lemma TakenMeansShared(seen: map<string, string>, sites: seq<LockSite>, i: nat)
    requires i < |sites| && Seen(seen, sites[..i]) && Admissible(multiset(sites[..i])) && Sound(sites[i])
      && sites[i].lock
    ensures CookieName(sites[i].slug) in seen || sites[i].host in seen ==> !Admissible(multiset(sites))
    ensures CookieName(sites[i].slug) !in seen && sites[i].host !in seen ==> Alone(sites[i], multiset(sites[..i]))
  {
    if CookieName(sites[i].slug) in seen {
      CookieTaken(sites, i);
    } else if sites[i].host in seen {
      HostTaken(sites, i);
    } else {
      NothingTaken(sites[..i], sites[i]);
    }
  }

  lemma SeenNext(seen: map<string, string>, sites: seq<LockSite>, s: LockSite, more: map<string, string>)
    requires Seen(seen, sites) && s.lock
    requires more == seen[CookieName(s.slug) := s.slug][s.host := s.slug]
    ensures Seen(more, sites + [s])
  {
    forall v
      ensures v in more <==> Owned(sites + [s], v)
    {
      OwnedByMore(sites, s, v);
    }
    forall v | v in more
      ensures OwnedBy(sites + [s], v, more[v])
    {
      if Owns(s, v) {
        assert (sites + [s])[|sites|] == s;
      } else {
        OwnedBefore(sites, s, v, seen[v]);
      }
    }
  }

  lemma OwnedBefore(sites: seq<LockSite>, s: LockSite, v: string, slug: string)
    requires OwnedBy(sites, v, slug)
    ensures OwnedBy(sites + [s], v, slug)
  {
    var i :| 0 <= i < |sites| && sites[i].slug == slug && Owns(sites[i], v);
    assert (sites + [s])[i] == sites[i];
  }

  lemma SharedWithEarlier(seen: map<string, string>, sites: seq<LockSite>, k: nat, e: Error)
    requires k < |sites| && Seen(seen, sites[..k]) && sites[k].lock
    requires e.Shared? && e.value in seen && e == Shared(sites[k].slug, seen[e.value], e.value)
    requires e.value == CookieName(sites[k].slug) || e.value == sites[k].host
    ensures TrueOfTwo(e, sites)
  {
    var i :| 0 <= i < k && sites[..k][i].slug == e.occupant && Owns(sites[..k][i], e.value);
    assert sites[i] == sites[..k][i] && Owns(sites[k], e.value);
  }

  lemma SkippedNext(seen: map<string, string>, sites: seq<LockSite>, s: LockSite)
    requires Admissible(multiset(sites)) && Seen(seen, sites) && Sound(s) && !s.lock
    ensures Admissible(multiset(sites) + multiset{s}) && Seen(seen, sites + [s])
  {
    AdmissibleNext(multiset(sites), s);
    forall v
      ensures v in seen <==> Owned(sites + [s], v)
    {
      OwnedByMore(sites, s, v);
    }
    forall v | v in seen
      ensures OwnedBy(sites + [s], v, seen[v])
    {
      OwnedBefore(sites, s, v, seen[v]);
    }
  }

  lemma KeptNext(locked: seq<LockSite>, s: LockSite, notes: Notes, options: LockOptions)
    requires Coded(locked) && s.code.Some?
    ensures Coded(locked + [s])
    ensures StanzasOf(locked + [s], notes, options) == StanzasOf(locked, notes, options) + [StanzaOf(s, notes, options)]
  {
  }

  /** The cookie, then the host, claimed for a slug; the occupant of the first one that is taken. */
  method Claim(seen: map<string, string>, slug: string, host: string) returns (r: Result<map<string, string>, Error>)
    requires CookieName(slug) != host
    ensures r.Ok? <==> CookieName(slug) !in seen && host !in seen
    ensures r.Ok? ==> r.value == seen[CookieName(slug) := slug][host := slug]
    ensures r.Err? ==>
      && r.error.Shared? && r.error.value in seen && r.error == Shared(slug, seen[r.error.value], r.error.value)
      && (r.error.value == CookieName(slug) || r.error.value == host)
  {
    var values := [CookieName(slug), host];
    var taken := seen;
    for k := 0 to 2
      invariant taken ==
        if k == 0 then seen else if k == 1 then seen[values[0] := slug] else seen[values[0] := slug][values[1] := slug]
      invariant forall j | 0 <= j < k :: values[j] !in seen
    {
      if values[k] in taken {
        return Err(Shared(slug, taken[values[k]], values[k]));
      }
      taken := taken[values[k] := slug];
    }
    return Ok(taken);
  }

  /** The error is true of the site. */
  predicate TrueOf(e: Error, s: LockSite) {
    match e
    case CodeWithoutLock(slug) => s.slug == slug && !s.lock && IsValidCode(s.code)
    case UnusableSlug(slug) => s.slug == slug && s.lock && !IsLockSlug(slug)
    case NoValidCode(slug) => s.slug == slug && s.lock && !IsValidCode(s.code)
    case InvalidHost(slug, host) => s.slug == slug && s.host == host && s.lock && !IsValidDomain(host)
    case Shared(_, _, _) => false
  }

  /** The error names two sites of the list and the cookie or host that is both of theirs. */
  ghost predicate TrueOfTwo(e: Error, sites: seq<LockSite>) {
    && e.Shared?
    && exists i, j | 0 <= i < j < |sites| ::
         sites[i].slug == e.occupant && sites[j].slug == e.slug && Owns(sites[i], e.value) && Owns(sites[j], e.value)
  }

  /** One site of the loop: nothing to keep, or its stanza, or the reason to stop. */
  method Check(s: LockSite) returns (r: Option<Error>)
    ensures r.None? <==> Sound(s)
    ensures r.Some? ==> TrueOf(r.value, s)
  {
    if !s.lock {
      return if IsValidCode(s.code) then Some(CodeWithoutLock(s.slug)) else None;
    }
    if !IsLockSlug(s.slug) {
      return Some(UnusableSlug(s.slug));
    }
    if !IsValidCode(s.code) {
      return Some(NoValidCode(s.slug));
    }
    if !IsValidDomain(s.host) {
      return Some(InvalidHost(s.slug, s.host));
    }
    return None;
  }

  /**
   * The generator over the sites in the order sorting gave them: it succeeds exactly
   * when they are admissible, and renders the locked ones in that order.
   */
  method BuildFragment(sorted: seq<LockSite>, notes: Notes, options: LockOptions) returns (r: Result<string, Error>)
    ensures r.Ok? <==> Admissible(multiset(sorted))
    ensures r.Ok? ==> Coded(Locked(sorted)) && r.value == Rendered(Locked(sorted), notes, options)
    ensures r.Err? ==> (exists s | s in sorted :: TrueOf(r.error, s)) || TrueOfTwo(r.error, sorted)
  {
    var kept: seq<string> := [];
    var seen: map<string, string> := map[];
    for i := 0 to |sorted|
      invariant Admissible(multiset(sorted[..i])) && Seen(seen, sorted[..i])
      invariant Coded(Locked(sorted[..i])) && kept == StanzasOf(Locked(sorted[..i]), notes, options)
    {
      var site := sorted[i];
      CoreNext(sorted, i);
      var wrong := Check(site);
      if wrong.Some? {
        NotSound(sorted, i);
        return Err(wrong.value);
      }
      if !site.lock {
        SkippedNext(seen, sorted[..i], site);
        continue;
      }
      CookiesAndHosts(site.slug, site.slug, site.host);
      TakenMeansShared(seen, sorted, i);
      var claimed := Claim(seen, site.slug, site.host);
      if claimed.Err? {
        SharedWithEarlier(seen, sorted, i, claimed.error);
        return Err(claimed.error);
      }
      SeenNext(seen, sorted[..i], site, claimed.value);
      AdmissibleNext(multiset(sorted[..i]), site);
      KeptNext(Locked(sorted[..i]), site, notes, options);
      seen := claimed.value;
      kept := kept + [StanzaOf(site, notes, options)];
    }
    assert sorted[..|sorted|] == sorted;
    return Ok(Join([Join(notes.header, "\n")] + kept, "\n\n") + "\n");
  }
}
