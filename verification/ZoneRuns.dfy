/** What the zone's decisions are over whole runs of questions. */
module ZoneRuns {
  import opened Options
  import opened CachedFiles
  import opened ZoneNames
  import opened Zone

  function Reached(cfg: Config, asks: seq<Ask>): State
    decreases asks, 1
  {
    if asks == [] then OPENED else Outcomes(cfg, asks).state
  }

  /** What the last question of a run leaves. */
  function Outcomes(cfg: Config, asks: seq<Ask>): Outcome
    requires asks != []
    decreases asks, 0
  {
    Decided(cfg, Reached(cfg, asks[..|asks| - 1]), asks[|asks| - 1])
  }

  /** What the question at `i` left. */
  function OutcomeAt(cfg: Config, asks: seq<Ask>, i: nat): Outcome
    requires i < |asks|
  {
    Decided(cfg, Reached(cfg, asks[..i]), asks[i])
  }

  lemma ReachedNext(cfg: Config, asks: seq<Ask>, i: nat)
    requires i < |asks|
    ensures Reached(cfg, asks[..i + 1]) == OutcomeAt(cfg, asks, i).state
  {
    assert asks[..i + 1][..i] == asks[..i];
  }

  // --- the list and what is known --------------------------------------------

  ghost predicate KnownWithList(s: State) {
    && (s.known.None? <==> s.names.neverRead)
    && (s.names.neverRead ==> s.names.value == {})
  }

  /** In every reachable state nothing is known exactly until the list is first read. */
  lemma {:induction false} KnownOnceRead(cfg: Config, asks: seq<Ask>)
    ensures KnownWithList(Reached(cfg, asks))
  {
    if asks != [] {
      KnownOnceRead(cfg, asks[..|asks| - 1]);
    }
  }

  /** So a label found in the list always meets a set of known ones: the third reading is never made. */
  lemma ThirdReadingNeverMade(cfg: Config, asks: seq<Ask>, site: string, ask: Ask)
    requires site in Looked(cfg, PolicyRead(cfg, Reached(cfg, asks), ask), site, ask).names.value
    ensures var u := Looked(cfg, PolicyRead(cfg, Reached(cfg, asks), ask), site, ask);
      MadeKnown(cfg, u, ask) == u
  {
    KnownOnceRead(cfg, asks);
  }

  /** The labels a reading that succeeds gives. */
  function LabelsRead(disk: Reading): set<string> {
    if disk.Content? then ParsedNames(disk.text) else {}
  }

  /**
   * The list first read becomes, whole, what is known: the file as the first
   * look finds it, or the second when the first fails. With a second window
   * above zero it is also the list the question is answered from, and counts
   * for nothing. Without, the second look may find a longer list, and the label
   * asked for then counts as new.
   */
  lemma FirstListIsKnown(cfg: Config, asks: seq<Ask>, i: nat)
    requires i < |asks|
    requires Reached(cfg, asks[..i]).known.None? && Reached(cfg, asks[..i + 1]).known.Some?
    ensures InZone(cfg, asks[i].host) && asks[i].host != cfg.zone
    ensures Reached(cfg, asks[..i + 1]).known.value ==
      LabelsRead(if asks[i].first.Failed? then asks[i].second else asks[i].first)
      + if OutcomeAt(cfg, asks, i).added then {LabelOf(cfg, asks[i].host)} else {}
    ensures cfg.miss > 0 ==>
      Reached(cfg, asks[..i + 1]).known.value == Reached(cfg, asks[..i + 1]).names.value
        && !OutcomeAt(cfg, asks, i).added
  {
    ReachedNext(cfg, asks, i);
    KnownOnceRead(cfg, asks[..i]);
  }

  ghost predicate Knows(s: State, site: string) {
    s.known.Some? && site in s.known.value
  }

  lemma {:induction false} KnownStays(cfg: Config, asks: seq<Ask>, i: nat, j: nat, site: string)
    requires i <= j <= |asks| && Knows(Reached(cfg, asks[..i]), site)
    ensures Knows(Reached(cfg, asks[..j]), site)
  {
    if i < j {
      KnownStays(cfg, asks, i, j - 1, site);
      ReachedNext(cfg, asks, j - 1);
    }
  }

  predicate Allowed(o: Outcome) {
    o.decision.Some? && o.decision.value.allowed
  }

  predicate AsksSite(cfg: Config, host: string) {
    InZone(cfg, host) && host != cfg.zone && host != "www." + cfg.zone
  }

  /** The policy and the list, as the question left them, are what an allowance needs. */
  predicate Served(cfg: Config, o: Outcome, host: string)
    requires InZone(cfg, host) && host != cfg.zone
  {
    o.state.policy.value && ZoneLabel(LabelOf(cfg, host)) && LabelOf(cfg, host) in o.state.names.value
  }

  /**
   * A label known at some moment, from the first list or by an allowance, is allowed
   * ever after exactly when it is listed under an on-demand policy, whatever the cap.
   */
  lemma KnownIsAllowed(cfg: Config, asks: seq<Ask>, i: nat, j: nat)
    requires i <= j < |asks| && AsksSite(cfg, asks[j].host)
      && Knows(Reached(cfg, asks[..i]), LabelOf(cfg, asks[j].host))
    ensures Allowed(OutcomeAt(cfg, asks, j)) <==> Served(cfg, OutcomeAt(cfg, asks, j), asks[j].host)
    ensures !OutcomeAt(cfg, asks, j).added
  {
    KnownStays(cfg, asks, i, j, LabelOf(cfg, asks[j].host));
  }

  lemma AllowedIsKnown(cfg: Config, asks: seq<Ask>, i: nat)
    requires i < |asks| && AsksSite(cfg, asks[i].host) && Allowed(OutcomeAt(cfg, asks, i))
    ensures Knows(Reached(cfg, asks[..i + 1]), LabelOf(cfg, asks[i].host))
  {
    ReachedNext(cfg, asks, i);
  }

  /** A name once allowed is allowed at every later question for it while it is listed under an on-demand policy. */
  lemma OnceAllowedStaysAllowed(cfg: Config, asks: seq<Ask>, i: nat, j: nat)
    requires i < j < |asks| && asks[i].host == asks[j].host && Allowed(OutcomeAt(cfg, asks, i))
    ensures AsksSite(cfg, asks[j].host) ==>
      (Allowed(OutcomeAt(cfg, asks, j)) <==> Served(cfg, OutcomeAt(cfg, asks, j), asks[j].host))
    ensures !AsksSite(cfg, asks[j].host) ==> Allowed(OutcomeAt(cfg, asks, j))
  {
    if AsksSite(cfg, asks[j].host) {
      AllowedIsKnown(cfg, asks, i);
      KnownIsAllowed(cfg, asks, i + 1, j);
    }
  }

  // --- what the two files say ------------------------------------------------

  /** The readings of the list a question makes. */
  function NameCallsOf(cfg: Config, s: State, ask: Ask): seq<Call> {
    if !AsksSite(cfg, ask.host) then []
    else
      var t := PolicyRead(cfg, s, ask);
      var site := LabelOf(cfg, ask.host);
      if !t.policy.value || !ZoneLabel(site) then []
      else
        [Call(ask.now, cfg.ttl, ask.first)]
        + (if site in Listed(t, ask.now, cfg.ttl, ask.first).names.value then []
          else [Call(ask.now, cfg.miss, ask.second)])
  }

  function NameCalls(cfg: Config, asks: seq<Ask>): seq<Call> {
    if asks == [] then []
    else
      var front := asks[..|asks| - 1];
      NameCalls(cfg, front) + NameCallsOf(cfg, Reached(cfg, front), asks[|asks| - 1])
  }

  lemma AfterNext<T>(parse: string -> T, absent: T, calls: seq<Call>, c: Call)
    ensures After(parse, absent, calls + [c]) ==
      Got(After(parse, absent, calls), parse, absent, c.now, c.window, c.disk)
  {
    assert (calls + [c])[..|calls|] == calls;
  }

  function GotBy(c: Cached<set<string>>, call: Call): Cached<set<string>> {
    Got(c, ParsedNames, {}, call.now, call.window, call.disk)
  }

  lemma NamesAfterAsk(cfg: Config, s: State, ask: Ask)
    requires KnownWithList(s)
    ensures var names, calls := Decided(cfg, s, ask).state.names, NameCallsOf(cfg, s, ask);
      names == if |calls| == 0 then s.names else if |calls| == 1 then GotBy(s.names, calls[0])
        else GotBy(GotBy(s.names, calls[0]), calls[1])
  {
  }

  /** The list in every reachable state is the cache of the readings made. */
  lemma {:induction false} ListIsCached(cfg: Config, asks: seq<Ask>)
    ensures Reached(cfg, asks).names == After(ParsedNames, {}, NameCalls(cfg, asks))
  {
    if asks != [] {
      var front, ask := asks[..|asks| - 1], asks[|asks| - 1];
      ListIsCached(cfg, front);
      KnownOnceRead(cfg, front);
      NamesAfterAsk(cfg, Reached(cfg, front), ask);
      FollowedBy(NameCalls(cfg, front), NameCallsOf(cfg, Reached(cfg, front), ask));
    }
  }

  lemma FollowedBy(calls: seq<Call>, more: seq<Call>)
    requires |more| <= 2
    ensures var c := After(ParsedNames, {}, calls);
      After(ParsedNames, {}, calls + more) == if |more| == 0 then c else if |more| == 1 then GotBy(c, more[0])
        else GotBy(GotBy(c, more[0]), more[1])
  {
    if more == [] {
      assert calls + more == calls;
    } else if |more| == 1 {
      assert more == [more[0]];
      AfterNext(ParsedNames, {}, calls, more[0]);
    } else {
      assert calls + more == (calls + [more[0]]) + [more[1]];
      AfterNext(ParsedNames, {}, calls, more[0]);
      AfterNext(ParsedNames, {}, calls + [more[0]], more[1]);
    }
  }

  /**
   * Besides the zone and its www, only labels of the last list read without failure
   * are ever allowed, and each is one label.
   */
  lemma OnlyListedAllowed(cfg: Config, asks: seq<Ask>)
    requires asks != [] && Allowed(Outcomes(cfg, asks))
    ensures var host := asks[|asks| - 1].host;
      || host == cfg.zone
      || host == "www." + cfg.zone
      || (&& AsksSite(cfg, host) && ZoneLabel(LabelOf(cfg, host)) && host == LabelOf(cfg, host) + "." + cfg.zone
          && LabelOf(cfg, host) in Meaning(LastGood(Attempts(ParsedNames, {}, NameCalls(cfg, asks))), ParsedNames, {}))
  {
    var front, ask := asks[..|asks| - 1], asks[|asks| - 1];
    ListIsCached(cfg, asks);
    ValueIsLastGoodReading(ParsedNames, {}, NameCalls(cfg, asks));
    KnownOnceRead(cfg, front);
    AllowedNeeds(cfg, Reached(cfg, front), ask);
    if AsksSite(cfg, ask.host) {
      LabelAndZone(cfg, ask.host);
    }
  }

  lemma AllowedNeeds(cfg: Config, s: State, ask: Ask)
    requires KnownWithList(s) && Allowed(Decided(cfg, s, ask))
    ensures ask.host == cfg.zone || ask.host == "www." + cfg.zone ||
      (AsksSite(cfg, ask.host) && ZoneLabel(LabelOf(cfg, ask.host))
        && LabelOf(cfg, ask.host) in Decided(cfg, s, ask).state.names.value)
  {
  }

  lemma LabelAndZone(cfg: Config, host: string)
    requires AsksSite(cfg, host)
    ensures host == LabelOf(cfg, host) + "." + cfg.zone
  {
    var n := |host| - (|cfg.zone| + 1);
    assert host[n..] == "." + cfg.zone;
    assert host == host[..n] + host[n..];
    assert host[..n] + ("." + cfg.zone) == host[..n] + "." + cfg.zone;
  }

  // --- the cap ---------------------------------------------------------------

  ghost predicate Ordered(asks: seq<Ask>) {
    forall i, j | 0 <= i <= j < |asks| :: asks[i].now <= asks[j].now
  }

  /** When each name new to the zone was let in. */
  function Allowances(cfg: Config, asks: seq<Ask>): seq<int> {
    if asks == [] then []
    else
      Allowances(cfg, asks[..|asks| - 1]) + if Outcomes(cfg, asks).added then [asks[|asks| - 1].now] else []
  }

  ghost predicate Sorted(times: seq<int>) {
    forall i, j | 0 <= i <= j < |times| :: times[i] <= times[j]
  }

  /** `times` is what is left of `history` once some times at least a window old are dropped from its front. */
  ghost predicate TailFrom(times: seq<int>, history: seq<int>, k: nat, now: int, window: int) {
    && k <= |history| && times == history[k..]
    && forall i | 0 <= i < k :: now - history[i] >= window
  }

  lemma {:induction false} RecentIsTail(times: seq<int>, now: int, window: int) returns (k: nat)
    requires Sorted(times)
    ensures TailFrom(Recent(times, now, window), times, k, now, window)
  {
    if times == [] {
      k := 0;
    } else {
      var front := times[..|times| - 1];
      k := RecentIsTail(front, now, window);
      if now - times[|times| - 1] >= window {
        RecentOfOld(times, now, window);
        k := |times|;
      } else {
        TailSnoc(front, times[|times| - 1], k);
        assert times == front + [times[|times| - 1]];
      }
    }
  }

  lemma TailSnoc(times: seq<int>, x: int, k: nat)
    requires k <= |times|
    ensures (times + [x])[k..] == times[k..] + [x]
  {
  }

  lemma {:induction false} RecentOfOld(times: seq<int>, now: int, window: int)
    requires forall i | 0 <= i < |times| :: now - times[i] >= window
    ensures Recent(times, now, window) == []
  {
    if times != [] {
      RecentOfOld(times[..|times| - 1], now, window);
    }
  }

  /** What a question does to the times kept. */
  lemma StepOnTimes(cfg: Config, s: State, ask: Ask)
    ensures var o, recent := Decided(cfg, s, ask), Recent(s.allowedNew, ask.now, cfg.window);
      if o.added then o.state.allowedNew == recent + [ask.now] && |recent| < cfg.cap
      else o.state.allowedNew == s.allowedNew || o.state.allowedNew == recent
  {
  }

  lemma {:induction false} AllowancesSorted(cfg: Config, asks: seq<Ask>)
    requires Ordered(asks)
    ensures Sorted(Allowances(cfg, asks))
    ensures asks != [] ==> forall i | 0 <= i < |Allowances(cfg, asks)| ::
      Allowances(cfg, asks)[i] <= asks[|asks| - 1].now
  {
    if asks != [] {
      AllowancesSorted(cfg, asks[..|asks| - 1]);
    }
  }

  lemma TailOfTail(times: seq<int>, history: seq<int>, k: nat, recent: seq<int>, m: nat, before: int, now: int,
      window: int)
    requires TailFrom(times, history, k, before, window) && TailFrom(recent, times, m, now, window) && before <= now
    ensures TailFrom(recent, history, k + m, now, window)
  {
    forall i | 0 <= i < k + m
      ensures now - history[i] >= window
    {
      if i >= k {
        assert history[i] == times[i - k];
      }
    }
  }

  /** Whether pruned, pruned and added to, or left alone, the times kept stay a tail of all the allowances. */
  lemma TailNext(times: seq<int>, history: seq<int>, k: nat, at: int, now: int, window: int, next: seq<int>,
      added: bool)
    returns (m: nat)
    requires TailFrom(times, history, k, at, window) && Sorted(times) && at <= now
    requires if added then next == Recent(times, at, window) + [at]
      else next == times || next == Recent(times, at, window)
    ensures TailFrom(next, if added then history + [at] else history, m, now, window)
  {
    var recent := Recent(times, at, window);
    m := RecentIsTail(times, at, window);
    TailOfTail(times, history, k, recent, m, at, at, window);
    if added {
      m := k + m;
      TailSnoc(history, at, m);
    } else {
      m := if next == times then k else k + m;
    }
  }

  /** The times kept are the last of all the allowances; those dropped are at least a window old. */
  lemma {:induction false} KeptTimesAreTail(cfg: Config, asks: seq<Ask>, now: int) returns (k: nat)
    requires Ordered(asks) && forall i | 0 <= i < |asks| :: asks[i].now <= now
    ensures TailFrom(Reached(cfg, asks).allowedNew, Allowances(cfg, asks), k, now, cfg.window)
  {
    if asks == [] {
      k := 0;
    } else {
      var front, ask := asks[..|asks| - 1], asks[|asks| - 1];
      var s, history := Reached(cfg, front), Allowances(cfg, front);
      k := KeptTimesAreTail(cfg, front, ask.now);
      AllowancesSorted(cfg, front);
      StepOnTimes(cfg, s, ask);
      var o := Outcomes(cfg, asks);
      k := TailNext(s.allowedNew, history, k, ask.now, now, cfg.window, o.state.allowedNew, o.added);
      assert history + [] == history;
    }
  }

  /**
   * Any cap + 1 consecutive names new to the zone take at least a window, however long
   * the list of times goes unpruned.
   */
  lemma {:induction false} CapPlusOneSpanAWindow(cfg: Config, asks: seq<Ask>, i: nat)
    requires Ordered(asks) && i + cfg.cap < |Allowances(cfg, asks)|
    ensures Allowances(cfg, asks)[i + cfg.cap] - Allowances(cfg, asks)[i] >= cfg.window
  {
    var front, ask := asks[..|asks| - 1], asks[|asks| - 1];
    var s, history := Reached(cfg, front), Allowances(cfg, front);
    if i + cfg.cap < |history| {
      CapPlusOneSpanAWindow(cfg, front, i);
    } else {
      var k := KeptTimesAreTail(cfg, front, ask.now);
      AllowancesSorted(cfg, front);
      StepOnTimes(cfg, s, ask);
      var m := RecentIsTail(s.allowedNew, ask.now, cfg.window);
      TailOfTail(s.allowedNew, history, k, Recent(s.allowedNew, ask.now, cfg.window), m, ask.now, ask.now, cfg.window);
      assert i < k + m;
    }
  }

  /** So less than a window never holds more than the cap. */
  lemma NoWindowHoldsMoreThanTheCap(cfg: Config, asks: seq<Ask>, i: nat, j: nat)
    requires Ordered(asks) && i <= j < |Allowances(cfg, asks)|
    requires Allowances(cfg, asks)[j] - Allowances(cfg, asks)[i] < cfg.window
    ensures j - i + 1 <= cfg.cap
  {
    if j - i >= cfg.cap {
      CapPlusOneSpanAWindow(cfg, asks, i);
      AllowancesSorted(cfg, asks);
    }
  }

  lemma {:induction false} RecentAreRecent(times: seq<int>, now: int, window: int)
    ensures forall i | 0 <= i < |Recent(times, now, window)| :: now - Recent(times, now, window)[i] < window
  {
    if times != [] {
      RecentAreRecent(times[..|times| - 1], now, window);
    }
  }

  lemma StepOnCap(cfg: Config, s: State, ask: Ask)
    requires Decided(cfg, s, ask).decision == Some(Decision(false, CapReached))
    ensures |Recent(s.allowedNew, ask.now, cfg.window)| >= cfg.cap
  {
  }

  /** And no name is refused for the cap unless that many were let in less than a window ago. */
  lemma CapRefusesOnlyWhenReached(cfg: Config, asks: seq<Ask>)
    requires Ordered(asks) && asks != [] && Outcomes(cfg, asks).decision == Some(Decision(false, CapReached))
    ensures var history := Allowances(cfg, asks[..|asks| - 1]);
      && cfg.cap <= |history|
      && (cfg.cap > 0 ==> asks[|asks| - 1].now - history[|history| - cfg.cap] < cfg.window)
  {
    var front, ask := asks[..|asks| - 1], asks[|asks| - 1];
    var times, history := Reached(cfg, front).allowedNew, Allowances(cfg, front);
    var recent := Recent(times, ask.now, cfg.window);
    StepOnCap(cfg, Reached(cfg, front), ask);
    AllowancesSorted(cfg, front);
    var k := KeptTimesAreTail(cfg, front, ask.now);
    var m := RecentIsTail(times, ask.now, cfg.window);
    TailOfTail(times, history, k, recent, m, ask.now, ask.now, cfg.window);
    RecentAreRecent(times, ask.now, cfg.window);
    if cfg.cap > 0 {
      assert recent[|recent| - cfg.cap] == history[|history| - cfg.cap];
    }
  }

  lemma StepOnMiss(cfg: Config, s: State, ask: Ask)
    requires KnownWithList(s) && Decided(cfg, s, ask).decision == Some(Decision(false, NoSuchSite))
    ensures var names := Decided(cfg, s, ask).state.names;
      names.lastRead == ask.now || (!names.neverRead && ask.now - names.lastRead < cfg.miss)
  {
  }

  /**
   * A name is refused as no site's only on a list tried at that very question, or less
   * than the short window before.
   */
  lemma RefusedOnlyOnAFreshList(cfg: Config, asks: seq<Ask>)
    requires asks != [] && Outcomes(cfg, asks).decision == Some(Decision(false, NoSuchSite))
    ensures var tries, now := Attempts(ParsedNames, {}, NameCalls(cfg, asks)), asks[|asks| - 1].now;
      tries != [] && (tries[|tries| - 1].now == now || now - tries[|tries| - 1].now < cfg.miss)
  {
    MissedOnAFreshTry(cfg, asks);
    ListIsCached(cfg, asks);
    LastTry(NameCalls(cfg, asks));
  }

  lemma MissedOnAFreshTry(cfg: Config, asks: seq<Ask>)
    requires asks != [] && Outcomes(cfg, asks).decision == Some(Decision(false, NoSuchSite))
    ensures NameCalls(cfg, asks) != []
    ensures var names, now := Reached(cfg, asks).names, asks[|asks| - 1].now;
      names.lastRead == now || now - names.lastRead < cfg.miss
  {
    var front, ask := asks[..|asks| - 1], asks[|asks| - 1];
    KnownOnceRead(cfg, front);
    StepOnMiss(cfg, Reached(cfg, front), ask);
    NoSiteIsLookedFor(cfg, Reached(cfg, front), ask);
  }

  lemma LastTry(calls: seq<Call>)
    requires calls != []
    ensures var tries := Attempts(ParsedNames, {}, calls);
      tries != [] && After(ParsedNames, {}, calls).lastRead == tries[|tries| - 1].now
  {
    LastReadIsLastAttempt(ParsedNames, {}, calls);
  }

  lemma NoSiteIsLookedFor(cfg: Config, s: State, ask: Ask)
    requires Decided(cfg, s, ask).decision == Some(Decision(false, NoSuchSite))
    ensures NameCallsOf(cfg, s, ask) != []
  {
  }

  // --- the cap is said once --------------------------------------------------

  lemma StepOnSaid(cfg: Config, s: State, ask: Ask)
    ensures var o := Decided(cfg, s, ask);
      && (o.said ==> !s.capSaid && o.state.capSaid)
      && (s.capSaid && !o.added ==> o.state.capSaid)
  {
  }

  lemma SaidAt(cfg: Config, asks: seq<Ask>, k: nat)
    requires k < |asks|
    ensures var o, before, after := OutcomeAt(cfg, asks, k), Reached(cfg, asks[..k]), Reached(cfg, asks[..k + 1]);
      && (o.said ==> !before.capSaid && after.capSaid)
      && (before.capSaid && !o.added ==> after.capSaid)
  {
    ReachedNext(cfg, asks, k);
    StepOnSaid(cfg, Reached(cfg, asks[..k]), asks[k]);
  }

  lemma NotAddedStaysSaid(cfg: Config, asks: seq<Ask>, k: nat)
    requires k < |asks| && Reached(cfg, asks[..k]).capSaid && !OutcomeAt(cfg, asks, k).added
    ensures Reached(cfg, asks[..k + 1]).capSaid
  {
    SaidAt(cfg, asks, k);
  }

  lemma {:induction false} SaidUntilAdded(cfg: Config, asks: seq<Ask>, i: nat, j: nat)
    requires i < j <= |asks| && OutcomeAt(cfg, asks, i).said
    requires forall k | i < k < j :: !OutcomeAt(cfg, asks, k).added
    ensures Reached(cfg, asks[..j]).capSaid
  {
    if i == j - 1 {
      SaidAt(cfg, asks, i);
    } else {
      SaidUntilAdded(cfg, asks, i, j - 1);
      NotAddedStaysSaid(cfg, asks, j - 1);
    }
  }

  /** Between two moments the cap is said, a new name was let in. */
  lemma CapSaidOnce(cfg: Config, asks: seq<Ask>, i: nat, j: nat)
    requires i < j < |asks| && OutcomeAt(cfg, asks, i).said && OutcomeAt(cfg, asks, j).said
    ensures exists k | i < k < j :: OutcomeAt(cfg, asks, k).added
  {
    if forall k | i < k < j :: !OutcomeAt(cfg, asks, k).added {
      SaidUntilAdded(cfg, asks, i, j);
      SaidAt(cfg, asks, j);
    }
  }
}
