/**
 * Which questions are answered yes, told from the history alone: the readings
 * made of the two files, the questions answered yes before, and when each name
 * new to the zone was let in.
 */
module ZoneAllowed {
  import opened Options
  import opened Text
  import opened CachedFiles
  import opened ZoneNames
  import opened Zone
  import opened ZoneRuns

  // --- the two files ---------------------------------------------------------

  function PolicyCalls(cfg: Config, asks: seq<Ask>): seq<Call> {
    if asks == [] then []
    else
      var last := asks[|asks| - 1];
      PolicyCalls(cfg, asks[..|asks| - 1])
      + if AsksSite(cfg, last.host) then [Call(last.now, cfg.ttl, last.policy)] else []
  }

  lemma {:induction false} PolicyIsCached(cfg: Config, asks: seq<Ask>)
    ensures Reached(cfg, asks).policy == After(OnDemandPolicy, false, PolicyCalls(cfg, asks))
  {
    if asks != [] {
      var front, last := asks[..|asks| - 1], asks[|asks| - 1];
      PolicyIsCached(cfg, front);
      PolicyStep(cfg, Reached(cfg, front), last);
      AfterNext(OnDemandPolicy, false, PolicyCalls(cfg, front), Call(last.now, cfg.ttl, last.policy));
      assert PolicyCalls(cfg, front) + [] == PolicyCalls(cfg, front);
    }
  }

  lemma PolicyStep(cfg: Config, s: State, ask: Ask)
    ensures Decided(cfg, s, ask).state.policy ==
      if AsksSite(cfg, ask.host) then Got(s.policy, OnDemandPolicy, false, ask.now, cfg.ttl, ask.policy) else s.policy
  {
  }

  /** The last policy read without failure, at the last question or before it, turns on-demand issuance on. */
  ghost predicate OnDemand(cfg: Config, asks: seq<Ask>) {
    Meaning(LastGood(Attempts(OnDemandPolicy, false, PolicyCalls(cfg, asks))), OnDemandPolicy, false)
  }

  /** The last list read without failure. */
  function CurrentList(cfg: Config, asks: seq<Ask>): set<string> {
    Meaning(LastGood(Attempts(ParsedNames, {}, NameCalls(cfg, asks))), ParsedNames, {})
  }

  /** The first reading that does not fail. */
  function FirstGood(calls: seq<Call>): Option<Reading> {
    if calls == [] then None
    else if !calls[0].disk.Failed? then Some(calls[0].disk)
    else FirstGood(calls[1..])
  }

  lemma {:induction false} FirstGoodAppend(a: seq<Call>, b: seq<Call>)
    ensures FirstGood(a + b) == if FirstGood(a).Some? then FirstGood(a) else FirstGood(b)
  {
    if a == [] {
      assert a + b == b;
    } else {
      assert (a + b)[1..] == a[1..] + b;
      FirstGoodAppend(a[1..], b);
    }
  }

  /** The first list read without failure. */
  function FirstList(cfg: Config, asks: seq<Ask>): set<string> {
    var first := FirstGood(NameCalls(cfg, asks));
    if first.Some? then LabelsRead(first.value) else {}
  }

  // --- what is known ---------------------------------------------------------

  /** The labels let in as new. */
  function LetIn(cfg: Config, asks: seq<Ask>): set<string> {
    if asks == [] then {} else LetIn(cfg, asks[..|asks| - 1]) + NewIn(cfg, Outcomes(cfg, asks), asks[|asks| - 1].host)
  }

  function NewIn(cfg: Config, o: Outcome, host: string): set<string> {
    if o.added && AsksSite(cfg, host) then {LabelOf(cfg, host)} else {}
  }

  /** The first good reading of those a question makes. */
  lemma OwnFirst(cfg: Config, s: State, ask: Ask)
    ensures var calls := NameCallsOf(cfg, s, ask);
      && |calls| <= 2
      && (|calls| >= 1 ==> calls[0].disk == ask.first)
      && (|calls| == 2 ==> calls[1].disk == ask.second)
      && FirstGood(calls) ==
        if |calls| >= 1 && !ask.first.Failed? then Some(ask.first)
        else if |calls| == 2 && !ask.second.Failed? then Some(ask.second)
        else None
  {
    var calls := NameCallsOf(cfg, s, ask);
    if |calls| == 2 {
      assert calls[1..] == [calls[1]] && calls[1..][1..] == [];
      assert FirstGood(calls[1..]) == if calls[1].disk.Failed? then None else Some(calls[1].disk);
    } else if |calls| == 1 {
      assert calls[1..] == [];
    }
  }

  /** What a question makes known: the list first read, and the label it lets in. */
  lemma KnownStep(cfg: Config, s: State, ask: Ask)
    requires KnownWithList(s)
    ensures var o, first := Decided(cfg, s, ask), FirstGood(NameCallsOf(cfg, s, ask));
      var more := NewIn(cfg, o, ask.host);
      o.state.known ==
        if s.known.Some? then Some(s.known.value + more)
        else if first.Some? then Some(LabelsRead(first.value) + more)
        else None
  {
    OwnFirst(cfg, s, ask);
    var before := if s.known.Some? then s.known.value else {};
    var first := FirstGood(NameCallsOf(cfg, s, ask));
    assert before + {} == before;
    if first.Some? {
      assert LabelsRead(first.value) + {} == LabelsRead(first.value);
    }
  }

  lemma {:induction false} KnownIs(cfg: Config, asks: seq<Ask>)
    ensures Reached(cfg, asks).known ==
      if FirstGood(NameCalls(cfg, asks)).Some? then Some(FirstList(cfg, asks) + LetIn(cfg, asks)) else None
    ensures FirstGood(NameCalls(cfg, asks)).None? ==> LetIn(cfg, asks) == {}
  {
    if asks != [] {
      var front, last := asks[..|asks| - 1], asks[|asks| - 1];
      KnownIs(cfg, front);
      KnownOnceRead(cfg, front);
      KnownStep(cfg, Reached(cfg, front), last);
      if Reached(cfg, front).known.None? && FirstGood(NameCallsOf(cfg, Reached(cfg, front), last)).None? {
        NothingNewUnread(cfg, Reached(cfg, front), last);
      }
      FirstGoodAppend(NameCalls(cfg, front), NameCallsOf(cfg, Reached(cfg, front), last));
      var more := NewIn(cfg, Outcomes(cfg, asks), last.host);
      assert (FirstList(cfg, asks) + LetIn(cfg, front)) + more == FirstList(cfg, asks) + (LetIn(cfg, front) + more);
      assert FirstList(cfg, asks) + ({} + more) == FirstList(cfg, asks) + more;
    }
  }

  lemma NothingNewUnread(cfg: Config, s: State, ask: Ask)
    requires KnownWithList(s) && s.known.None? && FirstGood(NameCallsOf(cfg, s, ask)).None?
    ensures !Decided(cfg, s, ask).added
  {
    OwnFirst(cfg, s, ask);
  }

  /** An earlier question for the label was answered yes. */
  ghost predicate YesAt(cfg: Config, asks: seq<Ask>, j: nat, site: string)
    requires j < |asks|
  {
    AsksSite(cfg, asks[j].host) && LabelOf(cfg, asks[j].host) == site && Allowed(OutcomeAt(cfg, asks, j))
  }

  ghost predicate YesBefore(cfg: Config, asks: seq<Ask>, site: string) {
    exists j | 0 <= j < |asks| - 1 :: YesAt(cfg, asks, j, site)
  }

  lemma LetInMeansYes(cfg: Config, s: State, ask: Ask)
    requires Decided(cfg, s, ask).added
    ensures AsksSite(cfg, ask.host) && Allowed(Decided(cfg, s, ask))
  {
  }

  lemma {:induction false} LetInWasYes(cfg: Config, asks: seq<Ask>, site: string) returns (j: nat)
    requires site in LetIn(cfg, asks)
    ensures j < |asks| && YesAt(cfg, asks, j, site)
  {
    var front, last := asks[..|asks| - 1], asks[|asks| - 1];
    if site in LetIn(cfg, front) {
      j := LetInWasYes(cfg, front, site);
      assert front[..j] == asks[..j];
    } else {
      j := |asks| - 1;
      LetInMeansYes(cfg, Reached(cfg, front), last);
    }
  }

  /** What is known when the question is decided: from before, or from the list it reads first. */
  function KnownAt(cfg: Config, s: State, ask: Ask): set<string> {
    var first := FirstGood(NameCallsOf(cfg, s, ask));
    if s.known.Some? then s.known.value else if first.Some? then LabelsRead(first.value) else {}
  }

  /** The label of the last question is known: from the first list ever read, or by an earlier yes. */
  ghost predicate KnownByThen(cfg: Config, asks: seq<Ask>, site: string) {
    site in FirstList(cfg, asks) || YesBefore(cfg, asks, site)
  }

  lemma YesIsKnown(cfg: Config, asks: seq<Ask>, j: nat, site: string)
    requires j < |asks| - 1 && YesAt(cfg, asks, j, site)
    ensures Knows(Reached(cfg, asks[..|asks| - 1]), site)
  {
    AllowedIsKnown(cfg, asks, j);
    var front := asks[..|asks| - 1];
    assert front[..j + 1] == asks[..j + 1] && front[..|front|] == front;
    KnownStays(cfg, front, j + 1, |front|, site);
  }

  lemma KnownAtIsKnownByThen(cfg: Config, asks: seq<Ask>, site: string)
    requires asks != []
    ensures site in KnownAt(cfg, Reached(cfg, asks[..|asks| - 1]), asks[|asks| - 1]) <==> KnownByThen(cfg, asks, site)
  {
    var front, last := asks[..|asks| - 1], asks[|asks| - 1];
    var s := Reached(cfg, front);
    KnownIs(cfg, front);
    FirstGoodAppend(NameCalls(cfg, front), NameCallsOf(cfg, s, last));
    if site in LetIn(cfg, front) {
      var j := LetInWasYes(cfg, front, site);
      assert front[..j] == asks[..j];
      assert YesAt(cfg, asks, j, site);
    }
    if j: nat :| j < |asks| - 1 && YesAt(cfg, asks, j, site) {
      YesIsKnown(cfg, asks, j, site);
    }
  }

  // --- the names let in lately -----------------------------------------------

  /** Which of the allowances are less than a window old. */
  function Lately(history: seq<int>, now: int, window: int): set<int> {
    set i | 0 <= i < |history| && now - history[i] < window
  }

  lemma {:induction false} RecentCounts(history: seq<int>, now: int, window: int)
    ensures |Recent(history, now, window)| == |Lately(history, now, window)|
  {
    if history != [] {
      var n := |history| - 1;
      RecentCounts(history[..n], now, window);
      var more: set<int> := if now - history[n] < window then {n} else {};
      assert Lately(history, now, window) == Lately(history[..n], now, window) + more;
    } else {
      assert Lately(history, now, window) == {};
    }
  }

  lemma {:induction false} RecentTogether(a: seq<int>, b: seq<int>, now: int, window: int)
    ensures Recent(a + b, now, window) == Recent(a, now, window) + Recent(b, now, window)
  {
    if b == [] {
      assert a + b == a;
    } else {
      assert (a + b)[..|a + b| - 1] == a + b[..|b| - 1];
      RecentTogether(a, b[..|b| - 1], now, window);
    }
  }

  /** The times kept and pruned count the allowances of the last window. */
  lemma RecentCountsLately(cfg: Config, front: seq<Ask>, now: int)
    requires Ordered(front) && forall i | 0 <= i < |front| :: front[i].now <= now
    ensures |Recent(Reached(cfg, front).allowedNew, now, cfg.window)| ==
      |Lately(Allowances(cfg, front), now, cfg.window)|
  {
    var history := Allowances(cfg, front);
    var k := KeptTimesAreTail(cfg, front, now);
    assert history == history[..k] + history[k..];
    RecentTogether(history[..k], history[k..], now, cfg.window);
    RecentOfOld(history[..k], now, cfg.window);
    RecentCounts(history, now, cfg.window);
  }

  // --- the answer ------------------------------------------------------------

  lemma DecidedOn(cfg: Config, s: State, ask: Ask)
    requires KnownWithList(s) && AsksSite(cfg, ask.host)
    ensures var o, site := Decided(cfg, s, ask), LabelOf(cfg, ask.host);
      var listed := site in o.state.names.value;
      var free := |Recent(s.allowedNew, ask.now, cfg.window)| < cfg.cap;
      && o.decision == Some(
           if !o.state.policy.value then Decision(false, Wildcard)
           else if !ZoneLabel(site) then Decision(false, NotOneLabel)
           else if !listed then Decision(false, NoSuchSite)
           else if site in KnownAt(cfg, s, ask) || free then Decision(true, DeployedSite)
           else Decision(false, CapReached))
      && (o.added <==> Served(cfg, o, ask.host) && site !in KnownAt(cfg, s, ask) && free)
  {
    OwnFirst(cfg, s, ask);
  }

  /** Fewer names than the cap were let in less than a window before the last question. */
  ghost predicate UnderTheCap(cfg: Config, asks: seq<Ask>)
    requires asks != []
  {
    |Lately(Allowances(cfg, asks[..|asks| - 1]), asks[|asks| - 1].now, cfg.window)| < cfg.cap
  }

  /** An on-demand policy, a single label, and the list that holds it. */
  ghost predicate ServedNow(cfg: Config, asks: seq<Ask>, site: string) {
    OnDemand(cfg, asks) && ZoneLabel(site) && site in CurrentList(cfg, asks)
  }

  lemma ServedByHistory(cfg: Config, asks: seq<Ask>)
    requires asks != []
    ensures Outcomes(cfg, asks).state.policy.value == OnDemand(cfg, asks)
    ensures Outcomes(cfg, asks).state.names.value == CurrentList(cfg, asks)
  {
    PolicyIsCached(cfg, asks);
    ListIsCached(cfg, asks);
    ValueIsLastGoodReading(OnDemandPolicy, false, PolicyCalls(cfg, asks));
    ValueIsLastGoodReading(ParsedNames, {}, NameCalls(cfg, asks));
  }

  /**
   * In every run on a clock that does not go back, the answer about a site's
   * name, whole: what refuses it, in order, is the policy last read, the name,
   * the list last read, and, for a label neither in the first list read nor
   * answered yes before, as many names let in within the window as the cap.
   */
  lemma AnswerByHistory(cfg: Config, asks: seq<Ask>)
    requires Ordered(asks) && asks != [] && AsksSite(cfg, asks[|asks| - 1].host)
    ensures var site := LabelOf(cfg, asks[|asks| - 1].host);
      Outcomes(cfg, asks).decision == Some(
        if !OnDemand(cfg, asks) then Decision(false, Wildcard)
        else if !ZoneLabel(site) then Decision(false, NotOneLabel)
        else if site !in CurrentList(cfg, asks) then Decision(false, NoSuchSite)
        else if KnownByThen(cfg, asks, site) || UnderTheCap(cfg, asks) then Decision(true, DeployedSite)
        else Decision(false, CapReached))
    ensures var site := LabelOf(cfg, asks[|asks| - 1].host);
      Outcomes(cfg, asks).added <==>
        ServedNow(cfg, asks, site) && !KnownByThen(cfg, asks, site) && UnderTheCap(cfg, asks)
  {
    var front, last := asks[..|asks| - 1], asks[|asks| - 1];
    KnownOnceRead(cfg, front);
    DecidedOn(cfg, Reached(cfg, front), last);
    KnownAtIsKnownByThen(cfg, asks, LabelOf(cfg, last.host));
    RecentCountsLately(cfg, front, last.now);
    ServedByHistory(cfg, asks);
  }

  /**
   * So a site's name is allowed exactly when it is served, and known or under
   * the cap; and it is counted as new exactly when it is allowed, not known.
   */
  lemma AllowedExactlyWhen(cfg: Config, asks: seq<Ask>)
    requires Ordered(asks) && asks != [] && AsksSite(cfg, asks[|asks| - 1].host)
    ensures var site := LabelOf(cfg, asks[|asks| - 1].host);
      && (Allowed(Outcomes(cfg, asks)) <==>
            ServedNow(cfg, asks, site) && (KnownByThen(cfg, asks, site) || UnderTheCap(cfg, asks)))
      && (Outcomes(cfg, asks).added <==> Allowed(Outcomes(cfg, asks)) && !KnownByThen(cfg, asks, site))
  {
    AnswerByHistory(cfg, asks);
  }

  /** The zone and its www are always allowed, and what is no name of the zone is not decided here. */
  lemma ZoneAndWwwAllowed(cfg: Config, asks: seq<Ask>)
    requires asks != []
    ensures var host, o := asks[|asks| - 1].host, Outcomes(cfg, asks);
      && (cfg.zone != "" && host == cfg.zone ==> o.decision == Some(Decision(true, ItsZone)))
      && (cfg.zone != "" && host == "www." + cfg.zone ==> o.decision == Some(Decision(true, ItsWww)))
      && (o.decision.None? <==> cfg.zone == "" || (host != cfg.zone && forall site :: host != site + "." + cfg.zone))
  {
    var host := asks[|asks| - 1].host;
    InZoneExactly(cfg, host);
    InZoneExactly(cfg, "www." + cfg.zone);
    assert "www." + cfg.zone == "www" + "." + cfg.zone;
    assert |"www." + cfg.zone| > |cfg.zone|;
    KnownOnceRead(cfg, asks[..|asks| - 1]);
  }

  lemma InZoneExactly(cfg: Config, host: string)
    ensures InZone(cfg, host) <==>
      cfg.zone != "" && (host == cfg.zone || exists site :: host == site + "." + cfg.zone)
  {
    var dotted := "." + cfg.zone;
    if EndsWith(host, dotted) {
      var site := host[..|host| - |dotted|];
      assert host == site + dotted;
      assert site + dotted == site + "." + cfg.zone;
    }
    if site :| host == site + "." + cfg.zone {
      assert site + "." + cfg.zone == site + dotted;
      assert host[|host| - |dotted|..] == dotted;
    }
  }

  // --- what is said of the cap -----------------------------------------------

  ghost predicate CapAt(cfg: Config, asks: seq<Ask>, j: nat)
    requires j < |asks|
  {
    OutcomeAt(cfg, asks, j).decision == Some(Decision(false, CapReached))
  }

  /** The cap refused a name at `j`, and none was let in between then and the question at `n`. */
  ghost predicate CapStands(cfg: Config, asks: seq<Ask>, j: nat, n: nat)
    requires j < n <= |asks|
  {
    CapAt(cfg, asks, j) && forall k | j < k < n :: !OutcomeAt(cfg, asks, k).added
  }

  lemma StepOnCapSaid(cfg: Config, s: State, ask: Ask)
    ensures var o := Decided(cfg, s, ask);
      var capped := o.decision == Some(Decision(false, CapReached));
      && o.state.capSaid == (capped || (s.capSaid && !o.added))
      && o.said == (capped && !s.capSaid)
      && !(capped && o.added)
  {
  }

  ghost predicate StandsBefore(cfg: Config, asks: seq<Ask>, n: nat)
    requires n <= |asks|
  {
    exists j | 0 <= j < n :: CapStands(cfg, asks, j, n)
  }

  lemma StandsNext(cfg: Config, asks: seq<Ask>, n: nat, added: bool, capped: bool)
    requires n < |asks| && added == OutcomeAt(cfg, asks, n).added && capped == CapAt(cfg, asks, n) && !(added && capped)
    ensures StandsBefore(cfg, asks, n + 1) <==> capped || (StandsBefore(cfg, asks, n) && !added)
  {
    var m := n + 1;
    if capped {
      assert CapStands(cfg, asks, n, m);
    } else {
      if StandsBefore(cfg, asks, m) {
        var j :| 0 <= j < m && CapStands(cfg, asks, j, m);
        assert CapStands(cfg, asks, j, n);
      }
      if StandsBefore(cfg, asks, n) && !added {
        var j :| 0 <= j < n && CapStands(cfg, asks, j, n);
        assert CapStands(cfg, asks, j, m);
      }
    }
  }

  lemma {:induction false} CapSaidMeans(cfg: Config, asks: seq<Ask>, n: nat)
    requires n <= |asks|
    ensures Reached(cfg, asks[..n]).capSaid <==> StandsBefore(cfg, asks, n)
  {
    if n > 0 {
      var m := n - 1;
      CapSaidMeans(cfg, asks, m);
      ReachedNext(cfg, asks, m);
      StepOnCapSaid(cfg, Reached(cfg, asks[..m]), asks[m]);
      StandsNext(cfg, asks, m, OutcomeAt(cfg, asks, m).added, CapAt(cfg, asks, m));
    }
  }

  /** The cap is said exactly at the first refusal for it since a name was last let in. */
  lemma CapSaidExactlyWhen(cfg: Config, asks: seq<Ask>, n: nat)
    requires n < |asks|
    ensures OutcomeAt(cfg, asks, n).said <==> CapAt(cfg, asks, n) && !StandsBefore(cfg, asks, n)
  {
    CapSaidMeans(cfg, asks, n);
    StepOnCapSaid(cfg, Reached(cfg, asks[..n]), asks[n]);
  }
}
