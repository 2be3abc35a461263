/** The decisions for the served zone's own names: which may have a certificate, and how many new ones per window. */
module Zone {
  import opened Options
  import opened Text
  import opened CachedFiles
  import opened ZoneNames

  datatype Reason = ItsZone | ItsWww | Wildcard | NotOneLabel | NoSuchSite | CapReached | DeployedSite

  datatype Decision = Decision(allowed: bool, reason: Reason)

  datatype Config = Config(zone: string, ttl: int, miss: int, cap: nat, window: int)

  datatype State = State(policy: Cached<bool>, names: Cached<set<string>>, known: Option<set<string>>,
      allowedNew: seq<int>, capSaid: bool)

  /**
   * A question: the host, the time, the policy file, and the names file at each of the
   * three moments it may be read.
   */
  datatype Ask = Ask(host: string, now: int, policy: Reading, first: Reading, second: Reading, third: Reading)

  /**
   * What a question leaves: the state, the decision if the name is the zone's, whether
   * a new name was let in, whether the cap was said.
   */
  datatype Outcome = Outcome(state: State, decision: Option<Decision>, added: bool, said: bool)

  const OPENED: State := State(Cached(false, 0, true), Cached({}, 0, true), None, [], false)

  predicate InZone(cfg: Config, host: string) {
    cfg.zone != "" && (host == cfg.zone || EndsWith(host, "." + cfg.zone))
  }

  function LabelOf(cfg: Config, host: string): string
    requires InZone(cfg, host) && host != cfg.zone
  {
    host[..|host| - (|cfg.zone| + 1)]
  }

  /** The times less than a window ago. */
  function Recent(times: seq<int>, now: int, window: int): seq<int> {
    if times == [] then []
    else
      var front, last := times[..|times| - 1], times[|times| - 1];
      Recent(front, now, window) + if now - last < window then [last] else []
  }

  function Listed(s: State, now: int, window: int, disk: Reading): State {
    var names := Got(s.names, ParsedNames, {}, now, window, disk);
    s.(names := names, known := if s.known.None? && !names.neverRead then Some(names.value) else s.known)
  }

  /** The list looked up, and once more through the shorter window when the label is not in it. */
  function Looked(cfg: Config, s: State, site: string, ask: Ask): State {
    var t := Listed(s, ask.now, cfg.ttl, ask.first);
    if site in t.names.value then t else Listed(t, ask.now, cfg.miss, ask.second)
  }

  /** The list that holds the label becomes what is known, when nothing was. */
  function MadeKnown(cfg: Config, s: State, ask: Ask): State {
    if s.known.Some? then s
    else
      var t := Listed(s, ask.now, cfg.ttl, ask.third);
      t.(known := Some(t.names.value))
  }

  /** A listed label: known, or new and counted against the cap. */
  function Admitted(cfg: Config, s: State, site: string, now: int): Outcome
    requires s.known.Some?
  {
    if site in s.known.value then Outcome(s, Some(Decision(true, DeployedSite)), false, false)
    else
      var recent := Recent(s.allowedNew, now, cfg.window);
      if |recent| >= cfg.cap then
        Outcome(s.(allowedNew := recent, capSaid := true), Some(Decision(false, CapReached)), false, !s.capSaid)
      else
        Outcome(s.(allowedNew := recent + [now], known := Some(s.known.value + {site}), capSaid := false),
          Some(Decision(true, DeployedSite)), true, false)
  }

  function Refused(s: State, reason: Reason): Outcome {
    Outcome(s, Some(Decision(false, reason)), false, false)
  }

  function PolicyRead(cfg: Config, s: State, ask: Ask): State {
    s.(policy := Got(s.policy, OnDemandPolicy, false, ask.now, cfg.ttl, ask.policy))
  }

  function Decided(cfg: Config, s: State, ask: Ask): Outcome {
    if !InZone(cfg, ask.host) then Outcome(s, None, false, false)
    else if ask.host == cfg.zone then Outcome(s, Some(Decision(true, ItsZone)), false, false)
    else if ask.host == "www." + cfg.zone then Outcome(s, Some(Decision(true, ItsWww)), false, false)
    else
      var t := PolicyRead(cfg, s, ask);
      var site := LabelOf(cfg, ask.host);
      if !t.policy.value then Refused(t, Wildcard)
      else if !ZoneLabel(site) then Refused(t, NotOneLabel)
      else
        var u := Looked(cfg, t, site, ask);
        if site !in u.names.value then Refused(u, NoSuchSite)
        else Admitted(cfg, MadeKnown(cfg, u, ask), site, ask.now)
  }

  // --- the decision, as it runs ----------------------------------------------

  class ZoneDecider {
    const cfg: Config
    const onDemand: CachedFile<bool>
    const names: CachedFile<set<string>>
    var known: Option<set<string>>
    var allowedNew: seq<int>
    var capSaid: bool

    ghost function Contents(): State
      reads this, onDemand, names
    {
      State(onDemand.State(), names.State(), known, allowedNew, capSaid)
    }

    ghost predicate Valid()
      reads this
    {
      && onDemand.ttl == cfg.ttl && onDemand.parse == OnDemandPolicy && onDemand.absent == false
      && names.ttl == cfg.ttl && names.parse == ParsedNames && names.absent == {}
    }

    constructor (cfg: Config)
      ensures Valid() && Contents() == OPENED && this.cfg == cfg && fresh(onDemand) && fresh(names)
    {
      this.cfg := cfg;
      onDemand := new CachedFile<bool>(cfg.ttl, OnDemandPolicy, false);
      names := new CachedFile<set<string>>(cfg.ttl, ParsedNames, {});
      known, allowedNew, capSaid := None, [], false;
    }

    method ListedNow(now: int, window: int, disk: Reading) returns (current: set<string>)
      requires Valid()
      modifies this`known, names
      ensures Contents() == Listed(old(Contents()), now, window, disk)
      ensures current == names.value
    {
      current := names.Get(now, window, disk);
      if known == None && !names.neverRead {
        known := Some(current);
      }
    }

    method Prune(now: int)
      modifies this`allowedNew
      ensures allowedNew == Recent(old(allowedNew), now, cfg.window)
    {
      var kept: seq<int> := [];
      for i := 0 to |allowedNew|
        invariant kept == Recent(allowedNew[..i], now, cfg.window) && allowedNew == old(allowedNew)
      {
        assert allowedNew[..i + 1][..i] == allowedNew[..i];
        if now - allowedNew[i] < cfg.window {
          kept := kept + [allowedNew[i]];
        }
      }
      assert allowedNew[..|allowedNew|] == allowedNew;
      allowedNew := kept;
    }

    /** Whether a listed label may have its certificate. */
    method Admit(site: string, now: int) returns (decision: Decision, said: bool)
      requires Valid() && known.Some?
      modifies this`known, this`allowedNew, this`capSaid
      ensures Contents() == Admitted(cfg, old(Contents()), site, now).state
      ensures Some(decision) == Admitted(cfg, old(Contents()), site, now).decision
      ensures said == Admitted(cfg, old(Contents()), site, now).said
    {
      said := false;
      if site !in known.value {
        Prune(now);
        if |allowedNew| >= cfg.cap {
          said := !capSaid;
          capSaid := true;
          return Decision(false, CapReached), said;
        }
        allowedNew := allowedNew + [now];
        known := Some(known.value + {site});
        capSaid := false;
      }
      decision := Decision(true, DeployedSite);
    }

    method Decide(ask: Ask) returns (decision: Option<Decision>, said: bool)
      requires Valid()
      modifies this`known, this`allowedNew, this`capSaid, onDemand, names
      ensures var o := Decided(cfg, old(Contents()), ask);
        Contents() == o.state && decision == o.decision && said == o.said
    {
      said := false;
      if cfg.zone == "" || (ask.host != cfg.zone && !EndsWith(ask.host, "." + cfg.zone)) {
        return None, false;
      }
      if ask.host == cfg.zone {
        return Some(Decision(true, ItsZone)), false;
      }
      if ask.host == "www." + cfg.zone {
        return Some(Decision(true, ItsWww)), false;
      }
      var policy := onDemand.Get(ask.now, cfg.ttl, ask.policy);
      if !policy {
        return Some(Decision(false, Wildcard)), false;
      }
      var site := LabelOf(cfg, ask.host);
      if !ZoneLabel(site) {
        return Some(Decision(false, NotOneLabel)), false;
      }
      var current := ListedNow(ask.now, cfg.ttl, ask.first);
      if site !in current {
        current := ListedNow(ask.now, cfg.miss, ask.second);
        if site !in current {
          return Some(Decision(false, NoSuchSite)), false;
        }
      }
      if known == None {
        current := ListedNow(ask.now, cfg.ttl, ask.third);
        known := Some(current);
      }
      var d;
      d, said := Admit(site, ask.now);
      decision := Some(d);
    }
  }
}
