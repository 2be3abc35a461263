/** What reconciling a zone's records achieves, whichever planner drew the plan. */
module DnsTheorems {
  import opened Options
  import opened Text
  import opened DnsZone
  import opened DnsPlans

  predicate NamedAt(zone: string, name: string) {
    Lower(name) == Lower(zone) || Lower(name) == Lower(Wildcard(zone))
  }

  /** A listing of the zone's two names: each of their records once, and nothing that is not in the zone. */
  ghost predicate Listing(l: seq<Record>, z: Zone, zone: string) {
    && DistinctIds(l)
    && (forall r | r in l :: r.id in z.records && z.records[r.id] == r.data)
    && (forall id | id in z.records && NamedAt(zone, z.records[id].name) :: Record(id, z.records[id]) in l)
  }

  ghost predicate Untouched(z: Zone, t: Zone, zone: string, id: nat) {
    && (id in z.records && !AtZone(zone, SlotOf(z.records[id])) ==> id in t.records && t.records[id] == z.records[id])
    && (id in t.records && !AtZone(zone, SlotOf(t.records[id])) ==> id in z.records && t.records[id] == z.records[id])
  }

  ghost predicate AllKept(plan: seq<Action>) {
    forall a | a in plan :: a.Keep?
  }

  // --- the machine's addresses -----------------------------------------------

  function MachinePlan(canon: string -> string, l: seq<Record>, zone: string, ipv4: string, ipv6: Option<string>,
      replace: bool): seq<Action> {
    PlanRecords(canon, l, DesiredRecords(zone, ipv4, ipv6), replace)
  }

  lemma MachineLists(l: seq<Record>, z: Zone, zone: string, ipv4: string, ipv6: Option<string>)
    requires Listing(l, z, zone)
    ensures Lists(l, z, GoalsOf(DesiredRecords(zone, ipv4, ipv6)).Keys)
  {
    forall id | id in z.records && SlotOf(z.records[id]) in GoalsOf(DesiredRecords(zone, ipv4, ipv6)).Keys
      ensures Record(id, z.records[id]) in l
    {
      DesiredGoalsOnly(zone, ipv4, ipv6, SlotOf(z.records[id]));
    }
  }

  /** What the zone holds at a name once the machine's plan is applied. */
  ghost predicate PointsAtMachine(canon: string -> string, t: Zone, name: string, ipv4: string, ipv6: Option<string>) {
    && Meets(SameBy(canon), t, SlotAt(name, "A"), Exactly(ipv4, false))
    && Meets(SameBy(canon), t, SlotAt(name, "AAAA"), GoalOf(ipv6))
    && Meets(SameBy(canon), t, SlotAt(name, "CNAME"), Absent)
  }

  lemma MachinePlanMeets(canon: string -> string, z: Zone, l: seq<Record>, zone: string, ipv4: string,
      ipv6: Option<string>, replace: bool, name: string)
    requires ValidZone(z) && Listing(l, z, zone) && ConflictFree(MachinePlan(canon, l, zone, ipv4, ipv6, replace))
    requires name == zone || name == Wildcard(zone)
    ensures PointsAtMachine(canon, Applied(z, MachinePlan(canon, l, zone, ipv4, ipv6, replace)), name, ipv4, ipv6)
  {
    var plan, goals := MachinePlan(canon, l, zone, ipv4, ipv6, replace), GoalsOf(DesiredRecords(zone, ipv4, ipv6));
    PlanRecordsSettles(canon, l, zone, ipv4, ipv6, replace);
    MachineLists(l, z, zone, ipv4, ipv6);
    DesiredGoals(zone, ipv4, ipv6, name);
    SettledMeetsGoals(SameBy(canon), z, l, plan, goals, SlotAt(name, "A"));
    SettledMeetsGoals(SameBy(canon), z, l, plan, goals, SlotAt(name, "AAAA"));
    SettledMeetsGoals(SameBy(canon), z, l, plan, goals, SlotAt(name, "CNAME"));
  }

  lemma MachinePlanTouchesNothingElse(canon: string -> string, z: Zone, l: seq<Record>, zone: string, ipv4: string,
      ipv6: Option<string>, replace: bool, id: nat)
    requires ValidZone(z) && Listing(l, z, zone) && ConflictFree(MachinePlan(canon, l, zone, ipv4, ipv6, replace))
    ensures ValidZone(Applied(z, MachinePlan(canon, l, zone, ipv4, ipv6, replace)))
    ensures Untouched(z, Applied(z, MachinePlan(canon, l, zone, ipv4, ipv6, replace)), zone, id)
  {
    var plan, goals := MachinePlan(canon, l, zone, ipv4, ipv6, replace), GoalsOf(DesiredRecords(zone, ipv4, ipv6));
    PlanRecordsSettles(canon, l, zone, ipv4, ipv6, replace);
    MachineLists(l, z, zone, ipv4, ipv6);
    SettledTouchesNothingElse(SameBy(canon), z, l, plan, goals, id);
    forall slot | slot in goals
      ensures AtZone(zone, slot)
    {
      DesiredGoalsOnly(zone, ipv4, ipv6, slot);
    }
  }

  /** Between any two of its actions no alias stands beside an address at either name, if none did before. */
  lemma MachinePlanNeverClashes(canon: string -> string, z: Zone, l: seq<Record>, zone: string, ipv4: string,
      ipv6: Option<string>, replace: bool, name: string, k: nat)
    requires ValidZone(z) && Listing(l, z, zone) && ConflictFree(MachinePlan(canon, l, zone, ipv4, ipv6, replace))
    requires (name == zone || name == Wildcard(zone)) && !Clash(z, Lower(name))
    requires k <= |Schedule(MachinePlan(canon, l, zone, ipv4, ipv6, replace))|
    ensures !Clash(Exec(z, Schedule(MachinePlan(canon, l, zone, ipv4, ipv6, replace))[..k]), Lower(name))
  {
    var plan, goals := MachinePlan(canon, l, zone, ipv4, ipv6, replace), GoalsOf(DesiredRecords(zone, ipv4, ipv6));
    PlanRecordsSettles(canon, l, zone, ipv4, ipv6, replace);
    MachineLists(l, z, zone, ipv4, ipv6);
    DesiredGoals(zone, ipv4, ipv6, name);
    NeverClashes(SameBy(canon), z, l, plan, goals, Lower(name), k);
  }

  // --- a second plan ---------------------------------------------------------

  lemma SomeRecord(records: seq<Record>)
    requires records != []
    ensures exists r :: r in records
  {
    assert records[0] in records;
  }

  lemma NoneListed(same: (string, string) -> bool, t: Zone, l: seq<Record>, zone: string, records: seq<Record>)
    requires Listing(l, t, zone)
    requires forall r | r in records :: r in l && Meets(same, t, SlotOf(r.data), Absent)
    ensures records == []
  {
    if records != [] {
      SomeRecord(records);
    }
  }

  lemma TwoDiffer(records: seq<Record>, id: nat)
    requires DistinctIds(records) && |records| > 1
    ensures exists i | 0 <= i < |records| :: records[i].id != id
  {
    assert records[0].id != records[1].id;
  }

  lemma OneListed(same: (string, string) -> bool, t: Zone, l: seq<Record>, zone: string, name: string, kind: string,
      content: string, proxied: bool)
    requires Listing(l, t, zone) && NamedAt(zone, name)
    requires Meets(same, t, SlotAt(name, kind), Exactly(content, proxied))
    ensures |AtSlot(l, name, kind)| == 1 && Satisfies(same, AtSlot(l, name, kind)[0].data, content, proxied)
  {
    var records, slot := AtSlot(l, name, kind), SlotAt(name, kind);
    var id :| id in t.records && SlotOf(t.records[id]) == slot && Satisfies(same, t.records[id], content, proxied)
      && Alone(t, slot, id);
    assert Record(id, t.records[id]) in records;
    AtSlotDistinct(l, name, kind);
    assert forall i | 0 <= i < |records| :: records[i] in records;
    assert forall i | 0 <= i < |records| :: records[i].id == id;
    if |records| > 1 {
      TwoDiffer(records, id);
    }
  }

  lemma EntryKept(canon: string -> string, t: Zone, l: seq<Record>, zone: string, entry: Desired, replace: bool)
    requires Listing(l, t, zone) && NamedAt(zone, entry.name)
    requires Meets(SameBy(canon), t, SlotAt(entry.name, entry.kind), GoalOf(entry.content))
    ensures AllKept(EntryPlan(canon, l, entry, replace))
  {
    var records := AtSlot(l, entry.name, entry.kind);
    match entry.content
    case None => NoneListed(SameBy(canon), t, l, zone, records);
    case Some(content) =>
      OneListed(SameBy(canon), t, l, zone, entry.name, entry.kind, content, false);
      assert records == [records[0]];
      assert Others(records, 0) == [] by {
        assert Others([], 0) == [];
      }
      var right := Right(canon, content);
      assert right(records[0]);
      assert Where(records, Wrong(canon, content)) == [] by {
        if Where(records, Wrong(canon, content)) != [] {
          SomeRecord(Where(records, Wrong(canon, content)));
        }
      }
  }

  lemma AliasKept(same: (string, string) -> bool, t: Zone, l: seq<Record>, zone: string, name: string, replace: bool)
    requires Listing(l, t, zone) && Meets(same, t, SlotAt(name, "CNAME"), Absent)
    ensures AllKept(AliasPlan(l, name, replace))
  {
    NoneListed(same, t, l, zone, AtSlot(l, name, "CNAME"));
  }

  lemma {:induction false} FlatKept(parts: seq<seq<Action>>)
    requires forall i | 0 <= i < |parts| :: AllKept(parts[i])
    ensures AllKept(Flat(parts))
  {
    if parts != [] {
      FlatKept(parts[..|parts| - 1]);
    }
  }

  /**
   * Planned again on any listing of a zone that points at the machine, with or without
   * `replace`, every action is to keep.
   */
  lemma MachinePlanIsStable(canon: string -> string, t: Zone, l: seq<Record>, zone: string, ipv4: string,
      ipv6: Option<string>, replace: bool)
    requires Listing(l, t, zone)
    requires PointsAtMachine(canon, t, zone, ipv4, ipv6) && PointsAtMachine(canon, t, Wildcard(zone), ipv4, ipv6)
    ensures AllKept(MachinePlan(canon, l, zone, ipv4, ipv6, replace))
  {
    DesiredWellPosed(zone, ipv4, ipv6);
    AliasesKept(SameBy(canon), t, l, zone, [zone, Wildcard(zone)], replace);
    DesiredHeld(canon, t, zone, ipv4, ipv6);
    EntriesKept(canon, t, l, zone, DesiredRecords(zone, ipv4, ipv6), replace);
  }

  lemma DesiredHeld(canon: string -> string, t: Zone, zone: string, ipv4: string, ipv6: Option<string>)
    requires PointsAtMachine(canon, t, zone, ipv4, ipv6) && PointsAtMachine(canon, t, Wildcard(zone), ipv4, ipv6)
    ensures var d := DesiredRecords(zone, ipv4, ipv6);
      forall i | 0 <= i < |d| ::
        NamedAt(zone, d[i].name) && Meets(SameBy(canon), t, SlotAt(d[i].name, d[i].kind), GoalOf(d[i].content))
  {
  }

  lemma AliasesKept(same: (string, string) -> bool, t: Zone, l: seq<Record>, zone: string, names: seq<string>,
      replace: bool)
    requires Listing(l, t, zone) && forall i | 0 <= i < |names| :: Meets(same, t, SlotAt(names[i], "CNAME"), Absent)
    ensures AllKept(Flat(Aliases(l, names, replace)))
  {
    forall i | 0 <= i < |names|
      ensures AllKept(Aliases(l, names, replace)[i])
    {
      AliasKept(same, t, l, zone, names[i], replace);
    }
    FlatKept(Aliases(l, names, replace));
  }

  lemma EntriesKept(canon: string -> string, t: Zone, l: seq<Record>, zone: string, d: seq<Desired>, replace: bool)
    requires Listing(l, t, zone)
    requires forall i | 0 <= i < |d| ::
      NamedAt(zone, d[i].name) && Meets(SameBy(canon), t, SlotAt(d[i].name, d[i].kind), GoalOf(d[i].content))
    ensures AllKept(Flat(Entries(canon, l, d, replace)))
  {
    forall i | 0 <= i < |d|
      ensures AllKept(Entries(canon, l, d, replace)[i])
    {
      EntryKept(canon, t, l, zone, d[i], replace);
    }
    FlatKept(Entries(canon, l, d, replace));
  }

  /** Plan, apply, plan again: nothing is left to do. */
  lemma MachinePlanTwice(canon: string -> string, z: Zone, l: seq<Record>, zone: string, ipv4: string,
      ipv6: Option<string>, replace: bool, again: seq<Record>, replaceAgain: bool)
    requires ValidZone(z) && Listing(l, z, zone) && ConflictFree(MachinePlan(canon, l, zone, ipv4, ipv6, replace))
    requires Listing(again, Applied(z, MachinePlan(canon, l, zone, ipv4, ipv6, replace)), zone)
    ensures AllKept(MachinePlan(canon, again, zone, ipv4, ipv6, replaceAgain))
  {
    MachinePlanMeets(canon, z, l, zone, ipv4, ipv6, replace, zone);
    MachinePlanMeets(canon, z, l, zone, ipv4, ipv6, replace, Wildcard(zone));
    MachinePlanIsStable(canon, Applied(z, MachinePlan(canon, l, zone, ipv4, ipv6, replace)), again, zone, ipv4, ipv6,
      replaceAgain);
  }

  // --- the tunnel's aliases --------------------------------------------------

  lemma TunnelLists(l: seq<Record>, z: Zone, zone: string, target: string)
    requires Listing(l, z, zone)
    ensures Lists(l, z, TunnelGoals(zone, target).Keys)
  {
  }

  ghost predicate PointsAtTunnel(t: Zone, name: string, target: string) {
    && Meets(SameHost(), t, SlotAt(name, "A"), Absent)
    && Meets(SameHost(), t, SlotAt(name, "AAAA"), Absent)
    && Meets(SameHost(), t, SlotAt(name, "CNAME"), Exactly(target, true))
  }

  lemma TunnelGoalsAt(zone: string, target: string, name: string)
    requires name == zone || name == Wildcard(zone)
    ensures var goals := TunnelGoals(zone, target);
      && SlotAt(name, "A") in goals && goals[SlotAt(name, "A")] == Absent
      && SlotAt(name, "AAAA") in goals && goals[SlotAt(name, "AAAA")] == Absent
      && SlotAt(name, "CNAME") in goals && goals[SlotAt(name, "CNAME")] == Exactly(target, true)
  {
    WildcardApart(zone);
  }

  lemma TunnelPlanMeets(z: Zone, l: seq<Record>, zone: string, target: string, replace: bool, name: string)
    requires ValidZone(z) && Listing(l, z, zone) && ConflictFree(PlanTunnel(l, zone, target, replace))
    requires name == zone || name == Wildcard(zone)
    ensures PointsAtTunnel(Applied(z, PlanTunnel(l, zone, target, replace)), name, target)
  {
    var plan, goals := PlanTunnel(l, zone, target, replace), TunnelGoals(zone, target);
    PlanTunnelSettles(l, zone, target, replace);
    TunnelLists(l, z, zone, target);
    TunnelGoalsAt(zone, target, name);
    SettledMeetsGoals(SameHost(), z, l, plan, goals, SlotAt(name, "A"));
    SettledMeetsGoals(SameHost(), z, l, plan, goals, SlotAt(name, "AAAA"));
    SettledMeetsGoals(SameHost(), z, l, plan, goals, SlotAt(name, "CNAME"));
  }

  lemma TunnelPlanTouchesNothingElse(z: Zone, l: seq<Record>, zone: string, target: string, replace: bool, id: nat)
    requires ValidZone(z) && Listing(l, z, zone) && ConflictFree(PlanTunnel(l, zone, target, replace))
    ensures ValidZone(Applied(z, PlanTunnel(l, zone, target, replace)))
    ensures Untouched(z, Applied(z, PlanTunnel(l, zone, target, replace)), zone, id)
  {
    PlanTunnelSettles(l, zone, target, replace);
    TunnelLists(l, z, zone, target);
    SettledTouchesNothingElse(SameHost(), z, l, PlanTunnel(l, zone, target, replace), TunnelGoals(zone, target), id);
    forall slot | slot in TunnelGoals(zone, target)
      ensures AtZone(zone, slot)
    {
      TunnelGoalsOnly(zone, target, slot);
    }
  }

  lemma TunnelGoalsOnly(zone: string, target: string, slot: Slot)
    requires slot in TunnelGoals(zone, target)
    ensures AtZone(zone, slot)
  {
  }

  lemma TunnelPlanNeverClashes(z: Zone, l: seq<Record>, zone: string, target: string, replace: bool, name: string,
      k: nat)
    requires ValidZone(z) && Listing(l, z, zone) && ConflictFree(PlanTunnel(l, zone, target, replace))
    requires (name == zone || name == Wildcard(zone)) && !Clash(z, Lower(name))
    requires k <= |Schedule(PlanTunnel(l, zone, target, replace))|
    ensures !Clash(Exec(z, Schedule(PlanTunnel(l, zone, target, replace))[..k]), Lower(name))
  {
    PlanTunnelSettles(l, zone, target, replace);
    TunnelLists(l, z, zone, target);
    TunnelGoalsAt(zone, target, name);
    NeverClashes(SameHost(), z, l, PlanTunnel(l, zone, target, replace), TunnelGoals(zone, target), Lower(name), k);
  }

  lemma OthersOfOne(records: seq<Record>)
    requires |records| == 1
    ensures Others(records, 0) == []
  {
    assert records[..0] == [];
  }

  /** A single alias is the one the plan decides about. */
  lemma TunnelAliasOfOne(l: seq<Record>, name: string, target: string, replace: bool)
    requires |AtSlot(l, name, "CNAME")| == 1
    ensures var kept := AtSlot(l, name, "CNAME")[0];
      TunnelAlias(l, name, target, replace) ==
        [ if !Own(target)(kept) && !replace then Conflict(kept)
          else if Own(target)(kept) && kept.data.proxied then Keep(kept)
          else Update(kept, target, true) ]
  {
    var aliases := AtSlot(l, name, "CNAME");
    assert aliases[1..] == [];
    OthersOfOne(aliases);
    assert FirstOr(aliases, Own(target)) == 0;
  }

  lemma TunnelNameKept(t: Zone, l: seq<Record>, zone: string, name: string, target: string, replace: bool)
    requires Listing(l, t, zone) && NamedAt(zone, name) && PointsAtTunnel(t, name, target)
    ensures AllKept(TunnelAt(l, name, target, replace))
  {
    NoneListed(SameHost(), t, l, zone, Where(At(l, name), IsAddress));
    TunnelAliasKept(t, l, zone, name, target, replace);
  }

  lemma TunnelAliasKept(t: Zone, l: seq<Record>, zone: string, name: string, target: string, replace: bool)
    requires Listing(l, t, zone) && NamedAt(zone, name)
      && Meets(SameHost(), t, SlotAt(name, "CNAME"), Exactly(target, true))
    ensures AllKept(TunnelAlias(l, name, target, replace))
  {
    OneListed(SameHost(), t, l, zone, name, "CNAME", target, true);
    TunnelAliasOfOne(l, name, target, replace);
  }

  lemma TunnelPlanTwice(z: Zone, l: seq<Record>, zone: string, target: string, replace: bool, again: seq<Record>,
      replaceAgain: bool)
    requires ValidZone(z) && Listing(l, z, zone) && ConflictFree(PlanTunnel(l, zone, target, replace))
    requires Listing(again, Applied(z, PlanTunnel(l, zone, target, replace)), zone)
    ensures AllKept(PlanTunnel(again, zone, target, replaceAgain))
  {
    var t := Applied(z, PlanTunnel(l, zone, target, replace));
    TunnelPlanMeets(z, l, zone, target, replace, zone);
    TunnelPlanMeets(z, l, zone, target, replace, Wildcard(zone));
    TunnelNameKept(t, again, zone, zone, target, replaceAgain);
    TunnelNameKept(t, again, zone, Wildcard(zone), target, replaceAgain);
    FlatTwo(TunnelAt(again, zone, target, replaceAgain), TunnelAt(again, Wildcard(zone), target, replaceAgain));
  }

  // --- without replace, and with it ------------------------------------------

  lemma {:induction false} FromFlat(parts: seq<seq<Action>>, a: Action)
    requires a in Flat(parts)
    ensures exists i | 0 <= i < |parts| :: a in parts[i]
  {
    if a !in parts[|parts| - 1] {
      var front := parts[..|parts| - 1];
      FromFlat(front, a);
      var i :| 0 <= i < |front| && a in front[i];
      assert a in parts[i];
    }
  }

  lemma KeptWithoutReplace(records: seq<Record>, right: Record -> bool, content: string, a: Action)
    requires records != [] && forall r | r in records :: right(r)
    requires var kept := records[FirstOr(records, right)];
      a in [ if kept.data.proxied then Conflict(kept)
             else if !right(kept) then Update(kept, content, false)
             else Keep(kept) ]
           + Others(records, FirstOr(records, right))
    ensures !a.Update? && (a.Delete? ==> a.record in records)
  {
    var k := FirstOr(records, right);
    assert records[k] in records;
    OthersActions(records, k);
  }

  /** Without `replace`, what is not kept, created or in conflict is a duplicate that already carries the address. */
  lemma EntryWithoutReplace(canon: string -> string, l: seq<Record>, entry: Desired, a: Action)
    requires a in EntryPlan(canon, l, entry, false)
    ensures !a.Update?
    ensures a.Delete? ==>
      entry.content.Some? && SlotOf(a.record.data) == SlotAt(entry.name, entry.kind)
      && canon(a.record.data.content) == canon(entry.content.value)
  {
    var records := AtSlot(l, entry.name, entry.kind);
    if entry.content.Some? && records != [] {
      var content := entry.content.value;
      var right := Right(canon, content);
      var others := Where(records, Wrong(canon, content));
      if others == [] {
        forall r | r in records
          ensures right(r)
        {
          assert r !in others;
        }
        KeptWithoutReplace(records, right, content, a);
        if a.Delete? {
          assert right(a.record);
        }
      } else {
        StandingActions(others, false);
      }
    } else {
      StandingActions(records, false);
    }
  }

  lemma InAliases(l: seq<Record>, names: seq<string>, replace: bool, a: Action)
    requires a in Flat(Aliases(l, names, replace))
    ensures if replace then a.Delete? else a.Conflict?
  {
    var parts := Aliases(l, names, replace);
    FromFlat(parts, a);
    var i :| 0 <= i < |parts| && a in parts[i];
    assert parts[i] == AliasPlan(l, names[i], replace);
  }

  lemma InEntries(canon: string -> string, l: seq<Record>, d: seq<Desired>, replace: bool, a: Action) returns (i: nat)
    requires a in Flat(Entries(canon, l, d, replace))
    ensures i < |d| && a in EntryPlan(canon, l, d[i], replace)
  {
    var parts := Entries(canon, l, d, replace);
    FromFlat(parts, a);
    var j :| 0 <= j < |parts| && a in parts[j];
    assert parts[j] == EntryPlan(canon, l, d[j], replace);
    i := j;
  }

  predicate Carries(canon: string -> string, data: Data, e: Desired) {
    e.content.Some? && data.kind == e.kind && canon(data.content) == canon(e.content.value)
  }

  lemma PlanWithoutReplace(canon: string -> string, l: seq<Record>, d: seq<Desired>, a: Action)
    requires a in PlanRecords(canon, l, d, false)
    ensures !a.Update?
    ensures a.Delete? ==> exists e | e in d :: Carries(canon, a.record.data, e)
  {
    if a in Flat(Aliases(l, Names(d), false)) {
      InAliases(l, Names(d), false, a);
    } else {
      var i := InEntries(canon, l, d, false, a);
      EntryWithoutReplace(canon, l, d[i], a);
      if a.Delete? {
        assert d[i] in d && Carries(canon, a.record.data, d[i]);
      }
    }
  }

  lemma DesiredContents(zone: string, ipv4: string, ipv6: Option<string>, e: Desired)
    requires e in DesiredRecords(zone, ipv4, ipv6)
    ensures (e.kind == "A" && e.content == Some(ipv4)) || (e.kind == "AAAA" && e.content == ipv6)
  {
  }

  /**
   * Without `replace` the machine's plan updates nothing and deletes only duplicates
   * that already carry the machine's address.
   */
  lemma MachinePlanWithoutReplace(canon: string -> string, l: seq<Record>, zone: string, ipv4: string,
      ipv6: Option<string>, a: Action)
    requires a in MachinePlan(canon, l, zone, ipv4, ipv6, false)
    ensures !a.Update?
    ensures a.Delete? ==>
      || (a.record.data.kind == "A" && canon(a.record.data.content) == canon(ipv4))
      || (a.record.data.kind == "AAAA" && ipv6.Some? && canon(a.record.data.content) == canon(ipv6.value))
  {
    var d := DesiredRecords(zone, ipv4, ipv6);
    PlanWithoutReplace(canon, l, d, a);
    if a.Delete? {
      var e :| e in d && Carries(canon, a.record.data, e);
      DesiredContents(zone, ipv4, ipv6, e);
    }
  }

  /** The record kept, or reported proxied, at an entry whose duplicates are deleted. */
  ghost predicate Stands(canon: string -> string, plan: seq<Action>, k: Record, r: Record) {
    && k.id != r.id && SlotOf(k.data) == SlotOf(r.data) && canon(k.data.content) == canon(r.data.content)
    && (Keep(k) in plan || Conflict(k) in plan) && Delete(k) !in plan
  }

  lemma EntryDuplicate(canon: string -> string, l: seq<Record>, entry: Desired, r: Record) returns (k: Record)
    requires DistinctIds(l) && Delete(r) in EntryPlan(canon, l, entry, false)
    ensures k in AtSlot(l, entry.name, entry.kind) && Stands(canon, EntryPlan(canon, l, entry, false), k, r)
  {
    EntryWithoutReplace(canon, l, entry, Delete(r));
    var records := AtSlot(l, entry.name, entry.kind);
    var content := entry.content.value;
    var right := Right(canon, content);
    var others := Where(records, Wrong(canon, content));
    StandingActions(others, false);
    AtSlotDistinct(l, entry.name, entry.kind);
    if others == [] {
      forall x | x in records
        ensures right(x)
      {
        assert x !in others;
      }
    } else {
      StandingOnlyConflicts(others, Delete(r));
    }
    var i := FirstOr(records, right);
    OthersActions(records, i);
    k := records[i];
    assert EntryPlan(canon, l, entry, false)[0] in EntryPlan(canon, l, entry, false);
    assert right(k);
  }

  lemma DesiredApart(zone: string, ipv4: string, ipv6: Option<string>, i: nat, j: nat)
    requires i < 4 && j < 4
    ensures var d := DesiredRecords(zone, ipv4, ipv6);
      |d| == 4 && (i != j ==> SlotAt(d[i].name, d[i].kind) != SlotAt(d[j].name, d[j].kind))
  {
    assert |Lower(Wildcard(zone))| == |Lower(zone)| + 2;
  }

  lemma DeleteIsAnEntrys(canon: string -> string, l: seq<Record>, d: seq<Desired>, r: Record) returns (i: nat)
    requires Delete(r) in PlanRecords(canon, l, d, false)
    ensures i < |d| && Delete(r) in EntryPlan(canon, l, d[i], false) && SlotOf(r.data) == SlotAt(d[i].name, d[i].kind)
  {
    if Delete(r) in Flat(Aliases(l, Names(d), false)) {
      InAliases(l, Names(d), false, Delete(r));
    }
    i := InEntries(canon, l, d, false, Delete(r));
    EntryWithoutReplace(canon, l, d[i], Delete(r));
  }

  /** What stands at an entry's slot in its part of a plan stands in the whole plan. */
  lemma StandsInPlan(canon: string -> string, l: seq<Record>, zone: string, ipv4: string, ipv6: Option<string>,
      i: nat, k: Record, r: Record)
    requires i < 4 && |DesiredRecords(zone, ipv4, ipv6)| == 4
    requires var e := DesiredRecords(zone, ipv4, ipv6)[i];
      SlotOf(k.data) == SlotAt(e.name, e.kind) && Stands(canon, EntryPlan(canon, l, e, false), k, r)
    ensures Stands(canon, MachinePlan(canon, l, zone, ipv4, ipv6, false), k, r)
  {
    var d := DesiredRecords(zone, ipv4, ipv6);
    EntryInPlan(canon, l, d, false, i, Keep(k));
    EntryInPlan(canon, l, d, false, i, Conflict(k));
    if Delete(k) in MachinePlan(canon, l, zone, ipv4, ipv6, false) {
      var j := DeleteIsAnEntrys(canon, l, d, k);
      DesiredApart(zone, ipv4, ipv6, i, j);
    }
  }

  lemma DesiredAtNames(zone: string, ipv4: string, ipv6: Option<string>, e: Desired)
    requires e in DesiredRecords(zone, ipv4, ipv6)
    ensures e.name == zone || e.name == Wildcard(zone)
  {
  }

  lemma DuplicateStands(canon: string -> string, l: seq<Record>, zone: string, ipv4: string, ipv6: Option<string>,
      d: seq<Desired>, r: Record) returns (k: Record)
    requires DistinctIds(l) && d == DesiredRecords(zone, ipv4, ipv6) && |d| == 4
      && Delete(r) in PlanRecords(canon, l, d, false)
    ensures exists e | e in d :: SlotOf(r.data) == SlotAt(e.name, e.kind)
    ensures k in l && Stands(canon, MachinePlan(canon, l, zone, ipv4, ipv6, false), k, r)
  {
    var i := DeleteIsAnEntrys(canon, l, d, r);
    assert d[i] in d;
    k := EntryDuplicate(canon, l, d[i], r);
    StandsInPlan(canon, l, zone, ipv4, ipv6, i, k, r);
  }

  /**
   * And a record it deletes is a duplicate: it is at the zone or its wildcard, and
   * another of the same slot and address stays.
   */
  lemma MachineDeletesOnlyDuplicates(canon: string -> string, l: seq<Record>, zone: string, ipv4: string,
      ipv6: Option<string>, r: Record)
    requires DistinctIds(l) && Delete(r) in MachinePlan(canon, l, zone, ipv4, ipv6, false)
    ensures Lower(r.data.name) == Lower(zone) || Lower(r.data.name) == Lower(Wildcard(zone))
    ensures exists k | k in l :: Stands(canon, MachinePlan(canon, l, zone, ipv4, ipv6, false), k, r)
  {
    DesiredApart(zone, ipv4, ipv6, 0, 0);
    var d := DesiredRecords(zone, ipv4, ipv6);
    var k := DuplicateStands(canon, l, zone, ipv4, ipv6, d, r);
    var e :| e in d && SlotOf(r.data) == SlotAt(e.name, e.kind);
    DesiredAtNames(zone, ipv4, ipv6, e);
  }

  lemma EntryInPlan(canon: string -> string, l: seq<Record>, d: seq<Desired>, replace: bool, i: nat, a: Action)
    requires i < |d|
    ensures a in EntryPlan(canon, l, d[i], replace) ==> a in PlanRecords(canon, l, d, replace)
  {
    if a in EntryPlan(canon, l, d[i], replace) {
      assert Entries(canon, l, d, replace)[i] == EntryPlan(canon, l, d[i], replace);
      InFlat(Entries(canon, l, d, replace), i, a);
    }
  }

  // --- a listing that repeats a record ---------------------------------------

  /** Selecting loses no repetition. */
  lemma {:induction false} WhereRepeats(l: seq<Record>, p: Record -> bool, r: Record)
    requires p(r)
    ensures multiset(Where(l, p))[r] == multiset(l)[r]
  {
    if l != [] {
      WhereRepeats(l[1..], p, r);
      assert l == [l[0]] + l[1..];
    }
  }

  lemma AtSlotRepeats(l: seq<Record>, name: string, kind: string, r: Record)
    requires SlotOf(r.data) == SlotAt(name, kind)
    ensures multiset(AtSlot(l, name, kind))[r] == multiset(l)[r]
  {
    WhereRepeats(l, (x: Record) => Lower(x.data.name) == Lower(name), r);
    WhereRepeats(At(l, name), (x: Record) => x.data.kind == kind, r);
  }

  lemma {:induction false} OthersElsewhere(records: seq<Record>, kept: int, r: Record)
    ensures Delete(r) in Others(records, kept) <==> exists i | 0 <= i < |records| && i != kept :: records[i] == r
  {
    if records != [] {
      var front := records[..|records| - 1];
      OthersElsewhere(front, kept, r);
      if i :| 0 <= i < |records| && i != kept && records[i] == r && i < |front| {
        assert front[i] == r;
      }
    }
  }

  lemma ElsewhereMeansTwice(records: seq<Record>, kept: nat)
    requires kept < |records|
    ensures (exists i | 0 <= i < |records| && i != kept :: records[i] == records[kept]) <==>
      multiset(records)[records[kept]] >= 2
  {
    var r, front, back := records[kept], records[..kept], records[kept + 1..];
    assert records == front + [r] + back;
    assert multiset(records)[r] == multiset(front)[r] + 1 + multiset(back)[r];
    assert r in front ==> r in multiset(front);
    assert r in back ==> r in multiset(back);
    if i :| 0 <= i < |records| && i != kept && records[i] == r {
      assert i < kept ==> front[i] == r;
      assert i > kept ==> back[i - kept - 1] == r;
    }
  }

  predicate KeepsOrUpdates(a: Action, r: Record) {
    (a.Keep? || a.Update?) && a.record == r
  }

  /** An entry's part that keeps or updates is neither a creation nor a list of conflicts or deletions. */
  lemma EntryIsNotStanding(canon: string -> string, l: seq<Record>, entry: Desired, replace: bool, a: Action)
    requires a in EntryPlan(canon, l, entry, replace) && (a.Keep? || a.Update?)
    ensures entry.content.Some? && AtSlot(l, entry.name, entry.kind) != []
    ensures replace || Where(AtSlot(l, entry.name, entry.kind), Wrong(canon, entry.content.value)) == []
  {
    var records := AtSlot(l, entry.name, entry.kind);
    StandingActions(records, replace);
    if entry.content.Some? {
      StandingActions(Where(records, Wrong(canon, entry.content.value)), replace);
    }
  }

  lemma OthersDelete(plan: seq<Action>, first: Action, records: seq<Record>, k: nat, a: Action)
    requires plan == [first] + Others(records, k) && a in plan && !a.Delete?
    ensures a == first
  {
    OthersActions(records, k);
  }

  /** Only the first action of an entry's part keeps or updates, and then all the others' records go. */
  lemma EntryChooses(canon: string -> string, l: seq<Record>, entry: Desired, replace: bool, a: Action) returns (k: nat)
    requires a in EntryPlan(canon, l, entry, replace) && (a.Keep? || a.Update?)
    ensures var records := AtSlot(l, entry.name, entry.kind);
      && k < |records| && a.record == records[k]
      && EntryPlan(canon, l, entry, replace) == [a] + Others(records, k)
  {
    EntryIsNotStanding(canon, l, entry, replace, a);
    var records, plan := AtSlot(l, entry.name, entry.kind), EntryPlan(canon, l, entry, replace);
    k := FirstOr(records, Right(canon, entry.content.value));
    OthersDelete(plan, plan[0], records, k, a);
  }

  lemma EntryKeeps(canon: string -> string, l: seq<Record>, entry: Desired, replace: bool, a: Action, r: Record)
    requires a in EntryPlan(canon, l, entry, replace) && KeepsOrUpdates(a, r)
    ensures SlotOf(r.data) == SlotAt(entry.name, entry.kind)
    ensures Delete(r) in EntryPlan(canon, l, entry, replace) <==> multiset(AtSlot(l, entry.name, entry.kind))[r] >= 2
  {
    var records := AtSlot(l, entry.name, entry.kind);
    var k := EntryChooses(canon, l, entry, replace, a);
    assert r in records;
    OthersElsewhere(records, k, r);
    ElsewhereMeansTwice(records, k);
  }

  lemma AliasesAreAliases(l: seq<Record>, names: seq<string>, replace: bool, a: Action)
    requires a in Flat(Aliases(l, names, replace))
    ensures (a.Delete? || a.Conflict?) && a.record.data.kind == "CNAME"
  {
    var parts := Aliases(l, names, replace);
    FromFlat(parts, a);
    var i :| 0 <= i < |parts| && a in parts[i];
    StandingActions(AtSlot(l, names[i], "CNAME"), replace);
  }

  lemma EntryDeletes(canon: string -> string, l: seq<Record>, entry: Desired, replace: bool, r: Record)
    requires Delete(r) in EntryPlan(canon, l, entry, replace)
    ensures SlotOf(r.data) == SlotAt(entry.name, entry.kind)
  {
    var records := AtSlot(l, entry.name, entry.kind);
    StandingActions(records, replace);
    if entry.content.Some? && records != [] {
      var content := entry.content.value;
      StandingActions(Where(records, Wrong(canon, content)), replace);
      OthersActions(records, FirstOr(records, Right(canon, content)));
    }
  }

  /** What is deleted at an entry's slot is deleted by that entry's part of the plan. */
  lemma DeletedByItsEntry(canon: string -> string, l: seq<Record>, zone: string, ipv4: string, ipv6: Option<string>,
      replace: bool, i: nat, r: Record)
    requires i < 4 && |DesiredRecords(zone, ipv4, ipv6)| == 4
    requires var e := DesiredRecords(zone, ipv4, ipv6)[i]; SlotOf(r.data) == SlotAt(e.name, e.kind)
    ensures Delete(r) in MachinePlan(canon, l, zone, ipv4, ipv6, replace)
      <==> Delete(r) in EntryPlan(canon, l, DesiredRecords(zone, ipv4, ipv6)[i], replace)
  {
    var d := DesiredRecords(zone, ipv4, ipv6);
    EntryInPlan(canon, l, d, replace, i, Delete(r));
    DesiredContents(zone, ipv4, ipv6, d[i]);
    if Delete(r) in MachinePlan(canon, l, zone, ipv4, ipv6, replace) {
      if Delete(r) in Flat(Aliases(l, Names(d), replace)) {
        AliasesAreAliases(l, Names(d), replace, Delete(r));
      }
      var j := InEntries(canon, l, d, replace, Delete(r));
      EntryDeletes(canon, l, d[j], replace, r);
      DesiredApart(zone, ipv4, ipv6, i, j);
    }
  }

  /**
   * Given any listing, with or without `replace`, the plan deletes a record it
   * keeps, or updates, exactly when the listing holds that record twice.
   */
  lemma RecordListedTwiceIsDeleted(canon: string -> string, l: seq<Record>, zone: string, ipv4: string,
      ipv6: Option<string>, replace: bool, a: Action, r: Record)
    requires a in MachinePlan(canon, l, zone, ipv4, ipv6, replace) && KeepsOrUpdates(a, r)
    ensures Delete(r) in MachinePlan(canon, l, zone, ipv4, ipv6, replace) <==> multiset(l)[r] >= 2
  {
    var d := DesiredRecords(zone, ipv4, ipv6);
    if a in Flat(Aliases(l, Names(d), replace)) {
      AliasesAreAliases(l, Names(d), replace, a);
    }
    var i := InEntries(canon, l, d, replace, a);
    DesiredApart(zone, ipv4, ipv6, i, i);
    EntryKeeps(canon, l, d[i], replace, a, r);
    AtSlotRepeats(l, d[i].name, d[i].kind, r);
    DeletedByItsEntry(canon, l, zone, ipv4, ipv6, replace, i, r);
  }

  /**
   * Without `replace`, given at most one alias per name (section 10.1 of RFC 2181), a
   * tunnel's plan deletes nothing and updates only its own alias.
   */
  lemma TunnelPlanWithoutReplace(l: seq<Record>, zone: string, target: string, a: Action)
    requires |AtSlot(l, zone, "CNAME")| <= 1 && |AtSlot(l, Wildcard(zone), "CNAME")| <= 1
    requires a in PlanTunnel(l, zone, target, false)
    ensures !a.Delete?
    ensures a.Update? ==>
      && a.record.data.kind == "CNAME" && SameHost()(a.record.data.content, target)
      && a.content == target && a.proxied
  {
    FlatTwo(TunnelAt(l, zone, target, false), TunnelAt(l, Wildcard(zone), target, false));
    if a in TunnelAt(l, zone, target, false) {
      TunnelNameWithoutReplace(l, zone, target, a);
    } else {
      TunnelNameWithoutReplace(l, Wildcard(zone), target, a);
    }
  }

  lemma TunnelNameWithoutReplace(l: seq<Record>, name: string, target: string, a: Action)
    requires |AtSlot(l, name, "CNAME")| <= 1 && a in TunnelAt(l, name, target, false)
    ensures !a.Delete?
    ensures a.Update? ==>
      && a.record.data.kind == "CNAME" && SameHost()(a.record.data.content, target)
      && a.content == target && a.proxied
  {
    if a in AddressPlan(l, name, false) {
      StandingOnlyConflicts(Where(At(l, name), IsAddress), a);
    } else {
      OneAliasWithoutReplace(l, name, target, a);
    }
  }

  lemma StandingOnlyConflicts(records: seq<Record>, a: Action)
    requires a in Standing(records, false)
    ensures a.Conflict?
  {
  }

  lemma OneAliasWithoutReplace(l: seq<Record>, name: string, target: string, a: Action)
    requires |AtSlot(l, name, "CNAME")| <= 1 && a in TunnelAlias(l, name, target, false)
    ensures !a.Delete?
    ensures a.Update? ==>
      && a.record.data.kind == "CNAME" && SameHost()(a.record.data.content, target)
      && a.content == target && a.proxied
  {
    if AtSlot(l, name, "CNAME") != [] {
      TunnelAliasOfOne(l, name, target, false);
      assert AtSlot(l, name, "CNAME")[0] in AtSlot(l, name, "CNAME");
    }
  }

  /** With `replace` neither planner ever reports a conflict. */
  lemma MachinePlanWithReplace(canon: string -> string, l: seq<Record>, zone: string, ipv4: string,
      ipv6: Option<string>)
    ensures ConflictFree(MachinePlan(canon, l, zone, ipv4, ipv6, true))
  {
    var d := DesiredRecords(zone, ipv4, ipv6);
    forall a | a in MachinePlan(canon, l, zone, ipv4, ipv6, true)
      ensures !a.Conflict?
    {
      if a in Flat(Aliases(l, Names(d), true)) {
        InAliases(l, Names(d), true, a);
      } else {
        var i := InEntries(canon, l, d, true, a);
        EntryWithReplace(canon, l, d[i], a);
      }
    }
  }

  lemma TunnelPlanWithReplace(l: seq<Record>, zone: string, target: string)
    ensures ConflictFree(PlanTunnel(l, zone, target, true))
  {
    FlatTwo(TunnelAt(l, zone, target, true), TunnelAt(l, Wildcard(zone), target, true));
    forall a | a in PlanTunnel(l, zone, target, true)
      ensures !a.Conflict?
    {
      if a in TunnelAt(l, zone, target, true) {
        TunnelNameWithReplace(l, zone, target, a);
      } else {
        TunnelNameWithReplace(l, Wildcard(zone), target, a);
      }
    }
  }

  lemma EntryWithReplace(canon: string -> string, l: seq<Record>, entry: Desired, a: Action)
    requires a in EntryPlan(canon, l, entry, true)
    ensures !a.Conflict?
  {
    var records := AtSlot(l, entry.name, entry.kind);
    if entry.content.Some? && records != [] {
      var right := Right(canon, entry.content.value);
      OthersActions(records, FirstOr(records, right));
    }
  }

  lemma TunnelNameWithReplace(l: seq<Record>, name: string, target: string, a: Action)
    requires a in TunnelAt(l, name, target, true)
    ensures !a.Conflict?
  {
    var aliases := AtSlot(l, name, "CNAME");
    if aliases != [] {
      OthersActions(aliases, FirstOr(aliases, Own(target)));
    }
  }

  // --- when there is a conflict ----------------------------------------------

  lemma {:induction false} FlatConflictFree(parts: seq<seq<Action>>)
    ensures ConflictFree(Flat(parts)) <==> forall i | 0 <= i < |parts| :: ConflictFree(parts[i])
  {
    if parts != [] {
      var front := parts[..|parts| - 1];
      FlatConflictFree(front);
      PartsConflictFree(Flat(front), parts[|parts| - 1]);
      assert forall i | 0 <= i < |front| :: front[i] == parts[i];
    }
  }

  lemma StandingConflictFree(records: seq<Record>)
    ensures ConflictFree(Standing(records, false)) <==> records == []
  {
    if records != [] {
      StandingConflicts(records);
    }
  }

  /**
   * What is there already is right: nothing where nothing may be, and elsewhere only
   * the content, the first record of it unproxied.
   */
  ghost predicate AlreadyRight(canon: string -> string, l: seq<Record>, entry: Desired) {
    var records := AtSlot(l, entry.name, entry.kind);
    match entry.content
    case None => records == []
    case Some(content) =>
      && (forall r | r in records :: canon(r.data.content) == canon(content))
      && (records != [] ==> !records[0].data.proxied)
  }

  lemma NoneWrong(records: seq<Record>, canon: string -> string, content: string)
    ensures Where(records, Wrong(canon, content)) == [] <==>
      forall r | r in records :: canon(r.data.content) == canon(content)
  {
    var others := Where(records, Wrong(canon, content));
    if others != [] {
      SomeRecord(others);
    }
    assert forall r | r in records && canon(r.data.content) != canon(content) :: r in others;
  }

  lemma EntryConflictsExactly(canon: string -> string, l: seq<Record>, entry: Desired)
    ensures ConflictFree(EntryPlan(canon, l, entry, false)) <==> AlreadyRight(canon, l, entry)
  {
    var records := AtSlot(l, entry.name, entry.kind);
    match entry.content
    case None => StandingConflictFree(records);
    case Some(content) =>
      var others := Where(records, Wrong(canon, content));
      NoneWrong(records, canon, content);
      StandingConflictFree(others);
      if records != [] && others == [] {
        assert records[0] in records;
        assert FirstOr(records, Right(canon, content)) == 0;
        KeptConflicts(records, canon, content);
      }
  }

  lemma KeptConflicts(records: seq<Record>, canon: string -> string, content: string)
    requires records != []
    ensures var kept := records[0];
      var first := if kept.data.proxied then Conflict(kept)
        else if !Right(canon, content)(kept) then Update(kept, content, false) else Keep(kept);
      ConflictFree([first] + Others(records, 0)) <==> !kept.data.proxied
  {
    var kept := records[0];
    var first := if kept.data.proxied then Conflict(kept)
      else if !Right(canon, content)(kept) then Update(kept, content, false) else Keep(kept);
    OthersActions(records, 0);
    PartsConflictFree([first], Others(records, 0));
    assert first in [first];
  }

  /** Without `replace` the machine's plan is refused exactly when something else stands at one of its names. */
  lemma MachineConflictsExactly(canon: string -> string, l: seq<Record>, zone: string, ipv4: string,
      ipv6: Option<string>)
    ensures ConflictFree(MachinePlan(canon, l, zone, ipv4, ipv6, false)) <==>
      && (forall name | name in [zone, Wildcard(zone)] :: AtSlot(l, name, "CNAME") == [])
      && (forall entry | entry in DesiredRecords(zone, ipv4, ipv6) :: AlreadyRight(canon, l, entry))
  {
    var d := DesiredRecords(zone, ipv4, ipv6);
    DesiredWellPosed(zone, ipv4, ipv6);
    var a, e := Aliases(l, [zone, Wildcard(zone)], false), Entries(canon, l, d, false);
    PartsConflictFree(Flat(a), Flat(e));
    AliasesConflictExactly(l, [zone, Wildcard(zone)]);
    EntriesConflictExactly(canon, l, d);
  }

  lemma AliasesConflictExactly(l: seq<Record>, names: seq<string>)
    ensures ConflictFree(Flat(Aliases(l, names, false))) <==>
      forall name | name in names :: AtSlot(l, name, "CNAME") == []
  {
    var parts := Aliases(l, names, false);
    FlatConflictFree(parts);
    forall i | 0 <= i < |names|
      ensures ConflictFree(parts[i]) <==> AtSlot(l, names[i], "CNAME") == []
    {
      StandingConflictFree(AtSlot(l, names[i], "CNAME"));
    }
  }

  lemma EntriesConflictExactly(canon: string -> string, l: seq<Record>, d: seq<Desired>)
    ensures ConflictFree(Flat(Entries(canon, l, d, false))) <==>
      forall entry | entry in d :: AlreadyRight(canon, l, entry)
  {
    var parts := Entries(canon, l, d, false);
    FlatConflictFree(parts);
    forall i | 0 <= i < |d|
      ensures ConflictFree(parts[i]) <==> AlreadyRight(canon, l, d[i])
    {
      EntryConflictsExactly(canon, l, d[i]);
    }
  }

  /** No address at the name, and no alias there but perhaps the tunnel's own among others. */
  ghost predicate FreeForTunnel(l: seq<Record>, name: string, target: string) {
    && AtSlot(l, name, "A") == [] && AtSlot(l, name, "AAAA") == []
    && (|| AtSlot(l, name, "CNAME") == []
        || exists r | r in AtSlot(l, name, "CNAME") :: Host(r.data.content) == Host(target))
  }

  lemma AddressesConflictExactly(l: seq<Record>, name: string)
    ensures ConflictFree(AddressPlan(l, name, false)) <==> AtSlot(l, name, "A") == [] && AtSlot(l, name, "AAAA") == []
  {
    var records := Where(At(l, name), IsAddress);
    StandingConflictFree(records);
    assert forall r :: r in records <==> r in AtSlot(l, name, "A") || r in AtSlot(l, name, "AAAA");
    if records != [] {
      SomeRecord(records);
    }
    if AtSlot(l, name, "A") != [] {
      SomeRecord(AtSlot(l, name, "A"));
    }
    if AtSlot(l, name, "AAAA") != [] {
      SomeRecord(AtSlot(l, name, "AAAA"));
    }
  }

  lemma FirstThenOthers(plan: seq<Action>, records: seq<Record>, k: nat)
    requires plan != [] && plan[1..] == Others(records, k) && !plan[0].Conflict?
    ensures ConflictFree(plan)
  {
    OthersActions(records, k);
    assert plan == [plan[0]] + plan[1..];
  }

  lemma TunnelAliasConflictsExactly(l: seq<Record>, name: string, target: string)
    ensures ConflictFree(TunnelAlias(l, name, target, false)) <==>
      AtSlot(l, name, "CNAME") == [] || exists r | r in AtSlot(l, name, "CNAME") :: Host(r.data.content) == Host(target)
  {
    var aliases := AtSlot(l, name, "CNAME");
    var plan := TunnelAlias(l, name, target, false);
    if aliases != [] {
      var k := FirstOr(aliases, Own(target));
      assert aliases[k] in aliases;
      if Own(target)(aliases[k]) {
        FirstThenOthers(plan, aliases, k);
      } else {
        assert plan[0] in plan && plan[0].Conflict?;
        assert forall r | r in aliases :: !Own(target)(r);
      }
    }
  }

  /** And a tunnel's plan exactly when an address, or an alias to something else alone, does. */
  lemma TunnelConflictsExactly(l: seq<Record>, zone: string, target: string)
    ensures ConflictFree(PlanTunnel(l, zone, target, false)) <==>
      FreeForTunnel(l, zone, target) && FreeForTunnel(l, Wildcard(zone), target)
  {
    FlatTwo(TunnelAt(l, zone, target, false), TunnelAt(l, Wildcard(zone), target, false));
    PartsConflictFree(TunnelAt(l, zone, target, false), TunnelAt(l, Wildcard(zone), target, false));
    TunnelNameConflictsExactly(l, zone, target);
    TunnelNameConflictsExactly(l, Wildcard(zone), target);
  }

  lemma TunnelNameConflictsExactly(l: seq<Record>, name: string, target: string)
    ensures ConflictFree(TunnelAt(l, name, target, false)) <==> FreeForTunnel(l, name, target)
  {
    PartsConflictFree(AddressPlan(l, name, false), TunnelAlias(l, name, target, false));
    AddressesConflictExactly(l, name);
    TunnelAliasConflictsExactly(l, name, target);
  }
}
