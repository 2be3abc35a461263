/**
 * The two planners of a zone's records, the machine's addresses and the
 * tunnel's aliases: drawn whole from a listing before anything is written.
 */
module DnsPlans {
  import opened Options
  import opened Text
  import opened DnsZone

  /** What a name must hold; no content when no record of that kind may exist. */
  datatype Desired = Desired(name: string, kind: string, content: Option<string>)

  function Wildcard(zone: string): string {
    "*." + zone
  }

  function DesiredAt(name: string, ipv4: string, ipv6: Option<string>): seq<Desired> {
    [Desired(name, "A", Some(ipv4)), Desired(name, "AAAA", ipv6)]
  }

  function DesiredRecords(zone: string, ipv4: string, ipv6: Option<string>): seq<Desired> {
    DesiredAt(zone, ipv4, ipv6) + DesiredAt(Wildcard(zone), ipv4, ipv6)
  }

  // --- selecting -------------------------------------------------------------

  function Where(l: seq<Record>, p: Record -> bool): (r: seq<Record>)
    ensures forall x :: x in r <==> x in l && p(x)
  {
    if l == [] then []
    else
      assert l == [l[0]] + l[1..];
      (if p(l[0]) then [l[0]] else []) + Where(l[1..], p)
  }

  lemma {:induction false} WhereDistinct(l: seq<Record>, p: Record -> bool)
    requires DistinctIds(l)
    ensures DistinctIds(Where(l, p))
  {
    if l != [] {
      WhereDistinct(l[1..], p);
      var rest := Where(l[1..], p);
      forall i | 0 <= i < |rest|
        ensures l[0].id != rest[i].id
      {
        assert rest[i] in l[1..];
      }
    }
  }

  function At(l: seq<Record>, name: string): (r: seq<Record>)
    ensures forall x :: x in r <==> x in l && Lower(x.data.name) == Lower(name)
  {
    Where(l, (x: Record) => Lower(x.data.name) == Lower(name))
  }

  function OfKind(l: seq<Record>, kind: string): (r: seq<Record>)
    ensures forall x :: x in r <==> x in l && x.data.kind == kind
  {
    Where(l, (x: Record) => x.data.kind == kind)
  }

  function SlotAt(name: string, kind: string): Slot {
    Slot(Lower(name), kind)
  }

  function AtSlot(l: seq<Record>, name: string, kind: string): (r: seq<Record>)
    ensures forall x :: x in r <==> x in l && SlotOf(x.data) == SlotAt(name, kind)
  {
    OfKind(At(l, name), kind)
  }

  lemma AtSlotDistinct(l: seq<Record>, name: string, kind: string)
    requires DistinctIds(l)
    ensures DistinctIds(AtSlot(l, name, kind))
  {
    WhereDistinct(l, (x: Record) => Lower(x.data.name) == Lower(name));
    WhereDistinct(At(l, name), (x: Record) => x.data.kind == kind);
  }

  // --- the parts of a plan ---------------------------------------------------

  /** Records that stand in the way. */
  function Standing(records: seq<Record>, replace: bool): seq<Action> {
    seq(|records|, i requires 0 <= i < |records| => if replace then Delete(records[i]) else Conflict(records[i]))
  }

  /** Every record deleted but the one at `kept`. */
  function Others(records: seq<Record>, kept: int): seq<Action> {
    if records == [] then []
    else
      Others(records[..|records| - 1], kept)
      + (if |records| - 1 == kept then [] else [Delete(records[|records| - 1])])
  }

  /** The first record already right, the first of all when none is. */
  function FirstOr(records: seq<Record>, right: Record -> bool): (k: nat)
    requires records != []
    ensures k < |records|
    ensures (exists r | r in records :: right(r)) ==> right(records[k])
    ensures (forall r | r in records :: !right(r)) ==> k == 0
  {
    if right(records[0]) || forall r | r in records[1..] :: !right(r) then 0
    else
      assert records[1..] != [];
      1 + FirstOr(records[1..], right)
  }

  function SameBy(canon: string -> string): (string, string) -> bool {
    (a, b) => canon(a) == canon(b)
  }

  /** Records that carry the content already, and those that do not. */
  function Right(canon: string -> string, content: string): Record -> bool {
    (r: Record) => canon(r.data.content) == canon(content)
  }

  function Wrong(canon: string -> string, content: string): Record -> bool {
    (r: Record) => canon(r.data.content) != canon(content)
  }

  function EntryPlan(canon: string -> string, existing: seq<Record>, entry: Desired, replace: bool): seq<Action> {
    var records := AtSlot(existing, entry.name, entry.kind);
    match entry.content
    case None => Standing(records, replace)
    case Some(content) =>
      var right := Right(canon, content);
      var others := Where(records, Wrong(canon, content));
      if records == [] then [Create(entry.name, entry.kind, content, false)]
      else if others != [] && !replace then Standing(others, false)
      else
        var k := FirstOr(records, right);
        var kept := records[k];
        [ if kept.data.proxied && !replace then Conflict(kept)
          else if kept.data.proxied || !right(kept) then Update(kept, content, false)
          else Keep(kept) ]
        + Others(records, k)
  }

  function AliasPlan(existing: seq<Record>, name: string, replace: bool): seq<Action> {
    Standing(AtSlot(existing, name, "CNAME"), replace)
  }

  /** The parts of a plan one after the other. */
  function Flat(parts: seq<seq<Action>>): seq<Action> {
    if parts == [] then [] else Flat(parts[..|parts| - 1]) + parts[|parts| - 1]
  }

  function Aliases(existing: seq<Record>, names: seq<string>, replace: bool): seq<seq<Action>> {
    seq(|names|, i requires 0 <= i < |names| => AliasPlan(existing, names[i], replace))
  }

  function Entries(canon: string -> string, existing: seq<Record>, desired: seq<Desired>,
      replace: bool): seq<seq<Action>> {
    seq(|desired|, i requires 0 <= i < |desired| => EntryPlan(canon, existing, desired[i], replace))
  }

  function Names(desired: seq<Desired>): seq<string> {
    if desired == [] then []
    else
      var front, last := Names(desired[..|desired| - 1]), desired[|desired| - 1].name;
      if last in front then front else front + [last]
  }

  function PlanRecords(canon: string -> string, existing: seq<Record>, desired: seq<Desired>,
      replace: bool): seq<Action> {
    Flat(Aliases(existing, Names(desired), replace)) + Flat(Entries(canon, existing, desired, replace))
  }

  function Host(s: string): string {
    var h := Lower(Trim(s));
    if EndsWith(h, ".") then h[..|h| - 1] else h
  }

  function SameHost(): (string, string) -> bool {
    (a, b) => Host(a) == Host(b)
  }

  function Own(target: string): Record -> bool {
    (r: Record) => Host(r.data.content) == Host(target)
  }

  predicate IsAddress(r: Record) {
    r.data.kind == "A" || r.data.kind == "AAAA"
  }

  function AddressPlan(existing: seq<Record>, name: string, replace: bool): seq<Action> {
    Standing(Where(At(existing, name), IsAddress), replace)
  }

  function TunnelAlias(existing: seq<Record>, name: string, target: string, replace: bool): seq<Action> {
    var aliases := AtSlot(existing, name, "CNAME");
    var own := Own(target);
    if aliases == [] then [Create(name, "CNAME", target, true)]
    else
      var k := FirstOr(aliases, own);
      var kept := aliases[k];
      if !own(kept) && !replace then [Conflict(kept)]
      else [if own(kept) && kept.data.proxied then Keep(kept) else Update(kept, target, true)] + Others(aliases, k)
  }

  function TunnelAt(existing: seq<Record>, name: string, target: string, replace: bool): seq<Action> {
    AddressPlan(existing, name, replace) + TunnelAlias(existing, name, target, replace)
  }

  function PlanTunnel(existing: seq<Record>, zone: string, target: string, replace: bool): seq<Action> {
    Flat([TunnelAt(existing, zone, target, replace), TunnelAt(existing, Wildcard(zone), target, replace)])
  }

  ghost predicate ConflictFree(plan: seq<Action>) {
    forall a | a in plan :: !a.Conflict?
  }

  // --- each part settles its slot --------------------------------------------

  lemma StandingActions(records: seq<Record>, replace: bool)
    ensures forall a | a in Standing(records, replace) :: (a.Delete? || a.Conflict?) && a.record in records
    ensures ConflictFree(Standing(records, replace)) ==>
      forall r | r in records :: Delete(r) in Standing(records, replace)
  {
    var plan := Standing(records, replace);
    if ConflictFree(plan) {
      forall r | r in records
        ensures Delete(r) in plan
      {
        var i :| 0 <= i < |records| && records[i] == r;
        assert plan[i] in plan;
      }
    }
  }

  lemma StandingConflicts(records: seq<Record>)
    requires records != []
    ensures !ConflictFree(Standing(records, false))
  {
    assert Standing(records, false)[0] in Standing(records, false);
  }

  lemma SomeCreation(plan: seq<Action>)
    requires Creates(plan) != []
    ensures exists a | a in plan :: a.Create?
  {
    assert Creates(plan)[0] in Creates(plan);
  }

  lemma NoCreates(plan: seq<Action>)
    requires forall a | a in plan :: !a.Create?
    ensures Creates(plan) == []
  {
    if Creates(plan) != [] {
      SomeCreation(plan);
    }
  }

  /** Records deleted all together leave their slots empty. */
  lemma StandingSettles(same: (string, string) -> bool, l: seq<Record>, records: seq<Record>, replace: bool,
      goals: map<Slot, Goal>)
    requires forall r :: r in records <==> r in l && SlotOf(r.data) in goals
    requires forall slot | slot in goals :: goals[slot].Absent?
    requires ConflictFree(Standing(records, replace))
    ensures Settles(same, l, Standing(records, replace), goals)
  {
    var plan := Standing(records, replace);
    StandingActions(records, replace);
    NoCreates(plan);
  }

  lemma {:induction false} OthersActions(records: seq<Record>, kept: int)
    ensures forall a | a in Others(records, kept) :: a.Delete? && a.record in records
    ensures forall i | 0 <= i < |records| && i != kept :: Delete(records[i]) in Others(records, kept)
    ensures DistinctIds(records) && 0 <= kept < |records| ==>
      forall a | a in Others(records, kept) :: a.Delete? && a.record.id != records[kept].id
  {
    if records != [] {
      var front := records[..|records| - 1];
      OthersActions(front, kept);
      assert forall r | r in front :: r in records;
      forall i | 0 <= i < |records| && i != kept
        ensures Delete(records[i]) in Others(records, kept)
      {
        if i < |front| {
          assert records[i] == front[i];
        }
      }
      if DistinctIds(records) && kept == |records| - 1 {
        forall a | a in Others(front, kept)
          ensures a.record.id != records[kept].id
        {
          var i :| 0 <= i < |front| && front[i] == a.record;
        }
      }
    }
  }

  ghost predicate Chooses(same: (string, string) -> bool, a: Action, kept: Record, content: string, proxied: bool) {
    || (a == Keep(kept) && Satisfies(same, kept.data, content, proxied))
    || a == Update(kept, content, proxied)
  }

  lemma OthersDeleted(l: seq<Record>, records: seq<Record>, k: nat, slot: Slot)
    requires DistinctIds(records) && k < |records|
    requires forall r :: r in records <==> r in l && SlotOf(r.data) == slot
    ensures forall r | r in l && SlotOf(r.data) == slot && r.id != records[k].id :: Delete(r) in Others(records, k)
    ensures !DeletedIn(Others(records, k), records[k].id)
  {
    OthersActions(records, k);
    forall r | r in l && SlotOf(r.data) == slot && r.id != records[k].id
      ensures Delete(r) in Others(records, k)
    {
      var i :| 0 <= i < |records| && records[i] == r;
    }
  }

  lemma ChosenKeeps(same: (string, string) -> bool, l: seq<Record>, others: seq<Action>, kept: Record,
      first: Action, slot: Slot, content: string, proxied: bool)
    requires kept in l && SlotOf(kept.data) == slot && Chooses(same, first, kept, content, proxied)
    requires forall a | a in others :: a.Delete?
    requires forall r | r in l && SlotOf(r.data) == slot && r.id != kept.id :: Delete(r) in others
    requires !DeletedIn(others, kept.id)
    ensures KeepsOne(same, l, [first] + others, slot, content, proxied, kept)
  {
    var plan := [first] + others;
    assert first in plan && forall a :: a in plan <==> a == first || a in others;
  }

  /** One record kept or updated, the others deleted. */
  lemma ChosenSettles(same: (string, string) -> bool, l: seq<Record>, records: seq<Record>, k: nat, first: Action,
      slot: Slot, content: string, proxied: bool)
    requires DistinctIds(records) && k < |records|
    requires forall r :: r in records <==> r in l && SlotOf(r.data) == slot
    requires Chooses(same, first, records[k], content, proxied)
    ensures Settles(same, l, [first] + Others(records, k), map[slot := Exactly(content, proxied)])
  {
    var others, kept := Others(records, k), records[k];
    assert kept in records;
    OthersActions(records, k);
    OthersDeleted(l, records, k, slot);
    ChosenKeeps(same, l, others, kept, first, slot, content, proxied);
    OneSlotSettled(same, l, first, others, kept, slot, content, proxied);
  }

  lemma OneSlotSettled(same: (string, string) -> bool, l: seq<Record>, first: Action, others: seq<Action>,
      kept: Record, slot: Slot, content: string, proxied: bool)
    requires Chooses(same, first, kept, content, proxied)
      && KeepsOne(same, l, [first] + others, slot, content, proxied, kept)
    requires forall a | a in others :: a.Delete? && a.record in l && SlotOf(a.record.data) == slot
    ensures Settles(same, l, [first] + others, map[slot := Exactly(content, proxied)])
  {
    var plan := [first] + others;
    assert forall a :: a in plan <==> a == first || a in others;
    NoCreates(plan);
    SlotSettledByOne(same, l, plan, kept, slot, content, proxied);
    OneUpdateAgrees(first, others);
  }

  lemma SlotSettledByOne(same: (string, string) -> bool, l: seq<Record>, plan: seq<Action>, kept: Record,
      slot: Slot, content: string, proxied: bool)
    requires KeepsOne(same, l, plan, slot, content, proxied, kept) && forall a | a in plan :: !a.Create?
    ensures SettlesSlot(same, l, plan, slot, Exactly(content, proxied))
  {
    assert !EmptyIn(l, slot);
  }

  lemma OneUpdateAgrees(first: Action, others: seq<Action>)
    requires forall a | a in others :: a.Delete?
    ensures UpdatesAgree([first] + others)
  {
  }

  lemma CreationSettles(same: (string, string) -> bool, l: seq<Record>, name: string, kind: string, content: string,
      proxied: bool)
    requires EmptyIn(l, SlotAt(name, kind))
    ensures Settles(same, l, [Create(name, kind, content, proxied)],
      map[SlotAt(name, kind) := Exactly(content, proxied)])
  {
    var plan := [Create(name, kind, content, proxied)];
    assert plan[0] in plan;
    assert plan[1..] == [];
    assert Only(plan[1..], IsCreate()) == [];
    assert Creates(plan) == plan;
  }

  function GoalOf(content: Option<string>): Goal {
    match content
    case None => Absent
    case Some(c) => Exactly(c, false)
  }

  lemma EntrySettles(canon: string -> string, l: seq<Record>, entry: Desired, replace: bool)
    requires DistinctIds(l) && ConflictFree(EntryPlan(canon, l, entry, replace))
    ensures Settles(SameBy(canon), l, EntryPlan(canon, l, entry, replace),
      map[SlotAt(entry.name, entry.kind) := GoalOf(entry.content)])
  {
    var same := SameBy(canon);
    var slot := SlotAt(entry.name, entry.kind);
    var records := AtSlot(l, entry.name, entry.kind);
    var plan := EntryPlan(canon, l, entry, replace);
    match entry.content
    case None => StandingSettles(same, l, records, replace, map[slot := Absent]);
    case Some(content) =>
      var right := Right(canon, content);
      var others := Where(records, Wrong(canon, content));
      if records == [] {
        CreationSettles(same, l, entry.name, entry.kind, content, false);
      } else if others != [] && !replace {
        StandingConflicts(others);
      } else {
        var k := FirstOr(records, right);
        AtSlotDistinct(l, entry.name, entry.kind);
        assert plan[0] in plan;
        ChosenSettles(same, l, records, k, plan[0], slot, content, false);
      }
  }

  lemma AliasSettles(same: (string, string) -> bool, l: seq<Record>, name: string, replace: bool)
    requires ConflictFree(AliasPlan(l, name, replace))
    ensures Settles(same, l, AliasPlan(l, name, replace), map[SlotAt(name, "CNAME") := Absent])
  {
    StandingSettles(same, l, AtSlot(l, name, "CNAME"), replace, map[SlotAt(name, "CNAME") := Absent]);
  }

  // --- the whole plans -------------------------------------------------------

  function TunnelNameGoals(name: string, target: string): map<Slot, Goal> {
    map[SlotAt(name, "A") := Absent, SlotAt(name, "AAAA") := Absent, SlotAt(name, "CNAME") := Exactly(target, true)]
  }

  /** What the zone and its wildcard must hold behind a tunnel. */
  function TunnelGoals(zone: string, target: string): map<Slot, Goal> {
    TunnelNameGoals(zone, target) + TunnelNameGoals(Wildcard(zone), target)
  }

  lemma WildcardApart(zone: string)
    ensures Lower(Wildcard(zone)) != Lower(zone) && Wildcard(zone) != zone
  {
    assert |Lower(Wildcard(zone))| == |zone| + 2;
  }

  function Merged(goals: seq<map<Slot, Goal>>): map<Slot, Goal> {
    if goals == [] then map[] else Merged(goals[..|goals| - 1]) + goals[|goals| - 1]
  }

  lemma {:induction false} MergedApart(goals: seq<map<Slot, Goal>>, other: map<Slot, Goal>)
    requires forall i | 0 <= i < |goals| :: goals[i].Keys !! other.Keys
    ensures Merged(goals).Keys !! other.Keys
  {
    if goals != [] {
      MergedApart(goals[..|goals| - 1], other);
    }
  }

  lemma {:induction false} BothApart(a: seq<map<Slot, Goal>>, b: seq<map<Slot, Goal>>)
    requires forall i, j | 0 <= i < |a| && 0 <= j < |b| :: a[i].Keys !! b[j].Keys
    ensures Merged(a).Keys !! Merged(b).Keys
  {
    if b != [] {
      BothApart(a, b[..|b| - 1]);
      MergedApart(a, b[|b| - 1]);
    }
  }

  lemma {:induction false} MergedAppend(a: seq<map<Slot, Goal>>, b: seq<map<Slot, Goal>>)
    ensures Merged(a + b) == Merged(a) + Merged(b)
  {
    if b == [] {
      assert a + b == a;
    } else {
      assert (a + b)[..|a + b| - 1] == a + b[..|b| - 1];
      MergedAppend(a, b[..|b| - 1]);
    }
  }

  lemma {:induction false} MergedHolds(goals: seq<map<Slot, Goal>>, i: nat, slot: Slot)
    requires i < |goals| && slot in goals[i]
    requires forall i, j | 0 <= i < j < |goals| :: goals[i].Keys !! goals[j].Keys
    ensures slot in Merged(goals) && Merged(goals)[slot] == goals[i][slot]
  {
    if i < |goals| - 1 {
      MergedHolds(goals[..|goals| - 1], i, slot);
    }
  }

  lemma {:induction false} MergedComesFrom(goals: seq<map<Slot, Goal>>, slot: Slot)
    requires slot in Merged(goals)
    ensures exists i | 0 <= i < |goals| :: slot in goals[i]
  {
    if slot !in goals[|goals| - 1] {
      var front := goals[..|goals| - 1];
      MergedComesFrom(front, slot);
      var i :| 0 <= i < |front| && slot in front[i];
      assert goals[i] == front[i];
    }
  }

  lemma {:induction false} FlatAppend(a: seq<seq<Action>>, b: seq<seq<Action>>)
    ensures Flat(a + b) == Flat(a) + Flat(b)
  {
    if b == [] {
      assert a + b == a;
    } else {
      assert (a + b)[..|a + b| - 1] == a + b[..|b| - 1];
      FlatAppend(a, b[..|b| - 1]);
    }
  }

  lemma {:induction false} InFlat(parts: seq<seq<Action>>, i: nat, a: Action)
    requires i < |parts| && a in parts[i]
    ensures a in Flat(parts)
  {
    if i < |parts| - 1 {
      InFlat(parts[..|parts| - 1], i, a);
    }
  }

  lemma PartConflictFree(parts: seq<seq<Action>>, i: nat)
    requires i < |parts| && ConflictFree(Flat(parts))
    ensures ConflictFree(parts[i])
  {
    forall a | a in parts[i]
      ensures !a.Conflict?
    {
      InFlat(parts, i, a);
    }
  }

  /** Parts that each settle their own slots settle them all together. */
  lemma {:induction false} PartsSettle(same: (string, string) -> bool, l: seq<Record>, parts: seq<seq<Action>>,
      goals: seq<map<Slot, Goal>>)
    requires DistinctIds(l) && |parts| == |goals|
    requires forall i | 0 <= i < |parts| :: Settles(same, l, parts[i], goals[i])
    requires forall i, j | 0 <= i < j < |goals| :: goals[i].Keys !! goals[j].Keys
    ensures Settles(same, l, Flat(parts), Merged(goals))
  {
    if parts != [] {
      var front, g := parts[..|parts| - 1], goals[..|goals| - 1];
      PartsSettle(same, l, front, g);
      MergedApart(g, goals[|goals| - 1]);
      SettlesTogether(same, l, Flat(front), Merged(g), parts[|parts| - 1], goals[|goals| - 1]);
    }
  }

  function AliasGoals(names: seq<string>): seq<map<Slot, Goal>> {
    seq(|names|, i requires 0 <= i < |names| => map[SlotAt(names[i], "CNAME") := Absent])
  }

  function EntryGoals(desired: seq<Desired>): seq<map<Slot, Goal>> {
    seq(|desired|, i requires 0 <= i < |desired| =>
      map[SlotAt(desired[i].name, desired[i].kind) := GoalOf(desired[i].content)])
  }

  ghost predicate WellPosed(desired: seq<Desired>) {
    && (forall i | 0 <= i < |desired| :: desired[i].kind != "CNAME")
    && (forall i, j | 0 <= i < j < |desired| ::
      SlotAt(desired[i].name, desired[i].kind) != SlotAt(desired[j].name, desired[j].kind))
    && (forall i, j | 0 <= i < j < |Names(desired)| :: Lower(Names(desired)[i]) != Lower(Names(desired)[j]))
  }

  /** What the plan of a list must bring about: its contents, and no alias at any of its names. */
  function GoalsOf(desired: seq<Desired>): map<Slot, Goal> {
    Merged(AliasGoals(Names(desired)) + EntryGoals(desired))
  }

  lemma AliasesSettle(same: (string, string) -> bool, l: seq<Record>, names: seq<string>, replace: bool, i: nat)
    requires ConflictFree(Flat(Aliases(l, names, replace))) && i < |names|
    ensures Settles(same, l, Aliases(l, names, replace)[i], AliasGoals(names)[i])
  {
    PartConflictFree(Aliases(l, names, replace), i);
    AliasSettles(same, l, names[i], replace);
  }

  lemma EntriesSettle(canon: string -> string, l: seq<Record>, desired: seq<Desired>, replace: bool, i: nat)
    requires DistinctIds(l) && ConflictFree(Flat(Entries(canon, l, desired, replace))) && i < |desired|
    ensures Settles(SameBy(canon), l, Entries(canon, l, desired, replace)[i], EntryGoals(desired)[i])
  {
    PartConflictFree(Entries(canon, l, desired, replace), i);
    EntrySettles(canon, l, desired[i], replace);
  }

  lemma AliasPartsSettle(same: (string, string) -> bool, l: seq<Record>, desired: seq<Desired>, replace: bool)
    requires DistinctIds(l) && WellPosed(desired) && ConflictFree(Flat(Aliases(l, Names(desired), replace)))
    ensures Settles(same, l, Flat(Aliases(l, Names(desired), replace)), Merged(AliasGoals(Names(desired))))
  {
    var names := Names(desired);
    forall i | 0 <= i < |names|
      ensures Settles(same, l, Aliases(l, names, replace)[i], AliasGoals(names)[i])
    {
      AliasesSettle(same, l, names, replace, i);
    }
    PartsSettle(same, l, Aliases(l, names, replace), AliasGoals(names));
  }

  lemma EntryPartsSettle(canon: string -> string, l: seq<Record>, desired: seq<Desired>, replace: bool)
    requires DistinctIds(l) && WellPosed(desired) && ConflictFree(Flat(Entries(canon, l, desired, replace)))
    ensures Settles(SameBy(canon), l, Flat(Entries(canon, l, desired, replace)), Merged(EntryGoals(desired)))
  {
    forall i | 0 <= i < |desired|
      ensures Settles(SameBy(canon), l, Entries(canon, l, desired, replace)[i], EntryGoals(desired)[i])
    {
      EntriesSettle(canon, l, desired, replace, i);
    }
    PartsSettle(SameBy(canon), l, Entries(canon, l, desired, replace), EntryGoals(desired));
  }

  /** A plan without conflict settles what is desired, and the absence of an alias at each name. */
  lemma PlanSettles(canon: string -> string, l: seq<Record>, desired: seq<Desired>, replace: bool)
    requires DistinctIds(l) && WellPosed(desired) && ConflictFree(PlanRecords(canon, l, desired, replace))
    ensures Settles(SameBy(canon), l, PlanRecords(canon, l, desired, replace), GoalsOf(desired))
  {
    var a, e := Flat(Aliases(l, Names(desired), replace)), Flat(Entries(canon, l, desired, replace));
    var ga, ge := AliasGoals(Names(desired)), EntryGoals(desired);
    PartsConflictFree(a, e);
    AliasPartsSettle(SameBy(canon), l, desired, replace);
    EntryPartsSettle(canon, l, desired, replace);
    AliasesApartFromEntries(desired);
    BothApart(ga, ge);
    MergedAppend(ga, ge);
    SettlesTogether(SameBy(canon), l, a, Merged(ga), e, Merged(ge));
  }

  lemma AliasesApartFromEntries(desired: seq<Desired>)
    requires WellPosed(desired)
    ensures forall i, j | 0 <= i < |Names(desired)| && 0 <= j < |desired| ::
      AliasGoals(Names(desired))[i].Keys !! EntryGoals(desired)[j].Keys
  {
  }

  lemma GoalsApart(desired: seq<Desired>)
    requires WellPosed(desired)
    ensures var g := AliasGoals(Names(desired)) + EntryGoals(desired);
      forall i, j | 0 <= i < j < |g| :: g[i].Keys !! g[j].Keys
  {
  }

  lemma PartsConflictFree(a: seq<Action>, b: seq<Action>)
    ensures ConflictFree(a + b) <==> ConflictFree(a) && ConflictFree(b)
  {
    assert forall x :: x in a + b <==> x in a || x in b;
  }

  lemma DesiredWellPosed(zone: string, ipv4: string, ipv6: Option<string>)
    ensures Names(DesiredRecords(zone, ipv4, ipv6)) == [zone, Wildcard(zone)]
    ensures WellPosed(DesiredRecords(zone, ipv4, ipv6))
  {
    WildcardApart(zone);
    var d := DesiredRecords(zone, ipv4, ipv6);
    assert d[..3][..2][..1][..0] == [];
    assert Names(d[..3][..2][..1]) == [zone];
    assert Names(d[..3][..2]) == [zone];
    assert Names(d[..3]) == [zone, Wildcard(zone)];
  }

  /** The machine's plan without conflict settles the zone and its wildcard: the addresses asked for, and no alias. */
  lemma PlanRecordsSettles(canon: string -> string, l: seq<Record>, zone: string, ipv4: string,
      ipv6: Option<string>, replace: bool)
    requires DistinctIds(l) && ConflictFree(PlanRecords(canon, l, DesiredRecords(zone, ipv4, ipv6), replace))
    ensures Settles(SameBy(canon), l, PlanRecords(canon, l, DesiredRecords(zone, ipv4, ipv6), replace),
      GoalsOf(DesiredRecords(zone, ipv4, ipv6)))
  {
    DesiredWellPosed(zone, ipv4, ipv6);
    PlanSettles(canon, l, DesiredRecords(zone, ipv4, ipv6), replace);
  }

  lemma AddressesSettle(same: (string, string) -> bool, l: seq<Record>, name: string, replace: bool)
    requires ConflictFree(AddressPlan(l, name, replace))
    ensures Settles(same, l, AddressPlan(l, name, replace),
      map[SlotAt(name, "A") := Absent, SlotAt(name, "AAAA") := Absent])
  {
    StandingSettles(same, l, Where(At(l, name), IsAddress), replace,
      map[SlotAt(name, "A") := Absent, SlotAt(name, "AAAA") := Absent]);
  }

  lemma TunnelAliasSettles(l: seq<Record>, name: string, target: string, replace: bool)
    requires DistinctIds(l) && ConflictFree(TunnelAlias(l, name, target, replace))
    ensures Settles(SameHost(), l, TunnelAlias(l, name, target, replace),
      map[SlotAt(name, "CNAME") := Exactly(target, true)])
  {
    var aliases := AtSlot(l, name, "CNAME");
    var own := Own(target);
    var plan := TunnelAlias(l, name, target, replace);
    if aliases == [] {
      CreationSettles(SameHost(), l, name, "CNAME", target, true);
    } else {
      AtSlotDistinct(l, name, "CNAME");
      var k := FirstOr(aliases, own);
      assert plan[0] in plan;
      ChosenSettles(SameHost(), l, aliases, k, plan[0], SlotAt(name, "CNAME"), target, true);
    }
  }

  lemma TunnelNameSettles(l: seq<Record>, name: string, target: string, replace: bool)
    requires DistinctIds(l) && ConflictFree(TunnelAt(l, name, target, replace))
    ensures Settles(SameHost(), l, TunnelAt(l, name, target, replace), TunnelNameGoals(name, target))
  {
    var a, b := AddressPlan(l, name, replace), TunnelAlias(l, name, target, replace);
    PartsConflictFree(a, b);
    AddressesSettle(SameHost(), l, name, replace);
    TunnelAliasSettles(l, name, target, replace);
    NameTogether(SameHost(), l, a, b, name, target);
  }

  lemma NameTogether(same: (string, string) -> bool, l: seq<Record>, a: seq<Action>, b: seq<Action>, name: string,
      target: string)
    requires DistinctIds(l)
    requires Settles(same, l, a, map[SlotAt(name, "A") := Absent, SlotAt(name, "AAAA") := Absent])
    requires Settles(same, l, b, map[SlotAt(name, "CNAME") := Exactly(target, true)])
    ensures Settles(same, l, a + b, TunnelNameGoals(name, target))
  {
    var gone: map<Slot, Goal> := map[SlotAt(name, "A") := Absent, SlotAt(name, "AAAA") := Absent];
    var made := map[SlotAt(name, "CNAME") := Exactly(target, true)];
    assert gone + made == TunnelNameGoals(name, target);
    SettlesTogether(same, l, a, gone, b, made);
  }

  /** A tunnel's plan without conflict settles the zone and its wildcard: one proxied alias each, and no address. */
  lemma PlanTunnelSettles(l: seq<Record>, zone: string, target: string, replace: bool)
    requires DistinctIds(l) && ConflictFree(PlanTunnel(l, zone, target, replace))
    ensures Settles(SameHost(), l, PlanTunnel(l, zone, target, replace), TunnelGoals(zone, target))
  {
    var m, n := zone, Wildcard(zone);
    var parts := [TunnelAt(l, m, target, replace), TunnelAt(l, n, target, replace)];
    WildcardApart(zone);
    PartConflictFree(parts, 0);
    PartConflictFree(parts, 1);
    TunnelNameSettles(l, m, target, replace);
    TunnelNameSettles(l, n, target, replace);
    FlatTwo(parts[0], parts[1]);
    NamesTogether(SameHost(), l, parts[0], parts[1], m, n, target);
  }

  lemma NamesTogether(same: (string, string) -> bool, l: seq<Record>, a: seq<Action>, b: seq<Action>, m: string,
      n: string, target: string)
    requires DistinctIds(l) && Lower(m) != Lower(n)
    requires Settles(same, l, a, TunnelNameGoals(m, target)) && Settles(same, l, b, TunnelNameGoals(n, target))
    ensures Settles(same, l, a + b, TunnelNameGoals(m, target) + TunnelNameGoals(n, target))
  {
    TunnelGoalsApart(m, n, target);
    SettlesTogether(same, l, a, TunnelNameGoals(m, target), b, TunnelNameGoals(n, target));
  }

  lemma TunnelGoalsApart(m: string, n: string, target: string)
    requires Lower(m) != Lower(n)
    ensures TunnelNameGoals(m, target).Keys !! TunnelNameGoals(n, target).Keys
  {
  }

  lemma FlatTwo(a: seq<Action>, b: seq<Action>)
    ensures Flat([a, b]) == a + b
  {
    assert [a, b][..1] == [a] && [a][..0] == [];
    assert Flat([a]) == a;
  }

  /** The goals of the machine's records: both addresses at both names, no alias, and nothing at any other slot. */
  lemma DesiredGoals(zone: string, ipv4: string, ipv6: Option<string>, name: string)
    requires name == zone || name == Wildcard(zone)
    ensures var goals := GoalsOf(DesiredRecords(zone, ipv4, ipv6));
      && SlotAt(name, "A") in goals && goals[SlotAt(name, "A")] == Exactly(ipv4, false)
      && SlotAt(name, "AAAA") in goals && goals[SlotAt(name, "AAAA")] == GoalOf(ipv6)
      && SlotAt(name, "CNAME") in goals && goals[SlotAt(name, "CNAME")] == Absent
  {
    var d := DesiredRecords(zone, ipv4, ipv6);
    DesiredWellPosed(zone, ipv4, ipv6);
    GoalsApart(d);
    var goals := AliasGoals(Names(d)) + EntryGoals(d);
    var k := if name == zone then 0 else 1;
    assert |AliasGoals(Names(d))| == 2 && Names(d)[k] == name;
    assert d[2 * k] == Desired(name, "A", Some(ipv4)) && d[2 * k + 1] == Desired(name, "AAAA", ipv6);
    MergedHolds(goals, k, SlotAt(name, "CNAME"));
    MergedHolds(goals, 2 + 2 * k, SlotAt(name, "A"));
    MergedHolds(goals, 2 + 2 * k + 1, SlotAt(name, "AAAA"));
  }

  predicate AtZone(zone: string, slot: Slot) {
    (slot.name == Lower(zone) || slot.name == Lower(Wildcard(zone))) && slot.kind in {"A", "AAAA", "CNAME"}
  }

  lemma DesiredGoalsOnly(zone: string, ipv4: string, ipv6: Option<string>, slot: Slot)
    requires slot in GoalsOf(DesiredRecords(zone, ipv4, ipv6))
    ensures AtZone(zone, slot)
  {
    var d := DesiredRecords(zone, ipv4, ipv6);
    DesiredWellPosed(zone, ipv4, ipv6);
    MergedComesFrom(AliasGoals(Names(d)) + EntryGoals(d), slot);
  }
}
