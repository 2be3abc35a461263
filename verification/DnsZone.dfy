/**
 * A DNS zone as its provider keeps it, what a plan's actions do to it in the
 * order they are sent, and what any plan that settles its slots achieves.
 */
module DnsZone {
  import opened Text

  datatype Data = Data(kind: string, name: string, content: string, proxied: bool)

  /** A record as a listing gives it. */
  datatype Record = Record(id: nat, data: Data)

  datatype Action =
    | Keep(record: Record)
    | Create(name: string, kind: string, content: string, proxied: bool)
    | Update(record: Record, content: string, proxied: bool)
    | Delete(record: Record)
    | Conflict(record: Record)

  /** The records by id, and the next id the provider gives. */
  datatype Zone = Zone(records: map<nat, Data>, next: nat)

  ghost predicate ValidZone(z: Zone) {
    forall id | id in z.records :: id < z.next
  }

  /** A name, whatever its case, and a record type. */
  datatype Slot = Slot(name: string, kind: string)

  function SlotOf(d: Data): Slot {
    Slot(Lower(d.name), d.kind)
  }

  function SlotOfCreate(a: Action): Slot
    requires a.Create?
  {
    Slot(Lower(a.name), a.kind)
  }

  datatype Goal = Absent | Exactly(content: string, proxied: bool)

  // --- applying --------------------------------------------------------------

  function Step(z: Zone, a: Action): Zone {
    match a
    case Create(name, kind, content, proxied) =>
      Zone(z.records[z.next := Data(kind, name, content, proxied)], z.next + 1)
    case Update(r, content, proxied) =>
      if r.id !in z.records then z
      else z.(records := z.records[r.id := z.records[r.id].(content := content, proxied := proxied)])
    case Delete(r) => z.(records := z.records - {r.id})
    case _ => z
  }

  function Exec(z: Zone, actions: seq<Action>): Zone {
    if actions == [] then z else Step(Exec(z, actions[..|actions| - 1]), actions[|actions| - 1])
  }

  /** The actions of one kind, in the plan's order. */
  function Only(plan: seq<Action>, p: Action -> bool): (r: seq<Action>)
    ensures forall a :: a in r <==> a in plan && p(a)
  {
    if plan == [] then []
    else
      assert plan == [plan[0]] + plan[1..];
      (if p(plan[0]) then [plan[0]] else []) + Only(plan[1..], p)
  }

  lemma {:induction false} OnlyAppend(a: seq<Action>, b: seq<Action>, p: Action -> bool)
    ensures Only(a + b, p) == Only(a, p) + Only(b, p)
  {
    if a == [] {
      assert a + b == b;
    } else {
      assert (a + b)[1..] == a[1..] + b;
      OnlyAppend(a[1..], b, p);
    }
  }

  function IsDelete(): Action -> bool { (a: Action) => a.Delete? }

  function IsUpdate(): Action -> bool { (a: Action) => a.Update? }

  function IsCreate(): Action -> bool { (a: Action) => a.Create? }

  function Deletes(plan: seq<Action>): (r: seq<Action>)
    ensures forall a :: a in r <==> a in plan && a.Delete?
  {
    Only(plan, IsDelete())
  }

  function Updates(plan: seq<Action>): (r: seq<Action>)
    ensures forall a :: a in r <==> a in plan && a.Update?
  {
    Only(plan, IsUpdate())
  }

  function Creates(plan: seq<Action>): (r: seq<Action>)
    ensures forall a :: a in r <==> a in plan && a.Create?
  {
    Only(plan, IsCreate())
  }

  /** The order the actions are sent in: every deletion, then every update, then every creation. */
  function Schedule(plan: seq<Action>): seq<Action> {
    Deletes(plan) + Updates(plan) + Creates(plan)
  }

  lemma {:induction false} ExecAppend(z: Zone, a: seq<Action>, b: seq<Action>)
    ensures Exec(z, a + b) == Exec(Exec(z, a), b)
  {
    if b == [] {
      assert a + b == a;
    } else {
      var front := b[..|b| - 1];
      assert (a + b)[..|a + b| - 1] == a + front;
      ExecAppend(z, a, front);
    }
  }

  // --- the three passes ------------------------------------------------------

  predicate DeletedIn(actions: seq<Action>, id: nat) {
    exists a | a in actions :: a.Delete? && a.record.id == id
  }

  predicate UpdatedIn(actions: seq<Action>, id: nat) {
    exists a | a in actions :: a.Update? && a.record.id == id
  }

  lemma {:induction false} DeletePass(z: Zone, d: seq<Action>)
    requires forall a | a in d :: a.Delete?
    ensures var t := Exec(z, d);
      && t.next == z.next
      && t.records.Keys == set id | id in z.records && !DeletedIn(d, id)
      && forall id | id in t.records :: id in z.records && t.records[id] == z.records[id]
  {
    if d != [] {
      var front := d[..|d| - 1];
      var last := d[|d| - 1];
      assert forall a | a in front :: a in d;
      assert d == front + [last];
      DeletePass(z, front);
      assert forall id :: DeletedIn(d, id) <==> DeletedIn(front, id) || last.record.id == id;
    }
  }

  /** Updates agree on what each record becomes. */
  ghost predicate UpdatesAgree(u: seq<Action>) {
    forall a, b | a in u && b in u && a.Update? && b.Update? && a.record.id == b.record.id ::
      a.content == b.content && a.proxied == b.proxied
  }

  /** What updates leave alone: the ids, the slots, the records none of them names. */
  lemma {:induction false} UpdatePassKeeps(z: Zone, u: seq<Action>)
    requires forall a | a in u :: a.Update?
    ensures Exec(z, u).next == z.next && Exec(z, u).records.Keys == z.records.Keys
    ensures forall id | id in z.records :: SlotOf(Exec(z, u).records[id]) == SlotOf(z.records[id])
    ensures forall id | id in z.records && !UpdatedIn(u, id) :: Exec(z, u).records[id] == z.records[id]
  {
    if u != [] {
      var front := u[..|u| - 1];
      var last := u[|u| - 1];
      assert forall a | a in front :: a in u;
      assert last in u;
      UpdatePassKeeps(z, front);
      UpdatedByMore(front, last, u);
      UpdateStepKeeps(Exec(z, front), last);
    }
  }

  lemma UpdatedByMore(front: seq<Action>, last: Action, u: seq<Action>)
    requires u == front + [last] && last.Update?
    ensures forall id :: UpdatedIn(front, id) || last.record.id == id ==> UpdatedIn(u, id)
  {
    assert last in u && forall a | a in front :: a in u;
  }

  lemma UpdateStepKeeps(z: Zone, a: Action)
    requires a.Update?
    ensures Step(z, a).next == z.next && Step(z, a).records.Keys == z.records.Keys
    ensures forall id | id in z.records :: SlotOf(Step(z, a).records[id]) == SlotOf(z.records[id])
    ensures forall id | id in z.records && id != a.record.id :: Step(z, a).records[id] == z.records[id]
  {
  }

  /** What an update writes stays written. */
  lemma {:induction false} UpdatePassWrites(z: Zone, u: seq<Action>, a: Action)
    requires (forall b | b in u :: b.Update?) && UpdatesAgree(u)
    requires a in u && a.record.id in z.records
    ensures a.record.id in Exec(z, u).records
    ensures Exec(z, u).records[a.record.id].content == a.content && Exec(z, u).records[a.record.id].proxied == a.proxied
  {
    var front := u[..|u| - 1];
    var last := u[|u| - 1];
    assert u == front + [last];
    assert forall b | b in front :: b in u;
    UpdatePassKeeps(z, front);
    if last.record.id != a.record.id {
      UpdatePassWrites(z, front, a);
    }
  }

  function Created(a: Action): Data
    requires a.Create?
  {
    Data(a.kind, a.name, a.content, a.proxied)
  }

  lemma {:induction false} CreatePass(z: Zone, c: seq<Action>)
    requires ValidZone(z) && forall i | 0 <= i < |c| :: c[i].Create?
    ensures Exec(z, c).next == z.next + |c|
    ensures forall id :: id in Exec(z, c).records <==> id in z.records || z.next <= id < z.next + |c|
    ensures forall id | id in z.records :: Exec(z, c).records[id] == z.records[id]
    ensures forall id | z.next <= id < z.next + |c| :: Exec(z, c).records[id] == Created(c[id - z.next])
  {
    if c != [] {
      var front, last := c[..|c| - 1], c[|c| - 1];
      CreatePass(z, front);
      var y := Exec(z, front);
      assert Exec(z, c) == Zone(y.records[y.next := Created(last)], y.next + 1);
    }
  }

  // --- what a plan must do ---------------------------------------------------

  ghost predicate Lists(l: seq<Record>, z: Zone, slots: set<Slot>) {
    && (forall r | r in l :: r.id in z.records && z.records[r.id] == r.data)
    && (forall id | id in z.records && SlotOf(z.records[id]) in slots :: Record(id, z.records[id]) in l)
  }

  ghost predicate CreatesAt(plan: seq<Action>, slot: Slot) {
    exists a | a in plan :: a.Create? && SlotOfCreate(a) == slot
  }

  ghost predicate EmptyIn(l: seq<Record>, slot: Slot) {
    forall r | r in l :: SlotOf(r.data) != slot
  }

  ghost predicate AllDeleted(l: seq<Record>, plan: seq<Action>, slot: Slot) {
    forall r | r in l && SlotOf(r.data) == slot :: Delete(r) in plan
  }

  predicate Satisfies(same: (string, string) -> bool, d: Data, content: string, proxied: bool) {
    same(d.content, content) && d.proxied == proxied
  }

  /** One record of the slot stays, as it is when that is right, updated otherwise; the others go. */
  ghost predicate KeepsOne(same: (string, string) -> bool, l: seq<Record>, plan: seq<Action>, slot: Slot,
      content: string, proxied: bool, kept: Record) {
    && kept in l && SlotOf(kept.data) == slot
    && !DeletedIn(plan, kept.id)
    && (forall r | r in l && SlotOf(r.data) == slot && r.id != kept.id :: Delete(r) in plan)
    && (Update(kept, content, proxied) in plan
      || (Satisfies(same, kept.data, content, proxied) && !UpdatedIn(plan, kept.id)))
    && (forall a | a in plan && a.Update? && a.record.id == kept.id :: a.content == content && a.proxied == proxied)
  }

  ghost predicate SettlesSlot(same: (string, string) -> bool, l: seq<Record>, plan: seq<Action>, slot: Slot,
      goal: Goal) {
    match goal
    case Absent => AllDeleted(l, plan, slot) && !CreatesAt(plan, slot)
    case Exactly(content, proxied) =>
      if EmptyIn(l, slot) then
        && CreatesAt(plan, slot)
        && (forall a | a in plan && a.Create? && SlotOfCreate(a) == slot ::
          a.content == content && a.proxied == proxied)
      else
        && !CreatesAt(plan, slot)
        && exists kept :: KeepsOne(same, l, plan, slot, content, proxied, kept)
  }

  ghost predicate CreatesApart(c: seq<Action>) {
    && (forall i | 0 <= i < |c| :: c[i].Create?)
    && (forall i, j | 0 <= i < j < |c| :: SlotOfCreate(c[i]) != SlotOfCreate(c[j]))
  }

  /** The plan concerns only the records listed at its slots, creates at most once in each, and settles them all. */
  ghost predicate Settles(same: (string, string) -> bool, l: seq<Record>, plan: seq<Action>, goals: map<Slot, Goal>) {
    && (forall a | a in plan && !a.Create? :: !a.Conflict? && a.record in l && SlotOf(a.record.data) in goals)
    && (forall a | a in plan && a.Create? :: SlotOfCreate(a) in goals)
    && CreatesApart(Creates(plan))
    && UpdatesAgree(plan)
    && (forall slot | slot in goals :: SettlesSlot(same, l, plan, slot, goals[slot]))
  }

  // --- what it achieves ------------------------------------------------------

  ghost predicate Alone(z: Zone, slot: Slot, id: nat) {
    forall other | other in z.records && SlotOf(z.records[other]) == slot :: other == id
  }

  ghost predicate Meets(same: (string, string) -> bool, z: Zone, slot: Slot, goal: Goal) {
    match goal
    case Absent => forall id | id in z.records :: SlotOf(z.records[id]) != slot
    case Exactly(content, proxied) =>
      exists id | id in z.records ::
        SlotOf(z.records[id]) == slot && Satisfies(same, z.records[id], content, proxied) && Alone(z, slot, id)
  }

  /** `w` is the zone `z` once the plan's deletions and updates are sent. */
  ghost predicate Clears(z: Zone, plan: seq<Action>, w: Zone) {
    && w.next == z.next && ValidZone(w)
    && (forall id :: id in w.records <==> id in z.records && !DeletedIn(plan, id))
    && (forall id | id in w.records :: SlotOf(w.records[id]) == SlotOf(z.records[id]))
    && (forall id | id in w.records && !UpdatedIn(plan, id) :: w.records[id] == z.records[id])
    && (forall a | a in plan && a.Update? && a.record.id in w.records ::
          w.records[a.record.id].content == a.content && w.records[a.record.id].proxied == a.proxied)
  }

  /** `t` is the zone `w` once the creations `c` are sent. */
  ghost predicate Adds(w: Zone, c: seq<Action>, t: Zone) {
    && (forall i | 0 <= i < |c| :: c[i].Create?)
    && t.next == w.next + |c|
    && (forall id :: id in t.records <==> id in w.records || w.next <= id < w.next + |c|)
    && (forall id | id in w.records :: t.records[id] == w.records[id])
    && (forall id | w.next <= id < w.next + |c| :: t.records[id] == Created(c[id - w.next]))
  }

  function Cleared(z: Zone, plan: seq<Action>): Zone {
    Exec(Exec(z, Deletes(plan)), Updates(plan))
  }

  function Applied(z: Zone, plan: seq<Action>): Zone {
    Exec(z, Schedule(plan))
  }

  lemma ClearedClears(z: Zone, plan: seq<Action>)
    requires ValidZone(z) && UpdatesAgree(plan)
    ensures Clears(z, plan, Cleared(z, plan))
  {
    var d, u := Deletes(plan), Updates(plan);
    var z1 := Exec(z, d);
    DeletePass(z, d);
    assert forall id :: DeletedIn(d, id) <==> DeletedIn(plan, id);
    UpdatePassKeeps(z1, u);
    assert forall id :: UpdatedIn(u, id) <==> UpdatedIn(plan, id);
    forall a | a in plan && a.Update? && a.record.id in z1.records
      ensures Exec(z1, u).records[a.record.id].content == a.content
        && Exec(z1, u).records[a.record.id].proxied == a.proxied
    {
      UpdatePassWrites(z1, u, a);
    }
  }

  lemma ExecAdds(w: Zone, c: seq<Action>)
    requires ValidZone(w) && forall i | 0 <= i < |c| :: c[i].Create?
    ensures Adds(w, c, Exec(w, c))
  {
    CreatePass(w, c);
  }

  lemma AppliedAdds(z: Zone, plan: seq<Action>)
    requires ValidZone(Cleared(z, plan))
    ensures Adds(Cleared(z, plan), Creates(plan), Applied(z, plan))
  {
    ExecAppend(z, Deletes(plan), Updates(plan));
    ExecAppend(z, Deletes(plan) + Updates(plan), Creates(plan));
    var c := Creates(plan);
    assert forall i | 0 <= i < |c| :: c[i] in c;
    ExecAdds(Cleared(z, plan), c);
  }

  /** At a slot whose listed records are all deleted, but perhaps one, nothing else of the zone is left. */
  lemma NothingLeft(z: Zone, l: seq<Record>, plan: seq<Action>, w: Zone, slots: set<Slot>, slot: Slot, but: int)
    requires Clears(z, plan, w) && Lists(l, z, slots) && slot in slots
    requires forall r | r in l && SlotOf(r.data) == slot && r.id != but :: Delete(r) in plan
    ensures forall id | id in w.records && SlotOf(w.records[id]) == slot :: id == but
  {
    forall id | id in z.records && SlotOf(z.records[id]) == slot && id != but
      ensures DeletedIn(plan, id)
    {
      assert Delete(Record(id, z.records[id])) in plan;
    }
  }

  /** A record made at a slot was made by a creation there. */
  lemma MadeByCreation(plan: seq<Action>, w: Zone, t: Zone, slot: Slot, id: nat)
    requires Adds(w, Creates(plan), t) && id in t.records && id !in w.records && SlotOf(t.records[id]) == slot
    ensures CreatesAt(plan, slot)
  {
    var a := Creates(plan)[id - w.next];
    assert a in Creates(plan);
  }

  lemma AbsentMet(same: (string, string) -> bool, z: Zone, l: seq<Record>, plan: seq<Action>, w: Zone, t: Zone,
      slots: set<Slot>, slot: Slot)
    requires Clears(z, plan, w) && Adds(w, Creates(plan), t) && Lists(l, z, slots) && slot in slots
    requires SettlesSlot(same, l, plan, slot, Absent)
    ensures Meets(same, t, slot, Absent)
  {
    NothingLeft(z, l, plan, w, slots, slot, -1);
    forall id | id in t.records && SlotOf(t.records[id]) == slot
      ensures false
    {
      if id !in w.records {
        MadeByCreation(plan, w, t, slot, id);
      }
    }
  }

  lemma CreatedMet(same: (string, string) -> bool, z: Zone, l: seq<Record>, plan: seq<Action>, w: Zone, t: Zone,
      slots: set<Slot>, slot: Slot, content: string, proxied: bool)
    requires Clears(z, plan, w) && Adds(w, Creates(plan), t) && Lists(l, z, slots) && slot in slots
    requires SettlesSlot(same, l, plan, slot, Exactly(content, proxied)) && EmptyIn(l, slot)
      && CreatesApart(Creates(plan))
    requires same(content, content)
    ensures Meets(same, t, slot, Exactly(content, proxied))
  {
    NothingLeft(z, l, plan, w, slots, slot, -1);
    var a :| a in plan && a.Create? && SlotOfCreate(a) == slot;
    var i :| 0 <= i < |Creates(plan)| && Creates(plan)[i] == a;
    CreatedAlone(w, Creates(plan), t, slot, i);
    assert t.records[w.next + i] == Created(a);
  }

  lemma CreatedAlone(w: Zone, c: seq<Action>, t: Zone, slot: Slot, i: nat)
    requires Adds(w, c, t) && CreatesApart(c) && !Occupied(w, slot) && i < |c| && SlotOfCreate(c[i]) == slot
    ensures w.next + i in t.records && t.records[w.next + i] == Created(c[i]) && SlotOf(t.records[w.next + i]) == slot
    ensures Alone(t, slot, w.next + i)
  {
    assert c[w.next + i - w.next] == c[i];
    forall other | other in t.records && SlotOf(t.records[other]) == slot
      ensures other == w.next + i
    {
      assert other !in w.records;
      var j := other - w.next;
      assert 0 <= j < |c| && SlotOfCreate(c[j]) == slot;
    }
  }

  lemma KeptMet(same: (string, string) -> bool, z: Zone, l: seq<Record>, plan: seq<Action>, w: Zone, t: Zone,
      slots: set<Slot>, slot: Slot, content: string, proxied: bool, kept: Record)
    requires Clears(z, plan, w) && Adds(w, Creates(plan), t) && Lists(l, z, slots) && slot in slots
    requires KeepsOne(same, l, plan, slot, content, proxied, kept) && !CreatesAt(plan, slot)
    requires same(content, content)
    ensures Meets(same, t, slot, Exactly(content, proxied))
  {
    NothingLeft(z, l, plan, w, slots, slot, kept.id);
    var id := kept.id;
    assert id in w.records && SlotOf(w.records[id]) == slot;
    assert Satisfies(same, w.records[id], content, proxied) by {
      if Update(kept, content, proxied) in plan {
        assert w.records[id].content == content;
      }
    }
    assert id in t.records && t.records[id] == w.records[id];
    forall other | other in t.records && SlotOf(t.records[other]) == slot
      ensures other == id
    {
      if other !in w.records {
        MadeByCreation(plan, w, t, slot, other);
      }
    }
  }

  /** A settling plan, applied, meets every goal. */
  lemma SettledMeetsGoals(same: (string, string) -> bool, z: Zone, l: seq<Record>, plan: seq<Action>,
      goals: map<Slot, Goal>, slot: Slot)
    requires ValidZone(z) && Lists(l, z, goals.Keys) && Settles(same, l, plan, goals) && (forall s :: same(s, s))
    requires slot in goals
    ensures Meets(same, Applied(z, plan), slot, goals[slot])
  {
    var w, t := Cleared(z, plan), Applied(z, plan);
    ClearedClears(z, plan);
    AppliedAdds(z, plan);
    assert SettlesSlot(same, l, plan, slot, goals[slot]);
    match goals[slot]
    case Absent => AbsentMet(same, z, l, plan, w, t, goals.Keys, slot);
    case Exactly(content, proxied) =>
      if EmptyIn(l, slot) {
        CreatedMet(same, z, l, plan, w, t, goals.Keys, slot, content, proxied);
      } else {
        var kept :| KeepsOne(same, l, plan, slot, content, proxied, kept);
        KeptMet(same, z, l, plan, w, t, goals.Keys, slot, content, proxied, kept);
      }
  }

  lemma UnlistedUntouched(same: (string, string) -> bool, z: Zone, l: seq<Record>, plan: seq<Action>,
      goals: map<Slot, Goal>, id: nat)
    requires Lists(l, z, goals.Keys) && Settles(same, l, plan, goals)
    requires id in z.records && SlotOf(z.records[id]) !in goals
    ensures !DeletedIn(plan, id) && !UpdatedIn(plan, id)
  {
  }

  /** And touches nothing else: a record at another slot stands as it was, and none appears there. */
  lemma SettledTouchesNothingElse(same: (string, string) -> bool, z: Zone, l: seq<Record>, plan: seq<Action>,
      goals: map<Slot, Goal>, id: nat)
    requires ValidZone(z) && Lists(l, z, goals.Keys) && Settles(same, l, plan, goals)
    ensures ValidZone(Applied(z, plan))
    ensures id in z.records && SlotOf(z.records[id]) !in goals ==>
      id in Applied(z, plan).records && Applied(z, plan).records[id] == z.records[id]
    ensures id in Applied(z, plan).records && SlotOf(Applied(z, plan).records[id]) !in goals ==>
      id in z.records && Applied(z, plan).records[id] == z.records[id]
  {
    var w, t := Cleared(z, plan), Applied(z, plan);
    ClearedClears(z, plan);
    AppliedAdds(z, plan);
    if id in z.records && SlotOf(z.records[id]) !in goals {
      UnlistedUntouched(same, z, l, plan, goals, id);
    }
    if id in t.records && id !in w.records {
      MadeByCreation(plan, w, t, SlotOf(t.records[id]), id);
    }
  }

  // --- plans side by side ----------------------------------------------------

  /** No record is listed twice. */
  ghost predicate DistinctIds(l: seq<Record>) {
    forall i, j | 0 <= i < j < |l| :: l[i].id != l[j].id
  }

  /** Every action of the plan is about a record listed elsewhere than at the slot, or a creation elsewhere. */
  ghost predicate Elsewhere(l: seq<Record>, plan: seq<Action>, slot: Slot) {
    forall a | a in plan ::
      if a.Create? then SlotOfCreate(a) != slot else a.record in l && SlotOf(a.record.data) != slot
  }

  lemma SlotSettledBeside(same: (string, string) -> bool, l: seq<Record>, part: seq<Action>, other: seq<Action>,
      plan: seq<Action>, slot: Slot, goal: Goal)
    requires DistinctIds(l) && SettlesSlot(same, l, part, slot, goal) && Elsewhere(l, other, slot)
    requires forall a :: a in plan <==> a in part || a in other
    ensures SettlesSlot(same, l, plan, slot, goal)
  {
    if goal.Exactly? && !EmptyIn(l, slot) {
      var kept :| KeepsOne(same, l, part, slot, goal.content, goal.proxied, kept);
      assert KeepsOne(same, l, plan, slot, goal.content, goal.proxied, kept);
    }
  }

  lemma CreatesApartTogether(a: seq<Action>, b: seq<Action>)
    requires CreatesApart(Creates(a)) && CreatesApart(Creates(b))
    requires forall x, y | x in Creates(a) && y in Creates(b) ::
      x.Create? && y.Create? && SlotOfCreate(x) != SlotOfCreate(y)
    ensures CreatesApart(Creates(a + b))
  {
    OnlyAppend(a, b, IsCreate());
    var c := Creates(a) + Creates(b);
    forall i, j | 0 <= i < j < |c|
      ensures SlotOfCreate(c[i]) != SlotOfCreate(c[j])
    {
      if i < |Creates(a)| <= j {
        assert c[i] in Creates(a) && c[j] in Creates(b);
      }
    }
  }

  /** Two plans that settle different slots of one listing settle them all together. */
  lemma SettlesTogether(same: (string, string) -> bool, l: seq<Record>, a: seq<Action>, goalsA: map<Slot, Goal>,
      b: seq<Action>, goalsB: map<Slot, Goal>)
    requires DistinctIds(l) && Settles(same, l, a, goalsA) && Settles(same, l, b, goalsB) && goalsA.Keys !! goalsB.Keys
    ensures Settles(same, l, a + b, goalsA + goalsB)
  {
    var goals := goalsA + goalsB;
    CreatesApartTogether(a, b);
    forall slot | slot in goals
      ensures SettlesSlot(same, l, a + b, slot, goals[slot])
    {
      if slot in goalsB {
        SlotSettledBeside(same, l, b, a, a + b, slot, goals[slot]);
      } else {
        SlotSettledBeside(same, l, a, b, a + b, slot, goals[slot]);
      }
    }
  }

  // --- on the way ------------------------------------------------------------

  ghost predicate Occupied(z: Zone, slot: Slot) {
    exists id | id in z.records :: SlotOf(z.records[id]) == slot
  }

  /** A CNAME beside an address record (section 3.6.2 of RFC 1034). */
  ghost predicate Clash(z: Zone, name: string) {
    Occupied(z, Slot(name, "CNAME")) && (Occupied(z, Slot(name, "A")) || Occupied(z, Slot(name, "AAAA")))
  }

  lemma {:induction false} OnlyCreationsOccupy(z: Zone, actions: seq<Action>, slot: Slot)
    requires forall a | a in actions :: !a.Create?
    ensures Occupied(Exec(z, actions), slot) ==> Occupied(z, slot)
  {
    if actions != [] {
      var front := actions[..|actions| - 1];
      assert forall a | a in front :: a in actions;
      assert actions[|actions| - 1] in actions;
      OnlyCreationsOccupy(z, front, slot);
      var y, x := Exec(z, front), Exec(z, actions);
      if Occupied(x, slot) {
        var id :| id in x.records && SlotOf(x.records[id]) == slot;
        assert id in y.records && SlotOf(y.records[id]) == slot;
      }
    }
  }

  lemma CreatedElsewhere(w: Zone, c: seq<Action>, t: Zone, slot: Slot)
    requires Adds(w, c, t) && !Occupied(w, slot)
    requires forall i | 0 <= i < |c| :: SlotOfCreate(c[i]) != slot
    ensures !Occupied(t, slot)
  {
    forall id | id in t.records
      ensures SlotOf(t.records[id]) != slot
    {
      if id !in w.records {
        assert SlotOfCreate(c[id - w.next]) != slot;
      }
    }
  }

  lemma NoneCreated(plan: seq<Action>, slot: Slot, n: nat)
    requires !CreatesAt(plan, slot) && n <= |Creates(plan)|
    ensures forall i | 0 <= i < n :: Creates(plan)[..n][i].Create? && SlotOfCreate(Creates(plan)[..n][i]) != slot
  {
    forall i | 0 <= i < n
      ensures Creates(plan)[i].Create? && SlotOfCreate(Creates(plan)[i]) != slot
    {
      assert Creates(plan)[i] in Creates(plan);
    }
  }

  /** Once the creations have begun, a slot that must be absent is empty. */
  lemma EmptyWhileCreating(same: (string, string) -> bool, z: Zone, l: seq<Record>, plan: seq<Action>,
      slots: set<Slot>, slot: Slot, n: nat)
    requires ValidZone(z) && UpdatesAgree(plan) && Lists(l, z, slots) && slot in slots && n <= |Creates(plan)|
    requires SettlesSlot(same, l, plan, slot, Absent)
    ensures !Occupied(Exec(Cleared(z, plan), Creates(plan)[..n]), slot)
  {
    var w, c := Cleared(z, plan), Creates(plan)[..n];
    ClearedClears(z, plan);
    NothingLeft(z, l, plan, w, slots, slot, -1);
    NoneCreated(plan, slot, n);
    ExecAdds(w, c);
    CreatedElsewhere(w, c, Exec(w, c), slot);
  }

  lemma ScheduleWhileCreating(z: Zone, plan: seq<Action>, k: nat)
    requires |Deletes(plan) + Updates(plan)| <= k <= |Schedule(plan)|
    ensures Exec(z, Schedule(plan)[..k]) == Exec(Cleared(z, plan), Creates(plan)[..k - |Deletes(plan) + Updates(plan)|])
  {
    var first, c := Deletes(plan) + Updates(plan), Creates(plan);
    assert Schedule(plan)[..k] == first + c[..k - |first|];
    ExecAppend(z, Deletes(plan), Updates(plan));
    ExecAppend(z, first, c[..k - |first|]);
  }

  ghost predicate Parted(goals: map<Slot, Goal>, name: string) {
    || (Slot(name, "CNAME") in goals && goals[Slot(name, "CNAME")].Absent?)
    || (Slot(name, "A") in goals && goals[Slot(name, "A")].Absent? && Slot(name, "AAAA") in goals
      && goals[Slot(name, "AAAA")].Absent?)
  }

  /** Between any two actions sent, no CNAME stands beside an address record at the name, if none did before. */
  lemma NeverClashes(same: (string, string) -> bool, z: Zone, l: seq<Record>, plan: seq<Action>,
      goals: map<Slot, Goal>, name: string, k: nat)
    requires ValidZone(z) && Lists(l, z, goals.Keys) && Settles(same, l, plan, goals)
    requires Parted(goals, name) && !Clash(z, name) && k <= |Schedule(plan)|
    ensures !Clash(Exec(z, Schedule(plan)[..k]), name)
  {
    if k <= |Deletes(plan) + Updates(plan)| {
      NoClashBeforeCreating(z, plan, name, k);
    } else {
      NoClashWhileCreating(same, z, l, plan, goals, name, k);
    }
  }

  lemma NoClashBeforeCreating(z: Zone, plan: seq<Action>, name: string, k: nat)
    requires !Clash(z, name) && k <= |Deletes(plan) + Updates(plan)|
    ensures !Clash(Exec(z, Schedule(plan)[..k]), name)
  {
    var first := Deletes(plan) + Updates(plan);
    var sent := Schedule(plan)[..k];
    assert sent == first[..k];
    assert forall a | a in sent :: a in first;
    OnlyCreationsOccupy(z, sent, Slot(name, "CNAME"));
    OnlyCreationsOccupy(z, sent, Slot(name, "A"));
    OnlyCreationsOccupy(z, sent, Slot(name, "AAAA"));
  }

  lemma NoClashWhileCreating(same: (string, string) -> bool, z: Zone, l: seq<Record>, plan: seq<Action>,
      goals: map<Slot, Goal>, name: string, k: nat)
    requires ValidZone(z) && Lists(l, z, goals.Keys) && Settles(same, l, plan, goals) && Parted(goals, name)
    requires |Deletes(plan) + Updates(plan)| <= k <= |Schedule(plan)|
    ensures !Clash(Exec(z, Schedule(plan)[..k]), name)
  {
    var n := k - |Deletes(plan) + Updates(plan)|;
    ScheduleWhileCreating(z, plan, k);
    forall slot | slot in goals && goals[slot].Absent?
      ensures !Occupied(Exec(z, Schedule(plan)[..k]), slot)
    {
      AbsentWhileCreating(same, z, l, plan, goals, slot, n);
    }
    PartedHasNoClash(Exec(z, Schedule(plan)[..k]), goals, name);
  }

  lemma PartedHasNoClash(z: Zone, goals: map<Slot, Goal>, name: string)
    requires Parted(goals, name) && forall slot | slot in goals && goals[slot].Absent? :: !Occupied(z, slot)
    ensures !Clash(z, name)
  {
  }

  lemma AbsentWhileCreating(same: (string, string) -> bool, z: Zone, l: seq<Record>, plan: seq<Action>,
      goals: map<Slot, Goal>, slot: Slot, n: nat)
    requires ValidZone(z) && Lists(l, z, goals.Keys) && Settles(same, l, plan, goals) && n <= |Creates(plan)|
    requires slot in goals && goals[slot].Absent?
    ensures !Occupied(Exec(Cleared(z, plan), Creates(plan)[..n]), slot)
  {
    assert SettlesSlot(same, l, plan, slot, goals[slot]);
    EmptyWhileCreating(same, z, l, plan, goals.Keys, slot, n);
  }
}
