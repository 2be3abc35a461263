/** Which records a plan drawn without `replace` reports as conflicts: a refusal names these, and no others. */
module DnsConflicts {
  import opened Options
  import opened Text
  import opened DnsZone
  import opened DnsPlans
  import opened DnsTheorems

  // --- selecting -------------------------------------------------------------

  lemma WhereStep(x: Record, l: seq<Record>, p: Record -> bool)
    ensures Where([x] + l, p) == if p(x) then [x] + Where(l, p) else Where(l, p)
  {
    assert ([x] + l)[1..] == l;
    assert [] + Where(l, p) == Where(l, p);
  }

  lemma {:induction false} WhereTwice(l: seq<Record>, p: Record -> bool, q: Record -> bool, both: Record -> bool)
    requires forall x :: both(x) <==> p(x) && q(x)
    ensures Where(Where(l, p), q) == Where(l, both)
  {
    if l != [] {
      var rest := l[1..];
      assert l == [l[0]] + rest;
      WhereTwice(rest, p, q, both);
      WhereStep(l[0], rest, p);
      WhereStep(l[0], rest, both);
      WhereStep(l[0], Where(rest, p), q);
    }
  }

  /** The first of the records that qualify. */
  ghost predicate FirstSuch(l: seq<Record>, p: Record -> bool, r: Record) {
    p(r) && exists i | 0 <= i < |l| :: l[i] == r && forall j | 0 <= j < i :: !p(l[j])
  }

  lemma FirstStep(x: Record, l: seq<Record>, p: Record -> bool, r: Record)
    ensures FirstSuch([x] + l, p, r) <==> if p(x) then x == r else FirstSuch(l, p, r)
  {
    var all := [x] + l;
    if FirstSuch(all, p, r) {
      var i :| 0 <= i < |all| && all[i] == r && forall j | 0 <= j < i :: !p(all[j]);
      if !p(x) {
        assert l[i - 1] == r && forall j | 0 <= j < i - 1 :: l[j] == all[j + 1];
      } else {
        assert all[0] == x;
      }
    }
    if !p(x) && FirstSuch(l, p, r) {
      var i :| 0 <= i < |l| && l[i] == r && forall j | 0 <= j < i :: !p(l[j]);
      assert all[i + 1] == r && forall j | 0 < j < i + 1 :: all[j] == l[j - 1];
    }
    if p(x) && x == r {
      assert all[0] == r;
    }
  }

  lemma {:induction false} WhereFirst(l: seq<Record>, p: Record -> bool, r: Record)
    ensures Where(l, p) != [] && Where(l, p)[0] == r <==> FirstSuch(l, p, r)
  {
    if l != [] {
      var rest := l[1..];
      assert l == [l[0]] + rest;
      WhereFirst(rest, p, r);
      WhereStep(l[0], rest, p);
      FirstStep(l[0], rest, p, r);
    }
  }

  /** The record comes before every other listed at its name and of its kind. */
  ghost predicate FirstOfSlot(l: seq<Record>, r: Record) {
    exists i | 0 <= i < |l| :: l[i] == r && forall j | 0 <= j < i :: SlotOf(l[j].data) != SlotOf(r.data)
  }

  lemma AtSlotFirst(l: seq<Record>, name: string, kind: string, r: Record)
    requires SlotOf(r.data) == SlotAt(name, kind)
    ensures AtSlot(l, name, kind) != [] && AtSlot(l, name, kind)[0] == r <==> FirstOfSlot(l, r)
  {
    var p, q := (x: Record) => Lower(x.data.name) == Lower(name), (x: Record) => x.data.kind == kind;
    var both := (x: Record) => p(x) && q(x);
    WhereTwice(l, p, q, both);
    WhereFirst(l, both, r);
    assert forall x: Record :: both(x) <==> SlotOf(x.data) == SlotAt(name, kind);
  }

  lemma StandingConflict(records: seq<Record>, r: Record)
    ensures Conflict(r) in Standing(records, false) <==> r in records
  {
    if r in records {
      var i :| 0 <= i < |records| && records[i] == r;
      assert Standing(records, false)[i] == Conflict(r);
    }
  }

  lemma InSomePart(parts: seq<seq<Action>>, a: Action)
    ensures a in Flat(parts) <==> exists i | 0 <= i < |parts| :: a in parts[i]
  {
    if a in Flat(parts) {
      FromFlat(parts, a);
    }
    if i :| 0 <= i < |parts| && a in parts[i] {
      InFlat(parts, i, a);
    }
  }

  // --- the machine's plan ----------------------------------------------------

  /** Every record listed at the slot of `r` carries the content. */
  ghost predicate AllCarry(canon: string -> string, l: seq<Record>, r: Record, content: string) {
    forall x | x in l && SlotOf(x.data) == SlotOf(r.data) :: canon(x.data.content) == canon(content)
  }

  /**
   * A record of the wanted kind that is in the way: another content, or right like all
   * of its slot, the first of them, and proxied.
   */
  ghost predicate InTheWay(canon: string -> string, l: seq<Record>, r: Record, content: string) {
    || canon(r.data.content) != canon(content)
    || (AllCarry(canon, l, r, content) && FirstOfSlot(l, r) && r.data.proxied)
  }

  lemma EntryConflict(canon: string -> string, l: seq<Record>, entry: Desired, r: Record)
    ensures Conflict(r) in EntryPlan(canon, l, entry, false) <==>
      && r in l && SlotOf(r.data) == SlotAt(entry.name, entry.kind)
      && (entry.content.Some? ==> InTheWay(canon, l, r, entry.content.value))
  {
    var records := AtSlot(l, entry.name, entry.kind);
    match entry.content
    case None => StandingConflict(records, r);
    case Some(content) =>
      var others := Where(records, Wrong(canon, content));
      NoneWrong(records, canon, content);
      StandingConflict(others, r);
      if records != [] && others == [] {
        FirstConflict(canon, l, entry, r);
      } else if r in records {
        assert others != [];
        SomeRecord(others);
      }
  }

  lemma FirstConflict(canon: string -> string, l: seq<Record>, entry: Desired, r: Record)
    requires var records := AtSlot(l, entry.name, entry.kind);
      && records != [] && entry.content.Some?
      && Where(records, Wrong(canon, entry.content.value)) == []
    ensures Conflict(r) in EntryPlan(canon, l, entry, false) <==>
      && r in l && SlotOf(r.data) == SlotAt(entry.name, entry.kind) && FirstOfSlot(l, r) && r.data.proxied
  {
    var records, content := AtSlot(l, entry.name, entry.kind), entry.content.value;
    var plan := EntryPlan(canon, l, entry, false);
    NoneWrong(records, canon, content);
    assert records[0] in records && FirstOr(records, Right(canon, content)) == 0;
    OthersActions(records, 0);
    assert plan == [plan[0]] + Others(records, 0);
    assert plan[0] in plan;
    if SlotOf(r.data) == SlotAt(entry.name, entry.kind) {
      AtSlotFirst(l, entry.name, entry.kind, r);
    }
  }

  /** What the machine wants at a name, by kind. */
  function Wanted(kind: string, ipv4: string, ipv6: Option<string>): Option<string> {
    if kind == "A" then Some(ipv4) else ipv6
  }

  /**
   * An alias, an IPv6 address where none is wanted, another address, or the first of
   * the right ones when it is proxied.
   */
  ghost predicate MachineConflict(canon: string -> string, l: seq<Record>, zone: string, ipv4: string,
      ipv6: Option<string>, r: Record) {
    && r in l && NamedAt(zone, r.data.name)
    && (|| r.data.kind == "CNAME"
        || ((r.data.kind == "A" || r.data.kind == "AAAA")
            && (Wanted(r.data.kind, ipv4, ipv6).Some? ==>
              InTheWay(canon, l, r, Wanted(r.data.kind, ipv4, ipv6).value))))
  }

  lemma AliasConflict(l: seq<Record>, zone: string, r: Record)
    ensures Conflict(r) in Flat(Aliases(l, [zone, Wildcard(zone)], false)) <==>
      r in l && NamedAt(zone, r.data.name) && r.data.kind == "CNAME"
  {
    var names := [zone, Wildcard(zone)];
    var parts := Aliases(l, names, false);
    InSomePart(parts, Conflict(r));
    assert parts[0] == AliasPlan(l, zone, false) && parts[1] == AliasPlan(l, Wildcard(zone), false);
    StandingConflict(AtSlot(l, zone, "CNAME"), r);
    StandingConflict(AtSlot(l, Wildcard(zone), "CNAME"), r);
  }

  ghost predicate EntryReports(canon: string -> string, l: seq<Record>, e: Desired, r: Record) {
    && r in l && SlotOf(r.data) == SlotAt(e.name, e.kind)
    && (e.content.Some? ==> InTheWay(canon, l, r, e.content.value))
  }

  lemma EntriesConflict(canon: string -> string, l: seq<Record>, d: seq<Desired>, r: Record)
    ensures Conflict(r) in Flat(Entries(canon, l, d, false)) <==>
      exists i | 0 <= i < |d| :: EntryReports(canon, l, d[i], r)
  {
    var parts := Entries(canon, l, d, false);
    InSomePart(parts, Conflict(r));
    forall i | 0 <= i < |d|
      ensures Conflict(r) in parts[i] <==> EntryReports(canon, l, d[i], r)
    {
      EntryConflict(canon, l, d[i], r);
    }
  }

  lemma FourEntries(canon: string -> string, l: seq<Record>, zone: string, ipv4: string, ipv6: Option<string>,
      r: Record)
    ensures var d := DesiredRecords(zone, ipv4, ipv6);
      (exists i | 0 <= i < |d| :: EntryReports(canon, l, d[i], r)) <==>
        && r in l && NamedAt(zone, r.data.name) && (r.data.kind == "A" || r.data.kind == "AAAA")
        && (Wanted(r.data.kind, ipv4, ipv6).Some? ==> InTheWay(canon, l, r, Wanted(r.data.kind, ipv4, ipv6).value))
  {
    var d := DesiredRecords(zone, ipv4, ipv6);
    assert |d| == 4;
    assert d[0] == Desired(zone, "A", Some(ipv4)) && d[1] == Desired(zone, "AAAA", ipv6);
    assert d[2] == Desired(Wildcard(zone), "A", Some(ipv4)) && d[3] == Desired(Wildcard(zone), "AAAA", ipv6);
    assert forall i | 0 <= i < |d| :: d[i].content == Wanted(d[i].kind, ipv4, ipv6);
  }

  /** For any listing, the machine's plan without `replace` reports exactly the records in the way at its two names. */
  lemma MachineReportsExactly(canon: string -> string, l: seq<Record>, zone: string, ipv4: string,
      ipv6: Option<string>, r: Record)
    ensures Conflict(r) in MachinePlan(canon, l, zone, ipv4, ipv6, false) <==>
      MachineConflict(canon, l, zone, ipv4, ipv6, r)
  {
    var d := DesiredRecords(zone, ipv4, ipv6);
    DesiredWellPosed(zone, ipv4, ipv6);
    AliasConflict(l, zone, r);
    EntriesConflict(canon, l, d, r);
    FourEntries(canon, l, zone, ipv4, ipv6, r);
  }

  // --- the tunnel's plan -----------------------------------------------------

  /** No alias at the name of `r` is the tunnel's. */
  ghost predicate NoneOwn(l: seq<Record>, r: Record, target: string) {
    forall x | x in l && SlotOf(x.data) == SlotOf(r.data) :: Host(x.data.content) != Host(target)
  }

  /** An address, or the first of the aliases at a name when none of them is the tunnel's. */
  ghost predicate TunnelConflict(l: seq<Record>, zone: string, target: string, r: Record) {
    && r in l && NamedAt(zone, r.data.name)
    && (|| r.data.kind == "A"
        || r.data.kind == "AAAA"
        || (r.data.kind == "CNAME" && FirstOfSlot(l, r) && NoneOwn(l, r, target)))
  }

  lemma TunnelAliasPlan(l: seq<Record>, name: string, target: string)
    requires AtSlot(l, name, "CNAME") != []
    ensures var aliases, plan := AtSlot(l, name, "CNAME"), TunnelAlias(l, name, target, false);
      if forall x | x in aliases :: Host(x.data.content) != Host(target) then plan == [Conflict(aliases[0])]
      else ConflictFree(plan)
  {
    var aliases, plan := AtSlot(l, name, "CNAME"), TunnelAlias(l, name, target, false);
    var k := FirstOr(aliases, Own(target));
    assert aliases[k] in aliases;
    if Own(target)(aliases[k]) {
      FirstThenOthers(plan, aliases, k);
    }
  }

  lemma TunnelAliasConflict(l: seq<Record>, name: string, target: string, r: Record)
    ensures Conflict(r) in TunnelAlias(l, name, target, false) <==>
      r in l && SlotOf(r.data) == SlotAt(name, "CNAME") && FirstOfSlot(l, r) && NoneOwn(l, r, target)
  {
    var aliases := AtSlot(l, name, "CNAME");
    if aliases != [] {
      TunnelAliasPlan(l, name, target);
      assert aliases[0] in aliases;
      if SlotOf(r.data) == SlotAt(name, "CNAME") {
        AtSlotFirst(l, name, "CNAME", r);
      }
    }
  }

  lemma TunnelNameConflict(l: seq<Record>, name: string, target: string, r: Record)
    ensures Conflict(r) in TunnelAt(l, name, target, false) <==>
      && r in l && Lower(r.data.name) == Lower(name)
      && (|| IsAddress(r)
          || (r.data.kind == "CNAME" && FirstOfSlot(l, r) && NoneOwn(l, r, target)))
  {
    StandingConflict(Where(At(l, name), IsAddress), r);
    TunnelAliasConflict(l, name, target, r);
  }

  /** And so does the tunnel's. */
  lemma TunnelReportsExactly(l: seq<Record>, zone: string, target: string, r: Record)
    ensures Conflict(r) in PlanTunnel(l, zone, target, false) <==> TunnelConflict(l, zone, target, r)
  {
    FlatTwo(TunnelAt(l, zone, target, false), TunnelAt(l, Wildcard(zone), target, false));
    TunnelNameConflict(l, zone, target, r);
    TunnelNameConflict(l, Wildcard(zone), target, r);
  }
}
