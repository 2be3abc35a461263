/**
 * The planners and the sending of a plan, as the source runs them: loops that push
 * actions, then calls that change the zone.
 */
module DnsReconcile {
  import opened Options
  import opened DnsZone
  import opened DnsPlans

  lemma FlatNext(parts: seq<seq<Action>>, i: nat)
    requires i < |parts|
    ensures Flat(parts[..i + 1]) == Flat(parts[..i]) + parts[i]
  {
    assert parts[..i + 1][..i] == parts[..i];
  }

  lemma Done<T>(s: seq<T>)
    ensures s[..|s|] == s
  {
  }

  lemma Regroup(a: seq<Action>, x: Action, b: seq<Action>)
    ensures a + [x] + b == a + ([x] + b)
  {
  }

  lemma RegroupParts(a: seq<Action>, b: seq<Action>, c: seq<Action>)
    ensures a + b + c == a + (b + c)
  {
  }

  method AddStanding(actions: seq<Action>, records: seq<Record>, replace: bool) returns (r: seq<Action>)
    ensures r == actions + Standing(records, replace)
  {
    r := actions;
    for i := 0 to |records|
      invariant r == actions + Standing(records, replace)[..i]
    {
      r := r + [if replace then Delete(records[i]) else Conflict(records[i])];
    }
  }

  /** Every record but the one at `kept`, which the source tells apart by identity. */
  method AddOthers(actions: seq<Action>, records: seq<Record>, kept: nat) returns (r: seq<Action>)
    ensures r == actions + Others(records, kept)
  {
    r := actions;
    for i := 0 to |records|
      invariant r == actions + Others(records[..i], kept)
    {
      assert records[..i + 1][..i] == records[..i];
      if i != kept {
        r := r + [Delete(records[i])];
      }
    }
    Done(records);
  }

  method DistinctNames(desired: seq<Desired>) returns (names: seq<string>)
    ensures names == Names(desired)
  {
    names := [];
    for i := 0 to |desired|
      invariant names == Names(desired[..i])
    {
      assert desired[..i + 1][..i] == desired[..i];
      if desired[i].name !in names {
        names := names + [desired[i].name];
      }
    }
    Done(desired);
  }

  method AddEntry(actions: seq<Action>, canon: string -> string, existing: seq<Record>, entry: Desired,
      replace: bool) returns (r: seq<Action>)
    ensures r == actions + EntryPlan(canon, existing, entry, replace)
  {
    var records := AtSlot(existing, entry.name, entry.kind);
    if entry.content == None {
      r := AddStanding(actions, records, replace);
      return;
    }
    var content := entry.content.value;
    var right := Right(canon, content);
    var others := Where(records, Wrong(canon, content));
    if records == [] {
      r := actions + [Create(entry.name, entry.kind, content, false)];
      return;
    }
    if others != [] && !replace {
      r := AddStanding(actions, others, false);
      return;
    }
    var k := FirstOr(records, right);
    var kept := records[k];
    if kept.data.proxied && !replace {
      r := actions + [Conflict(kept)];
    } else if kept.data.proxied || !right(kept) {
      r := actions + [Update(kept, content, false)];
    } else {
      r := actions + [Keep(kept)];
    }
    ghost var first := r[|actions|];
    r := AddOthers(r, records, k);
    Regroup(actions, first, Others(records, k));
  }

  method DrawRecords(canon: string -> string, existing: seq<Record>, desired: seq<Desired>,
      replace: bool) returns (actions: seq<Action>)
    ensures actions == PlanRecords(canon, existing, desired, replace)
  {
    actions := [];
    var names := DistinctNames(desired);
    ghost var aliases := Aliases(existing, names, replace);
    for i := 0 to |names|
      invariant actions == Flat(aliases[..i])
    {
      FlatNext(aliases, i);
      actions := AddStanding(actions, AtSlot(existing, names[i], "CNAME"), replace);
    }
    Done(aliases);
    ghost var entries := Entries(canon, existing, desired, replace);
    for i := 0 to |desired|
      invariant actions == Flat(aliases) + Flat(entries[..i])
    {
      FlatNext(entries, i);
      RegroupParts(Flat(aliases), Flat(entries[..i]), entries[i]);
      actions := AddEntry(actions, canon, existing, desired[i], replace);
    }
    Done(entries);
  }

  method DrawTunnel(existing: seq<Record>, zone: string, target: string, replace: bool) returns (actions: seq<Action>)
    ensures actions == PlanTunnel(existing, zone, target, replace)
  {
    actions := [];
    var names := [zone, Wildcard(zone)];
    ghost var parts := [TunnelAt(existing, zone, target, replace), TunnelAt(existing, Wildcard(zone), target, replace)];
    for i := 0 to 2
      invariant actions == Flat(parts[..i])
    {
      FlatNext(parts, i);
      assert parts[i] == TunnelAt(existing, names[i], target, replace);
      RegroupParts(actions, AddressPlan(existing, names[i], replace), TunnelAlias(existing, names[i], target, replace));
      actions := AddStanding(actions, Where(At(existing, names[i]), IsAddress), replace);
      actions := AddAlias(actions, existing, names[i], target, replace);
    }
    Done(parts);
  }

  method AddAlias(actions: seq<Action>, existing: seq<Record>, name: string, target: string,
      replace: bool) returns (r: seq<Action>)
    ensures r == actions + TunnelAlias(existing, name, target, replace)
  {
    var aliases := AtSlot(existing, name, "CNAME");
    var own := Own(target);
    if aliases == [] {
      r := actions + [Create(name, "CNAME", target, true)];
      return;
    }
    var k := FirstOr(aliases, own);
    var kept := aliases[k];
    if !own(kept) && !replace {
      r := actions + [Conflict(kept)];
      return;
    }
    r := actions + [if own(kept) && kept.data.proxied then Keep(kept) else Update(kept, target, true)];
    ghost var first := r[|actions|];
    r := AddOthers(r, aliases, k);
    Regroup(actions, first, Others(aliases, k));
  }

  /** The provider's side: the zone its calls change. */
  class Provider {
    var records: map<nat, Data>
    var next: nat

    ghost function Contents(): Zone
      reads this
    {
      Zone(records, next)
    }

    method DeleteRecord(record: Record)
      modifies this
      ensures Contents() == Step(old(Contents()), Delete(record))
    {
      records := records - {record.id};
    }

    method UpdateRecord(record: Record, content: string, proxied: bool)
      modifies this
      ensures Contents() == Step(old(Contents()), Update(record, content, proxied))
    {
      if record.id in records {
        records := records[record.id := records[record.id].(content := content, proxied := proxied)];
      }
    }

    method CreateRecord(name: string, kind: string, content: string, proxied: bool)
      modifies this
      ensures Contents() == Step(old(Contents()), Create(name, kind, content, proxied))
    {
      records, next := records[next := Data(kind, name, content, proxied)], next + 1;
    }
  }

  lemma OnlyNext(actions: seq<Action>, p: Action -> bool, i: nat)
    requires i < |actions|
    ensures Only(actions[..i + 1], p) ==
      if p(actions[i]) then Only(actions[..i], p) + [actions[i]] else Only(actions[..i], p)
  {
    assert actions[..i + 1] == actions[..i] + [actions[i]];
    OnlyAppend(actions[..i], [actions[i]], p);
    assert [actions[i]][1..] == [];
    assert Only([], p) == [];
  }

  lemma ExecNext(z: Zone, actions: seq<Action>, a: Action)
    ensures Exec(z, actions + [a]) == Step(Exec(z, actions), a)
  {
    assert (actions + [a])[..|actions|] == actions;
  }

  /** The plan sent: every deletion, then every update, then every creation. */
  method Send(api: Provider, actions: seq<Action>)
    modifies api
    ensures api.Contents() == Applied(old(api.Contents()), actions)
  {
    ghost var z := api.Contents();
    for i := 0 to |actions|
      invariant api.Contents() == Exec(z, Deletes(actions[..i]))
    {
      OnlyNext(actions, IsDelete(), i);
      if actions[i].Delete? {
        ExecNext(z, Deletes(actions[..i]), actions[i]);
        api.DeleteRecord(actions[i].record);
      }
    }
    Done(actions);
    ghost var d := api.Contents();
    for i := 0 to |actions|
      invariant api.Contents() == Exec(d, Updates(actions[..i]))
    {
      OnlyNext(actions, IsUpdate(), i);
      if actions[i].Update? {
        ExecNext(d, Updates(actions[..i]), actions[i]);
        api.UpdateRecord(actions[i].record, actions[i].content, actions[i].proxied);
      }
    }
    ghost var u := api.Contents();
    for i := 0 to |actions|
      invariant api.Contents() == Exec(u, Creates(actions[..i]))
    {
      OnlyNext(actions, IsCreate(), i);
      if actions[i].Create? {
        ExecNext(u, Creates(actions[..i]), actions[i]);
        api.CreateRecord(actions[i].name, actions[i].kind, actions[i].content, actions[i].proxied);
      }
    }
    ExecAppend(z, Deletes(actions), Updates(actions));
    ExecAppend(z, Deletes(actions) + Updates(actions), Creates(actions));
  }

  method HasConflict(actions: seq<Action>) returns (found: bool)
    ensures found <==> !ConflictFree(actions)
  {
    for i := 0 to |actions|
      invariant forall j | 0 <= j < i :: !actions[j].Conflict?
    {
      if actions[i].Conflict? {
        return true;
      }
    }
    return false;
  }

  /**
   * The records of the zone pointed at the machine: a plan with a conflict changes
   * nothing, any other is applied whole.
   */
  method EnsureZoneRecords(api: Provider, canon: string -> string, existing: seq<Record>, zone: string,
      ipv4: string, ipv6: Option<string>, replace: bool)
    returns (r: Result<seq<Action>, seq<Action>>)
    modifies api
    ensures var plan := PlanRecords(canon, existing, DesiredRecords(zone, ipv4, ipv6), replace);
      if ConflictFree(plan) then r == Ok(plan) && api.Contents() == Applied(old(api.Contents()), plan)
      else r == Err(plan) && api.Contents() == old(api.Contents())
  {
    var actions := DrawRecords(canon, existing, DesiredRecords(zone, ipv4, ipv6), replace);
    var conflict := HasConflict(actions);
    if conflict {
      return Err(actions);
    }
    Send(api, actions);
    return Ok(actions);
  }

  /** The same of a zone behind a tunnel; a dry run changes nothing either. */
  method EnsureTunnelRecords(api: Provider, existing: seq<Record>, zone: string, target: string, replace: bool,
      dryRun: bool)
    returns (r: Result<seq<Action>, seq<Action>>)
    modifies api
    ensures var plan := PlanTunnel(existing, zone, target, replace);
      && r == (if dryRun || ConflictFree(plan) then Ok(plan) else Err(plan))
      && api.Contents() ==
        if dryRun || !ConflictFree(plan) then old(api.Contents()) else Applied(old(api.Contents()), plan)
  {
    var actions := DrawTunnel(existing, zone, target, replace);
    if dryRun {
      return Ok(actions);
    }
    var conflict := HasConflict(actions);
    if conflict {
      return Err(actions);
    }
    Send(api, actions);
    return Ok(actions);
  }
}
