/** The ports the machine's manifests claim, and the one `deploy` gives a project that declares none. */
module Ports {
  import opened Options

  /** A site's general access: behind the portal, behind a preview code. */
  datatype Door = Door(portal: bool, lock: bool)

  /**
   * A manifest as the port rules read it: the port of each service, the main
   * one first, none for a worker; whether it declares `services`; its door.
   */
  datatype Manifest = Manifest(services: seq<Option<nat>>, several: bool, door: Door)

  /** The manifests deposited on the machine, by folder; none for one that no longer reads. */
  type Sites = map<string, Option<Manifest>>

  const PORTAL_PORT: nat := 3026
  const DASHBOARD_PORT: nat := 3022

  predicate InRange(port: nat, first: nat, last: nat) {
    first <= port <= last
  }

  predicate IsServicePort(port: nat) {
    InRange(port, 3000, 3099) || InRange(port, 21000, 29999)
  }

  function Reserved(slug: string): set<nat> {
    {3000, 3001} + (if slug == "dashboard" then {} else {DASHBOARD_PORT})
      + (if slug == "portal" then {} else {PORTAL_PORT})
  }

  predicate Declares(m: Manifest, port: nat) {
    Some(port) in m.services
  }

  function PortsOf(m: Manifest): set<nat> {
    set s | s in m.services && s.Some? :: s.value
  }

  /** Another folder's manifest declares the port. */
  ghost predicate TakenByAnother(slug: string, port: nat, sites: Sites) {
    exists other | other in sites && other != slug :: sites[other].Some? && Declares(sites[other].value, port)
  }

  ghost predicate Claimed(slug: string, port: nat, sites: Sites) {
    port in Reserved(slug) || TakenByAnother(slug, port, sites)
  }

  /** portConflicts is empty: no service of the manifest is on a port something else claims. */
  ghost predicate PortsClear(slug: string, m: Manifest, sites: Sites) {
    forall port | Declares(m, port) :: !Claimed(slug, port, sites)
  }

  function MainPort(m: Manifest): Option<nat> {
    if m.services == [] then None else m.services[0]
  }

  /** The port the machine already gives this project. */
  predicate Keeps(slug: string, port: nat, sites: Sites) {
    && slug in sites && sites[slug].Some?
    && !sites[slug].value.several
    && MainPort(sites[slug].value) == Some(port)
    && IsServicePort(port)
  }

  datatype PortChoice = Kept(port: nat) | Free(port: nat) | Full

  /** The ports every other deposited manifest declares, with the reserved ones; or the port to keep. */
  method TakenPorts(slug: string, sites: Sites) returns (kept: Option<nat>, taken: set<nat>)
    ensures kept.Some? ==> Keeps(slug, kept.value, sites)
    ensures kept.None? ==> forall port: nat :: !Keeps(slug, port, sites)
    ensures kept.None? ==> forall port: nat :: port in taken <==> Claimed(slug, port, sites)
  {
    taken := Reserved(slug);
    var folders := sites.Keys;
    while folders != {}
      invariant folders <= sites.Keys
      invariant forall port: nat :: port in taken <==>
        port in Reserved(slug)
        || exists other | other in sites.Keys - folders && other != slug ::
          sites[other].Some? && Declares(sites[other].value, port)
      invariant slug !in folders ==> forall port: nat :: !Keeps(slug, port, sites)
      decreases folders
    {
      var folder :| folder in folders;
      ghost var before := folders;
      folders := folders - {folder};
      if sites[folder].None? {
        continue;
      }
      var m := sites[folder].value;
      if folder == slug {
        var port := if m.several then None else MainPort(m);
        if port.Some? && IsServicePort(port.value) {
          return port, taken;
        }
        continue;
      }
      taken := taken + PortsOf(m);
      assert sites.Keys - folders == (sites.Keys - before) + {folder};
      assert forall port: nat :: port in PortsOf(m) <==> Declares(m, port);
    }
    return None, taken;
  }

  method LowestFree(first: nat, last: nat, taken: set<nat>) returns (port: Option<nat>)
    requires first <= last
    ensures port.Some? ==> InRange(port.value, first, last) && port.value !in taken
    ensures port.Some? ==> forall p | first <= p < port.value :: p in taken
    ensures port.None? ==> forall p | InRange(p, first, last) :: p in taken
  {
    for p := first to last + 1
      invariant forall q | first <= q < p :: q in taken
    {
      if p !in taken {
        return Some(p);
      }
    }
    return None;
  }

  /**
   * The port of a project: the one the machine already gives it when that lies
   * in a block, otherwise the lowest nothing claims, the first block before the
   * second; full exactly when every port of both is claimed.
   */
  method ChoosePort(slug: string, sites: Sites) returns (choice: PortChoice)
    ensures choice.Kept? ==> Keeps(slug, choice.port, sites)
    ensures !choice.Kept? ==> forall port: nat :: !Keeps(slug, port, sites)
    ensures choice.Free? ==> IsServicePort(choice.port) && !Claimed(slug, choice.port, sites)
    ensures choice.Free? ==> forall port: nat | IsServicePort(port) && port < choice.port :: Claimed(slug, port, sites)
    ensures choice.Full? ==> forall port: nat | IsServicePort(port) :: Claimed(slug, port, sites)
    ensures choice.Free? ==> 3002 <= choice.port <= 3099 || 21000 <= choice.port <= 29999
    ensures choice.Free? ==>
      (slug != "dashboard" ==> choice.port != 3022) && (slug != "portal" ==> choice.port != 3026)
  {
    var kept, taken := TakenPorts(slug, sites);
    if kept.Some? {
      return Kept(kept.value);
    }
    var port := LowestFree(3000, 3099, taken);
    if port.None? {
      port := LowestFree(21000, 29999, taken);
    }
    return if port.Some? then Free(port.value) else Full;
  }

  /** No two readable manifests declare the same port, and none declares a reserved one. */
  ghost predicate Disjoint(sites: Sites) {
    && (forall a, b | a in sites && b in sites && a != b && sites[a].Some? && sites[b].Some? ::
          PortsOf(sites[a].value) !! PortsOf(sites[b].value))
    && (forall a | a in sites && sites[a].Some? :: PortsOf(sites[a].value) !! Reserved(a))
  }

  /** A manifest without conflicts may be deposited. */
  lemma ClearDepositKeepsDisjoint(slug: string, m: Manifest, sites: Sites)
    requires Disjoint(sites) && PortsClear(slug, m, sites)
    ensures Disjoint(sites[slug := Some(m)])
  {
    forall port | port in PortsOf(m)
      ensures port !in Reserved(slug)
      ensures forall other | other in sites && other != slug && sites[other].Some? ::
        port !in PortsOf(sites[other].value)
    {
      assert Declares(m, port);
      forall other | other in sites && other != slug && sites[other].Some?
        ensures port !in PortsOf(sites[other].value)
      {
        assert !TakenByAnother(slug, port, sites);
        assert !Declares(sites[other].value, port);
      }
    }
  }

  /** And only such a manifest: on a machine in order, a conflict is exactly what a deposit would break. */
  lemma DisjointAfterDepositMeansClear(slug: string, m: Manifest, sites: Sites)
    requires Disjoint(sites[slug := Some(m)])
    ensures PortsClear(slug, m, sites)
  {
    var after := sites[slug := Some(m)];
    forall port | Declares(m, port)
      ensures !Claimed(slug, port, sites)
    {
      assert after[slug] == Some(m) && port in PortsOf(m);
      forall other | other in sites && other != slug && sites[other].Some?
        ensures !Declares(sites[other].value, port)
      {
        assert after[other] == sites[other];
        assert PortsOf(after[slug].value) !! PortsOf(after[other].value);
      }
    }
  }

  /** Changing a site's door leaves its ports where they were. */
  lemma DoorChangeKeepsDisjoint(slug: string, m: Manifest, door: Door, sites: Sites)
    requires Disjoint(sites) && slug in sites && sites[slug] == Some(m)
    ensures Disjoint(sites[slug := Some(m.(door := door))])
  {
    assert PortsOf(m.(door := door)) == PortsOf(m);
  }

  /**
   * On a machine in order nobody is on the landing's port or the shared
   * service's, and nobody but the dashboard and the portal on theirs; nothing
   * else is refused to a manifest whose ports no other declares.
   */
  lemma ReservedMeans(slug: string, m: Manifest, sites: Sites)
    ensures PortsClear(slug, m, sites) <==>
      && !Declares(m, 3000) && !Declares(m, 3001)
      && (slug != "dashboard" ==> !Declares(m, 3022)) && (slug != "portal" ==> !Declares(m, 3026))
      && forall other, port |
           other in sites && other != slug && sites[other].Some? && Declares(sites[other].value, port) ::
           !Declares(m, port)
  {
    if PortsClear(slug, m, sites) {
      forall other, port | other in sites && other != slug && sites[other].Some? && Declares(sites[other].value, port)
        ensures !Declares(m, port)
      {
        assert TakenByAnother(slug, port, sites);
      }
      assert 3000 in Reserved(slug) && 3001 in Reserved(slug);
      assert slug != "dashboard" ==> 3022 in Reserved(slug);
      assert slug != "portal" ==> 3026 in Reserved(slug);
      assert Declares(m, 3000) ==> !Claimed(slug, 3000, sites);
      assert Declares(m, 3001) ==> !Claimed(slug, 3001, sites);
      assert Declares(m, 3022) ==> !Claimed(slug, 3022, sites);
      assert Declares(m, 3026) ==> !Claimed(slug, 3026, sites);
    }
  }
}
