/**
 * What the main table holds after a reconcile, said without the planners: which ranges `tp0`
 * carries, which LAN routes are there and over which interface, and what stays.
 */
module FabricTables {
  import opened Prelude
  import opened Cidr
  import opened FabricPolicy
  import opened FabricRoutes

  /** The two ranges have an address in common. */
  ghost predicate Meet(a: Range, b: Range) {
    a.version == b.version && exists x: nat :: HasAddress(a, x) && HasAddress(b, x)
  }

  // ---------------------------------------------------------------- tp0

  /** Off `tp0` the table routes exactly this range, or is connected to a network with an address of it. */
  ghost predicate Taken(k: Range, table: Table) {
    exists o :: o in table && table[o].dev != Some("tp0") && (o == k || (table[o].connected && Meet(k, o)))
  }

  /**
   * Never removed from `tp0`: the kernel's own routes, IPv4 ranges shorter than 8 bits and IPv6
   * ranges shorter than 48, and what lies in 169.254.0.0/16, 224.0.0.0/4, fe80::/10 or ff00::/8.
   */
  predicate Stays(k: Range, r: Route) {
    || r.kernel || k.prefix < (if k.version == 4 then 8 else 48)
    || Within(k, 4, 0xA9FE_0000, 0xA9FE_FFFF)
    || Within(k, 4, 0xE000_0000, 0xEFFF_FFFF)
    || Within(k, 6, 0xFE80_0000_0000_0000_0000_0000_0000_0000, 0xFEBF_FFFF_FFFF_FFFF_FFFF_FFFF_FFFF_FFFF)
    || Within(k, 6, 0xFF00_0000_0000_0000_0000_0000_0000_0000, 0xFFFF_FFFF_FFFF_FFFF_FFFF_FFFF_FFFF_FFFF)
  }

  lemma MeetIsShares(a: Range, b: Range)
    ensures Meet(a, b) <==> Shares(a, b)
  {
    NestOrDisjoint(a, b);
  }

  lemma TakenIsConflicted(k: Range, table: Table)
    ensures Taken(k, table) <==> Conflicted(k, table)
  {
    forall o ensures Meet(k, o) <==> Shares(k, o) { MeetIsShares(k, o); }
    if o :| o in table && table[o].dev != Some("tp0") && (o == k || (table[o].connected && Meet(k, o))) {
      assert Elsewhere(k, o, table);
    }
  }

  lemma KeptBlocks(k: Range)
    ensures InSome(k, UnmanagedRanges()) <==>
      || Within(k, 4, 0xA9FE_0000, 0xA9FE_FFFF)
      || Within(k, 4, 0xE000_0000, 0xEFFF_FFFF)
      || Within(k, 6, 0xFE80_0000_0000_0000_0000_0000_0000_0000, 0xFEBF_FFFF_FFFF_FFFF_FFFF_FFFF_FFFF_FFFF)
      || Within(k, 6, 0xFF00_0000_0000_0000_0000_0000_0000_0000, 0xFFFF_FFFF_FFFF_FFFF_FFFF_FFFF_FFFF_FFFF)
  {
    var kept := UnmanagedRanges();
    Pow2Values();
    SmallSizes();
    LargeSizes();
    BlockBounds(k, 4, 169 * 256 + 254, 16, 0x1_0000);
    BlockBounds(k, 4, 14, 4, 0x1000_0000);
    BlockBounds(k, 6, 1018, 10, 0x40_0000_0000_0000_0000_0000_0000_0000);
    BlockBounds(k, 6, 255, 8, 0x100_0000_0000_0000_0000_0000_0000_0000);
    assert InSome(k, kept) <==> Inside(k, kept[0]) || Inside(k, kept[1]) || Inside(k, kept[2]) || Inside(k, kept[3]);
  }

  lemma StaysIsUnmanaged(k: Range, r: Route)
    ensures Stays(k, r) <==> !Managed(k, r, UnmanagedRanges())
  {
    KeptBlocks(k);
  }

  lemma Tp0Entry(desired: set<Range>, table: Table, kept: seq<Range>, k: Range)
    ensures var t := ApplyTp0(desired, table, kept);
      && (OnTp0(t, k) <==> (k in desired && !Conflicted(k, table)) || (OnTp0(table, k) && !Managed(k, table[k], kept)))
      && (OnTp0(t, k) ==> t[k] == if OnTp0(table, k) then table[k] else Route(Some("tp0"), false, false, None, false))
      && (k in t && !OnTp0(t, k) <==> k in table && !OnTp0(table, k))
      && (k in t && !OnTp0(t, k) ==> t[k] == table[k])
  {
    if k in table && !OnTp0(table, k) { assert Elsewhere(k, k, table); }
  }

  /** After a pass `tp0` carries exactly the wanted ranges nothing else has taken, and of the old ones those that always stay. */
  lemma Tp0Table(desired: set<Range>, table: Table, k: Range)
    ensures var t := ApplyTp0(desired, table, UnmanagedRanges());
      && (OnTp0(t, k) <==> (k in desired && !Taken(k, table)) || (OnTp0(table, k) && Stays(k, table[k])))
      && (OnTp0(t, k) ==> t[k] == if OnTp0(table, k) then table[k] else Route(Some("tp0"), false, false, None, false))
      && (k in t && !OnTp0(t, k) <==> k in table && !OnTp0(table, k))
      && (k in t && !OnTp0(t, k) ==> t[k] == table[k])
  {
    TakenIsConflicted(k, table);
    if k in table { StaysIsUnmanaged(k, table[k]); }
    Tp0Entry(desired, table, UnmanagedRanges(), k);
  }

  // ---------------------------------------------------------------- LAN

  /** The table routes this range over this next hop and interface. */
  predicate Shows(table: Table, k: Range, via: Range, dev: string) {
    k in table && table[k].dev == Some(dev) && table[k].via == Some(via)
  }

  /** The table still shows a route of this range as the daemon recorded it. */
  predicate Recorded(table: Table, k: Range, installed: set<Installed>) {
    exists e :: e in installed && e.range == k && Shows(table, k, e.via, e.dev)
  }

  /** An interface a LAN route may use: not `tp0`, not `lo`, and none of the container side. */
  predicate LanName(dev: string) {
    dev != "tp0" && dev != "lo" && !("docker" <= dev) && !("br-" <= dev) && !("veth" <= dev) && !("tpn" <= dev)
  }

  /**
   * Network `n` holds the next hop as a host: connected, with carrier, over a LAN interface, no
   * bridge subnet, and below 31 bits the next hop is neither its first nor its last IPv4 address.
   */
  predicate Reaches(n: Range, table: Table, via: Range, bridges: set<Range>) {
    && n in table && table[n].connected && !table[n].linkdown && n !in bridges
    && table[n].dev.Some? && LanName(table[n].dev.value)
    && n.version == via.version && n.base <= via.base && Last(via) <= Last(n)
    && (n.version == 4 && n.prefix < 31 ==> via.base != n.base && via.base != Last(n))
  }

  /** The most specific network that does, and its interface. */
  ghost predicate Nearest(table: Table, via: Range, bridges: set<Range>, dev: string) {
    exists n: Range :: Reaches(n, table, via, bridges) && table[n].dev == Some(dev) &&
      forall m: Range :: Reaches(m, table, via, bridges) ==> m.prefix <= n.prefix
  }

  /**
   * A wanted LAN route goes over `dev`: IPv4, clear of the bridge subnets, `dev` the interface of
   * the nearest network that holds the next hop, and the range is routed just so already, or no
   * connected network has an address of it and no route but the daemon's own is there.
   */
  ghost predicate Carried(w: Wanted, table: Table, bridges: set<Range>, installed: set<Installed>, dev: string) {
    && w.range.version == 4 && w.via.version == 4
    && (forall b :: b in bridges ==> !Meet(w.range, b))
    && Nearest(table, w.via, bridges, dev)
    && (Shows(table, w.range, w.via, dev) ||
        ((forall o :: o in table && table[o].connected ==> !Meet(w.range, o)) &&
         (w.range in table ==> Recorded(table, w.range, installed))))
  }

  lemma ReachesIsCandidate(n: Range, table: Table, via: Range, bridges: set<Range>)
    ensures Reaches(n, table, via, bridges) <==> Candidate(n, Connected(table), via, bridges)
  {
  }

  lemma NearestIsConnectedDev(table: Table, via: Range, bridges: set<Range>, dev: string)
    ensures Nearest(table, via, bridges, dev) <==> ConnectedDev(Connected(table), via, bridges) == Some(dev)
  {
    var conn := Connected(table);
    forall n ensures Reaches(n, table, via, bridges) <==> Candidate(n, conn, via, bridges) {
      ReachesIsCandidate(n, table, via, bridges);
    }
    if Nearest(table, via, bridges, dev) {
      var n: Range :| Reaches(n, table, via, bridges) && table[n].dev == Some(dev) &&
        forall m: Range :: Reaches(m, table, via, bridges) ==> m.prefix <= n.prefix;
      assert Best(n, conn, via, bridges);
      forall k | Best(k, conn, via, bridges) ensures k == n { BestIsUnique(k, n, conn, via, bridges); }
    }
    if ConnectedDev(conn, via, bridges) == Some(dev) {
      var k :| Best(k, conn, via, bridges) && conn[k].dev == Some(dev);
      assert Reaches(k, table, via, bridges);
    }
  }

  lemma FreeIsNotInTheWay(k: Range, table: Table, installed: set<Installed>)
    ensures !InTheWay(k, table, installed) <==>
      (forall o :: o in table && table[o].connected ==> !Meet(k, o)) && (k in table ==> Recorded(table, k, installed))
  {
    forall o ensures Meet(k, o) <==> Shares(k, o) { MeetIsShares(k, o); }
    assert Recorded(table, k, installed) <==> WasInstalled(table, k, installed);
  }

  lemma CarriedIsPlaced(w: Wanted, table: Table, bridges: set<Range>, installed: set<Installed>, dev: string)
    ensures Carried(w, table, bridges, installed, dev) <==>
      PlaceLan(w, table, bridges, installed) == Place(Installed(w.range, w.via, dev), Shows(table, w.range, w.via, dev))
  {
    forall b ensures Meet(w.range, b) <==> Shares(w.range, b) { MeetIsShares(w.range, b); }
    NearestIsConnectedDev(table, w.via, bridges, dev);
    FreeIsNotInTheWay(w.range, table, installed);
    assert OverBridge(w.range, bridges) <==> exists b :: b in bridges && Meet(w.range, b);
  }

  /** Some wanted route of this range goes over some interface. */
  ghost predicate Served(k: Range, desired: set<Wanted>, table: Table, bridges: set<Range>, installed: set<Installed>) {
    exists w, dev :: w in desired && w.range == k && Carried(w, table, bridges, installed, dev)
  }

  lemma PlacedIsCarried(desired: set<Wanted>, table: Table, bridges: set<Range>, installed: set<Installed>, e: Installed)
    ensures e in PlacedLan(desired, table, bridges, installed) <==>
      Wanted(e.range, e.via) in desired && Carried(Wanted(e.range, e.via), table, bridges, installed, e.dev)
  {
    var w := Wanted(e.range, e.via);
    CarriedIsPlaced(w, table, bridges, installed, e.dev);
    if e in PlacedLan(desired, table, bridges, installed) {
      var v :| v in desired && PlaceLan(v, table, bridges, installed).Place? && PlaceLan(v, table, bridges, installed).route == e;
      assert v == w;
    }
  }

  lemma OnlyAddition(desired: set<Wanted>, table: Table, bridges: set<Range>, installed: set<Installed>, w: Wanted)
    requires DistinctRanges(desired) && w in desired && PlaceLan(w, table, bridges, installed).Place?
    ensures var p, adds := PlaceLan(w, table, bridges, installed), AddLan(desired, table, bridges, installed);
      RouteFor(w.range, adds) == if p.present then None else Some(p.route)
  {
    var p, adds := PlaceLan(w, table, bridges, installed), AddLan(desired, table, bridges, installed);
    forall a | a in adds && a.range == w.range ensures !p.present && a == p.route {
      var v :| v in desired && PlaceLan(v, table, bridges, installed) == Place(a, false);
      assert v.range == w.range;
    }
    if !p.present { assert p.route in adds; }
  }

  /** After a LAN pass a route that goes over an interface is in the table, over just that interface. */
  lemma CarriedIsInTheTable(desired: set<Wanted>, table: Table, bridges: set<Range>, installed: set<Installed>, w: Wanted, dev: string)
    requires DistinctRanges(desired) && w in desired && Carried(w, table, bridges, installed, dev)
    ensures var t := ApplyLan(table, AddLan(desired, table, bridges, installed), RemoveLan(desired, table, bridges, installed));
      && w.range in t
      && t[w.range] == if Shows(table, w.range, w.via, dev) then table[w.range] else Route(Some(dev), false, false, Some(w.via), false)
  {
    CarriedIsPlaced(w, table, bridges, installed, dev);
    PlacedIsThere(desired, table, bridges, installed, w);
    OnlyAddition(desired, table, bridges, installed, w);
    ApplyLanAt(table, AddLan(desired, table, bridges, installed), RemoveLan(desired, table, bridges, installed), w.range);
  }

  lemma RecordedIsRemoved(desired: set<Wanted>, table: Table, bridges: set<Range>, installed: set<Installed>, k: Range)
    requires forall p :: p in PlacedLan(desired, table, bridges, installed) ==> p.range != k
    ensures Recorded(table, k, installed) <==> exists e :: e in RemoveLan(desired, table, bridges, installed) && e.range == k
  {
    if e :| e in installed && e.range == k && Shows(table, k, e.via, e.dev) {
      assert e in RemoveLan(desired, table, bridges, installed);
    }
  }

  /** Every other range is left alone, except that the daemon's own recorded route goes. */
  lemma OthersInTheTable(desired: set<Wanted>, table: Table, bridges: set<Range>, installed: set<Installed>, k: Range)
    requires !Served(k, desired, table, bridges, installed)
    ensures var t := ApplyLan(table, AddLan(desired, table, bridges, installed), RemoveLan(desired, table, bridges, installed));
      (k in t <==> k in table && !Recorded(table, k, installed)) && (k in t ==> t[k] == table[k])
  {
    var adds, removes := AddLan(desired, table, bridges, installed), RemoveLan(desired, table, bridges, installed);
    var placed := PlacedLan(desired, table, bridges, installed);
    forall p | p in placed ensures p.range != k {
      PlacedIsCarried(desired, table, bridges, installed, p);
    }
    assert forall a :: a in adds ==> a in placed;
    ApplyLanAt(table, adds, removes, k);
    RecordedIsRemoved(desired, table, bridges, installed, k);
  }

  // ---------------------------------------------------------------- when nothing is left to change

  /** The host is as asked for: both kinds of routes are in place, and nothing of the daemon's own is left over. */
  ghost predicate AsAsked(q: Request, h: Host) {
    && (forall k :: k in q.tp0 && !Taken(k, h.table) ==> OnTp0(h.table, k))
    && (forall k :: OnTp0(h.table, k) ==> (k in q.tp0 && !Taken(k, h.table)) || Stays(k, h.table[k]))
    && (forall w, dev :: w in q.lan && Carried(w, h.table, q.bridges, h.installed, dev) ==> Shows(h.table, w.range, w.via, dev))
    && (forall e :: e in h.installed && Shows(h.table, e.range, e.via, e.dev) ==> Served(e.range, q.lan, h.table, q.bridges, h.installed))
  }

  lemma Tp0SettledAt(desired: set<Range>, table: Table, kept: seq<Range>)
    ensures Tp0Settled(desired, table, kept) <==>
      && (forall k :: k in desired && !Conflicted(k, table) ==> OnTp0(table, k))
      && (forall k :: OnTp0(table, k) ==> (k in desired && !Conflicted(k, table)) || !Managed(k, table[k], kept))
  {
    var add, remove := AddTp0(desired, table), RemoveTp0(desired, table, kept);
    if k :| k in desired && !Conflicted(k, table) && !OnTp0(table, k) { assert k in add; }
    if k :| OnTp0(table, k) && (k !in desired || Conflicted(k, table)) && Managed(k, table[k], kept) { assert k in remove; }
    if k :| k in add { assert k in desired && !Conflicted(k, table) && !OnTp0(table, k); }
    if k :| k in remove { assert OnTp0(table, k) && (k !in desired || Conflicted(k, table)) && Managed(k, table[k], kept); }
  }

  lemma Tp0AsAsked(q: Request, table: Table)
    requires q.kept == UnmanagedRanges()
    ensures Tp0Settled(q.tp0, table, q.kept) <==>
      && (forall k :: k in q.tp0 && !Taken(k, table) ==> OnTp0(table, k))
      && (forall k :: OnTp0(table, k) ==> (k in q.tp0 && !Taken(k, table)) || Stays(k, table[k]))
  {
    forall k ensures Taken(k, table) <==> Conflicted(k, table) { TakenIsConflicted(k, table); }
    forall k | k in table ensures Stays(k, table[k]) <==> !Managed(k, table[k], q.kept) { StaysIsUnmanaged(k, table[k]); }
    Tp0SettledAt(q.tp0, table, q.kept);
  }

  lemma LanAsAsked(q: Request, h: Host)
    requires DistinctRanges(q.lan)
    ensures LanSettled(q.lan, h.table, q.bridges, h.installed) <==>
      && (forall w, dev :: w in q.lan && Carried(w, h.table, q.bridges, h.installed, dev) ==> Shows(h.table, w.range, w.via, dev))
      && (forall e :: e in h.installed && Shows(h.table, e.range, e.via, e.dev) ==> Served(e.range, q.lan, h.table, q.bridges, h.installed))
  {
    var add, remove := AddLan(q.lan, h.table, q.bridges, h.installed), RemoveLan(q.lan, h.table, q.bridges, h.installed);
    forall w, dev
      ensures Carried(w, h.table, q.bridges, h.installed, dev) <==>
        PlaceLan(w, h.table, q.bridges, h.installed) == Place(Installed(w.range, w.via, dev), Shows(h.table, w.range, w.via, dev))
    {
      CarriedIsPlaced(w, h.table, q.bridges, h.installed, dev);
    }
    forall e | e in h.installed && Shows(h.table, e.range, e.via, e.dev)
      ensures e in remove <==> !Served(e.range, q.lan, h.table, q.bridges, h.installed)
    {
      StaleIsUnserved(q, h, e);
    }
    if e :| e in add {
      var w :| w in q.lan && PlaceLan(w, h.table, q.bridges, h.installed) == Place(e, false);
      assert Carried(w, h.table, q.bridges, h.installed, e.dev);
    }
    if w, dev :| w in q.lan && Carried(w, h.table, q.bridges, h.installed, dev) && !Shows(h.table, w.range, w.via, dev) {
      assert Installed(w.range, w.via, dev) in add;
    }
  }

  lemma StaleIsUnserved(q: Request, h: Host, e: Installed)
    requires e in h.installed && Shows(h.table, e.range, e.via, e.dev)
    ensures e in RemoveLan(q.lan, h.table, q.bridges, h.installed) <==> !Served(e.range, q.lan, h.table, q.bridges, h.installed)
  {
    var placed := PlacedLan(q.lan, h.table, q.bridges, h.installed);
    forall p ensures p in placed <==> Wanted(p.range, p.via) in q.lan && Carried(Wanted(p.range, p.via), h.table, q.bridges, h.installed, p.dev) {
      PlacedIsCarried(q.lan, h.table, q.bridges, h.installed, p);
    }
    if Served(e.range, q.lan, h.table, q.bridges, h.installed) {
      var w, dev :| w in q.lan && w.range == e.range && Carried(w, h.table, q.bridges, h.installed, dev);
      assert Installed(w.range, w.via, dev) in placed;
    }
  }

  /** Both plans are empty exactly when the host is as asked for. */
  lemma SettledIsAsAsked(q: Request, h: Host)
    requires q.kept == UnmanagedRanges() && DistinctRanges(q.lan)
    ensures Settled(q, h) <==> AsAsked(q, h)
  {
    Tp0AsAsked(q, h.table);
    LanAsAsked(q, h);
  }

  /** A payload both policies accept leaves the host as asked for after two reconciles, from any table. */
  lemma AcceptedPayloadIsInPlace(payload: Payload, own: Option<Range>, bridges: set<Range>, h: Host)
    requires PeersOk(payload) && LanOk(payload) && HostOk(h)
    ensures var q := RequestOf(payload, own, bridges); AsAsked(q, Pass(q, Pass(q, h)))
  {
    var q := RequestOf(payload, own, bridges);
    AcceptedPayloadConverges(payload, own, bridges, h);
    SettledIsAsAsked(q, Pass(q, Pass(q, h)));
  }

  /** So every accepted peer range that nothing else has taken is on `tp0`. */
  lemma PeerRangesAreRouted(payload: Payload, own: Option<Range>, bridges: set<Range>, h: Host, p: nat, i: nat)
    requires PeersOk(payload) && LanOk(payload) && HostOk(h)
    requires p < |payload.peers| && i < |payload.peers[p]| && payload.peers[p][i] != own
    ensures payload.peers[p][i].Some?
    ensures var q := RequestOf(payload, own, bridges); var t := Pass(q, Pass(q, h)).table;
      Taken(payload.peers[p][i].value, t) || OnTp0(t, payload.peers[p][i].value)
  {
    AcceptedPayloadIsInPlace(payload, own, bridges, h);
    assert PeerRangeOk(payload, p, i);
    assert payload.peers[p][i].value in RequestOf(payload, own, bridges).tp0;
  }

  /** And every accepted LAN route is there over the interface it goes over. */
  lemma LanRoutesAreRouted(payload: Payload, own: Option<Range>, bridges: set<Range>, h: Host, k: nat, dev: string)
    requires PeersOk(payload) && LanOk(payload) && HostOk(h)
    requires k < |payload.lan| && payload.lan[k].via.Some?
    ensures payload.lan[k].range.Some?
    ensures var q := RequestOf(payload, own, bridges); var h2 := Pass(q, Pass(q, h));
      var w := Wanted(payload.lan[k].range.value, payload.lan[k].via.value);
      Carried(w, h2.table, bridges, h2.installed, dev) ==> Shows(h2.table, w.range, w.via, dev)
  {
    AcceptedPayloadIsInPlace(payload, own, bridges, h);
    assert LanRouteOk(payload, k);
    assert Wanted(payload.lan[k].range.value, payload.lan[k].via.value) in RequestOf(payload, own, bridges).lan;
  }
}
