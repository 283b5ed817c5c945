/**
 * The two route planners and what they make of the main table. The table holds one route per
 * range. `tp0` routes are planned and applied first, LAN routes then on the changed table.
 */
module FabricRoutes {
  import opened Prelude
  import opened Cidr
  import opened FabricPolicy

  const TP0 := "tp0"

  /** A route of the main table (its range is the key). `connected`: this host is attached to that network. */
  datatype Route = Route(dev: Option<string>, kernel: bool, connected: bool, via: Option<Range>, linkdown: bool)

  type Table = map<Range, Route>

  /** A connected route names a device and no next hop; on `tp0` only the kernel's own is one. */
  predicate TableOk(table: Table) {
    forall k :: k in table && table[k].connected ==>
      table[k].dev.Some? && table[k].via.None? && (table[k].dev == Some(TP0) ==> table[k].kernel)
  }

  /** The connected part of the table: what both planners look at beyond equal ranges. */
  function Connected(table: Table): Table {
    map k | k in table && table[k].connected :: table[k]
  }

  // ---------------------------------------------------------------- tp0 routes

  predicate OnTp0(table: Table, k: Range) {
    k in table && table[k].dev == Some(TP0)
  }

  /** Link-local and multicast ranges, which are never removed from `tp0`. */
  function UnmanagedRanges(): seq<Range> {
    Pow2Values();
    [Block(4, 169 * 256 + 254, 16), Block(4, 14, 4), Block(6, 1018, 10), Block(6, 255, 8)]
  }

  /** Whether a route over `tp0` is the daemon's to take away; those in a `kept` range are not. */
  predicate Managed(k: Range, r: Route, kept: seq<Range>) {
    !r.kernel && k.prefix >= MinPrefix(k.version) && !InSome(k, kept)
  }

  /** Another interface already routes this range, or is connected to a network that shares it. */
  predicate Elsewhere(k: Range, o: Range, table: Table) {
    o in table && table[o].dev != Some(TP0) && (o == k || (table[o].connected && Shares(k, o)))
  }

  predicate Conflicted(k: Range, table: Table) {
    exists o :: o in table && Elsewhere(k, o, table)
  }

  function WantedTp0(desired: set<Range>, table: Table): set<Range> {
    set k | k in desired && !Conflicted(k, table)
  }

  function AddTp0(desired: set<Range>, table: Table): set<Range> {
    set k | k in WantedTp0(desired, table) && !OnTp0(table, k)
  }

  function RemoveTp0(desired: set<Range>, table: Table, kept: seq<Range>): set<Range> {
    set k | k in table && OnTp0(table, k) && k !in WantedTp0(desired, table) && Managed(k, table[k], kept)
  }

  const TP0_ROUTE := Route(Some(TP0), false, false, None, false)

  /** The table after `ip route replace` for every added range and `ip route del` for every removed one. */
  function ApplyTp0(desired: set<Range>, table: Table, kept: seq<Range>): Table {
    var add, remove := AddTp0(desired, table), RemoveTp0(desired, table, kept);
    map k | k in table.Keys + add && k !in remove :: if k in add then TP0_ROUTE else table[k]
  }

  predicate Tp0Settled(desired: set<Range>, table: Table, kept: seq<Range>) {
    AddTp0(desired, table) == {} && RemoveTp0(desired, table, kept) == {}
  }

  function AsSet(ranges: seq<Range>): set<Range> {
    set r | r in ranges
  }

  /**
   * The planner's loops over lists, with exactly those sets as result. `skipped` are the wanted
   * ranges another interface routes.
   */
  method PlanFabricRoutes(desired: seq<Range>, table: Table, kept: seq<Range>)
    returns (add: seq<Range>, remove: seq<Range>, skipped: seq<Range>)
    ensures forall k :: k in add <==> k in AddTp0(AsSet(desired), table)
    ensures forall k :: k in remove <==> k in RemoveTp0(AsSet(desired), table, kept)
    ensures forall k :: k in skipped <==> k in desired && Conflicted(k, table)
  {
    var wanted: set<Range> := {};
    skipped := [];
    for i := 0 to |desired|
      invariant forall k :: k in wanted <==> k in desired[..i] && !Conflicted(k, table)
      invariant forall k :: k in skipped <==> k in desired[..i] && Conflicted(k, table)
    {
      assert desired[..i + 1] == desired[..i] + [desired[i]];
      if Conflicted(desired[i], table) {
        skipped := skipped + [desired[i]];
      } else {
        wanted := wanted + {desired[i]};
      }
    }
    assert desired[..|desired|] == desired;
    assert wanted == WantedTp0(AsSet(desired), table);
    add := [];
    for i := 0 to |desired|
      invariant forall k :: k in add <==> k in desired[..i] && k in wanted && !OnTp0(table, k)
    {
      assert desired[..i + 1] == desired[..i] + [desired[i]];
      if desired[i] in wanted && !OnTp0(table, desired[i]) { add := add + [desired[i]]; }
    }
    remove := CollectRemovals(wanted, table, kept);
  }

  method CollectRemovals(wanted: set<Range>, table: Table, kept: seq<Range>) returns (remove: seq<Range>)
    ensures forall k :: k in remove <==> k in table && OnTp0(table, k) && k !in wanted && Managed(k, table[k], kept)
  {
    remove := [];
    var rest := table.Keys;
    while rest != {}
      invariant rest <= table.Keys
      invariant forall k :: k in remove <==>
        k in table && k !in rest && OnTp0(table, k) && k !in wanted && Managed(k, table[k], kept)
      decreases rest
    {
      var k :| k in rest;
      rest := rest - {k};
      if OnTp0(table, k) && k !in wanted && Managed(k, table[k], kept) { remove := remove + [k]; }
    }
  }

  /** What a `tp0` pass changes: nothing off `tp0`, and nothing connected. */
  lemma Tp0Frame(desired: set<Range>, table: Table, kept: seq<Range>)
    requires TableOk(table)
    ensures var t := ApplyTp0(desired, table, kept);
      && TableOk(t)
      && Connected(t) == Connected(table)
      && (forall k :: k in table && table[k].dev != Some(TP0) ==> k in t && t[k] == table[k])
      && (forall k :: k in t && t[k].dev != Some(TP0) ==> k in table && t[k] == table[k])
  {
    forall k | k in AddTp0(desired, table) ensures k !in table {
      if k in table { assert Elsewhere(k, k, table); }
    }
  }

  /** Wanted ranges depend only on what is off `tp0`. */
  lemma SameWanted(desired: set<Range>, a: Table, b: Table)
    requires forall k :: k in a && a[k].dev != Some(TP0) ==> k in b && b[k] == a[k]
    requires forall k :: k in b && b[k].dev != Some(TP0) ==> k in a && a[k] == b[k]
    ensures WantedTp0(desired, a) == WantedTp0(desired, b)
  {
    forall k | k in desired ensures Conflicted(k, a) <==> Conflicted(k, b) {
      if o :| o in a && Elsewhere(k, o, a) { assert Elsewhere(k, o, b); }
      if o :| o in b && Elsewhere(k, o, b) { assert Elsewhere(k, o, a); }
    }
  }

  /** One `tp0` pass leaves nothing for the next. */
  lemma Tp0PassSettles(desired: set<Range>, table: Table, kept: seq<Range>)
    requires TableOk(table)
    ensures Tp0Settled(desired, ApplyTp0(desired, table, kept), kept)
  {
    var t := ApplyTp0(desired, table, kept);
    Tp0Frame(desired, table, kept);
    SameWanted(desired, table, t);
  }

  // ---------------------------------------------------------------- LAN routes

  /** A route the daemon installed, as recorded: range, next hop and interface. */
  datatype Installed = Installed(range: Range, via: Range, dev: string)

  datatype Wanted = Wanted(range: Range, via: Range)

  predicate StartsWithText(s: string, prefix: string) {
    prefix <= s
  }

  /** Interfaces that are left out when a LAN is looked for. */
  predicate NeverLanDev(dev: string) {
    dev == TP0 || dev == "lo" || StartsWithText(dev, "docker") || StartsWithText(dev, "br-") ||
    StartsWithText(dev, "veth") || StartsWithText(dev, "tpn")
  }

  /** A connected network whose interface may carry LAN routes. */
  predicate Usable(k: Range, r: Route, bridges: set<Range>) {
    r.connected && !r.linkdown && r.dev.Some? && !NeverLanDev(r.dev.value) && k !in bridges
  }

  /** `host` can be the address of a machine in `k`: the first and last address of an IPv4 range cannot. */
  predicate HoldsHost(k: Range, host: Range) {
    Inside(host, k) && (k.version != 4 || k.prefix >= 31 || (host.base != k.base && host.base != Last(k)))
  }

  predicate Candidate(k: Range, conn: Table, host: Range, bridges: set<Range>) {
    k in conn && Usable(k, conn[k], bridges) && HoldsHost(k, host)
  }

  /** The most specific candidate. */
  predicate Best(k: Range, conn: Table, host: Range, bridges: set<Range>) {
    Candidate(k, conn, host, bridges) && forall j :: j in conn && Candidate(j, conn, host, bridges) ==> j.prefix <= k.prefix
  }

  ghost function ConnectedDev(conn: Table, host: Range, bridges: set<Range>): Option<string> {
    if exists k :: Best(k, conn, host, bridges) then
      var k :| Best(k, conn, host, bridges);
      conn[k].dev
    else None
  }

  /** Two candidates with one prefix length are the same network, so the best one is unique. */
  lemma BestIsUnique(j: Range, k: Range, conn: Table, host: Range, bridges: set<Range>)
    requires Best(j, conn, host, bridges) && Best(k, conn, host, bridges)
    ensures j == k
  {
    assert HasAddress(host, host.base) && HasAddress(j, host.base) && HasAddress(k, host.base);
    SmallerInside(j, k, host.base);
    SmallerInside(k, j, host.base);
    MutualInsideIsEqual(j, k);
  }

  /** The source's search loop for the interface. */
  method ConnectedDevFor(conn: Table, host: Range, bridges: set<Range>) returns (dev: Option<string>)
    ensures dev == ConnectedDev(conn, host, bridges)
  {
    var best: Option<Range> := None;
    var rest := conn.Keys;
    while rest != {}
      invariant rest <= conn.Keys
      invariant best.Some? ==> best.value !in rest && Candidate(best.value, conn, host, bridges)
      invariant forall j :: j in conn && j !in rest && Candidate(j, conn, host, bridges) ==>
        best.Some? && j.prefix <= best.value.prefix
      decreases rest
    {
      var k :| k in rest;
      rest := rest - {k};
      if Candidate(k, conn, host, bridges) && (best.None? || k.prefix > best.value.prefix) {
        best := Some(k);
      }
    }
    if best.None? {
      dev := None;
      assert !exists k :: Best(k, conn, host, bridges);
    } else {
      dev := conn[best.value].dev;
      assert Best(best.value, conn, host, bridges);
      forall k | Best(k, conn, host, bridges) ensures k == best.value {
        BestIsUnique(k, best.value, conn, host, bridges);
      }
    }
  }

  /** The table shows exactly this route. */
  predicate Exactly(table: Table, k: Range, via: Range, dev: string) {
    k in table && table[k].dev == Some(dev) && table[k].via == Some(via)
  }

  predicate WasInstalled(table: Table, k: Range, installed: set<Installed>) {
    exists e :: e in installed && e.range == k && Exactly(table, k, e.via, e.dev)
  }

  /** What keeps a range from being routed: a connected network overlaps it, or somebody else routes exactly this range. */
  predicate InTheWay(k: Range, table: Table, installed: set<Installed>) {
    || (exists o :: o in table && table[o].connected && Shares(k, o))
    || (k in table && !WasInstalled(table, k, installed))
  }

  predicate OverBridge(k: Range, bridges: set<Range>) {
    exists b :: b in bridges && Shares(k, b)
  }

  datatype Placement = Skip | Place(route: Installed, present: bool)

  ghost function PlaceLan(w: Wanted, table: Table, bridges: set<Range>, installed: set<Installed>): Placement {
    var dev := ConnectedDev(Connected(table), w.via, bridges);
    if w.range.version != 4 || w.via.version != 4 || OverBridge(w.range, bridges) || dev.None? then Skip
    else
      var exact := Exactly(table, w.range, w.via, dev.value);
      if InTheWay(w.range, table, installed) && !exact then Skip
      else Place(Installed(w.range, w.via, dev.value), exact)
  }

  ghost function PlacedLan(desired: set<Wanted>, table: Table, bridges: set<Range>, installed: set<Installed>): set<Installed> {
    set w | w in desired && PlaceLan(w, table, bridges, installed).Place? :: PlaceLan(w, table, bridges, installed).route
  }

  ghost function AddLan(desired: set<Wanted>, table: Table, bridges: set<Range>, installed: set<Installed>): set<Installed> {
    set w | w in desired && PlaceLan(w, table, bridges, installed).Place? && !PlaceLan(w, table, bridges, installed).present
      :: PlaceLan(w, table, bridges, installed).route
  }

  /** Installed earlier, wanted by nothing now, and still exactly there. */
  ghost function RemoveLan(desired: set<Wanted>, table: Table, bridges: set<Range>, installed: set<Installed>): set<Installed> {
    set e | e in installed && Exactly(table, e.range, e.via, e.dev) &&
      forall p :: p in PlacedLan(desired, table, bridges, installed) ==> p.range != e.range
  }

  ghost predicate LanSettled(desired: set<Wanted>, table: Table, bridges: set<Range>, installed: set<Installed>) {
    AddLan(desired, table, bridges, installed) == {} && RemoveLan(desired, table, bridges, installed) == {}
  }

  ghost function RouteFor(range: Range, adds: set<Installed>): Option<Installed> {
    if exists a :: a in adds && a.range == range then
      var a :| a in adds && a.range == range;
      Some(a)
    else None
  }

  /** The table after the removals and then the additions. */
  ghost function ApplyLan(table: Table, adds: set<Installed>, removes: set<Installed>): Table {
    var gone, came := set e | e in removes :: e.range, set a | a in adds :: a.range;
    map k | k in table.Keys + came && (k in came || k !in gone) ::
      var a := RouteFor(k, adds);
      if a.Some? then Route(Some(a.value.dev), false, false, Some(a.value.via), false) else table[k]
  }

  method PlaceLanRoute(w: Wanted, table: Table, bridges: set<Range>, installed: seq<Installed>) returns (p: Placement)
    ensures p == PlaceLan(w, table, bridges, set e | e in installed)
  {
    ghost var all := set e | e in installed;
    if w.range.version != 4 || w.via.version != 4 || OverBridge(w.range, bridges) { return Skip; }
    var dev := ConnectedDevFor(Connected(table), w.via, bridges);
    if dev.None? { return Skip; }
    var exact := Exactly(table, w.range, w.via, dev.value);
    var ours := exists e :: e in installed && e.range == w.range && Exactly(table, w.range, e.via, e.dev);
    assert ours <==> WasInstalled(table, w.range, all);
    var blocked := (exists o :: o in table && table[o].connected && Shares(w.range, o)) || (w.range in table && !ours);
    assert blocked <==> InTheWay(w.range, table, all);
    p := if blocked && !exact then Skip else Place(Installed(w.range, w.via, dev.value), exact);
  }

  /** One of the first `n` wanted routes is placed as `a`, already there or not. */
  ghost predicate Planned(desired: seq<Wanted>, n: nat, table: Table, bridges: set<Range>, installed: set<Installed>, a: Installed, present: bool)
    requires n <= |desired|
  {
    exists i :: 0 <= i < n && PlaceLan(desired[i], table, bridges, installed) == Place(a, present)
  }

  lemma PlannedInAll(desired: seq<Wanted>, table: Table, bridges: set<Range>, installed: set<Installed>, a: Installed)
    ensures var all := set w | w in desired;
      && (Planned(desired, |desired|, table, bridges, installed, a, false) <==> a in AddLan(all, table, bridges, installed))
      && (a in PlacedLan(all, table, bridges, installed) <==>
          Planned(desired, |desired|, table, bridges, installed, a, false) || Planned(desired, |desired|, table, bridges, installed, a, true))
  {
    var all := set w | w in desired;
    if w :| w in all && PlaceLan(w, table, bridges, installed).Place? && PlaceLan(w, table, bridges, installed).route == a {
      var i :| 0 <= i < |desired| && desired[i] == w;
    }
  }

  lemma PlannedStep(desired: seq<Wanted>, n: nat, table: Table, bridges: set<Range>, installed: set<Installed>)
    requires n < |desired|
    ensures forall a, present :: Planned(desired, n + 1, table, bridges, installed, a, present) <==>
      Planned(desired, n, table, bridges, installed, a, present) || PlaceLan(desired[n], table, bridges, installed) == Place(a, present)
  {
  }

  method PlaceLanRoutes(desired: seq<Wanted>, table: Table, bridges: set<Range>, installed: seq<Installed>)
    returns (add: seq<Installed>, keep: seq<Installed>)
    ensures var before := set e | e in installed;
      && (forall a :: a in add <==> Planned(desired, |desired|, table, bridges, before, a, false))
      && (forall a :: a in keep <==> Planned(desired, |desired|, table, bridges, before, a, true))
  {
    ghost var before := set e | e in installed;
    add, keep := [], [];
    for i := 0 to |desired|
      invariant forall a :: a in add <==> Planned(desired, i, table, bridges, before, a, false)
      invariant forall a :: a in keep <==> Planned(desired, i, table, bridges, before, a, true)
    {
      var p := PlaceLanRoute(desired[i], table, bridges, installed);
      PlannedStep(desired, i, table, bridges, before);
      if p.Place? && p.present { keep := keep + [p.route]; }
      if p.Place? && !p.present { add := add + [p.route]; }
    }
  }

  /** The LAN planner's loops over lists, with exactly those sets as result. */
  method PlanLanRoutes(desired: seq<Wanted>, table: Table, bridges: set<Range>, installed: seq<Installed>)
    returns (add: seq<Installed>, keep: seq<Installed>, remove: seq<Installed>)
    ensures var all, before := set w | w in desired, set e | e in installed;
      && (forall a :: a in add <==> a in AddLan(all, table, bridges, before))
      && (forall a :: a in add + keep <==> a in PlacedLan(all, table, bridges, before))
      && (forall e :: e in remove <==> e in RemoveLan(all, table, bridges, before))
  {
    add, keep := PlaceLanRoutes(desired, table, bridges, installed);
    ghost var all, before := set w | w in desired, set e | e in installed;
    forall a
      ensures a in add <==> a in AddLan(all, table, bridges, before)
      ensures a in add + keep <==> a in PlacedLan(all, table, bridges, before)
    {
      PlannedInAll(desired, table, bridges, before, a);
    }
    remove := StaleInstalledRoutes(table, installed, add + keep);
  }

  method StaleInstalledRoutes(table: Table, installed: seq<Installed>, placed: seq<Installed>) returns (remove: seq<Installed>)
    ensures forall e :: e in remove <==>
      e in installed && Exactly(table, e.range, e.via, e.dev) && forall p :: p in placed ==> p.range != e.range
  {
    var keys := set p | p in placed :: p.range;
    remove := [];
    for i := 0 to |installed|
      invariant forall e :: e in remove <==>
        e in installed[..i] && Exactly(table, e.range, e.via, e.dev) && e.range !in keys
    {
      assert installed[..i + 1] == installed[..i] + [installed[i]];
      var e := installed[i];
      if e.range !in keys && Exactly(table, e.range, e.via, e.dev) { remove := remove + [e]; }
    }
    assert installed[..|installed|] == installed;
  }

  // ---------------------------------------------------------------- one LAN pass settles the LAN routes

  /** Wanted ranges are distinct, as the policy makes them. */
  predicate DistinctRanges(desired: set<Wanted>) {
    forall v, w :: v in desired && w in desired && v.range == w.range ==> v == w
  }

  predicate OffTp0(installed: set<Installed>) {
    forall e :: e in installed ==> e.dev != TP0
  }

  /** What a LAN pass writes: a wanted range whose route is missing or ours. */
  lemma AddedIsFreeOrOurs(desired: set<Wanted>, table: Table, bridges: set<Range>, installed: set<Installed>, a: Installed)
    requires a in AddLan(desired, table, bridges, installed)
    ensures a.range !in table || WasInstalled(table, a.range, installed)
    ensures a.dev != TP0
    ensures exists w :: w in desired && w.range == a.range && w.via == a.via
  {
    var w :| w in desired && PlaceLan(w, table, bridges, installed) == Place(a, false);
    assert !InTheWay(w.range, table, installed);
    DevIsNotTp0(Connected(table), w.via, bridges);
  }

  lemma DevIsNotTp0(conn: Table, host: Range, bridges: set<Range>)
    ensures ConnectedDev(conn, host, bridges) != Some(TP0)
  {
  }

  lemma ApplyLanAt(table: Table, adds: set<Installed>, removes: set<Installed>, k: Range)
    ensures var t := ApplyLan(table, adds, removes);
      && (RouteFor(k, adds).None? ==> (k in t <==> k in table && forall e :: e in removes ==> e.range != k) && (k in t ==> t[k] == table[k]))
      && (RouteFor(k, adds).Some? ==> k in t && t[k] == Route(Some(RouteFor(k, adds).value.dev), false, false, Some(RouteFor(k, adds).value.via), false))
  {
    var came := set a | a in adds :: a.range;
    assert k in came <==> RouteFor(k, adds).Some?;
  }

  /** A connected route stays as it is, and no other becomes one. */
  lemma LanKeepsConnected(desired: set<Wanted>, table: Table, bridges: set<Range>, installed: set<Installed>, t: Table, k: Range)
    requires TableOk(table)
    requires t == ApplyLan(table, AddLan(desired, table, bridges, installed), RemoveLan(desired, table, bridges, installed))
    ensures k in t && t[k].connected <==> k in table && table[k].connected
    ensures k in t && t[k].connected ==> t[k] == table[k]
  {
    var adds, removes := AddLan(desired, table, bridges, installed), RemoveLan(desired, table, bridges, installed);
    ApplyLanAt(table, adds, removes, k);
    if RouteFor(k, adds).Some? {
      AddedIsFreeOrOurs(desired, table, bridges, installed, RouteFor(k, adds).value);
    }
  }

  lemma SameConnected(a: Table, b: Table)
    requires TableOk(a)
    requires forall k :: (k in b && b[k].connected <==> k in a && a[k].connected) && (k in b && b[k].connected ==> b[k] == a[k])
    ensures TableOk(b) && Connected(b) == Connected(a)
  {
    assert Connected(b).Keys == Connected(a).Keys;
  }

  lemma LanFrame(desired: set<Wanted>, table: Table, bridges: set<Range>, installed: set<Installed>)
    requires TableOk(table)
    ensures var t := ApplyLan(table, AddLan(desired, table, bridges, installed), RemoveLan(desired, table, bridges, installed));
      TableOk(t) && Connected(t) == Connected(table)
  {
    var t := ApplyLan(table, AddLan(desired, table, bridges, installed), RemoveLan(desired, table, bridges, installed));
    forall k
      ensures k in t && t[k].connected <==> k in table && table[k].connected
      ensures k in t && t[k].connected ==> t[k] == table[k]
    {
      LanKeepsConnected(desired, table, bridges, installed, t, k);
    }
    SameConnected(table, t);
  }

  /** The route of a placed range is in the table after the pass. */
  lemma PlacedIsThere(desired: set<Wanted>, table: Table, bridges: set<Range>, installed: set<Installed>, w: Wanted)
    requires DistinctRanges(desired) && w in desired && PlaceLan(w, table, bridges, installed).Place?
    ensures var t := ApplyLan(table, AddLan(desired, table, bridges, installed), RemoveLan(desired, table, bridges, installed));
      Exactly(t, w.range, w.via, PlaceLan(w, table, bridges, installed).route.dev)
  {
    var adds, removes := AddLan(desired, table, bridges, installed), RemoveLan(desired, table, bridges, installed);
    var p := PlaceLan(w, table, bridges, installed);
    ApplyLanAt(table, adds, removes, w.range);
    forall a | a in adds && a.range == w.range ensures a == p.route && !p.present {
      var v :| v in desired && PlaceLan(v, table, bridges, installed) == Place(a, false);
      assert v.range == w.range;
    }
    if p.present {
      assert RouteFor(w.range, adds).None?;
      assert p.route in PlacedLan(desired, table, bridges, installed);
    } else {
      assert p.route in adds;
    }
  }

  /** Nothing is placed at a skipped range. */
  lemma NothingPlacedAtSkipped(desired: set<Wanted>, table: Table, bridges: set<Range>, installed: set<Installed>, w: Wanted)
    requires DistinctRanges(desired) && w in desired && PlaceLan(w, table, bridges, installed) == Skip
    ensures forall p :: p in PlacedLan(desired, table, bridges, installed) ==> p.range != w.range
    ensures RouteFor(w.range, AddLan(desired, table, bridges, installed)).None?
  {
    var placed := PlacedLan(desired, table, bridges, installed);
    forall p | p in placed ensures p.range != w.range {
      var v :| v in desired && PlaceLan(v, table, bridges, installed).Place? && PlaceLan(v, table, bridges, installed).route == p;
      assert v.range == p.range;
    }
    assert forall a :: a in AddLan(desired, table, bridges, installed) ==> a in placed;
  }

  /** What stands in the way of a range still does, when the range itself was left alone. */
  lemma StillInTheWay(k: Range, table: Table, t: Table, installed: set<Installed>, placed: set<Installed>)
    requires InTheWay(k, table, installed) && Connected(t) == Connected(table)
    requires forall p :: p in placed ==> p.range != k
    requires k in table && !WasInstalled(table, k, installed) ==> k in t
    ensures InTheWay(k, t, placed)
  {
    if o :| o in table && table[o].connected && Shares(k, o) {
      assert o in Connected(table);
      assert o in Connected(t);
    }
  }

  /** A skipped range is left as it was, and is skipped again. */
  lemma SkippedStaysSkipped(desired: set<Wanted>, table: Table, bridges: set<Range>, installed: set<Installed>, w: Wanted)
    requires TableOk(table) && DistinctRanges(desired) && w in desired && PlaceLan(w, table, bridges, installed) == Skip
    ensures var t := ApplyLan(table, AddLan(desired, table, bridges, installed), RemoveLan(desired, table, bridges, installed));
      PlaceLan(w, t, bridges, PlacedLan(desired, table, bridges, installed)) == Skip
  {
    var adds, removes := AddLan(desired, table, bridges, installed), RemoveLan(desired, table, bridges, installed);
    var placed := PlacedLan(desired, table, bridges, installed);
    var t := ApplyLan(table, adds, removes);
    LanFrame(desired, table, bridges, installed);
    ApplyLanAt(table, adds, removes, w.range);
    NothingPlacedAtSkipped(desired, table, bridges, installed, w);
    if InTheWay(w.range, table, installed) {
      StillInTheWay(w.range, table, t, installed, placed);
    }
  }

  lemma PlacedStaysPlaced(desired: set<Wanted>, table: Table, bridges: set<Range>, installed: set<Installed>, w: Wanted)
    requires TableOk(table) && DistinctRanges(desired) && w in desired && PlaceLan(w, table, bridges, installed).Place?
    ensures var t := ApplyLan(table, AddLan(desired, table, bridges, installed), RemoveLan(desired, table, bridges, installed));
      PlaceLan(w, t, bridges, PlacedLan(desired, table, bridges, installed)) ==
      Place(PlaceLan(w, table, bridges, installed).route, true)
  {
    LanFrame(desired, table, bridges, installed);
    PlacedIsThere(desired, table, bridges, installed, w);
  }

  /** One LAN pass leaves nothing for the next, and what it placed is what it would place again. */
  lemma LanPassSettles(desired: set<Wanted>, table: Table, bridges: set<Range>, installed: set<Installed>)
    requires TableOk(table) && DistinctRanges(desired)
    ensures var t := ApplyLan(table, AddLan(desired, table, bridges, installed), RemoveLan(desired, table, bridges, installed));
      var placed := PlacedLan(desired, table, bridges, installed);
      PlacedLan(desired, t, bridges, placed) == placed && LanSettled(desired, t, bridges, placed)
  {
    var t := ApplyLan(table, AddLan(desired, table, bridges, installed), RemoveLan(desired, table, bridges, installed));
    var placed := PlacedLan(desired, table, bridges, installed);
    forall w | w in desired
      ensures PlaceLan(w, table, bridges, installed) == Skip ==> PlaceLan(w, t, bridges, placed) == Skip
      ensures PlaceLan(w, table, bridges, installed).Place? ==>
        PlaceLan(w, t, bridges, placed) == Place(PlaceLan(w, table, bridges, installed).route, true)
    {
      if PlaceLan(w, table, bridges, installed) == Skip {
        SkippedStaysSkipped(desired, table, bridges, installed, w);
      } else {
        PlacedStaysPlaced(desired, table, bridges, installed, w);
      }
    }
  }

  // ---------------------------------------------------------------- both planners together

  /** What a reconcile is asked for; `kept` are the ranges never removed from `tp0`. */
  datatype Request = Request(tp0: set<Range>, lan: set<Wanted>, bridges: set<Range>, kept: seq<Range>)

  /** No LAN range is a tunnel range, and LAN ranges are distinct. */
  predicate Separate(q: Request) {
    DistinctRanges(q.lan) && forall w :: w in q.lan ==> w.range !in q.tp0
  }

  datatype Host = Host(table: Table, installed: set<Installed>)

  predicate HostOk(h: Host) {
    TableOk(h.table) && OffTp0(h.installed)
  }

  ghost predicate Settled(q: Request, h: Host) {
    Tp0Settled(q.tp0, h.table, q.kept) && LanSettled(q.lan, h.table, q.bridges, h.installed)
  }

  ghost function AfterTp0(q: Request, h: Host): Host {
    h.(table := ApplyTp0(q.tp0, h.table, q.kept))
  }

  ghost function AfterLan(q: Request, h: Host): Host {
    Host(ApplyLan(h.table, AddLan(q.lan, h.table, q.bridges, h.installed), RemoveLan(q.lan, h.table, q.bridges, h.installed)),
         PlacedLan(q.lan, h.table, q.bridges, h.installed))
  }

  /** One reconcile: the `tp0` plan, then the LAN plan on a fresh table, every command succeeding. */
  ghost function Pass(q: Request, h: Host): Host {
    AfterLan(q, AfterTp0(q, h))
  }

  lemma PassKeepsHostOk(q: Request, h: Host)
    requires HostOk(h)
    ensures HostOk(AfterTp0(q, h)) && HostOk(Pass(q, h))
  {
    Tp0Frame(q.tp0, h.table, q.kept);
    var h1 := AfterTp0(q, h);
    LanFrame(q.lan, h1.table, q.bridges, h1.installed);
    forall e | e in Pass(q, h).installed ensures e.dev != TP0 {
      var w :| w in q.lan && PlaceLan(w, h1.table, q.bridges, h1.installed).Place? &&
               PlaceLan(w, h1.table, q.bridges, h1.installed).route == e;
      DevIsNotTp0(Connected(h1.table), w.via, q.bridges);
    }
  }

  /** `tp0` routes after the LAN pass are the ones from before it. */
  lemma LanLeavesTp0(q: Request, h: Host, k: Range)
    requires HostOk(h)
    ensures var t := AfterLan(q, h).table;
      (OnTp0(t, k) <==> OnTp0(h.table, k)) && (OnTp0(t, k) ==> t[k] == h.table[k])
  {
    var adds, removes := AddLan(q.lan, h.table, q.bridges, h.installed), RemoveLan(q.lan, h.table, q.bridges, h.installed);
    ApplyLanAt(h.table, adds, removes, k);
    if RouteFor(k, adds).Some? {
      AddedIsFreeOrOurs(q.lan, h.table, q.bridges, h.installed, RouteFor(k, adds).value);
    }
  }

  /** A LAN range never sits on a `tp0` route the next pass would remove. */
  lemma LanRangeUntouchedByTp0(q: Request, h: Host, w: Wanted)
    requires HostOk(h) && Separate(q) && w in q.lan
    ensures var h2 := Pass(q, h);
      w.range !in AddTp0(q.tp0, h2.table) && w.range !in RemoveTp0(q.tp0, h2.table, q.kept)
  {
    var h1 := AfterTp0(q, h);
    PassKeepsHostOk(q, h);
    Tp0PassSettles(q.tp0, h.table, q.kept);
    LanLeavesTp0(q, h1, w.range);
    assert w.range !in RemoveTp0(q.tp0, h1.table, q.kept);
  }

  /** A `tp0` pass does not change how a LAN route is placed, when it leaves its range alone. */
  lemma PlacementUnmoved(q: Request, h: Host, w: Wanted)
    requires HostOk(h)
    requires w.range !in AddTp0(q.tp0, h.table) && w.range !in RemoveTp0(q.tp0, h.table, q.kept)
    ensures PlaceLan(w, AfterTp0(q, h).table, q.bridges, h.installed) == PlaceLan(w, h.table, q.bridges, h.installed)
  {
    var t := AfterTp0(q, h).table;
    Tp0Frame(q.tp0, h.table, q.kept);
    assert w.range in t <==> w.range in h.table;
    assert w.range in t ==> t[w.range] == h.table[w.range];
    SameWay(w.range, h.table, t, h.installed);
  }

  lemma SameWay(k: Range, a: Table, b: Table, installed: set<Installed>)
    requires Connected(a) == Connected(b) && (k in a <==> k in b) && (k in a ==> a[k] == b[k])
    ensures InTheWay(k, a, installed) <==> InTheWay(k, b, installed)
  {
    assert WasInstalled(a, k, installed) <==> WasInstalled(b, k, installed);
    forall o ensures o in a && a[o].connected <==> o in b && b[o].connected {
      assert o in Connected(a) <==> o in Connected(b);
    }
  }

  /** In the second pass there is nothing left to do for the LAN routes. */
  lemma SecondLanPassIsIdle(q: Request, h: Host)
    requires HostOk(h) && Separate(q)
    ensures var h3 := AfterTp0(q, Pass(q, h));
      LanSettled(q.lan, h3.table, q.bridges, h3.installed)
  {
    var h1, h2 := AfterTp0(q, h), Pass(q, h);
    var h3 := AfterTp0(q, h2);
    PassKeepsHostOk(q, h);
    LanPassSettles(q.lan, h1.table, q.bridges, h1.installed);
    forall w | w in q.lan
      ensures PlaceLan(w, h3.table, q.bridges, h3.installed) == PlaceLan(w, h2.table, q.bridges, h2.installed)
    {
      LanRangeUntouchedByTp0(q, h, w);
      PlacementUnmoved(q, h2, w);
    }
    SamePlacements(q.lan, h2.table, h3.table, q.bridges, h2.installed);
    NothingStale(q.lan, h3.table, q.bridges, h3.installed);
  }

  lemma SamePlacements(desired: set<Wanted>, a: Table, b: Table, bridges: set<Range>, installed: set<Installed>)
    requires forall w :: w in desired ==> PlaceLan(w, b, bridges, installed) == PlaceLan(w, a, bridges, installed)
    ensures PlacedLan(desired, b, bridges, installed) == PlacedLan(desired, a, bridges, installed)
    ensures AddLan(desired, b, bridges, installed) == AddLan(desired, a, bridges, installed)
  {
  }

  lemma NothingStale(desired: set<Wanted>, table: Table, bridges: set<Range>, installed: set<Installed>)
    requires installed == PlacedLan(desired, table, bridges, installed)
    ensures RemoveLan(desired, table, bridges, installed) == {}
  {
  }

  lemma IdleLanPass(q: Request, h: Host)
    requires LanSettled(q.lan, h.table, q.bridges, h.installed)
    ensures AfterLan(q, h).table == h.table
  {
    var t := AfterLan(q, h).table;
    forall k ensures (k in t <==> k in h.table) && (k in t ==> t[k] == h.table[k]) {
      ApplyLanAt(h.table, {}, {}, k);
    }
  }

  /** Two reconciles of one request leave nothing to change, whatever the table held before. */
  lemma TwoPassesSettle(q: Request, h: Host)
    requires HostOk(h) && Separate(q)
    ensures Settled(q, Pass(q, Pass(q, h)))
  {
    var h2 := Pass(q, h);
    var h3 := AfterTp0(q, h2);
    PassKeepsHostOk(q, h);
    PassKeepsHostOk(q, h2);
    SecondLanPassIsIdle(q, h);
    IdleLanPass(q, h3);
    Tp0PassSettles(q.tp0, h2.table, q.kept);
    LanPassSettles(q.lan, h3.table, q.bridges, h3.installed);
  }

  /** A network off `tp0` that this host is attached to shares the range. */
  predicate NetworkShares(k: Range, conn: Table) {
    exists o :: o in conn && conn[o].dev != Some(TP0) && Shares(k, o)
  }

  lemma ConflictedIff(k: Range, table: Table)
    ensures Conflicted(k, table) <==>
      NetworkShares(k, Connected(table)) || (k in table && table[k].dev != Some(TP0))
  {
    if o :| o in table && Elsewhere(k, o, table) && o != k { assert o in Connected(table); }
    if o :| o in Connected(table) && Connected(table)[o].dev != Some(TP0) && Shares(k, o) { assert Elsewhere(k, o, table); }
    if k in table && table[k].dev != Some(TP0) { assert Elsewhere(k, k, table); }
  }

  /** This route is one the daemon installed, and the table still shows it. */
  predicate StillOurs(k: Range, h: Host) {
    exists e :: e in h.installed && e.range == k && Exactly(h.table, k, e.via, e.dev)
  }

  /** At a tunnel range a LAN pass does one thing: it takes away the daemon's own old route. */
  lemma TunnelRangeAfterLan(q: Request, h: Host, k: Range)
    requires Separate(q) && k in q.tp0
    ensures var t := AfterLan(q, h).table;
      (k in t <==> k in h.table && !StillOurs(k, h)) && (k in t ==> t[k] == h.table[k])
  {
    var adds, removes := AddLan(q.lan, h.table, q.bridges, h.installed), RemoveLan(q.lan, h.table, q.bridges, h.installed);
    forall p | p in PlacedLan(q.lan, h.table, q.bridges, h.installed) ensures p.range != k {
      var w :| w in q.lan && PlaceLan(w, h.table, q.bridges, h.installed).Place? &&
               PlaceLan(w, h.table, q.bridges, h.installed).route == p;
    }
    forall a | a in adds ensures a.range != k {
      assert a in PlacedLan(q.lan, h.table, q.bridges, h.installed);
    }
    ApplyLanAt(h.table, adds, removes, k);
    assert StillOurs(k, h) <==> exists e :: e in removes && e.range == k;
  }

  /** So it lifts a conflict exactly where that route was the whole conflict. */
  lemma ConflictsAfterLan(q: Request, h: Host, k: Range)
    requires HostOk(h) && Separate(q) && k in q.tp0
    ensures Conflicted(k, AfterLan(q, h).table) <==>
      Conflicted(k, h.table) && (NetworkShares(k, Connected(h.table)) || !StillOurs(k, h))
  {
    LanFrame(q.lan, h.table, q.bridges, h.installed);
    TunnelRangeAfterLan(q, h, k);
    ConflictedIff(k, h.table);
    ConflictedIff(k, AfterLan(q, h).table);
  }

  /** A wanted tunnel range that only the daemon's own old LAN route keeps away. */
  predicate HeldBack(q: Request, h: Host, k: Range) {
    k in q.tp0 && StillOurs(k, h) && !NetworkShares(k, Connected(h.table))
  }

  lemma HeldBackAfterTp0(q: Request, h: Host, k: Range)
    requires HostOk(h)
    ensures HeldBack(q, AfterTp0(q, h), k) <==> HeldBack(q, h, k)
  {
    Tp0Frame(q.tp0, h.table, q.kept);
  }

  /**
   * One reconcile is enough exactly when no wanted tunnel range is held back by a LAN route the
   * daemon itself installed earlier: such a range is only added by the next reconcile.
   */
  lemma OnePassSettlesIff(q: Request, h: Host)
    requires HostOk(h) && Separate(q)
    ensures Settled(q, Pass(q, h)) <==> !exists k :: HeldBack(q, h, k)
  {
    var h1, h2 := AfterTp0(q, h), Pass(q, h);
    PassKeepsHostOk(q, h);
    Tp0PassSettles(q.tp0, h.table, q.kept);
    LanPassSettles(q.lan, h1.table, q.bridges, h1.installed);
    forall k | k in q.tp0
      ensures Conflicted(k, h2.table) <==> Conflicted(k, h1.table) && !HeldBack(q, h, k)
      ensures HeldBack(q, h, k) ==> Conflicted(k, h1.table) && !OnTp0(h1.table, k)
    {
      ConflictsAfterLan(q, h1, k);
      HeldBackAfterTp0(q, h, k);
      ConflictedIff(k, h1.table);
    }
    forall k ensures (OnTp0(h2.table, k) <==> OnTp0(h1.table, k)) && (OnTp0(h2.table, k) ==> h2.table[k] == h1.table[k]) {
      LanLeavesTp0(q, h1, k);
    }
    Tp0SettledIff(q, h, h1.table, h2.table);
  }

  lemma Tp0SettledIff(q: Request, h: Host, t1: Table, t2: Table)
    requires Tp0Settled(q.tp0, t1, q.kept)
    requires forall k :: (OnTp0(t2, k) <==> OnTp0(t1, k)) && (OnTp0(t2, k) ==> t2[k] == t1[k])
    requires forall k :: k in q.tp0 ==> (Conflicted(k, t2) <==> Conflicted(k, t1) && !HeldBack(q, h, k))
    requires forall k :: k in q.tp0 && HeldBack(q, h, k) ==> Conflicted(k, t1) && !OnTp0(t1, k)
    ensures Tp0Settled(q.tp0, t2, q.kept) <==> !exists k :: HeldBack(q, h, k)
  {
    if k :| HeldBack(q, h, k) {
      assert k in AddTp0(q.tp0, t2);
    } else {
      assert WantedTp0(q.tp0, t2) == WantedTp0(q.tp0, t1);
      assert AddTp0(q.tp0, t2) == AddTp0(q.tp0, t1);
      forall k ensures k !in RemoveTp0(q.tp0, t2, q.kept) {
        assert k !in RemoveTp0(q.tp0, t1, q.kept);
      }
    }
  }

  /** A held-back range is without any route after one reconcile, and only the next one adds it. */
  lemma HeldBackForOnePass(q: Request, h: Host, k: Range)
    requires HostOk(h) && Separate(q) && HeldBack(q, h, k)
    ensures !Settled(q, Pass(q, h)) && k !in Pass(q, h).table
    ensures Settled(q, Pass(q, Pass(q, h)))
  {
    OnePassSettlesIff(q, h);
    TwoPassesSettle(q, h);
    PassKeepsHostOk(q, h);
    HeldBackAfterTp0(q, h, k);
    TunnelRangeAfterLan(q, AfterTp0(q, h), k);
  }

  /** 10.20.0.0/16, and the address 192.168.1.1. */
  function HeldRange(): Range {
    Pow2Values();
    Block(4, 10 * 256 + 20, 16)
  }

  function HeldHop(): Range {
    Pow2Divides(16, 32);
    Pow2Values();
    Range(4, 0xC0A80101, 32)
  }

  /** It happens: the range was a LAN route over that address and is now a tunnel range. */
  lemma OldLanRouteHoldsBack(dev: string) returns (q: Request, h: Host)
    requires dev != TP0
    ensures HostOk(h) && Separate(q) && HeldBack(q, h, HeldRange())
    ensures !Settled(q, Pass(q, h)) && HeldRange() !in Pass(q, h).table
  {
    var range, e := HeldRange(), Installed(HeldRange(), HeldHop(), dev);
    q := Request({range}, {}, {}, UnmanagedRanges());
    h := Host(map[range := Route(Some(dev), false, false, Some(e.via), false)], {e});
    assert Exactly(h.table, range, e.via, e.dev);
    HeldBackForOnePass(q, h, range);
  }

  /** With no `tp0` range skipped, one reconcile is enough. */
  lemma OnePassSettlesWhenNothingSkipped(q: Request, h: Host)
    requires HostOk(h) && Separate(q)
    requires forall k :: k in q.tp0 ==> !Conflicted(k, h.table)
    ensures Settled(q, Pass(q, h))
  {
    OnePassSettlesIff(q, h);
    forall k | k in q.tp0 ensures !HeldBack(q, h, k) {
      ConflictedIff(k, h.table);
    }
  }

  // ---------------------------------------------------------------- from an accepted payload

  /** Tunnel ranges of all peers without this server's own address, and the LAN routes. */
  function RequestOf(payload: Payload, own: Option<Range>, bridges: set<Range>): Request {
    Request(
      set p, i | 0 <= p < |payload.peers| && 0 <= i < |payload.peers[p]| && payload.peers[p][i].Some? &&
                 payload.peers[p][i] != own :: payload.peers[p][i].value,
      set k | 0 <= k < |payload.lan| && payload.lan[k].range.Some? && payload.lan[k].via.Some? ::
        Wanted(payload.lan[k].range.value, payload.lan[k].via.value),
      bridges, UnmanagedRanges())
  }

  /** A payload both policies accept converges in two reconciles. */
  lemma AcceptedPayloadConverges(payload: Payload, own: Option<Range>, bridges: set<Range>, h: Host)
    requires PeersOk(payload) && LanOk(payload) && HostOk(h)
    ensures var q := RequestOf(payload, own, bridges);
      Separate(q) && Settled(q, Pass(q, Pass(q, h)))
  {
    var q := RequestOf(payload, own, bridges);
    forall v, w | v in q.lan && w in q.lan && v.range == w.range ensures v == w {
      var j: nat :| j < |payload.lan| && payload.lan[j] == LanRoute(Some(v.range), Some(v.via));
      var k: nat :| k < |payload.lan| && payload.lan[k] == LanRoute(Some(w.range), Some(w.via));
      if j != k { LanRoutesDisjoint(payload, j, k); }
    }
    forall w | w in q.lan ensures w.range !in q.tp0 {
      var k: nat :| k < |payload.lan| && payload.lan[k] == LanRoute(Some(w.range), Some(w.via));
      assert LanRouteOk(payload, k);
    }
    TwoPassesSettle(q, h);
  }
}
