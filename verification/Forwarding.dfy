/**
 * The ACCEPT rules of the `TP-FORWARD` chain and the fabric state they are kept in step with,
 * over enables, pauses, boot restores, reinstalls, teardowns and reboots. Every `iptables` call
 * and state write succeeds; a pause may be cut short.
 */
module Forwarding {
  import opened Prelude

  /** An ACCEPT rule; an empty device is no device match. */
  datatype Pair = Pair(source: string, dest: string, inDev: string, outDev: string)

  /** An allowed range as written, with the number after its last slash. */
  datatype Prefix = Prefix(text: string, bits: Option<int>)

  /** An installed LAN route: its IPv4 range in canonical form, if it is one, and its interface. */
  datatype LanRoute = LanRoute(v4: Option<string>, dev: string)

  datatype State = State(
    networks: seq<string>, peers: seq<seq<Prefix>>, installed: seq<LanRoute>, gateway: bool, tunnel: bool, suspended: bool)

  // ---------------------------------------------------------------- which pairs a state asks for

  /** A container range: not a single host, and not an IPv6 range this long. */
  predicate Owned(p: Prefix) {
    p.bits.Some? && 0 <= p.bits.value < 32
  }

  function OwnedPrefixes(peers: seq<seq<Prefix>>): set<string> {
    set p, i | 0 <= p < |peers| && 0 <= i < |peers[p]| && Owned(peers[p][i]) :: peers[p][i].text
  }

  function LanPrefixes(installed: seq<LanRoute>): set<(string, string)> {
    set r | r in installed && r.v4.Some? :: (r.v4.value, r.dev)
  }

  predicate IsPeerPair(x: Pair, locals: seq<string>, remotes: set<string>) {
    && x.inDev == "" && x.outDev == "" && x.source != x.dest
    && ((x.source in locals && x.dest in remotes) || (x.dest in locals && x.source in remotes))
  }

  predicate IsLanPair(x: Pair, locals: seq<string>, remotes: set<(string, string)>) {
    && x.source != x.dest
    && ((x.inDev == "" && x.source in locals && (x.dest, x.outDev) in remotes)
        || (x.outDev == "" && x.dest in locals && (x.source, x.inDev) in remotes))
  }

  predicate Wanted(x: Pair, networks: seq<string>, peers: seq<seq<Prefix>>, installed: seq<LanRoute>) {
    IsPeerPair(x, networks, OwnedPrefixes(peers)) || IsLanPair(x, networks, LanPrefixes(installed))
  }

  /** The pair belongs to the state; a paused fabric asks for no peer pairs. */
  predicate StateWants(x: Pair, s: State, withPeers: bool) {
    Wanted(x, s.networks, if withPeers then s.peers else [], s.installed)
  }

  /** A rule between two different ranges. */
  predicate Remote(x: Pair) {
    x.source != x.dest
  }

  lemma WithoutPeers(x: Pair, networks: seq<string>, installed: seq<LanRoute>)
    ensures Wanted(x, networks, [], installed) <==> IsLanPair(x, networks, LanPrefixes(installed))
  {
    assert OwnedPrefixes([]) == {};
  }

  // ---------------------------------------------------------------- the builders' loops

  method FabricOwnedPeerPrefixes(peers: seq<seq<Prefix>>) returns (prefixes: set<string>)
    ensures prefixes == OwnedPrefixes(peers)
  {
    prefixes := {};
    for p := 0 to |peers|
      invariant prefixes == OwnedPrefixes(peers[..p])
    {
      assert peers[..p + 1] == peers[..p] + [peers[p]];
      for i := 0 to |peers[p]|
        invariant prefixes == OwnedPrefixes(peers[..p]) + OwnedPrefixes([peers[p][..i]])
      {
        OwnedStep(peers[p], i);
        if Owned(peers[p][i]) { prefixes := prefixes + {peers[p][i].text}; }
      }
      assert peers[p][..|peers[p]|] == peers[p];
      OwnedSplit(peers[..p], peers[p]);
    }
    assert peers[..|peers|] == peers;
  }

  lemma OwnedStep(ranges: seq<Prefix>, i: nat)
    requires i < |ranges|
    ensures OwnedPrefixes([ranges[..i + 1]]) == OwnedPrefixes([ranges[..i]]) + (if Owned(ranges[i]) then {ranges[i].text} else {})
  {
    var a, b := [ranges[..i + 1]], [ranges[..i]];
    forall x ensures x in OwnedPrefixes(a) <==> x in OwnedPrefixes(b) || (Owned(ranges[i]) && x == ranges[i].text) {
      if k :| 0 <= k < i + 1 && Owned(a[0][k]) && a[0][k].text == x { assert k < i ==> b[0][k] == a[0][k]; }
      if k :| 0 <= k < i && Owned(b[0][k]) && b[0][k].text == x { assert a[0][k] == b[0][k]; }
      assert a[0][i] == ranges[i];
    }
  }

  lemma OwnedSplit(before: seq<seq<Prefix>>, ranges: seq<Prefix>)
    ensures OwnedPrefixes(before + [ranges]) == OwnedPrefixes(before) + OwnedPrefixes([ranges])
  {
    var all := before + [ranges];
    forall x ensures x in OwnedPrefixes(all) <==> x in OwnedPrefixes(before) || x in OwnedPrefixes([ranges]) {
      if p, i :| 0 <= p < |all| && 0 <= i < |all[p]| && Owned(all[p][i]) && all[p][i].text == x {
        if p < |before| { assert all[p] == before[p]; } else { assert all[p] == [ranges][0]; }
      }
      if p, i :| 0 <= p < |before| && 0 <= i < |before[p]| && Owned(before[p][i]) && before[p][i].text == x { assert all[p] == before[p]; }
      if i :| 0 <= i < |ranges| && Owned([ranges][0][i]) && [ranges][0][i].text == x { assert all[|before|] == ranges; }
    }
  }

  method FabricCrossSubnetForwardPairs(locals: seq<string>, remotes: set<string>) returns (pairs: set<Pair>)
    ensures forall x :: x in pairs <==> IsPeerPair(x, locals, remotes)
  {
    pairs := {};
    for i := 0 to |locals|
      invariant forall x :: x in pairs <==> IsPeerPair(x, locals[..i], remotes)
    {
      var local, rest := locals[i], remotes;
      while rest != {}
        invariant rest <= remotes
        invariant forall x :: x in pairs <==> IsPeerPair(x, locals[..i], remotes) || IsPeerPair(x, [local], remotes - rest)
        decreases rest
      {
        var remote :| remote in rest;
        if local != remote {
          pairs := pairs + {Pair(local, remote, "", ""), Pair(remote, local, "", "")};
        }
        rest := rest - {remote};
      }
      assert remotes - {} == remotes;
      assert locals[..i + 1] == locals[..i] + [local];
    }
    assert locals[..|locals|] == locals;
  }

  method FabricLanForwardPairs(locals: seq<string>, remotes: set<(string, string)>) returns (pairs: set<Pair>)
    ensures forall x :: x in pairs <==> IsLanPair(x, locals, remotes)
  {
    pairs := {};
    for i := 0 to |locals|
      invariant forall x :: x in pairs <==> IsLanPair(x, locals[..i], remotes)
    {
      var local, rest := locals[i], remotes;
      while rest != {}
        invariant rest <= remotes
        invariant forall x :: x in pairs <==> IsLanPair(x, locals[..i], remotes) || IsLanPair(x, [local], remotes - rest)
        decreases rest
      {
        var remote :| remote in rest;
        if local != remote.0 {
          pairs := pairs + {Pair(local, remote.0, "", remote.1), Pair(remote.0, local, remote.1, "")};
        }
        rest := rest - {remote};
      }
      assert remotes - {} == remotes;
      assert locals[..i + 1] == locals[..i] + [local];
    }
    assert locals[..|locals|] == locals;
  }

  method RemoteForwardPairs(networks: seq<string>, peers: seq<seq<Prefix>>, installed: seq<LanRoute>) returns (pairs: set<Pair>)
    ensures forall x :: x in pairs <==> Wanted(x, networks, peers, installed)
  {
    var owned := FabricOwnedPeerPrefixes(peers);
    var peerPairs := FabricCrossSubnetForwardPairs(networks, owned);
    var lanPairs := FabricLanForwardPairs(networks, LanPrefixes(installed));
    pairs := peerPairs + lanPairs;
  }

  // ---------------------------------------------------------------- the host

  datatype Transit = NoRule | AcceptTransit | DropTransit

  datatype Payload = Payload(networks: seq<string>, peers: seq<seq<Prefix>>, gateway: bool, tunnel: bool)

  /** What the payload parser makes sure of: a payload without a tunnel carries no peers. */
  predicate PayloadOk(p: Payload) {
    !p.tunnel ==> p.peers == []
  }

  /** A paused fabric stays paused under a payload without a tunnel. */
  function NextState(previous: Option<State>, p: Payload, installed: seq<LanRoute>): State {
    State(p.networks, p.peers, installed, p.gateway, p.tunnel, previous.Some? && previous.value.suspended && !p.tunnel)
  }

  class Host {
    /** The ACCEPT pairs of `TP-FORWARD`. */
    var rules: set<Pair>
    /** Its rule for `tp0` to `tp0`. */
    var transit: Transit
    /** The persisted state. */
    var state: Option<State>

    /** A host before its first enable. */
    constructor ()
      ensures rules == {} && state == None && Follows()
    {
      rules, transit, state := {}, NoRule, None;
    }

    /** The rules between different ranges are those of the state. */
    ghost predicate Follows()
      reads this
    {
      if state.None? then forall x :: x in rules ==> !Remote(x)
      else forall x :: x in rules && Remote(x) <==> StateWants(x, state.value, !state.value.suspended)
    }

    ghost predicate TransitFollows()
      reads this
    {
      state.Some? ==> transit == if state.value.gateway && !state.value.suspended then AcceptTransit else DropTransit
    }

    /** In step, or emptied by a reboot. */
    ghost predicate Sound()
      reads this
    {
      Follows() || rules == {}
    }

    /** Remove the ACCEPT pairs that are not in `keep`, rule by rule; a rule that is missing is fine. */
    method RemoveForwardPairsExcept(pairs: set<Pair>, keep: set<Pair>)
      modifies this`rules
      ensures forall x :: x in rules <==> x in old(rules) && (x in pairs ==> x in keep)
    {
      var rest := pairs;
      while rest != {}
        invariant rest <= pairs
        invariant forall x :: x in rules <==> x in old(rules) && (x in pairs - rest ==> x in keep)
        decreases rest
      {
        var pair :| pair in rest;
        if pair !in keep { rules := rules - {pair}; }
        rest := rest - {pair};
      }
    }

    /** Each network may reach itself, and each wanted pair is there afterwards. */
    method ReconcileForwarding(networks: seq<string>, peers: seq<seq<Prefix>>, gateway: bool, installed: seq<LanRoute>)
      modifies this`rules, this`transit
      ensures forall x :: x in rules && Remote(x) <==> (x in old(rules) && Remote(x)) || Wanted(x, networks, peers, installed)
      ensures forall n :: n in networks ==> Pair(n, n, "", "") in rules
      ensures transit == if gateway then AcceptTransit else DropTransit
    {
      for i := 0 to |networks|
        invariant forall x :: x in rules && Remote(x) <==> x in old(rules) && Remote(x)
        invariant forall n :: n in networks[..i] ==> Pair(n, n, "", "") in rules
      {
        assert networks[..i + 1] == networks[..i] + [networks[i]];
        rules := rules + {Pair(networks[i], networks[i], "", "")};
      }
      assert networks[..|networks|] == networks;
      var pairs := RemoteForwardPairs(networks, peers, installed);
      rules := rules + pairs;
      transit := if gateway then AcceptTransit else DropTransit;
    }

    method StateForwardPairs(s: State, withPeers: bool) returns (pairs: set<Pair>)
      ensures forall x :: x in pairs <==> StateWants(x, s, withPeers)
    {
      pairs := RemoteForwardPairs(s.networks, if withPeers then s.peers else [], s.installed);
    }

    method ReconcileFromState(s: State)
      modifies this`rules, this`transit
      ensures forall x :: x in rules && Remote(x) <==> (x in old(rules) && Remote(x)) || StateWants(x, s, !s.suspended)
      ensures transit == if s.gateway && !s.suspended then AcceptTransit else DropTransit
    {
      ReconcileForwarding(s.networks, if s.suspended then [] else s.peers, !s.suspended && s.gateway, s.installed);
    }

    /**
     * Apply a payload, with the LAN routes it left installed. `skip`: the stamp and the live host
     * match it already. Afterwards the rules are exactly the payload's.
     */
    method Enable(p: Payload, installed: seq<LanRoute>, skip: bool)
      requires Sound()
      modifies this
      ensures skip ==> rules == old(rules) && transit == old(transit) && state == old(state)
      ensures !skip ==> state == Some(State(p.networks, p.peers, installed, p.gateway, p.tunnel,
                                            old(state).Some? && old(state).value.suspended && !p.tunnel))
      ensures !skip ==> forall x :: x in rules && Remote(x) <==> Wanted(x, p.networks, p.peers, installed)
      ensures !skip ==> transit == if p.gateway then AcceptTransit else DropTransit
      ensures PayloadOk(p) ==> Sound() && (!skip || old(Follows()) ==> Follows())
    {
      if skip { return; }
      if state.Some? {
        var before := StateForwardPairs(state.value, !state.value.suspended);
        var now := RemoteForwardPairs(p.networks, p.peers, installed);
        RemoveForwardPairsExcept(before, now);
      }
      ReconcileForwarding(p.networks, p.peers, p.gateway, installed);
      state := Some(NextState(state, p, installed));
    }

    /** Every rule between different ranges is one a running fabric with this state has. */
    ghost predicate WithinRunning()
      reads this
    {
      state.Some? ==> forall x :: x in rules && Remote(x) ==> StateWants(x, state.value, true)
    }

    /**
     * Take the tunnel down and keep the keys. First comes the mark; `cut` stops right after
     * it. Otherwise the peer pairs are gone and the LAN pairs stay.
     */
    method Pause(cut: bool)
      requires WithinRunning()
      modifies this
      ensures state == if old(state).Some? then Some(old(state).value.(suspended := true)) else None
      ensures cut || state.None? ==> rules == old(rules) && transit == old(transit)
      ensures !cut && state.Some? ==> Follows() && transit == DropTransit
    {
      if state.None? { return; }
      var s := state.value;
      state := Some(s.(suspended := true));
      if cut { return; }
      var running := StateForwardPairs(s, true);
      var paused := StateForwardPairs(s, false);
      RemoveForwardPairsExcept(running, paused);
      ReconcileFromState(s.(suspended := true));
      forall x ensures StateWants(x, s, false) ==> StateWants(x, s, true) {
        WithoutPeers(x, s.networks, s.installed);
      }
    }

    /** Boot: bring back what the state says, with the LAN routes that came back. */
    method Restore(installed: seq<LanRoute>)
      modifies this
      ensures state == if old(state).Some? then Some(old(state).value.(installed := installed)) else None
      ensures state.None? ==> rules == old(rules) && transit == old(transit)
      ensures state.Some? ==> TransitFollows()
      ensures state.Some? ==> forall x :: x in rules && Remote(x) <==>
        || StateWants(x, state.value, !state.value.suspended)
        || (x in old(rules) && Remote(x) && !(StateWants(x, old(state).value, false) && !StateWants(x, state.value, false)))
      ensures old(Sound()) ==> Sound() && (state.Some? ==> Follows())
    {
      if state.None? { return; }
      var before := state.value;
      var current := before.(installed := installed);
      if before.installed != installed {
        state := Some(current);
        var lanBefore := StateForwardPairs(before, false);
        var lanNow := StateForwardPairs(current, false);
        RemoveForwardPairsExcept(lanBefore, lanNow);
        forall x ensures Wanted(x, before.networks, [], before.installed) <==> IsLanPair(x, before.networks, LanPrefixes(before.installed)) {
          WithoutPeers(x, before.networks, before.installed);
        }
      }
      ReconcileFromState(current);
    }

    /** The rules come back after Docker rebuilt its chains. */
    method Reinstall()
      requires Sound()
      modifies this
      ensures state == old(state)
      ensures state.None? ==> rules == old(rules) && transit == old(transit)
      ensures Sound() && (state.Some? ==> Follows() && TransitFollows())
    {
      if state.Some? { ReconcileFromState(state.value); }
    }

    method Teardown()
      modifies this
      ensures state == None && rules == {} && transit == NoRule && Follows()
    {
      rules, transit, state := {}, NoRule, None;
    }

    method Reboot()
      modifies this
      ensures state == old(state) && rules == {} && Sound()
    {
      rules, transit := {}, NoRule;
    }
  }

  // ---------------------------------------------------------------- whole runs

  datatype Event =
    | EnableFabric(payload: Payload, routes: seq<LanRoute>, skip: bool)
    | PauseFabric
    | RestoreFabric(routes: seq<LanRoute>)
    | ReinstallRules
    | TeardownFabric
    | RebootHost

  predicate EventOk(e: Event) {
    e.EnableFabric? ==> PayloadOk(e.payload)
  }

  /** The event leaves the rules in step whatever they were, given a state. */
  predicate Rebuilds(e: Event) {
    !e.RebootHost? && (e.EnableFabric? ==> !e.skip)
  }

  lemma SoundIsWithinRunning(h: Host)
    requires h.Sound()
    ensures h.WithinRunning()
  {
    if h.state.Some? {
      var s := h.state.value;
      forall x | StateWants(x, s, false) ensures StateWants(x, s, true) { WithoutPeers(x, s.networks, s.installed); }
    }
  }

  /** What the host shows right after an event. */
  ghost predicate Shows(h: Host, e: Event)
    reads h
  {
    match e
    case EnableFabric(p, routes, skip) =>
      skip || (h.state.Some? && h.state.value.networks == p.networks && h.state.value.peers == p.peers && h.state.value.installed == routes &&
               (p.tunnel ==> !h.state.value.suspended))
    case PauseFabric => h.state.Some? ==> h.state.value.suspended && h.transit == DropTransit
    case RestoreFabric(routes) => h.state.Some? ==> h.state.value.installed == routes && h.TransitFollows()
    case ReinstallRules => h.state.Some? ==> h.TransitFollows()
    case TeardownFabric => h.state == None && h.rules == {} && h.transit == NoRule
    case RebootHost => h.rules == {}
  }

  method Happen(h: Host, e: Event)
    requires h.Sound() && EventOk(e)
    modifies h
    ensures h.Sound()
    ensures Rebuilds(e) && h.state.Some? ==> h.Follows()
    ensures old(h.Follows()) && !e.RebootHost? ==> h.Follows()
    ensures Shows(h, e)
  {
    match e {
      case EnableFabric(payload, routes, skip) => h.Enable(payload, routes, skip);
      case PauseFabric =>
        SoundIsWithinRunning(h);
        h.Pause(false);
      case RestoreFabric(routes) => h.Restore(routes);
      case ReinstallRules => h.Reinstall();
      case TeardownFabric => h.Teardown();
      case RebootHost => h.Reboot();
    }
  }

  /** No reboot after the last event that rebuilds the rules. */
  predicate RebuiltSinceReboot(events: seq<Event>) {
    exists i :: 0 <= i < |events| && Rebuilds(events[i]) && forall j :: i < j < |events| ==> !events[j].RebootHost?
  }

  /**
   * In every run the rules follow the persisted state, from a reboot until the next event that
   * rebuilds them excepted.
   */
  method Life(h: Host, events: seq<Event>)
    requires h.Follows() && forall i :: 0 <= i < |events| ==> EventOk(events[i])
    modifies h
    ensures h.Sound()
    ensures (forall i :: 0 <= i < |events| ==> !events[i].RebootHost?) ==> h.Follows()
    ensures RebuiltSinceReboot(events) && h.state.Some? ==> h.Follows()
    ensures events != [] ==> Shows(h, events[|events| - 1])
  {
    ghost var rebooted, inStep := false, false;
    for n := 0 to |events|
      invariant h.Sound()
      invariant rebooted <==> exists i :: 0 <= i < n && events[i].RebootHost?
      invariant !rebooted ==> h.Follows()
      invariant inStep <==> RebuiltSinceReboot(events[..n])
      invariant inStep && h.state.Some? ==> h.Follows()
      invariant n > 0 ==> Shows(h, events[n - 1])
    {
      RebuiltStep(events, n);
      Happen(h, events[n]);
      rebooted := rebooted || events[n].RebootHost?;
      inStep := Rebuilds(events[n]) || (inStep && !events[n].RebootHost?);
    }
    assert events[..|events|] == events;
  }

  lemma RebuiltStep(events: seq<Event>, n: nat)
    requires n < |events|
    ensures RebuiltSinceReboot(events[..n + 1]) <==>
      Rebuilds(events[n]) || (RebuiltSinceReboot(events[..n]) && !events[n].RebootHost?)
  {
    var a, b := events[..n + 1], events[..n];
    if i :| 0 <= i < |b| && Rebuilds(b[i]) && forall j :: i < j < |b| ==> !b[j].RebootHost? {
      if !events[n].RebootHost? { assert Rebuilds(a[i]); }
    }
    if i :| 0 <= i < |a| && Rebuilds(a[i]) && forall j :: i < j < |a| ==> !a[j].RebootHost? {
      if i < n {
        assert a[n] == events[n];
        assert Rebuilds(b[i]) && forall j :: i < j < |b| ==> b[j] == a[j];
      }
    }
    if Rebuilds(events[n]) { assert Rebuilds(a[n]); }
  }

  /** The text is a peer's range of 0 to 31 bits. */
  predicate PeerRange(s: State, text: string) {
    exists p, i :: 0 <= p < |s.peers| && 0 <= i < |s.peers[p]| && s.peers[p][i].text == text && PartOfRange(s.peers[p][i].bits)
  }

  predicate PartOfRange(bits: Option<int>) {
    bits.Some? && 0 <= bits.value <= 31
  }

  /** A LAN route to this range is installed over this interface. */
  predicate LanRange(s: State, text: string, dev: string) {
    exists i :: 0 <= i < |s.installed| && s.installed[i] == LanRoute(Some(text), dev)
  }

  /**
   * Which traffic between two different ranges is let through: while the fabric is not paused
   * between a network of this host and a peer's range, on any interface; always between such a
   * network and a LAN route's range, over that route's interface.
   */
  lemma AcceptedExactly(h: Host, x: Pair)
    requires h.Follows() && h.state.Some? && x.source != x.dest
    ensures var s := h.state.value;
      x in h.rules <==>
      || (!s.suspended && x.inDev == "" && x.outDev == "" && x.source in s.networks && PeerRange(s, x.dest))
      || (!s.suspended && x.inDev == "" && x.outDev == "" && x.dest in s.networks && PeerRange(s, x.source))
      || (x.inDev == "" && x.source in s.networks && LanRange(s, x.dest, x.outDev))
      || (x.outDev == "" && x.dest in s.networks && LanRange(s, x.source, x.inDev))
  {
    var s := h.state.value;
    assert Remote(x);
    PeerRangeIsOwned(s, x.source);
    PeerRangeIsOwned(s, x.dest);
    LanRangeIsPrefix(s, x.source, x.inDev);
    LanRangeIsPrefix(s, x.dest, x.outDev);
    WithoutPeers(x, s.networks, s.installed);
  }

  lemma PeerRangeIsOwned(s: State, text: string)
    ensures PeerRange(s, text) <==> text in OwnedPrefixes(s.peers)
  {
    if p, i :| 0 <= p < |s.peers| && 0 <= i < |s.peers[p]| && s.peers[p][i].text == text && PartOfRange(s.peers[p][i].bits) {
      assert Owned(s.peers[p][i]);
    }
    if p, i :| 0 <= p < |s.peers| && 0 <= i < |s.peers[p]| && Owned(s.peers[p][i]) && s.peers[p][i].text == text {
      assert PartOfRange(s.peers[p][i].bits);
    }
  }

  lemma LanRangeIsPrefix(s: State, text: string, dev: string)
    ensures LanRange(s, text, dev) <==> (text, dev) in LanPrefixes(s.installed)
  {
    if LanRange(s, text, dev) {
      assert LanRoute(Some(text), dev) in s.installed;
    }
    if (text, dev) in LanPrefixes(s.installed) {
      var r :| r in s.installed && r.v4 == Some(text) && r.dev == dev;
      assert r == LanRoute(Some(text), dev);
    }
  }

  /** Every peer pair is also a LAN pair, of the old or of the new routes. */
  ghost predicate PeersAreLan(s: State, routes: seq<LanRoute>) {
    forall x :: IsPeerPair(x, s.networks, OwnedPrefixes(s.peers)) ==>
      IsLanPair(x, s.networks, LanPrefixes(s.installed)) || IsLanPair(x, s.networks, LanPrefixes(routes))
  }

  /**
   * A pause cut short after its mark, then a daemon start: the rules follow the paused state
   * if and only if every peer pair is also a LAN pair, of the old or of the new routes.
   */
  method PauseCutShort(h: Host, routes: seq<LanRoute>)
    requires h.Follows() && h.state.Some? && !h.state.value.suspended
    modifies h
    ensures h.state == Some(old(h.state.value).(suspended := true, installed := routes)) && h.WithinRunning()
    ensures h.Follows() <==> PeersAreLan(old(h.state.value), routes)
  {
    ghost var s := h.state.value;
    h.Pause(true);
    h.Restore(routes);
    forall x
      ensures StateWants(x, s, false) <==> IsLanPair(x, s.networks, LanPrefixes(s.installed))
      ensures StateWants(x, h.state.value, false) <==> IsLanPair(x, s.networks, LanPrefixes(routes))
    {
      WithoutPeers(x, s.networks, s.installed);
      WithoutPeers(x, s.networks, routes);
    }
    CutShort(h, s, routes);
  }

  /** The rules after the cut and the start, compared with what the paused state asks for. */
  lemma CutShort(h: Host, s: State, routes: seq<LanRoute>)
    requires h.state == Some(s.(suspended := true, installed := routes))
    requires forall x :: x in h.rules && Remote(x) <==>
      || IsLanPair(x, s.networks, LanPrefixes(routes))
      || (IsPeerPair(x, s.networks, OwnedPrefixes(s.peers)) && !IsLanPair(x, s.networks, LanPrefixes(s.installed)))
    ensures h.Follows() <==> PeersAreLan(s, routes)
  {
    forall x ensures StateWants(x, h.state.value, false) <==> IsLanPair(x, s.networks, LanPrefixes(routes)) {
      WithoutPeers(x, s.networks, routes);
    }
    if h.Follows() {
      forall x | IsPeerPair(x, s.networks, OwnedPrefixes(s.peers))
        ensures IsLanPair(x, s.networks, LanPrefixes(s.installed)) || IsLanPair(x, s.networks, LanPrefixes(routes))
      {
        assert x in h.rules && Remote(x) ==> StateWants(x, h.state.value, false);
      }
    }
  }

  /** A second pause puts that right, whatever the routes. */
  method PauseAgain(h: Host, routes: seq<LanRoute>)
    requires h.Follows() && h.state.Some? && !h.state.value.suspended
    modifies h
    ensures h.Follows() && h.state == Some(old(h.state.value).(suspended := true, installed := routes))
  {
    PauseCutShort(h, routes);
    h.Pause(false);
  }

  /** One peer range and no LAN route: after the cut and the start its pair stands in a paused fabric. */
  method PairOutlivesPause(network: string, range: string) returns (h: Host)
    requires network != range
    ensures h.state.Some? && h.state.value.suspended && Pair(network, range, "", "") in h.rules
    ensures !h.Follows()
  {
    h := new Host();
    var payload := Payload([network], [[Prefix(range, Some(24))]], false, true);
    h.Enable(payload, [], false);
    assert PayloadOk(payload);
    ghost var s, x := h.state.value, Pair(network, range, "", "");
    assert Owned(s.peers[0][0]) && range in OwnedPrefixes(s.peers);
    assert IsPeerPair(x, s.networks, OwnedPrefixes(s.peers)) && LanPrefixes([]) == {};
    assert Wanted(x, s.networks, s.peers, []);
    h.Pause(true);
    h.Restore([]);
  }
}
