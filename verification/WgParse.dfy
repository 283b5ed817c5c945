/** The parsers and the filter over a WireGuard configuration, and what they make of a rendered one. */
module WgParse {
  import opened Prelude
  import opened WgLines
  import opened WgConf

  function ReadAll(lines: List<string>, read: string -> Line): List<Line> {
    match lines
    case Nil => Nil
    case Cons(line, rest) => Cons(read(line), ReadAll(rest, read))
  }

  // ---------------------------------------------------------------- the preshared keys

  /** The parser's variables. */
  datatype KeyState = KeyState(result: Secrets, publicKey: Option<string>, psk: Option<string>)

  /** A section ends: a pair of non-empty values is kept. */
  function KeyFlush(st: KeyState): KeyState {
    KeyState(if Given(st.publicKey) && Given(st.psk) then st.result[st.publicKey.value := st.psk.value] else st.result, None, None)
  }

  function KeyStep(st: KeyState, line: Line): KeyState {
    match line
    case Header(_) => KeyFlush(st)
    case NoEntry => st
    case Entry(key, value) =>
      if key == PublicKey then st.(publicKey := Some(value))
      else if key == PresharedKey then st.(psk := Some(value))
      else st
  }

  function KeyLines(lines: List<Line>, st: KeyState): KeyState {
    match lines
    case Nil => st
    case Cons(line, rest) => KeyLines(rest, KeyStep(st, line))
  }

  const NO_KEYS := KeyState(map[], None, None)

  /** The public key to preshared key map of a configuration. */
  function PresharedKeys(conf: string): Secrets {
    KeyFlush(KeyLines(ReadAll(SplitLines(conf), ReadLine), NO_KEYS)).result
  }

  // ---------------------------------------------------------------- the peers

  datatype Restore = Restore(endpoint: Option<string>, keepalive: Option<int>)

  datatype PeerState = PeerState(result: map<string, Restore>, publicKey: Option<string>, endpoint: Option<string>, keepalive: Option<int>)

  function PeerFlush(st: PeerState): PeerState {
    PeerState(
      if Given(st.publicKey)
      then st.result[st.publicKey.value := Restore(if Given(st.endpoint) then st.endpoint else None, st.keepalive)]
      else st.result,
      None, None, None)
  }

  function PeerStep(st: PeerState, line: Line): PeerState {
    match line
    case Header(_) => PeerFlush(st)
    case NoEntry => st
    case Entry(key, value) =>
      if key == PublicKey then st.(publicKey := Some(value))
      else if key == Endpoint then st.(endpoint := Some(value))
      else if key == Keepalive && ParseInt(value).Some? then st.(keepalive := ParseInt(value))
      else st
  }

  function PeerLines(lines: List<Line>, st: PeerState): PeerState {
    match lines
    case Nil => st
    case Cons(line, rest) => PeerLines(rest, PeerStep(st, line))
  }

  const NO_PEERS := PeerState(map[], None, None, None)

  /** Each peer's endpoint and keepalive in a configuration. */
  function DurablePeers(conf: string): map<string, Restore> {
    PeerFlush(PeerLines(ReadAll(SplitLines(conf), ReadLine), NO_PEERS)).result
  }

  // ---------------------------------------------------------------- the filter

  /** A `wg-quick` setting of an interface section. */
  predicate Dropped(line: Line, inInterface: bool) {
    inInterface && line.Entry? && line.key == QuickOnly
  }

  function Inside(line: Line, inInterface: bool): bool {
    if line.Header? then line.isInterface else inInterface
  }

  /** The lines without the `wg-quick` settings of interface sections. */
  function StripLines(lines: List<string>, read: string -> Line, inInterface: bool): List<string> {
    match lines
    case Nil => Nil
    case Cons(line, rest) =>
      var kept := StripLines(rest, read, Inside(read(line), inInterface));
      if Dropped(read(line), inInterface) then kept else Cons(line, kept)
  }

  function Strip(conf: string): string {
    Join(StripLines(SplitLines(conf), ReadLine, false))
  }

  // ---------------------------------------------------------------- the source's loops

  method ParsePeerPresharedKeys(conf: string) returns (result: Secrets)
    ensures result == PresharedKeys(conf)
  {
    result := map[];
    var publicKey: Option<string>, psk: Option<string> := None, None;
    var rest := ReadAll(SplitLines(conf), ReadLine);
    ghost var all := KeyLines(rest, NO_KEYS);
    while rest.Cons?
      invariant KeyLines(rest, KeyState(result, publicKey, psk)) == all
      decreases rest
    {
      var line := rest.head;
      if line.Header? {
        if Given(publicKey) && Given(psk) { result := result[publicKey.value := psk.value]; }
        publicKey, psk := None, None;
      } else if line.Entry? {
        if line.key == PublicKey { publicKey := Some(line.value); }
        if line.key == PresharedKey { psk := Some(line.value); }
      }
      rest := rest.tail;
    }
    if Given(publicKey) && Given(psk) { result := result[publicKey.value := psk.value]; }
  }

  method ParseDurablePeers(conf: string) returns (result: map<string, Restore>)
    ensures result == DurablePeers(conf)
  {
    result := map[];
    var publicKey: Option<string>, endpoint: Option<string>, keepalive: Option<int> := None, None, None;
    var rest := ReadAll(SplitLines(conf), ReadLine);
    ghost var all := PeerLines(rest, NO_PEERS);
    while rest.Cons?
      invariant PeerLines(rest, PeerState(result, publicKey, endpoint, keepalive)) == all
      decreases rest
    {
      var line := rest.head;
      if line.Header? {
        if Given(publicKey) {
          result := result[publicKey.value := Restore(if Given(endpoint) then endpoint else None, keepalive)];
        }
        publicKey, endpoint, keepalive := None, None, None;
      } else if line.Entry? {
        if line.key == PublicKey { publicKey := Some(line.value); }
        if line.key == Endpoint { endpoint := Some(line.value); }
        if line.key == Keepalive {
          var parsed := ParseInt(line.value);
          if parsed.Some? { keepalive := parsed; }
        }
      }
      rest := rest.tail;
    }
    if Given(publicKey) {
      result := result[publicKey.value := Restore(if Given(endpoint) then endpoint else None, keepalive)];
    }
  }

  method StripWgQuickConf(conf: string) returns (r: string)
    ensures r == Strip(conf)
  {
    var lines := KeptLines(SplitLines(conf), ReadLine);
    r := Join(Onto(lines, Nil));
  }

  method KeptLines(all: List<string>, read: string -> Line) returns (lines: seq<string>)
    ensures Onto(lines, Nil) == StripLines(all, read, false)
  {
    lines := [];
    var inInterface := false;
    var rest := all;
    while rest.Cons?
      invariant Onto(lines, StripLines(rest, read, inInterface)) == StripLines(all, read, false)
      decreases rest
    {
      var line := read(rest.head);
      var drop := Dropped(line, inInterface);
      if line.Header? { inInterface := line.isInterface; }
      if !drop {
        OntoPush(lines, rest.head, StripLines(rest.tail, read, inInterface));
        lines := lines + [rest.head];
      }
      rest := rest.tail;
    }
  }

  // ---------------------------------------------------------------- filtering does not change a parse

  lemma {:induction false} StripKeepsKeyLines(lines: List<string>, read: string -> Line, inInterface: bool, st: KeyState)
    ensures KeyLines(ReadAll(StripLines(lines, read, inInterface), read), st) == KeyLines(ReadAll(lines, read), st)
  {
    if lines.Cons? {
      var line := read(lines.head);
      StripKeepsKeyLines(lines.tail, read, Inside(line, inInterface), KeyStep(st, line));
    }
  }

  lemma {:induction false} StripKeepsPeerLines(lines: List<string>, read: string -> Line, inInterface: bool, st: PeerState)
    ensures PeerLines(ReadAll(StripLines(lines, read, inInterface), read), st) == PeerLines(ReadAll(lines, read), st)
  {
    if lines.Cons? {
      var line := read(lines.head);
      StripKeepsPeerLines(lines.tail, read, Inside(line, inInterface), PeerStep(st, line));
    }
  }

  lemma {:induction false} StripIsOneLine(lines: List<string>, read: string -> Line, inInterface: bool)
    requires AllOneLine(lines)
    ensures AllOneLine(StripLines(lines, read, inInterface))
    ensures lines.Cons? && !inInterface ==> StripLines(lines, read, inInterface).Cons?
  {
    if lines.Cons? { StripIsOneLine(lines.tail, read, Inside(read(lines.head), inInterface)); }
  }

  /** The filtered text has exactly the kept lines. */
  lemma StripSplits(conf: string)
    ensures SplitLines(Strip(conf)) == StripLines(SplitLines(conf), ReadLine, false)
  {
    SplitIsOneLine(conf);
    StripIsOneLine(SplitLines(conf), ReadLine, false);
    SplitJoin(StripLines(SplitLines(conf), ReadLine, false));
  }

  /** On every text, filtering changes neither parse. */
  lemma StripKeepsParses(conf: string)
    ensures PresharedKeys(Strip(conf)) == PresharedKeys(conf)
    ensures DurablePeers(Strip(conf)) == DurablePeers(conf)
  {
    StripSplits(conf);
    StripKeepsKeyLines(SplitLines(conf), ReadLine, false, NO_KEYS);
    StripKeepsPeerLines(SplitLines(conf), ReadLine, false, NO_PEERS);
  }

  // ---------------------------------------------------------------- on a rendered configuration

  /** Values are single lines; keys, endpoints and secrets have no blank at either end. */
  predicate ConfOk(c: Conf, secrets: Secrets) {
    && OneLine(c.privateKey) && OneLine(c.address)
    && (forall k :: k in secrets ==> Plain(secrets[k]))
    && forall i :: 0 <= i < |c.peers| ==> PeerOk(c.peers[i])
  }

  predicate Plain(s: string) {
    OneLine(s) && Trimmed(s)
  }

  predicate PeerOk(p: Peer) {
    Plain(p.publicKey) && OneLine(Commas(p.allowedIPs)) && (p.endpoint.Some? ==> Plain(p.endpoint.value))
  }

  lemma PeerItemsOk(p: Peer, secrets: Secrets, rest: List<Item>)
    requires PeerOk(p) && ItemsOk(rest) && forall k :: k in secrets ==> Plain(secrets[k])
    ensures ItemsOk(PeerItems(p, secrets, rest))
  {
    var secret := SecretOf(secrets, p.publicKey);
    if p.keepalive.Some? { DecimalReads(p.keepalive.value); }
    var r1 := AddIf(p.keepalive.Some?, Setting(KeepaliveName, NumberText(p.keepalive)), Cons(Blank, rest));
    assert ItemsOk(Cons(Blank, rest));
    assert ItemsOk(r1);
    var r2 := AddIf(Given(secret), Setting(PresharedKeyName, TextOf(secret)), r1);
    assert ItemsOk(r2);
    var r3 := AddIf(Given(p.endpoint), Setting(EndpointName, TextOf(p.endpoint)), r2);
    assert ItemsOk(r3);
    var r4 := Cons(Setting(AllowedIPsName, Commas(p.allowedIPs)), r3);
    assert ItemsOk(r4);
    assert ItemsOk(Cons(Setting(PublicKeyName, p.publicKey), r4));
  }

  lemma {:induction false} PeersItemsOk(peers: seq<Peer>, secrets: Secrets)
    requires (forall i :: 0 <= i < |peers| ==> PeerOk(peers[i])) && forall k :: k in secrets ==> Plain(secrets[k])
    ensures ItemsOk(PeersItems(peers, secrets))
  {
    if peers != [] {
      PeersItemsOk(peers[1..], secrets);
      PeerItemsOk(peers[0], secrets, PeersItems(peers[1..], secrets));
    }
  }

  lemma ConfItemsOk(c: Conf, secrets: Secrets)
    requires ConfOk(c, secrets)
    ensures ItemsOk(Items(c, secrets)) && ItemsOk(AfterAddress(c, secrets))
  {
    PeersItemsOk(c.peers, secrets);
    if c.listenPort.Some? { DecimalReads(c.listenPort.value); }
    assert ItemsOk(Cons(Blank, PeersItems(c.peers, secrets)));
    var r := Cons(Setting(AddressName, c.address), AfterAddress(c, secrets));
    assert ItemsOk(r);
    assert ItemsOk(Cons(Setting(PrivateKeyName, c.privateKey), r));
  }

  /** What the line written for an item says; values no parser looks at are left out. */
  function ItemLine(item: Item): Line {
    match item
    case Section(isInterface) => Header(isInterface)
    case Blank => NoEntry
    case Setting(name, value) => Entry(NameKey(name), if Tracked(name) then value else "")
  }

  /** The same, up to values no parser looks at. */
  predicate Alike(a: Line, b: Line) {
    a == b || (a.Entry? && b.Entry? && a.key == b.key && a.key in {OtherKey, QuickOnly})
  }

  /** The lines, read, are alike to what they were written for. */
  predicate AllAlike(lines: List<Line>, items: List<Item>) {
    if lines.Cons? && items.Cons? then Alike(lines.head, ItemLine(items.head)) && AllAlike(lines.tail, items.tail)
    else lines.Nil? && items.Nil?
  }

  lemma ReadAlike(item: Item)
    requires ItemOk(item)
    ensures Alike(ReadLine(ItemText(item)), ItemLine(item))
  {
    ItemReads(item);
  }

  lemma {:induction false} ReadAllAlike(items: List<Item>)
    requires ItemsOk(items)
    ensures AllAlike(ReadAll(Texts(items), ReadLine), items)
  {
    if items.Cons? {
      ReadAlike(items.head);
      ReadAllAlike(items.tail);
    }
  }

  function KeyItem(st: KeyState, item: Item): KeyState {
    KeyStep(st, ItemLine(item))
  }

  function KeyItems(items: List<Item>, st: KeyState): KeyState {
    match items
    case Nil => st
    case Cons(item, rest) => KeyItems(rest, KeyItem(st, item))
  }

  lemma {:induction false} KeyLinesAreItems(lines: List<Line>, items: List<Item>, st: KeyState)
    requires AllAlike(lines, items)
    ensures KeyLines(lines, st) == KeyItems(items, st)
  {
    if items.Cons? { KeyLinesAreItems(lines.tail, items.tail, KeyItem(st, items.head)); }
  }

  lemma KeyAddIf(add: bool, item: Item, rest: List<Item>, st: KeyState)
    ensures KeyItems(AddIf(add, item, rest), st) == KeyItems(rest, if add then KeyItem(st, item) else st)
  {
  }

  /** One peer's section: what was open is closed, and the peer's key and secret are open. */
  lemma KeyPeerItems(p: Peer, secrets: Secrets, rest: List<Item>, st: KeyState)
    ensures var secret := SecretOf(secrets, p.publicKey);
      KeyItems(PeerItems(p, secrets, rest), st) ==
      KeyItems(rest, KeyState(KeyFlush(st).result, Some(p.publicKey), if Given(secret) then secret else None))
  {
    var secret := SecretOf(secrets, p.publicKey);
    var r1 := AddIf(p.keepalive.Some?, Setting(KeepaliveName, NumberText(p.keepalive)), Cons(Blank, rest));
    var r2 := AddIf(Given(secret), Setting(PresharedKeyName, TextOf(secret)), r1);
    var r3 := AddIf(Given(p.endpoint), Setting(EndpointName, TextOf(p.endpoint)), r2);
    var st1 := KeyState(KeyFlush(st).result, Some(p.publicKey), None);
    var st2 := if Given(secret) then st1.(psk := secret) else st1;
    var r4 := Cons(Setting(AllowedIPsName, Commas(p.allowedIPs)), r3);
    assert KeyItems(PeerItems(p, secrets, rest), st) == KeyItems(Cons(Setting(PublicKeyName, p.publicKey), r4), KeyFlush(st));
    assert KeyItems(Cons(Setting(PublicKeyName, p.publicKey), r4), KeyFlush(st)) == KeyItems(r4, st1);
    assert KeyItems(r4, st1) == KeyItems(r3, st1);
    KeyAddIf(Given(p.endpoint), Setting(EndpointName, TextOf(p.endpoint)), r2, st1);
    KeyAddIf(Given(secret), Setting(PresharedKeyName, TextOf(secret)), r1, st1);
    KeyAddIf(p.keepalive.Some?, Setting(KeepaliveName, NumberText(p.keepalive)), Cons(Blank, rest), st2);
  }

  /** The secrets of the peers, added to `known`. */
  function PeerSecrets(peers: seq<Peer>, secrets: Secrets, known: Secrets): Secrets {
    if peers == [] then known
    else
      var key := peers[0].publicKey;
      PeerSecrets(peers[1..], secrets, if key != "" && Given(SecretOf(secrets, key)) then known[key := secrets[key]] else known)
  }

  lemma {:induction false} KeyPeersItems(peers: seq<Peer>, secrets: Secrets, st: KeyState)
    ensures KeyFlush(KeyItems(PeersItems(peers, secrets), st)).result == PeerSecrets(peers, secrets, KeyFlush(st).result)
    decreases |peers|
  {
    if peers != [] {
      var p := peers[0];
      var secret := SecretOf(secrets, p.publicKey);
      KeyPeerItems(p, secrets, PeersItems(peers[1..], secrets), st);
      KeyPeersItems(peers[1..], secrets, KeyState(KeyFlush(st).result, Some(p.publicKey), if Given(secret) then secret else None));
    }
  }

  /** The secrets, restricted to the configuration's peers. */
  function Restricted(peers: seq<Peer>, secrets: Secrets): Secrets {
    map k | k in secrets && secrets[k] != "" && k != "" && exists i :: 0 <= i < |peers| && peers[i].publicKey == k :: secrets[k]
  }

  lemma {:induction false} PeerSecretsAre(peers: seq<Peer>, secrets: Secrets, known: Secrets)
    ensures PeerSecrets(peers, secrets, known) == known + Restricted(peers, secrets)
    decreases |peers|
  {
    if peers != [] {
      var key := peers[0].publicKey;
      var next := if key != "" && Given(SecretOf(secrets, key)) then known[key := secrets[key]] else known;
      PeerSecretsAre(peers[1..], secrets, next);
      RestrictedGrows(peers, secrets, known);
    }
  }

  lemma RestrictedGrows(peers: seq<Peer>, secrets: Secrets, known: Secrets)
    requires peers != []
    ensures var key := peers[0].publicKey;
      var next := if key != "" && Given(SecretOf(secrets, key)) then known[key := secrets[key]] else known;
      next + Restricted(peers[1..], secrets) == known + Restricted(peers, secrets)
  {
    forall k ensures k in Restricted(peers, secrets) <==>
      k in Restricted(peers[1..], secrets) || (k == peers[0].publicKey && k != "" && Given(SecretOf(secrets, k)))
    {
      if i :| 0 <= i < |peers| && peers[i].publicKey == k { assert i > 0 ==> peers[1..][i - 1].publicKey == k; }
      if i :| 0 <= i < |peers[1..]| && peers[1..][i].publicKey == k { assert peers[i + 1].publicKey == k; }
    }
  }

  /** A rendered configuration gives back exactly the secrets of its peers. */
  lemma SecretsRoundTrip(c: Conf, secrets: Secrets)
    requires ConfOk(c, secrets)
    ensures PresharedKeys(Render(c, secrets)) == Restricted(c.peers, secrets)
  {
    var items := Items(c, secrets);
    RenderSplits(c, secrets);
    ConfItemsOk(c, secrets);
    ReadAllAlike(items);
    KeyLinesAreItems(ReadAll(Texts(items), ReadLine), items, NO_KEYS);
    KeyInterface(c, secrets);
    KeyPeersItems(c.peers, secrets, NO_KEYS);
    PeerSecretsAre(c.peers, secrets, map[]);
    assert map[] + Restricted(c.peers, secrets) == Restricted(c.peers, secrets);
  }

  lemma KeyInterface(c: Conf, secrets: Secrets)
    ensures KeyItems(Items(c, secrets), NO_KEYS) == KeyItems(PeersItems(c.peers, secrets), NO_KEYS)
  {
    var r1 := Cons(Blank, PeersItems(c.peers, secrets));
    var r2 := AfterAddress(c, secrets);
    KeyAddIf(c.listenPort.Some?, Setting(ListenPortName, NumberText(c.listenPort)), r1, NO_KEYS);
    var r3 := Cons(Setting(AddressName, c.address), r2);
    assert KeyItems(r3, NO_KEYS) == KeyItems(r2, NO_KEYS);
    assert KeyItems(Cons(Setting(PrivateKeyName, c.privateKey), r3), NO_KEYS) == KeyItems(r3, NO_KEYS);
  }

  lemma RenderSplits(c: Conf, secrets: Secrets)
    requires ConfOk(c, secrets)
    ensures SplitLines(Render(c, secrets)) == Texts(Items(c, secrets))
  {
    ConfItemsOk(c, secrets);
    TextsAreOneLine(Items(c, secrets));
    SplitJoin(Texts(Items(c, secrets)));
  }

  // ---------------------------------------------------------------- the peers of a rendered configuration

  function PeerItem(st: PeerState, item: Item): PeerState {
    PeerStep(st, ItemLine(item))
  }

  function PeerItemsFold(items: List<Item>, st: PeerState): PeerState {
    match items
    case Nil => st
    case Cons(item, rest) => PeerItemsFold(rest, PeerItem(st, item))
  }

  lemma {:induction false} PeerLinesAreItems(lines: List<Line>, items: List<Item>, st: PeerState)
    requires AllAlike(lines, items)
    ensures PeerLines(lines, st) == PeerItemsFold(items, st)
  {
    if items.Cons? { PeerLinesAreItems(lines.tail, items.tail, PeerItem(st, items.head)); }
  }

  lemma PeerAddIf(add: bool, item: Item, rest: List<Item>, st: PeerState)
    ensures PeerItemsFold(AddIf(add, item, rest), st) == PeerItemsFold(rest, if add then PeerItem(st, item) else st)
  {
  }

  /** What is to be read back for a peer. */
  function RestoreOf(p: Peer): Restore {
    Restore(if Given(p.endpoint) then p.endpoint else None, p.keepalive)
  }

  lemma PeerKeepalive(p: Peer, st: PeerState)
    requires p.keepalive.Some?
    ensures PeerItem(st, Setting(KeepaliveName, NumberText(p.keepalive))) == st.(keepalive := p.keepalive)
  {
    DecimalReads(p.keepalive.value);
  }

  /** One peer's section: what was open is closed, and the peer's settings are open. */
  lemma FoldPeerItems(p: Peer, secrets: Secrets, rest: List<Item>, st: PeerState)
    ensures PeerItemsFold(PeerItems(p, secrets, rest), st) ==
      PeerItemsFold(rest, PeerState(PeerFlush(st).result, Some(p.publicKey), RestoreOf(p).endpoint, p.keepalive))
  {
    var secret := SecretOf(secrets, p.publicKey);
    var r1 := AddIf(p.keepalive.Some?, Setting(KeepaliveName, NumberText(p.keepalive)), Cons(Blank, rest));
    var r2 := AddIf(Given(secret), Setting(PresharedKeyName, TextOf(secret)), r1);
    var r3 := AddIf(Given(p.endpoint), Setting(EndpointName, TextOf(p.endpoint)), r2);
    var r4 := Cons(Setting(AllowedIPsName, Commas(p.allowedIPs)), r3);
    var st1 := PeerState(PeerFlush(st).result, Some(p.publicKey), None, None);
    var st2 := st1.(endpoint := RestoreOf(p).endpoint);
    assert PeerItemsFold(PeerItems(p, secrets, rest), st) == PeerItemsFold(Cons(Setting(PublicKeyName, p.publicKey), r4), PeerFlush(st));
    assert PeerItemsFold(Cons(Setting(PublicKeyName, p.publicKey), r4), PeerFlush(st)) == PeerItemsFold(r4, st1);
    assert PeerItemsFold(r4, st1) == PeerItemsFold(r3, st1);
    PeerAddIf(Given(p.endpoint), Setting(EndpointName, TextOf(p.endpoint)), r2, st1);
    PeerAddIf(Given(secret), Setting(PresharedKeyName, TextOf(secret)), r1, st2);
    PeerAddIf(p.keepalive.Some?, Setting(KeepaliveName, NumberText(p.keepalive)), Cons(Blank, rest), st2);
    if p.keepalive.Some? { PeerKeepalive(p, st2); }
  }

  /** The peers' settings, added to `known`; a repeated key takes the later peer's. */
  function Restores(peers: seq<Peer>, known: map<string, Restore>): map<string, Restore> {
    if peers == [] then known
    else Restores(peers[1..], if peers[0].publicKey == "" then known else known[peers[0].publicKey := RestoreOf(peers[0])])
  }

  lemma {:induction false} FoldPeersItems(peers: seq<Peer>, secrets: Secrets, st: PeerState)
    ensures PeerFlush(PeerItemsFold(PeersItems(peers, secrets), st)).result == Restores(peers, PeerFlush(st).result)
    decreases |peers|
  {
    if peers != [] {
      var p := peers[0];
      FoldPeerItems(p, secrets, PeersItems(peers[1..], secrets), st);
      FoldPeersItems(peers[1..], secrets, PeerState(PeerFlush(st).result, Some(p.publicKey), RestoreOf(p).endpoint, p.keepalive));
    }
  }

  predicate Keyed(peers: seq<Peer>, k: string) {
    exists i :: 0 <= i < |peers| && peers[i].publicKey == k
  }

  /** The peer at `i` is the last with its key. */
  predicate LastKeyed(peers: seq<Peer>, i: nat)
    requires i < |peers|
  {
    forall j :: i < j < |peers| ==> peers[j].publicKey != peers[i].publicKey
  }

  lemma {:induction false} RestoresAre(peers: seq<Peer>, known: map<string, Restore>, k: string)
    ensures var r := Restores(peers, known);
      && (k in r <==> k in known || (k != "" && Keyed(peers, k)))
      && (!Keyed(peers, k) && k in known ==> r[k] == known[k])
      && (k == "" && k in known ==> r[k] == known[k])
      && (forall i :: 0 <= i < |peers| && peers[i].publicKey == k != "" && LastKeyed(peers, i) ==> r[k] == RestoreOf(peers[i]))
    decreases |peers|
  {
    if peers != [] {
      var next := if peers[0].publicKey == "" then known else known[peers[0].publicKey := RestoreOf(peers[0])];
      RestoresAre(peers[1..], next, k);
      KeyedSplits(peers, k);
      forall i | 0 <= i < |peers| && peers[i].publicKey == k != "" && LastKeyed(peers, i)
        ensures Restores(peers, known)[k] == RestoreOf(peers[i])
      {
        if i > 0 {
          assert peers[1..][i - 1] == peers[i];
          assert LastKeyed(peers[1..], i - 1);
        } else {
          assert !Keyed(peers[1..], k);
        }
      }
    }
  }

  lemma KeyedSplits(peers: seq<Peer>, k: string)
    requires peers != []
    ensures Keyed(peers, k) <==> peers[0].publicKey == k || Keyed(peers[1..], k)
  {
    if i :| 0 <= i < |peers| && peers[i].publicKey == k { assert i > 0 ==> peers[1..][i - 1].publicKey == k; }
    if i :| 0 <= i < |peers[1..]| && peers[1..][i].publicKey == k { assert peers[i + 1].publicKey == k; }
  }

  /**
   * A rendered configuration gives back every peer with a key, and for each its endpoint and
   * keepalive; of peers with one key the last.
   */
  lemma PeersRoundTrip(c: Conf, secrets: Secrets)
    requires ConfOk(c, secrets)
    ensures var r := DurablePeers(Render(c, secrets));
      && (forall k :: k in r <==> k != "" && Keyed(c.peers, k))
      && (forall i :: 0 <= i < |c.peers| && c.peers[i].publicKey != "" && LastKeyed(c.peers, i) ==>
            r[c.peers[i].publicKey] == RestoreOf(c.peers[i]))
  {
    RenderReads(c, secrets);
    var r := DurablePeers(Render(c, secrets));
    forall k
      ensures k in r <==> k != "" && Keyed(c.peers, k)
      ensures forall i :: 0 <= i < |c.peers| && c.peers[i].publicKey == k != "" && LastKeyed(c.peers, i) ==> r[k] == RestoreOf(c.peers[i])
    {
      RestoresAre(c.peers, map[], k);
    }
  }

  lemma RenderReads(c: Conf, secrets: Secrets)
    requires ConfOk(c, secrets)
    ensures DurablePeers(Render(c, secrets)) == Restores(c.peers, map[])
  {
    var items := Items(c, secrets);
    RenderSplits(c, secrets);
    ConfItemsOk(c, secrets);
    ReadAllAlike(items);
    PeerLinesAreItems(ReadAll(Texts(items), ReadLine), items, NO_PEERS);
    PeerInterface(c, secrets);
    FoldPeersItems(c.peers, secrets, NO_PEERS);
  }

  lemma PeerInterface(c: Conf, secrets: Secrets)
    ensures PeerItemsFold(Items(c, secrets), NO_PEERS) == PeerItemsFold(PeersItems(c.peers, secrets), NO_PEERS)
  {
    var r1 := Cons(Blank, PeersItems(c.peers, secrets));
    var r2 := AfterAddress(c, secrets);
    PeerAddIf(c.listenPort.Some?, Setting(ListenPortName, NumberText(c.listenPort)), r1, NO_PEERS);
    var r3 := Cons(Setting(AddressName, c.address), r2);
    assert PeerItemsFold(r3, NO_PEERS) == PeerItemsFold(r2, NO_PEERS);
    assert PeerItemsFold(Cons(Setting(PrivateKeyName, c.privateKey), r3), NO_PEERS) == PeerItemsFold(r3, NO_PEERS);
  }

  // ---------------------------------------------------------------- the filter on a rendered configuration

  function StripItems(items: List<Item>, inInterface: bool): List<Item> {
    match items
    case Nil => Nil
    case Cons(item, rest) =>
      var kept := StripItems(rest, Inside(ItemLine(item), inInterface));
      if Dropped(ItemLine(item), inInterface) then kept else Cons(item, kept)
  }

  lemma {:induction false} StripLinesAreItems(items: List<Item>, read: string -> Line, inInterface: bool)
    requires AllAlike(ReadAll(Texts(items), read), items)
    ensures StripLines(Texts(items), read, inInterface) == Texts(StripItems(items, inInterface))
  {
    if items.Cons? { StripLinesAreItems(items.tail, read, Inside(ItemLine(items.head), inInterface)); }
  }

  lemma StripAddIf(add: bool, item: Item, rest: List<Item>, inInterface: bool)
    requires !item.Section? && !Dropped(ItemLine(item), inInterface)
    ensures StripItems(AddIf(add, item, rest), inInterface) == AddIf(add, item, StripItems(rest, inInterface))
  {
  }

  lemma StripPeerItems(p: Peer, secrets: Secrets, rest: List<Item>, inInterface: bool)
    ensures StripItems(PeerItems(p, secrets, rest), inInterface) == PeerItems(p, secrets, StripItems(rest, false))
  {
    var secret := SecretOf(secrets, p.publicKey);
    var r1 := AddIf(p.keepalive.Some?, Setting(KeepaliveName, NumberText(p.keepalive)), Cons(Blank, rest));
    var r2 := AddIf(Given(secret), Setting(PresharedKeyName, TextOf(secret)), r1);
    var r3 := AddIf(Given(p.endpoint), Setting(EndpointName, TextOf(p.endpoint)), r2);
    var r4 := Cons(Setting(AllowedIPsName, Commas(p.allowedIPs)), r3);
    StripAddIf(p.keepalive.Some?, Setting(KeepaliveName, NumberText(p.keepalive)), Cons(Blank, rest), false);
    StripAddIf(Given(secret), Setting(PresharedKeyName, TextOf(secret)), r1, false);
    StripAddIf(Given(p.endpoint), Setting(EndpointName, TextOf(p.endpoint)), r2, false);
    assert StripItems(r4, false) == Cons(r4.head, StripItems(r3, false));
    assert StripItems(Cons(Setting(PublicKeyName, p.publicKey), r4), false) == Cons(Setting(PublicKeyName, p.publicKey), StripItems(r4, false));
  }

  lemma {:induction false} StripPeersItems(peers: seq<Peer>, secrets: Secrets, inInterface: bool)
    ensures StripItems(PeersItems(peers, secrets), inInterface) == PeersItems(peers, secrets)
    decreases |peers|
  {
    if peers != [] {
      StripPeerItems(peers[0], secrets, PeersItems(peers[1..], secrets), inInterface);
      StripPeersItems(peers[1..], secrets, false);
    }
  }

  /** Of a rendered configuration the filter takes out the address line and nothing else. */
  lemma StripTakesTheAddress(c: Conf, secrets: Secrets)
    requires ConfOk(c, secrets)
    ensures Strip(Render(c, secrets)) ==
      Join(Texts(Cons(Section(true), Cons(Setting(PrivateKeyName, c.privateKey), AfterAddress(c, secrets)))))
  {
    var items := Items(c, secrets);
    RenderSplits(c, secrets);
    ConfItemsOk(c, secrets);
    ReadAllAlike(items);
    StripLinesAreItems(items, ReadLine, false);
    StripInterface(c, secrets);
  }

  lemma StripInterface(c: Conf, secrets: Secrets)
    ensures StripItems(Items(c, secrets), false) ==
      Cons(Section(true), Cons(Setting(PrivateKeyName, c.privateKey), AfterAddress(c, secrets)))
  {
    StripPeersItems(c.peers, secrets, true);
    StripAddIf(c.listenPort.Some?, Setting(ListenPortName, NumberText(c.listenPort)), Cons(Blank, PeersItems(c.peers, secrets)), true);
    var r3 := Cons(Setting(AddressName, c.address), AfterAddress(c, secrets));
    assert StripItems(r3, true) == StripItems(AfterAddress(c, secrets), true);
    assert StripItems(Cons(Setting(PrivateKeyName, c.privateKey), r3), true) ==
      Cons(Setting(PrivateKeyName, c.privateKey), StripItems(r3, true));
  }

  // ---------------------------------------------------------------- the rendering loop

  method PushItem(lines: seq<string>, add: bool, item: Item, ghost rest: List<Item>) returns (r: seq<string>)
    ensures Onto(r, Texts(rest)) == Onto(lines, Texts(AddIf(add, item, rest)))
  {
    OntoPush(lines, ItemText(item), Texts(rest));
    r := if add then lines + [ItemText(item)] else lines;
  }

  method PushPeer(lines: seq<string>, p: Peer, secrets: Secrets, ghost rest: List<Item>) returns (r: seq<string>)
    ensures Onto(r, Texts(rest)) == Onto(lines, Texts(PeerItems(p, secrets, rest)))
  {
    var secret := SecretOf(secrets, p.publicKey);
    ghost var r0 := Cons(Blank, rest);
    ghost var r1 := AddIf(p.keepalive.Some?, Setting(KeepaliveName, NumberText(p.keepalive)), r0);
    ghost var r2 := AddIf(Given(secret), Setting(PresharedKeyName, TextOf(secret)), r1);
    ghost var r3 := AddIf(Given(p.endpoint), Setting(EndpointName, TextOf(p.endpoint)), r2);
    ghost var r4 := AddIf(true, Setting(AllowedIPsName, Commas(p.allowedIPs)), r3);
    ghost var r5 := AddIf(true, Setting(PublicKeyName, p.publicKey), r4);
    assert PeerItems(p, secrets, rest) == AddIf(true, Section(false), r5);
    r := PushItem(lines, true, Section(false), r5);
    r := PushItem(r, true, Setting(PublicKeyName, p.publicKey), r4);
    r := PushItem(r, true, Setting(AllowedIPsName, Commas(p.allowedIPs)), r3);
    r := PushItem(r, Given(p.endpoint), Setting(EndpointName, TextOf(p.endpoint)), r2);
    r := PushItem(r, Given(secret), Setting(PresharedKeyName, TextOf(secret)), r1);
    r := PushItem(r, p.keepalive.Some?, Setting(KeepaliveName, NumberText(p.keepalive)), r0);
    r := PushItem(r, true, Blank, rest);
  }

  method RenderWgConf(c: Conf, secrets: Secrets) returns (r: string)
    ensures r == Render(c, secrets)
  {
    var lines: seq<string> := [];
    ghost var peers := PeersItems(c.peers, secrets);
    ghost var after := AfterAddress(c, secrets);
    lines := PushItem(lines, true, Section(true), Cons(Setting(PrivateKeyName, c.privateKey), Cons(Setting(AddressName, c.address), after)));
    lines := PushItem(lines, true, Setting(PrivateKeyName, c.privateKey), Cons(Setting(AddressName, c.address), after));
    lines := PushItem(lines, true, Setting(AddressName, c.address), after);
    lines := PushItem(lines, c.listenPort.Some?, Setting(ListenPortName, NumberText(c.listenPort)), Cons(Blank, peers));
    lines := PushItem(lines, true, Blank, peers);
    assert c.peers[0..] == c.peers;
    for i := 0 to |c.peers|
      invariant Onto(lines, Texts(PeersItems(c.peers[i..], secrets))) == Texts(Items(c, secrets))
    {
      assert c.peers[i..][1..] == c.peers[i + 1..];
      lines := PushPeer(lines, c.peers[i], secrets, PeersItems(c.peers[i + 1..], secrets));
    }
    r := Join(Onto(lines, Nil));
  }

  // ---------------------------------------------------------------- the ranges of a rendered configuration

  /** The lines begin with these. */
  predicate Begins(lines: List<string>, texts: seq<string>) {
    texts == [] || (lines.Cons? && lines.head == texts[0] && Begins(lines.tail, texts[1..]))
  }

  /** These lines are there, one after the other. */
  predicate Shows(lines: List<string>, texts: seq<string>) {
    Begins(lines, texts) || (lines.Cons? && Shows(lines.tail, texts))
  }

  function CommaFrom(s: string, i: nat): (r: nat)
    requires i <= |s|
    ensures i <= r <= |s| && (r < |s| ==> s[r] == ',') && forall k :: i <= k < r ==> s[k] != ','
    decreases |s| - i
  {
    if i == |s| || s[i] == ',' then i else CommaFrom(s, i + 1)
  }

  /** The parts between the commas, each without the blank after the comma. */
  function Parts(s: string): seq<string>
    decreases |s|
  {
    var i := CommaFrom(s, 0);
    if i + 2 > |s| then [s] else [s[..i]] + Parts(s[i + 2..])
  }

  /** Ranges written with commas are read back. */
  lemma {:induction false} CommasRead(parts: seq<string>)
    requires parts != [] && forall i :: 0 <= i < |parts| ==> ',' !in parts[i]
    ensures Parts(Commas(parts)) == parts
  {
    var s := Commas(parts);
    if |parts| > 1 {
      var more := Commas(parts[1..]);
      CommasRead(parts[1..]);
      assert s == parts[0] + ", " + more;
      assert s[|parts[0]|] == ',' && forall k :: 0 <= k < |parts[0]| ==> s[k] == parts[0][k];
      assert s[..|parts[0]|] == parts[0] && s[|parts[0]| + 2..] == more;
    }
  }

  /** The first lines of a peer's section. */
  function PeerHead(p: Peer): seq<string> {
    ["[Peer]", "PublicKey = " + p.publicKey, "AllowedIPs = " + Commas(p.allowedIPs)]
  }

  lemma ThreeBegin(a: Item, b: Item, c: Item, rest: List<Item>)
    ensures Begins(Texts(Cons(a, Cons(b, Cons(c, rest)))), [ItemText(a), ItemText(b), ItemText(c)])
  {
    var last := Cons(ItemText(c), Texts(rest));
    assert Texts(Cons(c, rest)) == last;
    assert Texts(Cons(b, Cons(c, rest))) == Cons(ItemText(b), last);
    assert Begins(last, [ItemText(c)]);
    assert [ItemText(b), ItemText(c)][1..] == [ItemText(c)];
    assert Begins(Cons(ItemText(b), last), [ItemText(b), ItemText(c)]);
    assert [ItemText(a), ItemText(b), ItemText(c)][1..] == [ItemText(b), ItemText(c)];
  }

  lemma HeadBegins(p: Peer, secrets: Secrets, rest: List<Item>)
    ensures Begins(Texts(PeerItems(p, secrets, rest)), PeerHead(p))
  {
    var key, ranges := Setting(PublicKeyName, p.publicKey), Setting(AllowedIPsName, Commas(p.allowedIPs));
    ThreeBegin(Section(false), key, ranges, PeerItems(p, secrets, rest).tail.tail.tail);
    assert ItemText(key) == "PublicKey = " + p.publicKey && ItemText(ranges) == "AllowedIPs = " + Commas(p.allowedIPs);
  }

  lemma {:induction false} SkipItem(add: bool, item: Item, rest: List<Item>, texts: seq<string>)
    requires Shows(Texts(rest), texts)
    ensures Shows(Texts(AddIf(add, item, rest)), texts)
  {
  }

  lemma {:induction false} PeersAreWritten(peers: seq<Peer>, secrets: Secrets, i: nat)
    requires i < |peers|
    ensures Shows(Texts(PeersItems(peers, secrets)), PeerHead(peers[i]))
  {
    var rest := PeersItems(peers[1..], secrets);
    if i == 0 {
      HeadBegins(peers[0], secrets, rest);
    } else {
      PeersAreWritten(peers[1..], secrets, i - 1);
      AfterPeer(peers[0], secrets, rest, PeerHead(peers[i]));
    }
  }

  lemma {:induction false} AfterPeer(p: Peer, secrets: Secrets, rest: List<Item>, texts: seq<string>)
    requires Shows(Texts(rest), texts)
    ensures Shows(Texts(PeerItems(p, secrets, rest)), texts)
  {
    var secret := SecretOf(secrets, p.publicKey);
    var r1 := AddIf(p.keepalive.Some?, Setting(KeepaliveName, NumberText(p.keepalive)), Cons(Blank, rest));
    var r2 := AddIf(Given(secret), Setting(PresharedKeyName, TextOf(secret)), r1);
    var r3 := AddIf(Given(p.endpoint), Setting(EndpointName, TextOf(p.endpoint)), r2);
    var r4 := AddIf(true, Setting(AllowedIPsName, Commas(p.allowedIPs)), r3);
    var r5 := AddIf(true, Setting(PublicKeyName, p.publicKey), r4);
    SkipItem(true, Blank, rest, texts);
    SkipItem(p.keepalive.Some?, Setting(KeepaliveName, NumberText(p.keepalive)), Cons(Blank, rest), texts);
    SkipItem(Given(secret), Setting(PresharedKeyName, TextOf(secret)), r1, texts);
    SkipItem(Given(p.endpoint), Setting(EndpointName, TextOf(p.endpoint)), r2, texts);
    SkipItem(true, Setting(AllowedIPsName, Commas(p.allowedIPs)), r3, texts);
    SkipItem(true, Setting(PublicKeyName, p.publicKey), r4, texts);
    SkipItem(true, Section(false), r5, texts);
  }

  /**
   * The written text begins with the interface's key, address and port, and holds every peer's
   * section with its key and, in the line after that, its ranges.
   */
  lemma RangesAreWritten(c: Conf, secrets: Secrets, i: nat)
    requires ConfOk(c, secrets) && i < |c.peers|
    ensures var lines := SplitLines(Render(c, secrets));
      && Begins(lines, InterfaceHead(c))
      && Shows(lines, PeerHead(c.peers[i]))
  {
    RenderSplits(c, secrets);
    PeersAreWritten(c.peers, secrets, i);
    var peers := PeersItems(c.peers, secrets);
    var texts := PeerHead(c.peers[i]);
    SkipItem(true, Blank, peers, texts);
    SkipItem(c.listenPort.Some?, Setting(ListenPortName, NumberText(c.listenPort)), Cons(Blank, peers), texts);
    var r3 := AddIf(true, Setting(AddressName, c.address), AfterAddress(c, secrets));
    SkipItem(true, Setting(AddressName, c.address), AfterAddress(c, secrets), texts);
    SkipItem(true, Setting(PrivateKeyName, c.privateKey), r3, texts);
    SkipItem(true, Section(true), AddIf(true, Setting(PrivateKeyName, c.privateKey), r3), texts);
    InterfaceBegins(c, secrets);
  }

  /** The first lines of the interface section: its key, its address, and its port if it has one. */
  function InterfaceHead(c: Conf): seq<string> {
    ["[Interface]", "PrivateKey = " + c.privateKey, "Address = " + c.address, if c.listenPort.Some? then "ListenPort = " + Decimal(c.listenPort.value) else ""]
  }

  lemma InterfaceBegins(c: Conf, secrets: Secrets)
    ensures Begins(Texts(Items(c, secrets)), InterfaceHead(c))
  {
    var key, address := Setting(PrivateKeyName, c.privateKey), Setting(AddressName, c.address);
    var after := AfterAddress(c, secrets);
    ThreeBegin(key, address, after.head, after.tail);
    assert ItemText(key) == "PrivateKey = " + c.privateKey && ItemText(address) == "Address = " + c.address;
    assert c.listenPort.Some? ==> ItemText(after.head) == "ListenPort = " + Decimal(c.listenPort.value);
    assert InterfaceHead(c)[1..] == [ItemText(key), ItemText(address), ItemText(after.head)];
  }
}
