/**
 * The WireGuard configuration the fabric writes, the filter that takes `wg-quick` settings out of
 * it, and the two parsers that read it back.
 */
module WgConf {
  import opened Prelude
  import opened Text
  import opened WgLines

  // ---------------------------------------------------------------- numbers

  function Decimal(n: nat): string {
    if n < 10 then [('0' as int + n) as char] else Decimal(n / 10) + [('0' as int + n % 10) as char]
  }

  predicate Digit(c: char) {
    '0' <= c <= '9'
  }

  function DigitsEnd(s: string, i: nat): (r: nat)
    requires i <= |s|
    ensures i <= r <= |s|
    decreases |s| - i
  {
    if i < |s| && Digit(s[i]) then DigitsEnd(s, i + 1) else i
  }

  function Number(s: string, i: nat, j: nat): int
    requires i <= j <= |s|
    decreases j
  {
    if i == j then 0 else 10 * Number(s, i, j - 1) + (s[j - 1] as int - '0' as int)
  }

  /** The number at the start of the text, after a sign if there is one. */
  function ParseInt(s: string): Option<int> {
    var start := if |s| > 0 && (s[0] == '-' || s[0] == '+') then 1 else 0;
    var end := DigitsEnd(s, start);
    if end == start then None
    else Some(if s[0] == '-' then -Number(s, start, end) else Number(s, start, end))
  }

  lemma {:induction false} DecimalIsDigits(n: nat)
    ensures |Decimal(n)| > 0 && forall k :: 0 <= k < |Decimal(n)| ==> Digit(Decimal(n)[k])
  {
    if n >= 10 { DecimalIsDigits(n / 10); }
  }

  lemma {:induction false} DigitsToEnd(s: string, i: nat)
    requires i <= |s| && forall k :: i <= k < |s| ==> Digit(s[k])
    ensures DigitsEnd(s, i) == |s|
    decreases |s| - i
  {
    if i < |s| { DigitsToEnd(s, i + 1); }
  }

  lemma {:induction false} NumberOfPrefix(s: string, t: string, j: nat)
    requires j <= |s| && j <= |t| && s[..j] == t[..j]
    ensures Number(s, 0, j) == Number(t, 0, j)
    decreases j
  {
    if j > 0 {
      assert s[..j][j - 1] == t[..j][j - 1];
      assert s[..j - 1] == s[..j][..j - 1] == t[..j - 1];
      NumberOfPrefix(s, t, j - 1);
    }
  }

  lemma {:induction false} NumberOfDecimal(n: nat)
    ensures Number(Decimal(n), 0, |Decimal(n)|) == n
  {
    var s := Decimal(n);
    if n < 10 {
      assert Number(s, 0, 0) == 0;
    } else {
      var t := Decimal(n / 10);
      assert s[..|t|] == t == t[..|t|];
      NumberOfPrefix(s, t, |t|);
      NumberOfDecimal(n / 10);
    }
  }

  /** A printed number is read back. */
  lemma DecimalReads(n: nat)
    ensures ParseInt(Decimal(n)) == Some(n) && Trimmed(Decimal(n)) && OneLine(Decimal(n))
  {
    DecimalIsDigits(n);
    DigitsToEnd(Decimal(n), 0);
    NumberOfDecimal(n);
  }

  // ---------------------------------------------------------------- rendering

  datatype Peer = Peer(publicKey: string, allowedIPs: seq<string>, endpoint: Option<string>, keepalive: Option<nat>)

  datatype Conf = Conf(privateKey: string, address: string, listenPort: Option<nat>, peers: seq<Peer>)

  type Secrets = map<string, string>

  datatype Name = PrivateKeyName | AddressName | ListenPortName | PublicKeyName | AllowedIPsName | EndpointName | PresharedKeyName | KeepaliveName

  function NameText(name: Name): string {
    match name
    case PrivateKeyName => "PrivateKey"
    case AddressName => "Address"
    case ListenPortName => "ListenPort"
    case PublicKeyName => "PublicKey"
    case AllowedIPsName => "AllowedIPs"
    case EndpointName => "Endpoint"
    case PresharedKeyName => "PresharedKey"
    case KeepaliveName => "PersistentKeepalive"
  }

  /** What a line is written for. */
  datatype Item = Section(isInterface: bool) | Setting(name: Name, value: string) | Blank

  function ItemText(item: Item): string {
    match item
    case Section(isInterface) => if isInterface then "[Interface]" else "[Peer]"
    case Setting(name, value) => SettingText(NameText(name), value)
    case Blank => ""
  }

  function AddIf(add: bool, item: Item, rest: List<Item>): List<Item> {
    if add then Cons(item, rest) else rest
  }

  /** Present and not empty. */
  predicate Given(value: Option<string>) {
    value.Some? && value.value != ""
  }

  function TextOf(value: Option<string>): string {
    if value.Some? then value.value else ""
  }

  function NumberText(value: Option<nat>): string {
    if value.Some? then Decimal(value.value) else ""
  }

  function Commas(parts: seq<string>): string {
    if parts == [] then "" else if |parts| == 1 then parts[0] else parts[0] + ", " + Commas(parts[1..])
  }

  function SecretOf(secrets: Secrets, key: string): Option<string> {
    if key in secrets then Some(secrets[key]) else None
  }

  function PeerItems(p: Peer, secrets: Secrets, rest: List<Item>): List<Item> {
    var secret := SecretOf(secrets, p.publicKey);
    Cons(Section(false),
      Cons(Setting(PublicKeyName, p.publicKey),
        Cons(Setting(AllowedIPsName, Commas(p.allowedIPs)),
          AddIf(Given(p.endpoint), Setting(EndpointName, TextOf(p.endpoint)),
            AddIf(Given(secret), Setting(PresharedKeyName, TextOf(secret)),
              AddIf(p.keepalive.Some?, Setting(KeepaliveName, NumberText(p.keepalive)), Cons(Blank, rest)))))))
  }

  function PeersItems(peers: seq<Peer>, secrets: Secrets): List<Item> {
    if peers == [] then Nil else PeerItems(peers[0], secrets, PeersItems(peers[1..], secrets))
  }

  /** The interface section after its address. */
  function AfterAddress(c: Conf, secrets: Secrets): List<Item> {
    AddIf(c.listenPort.Some?, Setting(ListenPortName, NumberText(c.listenPort)), Cons(Blank, PeersItems(c.peers, secrets)))
  }

  function Items(c: Conf, secrets: Secrets): List<Item> {
    Cons(Section(true),
      Cons(Setting(PrivateKeyName, c.privateKey), Cons(Setting(AddressName, c.address), AfterAddress(c, secrets))))
  }

  function Texts(items: List<Item>): List<string> {
    match items
    case Nil => Nil
    case Cons(item, rest) => Cons(ItemText(item), Texts(rest))
  }

  function Render(c: Conf, secrets: Secrets): string {
    Join(Texts(Items(c, secrets)))
  }

  // ---------------------------------------------------------------- what a written line says

  function NameKey(name: Name): Key {
    match name
    case PublicKeyName => PublicKey
    case PresharedKeyName => PresharedKey
    case EndpointName => Endpoint
    case KeepaliveName => Keepalive
    case AddressName => QuickOnly
    case _ => OtherKey
  }

  /** The value of this setting is read back by a parser. */
  predicate Tracked(name: Name) {
    NameKey(name) != OtherKey && NameKey(name) != QuickOnly
  }

  predicate ItemOk(item: Item) {
    item.Setting? ==> OneLine(item.value) && (Tracked(item.name) ==> Trimmed(item.value))
  }

  predicate ItemsOk(items: List<Item>) {
    items.Cons? ==> ItemOk(items.head) && ItemsOk(items.tail)
  }

  lemma LowerIs(s: string, t: string)
    requires |s| == |t| && forall i :: 0 <= i < |s| ==> LowerChar(s[i]) == t[i]
    ensures Lower(s) == t
  {
  }

  /** The name as the parsers see it. */
  function KeyText(name: Name): string {
    match name
    case PrivateKeyName => "privatekey"
    case AddressName => "address"
    case ListenPortName => "listenport"
    case PublicKeyName => "publickey"
    case AllowedIPsName => "allowedips"
    case EndpointName => "endpoint"
    case PresharedKeyName => "presharedkey"
    case KeepaliveName => "persistentkeepalive"
  }

  lemma KeyTextReads(name: Name)
    ensures KeyOf(KeyText(name)) == NameKey(name)
  {
  }

  lemma NameLowers(name: Name)
    ensures Lower(NameText(name)) == KeyText(name)
  {
    match name
    case PrivateKeyName => LowerIs("PrivateKey", "privatekey");
    case AddressName => LowerIs("Address", "address");
    case ListenPortName => LowerIs("ListenPort", "listenport");
    case PublicKeyName => LowerIs("PublicKey", "publickey");
    case AllowedIPsName => LowerIs("AllowedIPs", "allowedips");
    case EndpointName => LowerIs("Endpoint", "endpoint");
    case PresharedKeyName => LowerIs("PresharedKey", "presharedkey");
    case KeepaliveName => LowerIs("PersistentKeepalive", "persistentkeepalive");
  }

  lemma NameHasShape(name: Name)
    ensures NameShape(NameText(name))
  {
  }

  lemma NamesRead(name: Name)
    ensures NameShape(NameText(name)) && KeyOf(Lower(NameText(name))) == NameKey(name)
  {
    NameLowers(name);
    KeyTextReads(name);
    NameHasShape(name);
  }

  lemma SectionReads(isInterface: bool)
    ensures ReadLine(ItemText(Section(isInterface))) == Header(isInterface)
  {
    LowerIs("[Interface]", "[interface]");
    var s := ItemText(Section(isInterface));
    assert Trim(s) == s;
    if !isInterface { assert |Lower(s)| != |"[interface]"|; }
  }

  /** Each written line is read as what it was written for; untracked values are not looked at. */
  lemma ItemReads(item: Item)
    requires ItemOk(item)
    ensures var line := ReadLine(ItemText(item));
      match item
      case Section(isInterface) => line == Header(isInterface)
      case Blank => line == NoEntry
      case Setting(name, value) => line.Entry? && line.key == NameKey(name) && (Tracked(name) ==> line.value == value)
  {
    match item
    case Section(isInterface) => SectionReads(isInterface);
    case Blank => BlankReads();
    case Setting(name, value) =>
      NamesRead(name);
      SettingKey(NameText(name), value);
      if Tracked(name) { SettingReads(NameText(name), value); }
  }

  lemma ItemIsOneLine(item: Item)
    requires ItemOk(item)
    ensures OneLine(ItemText(item))
  {
    if item.Setting? {
      NamesRead(item.name);
      var n, s := NameText(item.name), ItemText(item);
      forall k | 0 <= k < |s| ensures s[k] != '\n' {
        assert s[k] == if k < |n| then n[k] else if k < |n| + 3 then " = "[k - |n|] else item.value[k - |n| - 3];
      }
    }
  }

  lemma {:induction false} TextsAreOneLine(items: List<Item>)
    requires ItemsOk(items)
    ensures AllOneLine(Texts(items))
  {
    if items.Cons? {
      ItemIsOneLine(items.head);
      TextsAreOneLine(items.tail);
    }
  }
}
