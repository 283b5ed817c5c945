/**
 * Which ranges a fabric payload may route: private ones, not this server's own, peers equal
 * or disjoint, LAN routes disjoint. A range text that is no valid literal is `None`.
 */
module FabricPolicy {
  import opened Prelude
  import opened Cidr

  /** The block of this family whose first `prefix` bits are `top`. */
  function Block(version: int, top: nat, prefix: nat): Range
    requires (version == 4 || version == 6) && prefix <= Width(version) && top < Pow2(prefix)
  {
    BlockAligned(Width(version), top, prefix);
    Range(version, top * Pow2(Width(version) - prefix), prefix)
  }

  lemma BlockAligned(w: nat, top: nat, prefix: nat)
    requires prefix <= w && top < Pow2(prefix)
    ensures (top * Pow2(w - prefix)) % Pow2(w - prefix) == 0
    ensures top * Pow2(w - prefix) + Pow2(w - prefix) <= Pow2(w)
  {
    var s := Pow2(w - prefix);
    ModOfMultiple(top, s);
    Pow2Divides(w - prefix, w);
    MulGap(top, Pow2(prefix), s);
  }

  /**
   * The private blocks: 10/8, 172.16/12 and 192.168/16 (section 3 of RFC 1918), 100.64/10
   * (section 7 of RFC 6598) and fc00::/7 (section 3.1 of RFC 4193).
   */
  function PrivateBlocks(): seq<Range> {
    Pow2Values();
    [Block(4, 10, 8), Block(4, 172 * 16 + 1, 12), Block(4, 192 * 256 + 168, 16), Block(4, 100 * 4 + 1, 10), Block(6, 126, 7)]
  }

  predicate InSome(r: Range, blocks: seq<Range>) {
    exists i :: 0 <= i < |blocks| && Inside(r, blocks[i])
  }

  function MinPrefix(version: int): nat {
    if version == 4 then 8 else 48
  }

  /** A range acceptable on its own. */
  predicate RangeOk(text: Option<Range>, blocks: seq<Range>) {
    text.Some? && text.value.prefix >= MinPrefix(text.value.version) && InSome(text.value, blocks)
  }

  predicate Overlaps(a: Option<Range>, b: Option<Range>) {
    a.Some? && b.Some? && Shares(a.value, b.value)
  }

  datatype LanRoute = LanRoute(range: Option<Range>, via: Option<Range>)

  /** `blocks`: what counts as private; `own`: this server's fabric address and the fabric range. */
  datatype Payload = Payload(blocks: seq<Range>, own: seq<Option<Range>>, peers: seq<seq<Option<Range>>>, lan: seq<LanRoute>)

  predicate ClaimsOwn(text: Option<Range>, own: seq<Option<Range>>) {
    exists i :: 0 <= i < |own| && Overlaps(text, own[i])
  }

  /** Two ranges overlap, but neither is the other. */
  predicate Clash(a: Option<Range>, b: Option<Range>) {
    Overlaps(a, b) && !(Inside(a.value, b.value) && Inside(b.value, a.value))
  }

  predicate Clashes(text: Option<Range>, ranges: seq<Option<Range>>) {
    exists j :: 0 <= j < |ranges| && Clash(text, ranges[j])
  }

  predicate PeerRangeOk(payload: Payload, p: nat, i: nat)
    requires p < |payload.peers| && i < |payload.peers[p]|
  {
    var text := payload.peers[p][i];
    && RangeOk(text, payload.blocks)
    && !ClaimsOwn(text, payload.own)
    && forall q :: 0 <= q < p ==> !Clashes(text, payload.peers[q])
  }

  predicate PeersOk(payload: Payload) {
    forall p: nat, i: nat :: p < |payload.peers| && i < |payload.peers[p]| ==> PeerRangeOk(payload, p, i)
  }

  predicate LanRouteOk(payload: Payload, k: nat)
    requires k < |payload.lan|
  {
    var text := payload.lan[k].range;
    && RangeOk(text, payload.blocks)
    && !ClaimsOwn(text, payload.own)
    && (forall p, i :: 0 <= p < |payload.peers| && 0 <= i < |payload.peers[p]| ==> payload.peers[p][i] != text)
    && (forall j :: 0 <= j < k ==> !Overlaps(text, payload.lan[j].range))
  }

  predicate LanOk(payload: Payload) {
    forall k: nat :: k < |payload.lan| ==> LanRouteOk(payload, k)
  }

  // ---------------------------------------------------------------- the source's search loops

  /** The first range of an earlier peer that clashes. */
  method OverlapsOtherPeer(text: Option<Range>, index: nat, payload: Payload) returns (clash: Option<Range>)
    requires index < |payload.peers|
    ensures clash.None? <==> forall q :: 0 <= q < index ==> !Clashes(text, payload.peers[q])
    ensures clash.Some? ==> Overlaps(text, clash) && text != clash
  {
    for q := 0 to index
      invariant forall p :: 0 <= p < q ==> !Clashes(text, payload.peers[p])
    {
      var ranges := payload.peers[q];
      for j := 0 to |ranges|
        invariant forall i :: 0 <= i < j ==> !Clash(text, ranges[i])
      {
        if Clash(text, ranges[j]) {
          assert Clashes(text, payload.peers[q]);
          return ranges[j];
        }
      }
    }
    clash := None;
  }

  /** The first refused peer range, if any. */
  method AllowedIpsPolicyError(payload: Payload) returns (refused: Option<(nat, nat)>)
    ensures refused.None? <==> PeersOk(payload)
    ensures refused.Some? ==>
      var (p, i) := refused.value;
      p < |payload.peers| && i < |payload.peers[p]| && !PeerRangeOk(payload, p, i)
  {
    for p := 0 to |payload.peers|
      invariant forall q: nat, j: nat :: q < p && j < |payload.peers[q]| ==> PeerRangeOk(payload, q, j)
    {
      for i := 0 to |payload.peers[p]|
        invariant forall j: nat :: j < i ==> PeerRangeOk(payload, p, j)
      {
        var text := payload.peers[p][i];
        if !RangeOk(text, payload.blocks) || ClaimsOwn(text, payload.own) {
          assert !PeerRangeOk(payload, p, i);
          return Some((p, i));
        }
        var clash := OverlapsOtherPeer(text, p, payload);
        if clash.Some? {
          assert !PeerRangeOk(payload, p, i);
          return Some((p, i));
        }
      }
    }
    refused := None;
  }

  /** The first refused LAN route, if any. */
  method LanRoutesPolicyError(payload: Payload) returns (refused: Option<nat>)
    ensures refused.None? <==> LanOk(payload)
    ensures refused.Some? ==> refused.value < |payload.lan| && !LanRouteOk(payload, refused.value)
  {
    for k := 0 to |payload.lan|
      invariant forall j: nat :: j < k ==> LanRouteOk(payload, j)
    {
      if !LanRouteOk(payload, k) { return Some(k); }
    }
    refused := None;
  }

  // ---------------------------------------------------------------- what an accepted payload looks like

  /** No address in common. */
  ghost predicate Disjoint(a: Range, b: Range) {
    a.version != b.version || forall x: nat :: !(HasAddress(a, x) && HasAddress(b, x))
  }

  lemma NotSharingIsDisjoint(a: Range, b: Range)
    ensures Disjoint(a, b) <==> !Shares(a, b)
  {
    NestOrDisjoint(a, b);
  }

  /** Ranges of two different peers are the same range or have no address in common. */
  lemma PeersEqualOrDisjoint(payload: Payload, p: nat, i: nat, q: nat, j: nat)
    requires PeersOk(payload) && p != q
    requires p < |payload.peers| && i < |payload.peers[p]| && q < |payload.peers| && j < |payload.peers[q]|
    ensures payload.peers[p][i].Some? && payload.peers[q][j].Some?
    ensures payload.peers[p][i] == payload.peers[q][j] || Disjoint(payload.peers[p][i].value, payload.peers[q][j].value)
  {
    assert PeerRangeOk(payload, p, i) && PeerRangeOk(payload, q, j);
    var a, b := payload.peers[p][i].value, payload.peers[q][j].value;
    NotSharingIsDisjoint(a, b);
    if Shares(a, b) {
      if q < p { assert !Clashes(Some(a), payload.peers[q]); } else { assert !Clashes(Some(b), payload.peers[p]); }
      MutualInsideIsEqual(a, b);
    }
  }

  /** LAN routes have no address in common with each other, and none is a peer's range. */
  lemma LanRoutesDisjoint(payload: Payload, k: nat, j: nat)
    requires LanOk(payload) && k < |payload.lan| && j < |payload.lan| && k != j
    ensures payload.lan[k].range.Some? && payload.lan[j].range.Some?
    ensures Disjoint(payload.lan[k].range.value, payload.lan[j].range.value)
    ensures payload.lan[k].range != payload.lan[j].range
  {
    assert LanRouteOk(payload, k) && LanRouteOk(payload, j);
    var a, b := payload.lan[k].range.value, payload.lan[j].range.value;
    NotSharingIsDisjoint(a, b);
    if j < k { assert !Overlaps(Some(a), Some(b)); } else { assert !Overlaps(Some(b), Some(a)); }
  }

  /** No accepted range is public, too broad, or meets this server's own ranges. */
  lemma AcceptedRangesArePrivate(payload: Payload, r: Range, o: nat)
    requires PeersOk(payload) && LanOk(payload)
    requires (exists p: nat, i: nat :: p < |payload.peers| && i < |payload.peers[p]| && payload.peers[p][i] == Some(r)) ||
             (exists k: nat :: k < |payload.lan| && payload.lan[k].range == Some(r))
    ensures InSome(r, payload.blocks) && r.prefix >= MinPrefix(r.version)
    ensures o < |payload.own| && payload.own[o].Some? ==> Disjoint(r, payload.own[o].value)
  {
    if k: nat :| k < |payload.lan| && payload.lan[k].range == Some(r) {
      assert LanRouteOk(payload, k);
    } else {
      var p: nat, i: nat :| p < |payload.peers| && i < |payload.peers[p]| && payload.peers[p][i] == Some(r);
      assert PeerRangeOk(payload, p, i);
    }
    if o < |payload.own| && payload.own[o].Some? {
      NotSharingIsDisjoint(r, payload.own[o].value);
    }
  }

  // ---------------------------------------------------------------- blocks by their first and last address

  predicate Within(k: Range, version: int, first: nat, last: nat) {
    k.version == version && first <= k.base && Last(k) <= last
  }

  lemma BlockBounds(k: Range, version: int, top: nat, prefix: nat, size: nat)
    requires (version == 4 || version == 6) && prefix <= Width(version) && top < Pow2(prefix) && size == Pow2(Width(version) - prefix)
    ensures Inside(k, Block(version, top, prefix)) <==> Within(k, version, top * size, top * size + size - 1)
  {
  }

  lemma PowerProduct(m: nat, n: nat)
    ensures Pow2(m + n) == Pow2(m) * Pow2(n)
  {
    Pow2Divides(n, m + n);
  }

  lemma SmallSizes()
    ensures Pow2(20) == 0x10_0000 && Pow2(22) == 0x40_0000 && Pow2(24) == 0x100_0000 && Pow2(28) == 0x1000_0000
  {
    Pow2Values();
    PowerProduct(16, 4);
    PowerProduct(10, 12);
    PowerProduct(16, 8);
    PowerProduct(16, 12);
  }

  lemma LargeSizes()
    ensures Pow2(118) == 0x40_0000_0000_0000_0000_0000_0000_0000
    ensures Pow2(120) == 0x100_0000_0000_0000_0000_0000_0000_0000
    ensures Pow2(121) == 0x200_0000_0000_0000_0000_0000_0000_0000
  {
    SmallSizes();
    PowerProduct(28, 28);
    PowerProduct(56, 56);
    Pow2Values();
    PowerProduct(112, 8);
    assert Pow2(121) == 2 * Pow2(120);
    assert Pow2(120) == 4 * Pow2(118);
  }

  /** A private range that is not too broad: at least 8 bits for IPv4 and 48 for IPv6. */
  predicate IsPrivate(r: Range) {
    || (r.prefix >= 8 && (Within(r, 4, 0x0A00_0000, 0x0AFF_FFFF) || Within(r, 4, 0xAC10_0000, 0xAC1F_FFFF) ||
                          Within(r, 4, 0xC0A8_0000, 0xC0A8_FFFF) || Within(r, 4, 0x6440_0000, 0x647F_FFFF)))
    || (r.prefix >= 48 && Within(r, 6, 0xFC00_0000_0000_0000_0000_0000_0000_0000, 0xFDFF_FFFF_FFFF_FFFF_FFFF_FFFF_FFFF_FFFF))
  }

  lemma SmallBlocks(r: Range)
    ensures Pow2(8) == 256 && Pow2(10) == 1024 && Pow2(12) == 4096 && Pow2(16) == 65536
    ensures Inside(r, Block(4, 10, 8)) <==> Within(r, 4, 0x0A00_0000, 0x0AFF_FFFF)
    ensures Inside(r, Block(4, 172 * 16 + 1, 12)) <==> Within(r, 4, 0xAC10_0000, 0xAC1F_FFFF)
    ensures Inside(r, Block(4, 192 * 256 + 168, 16)) <==> Within(r, 4, 0xC0A8_0000, 0xC0A8_FFFF)
    ensures Inside(r, Block(4, 100 * 4 + 1, 10)) <==> Within(r, 4, 0x6440_0000, 0x647F_FFFF)
  {
    Pow2Values();
    SmallSizes();
    BlockBounds(r, 4, 10, 8, 0x100_0000);
    BlockBounds(r, 4, 172 * 16 + 1, 12, 0x10_0000);
    BlockBounds(r, 4, 192 * 256 + 168, 16, 0x1_0000);
    BlockBounds(r, 4, 100 * 4 + 1, 10, 0x40_0000);
  }

  lemma LargeBlock(r: Range)
    ensures Pow2(7) == 128
    ensures Inside(r, Block(6, 126, 7)) <==>
      Within(r, 6, 0xFC00_0000_0000_0000_0000_0000_0000_0000, 0xFDFF_FFFF_FFFF_FFFF_FFFF_FFFF_FFFF_FFFF)
  {
    Pow2Values();
    LargeSizes();
    BlockBounds(r, 6, 126, 7, 0x200_0000_0000_0000_0000_0000_0000_0000);
  }

  lemma InPrivateBlocks(r: Range)
    ensures InSome(r, PrivateBlocks()) <==>
      || Within(r, 4, 0x0A00_0000, 0x0AFF_FFFF) || Within(r, 4, 0xAC10_0000, 0xAC1F_FFFF)
      || Within(r, 4, 0xC0A8_0000, 0xC0A8_FFFF) || Within(r, 4, 0x6440_0000, 0x647F_FFFF)
      || Within(r, 6, 0xFC00_0000_0000_0000_0000_0000_0000_0000, 0xFDFF_FFFF_FFFF_FFFF_FFFF_FFFF_FFFF_FFFF)
  {
    SmallBlocks(r);
    LargeBlock(r);
    InFive(r, PrivateBlocks());
  }

  lemma InFive(r: Range, blocks: seq<Range>)
    requires |blocks| == 5
    ensures InSome(r, blocks) <==>
      Inside(r, blocks[0]) || Inside(r, blocks[1]) || Inside(r, blocks[2]) || Inside(r, blocks[3]) || Inside(r, blocks[4])
  {
  }

  /** The range policy accepts exactly the private ranges that are not too broad. */
  lemma RangeOkExactly(r: Range)
    ensures RangeOk(Some(r), PrivateBlocks()) <==> IsPrivate(r)
  {
    InPrivateBlocks(r);
  }

  lemma PrivateAddress(r: Range, a: nat)
    requires IsPrivate(r) && HasAddress(r, a)
    ensures r.version == 4 ==>
      0x0A00_0000 <= a <= 0x0AFF_FFFF || 0xAC10_0000 <= a <= 0xAC1F_FFFF || 0xC0A8_0000 <= a <= 0xC0A8_FFFF || 0x6440_0000 <= a <= 0x647F_FFFF
    ensures r.version == 6 ==> 0xFC00_0000_0000_0000_0000_0000_0000_0000 <= a <= 0xFDFF_FFFF_FFFF_FFFF_FFFF_FFFF_FFFF_FFFF
  {
  }

  /** No address of an accepted range is outside 10/8, 172.16/12, 192.168/16, 100.64/10 and fc00::/7. */
  lemma AcceptedAddressesArePrivate(payload: Payload, r: Range, a: nat)
    requires PeersOk(payload) && LanOk(payload) && payload.blocks == PrivateBlocks() && HasAddress(r, a)
    requires (exists p: nat, i: nat :: p < |payload.peers| && i < |payload.peers[p]| && payload.peers[p][i] == Some(r)) ||
             (exists k: nat :: k < |payload.lan| && payload.lan[k].range == Some(r))
    ensures r.version == 4 ==>
      0x0A00_0000 <= a <= 0x0AFF_FFFF || 0xAC10_0000 <= a <= 0xAC1F_FFFF || 0xC0A8_0000 <= a <= 0xC0A8_FFFF || 0x6440_0000 <= a <= 0x647F_FFFF
    ensures r.version == 6 ==> 0xFC00_0000_0000_0000_0000_0000_0000_0000 <= a <= 0xFDFF_FFFF_FFFF_FFFF_FFFF_FFFF_FFFF_FFFF
  {
    AcceptedRangesArePrivate(payload, r, 0);
    RangeOkExactly(r);
    PrivateAddress(r, a);
  }

  // ---------------------------------------------------------------- exactly what is accepted

  /** A valid range, private and not too broad, with no address of this server's own ranges. */
  ghost predicate Routable(text: Option<Range>, own: seq<Option<Range>>) {
    text.Some? && IsPrivate(text.value) && forall o :: 0 <= o < |own| && own[o].Some? ==> Disjoint(text.value, own[o].value)
  }

  ghost predicate EqualOrDisjoint(a: Option<Range>, b: Option<Range>) {
    a.Some? && b.Some? ==> a == b || Disjoint(a.value, b.value)
  }

  lemma RoutableExactly(text: Option<Range>, own: seq<Option<Range>>)
    ensures Routable(text, own) <==> RangeOk(text, PrivateBlocks()) && !ClaimsOwn(text, own)
  {
    if text.Some? {
      RangeOkExactly(text.value);
      forall o | 0 <= o < |own| && own[o].Some? ensures Disjoint(text.value, own[o].value) <==> !Overlaps(text, own[o]) {
        NotSharingIsDisjoint(text.value, own[o].value);
      }
    }
  }

  lemma NoClashExactly(a: Option<Range>, b: Option<Range>)
    ensures !Clash(a, b) <==> EqualOrDisjoint(a, b)
  {
    if a.Some? && b.Some? {
      NotSharingIsDisjoint(a.value, b.value);
      if Inside(a.value, b.value) && Inside(b.value, a.value) { MutualInsideIsEqual(a.value, b.value); }
    }
  }

  /** A peer's range is routable, and equal to or disjoint from every range of the peers before. */
  ghost predicate PeerRoutable(payload: Payload, p: nat, i: nat)
    requires p < |payload.peers| && i < |payload.peers[p]|
  {
    && Routable(payload.peers[p][i], payload.own)
    && forall q, j :: 0 <= q < p && 0 <= j < |payload.peers[q]| ==> EqualOrDisjoint(payload.peers[p][i], payload.peers[q][j])
  }

  lemma PeerRangeOkExactly(payload: Payload, p: nat, i: nat)
    requires payload.blocks == PrivateBlocks() && p < |payload.peers| && i < |payload.peers[p]|
    ensures PeerRangeOk(payload, p, i) <==> PeerRoutable(payload, p, i)
  {
    var text := payload.peers[p][i];
    RoutableExactly(text, payload.own);
    forall q, j | 0 <= q < p && 0 <= j < |payload.peers[q]|
      ensures EqualOrDisjoint(text, payload.peers[q][j]) <==> !Clash(text, payload.peers[q][j])
    {
      NoClashExactly(text, payload.peers[q][j]);
    }
  }

  /** The peer policy accepts exactly the payloads whose peer ranges are so. */
  lemma PeersOkExactly(payload: Payload)
    requires payload.blocks == PrivateBlocks()
    ensures PeersOk(payload) <==> forall p: nat, i: nat :: p < |payload.peers| && i < |payload.peers[p]| ==> PeerRoutable(payload, p, i)
  {
    forall p: nat, i: nat | p < |payload.peers| && i < |payload.peers[p]| ensures PeerRangeOk(payload, p, i) <==> PeerRoutable(payload, p, i) {
      PeerRangeOkExactly(payload, p, i);
    }
  }

  /** A LAN route is routable, disjoint from the ones before it, and no peer's range. */
  ghost predicate LanRoutable(payload: Payload, k: nat)
    requires k < |payload.lan|
  {
    var text := payload.lan[k].range;
    && Routable(text, payload.own)
    && (forall j :: 0 <= j < k && payload.lan[j].range.Some? ==> Disjoint(text.value, payload.lan[j].range.value))
    && (forall p, i :: 0 <= p < |payload.peers| && 0 <= i < |payload.peers[p]| ==> payload.peers[p][i] != text)
  }

  lemma LanRouteOkExactly(payload: Payload, k: nat)
    requires payload.blocks == PrivateBlocks() && k < |payload.lan|
    ensures LanRouteOk(payload, k) <==> LanRoutable(payload, k)
  {
    var text := payload.lan[k].range;
    RoutableExactly(text, payload.own);
    if text.Some? {
      forall j | 0 <= j < k && payload.lan[j].range.Some?
        ensures Disjoint(text.value, payload.lan[j].range.value) <==> !Overlaps(text, payload.lan[j].range)
      {
        NotSharingIsDisjoint(text.value, payload.lan[j].range.value);
      }
    }
  }

  /** The LAN policy accepts exactly the payloads whose LAN routes are so. */
  lemma LanOkExactly(payload: Payload)
    requires payload.blocks == PrivateBlocks()
    ensures LanOk(payload) <==> forall k :: 0 <= k < |payload.lan| ==> LanRoutable(payload, k)
  {
    forall k: nat | k < |payload.lan| ensures LanRouteOk(payload, k) <==> LanRoutable(payload, k) {
      LanRouteOkExactly(payload, k);
    }
  }
}
