/**
 * What the outbox keeps and for how long: the retention bound over unconfirmed outcomes, the
 * times it goes by, and what an attach leaves behind.
 */
module OutboxRetention {
  import opened Prelude
  import opened OutboxBook
  import opened OutboxSession

  const UNACKED_RETENTION_MS := 7 * 24 * 60 * 60 * 1000
  const UNACKED_MAX_ENTRIES := 64

  /** The oldest of `ids` by `when`; any of them when several are as old. */
  method PickOldest(ids: set<Id>, when_: map<Id, Option<int>>) returns (oldest: Id)
    requires ids != {} && ids <= when_.Keys
    ensures oldest in ids
    ensures forall id :: id in ids ==> NotNewer(when_[oldest], when_[id])
    ensures when_[oldest].Some? ==> forall id :: id in ids ==> when_[id].Some? && when_[oldest].value <= when_[id].value
  {
    oldest :| oldest in ids;
    var rest := ids - {oldest};
    while rest != {}
      invariant rest <= ids && oldest in ids
      invariant forall id :: id in ids - rest ==> NotNewer(when_[oldest], when_[id])
      decreases rest
    {
      var id :| id in rest;
      rest := rest - {id};
      if !NotNewer(when_[oldest], when_[id]) { oldest := id; }
    }
  }

  predicate Stale(recorded: Option<int>, now: int) {
    recorded.Some? && recorded.value < now - UNACKED_RETENTION_MS
  }

  /** `id` is dropped when it is stale; else only beyond the entry cap, and as one of the oldest. */
  ghost predicate RightlyDropped(recorded: map<Id, Option<int>>, now: int, drop: set<Id>, id: Id) {
    && (id in recorded && Stale(recorded[id], now) ==> id in drop)
    && (id in drop && !(id in recorded && Stale(recorded[id], now)) ==>
          && id in recorded && |recorded.Keys - drop| == UNACKED_MAX_ENTRIES
          && forall k :: k in recorded && k !in drop ==> NotNewer(recorded[id], recorded[k]))
  }

  /**
   * What the retention bound drops: everything stale, and beyond the entry cap the oldest of
   * the rest, no more of them than needed.
   */
  ghost function RuleOf(recorded: map<Id, Option<int>>, now: int, drop: set<Id>): Health {
    if forall id :: RightlyDropped(recorded, now, drop, id) then Sound else Broken
  }

  /** The rule in numbers: seven days in milliseconds, and 64 entries. */
  lemma RuleIs(recorded: map<Id, Option<int>>, now: int, drop: set<Id>, id: Id)
    requires RuleOf(recorded, now, drop) == Sound && id in recorded
    ensures recorded[id].Some? && now - recorded[id].value > 604_800_000 ==> id in drop
    ensures id in drop && (recorded[id].Some? ==> now - recorded[id].value <= 604_800_000) ==>
      |recorded.Keys - drop| == 64 &&
      forall k :: k in recorded && k !in drop ==> recorded[id].None? || (recorded[k].Some? && recorded[id].value <= recorded[k].value)
  {
    assert RightlyDropped(recorded, now, drop, id);
  }

  method ChooseDrops(recorded: map<Id, Option<int>>, now: int) returns (drop: set<Id>)
    ensures RuleOf(recorded, now, drop) == Sound
    ensures drop <= recorded.Keys && |recorded.Keys - drop| <= UNACKED_MAX_ENTRIES
  {
    var rest := set id | id in recorded && !Stale(recorded[id], now);
    ghost var fresh_ := rest;
    drop := recorded.Keys - rest;
    assert recorded.Keys - drop == rest;
    while |rest| > UNACKED_MAX_ENTRIES
      invariant rest <= fresh_ && drop == recorded.Keys - rest && recorded.Keys - drop == rest
      invariant rest == fresh_ || |rest| >= UNACKED_MAX_ENTRIES
      invariant forall id, k :: id in fresh_ && id !in rest && k in rest ==> NotNewer(recorded[id], recorded[k])
      decreases |rest|
    {
      var id := PickOldest(rest, recorded);
      rest, drop := rest - {id}, drop + {id};
      assert recorded.Keys - drop == rest;
    }
    forall id ensures RightlyDropped(recorded, now, drop, id) {
    }
  }

  /** The book that is left when only what is kept, journaled or sent of outcomes may change. */
  ghost predicate SameFiles(b: Book, b': Book) {
    b'.journal == b.journal && b'.frames == b.frames && Orphans(b') == Orphans(b)
  }

  /** When the outcome of a command was recorded, as the retention bound will see it. */
  function SinceOf(b: Book, kept: map<Id, int>, id: Id): Option<int> {
    if id in Orphans(b) then Some(EntryRecorded(b.journal[id]))
    else if id in kept then Some(kept[id])
    else if id in b.unacked then b.unacked[id].at
    else if id in b.held then b.held[id].at
    else None
  }

  /** What the retention bound sorts by. */
  function Recorded(b: Book, kept: map<Id, int>): map<Id, Option<int>> {
    map id | id in b.unacked :: if id in kept then Some(kept[id]) else b.unacked[id].at
  }

  /** The retention bound sees the same times. */
  ghost function TimesOf(b: Book, kept: map<Id, int>, b': Book, kept': map<Id, int>): Health {
    if forall id {:trigger SinceOf(b', kept', id)} :: SinceOf(b', kept', id) == SinceOf(b, kept, id) then Sound else Broken
  }

  lemma AdoptTimes(b: Book, kept: map<Id, int>, b': Book, kept': map<Id, int>, id: Id)
    requires id in Orphans(b) && b'.journal == b.journal && Orphans(b') == Orphans(b) - {id}
    requires kept' == kept[id := EntryRecorded(b.journal[id])]
    requires forall k :: k != id ==> At(b'.unacked, k) == At(b.unacked, k) && At(b'.held, k) == At(b.held, k)
    ensures TimesOf(b, kept, b', kept') == Sound
  {
    forall k ensures SinceOf(b', kept', k) == SinceOf(b, kept, k) {
      if k != id { assert At(b'.unacked, k) == At(b.unacked, k) && At(b'.held, k) == At(b.held, k); }
    }
  }

  /** Only files of commands in memory were rewritten. */
  lemma RewriteTimes(b: Book, kept: map<Id, int>, b': Book)
    requires Orphans(b') == Orphans(b) && b'.unacked == b.unacked && b'.held == b.held
    requires forall id :: id in Orphans(b) ==> At(b'.journal, id) == At(b.journal, id)
    ensures TimesOf(b, kept, b', kept) == Sound
  {
    forall k ensures SinceOf(b', kept, k) == SinceOf(b, kept, k) {
      if k in Orphans(b) { assert At(b'.journal, k) == At(b.journal, k); }
    }
  }

  lemma MergeTimes(b: Book, kept: map<Id, int>, b': Book)
    requires Ok(b) && SameFiles(b, b') && b'.held == map[] && b'.unacked == b.unacked + b.held
    ensures TimesOf(b, kept, b', kept) == Sound
  {
    forall k ensures SinceOf(b', kept, k) == SinceOf(b, kept, k) {
      KeptIsSendable(b, k);
    }
  }

  lemma TimesTransitive(a: Book, ka: map<Id, int>, b: Book, kb: map<Id, int>, c: Book, kc: map<Id, int>)
    requires TimesOf(a, ka, b, kb) == Sound && TimesOf(b, kb, c, kc) == Sound
    ensures TimesOf(a, ka, c, kc) == Sound
  {
    forall k ensures SinceOf(c, kc, k) == SinceOf(a, ka, k) {
      assert SinceOf(b, kb, k) == SinceOf(a, ka, k);
    }
  }

  predicate Earlier(times: map<Id, Option<int>>, i: Id, j: Id) {
    i in times && j in times && NotNewer(times[i], times[j])
  }

  /** Those sent were never sent before, or longer ago than those that wait. */
  ghost function OrderOf(times: map<Id, Option<int>>, sent: set<Id>, waiting: set<Id>): Health {
    if forall i, j {:trigger Earlier(times, i, j)} :: i in sent && j in waiting ==> Earlier(times, i, j) then Sound else Broken
  }

  lemma Picked(times: map<Id, Option<int>>, sent: set<Id>, rest: set<Id>, id: Id)
    requires OrderOf(times, sent, rest) == Sound && id in rest && rest <= times.Keys
    requires forall k :: k in rest ==> NotNewer(times[id], times[k])
    ensures OrderOf(times, sent + {id}, rest - {id}) == Sound
  {
    forall i, j | i in sent + {id} && j in rest - {id} ensures Earlier(times, i, j) {
      if i in sent { assert Earlier(times, i, j); }
    }
  }

  /** Of what is due these were sent, in order, and the rest is to come. */
  ghost function TurnsOf(times: map<Id, Option<int>>, due: set<Id>, sent: set<Id>, rest: set<Id>): Health {
    if sent <= due <= times.Keys && rest == due - sent && OrderOf(times, sent, rest) == Sound then Sound else Broken
  }

  lemma NextTurn(times: map<Id, Option<int>>, due: set<Id>, sent: set<Id>, rest: set<Id>, id: Id)
    requires TurnsOf(times, due, sent, rest) == Sound && id in rest
    requires forall k :: k in rest ==> NotNewer(times[id], times[k])
    ensures TurnsOf(times, due, sent + {id}, rest - {id}) == Sound
  {
    Picked(times, sent, rest, id);
  }

  /** Why the retention bound dropped an outcome: it was too old, or the entry cap is reached. */
  ghost predicate DroppedFor(b: Book, kept: map<Id, int>, now: int, after: map<Id, Outcome>, id: Id) {
    Stale(SinceOf(b, kept, id), now) || |after.Keys| == UNACKED_MAX_ENTRIES
  }

  /** Nothing is dropped for another reason. */
  ghost function DropsOf(b: Book, kept: map<Id, int>, now: int, dropped: set<Id>, after: map<Id, Outcome>, dropped': set<Id>): Health {
    if dropped <= dropped' && forall id {:trigger DroppedFor(b, kept, now, after, id)} ::
         id in dropped' && id !in dropped ==> DroppedFor(b, kept, now, after, id)
    then Sound else Broken
  }

  /** What is kept, held or left by a dead daemon is unconfirmed now with the answer owed, unless it was dropped. */
  ghost function KeptOf(b: Book, after: map<Id, Outcome>, dropped: set<Id>): Health {
    if && after.Keys <= b.unacked.Keys + b.held.Keys + Orphans(b) <= after.Keys + dropped
       && forall id {:trigger Owed(b, id)} :: id in after ==> after[id].answer == Owed(b, id)
    then Sound else Broken
  }

  lemma AllKept(b: Book, b': Book)
    requires b.held == map[] && b'.unacked.Keys == b.unacked.Keys + Orphans(b) && OwedOf(b, b', b'.unacked.Keys) == Sound
    ensures KeptOf(b, b'.unacked, {}) == Sound
  {
    assert b'.unacked.Keys == b.unacked.Keys + b.held.Keys + Orphans(b);
    forall id | id in b'.unacked ensures b'.unacked[id].answer == Owed(b, id) { assert Owed(b', id) == Owed(b, id); }
  }

  lemma KeptButDropped(b: Book, was: map<Id, Outcome>, drop: set<Id>, dropped: set<Id>)
    requires KeptOf(b, was, {}) == Sound
    ensures KeptOf(b, was - drop, dropped + drop) == Sound
  {
  }

  /** What is kept is owed. */
  lemma KeptOwed(b: Book, b': Book, dropped: set<Id>)
    requires KeptOf(b, b'.unacked, dropped) == Sound
    ensures OwedOf(b, b', b'.unacked.Keys) == Sound
  {
    forall id | id in b'.unacked ensures Owed(b', id) == Owed(b, id) { }
  }

  /** What was marked since. */
  function Newly(s: Session, s': Session): set<Id> {
    s'.sentOn.Keys - s.sentOn.Keys
  }

  /**
   * Of the unconfirmed outcomes not marked before, as many were sent as the session carries, each
   * once and with the answer owed, and these are marked now.
   */
  ghost function OutOf(b: Book, s: Session, b': Book, s': Session, sends: nat -> bool, t: nat): Health {
    TheseOut(b, s, b', s', sends, t, Newly(s, s'))
  }

  ghost function TheseOut(b: Book, s: Session, b': Book, s': Session, sends: nat -> bool, t: nat, sent: set<Id>): Health {
    if && sent <= b'.unacked.Keys && SaidOf(b', |b.frames|, b, sent) == Sound
       && SpentOf(b, s, b', s', sent) == Sound && |b.frames| <= |b'.frames| && Carries(s, sends, t, Grown(b, b'))
       && (sent == b'.unacked.Keys - s.sentOn.Keys || !Carries(s, sends, t, Grown(b, b') + 1))
    then Sound else Broken
  }

  /** When the session carries them, every unconfirmed outcome not marked before was sent. */
  lemma AllOut(b: Book, s: Session, b': Book, s': Session, sends: nat -> bool, t: nat, n: nat)
    requires OutOf(b, s, b', s', sends, t) == Sound && Carries(s, sends, t, n) && |b'.unacked.Keys| <= n
    ensures SaidOf(b', |b.frames|, b, b'.unacked.Keys - s.sentOn.Keys) == Sound
  {
    Fewer(Newly(s, s'), b'.unacked.Keys);
    CountSent(b, s, b', s', Newly(s, s'));
    CarriesAll(s, sends, t, n, Grown(b, b'));
  }

  lemma Fewer(a: set<Id>, b: set<Id>)
    requires a <= b
    ensures |a| <= |b| && (a != b ==> |a| < |b|)
  {
    assert b == a + (b - a);
    if a != b {
      var id :| id in b - a;
      assert |b - a| > 0;
    }
  }

  /** All that is kept, and on an open socket what a dead daemon left. */
  function Unsettled(b: Book, open: bool): set<Id> {
    b.unacked.Keys + b.held.Keys + if open then Orphans(b) else {}
  }

  lemma PrunedFor(b: Book, kept: map<Id, int>, was: Book, kept': map<Id, int>, now: int, drop: set<Id>, dropped: set<Id>)
    requires TimesOf(b, kept, was, kept') == Sound && RuleOf(Recorded(was, kept'), now, drop) == Sound
    requires Ok(was) && drop <= was.unacked.Keys
    ensures DropsOf(b, kept, now, dropped, was.unacked - drop, dropped + drop) == Sound
  {
    assert Recorded(was, kept').Keys - drop == (was.unacked - drop).Keys;
    forall id | id in drop ensures DroppedFor(b, kept, now, was.unacked - drop, id) {
      assert SinceOf(was, kept', id) == SinceOf(b, kept, id);
      assert RightlyDropped(Recorded(was, kept'), now, drop, id);
    }
  }

  lemma SomeResent(b: Book, b1: Book, b': Book, s: Session, s': Session, sends: nat -> bool, t: nat, t': nat, sent: set<Id>)
    requires SentOf(b1, s, b', s', sent) == Sound && OwedOf(b, b1, b1.unacked.Keys) == Sound && b1.frames == b.frames
    requires sent <= ToResend(b1, s, None) && RunOf(s, sends, t, t', Grown(b1, b'), sent == ToResend(b1, s, None)) == Sound
    ensures OutOf(b, s, b', s', sends, t) == Sound
  {
    DueUnmarked(b1, s);
    NewlySent(b, b1, s, b', s', sent);
  }

  lemma NothingDue(b: Book, s: Session)
    requires b.unacked == map[]
    ensures ToResend(b, s, None) == {}
  {
  }

  lemma NothingLeft(m: map<Id, Outcome>, drop: set<Id>, dropped: set<Id>)
    requires m == map[] && drop <= m.Keys
    ensures drop == {} && m - drop == map[] && dropped + drop == dropped
  {
  }

  lemma DueUnmarked(b: Book, s: Session)
    ensures ToResend(b, s, None) == b.unacked.Keys - s.sentOn.Keys
  {
  }

  lemma NewlySent(b: Book, b1: Book, s: Session, b': Book, s': Session, sent: set<Id>)
    requires SentOf(b1, s, b', s', sent) == Sound && sent <= b1.unacked.Keys && sent !! s.sentOn.Keys
    requires OwedOf(b, b1, b1.unacked.Keys) == Sound && b1.frames == b.frames
    ensures Newly(s, s') == sent && SaidOf(b', |b.frames|, b, sent) == Sound
    ensures SpentOf(b, s, b', s', sent) == Sound && |b.frames| <= |b'.frames| && b'.unacked == b1.unacked && Grown(b1, b') == Grown(b, b')
  {
    assert OwedOf(b, b1, sent) == Sound;
    SaidSame(b', |b1.frames|, |b.frames|, b1, b, sent);
    SpentSame(b, b1, s, b', s', sent);
  }

  lemma SpentSame(b: Book, b1: Book, s: Session, b': Book, s': Session, sent: set<Id>)
    requires SpentOf(b1, s, b', s', sent) == Sound && b1.frames == b.frames
    ensures SpentOf(b, s, b', s', sent) == Sound
  {
  }

  /** Held outcomes that became unconfirmed ones are owed the same. */
  lemma MergedOwed(b: Book, b': Book, id: Id)
    requires Ok(b) && b'.journal == b.journal && b'.held == map[] && b'.unacked == b.unacked + b.held
    ensures Owed(b', id) == Owed(b, id)
  {
    KeptIsSendable(b, id);
  }

  lemma NoDrops(b: Book, kept: map<Id, int>, now: int, dropped: set<Id>, after: map<Id, Outcome>)
    ensures DropsOf(b, kept, now, dropped, after, dropped) == Sound
  {
  }

  lemma DropsMerged(b: Book, kept: map<Id, int>, b': Book, now: int, dropped: set<Id>, after: map<Id, Outcome>, dropped': set<Id>)
    requires TimesOf(b, kept, b', kept) == Sound && DropsOf(b', kept, now, dropped, after, dropped') == Sound
    ensures DropsOf(b, kept, now, dropped, after, dropped') == Sound
  {
    forall id | id in dropped' && id !in dropped ensures DroppedFor(b, kept, now, after, id) {
      assert DroppedFor(b', kept, now, after, id) && SinceOf(b', kept, id) == SinceOf(b, kept, id);
    }
  }

  /** At most 64 outcomes are unconfirmed, all that was kept or left by a dead daemon but for what the bound dropped. */
  ghost function BoundedOf(b: Book, kept: map<Id, int>, now: int, dropped: set<Id>, b': Book, dropped': set<Id>): Health {
    if && |b'.unacked.Keys| <= UNACKED_MAX_ENTRIES && Orphans(b') <= dropped'
       && KeptOf(b, b'.unacked, dropped') == Sound && DropsOf(b, kept, now, dropped, b'.unacked, dropped') == Sound
    then Sound else Broken
  }

  /**
   * What an open attach leaves a control plane that confirms: at most 64 outcomes, all that was
   * kept or left by a dead daemon but for what the retention bound dropped, and sent on this
   * socket as far as the window allows; and no file without an answer but for dropped ones whose
   * removal failed.
   */
  ghost function ServedOf(b: Book, kept: map<Id, int>, dropped: set<Id>, s: Session, sends: nat -> bool, t: nat,
                          b': Book, dropped': set<Id>, s': Session): Health {
    if && BoundedOf(b, kept, s.clock, dropped, b', dropped') == Sound
       && OutOf(b, s, b', s', sends, t) == Sound
    then Sound else Broken
  }

  lemma BoundedPruned(b: Book, kept: map<Id, int>, now: int, dropped: set<Id>, was: Book, kept': map<Id, int>, drop: set<Id>, b': Book)
    requires TimesOf(b, kept, was, kept') == Sound && RuleOf(Recorded(was, kept'), now, drop) == Sound
    requires Ok(was) && drop <= was.unacked.Keys && KeptOf(b, was.unacked, {}) == Sound
    requires b'.unacked == was.unacked - drop && |b'.unacked.Keys| <= UNACKED_MAX_ENTRIES && Orphans(b') <= dropped + drop
    ensures BoundedOf(b, kept, now, dropped, b', dropped + drop) == Sound
  {
    PrunedFor(b, kept, was, kept', now, drop, dropped);
    KeptButDropped(b, was.unacked, drop, dropped);
  }

  /** What an attach of a control plane that confirms leaves; on a socket that is not open, held outcomes just wait for it. */
  ghost function ConfirmingOf(b: Book, kept: map<Id, int>, dropped: set<Id>, s: Session, open: bool, sends: nat -> bool, t: nat,
                              b': Book, dropped': set<Id>, s': Session): Health {
    if && b'.held == map[]
       && (open ==> ServedOf(b, kept, dropped, s, sends, t, b', dropped', s') == Sound)
       && (!open ==> dropped' == dropped && b'.unacked == b.unacked + b.held)
    then Sound else Broken
  }

  /** On a new socket with the room, everything is sent. */
  lemma ServedAll(b: Book, kept: map<Id, int>, dropped: set<Id>, s: Session, ws: nat, now: int, sends: nat -> bool, t: nat,
                  b': Book, dropped': set<Id>, s': Session)
    requires ServedOf(b, kept, dropped, Using(AtTime(s, now), ws), sends, t, b', dropped', s') == Sound
    ensures NewSocket(s, ws, sends, t, Unsettled(b, true)) ==> SaidOf(b', |b.frames|, b, b'.unacked.Keys) == Sound
  {
    var ids := Unsettled(b, true);
    if NewSocket(s, ws, sends, t, ids) {
      NewSocketCarries(s, now, ws, sends, t, ids);
      BoundedKeys(b, kept, Using(AtTime(s, now), ws).clock, dropped, b', dropped');
      AllOutFresh(b, Using(AtTime(s, now), ws), b', s', sends, t, ids);
    }
  }

  lemma BoundedKeys(b: Book, kept: map<Id, int>, now: int, dropped: set<Id>, b': Book, dropped': set<Id>)
    requires BoundedOf(b, kept, now, dropped, b', dropped') == Sound
    ensures b'.unacked.Keys <= Unsettled(b, true)
  {
  }

  lemma AllOutFresh(b: Book, s: Session, b': Book, s': Session, sends: nat -> bool, t: nat, ids: set<Id>)
    requires OutOf(b, s, b', s', sends, t) == Sound && Carries(s, sends, t, |ids|) && b'.unacked.Keys <= ids && s.sentOn == map[]
    ensures SaidOf(b', |b.frames|, b, b'.unacked.Keys) == Sound
  {
    Fewer(b'.unacked.Keys, ids);
    AllOut(b, s, b', s', sends, t, |ids|);
    assert b'.unacked.Keys - s.sentOn.Keys == b'.unacked.Keys;
  }

  lemma ServedSent(b: Book, kept: map<Id, int>, dropped: set<Id>, s: Session, sends: nat -> bool, t: nat,
                   b1: Book, b': Book, dropped': set<Id>, s': Session, t': nat, sent: set<Id>)
    requires BoundedOf(b, kept, s.clock, dropped, b1, dropped') == Sound
    requires SentOf(b1, s, b', s', sent) == Sound && b1.frames == b.frames
    requires sent <= ToResend(b1, s, None) && RunOf(s, sends, t, t', Grown(b1, b'), sent == ToResend(b1, s, None)) == Sound
    ensures ServedOf(b, kept, dropped, s, sends, t, b', dropped', s') == Sound
  {
    KeptOwed(b, b1, dropped');
    SomeResent(b, b1, b', s, s', sends, t, t', sent);
    BoundedSame(b, kept, s.clock, dropped, b1, b', dropped');
  }

  /** The bound does not see frames. */
  lemma BoundedSame(b: Book, kept: map<Id, int>, now: int, dropped: set<Id>, b1: Book, b': Book, dropped': set<Id>)
    requires BoundedOf(b, kept, now, dropped, b1, dropped') == Sound && b'.(frames := b1.frames) == b1
    ensures BoundedOf(b, kept, now, dropped, b', dropped') == Sound
  {
    assert b'.unacked == b1.unacked && Orphans(b') == Orphans(b1);
  }

  lemma ServedMerged(b: Book, kept: map<Id, int>, dropped: set<Id>, s: Session, sends: nat -> bool, t: nat,
                     b1: Book, b': Book, dropped': set<Id>, s': Session)
    requires Ok(b) && SameFiles(b, b1) && b1.held == map[] && b1.unacked == b.unacked + b.held
    requires ServedOf(b1, kept, dropped, s, sends, t, b', dropped', s') == Sound
    ensures ServedOf(b, kept, dropped, s, sends, t, b', dropped', s') == Sound
  {
    MergeTimes(b, kept, b1);
    DropsMerged(b, kept, b1, s.clock, dropped, b'.unacked, dropped');
    KeptMerged(b, b1, b'.unacked, dropped');
    OutMerged(b, b1, s, b', s', sends, t);
  }

  lemma KeptMerged(b: Book, b1: Book, after: map<Id, Outcome>, dropped: set<Id>)
    requires Ok(b) && SameFiles(b, b1) && b1.held == map[] && b1.unacked == b.unacked + b.held
    requires KeptOf(b1, after, dropped) == Sound
    ensures KeptOf(b, after, dropped) == Sound
  {
    assert b1.unacked.Keys + b1.held.Keys == b.unacked.Keys + b.held.Keys;
    forall id | id in after ensures after[id].answer == Owed(b, id) { MergedOwed(b, b1, id); }
  }

  lemma OutMerged(b: Book, b1: Book, s: Session, b': Book, s': Session, sends: nat -> bool, t: nat)
    requires Ok(b) && SameFiles(b, b1) && b1.held == map[] && b1.unacked == b.unacked + b.held
    requires OutOf(b1, s, b', s', sends, t) == Sound
    ensures OutOf(b, s, b', s', sends, t) == Sound
  {
    forall id ensures Owed(b1, id) == Owed(b, id) { MergedOwed(b, b1, id); }
    SaidSame(b', |b1.frames|, |b.frames|, b1, b, Newly(s, s'));
    SpentSame(b, b1, s, b', s', Newly(s, s'));
  }

  /** `m` less what was taken of `drop` when `rest` of it is left. */
  function Without(m: map<Id, Outcome>, drop: set<Id>, rest: set<Id>): map<Id, Outcome> {
    m - (drop - rest)
  }

  function With(base: set<Id>, drop: set<Id>, rest: set<Id>): set<Id> {
    base + (drop - rest)
  }

  lemma OneLess(m: map<Id, Outcome>, base: set<Id>, drop: set<Id>, rest: set<Id>, id: Id)
    requires id in rest && rest <= drop <= m.Keys
    ensures Without(m, drop, rest - {id}) == Without(m, drop, rest) - {id} && id in Without(m, drop, rest)
    ensures With(base, drop, rest - {id}) == With(base, drop, rest) + {id}
  {
  }
}
