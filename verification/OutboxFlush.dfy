/**
 * Letting go of held outcomes: what a flush sends and leaves, what an older control plane is
 * given when it attaches, and what the resend timer sends and leaves.
 */
module OutboxFlush {
  import opened Prelude
  import opened OutboxBook
  import opened OutboxSession
  import opened OutboxRetention
  import opened Pacing

  /** No file appears or changes, and only these may go. */
  ghost function FilesOf(b: Book, b': Book, ids: set<Id>): Health {
    if && b'.journal.Keys <= b.journal.Keys <= b'.journal.Keys + ids
       && forall id {:trigger b'.journal[id]} :: id in b'.journal ==> b'.journal[id] == b.journal[id]
    then Sound else Broken
  }

  /** If some are still held, one of them is not marked. */
  ghost function RestOf(held: set<Id>, s: Session): Health {
    if held == {} || !(held <= s.sentOn.Keys) then Sound else Broken
  }

  /** Held outcomes went out and were let go of, and their files were removed or not; if some are still held, one is not marked. */
  ghost function FlushOf(b: Book, s: Session, b': Book, s': Session): Health {
    if var done := b.held.Keys - b'.held.Keys;
       && b'.held == b.held - done && b'.unacked == b.unacked && Steady(b, b') && FilesOf(b, b', done) == Sound
       && WireOf(b, s, b', s', done - s.sentOn.Keys) == Sound && RestOf(b'.held.Keys, s') == Sound
    then Sound else Broken
  }

  lemma DoneKeys(held: map<Id, Outcome>, done: set<Id>)
    requires done <= held.Keys
    ensures held.Keys - (held - done).Keys == done
  {
  }

  lemma FlushRemoved(b: Book, s: Session, b1: Book, b': Book, s': Session, done: set<Id>)
    requires FlushedOf(b, s, b1, s', done) == Sound && Steady(b1, b') && FilesOf(b1, b', done) == Sound
    requires b'.held == b1.held && b'.unacked == b1.unacked && b'.frames == b1.frames
    requires RestOf(b1.held.Keys, s') == Sound
    ensures done == b.held.Keys - b'.held.Keys && FlushOf(b, s, b', s') == Sound
  {
    DoneKeys(b.held, done);
    WireKept(b, s, b1, b', s', done - s.sentOn.Keys);
  }

  /** What is still held, and what a dead daemon left, is owed the same after a flush, and nothing else becomes an orphan. */
  lemma FlushOwed(b: Book, s: Session, b': Book, s': Session)
    requires Ok(b) && FlushOf(b, s, b', s') == Sound
    ensures OwedOf(b, b', b'.held.Keys + Orphans(b)) == Sound
    ensures Orphans(b) <= Orphans(b') <= Orphans(b) + (b.held.Keys - b'.held.Keys)
  {
    forall id | id in Orphans(b) ensures id in b'.journal { }
    forall id | id in b'.held.Keys + Orphans(b) ensures Owed(b', id) == Owed(b, id) {
      KeptIsSendable(b, id);
    }
    forall id | id in Orphans(b') ensures id in Orphans(b) + (b.held.Keys - b'.held.Keys) { }
  }

  /** Two stretches of sending one after the other. */
  lemma WireTwice(b: Book, s: Session, b1: Book, s1: Session, b': Book, s': Session, first: set<Id>, then_: set<Id>)
    requires WireOf(b, s, b1, s1, first) == Sound && WireOf(b1, s1, b', s', then_) == Sound && OwedOf(b, b1, then_) == Sound
    requires first !! then_
    ensures WireOf(b, s, b', s', first + then_) == Sound
  {
    SaidTwice(b, b1, b', first, then_);
    SetsTwice(Answered(b), s.sentOn.Keys, Stray(s, b), first, then_);
    SpentTwice(b, s, b1, s1, b', s', first, then_);
  }

  lemma SpentTwice(b: Book, s: Session, b1: Book, s1: Session, b': Book, s': Session, first: set<Id>, then_: set<Id>)
    requires SpentOf(b, s, b1, s1, first) == Sound && SpentOf(b1, s1, b', s', then_) == Sound && first !! then_
    requires b.frames <= b1.frames <= b'.frames
    ensures SpentOf(b, s, b', s', first + then_) == Sound
  {
    forall i | |b.frames| <= i < |b'.frames| ensures FrameFor(b'.frames, i, first + then_) {
      if i < |b1.frames| { assert FrameFor(b1.frames, i, first); } else { assert FrameFor(b'.frames, i, then_); }
    }
    forall i, j | |b.frames| <= i < j < |b'.frames| ensures OtherFrame(b'.frames, i, j) {
      if j < |b1.frames| {
        assert OtherFrame(b1.frames, i, j);
      } else if i < |b1.frames| {
        assert FrameFor(b1.frames, i, first) && FrameFor(b'.frames, j, then_);
      } else {
        assert OtherFrame(b'.frames, i, j);
      }
    }
  }

  lemma SaidTwice(b: Book, b1: Book, b': Book, first: set<Id>, then_: set<Id>)
    requires SaidOf(b1, |b.frames|, b, first) == Sound && SaidOf(b', |b1.frames|, b1, then_) == Sound && OwedOf(b, b1, then_) == Sound
    requires b.frames <= b1.frames <= b'.frames && b'.rounds == b1.rounds
    ensures SaidOf(b', |b.frames|, b, first + then_) == Sound
  {
    SaidMore(b1, b', |b.frames|, b, first);
    SaidSame(b', |b1.frames|, |b.frames|, b1, b, then_);
    SaidBoth(b', |b.frames|, b, first, then_);
  }

  lemma SetsTwice(a: set<Id>, b: set<Id>, c: set<Id>, first: set<Id>, then_: set<Id>)
    ensures a + first + then_ == a + (first + then_) && b + first + then_ == b + (first + then_)
    ensures c - first - then_ == c - (first + then_)
  {
  }

  lemma FreshTwice(released: map<Id, Frame>, released1: map<Id, Frame>, released': map<Id, Frame>, stay: nat)
    requires FreshOf(released, released1, stay) == Sound && FreshOf(released1, released', stay) == Sound
    ensures FreshOf(released, released', stay) == Sound
  {
  }

  /**
   * Since `b` and `s`, some of these were sent on the session socket, each once and with what `b`
   * owes for it, and are marked now; and all that are not held and were not marked before. If some
   * are still held, one is not marked.
   */
  ghost function GivenOf(b: Book, s: Session, b': Book, s': Session, ids: set<Id>): Health {
    TheseGiven(b, s, b', s', ids, Newly(s, s'))
  }

  ghost function TheseGiven(b: Book, s: Session, b': Book, s': Session, ids: set<Id>, sent: set<Id>): Health {
    if && sent <= ids && ids - b'.held.Keys - s.sentOn.Keys <= sent
       && b'.held.Keys <= ids && RestOf(b'.held.Keys, s') == Sound
       && b'.rounds == b.rounds && b.frames <= b'.frames && SaidOf(b', |b.frames|, b, sent) == Sound
       && SpentOf(b, s, b', s', sent) == Sound
       && s'.socket == s.socket && s'.stay == s.stay && s.sentOn.Keys <= s'.sentOn.Keys
    then Sound else Broken
  }

  lemma FlushGiven(b: Book, s: Session, b': Book, s': Session)
    requires FlushOf(b, s, b', s') == Sound
    ensures GivenOf(b, s, b', s', b.held.Keys) == Sound && Newly(s, s') == b.held.Keys - b'.held.Keys - s.sentOn.Keys
    ensures b'.held.Keys <= b.held.Keys && s'.sentOn.Keys == s.sentOn.Keys + Newly(s, s')
  {
    var sent := b.held.Keys - b'.held.Keys - s.sentOn.Keys;
    assert b'.held.Keys <= b.held.Keys;
    assert TheseGiven(b, s, b', s', b.held.Keys, sent) == Sound;
    WireNewly(b, s, b', s', sent);
  }

  lemma WireNewly(b: Book, s: Session, b': Book, s': Session, sent: set<Id>)
    requires WireOf(b, s, b', s', sent) == Sound && sent !! s.sentOn.Keys
    ensures Newly(s, s') == sent && s'.sentOn.Keys == s.sentOn.Keys + sent
  {
  }

  lemma SentStray(b: Book, s: Session, b1: Book, s1: Session, done: set<Id>, id: Id)
    requires Ok(b1) && id in b1.held && id !in s1.sentOn && FlushedOf(b, s, b1, s1, done) == Sound
    ensures id !in Stray(s, b) && s1.stay == s.stay
    ensures id !in Stray(Marked(Rolled(s1), id, true), Send(b1, id, Owed(b1, id), s1.clock, s1.stay, Paced))
  {
    KeptIsSendable(b1, id);
    MarkedStray(b1, s1, id, Owed(b1, id));
  }

  lemma WireRoom(b: Book, s: Session, b1: Book, s1: Session, sent: set<Id>)
    requires WireOf(b, s, b1, s1, sent) == Sound
    ensures s1.socket == s.socket && Room(s1) == Room(s) - Grown(b, b1) && Grown(b, b1) >= 0
  {
  }

  /** All that is kept goes out on a new socket with the room. */
  lemma AllOnNewSocket(s: Session, ws: nat, now: int, sends: nat -> bool, t: nat, t': nat, b: Book, b': Book, s': Session,
                       sent: set<Id>, ids: set<Id>)
    requires sent <= ids && RunOf(Using(AtTime(s, now), ws), sends, t, t', Grown(b, b'), sent == ids) == Sound
    requires WireOf(b, Using(AtTime(s, now), ws), b', s', sent) == Sound
    ensures NewSocket(s, ws, sends, t, ids) ==> sent == ids
  {
    if NewSocket(s, ws, sends, t, ids) {
      NewSocketCarries(s, now, ws, sends, t, ids);
      Fewer(sent, ids);
      CountSent(b, Using(AtTime(s, now), ws), b', s', sent);
      CarriesAll(Using(AtTime(s, now), ws), sends, t, |ids|, |sent|);
    }
  }

  /** Seen from before the orphans were taken up. */
  lemma GivenAdopted(b: Book, b1: Book, s: Session, b': Book, s': Session)
    requires GivenOf(b1, s, b', s', b1.held.Keys) == Sound && b1.frames == b.frames && b1.rounds == b.rounds
    requires OwedOf(b, b1, b.unacked.Keys + b.held.Keys + Orphans(b)) == Sound && b1.held.Keys == b.held.Keys + Orphans(b)
    ensures GivenOf(b, s, b', s', b.held.Keys + Orphans(b)) == Sound
  {
    assert OwedOf(b, b1, b1.held.Keys) == Sound;
    GivenSame(b, b1, s, b', s', b1.held.Keys);
  }

  /** Seen from a book that owes the same for the same commands. */
  lemma GivenSame(b: Book, b1: Book, s: Session, b': Book, s': Session, ids: set<Id>)
    requires GivenOf(b1, s, b', s', ids) == Sound && b1.frames == b.frames && b1.rounds == b.rounds && OwedOf(b, b1, ids) == Sound
    ensures GivenOf(b, s, b', s', ids) == Sound
  {
    assert OwedOf(b, b1, Newly(s, s')) == Sound;
    SaidSame(b', |b1.frames|, |b.frames|, b1, b, Newly(s, s'));
    SpentSame(b, b1, s, b', s', Newly(s, s'));
  }

  /** Files and what is unconfirmed do not matter. */
  lemma GivenKept(b: Book, s: Session, b1: Book, b2: Book, s': Session, ids: set<Id>)
    requires GivenOf(b, s, b1, s', ids) == Sound && b2.frames == b1.frames && b2.rounds == b1.rounds && b2.held == b1.held
    ensures GivenOf(b, s, b2, s', ids) == Sound
  {
    SaidMore(b1, b2, |b.frames|, b, Newly(s, s'));
    SpentKept(b, s, b1, b2, s', Newly(s, s'));
  }

  lemma SpentKept(b: Book, s: Session, b1: Book, b2: Book, s': Session, sent: set<Id>)
    requires SpentOf(b, s, b1, s', sent) == Sound && b2.frames == b1.frames
    ensures SpentOf(b, s, b2, s', sent) == Sound
  {
  }

  lemma NewlyTwice(s: Session, s1: Session, s': Session)
    requires s.sentOn.Keys <= s1.sentOn.Keys <= s'.sentOn.Keys
    ensures Newly(s, s') == Newly(s, s1) + Newly(s1, s') && Newly(s, s1) !! Newly(s1, s')
  {
  }

  /** What matters of a flush for what comes after it: nothing new is owed or an orphan, and what was let go of is marked. */
  ghost function PassedOf(b: Book, s: Session, b': Book, s': Session): Health {
    if && GivenOf(b, s, b', s', b.held.Keys) == Sound && b'.held.Keys <= b.held.Keys
       && Newly(s, s') == b.held.Keys - b'.held.Keys - s.sentOn.Keys && s'.sentOn.Keys == s.sentOn.Keys + Newly(s, s')
       && OwedOf(b, b', b'.held.Keys + Orphans(b)) == Sound
       && Orphans(b) <= Orphans(b') <= Orphans(b) + (b.held.Keys - b'.held.Keys)
    then Sound else Broken
  }

  lemma FlushPassed(b: Book, s: Session, b': Book, s': Session)
    requires Ok(b) && FlushOf(b, s, b', s') == Sound
    ensures PassedOf(b, s, b', s') == Sound
  {
    FlushGiven(b, s, b', s');
    FlushOwed(b, s, b', s');
  }

  /** After a flush, what is still held and what a dead daemon left. */
  lemma GivenAfterFlush(b: Book, s: Session, b1: Book, s1: Session, b': Book, s': Session)
    requires PassedOf(b, s, b1, s1) == Sound && GivenOf(b1, s1, b', s', b1.held.Keys + Orphans(b1)) == Sound
    ensures GivenOf(b, s, b', s', b.held.Keys + Orphans(b)) == Sound
  {
    NewlyTwice(s, s1, s');
    SpentTwice(b, s, b1, s1, b', s', Newly(s, s1), Newly(s1, s'));
    GivenLater(b, s, b1, s1, b', s');
    Covered(b.held.Keys, Orphans(b), b1.held.Keys, Orphans(b1), b'.held.Keys, s.sentOn.Keys, s1.sentOn.Keys, Newly(s, s1), Newly(s1, s'));
  }

  lemma GivenLater(b: Book, s: Session, b1: Book, s1: Session, b': Book, s': Session)
    requires PassedOf(b, s, b1, s1) == Sound && GivenOf(b1, s1, b', s', b1.held.Keys + Orphans(b1)) == Sound
    ensures Newly(s1, s') <= b1.held.Keys + Orphans(b) && SaidOf(b', |b.frames|, b, Newly(s, s1) + Newly(s1, s')) == Sound
  {
    assert b.held.Keys - b1.held.Keys <= s1.sentOn.Keys;
    assert Newly(s1, s') <= b1.held.Keys + Orphans(b);
    assert OwedOf(b, b1, Newly(s1, s')) == Sound;
    SaidTwice(b, b1, b', Newly(s, s1), Newly(s1, s'));
  }

  lemma Covered(held: set<Id>, left: set<Id>, held1: set<Id>, left1: set<Id>, held': set<Id>, marks: set<Id>, marks1: set<Id>,
                first: set<Id>, then_: set<Id>)
    requires held1 <= held && left <= left1 && first == held - held1 - marks && marks1 == marks + first
    requires then_ <= held1 + left && held1 + left1 - held' - marks1 <= then_
    requires held' <= held1 + left1 && left1 <= left + (held - held1)
    ensures first + then_ <= held + left && held + left - held' - marks <= first + then_ && held' <= held + left
  {
  }

  /**
   * What an attach leaves a control plane that does not confirm. Nothing is unconfirmed. All that
   * was kept, and on an open socket what a dead daemon left, is still held, was marked before or
   * was sent, and something is held only if the session carries no more than was sent. What is
   * released, is released by frames of this stay, and only such files are without an answer.
   */
  ghost function OlderOf(b: Book, s: Session, open: bool, sends: nat -> bool, t: nat, released: map<Id, Frame>, older: set<nat>,
                         b': Book, s': Session, released': map<Id, Frame>, older': set<nat>, lost': set<Id>): Health {
    if && b'.unacked == map[] && GivenOf(b, s, b', s', Unsettled(b, open)) == Sound
       && (b'.held == map[] || !Carries(s, sends, t, Grown(b, b') + 1))
       && older' <= older + {s'.stay} && FreshOf(released, released', s'.stay) == Sound
       && (open ==> Orphans(b') <= released'.Keys + lost')
    then Sound else Broken
  }

  /** A flush, and then the orphans. */
  lemma OlderGiven(b: Book, s: Session, b1: Book, s1: Session, b': Book, s': Session, sends: nat -> bool, t: nat, t1: nat, t': nat)
    requires b.unacked == map[] && PassedOf(b, s, b1, s1) == Sound
    requires RunOf(s, sends, t, t1, Grown(b, b1), b1.held == map[]) == Sound
    requires GivenOf(b1, s1, b', s', b1.held.Keys + Orphans(b1)) == Sound
    requires RunOf(s1, sends, t1, t', Grown(b1, b'), b'.held == map[]) == Sound
    ensures GivenOf(b, s, b', s', Unsettled(b, true)) == Sound
    ensures b'.held == map[] || !Carries(s, sends, t, Grown(b, b') + 1)
  {
    assert Unsettled(b, true) == b.held.Keys + Orphans(b);
    GivenAfterFlush(b, s, b1, s1, b', s');
    GivenRoom(b, s, b1, s1, b.held.Keys);
    GivenRoom(b1, s1, b', s', b1.held.Keys + Orphans(b1));
    RunTwice(s, sends, t, t1, Grown(b, b1), b1.held == map[], s1, t', Grown(b1, b'), b'.held == map[]);
  }

  lemma OlderSettled(b: Book, s: Session, sends: nat -> bool, t: nat, released: map<Id, Frame>, older: set<nat>,
                     b1: Book, s1: Session, t1: nat, released1: map<Id, Frame>, older1: set<nat>,
                     b': Book, s': Session, t': nat, released': map<Id, Frame>, older': set<nat>, lost': set<Id>)
    requires b.unacked == map[] && PassedOf(b, s, b1, s1) == Sound && RunOf(s, sends, t, t1, Grown(b, b1), b1.held == map[]) == Sound
    requires GivenOf(b1, s1, b', s', b1.held.Keys + Orphans(b1)) == Sound && RunOf(s1, sends, t1, t', Grown(b1, b'), b'.held == map[]) == Sound
    requires older1 <= older + {s1.stay} && older' <= older1 + {s'.stay}
    requires FreshOf(released, released1, s1.stay) == Sound && FreshOf(released1, released', s'.stay) == Sound
    requires b'.unacked == map[] && Orphans(b') <= released'.Keys + lost'
    ensures OlderOf(b, s, true, sends, t, released, older, b', s', released', older', lost') == Sound
  {
    OlderGiven(b, s, b1, s1, b', s', sends, t, t1, t');
    SameStay(b1, s1, b', s', b1.held.Keys + Orphans(b1));
    FreshTwice(released, released1, released', s'.stay);
  }

  lemma SameStay(b: Book, s: Session, b': Book, s': Session, ids: set<Id>)
    requires GivenOf(b, s, b', s', ids) == Sound
    ensures s'.stay == s.stay
  {
  }

  lemma OlderHeld(b: Book, s: Session, sends: nat -> bool, t: nat, t': nat, released: map<Id, Frame>, older: set<nat>,
                  b': Book, s': Session, released': map<Id, Frame>, older': set<nat>, lost': set<Id>)
    requires b.unacked == map[] && PassedOf(b, s, b', s') == Sound && RunOf(s, sends, t, t', Grown(b, b'), b'.held == map[]) == Sound
    requires older' <= older + {s'.stay} && FreshOf(released, released', s'.stay) == Sound && b'.unacked == map[]
    ensures OlderOf(b, s, false, sends, t, released, older, b', s', released', older', lost') == Sound
  {
    assert Unsettled(b, false) == b.held.Keys;
  }

  lemma GivenRoom(b: Book, s: Session, b': Book, s': Session, ids: set<Id>)
    requires GivenOf(b, s, b', s', ids) == Sound
    ensures s'.socket == s.socket && Room(s') == Room(s) - Grown(b, b') && Grown(b, b') >= 0
  {
  }

  lemma SameUnsettled(b: Book, b0: Book, open: bool)
    requires Orphans(b0) == Orphans(b) && b0.unacked == map[] && b0.held == b.held + b.unacked
    ensures Unsettled(b0, open) == Unsettled(b, open)
  {
  }

  lemma ReleasedOwed(b: Book, b0: Book, ids: set<Id>)
    requires Ok(b) && b0.journal == b.journal && b0.unacked == map[] && b0.held == b.held + b.unacked
    ensures OwedOf(b, b0, ids) == Sound
  {
    forall id | id in ids ensures Owed(b0, id) == Owed(b, id) { KeptIsSendable(b, id); }
  }

  lemma OlderReleased(b: Book, b0: Book, s: Session, open: bool, sends: nat -> bool, t: nat, released: map<Id, Frame>, older: set<nat>,
                      b': Book, s': Session, released': map<Id, Frame>, older': set<nat>, lost': set<Id>)
    requires Ok(b) && SameFiles(b, b0) && b0.rounds == b.rounds && b0.unacked == map[] && b0.held == b.held + b.unacked
    requires OlderOf(b0, s, open, sends, t, released, older, b', s', released', older', lost') == Sound
    ensures OlderOf(b, s, open, sends, t, released, older, b', s', released', older', lost') == Sound
  {
    SameUnsettled(b, b0, open);
    ReleasedOwed(b, b0, Unsettled(b, open));
    GivenSame(b, b0, s, b', s', Unsettled(b, open));
  }

  lemma SomeLeft(held: set<Id>, s: Session, s': Session, ids: set<Id>)
    requires held <= ids && RestOf(held, s') == Sound
    ensures held != {} ==> Newly(s, s') != ids
  {
  }

  /** When the session carries all that is to be said, nothing is held, and all that was not marked before was sent. */
  lemma AllGiven(b: Book, s: Session, b': Book, s': Session, sends: nat -> bool, t: nat, ids: set<Id>, n: nat)
    requires GivenOf(b, s, b', s', ids) == Sound && (b'.held == map[] || !Carries(s, sends, t, Grown(b, b') + 1))
    requires Carries(s, sends, t, n) && |ids| <= n
    ensures b'.held == map[] && SaidOf(b', |b.frames|, b, ids - s.sentOn.Keys) == Sound
  {
    CountSent(b, s, b', s', Newly(s, s'));
    CarriesAll(s, sends, t, n, Grown(b, b'));
    Fewer(Newly(s, s'), ids);
    SomeLeft(b'.held.Keys, s, s', ids);
    assert ids - b'.held.Keys - s.sentOn.Keys == ids - s.sentOn.Keys;
    assert ids - s.sentOn.Keys <= Newly(s, s');
  }

  lemma AllSaid(b: Book, s: Session, b': Book, s': Session, sends: nat -> bool, t: nat, ids: set<Id>)
    requires GivenOf(b, s, b', s', ids) == Sound && (b'.held == map[] || !Carries(s, sends, t, Grown(b, b') + 1))
    requires Carries(s, sends, t, |ids|) && s.sentOn == map[]
    ensures b'.held == map[] && SaidOf(b', |b.frames|, b, ids) == Sound
  {
    AllGiven(b, s, b', s', sends, t, ids, |ids|);
    assert ids - s.sentOn.Keys == ids;
  }

  /** On a new socket with the room, everything is sent. */
  lemma OlderAll(b: Book, s: Session, ws: nat, now: int, open: bool, sends: nat -> bool, t: nat, released: map<Id, Frame>, older: set<nat>,
                 b': Book, s': Session, released': map<Id, Frame>, older': set<nat>, lost': set<Id>)
    requires OlderOf(b, Using(AtTime(s, now), ws), open, sends, t, released, older, b', s', released', older', lost') == Sound
    ensures NewSocket(s, ws, sends, t, Unsettled(b, open)) ==>
      b'.held == map[] && SaidOf(b', |b.frames|, b, Unsettled(b, open)) == Sound
  {
    var ids, s0 := Unsettled(b, open), Using(AtTime(s, now), ws);
    if NewSocket(s, ws, sends, t, ids) {
      NewSocketCarries(s, now, ws, sends, t, ids);
      AllSaid(b, s0, b', s', sends, t, ids);
    }
  }

  /** Unconfirmed outcomes were sent, held ones were let go of, and of these the unmarked ones sent and the strays lost. */
  ghost function TimedOf(b: Book, s: Session, released: map<Id, Frame>, lost: set<Id>,
                         b': Book, s': Session, released': map<Id, Frame>, lost': set<Id>, sent: set<Id>): Health {
    if var done := b.held.Keys - b'.held.Keys;
       && WireOf(b, s, b', s', sent + (done - s.sentOn.Keys)) == Sound
       && SplitOf(Stray(s, b), s'.stay, released, lost, released', lost', done) == Sound
    then Sound else Broken
  }

  lemma TimedNothing(b: Book, s: Session, released: map<Id, Frame>, lost: set<Id>, b': Book, s': Session, sent: set<Id>)
    requires WireOf(b, s, b', s', sent) == Sound && b'.held == b.held
    ensures TimedOf(b, s, released, lost, b', s', released, lost, sent) == Sound
  {
    SplitNothing(Stray(s, b), s'.stay, released, lost);
    assert b.held.Keys - b'.held.Keys == {} && sent + ({} - s.sentOn.Keys) == sent;
  }

  /** Held outcomes that go out after unconfirmed ones did. */
  lemma TimedFlush(b: Book, s: Session, b1: Book, s1: Session, released: map<Id, Frame>, lost: set<Id>,
                   b': Book, s': Session, released': map<Id, Frame>, lost': set<Id>, sent: set<Id>)
    requires Ok(b) && SentOf(b, s, b1, s1, sent) == Sound && sent <= b.unacked.Keys && FlushOf(b1, s1, b', s') == Sound
    requires SplitOf(Stray(s1, b1), s'.stay, released, lost, released', lost', b1.held.Keys - b'.held.Keys) == Sound
    ensures TimedOf(b, s, released, lost, b', s', released', lost', sent) == Sound
  {
    forall id | id in sent ensures id !in b.held { KeptIsSendable(b, id); }
    var done := b.held.Keys - b'.held.Keys;
    SentMarks(b, s, b1, s1, sent, done);
    SplitSame(Stray(s, b), Stray(s1, b1), s'.stay, released, lost, released', lost', done);
    WireTwice(b, s, b1, s1, b', s', sent, done - s.sentOn.Keys);
  }

  /**
   * The due outcomes were sent, and of the held ones none is left, unless the session carries no
   * more; and if held ones are left, one is not marked.
   */
  ghost function TimelyOf(b: Book, s: Session, sends: nat -> bool, t: nat, b': Book, s': Session, sent: set<Id>, keeps: bool): Health {
    if && sent <= ToResend(b, s, Some(RESEND_INTERVAL_MS))
       && (sent == ToResend(b, s, Some(RESEND_INTERVAL_MS)) || !Carries(s, sends, t, |sent| + 1))
       && (keeps || b'.held == map[] || (RestOf(b'.held.Keys, s') == Sound && !Carries(s, sends, t, Grown(b, b') + 1)))
    then Sound else Broken
  }

  lemma TimelyKept(b: Book, s: Session, sends: nat -> bool, t: nat, t': nat, b': Book, s': Session, sent: set<Id>)
    requires SentOf(b, s, b', s', sent) == Sound && sent <= ToResend(b, s, Some(RESEND_INTERVAL_MS))
    requires RunOf(s, sends, t, t', Grown(b, b'), sent == ToResend(b, s, Some(RESEND_INTERVAL_MS))) == Sound
    ensures TimelyOf(b, s, sends, t, b', s', sent, true) == Sound
  {
    CountSent(b, s, b', s', sent);
  }

  lemma TimelyFlush(b: Book, s: Session, b1: Book, s1: Session, b': Book, s': Session, sends: nat -> bool, t: nat, t1: nat, t': nat, sent: set<Id>)
    requires SentOf(b, s, b1, s1, sent) == Sound && sent <= ToResend(b, s, Some(RESEND_INTERVAL_MS))
    requires RunOf(s, sends, t, t1, Grown(b, b1), sent == ToResend(b, s, Some(RESEND_INTERVAL_MS))) == Sound
    requires FlushOf(b1, s1, b', s') == Sound && RunOf(s1, sends, t1, t', Grown(b1, b'), b'.held == map[]) == Sound
    ensures TimelyOf(b, s, sends, t, b', s', sent, false) == Sound
  {
    TimelyKept(b, s, sends, t, t1, b1, s1, sent);
    WireRoom(b, s, b1, s1, sent);
    FlushedRoom(b1, s1, b', s');
    RunTwice(s, sends, t, t1, Grown(b, b1), sent == ToResend(b, s, Some(RESEND_INTERVAL_MS)), s1, t', Grown(b1, b'), b'.held == map[]);
  }

  lemma FlushedRoom(b: Book, s: Session, b': Book, s': Session)
    requires FlushOf(b, s, b', s') == Sound
    ensures Grown(b, b') >= 0 && RestOf(b'.held.Keys, s') == Sound
  {
  }

  lemma SteadyAfter(b: Book, s: Session, b1: Book, s1: Session, b': Book, s': Session, sent: set<Id>)
    requires SentOf(b, s, b1, s1, sent) == Sound && FlushOf(b1, s1, b', s') == Sound
    ensures Steady(b, b') && b'.unacked == b.unacked && b'.journal.Keys <= b.journal.Keys && Orphans(b1) == Orphans(b)
    ensures b'.held.Keys <= b.held.Keys
  {
  }

  lemma SentMarks(b: Book, s: Session, b1: Book, s1: Session, sent: set<Id>, done: set<Id>)
    requires SentOf(b, s, b1, s1, sent) == Sound && done !! sent
    ensures done - s1.sentOn.Keys == done - s.sentOn.Keys && OwedOf(b, b1, done - s.sentOn.Keys) == Sound
    ensures done * Stray(s1, b1) == done * Stray(s, b) && done - Stray(s1, b1) == done - Stray(s, b)
  {
    Apart(done, sent, s.sentOn.Keys, s1.sentOn.Keys, Stray(s, b), Stray(s1, b1));
  }

  lemma Apart(done: set<Id>, sent: set<Id>, marks: set<Id>, marks': set<Id>, stray: set<Id>, stray': set<Id>)
    requires done !! sent && marks' == marks + sent && stray' == stray - sent
    ensures done - marks' == done - marks && done * stray' == done * stray && done - stray' == done - stray
  {
  }

  lemma SplitSame(stray: set<Id>, stray': set<Id>, stay: nat, released: map<Id, Frame>, lost: set<Id>,
                  released': map<Id, Frame>, lost': set<Id>, done: set<Id>)
    requires SplitOf(stray', stay, released, lost, released', lost', done) == Sound
    requires done * stray' == done * stray && done - stray' == done - stray
    ensures SplitOf(stray, stay, released, lost, released', lost', done) == Sound
  {
  }
}
