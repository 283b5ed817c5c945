/**
 * The outbox's session socket: what was marked as sent on it, the burst windows that pace kept
 * outcomes, and what it means that an outcome was sent during this stay on the socket.
 */
module OutboxSession {
  import opened Prelude
  import opened CommandAnswers
  import opened OutboxBook
  import opened Pacing

  /**
   * The session socket: since when it is the current one, what was marked as sent on it and
   * when, the burst window in use, the windows before it, and the time of the current call.
   * `forward`: the clock never went back during this stay.
   */
  datatype Session = Session(
    socket: Option<nat>, stay: nat, sentOn: map<Id, int>, start: int, used: int,
    windows: seq<Window>, clock: int, forward: bool)

  const NO_SESSION := Session(None, 0, map[], 0, 0, [], 0, true)

  function AtTime(s: Session, now: int): Session {
    s.(clock := now, forward := s.forward && s.clock <= now)
  }

  /** The session after a switch to `ws`. A new stay begins, and all marks go, unless it is the socket already. */
  function Using(s: Session, ws: nat): Session {
    if s.socket == Some(ws) then s
    else s.(socket := Some(ws), stay := s.stay + 1, sentOn := map[], start := s.clock, used := 0,
            windows := [Window(s.clock, [])], forward := true)
  }

  /** Begin a new burst window when the last one is over. */
  function Rolled(s: Session): Session {
    if s.clock - s.start < RESEND_INTERVAL_MS then s
    else s.(start := s.clock, used := 0, windows := s.windows + [Window(s.clock, [])])
  }

  /** Note a send on the session socket; a paced one belongs to the window in use. */
  function Marked(s: Session, id: Id, paced: bool): Session {
    s.(sentOn := s.sentOn[id := s.clock], used := s.used + 1,
       windows := if paced && s.windows != [] then AddSend(s.windows, s.clock) else s.windows)
  }

  /** What the burst window in use still carries. */
  function Room(s: Session): int {
    OUTCOME_BURST_MAX - Rolled(s).used
  }

  /** A window carries 20 outcomes, and 30 seconds after it began a new one is free. */
  lemma RoomIs(s: Session)
    ensures Room(s) == if s.clock >= s.start + 30_000 then 20 else 20 - s.used
  {
  }

  /** The windows of a stay are in order, the newest is the one in use, and they hold its paced frames. */
  ghost predicate InWindow(s: Session, frames: seq<Frame>) {
    && s.windows != [] && WindowsOk(s.windows)
    && s.windows[|s.windows| - 1].start == s.start <= s.clock
    && |s.windows[|s.windows| - 1].sends| <= s.used
    && PacedOn(frames, s.stay) == Flat(s.windows)
  }

  predicate InStay(s: Session, f: Frame) {
    f.stay <= s.stay
  }

  /** No frame is of a later stay, and while the clock moves forward the windows hold. */
  ghost function PaceOf(s: Session, frames: seq<Frame>): Health {
    if (forall f {:trigger InStay(s, f)} :: f in frames ==> InStay(s, f)) && (s.forward && s.socket.Some? ==> InWindow(s, frames))
    then Sound else Broken
  }

  lemma PaceAtTime(s: Session, now: int, frames: seq<Frame>)
    requires PaceOf(s, frames) == Sound
    ensures PaceOf(AtTime(s, now), frames) == Sound
  {
    forall f | f in frames ensures InStay(AtTime(s, now), f) { assert InStay(s, f); }
  }

  lemma PaceUsing(s: Session, ws: nat, frames: seq<Frame>)
    requires PaceOf(s, frames) == Sound
    ensures PaceOf(Using(s, ws), frames) == Sound
  {
    forall f | f in frames ensures InStay(Using(s, ws), f) { assert InStay(s, f); }
    if s.socket != Some(ws) {
      assert forall f :: f in frames ==> InStay(s, f);
      PacedNone(frames, s.stay + 1);
      FreshWindow(s.clock);
    }
  }

  lemma FreshWindow(start: int)
    ensures WindowsOk([Window(start, [])]) && Flat([Window(start, [])]) == []
  {
    assert WindowOk(Window(start, []));
    FlatRoll([], start);
    assert [] + [Window(start, [])] == [Window(start, [])];
  }

  lemma PaceRolled(s: Session, frames: seq<Frame>)
    requires PaceOf(s, frames) == Sound
    ensures PaceOf(Rolled(s), frames) == Sound
  {
    forall f | f in frames ensures InStay(Rolled(s), f) { assert InStay(s, f); }
    assert WindowOk(Window(s.clock, []));
    FlatRoll(s.windows, s.clock);
  }

  /** A frame goes out on the session socket, or past it. */
  lemma PaceFrame(s: Session, frames: seq<Frame>, f: Frame)
    requires PaceOf(s, frames) == Sound && f.stay == s.stay && f.at == s.clock
    ensures f.way != Paced ==> PaceOf(s, frames + [f]) == Sound && PaceOf(Marked(s, f.key.id, false), frames + [f]) == Sound
    ensures f.way == Paced && s.socket.Some? && s.clock - s.start < RESEND_INTERVAL_MS && s.used < OUTCOME_BURST_MAX ==>
      PaceOf(Marked(s, f.key.id, true), frames + [f]) == Sound
  {
    forall g | g in frames + [f] ensures InStay(s, g) && InStay(Marked(s, f.key.id, f.way == Paced), g) {
      if g in frames { assert InStay(s, g); }
    }
    PacedSend(frames, f, s.stay);
    if f.way == Paced && s.forward && s.socket.Some? && s.clock - s.start < RESEND_INTERVAL_MS && s.used < OUTCOME_BURST_MAX {
      AddSendOk(s.windows, s.clock);
      FlatAdd(s.windows, s.clock);
    }
  }

  lemma PaceRestart(s: Session, frames: seq<Frame>)
    requires PaceOf(s, frames) == Sound
    ensures PaceOf(NO_SESSION.(stay := s.stay), frames) == Sound
  {
    forall f | f in frames ensures InStay(NO_SESSION.(stay := s.stay), f) { assert InStay(s, f); }
  }

  // ---------------------------------------------------------------- marks

  /** Marked as sent on the session socket, though nothing was sent there since the last acceptance. */
  function Stray(s: Session, b: Book): set<Id> {
    s.sentOn.Keys - OnStay(b.frames, b.rounds, s.stay)
  }

  /** Only a command accepted while marked as sent on the session socket is taken for sent wrongly. */
  ghost function MarksOf(s: Session, b: Book, lost: set<Id>, restarted: set<Id>): Health {
    if Stray(s, b) <= restarted && lost <= restarted then Sound else Broken
  }

  predicate Goes(sends: nat -> bool, k: nat) {
    sends(k)
  }

  /** The session carries `n` paced sends from try `t` on: it has a socket, the window has room, and the tries work. */
  ghost predicate Carries(s: Session, sends: nat -> bool, t: nat, n: int) {
    n <= 0 || (s.socket.Some? && n <= Room(s) && forall k :: t <= k < t + n ==> Goes(sends, k))
  }

  /**
   * Paced sending from try `t` up to `t'` made `n` sends: all there was to send, or all that the
   * session carries, and then at most one more try, which failed.
   */
  ghost function RunOf(s: Session, sends: nat -> bool, t: nat, t': nat, n: int, all: bool): Health {
    if && Carries(s, sends, t, n) && (all ==> t' == t + n)
       && (!all ==> !Carries(s, sends, t, n + 1) && (t' == t + n || t' == t + n + 1))
    then Sound else Broken
  }

  lemma RunNothing(s: Session, sends: nat -> bool, t: nat)
    ensures RunOf(s, sends, t, t, 0, true) == Sound
  {
  }

  /** Whether one more send is possible, seen from the start and from here. */
  lemma RunMore(s: Session, sends: nat -> bool, t: nat, t1: nat, n: int, s1: Session)
    requires RunOf(s, sends, t, t1, n, true) == Sound && s1.socket == s.socket && Room(s1) == Room(s) - n && n >= 0
    ensures s1.socket.Some? && Room(s1) > 0 && sends(t1) ==> RunOf(s, sends, t, t1 + 1, n + 1, true) == Sound
    ensures !(s1.socket.Some? && Room(s1) > 0 && sends(t1)) ==>
      RunOf(s, sends, t, t1, n, false) == Sound && RunOf(s, sends, t, t1 + 1, n, false) == Sound
  {
    assert Goes(sends, t1) == sends(t1);
  }

  /** One stretch of sending after another: they end early only if the session does not carry more than they sent. */
  lemma RunTwice(s: Session, sends: nat -> bool, t: nat, t1: nat, n: int, all: bool, s1: Session, t': nat, m: int, all': bool)
    requires RunOf(s, sends, t, t1, n, all) == Sound && s1.socket == s.socket && Room(s1) == Room(s) - n
    requires RunOf(s1, sends, t1, t', m, all') == Sound && n >= 0 && m >= 0
    ensures !(all && all') ==> !Carries(s, sends, t, n + m + 1)
  {
  }

  /** A session that carries as much as there is to send is not the reason for an early end. */
  lemma CarriesAll(s: Session, sends: nat -> bool, t: nat, n: int, m: int)
    ensures Carries(s, sends, t, n) && m < n ==> Carries(s, sends, t, m + 1)
  {
  }

  /** A new session socket, whose first window has room for all of these, and as many sends that work. */
  ghost predicate NewSocket(s: Session, ws: nat, sends: nat -> bool, t: nat, ids: set<Id>) {
    s.socket != Some(ws) && |ids| <= OUTCOME_BURST_MAX && forall k :: t <= k < t + |ids| ==> Goes(sends, k)
  }

  /** A socket that was not the session's before carries a whole burst. */
  lemma NewSocketCarries(s: Session, now: int, ws: nat, sends: nat -> bool, t: nat, ids: set<Id>)
    requires NewSocket(s, ws, sends, t, ids)
    ensures Carries(Using(AtTime(s, now), ws), sends, t, |ids|) && Using(AtTime(s, now), ws).sentOn == map[]
  {
  }

  /** How an outcome sent at once goes out: on the session socket, else on the socket its command came in on. */
  function Taken(s: Session, sends: nat -> bool, t: nat): Option<Way> {
    if s.socket.Some? && sends(t) then Some(Direct)
    else if sends(if s.socket.Some? then t + 1 else t) then Some(Fallback)
    else None
  }

  /** When each unconfirmed outcome was last sent on the session socket. */
  function SentAt(b: Book, s: Session): map<Id, Option<int>> {
    map id | id in b.unacked :: if id in s.sentOn then Some(s.sentOn[id]) else None
  }

  /** Unconfirmed outcomes whose last mark is at least `minAge` old, or that have none; with `None`, only the latter. */
  function ToResend(b: Book, s: Session, minAge: Option<int>): set<Id> {
    set id | id in b.unacked && (id !in s.sentOn || (minAge.Some? && s.clock - s.sentOn[id] >= minAge.value))
  }

  /** The timer sends an unconfirmed outcome again 30 seconds after its mark on this socket, or at once if it has none. */
  lemma DueIs(b: Book, s: Session, id: Id)
    ensures id in ToResend(b, s, Some(RESEND_INTERVAL_MS)) <==>
      id in b.unacked && (id in s.sentOn ==> s.clock >= s.sentOn[id] + 30_000)
  {
  }

  // ---------------------------------------------------------------- what is owed, and what was said

  /** The answer the outbox owes for a command: the one it keeps, or what the file stands for. */
  function Owed(b: Book, id: Id): Answer {
    if id in b.unacked then b.unacked[id].answer
    else if id in b.held then b.held[id].answer
    else if id in b.journal then JournalAnswer(b.journal[id])
    else Interrupted(None)
  }

  /** What is owed for a command of a dead daemon: the outcome in its file, else the facts of the plan there. */
  lemma OwedForOrphan(b: Book, id: Id)
    requires id in b.journal && id !in b.unacked && id !in b.held
    ensures var e := b.journal[id];
      && (e.outcome.Some? ==> Owed(b, id) == e.outcome.value.answer)
      && (e.outcome.None? ==> !OnWire(Owed(b, id)).ok)
      && (e.outcome.None? && e.progress.None? ==> OnWire(Owed(b, id)).result == Facts(None, None))
      && (e.outcome.None? && e.progress.Some? ==>
            OnWire(Owed(b, id)).result == Facts(LastStep(e.progress.value), ReleasePromoted(e.progress.value)))
  {
    WireShows(Owed(b, id));
  }

  /** These are owed the same answers. */
  ghost function OwedOf(b: Book, b': Book, ids: set<Id>): Health {
    if forall id {:trigger Owed(b', id)} :: id in ids ==> Owed(b', id) == Owed(b, id) then Sound else Broken
  }

  /** Beyond its first `n` frames, the book has one on the session socket for the current acceptance of `id` that says this. */
  ghost predicate SaysSince(b: Book, n: nat, id: Id, answer: Answer) {
    exists i :: n <= i < |b.frames| && b.frames[i].key == Now(b, id) && b.frames[i].answer == answer && b.frames[i].way != Fallback
  }

  /** What `b` owes for these was sent since. */
  ghost function SaidOf(b': Book, n: nat, b: Book, ids: set<Id>): Health {
    if forall id {:trigger SaysSince(b', n, id, Owed(b, id))} :: id in ids ==> SaysSince(b', n, id, Owed(b, id)) then Sound else Broken
  }

  lemma SaysMore(b: Book, b': Book, n: nat, id: Id, answer: Answer)
    requires SaysSince(b, n, id, answer) && b.frames <= b'.frames && b'.rounds == b.rounds
    ensures SaysSince(b', n, id, answer)
  {
    var i :| n <= i < |b.frames| && b.frames[i].key == Now(b, id) && b.frames[i].answer == answer && b.frames[i].way != Fallback;
    assert b'.frames[i] == b.frames[i];
  }

  /** What was said stays said, and more may be. */
  lemma SaidMore(b1: Book, b2: Book, n: nat, b: Book, ids: set<Id>)
    requires SaidOf(b1, n, b, ids) == Sound && b1.frames <= b2.frames && b2.rounds == b1.rounds
    ensures SaidOf(b2, n, b, ids) == Sound
  {
    forall id | id in ids ensures SaysSince(b2, n, id, Owed(b, id)) {
      assert SaysSince(b1, n, id, Owed(b, id));
      SaysMore(b1, b2, n, id, Owed(b, id));
    }
  }

  lemma OneMoreSaid(b1: Book, n: nat, b: Book, ids: set<Id>, id: Id, at: int, stay: nat, way: Way)
    requires SaidOf(b1, n, b, ids) == Sound && n <= |b1.frames| && way != Fallback
    ensures SaidOf(Send(b1, id, Owed(b, id), at, stay, way), n, b, ids + {id}) == Sound
  {
    var b2 := Send(b1, id, Owed(b, id), at, stay, way);
    SaidMore(b1, b2, n, b, ids);
    assert b2.frames[|b1.frames|].key == Now(b2, id);
    forall k | k in ids + {id} ensures SaysSince(b2, n, k, Owed(b, k)) {
      if k != id { assert k in ids; }
    }
  }

  /** Said of a book that owes the same. */
  lemma SaidSame(b': Book, n: nat, m: nat, b1: Book, b: Book, ids: set<Id>)
    requires SaidOf(b', n, b1, ids) == Sound && OwedOf(b, b1, ids) == Sound && m <= n
    ensures SaidOf(b', m, b, ids) == Sound
  {
    forall id | id in ids ensures SaysSince(b', m, id, Owed(b, id)) {
      assert SaysSince(b', n, id, Owed(b1, id)) && Owed(b1, id) == Owed(b, id);
    }
  }

  lemma SaidBoth(b': Book, n: nat, b: Book, a: set<Id>, c: set<Id>)
    requires SaidOf(b', n, b, a) == Sound && SaidOf(b', n, b, c) == Sound
    ensures SaidOf(b', n, b, a + c) == Sound
  {
    forall id | id in a + c ensures SaysSince(b', n, id, Owed(b, id)) { }
  }

  // ---------------------------------------------------------------- sending what is kept

  /** How many frames more there are. */
  function Grown(b: Book, b': Book): int {
    |b'.frames| - |b.frames|
  }

  predicate FrameFor(frames: seq<Frame>, i: int, ids: set<Id>) {
    0 <= i < |frames| && frames[i].key.id in ids
  }

  predicate OtherFrame(frames: seq<Frame>, i: int, j: int) {
    0 <= i < j < |frames| && frames[i].key.id != frames[j].key.id
  }

  /** The frames since are one for each of these, and the window has room for as many less. */
  ghost function SpentOf(b: Book, s: Session, b': Book, s': Session, sent: set<Id>): Health {
    if && Room(s') == Room(s) - Grown(b, b')
       && (forall i {:trigger FrameFor(b'.frames, i, sent)} :: |b.frames| <= i < |b'.frames| ==> FrameFor(b'.frames, i, sent))
       && (forall i, j {:trigger OtherFrame(b'.frames, i, j)} :: |b.frames| <= i < j < |b'.frames| ==> OtherFrame(b'.frames, i, j))
    then Sound else Broken
  }

  lemma SpentMore(b: Book, s: Session, b1: Book, s1: Session, sent: set<Id>, b2: Book, s2: Session, id: Id, f: Frame)
    requires SpentOf(b, s, b1, s1, sent) == Sound && id !in sent && |b.frames| <= |b1.frames|
    requires b2.frames == b1.frames + [f] && f.key.id == id && s2 == Marked(Rolled(s1), id, true)
    ensures SpentOf(b, s, b2, s2, sent + {id}) == Sound
  {
    forall i | |b.frames| <= i < |b2.frames| ensures FrameFor(b2.frames, i, sent + {id}) {
      if i < |b1.frames| { assert FrameFor(b1.frames, i, sent); }
    }
    forall i, j | |b.frames| <= i < j < |b2.frames| ensures OtherFrame(b2.frames, i, j) {
      if j < |b1.frames| { assert OtherFrame(b1.frames, i, j); } else { assert FrameFor(b1.frames, i, sent); }
    }
  }

  /** So there are as many frames more as these. */
  lemma {:induction false} SpentCount(frames: seq<Frame>, n: nat, sent: set<Id>)
    requires n <= |frames| && (forall i :: n <= i < |frames| ==> FrameFor(frames, i, sent))
    requires forall i, j :: n <= i < j < |frames| ==> OtherFrame(frames, i, j)
    requires forall id :: id in sent ==> exists i :: n <= i < |frames| && frames[i].key.id == id
    ensures |frames| - n == |sent|
    decreases |frames|
  {
    if n == |frames| {
      assert sent == {};
    } else {
      var last := |frames| - 1;
      var id, rest := frames[last].key.id, frames[..last];
      assert FrameFor(frames, last, sent);
      forall i | n <= i < |rest| ensures FrameFor(rest, i, sent - {id}) {
        assert FrameFor(frames, i, sent) && OtherFrame(frames, i, last);
      }
      forall i, j | n <= i < j < |rest| ensures OtherFrame(rest, i, j) { assert OtherFrame(frames, i, j); }
      forall k | k in sent - {id} ensures exists i :: n <= i < |rest| && rest[i].key.id == k {
        var i :| n <= i < |frames| && frames[i].key.id == k;
        assert rest[i] == frames[i];
      }
      SpentCount(rest, n, sent - {id});
    }
  }

  lemma CountSent(b: Book, s: Session, b': Book, s': Session, sent: set<Id>)
    requires SpentOf(b, s, b', s', sent) == Sound && SaidOf(b', |b.frames|, b, sent) == Sound && |b.frames| <= |b'.frames|
    ensures Grown(b, b') == |sent|
  {
    forall id | id in sent ensures exists i :: |b.frames| <= i < |b'.frames| && b'.frames[i].key.id == id {
      assert SaysSince(b', |b.frames|, id, Owed(b, id));
    }
    SpentCount(b'.frames, |b.frames|, sent);
  }

  /**
   * Since `b` and `s`, exactly these went out on the session socket, each once, with what `b` owes
   * for them; they are marked, and the window lost room for as many.
   */
  ghost function WireOf(b: Book, s: Session, b': Book, s': Session, sent: set<Id>): Health {
    if && b'.rounds == b.rounds && b.frames <= b'.frames && Live(b'.frames) == Live(b.frames)
       && Answered(b') == Answered(b) + sent && Stray(s', b') == Stray(s, b) - sent && SaidOf(b', |b.frames|, b, sent) == Sound
       && s'.sentOn.Keys == s.sentOn.Keys + sent && s'.socket == s.socket && s'.clock == s.clock && s'.stay == s.stay
       && SpentOf(b, s, b', s', sent) == Sound
    then Sound else Broken
  }

  lemma WireNothing(b: Book, s: Session)
    ensures WireOf(b, s, b, s, {}) == Sound
  {
    assert s.sentOn.Keys + {} == s.sentOn.Keys && Answered(b) + {} == Answered(b);
  }

  lemma WireRolled(b: Book, s: Session, b': Book, s': Session, sent: set<Id>)
    requires WireOf(b, s, b', s', sent) == Sound
    ensures WireOf(b, s, b', Rolled(s'), sent) == Sound
  {
    assert Stray(Rolled(s'), b') == Stray(s', b') && Room(Rolled(s')) == Room(s');
  }

  /** The wire does not see what is kept. */
  lemma WireKept(b: Book, s: Session, b1: Book, b2: Book, s1: Session, sent: set<Id>)
    requires WireOf(b, s, b1, s1, sent) == Sound && b2.frames == b1.frames && b2.rounds == b1.rounds
    ensures WireOf(b, s, b2, s1, sent) == Sound
  {
    assert Answered(b2) == Answered(b1) && Stray(s1, b2) == Stray(s1, b1);
    SaidMore(b1, b2, |b.frames|, b, sent);
  }

  lemma MarkedStray(b: Book, s: Session, id: Id, answer: Answer)
    requires Ok(b) && Sendable(b, id, answer)
    ensures var b', s' := Send(b, id, answer, s.clock, s.stay, Paced), Marked(Rolled(s), id, true);
      Stray(s', b') == Stray(s, b) - {id} && s'.sentOn.Keys == s.sentOn.Keys + {id}
  {
    SendOk(b, id, answer, s.clock, s.stay, Paced);
  }

  lemma WireMore(b: Book, s: Session, b1: Book, s1: Session, sent: set<Id>, id: Id)
    requires WireOf(b, s, b1, s1, sent) == Sound && Ok(b1) && Sendable(b1, id, Owed(b, id)) && id !in sent
    ensures WireOf(b, s, Send(b1, id, Owed(b, id), s1.clock, s1.stay, Paced), Marked(Rolled(s1), id, true), sent + {id}) == Sound
  {
    var b2, s2 := Send(b1, id, Owed(b, id), s1.clock, s1.stay, Paced), Marked(Rolled(s1), id, true);
    SendOk(b1, id, Owed(b, id), s1.clock, s1.stay, Paced);
    OneMoreSaid(b1, |b.frames|, b, sent, id, s1.clock, s1.stay, Paced);
    MarkedStray(b1, s1, id, Owed(b, id));
    SpentMore(b, s, b1, s1, sent, b2, s2, id, b2.frames[|b1.frames|]);
    SetsMore(Answered(b), s.sentOn.Keys, Stray(s, b), sent, id);
  }

  lemma SetsMore(a: set<Id>, b: set<Id>, c: set<Id>, sent: set<Id>, id: Id)
    ensures a + sent + {id} == a + (sent + {id}) && b + sent + {id} == b + (sent + {id}) && c - sent - {id} == c - (sent + {id})
  {
  }

  /** Nothing but the wire changed. */
  ghost function SentOf(b: Book, s: Session, b': Book, s': Session, sent: set<Id>): Health {
    if b'.(frames := b.frames) == b && WireOf(b, s, b', s', sent) == Sound then Sound else Broken
  }

  // ---------------------------------------------------------------- letting go of held outcomes

  /** Frames by which outcomes were released: the new ones are of this stay, on the session socket. */
  ghost function FreshOf(released: map<Id, Frame>, released': map<Id, Frame>, stay: nat): Health {
    if forall id {:trigger released'[id]} :: id in released' ==>
      (id in released && released'[id] == released[id]) || (released'[id].stay == stay && released'[id].way != Fallback)
    then Sound else Broken
  }

  /** Of what is `done`, the strays are lost, and the others released by frames of this stay. */
  ghost function SplitOf(stray: set<Id>, stay: nat, released: map<Id, Frame>, lost: set<Id>,
                         released': map<Id, Frame>, lost': set<Id>, done: set<Id>): Health {
    if && lost' == lost + done * stray && released'.Keys == released.Keys + (done - stray)
       && FreshOf(released, released', stay) == Sound
    then Sound else Broken
  }

  lemma SplitMore(stray: set<Id>, stay: nat, released: map<Id, Frame>, lost: set<Id>,
                  released1: map<Id, Frame>, lost1: set<Id>, done: set<Id>, id: Id, f: Frame)
    requires SplitOf(stray, stay, released, lost, released1, lost1, done) == Sound
    requires id !in stray ==> f.stay == stay && f.way != Fallback
    ensures SplitOf(stray, stay, released, lost, if id in stray then released1 else released1[id := f],
                    if id in stray then lost1 + {id} else lost1, done + {id}) == Sound
  {
    assert lost + (done + {id}) * stray == (lost + done * stray) + if id in stray then {id} else {};
    assert released.Keys + ((done + {id}) - stray) == (released.Keys + (done - stray)) + if id in stray then {} else {id};
  }

  lemma SplitNothing(stray: set<Id>, stay: nat, released: map<Id, Frame>, lost: set<Id>)
    ensures SplitOf(stray, stay, released, lost, released, lost, {}) == Sound
  {
    assert lost + {} * stray == lost && released.Keys + ({} - stray) == released.Keys;
  }

  /**
   * Since `b` and `s`, these held outcomes were let go of, and nothing else changed. Each was
   * marked before, or sent now on the session socket with the answer owed.
   */
  ghost function FlushedOf(b: Book, s: Session, b': Book, s': Session, done: set<Id>): Health {
    if && b'.(held := b.held, frames := b.frames, forgets := b.forgets) == b && done <= b.held.Keys && b'.held == b.held - done
       && WireOf(b, s, b', s', done - s.sentOn.Keys) == Sound
    then Sound else Broken
  }

  lemma FlushedNothing(b: Book, s: Session)
    ensures FlushedOf(b, s, b, s, {}) == Sound
  {
    WireNothing(b, s);
    assert b.held - {} == b.held && {} - s.sentOn.Keys == {};
  }

  lemma FlushedRolled(b: Book, s: Session, b': Book, s': Session, done: set<Id>)
    requires FlushedOf(b, s, b', s', done) == Sound
    ensures FlushedOf(b, s, b', Rolled(s'), done) == Sound
  {
    WireRolled(b, s, b', s', done - s.sentOn.Keys);
  }

  lemma LetGoHeld(b: Book, id: Id)
    requires Ok(b) && id in b.held
    ensures LetGo(b, id) == b.(held := b.held - {id}, forgets := b.forgets + multiset{id})
  {
    KeptIsSendable(b, id);
    assert b.unacked - {id} == b.unacked;
  }

  /** One more that was marked. */
  lemma FlushedMarked(b: Book, s: Session, b1: Book, s1: Session, done: set<Id>, id: Id)
    requires FlushedOf(b, s, b1, s1, done) == Sound && Ok(b1) && id in b1.held && id in s1.sentOn
    ensures FlushedOf(b, s, LetGo(b1, id), s1, done + {id}) == Sound
  {
    LetGoHeld(b1, id);
    assert id in s.sentOn && (done + {id}) - s.sentOn.Keys == done - s.sentOn.Keys;
    assert b.held - done - {id} == b.held - (done + {id});
    WireKept(b, s, b1, LetGo(b1, id), s1, done - s.sentOn.Keys);
  }

  /** One more that is sent now. */
  lemma FlushedSent(b: Book, s: Session, b1: Book, s1: Session, done: set<Id>, id: Id)
    requires FlushedOf(b, s, b1, s1, done) == Sound && Ok(b1) && id in b1.held && id !in s1.sentOn
    ensures FlushedOf(b, s, LetGo(Send(b1, id, Owed(b1, id), s1.clock, s1.stay, Paced), id), Marked(Rolled(s1), id, true), done + {id}) == Sound
  {
    assert Owed(b1, id) == Owed(b, id) by { KeptIsSendable(b1, id); }
    NotSent(b, s, b1, s1, done - s.sentOn.Keys, id);
    WireLetGo(b, s, b1, s1, done - s.sentOn.Keys, id);
    DoneMore(b.held, s.sentOn.Keys, done, id);
  }

  lemma DoneMore(held: map<Id, Outcome>, marks: set<Id>, done: set<Id>, id: Id)
    requires id !in marks
    ensures held - done - {id} == held - (done + {id}) && (done + {id}) - marks == (done - marks) + {id}
  {
  }

  lemma NotSent(b: Book, s: Session, b1: Book, s1: Session, sent: set<Id>, id: Id)
    requires WireOf(b, s, b1, s1, sent) == Sound && id !in s1.sentOn
    ensures id !in sent && id !in s.sentOn
  {
  }

  lemma WireLetGo(b: Book, s: Session, b1: Book, s1: Session, sent: set<Id>, id: Id)
    requires WireOf(b, s, b1, s1, sent) == Sound && Ok(b1) && id in b1.held && id !in sent && Owed(b1, id) == Owed(b, id)
    ensures var b2 := Send(b1, id, Owed(b1, id), s1.clock, s1.stay, Paced);
      && WireOf(b, s, LetGo(b2, id), Marked(Rolled(s1), id, true), sent + {id}) == Sound
      && LetGo(b2, id) == b2.(held := b1.held - {id}, forgets := b1.forgets + multiset{id})
  {
    KeptIsSendable(b1, id);
    var b2, s2 := Send(b1, id, Owed(b1, id), s1.clock, s1.stay, Paced), Marked(Rolled(s1), id, true);
    SendOk(b1, id, Owed(b1, id), s1.clock, s1.stay, Paced);
    LetGoHeld(b2, id);
    WireMore(b, s, b1, s1, sent, id);
    WireKept(b, s, b2, LetGo(b2, id), s2, sent + {id});
  }
}
