/**
 * Whole runs of the outbox: what holds after any events in any order, how fast it sends, and two
 * runs that end badly, one with an outcome that is never sent and one with an answer that changes.
 */
module OutboxLife {
  import opened Prelude
  import opened CommandAnswers
  import opened OutboxBook
  import opened OutboxFlush
  import opened OutboxRetention
  import opened OutboxSession
  import opened Outbox
  import opened Pacing

  /** Everything that can happen to the outbox, at any time, in any order. */
  datatype Event =
    | Dispatched(id: Id, ws: nat, open: bool, now: int)
    | Progressed(id: Id, plan: Plan, now: int)
    | Delivered(id: Id, ok: bool, result: string, error: string, at: Option<int>, now: int)
    | Confirmed(id: Id)
    | Opened(ws: nat, peer: Option<Peer>, open: bool, now: int)
    | Attached(ws: nat, peer: Option<Peer>, open: bool, now: int)
    | Timer(now: int)
    | Restarted

  /**
   * What an event releases: a delivery its own outcome, by a frame of this moment; and any other
   * event only what is marked as sent, or sent now, on the session socket during this stay.
   */
  ghost function ReleasesOf(event: Event, b: Book, released: map<Id, Frame>, released': map<Id, Frame>, stay: nat): Health {
    if if event.Delivered? then
         || released' == released
         || (event.id in released' && released' == released[event.id := released'[event.id]]
             && released'[event.id].key == Now(b, event.id) && released'[event.id].at == event.now
             && released'[event.id].stay == stay)
       else FreshOf(released, released', stay) == Sound
    then Sound else Broken
  }

  lemma ReleasesFewer(event: Event, b: Book, released: map<Id, Frame>, released': map<Id, Frame>, stay: nat, id: Id)
    requires released' == released || (!event.Delivered? && released' == released - {id})
    ensures ReleasesOf(event, b, released, released', stay) == Sound
  {
  }

  /** A dispatch takes reasons away. */
  method Dispatching(box: Outbox, id: Id, ws: nat, open: bool, now: int)
    requires box.Valid()
    modifies box
    ensures box.Valid() && box.confirmed <= old(box.confirmed) && box.dropped <= old(box.dropped) && box.lost <= old(box.lost)
    ensures box.released == old(box.released) || box.released == old(box.released) - {id}
    ensures box.released.Keys <= old(box.released.Keys) && box.older == old(box.older)
    ensures box.restarted <= old(box.restarted) + if id in old(box.session).sentOn then {id} else {}
    ensures Known(box.book, id)
  {
    var started := box.Dispatch(id, ws, open, now);
  }

  /** The outcome of a running command arrives. */
  method Delivering(box: Outbox, event: Event)
    requires box.Valid() && event.Delivered?
    modifies box
    ensures box.Valid() && box.confirmed == old(box.confirmed) && box.dropped == old(box.dropped)
    ensures box.lost == old(box.lost) && box.restarted == old(box.restarted)
    ensures box.Recovers() ==> box.released == old(box.released)
    ensures box.older <= old(box.older) + if box.Recovers() then {} else {box.session.stay}
    ensures ReleasesOf(event, old(box.book), old(box.released), box.released, box.session.stay) == Sound
    ensures event.id !in box.book.running && (event.id in old(box.book).running ==> Now(box.book, event.id) in box.book.delivered)
  {
    if event.id !in box.book.running { return; }
    var way, finished := box.Deliver(event.id, Handler(event.ok, event.result, event.error), event.at, event.now);
  }

  /** An attach, and what it drops. */
  method AttachDrops(box: Outbox, ws: nat, peer: Option<Peer>, open: bool, now: int)
    requires box.Valid()
    modifies box
    ensures box.Valid() && box.confirmed == old(box.confirmed) && box.restarted == old(box.restarted)
    ensures DropsOf(old(box.book), old(box.keptSince), now, old(box.dropped), box.book.unacked, box.dropped) == Sound
    ensures box.Recovers() ==> box.released == old(box.released) && box.older == old(box.older) && box.lost == old(box.lost)
    ensures FreshOf(old(box.released), box.released, box.session.stay) == Sound && box.older <= old(box.older) + {box.session.stay}
    ensures peer.Some? ==> box.peer == peer
  {
    box.Attach(ws, peer, open, now);
    NoDrops(old(box.book), old(box.keptSince), now, old(box.dropped), box.book.unacked);
  }

  /** The resend timer, and what it releases. */
  method TimerReleases(box: Outbox, now: int)
    requires box.Valid()
    modifies box
    ensures box.Valid() && box.confirmed == old(box.confirmed) && box.dropped == old(box.dropped) && box.restarted == old(box.restarted)
    ensures box.Recovers() ==> box.released == old(box.released) && box.older == old(box.older) && box.lost == old(box.lost)
    ensures FreshOf(old(box.released), box.released, box.session.stay) == Sound && box.older <= old(box.older) + {box.session.stay}
  {
    ghost var b, session, released, lost := box.book, box.session, box.released, box.lost;
    var sent := box.TimerFired(now);
    TimedIsFresh(b, AtTime(session, now), released, lost, box.book, box.session, box.released, box.lost, sent);
  }

  lemma TimedIsFresh(b: Book, s: Session, released: map<Id, Frame>, lost: set<Id>,
                     b': Book, s': Session, released': map<Id, Frame>, lost': set<Id>, sent: set<Id>)
    requires TimedOf(b, s, released, lost, b', s', released', lost', sent) == Sound
    ensures FreshOf(released, released', s'.stay) == Sound
  {
  }

  /**
   * One event. Only a confirmation confirms, only an attach drops and only what the retention
   * bound says, only while the control plane does not confirm is anything let go of as sent, by
   * a frame of this stay on the session socket unless it is a delivery that found another socket,
   * and only a dispatch of a command marked as sent on the session socket can make it pass for sent.
   */
  method Happen(box: Outbox, event: Event)
    requires box.Valid()
    modifies box
    ensures box.Valid()
    ensures box.confirmed <= old(box.confirmed) + if event.Confirmed? then {event.id} else {}
    ensures !event.Attached? ==> box.dropped <= old(box.dropped)
    ensures event.Attached? ==>
      DropsOf(old(box.book), old(box.keptSince), event.now, old(box.dropped), box.book.unacked, box.dropped) == Sound
    ensures box.Recovers() ==> box.released.Keys <= old(box.released.Keys) && box.lost <= old(box.lost)
    ensures box.older <= old(box.older) + if box.Recovers() then {} else {box.session.stay}
    ensures ReleasesOf(event, old(box.book), old(box.released), box.released, box.session.stay) == Sound
    ensures box.restarted <= old(box.restarted) + Remarked(event, old(box.session))
    ensures Took(event, box.book, box.peer)
  {
    match event
    case Dispatched(id, ws, open, now) =>
      Dispatching(box, id, ws, open, now);
      ReleasesFewer(event, old(box.book), old(box.released), box.released, box.session.stay, id);
    case Progressed(id, plan, now) =>
      box.NoteProgress(id, plan, now);
      ReleasesFewer(event, old(box.book), old(box.released), box.released, box.session.stay, id);
    case Delivered(_, _, _, _, _, _) =>
      Delivering(box, event);
    case Confirmed(id) =>
      box.Acknowledge(id);
      ReleasesFewer(event, old(box.book), old(box.released), box.released, box.session.stay, id);
    case Opened(ws, peer, open, now) =>
      var sent := box.SessionOpen(ws, peer, open, now);
      ReleasesFewer(event, old(box.book), old(box.released), box.released, box.session.stay, 0);
    case Attached(ws, peer, open, now) =>
      AttachDrops(box, ws, peer, open, now);
    case Timer(now) =>
      TimerReleases(box, now);
    case Restarted =>
      box.Restart();
      ReleasesFewer(event, old(box.book), old(box.released), box.released, box.session.stay, 0);
  }

  /** What each event has done: a command is taken on, is no longer running or is forgotten, a control plane is known, all is forgotten. */
  predicate Took(event: Event, b: Book, peer: Option<Peer>) {
    match event
    case Dispatched(id, _, _, _) => Known(b, id)
    case Delivered(id, _, _, _, _, _) => id !in b.running
    case Confirmed(id) => id in b.running || !Known(b, id)
    case Opened(_, p, _, _) => p.Some? ==> peer == p
    case Attached(_, p, _, _) => p.Some? ==> peer == p
    case Restarted => peer == None && b.running == {} && b.held == map[] && b.unacked == map[]
    case _ => true
  }

  function Remarked(event: Event, s: Session): set<Id> {
    if event.Dispatched? && event.id in s.sentOn then {event.id} else {}
  }

  function ConfirmedBy(events: seq<Event>): set<Id> {
    set e | e in events && e.Confirmed? :: e.id
  }

  function DispatchedBy(events: seq<Event>): set<Id> {
    set e | e in events && e.Dispatched? :: e.id
  }

  lemma OneMoreEvent(events: seq<Event>, i: nat)
    requires i < |events|
    ensures ConfirmedBy(events[..i + 1]) == ConfirmedBy(events[..i]) + if events[i].Confirmed? then {events[i].id} else {}
    ensures DispatchedBy(events[..i + 1]) == DispatchedBy(events[..i]) + if events[i].Dispatched? then {events[i].id} else {}
  {
    assert events[..i + 1] == events[..i] + [events[i]];
  }

  /**
   * Any run, with any failures of sends, writes and removals, any changes of socket and control
   * plane, and any number of deaths. The book stays consistent, so every theorem about a
   * consistent book holds of the run. The file of an accepted command whose writes worked goes
   * only because its outcome was confirmed, dropped past the retention bound, or sent for its
   * current acceptance during a stay with a control plane that does not confirm; or it is lost,
   * which happens only to a command that was accepted again while it was marked as sent on the
   * session socket.
   */
  method Life(box: Outbox, events: seq<Event>)
    requires box.Valid() && box.book == EMPTY
    requires box.confirmed == box.dropped == box.restarted == {} && box.older == {}
    modifies box
    ensures box.Valid()
    ensures Gone(box.book) <= box.confirmed + box.dropped + box.released.Keys + box.lost
    ensures box.confirmed <= ConfirmedBy(events)
    ensures forall id {:trigger box.released[id]} :: id in box.released ==> ReleasedBy(box.book, id, box.released[id], box.older)
    ensures (forall i :: 0 <= i < |events| ==> !events[i].Attached?) ==> box.dropped == {}
    ensures box.lost <= box.restarted <= DispatchedBy(events)
    ensures events != [] ==> Took(events[|events| - 1], box.book, box.peer)
  {
    for i := 0 to |events|
      invariant box.Valid()
      invariant box.confirmed <= ConfirmedBy(events[..i]) && box.restarted <= DispatchedBy(events[..i])
      invariant (forall k :: 0 <= k < i ==> !events[k].Attached?) ==> box.dropped == {}
      invariant i > 0 ==> Took(events[i - 1], box.book, box.peer)
    {
      Happen(box, events[i]);
      OneMoreEvent(events, i);
    }
    assert events[..|events|] == events;
  }

  /** During one stay on a socket, while the clock moves forward, any 60 seconds carry at most 60 paced frames. */
  lemma PacedSends(box: Outbox, lo: int)
    requires box.Valid() && box.session.forward && box.session.socket.Some?
    ensures CountIn(PacedOn(box.book.frames, box.session.stay), lo, lo + 60_000) <= 60
  {
    AtMostSixtyInAnyMinute(box.session.windows, lo);
  }

  /**
   * The bound is about resends only: the answer to a repeated dispatch is sent at once, so `n`
   * repeated dispatches of one kept command put `n` frames on the wire at the same instant.
   */
  method RepeatedDispatchesAreNotPaced(box: Outbox, id: Id, ws: nat, n: nat, now: int)
    requires box.Valid() && id in box.book.unacked && forall k :: box.sends(k)
    modifies box
    ensures box.Valid() && |box.book.frames| == |old(box.book.frames)| + n
    ensures forall i :: |old(box.book.frames)| <= i < |box.book.frames| ==> box.book.frames[i].at == now && box.book.frames[i].way == Direct
  {
    for i := 0 to n
      invariant box.Valid() && id in box.book.unacked
      invariant |box.book.frames| == |old(box.book.frames)| + i
      invariant forall j :: |old(box.book.frames)| <= j < |box.book.frames| ==> box.book.frames[j].at == now && box.book.frames[j].way == Direct
    {
      AnsweredAgain(box, id, ws, now);
    }
  }

  method AnsweredAgain(box: Outbox, id: Id, ws: nat, now: int)
    requires box.Valid() && id in box.book.unacked && forall k :: box.sends(k)
    modifies box
    ensures box.Valid() && id in box.book.unacked
    ensures box.book.frames == old(box.book.frames) + [Frame(Now(box.book, id), box.book.unacked[id].answer, now, box.session.stay, Direct)]
  {
    KeptIsSendable(box.book, id);
    var answered, shown := box.AnswerRepeatedDispatch(id, ws, true, now);
  }

  /**
   * How an outcome is lost without ever being sent: a command answered on a socket is accepted
   * again, its new outcome cannot be sent, and the old mark makes it pass for sent.
   */
  method MarkedOutcomeIsLost(id: Id, first: Answer, second: Answer) returns (box: Outbox)
    requires first.Handler? && second.Handler?
    ensures box.Valid() && box.book.rounds[id] == 2 && Key(id, 2) in box.book.delivered
    ensures id !in box.book.journal && !Known(box.book, id) && id !in Answered(box.book) && id in box.lost
  {
    box := RunsFirst(id);
    AnsweredOnce(box, id, first);
    AcceptedAgain(box, id, second);
    LostByTheTimer(box, id);
  }

  /** The timer fires with one held outcome, under an old mark. */
  method LostByTheTimer(box: Outbox, id: Id)
    requires box.Valid() && box.peer == None && box.AllRemoved() && box.book.held.Keys == {id} && id in Stray(box.session, box.book)
    requires id !in Answered(box.book) && id !in box.book.running && id !in box.book.unacked
    modifies box
    ensures box.Valid() && box.book.rounds == old(box.book.rounds) && box.book.delivered == old(box.book.delivered)
    ensures id !in box.book.journal && !Known(box.book, id) && id !in Answered(box.book) && id in box.lost
  {
    ghost var b, s, rel, gone, tick := box.book, box.session, box.released, box.lost, box.sendTick;
    var sent := box.TimerFired(30_000);
    StillMarked(b, AtTime(s, 30_000), rel, gone, box.book, box.session, box.released, box.lost, sent, id);
    NoneWaits(b, AtTime(s, 30_000), box.sends, tick, box.book, box.session, sent, id);
    PassesForSent(b, AtTime(s, 30_000), rel, gone, box.book, box.session, box.released, box.lost, sent, id);
    assert id !in Orphans(b) && id !in Orphans(box.book);
  }

  /** The timer lets go of a held outcome with an old mark, and loses it. */
  lemma PassesForSent(b: Book, s: Session, released: map<Id, Frame>, lost: set<Id>,
                      b': Book, s': Session, released': map<Id, Frame>, lost': set<Id>, sent: set<Id>, id: Id)
    requires TimedOf(b, s, released, lost, b', s', released', lost', sent) == Sound
    requires b.held.Keys == {id} && b'.held == map[] && id in Stray(s, b) && id !in Answered(b) && id !in sent
    ensures id in lost' && id !in Answered(b')
  {
    assert b.held.Keys - b'.held.Keys == {id};
  }

  lemma StillMarked(b: Book, s: Session, released: map<Id, Frame>, lost: set<Id>,
                    b': Book, s': Session, released': map<Id, Frame>, lost': set<Id>, sent: set<Id>, id: Id)
    requires TimedOf(b, s, released, lost, b', s', released', lost', sent) == Sound && id in s.sentOn
    ensures id in s'.sentOn
  {
  }

  lemma NoneWaits(b: Book, s: Session, sends: nat -> bool, t: nat, b': Book, s': Session, sent: set<Id>, id: Id)
    requires TimelyOf(b, s, sends, t, b', s', sent, false) == Sound && b'.held.Keys <= {id} && id in s'.sentOn && id !in b.unacked
    ensures b'.held == map[] && id !in sent
  {
    assert RestOf(b'.held.Keys, s') == Sound || b'.held == map[];
  }

  /** A fresh outbox, whose first send works and no other, running one command. */
  method RunsFirst(id: Id) returns (box: Outbox)
    ensures fresh(box) && box.Valid() && (forall k :: box.sends(k) <==> k == 0) && box.AllRemoved()
    ensures box.peer == None && box.session.socket == Some(0) && box.sendTick == 0
    ensures box.book.rounds == multiset{id} && box.book.running == {id}
    ensures box.book.held == map[] && box.book.unacked == map[]
  {
    box := new Outbox(k => k == 0, k => true, k => true);
    var started := box.Dispatch(id, 0, true, 0);
  }

  /** It is answered, and that is that. */
  method AnsweredOnce(box: Outbox, id: Id, answer: Answer)
    requires box.Valid() && answer.Handler? && box.peer == None && box.session.socket == Some(0)
    requires box.sends(box.sendTick) && id in box.book.running && box.book.held == map[]
    modifies box
    ensures box.Valid() && box.peer == None && box.session.socket == Some(0) && id in box.session.sentOn
    ensures box.sendTick == old(box.sendTick) + 1 && box.book.rounds == old(box.book.rounds)
    ensures !Known(box.book, id) && box.book.held == map[]
  {
    ghost var b, at, w, r, stay := box.book, box.acceptedAt, box.writes(box.writeTick), box.removals(box.removeTick), box.session.stay;
    var way, finished := box.Deliver(id, answer, None, 0);
    DeliveryKept(b, id, FinalEntry(at, id, answer, None, 0), w, 0, stay, false, way, r);
    NothingHeld(box.book, b, id);
  }

  lemma NothingHeld(b': Book, b: Book, id: Id)
    requires b.held == map[] && b'.held - {id} == b.held - {id} && id !in b'.held
    ensures b'.held == map[]
  {
    assert b'.held == b'.held - {id};
  }

  /** It is accepted again on the same socket, and its new outcome cannot be sent. */
  method AcceptedAgain(box: Outbox, id: Id, answer: Answer)
    requires box.Valid() && answer.Handler? && box.peer == None && box.session.socket == Some(0) && id in box.session.sentOn
    requires !Known(box.book, id) && !box.sends(box.sendTick) && !box.sends(box.sendTick + 1) && box.book.held == map[]
    modifies box
    ensures box.Valid() && box.peer == None && box.book.held.Keys == {id} && id in Stray(box.session, box.book)
    ensures id !in Answered(box.book) && id !in box.book.running && id !in box.book.unacked
    ensures box.book.rounds == old(box.book.rounds) + multiset{id} && Now(box.book, id) in box.book.delivered
  {
    var started := box.Dispatch(id, 0, true, 0);
    ghost var b, at, w, r := box.book, box.acceptedAt, box.writes(box.writeTick), box.removals(box.removeTick);
    var way, finished := box.Deliver(id, answer, None, 0);
    DeliveryKept(b, id, FinalEntry(at, id, answer, None, 0), w, 0, box.session.stay, false, way, r);
  }

  /** After a death with one file left, an attach keeps that command, unless its file is a week old. */
  lemma OnlyOrphan(b: Book, kept: map<Id, int>, now: int, after: map<Id, Outcome>, dropped: set<Id>, id: Id)
    requires b.unacked == map[] && b.held == map[] && Orphans(b) == {id} && !Stale(Some(EntryRecorded(b.journal[id])), now)
    requires KeptOf(b, after, dropped) == Sound && DropsOf(b, kept, now, {}, after, dropped) == Sound
    ensures after.Keys == {id} && after[id].answer == JournalAnswer(b.journal[id])
  {
    assert after.Keys <= {id} <= after.Keys + dropped;
    assert id in dropped ==> DroppedFor(b, kept, now, after, id);
    assert id in Orphans(b) && SinceOf(b, kept, id) == Some(EntryRecorded(b.journal[id]));
    assert |after.Keys| <= 1 by { Small(after.Keys, id); }
    assert id in after && Owed(b, id) == JournalAnswer(b.journal[id]);
  }

  lemma Small(ids: set<Id>, id: Id)
    requires ids <= {id}
    ensures |ids| <= 1
  {
    assert ids == {} || ids == {id};
  }

  /** A fresh outbox whose second write fails, attached to a control plane that confirms, runs a command. */
  method RunsOne(id: Id) returns (box: Outbox)
    ensures fresh(box) && box.Valid() && (forall k :: box.sends(k)) && !box.writes(box.writeTick) && box.dropped == {}
    ensures box.session.socket.Some? && box.KeepsUntilAck() && box.book.running == {id}
    ensures box.book.unacked == map[] && box.book.held == map[]
    ensures box.book.journal.Keys == {id} && box.book.journal[id] == Entry(0, None, None, None)
  {
    box := new Outbox(k => true, k => k != 1, k => true);
    var sent := box.SessionOpen(0, Some(Peer(true, true)), true, 0);
    var started := box.Dispatch(id, 0, true, 0);
  }

  /** Its outcome cannot be written and is sent all the same. */
  method SaysUnwritten(box: Outbox, id: Id, answer: Answer) returns (ghost f: Frame)
    requires box.Valid() && answer.Handler? && (forall k :: box.sends(k)) && !box.writes(box.writeTick)
    requires box.session.socket.Some? && box.KeepsUntilAck() && id in box.book.running
    modifies box
    ensures box.Valid() && box.book.journal == old(box.book.journal) && box.dropped == old(box.dropped)
    ensures f in box.book.frames && f.way == Direct && f.answer == answer && f.key == Now(box.book, id) && f.key in box.book.unwritten
  {
    ghost var b, at, r, stay := box.book, box.acceptedAt, box.removals(box.removeTick), box.session.stay;
    var way, finished := box.Deliver(id, answer, None, 0);
    DeliveryKept(b, id, FinalEntry(at, id, answer, None, 0), false, 0, stay, true, way, r);
    f := Frame(Now(b, id), answer, 0, stay, Direct);
    assert f in box.book.frames;
  }

  /** And the daemon dies. */
  method DiesUnwritten(box: Outbox, id: Id, answer: Answer) returns (ghost f: Frame)
    requires box.Valid() && answer.Handler? && (forall k :: box.sends(k)) && !box.writes(box.writeTick)
    requires box.session.socket.Some? && box.KeepsUntilAck() && id in box.book.running
    modifies box
    ensures box.Valid() && box.book.journal == old(box.book.journal) && box.dropped == old(box.dropped)
    ensures f in Live(box.book.frames) && f.answer == answer && f.key == Now(box.book, id) && f.key in box.book.unwritten
    ensures box.book.unacked == map[] && box.book.held == map[] && box.book.running == {} && box.session.socket == None
  {
    f := SaysUnwritten(box, id, answer);
    box.Restart();
  }

  /** The next daemon attaches, and says what the only file left says. */
  method AttachTells(box: Outbox, id: Id) returns (ghost g: Frame)
    requires box.Valid() && (forall k :: box.sends(k)) && box.dropped == {} && box.session.socket == None
    requires box.book.unacked == map[] && box.book.held == map[] && box.book.running == {}
    requires box.book.journal.Keys == {id} && box.book.journal[id] == Entry(0, None, None, None)
    modifies box
    ensures box.Valid() && Steady(old(box.book), box.book)
    ensures g in box.book.frames && g.key == Now(box.book, id) && g.answer == Interrupted(None)
  {
    ghost var b, kept := box.book, box.keptSince;
    OneLeft(b, id);
    assert NewSocket(box.session, 1, box.sends, box.sendTick, Unsettled(b, true));
    box.Attach(1, Some(Peer(true, true)), true, 0);
    g := Told(b, kept, box.book, box.dropped, id);
  }

  lemma OneLeft(b: Book, id: Id)
    requires b.unacked == map[] && b.held == map[] && b.running == {} && b.journal.Keys == {id}
    ensures Unsettled(b, true) == Orphans(b) == {id}
  {
  }

  lemma Told(b: Book, kept: map<Id, int>, b': Book, dropped: set<Id>, id: Id) returns (g: Frame)
    requires b.unacked == map[] && b.held == map[] && b.running == {}
    requires b.journal.Keys == {id} && b.journal[id] == Entry(0, None, None, None)
    requires KeptOf(b, b'.unacked, dropped) == Sound && DropsOf(b, kept, 0, {}, b'.unacked, dropped) == Sound
    requires SaidOf(b', |b.frames|, b, b'.unacked.Keys) == Sound
    ensures g in b'.frames && g.key == Now(b', id) && g.answer == Interrupted(None)
  {
    OneLeft(b, id);
    OnlyOrphan(b, kept, 0, b'.unacked, dropped, id);
    assert SaysSince(b', |b.frames|, id, Owed(b, id));
    g :| g in b'.frames && g.key == Now(b', id) && g.answer == Owed(b, id);
  }

  /**
   * Why the outcome's write matters: it fails, the answer is sent, the daemon dies, and the next
   * one tells the control plane that the same acceptance of the command was interrupted.
   */
  method LostWriteChangesTheAnswer(id: Id, answer: Answer) returns (box: Outbox, ghost f: Frame, ghost g: Frame)
    requires answer.Handler?
    ensures box.Valid() && f in box.book.frames && g in box.book.frames && f.key == g.key
    ensures f.answer == answer && g.answer == Interrupted(None) && f.key in box.book.unwritten
  {
    box := RunsOne(id);
    f := DiesUnwritten(box, id, answer);
    g := AttachTells(box, id);
    assert f in Live(box.book.frames);
  }
}
