/**
 * The command outbox. It keeps a file for every accepted command, first as running and then with
 * its outcome, and sends the outcome once that is written. The file goes when the control plane
 * has confirmed the outcome, or when it was sent to one that never confirms.
 *
 * Each exported call is one method. Sends, file writes and file removals may fail one by one;
 * a death of the daemon (`Restart`) keeps only the journal. A death in the middle of a call
 * leaves what that call leaves when its remaining sends, writes and removals fail.
 */
module Outbox {
  import opened Prelude
  import opened CommandAnswers
  import opened OutboxBook
  import opened OutboxFlush
  import opened OutboxRetention
  import opened OutboxSession
  import opened Pacing

  const PROGRESS_JOURNAL_INTERVAL_MS := 30_000

  /** A frame for the current acceptance of `id` says this. */
  ghost predicate Says(b: Book, id: Id, answer: Answer) {
    exists f :: f in b.frames && f.key == Now(b, id) && f.answer == answer
  }

  predicate ReleasedBy(b: Book, id: Id, f: Frame, older: set<nat>) {
    f in b.frames && f.key == Now(b, id) && f.stay in older
  }

  /**
   * Why files went, by command, since it was last accepted: its outcome was `settled` (confirmed,
   * or dropped past the retention bound); or `released` by a frame of a stay in which the control
   * plane was one that does not confirm; or it was `lost`, taken for sent on the session
   * socket, where it was not sent.
   */
  ghost function BackingOf(b: Book, settled: set<Id>, released: map<Id, Frame>, lost: set<Id>, older: set<nat>): Health {
    if && Gone(b) <= settled + released.Keys + lost
       && forall id {:trigger released[id]} :: id in released ==> ReleasedBy(b, id, released[id], older)
    then Sound else Broken
  }

  /** Whether a plan is to be written: it shows something new, or the last write is 30 seconds old. */
  predicate Due(last: map<Id, Noted>, id: Id, plan: Plan, now: int) {
    || id !in last || Signature(last[id].plan) != Signature(plan)
    || now - last[id].writtenAt >= PROGRESS_JOURNAL_INTERVAL_MS
  }

  /**
   * A plan that is not written is younger than 30 seconds against the last one written, and an
   * answer made from that one says the same of the release and of having begun a step; one that
   * old, or with another step, state or current step, is written.
   */
  lemma UnwrittenSaysTheSame(last: map<Id, Noted>, id: Id, plan: Plan, now: int)
    ensures !Due(last, id, plan, now) ==> id in last && now < last[id].writtenAt + 30_000
    ensures !Due(last, id, plan, now) ==> ReleasePromoted(plan) == ReleasePromoted(last[id].plan) && (LastStep(plan).Some? <==> LastStep(last[id].plan).Some?)
    ensures !Due(last, id, plan, now) ==> SameStates(plan.steps, last[id].plan.steps) && plan.current == last[id].plan.current
    ensures id in last && now >= last[id].writtenAt + 30_000 ==> Due(last, id, plan, now)
  {
    if !Due(last, id, plan, now) {
      SignatureStates(plan, last[id].plan);
      SameFacts(plan, last[id].plan);
    }
  }

  function Concluded(b: Book, id: Id, keeps: bool, sent: bool, removed: bool): Book
    requires id in b.held
  {
    if keeps then Move(b, id, true)
    else if !sent then b
    else if removed then Erase(LetGo(b, id), id) else LetGo(b, id)
  }

  /** The book after an outcome was sent or not, and then kept or let go of. */
  function Handed(b: Book, id: Id, at: int, stay: nat, keeps: bool, way: Option<Way>, removed: bool): Book
    requires id in b.held
  {
    Concluded(if way.Some? then Send(b, id, b.held[id].answer, at, stay, way.value) else b, id, keeps, way.Some?, removed)
  }

  /** The journal entry of a finished command. */
  function FinalEntry(acceptedAt: map<Id, int>, id: Id, answer: Answer, at: Option<int>, now: int): (e: Entry)
    ensures e.outcome == Some(Outcome(answer, at))
  {
    Entry(if id in acceptedAt then acceptedAt[id] else now, None, Some(Outcome(answer, at)), Some(now))
  }

  lemma RunningUnanswered(b: Book, id: Id)
    requires Ok(b) && id in b.running
    ensures id !in Answered(b)
  {
    assert Placed(CellOf(b, id));
    assert forall f :: f in b.frames ==> Spoken(b, f);
  }

  /** A new acceptance starts with no reason for its file to go. */
  lemma AcceptBacked(b: Book, b': Book, id: Id, s: Session, confirmed: set<Id>, dropped: set<Id>,
                     released: map<Id, Frame>, lost: set<Id>, restarted: set<Id>, older: set<nat>)
    requires BackingOf(b, confirmed + dropped, released, lost, older) == Sound && MarksOf(s, b, lost, restarted) == Sound
    requires Gone(b') <= Gone(b) - {id} && b'.frames == b.frames && b'.rounds == b.rounds + multiset{id}
    requires OnStay(b'.frames, b'.rounds, s.stay) == OnStay(b.frames, b.rounds, s.stay) - {id}
    ensures BackingOf(b', (confirmed - {id}) + (dropped - {id}), released - {id}, lost - {id}, older) == Sound
    ensures MarksOf(s, b', lost - {id}, restarted + if id in s.sentOn then {id} else {}) == Sound
  {
    var fewer := released - {id};
    forall k | k in fewer ensures ReleasedBy(b', k, fewer[k], older) {
      assert ReleasedBy(b, k, released[k], older);
    }
  }

  /** Frames are only added. */
  lemma StillBacked(b: Book, b': Book, settled: set<Id>, released: map<Id, Frame>, lost: set<Id>, older: set<nat>)
    requires BackingOf(b, settled, released, lost, older) == Sound
    requires Gone(b') <= Gone(b) && b.frames <= b'.frames && b'.rounds == b.rounds
    ensures BackingOf(b', settled, released, lost, older) == Sound
  {
    forall k | k in released ensures ReleasedBy(b', k, released[k], older) {
      assert ReleasedBy(b, k, released[k], older);
    }
  }

  /** One more outcome is released, by this frame. */
  lemma OneMoreReleased(b: Book, settled: set<Id>, released: map<Id, Frame>, lost: set<Id>, older: set<nat>, id: Id, f: Frame)
    requires BackingOf(b, settled, released, lost, older) == Sound && f in b.frames && f.key == Now(b, id)
    ensures BackingOf(b, settled, released[id := f], lost, older + {f.stay}) == Sound
  {
    var more := released[id := f];
    forall k | k in more ensures ReleasedBy(b, k, more[k], older + {f.stay}) {
      if k != id { assert ReleasedBy(b, k, released[k], older); }
    }
  }

  /**
   * What a delivery means: the outcome is kept until it is confirmed, or held until it was sent,
   * and as long as it is kept its file says what the handler answered, if that write worked.
   * Nothing happens to any other command.
   */
  lemma DeliveryKept(b: Book, id: Id, entry: Entry, written: bool, at: int, stay: nat, keeps: bool, way: Option<Way>, removed: bool)
    requires Ok(b) && id in b.running && entry.outcome.Some? && entry.outcome.value.answer.Handler?
    ensures var b' := Handed(Finish(b, id, entry, written), id, at, stay, keeps, way, removed);
      && b'.running == b.running - {id} && b'.rounds == b.rounds
      && (id in b'.unacked <==> keeps) && (id in b'.held <==> !keeps && way.None?) && (id in Answered(b') <==> way.Some?)
      && (way.Some? ==> Says(b', id, entry.outcome.value.answer))
      && (Known(b', id) && written ==> id in b'.journal && b'.journal[id] == entry)
      && (Known(b', id) && !written ==> b'.journal == b.journal && Now(b', id) in b'.unwritten)
      && (!Known(b', id) && removed ==> id !in b'.journal)
      && b'.held - {id} == b.held - {id}
  {
    var f := Finish(b, id, entry, written);
    RunningUnanswered(b, id);
    FinishOk(b, id, entry, written);
    HandedOver(f, id, at, stay, keeps, way, removed);
  }

  lemma HandedOver(b: Book, id: Id, at: int, stay: nat, keeps: bool, way: Option<Way>, removed: bool)
    requires Ok(b) && id in b.held
    ensures var b' := Handed(b, id, at, stay, keeps, way, removed);
      && b'.running == b.running && b'.rounds == b.rounds && b'.unwritten == b.unwritten
      && (id in b'.unacked <==> keeps) && (id in b'.held <==> !keeps && way.None?)
      && Answered(b') == Answered(b) + (if way.Some? then {id} else {})
      && (way.Some? ==> Says(b', id, b.held[id].answer))
      && (if keeps || way.None? || !removed then b'.journal == b.journal else b'.journal == b.journal - {id})
    ensures Handed(b, id, at, stay, keeps, way, removed).held - {id} == b.held - {id}
  {
    SentOrNot(b, id, at, stay, way);
    HandedOn(if way.Some? then Send(b, id, b.held[id].answer, at, stay, way.value) else b, id, keeps, way.Some?, removed);
  }

  lemma SentOrNot(b: Book, id: Id, at: int, stay: nat, way: Option<Way>)
    requires Ok(b) && id in b.held
    ensures var b' := if way.Some? then Send(b, id, b.held[id].answer, at, stay, way.value) else b;
      && Ok(b') && b'.(frames := b.frames) == b && Answered(b') == Answered(b) + (if way.Some? then {id} else {})
      && (way.Some? ==> Frame(Now(b, id), b.held[id].answer, at, stay, way.value) in b'.frames)
  {
    KeptIsSendable(b, id);
    if way.Some? { SendOk(b, id, b.held[id].answer, at, stay, way.value); }
  }

  lemma HandedOn(b: Book, id: Id, keeps: bool, sent: bool, removed: bool)
    requires Ok(b) && id in b.held
    ensures var b' := Concluded(b, id, keeps, sent, removed);
      && b'.(held := b.held, unacked := b.unacked, journal := b.journal, forgets := b.forgets) == b
      && Answered(b') == Answered(b)
      && (id in b'.unacked <==> keeps) && (id in b'.held <==> !keeps && !sent)
      && (if keeps || !sent || !removed then b'.journal == b.journal else b'.journal == b.journal - {id})
      && b'.held - {id} == b.held - {id} && b'.unacked - {id} == b.unacked - {id}
  {
    KeptIsSendable(b, id);
    MoveOk(b, id, true);
    LetGoOk(b, id);
    EraseOk(LetGo(b, id), id);
  }

  /** The session after a frame came in on `ws`. */
  function Heard(s: Session, ws: nat, open: bool, now: int): Session {
    if open then Using(AtTime(s, now), ws) else AtTime(s, now)
  }

  /** The kept answer went out once more, or nothing did. */
  predicate Repeated(b: Book, id: Id, now: int, stay: nat, way: Option<Way>, b': Book) {
    b' == if way.Some? then Send(b, id, Owed(b, id), now, stay, way.value) else b
  }

  /** The file of an unconfirmed outcome holds its answer. */
  predicate Filed(b: Book, id: Id) {
    && id in b.journal && id in b.unacked && b.journal[id].outcome.Some?
    && b.journal[id].outcome.value.answer == b.unacked[id].answer
  }

  lemma AdoptOwed(b: Book, was: Book, b': Book, ids: set<Id>, id: Id)
    requires OwedOf(b, was, ids) == Sound && id in Orphans(was) && b'.journal == was.journal
    requires forall k :: k != id ==> At(b'.unacked, k) == At(was.unacked, k) && At(b'.held, k) == At(was.held, k)
    requires Owed(b', id) == JournalAnswer(was.journal[id])
    ensures OwedOf(b, b', ids) == Sound
  {
    forall k | k in ids ensures Owed(b', k) == Owed(b, k) {
      if k != id { assert At(b'.unacked, k) == At(was.unacked, k) && At(b'.held, k) == At(was.held, k); }
      assert Owed(was, k) == Owed(b, k);
    }
  }

  lemma StaysFiled(b: Book, b': Book, done: set<Id>, id: Id)
    requires b'.unacked == b.unacked && id in b.journal && id in b.unacked && b'.journal.Keys == b.journal.Keys
    requires forall k :: k in b'.journal && k != id ==> b'.journal[k] == b.journal[k]
    requires b.unacked[id].answer == JournalAnswer(b.journal[id])
    requires b'.journal[id] == b.journal[id] || b'.journal[id].outcome == Some(b'.unacked[id])
    ensures b'.journal[id].outcome.Some? && (forall k :: k in done ==> Filed(b, k)) ==> forall k :: k in done + {id} ==> Filed(b', k)
  {
    if b'.journal[id].outcome.Some? && (forall k :: k in done ==> Filed(b, k)) {
      forall k | k in done + {id} ensures Filed(b', k) {
        if k in done { assert Filed(b, k); }
      }
    }
  }

  class Outbox {
    var book: Book
    var session: Session
    var peer: Option<Peer>
    var acceptedAt: map<Id, int>
    var lastProgress: map<Id, Noted>
    var keptSince: map<Id, int>
    const sends: nat -> bool                  // whether the n-th send ever tried works
    const writes: nat -> bool                 // whether the n-th journal write works
    const removals: nat -> bool               // whether the n-th file removal works
    var sendTick: nat
    var writeTick: nat
    var removeTick: nat
    // Only the methods that name one of these change it.
    ghost var confirmed: set<Id>
    ghost var dropped: set<Id>
    ghost var released: map<Id, Frame>    // let go of for this frame
    ghost var older: set<nat>             // stays in which outcomes were let go of without confirmation
    ghost var lost: set<Id>
    ghost var restarted: set<Id>          // ever accepted while marked as sent on the session socket

    ghost predicate Valid()
      reads this
    {
      && Ok(book) && PaceOf(session, book.frames) == Sound
      && BackingOf(book, confirmed + dropped, released, lost, older) == Sound
      && MarksOf(session, book, lost, restarted) == Sound
    }

    constructor (sends: nat -> bool, writes: nat -> bool, removals: nat -> bool)
      ensures Valid() && this.sends == sends && this.writes == writes && this.removals == removals
      ensures book == EMPTY && session == NO_SESSION && peer == None
      ensures sendTick == 0 && writeTick == 0 && removeTick == 0
      ensures confirmed == {} && dropped == {} && released == map[] && older == {} && lost == {} && restarted == {}
    {
      book, session, peer, acceptedAt, lastProgress, keptSince := EMPTY, NO_SESSION, None, map[], map[], map[];
      sendTick, writeTick, removeTick := 0, 0, 0;
      confirmed, dropped, released, older, lost, restarted := {}, {}, map[], {}, {}, {};
      this.sends, this.writes, this.removals := sends, writes, removals;
    }

    function Recovers(): bool
      reads `peer
    {
      peer.Some? && peer.value.recovers
    }

    function KeepsUntilAck(): bool
      reads `peer
    {
      Recovers() || (peer.Some? && !peer.value.known)
    }

    /** A control plane confirms if it said so; until one has said anything, outcomes are kept as if it did. */
    lemma Kinds()
      ensures Recovers() <==> peer == Some(Peer(true, true)) || peer == Some(Peer(true, false))
      ensures KeepsUntilAck() <==> Recovers() || peer == Some(Peer(false, false))
    {
    }

    ghost predicate AllRemoved() {
      forall k :: removals(k)
    }

    // -------------------------------------------------------------- sending

    method TrySend() returns (ok: bool)
      modifies `sendTick
      ensures ok == sends(old(sendTick)) && sendTick == old(sendTick) + 1
    {
      ok := sends(sendTick);
      sendTick := sendTick + 1;
    }

    method TryWrite() returns (ok: bool)
      modifies `writeTick
      ensures ok == writes(old(writeTick)) && writeTick == old(writeTick) + 1
    {
      ok := writes(writeTick);
      writeTick := writeTick + 1;
    }

    method SetClock(now: int)
      requires Valid()
      modifies `session
      ensures Valid() && session == AtTime(old(session), now)
    {
      PaceAtTime(session, now, book.frames);
      session := AtTime(session, now);
    }

    method UseSocket(ws: nat)
      requires Valid()
      modifies `session
      ensures Valid() && session == Using(old(session), ws)
    {
      PaceUsing(session, ws, book.frames);
      session := Using(session, ws);
    }

    /** A frame goes out at once; one that the session socket took is marked. */
    method Emit(id: Id, answer: Answer, way: Way)
      requires Valid() && Sendable(book, id, answer) && way != Paced
      modifies `book, `session
      ensures Valid() && book == Send(old(book), id, answer, old(session).clock, old(session).stay, way)
      ensures session == if way == Direct then Marked(old(session), id, false) else old(session)
    {
      SendOk(book, id, answer, session.clock, session.stay, way);
      PaceFrame(session, book.frames, Frame(Now(book, id), answer, session.clock, session.stay, way));
      StillBacked(book, Send(book, id, answer, session.clock, session.stay, way), confirmed + dropped, released, lost, older);
      book := Send(book, id, answer, session.clock, session.stay, way);
      if way == Direct { session := Marked(session, id, false); }
    }

    /** Send on the session socket, falling back to the one the command came in on. Not paced. */
    method SendLive(id: Id, answer: Answer) returns (way: Option<Way>)
      requires Valid() && Sendable(book, id, answer)
      modifies `book, `session, `sendTick
      ensures Valid() && way == Taken(old(session), sends, old(sendTick))
      ensures book == if way.Some? then Send(old(book), id, answer, old(session).clock, old(session).stay, way.value) else old(book)
      ensures session == if way == Some(Direct) then Marked(old(session), id, false) else old(session)
      ensures sendTick == old(sendTick) + if session.socket.Some? && way != Some(Direct) then 2 else 1
    {
      if session.socket.Some? {
        var sent := TrySend();
        if sent {
          Emit(id, answer, Direct);
          return Some(Direct);
        }
      }
      var sent := TrySend();
      if !sent { return None; }
      Emit(id, answer, Fallback);
      return Some(Fallback);
    }

    /** A kept outcome goes out and is counted in the window in use. */
    method EmitPaced(id: Id, answer: Answer)
      requires Valid() && Sendable(book, id, answer) && session.socket.Some? && Room(session) > 0
      modifies `book, `session
      ensures Valid() && book == Send(old(book), id, answer, old(session).clock, old(session).stay, Paced)
      ensures session == Marked(Rolled(old(session)), id, true)
    {
      SendOk(book, id, answer, session.clock, session.stay, Paced);
      PaceRolled(session, book.frames);
      PaceFrame(Rolled(session), book.frames, Frame(Now(book, id), answer, session.clock, session.stay, Paced));
      MarkedStray(book, session, id, answer);
      StillBacked(book, Send(book, id, answer, session.clock, session.stay, Paced), confirmed + dropped, released, lost, older);
      book := Send(book, id, answer, session.clock, session.stay, Paced);
      session := Marked(Rolled(session), id, true);
    }

    /** Send a kept outcome, if the burst window has room and the session socket takes it. */
    method SendKept(id: Id, answer: Answer) returns (sent: bool)
      requires Valid() && Sendable(book, id, answer)
      modifies `book, `session, `sendTick
      ensures Valid() && sendTick == old(sendTick) + if session.socket.Some? && Room(old(session)) > 0 then 1 else 0
      ensures sent <==> session.socket.Some? && Room(old(session)) > 0 && sends(old(sendTick))
      ensures book == if sent then Send(old(book), id, answer, old(session).clock, old(session).stay, Paced) else old(book)
      ensures session == if sent then Marked(Rolled(old(session)), id, true) else Rolled(old(session))
    {
      PaceRolled(session, book.frames);
      assert Stray(Rolled(session), book) == Stray(session, book);
      if Room(session) <= 0 || session.socket.None? {
        session := Rolled(session);
        return false;
      }
      sent := TrySend();
      if sent { EmitPaced(id, answer); } else { session := Rolled(session); }
    }

    // -------------------------------------------------------------- accepting and progress

    /** A new acceptance enters the book: nothing that happened to an earlier one counts for it. */
    method Enter(id: Id, now: int, written: bool)
      requires Valid() && !Known(book, id)
      modifies `book, `confirmed, `dropped, `released, `lost, `restarted
      ensures Valid() && book == Accept(old(book), id, now, written)
      ensures confirmed == old(confirmed) - {id} && dropped == old(dropped) - {id}
      ensures released == old(released) - {id} && lost == old(lost) - {id}
      ensures restarted == old(restarted) + if id in session.sentOn then {id} else {}
    {
      AcceptOk(book, id, now, written);
      AcceptOnStay(book, id, now, written, session.stay);
      AcceptBacked(book, Accept(book, id, now, written), id, session, confirmed, dropped, released, lost, restarted, older);
      book := Accept(book, id, now, written);
      confirmed, dropped, released, lost := confirmed - {id}, dropped - {id}, released - {id}, lost - {id};
      restarted := restarted + if id in session.sentOn then {id} else {};
    }

    /** A command is accepted. */
    method MarkInFlight(id: Id, now: int)
      requires Valid() && !Known(book, id)
      modifies `book, `session, `acceptedAt, `writeTick, `confirmed, `dropped, `released, `lost, `restarted
      ensures Valid() && session == AtTime(old(session), now)
      ensures book == Accept(old(book), id, now, writes(old(writeTick))) && writeTick == old(writeTick) + 1
      ensures acceptedAt == old(acceptedAt)[id := now]
      ensures confirmed == old(confirmed) - {id} && dropped == old(dropped) - {id}
      ensures released == old(released) - {id} && lost == old(lost) - {id}
      ensures restarted == old(restarted) + if id in old(session).sentOn then {id} else {}
    {
      SetClock(now);
      var written := TryWrite();
      acceptedAt := acceptedAt[id := now];
      Enter(id, now, written);
    }

    /** A step plan arrives: the outbox keeps the newest one of each running command, and writes some of them. */
    method NoteProgress(id: Id, plan: Plan, now: int)
      requires Valid()
      modifies `lastProgress, `book, `session, `writeTick
      ensures Valid() && session == AtTime(old(session), now)
      ensures id !in old(book).running ==> book == old(book) && lastProgress == old(lastProgress)
      ensures id in old(book).running ==> lastProgress.Keys == old(lastProgress.Keys) + {id} && lastProgress[id].plan == plan
      ensures id in old(book).running && Due(old(lastProgress), id, plan, now) && writes(old(writeTick)) ==>
        lastProgress[id].writtenAt == now && id in book.journal && book.journal[id].progress == Some(plan)
      ensures id in old(book).running && !Due(old(lastProgress), id, plan, now) ==>
        book == old(book) && lastProgress[id].writtenAt == old(lastProgress)[id].writtenAt
      ensures book == old(book) || exists at :: book == Replan(old(book), id, plan, at)
    {
      SetClock(now);
      if id !in book.running { return; }
      if !Due(lastProgress, id, plan, now) {
        lastProgress := lastProgress[id := Noted(plan, lastProgress[id].writtenAt)];
        return;
      }
      lastProgress := lastProgress[id := Noted(plan, now)];
      var written := TryWrite();
      if !written { return; }
      var at := if id in acceptedAt then acceptedAt[id] else now;
      ReplanOk(book, id, plan, at);
      book := Replan(book, id, plan, at);
    }

    /** Send the step plan of a running command, on the session socket or the one given. */
    method SendPlan(id: Id) returns (shown: Option<Plan>)
      modifies `sendTick
      ensures shown.Some? ==> id in lastProgress && shown.value == lastProgress[id].plan
      ensures id in lastProgress ==> (shown.Some? <==> sends(old(sendTick)) || (session.socket.Some? && sends(old(sendTick) + 1)))
    {
      if id !in lastProgress { return None; }
      var sent := false;
      if session.socket.Some? { sent := TrySend(); }
      if !sent { sent := TrySend(); }
      shown := if sent then Some(lastProgress[id].plan) else None;
    }

    /**
     * A repeated dispatch is answered, not run: true when this process knows the command. A
     * running one is answered with its latest step plan, a finished one with its kept outcome.
     */
    method AnswerRepeatedDispatch(id: Id, ws: nat, open: bool, now: int) returns (answered: bool, shown: Option<Plan>)
      requires Valid()
      modifies `session, `book, `sendTick
      ensures Valid() && answered == Known(old(book), id)
      ensures shown.Some? ==> id in book.running && id in lastProgress && shown.value == lastProgress[id].plan
      ensures id in old(book).running && id in lastProgress ==>
        (shown.Some? <==> sends(old(sendTick)) || (session.socket.Some? && sends(old(sendTick) + 1)))
      ensures !answered || id in old(book).running ==> book == old(book) && session == Heard(old(session), ws, open, now)
      ensures answered && id !in old(book).running ==>
        Repeated(old(book), id, now, session.stay, Taken(Heard(old(session), ws, open, now), sends, old(sendTick)), book)
      ensures open ==> session.socket == Some(ws)
      ensures !answered ==> sendTick == old(sendTick)
      ensures open && sends(old(sendTick)) && answered && id !in old(book).running ==> sendTick == old(sendTick) + 1
    {
      shown := None;
      SetClock(now);
      if open { UseSocket(ws); }
      KeptIsSendable(book, id);
      if id in book.running {
        shown := SendPlan(id);
        return true, shown;
      }
      if id in book.held || id in book.unacked {
        var way := SendLive(id, Owed(book, id));
        return true, shown;
      }
      return false, shown;
    }

    /** The router's guard: only a dispatch that is not answered starts the handler. */
    method Dispatch(id: Id, ws: nat, open: bool, now: int) returns (started: bool)
      requires Valid()
      modifies `book, `session, `acceptedAt, `sendTick, `writeTick, `confirmed, `dropped, `released, `lost, `restarted
      ensures Valid() && started == !Known(old(book), id)
      ensures started ==> book == Accept(old(book), id, now, writes(old(writeTick)))
      ensures started ==> sendTick == old(sendTick) && writeTick == old(writeTick) + 1
      ensures started ==> session == Heard(old(session), ws, open, now)
      ensures started ==> restarted == old(restarted) + (if id in session.sentOn then {id} else {})
      ensures confirmed <= old(confirmed) && dropped <= old(dropped) && lost <= old(lost)
      ensures released == old(released) || released == old(released) - {id}
      ensures !started ==> restarted == old(restarted) && book.(frames := old(book).frames) == old(book)
      ensures open ==> session.socket == Some(ws)
    {
      var answered, shown := AnswerRepeatedDispatch(id, ws, open, now);
      if answered { return false; }
      MarkInFlight(id, now);
      return true;
    }

    // -------------------------------------------------------------- delivering and forgetting

    /** Remove a journal file that there is a reason to remove; a failure leaves it. */
    method RemoveJournal(id: Id)
      requires Valid() && !Known(book, id) && id in confirmed + dropped + released.Keys + lost
      modifies `book, `removeTick
      ensures Valid() && removeTick == old(removeTick) + 1
      ensures book == if removals(old(removeTick)) then Erase(old(book), id) else old(book)
    {
      EraseOk(book, id);
      if removals(removeTick) { book := Erase(book, id); }
      removeTick := removeTick + 1;
    }

    /** Let go of an outcome that there is a reason to let go of, and remove its file. */
    method Forget(id: Id)
      requires Valid() && id !in book.running && id in confirmed + dropped + released.Keys + lost
      modifies `book, `keptSince, `removeTick
      ensures Valid() && keptSince == old(keptSince) - {id}
      ensures book == if removals(old(removeTick)) then Erase(LetGo(old(book), id), id) else LetGo(old(book), id)
    {
      LetGoOk(book, id);
      book := LetGo(book, id);
      keptSince := keptSince - {id};
      RemoveJournal(id);
    }

    /** A confirmation: the outbox is done with `id`, unless that command runs. */
    method Acknowledge(id: Id)
      requires Valid()
      modifies `book, `keptSince, `removeTick, `confirmed
      ensures Valid()
      ensures id in old(book).running ==> book == old(book) && confirmed == old(confirmed)
      ensures id !in old(book).running ==> confirmed == old(confirmed) + {id} && !Known(book, id)
      ensures id !in old(book).running ==>
        book == if removals(old(removeTick)) then Erase(LetGo(old(book), id), id) else LetGo(old(book), id)
    {
      if id in book.running { return; }
      confirmed := confirmed + {id};
      Forget(id);
    }

    /** The command stops running and its outcome goes to disk, unless that write fails. */
    method JournalOutcome(id: Id, answer: Answer, at: Option<int>, now: int)
      requires Valid() && id in book.running && answer.Handler?
      modifies `lastProgress, `acceptedAt, `book, `session, `writeTick
      ensures Valid() && session == AtTime(old(session), now) && id in book.held
      ensures book == Finish(old(book), id, FinalEntry(old(acceptedAt), id, answer, at, now), writes(old(writeTick)))
      ensures lastProgress == old(lastProgress) - {id} && acceptedAt == old(acceptedAt) - {id}
    {
      SetClock(now);
      lastProgress := lastProgress - {id};
      var entry := FinalEntry(acceptedAt, id, answer, at, now);
      acceptedAt := acceptedAt - {id};
      var written := TryWrite();
      FinishOk(book, id, entry, written);
      book := Finish(book, id, entry, written);
    }

    /** Keep an outcome just handed in until it is confirmed; without that, let go of one that frame `f` carried. */
    method Conclude(id: Id, sent: bool, ghost f: Frame)
      requires Valid() && id in book.held && (sent ==> f in book.frames && f.key == Now(book, id) && f.stay == session.stay)
      modifies `book, `removeTick, `released, `older
      ensures Valid() && book == Concluded(old(book), id, KeepsUntilAck(), sent, removals(old(removeTick)))
      ensures sent && !KeepsUntilAck() ==> released == old(released)[id := f] && older == old(older) + {session.stay}
      ensures !sent || KeepsUntilAck() ==> released == old(released) && older == old(older)
    {
      if KeepsUntilAck() {
        MoveOk(book, id, true);
        book := Move(book, id, true);
      } else if sent {
        KeptIsSendable(book, id);
        LetGoOk(book, id);
        Release(id, f);
        RemoveJournal(id);
      }
    }

    /** Let go of a held outcome that was sent. */
    method Release(id: Id, ghost f: Frame)
      requires Valid() && id in book.held && f in book.frames && f.key == Now(book, id) && f.stay == session.stay
      modifies `book, `released, `older
      ensures Valid() && book == LetGo(old(book), id) && released == old(released)[id := f] && older == old(older) + {session.stay}
    {
      LetGoOk(book, id);
      OneMoreReleased(book, confirmed + dropped, released, lost, older, id, f);
      released, older := released[id := f], older + {session.stay};
      StillBacked(book, LetGo(book, id), confirmed + dropped, released, lost, older);
      book := LetGo(book, id);
    }

    /** Send an outcome just handed in, and keep it or let go of it. */
    method HandOver(id: Id) returns (way: Option<Way>)
      requires Valid() && id in book.held
      modifies `book, `session, `sendTick, `removeTick, `released, `older
      ensures Valid() && way == Taken(old(session), sends, old(sendTick))
      ensures session == if way == Some(Direct) then Marked(old(session), id, false) else old(session)
      ensures book == Handed(old(book), id, old(session).clock, old(session).stay, KeepsUntilAck(), way, removals(old(removeTick)))
      ensures way.Some? && !KeepsUntilAck() ==>
        && released == old(released)[id := Frame(Now(old(book), id), old(book).held[id].answer, session.clock, session.stay, way.value)]
        && older == old(older) + {session.stay}
      ensures way.None? || KeepsUntilAck() ==> released == old(released) && older == old(older)
      ensures sendTick == old(sendTick) + if session.socket.Some? && way != Some(Direct) then 2 else 1
    {
      KeptIsSendable(book, id);
      ghost var b, answer := book, book.held[id].answer;
      way := SendLive(id, book.held[id].answer);
      ghost var f := Frame(Now(b, id), answer, session.clock, session.stay, if way.Some? then way.value else Fallback);
      assert way.Some? ==> f == book.frames[|book.frames| - 1];
      Conclude(id, way.Some?, f);
    }

    /**
     * A handler is done: its outcome is written, then sent, and then kept, held or let go of,
     * depending on what the control plane is known to confirm.
     */
    method Deliver(id: Id, answer: Answer, at: Option<int>, now: int) returns (way: Option<Way>, ghost finished: Book)
      requires Valid() && id in book.running && answer.Handler?
      modifies `lastProgress, `acceptedAt, `book, `session, `sendTick, `writeTick, `removeTick, `released, `older
      ensures Valid() && way == Taken(AtTime(old(session), now), sends, old(sendTick))
      ensures session == if way == Some(Direct) then Marked(AtTime(old(session), now), id, false) else AtTime(old(session), now)
      ensures finished == Finish(old(book), id, FinalEntry(old(acceptedAt), id, answer, at, now), writes(old(writeTick)))
      ensures book == Handed(finished, id, now, old(session).stay, KeepsUntilAck(), way, removals(old(removeTick)))
      ensures way.Some? && !KeepsUntilAck() ==>
        && released == old(released)[id := Frame(Now(old(book), id), answer, now, session.stay, way.value)]
        && older == old(older) + {session.stay}
      ensures way.None? || KeepsUntilAck() ==> released == old(released) && older == old(older)
      ensures sendTick == old(sendTick) + if session.socket.Some? && way != Some(Direct) then 2 else 1
    {
      JournalOutcome(id, answer, at, now);
      finished := book;
      way := HandOver(id);
    }

    // -------------------------------------------------------------- loops over what is kept

    /** Held outcomes become unconfirmed ones, for a control plane that confirms. */
    method PromoteHeld()
      requires Valid()
      modifies `book
      ensures Valid() && Steady(old(book), book) && SameFiles(old(book), book) && book.held == map[]
      ensures book.unacked == old(book.unacked) + old(book.held)
    {
      while book.held.Keys != {}
        invariant Valid() && Steady(old(book), book) && SameFiles(old(book), book)
        invariant book.unacked + book.held == old(book.unacked) + old(book.held)
        decreases book.held.Keys
      {
        var id :| id in book.held.Keys;
        MoveOk(book, id, true);
        KeptIsSendable(book, id);
        assert book.unacked[id := book.held[id]] + (book.held - {id}) == book.unacked + book.held;
        book := Move(book, id, true);
      }
    }

    /** The control plane turns out not to confirm: unconfirmed outcomes become held ones. */
    method ReleaseForOlderPeer()
      requires Valid()
      modifies `book
      ensures Valid() && Steady(old(book), book) && SameFiles(old(book), book)
      ensures Recovers() ==> book == old(book)
      ensures !Recovers() ==> book.unacked == map[] && book.held == old(book.held) + old(book.unacked)
    {
      if Recovers() { return; }
      while book.unacked.Keys != {}
        invariant Valid() && Steady(old(book), book) && SameFiles(old(book), book)
        invariant book.held + book.unacked == old(book.held) + old(book.unacked)
        decreases book.unacked.Keys
      {
        var id :| id in book.unacked.Keys;
        MoveOk(book, id, false);
        KeptIsSendable(book, id);
        assert book.held[id := book.unacked[id]] + (book.unacked - {id}) == book.held + book.unacked;
        book := Move(book, id, false);
      }
    }

    /** Let go of a held outcome that is marked: released by the frame its mark stands for, or lost. */
    method ForgetHeld(id: Id, ghost f: Frame)
      requires Valid() && !Recovers() && id in book.held
      requires id !in Stray(session, book) ==> f in book.frames && f.key == Now(book, id) && f.stay == session.stay
      requires id in Stray(session, book) ==> id in restarted
      modifies `book, `released, `older, `lost
      ensures Valid() && book == LetGo(old(book), id)
      ensures released == if id in Stray(session, old(book)) then old(released) else old(released)[id := f]
      ensures lost == if id in Stray(session, old(book)) then old(lost) + {id} else old(lost)
      ensures older <= old(older) + {session.stay}
    {
      LetGoOk(book, id);
      if id in Stray(session, book) {
        lost := lost + {id};
      } else {
        OneMoreReleased(book, confirmed + dropped, released, lost, older, id, f);
        released, older := released[id := f], older + {session.stay};
      }
      StillBacked(book, LetGo(book, id), confirmed + dropped, released, lost, older);
      assert Stray(session, LetGo(book, id)) == Stray(session, book);
      book := LetGo(book, id);
    }

    /** The frame that a mark stands for, unless it is a stray one. */
    ghost method FrameOf(id: Id) returns (f: Frame)
      requires id in session.sentOn
      ensures id !in Stray(session, book) ==> f in book.frames && f.key == Now(book, id) && f.stay == session.stay && f.way != Fallback
    {
      if id !in Stray(session, book) {
        f :| f in book.frames && f.stay == session.stay && f.way != Fallback && f.key.round == book.rounds[f.key.id] && f.key.id == id;
      } else {
        f := Frame(Now(book, id), Interrupted(None), 0, 0, Fallback);
      }
    }

    /** Let go of a held outcome that is marked as sent on this socket. */
    method ForgetMarked(id: Id, ghost b: Book, ghost s: Session, ghost rel: map<Id, Frame>, ghost gone: set<Id>, ghost done: set<Id>)
      requires Valid() && !Recovers() && id in book.held && id in session.sentOn
      requires FlushedOf(b, s, book, session, done) == Sound
      requires SplitOf(Stray(s, b), s.stay, rel, gone, released, lost, done) == Sound
      modifies `book, `released, `older, `lost
      ensures Valid() && older <= old(older) + {session.stay}
      ensures FlushedOf(b, s, book, session, done + {id}) == Sound && book.frames == old(book.frames)
      ensures book.held == old(book.held) - {id} && peer == old(peer)
      ensures SplitOf(Stray(s, b), s.stay, rel, gone, released, lost, done + {id}) == Sound
    {
      ghost var f := FrameOf(id);
      FlushedMarked(b, s, book, session, done, id);
      SplitMore(Stray(s, b), s.stay, rel, gone, released, lost, done, id, f);
      ForgetHeld(id, f);
    }

    /** Send a held outcome, after others of a flush. */
    method SendHeldOne(id: Id, ghost b: Book, ghost s: Session, ghost t: nat, ghost done: set<Id>) returns (ok: bool)
      requires Valid() && id in book.held
      requires FlushedOf(b, s, book, session, done) == Sound && RunOf(s, sends, t, sendTick, Grown(b, book), true) == Sound
      modifies `book, `session, `sendTick
      ensures Valid() && RunOf(s, sends, t, sendTick, Grown(b, book), ok) == Sound && peer == old(peer)
      ensures ok ==> book == Send(old(book), id, Owed(old(book), id), old(session).clock, old(session).stay, Paced)
      ensures ok ==> session == Marked(Rolled(old(session)), id, true)
      ensures !ok ==> book == old(book) && session == Rolled(old(session))
    {
      KeptIsSendable(book, id);
      WireRoom(b, s, book, session, done - s.sentOn.Keys);
      RunMore(s, sends, t, sendTick, Grown(b, book), session);
      ok := SendKept(id, Owed(book, id));
    }

    /** Send a held outcome that is not marked as sent on this socket, and let go of it. */
    method SendAndForget(id: Id, ghost b: Book, ghost s: Session, ghost t: nat, ghost rel: map<Id, Frame>, ghost gone: set<Id>, ghost done: set<Id>)
      returns (ok: bool)
      requires Valid() && !Recovers() && id in book.held && id !in session.sentOn
      requires FlushedOf(b, s, book, session, done) == Sound && RunOf(s, sends, t, sendTick, Grown(b, book), true) == Sound
      requires SplitOf(Stray(s, b), s.stay, rel, gone, released, lost, done) == Sound
      modifies `book, `session, `sendTick, `released, `older, `lost
      ensures Valid() && older <= old(older) + {session.stay} && (!ok ==> book == old(book) && session == Rolled(old(session)))
      ensures (ok ==> book.held == old(book.held) - {id}) && session.stay == old(session).stay && peer == old(peer)
      ensures FlushedOf(b, s, book, session, if ok then done + {id} else done) == Sound
      ensures SplitOf(Stray(s, b), s.stay, rel, gone, released, lost, if ok then done + {id} else done) == Sound
      ensures RunOf(s, sends, t, sendTick, Grown(b, book), ok) == Sound
    {
      FlushedRolled(b, s, book, session, done);
      ok := SendHeldOne(id, b, s, t, done);
      if ok { ForgetSent(id, old(book), old(session), b, s, rel, gone, done); }
    }

    /** Let go of a held outcome that has just been sent. */
    method ForgetSent(id: Id, ghost b1: Book, ghost s1: Session,
                      ghost b: Book, ghost s: Session, ghost rel: map<Id, Frame>, ghost gone: set<Id>, ghost done: set<Id>)
      requires Valid() && !Recovers() && Ok(b1) && id in b1.held && id !in s1.sentOn
      requires book == Send(b1, id, Owed(b1, id), s1.clock, s1.stay, Paced) && session == Marked(Rolled(s1), id, true)
      requires FlushedOf(b, s, b1, s1, done) == Sound && SplitOf(Stray(s, b), s.stay, rel, gone, released, lost, done) == Sound
      modifies `book, `released, `older, `lost
      ensures Valid() && older <= old(older) + {session.stay} && peer == old(peer)
      ensures book.frames == old(book.frames) && book.held == old(book.held) - {id}
      ensures FlushedOf(b, s, book, session, done + {id}) == Sound
      ensures SplitOf(Stray(s, b), s.stay, rel, gone, released, lost, done + {id}) == Sound
    {
      FlushedSent(b, s, b1, s1, done, id);
      SentStray(b, s, b1, s1, done, id);
      ghost var f := Frame(Now(b1, id), Owed(b1, id), s1.clock, s1.stay, Paced);
      assert f == book.frames[|book.frames| - 1];
      SplitMore(Stray(s, b), s.stay, rel, gone, released, lost, done, id, f);
      ForgetHeld(id, f);
    }

    /** Let go of one held outcome, which is marked or goes out now. */
    method PassOne(id: Id, ghost b: Book, ghost s: Session, ghost t: nat, ghost rel: map<Id, Frame>, ghost gone: set<Id>, ghost done: set<Id>)
      returns (ok: bool)
      requires Valid() && !Recovers() && id in book.held && session.stay == s.stay
      requires FlushedOf(b, s, book, session, done) == Sound && RunOf(s, sends, t, sendTick, Grown(b, book), true) == Sound
      requires SplitOf(Stray(s, b), s.stay, rel, gone, released, lost, done) == Sound
      modifies `book, `session, `sendTick, `released, `older, `lost
      ensures Valid() && older <= old(older) + {session.stay} && session.stay == s.stay && peer == old(peer)
      ensures book.held == if ok then old(book.held) - {id} else old(book.held)
      ensures FlushedOf(b, s, book, session, if ok then done + {id} else done) == Sound
      ensures SplitOf(Stray(s, b), s.stay, rel, gone, released, lost, if ok then done + {id} else done) == Sound
      ensures RunOf(s, sends, t, sendTick, Grown(b, book), ok) == Sound && (!ok ==> RestOf(book.held.Keys, session) == Sound)
    {
      if id in session.sentOn {
        ForgetMarked(id, b, s, rel, gone, done);
        ok := true;
      } else {
        ok := SendAndForget(id, b, s, t, rel, gone, done);
        assert !ok ==> id in book.held.Keys && id !in session.sentOn;
      }
    }

    /**
     * Send held outcomes that are not marked as sent on this socket, as far as the window allows,
     * and let go of these and of the marked ones.
     */
    method SendHeld() returns (done: set<Id>)
      requires Valid() && !Recovers()
      modifies `book, `session, `sendTick, `released, `older, `lost
      ensures Valid() && older <= old(older) + {session.stay}
      ensures FlushedOf(old(book), old(session), book, session, done) == Sound && RestOf(book.held.Keys, session) == Sound
      ensures SplitOf(Stray(old(session), old(book)), session.stay, old(released), old(lost), released, lost, done) == Sound
      ensures RunOf(old(session), sends, old(sendTick), sendTick, Grown(old(book), book), book.held == map[]) == Sound
    {
      done := {};
      ghost var b, s, rel, gone := book, session, released, lost;
      FlushedNothing(b, s);
      SplitNothing(Stray(s, b), s.stay, rel, gone);
      RunNothing(s, sends, sendTick);
      while book.held.Keys != {}
        invariant Valid() && older <= old(older) + {session.stay} && session.stay == s.stay
        invariant FlushedOf(b, s, book, session, done) == Sound
        invariant RunOf(s, sends, old(sendTick), sendTick, Grown(b, book), true) == Sound
        invariant SplitOf(Stray(s, b), s.stay, rel, gone, released, lost, done) == Sound
        decreases book.held.Keys
      {
        var id :| id in book.held.Keys;
        var ok := PassOne(id, b, s, old(sendTick), rel, gone, done);
        if !ok { return; }
        done := done + {id};
      }
    }

    /** Remove the files of outcomes there is a reason to be done with; a failure leaves the file. */
    method RemoveAll(ids: set<Id>)
      requires Valid() && ids <= confirmed + dropped + released.Keys + lost
      requires forall id :: id in ids ==> !Known(book, id)
      modifies `book, `removeTick
      ensures Valid() && Steady(old(book), book) && FilesOf(old(book), book, ids) == Sound
      ensures book.held == old(book.held) && book.unacked == old(book.unacked) && book.frames == old(book.frames)
      ensures AllRemoved() ==> ids !! book.journal.Keys
    {
      var rest := ids;
      while rest != {}
        invariant Valid() && Steady(old(book), book) && rest <= ids && FilesOf(old(book), book, ids) == Sound
        invariant book.held == old(book.held) && book.unacked == old(book.unacked) && book.frames == old(book.frames)
        invariant AllRemoved() ==> (ids - rest) !! book.journal.Keys
        decreases rest
      {
        var id :| id in rest;
        RemoveJournal(id);
        rest := rest - {id};
      }
    }

    /** Held outcomes are sent to a control plane that does not confirm, and done with. */
    method FlushHeld()
      requires Valid() && !Recovers()
      modifies `book, `session, `sendTick, `removeTick, `released, `older, `lost
      ensures Valid() && older <= old(older) + {session.stay}
      ensures FlushOf(old(book), old(session), book, session) == Sound
      ensures SplitOf(Stray(old(session), old(book)), session.stay, old(released), old(lost), released, lost,
                      old(book.held.Keys) - book.held.Keys) == Sound
      ensures RunOf(old(session), sends, old(sendTick), sendTick, Grown(old(book), book), book.held == map[]) == Sound
      ensures Orphans(old(book)) <= Orphans(book) <= Orphans(old(book)) + released.Keys + lost
      ensures AllRemoved() ==> Orphans(book) == Orphans(old(book))
    {
      var done := SendHeld();
      ghost var b := book;
      forall id | id in done ensures !Known(book, id) {
        assert Placed(CellOf(old(book), id));
      }
      RemoveAll(done);
      FlushRemoved(old(book), old(session), b, book, session, done);
      FlushOwed(old(book), old(session), book, session);
    }

    /** The same, as what follows sees it. */
    method PassHeld()
      requires Valid() && !Recovers()
      modifies `book, `session, `sendTick, `removeTick, `released, `older, `lost
      ensures Valid() && Steady(old(book), book) && book.unacked == old(book.unacked) && book.journal.Keys <= old(book.journal.Keys)
      ensures PassedOf(old(book), old(session), book, session) == Sound
      ensures RunOf(old(session), sends, old(sendTick), sendTick, Grown(old(book), book), book.held == map[]) == Sound
      ensures older <= old(older) + {session.stay} && FreshOf(old(released), released, session.stay) == Sound
      ensures Orphans(book) <= Orphans(old(book)) + released.Keys + lost
      ensures AllRemoved() ==> Orphans(book) == Orphans(old(book))
      ensures peer == old(peer)
    {
      FlushHeld();
      FlushPassed(old(book), old(session), book, session);
    }

    /** Answer for one command of a daemon that died. */
    method Adopt(id: Id)
      requires Valid() && id in Orphans(book)
      modifies `book, `keptSince
      ensures Valid() && Steady(old(book), book) && book.journal == old(book.journal) && book.frames == old(book.frames)
      ensures Orphans(book) == Orphans(old(book)) - {id}
      ensures keptSince == old(keptSince)[id := EntryRecorded(book.journal[id])]
      ensures var reply := Outcome(JournalAnswer(book.journal[id]), Some(session.clock));
        if Recovers() then book.held == old(book.held) && book.unacked == old(book.unacked)[id := reply]
        else book.unacked == old(book.unacked) && book.held == old(book.held)[id := reply]
    {
      var entry := book.journal[id];
      var reply := Outcome(JournalAnswer(entry), Some(session.clock));
      keptSince := keptSince[id := EntryRecorded(entry)];
      KeepOk(book, id, reply);
      book := Keep(book, id, reply);
      if Recovers() {
        MoveOk(book, id, true);
        assert book.held - {id} == old(book.held);
        book := Move(book, id, true);
      }
    }

    /** Write the answer of an interrupted command to its file; a failure leaves the file as it was. */
    method JournalReply(id: Id)
      requires Valid() && id in book.unacked && id in book.journal
      modifies `book, `writeTick
      ensures Valid() && Steady(old(book), book) && book.frames == old(book.frames)
      ensures book.held == old(book.held) && book.unacked == old(book.unacked)
      ensures book.journal.Keys == old(book.journal.Keys)
      ensures forall k :: k in book.journal && k != id ==> book.journal[k] == old(book.journal)[k]
      ensures book.journal[id] == old(book.journal)[id] || book.journal[id].outcome == Some(book.unacked[id])
      ensures old(book.journal)[id].outcome.Some? ==> book.journal == old(book.journal)
      ensures AllWritten() ==> book.journal[id].outcome.Some?
    {
      if book.journal[id].outcome.Some? { return; }
      var ok := TryWrite();
      if !ok { return; }
      var reply := book.unacked[id];
      var at := if reply.at.Some? then reply.at else Some(session.clock);
      var entry := Entry(if id in acceptedAt then acceptedAt[id] else session.clock, None, Some(reply), at);
      RejournalOk(book, id, entry);
      book := Rejournal(book, id, entry);
    }

    /** Answer for every command of a daemon that died, with what its file says. */
    method AdoptAll() returns (ids: set<Id>)
      requires Valid()
      modifies `book, `keptSince
      ensures Valid() && Steady(old(book), book) && book.journal == old(book.journal) && book.frames == old(book.frames)
      ensures ids == Orphans(old(book)) && Orphans(book) == {}
      ensures TimesOf(old(book), old(keptSince), book, keptSince) == Sound
      ensures OwedOf(old(book), book, old(book.unacked.Keys + book.held.Keys) + ids) == Sound
      ensures Recovers() ==> book.held == old(book.held) && book.unacked.Keys == old(book.unacked.Keys) + ids
      ensures !Recovers() ==> book.unacked == old(book.unacked) && book.held.Keys == old(book.held.Keys) + ids
      ensures peer == old(peer)
    {
      ids := Orphans(book);
      var rest := ids;
      ghost var all := book.unacked.Keys + book.held.Keys + ids;
      while rest != {}
        invariant Valid() && Steady(old(book), book) && book.journal == old(book.journal) && book.frames == old(book.frames)
        invariant Orphans(book) == rest && rest <= ids
        invariant TimesOf(old(book), old(keptSince), book, keptSince) == Sound && OwedOf(old(book), book, all) == Sound
        invariant Recovers() ==> book.held == old(book.held) && book.unacked.Keys == old(book.unacked.Keys) + (ids - rest)
        invariant !Recovers() ==> book.unacked == old(book.unacked) && book.held.Keys == old(book.held.Keys) + (ids - rest)
        decreases rest
      {
        var id :| id in rest;
        ghost var was, kept := book, keptSince;
        Adopt(id);
        AdoptTimes(was, kept, book, keptSince, id);
        TimesTransitive(old(book), old(keptSince), was, kept, book, keptSince);
        AdoptOwed(old(book), was, book, all, id);
        rest := rest - {id};
      }
    }

    ghost predicate AllWritten() {
      forall k :: writes(k)
    }

    /** Journal the answers given for interrupted commands. */
    method JournalReplies(ids: set<Id>)
      requires Valid() && ids <= book.unacked.Keys && ids <= book.journal.Keys
      requires forall id :: id in ids ==> book.unacked[id].answer == JournalAnswer(book.journal[id])
      modifies `book, `writeTick
      ensures Valid() && Steady(old(book), book) && book.frames == old(book.frames)
      ensures book.held == old(book.held) && book.unacked == old(book.unacked)
      ensures book.journal.Keys == old(book.journal.Keys)
      ensures forall id :: id in book.journal && id !in ids ==> book.journal[id] == old(book.journal)[id]
      ensures AllWritten() ==> forall id :: id in ids ==> Filed(book, id)
    {
      var rest := ids;
      while rest != {}
        invariant Valid() && Steady(old(book), book) && book.frames == old(book.frames) && rest <= ids
        invariant book.held == old(book.held) && book.unacked == old(book.unacked)
        invariant book.journal.Keys == old(book.journal.Keys)
        invariant forall id :: id in book.journal && id !in ids ==> book.journal[id] == old(book.journal)[id]
        invariant forall id :: id in rest ==> book.journal[id] == old(book.journal)[id]
        invariant AllWritten() ==> forall id :: id in ids - rest ==> Filed(book, id)
        decreases rest
      {
        var id :| id in rest;
        ghost var was := book;
        JournalReply(id);
        StaysFiled(was, book, ids - rest, id);
        rest := rest - {id};
      }
    }

    /** Answer for every orphan, to a control plane that confirms; the answers are journaled when the writes work. */
    method AnswerConfirming()
      requires Valid() && Recovers() && book.held == map[]
      modifies `book, `keptSince, `writeTick
      ensures Valid() && Steady(old(book), book) && book.journal.Keys == old(book.journal.Keys)
      ensures Orphans(book) == {} && book.held == map[] && book.frames == old(book.frames)
      ensures KeptOf(old(book), book.unacked, {}) == Sound
      ensures TimesOf(old(book), old(keptSince), book, keptSince) == Sound
      ensures AllWritten() ==> forall id :: id in Orphans(old(book)) ==> Filed(book, id)
    {
      var ids := AdoptAll();
      AllKept(old(book), book);
      ghost var was, kept := book, keptSince;
      forall id | id in ids ensures book.unacked[id].answer == JournalAnswer(book.journal[id]) {
        assert Owed(book, id) == Owed(old(book), id);
      }
      JournalReplies(ids);
      RewriteTimes(was, kept, book);
      TimesTransitive(old(book), old(keptSince), was, kept, book, keptSince);
    }

    /** Answer for every orphan, to one that does not: sent, and done with. */
    method AnswerOlder()
      requires Valid() && !Recovers()
      modifies `book, `keptSince, `session, `sendTick, `removeTick, `released, `older, `lost
      ensures Valid() && Steady(old(book), book) && book.journal.Keys <= old(book.journal.Keys)
      ensures Orphans(book) <= released.Keys + lost && book.unacked == old(book.unacked)
      ensures AllRemoved() ==> Orphans(book) == {}
      ensures older <= old(older) + {session.stay} && FreshOf(old(released), released, session.stay) == Sound
      ensures GivenOf(old(book), old(session), book, session, old(book.held.Keys) + Orphans(old(book))) == Sound
      ensures RunOf(old(session), sends, old(sendTick), sendTick, Grown(old(book), book), book.held == map[]) == Sound
    {
      var ids := AdoptAll();
      ghost var was := book;
      PassHeld();
      assert Grown(old(book), book) == Grown(was, book);
      GivenAdopted(old(book), was, old(session), book, session);
    }

    /** Drop one unconfirmed outcome: let go of it and remove its file. */
    method DropOne(id: Id)
      requires Valid() && id in book.unacked
      modifies `book, `keptSince, `removeTick, `dropped
      ensures Valid() && Steady(old(book), book) && book.frames == old(book.frames) && dropped == old(dropped) + {id}
      ensures book.held == old(book.held) && book.unacked == old(book.unacked) - {id}
      ensures book.journal == old(book.journal) || book.journal == old(book.journal) - {id}
      ensures AllRemoved() ==> id !in book.journal
    {
      KeptIsSendable(book, id);
      assert book.held - {id} == book.held;
      dropped := dropped + {id};
      Forget(id);
    }

    /** Drop unconfirmed outcomes. */
    method DropAll(drop: set<Id>)
      requires Valid() && drop <= book.unacked.Keys
      modifies `book, `keptSince, `removeTick, `dropped
      ensures Valid() && Steady(old(book), book) && book.frames == old(book.frames) && dropped == old(dropped) + drop
      ensures book.held == old(book.held) && book.unacked == old(book.unacked) - drop
      ensures book.journal.Keys <= old(book.journal.Keys)
      ensures AllRemoved() ==> drop !! book.journal.Keys
    {
      var rest := drop;
      while rest != {}
        invariant Valid() && Steady(old(book), book) && book.frames == old(book.frames) && rest <= drop
        invariant book.held == old(book.held) && book.unacked == Without(old(book.unacked), drop, rest)
        invariant book.journal.Keys <= old(book.journal.Keys) && dropped == With(old(dropped), drop, rest)
        invariant AllRemoved() ==> (drop - rest) !! book.journal.Keys
        decreases rest
      {
        var id :| id in rest;
        OneLess(old(book.unacked), old(dropped), drop, rest, id);
        DropOne(id);
        rest := rest - {id};
      }
    }

    /** The unconfirmed outcomes past the retention bound. */
    method PastRetention() returns (drop: set<Id>)
      ensures drop <= book.unacked.Keys && |book.unacked.Keys - drop| <= UNACKED_MAX_ENTRIES
      ensures RuleOf(Recorded(book, keptSince), session.clock, drop) == Sound
    {
      drop := ChooseDrops(Recorded(book, keptSince), session.clock);
      assert Recorded(book, keptSince).Keys == book.unacked.Keys;
    }

    /** Apply the retention bound. */
    method PruneUnacked() returns (drop: set<Id>)
      requires Valid()
      modifies `book, `keptSince, `removeTick, `dropped
      ensures Valid() && Steady(old(book), book) && book.frames == old(book.frames)
      ensures RuleOf(Recorded(old(book), old(keptSince)), session.clock, drop) == Sound
      ensures dropped == old(dropped) + drop && book.unacked == old(book.unacked) - drop && book.held == old(book.held)
      ensures |book.unacked.Keys| <= UNACKED_MAX_ENTRIES && drop <= old(book.unacked.Keys)
      ensures book.journal.Keys <= old(book.journal.Keys)
      ensures Orphans(book) <= Orphans(old(book)) + drop
      ensures AllRemoved() ==> Orphans(book) <= Orphans(old(book))
    {
      drop := PastRetention();
      DropAll(drop);
      assert book.unacked.Keys == old(book.unacked.Keys) - drop;
    }

    /** Send one kept outcome, while the window allows. */
    method SendOne(id: Id, ghost b: Book, ghost s: Session, ghost t: nat, ghost sent: set<Id>) returns (ok: bool)
      requires Valid() && (id in book.unacked || id in book.held) && id !in sent
      requires SentOf(b, s, book, session, sent) == Sound && RunOf(s, sends, t, sendTick, Grown(b, book), true) == Sound
      modifies `book, `session, `sendTick
      ensures Valid() && SentOf(b, s, book, session, if ok then sent + {id} else sent) == Sound
      ensures RunOf(s, sends, t, sendTick, Grown(b, book), ok) == Sound
    {
      KeptIsSendable(book, id);
      WireRoom(b, s, book, session, sent);
      RunMore(s, sends, t, sendTick, Grown(b, book), session);
      assert Owed(book, id) == Owed(b, id);
      WireMore(b, s, book, session, sent, id);
      WireRolled(b, s, book, session, sent);
      ok := SendKept(id, Owed(book, id));
    }

    /**
     * Send what is due again, in the order of the marks, starting with outcomes that have none,
     * until all are sent or one cannot be.
     */
    method ResendUnacked(minAge: Option<int>) returns (sent: set<Id>)
      requires Valid()
      modifies `book, `session, `sendTick
      ensures Valid() && SentOf(old(book), old(session), book, session, sent) == Sound
      ensures sent <= ToResend(old(book), old(session), minAge)
      ensures RunOf(old(session), sends, old(sendTick), sendTick, Grown(old(book), book), sent == ToResend(old(book), old(session), minAge)) == Sound
      ensures OrderOf(SentAt(old(book), old(session)), sent, ToResend(old(book), old(session), minAge) - sent) == Sound
      ensures ToResend(old(book), old(session), minAge) == {} ==>
        book == old(book) && session == old(session) && sendTick == old(sendTick)
    {
      sent := {};
      var due, sentAt := ToResend(book, session, minAge), SentAt(book, session);
      var rest := due;
      WireNothing(book, session);
      RunNothing(session, sends, sendTick);
      while rest != {}
        invariant Valid() && SentOf(old(book), old(session), book, session, sent) == Sound
        invariant RunOf(old(session), sends, old(sendTick), sendTick, Grown(old(book), book), true) == Sound
        invariant TurnsOf(sentAt, due, sent, rest) == Sound
        invariant sent == {} ==> book == old(book) && session == old(session) && sendTick == old(sendTick)
        decreases rest
      {
        var id := PickOldest(rest, sentAt);
        var ok := SendOne(id, old(book), old(session), old(sendTick), sent);
        if !ok { return; }
        NextTurn(sentAt, due, sent, rest, id);
        sent, rest := sent + {id}, rest - {id};
      }
    }

    /** Kept outcomes go out, as far as the window allows. */
    method SendAllKept() returns (sent: set<Id>)
      requires Valid()
      modifies `session, `book, `sendTick
      ensures Valid() && SentOf(old(book), old(session), book, session, sent) == Sound && sent <= Unsettled(old(book), false)
      ensures RunOf(old(session), sends, old(sendTick), sendTick, Grown(old(book), book), sent == Unsettled(old(book), false)) == Sound
    {
      sent := {};
      var rest := Unsettled(book, false);
      WireNothing(book, session);
      RunNothing(session, sends, sendTick);
      while rest != {}
        invariant Valid() && SentOf(old(book), old(session), book, session, sent) == Sound
        invariant RunOf(old(session), sends, old(sendTick), sendTick, Grown(old(book), book), true) == Sound
        invariant rest <= book.unacked.Keys + book.held.Keys && sent <= Unsettled(old(book), false) && rest == Unsettled(old(book), false) - sent
        decreases rest
      {
        var id :| id in rest;
        var ok := SendOne(id, old(book), old(session), old(sendTick), sent);
        if !ok { return; }
        rest, sent := rest - {id}, sent + {id};
      }
    }

    /** A socket opened, before its features are known: kept outcomes go out, every journal file stays. */
    method SessionOpen(ws: nat, newPeer: Option<Peer>, open: bool, now: int) returns (sent: set<Id>)
      requires Valid()
      modifies `peer, `session, `book, `sendTick
      ensures Valid() && book.(frames := old(book).frames) == old(book)
      ensures peer == if newPeer.Some? then newPeer else old(peer)
      ensures !open ==> book == old(book) && session == AtTime(old(session), now)
      ensures open ==> session.socket == Some(ws)
      ensures open ==> SentOf(old(book), Using(AtTime(old(session), now), ws), book, session, sent) == Sound
      ensures open ==> RunOf(Using(AtTime(old(session), now), ws), sends, old(sendTick), sendTick, Grown(old(book), book),
                             sent == Unsettled(old(book), false)) == Sound
      ensures open && NewSocket(old(session), ws, sends, old(sendTick), Unsettled(old(book), false)) ==> sent == Unsettled(old(book), false)
    {
      SetClock(now);
      if newPeer.Some? { peer := newPeer; }
      sent := {};
      if !open { return; }
      UseSocket(ws);
      sent := SendAllKept();
      AllOnNewSocket(old(session), ws, now, sends, old(sendTick), sendTick, old(book), book, session, sent, Unsettled(old(book), false));
    }

    // -------------------------------------------------------------- a session

    /** Switch to the attached session; outcomes of unknown confirmation go back to held ones. */
    method BeginSession(ws: nat, newPeer: Option<Peer>, now: int)
      requires Valid()
      modifies `peer, `session, `book
      ensures Valid() && Steady(old(book), book) && SameFiles(old(book), book)
      ensures peer == (if newPeer.Some? then newPeer else old(peer)) && session == Using(AtTime(old(session), now), ws)
      ensures Recovers() ==> book == old(book)
      ensures !Recovers() ==> book.unacked == map[] && book.held == old(book.held) + old(book.unacked)
      ensures session.clock == now
    {
      SetClock(now);
      UseSocket(ws);
      if newPeer.Some? { peer := newPeer; }
      ReleaseForOlderPeer();
    }

    /** Answer for what a dead daemon left, then drop what is past the retention bound. */
    method AnswerAndPrune()
      requires Valid() && Recovers() && book.held == map[]
      modifies `book, `keptSince, `writeTick, `removeTick, `dropped
      ensures Valid() && Steady(old(book), book) && book.held == map[] && book.journal.Keys <= old(book.journal.Keys)
      ensures book.frames == old(book.frames)
      ensures AllRemoved() ==> Orphans(book) == {}
      ensures BoundedOf(old(book), old(keptSince), session.clock, old(dropped), book, dropped) == Sound
    {
      AnswerConfirming();
      ghost var was, kept := book, keptSince;
      var drop := PruneUnacked();
      BoundedPruned(old(book), old(keptSince), session.clock, old(dropped), was, kept, drop, book);
    }

    /** A control plane that confirms gets every journaled outcome. */
    method SettleConfirming()
      requires Valid() && Recovers() && book.held == map[]
      modifies `book, `keptSince, `session, `sendTick, `writeTick, `removeTick, `dropped
      ensures Valid() && Steady(old(book), book) && book.held == map[] && book.journal.Keys <= old(book.journal.Keys)
      ensures AllRemoved() ==> Orphans(book) == {}
      ensures ServedOf(old(book), old(keptSince), old(dropped), old(session), sends, old(sendTick), book, dropped, session) == Sound
    {
      AnswerAndPrune();
      ghost var before := book;
      var sent := ResendUnacked(None);
      ServedSent(old(book), old(keptSince), old(dropped), old(session), sends, old(sendTick), before, book, dropped, session, sendTick, sent);
    }

    /** With nothing unconfirmed, nothing is dropped and nothing is sent again. */
    method PruneNothing()
      requires Valid() && book.unacked == map[]
      modifies `book, `keptSince, `session, `sendTick, `removeTick, `dropped
      ensures Valid() && Steady(old(book), book) && book.unacked == map[] && dropped == old(dropped)
      ensures book.journal.Keys <= old(book.journal.Keys) && Orphans(book) <= Orphans(old(book))
      ensures book.held == old(book.held) && book.frames == old(book.frames)
      ensures session == old(session) && sendTick == old(sendTick)
    {
      var drop := PruneUnacked();
      NothingLeft(old(book.unacked), drop, old(dropped));
      NothingDue(book, session);
      var sent := ResendUnacked(None);
    }

    /** One that does not confirm gets every journaled outcome once; nothing is left unconfirmed. */
    method SettleOlder()
      requires Valid() && !Recovers() && book.unacked == map[]
      modifies `book, `keptSince, `session, `sendTick, `removeTick, `released, `older, `lost, `dropped
      ensures Valid() && Steady(old(book), book) && book.unacked == map[] && book.journal.Keys <= old(book.journal.Keys)
      ensures Orphans(book) <= released.Keys + lost && dropped == old(dropped)
      ensures AllRemoved() ==> Orphans(book) == {}
      ensures older <= old(older) + {session.stay} && FreshOf(old(released), released, session.stay) == Sound
      ensures GivenOf(old(book), old(session), book, session, old(book.held.Keys) + Orphans(old(book))) == Sound
      ensures RunOf(old(session), sends, old(sendTick), sendTick, Grown(old(book), book), book.held == map[]) == Sound
    {
      AnswerOlder();
      ghost var was := book;
      PruneNothing();
      GivenKept(old(book), old(session), was, book, session, old(book.held.Keys) + Orphans(old(book)));
    }

    /** The attach frame of a control plane that confirms. */
    method AttachConfirming(open: bool)
      requires Valid() && Recovers()
      modifies `session, `book, `keptSince, `sendTick, `writeTick, `removeTick, `dropped
      ensures Valid() && Steady(old(book), book) && book.journal.Keys <= old(book.journal.Keys)
      ensures open && AllRemoved() ==> Orphans(book) == {}
      ensures ConfirmingOf(old(book), old(keptSince), old(dropped), old(session), open, sends, old(sendTick), book, dropped, session) == Sound
    {
      PromoteHeld();
      if !open { return; }
      ghost var was := book;
      SettleConfirming();
      ServedMerged(old(book), old(keptSince), old(dropped), old(session), sends, old(sendTick), was, book, dropped, session);
    }

    /** The attach frame of one that does not. */
    method AttachOlder(open: bool)
      requires Valid() && !Recovers() && book.unacked == map[]
      modifies `session, `book, `keptSince, `sendTick, `removeTick, `released, `older, `lost, `dropped
      ensures Valid() && Steady(old(book), book) && dropped == old(dropped) && book.journal.Keys <= old(book.journal.Keys)
      ensures open && AllRemoved() ==> Orphans(book) == {}
      ensures OlderOf(old(book), old(session), open, sends, old(sendTick), old(released), old(older),
                      book, session, released, older, lost) == Sound
    {
      PassHeld();
      if !open {
        OlderHeld(old(book), old(session), sends, old(sendTick), sendTick, old(released), old(older), book, session, released, older, lost);
        return;
      }
      ghost var was, s, rel, t := book, session, released, sendTick;
      ghost var aged := older;
      SettleOlder();
      OlderSettled(old(book), old(session), sends, old(sendTick), old(released), old(older), was, s, t, rel, aged,
                   book, session, sendTick, released, older, lost);
    }

    /** Settle what is held and the journal, as the control plane confirms or not. */
    method SettleSession(open: bool)
      requires Valid() && (!Recovers() ==> book.unacked == map[])
      modifies `session, `book, `keptSince, `sendTick, `writeTick, `removeTick, `released, `older, `lost, `dropped
      ensures Valid() && Steady(old(book), book) && book.journal.Keys <= old(book.journal.Keys)
      ensures open && AllRemoved() ==> Orphans(book) == {}
      ensures Recovers() ==> released == old(released) && older == old(older) && lost == old(lost)
      ensures Recovers() ==>
        ConfirmingOf(old(book), old(keptSince), old(dropped), old(session), open, sends, old(sendTick), book, dropped, session) == Sound
      ensures !Recovers() ==> dropped == old(dropped)
      ensures !Recovers() ==>
        OlderOf(old(book), old(session), open, sends, old(sendTick), old(released), old(older), book, session, released, older, lost) == Sound
    {
      if Recovers() {
        AttachConfirming(open);
      } else {
        AttachOlder(open);
      }
    }

    /** The attach frame, whatever the socket carries. */
    method AttachSession(ws: nat, newPeer: Option<Peer>, open: bool, now: int)
      requires Valid()
      modifies `peer, `session, `book, `keptSince, `sendTick, `writeTick, `removeTick, `released, `older, `lost, `dropped
      ensures Valid() && Steady(old(book), book) && book.journal.Keys <= old(book.journal.Keys)
      ensures peer == if newPeer.Some? then newPeer else old(peer)
      ensures open && AllRemoved() ==> Orphans(book) == {}
      ensures Recovers() ==> released == old(released) && older == old(older) && lost == old(lost)
      ensures Recovers() ==>
        ConfirmingOf(old(book), old(keptSince), old(dropped), Using(AtTime(old(session), now), ws), open, sends, old(sendTick),
                     book, dropped, session) == Sound
      ensures !Recovers() ==> dropped == old(dropped)
      ensures !Recovers() ==>
        OlderOf(old(book), Using(AtTime(old(session), now), ws), open, sends, old(sendTick), old(released), old(older),
                book, session, released, older, lost) == Sound
    {
      BeginSession(ws, newPeer, now);
      ghost var s0, b0 := session, book;
      assert Recovers() ==> book == old(book);
      SettleSession(open);
      assert s0 == Using(AtTime(old(session), now), ws);
      if !Recovers() {
        OlderReleased(old(book), b0, s0, open, sends, old(sendTick), old(released), old(older), book, session, released, older, lost);
      }
    }

    /**
     * The attach frame arrived: settle what is held, then the journal. On an open socket every
     * journaled command is then running, held or unconfirmed, except for files whose removal
     * failed; a control plane that confirms loses nothing but what the retention bound drops, and
     * one that does not is sent, on this socket, all that the outbox is then done with. On a new
     * socket, when a burst is enough and the sends work, everything is sent at once.
     */
    method Attach(ws: nat, newPeer: Option<Peer>, open: bool, now: int)
      requires Valid()
      modifies `peer, `session, `book, `keptSince, `sendTick, `writeTick, `removeTick, `released, `older, `lost, `dropped
      ensures Valid() && Steady(old(book), book) && book.journal.Keys <= old(book.journal.Keys)
      ensures peer == if newPeer.Some? then newPeer else old(peer)
      ensures open && AllRemoved() ==> Orphans(book) == {}
      ensures Recovers() ==> released == old(released) && older == old(older) && lost == old(lost)
      ensures Recovers() ==>
        ConfirmingOf(old(book), old(keptSince), old(dropped), Using(AtTime(old(session), now), ws), open, sends, old(sendTick),
                     book, dropped, session) == Sound
      ensures !Recovers() ==> dropped == old(dropped)
      ensures !Recovers() ==>
        OlderOf(old(book), Using(AtTime(old(session), now), ws), open, sends, old(sendTick), old(released), old(older),
                book, session, released, older, lost) == Sound
      ensures Recovers() && open && NewSocket(old(session), ws, sends, old(sendTick), Unsettled(old(book), true)) ==>
        SaidOf(book, |old(book.frames)|, old(book), book.unacked.Keys) == Sound
      ensures !Recovers() && NewSocket(old(session), ws, sends, old(sendTick), Unsettled(old(book), open)) ==>
        book.held == map[] && SaidOf(book, |old(book.frames)|, old(book), Unsettled(old(book), open)) == Sound
    {
      AttachSession(ws, newPeer, open, now);
      if Recovers() {
        if open {
          ServedAll(old(book), old(keptSince), old(dropped), old(session), ws, now, sends, old(sendTick), book, dropped, session);
        }
      } else {
        OlderAll(old(book), old(session), ws, now, open, sends, old(sendTick), old(released), old(older), book, session, released, older, lost);
      }
    }

    /** Held outcomes go out after unconfirmed ones did. */
    method FlushAfter(ghost b: Book, ghost s: Session, ghost t: nat, ghost sent: set<Id>)
      requires Valid() && !Recovers() && Ok(b) && SentOf(b, s, book, session, sent) == Sound
      requires sent <= ToResend(b, s, Some(RESEND_INTERVAL_MS))
      requires RunOf(s, sends, t, sendTick, Grown(b, book), sent == ToResend(b, s, Some(RESEND_INTERVAL_MS))) == Sound
      modifies `book, `session, `sendTick, `removeTick, `released, `older, `lost
      ensures Valid() && Steady(b, book) && book.unacked == b.unacked && book.held.Keys <= b.held.Keys
      ensures TimedOf(b, s, old(released), old(lost), book, session, released, lost, sent) == Sound
      ensures TimelyOf(b, s, sends, t, book, session, sent, false) == Sound && older <= old(older) + {session.stay}
      ensures peer == old(peer)
      ensures book.journal.Keys <= b.journal.Keys && Orphans(book) <= Orphans(b) + released.Keys + lost
      ensures AllRemoved() ==> Orphans(book) <= Orphans(b)
    {
      ghost var b1, s1, t1 := book, session, sendTick;
      FlushHeld();
      SteadyAfter(b, s, b1, s1, book, session, sent);
      TimelyFlush(b, s, b1, s1, book, session, sends, t, t1, sendTick, sent);
      TimedFlush(b, s, b1, s1, old(released), old(lost), book, session, released, lost, sent);
    }

    /** Unconfirmed outcomes that are due go out again, at this time. */
    method ResendDue(now: int) returns (sent: set<Id>)
      requires Valid()
      modifies `book, `session, `sendTick
      ensures Valid() && SentOf(old(book), AtTime(old(session), now), book, session, sent) == Sound
      ensures sent <= ToResend(old(book), AtTime(old(session), now), Some(RESEND_INTERVAL_MS))
      ensures RunOf(AtTime(old(session), now), sends, old(sendTick), sendTick, Grown(old(book), book),
                    sent == ToResend(old(book), AtTime(old(session), now), Some(RESEND_INTERVAL_MS))) == Sound
    {
      SetClock(now);
      sent := ResendUnacked(Some(RESEND_INTERVAL_MS));
    }

    /**
     * The resend timer. Exactly the unconfirmed outcomes that were due, and the held ones that
     * were let go of and not marked, went out; some of either are left only if the session
     * carries no more.
     */
    method TimerFired(now: int) returns (sent: set<Id>)
      requires Valid()
      modifies `book, `session, `sendTick, `removeTick, `released, `older, `lost
      ensures Valid() && Steady(old(book), book) && book.unacked == old(book.unacked)
      ensures TimedOf(old(book), AtTime(old(session), now), old(released), old(lost), book, session, released, lost, sent) == Sound
      ensures TimelyOf(old(book), AtTime(old(session), now), sends, old(sendTick), book, session, sent, old(KeepsUntilAck())) == Sound
      ensures book.held.Keys <= old(book.held.Keys)
      ensures old(KeepsUntilAck()) ==> book.(frames := old(book).frames) == old(book)
      ensures old(KeepsUntilAck()) ==> released == old(released) && older == old(older) && lost == old(lost)
      ensures older <= old(older) + {session.stay} && peer == old(peer)
      ensures book.journal.Keys <= old(book.journal.Keys) && Orphans(book) <= Orphans(old(book)) + released.Keys + lost
      ensures AllRemoved() ==> Orphans(book) <= Orphans(old(book))
    {
      var keeps := KeepsUntilAck();
      sent := ResendDue(now);
      ghost var s := AtTime(old(session), now);
      if !keeps {
        FlushAfter(old(book), s, old(sendTick), sent);
      } else {
        TimelyKept(old(book), s, sends, old(sendTick), sendTick, book, session, sent);
        TimedNothing(old(book), s, released, lost, book, session, sent);
      }
    }

    /** The daemon dies and a new one starts: only the journal is left. */
    method Restart()
      requires Valid()
      modifies `book, `session, `peer, `acceptedAt, `lastProgress, `keptSince
      ensures Valid() && book == Die(old(book))
      ensures peer == None && session == NO_SESSION.(stay := old(session).stay)
      ensures acceptedAt == map[] && lastProgress == map[] && keptSince == map[]
    {
      DieOk(book);
      PaceRestart(session, book.frames);
      book, peer := Die(book), None;
      session := NO_SESSION.(stay := session.stay);
      acceptedAt, lastProgress, keptSince := map[], map[], map[];
    }
  }
}
