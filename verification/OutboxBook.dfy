/**
 * What the command outbox knows, as a value: the ids running, held and unconfirmed, the
 * journal on disk, and the history of each acceptance of a command. Every change the outbox
 * makes is one of the functions here; each keeps the book consistent and never revises a
 * fixed answer.
 */
module OutboxBook {
  import opened Prelude
  import opened CommandAnswers

  /** A command id; only whether two are the same matters. */
  type Id = nat

  /** An outcome message: the answer, and the time it carries when readable. */
  datatype Outcome = Outcome(answer: Answer, at: Option<int>)

  datatype Entry = Entry(acceptedAt: int, progress: Option<Plan>, outcome: Option<Outcome>, journaledAt: Option<int>)

  datatype Noted = Noted(plan: Plan, writtenAt: int)

  /** What is known of the attached control plane. */
  datatype Peer = Peer(recovers: bool, known: bool)

  /** One acceptance of a command: the id, and how many times it had then been accepted. */
  datatype Key = Key(id: Id, round: nat)

  /** How a frame went out: on the session socket, paced or at once, or on the socket its command came in on. */
  datatype Way = Paced | Direct | Fallback

  /** An outcome frame: what it says, when it was sent, during which stay on a session socket, and how. */
  datatype Frame = Frame(key: Key, answer: Answer, at: int, stay: nat, way: Way)

  /** The answer a dead daemon's entry stands for: its outcome, or that it was interrupted. */
  function JournalAnswer(e: Entry): Answer {
    if e.outcome.Some? then e.outcome.value.answer else Interrupted(e.progress)
  }

  /** When a dead daemon's entry was recorded. */
  function EntryRecorded(e: Entry): int {
    if e.journaledAt.Some? then e.journaledAt.value
    else if e.outcome.Some? && e.outcome.value.at.Some? then e.outcome.value.at.value
    else e.acceptedAt
  }

  /** Step states, the current step and the start of the run: what a plan rewrite is made for. */
  function Signature(p: Plan): (seq<(string, StepState)>, Option<string>, Option<string>) {
    (seq(|p.steps|, i requires 0 <= i < |p.steps| => (p.steps[i].id, p.steps[i].state)), p.current, p.runningSince)
  }

  /** Step for step the same ids in the same states. */
  predicate SameStates(a: seq<Step>, b: seq<Step>) {
    |a| == |b| && forall i :: 0 <= i < |a| ==> a[i].id == b[i].id && a[i].state == b[i].state
  }

  lemma {:induction false} SameFound(a: seq<Step>, b: seq<Step>, id: string)
    requires SameStates(a, b)
    ensures Find(a, id).Some? <==> Find(b, id).Some?
    ensures Find(a, id).Some? ==> Find(a, id).value.state == Find(b, id).value.state
  {
    if a != [] && a[0].id != id { SameFound(a[1..], b[1..], id); }
  }

  lemma {:induction false} SameLastBegun(a: seq<Step>, b: seq<Step>)
    requires SameStates(a, b)
    ensures FindLastBegun(a).Some? <==> FindLastBegun(b).Some?
  {
    if a != [] { SameLastBegun(a[..|a| - 1], b[..|b| - 1]); }
  }

  lemma SignatureStates(p: Plan, q: Plan)
    requires Signature(p) == Signature(q)
    ensures SameStates(p.steps, q.steps) && p.current == q.current && p.runningSince == q.runningSince
  {
    forall i | 0 <= i < |p.steps| ensures p.steps[i].id == q.steps[i].id && p.steps[i].state == q.steps[i].state {
      assert Signature(p).0[i] == Signature(q).0[i];
    }
  }

  /** Plans with one signature say the same of the release, and either both name a last step or neither does. */
  lemma SameFacts(p: Plan, q: Plan)
    requires Signature(p) == Signature(q)
    ensures ReleasePromoted(p) == ReleasePromoted(q) && (LastStep(p).Some? <==> LastStep(q).Some?)
  {
    SignatureStates(p, q);
    SameFound(p.steps, q.steps, SWITCH_STEP);
    SameFound(p.steps, q.steps, STOP_OLD_STEP);
    SameFound(p.steps, q.steps, PROMOTE_STEP);
    SameFound(p.steps, q.steps, HEALTH_STEP);
    if p.current.Some? { SameFound(p.steps, q.steps, p.current.value); }
    SameLastBegun(p.steps, q.steps);
  }

  /** The order of recorded times, in which a missing one comes first. */
  predicate NotNewer(a: Option<int>, b: Option<int>) {
    a.None? || (b.Some? && a.value <= b.value)
  }

  datatype Book = Book(
    running: set<Id>,
    held: map<Id, Outcome>,          // not sent yet; the control plane does not confirm
    unacked: map<Id, Outcome>,       // kept until the control plane confirms
    journal: map<Id, Entry>,         // on disk
    rounds: multiset<Id>,            // how often each command was accepted
    delivered: map<Key, Answer>,         // what the handler answered
    decided: map<Key, Answer>,           // the answer fixed for an acceptance
    unwritten: set<Key>,                 // the last journal write it needed failed
    frames: seq<Frame>,                  // every outcome frame sent
    starts: multiset<Id>,            // handlers started by this process
    forgets: multiset<Id>)           // outcomes this process let go of

  const EMPTY := Book({}, map[], map[], map[], multiset{}, map[], map[], {}, [], multiset{}, multiset{})

  /** The current acceptance of a command. */
  function Now(b: Book, id: Id): Key {
    Key(id, b.rounds[id])
  }

  /** The book's entry for one command, at its current acceptance. */
  datatype Cell = Cell(
    running: bool, held: Option<Outcome>, unacked: Option<Outcome>, entry: Option<Entry>,
    round: nat, decided: Option<Answer>, unwritten: bool, starts: nat, forgets: nat)

  function At<K, T>(m: map<K, T>, k: K): Option<T> {
    if k in m then Some(m[k]) else None
  }

  function CellOf(b: Book, id: Id): Cell {
    Cell(id in b.running, At(b.held, id), At(b.unacked, id), At(b.journal, id),
         b.rounds[id], At(b.decided, Now(b, id)), Now(b, id) in b.unwritten, b.starts[id], b.forgets[id])
  }

  /**
   * At most one of running, held and unacked; the answer is fixed when the command stops running;
   * every handler start beyond the first needed the outcome to be let go of in between.
   */
  predicate Placed(c: Cell) {
    && !(c.running && c.held.Some?) && !(c.running && c.unacked.Some?) && !(c.held.Some? && c.unacked.Some?)
    && (c.entry.Some? || c.running || c.decided.Some? ==> c.round > 0)
    && (c.running ==> c.decided.None?)
    && (c.held.Some? || c.unacked.Some? ==> c.decided.Some?)
    && c.starts <= c.forgets + if c.running || c.held.Some? || c.unacked.Some? then 1 else 0
  }

  /** With its writes done: what is in memory is journaled, and the journal agrees with the fixed answer. */
  predicate Fixed(c: Cell) {
    !c.unwritten ==>
      && (c.running ==> c.entry.Some? && c.entry.value.outcome.None?)
      && (c.held.Some? ==> c.entry.Some? && c.held.value.answer == JournalAnswer(c.entry.value))
      && (c.unacked.Some? ==> c.entry.Some? && c.unacked.value.answer == JournalAnswer(c.entry.value))
      && (c.entry.Some? && c.entry.value.outcome.Some? ==> c.decided.Some?)
      && (c.decided.Some? && c.entry.Some? ==> c.decided.value == JournalAnswer(c.entry.value))
  }

  ghost predicate Cells(b: Book) {
    forall id :: Placed(CellOf(b, id)) && Fixed(CellOf(b, id))
  }

  predicate Known(b: Book, id: Id) {
    id in b.running || id in b.held || id in b.unacked
  }

  /** Journaled ids that nothing in memory answers for. */
  function Orphans(b: Book): set<Id> {
    b.journal.Keys - b.running - b.held.Keys - b.unacked.Keys
  }

  /** Accepted commands whose file is gone though every write it needed worked. */
  function Gone(b: Book): set<Id> {
    set id | id in b.rounds && id !in b.journal && Now(b, id) !in b.unwritten
  }

  /** Commands whose current acceptance was answered on some socket. */
  function Answered(b: Book): set<Id> {
    set f | f in b.frames && f.key == Now(b, f.key.id) :: f.key.id
  }

  /** Commands whose current acceptance was answered on the session socket during this stay. */
  function OnStay(frames: seq<Frame>, rounds: multiset<Id>, stay: nat): set<Id> {
    set f | f in frames && f.stay == stay && f.way != Fallback && f.key.round == rounds[f.key.id] :: f.key.id
  }

  /** Frames sent past the pacing. */
  function Live(frames: seq<Frame>): set<Frame> {
    set f | f in frames && f.way != Paced
  }

  /** No command is accepted, delivered or started in between, and only paced frames are sent. */
  ghost predicate Steady(b: Book, b': Book) {
    && b'.running == b.running && b'.rounds == b.rounds && b'.delivered == b.delivered && b'.starts == b.starts
    && b'.unwritten == b.unwritten && b.frames <= b'.frames && Live(b'.frames) == Live(b.frames)
  }

  /** A frame with this answer may go out: it is the answer fixed for the current acceptance. */
  predicate Sendable(b: Book, id: Id, answer: Answer) {
    var k := Now(b, id);
    k in b.decided && (k !in b.unwritten ==> answer == b.decided[k])
  }

  predicate Spoken(b: Book, f: Frame) {
    && f.key.round <= b.rounds[f.key.id] && f.key in b.decided
    && (f.key !in b.unwritten ==> f.answer == b.decided[f.key])
  }

  /** Every frame sent says what is fixed for its acceptance. */
  ghost predicate History(b: Book) {
    forall f {:trigger Spoken(b, f)} :: f in b.frames ==> Spoken(b, f)
  }

  predicate AgreedOn(b: Book, k: Key) {
    && k.round <= b.rounds[k.id]
    && (k in b.delivered ==> k in b.decided && b.delivered[k].Handler?)
    && (k in b.decided && k !in b.unwritten ==>
          if k in b.delivered then b.decided[k] == b.delivered[k] else b.decided[k].Interrupted?)
  }

  /** A fixed answer is the handler's, or that the command was interrupted. */
  ghost predicate Agreed(b: Book) {
    forall k {:trigger AgreedOn(b, k)} :: k in b.decided || k in b.delivered ==> AgreedOn(b, k)
  }

  ghost function HealthOf(b: Book): Health {
    if Cells(b) && History(b) && Agreed(b) then Sound else Broken
  }

  ghost predicate Ok(b: Book) {
    HealthOf(b) == Sound
  }

  /** Nothing fixed is revised, for acceptances whose writes worked. */
  ghost predicate Extends(b: Book, b': Book) {
    && (forall id :: b.rounds[id] <= b'.rounds[id])
    && (forall k :: k in b.decided ==>
          k in b'.decided && (k in b'.unwritten || (k !in b.unwritten && b'.decided[k] == b.decided[k])))
  }

  lemma HistoryExtends(b: Book, b': Book)
    requires History(b) && Extends(b, b') && b'.frames == b.frames
    ensures History(b')
  {
    forall f | f in b'.frames ensures Spoken(b', f) {
      assert Spoken(b, f);
    }
  }

  lemma KeptIsSendable(b: Book, id: Id)
    requires Ok(b)
    ensures id in b.held ==> Sendable(b, id, b.held[id].answer) && id !in b.unacked && id !in b.running
    ensures id in b.unacked ==> Sendable(b, id, b.unacked[id].answer) && id !in b.running
    ensures Known(b, id) && Now(b, id) !in b.unwritten ==> id in b.journal
  {
    assert Placed(CellOf(b, id)) && Fixed(CellOf(b, id));
  }

  /**
   * All frames ever sent for one acceptance of a command say the same, when the journal writes
   * it needed worked; if its handler answered, they carry that answer, and otherwise they say
   * it was interrupted.
   */
  lemma OneAnswerPerAcceptance(b: Book, f: Frame, g: Frame)
    requires Ok(b) && f in b.frames && g in b.frames && f.key == g.key && f.key !in b.unwritten
    ensures f.answer == g.answer && OnWire(f.answer) == OnWire(g.answer)
    ensures f.key in b.delivered ==> f.answer == b.delivered[f.key]
    ensures f.answer.Interrupted? <==> f.key !in b.delivered
  {
    assert Spoken(b, f) && Spoken(b, g);
    assert AgreedOn(b, f.key);
  }

  /**
   * What any frame tells the control plane about an acceptance, when the journal writes it
   * needed worked: exactly what the handler answered, if it did; otherwise that it was
   * interrupted, and never that it is ok.
   */
  lemma FrameTells(b: Book, f: Frame)
    requires Ok(b) && f in b.frames && f.key !in b.unwritten
    ensures f.key in b.delivered ==>
      b.delivered[f.key].Handler? && OnWire(f.answer) == Wire(b.delivered[f.key].ok, Payload(b.delivered[f.key].result), b.delivered[f.key].error)
    ensures f.key !in b.delivered ==> !OnWire(f.answer).ok && OnWire(f.answer).result.Facts?
    ensures OnWire(f.answer).ok ==> f.key in b.delivered && b.delivered[f.key].ok
  {
    OneAnswerPerAcceptance(b, f, f);
    WireShows(f.answer);
  }

  /**
   * A command is running, held or unconfirmed, never two of these, and as long as its outcome was
   * not let go of, this process started its handler at most once.
   */
  lemma OneRunPerCommand(b: Book, id: Id)
    requires Ok(b)
    ensures id in b.running ==> id !in b.held && id !in b.unacked
    ensures id in b.held ==> id !in b.unacked
    ensures b.forgets[id] == 0 ==> b.starts[id] <= 1
    ensures b.forgets[id] == 0 && b.starts[id] == 1 ==> Known(b, id)
  {
    assert Placed(CellOf(b, id));
  }

  /** Changing where one command is placed leaves only its own cell to check. */
  lemma OnePlace(b: Book, b': Book, x: Id)
    requires Ok(b) && b'.frames == b.frames && b'.rounds == b.rounds
    requires b'.decided == b.decided && b'.delivered == b.delivered && b'.unwritten == b.unwritten
    requires forall id :: id != x ==> CellOf(b', id) == CellOf(b, id)
    requires Placed(CellOf(b', x)) && Fixed(CellOf(b', x))
    ensures Ok(b') && Answered(b') == Answered(b)
  {
    forall id ensures Placed(CellOf(b', id)) && Fixed(CellOf(b', id)) {
      if id != x { assert CellOf(b', id) == CellOf(b, id); }
    }
    forall f | f in b'.frames ensures Spoken(b', f) { assert Spoken(b, f); }
    forall k | k in b'.decided || k in b'.delivered ensures AgreedOn(b', k) { assert AgreedOn(b, k); }
  }

  /** Fixing one command's answer, or taking it on again, leaves only that acceptance to check. */
  lemma OneKey(b: Book, b': Book, x: Id, key: Key)
    requires Ok(b) && Extends(b, b') && b'.frames == b.frames
    requires forall id :: id != x ==> CellOf(b', id) == CellOf(b, id)
    requires Placed(CellOf(b', x)) && Fixed(CellOf(b', x))
    requires forall k :: k != key ==>
      At(b'.decided, k) == At(b.decided, k) && At(b'.delivered, k) == At(b.delivered, k) &&
      (k in b.unwritten ==> k in b'.unwritten)
    requires key in b'.decided || key in b'.delivered ==> AgreedOn(b', key)
    ensures Ok(b')
  {
    forall id ensures Placed(CellOf(b', id)) && Fixed(CellOf(b', id)) {
      if id != x { assert CellOf(b', id) == CellOf(b, id); }
    }
    HistoryExtends(b, b');
    forall k | k in b'.decided || k in b'.delivered ensures AgreedOn(b', k) {
      if k != key {
        assert At(b'.decided, k) == At(b.decided, k) && At(b'.delivered, k) == At(b.delivered, k);
        assert AgreedOn(b, k);
      }
    }
  }

  // ---------------------------------------------------------------- changes

  /** A command is taken on; `written` tells whether its journal write worked. */
  function Accept(b: Book, id: Id, now: int, written: bool): Book {
    var key := Key(id, b.rounds[id] + 1);
    b.(running := b.running + {id}, rounds := b.rounds + multiset{id}, starts := b.starts + multiset{id},
       journal := if written then b.journal[id := Entry(now, None, None, None)] else b.journal,
       unwritten := if written then b.unwritten - {key} else b.unwritten + {key})
  }

  lemma AcceptOk(b: Book, id: Id, now: int, written: bool)
    requires Ok(b) && !Known(b, id)
    ensures var b' := Accept(b, id, now, written);
      Ok(b') && Gone(b') <= Gone(b) - {id} && Answered(b') == Answered(b) - {id}
  {
    var b', key := Accept(b, id, now, written), Key(id, b.rounds[id] + 1);
    assert Placed(CellOf(b, id)) && Fixed(CellOf(b, id));
    assert key in b.decided ==> AgreedOn(b, key);
    assert key in b.delivered ==> AgreedOn(b, key);
    forall k | k != id ensures CellOf(b', k) == CellOf(b, k) { }
    OneKey(b, b', id, key);
    forall f | f in b.frames ensures f.key != key && (f.key == Now(b', f.key.id) <==> f.key.id != id && f.key == Now(b, f.key.id)) {
      assert Spoken(b, f);
    }
  }

  /** What was sent before does not count for the new acceptance. */
  lemma AcceptOnStay(b: Book, id: Id, now: int, written: bool, stay: nat)
    requires Ok(b)
    ensures var b' := Accept(b, id, now, written);
      OnStay(b'.frames, b'.rounds, stay) == OnStay(b.frames, b.rounds, stay) - {id}
  {
    var b' := Accept(b, id, now, written);
    forall f | f in b.frames ensures f.key.id == id ==> f.key.round != b'.rounds[id] {
      assert Spoken(b, f);
    }
    forall k | k in OnStay(b.frames, b.rounds, stay) - {id} ensures k in OnStay(b'.frames, b'.rounds, stay) {
      var f :| f in b.frames && f.stay == stay && f.way != Fallback && f.key.round == b.rounds[f.key.id] && f.key.id == k;
      assert b'.rounds[k] == b.rounds[k];
    }
  }

  function Replan(b: Book, id: Id, plan: Plan, acceptedAt: int): Book {
    b.(journal := b.journal[id := Entry(acceptedAt, Some(plan), None, None)])
  }

  lemma ReplanOk(b: Book, id: Id, plan: Plan, acceptedAt: int)
    requires Ok(b) && id in b.running
    ensures Ok(Replan(b, id, plan, acceptedAt)) && Gone(Replan(b, id, plan, acceptedAt)) <= Gone(b)
    ensures Answered(Replan(b, id, plan, acceptedAt)) == Answered(b)
  {
    assert Placed(CellOf(b, id)) && Fixed(CellOf(b, id));
    OnePlace(b, Replan(b, id, plan, acceptedAt), id);
  }

  /**
   * The handler is done: its outcome is in hand, and journaled when that write worked; the
   * command no longer runs.
   */
  function Finish(b: Book, id: Id, entry: Entry, written: bool): Book
    requires entry.outcome.Some?
  {
    var answer, key := entry.outcome.value.answer, Now(b, id);
    b.(running := b.running - {id}, held := b.held[id := entry.outcome.value],
       delivered := b.delivered[key := answer], decided := b.decided[key := answer],
       journal := if written then b.journal[id := entry] else b.journal,
       unwritten := if written then b.unwritten - {key} else b.unwritten + {key})
  }

  lemma FinishOk(b: Book, id: Id, entry: Entry, written: bool)
    requires Ok(b) && id in b.running && entry.outcome.Some? && entry.outcome.value.answer.Handler?
    ensures Ok(Finish(b, id, entry, written)) && Gone(Finish(b, id, entry, written)) <= Gone(b)
    ensures Answered(Finish(b, id, entry, written)) == Answered(b)
  {
    var b' := Finish(b, id, entry, written);
    assert Placed(CellOf(b, id)) && Fixed(CellOf(b, id));
    OneKey(b, b', id, Now(b, id));
  }

  /** Take an orphan's answer into memory, to be sent. */
  function Keep(b: Book, id: Id, o: Outcome): Book {
    b.(decided := b.decided[Now(b, id) := o.answer], held := b.held[id := o])
  }

  lemma KeepOk(b: Book, id: Id, o: Outcome)
    requires Ok(b) && id in Orphans(b) && o.answer == JournalAnswer(b.journal[id])
    ensures Ok(Keep(b, id, o))
    ensures Orphans(Keep(b, id, o)) == Orphans(b) - {id}
    ensures Gone(Keep(b, id, o)) == Gone(b) && Answered(Keep(b, id, o)) == Answered(b)
  {
    var b', k := Keep(b, id, o), Now(b, id);
    assert Placed(CellOf(b, id)) && Fixed(CellOf(b, id));
    assert k !in b.unwritten && k in b.decided ==> b.decided[k] == o.answer;
    if k in b.decided || k in b.delivered { assert AgreedOn(b, k); }
    OneKey(b, b', id, k);
  }

  /** Move a kept outcome between the held and the unconfirmed ones. */
  function Move(b: Book, id: Id, confirm: bool): Book
    requires if confirm then id in b.held else id in b.unacked
  {
    if confirm then b.(unacked := b.unacked[id := b.held[id]], held := b.held - {id})
    else b.(held := b.held[id := b.unacked[id]], unacked := b.unacked - {id})
  }

  lemma MoveOk(b: Book, id: Id, confirm: bool)
    requires Ok(b) && if confirm then id in b.held else id in b.unacked
    ensures Ok(Move(b, id, confirm))
    ensures Orphans(Move(b, id, confirm)) == Orphans(b)
    ensures Gone(Move(b, id, confirm)) == Gone(b) && Answered(Move(b, id, confirm)) == Answered(b)
  {
    assert Placed(CellOf(b, id)) && Fixed(CellOf(b, id));
    OnePlace(b, Move(b, id, confirm), id);
  }

  /** Stop keeping an outcome in memory; its file is still there. */
  function LetGo(b: Book, id: Id): Book {
    b.(held := b.held - {id}, unacked := b.unacked - {id}, forgets := b.forgets + multiset{id})
  }

  lemma LetGoOk(b: Book, id: Id)
    requires Ok(b)
    ensures Ok(LetGo(b, id))
    ensures Gone(LetGo(b, id)) == Gone(b) && Answered(LetGo(b, id)) == Answered(b)
  {
    assert Placed(CellOf(b, id)) && Fixed(CellOf(b, id));
    OnePlace(b, LetGo(b, id), id);
  }

  /** The file is removed. */
  function Erase(b: Book, id: Id): Book {
    b.(journal := b.journal - {id})
  }

  lemma EraseOk(b: Book, id: Id)
    requires Ok(b) && !Known(b, id)
    ensures Ok(Erase(b, id))
    ensures Orphans(Erase(b, id)) == Orphans(b) - {id}
    ensures Gone(Erase(b, id)) <= Gone(b) + {id} && Answered(Erase(b, id)) == Answered(b)
  {
    assert Placed(CellOf(b, id)) && Fixed(CellOf(b, id));
    OnePlace(b, Erase(b, id), id);
  }

  /** An interrupted command's answer is written to its file. */
  function Rejournal(b: Book, id: Id, entry: Entry): Book {
    b.(journal := b.journal[id := entry])
  }

  lemma RejournalOk(b: Book, id: Id, entry: Entry)
    requires Ok(b) && id in b.unacked && entry.outcome == Some(b.unacked[id])
    ensures Ok(Rejournal(b, id, entry))
    ensures Orphans(Rejournal(b, id, entry)) == Orphans(b)
    ensures Gone(Rejournal(b, id, entry)) <= Gone(b) && Answered(Rejournal(b, id, entry)) == Answered(b)
  {
    assert Placed(CellOf(b, id)) && Fixed(CellOf(b, id));
    OnePlace(b, Rejournal(b, id, entry), id);
  }

  /** A frame goes out. */
  function Send(b: Book, id: Id, answer: Answer, at: int, stay: nat, way: Way): Book {
    b.(frames := b.frames + [Frame(Now(b, id), answer, at, stay, way)])
  }

  lemma SendOk(b: Book, id: Id, answer: Answer, at: int, stay: nat, way: Way)
    requires Ok(b) && Sendable(b, id, answer)
    ensures var b' := Send(b, id, answer, at, stay, way);
      && Ok(b') && Gone(b') == Gone(b) && Answered(b') == Answered(b) + {id}
      && (way == Paced ==> Live(b'.frames) == Live(b.frames))
      && OnStay(b'.frames, b'.rounds, stay) == OnStay(b.frames, b.rounds, stay) + if way == Fallback then {} else {id}
  {
    var b', f := Send(b, id, answer, at, stay, way), Frame(Now(b, id), answer, at, stay, way);
    forall k ensures Placed(CellOf(b', k)) && Fixed(CellOf(b', k)) { assert CellOf(b', k) == CellOf(b, k); }
    forall k | k in b'.decided || k in b'.delivered ensures AgreedOn(b', k) { assert AgreedOn(b, k); }
    assert AgreedOn(b, Now(b, id));
    assert forall g :: g in b'.frames <==> g in b.frames || g == f;
    forall g | g in b'.frames ensures Spoken(b', g) {
      if g in b.frames { assert Spoken(b, g); }
    }
    assert id in Answered(b') by { assert f in b'.frames && f.key == Now(b', f.key.id); }
    forall k | k in Answered(b) ensures k in Answered(b') {
      var g :| g in b.frames && g.key == Now(b, g.key.id) && g.key.id == k;
      assert g in b'.frames;
    }
    OneMoreOnStay(b.frames, b.rounds, f);
  }

  lemma OneMoreOnStay(frames: seq<Frame>, rounds: multiset<Id>, f: Frame)
    requires f.key.round == rounds[f.key.id]
    ensures OnStay(frames + [f], rounds, f.stay) == OnStay(frames, rounds, f.stay) + if f.way == Fallback then {} else {f.key.id}
  {
    assert forall g :: g in frames + [f] <==> g in frames || g == f;
    forall k | k in OnStay(frames, rounds, f.stay) ensures k in OnStay(frames + [f], rounds, f.stay) {
      var g :| g in frames && g.stay == f.stay && g.way != Fallback && g.key.round == rounds[g.key.id] && g.key.id == k;
      assert g in frames + [f];
    }
    if f.way != Fallback { assert f in frames + [f]; }
  }

  /** The daemon dies: only the journal survives. */
  function Die(b: Book): Book {
    b.(running := {}, held := map[], unacked := map[], starts := multiset{}, forgets := multiset{})
  }

  lemma DieOk(b: Book)
    requires Ok(b)
    ensures Ok(Die(b)) && Gone(Die(b)) == Gone(b) && Answered(Die(b)) == Answered(b)
  {
    forall id ensures Placed(CellOf(Die(b), id)) && Fixed(CellOf(Die(b), id)) {
      assert Placed(CellOf(b, id)) && Fixed(CellOf(b, id));
    }
    HistoryExtends(b, Die(b));
    forall k | k in b.decided || k in b.delivered ensures AgreedOn(Die(b), k) { assert AgreedOn(b, k); }
  }
}
