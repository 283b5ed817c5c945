/** How many kept outcomes one socket carries: at most 20 per window of 30 seconds. */
module Pacing {
  import opened OutboxBook

  const RESEND_INTERVAL_MS := 30_000
  const OUTCOME_BURST_MAX := 20

  /** One burst window: when it began, and when each kept outcome was sent in it. */
  datatype Window = Window(start: int, sends: seq<int>)

  ghost predicate WindowOk(w: Window) {
    && |w.sends| <= OUTCOME_BURST_MAX
    && forall t :: t in w.sends ==> w.start <= t < w.start + RESEND_INTERVAL_MS
  }

  /** The windows of one socket, oldest first: a new one begins only when the last is over. */
  ghost predicate WindowsOk(ws: seq<Window>) {
    && (forall w :: w in ws ==> WindowOk(w))
    && (forall i :: 0 < i < |ws| ==> ws[i - 1].start + RESEND_INTERVAL_MS <= ws[i].start)
  }

  function AddSend(ws: seq<Window>, t: int): seq<Window>
    requires ws != []
  {
    var last := ws[|ws| - 1];
    ws[..|ws| - 1] + [Window(last.start, last.sends + [t])]
  }

  lemma AddSendOk(ws: seq<Window>, t: int)
    requires WindowsOk(ws) && ws != []
    requires ws[|ws| - 1].start <= t < ws[|ws| - 1].start + RESEND_INTERVAL_MS
    requires |ws[|ws| - 1].sends| < OUTCOME_BURST_MAX
    ensures WindowsOk(AddSend(ws, t))
  {
    var last := ws[|ws| - 1];
    assert WindowOk(last);
    assert WindowOk(Window(last.start, last.sends + [t]));
    forall w | w in AddSend(ws, t) ensures WindowOk(w) {
      assert w in ws || w == Window(last.start, last.sends + [t]);
    }
  }

  /** Sends with `lo <= t <= hi`. */
  ghost function CountIn(sends: seq<int>, lo: int, hi: int): (n: nat)
    ensures n <= |sends|
    ensures (forall i :: 0 <= i < |sends| ==> sends[i] < lo || hi < sends[i]) ==> n == 0
  {
    if sends == [] then 0
    else CountIn(sends[1..], lo, hi) + if lo <= sends[0] <= hi then 1 else 0
  }

  ghost function SentIn(ws: seq<Window>, lo: int, hi: int): nat {
    if ws == [] then 0
    else SentIn(ws[..|ws| - 1], lo, hi) + CountIn(ws[|ws| - 1].sends, lo, hi)
  }

  /** By where the newest window begins, relative to the minute that starts at `lo`. */
  ghost function Bound(start: int, lo: int): nat {
    if start <= lo - RESEND_INTERVAL_MS then 0
    else if start <= lo then OUTCOME_BURST_MAX
    else if start <= lo + RESEND_INTERVAL_MS then 2 * OUTCOME_BURST_MAX
    else 3 * OUTCOME_BURST_MAX
  }

  lemma {:induction false} SentWithinBound(ws: seq<Window>, lo: int)
    requires WindowsOk(ws) && ws != []
    ensures SentIn(ws, lo, lo + 60_000) <= Bound(ws[|ws| - 1].start, lo)
  {
    var last, before := ws[|ws| - 1], ws[..|ws| - 1];
    assert WindowOk(last);
    assert forall i :: 0 <= i < |last.sends| ==> last.sends[i] in last.sends;
    if before == [] {
      assert SentIn(before, lo, lo + 60_000) == 0;
    } else {
      assert forall w :: w in before ==> w in ws;
      SentWithinBound(before, lo);
    }
  }

  /** All sends of the windows, oldest first. */
  ghost function Flat(ws: seq<Window>): seq<int> {
    if ws == [] then [] else Flat(ws[..|ws| - 1]) + ws[|ws| - 1].sends
  }

  lemma FlatAdd(ws: seq<Window>, t: int)
    requires ws != []
    ensures Flat(AddSend(ws, t)) == Flat(ws) + [t]
  {
    assert AddSend(ws, t)[..|ws| - 1] == ws[..|ws| - 1];
    assert Flat(ws[..|ws| - 1]) + (ws[|ws| - 1].sends + [t]) == Flat(ws[..|ws| - 1]) + ws[|ws| - 1].sends + [t];
  }

  lemma FlatRoll(ws: seq<Window>, start: int)
    ensures Flat(ws + [Window(start, [])]) == Flat(ws)
  {
    assert (ws + [Window(start, [])])[..|ws|] == ws;
  }

  lemma {:induction false} CountJoined(a: seq<int>, b: seq<int>, lo: int, hi: int)
    ensures CountIn(a + b, lo, hi) == CountIn(a, lo, hi) + CountIn(b, lo, hi)
  {
    if a == [] {
      assert a + b == b;
    } else {
      CountJoined(a[1..], b, lo, hi);
      assert (a + b)[1..] == a[1..] + b;
    }
  }

  lemma {:induction false} CountFlat(ws: seq<Window>, lo: int, hi: int)
    ensures CountIn(Flat(ws), lo, hi) == SentIn(ws, lo, hi)
  {
    if ws != [] {
      CountFlat(ws[..|ws| - 1], lo, hi);
      CountJoined(Flat(ws[..|ws| - 1]), ws[|ws| - 1].sends, lo, hi);
    }
  }

  /** Whatever the pattern of sends, any 60 seconds hold at most 60 of them. */
  lemma AtMostSixtyInAnyMinute(ws: seq<Window>, lo: int)
    requires WindowsOk(ws)
    ensures CountIn(Flat(ws), lo, lo + 60_000) <= 60
  {
    CountFlat(ws, lo, lo + 60_000);
    if ws != [] {
      SentWithinBound(ws, lo);
    }
  }

  /** When the paced frames of one stay on a session socket were sent. */
  ghost function PacedOn(frames: seq<Frame>, stay: nat): seq<int> {
    if frames == [] then []
    else
      var f := frames[|frames| - 1];
      PacedOn(frames[..|frames| - 1], stay) + if f.way == Paced && f.stay == stay then [f.at] else []
  }

  lemma PacedSend(frames: seq<Frame>, f: Frame, stay: nat)
    ensures PacedOn(frames + [f], stay) == PacedOn(frames, stay) + if f.way == Paced && f.stay == stay then [f.at] else []
  {
    assert (frames + [f])[..|frames|] == frames;
  }

  /** A new stay starts with nothing sent. */
  lemma {:induction false} PacedNone(frames: seq<Frame>, stay: nat)
    requires forall f :: f in frames ==> f.stay < stay
    ensures PacedOn(frames, stay) == []
  {
    if frames != [] {
      assert frames[|frames| - 1] in frames;
      PacedNone(frames[..|frames| - 1], stay);
    }
  }
}
