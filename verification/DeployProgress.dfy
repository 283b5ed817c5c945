/**
 * The step reporter of a deploy: it keeps the plan whose snapshots the outbox journals, and from
 * which the answer for an interrupted command says whether the new release was made live.
 */
module DeployProgress {
  import opened Prelude
  import opened CommandAnswers

  /** The steps the answer looks at, and the others; a plan has each at most once. */
  datatype StepId = Switch | StopOld | Start | Health | Other(n: nat)

  type Steps = map<StepId, StepState>

  datatype Ending = Succeeded | DidFail | Cancelled

  /** How a step still running is closed at the end, by how the deploy ended. */
  function ClosedAs(ending: Ending): StepState {
    match ending
    case Succeeded => Done
    case DidFail => Failed
    case Cancelled => Skipped
  }

  function At(steps: Steps, id: StepId): Option<StepState> {
    if id in steps then Some(steps[id]) else None
  }

  /** What a snapshot says about the release. */
  function Shown(steps: Steps): Option<bool> {
    Promoted(At(steps, Switch), At(steps, StopOld), At(steps, Start), At(steps, Health))
  }

  /** Of these steps, the pending ones. */
  function Startable(steps: Steps, ids: seq<StepId>): set<StepId> {
    set id | id in ids && id in steps && steps[id] == Pending
  }

  /** They run now; unless nested, what ran before is done. */
  function Started(steps: Steps, started: set<StepId>, nested: bool): Steps {
    map id | id in steps ::
      if id in started then Running else if !nested && steps[id] == Running then Done else steps[id]
  }

  /** Of these steps, the ones that can end: running, or failing although ready. */
  function Closable(steps: Steps, ids: seq<StepId>, failed: bool): set<StepId> {
    set id | id in ids && id in steps && (steps[id] == Running || (failed && steps[id] == Ready))
  }

  function Closed(steps: Steps, closed: set<StepId>, failed: bool): Steps {
    map id | id in steps :: if id in closed then (if failed then Failed else Done) else steps[id]
  }

  function Ended(steps: Steps, ending: Ending): Steps {
    map id | id in steps ::
      if steps[id] == Running then ClosedAs(ending)
      else if steps[id] == Pending && ending != Succeeded then Skipped
      else steps[id]
  }

  /**
   * What the last snapshot of a deploy says of each step: done only what was done, or ran when the
   * deploy succeeded; failed what had failed, or ran when it failed; nothing runs any more, and
   * what never ran is pending after a success and skipped otherwise.
   */
  lemma EndedAs(steps: Steps, ending: Ending, id: StepId)
    ensures var was, now := At(steps, id), At(Ended(steps, ending), id);
      && (now == Some(Done) <==> was == Some(Done) || (was == Some(Running) && ending == Succeeded))
      && (now == Some(Failed) <==> was == Some(Failed) || (was == Some(Running) && ending == DidFail))
      && (now == Some(Skipped) <==> was == Some(Skipped) || (was == Some(Running) && ending == Cancelled) || (was == Some(Pending) && ending != Succeeded))
      && (now == Some(Pending) <==> was == Some(Pending) && ending == Succeeded)
      && (now == Some(Ready) <==> was == Some(Ready)) && now != Some(Running) && (now.None? <==> was.None?)
  {
    assert id in Ended(steps, ending) <==> id in steps;
  }

  predicate Runs(steps: Steps, id: Option<StepId>) {
    id.Some? && At(steps, id.value) == Some(Running)
  }

  /** A failure among these steps puts the enclosing step back to pending: it runs, and is not one of them. */
  predicate PutsBack(steps: Steps, resume: Option<StepId>, ids: seq<StepId>, failed: bool) {
    && failed && Closable(steps, ids, true) != {}
    && Runs(steps, resume) && resume.value !in ids
  }

  lemma StillRuns(steps: Steps, id: Option<StepId>, ids: seq<StepId>, failed: bool)
    ensures Runs(Closed(steps, Closable(steps, ids, failed), failed), id) <==> Runs(steps, id) && id.value !in ids
  {
    assert id.Some? && Runs(steps, id) && id.value in ids ==> id.value in Closable(steps, ids, failed);
  }

  /** The only sign that the release is live is this running step. */
  predicate OnlySign(steps: Steps, id: StepId) {
    && At(steps, Start) == Some(Pending)
    && if Switch in steps then id == StopOld && steps[Switch] == Pending else id == Health
  }

  /** The first of `ids` that is in the set. */
  ghost predicate FirstOf(which: set<StepId>, ids: seq<StepId>, id: StepId) {
    id in which && exists i :: 0 <= i < |ids| && ids[i] == id && forall j :: 0 <= j < i ==> ids[j] !in which
  }

  class Reporter {
    var steps: Steps
    var current: Option<StepId>
    /** The step to go back to when nested steps are over. */
    var resume: Option<StepId>
    /** How often each step was put back to pending. Only `SettleResume` changes it. */
    ghost var undone: multiset<StepId>

    constructor (planned: Steps)
      ensures steps == planned && current == None && resume == None && undone == multiset{}
    {
      steps, current, resume, undone := planned, None, None, multiset{};
    }

    method Close(id: StepId, state: StepState)
      requires id in steps
      modifies `steps, `current
      ensures steps == old(steps)[id := state] && current == if old(current) == Some(id) then None else old(current)
    {
      steps := steps[id := state];
      if current == Some(id) { current := None; }
    }

    /** Everything that runs and is not being started is taken to be done. */
    method CloseOthers(started: set<StepId>)
      modifies `steps, `current
      ensures steps == map id | id in old(steps) :: if id !in started && old(steps)[id] == Running then Done else old(steps)[id]
    {
      var rest := steps.Keys;
      while rest != {}
        invariant rest <= steps.Keys == old(steps.Keys)
        invariant forall id :: id in steps ==>
          steps[id] == if id !in rest && id !in started && old(steps)[id] == Running then Done else old(steps)[id]
        decreases rest
      {
        var id :| id in rest;
        if steps[id] == Running && id !in started { Close(id, Done); }
        rest := rest - {id};
      }
    }

    method PendingOf(ids: seq<StepId>) returns (started: seq<StepId>)
      ensures forall id :: id in started <==> id in Startable(steps, ids)
      ensures started != [] ==> FirstOf(Startable(steps, ids), ids, started[0])
    {
      started := [];
      for i := 0 to |ids|
        invariant forall id :: id in started <==> id in Startable(steps, ids[..i])
        invariant started == [] ==> forall j :: 0 <= j < i ==> ids[j] !in Startable(steps, ids)
        invariant started != [] ==> FirstOf(Startable(steps, ids), ids, started[0])
      {
        assert ids[..i + 1] == ids[..i] + [ids[i]];
        if ids[i] in steps && steps[ids[i]] == Pending { started := started + [ids[i]]; }
      }
      assert ids[..|ids|] == ids;
    }

    method SetRunning(started: seq<StepId>)
      requires forall id :: id in started ==> id in steps
      modifies `steps
      ensures steps == map id | id in old(steps) :: if id in started then Running else old(steps)[id]
    {
      for i := 0 to |started|
        invariant steps == map id | id in old(steps) :: if id in started[..i] then Running else old(steps)[id]
      {
        assert started[..i + 1] == started[..i] + [started[i]];
        steps := steps[started[i] := Running];
      }
      assert started[..|started|] == started;
    }

    /** Mark steps running. Whatever ran before is finished, unless `nested`. */
    method StartSteps(ids: seq<StepId>, nested: bool)
      modifies `steps, `current, `resume
      ensures Startable(old(steps), ids) == {} ==> steps == old(steps) && current == old(current) && resume == old(resume)
      ensures Startable(old(steps), ids) != {} ==> steps == Started(old(steps), Startable(old(steps), ids), nested)
      ensures Startable(old(steps), ids) != {} ==> current.Some? && FirstOf(Startable(old(steps), ids), ids, current.value)
      ensures Startable(old(steps), ids) != {} ==>
        resume == if !nested then None else if old(current).Some? && old(current).value !in Startable(old(steps), ids) then old(current) else old(resume)
    {
      var started := PendingOf(ids);
      ghost var which := Startable(steps, ids);
      if started == [] {
        assert which == {};
        return;
      }
      assert started[0] in which;
      if nested {
        if current.Some? && current.value !in started { resume := current; }
      } else {
        CloseOthers(set id | id in started);
        resume := None;
      }
      SetRunning(started);
      current := Some(started[0]);
    }

    /** What becomes of the interrupted phase step: it is the current one again, or pending after a failure. */
    method SettleResume(failed: bool)
      modifies `steps, `current, `resume, `undone
      ensures failed && Runs(old(steps), old(resume)) ==>
        undone == old(undone) + multiset{old(resume).value} && steps == old(steps)[old(resume).value := Pending]
      ensures !(failed && Runs(old(steps), old(resume))) ==> undone == old(undone) && steps == old(steps)
      ensures current == if old(current).None? && !failed && Runs(old(steps), old(resume)) then old(resume) else old(current)
      ensures resume == if current.None? then None else old(resume)
    {
      if Runs(steps, resume) {
        if failed {
          steps := steps[resume.value := Pending];
          undone := undone + multiset{resume.value};
        } else if current.None? {
          current := resume;
        }
      }
      if current.None? { resume := None; }
    }

    /** Mark steps done or failed; a failure puts a running step they were nested in back to pending. */
    method FinishSteps(ids: seq<StepId>, failed: bool)
      modifies `steps, `current, `resume, `undone
      ensures var closed := Closed(old(steps), Closable(old(steps), ids, failed), failed);
        if PutsBack(old(steps), old(resume), ids, failed)
        then steps == closed[old(resume).value := Pending] && undone == old(undone) + multiset{old(resume).value}
        else steps == closed && undone == old(undone)
    {
      var changed := false;
      for i := 0 to |ids|
        invariant steps == Closed(old(steps), Closable(old(steps), ids[..i], failed), failed)
        invariant changed <==> Closable(old(steps), ids[..i], failed) != {}
        invariant resume == old(resume) && undone == old(undone)
      {
        assert ids[..i + 1] == ids[..i] + [ids[i]];
        var id := ids[i];
        if id in steps && (steps[id] == Running || (failed && steps[id] == Ready)) {
          assert id in Closable(old(steps), ids[..i + 1], failed);
          Close(id, if failed then Failed else Done);
          changed := true;
        }
      }
      assert ids[..|ids|] == ids;
      assert changed && failed && Runs(steps, resume) <==> PutsBack(old(steps), old(resume), ids, failed) by {
        StillRuns(old(steps), resume, ids, failed);
      }
      if changed { SettleResume(failed); }
    }

    /** A phase that comes round again reopens its step. */
    method Phase(id: StepId)
      modifies `steps, `current, `resume
      ensures id in old(steps) && (old(steps)[id] == Done || old(steps)[id] == Pending) ==>
        steps == Started(old(steps), {id}, false) && current == Some(id) && resume == None
      ensures id !in old(steps) || (old(steps)[id] != Done && old(steps)[id] != Pending) ==> steps == old(steps)
    {
      if id !in steps { return; }
      if steps[id] == Done { steps := steps[id := Pending]; }
      ghost var reopened := steps;
      StartSteps([id], false);
      assert Startable(reopened, [id]) == if reopened[id] == Pending then {id} else {};
    }

    /** Close all steps for the last snapshot. */
    method Finish(ending: Ending)
      modifies `steps, `current, `resume
      ensures steps == Ended(old(steps), ending) && current == None && resume == None
    {
      var rest := steps.Keys;
      while rest != {}
        invariant rest <= steps.Keys == old(steps.Keys)
        invariant forall id :: id in steps ==> steps[id] == if id in rest then old(steps)[id] else Ended(old(steps), ending)[id]
        decreases rest
      {
        var id :| id in rest;
        if steps[id] == Running {
          Close(id, ClosedAs(ending));
        } else if steps[id] == Pending && ending != Succeeded {
          steps := steps[id := Skipped];
        }
        rest := rest - {id};
      }
      current, resume := None, None;
    }
  }

  // ---------------------------------------------------------------- what the snapshots say

  /** What the deploy tells the reporter. */
  datatype Op =
    | StartOp(ids: seq<StepId>, nested: bool)
    | EndOp(ids: seq<StepId>, failed: bool)
    | PhaseOp(id: StepId)
    | FinishOp(ending: Ending)

  /** A later snapshot: the same steps, and one that left pending stays out of it, except for `back`. */
  ghost predicate Advances(before: Steps, after: Steps, back: set<StepId>) {
    && before.Keys == after.Keys
    && forall id :: id in after && after[id] == Pending ==> before[id] == Pending || id in back
  }

  /**
   * One call. A step returns to pending only when a nested step fails, and a snapshot that shows
   * the release live is followed by one that denies it if and only if that step was the only sign.
   */
  method Report(r: Reporter, op: Op)
    modifies r
    ensures Advances(old(r.steps), r.steps, Back(op, old(r.steps), old(r.resume)))
    ensures r.undone == old(r.undone) + multiset(Back(op, old(r.steps), old(r.resume)))
    ensures op.FinishOp? ==> NothingRuns(r.steps)
    ensures Shown(old(r.steps)) == Some(true) ==>
      (Shown(r.steps) == Some(false) <==> Undoes(op, old(r.steps), old(r.resume)) && OnlySign(old(r.steps), old(r.resume).value))
  {
    match op {
      case StartOp(ids, nested) => r.StartSteps(ids, nested);
      case EndOp(ids, failed) =>
        if PutsBack(r.steps, r.resume, ids, failed) && Shown(r.steps) == Some(true) { EndShown(r.steps, r.resume, ids, failed); }
        r.FinishSteps(ids, failed);
      case PhaseOp(id) => r.Phase(id);
      case FinishOp(ending) => r.Finish(ending);
    }
    NotTakenBack(old(r.steps), r.steps, Back(op, old(r.steps), old(r.resume)));
  }

  /** A step that goes back was running, so it was the only sign or no sign that matters now. */
  lemma EndShown(steps: Steps, resume: Option<StepId>, ids: seq<StepId>, failed: bool)
    requires PutsBack(steps, resume, ids, failed) && Shown(steps) == Some(true)
    ensures Shown(Closed(steps, Closable(steps, ids, failed), failed)[resume.value := Pending]) == Some(false) <==> OnlySign(steps, resume.value)
  {
  }

  predicate Undoes(op: Op, steps: Steps, resume: Option<StepId>)
    ensures Undoes(op, steps, resume) ==> resume.Some?
  {
    op.EndOp? && PutsBack(steps, resume, op.ids, op.failed)
  }

  /** The step this call puts back. */
  function Back(op: Op, steps: Steps, resume: Option<StepId>): set<StepId> {
    if Undoes(op, steps, resume) then {resume.value} else {}
  }

  /** The steps put back since. */
  function PutBack(before: multiset<StepId>, after: multiset<StepId>): set<StepId> {
    set id | id in after && after[id] > before[id]
  }

  predicate NothingRuns(steps: Steps) {
    forall id :: id in steps ==> steps[id] != Running
  }

  /**
   * Any run of calls: unless one of these four steps was put back, what was shown live is not
   * denied; and after a run that ends with the end of the deploy nothing runs.
   */
  method Follow(r: Reporter, ops: seq<Op>)
    modifies r
    ensures Advances(old(r.steps), r.steps, PutBack(old(r.undone), r.undone))
    ensures Shown(old(r.steps)) == Some(true) && Shown(r.steps) == Some(false) ==>
      var back := PutBack(old(r.undone), r.undone);
      Switch in back || StopOld in back || Start in back || Health in back
    ensures ops != [] && ops[|ops| - 1].FinishOp? ==> NothingRuns(r.steps)
  {
    for i := 0 to |ops|
      invariant i > 0 && ops[i - 1].FinishOp? ==> NothingRuns(r.steps)
      invariant forall id :: r.undone[id] >= old(r.undone)[id]
      invariant Advances(old(r.steps), r.steps, PutBack(old(r.undone), r.undone))
    {
      Report(r, ops[i]);
    }
    NotTakenBack(old(r.steps), r.steps, PutBack(old(r.undone), r.undone));
  }

  lemma NotTakenBack(before: Steps, after: Steps, back: set<StepId>)
    requires Advances(before, after, back)
    ensures Shown(before) == Some(true) && Shown(after) == Some(false) ==>
      Switch in back || StopOld in back || Start in back || Health in back
  {
  }

  /** An install nested in the current step fails: that step goes back to pending. */
  method NestedFails(r: Reporter, install: StepId)
    requires r.current.Some? && Runs(r.steps, r.current) && At(r.steps, install) == Some(Pending)
    modifies r
    ensures r.steps == old(r.steps)[install := Failed][old(r.current).value := Pending]
  {
    ghost var id := r.current.value;
    assert Startable(r.steps, [install]) == {install};
    r.StartSteps([install], true);
    assert r.resume == Some(id) && Closable(r.steps, [install], true) == {install};
    r.FinishSteps([install], true);
  }

  /** It happens: the health check runs before the start step, an install nested in it fails. */
  method HealthPutBack(other: nat) returns (r: Reporter, shown: seq<Option<bool>>)
    ensures shown == [Some(true), Some(false)]
  {
    r := new Reporter(map[Start := Pending, Health := Pending, Other(other) := Pending]);
    r.Phase(Health);
    shown := [Shown(r.steps)];
    NestedFails(r, Other(other));
    shown := shown + [Shown(r.steps)];
  }

  /** And with an unknown in between: the start step was done, is reopened, and an install nested in it fails. */
  method StartPutBack(other: nat) returns (r: Reporter, shown: seq<Option<bool>>)
    ensures shown == [Some(true), None, Some(false)]
  {
    r := new Reporter(map[Start := Pending, Other(other) := Pending]);
    r.Phase(Start);
    assert Closable(r.steps, [Start], false) == {Start};
    r.FinishSteps([Start], false);
    shown := [Shown(r.steps)];
    r.Phase(Start);
    shown := shown + [Shown(r.steps)];
    NestedFails(r, Other(other));
    shown := shown + [Shown(r.steps)];
  }
}
