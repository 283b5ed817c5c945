/** What a command's outcome says, and the answer given for one that was interrupted. */
module CommandAnswers {
  import opened Prelude

  datatype StepState = Ready | Pending | Running | Done | Failed | Skipped
  datatype Step = Step(id: string, text: string, state: StepState)

  /** A command's step plan; `ticker` is text that moves without a step changing. */
  datatype Plan = Plan(steps: seq<Step>, current: Option<string>, runningSince: Option<string>, ticker: string)

  /** How a command ended: what its handler answered, or cut short with this much of its plan journaled. */
  datatype Answer = Handler(ok: bool, result: string, error: string) | Interrupted(progress: Option<Plan>)

  /** The part of an outcome message that must never change: `ok`, `result` and `error`. */
  datatype Report = Payload(json: string) | Facts(lastStep: Option<string>, releasePromoted: Option<bool>)
  datatype Wire = Wire(ok: bool, result: Report, error: string)

  const PROMOTE_STEP := "start"
  const SWITCH_STEP := "switch"
  const STOP_OLD_STEP := "stop-old"
  const HEALTH_STEP := "health"

  function Find(steps: seq<Step>, id: string): (r: Option<Step>)
    ensures r.Some? ==> r.value in steps && r.value.id == id
    ensures r.None? <==> forall s :: s in steps ==> s.id != id
  {
    if steps == [] then None
    else if steps[0].id == id then Some(steps[0])
    else Find(steps[1..], id)
  }

  predicate Begun(s: Step) {
    s.state == Running || s.state == Done || s.state == Failed
  }

  function FindLastBegun(steps: seq<Step>): Option<Step> {
    if steps == [] then None
    else if Begun(steps[|steps| - 1]) then Some(steps[|steps| - 1])
    else FindLastBegun(steps[..|steps| - 1])
  }

  function StateOf(plan: Plan, id: string): Option<StepState> {
    var s := Find(plan.steps, id);
    if s.Some? then Some(s.value.state) else None
  }

  /** Whether the new release takes the traffic, when a step of its own switches it over. */
  function TrafficSwitched(switch_: StepState, stopOld: Option<StepState>, start: Option<StepState>, health: Option<StepState>): Option<bool> {
    var switched := switch_ == Done || (stopOld.Some? && stopOld.value != Pending);
    var nextAppUnderWay := start == Some(Running) || health == Some(Running);
    if switched then (if nextAppUnderWay then None else Some(true))
    else if switch_ != Pending then None
    else if start == Some(Pending) then Some(false) else None
  }

  /** Was the new release made live, as far as the states of these steps show? */
  function Promoted(switch_: Option<StepState>, stopOld: Option<StepState>, start: Option<StepState>, health: Option<StepState>): Option<bool> {
    if switch_.Some? then TrafficSwitched(switch_.value, stopOld, start, health)
    else if start.None? then None
    else if start.value == Done || (health.Some? && health.value != Pending) then Some(true)
    else if start.value == Pending then Some(false) else None
  }

  function ReleasePromoted(plan: Plan): Option<bool> {
    Promoted(StateOf(plan, SWITCH_STEP), StateOf(plan, STOP_OLD_STEP), StateOf(plan, PROMOTE_STEP), StateOf(plan, HEALTH_STEP))
  }

  function LastStep(plan: Plan): Option<string> {
    var current := if plan.current.Some? then Find(plan.steps, plan.current.value) else None;
    var last := if current.Some? then current else FindLastBegun(plan.steps);
    if last.Some? then Some(last.value.text) else None
  }

  /** What an outcome message carries for an answer. */
  function OnWire(a: Answer): Wire {
    match a
    case Handler(ok, result, error) => Wire(ok, Payload(result), error)
    case Interrupted(progress) =>
      var lastStep := if progress.Some? then LastStep(progress.value) else None;
      var promoted := if progress.Some? then ReleasePromoted(progress.value) else None;
      Wire(false, Facts(lastStep, promoted), InterruptedText(lastStep, promoted))
  }

  const RESTARTED := "The daemon restarted while this command was running ("
  const CHECK_HOST := "). The host may be partly changed; check it before running again."
  const LIVE := "; the new release had been made live"
  const NOT_LIVE := "; the new release had not been made live"

  function InterruptedText(lastStep: Option<string>, promoted: Option<bool>): string {
    var step := if lastStep.Some? && lastStep.value != "" then "last step: " + lastStep.value else "no step reported";
    var release := if promoted.None? then "" else if promoted.value then LIVE else NOT_LIVE;
    RESTARTED + step + release + CHECK_HOST
  }

  // ---------------------------------------------------------------- what an interrupted command is answered

  /** The first step with this id is the `i`-th. */
  predicate FirstAt(plan: Plan, id: string, i: int) {
    0 <= i < |plan.steps| && plan.steps[i].id == id && forall j :: 0 <= j < i ==> plan.steps[j].id != id
  }

  predicate Absent(plan: Plan, id: string) {
    forall j :: 0 <= j < |plan.steps| ==> plan.steps[j].id != id
  }

  /** The step with this id shows one of these states. */
  ghost predicate Shows(plan: Plan, id: string, states: set<StepState>) {
    exists i :: FirstAt(plan, id, i) && plan.steps[i].state in states
  }

  lemma {:induction false} FindFirst(steps: seq<Step>, id: string, i: nat)
    requires i < |steps| && steps[i].id == id && forall j :: 0 <= j < i ==> steps[j].id != id
    ensures Find(steps, id) == Some(steps[i])
  {
    if i > 0 { FindFirst(steps[1..], id, i - 1); }
  }

  lemma StateAt(plan: Plan, id: string, states: set<StepState>)
    ensures StateOf(plan, id) == None <==> Absent(plan, id)
    ensures Shows(plan, id, states) <==> StateOf(plan, id).Some? && StateOf(plan, id).value in states
  {
    if !Absent(plan, id) {
      var i := FirstIndex(plan.steps, id);
      FindFirst(plan.steps, id, i);
      assert FirstAt(plan, id, i);
      forall k | FirstAt(plan, id, k) ensures k == i { }
    } else {
      assert forall s :: s in plan.steps ==> s.id != id;
    }
  }

  lemma {:induction false} FirstIndex(steps: seq<Step>, id: string) returns (i: nat)
    requires exists j :: 0 <= j < |steps| && steps[j].id == id
    ensures i < |steps| && steps[i].id == id && forall j :: 0 <= j < i ==> steps[j].id != id
  {
    if steps[0].id == id {
      i := 0;
    } else {
      var j :| 0 <= j < |steps| && steps[j].id == id;
      assert steps[1..][j - 1].id == id;
      var k := FirstIndex(steps[1..], id);
      i := k + 1;
    }
  }

  /** The last step that runs, is done or failed is the `i`-th. */
  predicate LastBegunAt(plan: Plan, i: int) {
    && 0 <= i < |plan.steps| && plan.steps[i].state in {Running, Done, Failed}
    && forall j :: i < j < |plan.steps| ==> plan.steps[j].state in {Ready, Pending, Skipped}
  }

  predicate NoneBegunIn(plan: Plan) {
    forall j :: 0 <= j < |plan.steps| ==> plan.steps[j].state in {Ready, Pending, Skipped}
  }

  predicate NoCurrent(plan: Plan) {
    plan.current.Some? ==> Absent(plan, plan.current.value)
  }

  lemma {:induction false} LastBegun(steps: seq<Step>, i: nat)
    requires i < |steps| && Begun(steps[i]) && forall j :: i < j < |steps| ==> !Begun(steps[j])
    ensures FindLastBegun(steps) == Some(steps[i])
  {
    if i < |steps| - 1 { LastBegun(steps[..|steps| - 1], i); }
  }

  lemma {:induction false} NoneBegun(steps: seq<Step>)
    requires forall j :: 0 <= j < |steps| ==> !Begun(steps[j])
    ensures FindLastBegun(steps) == None
  {
    if steps != [] { NoneBegun(steps[..|steps| - 1]); }
  }

  /**
   * The step an interrupted command is reported at: the one named as current if the plan has
   * it, else the last that runs, is done or failed, else none.
   */
  lemma LastStepShown(plan: Plan, i: nat)
    ensures plan.current.Some? && FirstAt(plan, plan.current.value, i) ==> LastStep(plan) == Some(plan.steps[i].text)
    ensures NoCurrent(plan) && LastBegunAt(plan, i) ==> LastStep(plan) == Some(plan.steps[i].text)
    ensures NoCurrent(plan) && NoneBegunIn(plan) ==> LastStep(plan) == None
  {
    if plan.current.Some? {
      if FirstAt(plan, plan.current.value, i) { FindFirst(plan.steps, plan.current.value, i); }
      StateAt(plan, plan.current.value, {});
    }
    if LastBegunAt(plan, i) { LastBegun(plan.steps, i); }
    if NoneBegunIn(plan) { NoneBegun(plan.steps); }
  }

  /** The states that say the old release is being or was taken down, or the check has begun. */
  const UNDER_WAY := {Ready, Running, Done, Failed, Skipped}

  /**
   * Whether the new release is reported as live, by the states of the four steps. With a switch
   * step: yes if it is done or the old release is no longer waiting to be stopped, and no app is
   * starting or being checked; no if switch, stop and start all wait. Without one: yes if the
   * start is done or the check has begun; no if the start waits and no check has begun.
   */
  lemma ReleaseShown(plan: Plan)
    ensures ReleasePromoted(plan) == Some(true) <==>
      if !Absent(plan, SWITCH_STEP) then
        && (Shows(plan, SWITCH_STEP, {Done}) || Shows(plan, STOP_OLD_STEP, UNDER_WAY))
        && !Shows(plan, PROMOTE_STEP, {Running}) && !Shows(plan, HEALTH_STEP, {Running})
      else !Absent(plan, PROMOTE_STEP) && (Shows(plan, PROMOTE_STEP, {Done}) || Shows(plan, HEALTH_STEP, UNDER_WAY))
    ensures ReleasePromoted(plan) == Some(false) <==>
      if !Absent(plan, SWITCH_STEP) then
        Shows(plan, SWITCH_STEP, {Pending}) && !Shows(plan, STOP_OLD_STEP, UNDER_WAY) && Shows(plan, PROMOTE_STEP, {Pending})
      else Shows(plan, PROMOTE_STEP, {Pending}) && !Shows(plan, HEALTH_STEP, UNDER_WAY)
  {
    StateAt(plan, SWITCH_STEP, {Done});
    StateAt(plan, SWITCH_STEP, {Pending});
    StateAt(plan, STOP_OLD_STEP, UNDER_WAY);
    StateAt(plan, PROMOTE_STEP, {Running});
    StateAt(plan, PROMOTE_STEP, {Done});
    StateAt(plan, PROMOTE_STEP, {Pending});
    StateAt(plan, HEALTH_STEP, {Running});
    StateAt(plan, HEALTH_STEP, UNDER_WAY);
    AllStates(StateOf(plan, STOP_OLD_STEP));
    AllStates(StateOf(plan, HEALTH_STEP));
  }

  lemma AllStates(state: Option<StepState>)
    ensures state.Some? ==> (state.value in UNDER_WAY <==> state.value != Pending)
  {
  }

  /** A handler's answer reaches the wire as it is; an interrupted command is never reported as ok, and its facts are its plan's. */
  lemma WireShows(a: Answer)
    ensures a.Handler? ==> OnWire(a) == Wire(a.ok, Payload(a.result), a.error)
    ensures a.Interrupted? ==> !OnWire(a).ok && OnWire(a).result.Facts?
    ensures a == Interrupted(None) ==> OnWire(a).result == Facts(None, None)
    ensures a.Interrupted? && a.progress.Some? ==>
      OnWire(a).result == Facts(LastStep(a.progress.value), ReleasePromoted(a.progress.value))
    ensures a.Interrupted? ==> OnWire(a).error == InterruptedText(OnWire(a).result.lastStep, OnWire(a).result.releasePromoted)
  {
  }

  /** The text says which step it was at, and whether the release is known to be live or known not to be. */
  lemma TextShows(lastStep: Option<string>, promoted: Option<bool>) returns (step: string, release: string)
    ensures InterruptedText(lastStep, promoted) == RESTARTED + step + release + CHECK_HOST
    ensures step == if lastStep == None || lastStep == Some("") then "no step reported" else "last step: " + lastStep.value
    ensures match promoted { case None => release == "" case Some(live) => release == if live then LIVE else NOT_LIVE }
  {
    step := if lastStep.Some? && lastStep.value != "" then "last step: " + lastStep.value else "no step reported";
    release := if promoted.None? then "" else if promoted.value then LIVE else NOT_LIVE;
  }
}
