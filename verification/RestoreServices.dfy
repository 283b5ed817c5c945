/**
 * Around the restore helper: the containers that use the copy are stopped, and an intent
 * file names them until they run again. The daemon may die at any Docker call or file
 * operation; a method that meets a death returns at once.
 */
module RestoreServices {
  import opened Prelude
  import Swap = RestoreSwap

  /** A container id; only equality matters. */
  type Container = nat

  /** How one call ends. `Dies(acted)`: the daemon is killed before or after its effect. */
  datatype Fate = Works | Fails | Dies(acted: bool)

  datatype Verdict = Ok | Bad | Dead

  function VerdictOf(fate: Fate): Verdict {
    match fate
    case Works => Ok
    case Fails => Bad
    case Dies(_) => Dead
  }

  predicate TakesEffect(fate: Fate) {
    fate.Works? || (fate.Dies? && fate.acted)
  }

  function Ids(containers: seq<Container>): set<Container> {
    set c | c in containers
  }

  predicate Distinct(containers: seq<Container>) {
    forall i, j :: 0 <= i < j < |containers| ==> containers[i] != containers[j]
  }

  /** None of the calls from `a` up to `b` fails. */
  ghost predicate NoneFails(fates: nat -> Fate, a: nat, b: nat) {
    !SomeFails(fates, a, b)
  }

  predicate DiesAt(fates: nat -> Fate, k: nat) {
    fates(k).Dies?
  }

  predicate FailsAt(fates: nat -> Fate, k: nat) {
    fates(k).Fails?
  }

  ghost predicate SomeDies(fates: nat -> Fate, a: nat, b: nat) {
    exists k :: a <= k < b && DiesAt(fates, k)
  }

  ghost predicate SomeFails(fates: nat -> Fate, a: nat, b: nat) {
    exists k :: a <= k < b && FailsAt(fates, k)
  }

  /** What happened during some calls: the daemon died, a stop was refused, a file operation failed. */
  datatype Account = Account(died: bool, refused: bool, failed: bool)

  function Both(a: Account, b: Account): Account {
    Account(a.died || b.died, a.refused || b.refused, a.failed || b.failed)
  }

  const QUIET := Account(false, false, false)

  /** The containers whose start failed among the calls from `a` up to `b`. */
  ghost function FailedStarts(tried: seq<Container>, fates: nat -> Fate, a: nat, b: nat): set<Container>
    requires b <= |tried|
  {
    set k | a <= k < b && fates(k).Fails? :: tried[k]
  }

  /** How a restore ended: it finished (with what would not start), gave up, or the daemon died. */
  datatype Outcome = Finished(notRestarted: seq<Container>) | Refused | Threw | Died

  /** `outcome` is what the account says; `busy`: the helper of an earlier restore still runs. */
  ghost function AnswerOf(a: Account, busy: bool, helperOk: bool, outcome: Outcome): Health {
    if && (outcome.Died? <==> a.died)
       && (outcome.Threw? <==> !a.died && (busy || a.failed || (!a.refused && !helperOk)))
       && (outcome.Refused? <==> !a.died && !busy && !a.failed && a.refused)
       && (outcome.Finished? <==> !a.died && !busy && !a.failed && !a.refused && helperOk)
    then Sound else Broken
  }

  lemma AnswerAfter(a: Account, b: Account, helperOk: bool, outcome: Outcome)
    requires a == QUIET
    ensures AnswerOf(Both(a, b), false, helperOk, outcome) == AnswerOf(b, false, helperOk, outcome)
  {
  }

  /**
   * What a restore of the containers `found` leaves: of those it tried to start again, which are
   * all unless a stop was refused, the ones that failed are down, and listed unless a stop was
   * refused; everything else runs as before.
   */
  ghost function LeftOf(before: set<Container>, found: set<Container>, refused: bool, retried: set<Container>, failed: set<Container>,
                        running: set<Container>, intent: Option<seq<Container>>): Health {
    if && failed <= retried <= found && (!refused ==> retried == found)
       && running == before - failed
       && (if refused then intent == None else (intent.None? <==> failed == {}) && (intent.Some? ==> Ids(intent.value) == failed))
    then Sound else Broken
  }

  /** What is then down and not listed. */
  lemma ForgetSets(up: set<Container>, running: set<Container>, listed: set<Container>, first: set<Container>, back: set<Container>,
                   then_: set<Container>, refused: bool, running': set<Container>, listed': set<Container>)
    requires first <= listed && back == running + (listed - first)
    ensures then_ <= back <= up && running' == back - then_ && listed' == (if refused then {} else then_) ==>
      up - running' - listed' == (up - running - listed) + (up - running) * first + if refused then then_ else {}
  {
  }

  lemma ForgetBounds(forgotten: set<Container>, first: set<Container>, owed: set<Container>, then_: set<Container>, forgotten': set<Container>)
    ensures forgotten <= forgotten' <= forgotten + first * owed + then_ ==> forgotten <= forgotten' <= forgotten + (first + then_)
    ensures first == {} && forgotten <= forgotten' <= forgotten + first * owed ==> forgotten' == forgotten
  {
  }

  function Listing(intent: Option<seq<Container>>): set<Container> {
    if intent.Some? then Ids(intent.value) else {}
  }

  /**
   * What a restore leaves, exactly. The starts from `a` up to `mid` are those of an earlier
   * restore's leftovers, `listed`; the later ones are of containers it found itself. What is
   * down and not listed is what was so before, the leftovers that failed and were down, and
   * after a refused stop those of its own that failed.
   */
  ghost function RestoredOf(up: set<Container>, running: set<Container>, listed: set<Container>, users: set<Container>, refused: bool,
                            tried: seq<Container>, fates: nat -> Fate, a: nat, mid: nat,
                            running': set<Container>, intent': Option<seq<Container>>): Health {
    if && a <= mid <= |tried| && Ids(tried[a..mid]) == listed
       && var first, then_ := FailedStarts(tried, fates, a, mid), FailedStarts(tried, fates, mid, |tried|);
          && LeftOf(running + (listed - first), (running + (listed - first)) * users, refused, Ids(tried[mid..]), then_, running', intent') == Sound
          && up - running' - Listing(intent') == (up - running - listed) + (up - running) * first + if refused then then_ else {}
    then Sound else Broken
  }

  lemma RestoredBy(up: set<Container>, running: set<Container>, listed: set<Container>, users: set<Container>, refused: bool,
                   log: seq<Container>, tried: seq<Container>, fates: nat -> Fate, a: nat, back: set<Container>,
                   running': set<Container>, intent': Option<seq<Container>>)
    requires a <= |log| && log <= tried && Ids(log[a..]) == listed && back <= up
    requires FailedStarts(log, fates, a, |log|) <= listed && back == running + (listed - FailedStarts(log, fates, a, |log|))
    ensures LeftOf(back, back * users, refused, Ids(tried[|log|..]), FailedStarts(tried, fates, |log|, |tried|), running', intent') == Sound ==>
      RestoredOf(up, running, listed, users, refused, tried, fates, a, |log|, running', intent') == Sound
  {
    SameStarts(log, tried, fates, a, |log|);
    assert tried[a..|log|] == log[a..];
    ForgetSets(up, running, listed, FailedStarts(log, fates, a, |log|), back, FailedStarts(tried, fates, |log|, |tried|), refused, running', Listing(intent'));
  }

  /** As many starts were tried as stops worked; with a refused one there is one stop more. */
  ghost function CountsOf(refused: bool, starts: nat, starts': nat, stops: nat, stops': nat): Health {
    if stops' - stops == starts' - starts + (if refused then 1 else 0) then Sound else Broken
  }

  class Host {
    var running: set<Container>
    /** The intent file of this copy: the containers to start again. */
    var intent: Option<seq<Container>>
    /** Containers that run whenever the daemon has not stopped them. */
    ghost var up: set<Container>
    /** The container of each start so far. */
    ghost var tried: seq<Container>
    /** How the starts, the stops and the file operations end, each counted on its own. */
    const startFates: nat -> Fate
    const stopFates: nat -> Fate
    const fileFates: nat -> Fate
    var starts: nat
    var stops: nat
    var files: nat

    constructor (running: set<Container>, startFates: nat -> Fate, stopFates: nat -> Fate, fileFates: nat -> Fate)
      ensures Valid() && Forgotten() == {} && this.running == running == up && intent == None
      ensures this.startFates == startFates && this.stopFates == stopFates && this.fileFates == fileFates
      ensures starts == 0 && stops == 0 && files == 0
    {
      this.running, intent, up, tried := running, None, running, [];
      this.startFates, this.stopFates, this.fileFates := startFates, stopFates, fileFates;
      starts, stops, files := 0, 0, 0;
    }

    ghost predicate Valid()
      reads this
    {
      running <= up && Listed() <= up && |tried| == starts && (intent.Some? ==> Distinct(intent.value))
    }

    function Listed(): set<Container>
      reads this
    {
      Listing(intent)
    }

    /** What the daemon stopped and has not started again. */
    ghost function Owed(): set<Container>
      reads this
    {
      up - running
    }

    /** What the daemon stopped, has not started again, and no longer finds on disk. */
    ghost function Forgotten(): set<Container>
      reads this
    {
      Owed() - Listed()
    }

    /** The account of these starts, stops and file operations. */
    ghost function Since(a: nat, a': nat, b: nat, b': nat, c: nat, c': nat): Account {
      Account(SomeDies(startFates, a, a') || SomeDies(stopFates, b, b') || SomeDies(fileFates, c, c'),
              SomeFails(stopFates, b, b'), SomeFails(fileFates, c, c'))
    }

    lemma SinceNothing(a: nat, b: nat, c: nat)
      ensures Since(a, a, b, b, c, c) == QUIET
    {
    }

    lemma OnlyStarts(a: nat, a': nat, b: nat, c: nat)
      ensures Since(a, a', b, b, c, c) == QUIET.(died := SomeDies(startFates, a, a'))
    {
    }

    lemma SinceBoth(a: nat, a1: nat, a': nat, b: nat, b1: nat, b': nat, c: nat, c1: nat, c': nat)
      requires a <= a1 <= a' && b <= b1 <= b' && c <= c1 <= c'
      ensures Since(a, a', b, b', c, c') == Both(Since(a, a1, b, b1, c, c1), Since(a1, a', b1, b', c1, c'))
    {
      SplitSome(startFates, a, a1, a');
      SplitSome(stopFates, b, b1, b');
      SplitSome(fileFates, c, c1, c');
    }

    lemma OneFile(a: nat, b: nat, c: nat)
      ensures Since(a, a, b, b, c, c + 1) == Account(fileFates(c).Dies?, false, fileFates(c).Fails?)
    {
      assert DiesAt(fileFates, c) == fileFates(c).Dies? && FailsAt(fileFates, c) == fileFates(c).Fails?;
    }

    lemma OneStop(a: nat, b: nat, c: nat)
      ensures Since(a, a, b, b + 1, c, c) == Account(stopFates(b).Dies?, stopFates(b).Fails?, false)
    {
      assert DiesAt(stopFates, b) == stopFates(b).Dies? && FailsAt(stopFates, b) == stopFates(b).Fails?;
    }

    // ------------------------------------------------------------- calls

    method Start(id: Container) returns (v: Verdict)
      requires Valid() && id in up
      modifies `running, `tried, `starts
      ensures Valid() && starts == old(starts) + 1 && tried == old(tried) + [id]
      ensures v == VerdictOf(startFates(old(starts)))
      ensures running == if TakesEffect(startFates(old(starts))) then old(running) + {id} else old(running)
    {
      var fate := startFates(starts);
      starts, tried := starts + 1, tried + [id];
      if TakesEffect(fate) { running := running + {id}; }
      v := VerdictOf(fate);
    }

    method Stop(id: Container) returns (v: Verdict)
      requires Valid()
      modifies `running, `stops
      ensures Valid() && stops == old(stops) + 1
      ensures v == VerdictOf(stopFates(old(stops)))
      ensures running == if TakesEffect(stopFates(old(stops))) then old(running) - {id} else old(running)
    {
      var fate := stopFates(stops);
      stops := stops + 1;
      if TakesEffect(fate) { running := running - {id}; }
      v := VerdictOf(fate);
    }

    /** Replace or remove the intent file: temporary file and rename, so it is the old one or the new one. */
    method ChangeIntent(content: Option<seq<Container>>) returns (v: Verdict)
      modifies `intent, `files
      ensures files == old(files) + 1 && v == VerdictOf(fileFates(old(files)))
      ensures intent == if TakesEffect(fileFates(old(files))) then content else old(intent)
    {
      var fate := fileFates(files);
      files := files + 1;
      if TakesEffect(fate) { intent := content; }
      v := VerdictOf(fate);
    }

    // ------------------------------------------------------------- the source's loops

    /** The next of them; `failed` grows when it fails. */
    method StartNext(ids: seq<Container>, i: nat, failed: seq<Container>, ghost running0: set<Container>, ghost first: nat)
      returns (dead: bool, failed': seq<Container>)
      requires Valid() && i < |ids| && ids[i] in up && first <= starts && !SomeDies(startFates, first, starts)
      requires StartedOf(ids[..i], running0, running, failed, tried, startFates, first) == Sound
      modifies `running, `tried, `starts
      ensures Valid() && starts == old(starts) + 1 && tried == old(tried) + [ids[i]]
      ensures dead == startFates(old(starts)).Dies? == SomeDies(startFates, first, starts)
      ensures !dead ==> StartedOf(ids[..i + 1], running0, running, failed', tried, startFates, first) == Sound
      ensures dead ==> running0 <= running <= running0 + Ids(ids) && (Distinct(ids) ==> Distinct(failed'))
      ensures dead ==> Ids(failed') == FailedStarts(tried, startFates, first, starts) <= Ids(ids)
    {
      assert ids[..i + 1] == ids[..i] + [ids[i]];
      StartedMore(ids[..i], ids[i], running0, running, failed, tried, startFates, first);
      StartedPart(ids, i, running0, running, failed, tried, startFates, first);
      SplitSome(startFates, first, starts, starts + 1);
      assert DiesAt(startFates, starts) == startFates(starts).Dies?;
      var v := Start(ids[i]);
      dead, failed' := v == Dead, if v == Bad then failed + [ids[i]] else failed;
    }

    /** Start each container; `failed` are exactly the ones whose start failed. */
    method StartAll(ids: seq<Container>) returns (failed: seq<Container>, dead: bool)
      requires Valid() && Ids(ids) <= up
      modifies `running, `tried, `starts
      ensures Valid() && old(starts) <= starts && old(tried) <= tried && (Distinct(ids) ==> Distinct(failed))
      ensures old(running) <= running <= old(running) + Ids(ids)
      ensures Ids(failed) == FailedStarts(tried, startFates, old(starts), starts) <= Ids(ids)
      ensures !dead ==> Ids(ids) - Ids(failed) <= running && tried == old(tried) + ids
      ensures !dead && Distinct(ids) ==> running == old(running) + (Ids(ids) - Ids(failed))
      ensures dead ==> starts > old(starts) && startFates(starts - 1).Dies?
      ensures dead <==> SomeDies(startFates, old(starts), starts)
    {
      failed, dead := [], false;
      StartedNothing(running, tried, startFates);
      for i := 0 to |ids|
        invariant Valid() && starts == old(starts) + i && tried == old(tried) + ids[..i] && !dead
        invariant StartedOf(ids[..i], old(running), running, failed, tried, startFates, old(starts)) == Sound
        invariant !SomeDies(startFates, old(starts), starts)
      {
        dead, failed := StartNext(ids, i, failed, old(running), old(starts));
        if dead { return; }
      }
      assert ids[..|ids|] == ids;
    }

    /**
     * Take the containers down one by one. When Docker refuses one, those already down are
     * brought up again, and `stuck` are exactly the ones for which that failed.
     */
    method StopAll(ids: seq<Container>) returns (v: Verdict, stuck: seq<Container>)
      requires Valid() && Ids(ids) <= running
      modifies `running, `tried, `starts, `stops
      ensures Valid() && old(starts) <= starts && old(stops) <= stops && old(tried) <= tried
      ensures old(running) - Ids(ids) <= running <= old(running)
      ensures v == Ok ==> running == old(running) - Ids(ids) && starts == old(starts) && NoneFails(stopFates, old(stops), stops)
      ensures v == Bad ==> Ids(stuck) == FailedStarts(tried, startFates, old(starts), starts) <= Ids(ids)
      ensures v == Bad ==> old(running) - running <= Ids(stuck)
      ensures v == Bad && Distinct(ids) ==> running == old(running) - Ids(stuck)
      ensures v == Bad ==> !NoneFails(stopFates, old(stops), stops)
      ensures (forall k :: stopFates(k).Works?) || ids == [] ==> v == Ok
      ensures v == Ok ==> stops == old(stops) + |ids|
      ensures v == Bad ==> stops > old(stops) && starts == old(starts) + (stops - old(stops) - 1) && Ids(tried[old(starts)..]) <= Ids(ids)
      ensures var a := Since(old(starts), starts, old(stops), stops, files, files);
        a.died == (v == Dead) && !a.failed && (v == Ok ==> !a.refused) && (v == Bad ==> a.refused)
    {
      var n;
      v, n := StopEach(ids);
      stuck := [];
      if v != Bad { return; }
      OneMoreId(ids, n);
      var dead;
      stuck, dead := StartAll(ids[..n]);
      OnlyStarts(old(starts), starts, stops, files);
      assert !dead ==> tried[old(starts)..] == ids[..n];
      SinceBoth(old(starts), old(starts), starts, old(stops), stops, stops, files, files, files);
      if dead { v := Dead; }
    }

    /** Stop them up to the first that is refused, which is the `n`-th. */
    method StopEach(ids: seq<Container>) returns (v: Verdict, n: nat)
      requires Valid() && Ids(ids) <= running
      modifies `running, `stops
      ensures Valid() && old(stops) <= stops && n <= |ids| && old(running) - Ids(ids) <= running <= old(running)
      ensures v == Ok ==> n == |ids| && running == old(running) - Ids(ids) && stops == old(stops) + n
      ensures v == Bad ==> n < |ids| && running == old(running) - Ids(ids[..n]) && stops == old(stops) + n + 1
      ensures (forall k :: stopFates(k).Works?) || ids == [] ==> v == Ok
      ensures var a := Since(starts, starts, old(stops), stops, files, files);
        a.died == (v == Dead) && !a.failed && (v == Ok ==> !a.refused) && (v == Bad ==> a.refused)
    {
      SinceNothing(starts, stops, files);
      v, n := Ok, 0;
      while n < |ids|
        invariant Valid() && n <= |ids| && stops == old(stops) + n && v == Ok
        invariant Since(starts, starts, old(stops), stops, files, files) == QUIET
        invariant running == old(running) - Ids(ids[..n]) && Ids(ids[..n]) <= Ids(ids)
      {
        v := Stop(ids[n]);
        OneStop(starts, stops - 1, files);
        SinceBoth(starts, starts, starts, old(stops), stops - 1, stops, files, files, files);
        OneMoreId(ids, n);
        if v != Ok { return; }
        n := n + 1;
      }
      assert ids[..|ids|] == ids;
    }

    /** The containers found running with the copy mounted, in some order. */
    method FindUsing(users: set<Container>) returns (found: seq<Container>)
      ensures Ids(found) == running * users && Distinct(found)
    {
      found := [];
      var rest := running * users;
      while rest != {}
        invariant Ids(found) + rest == running * users && Ids(found) !! rest
        invariant Distinct(found)
        decreases rest
      {
        var id :| id in rest;
        ghost var before := Ids(found);
        assert id !in before;
        found, rest := found + [id], rest - {id};
        assert Ids(found) == before + {id};
      }
    }

    /**
     * Start what an earlier restore stopped and drop the intent, or keep it for the ones that
     * failed. A container leaves the list only once it runs.
     */
    method Recover(helperRunning: bool) returns (v: Verdict, failed: seq<Container>)
      requires Valid() && intent.Some?
      modifies `running, `intent, `tried, `starts, `files
      ensures Valid() && old(starts) <= starts && old(tried) <= tried && old(running) <= running
      ensures helperRunning ==> v == Bad && running == old(running) && intent == old(intent) && starts == old(starts)
      ensures Forgotten() == old(Forgotten())
      ensures Listed() <= old(Listed()) && old(Listed()) - Listed() <= running
      ensures Ids(failed) == FailedStarts(tried, startFates, old(starts), starts)
      ensures v == Ok ==> Listed() == Ids(failed) <= old(Listed()) && running == old(running) + (old(Listed()) - Listed())
      ensures v == Ok ==> starts == old(starts) + |old(intent).value|
      ensures old(files) <= files && (helperRunning ==> files == old(files))
      ensures Since(old(starts), starts, stops, stops, old(files), files) == QUIET.(died := v == Dead, failed := v == Bad && !helperRunning)
      ensures v == Ok ==> tried == old(tried) + old(intent).value
    {
      failed := [];
      SinceNothing(starts, stops, files);
      if helperRunning { return Bad, []; }
      var dead;
      failed, dead := StartAll(intent.value);
      OnlyStarts(old(starts), starts, stops, files);
      NoneListed(failed);
      if dead { return Dead, failed; }
      v := ChangeIntent(if failed == [] then None else Some(failed));
      OneFile(starts, stops, files - 1);
      SinceBoth(old(starts), starts, starts, stops, stops, stops, files - 1, files - 1, files);
    }

    /** Recover, if there is anything to recover. */
    method RecoverAny(helperRunning: bool) returns (v: Verdict)
      requires Valid()
      modifies `running, `intent, `tried, `starts, `files
      ensures Valid() && old(starts) <= starts && old(tried) <= tried && old(running) <= running
      ensures Forgotten() == old(Forgotten())
      ensures v == Ok ==> starts == old(starts) + old(Leftover()) && Ids(tried[old(starts)..]) == old(Listed())
      ensures v == Ok ==> Listed() == FailedStarts(tried, startFates, old(starts), starts) <= old(Listed())
      ensures v == Ok ==> running == old(running) + (old(Listed()) - Listed())
      ensures v == Ok ==> Owed() == old(Forgotten()) + Listed() * old(Owed())
      ensures old(files) <= files
      ensures helperRunning && old(intent).Some? ==> v == Bad && running == old(running) && intent == old(intent)
      ensures var busy := helperRunning && old(intent).Some?;
        Since(old(starts), starts, stops, stops, old(files), files) == QUIET.(died := v == Dead, failed := v == Bad && !busy)
    {
      v := Ok;
      SinceNothing(starts, stops, files);
      if intent.None? {
        assert FailedStarts(tried, startFates, starts, starts) == {} && tried[starts..] == [];
        return;
      }
      var failed;
      v, failed := Recover(helperRunning);
      assert v == Ok ==> tried[old(starts)..] == old(intent).value;
    }

    /** Write the intent for the found containers and stop them. Returns the outcome when the restore ends here. */
    method TakeDown(found: seq<Container>) returns (ended: Option<Outcome>)
      requires Valid() && Ids(found) <= running && Distinct(found)
      modifies `running, `intent, `tried, `starts, `stops, `files
      ensures Valid() && old(starts) <= starts && old(stops) <= stops && old(files) <= files && old(tried) <= tried
      ensures ended.None? ==> running == old(running) - Ids(found) && intent == Some(found) && tried == old(tried)
      ensures ended.None? ==> stops == old(stops) + |found|
      ensures ended.Some? ==> old(Forgotten()) <= Forgotten() <= old(Owed()) + FailedStarts(tried, startFates, old(starts), starts)
      ensures ended.Some? && NoneFails(stopFates, old(stops), stops) ==> Forgotten() <= old(Owed())
      ensures ended == Some(Refused) ==> LeftOf(old(running), Ids(found), true, Ids(tried[old(starts)..]),
                                                FailedStarts(tried, startFates, old(starts), starts), running, intent) == Sound
      ensures ended == Some(Refused) ==> stops > old(stops) && starts == old(starts) + (stops - old(stops) - 1)
      ensures var a := Since(old(starts), starts, old(stops), stops, old(files), files);
        if ended.None? then a == QUIET
        else !ended.value.Finished? && (a.died || a.failed || a.refused) && AnswerOf(a, false, true, ended.value) == Sound
    {
      ended := Some(Died);
      var w := ChangeIntent(Some(found));
      OneFile(starts, stops, old(files));
      if w == Dead { return; }
      if w == Bad { return Some(Threw); }
      var s, stuck := StopAll(found);
      SinceBoth(old(starts), old(starts), starts, old(stops), old(stops), stops, old(files), files, files);
      if s == Dead { return; }
      if s == Ok { return None; }
      w := ChangeIntent(None);
      OneFile(starts, stops, files - 1);
      SinceBoth(old(starts), starts, starts, old(stops), stops, stops, old(files), files - 1, files);
      ended := Some(if w == Dead then Died else if w == Bad then Threw else Refused);
    }

    /**
     * Write the intent for the found containers, stop them, run the helper, start them again.
     * Whatever dies or fails, what is forgotten afterwards was down before, or its start failed
     * after a refused stop. `exit` is the helper's, if it ran.
     */
    method RestoreFound(found: seq<Container>, copy: Swap.Copy, archive: Swap.Dir) returns (outcome: Outcome, exit: Option<Swap.Exit>)
      requires Valid() && Ids(found) <= running && Distinct(found) && copy.Valid() && Swap.ArchiveNames(archive)
      modifies `running, `intent, `tried, `starts, `stops, `files, copy
      ensures Valid() && old(starts) <= starts && old(stops) <= stops && old(files) <= files && old(tried) <= tried
      ensures AnswerOf(Since(old(starts), starts, old(stops), stops, old(files), files), false, exit == Some(Swap.Code(0)), outcome) == Sound
      ensures Helped(copy, archive, exit) && (exit.None? ==> unchanged(copy))
      ensures old(Forgotten()) <= Forgotten() <= old(Owed()) + FailedStarts(tried, startFates, old(starts), starts)
      ensures NoneFails(stopFates, old(stops), stops) ==> Forgotten() <= old(Owed())
      ensures outcome.Finished? ==> Listed() == Ids(outcome.notRestarted) && old(running) <= running + Listed()
      ensures Settled(outcome, old(files)) ==>
        LeftOf(old(running), Ids(found), outcome.Refused?, Ids(tried[old(starts)..]),
               FailedStarts(tried, startFates, old(starts), starts), running, intent) == Sound
      ensures Settled(outcome, old(files)) ==> CountsOf(outcome.Refused?, old(starts), starts, old(stops), stops) == Sound
    {
      exit := None;
      var ended := TakeDown(found);
      if ended.Some? { return ended.value, None; }
      ghost var b, c := stops, files;
      var code := RunHelper(copy, archive);
      exit := Some(code);
      // also after a helper that failed
      outcome := StartAgain(found, code == Swap.Code(0));
      SinceBoth(old(starts), old(starts), starts, old(stops), b, stops, old(files), c, files);
      AnswerAfter(Since(old(starts), old(starts), old(stops), b, old(files), c), Since(old(starts), starts, b, stops, c, files),
                  code == Swap.Code(0), outcome);
    }

    /** The helper runs; Docker reports success exactly for code 0. */
    method RunHelper(copy: Swap.Copy, archive: Swap.Dir) returns (code: Swap.Exit)
      requires copy.Valid() && Swap.ArchiveNames(archive)
      modifies copy
      ensures Helped(copy, archive, Some(code))
    {
      var stale;
      code, stale := copy.Run(archive);
    }

    /** Start the stopped containers, and drop the intent or keep it for the ones that failed. */
    method StartAgain(found: seq<Container>, helperOk: bool) returns (outcome: Outcome)
      requires Valid() && Ids(found) <= up && Listed() == Ids(found) && Distinct(found)
      modifies `running, `intent, `tried, `starts, `files
      ensures Valid() && old(starts) <= starts && old(files) <= files && old(tried) <= tried
      ensures AnswerOf(Since(old(starts), starts, stops, stops, old(files), files), false, helperOk, outcome) == Sound
      ensures Forgotten() == old(Forgotten()) && old(running) <= running <= old(running) + Ids(found)
      ensures outcome != Died ==> running == old(running) + (Ids(found) - FailedStarts(tried, startFates, old(starts), starts))
      ensures outcome != Died ==> tried == old(tried) + found
      ensures Settled(outcome, old(files)) ==> Listed() == FailedStarts(tried, startFates, old(starts), starts) && (intent.None? <==> Listed() == {})
      ensures outcome.Finished? ==> Listed() == Ids(outcome.notRestarted) && Ids(found) <= running + Listed()
    {
      var notRestarted, dead := StartAll(found);
      OnlyStarts(old(starts), starts, stops, files);
      NoneListed(notRestarted);
      if dead { return Died; }
      var w := ChangeIntent(if notRestarted == [] then None else Some(notRestarted));
      OneFile(starts, stops, files - 1);
      SinceBoth(old(starts), starts, starts, stops, stops, stops, files - 1, files - 1, files);
      outcome := if w == Dead then Died else if w == Bad || !helperOk then Threw else Finished(notRestarted);
    }

    /** Find the containers, and go on with them. */
    method RestoreUsing(users: set<Container>, copy: Swap.Copy, archive: Swap.Dir) returns (outcome: Outcome, exit: Option<Swap.Exit>)
      requires Valid() && copy.Valid() && Swap.ArchiveNames(archive)
      modifies `running, `intent, `tried, `starts, `stops, `files, copy
      ensures Valid() && old(starts) <= starts && old(stops) <= stops && old(files) <= files && old(tried) <= tried
      ensures AnswerOf(Since(old(starts), starts, old(stops), stops, old(files), files), false, exit == Some(Swap.Code(0)), outcome) == Sound
      ensures Helped(copy, archive, exit) && (exit.None? ==> unchanged(copy))
      ensures old(Forgotten()) <= Forgotten() <= old(Owed()) + FailedStarts(tried, startFates, old(starts), starts)
      ensures NoneFails(stopFates, old(stops), stops) ==> Forgotten() <= old(Owed())
      ensures outcome.Finished? ==> Listed() == Ids(outcome.notRestarted) && old(running) <= running + Listed()
      ensures Settled(outcome, old(files)) ==>
        LeftOf(old(running), old(running) * users, outcome.Refused?, Ids(tried[old(starts)..]),
               FailedStarts(tried, startFates, old(starts), starts), running, intent) == Sound
      ensures Settled(outcome, old(files)) ==> CountsOf(outcome.Refused?, old(starts), starts, old(stops), stops) == Sound
    {
      var found := FindUsing(users);
      outcome, exit := RestoreFound(found, copy, archive);
    }

    /** The restore after leftovers of an earlier one were started, or not. */
    method RestoreRest(users: set<Container>, copy: Swap.Copy, archive: Swap.Dir,
                       ghost running0: set<Container>, ghost listed0: set<Container>, ghost a: nat)
      returns (outcome: Outcome, exit: Option<Swap.Exit>)
      requires Valid() && copy.Valid() && Swap.ArchiveNames(archive) && a <= starts
      requires Ids(tried[a..]) == listed0 && Listed() == FailedStarts(tried, startFates, a, starts) <= listed0
      requires running == running0 + (listed0 - Listed()) && Owed() == (up - running0 - listed0) + Listed() * (up - running0)
      requires Forgotten() == up - running0 - listed0
      modifies `running, `intent, `tried, `starts, `stops, `files, copy
      ensures Valid() && old(starts) <= starts && old(stops) <= stops && old(files) <= files && old(tried) <= tried
      ensures AnswerOf(Since(old(starts), starts, old(stops), stops, old(files), files), false, exit == Some(Swap.Code(0)), outcome) == Sound
      ensures Helped(copy, archive, exit) && (exit.None? ==> unchanged(copy))
      ensures up - running0 - listed0 <= Forgotten() <= (up - running0 - listed0) + FailedStarts(tried, startFates, a, starts)
      ensures NoneFails(startFates, a, starts) ==> Forgotten() == up - running0 - listed0
      ensures a == old(starts) && NoneFails(stopFates, old(stops), stops) ==> Forgotten() == up - running0 - listed0
      ensures outcome.Finished? ==> Listed() == Ids(outcome.notRestarted) && old(running) <= running + Listed()
      ensures Settled(outcome, old(files)) ==>
        RestoredOf(up, running0, listed0, users, outcome.Refused?, tried, startFates, a, old(starts), running, intent) == Sound
      ensures Settled(outcome, old(files)) ==> CountsOf(outcome.Refused?, old(starts), starts, old(stops), stops) == Sound
    {
      ghost var mid, log, back := starts, tried, running;
      outcome, exit := RestoreUsing(users, copy, archive);
      MoreStarts(log, tried, startFates, a, mid, starts);
      RestoredBy(up, running0, listed0, users, outcome.Refused?, log, tried, startFates, a, back, running, intent);
      ForgetBounds(up - running0 - listed0, FailedStarts(log, startFates, a, mid), up - running0,
                   FailedStarts(tried, startFates, mid, starts), Forgotten());
      assert a == mid ==> FailedStarts(log, startFates, a, mid) == {};
      if NoneFails(startFates, a, starts) { NoFailedStarts(tried, startFates, a, starts); }
    }

    /**
     * One restore: finish what an earlier one left, then stop, swap and start. What it answers
     * follows from what died, failed or was refused and from the helper's exit code. Whatever
     * dies or fails, a stopped container is forgotten only when its start failed in this call,
     * and only when there was a leftover intent or a stop was refused.
     */
    method Restore(users: set<Container>, helperRunning: bool, copy: Swap.Copy, archive: Swap.Dir)
      returns (outcome: Outcome, exit: Option<Swap.Exit>)
      requires Valid() && copy.Valid() && Swap.ArchiveNames(archive)
      modifies `running, `intent, `tried, `starts, `stops, `files, copy
      ensures Valid() && old(starts) <= starts && old(stops) <= stops && old(files) <= files && old(tried) <= tried
      ensures AnswerOf(Since(old(starts), starts, old(stops), stops, old(files), files), helperRunning && old(intent).Some?,
                       exit == Some(Swap.Code(0)), outcome) == Sound
      ensures Helped(copy, archive, exit) && (exit.None? ==> unchanged(copy))
      ensures old(Forgotten()) <= Forgotten() <= old(Forgotten()) + FailedStarts(tried, startFates, old(starts), starts)
      ensures NoneFails(startFates, old(starts), starts) ==> Forgotten() == old(Forgotten())
      ensures old(intent).None? && NoneFails(stopFates, old(stops), stops) ==> Forgotten() == old(Forgotten())
      ensures outcome.Finished? ==> Listed() == Ids(outcome.notRestarted) && old(running) <= running + Listed()
      ensures helperRunning && old(intent).Some? ==> running == old(running) && intent == old(intent)
      ensures Settled(outcome, old(files)) && !(helperRunning && old(intent).Some?) ==>
        RestoredOf(up, old(running), old(Listed()), users, outcome.Refused?, tried, startFates, old(starts), old(starts) + old(Leftover()),
                   running, intent) == Sound
      ensures Settled(outcome, old(files)) && !(helperRunning && old(intent).Some?) ==>
        starts >= old(starts) + old(Leftover()) && CountsOf(outcome.Refused?, old(starts) + old(Leftover()), starts, old(stops), stops) == Sound
    {
      exit := None;
      var r := RecoverAny(helperRunning);
      if r == Dead { return Died, None; }
      if r == Bad { return Threw, None; }
      ghost var mid, c := starts, files;
      outcome, exit := RestoreRest(users, copy, archive, old(running), old(Listed()), old(starts));
      SinceBoth(old(starts), mid, starts, old(stops), old(stops), stops, old(files), c, files);
      AnswerAfter(Since(old(starts), mid, old(stops), old(stops), old(files), c), Since(mid, starts, old(stops), stops, c, files),
                  exit == Some(Swap.Code(0)), outcome);
    }

    /** The daemon did not die, and no file operation failed. */
    ghost predicate Settled(outcome: Outcome, file: nat)
      reads `files
    {
      outcome != Died && NoneFails(fileFates, file, files)
    }

    /** How many starts it takes to recover. */
    function Leftover(): nat
      reads this
    {
      if intent.Some? then |intent.value| else 0
    }

    /** Containers that others start, or stop while no intent lists them. */
    method OthersChange(started: set<Container>, stopped: set<Container>)
      requires Valid()
      modifies `running, `up
      ensures Valid() && Forgotten() <= old(Forgotten()) && intent == old(intent)
    {
      ghost var listed := Listed();
      running := running + started;
      up := up + started;
      var away := set c | c in stopped && c in running && c !in Listed();
      running := running - away;
      up := up - away;
    }
  }

  /** What the helper leaves: the copy stands, and after code 0 it is the archive. */
  ghost predicate Helped(copy: Swap.Copy, archive: Swap.Dir, exit: Option<Swap.Exit>)
    reads copy
  {
    copy.Valid() && (exit == Some(Swap.Code(0)) ==> copy.live == Swap.Visible(archive))
  }

  /** After starting `ids` in order: `failed` are the ones that failed, and all the others run. */
  ghost function StartedOf(ids: seq<Container>, running: set<Container>, running': set<Container>, failed: seq<Container>,
                           tried: seq<Container>, fates: nat -> Fate, first: nat): Health {
    if && Ids(failed) == FailedStarts(tried, fates, first, |tried|) <= Ids(ids)
       && running + (Ids(ids) - Ids(failed)) <= running' <= running + Ids(ids)
       && (Distinct(ids) ==> Distinct(failed) && running' == running + (Ids(ids) - Ids(failed)))
    then Sound else Broken
  }

  lemma StartedNothing(running: set<Container>, tried: seq<Container>, fates: nat -> Fate)
    ensures StartedOf([], running, running, [], tried, fates, |tried|) == Sound
  {
    assert FailedStarts(tried, fates, |tried|, |tried|) == {};
  }

  lemma StartedMore(ids: seq<Container>, id: Container, running: set<Container>, running1: set<Container>, failed: seq<Container>,
                    tried: seq<Container>, fates: nat -> Fate, first: nat)
    requires StartedOf(ids, running, running1, failed, tried, fates, first) == Sound && first <= |tried|
    ensures fates(|tried|).Works? ==> StartedOf(ids + [id], running, running1 + {id}, failed, tried + [id], fates, first) == Sound
    ensures fates(|tried|).Fails? ==> StartedOf(ids + [id], running, running1, failed + [id], tried + [id], fates, first) == Sound
    ensures fates(|tried|).Dies? ==> FailedStarts(tried + [id], fates, first, |tried| + 1) == Ids(failed)
    ensures Ids(ids + [id]) == Ids(ids) + {id}
  {
    OneMoreStart(tried, fates, first, |tried|, id);
    OneMoreFailed(failed, id);
    assert Ids(ids + [id]) == Ids(ids) + {id};
    if Distinct(ids + [id]) { LastApart(ids, id); }
  }

  /** What holds when only the first `i` were started. */
  lemma StartedPart(ids: seq<Container>, i: nat, running: set<Container>, running1: set<Container>, failed: seq<Container>,
                    tried: seq<Container>, fates: nat -> Fate, first: nat)
    requires i < |ids| && StartedOf(ids[..i], running, running1, failed, tried, fates, first) == Sound
    ensures running <= running1 <= running1 + {ids[i]} <= running + Ids(ids) && Ids(failed) <= Ids(ids)
    ensures Distinct(ids) ==> Distinct(failed)
  {
    OneMoreId(ids, i);
  }

  lemma LastApart(ids: seq<Container>, id: Container)
    requires Distinct(ids + [id])
    ensures Distinct(ids) && id !in Ids(ids)
  {
    var more := ids + [id];
    forall i, j | 0 <= i < j < |ids| ensures ids[i] != ids[j] { assert more[i] != more[j]; }
    forall i | 0 <= i < |ids| ensures ids[i] != id { assert more[i] != more[|ids|]; }
  }

  lemma NoFailedStarts(tried: seq<Container>, fates: nat -> Fate, a: nat, b: nat)
    requires b <= |tried| && NoneFails(fates, a, b)
    ensures FailedStarts(tried, fates, a, b) == {}
  {
    forall k | a <= k < b ensures !fates(k).Fails? { assert !FailsAt(fates, k); }
  }

  lemma SplitSome(fates: nat -> Fate, a: nat, b: nat, c: nat)
    requires a <= b <= c
    ensures SomeDies(fates, a, c) <==> SomeDies(fates, a, b) || SomeDies(fates, b, c)
    ensures SomeFails(fates, a, c) <==> SomeFails(fates, a, b) || SomeFails(fates, b, c)
  {
    if k :| a <= k < c && DiesAt(fates, k) { assert k < b ==> SomeDies(fates, a, b); }
    if k :| a <= k < c && FailsAt(fates, k) { assert k < b ==> SomeFails(fates, a, b); }
  }

  lemma OneMoreStart(tried: seq<Container>, fates: nat -> Fate, a: nat, b: nat, id: Container)
    requires a <= b == |tried|
    ensures FailedStarts(tried + [id], fates, a, b + 1) ==
      FailedStarts(tried, fates, a, b) + if fates(b).Fails? then {id} else {}
  {
    var more := tried + [id];
    forall c ensures c in FailedStarts(more, fates, a, b + 1) <==>
      c in FailedStarts(tried, fates, a, b) || (fates(b).Fails? && c == id)
    {
      if k :| a <= k < b + 1 && fates(k).Fails? && more[k] == c { assert k < b ==> tried[k] == c; }
      if k :| a <= k < b && fates(k).Fails? && tried[k] == c { assert more[k] == c; }
      assert more[b] == id;
    }
  }

  lemma OneMoreId(ids: seq<Container>, i: nat)
    requires i < |ids|
    ensures ids[..i + 1] == ids[..i] + [ids[i]] && Ids(ids[..i + 1]) == Ids(ids[..i]) + {ids[i]} <= Ids(ids)
    ensures Distinct(ids) ==> ids[i] !in Ids(ids[..i]) && Distinct(ids[..i])
  {
    assert ids[..i + 1] == ids[..i] + [ids[i]];
  }

  lemma NoneListed(ids: seq<Container>)
    ensures ids == [] <==> Ids(ids) == {}
  {
    if ids != [] { assert ids[0] in Ids(ids); }
  }

  lemma OneMoreFailed(failed: seq<Container>, id: Container)
    ensures Ids(failed + [id]) == Ids(failed) + {id} && (Distinct(failed) && id !in Ids(failed) ==> Distinct(failed + [id]))
  {
    assert forall c :: c in failed ==> c in Ids(failed);
  }

  /** When every start fails, these are all that were tried. */
  lemma EveryStart(tried: seq<Container>, fates: nat -> Fate, a: nat, b: nat)
    requires a <= b <= |tried| && forall k :: fates(k).Fails?
    ensures FailedStarts(tried, fates, a, b) == Ids(tried[a..b])
  {
    forall c | c in tried[a..b] ensures c in FailedStarts(tried, fates, a, b) {
      var i :| 0 <= i < b - a && tried[a..b][i] == c;
      assert fates(a + i).Fails? && tried[a + i] == c;
    }
    forall c | c in FailedStarts(tried, fates, a, b) ensures c in tried[a..b] {
      var k :| a <= k < b && fates(k).Fails? && tried[k] == c;
      assert tried[a..b][k - a] == c;
    }
  }

  lemma SameStarts(before: seq<Container>, tried: seq<Container>, fates: nat -> Fate, a: nat, b: nat)
    requires a <= b <= |before| && before <= tried
    ensures FailedStarts(tried, fates, a, b) == FailedStarts(before, fates, a, b)
  {
    forall k | a <= k < b ensures tried[k] == before[k] { }
    forall x ensures x in FailedStarts(tried, fates, a, b) <==> x in FailedStarts(before, fates, a, b) {
      if k :| a <= k < b && fates(k).Fails? && tried[k] == x { assert before[k] == x; }
      if k :| a <= k < b && fates(k).Fails? && before[k] == x { assert tried[k] == x; }
    }
  }

  lemma MoreStarts(before: seq<Container>, tried: seq<Container>, fates: nat -> Fate, a: nat, b: nat, c: nat)
    requires a <= b == |before| && b <= c == |tried| && before <= tried
    ensures FailedStarts(tried, fates, a, c) == FailedStarts(before, fates, a, b) + FailedStarts(tried, fates, b, c)
  {
    forall x ensures x in FailedStarts(tried, fates, a, c) <==>
      x in FailedStarts(before, fates, a, b) || x in FailedStarts(tried, fates, b, c)
    {
      if k :| a <= k < c && fates(k).Fails? && tried[k] == x { assert k < b ==> before[k] == x; }
      if k :| a <= k < b && fates(k).Fails? && before[k] == x { assert tried[k] == x; }
    }
  }

  /** What happens over the daemon's lives: restores of the copy, recovery at each start, and other users of Docker. */
  datatype Event =
    | RestoreCopy(users: set<Container>, helperRunning: bool, archive: Swap.Dir)
    | Boot(helperRunning: bool)
    | Others(started: set<Container>, stopped: set<Container>)

  /**
   * Over any sequence of restores and daemon starts, with any failures and deaths: what is
   * stopped and not listed on disk had a start fail. So when no start ever fails, every stopped
   * container is listed at every moment.
   */
  method Lifetime(host: Host, copy: Swap.Copy, events: seq<Event>)
    requires host.Valid() && host.Forgotten() == {} && copy.Valid()
    requires forall e :: e in events && e.RestoreCopy? ==> Swap.ArchiveNames(e.archive)
    modifies host, copy
    ensures host.Valid() && host.starts >= old(host.starts)
    ensures host.Forgotten() <= FailedStarts(host.tried, host.startFates, old(host.starts), host.starts)
    ensures NoneFails(host.startFates, old(host.starts), host.starts) ==> host.Owed() <= host.Listed()
  {
    ghost var first := host.starts;
    for i := 0 to |events|
      invariant host.Valid() && copy.Valid() && host.starts >= first
      invariant host.Forgotten() <= FailedStarts(host.tried, host.startFates, first, host.starts)
    {
      ghost var log, n := host.tried, host.starts;
      match events[i] {
        case Boot(helperRunning) =>
          if host.intent.Some? {
            var v, failed := host.Recover(helperRunning);
          }
        case RestoreCopy(users, helperRunning, archive) =>
          assert events[i] in events;
          var outcome, exit := host.Restore(users, helperRunning, copy, archive);
        case Others(started, stopped) => host.OthersChange(started, stopped);
      }
      MoreStarts(log, host.tried, host.startFates, first, n, host.starts);
    }
    if NoneFails(host.startFates, first, host.starts) {
      NoFailedStarts(host.tried, host.startFates, first, host.starts);
      assert host.Owed() <= host.Listed() + host.Forgotten();
    }
  }

  // ------------------------------------------------------------- the two ways to forget

  /** A host on which no start works, and neither dies nor file operations fail. */
  ghost predicate Hopeless(host: Host) {
    forall k :: host.startFates(k).Fails? && !host.stopFates(k).Dies? && host.fileFates(k).Works?
  }

  lemma HopelessAccount(host: Host, a: nat, a': nat, b: nat, b': nat, c: nat, c': nat)
    requires Hopeless(host)
    ensures !host.Since(a, a', b, b', c, c').died && NoneFails(host.fileFates, c, c')
  {
    forall k ensures !DiesAt(host.startFates, k) && !DiesAt(host.stopFates, k) && !DiesAt(host.fileFates, k) && !FailsAt(host.fileFates, k) {
      assert host.startFates(k).Fails? && !host.stopFates(k).Dies? && host.fileFates(k).Works?;
    }
  }

  lemma AllDown(up: set<Container>, running: set<Container>, listed: set<Container>, users: set<Container>, refused: bool,
                tried: seq<Container>, fates: nat -> Fate, a: nat, mid: nat, running': set<Container>, intent': Option<seq<Container>>)
    requires RestoredOf(up, running, listed, users, refused, tried, fates, a, mid, running', intent') == Sound
    requires running <= up && forall k :: fates(k).Fails?
    ensures mid <= |tried| && up - running' == (up - running) + Ids(tried[mid..])
    ensures !refused ==> Ids(tried[mid..]) == running * users
    ensures Listing(intent') == if refused then {} else running * users
  {
    EveryStart(tried, fates, a, mid);
    EveryStart(tried, fates, mid, |tried|);
    assert tried[mid..] == tried[mid..|tried|];
    assert running + (listed - Ids(tried[a..mid])) == running;
  }

  /** A restore on such a host. */
  method HopelessRestore(host: Host, users: set<Container>) returns (outcome: Outcome)
    requires host.Valid() && Hopeless(host)
    modifies host
    ensures host.Valid() && old(host.starts) + old(host.Leftover()) <= host.starts && host.up == old(host.up)
    ensures host.Owed() == old(host.Owed()) + Ids(host.tried[old(host.starts) + old(host.Leftover())..])
    ensures outcome.Refused? ==> host.stops - old(host.stops) == host.starts - old(host.starts) - old(host.Leftover()) + 1
    ensures outcome.Refused? <==> SomeFails(host.stopFates, old(host.stops), host.stops)
    ensures !outcome.Refused? ==> Ids(host.tried[old(host.starts) + old(host.Leftover())..]) == old(host.running) * users
    ensures !outcome.Refused? ==> host.stops - old(host.stops) == host.starts - old(host.starts) - old(host.Leftover())
    ensures host.Listed() == if outcome.Refused? then {} else old(host.running) * users
  {
    var copy := new Swap.Copy(map[], k => Swap.Works, k => Swap.Works);
    var exit;
    ghost var first, mid := host.starts, host.starts + host.Leftover();
    ghost var b, c := host.stops, host.files;
    ghost var running, listed := host.running, host.Listed();
    outcome, exit := host.Restore(users, false, copy, map[]);
    HopelessAccount(host, first, host.starts, b, host.stops, c, host.files);
    AllDown(host.up, running, listed, users, outcome.Refused?, host.tried, host.startFates, first, mid, host.running, host.intent);
  }

  /** A leftover that does not start is forgotten when the next restore writes its own intent. */
  method LeftoverForgotten() returns (host: Host)
    ensures fresh(host) && host.up == {1} && host.running == {} && host.Forgotten() == {1}
  {
    host := new Host({1}, k => Fails, k => Works, k => Works);
    var outcome := HopelessRestore(host, {1});
    assert host.Listed() == {1} == host.Owed();
    outcome := HopelessRestore(host, {});
  }

  /** After a refused stop the intent is dropped, with it a container that did not come back. */
  method StuckForgotten() returns (host: Host)
    ensures fresh(host) && host.up == {1, 2} && host.Forgotten() != {}
  {
    host := new Host({1, 2}, k => Fails, k => if k == 0 then Works else Fails, k => Works);
    var outcome := HopelessRestore(host, {1, 2});
    assert FailsAt(host.stopFates, 1) && !FailsAt(host.stopFates, 0);
    assert |host.tried| > 0 ==> host.tried[0] in Ids(host.tried[0..]);
  }
}
