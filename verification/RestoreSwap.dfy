/**
 * The storage restore helper: extract an archive into a stage directory, move the
 * current entries aside, move the staged ones up, leave a completion marker, clean up.
 *
 * Every command of the script may work, fail, or be the last thing that happens before
 * the helper dies. A method that meets a death returns at once, so its postcondition
 * speaks about every moment at which the helper can be killed.
 */
module RestoreSwap {
  import opened Prelude

  /** One directory entry: a file, or a whole tree. `mv` and `rm -rf` act on entries. */
  datatype Node = File(bytes: string) | Tree(children: map<string, Node>)
  type Dir = map<string, Node>

  const STAGE := ".tp-restore-stage"
  const OLD := ".tp-restore-old"
  const DONE := ".tp-restore-done"
  const DONE_TMP := ".tp-restore-done.tmp"

  /** The script's test for its own names, which it never treats as contents of the copy. */
  predicate Ours(name: string) {
    name == STAGE || name == OLD || name == DONE || name == DONE_TMP
  }

  /** Names no entry of a copy has. */
  predicate Reserved(name: string) {
    name in {".tp-restore-stage", ".tp-restore-old", ".tp-restore-done", ".tp-restore-done.tmp"}
  }

  /** A name a directory can hold: not empty, and neither `.` nor `..`. */
  predicate EntryName(name: string) {
    name != "" && name != "." && name != ".."
  }

  // ---------------------------------------------------------------- the three globs

  datatype Glob = Star | DotOther | DotDotMore

  predicate Matches(glob: Glob, name: string) {
    match glob
    case Star => |name| >= 1 && name[0] != '.'
    case DotOther => |name| >= 2 && name[0] == '.' && name[1] != '.'
    case DotDotMore => |name| >= 3 && name[0] == '.' && name[1] == '.'
  }

  /** The word the shell leaves in place when nothing matches. */
  function Pattern(glob: Glob): string {
    match glob
    case Star => "*"
    case DotOther => ".[!.]*"
    case DotDotMore => "..?*"
  }

  /** The three globs split the entry names: each is matched by exactly one of them. */
  lemma GlobsPartitionNames(name: string)
    ensures EntryName(name) <==> exists g :: Matches(g, name)
    ensures forall g, h :: Matches(g, name) && Matches(h, name) ==> g == h
  {
    assert |name| == 1 ==> name == [name[0]];
    assert |name| == 2 ==> name == [name[0], name[1]];
    if EntryName(name) {
      if name[0] != '.' {
        assert Matches(Star, name);
      } else {
        assert Matches(if name[1] != '.' then DotOther else DotDotMore, name);
      }
    }
  }

  ghost predicate NoDuplicates(words: seq<string>) {
    forall i, j :: 0 <= i < j < |words| ==> words[i] != words[j]
  }

  lemma TwoLists(a: seq<string>, b: seq<string>)
    requires NoDuplicates(a) && NoDuplicates(b) && forall w :: w in a ==> w !in b
    ensures NoDuplicates(a + b)
  {
    forall i, j | 0 <= i < j < |a + b| ensures (a + b)[i] != (a + b)[j] {
      if i < |a| <= j { assert a[i] in a && b[j - |a|] in b; }
    }
  }

  /** One glob against a directory: the matching names in some order, or the pattern itself. */
  method ExpandGlob(glob: Glob, names: set<string>) returns (words: seq<string>)
    ensures NoDuplicates(words)
    ensures forall w :: w in words ==> Matches(glob, w)
    ensures forall n :: n in names && Matches(glob, n) ==> n in words
    ensures forall w :: w in words ==> w in names || w == Pattern(glob)
    ensures (forall n :: n in names ==> !Matches(glob, n)) ==> words == [Pattern(glob)]
  {
    words := [];
    var rest := set n | n in names && Matches(glob, n);
    while rest != {}
      invariant NoDuplicates(words)
      invariant forall w :: w in words ==> w in names && Matches(glob, w) && w !in rest
      invariant forall n :: n in names && Matches(glob, n) ==> n in words || n in rest
      invariant rest <= names && forall n :: n in rest ==> Matches(glob, n)
      decreases rest
    {
      var n :| n in rest;
      words, rest := words + [n], rest - {n};
    }
    assert words != [] ==> words[0] in words;
    if words == [] {
      words := [Pattern(glob)];
    }
  }

  /**
   * The word list of the three-glob `for` loops: every entry once, and
   * nothing twice. A pattern left over names no entry, so `present` skips it.
   */
  method ExpandAll(names: set<string>) returns (words: seq<string>)
    requires forall n :: n in names ==> EntryName(n)
    ensures NoDuplicates(words)
    ensures forall n :: n in names ==> n in words
    ensures forall w :: w in words ==> w in names || (exists g :: w == Pattern(g))
  {
    var a := ExpandGlob(Star, names);
    var b := ExpandGlob(DotOther, names);
    var c := ExpandGlob(DotDotMore, names);
    words := a + b + c;
    forall n | n in names ensures n in words {
      GlobsPartitionNames(n);
    }
    forall w | w in a ensures w !in b && w !in c { GlobsPartitionNames(w); }
    forall w | w in b ensures w !in c { GlobsPartitionNames(w); }
    TwoLists(a, b);
    TwoLists(a + b, c);
  }

  // ---------------------------------------------------------------- command fates

  /**
   * What a command that did not finish leaves behind: whether a move or a creation took
   * effect, the entries a removal or an extraction left, and which of the stage, the aside
   * directory, the marker and the temporary marker a removal left.
   */
  datatype Leftover = Leftover(acted: bool, entries: Dir, stage: bool, aside: bool, marker: bool, tmp: bool)

  /** The fate of one command. `Dies`: the helper is killed during it. */
  datatype Fate = Works | Fails(left: Leftover) | Dies(left: Leftover)

  datatype Verdict = Ok | Bad | Dead

  function VerdictOf(fate: Fate): Verdict {
    match fate
    case Works => Ok
    case Fails(_) => Bad
    case Dies(_) => Dead
  }

  predicate LeavesMarker(fate: Fate) {
    fate.Fails? && fate.left.marker
  }

  predicate LeavesAside(fate: Fate) {
    fate.Fails? && fate.left.aside
  }

  /** A rename that took effect. */
  predicate Renames(fate: Fate) {
    fate.Works? || (fate.Dies? && fate.left.acted)
  }

  /** A partial `rm -rf` of a directory: some entries remain, possibly damaged. */
  function Remains(dir: Dir, left: Leftover): (r: Dir)
    ensures r.Keys <= dir.Keys
  {
    map n | n in dir && n in left.entries :: left.entries[n]
  }

  datatype Exit = Code(n: int) | Crashed

  /** The exit codes of a run that reached its last two commands. */
  predicate Swapped(exit: Exit) {
    exit == Code(0) || exit == Code(1)
  }

  /** The exits of a swap that was undone, could not be undone, or was cut short. */
  predicate Undone(exit: Exit) {
    exit == Code(4) || exit == Code(5) || exit == Crashed
  }

  /** The exit code of an undo. */
  function UndoExit(v: Verdict): Exit {
    match v
    case Ok => Code(4)
    case Bad => Code(5)
    case Dead => Crashed
  }

  /** What an archive puts into the copy: its entries, less the script's temporary marker. */
  function Visible(archive: Dir): Dir {
    map n | n in archive && n != DONE_TMP :: archive[n]
  }

  /** A backup leaves the stage, the aside directory and the marker out of an archive. */
  predicate ArchiveNames(archive: Dir) {
    Strangers(Visible(archive)) == {}
  }

  predicate CopyNames(dir: Dir) {
    Strangers(dir) == {}
  }

  /** Names in a directory that no entry of the copy can have. */
  function Strangers(dir: Dir): set<string> {
    set n | n in dir && (!EntryName(n) || Reserved(n))
  }

  lemma FewerNames(small: Dir, dir: Dir)
    requires small.Keys <= dir.Keys && CopyNames(dir)
    ensures CopyNames(small)
  {
    assert forall n :: n in Strangers(small) ==> n in Strangers(dir);
  }

  lemma OneMoreName(dir: Dir, n: string, node: Node, from: Dir)
    requires CopyNames(dir) && CopyNames(from) && n in from
    ensures CopyNames(dir[n := node])
  {
    assert forall m :: m in Strangers(dir[n := node]) ==> m in Strangers(dir) || m in Strangers(from);
  }

  lemma AllEntries(dir: Dir)
    requires CopyNames(dir)
    ensures forall n :: n in dir ==> EntryName(n) && !Ours(n)
  {
    assert forall n :: n in dir && (!EntryName(n) || Reserved(n)) ==> n in Strangers(dir);
  }

  lemma ArchiveEntries(archive: Dir)
    requires ArchiveNames(archive)
    ensures forall n :: n in archive ==> EntryName(n)
  {
    AllEntries(Visible(archive));
    assert forall n :: n in archive && n != DONE_TMP ==> n in Visible(archive);
  }

  /** The directory that two directories make up, unless they overlap. */
  function Joined(a: Dir, b: Dir): Option<Dir> {
    if a.Keys !! b.Keys then Some(a + b) else None
  }

  /** Two directories together are exactly `pre`, without overlap. */
  predicate SplitOf(a: Dir, b: Dir, pre: Dir) {
    Joined(a, b) == Some(pre)
  }

  /** Moving one entry across keeps a split. */
  lemma SplitMove(a: Dir, b: Dir, pre: Dir, n: string)
    requires SplitOf(a, b, pre) && n in a
    ensures SplitOf(a - {n}, b[n := a[n]], pre)
  {
    assert (a - {n}).Keys !! b[n := a[n]].Keys;
    assert (a - {n}) + b[n := a[n]] == a + b;
  }

  lemma SplitOrder(a: Dir, b: Dir)
    ensures Joined(a, b) == Joined(b, a)
  {
    if a.Keys !! b.Keys {
      assert a + b == b + a;
    }
  }

  lemma AllInOne(a: Dir)
    ensures Joined(map[], a) == Joined(a, map[]) == Some(a)
  {
    assert map[] + a == a == a + map[];
  }

  /** Entries of `pre` that are no longer intact in either directory. */
  function Lost(a: Dir, b: Dir, pre: Dir): set<string> {
    set n | n in pre && !(n in a && a[n] == pre[n]) && !(n in b && b[n] == pre[n])
  }

  lemma NothingLost(a: Dir, b: Dir, pre: Dir)
    ensures SplitOf(a, b, pre) ==> Lost(a, b, pre) == {}
    ensures Lost(a, pre, pre) == {} == Lost(pre, b, pre)
  {
  }

  /** How many commands settle what an earlier run left. */
  function Settling(aside: Option<Dir>): nat {
    if aside.Some? then 2 else 1
  }

  /** Every entry of `pre` is intact, in the copy or aside. */
  ghost function KeptOf(live: Dir, aside: Option<Dir>, pre: Dir): Health {
    if Lost(live, if aside.Some? then aside.value else map[], pre) == {} then Sound else Broken
  }

  class Copy {
    var live: Dir
    var stage: Option<Dir>
    var aside: Option<Dir>
    var done: bool
    var doneTmp: bool
    /**
     * The fate of the k-th command ever run on this copy, and the commands run so far. The
     * moves and removals of single entries inside the loops are counted apart.
     */
    const fates: nat -> Fate
    const moves: nat -> Fate
    var tick: nat
    var moved: nat
    /** The last run put its marker in place. Only a run's start and `Mark` change it. */
    ghost var marked: bool
    /** The whole contents the copy stands for. Only a marker and a write change it. */
    ghost var stands: Dir

    constructor (contents: Dir, fates: nat -> Fate, moves: nat -> Fate)
      requires CopyNames(contents)
      ensures Valid() && live == contents && !Interrupted() && this.fates == fates && this.moves == moves
      ensures tick == 0 && moved == 0
      ensures aside == None && stage == None && !done && !doneTmp && stands == contents
    {
      live, stage, aside, done, doneTmp := contents, None, None, false, false;
      this.fates, this.moves := fates, moves;
      tick, moved := 0, 0;
      marked, stands := false, contents;
    }

    ghost predicate Valid()
      reads `live, `aside
    {
      && CopyNames(live)
      && (aside.Some? ==> CopyNames(aside.value))
    }

    /** An earlier run moved entries aside and never marked itself complete. */
    predicate Interrupted()
      reads `aside, `done
    {
      aside.Some? && !done
    }

    /** The copy and the aside directory together are exactly `pre`, without overlap. */
    ghost predicate Split(pre: Dir)
      reads `live, `aside
    {
      aside.Some? && SplitOf(live, aside.value, pre)
    }

    /** What is still staged and what has moved up make the archive. */
    ghost predicate Staged(archive: Dir)
      reads `live, `stage
    {
      stage.Some? && stage.value.Keys <= archive.Keys && SplitOf(live, Visible(stage.value), Visible(archive))
    }

    /**
     * The copy holds exactly what it stands for, or a run stopped half way and every entry of
     * that is intact, in the copy or aside.
     */
    ghost predicate Safe()
      reads this
    {
      if Interrupted() then KeptOf(live, aside, stands) == Sound else live == stands
    }

    /** Every move works. */
    ghost predicate MovesWork() {
      forall k {:trigger MoveWorks(k)} :: MoveWorks(k)
    }

    predicate MoveWorks(k: nat) {
      moves(k).Works?
    }

    predicate StepFails(k: nat) {
      fates(k).Fails?
    }

    predicate MoveFails(k: nat) {
      moves(k).Fails?
    }

    predicate StepDies(k: nat) {
      fates(k).Dies?
    }

    predicate MoveDies(k: nat) {
      moves(k).Dies?
    }

    /** A move from `m` up to `m'` or a command from `t` up to `t'` fails. */
    ghost predicate Fault(m: nat, m': nat, t: nat, t': nat) {
      (exists k :: m <= k < m' && MoveFails(k)) || (exists k :: t <= k < t' && StepFails(k))
    }

    /** The helper dies in one of them. */
    ghost predicate Killed(m: nat, m': nat, t: nat, t': nat) {
      (exists k :: m <= k < m' && MoveDies(k)) || (exists k :: t <= k < t' && StepDies(k))
    }

    /** One of them fails, and another one as well. */
    ghost predicate FaultTwice(m: nat, m': nat, t: nat, t': nat) {
      || (exists k :: m <= k < m' && MoveFails(k) && Fault(k + 1, m', t, t'))
      || (exists k :: t <= k < t' && StepFails(k) && Fault(m, m', k + 1, t'))
    }

    /**
     * What the end of a part of the swap says about its commands: it goes on only if none
     * fails, 4 and 5 need one that fails, 5 a second one, and the helper died if it says so.
     */
    ghost function ReportOf(exit: Option<Exit>, m: nat, m': nat, t: nat, t': nat): Health {
      if && (exit.None? ==> !Fault(m, m', t, t') && !Killed(m, m', t, t'))
         && (exit.Some? && exit.value.Code? ==> Fault(m, m', t, t'))
         && (exit == Some(Code(5)) ==> FaultTwice(m, m', t, t'))
         && (exit == Some(Crashed) ==> Killed(m, m', t, t'))
      then Sound else Broken
    }

    /** What the verdict of a part says about its commands. */
    ghost function VerdictsOf(v: Verdict, m: nat, m': nat, t: nat, t': nat): Health {
      if && (v == Ok ==> !Fault(m, m', t, t') && !Killed(m, m', t, t'))
         && (v == Bad ==> Fault(m, m', t, t'))
         && (v == Dead ==> Killed(m, m', t, t'))
      then Sound else Broken
    }

    /** What the exit code says about the commands of a run from the extraction on. */
    ghost function JudgedOf(exit: Exit, m: nat, m': nat, t: nat, t': nat): Health {
      if && (exit == Code(3) ==> m' == m && (t' <= t + 3 || StepFails(t + 2)))
         && (exit == Code(4) ==> Fault(m, m', t, t'))
         && (exit == Code(5) ==> FaultTwice(m, m', t, t'))
         && (exit == Crashed ==> Killed(m, m', t, t'))
         && (Swapped(exit) ==> t' == t + 7 && !Fault(m, m', t, t + 5))
      then Sound else Broken
    }

    /** The same of a whole run, whose first commands, `settling` of them, are not part of the swap. */
    ghost function RanOf(exit: Exit, m: nat, m': nat, t: nat, settling: nat, t': nat): Health {
      if if exit == Crashed then Killed(m, m', t, t')
         else if exit == Code(6) then m' == m && t' <= t + 1
         else JudgedOf(exit, m, m', t + settling, t') == Sound
      then Sound else Broken
    }

    /** A run that ends before its swap begins. */
    lemma RanNothing(m: nat, t: nat, settling: nat, t': nat)
      requires t <= t'
      ensures t' <= t + 1 ==> RanOf(Code(6), m, m, t, settling, t') == Sound
      ensures t < t' && fates(t' - 1).Dies? ==> RanOf(Crashed, m, m, t, settling, t') == Sound
    {
      assert t < t' ==> StepDies(t' - 1) == fates(t' - 1).Dies?;
    }

    lemma RanAfter(exit: Exit, m: nat, m': nat, t: nat, settling: nat, t': nat)
      requires exit != Code(6) && JudgedOf(exit, m, m', t + settling, t') == Sound
      ensures RanOf(exit, m, m', t, settling, t') == Sound
    {
      WiderFault(m, m, m', t, t + settling, t');
    }

    /**
     * One move or one marker command of a run fails, and nothing else from the extraction on;
     * `settling` commands of the run came before that.
     */
    ghost predicate OneFault(m: nat, m': nat, t: nat, settling: nat, t': nat) {
      && Fault(m, m', t + settling + 3, if t' < t + settling + 5 then t' else t + settling + 5)
      && !FaultTwice(m, m', t + settling, t') && !Killed(m, m', t, t')
    }

    lemma WiderFault(m: nat, m1: nat, m': nat, t: nat, t1: nat, t': nat)
      requires m <= m1 && t <= t1
      ensures Fault(m1, m', t1, t') ==> Fault(m, m', t, t')
      ensures FaultTwice(m1, m', t1, t') ==> FaultTwice(m, m', t, t')
      ensures Killed(m1, m', t1, t') ==> Killed(m, m', t, t')
    {
      if k :| m1 <= k < m' && MoveFails(k) && Fault(k + 1, m', t1, t') {
        assert Fault(k + 1, m', t, t');
      } else if k :| t1 <= k < t' && StepFails(k) && Fault(m1, m', k + 1, t') {
        assert Fault(m, m', k + 1, t');
      }
    }

    lemma NoCommand(m: nat, t: nat)
      ensures VerdictsOf(Ok, m, m, t, t) == Sound
    {
    }

    lemma OneCommand(m: nat, t: nat)
      ensures VerdictsOf(VerdictOf(fates(t)), m, m, t, t + 1) == Sound
    {
      assert StepFails(t) == fates(t).Fails? && StepDies(t) == fates(t).Dies?;
    }

    lemma DiesThere(m: nat, t: nat, k: nat, t': nat)
      requires t <= k < t'
      ensures fates(k).Dies? ==> VerdictsOf(Dead, m, m, t, t') == Sound
    {
      assert StepDies(k) == fates(k).Dies?;
    }

    lemma ThreeWork(m: nat, t: nat)
      ensures fates(t).Works? && fates(t + 1).Works? && fates(t + 2).Works? ==> VerdictsOf(Ok, m, m, t, t + 3) == Sound
    {
      OneCommand(m, t);
      OneCommand(m, t + 1);
      OneCommand(m, t + 2);
    }

    lemma OneMove(m: nat, t: nat)
      ensures VerdictsOf(VerdictOf(moves(m)), m, m + 1, t, t) == Sound
    {
      assert MoveFails(m) == moves(m).Fails? && MoveDies(m) == moves(m).Dies?;
    }

    /** One part after another that worked. */
    lemma VerdictsAfter(v: Verdict, m: nat, m1: nat, m': nat, t: nat, t1: nat, t': nat)
      requires m <= m1 <= m' && t <= t1 <= t' && VerdictsOf(Ok, m, m1, t, t1) == Sound && VerdictsOf(v, m1, m', t1, t') == Sound
      ensures VerdictsOf(v, m, m', t, t') == Sound
    {
      WiderFault(m, m1, m', t, t1, t');
    }

    /** A part of the swap after parts that went on. */
    lemma ReportAfter(exit: Option<Exit>, m: nat, m1: nat, m': nat, t: nat, t1: nat, t': nat)
      requires m <= m1 <= m' && t <= t1 <= t' && VerdictsOf(Ok, m, m1, t, t1) == Sound && ReportOf(exit, m1, m', t1, t') == Sound
      ensures ReportOf(exit, m, m', t, t') == Sound
    {
      WiderFault(m, m1, m', t, t1, t');
    }

    lemma Going(m: nat, m': nat, t: nat, t': nat)
      ensures ReportOf(None, m, m', t, t') == Sound <==> VerdictsOf(Ok, m, m', t, t') == Sound
      ensures ReportOf(Some(Crashed), m, m', t, t') == Sound <==> VerdictsOf(Dead, m, m', t, t') == Sound
    {
    }

    /** A part of the swap fails, and then the undo ends like this. */
    lemma UndoReport(v: Verdict, m: nat, m1: nat, m': nat, t: nat, t1: nat, t': nat)
      requires m <= m1 <= m' && t <= t1 <= t' && VerdictsOf(Bad, m, m1, t, t1) == Sound && VerdictsOf(v, m1, m', t1, t') == Sound
      ensures ReportOf(Some(UndoExit(v)), m, m', t, t') == Sound
    {
      WiderFault(m, m1, m', t, t1, t');
      TwoFaults(m, m1, m', t, t1, t');
    }

    lemma TwoFaults(m: nat, m1: nat, m': nat, t: nat, t1: nat, t': nat)
      requires m <= m1 <= m' && t <= t1 <= t' && Fault(m, m1, t, t1)
      ensures Fault(m, m', t, t') && (Fault(m1, m', t1, t') ==> FaultTwice(m, m', t, t'))
    {
      if k :| m <= k < m1 && MoveFails(k) {
        assert Fault(m1, m', t1, t') ==> Fault(k + 1, m', t, t');
      } else {
        var k :| t <= k < t1 && StepFails(k);
        assert Fault(m1, m', t1, t') ==> Fault(m, m', k + 1, t');
      }
    }

    lemma JudgedSwapped(exit: Exit, m: nat, m': nat, t: nat, t': nat)
      requires m <= m' && ReportOf(None, m, m', t, t + 5) == Sound
      requires if exit == Crashed then VerdictsOf(Dead, m', m', t + 5, t') == Sound else Swapped(exit) && t' == t + 7
      ensures JudgedOf(exit, m, m', t, t') == Sound
    {
      WiderFault(m, m', m', t, t + 5, t');
    }

    lemma JudgedUndone(exit: Exit, m: nat, m': nat, t: nat, t': nat)
      requires ReportOf(Some(exit), m, m', t, t') == Sound && Undone(exit)
      ensures JudgedOf(exit, m, m', t, t') == Sound
    {
    }

    lemma LaterFault(m: nat, t: nat, t2: nat, t': nat)
      requires t2 <= t'
      ensures StepFails(t + 2) && Fault(m, m, t + 3, t2) ==> FaultTwice(m, m, t, t')
    {
      if k :| t + 3 <= k < t2 && StepFails(k) {
        assert Fault(m, m, t + 3, t');
      }
    }

    /** A swap in which one command fails is undone. */
    lemma OneFaultUndone(exit: Exit, m: nat, m': nat, t: nat, settling: nat, t': nat)
      requires OneFault(m, m', t, settling, t') && RanOf(exit, m, m', t, settling, t') == Sound && settling > 0
      requires Swapped(exit) || exit == Code(3) || exit == Code(6) || Undone(exit)
      ensures exit == Code(4)
    {
      LaterFault(m, t + settling, if t' < t + settling + 5 then t' else t + settling + 5, t');
    }

    /** Among the commands from `a` up to `b`, a failing removal left a marker. */
    ghost predicate LeftMarker(a: nat, b: nat) {
      exists k :: a <= k < b && LeavesMarker(fates(k))
    }

    /** An extraction begins with command `t`, and all works up to the marker. */
    ghost predicate GoesWell(t: nat) {
      && fates(t).Works? && fates(t + 1).Works? && fates(t + 2).Works? && MovesWork()
      && fates(t + 3).Works? && fates(t + 4).Works?
    }

    /** An extraction begins with command `t`, all goes well, and the helper is killed when it begins to set the marker. */
    ghost predicate KilledMarking(t: nat) {
      fates(t).Works? && fates(t + 1).Works? && fates(t + 2).Works? && MovesWork() && fates(t + 3).Dies?
    }

    /** The last two removals of a run left exactly what they say, and the last gave the exit code. */
    ghost function CleanedOf(exit: Exit, t: nat, stage: Option<Dir>, aside: Option<Dir>, done: bool): Health {
      if && t >= 2
         && (aside.Some? <==> LeavesAside(fates(t - 2))) && (fates(t - 2).Works? ==> stage.None?)
         && (done <==> LeavesMarker(fates(t - 1)))
         && (exit == Code(0) <==> fates(t - 1).Works?)
      then Sound else Broken
    }

    lemma WholeIsKept()
      ensures KeptOf(live, aside, live) == Sound
    {
    }

    function DstNames(): set<string>
      reads this
    {
      live.Keys + (if stage.Some? then {STAGE} else {}) + (if aside.Some? then {OLD} else {}) +
      (if done then {DONE} else {}) + (if doneTmp then {DONE_TMP} else {})
    }

    /** Something has this name in the directory of the copy. */
    predicate Present(name: string)
      reads this
    {
      || name in live || (stage.Some? && name == STAGE) || (aside.Some? && name == OLD)
      || (done && name == DONE) || (doneTmp && name == DONE_TMP)
    }

    /** What is there under a name that is not the script's own is an entry of the copy. */
    lemma TheRest(name: string)
      requires Valid()
      ensures Present(name) && !Ours(name) <==> name in live
    {
      AllEntries(live);
    }

    /** The words of the loops over the copy itself: among them every entry of the copy. */
    method DstWords() returns (words: seq<string>)
      requires Valid()
      ensures forall n :: n in live ==> n in words
    {
      AllEntries(live);
      words := ExpandAll(DstNames());
    }

    // -------------------------------------------------------------- single commands

    method Fetch() returns (fate: Fate)
      modifies `tick
      ensures fate == fates(old(tick)) && tick == old(tick) + 1
    {
      fate := fates(tick);
      tick := tick + 1;
    }

    method FetchMove() returns (fate: Fate)
      modifies `moved
      ensures fate == moves(old(moved)) && moved == old(moved) + 1
    {
      fate := moves(moved);
      moved := moved + 1;
    }

    /** `mv "$e" "$old"/` */
    method MoveAsideOne(n: string, ghost pre: Dir) returns (v: Verdict)
      requires Valid() && n in live && Split(pre)
      modifies `live, `aside, `moved
      ensures Valid() && Split(pre)
      ensures v == VerdictOf(moves(old(moved))) && moved == old(moved) + 1
      ensures v == Ok ==> live == old(live) - {n}
      ensures v == Bad ==> live == old(live)
    {
      var fate := FetchMove();
      v := VerdictOf(fate);
      if fate.Works? || (fate.Dies? && fate.left.acted) {
        SplitMove(live, aside.value, pre, n);
        OneMoreName(aside.value, n, live[n], live);
        FewerNames(live - {n}, live);
        aside := Some(aside.value[n := live[n]]);
        live := live - {n};
      }
    }

    /** `mv "$e" /dst/` out of the aside directory */
    method MoveBackOne(n: string, ghost pre: Dir) returns (v: Verdict)
      requires Valid() && Split(pre) && n in aside.value
      modifies `live, `aside, `moved
      ensures Valid() && Split(pre)
      ensures v == VerdictOf(moves(old(moved))) && moved == old(moved) + 1
      ensures v == Ok ==> aside.value.Keys == old(aside).value.Keys - {n}
    {
      var fate := FetchMove();
      v := VerdictOf(fate);
      if fate.Works? || (fate.Dies? && fate.left.acted) {
        SplitOrder(live, aside.value);
        SplitMove(aside.value, live, pre, n);
        SplitOrder(aside.value - {n}, live[n := aside.value[n]]);
        OneMoreName(live, n, aside.value[n], aside.value);
        FewerNames(aside.value - {n}, aside.value);
        live := live[n := aside.value[n]];
        aside := Some(aside.value - {n});
      }
    }

    /** `mv "$e" /dst/` out of the stage. A staged temporary marker lands on the script's own. */
    method MoveUpOne(n: string, ghost archive: Dir) returns (v: Verdict)
      requires Valid() && Staged(archive) && n in stage.value && ArchiveNames(archive)
      modifies `live, `stage, `doneTmp, `moved
      ensures Valid() && Staged(archive)
      ensures v == VerdictOf(moves(old(moved))) && moved == old(moved) + 1
      ensures v == Ok ==> stage.value.Keys == old(stage).value.Keys - {n}
    {
      var fate := FetchMove();
      v := VerdictOf(fate);
      if fate.Works? || (fate.Dies? && fate.left.acted) {
        if n == DONE_TMP {
          doneTmp := true;
          assert Visible(stage.value - {n}) == Visible(stage.value);
        } else {
          assert n in Visible(stage.value) && n in Visible(archive) && n in archive;
          SplitOrder(live, Visible(stage.value));
          SplitMove(Visible(stage.value), live, Visible(archive), n);
          SplitOrder(Visible(stage.value) - {n}, live[n := stage.value[n]]);
          assert Visible(stage.value - {n}) == Visible(stage.value) - {n};
          OneMoreName(live, n, stage.value[n], Visible(archive));
          live := live[n := stage.value[n]];
        }
        stage := Some(stage.value - {n});
      }
    }

    /** `rm -rf "$e"` on an entry of the copy */
    method RemoveLiveOne(n: string) returns (v: Verdict)
      requires Valid() && n in live
      modifies `live, `moved
      ensures Valid() && v == VerdictOf(moves(old(moved))) && moved == old(moved) + 1
      ensures v == Ok ==> live == old(live) - {n}
      ensures live.Keys <= old(live).Keys
    {
      var fate := FetchMove();
      v := VerdictOf(fate);
      FewerNames(live - {n}, live);
      if fate.Works? || n !in fate.left.entries {
        live := live - {n};
      } else {
        OneMoreName(live, n, fate.left.entries[n], live);
        live := live[n := fate.left.entries[n]];
      }
    }

    /** `rm -rf "$stage" "$old"` */
    method RemoveDirs() returns (v: Verdict)
      requires Valid()
      modifies `stage, `aside, `tick
      ensures Valid() && v == VerdictOf(fates(old(tick))) && tick == old(tick) + 1
      ensures v == Ok ==> stage == None && aside == None
      ensures old(aside).Some? ==> (aside.Some? <==> !fates(old(tick)).Works? && fates(old(tick)).left.aside)
      ensures aside.Some? ==> old(aside).Some? && aside.value.Keys <= old(aside).value.Keys
    {
      var fate := Fetch();
      v := VerdictOf(fate);
      if fate.Works? {
        stage, aside := None, None;
      } else {
        stage := if stage.Some? && fate.left.stage then Some(Remains(stage.value, fate.left)) else None;
        if aside.Some? { FewerNames(Remains(aside.value, fate.left), aside.value); }
        aside := if aside.Some? && fate.left.aside then Some(Remains(aside.value, fate.left)) else None;
      }
    }

    // -------------------------------------------------------------- undo

    /** The loop that puts every entry aside back, up to the first move that fails. */
    method MoveAllBack(ghost pre: Dir) returns (v: Verdict)
      requires Valid() && Split(pre)
      modifies `live, `aside, `moved
      ensures Valid() && Split(pre) && moved >= old(moved)
      ensures VerdictsOf(v, old(moved), moved, tick, tick) == Sound
      ensures v == Ok ==> aside == Some(map[])
    {
      v := Ok;
      AllEntries(aside.value);
      var words := ExpandAll(aside.value.Keys);
      NoCommand(moved, tick);
      for i := 0 to |words|
        invariant Valid() && Split(pre) && v == Ok && moved >= old(moved)
        invariant VerdictsOf(Ok, old(moved), moved, tick, tick) == Sound
        invariant forall n :: n in aside.value ==> n in words[i..]
      {
        var e := words[i];
        if e !in aside.value { continue; }
        v := MoveBackOne(e, pre);
        OneMove(moved - 1, tick);
        VerdictsAfter(v, old(moved), moved - 1, moved, tick, tick, tick);
        if v != Ok { return; }
      }
    }

    /** Put everything back from the aside directory; drop the stage and the aside directory. */
    method UndoAside(ghost pre: Dir) returns (v: Verdict)
      requires Valid() && Split(pre)
      modifies `live, `aside, `stage, `tick, `moved
      ensures Valid() && tick >= old(tick) && moved >= old(moved)
      ensures v == Ok ==> aside == None && stage == None
      ensures VerdictsOf(v, old(moved), moved, old(tick), tick) == Sound
      ensures aside.None? ==> live == pre
      ensures aside.Some? ==> Split(pre)
    {
      v := MoveAllBack(pre);
      if v != Ok { return; }
      AllInOne(live);
      v := RemoveDirs();
      OneCommand(moved, tick - 1);
      VerdictsAfter(v, old(moved), moved, moved, old(tick), tick - 1, tick);
    }

    /** Delete whatever moved up, then put everything back. */
    method UndoSwap(ghost pre: Dir) returns (v: Verdict)
      requires Valid() && aside == Some(pre)
      modifies `live, `aside, `stage, `tick, `moved
      ensures Valid() && tick >= old(tick) && moved >= old(moved)
      ensures v == Ok ==> aside == None && stage == None
      ensures VerdictsOf(v, old(moved), moved, old(tick), tick) == Sound
      ensures aside.None? ==> live == pre
      ensures aside.Some? ==> KeptOf(live, aside, pre) == Sound
    {
      var words := DstWords();
      NoCommand(moved, tick);
      for i := 0 to |words|
        invariant Valid() && aside == Some(pre) && tick == old(tick) && moved >= old(moved)
        invariant VerdictsOf(Ok, old(moved), moved, tick, tick) == Sound
        invariant forall n :: n in live ==> n in words[i..]
      {
        var e := words[i];
        TheRest(e);
        if !Present(e) || Ours(e) { continue; }
        v := RemoveLiveOne(e);
        OneMove(moved - 1, tick);
        VerdictsAfter(v, old(moved), moved - 1, moved, tick, tick, tick);
        if v != Ok { return; }
      }
      assert live == map[];
      AllInOne(pre);
      ghost var m := moved;
      v := UndoAside(pre);
      VerdictsAfter(v, old(moved), m, moved, old(tick), old(tick), tick);
    }

    // -------------------------------------------------------------- forward

    /** `rm -rf "$old"` under a marker */
    method DropAside() returns (v: Verdict)
      requires Valid() && aside.Some?
      modifies `aside, `tick
      ensures Valid() && v == VerdictOf(fates(old(tick))) && tick == old(tick) + 1
      ensures v == Ok ==> aside == None
    {
      var fate := Fetch();
      v := VerdictOf(fate);
      if !fate.Works? { FewerNames(Remains(aside.value, fate.left), aside.value); }
      aside := if fate.Works? || !fate.left.aside then None else Some(Remains(aside.value, fate.left));
    }

    /** `rm -rf "$stage" "$done" "$done.tmp"` */
    method DropMarker() returns (v: Verdict)
      modifies `stage, `done, `doneTmp, `tick
      ensures v == VerdictOf(fates(old(tick))) && tick == old(tick) + 1
      ensures v == Ok ==> stage == None && !done
      ensures v == Bad ==> (done <==> old(done) && LeavesMarker(fates(old(tick))))
      ensures (done ==> old(done)) && (stage.Some? ==> old(stage).Some?)
    {
      var fate := Fetch();
      v := VerdictOf(fate);
      if fate.Works? {
        stage, done, doneTmp := None, false, false;
      } else {
        stage := if stage.Some? && fate.left.stage then Some(Remains(stage.value, fate.left)) else None;
        done, doneTmp := done && fate.left.marker, doneTmp && fate.left.tmp;
      }
    }

    /**
     * Settle what an earlier run left. Returns the exit code when the run ends here.
     * `stale`: the final removal left an earlier run's marker behind (its status is ignored).
     */
    method ClearLeftovers() returns (exit: Option<Exit>, stale: bool)
      requires Valid()
      modifies `stage, `aside, `done, `doneTmp, `tick
      ensures Valid() && tick >= old(tick) && stale == (exit.None? && done) && (done ==> old(done))
      ensures old(Interrupted()) ==> exit == Some(Code(6)) && aside == old(aside) && !done && stage == old(stage) && tick == old(tick)
      ensures Interrupted() ==> old(Interrupted())
      ensures exit.Some? ==> exit.value == Code(6) || exit.value == Crashed
      ensures exit.None? ==> aside == None && tick == old(tick) + Settling(old(aside))
      ensures exit.Some? ==> RanOf(exit.value, moved, moved, old(tick), Settling(old(aside)), tick) == Sound
      ensures stale ==> LeftMarker(old(tick), tick)
      ensures old(aside).None? && fates(old(tick)).Works? ==>
        exit.None? && stage == None && !done && tick == old(tick) + 1
      ensures old(aside).None? && old(stage).None? && old(done) && LeavesMarker(fates(old(tick))) ==>
        exit.None? && stale && stage == None
      ensures old(aside).Some? && old(done) && fates(old(tick)).Works? && fates(old(tick) + 1).Works? ==> exit.None?
    {
      exit, stale := None, false;
      if aside.Some? {
        RanNothing(moved, old(tick), Settling(old(aside)), tick);
        if !done { exit := Some(Code(6)); return; }
        var v := DropAside();
        RanNothing(moved, old(tick), Settling(old(aside)), tick);
        if v != Ok {
          exit := Some(if v == Dead then Crashed else Code(6));
          return;
        }
      }
      var v := DropMarker();
      RanNothing(moved, old(tick), Settling(old(aside)), tick);
      if v == Dead { exit := Some(Crashed); return; }
      stale := done;
      assert stale ==> LeavesMarker(fates(tick - 1));
    }

    /** Drop the stage and give up. */
    method Unstage() returns (exit: Option<Exit>)
      requires Valid()
      modifies `stage, `tick
      ensures tick == old(tick) + 1 && exit == Some(if fates(old(tick)).Dies? then Crashed else Code(3))
      ensures fates(old(tick)).Works? || old(stage).None? ==> stage == None
    {
      var fate := Fetch();
      stage := if stage.None? || fate.Works? || !fate.left.stage then None else Some(Remains(stage.value, fate.left));
      exit := Some(if fate.Dies? then Crashed else Code(3));
    }

    /** `mkdir "$stage"`, extract the archive into it, `mkdir "$old"`. */
    method Stage(archive: Dir) returns (exit: Option<Exit>)
      requires Valid() && aside == None
      modifies `stage, `aside, `tick
      ensures Valid() && tick > old(tick)
      ensures exit.None? ==> stage == Some(archive) && aside == Some(map[]) && tick == old(tick) + 3
      ensures exit.None? <==> old(stage) == None && fates(old(tick)).Works? && fates(old(tick) + 1).Works? && fates(old(tick) + 2).Works?
      ensures exit.Some? ==> exit.value == Code(3) || exit.value == Crashed
      ensures exit == Some(Crashed) <==> fates(tick - 1).Dies?
      ensures exit == Some(Crashed) ==> aside == None || aside == Some(map[])
      ensures exit == Some(Code(3)) ==> aside == None
      ensures exit == Some(Code(3)) ==> old(stage).Some? || fates(old(tick)).Fails? || fates(old(tick) + 1).Fails? || fates(old(tick) + 2).Fails?
      ensures exit == Some(Code(3)) && tick > old(tick) + 3 ==> fates(old(tick) + 2).Fails?
      ensures exit == Some(Code(3)) && old(stage) == None ==> stage == None || fates(tick - 1).Fails?
      ensures fates(old(tick)).Fails? ==> exit == Some(Code(3))
    {
      exit := None;
      var fate := Fetch();
      if stage.None? && (fate.Works? || (fate.Dies? && fate.left.acted)) { stage := Some(map[]); }
      else if !fate.Dies? { exit := Some(Code(3)); }
      if fate.Dies? { exit := Some(Crashed); }
      if exit.Some? { return; }
      fate := Fetch();
      stage := Some(if fate.Works? then archive else fate.left.entries);
      if fate.Dies? { exit := Some(Crashed); return; }
      if fate.Fails? {
        exit := Unstage();
        return;
      }
      fate := Fetch();
      if fate.Works? || (fate.Dies? && fate.left.acted) { aside := Some(map[]); }
      if fate.Dies? { exit := Some(Crashed); return; }
      if fate.Fails? { exit := Unstage(); }
    }

    /** The same, with what its end says about its commands. */
    method Extract(archive: Dir) returns (exit: Option<Exit>)
      requires Valid() && aside == None
      modifies `stage, `aside, `tick
      ensures Valid() && tick >= old(tick)
      ensures exit.None? ==> stage == Some(archive) && aside == Some(map[])
      ensures exit.Some? ==> exit.value == Code(3) || exit.value == Crashed
      ensures exit == Some(Code(3)) ==> aside == None
      ensures exit == Some(Code(3)) && old(stage) == None ==> tick > old(tick) && (stage == None || fates(tick - 1).Fails?)
      ensures exit == Some(Crashed) ==> aside == None || aside == Some(map[])
      ensures exit == Some(Crashed) ==> VerdictsOf(Dead, moved, moved, old(tick), tick) == Sound
      ensures exit.None? ==> VerdictsOf(Ok, moved, moved, old(tick), tick) == Sound && tick == old(tick) + 3
      ensures exit == Some(Code(3)) ==> old(stage).Some? || StepFails(old(tick)) || StepFails(old(tick) + 1) || StepFails(old(tick) + 2)
      ensures exit == Some(Code(3)) && tick > old(tick) + 3 ==> StepFails(old(tick) + 2)
      ensures old(stage) == None && fates(old(tick)).Works? && fates(old(tick) + 1).Works? && fates(old(tick) + 2).Works? ==>
        exit.None? && tick == old(tick) + 3
      ensures fates(old(tick)).Fails? ==> exit == Some(Code(3))
    {
      exit := Stage(archive);
      DiesThere(moved, old(tick), tick - 1, tick);
      if exit.None? { ThreeWork(moved, old(tick)); }
    }

    /** The loop that moves every entry of the copy aside, up to the first move that fails. */
    method MoveAllAside() returns (v: Verdict)
      requires Valid() && aside == Some(map[])
      modifies `live, `aside, `moved
      ensures Valid() && Split(old(live))
      ensures v == Ok ==> live == map[]
      ensures moved >= old(moved) && VerdictsOf(v, old(moved), moved, tick, tick) == Sound
      ensures MovesWork() ==> v == Ok
    {
      v := Ok;
      NoCommand(moved, tick);
      ghost var pre := live;
      AllInOne(live);
      var words := DstWords();
      for i := 0 to |words|
        invariant Valid() && Split(pre) && v == Ok && moved >= old(moved)
        invariant VerdictsOf(Ok, old(moved), moved, tick, tick) == Sound
        invariant forall n :: n in live ==> n in words[i..]
      {
        var e := words[i];
        TheRest(e);
        if !Present(e) || Ours(e) { continue; }
        assert MoveWorks(moved) == moves(moved).Works?;
        v := MoveAsideOne(e, pre);
        OneMove(moved - 1, tick);
        VerdictsAfter(v, old(moved), moved - 1, moved, tick, tick, tick);
        if v != Ok { return; }
      }
    }

    /** Move every entry of the copy aside; on a failure put them back. */
    method MoveAside() returns (exit: Option<Exit>)
      requires Valid() && aside == Some(map[])
      modifies `live, `stage, `aside, `tick, `moved
      ensures Valid() && tick >= old(tick)
      ensures exit.None? ==> live == map[] && aside == Some(old(live)) && stage == old(stage) && tick == old(tick)
      ensures exit.Some? ==> Undone(exit.value)
      ensures moved >= old(moved) && ReportOf(exit, old(moved), moved, old(tick), tick) == Sound
      ensures exit == Some(Code(4)) ==> aside == None && stage == None
      ensures aside.None? ==> live == old(live)
      ensures aside.Some? ==> Split(old(live))
      ensures MovesWork() ==> exit.None?
    {
      ghost var pre := live;
      var v := MoveAllAside();
      AllInOne(aside.value);
      exit := if v == Dead then Some(Crashed) else None;
      Going(old(moved), moved, tick, tick);
      if v == Bad {
        ghost var m := moved;
        v := UndoAside(pre);
        UndoReport(v, old(moved), m, moved, old(tick), old(tick), tick);
        exit := Some(UndoExit(v));
      }
    }

    /** The loop that moves every staged entry up, up to the first move that fails. */
    method MoveAllUp(ghost archive: Dir) returns (v: Verdict)
      requires Valid() && ArchiveNames(archive)
      requires live == map[] && stage == Some(archive)
      modifies `live, `stage, `doneTmp, `moved
      ensures Valid() && moved >= old(moved) && VerdictsOf(v, old(moved), moved, tick, tick) == Sound
      ensures v == Ok ==> live == Visible(archive)
      ensures MovesWork() ==> v == Ok
    {
      v := Ok;
      NoCommand(moved, tick);
      AllInOne(Visible(archive));
      ArchiveEntries(archive);
      var words := ExpandAll(stage.value.Keys);
      for i := 0 to |words|
        invariant Valid() && Staged(archive) && v == Ok && moved >= old(moved)
        invariant VerdictsOf(Ok, old(moved), moved, tick, tick) == Sound
        invariant forall n :: n in stage.value ==> n in words[i..]
      {
        var e := words[i];
        if e !in stage.value { continue; }
        assert MoveWorks(moved) == moves(moved).Works?;
        v := MoveUpOne(e, archive);
        OneMove(moved - 1, tick);
        VerdictsAfter(v, old(moved), moved - 1, moved, tick, tick, tick);
        if v != Ok { return; }
      }
      assert Visible(stage.value) == map[];
      AllInOne(live);
    }

    /** Move every staged entry up; on a failure undo the swap. */
    method MoveUp(ghost pre: Dir, ghost archive: Dir) returns (exit: Option<Exit>)
      requires Valid() && ArchiveNames(archive)
      requires live == map[] && stage == Some(archive) && aside == Some(pre)
      modifies `live, `stage, `aside, `doneTmp, `tick, `moved
      ensures Valid() && tick >= old(tick)
      ensures exit.None? ==> live == Visible(archive) && aside == Some(pre) && tick == old(tick)
      ensures exit.Some? ==> Undone(exit.value)
      ensures moved >= old(moved) && ReportOf(exit, old(moved), moved, old(tick), tick) == Sound
      ensures exit == Some(Code(4)) ==> aside == None && stage == None
      ensures aside.None? ==> live == pre
      ensures aside.Some? ==> KeptOf(live, aside, pre) == Sound
      ensures MovesWork() ==> exit.None?
    {
      var v := MoveAllUp(archive);
      NothingLost(live, pre, pre);
      exit := if v == Dead then Some(Crashed) else None;
      Going(old(moved), moved, tick, tick);
      if v == Bad {
        ghost var m := moved;
        v := UndoSwap(pre);
        UndoReport(v, old(moved), m, moved, old(tick), old(tick), tick);
        exit := Some(UndoExit(v));
      }
    }

    /** The two commands that set the completion marker: a temporary file, then a rename. */
    method SetMarker() returns (v: Verdict)
      requires !marked
      modifies `done, `doneTmp, `tick, `marked, `stands
      ensures tick >= old(tick) && VerdictsOf(v, moved, moved, old(tick), tick) == Sound
      ensures v == Ok <==> fates(old(tick)).Works? && fates(old(tick) + 1).Works?
      ensures v == Ok ==> tick == old(tick) + 2
      ensures fates(old(tick)).Dies? ==> v == Dead && tick == old(tick) + 1
      ensures marked <==> fates(old(tick)).Works? && Renames(fates(old(tick) + 1))
      ensures v == Bad ==> !marked
      ensures stands == if marked then live else old(stands)
      ensures done == (marked || old(done))
    {
      var fate := Fetch();
      OneCommand(moved, old(tick));
      v := VerdictOf(fate);
      doneTmp := fate.Works? || doneTmp || fate.left.acted;
      if v != Ok { return; }
      fate := Fetch();
      OneCommand(moved, old(tick) + 1);
      v := VerdictOf(fate);
      VerdictsAfter(v, moved, moved, moved, old(tick), old(tick) + 1, tick);
      if Renames(fate) {
        done, doneTmp := true, false;
        marked, stands := true, live;
      }
    }

    /** Set the completion marker; on a failure undo the swap. */
    method Mark(ghost pre: Dir) returns (exit: Option<Exit>)
      requires Valid() && aside == Some(pre) && !marked
      modifies `live, `stage, `aside, `done, `doneTmp, `tick, `moved, `marked, `stands
      ensures Valid() && tick >= old(tick)
      ensures exit.None? ==> aside == Some(pre) && tick == old(tick) + 2
      ensures exit.None? <==> fates(old(tick)).Works? && fates(old(tick) + 1).Works?
      ensures exit.Some? ==> Undone(exit.value)
      ensures moved >= old(moved) && ReportOf(exit, old(moved), moved, old(tick), tick) == Sound
      ensures exit == Some(Code(4)) ==> aside == None && stage == None
      ensures exit.Some? && marked ==> exit.value == Crashed
      ensures marked <==> fates(old(tick)).Works? && Renames(fates(old(tick) + 1))
      ensures stands == if marked then old(live) else old(stands)
      ensures marked ==> done && live == old(live)
      ensures !marked ==> done == old(done)
      ensures fates(old(tick)).Dies? ==> exit == Some(Crashed) && live == old(live) && aside == Some(pre) && tick == old(tick) + 1
      ensures aside.None? ==> live == pre
      ensures aside.Some? ==> KeptOf(live, aside, pre) == Sound
    {
      var v := SetMarker();
      NothingLost(live, pre, pre);
      Going(moved, moved, old(tick), tick);
      exit := if v == Dead then Some(Crashed) else None;
      if v == Bad {
        ghost var t := tick;
        v := UndoSwap(pre);
        UndoReport(v, old(moved), old(moved), moved, old(tick), t, tick);
        exit := Some(UndoExit(v));
      }
    }

    /**
     * Drop the aside directory and the stage (status ignored), then the marker. Each stays
     * exactly when its own removal left it.
     */
    method CleanUp() returns (exit: Exit)
      requires Valid() && aside.Some? && done
      modifies `stage, `aside, `done, `tick
      ensures Valid() && tick >= old(tick)
      ensures exit == Crashed <==> fates(old(tick)).Dies? || fates(old(tick) + 1).Dies?
      ensures exit == Crashed ==> VerdictsOf(Dead, moved, moved, old(tick), tick) == Sound
      ensures exit != Crashed ==> tick == old(tick) + 2
      ensures exit != Crashed ==> (aside.Some? <==> LeavesAside(fates(old(tick)))) && (fates(old(tick)).Works? ==> stage == None)
      ensures exit != Crashed ==> (done <==> LeavesMarker(fates(old(tick) + 1)))
      ensures exit != Crashed ==> exit == Code(if fates(old(tick) + 1).Works? then 0 else 1)
    {
      var v := RemoveDirs();
      DiesThere(moved, old(tick), old(tick), tick);
      if v == Dead { return Crashed; }
      var fate := Fetch();
      DiesThere(moved, old(tick), old(tick) + 1, tick);
      done := !fate.Works? && done && fate.left.marker;
      exit := if fate.Works? then Code(0) else if fate.Fails? then Code(1) else Crashed;
    }

    /** The entries aside, the staged ones up, the marker in place. */
    method Swap(archive: Dir) returns (exit: Option<Exit>)
      requires Valid() && ArchiveNames(archive) && stage == Some(archive) && aside == Some(map[]) && !marked
      modifies `live, `stage, `aside, `done, `doneTmp, `tick, `moved, `marked, `stands
      ensures Valid() && tick >= old(tick)
      ensures exit.None? ==> marked && aside.Some? && tick == old(tick) + 2
      ensures exit.Some? ==> Undone(exit.value)
      ensures moved >= old(moved) && ReportOf(exit, old(moved), moved, old(tick), tick) == Sound
      ensures exit == Some(Code(4)) ==> aside == None && stage == None
      ensures exit.Some? && marked ==> exit.value == Crashed
      ensures marked ==> done && live == Visible(archive)
      ensures stands == if marked then Visible(archive) else old(stands)
      ensures !marked ==> KeptOf(live, aside, old(live)) == Sound && done == old(done)
      ensures !marked && aside.None? ==> live == old(live)
      ensures MovesWork() && fates(old(tick)).Works? && fates(old(tick) + 1).Works? ==> exit.None?
      ensures MovesWork() && fates(old(tick)).Dies? ==>
        exit == Some(Crashed) && !marked && live == Visible(archive) && aside == Some(old(live)) && tick == old(tick) + 1
    {
      ghost var pre := live;
      exit := MoveAside();
      NothingLost(live, map[], live);
      if aside.Some? { NothingLost(live, aside.value, pre); }
      if exit.Some? { return; }
      ghost var m := moved;
      Going(old(moved), m, tick, tick);
      exit := MoveUp(pre, archive);
      NothingLost(live, map[], live);
      ReportAfter(exit, old(moved), m, moved, old(tick), old(tick), tick);
      if exit.Some? { return; }
      m := moved;
      Going(old(moved), m, tick, tick);
      exit := Mark(pre);
      NothingLost(live, map[], live);
      ReportAfter(exit, old(moved), m, moved, old(tick), old(tick), tick);
    }

    /** The run after its leftovers are settled, whatever marker may have stayed behind. */
    method Replace(archive: Dir) returns (exit: Exit)
      requires Valid() && ArchiveNames(archive) && aside == None && !marked
      modifies this
      ensures Valid() && tick >= old(tick)
      ensures Swapped(exit) || exit == Code(3) || Undone(exit)
      ensures exit == Code(3) || exit == Code(4) ==> aside == None
      ensures exit == Code(4) ==> stage == None
      ensures moved >= old(moved) && JudgedOf(exit, old(moved), moved, old(tick), tick) == Sound
      ensures Swapped(exit) ==> marked
      ensures marked ==> live == Visible(archive) && (Swapped(exit) || exit == Crashed)
      ensures stands == if marked then Visible(archive) else old(stands)
      ensures !marked ==> KeptOf(live, aside, old(live)) == Sound && done == old(done)
      ensures !marked && aside.None? ==> live == old(live)
      ensures Swapped(exit) ==> CleanedOf(exit, tick, stage, aside, done) == Sound
      ensures old(stage).None? && GoesWell(old(tick)) && !fates(old(tick) + 5).Dies? && !fates(old(tick) + 6).Dies? ==>
        Swapped(exit) && tick == old(tick) + 7
      ensures old(stage).None? && KilledMarking(old(tick)) ==>
        exit == Crashed && !marked && live == Visible(archive) && aside == Some(old(live)) && tick == old(tick) + 4
      ensures fates(old(tick)).Fails? ==> exit == Code(3)
    {
      ghost var pre := live;
      NothingLost(live, map[], pre);
      var ended := Extract(archive);
      NothingLost(live, map[], pre);
      if ended.Some? { return ended.value; }
      ghost var t := tick;
      ended := Swap(archive);
      ReportAfter(ended, old(moved), old(moved), moved, old(tick), t, tick);
      if ended.Some? {
        JudgedUndone(ended.value, old(moved), moved, old(tick), tick);
        return ended.value;
      }
      exit := CleanUp();
      JudgedSwapped(exit, old(moved), moved, old(tick), tick);
    }

    /**
     * One run of the script. Whatever works, fails or is killed: once the marker is in place
     * the copy holds the archive, and until then every earlier entry is in the copy or aside.
     * `stale`: an earlier run's marker survived its removal.
     */
    method Run(archive: Dir) returns (exit: Exit, stale: bool)
      requires Valid() && ArchiveNames(archive)
      modifies this
      ensures Valid() && tick >= old(tick)
      ensures Swapped(exit) || exit == Code(3) || exit == Code(6) || Undone(exit)
      ensures exit == Code(3) || exit == Code(4) || exit == Code(6) ==> live == old(live)
      ensures exit == Code(3) || exit == Code(4) ==> aside == None
      ensures moved >= old(moved) && RanOf(exit, old(moved), moved, old(tick), Settling(old(aside)), tick) == Sound
      ensures exit == Code(4) ==> stage == None
      ensures Swapped(exit) ==> marked
      ensures marked ==> live == Visible(archive) && (Swapped(exit) || exit == Crashed)
      ensures stands == if marked then Visible(archive) else old(stands)
      ensures old(Interrupted()) ==> exit == Code(6) && !marked && live == old(live)
      ensures old(Interrupted()) ==> aside == old(aside) && stage == old(stage) && !done && tick == old(tick)
      ensures !old(Interrupted()) && !marked ==> KeptOf(live, aside, old(live)) == Sound
      ensures !old(Interrupted()) && !marked && !stale && !Interrupted() ==> live == old(live)
      ensures stale ==> old(done) && LeftMarker(old(tick), tick)
      ensures Swapped(exit) ==> CleanedOf(exit, tick, stage, aside, done) == Sound
      ensures old(aside).None? && fates(old(tick)).Works? && GoesWell(old(tick) + 1) && !fates(old(tick) + 6).Dies? && !fates(old(tick) + 7).Dies? ==>
        Swapped(exit) && tick == old(tick) + 8
      ensures old(aside).None? && old(stage).None? && old(done) && LeavesMarker(fates(old(tick))) && KilledMarking(old(tick) + 1) ==>
        exit == Crashed && !marked && done && live == Visible(archive) && aside == Some(old(live)) && tick == old(tick) + 5
      ensures old(aside).Some? && old(done) && fates(old(tick)).Works? && fates(old(tick) + 1).Works? && fates(old(tick) + 2).Fails? ==>
        exit == Code(3)
    {
      marked := false;
      var ended: Option<Exit>;
      ended, stale := ClearLeftovers();
      if ended.Some? {
        WholeIsKept();
        return ended.value, stale;
      }
      assert !old(Interrupted()) && aside == None && live == old(live) && tick == old(tick) + if old(aside).None? then 1 else 2;
      exit := Replace(archive);
      RanAfter(exit, old(moved), moved, old(tick), Settling(old(aside)), tick);
    }

    /** The services rewrite a copy no run left half done. */
    method Write(contents: Dir)
      requires Valid() && !Interrupted() && CopyNames(contents)
      modifies `live, `stands
      ensures Valid() && live == contents && stands == contents
    {
      live, stands := contents, contents;
    }
  }

  /**
   * A swap that fails once is undone: when one move or marker command fails and nothing else
   * from the extraction on, the run ends with 4 and the copy is as it was, with nothing staged
   * and nothing aside.
   */
  method OneFaultIsUndone(copy: Copy, archive: Dir) returns (exit: Exit)
    requires copy.Valid() && ArchiveNames(archive)
    modifies copy
    ensures copy.OneFault(old(copy.moved), copy.moved, old(copy.tick), Settling(old(copy.aside)), copy.tick) ==>
      exit == Code(4) && copy.live == old(copy.live) && copy.aside == None && copy.stage == None
  {
    var stale;
    exit, stale := copy.Run(archive);
    if copy.OneFault(old(copy.moved), copy.moved, old(copy.tick), Settling(old(copy.aside)), copy.tick) {
      copy.OneFaultUndone(exit, old(copy.moved), copy.moved, old(copy.tick), Settling(old(copy.aside)), copy.tick);
    }
  }

  function Rewritten(before: Dir, write: Option<Dir>): Dir {
    if write.Some? then write.value else before
  }

  /** What the copy may stand for after a run, by what the run told its caller. */
  ghost predicate Next(before: Dir, write: Option<Dir>, archive: Dir, exit: Exit, after: Dir) {
    if Swapped(exit) then after == Visible(archive)
    else if exit == Crashed then after == Visible(archive) || after == Rewritten(before, write)
    else if exit == Code(6) then after == before || after == Rewritten(before, write)
    else after == Rewritten(before, write)
  }

  /**
   * Any number of runs, each with its own failures and possibly killed at any command, with
   * the services writing between runs while no run is half done. What the copy stands for
   * follows the exit codes, and unless a failing removal left an earlier marker, the copy
   * holds exactly that, or a run stopped half way and every entry of it is intact.
   */
  method RunMany(copy: Copy, archives: seq<Dir>, writes: seq<Option<Dir>>)
    returns (exits: seq<Exit>, ghost stood: seq<Dir>, stale: bool)
    requires copy.Valid() && copy.Safe() && |writes| == |archives|
    requires forall a :: a in archives ==> ArchiveNames(a)
    requires forall w :: w in writes && w.Some? ==> CopyNames(w.value)
    modifies copy
    ensures |exits| == |archives| && |stood| == |archives| + 1
    ensures stood[0] == old(copy.stands) && stood[|archives|] == copy.stands
    ensures forall k :: 0 <= k < |archives| ==> Next(stood[k], writes[k], archives[k], exits[k], stood[k + 1])
    ensures !stale ==> copy.Safe()
    ensures stale ==> copy.LeftMarker(old(copy.tick), copy.tick)
  {
    exits, stood, stale := [], [copy.stands], false;
    for i := 0 to |archives|
      invariant copy.Valid() && copy.tick >= old(copy.tick)
      invariant |exits| == i && |stood| == i + 1 && stood[0] == old(copy.stands) && stood[i] == copy.stands
      invariant forall k :: 0 <= k < i ==> Next(stood[k], writes[k], archives[k], exits[k], stood[k + 1])
      invariant !stale ==> copy.Safe()
      invariant stale ==> copy.LeftMarker(old(copy.tick), copy.tick)
    {
      if !copy.Interrupted() && writes[i].Some? {
        assert writes[i] in writes;
        copy.Write(writes[i].value);
      }
      assert archives[i] in archives;
      var exit, left := copy.Run(archives[i]);
      stale := stale || left;
      exits, stood := exits + [exit], stood + [copy.stands];
    }
  }

  /** A copy an earlier run left half done is never touched again: every run ends with 6. */
  method RunInterrupted(copy: Copy, archives: seq<Dir>) returns (exits: seq<Exit>)
    requires copy.Valid() && copy.Interrupted()
    requires forall a :: a in archives ==> ArchiveNames(a)
    modifies copy
    ensures |exits| == |archives| && forall k :: 0 <= k < |exits| ==> exits[k] == Code(6)
    ensures copy.live == old(copy.live) && copy.aside == old(copy.aside) && copy.stage == old(copy.stage)
    ensures copy.Interrupted() && copy.tick == old(copy.tick)
  {
    exits := [];
    for i := 0 to |archives|
      invariant copy.Valid() && copy.Interrupted() && copy.tick == old(copy.tick)
      invariant copy.live == old(copy.live) && copy.aside == old(copy.aside) && copy.stage == old(copy.stage)
      invariant |exits| == i && forall k :: 0 <= k < i ==> exits[k] == Code(6)
    {
      assert archives[i] in archives;
      var exit, stale := copy.Run(archives[i]);
      exits := exits + [exit];
    }
  }

  /**
   * A restore that reported success and blocks every later one: the removal whose status the
   * script ignores leaves the aside directory, and the marker goes all the same.
   */
  method RestoredThenStuck(contents: Dir, archive: Dir, later: seq<Dir>)
    returns (copy: Copy, first: Exit, exits: seq<Exit>)
    requires CopyNames(contents) && ArchiveNames(archive)
    requires forall a :: a in later ==> ArchiveNames(a)
    ensures first == Code(0) && copy.live == Visible(archive)
    ensures |exits| == |later| && forall k :: 0 <= k < |exits| ==> exits[k] == Code(6)
  {
    var left := Leftover(false, contents, false, true, false, false);
    copy := new Copy(contents, k => if k == 6 then Fails(left) else Works, k => Works);
    var stale;
    first, stale := copy.Run(archive);
    exits := RunInterrupted(copy, later);
  }

  /** Of a copy in two parts, only what was aside can be lost when the rest is kept. */
  lemma OnlyAsideLost(live: Dir, aside: Dir, pre: Dir, live': Dir, aside': Dir)
    requires SplitOf(live, aside, pre) && Lost(live', aside', live) == {}
    ensures Lost(live', aside', pre) <= aside.Keys
  {
    forall n | n in Lost(live', aside', pre) ensures n in aside {
      assert n in live ==> n in Lost(live', aside', live);
    }
  }

  /**
   * What a marker over a half-done swap costs: the next run takes it for a finished one. It never
   * loses more than the entries aside, and if it ends with 3 or 4, it lost exactly those.
   */
  method MarkerGivesUpAside(copy: Copy, archive: Dir, ghost pre: Dir) returns (exit: Exit)
    requires copy.Valid() && ArchiveNames(archive) && copy.Split(pre) && copy.done
    modifies copy
    ensures !copy.marked ==> Lost(copy.live, if copy.aside.Some? then copy.aside.value else map[], pre) <= old(copy.aside).value.Keys
    ensures exit == Code(3) || exit == Code(4) ==> copy.aside == None && Lost(copy.live, map[], pre) == old(copy.aside).value.Keys
  {
    var stale;
    exit, stale := copy.Run(archive);
    if !copy.marked {
      OnlyAsideLost(old(copy.live), old(copy.aside).value, pre, copy.live, if copy.aside.Some? then copy.aside.value else map[]);
    }
  }

  /** Two removals leave the marker, the helper dies at one command, and one stage cannot be made. */
  function StaleFate(k: nat): Fate {
    var left := Leftover(false, map[], false, false, true, false);
    if k == 7 || k == 8 || k == 15 then Fails(left) else if k == 12 then Dies(left) else Works
  }

  /** A fresh copy is restored, and the run cannot remove its marker. */
  method RestoredUnderMarker(contents: Dir, archive: Dir) returns (copy: Copy, exit: Exit)
    requires CopyNames(contents) && ArchiveNames(archive)
    ensures fresh(copy) && copy.Valid() && copy.fates == StaleFate && copy.MovesWork() && copy.tick == 8
    ensures exit == Code(1) && copy.live == copy.stands == Visible(archive)
    ensures copy.aside == None && copy.stage == None && copy.done
  {
    copy := new Copy(contents, StaleFate, k => Works);
    assert copy.MovesWork();
    var stale;
    exit, stale := copy.Run(archive);
  }

  /** The next run cannot remove it either, and is killed when all but its own marker is in place. */
  method KilledUnderMarker(copy: Copy, later: Dir) returns (exit: Exit)
    requires copy.Valid() && ArchiveNames(later) && copy.aside == None && copy.stage == None && copy.done
    requires LeavesMarker(copy.fates(copy.tick)) && copy.KilledMarking(copy.tick + 1)
    modifies copy
    ensures copy.Valid() && exit == Crashed && copy.stands == old(copy.stands) && copy.tick == old(copy.tick) + 5
    ensures copy.done && copy.live == Visible(later) && copy.aside == Some(old(copy.live))
  {
    var stale;
    exit, stale := copy.Run(later);
  }

  /** The one after that removes what is aside, and then cannot make its stage. */
  method RemovesAside(copy: Copy, later: Dir) returns (exit: Exit)
    requires copy.Valid() && ArchiveNames(later) && copy.aside.Some? && copy.done
    requires copy.fates(copy.tick).Works? && copy.fates(copy.tick + 1).Works? && copy.fates(copy.tick + 2).Fails?
    modifies copy
    ensures exit == Code(3) && copy.stands == old(copy.stands) && copy.live == old(copy.live) && copy.aside == None
  {
    var stale;
    exit, stale := copy.Run(later);
  }

  /**
   * Why the marker has to go, from a fresh copy: a run cannot remove its own marker, the next
   * one cannot either and is killed when all but its marker is in place, and the third, which
   * cannot make its stage, deletes everything that was aside. It ends with 3, the code of a
   * run that left the copy as it was, and nothing of the only restore that succeeded is left.
   */
  method StaleMarkerLosesCopy(contents: Dir, archive: Dir, later: Dir) returns (copy: Copy, exits: seq<Exit>)
    requires CopyNames(contents) && ArchiveNames(archive) && ArchiveNames(later)
    ensures exits == [Code(1), Crashed, Code(3)]
    ensures copy.stands == Visible(archive) && copy.live == Visible(later) && copy.aside == None
  {
    var first, second, third;
    copy, first := RestoredUnderMarker(contents, archive);
    second := KilledUnderMarker(copy, later);
    third := RemovesAside(copy, later);
    exits := [first, second, third];
  }
}
