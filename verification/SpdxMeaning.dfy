/** What the classifier answers on a printed licence tree: the tree's own verdict. */
module SpdxMeaning {
  import opened Prelude
  import opened Text
  import opened Spdx
  import opened SpdxTrees

  function Needle(op: Op): Operator {
    if op.And? then AND else OR
  }

  // ---------------------------------------------------------------- leaves

  /** A word without blanks and brackets. */
  predicate Word(w: string) {
    |w| > 0 && forall k :: 0 <= k < |w| ==> !White(w[k]) && Weight(w[k]) == 0
  }

  /** The word spells the operator. */
  predicate Spells(w: string, needle: Operator) {
    |w| + 2 == |needle| && forall k :: 0 <= k < |w| ==> UpperChar(w[k]) == needle[k + 1]
  }

  /** A word that is no operator. */
  predicate Name(w: string) {
    Word(w) && !Spells(w, OR) && !Spells(w, AND)
  }

  /** A licence name, WITH, and an exception name, the first of length `k`. */
  predicate Excepted(p: string, k: nat) {
    k + 6 <= |p| && Name(p[..k]) && At(p, k, WITH) && Name(p[k + 6..])
  }

  predicate LicenceText(p: string) {
    Name(p) || exists k: nat :: k <= |p| && Excepted(p, k)
  }

  function BlankFrom(p: string, i: nat): (r: nat)
    requires i <= |p|
    ensures i <= r <= |p|
    decreases |p| - i
  {
    if i < |p| && p[i] != ' ' then BlankFrom(p, i + 1) else i
  }

  /** The licence a leaf names: its first word. */
  function LicenceName(p: string): string {
    p[..BlankFrom(p, 0)]
  }

  lemma {:induction false} BlankFromAt(p: string, i: nat, k: nat)
    requires i <= k <= |p| && (forall j :: i <= j < k ==> p[j] != ' ') && (k == |p| || p[k] == ' ')
    ensures BlankFrom(p, i) == k
    decreases k - i
  {
    if i < k { BlankFromAt(p, i + 1, k); }
  }

  lemma {:induction false} FindFrom(s: string, i: nat, j: nat)
    requires i <= j <= |s| && forall k :: i <= k < j ==> s[k] != ' '
    ensures IndexOf(s, WITH, i) == IndexOf(s, WITH, j)
    decreases j - i
  {
    if i < j {
      OnlyBlankStarts(s, i, WITH);
      FindFrom(s, i + 1, j);
    }
  }

  lemma WordTrims(w: string)
    requires Word(w)
    ensures Trim(w) == w
  {
    TrimInk(w);
  }

  lemma StripWord(p: string)
    requires Word(p)
    ensures StripWithException(p) == LicenceName(p) == p
  {
    FindFrom(p, 0, |p|);
    assert IndexOf(p, WITH, |p|) == None;
    BlankFromAt(p, 0, |p|);
    WordTrims(p);
  }

  lemma StripExcepted(p: string, k: nat)
    requires Excepted(p, k)
    ensures StripWithException(p) == LicenceName(p) == p[..k]
  {
    var w := p[..k];
    forall j | 0 <= j < k ensures p[j] != ' ' { assert p[j] == w[j]; }
    AtLetter(p, k, WITH, 0);
    FindFrom(p, 0, k);
    BlankFromAt(p, 0, k);
    WordTrims(w);
  }

  /** Stripping the exception leaves the licence name. */
  lemma StripLicence(p: string)
    requires LicenceText(p)
    ensures StripWithException(p) == LicenceName(p)
  {
    if Name(p) {
      StripWord(p);
    } else {
      var k: nat :| k <= |p| && Excepted(p, k);
      StripExcepted(p, k);
    }
  }

  /** A needle around a word is spelled by that word. */
  lemma SpelledBetween(w: string, needle: Operator, q: string, k: nat)
    requires Word(w) && Here(q, k + 1, w) && k + 1 + |w| < |q| && q[k + 1 + |w|] == ' ' && At(q, k, needle)
    ensures Spells(w, needle)
  {
    var len := |needle| - 2;
    forall j | k + 1 <= j < k + 1 + |w| ensures q[j] != ' ' { assert q[k + 1 + (j - k - 1)] == w[j - k - 1]; }
    AtLetter(q, k, needle, |needle| - 1);
    assert len >= |w|;
    if len > |w| {
      AtLetter(q, k, needle, |w| + 1);
      assert false;
    }
    forall j | 0 <= j < |w| ensures UpperChar(w[j]) == needle[j + 1] {
      AtLetter(q, k, needle, j + 1);
      assert q[k + 1 + j] == w[j];
    }
  }

  lemma NameIsClear(p: string, needle: Operator)
    requires Word(p) && !Spells(p, needle)
    ensures Clear(p, needle)
  {
    var q := " " + p + " ";
    forall k: nat | k <= |p| ensures !At(q, k, needle) {
      if k > 0 {
        assert q[k] == p[k - 1];
        OnlyBlankStarts(q, k, needle);
      } else if At(q, 0, needle) {
        SpelledBetween(p, needle, q, 0);
      }
    }
  }

  /** The blanks of such a text between blanks. */
  lemma ExceptedBlanks(p: string, at: nat)
    requires Excepted(p, at)
    ensures var q := " " + p + " ";
      && Here(q, 1, p[..at]) && Here(q, at + 7, p[at + 6..]) && UpperChar(q[at + 2]) == 'W'
      && forall k :: 0 <= k <= |p| ==> (q[k] == ' ' <==> k == 0 || k == at + 1 || k == at + 6)
  {
    var q, a, b := " " + p + " ", p[..at], p[at + 6..];
    assert forall j :: 0 <= j < |p| ==> q[j + 1] == p[j];
    forall k | 0 < k <= |p| ensures q[k] == ' ' <==> k == at + 1 || k == at + 6 {
      if k <= at {
        assert q[k] == a[k - 1];
      } else if k < at + 7 {
        AtLetter(p, at, WITH, k - 1 - at);
      } else {
        assert q[k] == b[k - at - 7];
      }
    }
    AtLetter(p, at, WITH, 1);
  }

  lemma ExceptedIsClear(p: string, at: nat, needle: Operator)
    requires Excepted(p, at) && needle in {OR, AND}
    ensures Clear(p, needle)
  {
    var q := " " + p + " ";
    ExceptedBlanks(p, at);
    forall k: nat | k <= |p| ensures !At(q, k, needle) {
      if q[k] != ' ' {
        OnlyBlankStarts(q, k, needle);
      } else if At(q, k, needle) {
        if k == 0 {
          SpelledBetween(p[..at], needle, q, 0);
        } else if k == at + 6 {
          SpelledBetween(p[at + 6..], needle, q, at + 6);
        }
      }
    }
  }

  lemma LicenceIsClear(p: string, op: Op)
    requires LicenceText(p)
    ensures Clear(p, Needle(op))
  {
    if Name(p) {
      NameIsClear(p, Needle(op));
    } else {
      var k: nat :| k <= |p| && Excepted(p, k);
      ExceptedIsClear(p, k, Needle(op));
    }
  }

  // ---------------------------------------------------------------- trees

  predicate IsOr(t: Tree) {
    t.Node? && t.op.Or?
  }

  /** Leaves are licences, and each operator is spelled as what it is, in any case. */
  predicate Proper(t: Tree) {
    match t
    case Leaf(text) => LicenceText(text)
    case Node(op, word, l, r) => |word| == |Needle(op)| && At(word, 0, Needle(op)) && Proper(l) && Proper(r)
    case Group(e) => Proper(e)
  }

  /** An OR under an AND is in brackets. */
  predicate WellGrouped(t: Tree) {
    match t
    case Leaf(_) => true
    case Node(op, _, l, r) => WellGrouped(l) && WellGrouped(r) && (op.And? ==> !IsOr(l) && !IsOr(r))
    case Group(e) => WellGrouped(e)
  }

  lemma {:induction false} ProperFits(t: Tree, op: Op)
    requires Proper(t)
    ensures Fits(t, Needle(op))
  {
    match t
    case Leaf(text) => LicenceIsClear(text, op);
    case Group(e) => ProperFits(e, op);
    case Node(_, _, l, r) =>
      ProperFits(l, op);
      ProperFits(r, op);
  }

  /** Each letter is the capital or the small one. */
  predicate AnyCase(w: string, capitals: string, smalls: string)
    requires |capitals| == |smalls|
  {
    |w| == |capitals| && forall k :: 0 <= k < |w| ==> w[k] == capitals[k] || w[k] == smalls[k]
  }

  /** The operators are the three words in any mix of capital and small letters, and nothing else. */
  lemma OperatorsInAnyCase(w: string)
    ensures |w| == 5 && At(w, 0, AND) <==> AnyCase(w, " AND ", " and ")
    ensures |w| == 4 && At(w, 0, OR) <==> AnyCase(w, " OR ", " or ")
    ensures |w| == 6 && At(w, 0, WITH) <==> AnyCase(w, " WITH ", " with ")
  {
    MatchesIff(w, 0, AND, 0);
    MatchesIff(w, 0, OR, 0);
    MatchesIff(w, 0, WITH, 0);
    CaseOf(w, AND, " and ");
    CaseOf(w, OR, " or ");
    CaseOf(w, WITH, " with ");
  }

  lemma CaseOf(w: string, capitals: string, smalls: string)
    requires |capitals| == |smalls|
    requires forall k :: 0 <= k < |capitals| ==>
      capitals[k] == smalls[k] == ' ' || ('A' <= capitals[k] <= 'Z' && smalls[k] as int == capitals[k] as int + 32)
    ensures |w| == |capitals| && (forall j :: 0 <= j < |capitals| ==> UpperChar(w[0 + j - 0]) == capitals[j]) <==> AnyCase(w, capitals, smalls)
  {
    if |w| == |capitals| {
      forall k | 0 <= k < |w| ensures UpperChar(w[0 + k - 0]) == capitals[k] <==> w[k] == capitals[k] || w[k] == smalls[k] {
        assert w[0 + k - 0] == w[k];
      }
    }
  }

  lemma AndWord(word: Operator)
    requires |word| == |AND| && At(word, 0, AND)
    ensures UpperChar(word[1]) != OR[1]
  {
    AtLetter(word, 0, AND, 1);
  }

  lemma {:induction false} NoOrIsSolid(t: Tree)
    requires Proper(t) && WellGrouped(t) && !IsOr(t)
    ensures Solid(t, OR)
  {
    if t.Node? {
      AndWord(t.word);
      NoOrIsSolid(t.left);
      NoOrIsSolid(t.right);
    }
  }

  lemma {:induction false} OrChain(t: Tree)
    requires Proper(t) && WellGrouped(t)
    ensures Chain(t, Or, OR)
  {
    if IsOr(t) {
      OrChain(t.left);
      OrChain(t.right);
    } else {
      NoOrIsSolid(t);
    }
  }

  lemma {:induction false} AndChain(t: Tree)
    requires Proper(t) && WellGrouped(t) && !IsOr(t)
    ensures Chain(t, And, AND)
  {
    if t.Node? {
      AndChain(t.left);
      AndChain(t.right);
    }
  }

  lemma {:induction false} CoreIsProper(t: Tree)
    requires Proper(t) && WellGrouped(t)
    ensures Proper(Core(t)) && WellGrouped(Core(t)) && !Core(t).Group? && (t.Group? ==> Core(t) < t) && (!t.Group? ==> Core(t) == t)
  {
    if t.Group? { CoreIsProper(t.inner); }
  }

  // ---------------------------------------------------------------- verdicts

  /** The tree's verdict: an AND is refused as its first refused part is, an OR as its first part when no part is accepted. */
  function Evaluate(t: Tree, policy: string -> Option<Reason>): Option<Reason> {
    match t
    case Leaf(text) => policy(LicenceName(text))
    case Group(e) => Evaluate(e, policy)
    case Node(And, _, l, r) => if Evaluate(l, policy).Some? then Evaluate(l, policy) else Evaluate(r, policy)
    case Node(Or, _, l, r) => if Evaluate(r, policy).None? then None else Evaluate(l, policy)
  }

  /** Truth of the tree over the accepted licences. */
  predicate Holds(t: Tree, policy: string -> Option<Reason>) {
    match t
    case Leaf(text) => policy(LicenceName(text)).None?
    case Group(e) => Holds(e, policy)
    case Node(And, _, l, r) => Holds(l, policy) && Holds(r, policy)
    case Node(Or, _, l, r) => Holds(l, policy) || Holds(r, policy)
  }

  lemma {:induction false} AcceptedIffHolds(t: Tree, policy: string -> Option<Reason>)
    ensures Evaluate(t, policy).None? <==> Holds(t, policy)
  {
    match t
    case Leaf(_) =>
    case Group(e) => AcceptedIffHolds(e, policy);
    case Node(_, _, l, r) =>
      AcceptedIffHolds(l, policy);
      AcceptedIffHolds(r, policy);
  }

  lemma {:induction false} EvaluateCore(t: Tree, policy: string -> Option<Reason>)
    ensures Evaluate(Core(t), policy) == Evaluate(t, policy)
  {
    if t.Group? { EvaluateCore(t.inner, policy); }
  }

  /** How the classifier sums up the operands of a chain. */
  function SumUp(op: Op, results: List<Option<Reason>>): Option<Reason> {
    if op.And? then FirstRefusal(results) else AnyAccepted(results)
  }

  /** What an operand's verdict makes of the verdicts after it. */
  function Join(op: Op, first: Option<Reason>, rest: List<Option<Reason>>): Option<Reason> {
    if rest.Nil? then first
    else if op.And? then (if first.Some? then first else FirstRefusal(rest))
    else if HasAccepted(rest) then None else first
  }

  lemma JoinIsSumUp(op: Op, first: Option<Reason>, rest: List<Option<Reason>>)
    ensures SumUp(op, Cons(first, rest)) == Join(op, first, rest)
  {
    assert FirstRefusal(Nil) == None;
    assert !HasAccepted(Nil);
  }

  /** A node's verdict joins to what follows as its operands' verdicts do. */
  lemma JoinNode(t: Tree, policy: string -> Option<Reason>, right: List<Option<Reason>>, rest: List<Option<Reason>>)
    requires t.Node? && right.Cons?
    requires SumUp(t.op, right) == Join(t.op, Evaluate(t.right, policy), rest)
    ensures Join(t.op, Evaluate(t.left, policy), right) == Join(t.op, Evaluate(t, policy), rest)
  {
  }

  lemma {:induction false} BelowFirst(t: Tree, op: Op, rest: List<string>, bound: nat)
    requires Below(Texts(t, op, rest), bound)
    ensures Below(rest, bound)
    decreases t
  {
    if t.Node? && t.op == op {
      BelowFirst(t.left, op, Texts(t.right, op, rest), bound);
      BelowFirst(t.right, op, rest, bound);
    }
  }

  /** Over the operands of a chain, and what follows it, the classifier sums up to the joined verdict. */
  lemma {:induction false} ClassifyChain(t: Tree, op: Op, rest: List<string>, policy: string -> Option<Reason>, bound: nat, whole: Tree)
    requires Proper(t) && WellGrouped(t) && Below(Texts(t, op, rest), bound) && Below(rest, bound)
    requires (t.Node? && t.op == op) || t < whole
    ensures SumUp(op, ClassifyEach(Texts(t, op, rest), policy, bound)) == Join(op, Evaluate(t, policy), ClassifyEach(rest, policy, bound))
    decreases t, if t.Node? && t.op == op then 0 else 2, 0
  {
    if t.Node? && t.op == op {
      var right := Texts(t.right, op, rest);
      BelowFirst(t.left, op, right, bound);
      ClassifyChain(t.left, op, right, policy, bound, t);
      ClassifyChain(t.right, op, rest, policy, bound, t);
      TextsCons(t.right, op, rest);
      JoinNode(t, policy, ClassifyEach(right, policy, bound), ClassifyEach(rest, policy, bound));
    } else {
      ClassifyPrinted(t, policy);
      JoinIsSumUp(op, Evaluate(t, policy), ClassifyEach(rest, policy, bound));
    }
  }

  lemma {:induction false} ClassifyWhole(t: Tree, policy: string -> Option<Reason>, bound: nat)
    requires Proper(t) && WellGrouped(t) && t.Node? && Below(Texts(t, t.op, Nil), bound)
    ensures SumUp(t.op, ClassifyEach(Texts(t, t.op, Nil), policy, bound)) == Evaluate(t, policy)
    decreases t, 0, 1
  {
    ClassifyChain(t, t.op, Nil, policy, bound, t);
  }

  /** Where nothing is split, the answer is the policy's on the licence named. */
  lemma ClassifyLeaf(t: Tree, policy: string -> Option<Reason>)
    requires Proper(t) && WellGrouped(t) && Core(t).Leaf?
    requires SplitTopLevel(Print(t), OR) == Nil && SplitTopLevel(Print(t), AND) == Nil
    ensures Classify(Print(t), policy) == Evaluate(Core(t), policy)
  {
    CoreIsProper(t);
    UnwrapPrinted(t);
    StripLicence(Core(t).text);
  }

  /** The classifier's answer on a printed, well-grouped tree is the tree's verdict. */
  lemma {:induction false} ClassifyPrinted(t: Tree, policy: string -> Option<Reason>)
    requires Proper(t) && WellGrouped(t)
    ensures Classify(Print(t), policy) == Evaluate(t, policy)
    decreases t, 1
  {
    var core := Core(t);
    CoreIsProper(t);
    EvaluateCore(t, policy);
    SplitsAsTree(t);
    if core.Node? { ClassifyWhole(core, policy, |Print(t)|); } else { ClassifyLeaf(t, policy); }
  }

  lemma SplitsAsTree(t: Tree)
    requires Proper(t) && WellGrouped(t)
    ensures var c := Core(t);
      && (IsOr(c) ==> SplitTopLevel(Print(t), OR) == Texts(c, Or, Nil) != Nil)
      && (!IsOr(c) ==> SplitTopLevel(Print(t), OR) == Nil)
      && (!IsOr(c) && c.Node? ==> SplitTopLevel(Print(t), AND) == Texts(c, And, Nil) != Nil)
      && (!c.Node? ==> SplitTopLevel(Print(t), AND) == Nil)
  {
    var core := Core(t);
    CoreIsProper(t);
    ProperFits(t, Or);
    ProperFits(t, And);
    OrChain(core);
    SplitPrinted(t, Or, OR);
    TextsCons(core, Or, Nil);
    if !IsOr(core) {
      AndChain(core);
      SplitPrinted(t, And, AND);
      TextsCons(core, And, Nil);
    }
  }

  // ---------------------------------------------------------------- the needed brackets

  function Wrap(t: Tree): Tree {
    if IsOr(t) then Group(t) else t
  }

  /** Brackets around each OR under an AND. */
  function Grouped(t: Tree): Tree {
    match t
    case Leaf(_) => t
    case Group(e) => Group(Grouped(e))
    case Node(And, word, l, r) => Node(And, word, Wrap(Grouped(l)), Wrap(Grouped(r)))
    case Node(Or, word, l, r) => Node(Or, word, Grouped(l), Grouped(r))
  }

  lemma {:induction false} GroupedIsProper(t: Tree, policy: string -> Option<Reason>)
    requires Proper(t)
    ensures Proper(Grouped(t)) && WellGrouped(Grouped(t)) && Evaluate(Grouped(t), policy) == Evaluate(t, policy)
  {
    match t
    case Leaf(_) =>
    case Group(e) => GroupedIsProper(e, policy);
    case Node(_, _, l, r) =>
      GroupedIsProper(l, policy);
      GroupedIsProper(r, policy);
  }

  /** Every tree, printed with the brackets it needs, is accepted exactly when it holds. */
  lemma AcceptedExactly(t: Tree, policy: string -> Option<Reason>)
    requires Proper(t)
    ensures Classify(Print(Grouped(t)), policy) == Evaluate(t, policy)
    ensures Classify(Print(Grouped(t)), policy).None? <==> Holds(t, policy)
  {
    GroupedIsProper(t, policy);
    ClassifyPrinted(Grouped(t), policy);
    AcceptedIffHolds(t, policy);
  }
}
