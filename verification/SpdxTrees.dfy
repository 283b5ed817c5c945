/**
 * Licence trees, their printed form, and what a scan of the printed form finds. An operator is
 * written in any case, between single blanks.
 */
module SpdxTrees {
  import opened Prelude
  import opened Text
  import opened Spdx

  datatype Op = And | Or

  predicate Letter(c: char) {
    'A' <= UpperChar(c) <= 'Z'
  }

  /** Letters between single blanks. */
  predicate Glue(w: string) {
    |w| >= 3 && w[0] == ' ' && w[|w| - 1] == ' ' && forall k :: 0 < k < |w| - 1 ==> Letter(w[k])
  }

  /** An operator as written, blanks included. */
  type Operator = w: string | Glue(w) witness " OR "

  /** No blank at either end, and no brackets. */
  predicate Inked(p: string) {
    |p| > 0 && !White(p[0]) && !White(p[|p| - 1]) && forall k :: 0 <= k < |p| ==> Weight(p[k]) == 0
  }

  type LeafText = p: string | Inked(p) witness "MIT"

  /** A leaf is a licence, with its exception if it has one. */
  datatype Tree =
    | Leaf(text: LeafText)
    | Node(op: Op, word: Operator, left: Tree, right: Tree)
    | Group(inner: Tree)

  function Print(t: Tree): string {
    match t
    case Leaf(text) => text
    case Node(_, word, l, r) => Print(l) + word + Print(r)
    case Group(e) => "(" + Print(e) + ")"
  }

  /** Between blanks the text shows no needle. */
  predicate Clear(p: string, needle: string) {
    forall k: nat :: k <= |p| ==> !At(" " + p + " ", k, needle)
  }

  predicate Fits(t: Tree, needle: Operator) {
    match t
    case Leaf(text) => Clear(text, needle)
    case Node(_, _, l, r) => Fits(l, needle) && Fits(r, needle)
    case Group(e) => Fits(e, needle)
  }

  // ---------------------------------------------------------------- positions

  /** `p` stands in `s` at `i`. */
  predicate Here(s: string, i: nat, p: string) {
    i + |p| <= |s| && forall k :: 0 <= k < |p| ==> s[i + k] == p[k]
  }

  /** A text ends here. */
  predicate Stop(s: string, j: nat) {
    j == |s| || (j < |s| && (s[j] == ' ' || s[j] == ')'))
  }

  /** How much room the printed tree takes. */
  function Width(t: Tree): nat {
    match t
    case Leaf(text) => |text|
    case Node(_, word, l, r) => Width(l) + |word| + Width(r)
    case Group(e) => Width(e) + 2
  }

  /** The printed tree stands in `s` at `i`, part by part. */
  predicate Laid(t: Tree, s: string, i: nat)
    ensures Laid(t, s, i) ==> i + Width(t) <= |s|
  {
    match t
    case Leaf(text) => Here(s, i, text)
    case Node(_, word, l, r) => Laid(l, s, i) && Here(s, i + Width(l), word) && Laid(r, s, i + Width(l) + |word|)
    case Group(e) => Laid(e, s, i + 1) && i + Width(e) + 1 < |s| && s[i] == '(' && s[i + 1 + Width(e)] == ')'
  }

  lemma HereSplit(s: string, i: nat, p: string, q: string)
    requires Here(s, i, p + q)
    ensures Here(s, i, p) && Here(s, i + |p|, q)
  {
    forall k | 0 <= k < |p| ensures s[i + k] == p[k] { assert (p + q)[k] == p[k]; }
    forall k | 0 <= k < |q| ensures s[i + |p| + k] == q[k] { assert (p + q)[|p| + k] == q[k]; }
  }

  lemma HereSplit3(s: string, i: nat, p: string, q: string, r: string)
    requires Here(s, i, p + q + r)
    ensures Here(s, i, p) && Here(s, i + |p|, q) && Here(s, i + |p| + |q|, r)
  {
    HereSplit(s, i, p + q, r);
    HereSplit(s, i, p, q);
  }

  lemma {:induction false} PrintedIsLaid(t: Tree, s: string, i: nat)
    requires Here(s, i, Print(t))
    ensures Laid(t, s, i) && Width(t) == |Print(t)|
  {
    match t
    case Leaf(_) =>
    case Node(_, word, l, r) =>
      HereSplit3(s, i, Print(l), word, Print(r));
      PrintedIsLaid(l, s, i);
      PrintedIsLaid(r, s, i + |Print(l)| + |word|);
    case Group(e) =>
      HereSplit3(s, i, "(", Print(e), ")");
      assert s[i + 0] == "("[0] && s[i + 1 + |Print(e)| + 0] == ")"[0];
      PrintedIsLaid(e, s, i + 1);
  }

  lemma OwnText(t: Tree)
    ensures Laid(t, Print(t), 0) && Width(t) == |Print(t)|
  {
    PrintedIsLaid(t, Print(t), 0);
  }

  lemma InkedHere(p: LeafText, s: string, i: nat)
    requires Here(s, i, p)
    ensures !White(s[i]) && !White(s[i + |p| - 1]) && forall k :: i <= k < i + |p| ==> Weight(s[k]) == 0
  {
    forall k | i <= k < i + |p| ensures Weight(s[k]) == 0 { assert s[i + (k - i)] == p[k - i]; }
    assert s[i + 0] == p[0] && s[i + (|p| - 1)] == p[|p| - 1];
  }

  /** The printed tree starts and ends with ink. */
  lemma {:induction false} LaidEnds(t: Tree, s: string, i: nat)
    requires Laid(t, s, i)
    ensures Width(t) > 0 && !White(s[i]) && !White(s[i + Width(t) - 1])
  {
    match t
    case Leaf(text) => InkedHere(text, s, i);
    case Group(_) =>
    case Node(_, word, l, r) =>
      LaidEnds(l, s, i);
      LaidEnds(r, s, i + Width(l) + |word|);
  }

  lemma TrimLaid(t: Tree, s: string, i: nat)
    requires Laid(t, s, i)
    ensures TrimSlice(s, i, i + Width(t)) == s[i..i + Width(t)] && Width(t) > 0
  {
    LaidEnds(t, s, i);
  }

  // ---------------------------------------------------------------- brackets

  /** With a bracket open at `i`, what stands up to `j` does not matter to the balance. */
  ghost predicate Passes(s: string, i: nat, j: nat)
    requires i <= |s| && j <= |s|
  {
    forall d :: d > 0 ==> BalancedFrom(s, i, d) == BalancedFrom(s, j, d)
  }

  lemma PassesTrans(s: string, i: nat, j: nat, m: nat, end: nat)
    requires i <= |s| && j <= |s| && m <= |s| && end <= |s| && Passes(s, i, j) && Passes(s, j, m) && Passes(s, m, end)
    ensures Passes(s, i, end)
  {
  }

  lemma PassesGroup(s: string, i: nat, j: nat)
    requires i + 1 <= j < |s| && s[i] == '(' && s[j] == ')' && Passes(s, i + 1, j)
    ensures Passes(s, i, j + 1)
  {
    forall d | d > 0 ensures BalancedFrom(s, i, d) == BalancedFrom(s, j + 1, d) {
      assert BalancedFrom(s, i + 1, d + 1) == BalancedFrom(s, j, d + 1);
    }
  }

  lemma {:induction false} PassesPlain(s: string, i: nat, j: nat)
    requires i <= j <= |s| && forall k :: i <= k < j ==> Weight(s[k]) == 0
    ensures Passes(s, i, j)
    decreases j - i
  {
    if i < j {
      PassesPlain(s, i + 1, j);
      forall d | d > 0 ensures BalancedFrom(s, i, d) == BalancedFrom(s, j, d) {
        assert BalancedFrom(s, i + 1, d) == BalancedFrom(s, j, d);
      }
    }
  }

  lemma GlueHere(word: Operator, s: string, i: nat)
    requires Here(s, i, word)
    ensures s[i] == ' ' && s[i + |word| - 1] == ' '
    ensures forall k :: i < k < i + |word| - 1 ==> s[k] != ' '
    ensures forall k :: i <= k < i + |word| ==> Weight(s[k]) == 0
  {
    forall k | i <= k < i + |word| ensures Weight(s[k]) == 0 && (i < k < i + |word| - 1 ==> s[k] != ' ') {
      assert s[i + (k - i)] == word[k - i];
    }
    assert s[i + 0] == word[0] && s[i + (|word| - 1)] == word[|word| - 1];
  }

  /** A printed tree never closes a bracket it did not open. */
  lemma {:induction false} TreePasses(t: Tree, s: string, i: nat)
    requires Laid(t, s, i)
    ensures Passes(s, i, i + Width(t))
  {
    match t
    case Leaf(text) =>
      InkedHere(text, s, i);
      PassesPlain(s, i, i + |text|);
    case Group(e) =>
      TreePasses(e, s, i + 1);
      PassesGroup(s, i, i + 1 + Width(e));
    case Node(op, word, l, r) =>
      var j, m := i + Width(l), i + Width(l) + |word|;
      TreePasses(l, s, i);
      GlueHere(word, s, j);
      PassesPlain(s, j, m);
      TreePasses(r, s, m);
      PassesTrans(s, i, j, m, i + Width(t));
  }

  /** A group closes where it ends, and not before. */
  lemma GroupCloses(e: Tree, s: string)
    requires Laid(e, s, 1) && 1 + Width(e) < |s| && s[0] == '(' && s[1 + Width(e)] == ')'
    ensures BalancedFrom(s, 0, 0) <==> Width(e) + 2 == |s|
  {
    TreePasses(e, s, 1);
    assert BalancedFrom(s, 1, 1) == BalancedFrom(s, 1 + Width(e), 1);
    assert BalancedFrom(s, |s|, 0);
  }

  /** A printed tree with text after it is not one bracketed text. */
  lemma {:induction false} NotBalancedEarly(t: Tree, s: string)
    requires Laid(t, s, 0) && Width(t) < |s|
    ensures !BalancedFrom(s, 0, 0)
  {
    match t
    case Leaf(text) => InkedHere(text, s, 0);
    case Group(e) => GroupCloses(e, s);
    case Node(op, word, l, r) => NotBalancedEarly(l, s);
  }

  lemma BracketedIffGroup(t: Tree, s: string)
    requires Laid(t, s, 0) && Width(t) == |s|
    ensures Bracketed(s) <==> t.Group?
  {
    match t
    case Leaf(text) => InkedHere(text, s, 0);
    case Group(e) => GroupCloses(e, s);
    case Node(_, word, l, r) => NotBalancedEarly(l, s);
  }

  function Core(t: Tree): Tree {
    if t.Group? then Core(t.inner) else t
  }

  lemma {:induction false} CoreFits(t: Tree, needle: Operator)
    requires Fits(t, needle)
    ensures Fits(Core(t), needle) && !Core(t).Group?
  {
    if t.Group? { CoreFits(t.inner, needle); }
  }

  lemma TrimInk(s: string)
    requires |s| > 0 && !White(s[0]) && !White(s[|s| - 1])
    ensures Trim(s) == s
  {
  }

  lemma TrimPrinted(t: Tree)
    ensures Trim(Print(t)) == Print(t)
  {
    OwnText(t);
    LaidEnds(t, Print(t), 0);
    TrimInk(Print(t));
  }

  lemma {:induction false} PeelPrinted(t: Tree)
    ensures Peel(Print(t)) == Print(Core(t))
  {
    OwnText(t);
    BracketedIffGroup(t, Print(t));
    if t.Group? {
      TrimPrinted(t.inner);
      assert Print(t)[1..|Print(t)| - 1] == Print(t.inner);
      PeelPrinted(t.inner);
    }
  }

  /** Unwrapping removes exactly the outer groups. */
  lemma UnwrapPrinted(t: Tree)
    ensures Unwrap(Print(t)) == Print(Core(t))
  {
    TrimPrinted(t);
    PeelPrinted(t);
  }

  // ---------------------------------------------------------------- where the scan cuts

  lemma AtLetter(s: string, i: nat, needle: Operator, k: nat)
    requires i <= |s| && At(s, i, needle) && k < |needle|
    ensures i + |needle| <= |s| && UpperChar(s[i + k]) == needle[k]
  {
    MatchesIff(s, i, needle, 0);
    assert UpperChar(s[i + k - 0]) == needle[k];
  }

  lemma OnlyBlankStarts(s: string, k: nat, needle: Operator)
    requires k < |s| && s[k] != ' '
    ensures !At(s, k, needle)
  {
  }

  lemma IsAt(s: string, i: nat, needle: Operator)
    requires i + |needle| <= |s| && forall k :: 0 <= k < |needle| ==> UpperChar(s[i + k]) == needle[k]
    ensures At(s, i, needle)
  {
    MatchesIff(s, i, needle, 0);
    assert forall k :: 0 <= k < |needle| ==> UpperChar(s[i + k - 0]) == needle[k];
  }

  /** Nor does a clear text in `s`, together with the blank before it. */
  lemma ClearHere(p: LeafText, needle: Operator, s: string, i: nat, at: nat)
    requires Clear(p, needle) && Here(s, i, p) && Stop(s, i + |p|)
    requires i <= at < i + |p| || (at == i - 1 && s[at] == ' ')
    ensures !At(s, at, needle)
  {
    if At(s, at, needle) {
      var q := " " + p + " ";
      var last := at + |needle| - 1;
      AtLetter(s, at, needle, |needle| - 1);
      if at < i + |p| < last {
        AtLetter(s, at, needle, i + |p| - at);
        assert false;
      }
      forall k | 0 <= k < |needle| ensures UpperChar(q[at - i + 1 + k]) == needle[k] {
        AtLetter(s, at, needle, k);
        var x := at - i + k;
        assert x == -1 || 0 <= x < |p| || x == |p|;
        assert q[x + 1] == if 0 <= x < |p| then p[x] else ' ';
        if 0 <= x < |p| { assert s[i + x] == p[x]; }
      }
      IsAt(q, at - i + 1, needle);
    }
  }

  lemma {:induction false} TreeIsNoOperator(t: Tree, needle: Operator, s: string, i: nat)
    requires Fits(t, needle) && i > 0 && Laid(t, s, i) && Stop(s, i + Width(t)) && s[i - 1] == ' '
    ensures !At(s, i - 1, needle)
  {
    match t
    case Leaf(text) =>
      ClearHere(text, needle, s, i, i - 1);
    case Group(e) =>
      if At(s, i - 1, needle) { AtLetter(s, i - 1, needle, 1); }
    case Node(_, word, l, r) =>
      GlueHere(word, s, i + Width(l));
      TreeIsNoOperator(l, needle, s, i);
  }

  /** No bracket, and no cut, from `i` to `j`. */
  predicate Plain(s: string, needle: Operator, i: nat, j: nat, depth: int)
    requires j <= |s|
  {
    forall k :: i <= k < j ==> Weight(s[k]) == 0 && (depth != 0 || !At(s, k, needle))
  }

  lemma LeafIsPlain(p: LeafText, needle: Operator, s: string, i: nat, depth: int)
    requires Clear(p, needle) && Here(s, i, p) && Stop(s, i + |p|)
    ensures Plain(s, needle, i, i + |p|, depth)
  {
    InkedHere(p, s, i);
    forall k | i <= k < i + |p| ensures !At(s, k, needle) { ClearHere(p, needle, s, i, k); }
  }

  /** Another operator is no cut, when what follows it is no operator. */
  lemma OtherIsPlain(word: Operator, needle: Operator, s: string, i: nat, depth: int)
    requires Here(s, i, word)
    requires depth != 0 || (UpperChar(word[1]) != needle[1] && !At(s, i + |word| - 1, needle))
    ensures Plain(s, needle, i, i + |word|, depth)
  {
    GlueHere(word, s, i);
    forall k | i <= k < i + |word| ensures depth != 0 || !At(s, k, needle) {
      if k == i {
        if At(s, i, needle) {
          AtLetter(s, i, needle, 1);
          assert s[i + 1] == word[1];
        }
      } else if k < i + |word| - 1 {
        OnlyBlankStarts(s, k, needle);
      }
    }
  }

  datatype Crossing = Uncut | CutInside

  /** Whether the scan gets from `i` to `j` without cutting. */
  ghost function Cross(s: string, needle: Operator, i: nat, j: nat, depth: int): Crossing
    requires i <= |s| && j <= |s|
  {
    if forall d :: d == depth ==> NextCut(s, needle, i, d) == NextCut(s, needle, j, d) then Uncut else CutInside
  }

  lemma CrossTrans(s: string, needle: Operator, i: nat, j: nat, m: nat, end: nat, depth: int)
    requires i <= |s| && j <= |s| && m <= |s| && end <= |s|
    requires Cross(s, needle, i, j, depth) == Uncut && Cross(s, needle, j, m, depth) == Uncut && Cross(s, needle, m, end, depth) == Uncut
    ensures Cross(s, needle, i, end, depth) == Uncut
  {
  }

  lemma CrossGroup(s: string, needle: Operator, i: nat, j: nat, depth: int)
    requires i + 1 <= j < |s| && s[i] == '(' && s[j] == ')' && depth >= 0
    requires Cross(s, needle, i + 1, j, depth + 1) == Uncut
    ensures Cross(s, needle, i, j + 1, depth) == Uncut
  {
    OnlyBlankStarts(s, j, needle);
    assert NextCut(s, needle, i + 1, depth + 1) == NextCut(s, needle, j, depth + 1);
  }

  lemma {:induction false} PlainCrosses(s: string, needle: Operator, i: nat, j: nat, depth: int)
    requires i <= j <= |s| && Plain(s, needle, i, j, depth)
    ensures Cross(s, needle, i, j, depth) == Uncut
    decreases j - i
  {
    if i < j {
      PlainCrosses(s, needle, i + 1, j, depth);
      assert NextCut(s, needle, i + 1, depth) == NextCut(s, needle, j, depth);
    }
  }

  /** Outside brackets the tree shows no operator that starts like the needle. */
  predicate Solid(t: Tree, needle: Operator) {
    t.Node? ==> (|t.word| > 1 && |needle| > 1 ==> UpperChar(t.word[1]) != needle[1]) && Solid(t.left, needle) && Solid(t.right, needle)
  }

  datatype Fit = Good | Bad

  /** The tree stands at `i`, ends where a word may end, and no operator in it is cut at this depth. */
  function Judge(t: Tree, needle: Operator, s: string, i: nat, depth: nat): Fit {
    if Fits(t, needle) && Laid(t, s, i) && Stop(s, i + Width(t)) && (depth == 0 ==> Solid(t, needle)) then Good else Bad
  }

  lemma GoodNode(t: Tree, needle: Operator, s: string, i: nat, depth: nat) returns (j: nat)
    requires t.Node? && Judge(t, needle, s, i, depth) == Good
    ensures j == i + Width(t.left) && j + |t.word| + Width(t.right) <= |s|
    ensures Cross(s, needle, j, j + |t.word|, depth) == Uncut
    ensures Judge(t.left, needle, s, i, depth) == Good && Judge(t.right, needle, s, j + |t.word|, depth) == Good
  {
    j := i + Width(t.left);
    GlueHere(t.word, s, j);
    TreeIsNoOperator(t.right, needle, s, j + |t.word|);
    OtherIsPlain(t.word, needle, s, j, depth);
    PlainCrosses(s, needle, j, j + |t.word|, depth);
  }

  lemma GoodInner(t: Tree, needle: Operator, s: string, i: nat, depth: nat)
    requires t.Group? && Judge(t, needle, s, i, depth) == Good
    ensures Judge(t.inner, needle, s, i + 1, depth + 1) == Good
    ensures i + 1 + Width(t.inner) < |s| && s[i] == '(' && s[i + 1 + Width(t.inner)] == ')'
  {
  }

  lemma GoodLeaf(t: Tree, needle: Operator, s: string, i: nat, depth: nat)
    requires t.Leaf? && Judge(t, needle, s, i, depth) == Good
    ensures i + Width(t) <= |s| && Cross(s, needle, i, i + Width(t), depth) == Uncut
  {
    LeafIsPlain(t.text, needle, s, i, depth);
    PlainCrosses(s, needle, i, i + |t.text|, depth);
  }

  /** The scan goes over a printed tree without cutting it. */
  lemma {:induction false} TreeCrosses(t: Tree, needle: Operator, s: string, i: nat, depth: nat)
    requires Judge(t, needle, s, i, depth) == Good
    ensures i + Width(t) <= |s| && Cross(s, needle, i, i + Width(t), depth) == Uncut
  {
    match t
    case Leaf(_) =>
      GoodLeaf(t, needle, s, i, depth);
    case Group(e) =>
      GoodInner(t, needle, s, i, depth);
      TreeCrosses(e, needle, s, i + 1, depth + 1);
      CrossGroup(s, needle, i, i + 1 + Width(e), depth);
    case Node(_, word, l, r) =>
      var j := GoodNode(t, needle, s, i, depth);
      TreeCrosses(l, needle, s, i, depth);
      TreeCrosses(r, needle, s, j + |word|, depth);
      CrossTrans(s, needle, i, j, j + |word|, i + Width(t), depth);
  }

  // ---------------------------------------------------------------- what is cut

  /** The printed operands of the outermost chain of one operator, in front of `rest`. */
  function Texts(t: Tree, op: Op, rest: List<string>): List<string> {
    if t.Node? && t.op == op then Texts(t.left, op, Texts(t.right, op, rest)) else Cons(Print(t), rest)
  }

  /** Where those operands stand, when the tree stands at `i`. */
  function SpansOf(t: Tree, op: Op, i: nat, rest: List<Span>): List<Span> {
    if t.Node? && t.op == op then SpansOf(t.left, op, i, SpansOf(t.right, op, i + Width(t.left) + |t.word|, rest))
    else Cons(Span(i, i + Width(t)), rest)
  }

  /** In the chain of `op` each operator is the needle, and each operand is solid. */
  predicate Chain(t: Tree, op: Op, needle: Operator) {
    if t.Node? && t.op == op then
      |t.word| == |needle| && At(t.word, 0, needle) && Chain(t.left, op, needle) && Chain(t.right, op, needle)
    else Solid(t, needle)
  }

  /** What is left to cut after a tree that ends at `j`. */
  function CutAfter(s: string, needle: Operator, j: nat): List<Span>
  {
    if j + |needle| <= |s| then Cut(s, needle, j + |needle|) else Nil
  }

  /** At `j` the text ends, or the needle stands. */
  predicate CutsAt(s: string, needle: Operator, j: nat) {
    j == |s| || (j < |s| && At(s, j, needle))
  }

  lemma WordCuts(word: Operator, needle: Operator, s: string, j: nat)
    requires |word| == |needle| > 0 && At(word, 0, needle) && Here(s, j, word)
    ensures CutsAt(s, needle, j)
  {
    forall k | 0 <= k < |needle| ensures UpperChar(s[j + k]) == needle[k] {
      AtLetter(word, 0, needle, k);
      assert s[j + k] == word[k];
    }
    IsAt(s, j, needle);
  }

  lemma CutOne(t: Tree, needle: Operator, s: string, i: nat)
    requires Fits(t, needle) && Solid(t, needle) && Laid(t, s, i) && CutsAt(s, needle, i + Width(t))
    ensures Cut(s, needle, i) == Cons(Span(i, i + Width(t)), CutAfter(s, needle, i + Width(t)))
  {
    var j := i + Width(t);
    if j < |s| { AtLetter(s, j, needle, 0); }
    TreeCrosses(t, needle, s, i, 0);
    CutThere(s, needle, i, j);
  }

  lemma CutThere(s: string, needle: Operator, i: nat, j: nat)
    requires i <= j <= |s| && Cross(s, needle, i, j, 0) == Uncut
    requires CutsAt(s, needle, j) && (j < |s| ==> Weight(s[j]) == 0)
    ensures Cut(s, needle, i) == Cons(Span(i, j), CutAfter(s, needle, j))
  {
    assert NextCut(s, needle, i, 0) == NextCut(s, needle, j, 0);
  }

  /** The tree stands at `i`, is a chain of the needle, and is followed by a cut. */
  predicate Ready(t: Tree, op: Op, needle: Operator, s: string, i: nat) {
    Fits(t, needle) && Chain(t, op, needle) && Laid(t, s, i) && CutsAt(s, needle, i + Width(t))
  }

  lemma ReadyOperands(t: Tree, op: Op, needle: Operator, s: string, i: nat)
    requires Ready(t, op, needle, s, i) && t.Node? && t.op == op
    ensures Ready(t.left, op, needle, s, i) && Ready(t.right, op, needle, s, i + Width(t.left) + |t.word|)
    ensures |t.word| == |needle|
  {
    WordCuts(t.word, needle, s, i + Width(t.left));
  }

  /** The cut finds exactly those places. */
  ghost predicate CutIs(t: Tree, op: Op, needle: Operator, s: string, i: nat) {
    forall k: nat :: k == i && k <= |s| ==> Cut(s, needle, k) == SpansOf(t, op, k, CutAfter(s, needle, k + Width(t)))
  }

  lemma CutNode(t: Tree, op: Op, needle: Operator, s: string, i: nat)
    requires t.Node? && t.op == op && |t.word| == |needle| && i + Width(t) <= |s|
    requires CutIs(t.left, op, needle, s, i) && CutIs(t.right, op, needle, s, i + Width(t.left) + |t.word|)
    ensures CutIs(t, op, needle, s, i)
  {
    var m := i + Width(t.left) + |t.word|;
    assert Cut(s, needle, m) == SpansOf(t.right, op, m, CutAfter(s, needle, m + Width(t.right)));
  }

  lemma {:induction false} CutParts(t: Tree, op: Op, needle: Operator, s: string, i: nat)
    requires Ready(t, op, needle, s, i)
    ensures CutIs(t, op, needle, s, i)
  {
    if t.Node? && t.op == op {
      ReadyOperands(t, op, needle, s, i);
      CutParts(t.left, op, needle, s, i);
      CutParts(t.right, op, needle, s, i + Width(t.left) + |t.word|);
      CutNode(t, op, needle, s, i);
    } else {
      CutOne(t, needle, s, i);
    }
  }

  lemma HereSlice(s: string, i: nat, p: string)
    requires Here(s, i, p)
    ensures s[i..i + |p|] == p
  {
  }

  lemma TextHere(t: Tree, s: string, i: nat)
    requires Here(s, i, Print(t))
    ensures TrimSlice(s, i, i + Width(t)) == Print(t) && |Print(t)| > 0
  {
    PrintedIsLaid(t, s, i);
    HereSlice(s, i, Print(t));
    TrimLaid(t, s, i);
  }

  lemma NodeHere(t: Tree, s: string, i: nat)
    requires t.Node? && Here(s, i, Print(t))
    ensures Here(s, i, Print(t.left)) && Here(s, i + Width(t.left) + |t.word|, Print(t.right))
  {
    HereSplit3(s, i, Print(t.left), t.word, Print(t.right));
    PrintedIsLaid(t.left, s, i);
  }

  lemma CollectOne(t: Tree, s: string, i: nat, rest: List<Span>)
    requires Here(s, i, Print(t))
    ensures Collect(s, Cons(Span(i, i + Width(t)), rest)) == Cons(Print(t), Collect(s, rest))
  {
    TextHere(t, s, i);
  }

  /** The operands of the chain stand at their places. */
  predicate OperandsHere(t: Tree, op: Op, s: string, i: nat) {
    if t.Node? && t.op == op then
      OperandsHere(t.left, op, s, i) && OperandsHere(t.right, op, s, i + Width(t.left) + |t.word|)
    else Here(s, i, Print(t))
  }

  lemma {:induction false} OperandsStand(t: Tree, op: Op, s: string, i: nat)
    requires Here(s, i, Print(t))
    ensures OperandsHere(t, op, s, i)
  {
    if t.Node? && t.op == op {
      NodeHere(t, s, i);
      OperandsStand(t.left, op, s, i);
      OperandsStand(t.right, op, s, i + Width(t.left) + |t.word|);
    }
  }

  /** The texts at those places are the printed operands. */
  lemma {:induction false} CollectParts(t: Tree, op: Op, s: string, i: nat, rest: List<Span>)
    requires OperandsHere(t, op, s, i)
    ensures Collect(s, SpansOf(t, op, i, rest)) == Texts(t, op, Collect(s, rest))
  {
    if t.Node? && t.op == op {
      var m := i + Width(t.left) + |t.word|;
      CollectParts(t.left, op, s, i, SpansOf(t.right, op, m, rest));
      CollectParts(t.right, op, s, m, rest);
    } else {
      CollectOne(t, s, i, rest);
    }
  }

  lemma SplitText(t: Tree, op: Op, needle: Operator, s: string)
    requires Fits(t, needle) && Chain(t, op, needle) && s == Print(t)
    ensures Collect(s, Cut(s, needle, 0)) == Texts(t, op, Nil)
  {
    OwnText(t);
    CutParts(t, op, needle, s, 0);
    assert Cut(s, needle, 0) == SpansOf(t, op, 0, CutAfter(s, needle, Width(t)));
    OperandsStand(t, op, s, 0);
    CollectParts(t, op, s, 0, Nil);
  }

  lemma {:induction false} TextsCons(t: Tree, op: Op, rest: List<string>)
    ensures Texts(t, op, rest).Cons?
    ensures t.Node? && t.op == op ==> Several(Texts(t, op, rest))
  {
    if t.Node? && t.op == op {
      TextsCons(t.right, op, rest);
      TextsPush(t.left, op, Texts(t.right, op, rest));
    }
  }

  lemma {:induction false} TextsPush(t: Tree, op: Op, rest: List<string>)
    requires rest.Cons?
    ensures Several(Texts(t, op, rest))
  {
    if t.Node? && t.op == op {
      TextsPush(t.right, op, rest);
      TextsPush(t.left, op, Texts(t.right, op, rest));
    }
  }

  /** Splitting a printed tree gives the printed operands of its outermost chain. */
  lemma SplitPrinted(t: Tree, op: Op, needle: Operator)
    requires Fits(t, needle) && Chain(Core(t), op, needle)
    ensures var c := Core(t);
      SplitTopLevel(Print(t), needle) == if c.Node? && c.op == op then Texts(c, op, Nil) else Nil
  {
    CoreFits(t, needle);
    UnwrapPrinted(t);
    SplitText(Core(t), op, needle, Print(Core(t)));
    TextsCons(Core(t), op, Nil);
  }
}
