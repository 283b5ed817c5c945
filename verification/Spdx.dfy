/**
 * The licence-expression classifier: it splits a text at its outermost OR, else at its outermost
 * AND, and asks the licence policy about what is left. Shown here: on every printed AND/OR tree it
 * answers what the tree evaluates to, with AND binding tighter than OR (Annex D of SPDX 2.3).
 */
module Spdx {
  import opened Prelude
  import opened Text

  function UpperChar(c: char): char {
    if 'a' <= c <= 'z' then ((c as int - 32) as char) else c
  }

  /** The needle from its `k`-th letter on stands at `i`, in any case. */
  predicate Matches(s: string, i: nat, needle: string, k: nat)
    requires k <= |needle|
    ensures Matches(s, i, needle, k) && i <= |s| ==> i + |needle| - k <= |s|
    decreases |needle| - k
  {
    k == |needle| || (i < |s| && UpperChar(s[i]) == needle[k] && Matches(s, i + 1, needle, k + 1))
  }

  predicate At(s: string, i: nat, needle: string)
    requires i <= |s|
  {
    Matches(s, i, needle, 0)
  }

  /** The needle stands there exactly when each of its letters does. */
  lemma {:induction false} MatchesIff(s: string, i: nat, needle: string, k: nat)
    requires k <= |needle| && i <= |s|
    ensures Matches(s, i, needle, k) <==>
      i + |needle| - k <= |s| && forall j :: k <= j < |needle| ==> UpperChar(s[i + j - k]) == needle[j]
    decreases |needle| - k
  {
    if k < |needle| && i < |s| { MatchesIff(s, i + 1, needle, k + 1); }
  }

  function Weight(c: char): int {
    if c == '(' then 1 else if c == ')' then -1 else 0
  }

  // ---------------------------------------------------------------- the classifier

  /** The first bracket closes at the very end: from position `i` on, `depth` brackets open. */
  predicate BalancedFrom(s: string, i: nat, depth: int)
    requires i <= |s|
    decreases |s| - i
  {
    if i == |s| then depth == 0
    else
      var d := depth + Weight(s[i]);
      d >= 0 && (d == 0 ==> i == |s| - 1) && BalancedFrom(s, i + 1, d)
  }

  predicate Bracketed(s: string) {
    |s| > 0 && s[0] == '(' && s[|s| - 1] == ')' && BalancedFrom(s, 0, 0)
  }

  function Peel(t: string): (r: string)
    ensures |r| <= |t|
    decreases |t|
  {
    if Bracketed(t) then
      Peel(Trim(t[1..|t| - 1]))
    else t
  }

  /** Outer blanks and brackets removed. */
  function Unwrap(s: string): (r: string)
    ensures |r| <= |s|
  {
    Peel(Trim(s))
  }

  /** Where a scan stops, and the brackets then open. */
  datatype Found = Found(at: nat, depth: int)

  /** The next needle outside brackets, or the end of the text. */
  function NextCut(s: string, needle: string, i: nat, depth: int): (f: Found)
    requires i <= |s|
    ensures i <= f.at <= |s| && (f.at < |s| ==> At(s, f.at, needle))
    decreases |s| - i
  {
    if i == |s| then Found(i, depth)
    else
      var d := depth + Weight(s[i]);
      if d == 0 && At(s, i, needle) then Found(i, 0) else NextCut(s, needle, i + 1, d)
  }

  /** A stretch of the text. */
  datatype Span = Span(low: nat, high: nat)

  /** The stretches from `start` on between needles outside brackets. An open bracket swallows the last one. */
  function Cut(s: string, needle: string, start: nat): List<Span>
    requires needle != [] && start <= |s|
    decreases |s| - start
  {
    var f := NextCut(s, needle, start, 0);
    if f.at < |s| then Cons(Span(start, f.at), Cut(s, needle, f.at + |needle|))
    else if f.depth == 0 then Cons(Span(start, |s|), Nil) else Nil
  }

  function Push(text: string, rest: List<string>): List<string> {
    if |text| == 0 then rest else Cons(text, rest)
  }

  /** The stretches' texts, trimmed, without the blank ones. */
  function Collect(s: string, spans: List<Span>): List<string> {
    match spans
    case Nil => Nil
    case Cons(span, rest) => Push(TrimSlice(s, span.low, span.high), Collect(s, rest))
  }

  const OR := " OR "
  const AND := " AND "
  const WITH := " WITH "

  /** Each stretch is shorter than `bound`. */
  predicate Narrow(spans: List<Span>, bound: nat) {
    spans.Cons? ==> spans.head.high - spans.head.low < bound && Narrow(spans.tail, bound)
  }

  predicate Below(parts: List<string>, bound: nat) {
    parts.Cons? ==> |parts.head| < bound && Below(parts.tail, bound)
  }

  lemma {:induction false} SpansNarrow(s: string, needle: string, start: nat, bound: nat)
    requires needle != [] && start <= |s| && |s| - start < bound
    ensures Narrow(Cut(s, needle, start), bound)
    decreases |s| - start
  {
    var f := NextCut(s, needle, start, 0);
    if f.at < |s| { SpansNarrow(s, needle, f.at + |needle|, bound); }
  }

  lemma {:induction false} CollectBelow(s: string, spans: List<Span>, bound: nat)
    requires Narrow(spans, bound) && bound > 0
    ensures Below(Collect(s, spans), bound)
  {
    if spans.Cons? { CollectBelow(s, spans.tail, bound); }
  }

  predicate Several(parts: List<string>) {
    parts.Cons? && parts.tail.Cons?
  }

  /** Several parts are each shorter than the text. */
  lemma PartsShorten(s: string, needle: string)
    requires needle != []
    ensures var parts := Collect(s, Cut(s, needle, 0)); Several(parts) ==> Below(parts, |s|)
  {
    var f := NextCut(s, needle, 0, 0);
    if f.at < |s| {
      SpansNarrow(s, needle, f.at + |needle|, |s|);
      CollectBelow(s, Cut(s, needle, 0), |s|);
    } else {
      assert Collect(s, Nil) == Nil;
    }
  }

  lemma {:induction false} BelowMore(parts: List<string>, small: nat, bound: nat)
    requires Below(parts, small) && small <= bound
    ensures Below(parts, bound)
  {
    if parts.Cons? { BelowMore(parts.tail, small, bound); }
  }

  /** The parts around the outermost operators; none when there is only one part. Each is shorter than the text. */
  function SplitTopLevel(s: string, needle: string): (parts: List<string>)
    requires needle != []
    ensures Below(parts, |s|)
  {
    var u := Unwrap(s);
    var parts := Collect(u, Cut(u, needle, 0));
    if Several(parts) then
      PartsShorten(u, needle);
      BelowMore(parts, |u|, |s|);
      parts
    else Nil
  }

  function IndexOf(s: string, needle: string, i: nat): (r: Option<nat>)
    requires i <= |s|
    ensures r.Some? ==> i <= r.value <= |s| && At(s, r.value, needle)
    decreases |s| - i
  {
    if At(s, i, needle) then Some(i) else if i == |s| then None else IndexOf(s, needle, i + 1)
  }

  function StripWithException(s: string): string {
    var at := IndexOf(s, WITH, 0);
    if at.None? then Trim(s) else Trim(s[..at.value])
  }

  /** Why a licence is refused. */
  datatype Reason = CopyleftProduction | MplProduction | Custom

  predicate HasAccepted(results: List<Option<Reason>>) {
    results.Cons? && (results.head.None? || HasAccepted(results.tail))
  }

  /** Accepted with one accepted part, else refused as the first part is. */
  function AnyAccepted(results: List<Option<Reason>>): Option<Reason> {
    if results.Nil? || HasAccepted(results) then None else results.head
  }

  function FirstRefusal(results: List<Option<Reason>>): Option<Reason> {
    if results.Nil? then None else if results.head.Some? then results.head else FirstRefusal(results.tail)
  }

  /** The classifier. `policy` is the verdict on one licence name; `None` accepts. */
  function Classify(s: string, policy: string -> Option<Reason>): Option<Reason>
    decreases |s|
  {
    var ors := SplitTopLevel(s, OR);
    if ors.Cons? then AnyAccepted(ClassifyEach(ors, policy, |s|))
    else
      var ands := SplitTopLevel(s, AND);
      if ands.Cons? then FirstRefusal(ClassifyEach(ands, policy, |s|))
      else policy(StripWithException(Unwrap(s)))
  }

  function ClassifyEach(parts: List<string>, policy: string -> Option<Reason>, ghost bound: nat): List<Option<Reason>>
    requires Below(parts, bound)
    decreases bound, parts
  {
    match parts
    case Nil => Nil
    case Cons(p, rest) => Cons(Classify(p, policy), ClassifyEach(rest, policy, bound))
  }

  // ---------------------------------------------------------------- the source's loops

  method Balanced(s: string) returns (yes: bool)
    ensures yes == BalancedFrom(s, 0, 0)
  {
    var depth := 0;
    for i := 0 to |s|
      invariant BalancedFrom(s, i, depth) == BalancedFrom(s, 0, 0)
    {
      if s[i] == '(' { depth := depth + 1; }
      if s[i] == ')' { depth := depth - 1; }
      if depth < 0 { return false; }
      if depth == 0 && i < |s| - 1 { return false; }
    }
    yes := depth == 0;
  }

  method UnwrapParens(s: string) returns (r: string)
    ensures r == Unwrap(s)
  {
    r := Trim(s);
    while |r| > 0 && r[0] == '(' && r[|r| - 1] == ')'
      invariant Peel(r) == Unwrap(s)
      decreases |r|
    {
      var yes := Balanced(r);
      if !yes { break; }
      r := Trim(r[1..|r| - 1]);
    }
  }

  /** The scan for the next operator outside brackets. */
  method FindCut(s: string, needle: string, start: nat) returns (f: Found)
    requires start <= |s|
    ensures f == NextCut(s, needle, start, 0)
  {
    var depth := 0;
    for i := start to |s|
      invariant NextCut(s, needle, i, depth) == NextCut(s, needle, start, 0)
    {
      if s[i] == '(' { depth := depth + 1; }
      if s[i] == ')' { depth := depth - 1; }
      if depth == 0 && At(s, i, needle) { return Found(i, 0); }
    }
    f := Found(|s|, depth);
  }

  /** The piece is kept unless it is blank. */
  method PushPiece(parts: seq<string>, text: string, ghost rest: List<string>) returns (r: seq<string>)
    ensures Onto(r, rest) == Onto(parts, Push(text, rest))
  {
    OntoPush(parts, text, rest);
    r := if |text| > 0 then parts + [text] else parts;
  }

  /** The pieces from `start` on. */
  function PiecesFrom(s: string, needle: string, start: nat): List<string>
    requires needle != []
  {
    if start <= |s| then Collect(s, Cut(s, needle, start)) else Nil
  }

  lemma NextPiece(s: string, needle: string, start: nat, f: Found)
    requires needle != [] && start <= |s| && f == NextCut(s, needle, start, 0) && f.at < |s|
    ensures PiecesFrom(s, needle, start) == Push(TrimSlice(s, start, f.at), PiecesFrom(s, needle, f.at + |needle|))
  {
  }

  lemma LastPiece(s: string, needle: string, start: nat, f: Found)
    requires needle != [] && start <= |s| && f == NextCut(s, needle, start, 0) && f.at == |s|
    ensures PiecesFrom(s, needle, start) == if f.depth == 0 then Push(TrimSlice(s, start, |s|), Nil) else Nil
  {
    assert Collect(s, Nil) == Nil;
  }

  method NextCutPiece(s: string, needle: string, start: nat, parts: seq<string>) returns (f: Found, more: seq<string>)
    requires needle != [] && start <= |s|
    ensures f == NextCut(s, needle, start, 0)
    ensures f.at < |s| ==> Onto(more, PiecesFrom(s, needle, f.at + |needle|)) == Onto(parts, PiecesFrom(s, needle, start))
    ensures f.at == |s| ==> Onto(more, Nil) == Onto(parts, PiecesFrom(s, needle, start))
  {
    f := FindCut(s, needle, start);
    more := parts;
    if f.at < |s| {
      NextPiece(s, needle, start, f);
      more := PushPiece(parts, TrimSlice(s, start, f.at), PiecesFrom(s, needle, f.at + |needle|));
    } else {
      LastPiece(s, needle, start, f);
      if f.depth == 0 { more := PushPiece(parts, TrimSlice(s, start, |s|), Nil); }
    }
  }

  method CutLoop(s: string, needle: string) returns (parts: seq<string>)
    requires needle != []
    ensures Onto(parts, Nil) == PiecesFrom(s, needle, 0)
  {
    ghost var all := PiecesFrom(s, needle, 0);
    var f;
    f, parts := NextCutPiece(s, needle, 0, []);
    while f.at < |s|
      invariant f.at <= |s| && (f.at < |s| ==> f.at + |needle| <= |s|)
      invariant if f.at < |s| then Onto(parts, PiecesFrom(s, needle, f.at + |needle|)) == all else Onto(parts, Nil) == all
      decreases |s| - f.at
    {
      f, parts := NextCutPiece(s, needle, f.at + |needle|, parts);
    }
  }

  method SplitLoop(s: string, needle: string) returns (parts: seq<string>)
    requires needle != []
    ensures Onto(parts, Nil) == SplitTopLevel(s, needle)
  {
    var u := UnwrapParens(s);
    parts := CutLoop(u, needle);
    OntoSize(parts);
    if |parts| <= 1 { parts := []; }
  }

  method ClassifySpdxExpression(s: string, policy: string -> Option<Reason>) returns (r: Option<Reason>)
    ensures r == Classify(s, policy)
    decreases |s|
  {
    var ors := SplitLoop(s, OR);
    OntoSize(ors);
    if |ors| > 0 {
      r := ClassifyAnyOf(ors, policy, |s|);
    } else {
      var ands := SplitLoop(s, AND);
      OntoSize(ands);
      if |ands| > 0 {
        r := ClassifyAllOf(ands, policy, |s|);
      } else {
        var text := UnwrapParens(s);
        r := policy(StripWithException(text));
      }
    }
  }

  method ClassifyAnyOf(ors: seq<string>, policy: string -> Option<Reason>, ghost bound: nat) returns (r: Option<Reason>)
    requires |ors| > 0 && Below(Onto(ors, Nil), bound)
    ensures r == AnyAccepted(ClassifyEach(Onto(ors, Nil), policy, bound))
    decreases bound, 0
  {
    OntoFront(ors, Nil);
    r := ClassifySpdxExpression(ors[0], policy);
    var accepted := r.None?;
    ghost var all := ClassifyEach(Onto(ors, Nil), policy, bound);
    for i := 1 to |ors|
      invariant Below(Onto(ors[i..], Nil), bound)
      invariant HasAccepted(all) <==> accepted || HasAccepted(ClassifyEach(Onto(ors[i..], Nil), policy, bound))
    {
      OntoFront(ors[i..], Nil);
      assert ors[i..][1..] == ors[i + 1..];
      var one := ClassifySpdxExpression(ors[i], policy);
      accepted := accepted || one.None?;
    }
    assert Onto(ors[|ors|..], Nil) == Nil;
    if accepted { r := None; }
  }

  method ClassifyAllOf(ands: seq<string>, policy: string -> Option<Reason>, ghost bound: nat) returns (r: Option<Reason>)
    requires Below(Onto(ands, Nil), bound)
    ensures r == FirstRefusal(ClassifyEach(Onto(ands, Nil), policy, bound))
    decreases bound, 0
  {
    ghost var all := ClassifyEach(Onto(ands, Nil), policy, bound);
    assert ands[0..] == ands;
    for i := 0 to |ands|
      invariant Below(Onto(ands[i..], Nil), bound)
      invariant FirstRefusal(all) == FirstRefusal(ClassifyEach(Onto(ands[i..], Nil), policy, bound))
    {
      OntoFront(ands[i..], Nil);
      assert ands[i..][1..] == ands[i + 1..];
      r := ClassifySpdxExpression(ands[i], policy);
      if r.Some? { return; }
    }
    assert Onto(ands[|ands|..], Nil) == Nil;
    r := None;
  }
}
