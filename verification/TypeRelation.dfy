/**
 * The structural subtype test, and that it is sound: a type accepted as assignable admits no
 * value the other does not.
 */
module TypeRelation {
  import opened Prelude
  import opened TypeSyntax
  import opened TypeParser
  import opened TypePrinter
  import opened TypeMeaning
  import opened TypeOrder

  predicate LiteralFitsKeyword(text: string, keyword: string) {
    if keyword == "string" then StartsWith(text, '\'')
    else if keyword == "number" then IsDigits(text)
    else if keyword == "boolean" then text == "true" || text == "false"
    else false
  }

  /** First field with this name. */
  function FindField(fs: seq<Field>, name: string): (r: Option<nat>)
    ensures r.Some? ==> r.value < |fs| && fs[r.value].name == name
    ensures r.None? ==> forall i :: 0 <= i < |fs| ==> fs[i].name != name
  {
    if fs == [] then None
    else if fs[0].name == name then Some(0)
    else
      var r := FindField(fs[1..], name);
      if r.Some? then Some(r.value + 1) else None
  }

  predicate IsAssignable(le: Comparison, from: TypeAst, to: TypeAst)
    decreases from, to
  {
    if Canonical(le, from) == Canonical(le, to) then true
    else if from == Keyword("never") then true
    else if to == Keyword("any") || to == Keyword("unknown") then true
    else if from.Union? then forall i :: 0 <= i < |from.members| ==> IsAssignable(le, from.members[i], to)
    else if to.Union? then exists i :: 0 <= i < |to.members| && IsAssignable(le, from, to.members[i])
    else if from.Literal? && to.Keyword? then LiteralFitsKeyword(from.text, to.name)
    else if from.Array? && to.Array? then
      (!from.readonly || to.readonly) && IsAssignable(le, from.element, to.element)
    else if from.Object? && to.Object? then
      forall i :: 0 <= i < |to.fields| ==>
        var found := FindField(from.fields, to.fields[i].name);
        && found.Some?
        && (to.fields[i].required ==> from.fields[found.value].required)
        && IsAssignable(le, from.fields[found.value].typ, to.fields[i].typ)
    else if from.Ref? && to.Ref? && from.name == to.name && |from.args| == |to.args| then
      forall i :: 0 <= i < |from.args| ==> IsAssignable(le, from.args[i], to.args[i])
    else false
  }

  /** Generic types admit at least as much when their arguments do. */
  ghost predicate Monotone(env: Env) {
    forall name, xs, ys ::
      |xs| == |ys| && (forall i :: 0 <= i < |xs| ==> xs[i] <= ys[i]) ==> env.named(name, xs) <= env.named(name, ys)
  }

  // ---------------------------------------------------------------- soundness

  lemma {:induction false} HasSomeAt(env: Env, ts: seq<TypeAst>, v: Value) returns (k: nat)
    requires HasSome(env, ts, v)
    ensures k < |ts| && Has(env, ts[k], v)
  {
    if Has(env, ts[0], v) { return 0; }
    var j := HasSomeAt(env, ts[1..], v);
    k := j + 1;
  }

  lemma {:induction false} AtHasSome(env: Env, ts: seq<TypeAst>, k: nat, v: Value)
    requires k < |ts| && Has(env, ts[k], v)
    ensures HasSome(env, ts, v)
  {
    if k > 0 { AtHasSome(env, ts[1..], k - 1, v); }
  }

  lemma {:induction false} FieldAt(env: Env, fs: seq<Field>, m: map<string, Value>, k: nat)
    requires FieldsHold(env, fs, m) && k < |fs|
    ensures FieldHolds(env, fs[k], m)
  {
    if k > 0 { FieldAt(env, fs[1..], m, k - 1); }
  }

  lemma {:induction false} FieldsFromEach(env: Env, fs: seq<Field>, m: map<string, Value>)
    requires forall k :: 0 <= k < |fs| ==> FieldHolds(env, fs[k], m)
    ensures FieldsHold(env, fs, m)
  {
    if fs != [] {
      FieldsFromEach(env, fs[1..], m);
    }
  }

  lemma {:induction false} MeaningAllAt(env: Env, ts: seq<TypeAst>, k: nat)
    requires k < |ts|
    ensures MeaningAll(env, ts)[k] == Meaning(env, ts[k])
  {
    if k > 0 { MeaningAllAt(env, ts[1..], k - 1); }
  }

  lemma LiteralFits(env: Env, text: string, keyword: string, v: Value)
    requires (IsLiteralWord(text) || IsQuoted(text)) && LiteralFitsKeyword(text, keyword) && HasLiteral(text, v)
    ensures HasKeyword(env, keyword, v)
  {
    assert IsDigits(text) ==> '0' <= text[0] <= '9';
  }

  /** Every value of an assignable type is a value of the type it is assignable to. */
  lemma {:induction false} AssignableIsSound(env: Env, le: Comparison, from: TypeAst, to: TypeAst, v: Value)
    requires Monotone(env) && Printable(from) && Printable(to)
    requires IsAssignable(le, from, to) && Has(env, from, v)
    ensures Has(env, to, v)
    decreases from, to
  {
    if Canonical(le, from) == Canonical(le, to) {
      CanonicalDecides(env, le, from, to);
    } else if from == Keyword("never") || to == Keyword("any") || to == Keyword("unknown") {
    } else if from.Union? {
      var k := HasSomeAt(env, from.members, v);
      AssignableIsSound(env, le, from.members[k], to, v);
    } else if to.Union? {
      var k: nat :| k < |to.members| && IsAssignable(le, from, to.members[k]);
      AssignableIsSound(env, le, from, to.members[k], v);
      AtHasSome(env, to.members, k, v);
    } else if from.Literal? && to.Keyword? {
      LiteralFits(env, from.text, to.name, v);
    } else if from.Array? && to.Array? {
      forall x | x in v.items ensures Has(env, to.element, x) {
        AssignableIsSound(env, le, from.element, to.element, x);
      }
    } else if from.Object? && to.Object? {
      ObjectIsSound(env, le, from, to, v);
    } else {
      RefIsSound(env, le, from, to, v);
    }
  }

  lemma {:induction false} ObjectIsSound(env: Env, le: Comparison, from: TypeAst, to: TypeAst, v: Value)
    requires Monotone(env) && Printable(from) && Printable(to) && from.Object? && to.Object?
    requires Canonical(le, from) != Canonical(le, to)
    requires IsAssignable(le, from, to) && Has(env, from, v)
    ensures Has(env, to, v)
    decreases from, to, 0
  {
    forall k | 0 <= k < |to.fields| ensures FieldHolds(env, to.fields[k], v.entries) {
      var field := to.fields[k];
      var found := FindField(from.fields, field.name).value;
      FieldAt(env, from.fields, v.entries, found);
      if field.name in v.entries {
        AssignableIsSound(env, le, from.fields[found].typ, field.typ, v.entries[field.name]);
      }
    }
    FieldsFromEach(env, to.fields, v.entries);
  }

  lemma {:induction false} RefIsSound(env: Env, le: Comparison, from: TypeAst, to: TypeAst, v: Value)
    requires Monotone(env) && Printable(from) && Printable(to)
    requires from.Ref? && to.Ref? && from.name == to.name && |from.args| == |to.args|
    requires forall i :: 0 <= i < |from.args| ==> IsAssignable(le, from.args[i], to.args[i])
    requires Has(env, from, v)
    ensures Has(env, to, v)
    decreases from, to, 0
  {
    var xs, ys := MeaningAll(env, from.args), MeaningAll(env, to.args);
    forall i | 0 <= i < |xs| ensures xs[i] <= ys[i] {
      MeaningAllAt(env, from.args, i);
      MeaningAllAt(env, to.args, i);
      forall x | x in xs[i] ensures x in ys[i] {
        AssignableIsSound(env, le, from.args[i], to.args[i], x);
      }
    }
    assert env.named(from.name, xs) <= env.named(from.name, ys);
  }
}
