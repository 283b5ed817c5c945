/**
 * The subtype test is not only sound. On types built from literals, the keywords with fixed
 * values, unions, arrays and objects it accepts every pair in which one type admits all values
 * of the other, up to the shapes that `Source` and `Target` leave out.
 */
module TypeComplete {
  import opened Prelude
  import opened TypeSyntax
  import opened TypeParser
  import opened TypePrinter
  import opened TypeMeaning
  import opened TypeOrder
  import opened TypeRelation

  const FIXED_KEYWORDS: set<string> := {"string", "number", "boolean", "null", "undefined", "never", "any", "unknown"}

  predicate Top(t: TypeAst) {
    t == Keyword("any") || t == Keyword("unknown")
  }

  /** `never`, or a union of nothing else. */
  predicate Void(t: TypeAst) {
    match t
    case Keyword(name) => name == "never"
    case Union(members) => forall m :: m in members ==> Void(m)
    case _ => false
  }

  predicate DistinctNames(fs: seq<Field>) {
    forall i, j :: 0 <= i < j < |fs| ==> fs[i].name != fs[j].name
  }

  /** Written without `readonly`, and no required field is `never`. */
  predicate Source(t: TypeAst) {
    match t
    case Keyword(name) => name in FIXED_KEYWORDS
    case Literal(text) => IsLiteralWord(text) || IsQuoted(text)
    case Union(members) => forall m :: m in members ==> Source(m)
    case Array(element, readonly) => !readonly && Source(element)
    case Object(fields) =>
      DistinctNames(fields) && forall f :: f in fields ==> Source(f.typ) && (f.required ==> !Void(f.typ))
    case _ => false
  }

  /** Admits no value outside the language's own kinds. */
  predicate Topless(t: TypeAst) {
    !Top(t) && (t.Union? ==> forall m :: m in t.members ==> !Top(m))
  }

  /**
   * A union is flat, has at most one object, and does not spell out `boolean` without naming
   * it; and no optional field admits everything.
   */
  predicate Target(t: TypeAst) {
    match t
    case Keyword(name) => name in FIXED_KEYWORDS
    case Literal(text) => IsLiteralWord(text) || IsQuoted(text)
    case Union(members) =>
      && (Literal("true") in members && Literal("false") in members ==> Keyword("boolean") in members || exists m :: m in members && Top(m))
      && (forall m :: m in members ==> Target(m) && !m.Union?)
      && (forall i, j :: 0 <= i < j < |members| ==> !(members[i].Object? && members[j].Object?))
    case Array(element, _) => Target(element)
    case Object(fields) => forall f :: f in fields ==> Target(f.typ) && (!f.required ==> Topless(f.typ))
    case _ => false
  }

  // ---------------------------------------------------------------- values of a type

  /** The value of a literal. */
  function LiteralValue(text: string): Value {
    if text == "true" || text == "false" then Bool(text == "true")
    else if IsDigits(text) then Num(text)
    else Str(Decode(if |text| >= 2 then text[1..|text| - 1] else ""))
  }

  lemma LiteralHas(env: Env, text: string, v: Value)
    requires IsLiteralWord(text) || IsQuoted(text)
    ensures Has(env, Literal(text), v) <==> v == LiteralValue(text)
  {
  }

  /** Two literals with one value are one text. */
  lemma LiteralTexts(a: string, b: string)
    requires (IsLiteralWord(a) || IsQuoted(a)) && (IsLiteralWord(b) || IsQuoted(b)) && LiteralValue(a) == LiteralValue(b)
    ensures a == b
  {
    assert IsQuoted(a) ==> a[0] == '\'';
    assert IsQuoted(b) ==> b[0] == '\'';
  }

  lemma {:induction false} AddField(env: Env, fs: seq<Field>, m: map<string, Value>, name: string, x: Value)
    requires FieldsHold(env, fs, m) && forall i :: 0 <= i < |fs| ==> fs[i].name != name
    ensures FieldsHold(env, fs, m[name := x]) && FieldsHold(env, fs, m - {name})
  {
    forall k | 0 <= k < |fs| ensures FieldHolds(env, fs[k], m[name := x]) && FieldHolds(env, fs[k], m - {name}) {
      FieldAt(env, fs, m, k);
    }
    FieldsFromEach(env, fs, m[name := x]);
    FieldsFromEach(env, fs, m - {name});
  }

  /** One field of an object changes its value, or goes if it is optional. */
  lemma ChangeField(env: Env, fs: seq<Field>, m: map<string, Value>, k: nat, x: Value)
    requires FieldsHold(env, fs, m) && k < |fs| && DistinctNames(fs)
    ensures Has(env, fs[k].typ, x) ==> FieldsHold(env, fs, m[fs[k].name := x])
    ensures !fs[k].required ==> FieldsHold(env, fs, m - {fs[k].name})
  {
    var more, less := m[fs[k].name := x], m - {fs[k].name};
    forall i | 0 <= i < |fs|
      ensures Has(env, fs[k].typ, x) ==> FieldHolds(env, fs[i], more)
      ensures !fs[k].required ==> FieldHolds(env, fs[i], less)
    {
      FieldAt(env, fs, m, i);
      assert i != k ==> fs[i].name != fs[k].name;
    }
    if Has(env, fs[k].typ, x) { FieldsFromEach(env, fs, more); }
    if !fs[k].required { FieldsFromEach(env, fs, less); }
  }

  /** What is not void has a value. */
  lemma {:induction false} Inhabitant(env: Env, t: TypeAst) returns (v: Value)
    requires Source(t) && !Void(t)
    ensures Has(env, t, v)
    decreases t
  {
    match t
    case Keyword(name) =>
      v := if name == "string" then Str("") else if name == "number" then Num("") else if name == "boolean" then Bool(true)
        else if name == "null" then Null else Undefined;
    case Literal(text) => v := LiteralValue(text);
    case Union(members) =>
      var m :| m in members && !Void(m);
      var k :| 0 <= k < |members| && members[k] == m;
      v := Inhabitant(env, m);
      AtHasSome(env, members, k, v);
    case Array(_, _) => v := Arr([]);
    case Object(fields) =>
      var entries := Entries(env, fields);
      v := Obj(entries);
  }

  lemma {:induction false} Entries(env: Env, fs: seq<Field>) returns (m: map<string, Value>)
    requires DistinctNames(fs) && forall f :: f in fs ==> Source(f.typ) && (f.required ==> !Void(f.typ))
    ensures FieldsHold(env, fs, m)
    decreases fs
  {
    if fs == [] { return map[]; }
    var rest := Entries(env, fs[1..]);
    assert forall i :: 0 <= i < |fs[1..]| ==> fs[1..][i] == fs[i + 1] && fs[1..][i].name != fs[0].name;
    AddField(env, fs[1..], rest, fs[0].name, Null);
    if fs[0].required {
      var x := Inhabitant(env, fs[0].typ);
      AddField(env, fs[1..], rest, fs[0].name, x);
      m := rest[fs[0].name := x];
    } else {
      m := rest - {fs[0].name};
    }
  }

  // ---------------------------------------------------------------- which member of a union

  lemma OtherIsTop(env: Env, t: TypeAst)
    requires Target(t) && !t.Union? && Has(env, t, Other(""))
    ensures Top(t)
  {
  }

  lemma OtherNeedsTop(env: Env, t: TypeAst)
    requires Target(t) && Has(env, t, Other(""))
    ensures !Topless(t)
  {
    if t.Union? {
      var k := HasSomeAt(env, t.members, Other(""));
      OtherIsTop(env, t.members[k]);
    } else {
      OtherIsTop(env, t);
    }
  }

  /** A text that none of these literals is about. */
  lemma {:induction false} FreshText(ms: seq<TypeAst>) returns (s: string)
    ensures forall m :: m in ms && m.Literal? ==> LiteralValue(m.text) != Str(s) && LiteralValue(m.text) != Num(s)
  {
    s := "";
    for i := 0 to |ms|
      invariant forall j :: 0 <= j < i && ms[j].Literal? ==> |ms[j].text| < |s|
    {
      if ms[i].Literal? && |ms[i].text| >= |s| { s := s + Spaces(|ms[i].text| + 1); }
    }
    forall m | m in ms && m.Literal? ensures LiteralValue(m.text) != Str(s) && LiteralValue(m.text) != Num(s) {
      if |m.text| >= 2 { DecodeShorter(m.text[1..|m.text| - 1]); }
    }
  }

  function Spaces(n: nat): (s: string)
    ensures |s| == n
  {
    if n == 0 then "" else " " + Spaces(n - 1)
  }

  lemma {:induction false} DecodeShorter(raw: string)
    ensures |Decode(raw)| <= |raw|
    decreases |raw|
  {
    if raw != "" {
      if raw[0] != '\\' { DecodeShorter(raw[1..]); } else if |raw| > 1 { DecodeShorter(raw[2..]); }
    }
  }

  /** A value of the keyword that no literal with other texts than `s` has, and for `boolean` the given one. */
  function Sample(name: string, s: string, flag: bool): Value {
    if name == "string" then Str(s) else if name == "number" then Num(s) else if name == "boolean" then Bool(flag)
    else if name == "null" then Null else if name == "undefined" then Undefined else Other("")
  }

  lemma NotSample(text: string, name: string, s: string, flag: bool)
    requires (IsLiteralWord(text) || IsQuoted(text)) && text != (if flag then "true" else "false")
    requires LiteralValue(text) != Str(s) && LiteralValue(text) != Num(s)
    ensures LiteralValue(text) != Sample(name, s, flag)
  {
  }

  /** The keyword's values are not all those of finitely many literals, so the union has the keyword itself. */
  lemma KeywordMember(env: Env, name: string, to: TypeAst) returns (k: nat)
    requires name in FIXED_KEYWORDS && name != "never" && Target(to) && to.Union? && Covers(env, to, Keyword(name))
    ensures k < |to.members| && Covers(env, to.members[k], Keyword(name))
  {
    if j :| 0 <= j < |to.members| && (to.members[j] == Keyword(name) || Top(to.members[j])) { return j; }
    var s := FreshText(to.members);
    var v := Sample(name, s, Literal("true") !in to.members);
    assert Has(env, Keyword(name), v);
    k := HasSomeAt(env, to.members, v);
    if to.members[k].Literal? { NotSample(to.members[k].text, name, s, Literal("true") !in to.members); }
    KeywordOnly(env, name, to.members[k], v);
  }

  lemma KeywordOnly(env: Env, name: string, m: TypeAst, v: Value)
    requires name in FIXED_KEYWORDS && name != "never" && Target(m) && !m.Union? && Has(env, m, v)
    requires Has(env, Keyword(name), v) && (m.Literal? ==> LiteralValue(m.text) != v) && (name in {"any", "unknown"} ==> v == Other(""))
    ensures m == Keyword(name) || Top(m)
  {
    if m.Literal? { LiteralHas(env, m.text, v); }
  }

  /** Elements of `e`, one outside each of these arrays' element types. */
  lemma {:induction false} Outsiders(env: Env, e: TypeAst, ms: seq<TypeAst>) returns (items: seq<Value>)
    requires forall i :: 0 <= i < |ms| && ms[i].Array? ==> !Covers(env, ms[i].element, e)
    ensures forall x :: x in items ==> Has(env, e, x)
    ensures forall i :: 0 <= i < |ms| && ms[i].Array? ==> exists x :: x in items && !Has(env, ms[i].element, x)
  {
    items := [];
    for i := 0 to |ms|
      invariant forall x :: x in items ==> Has(env, e, x)
      invariant forall j :: 0 <= j < i && ms[j].Array? ==> exists x :: x in items && !Has(env, ms[j].element, x)
    {
      if ms[i].Array? {
        var x :| Has(env, e, x) && !Has(env, ms[i].element, x);
        ghost var before := items;
        items := items + [x];
        assert x in items && forall y :: y in before ==> y in items;
      }
    }
  }

  lemma KindOf(env: Env, m: TypeAst, v: Value)
    requires Target(m) && !m.Union? && Has(env, m, v)
    ensures v.Arr? ==> m.Array? || Top(m)
    ensures v.Obj? ==> m.Object? || Top(m)
  {
    if m.Literal? { LiteralHas(env, m.text, v); }
  }

  lemma ArrayMember(env: Env, from: TypeAst, to: TypeAst) returns (k: nat)
    requires from.Array? && Target(to) && to.Union? && Covers(env, to, from)
    ensures k < |to.members| && Covers(env, to.members[k], from)
  {
    if i :| 0 <= i < |to.members| && to.members[i].Array? && Covers(env, to.members[i].element, from.element) {
      k := i;
    } else {
      var items := Outsiders(env, from.element, to.members);
      assert Has(env, from, Arr(items));
      k := HasSomeAt(env, to.members, Arr(items));
      KindOf(env, to.members[k], Arr(items));
    }
  }

  lemma ObjectMember(env: Env, from: TypeAst, to: TypeAst) returns (k: nat)
    requires from.Object? && Source(from) && Target(to) && to.Union? && Covers(env, to, from)
    ensures k < |to.members| && Covers(env, to.members[k], from)
  {
    var v0 := Inhabitant(env, from);
    k := HasSomeAt(env, to.members, v0);
    if j :| 0 <= j < |to.members| && Top(to.members[j]) {
      k := j;
    } else {
      forall v | Has(env, from, v) ensures Has(env, to.members[k], v) {
        var j := HasSomeAt(env, to.members, v);
        KindOf(env, to.members[j], v);
        KindOf(env, to.members[k], v0);
        assert j == k;
      }
    }
  }

  /** A type that is no union and within a union is within one of its members. */
  lemma OneMember(env: Env, from: TypeAst, to: TypeAst) returns (k: nat)
    requires Source(from) && !from.Union? && from != Keyword("never") && Target(to) && to.Union? && Covers(env, to, from)
    ensures k < |to.members| && Covers(env, to.members[k], from)
  {
    match from
    case Keyword(name) => k := KeywordMember(env, name, to);
    case Literal(text) =>
      LiteralHas(env, text, LiteralValue(text));
      k := HasSomeAt(env, to.members, LiteralValue(text));
      forall v | Has(env, from, v) ensures Has(env, to.members[k], v) { LiteralHas(env, text, v); }
    case Array(_, _) => k := ArrayMember(env, from, to);
    case Object(_) => k := ObjectMember(env, from, to);
  }

  // ---------------------------------------------------------------- completeness

  /** Between two types that are no unions: they are of one kind, and their parts fit. */
  lemma AtomFits(env: Env, le: Comparison, from: TypeAst, to: TypeAst)
    requires (from.Keyword? || from.Literal?) && Source(from) && from != Keyword("never")
    requires Target(to) && !to.Union? && !Top(to) && Covers(env, to, from)
    ensures from == to || (from.Literal? && to.Keyword? && LiteralFitsKeyword(from.text, to.name))
  {
    if from.Literal? {
      LiteralHas(env, from.text, LiteralValue(from.text));
      assert Has(env, to, LiteralValue(from.text));
      if to.Literal? {
        LiteralHas(env, to.text, LiteralValue(from.text));
        LiteralTexts(from.text, to.text);
      } else {
        assert IsQuoted(from.text) ==> from.text[0] == '\'';
      }
    } else {
      KeywordInside(env, from.name, to);
    }
  }

  lemma KeywordInside(env: Env, name: string, to: TypeAst)
    requires name in FIXED_KEYWORDS && name != "never" && Target(to) && !to.Union? && !Top(to) && Covers(env, to, Keyword(name))
    ensures to == Keyword(name)
  {
    var s := FreshText([to]);
    var v := Sample(name, s, to != Literal("true"));
    assert Has(env, Keyword(name), v);
    assert to in [to];
    if to.Literal? { NotSample(to.text, name, s, to != Literal("true")); }
    KeywordOnly(env, name, to, v);
  }

  /** A field of the target object has a field of the source object that fits it. */
  lemma FieldFits(env: Env, from: TypeAst, to: TypeAst, i: nat) returns (k: nat)
    requires from.Object? && Source(from) && to.Object? && Target(to) && Covers(env, to, from) && i < |to.fields|
    ensures FindField(from.fields, to.fields[i].name) == Some(k) && k < |from.fields|
    ensures to.fields[i].required ==> from.fields[k].required
    ensures Covers(env, to.fields[i].typ, from.fields[k].typ)
  {
    var g := to.fields[i];
    var m := Entries(env, from.fields);
    var found := FindField(from.fields, g.name);
    NotMissing(env, from, to, i, m);
    k := found.value;
    var f := from.fields[k];
    ChangeField(env, from.fields, m, k, Null);
    if !f.required { Inside(env, from, to, i, m - {f.name}); }
    forall x | Has(env, f.typ, x) ensures Has(env, g.typ, x) {
      ChangeField(env, from.fields, m, k, x);
      Inside(env, from, to, i, m[f.name := x]);
    }
  }

  lemma Inside(env: Env, from: TypeAst, to: TypeAst, i: nat, m: map<string, Value>)
    requires from.Object? && to.Object? && Covers(env, to, from) && i < |to.fields| && FieldsHold(env, from.fields, m)
    ensures FieldHolds(env, to.fields[i], m)
  {
    assert Has(env, from, Obj(m)) && Has(env, to, Obj(m));
    FieldAt(env, to.fields, m, i);
  }

  lemma NotMissing(env: Env, from: TypeAst, to: TypeAst, i: nat, m: map<string, Value>)
    requires from.Object? && to.Object? && Target(to) && Covers(env, to, from) && i < |to.fields| && FieldsHold(env, from.fields, m)
    ensures FindField(from.fields, to.fields[i].name).Some?
  {
    var g := to.fields[i];
    if FindField(from.fields, g.name).None? {
      AddField(env, from.fields, m, g.name, Other(""));
      Inside(env, from, to, i, m - {g.name});
      Inside(env, from, to, i, m[g.name := Other("")]);
      OtherNeedsTop(env, g.typ);
      assert false;
    }
  }

  /** On this fragment, a type whose values are all values of the other is accepted as assignable to it. */
  lemma {:induction false} AssignableIsComplete(env: Env, le: Comparison, from: TypeAst, to: TypeAst)
    requires Source(from) && Target(to) && Covers(env, to, from)
    ensures IsAssignable(le, from, to)
    decreases from, to
  {
    if Canonical(le, from) == Canonical(le, to) || from == Keyword("never") || Top(to) {
    } else if from.Union? {
      forall i | 0 <= i < |from.members| ensures IsAssignable(le, from.members[i], to) {
        forall v | Has(env, from.members[i], v) ensures Has(env, to, v) { AtHasSome(env, from.members, i, v); }
        AssignableIsComplete(env, le, from.members[i], to);
      }
    } else if to.Union? {
      var k := OneMember(env, from, to);
      AssignableIsComplete(env, le, from, to.members[k]);
    } else if from.Array? {
      ArrayFits(env, from, to);
      AssignableIsComplete(env, le, from.element, to.element);
    } else if from.Object? {
      ObjectFits(env, from, to);
      forall i | 0 <= i < |to.fields|
        ensures var found := FindField(from.fields, to.fields[i].name);
          found.Some? && (to.fields[i].required ==> from.fields[found.value].required) &&
          IsAssignable(le, from.fields[found.value].typ, to.fields[i].typ)
      {
        var k := FieldFits(env, from, to, i);
        AssignableIsComplete(env, le, from.fields[k].typ, to.fields[i].typ);
      }
    } else {
      AtomFits(env, le, from, to);
    }
  }

  lemma ArrayFits(env: Env, from: TypeAst, to: TypeAst)
    requires from.Array? && Target(to) && !to.Union? && !Top(to) && Covers(env, to, from)
    ensures to.Array? && Covers(env, to.element, from.element)
  {
    assert Has(env, from, Arr([])) && Has(env, to, Arr([]));
    KindOf(env, to, Arr([]));
    forall x | Has(env, from.element, x) ensures Has(env, to.element, x) {
      assert Has(env, from, Arr([x])) && x in Arr([x]).items;
    }
  }

  lemma ObjectFits(env: Env, from: TypeAst, to: TypeAst)
    requires from.Object? && Source(from) && Target(to) && !to.Union? && !Top(to) && Covers(env, to, from)
    ensures to.Object?
  {
    var v := Inhabitant(env, from);
    KindOf(env, to, v);
  }

  /** So on this fragment the test decides inclusion. */
  lemma AssignableExactly(env: Env, le: Comparison, from: TypeAst, to: TypeAst)
    requires Monotone(env) && Printable(from) && Printable(to) && Source(from) && Target(to)
    ensures IsAssignable(le, from, to) <==> Covers(env, to, from)
  {
    if Covers(env, to, from) { AssignableIsComplete(env, le, from, to); }
    if IsAssignable(le, from, to) {
      forall v | Has(env, from, v) ensures Has(env, to, v) { AssignableIsSound(env, le, from, to, v); }
    }
  }

  // ---------------------------------------------------------------- what the fragment leaves out

  /** `boolean` is within `true | false`, and not assignable to it. */
  lemma BooleanSpelledOut(env: Env, le: Comparison)
    ensures var t := Union([Literal("true"), Literal("false")]);
      Covers(env, t, Keyword("boolean")) && !IsAssignable(le, Keyword("boolean"), t)
  {
    var ms := [Literal("true"), Literal("false")];
    forall v: Value | v.Bool? ensures HasSome(env, ms, v) { AtHasSome(env, ms, if v.flag then 0 else 1, v); }
    PrintedFirst(le, ms[0], ms[1]);
    assert Canonical(le, Keyword("boolean"))[0] == 'b';
    assert !IsAssignable(le, Keyword("boolean"), ms[0]) && !IsAssignable(le, Keyword("boolean"), ms[1]);
  }

  lemma PrintedFirst(le: Comparison, a: TypeAst, b: TypeAst)
    requires a.Literal? && b.Literal? && a.text != "" && b.text != ""
    ensures var c := Canonical(le, Union([a, b])); c != "" && (c[0] == a.text[0] || c[0] == b.text[0])
  {
    assert [a, b][1..] == [b] && [b][1..] == [];
    assert OrderMembers(le, [b]) == [b];
    var ordered := InsertMember(le, a, [b]);
    assert OrderMembers(le, [a, b]) == ordered;
    assert ordered == [a, b] || ordered == [b] + InsertMember(le, a, []);
    assert PrintJoined(ordered, " | ")[0] == Print(ordered[0])[0];
  }

  /** Arrays have the same values with and without `readonly`, and only one way is accepted. */
  lemma ReadonlyMatters(env: Env, le: Comparison)
    ensures var a, b := Array(Keyword("number"), true), Array(Keyword("number"), false);
      Covers(env, b, a) && Covers(env, a, b) && !IsAssignable(le, a, b) && IsAssignable(le, b, a)
  {
    assert Canonical(le, Array(Keyword("number"), true))[0] == 'R' && Canonical(le, Array(Keyword("number"), false))[0] == 'A';
  }

  /** An object without a value is within everything, and not assignable. */
  lemma RequiredNever(env: Env, le: Comparison)
    ensures var a := Object([Field("a", true, Keyword("never"))]);
      Covers(env, Keyword("string"), a) && !IsAssignable(le, a, Keyword("string"))
  {
    var fs := [Field("a", true, Keyword("never"))];
    forall v | Has(env, Object(fs), v) ensures false { FieldAt(env, fs, v.entries, 0); }
    assert Canonical(le, Object(fs))[0] == '{' && Canonical(le, Keyword("string"))[0] == 's';
  }

  /** An optional field of any type asks for nothing, and is missed all the same. */
  lemma OptionalUnknown(env: Env, le: Comparison)
    ensures var a, b := Object([]), Object([Field("a", false, Keyword("unknown"))]);
      Covers(env, b, a) && !IsAssignable(le, a, b)
  {
    var fs := [Field("a", false, Keyword("unknown"))];
    forall v: Value | v.Obj? ensures FieldsHold(env, fs, v.entries) { assert fs[1..] == []; }
    assert Canonical(le, Object([])) == "{  }";
    assert OrderFields(le, fs) == [Field("a", false, Keyword("unknown"))] by { assert fs[1..] == []; }
    assert Canonical(le, Object(fs)) == "{ " + PrintFields(fs) + " }";
    assert PrintFields(fs)[0] == 'a';
  }

  /** A choice inside an object is not matched against a choice of objects. */
  lemma TwoObjects(env: Env, le: Comparison)
    ensures var one, two := Literal("1"), Literal("2");
      var a, b := Object([Field("a", true, Union([one, two]))]), Union([Object([Field("a", true, one)]), Object([Field("a", true, two)])]);
      Covers(env, b, a) && !IsAssignable(le, a, b)
  {
    var one, two := Literal("1"), Literal("2");
    var fs := [Field("a", true, Union([one, two]))];
    var ms := [Object([Field("a", true, one)]), Object([Field("a", true, two)])];
    forall v | Has(env, Object(fs), v) ensures HasSome(env, ms, v) {
      FieldAt(env, fs, v.entries, 0);
      var k := HasSomeAt(env, [one, two], v.entries["a"]);
      FieldsFromEach(env, ms[k].fields, v.entries);
      AtHasSome(env, ms, k, v);
    }
    TextsDiffer(le);
    NotOne(le, 0);
    NotOne(le, 1);
  }

  /** Neither object has the other's value, so neither takes the choice. */
  lemma NotOne(le: Comparison, k: nat)
    requires k < 2
    ensures var one, two := Literal("1"), Literal("2");
      !IsAssignable(le, Object([Field("a", true, Union([one, two]))]), Object([Field("a", true, [one, two][k])]))
  {
    var one, two := Literal("1"), Literal("2");
    var a, b := Object([Field("a", true, Union([one, two]))]), Object([Field("a", true, [one, two][k])]);
    if IsAssignable(le, a, b) {
      var env := Env(_ => iset{}, (_, _) => iset{}, _ => iset{});
      var x := LiteralValue([two, one][k].text);
      var m := map["a" := x];
      AtHasSome(env, [one, two], 1 - k, x);
      FieldsFromEach(env, a.fields, m);
      AssignableIsSound(env, le, a, b, Obj(m));
      FieldAt(env, b.fields, m, 0);
    }
  }

  lemma TextsDiffer(le: Comparison)
    ensures var one, two := Literal("1"), Literal("2");
      Canonical(le, Object([Field("a", true, Union([one, two]))])) !=
      Canonical(le, Union([Object([Field("a", true, one)]), Object([Field("a", true, two)])]))
  {
    var one, two := Literal("1"), Literal("2");
    var choice := Canonical(le, Union([one, two]));
    PairText(le, one, two);
    OneFieldText(le, Union([one, two]));
    OneFieldText(le, one);
    OneFieldText(le, two);
    PairText(le, Object([Field("a", true, one)]), Object([Field("a", true, two)]));
  }

  lemma OneFieldText(le: Comparison, t: TypeAst)
    ensures Canonical(le, Object([Field("a", true, t)])) == "{ a: " + Canonical(le, t) + " }"
    ensures Order(le, Object([Field("a", true, t)])) == Object([Field("a", true, Order(le, t))])
  {
    var fs := [Field("a", true, t)];
    assert fs[1..] == [];
    assert OrderFields(le, fs) == [Field("a", true, Order(le, t))];
    assert PrintFields([Field("a", true, Order(le, t))]) == "a: " + Print(Order(le, t));
  }

  lemma PairText(le: Comparison, a: TypeAst, b: TypeAst)
    ensures var c := Canonical(le, Union([a, b]));
      c == Canonical(le, a) + " | " + Canonical(le, b) || c == Canonical(le, b) + " | " + Canonical(le, a)
  {
    OrderTwo(le, a, b);
    JoinTwo(Order(le, a), Order(le, b));
    JoinTwo(Order(le, b), Order(le, a));
  }

  lemma OrderTwo(le: Comparison, a: TypeAst, b: TypeAst)
    ensures var x, y := Order(le, a), Order(le, b);
      Order(le, Union([a, b])) == Union([x, y]) || Order(le, Union([a, b])) == Union([y, x])
  {
    var x, y := Order(le, a), Order(le, b);
    assert [a, b][1..] == [b] && [b][1..] == [];
    assert OrderMembers(le, [b]) == [y];
    assert [y][1..] == [] && InsertMember(le, x, []) == [x];
    assert [x] + [y] == [x, y] && [y] + [x] == [y, x];
  }

  lemma JoinTwo(x: TypeAst, y: TypeAst)
    ensures PrintJoined([x, y], " | ") == Print(x) + " | " + Print(y)
  {
    assert [x, y][1..] == [y];
  }

  predicate AllAssignable(le: Comparison, xs: seq<TypeAst>, ys: seq<TypeAst>) {
    |xs| == |ys| && forall i :: 0 <= i < |xs| ==> IsAssignable(le, xs[i], ys[i])
  }

  /** The rules of the test, for types of any shape: unions by their members, arrays, objects and generics by their parts. */
  lemma AssignableRules(le: Comparison, from: TypeAst, to: TypeAst)
    ensures from.Union? && (forall i :: 0 <= i < |from.members| ==> IsAssignable(le, from.members[i], to)) ==> IsAssignable(le, from, to)
    ensures !from.Union? && to.Union? && (exists i :: 0 <= i < |to.members| && IsAssignable(le, from, to.members[i])) ==> IsAssignable(le, from, to)
    ensures from.Array? && to.Array? && (from.readonly ==> to.readonly) && IsAssignable(le, from.element, to.element) ==> IsAssignable(le, from, to)
    ensures from.Ref? && to.Ref? && from.name == to.name && AllAssignable(le, from.args, to.args) ==> IsAssignable(le, from, to)
  {
  }
}
