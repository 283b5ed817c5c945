/**
 * What a type means: the set of values it admits. Sugar, the order in which the parts of a
 * union, an intersection or an object are written, and printing followed by parsing do not
 * change it.
 */
module TypeMeaning {
  import opened TypeSyntax
  import opened TypeParser
  import opened TypePrinter

  datatype Value =
    | Str(text: string)
    | Num(numeral: string)
    | Bool(flag: bool)
    | Null
    | Undefined
    | Arr(items: seq<Value>)
    | Obj(entries: map<string, Value>)
    | Other(tag: string)

  /** Meanings of what the language leaves open: further keywords, named and generic types, opaque text. */
  datatype Env = Env(
    keyword: string -> iset<Value>,
    named: (string, seq<iset<Value>>) -> iset<Value>,
    opaque_: string -> iset<Value>)

  ghost predicate HasKeyword(env: Env, name: string, v: Value) {
    if name == "string" then v.Str?
    else if name == "number" then v.Num?
    else if name == "boolean" then v.Bool?
    else if name == "null" then v.Null?
    else if name == "undefined" then v.Undefined?
    else if name == "never" then false
    else if name == "any" || name == "unknown" then true
    else v in env.keyword(name)
  }

  predicate HasLiteral(text: string, v: Value) {
    if text == "true" || text == "false" then v == Bool(text == "true")
    else if IsDigits(text) then v == Num(text)
    else |text| >= 2 && v == Str(Decode(text[1..|text| - 1]))
  }

  ghost predicate Has(env: Env, t: TypeAst, v: Value)
    decreases t, 1
  {
    match t
    case Keyword(name) => HasKeyword(env, name, v)
    case Literal(text) => HasLiteral(text, v)
    case Union(members) => HasSome(env, members, v)
    case Intersection(members) => HasAll(env, members, v)
    case Array(element, _) => v.Arr? && forall x :: x in v.items ==> Has(env, element, x)
    case Ref(name, args) => v in env.named(name, MeaningAll(env, args))
    case Object(fields) => v.Obj? && FieldsHold(env, fields, v.entries)
    case Opaque(text) => v in env.opaque_(text)
    case Frozen(inner) => Has(env, inner, v)
  }

  ghost predicate HasSome(env: Env, ts: seq<TypeAst>, v: Value)
    decreases ts
  {
    ts != [] && (Has(env, ts[0], v) || HasSome(env, ts[1..], v))
  }

  ghost predicate HasAll(env: Env, ts: seq<TypeAst>, v: Value)
    decreases ts
  {
    ts == [] || (Has(env, ts[0], v) && HasAll(env, ts[1..], v))
  }

  ghost predicate FieldsHold(env: Env, fs: seq<Field>, m: map<string, Value>)
    decreases fs
  {
    fs == [] || (FieldHolds(env, fs[0], m) && FieldsHold(env, fs[1..], m))
  }

  /** A field that is there has its type; only an optional one may be missing. */
  ghost predicate FieldHolds(env: Env, f: Field, m: map<string, Value>)
    decreases f
  {
    if f.name in m then Has(env, f.typ, m[f.name]) else !f.required
  }

  ghost function Meaning(env: Env, t: TypeAst): iset<Value>
    decreases t, 2
  {
    iset v: Value | Has(env, t, v)
  }

  ghost function MeaningAll(env: Env, ts: seq<TypeAst>): (r: seq<iset<Value>>)
    ensures |r| == |ts|
    decreases ts
  {
    if ts == [] then [] else [Meaning(env, ts[0])] + MeaningAll(env, ts[1..])
  }

  /** Two types admit the same values. */
  ghost predicate Same(env: Env, a: TypeAst, b: TypeAst) {
    forall v :: Has(env, a, v) <==> Has(env, b, v)
  }

  /** `to` admits every value `from` does. */
  ghost predicate Covers(env: Env, to: TypeAst, from: TypeAst) {
    forall v :: Has(env, from, v) ==> Has(env, to, v)
  }

  lemma SameMeaning(env: Env, a: TypeAst, b: TypeAst)
    requires Same(env, a, b)
    ensures Meaning(env, a) == Meaning(env, b)
  {
  }

  lemma {:induction false} SameAllMeaning(env: Env, xs: seq<TypeAst>, ys: seq<TypeAst>)
    requires |xs| == |ys| && forall i :: 0 <= i < |xs| ==> Same(env, xs[i], ys[i])
    ensures MeaningAll(env, xs) == MeaningAll(env, ys)
  {
    if xs != [] {
      SameMeaning(env, xs[0], ys[0]);
      SameAllMeaning(env, xs[1..], ys[1..]);
    }
  }

  // ---------------------------------------------------------------- concatenation

  lemma {:induction false} HasSomeConcat(env: Env, xs: seq<TypeAst>, ys: seq<TypeAst>, v: Value)
    ensures HasSome(env, xs + ys, v) <==> HasSome(env, xs, v) || HasSome(env, ys, v)
  {
    if xs == [] {
      assert xs + ys == ys;
    } else {
      assert (xs + ys)[1..] == xs[1..] + ys;
      HasSomeConcat(env, xs[1..], ys, v);
    }
  }

  lemma {:induction false} HasAllConcat(env: Env, xs: seq<TypeAst>, ys: seq<TypeAst>, v: Value)
    ensures HasAll(env, xs + ys, v) <==> HasAll(env, xs, v) && HasAll(env, ys, v)
  {
    if xs == [] {
      assert xs + ys == ys;
    } else {
      assert (xs + ys)[1..] == xs[1..] + ys;
      HasAllConcat(env, xs[1..], ys, v);
    }
  }

  // ---------------------------------------------------------------- array sugar

  function Desugar(t: TypeAst): TypeAst
    decreases t
  {
    match t
    case Ref(name, args) =>
      if name == "Array" && |args| == 1 then Array(Desugar(args[0]), false)
      else if name == "ReadonlyArray" && |args| == 1 then Array(Desugar(args[0]), true)
      else Ref(name, DesugarAll(args))
    case Union(members) => Union(DesugarAll(members))
    case Intersection(members) => Intersection(DesugarAll(members))
    case Array(element, readonly) => Array(Desugar(element), readonly)
    case Object(fields) => Object(DesugarFields(fields))
    case _ => t
  }

  function DesugarAll(ts: seq<TypeAst>): (r: seq<TypeAst>)
    ensures |r| == |ts| && forall i :: 0 <= i < |ts| ==> r[i] == Desugar(ts[i])
    decreases ts
  {
    if ts == [] then [] else [Desugar(ts[0])] + DesugarAll(ts[1..])
  }

  function DesugarFields(fs: seq<Field>): (r: seq<Field>)
    ensures |r| == |fs|
    ensures forall i :: 0 <= i < |fs| ==> r[i] == Field(fs[i].name, fs[i].required, Desugar(fs[i].typ))
    decreases fs
  {
    if fs == [] then []
    else [Field(fs[0].name, fs[0].required, Desugar(fs[0].typ))] + DesugarFields(fs[1..])
  }

  lemma DesugarConcat(xs: seq<TypeAst>, ys: seq<TypeAst>)
    ensures DesugarAll(xs + ys) == DesugarAll(xs) + DesugarAll(ys)
  {
  }

  // ---------------------------------------------------------------- printing and parsing back

  /** The flat tree read back from print, once desugared, admits what the printed type admits. */
  lemma {:induction false} RereadMeans(env: Env, t: TypeAst, v: Value)
    requires Printable(t)
    ensures Has(env, Desugar(Reread(t)), v) <==> Has(env, t, v)
    decreases t, 3
  {
    var parts := UnionParts(t);
    UnionPartsMean(env, t, v);
    if |parts| == 1 {
      assert DesugarAll(parts) == [Desugar(parts[0])];
      OneOf(env, Desugar(parts[0]), v);
    }
  }

  lemma OneOf(env: Env, t: TypeAst, v: Value)
    ensures HasSome(env, [t], v) <==> Has(env, t, v)
    ensures HasAll(env, [t], v) <==> Has(env, t, v)
  {
    assert [t][1..] == [];
  }

  lemma {:induction false} UnionPartsMean(env: Env, t: TypeAst, v: Value)
    requires Printable(t)
    ensures HasSome(env, DesugarAll(UnionParts(t)), v) <==> Has(env, t, v)
    decreases t, 2
  {
    if t.Union? {
      AllUnionPartsMean(env, t.members, v);
    } else {
      var parts := IntersectionParts(t);
      var whole := OfIntersection(parts);
      IntersectionPartsMean(env, t, v);
      assert DesugarAll([whole]) == [Desugar(whole)];
      OneOf(env, Desugar(whole), v);
      if |parts| == 1 {
        assert DesugarAll(parts) == [Desugar(parts[0])];
        OneOf(env, Desugar(parts[0]), v);
      }
    }
  }

  lemma {:induction false} AllUnionPartsMean(env: Env, ts: seq<TypeAst>, v: Value)
    requires forall t :: t in ts ==> Printable(t)
    ensures HasSome(env, DesugarAll(AllUnionParts(ts)), v) <==> HasSome(env, ts, v)
    decreases ts
  {
    if ts != [] {
      var first, more := UnionParts(ts[0]), AllUnionParts(ts[1..]);
      UnionPartsMean(env, ts[0], v);
      AllUnionPartsMean(env, ts[1..], v);
      DesugarConcat(first, more);
      HasSomeConcat(env, DesugarAll(first), DesugarAll(more), v);
    }
  }

  lemma {:induction false} IntersectionPartsMean(env: Env, t: TypeAst, v: Value)
    requires Printable(t) && !t.Union?
    ensures HasAll(env, DesugarAll(IntersectionParts(t)), v) <==> Has(env, t, v)
    decreases t, 1
  {
    if t.Intersection? {
      AllIntersectionPartsMean(env, t.members, v);
    } else {
      PlainMeans(env, t, v);
      assert DesugarAll([RereadPlain(t)]) == [Desugar(RereadPlain(t))];
      OneOf(env, Desugar(RereadPlain(t)), v);
    }
  }

  lemma {:induction false} AllIntersectionPartsMean(env: Env, ts: seq<TypeAst>, v: Value)
    requires forall t :: t in ts ==> Printable(t) && !t.Union?
    ensures HasAll(env, DesugarAll(AllIntersectionParts(ts)), v) <==> HasAll(env, ts, v)
    decreases ts
  {
    if ts != [] {
      var first, more := IntersectionParts(ts[0]), AllIntersectionParts(ts[1..]);
      IntersectionPartsMean(env, ts[0], v);
      AllIntersectionPartsMean(env, ts[1..], v);
      DesugarConcat(first, more);
      HasAllConcat(env, DesugarAll(first), DesugarAll(more), v);
    }
  }

  lemma {:induction false} PlainMeans(env: Env, t: TypeAst, v: Value)
    requires Printable(t) && !t.Union? && !t.Intersection?
    ensures Has(env, Desugar(RereadPlain(t)), v) <==> Has(env, t, v)
    decreases t, 0
  {
    match t
    case Array(element, readonly) =>
      forall x ensures Has(env, Desugar(Reread(element)), x) <==> Has(env, element, x) {
        RereadMeans(env, element, x);
      }
    case Ref(name, args) =>
      ArgsMean(env, args);
    case Object(fields) =>
      if v.Obj? { FieldsMean(env, fields, v.entries); }
    case _ =>
  }

  lemma {:induction false} ArgsMean(env: Env, ts: seq<TypeAst>)
    requires forall t :: t in ts ==> Printable(t)
    ensures MeaningAll(env, DesugarAll(RereadAll(ts))) == MeaningAll(env, ts)
    decreases ts
  {
    if ts != [] {
      forall v ensures Has(env, Desugar(Reread(ts[0])), v) <==> Has(env, ts[0], v) {
        RereadMeans(env, ts[0], v);
      }
      SameMeaning(env, Desugar(Reread(ts[0])), ts[0]);
      ArgsMean(env, ts[1..]);
    }
  }

  lemma {:induction false} FieldsMean(env: Env, fs: seq<Field>, m: map<string, Value>)
    requires forall f :: f in fs ==> Printable(f.typ)
    ensures FieldsHold(env, DesugarFields(RereadFields(fs)), m) <==> FieldsHold(env, fs, m)
    decreases fs
  {
    if fs != [] {
      if fs[0].name in m { RereadMeans(env, fs[0].typ, m[fs[0].name]); }
      FieldsMean(env, fs[1..], m);
    }
  }

  /** Printing a type, parsing the text and desugaring it again keeps its meaning. */
  lemma PrintParseKeepsMeaning(env: Env, t: TypeAst)
    requires Printable(t)
    ensures ParseType(Print(t)) == Reread(t)
    ensures Same(env, Desugar(ParseType(Print(t))), t)
  {
    UnionReads(t, "");
    assert Print(t) + "" == Print(t);
    forall v ensures Has(env, Desugar(Reread(t)), v) <==> Has(env, t, v) {
      RereadMeans(env, t, v);
    }
  }
}
