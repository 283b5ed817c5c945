/**
 * The canonical text of a type: members of unions and intersections are sorted by their own
 * canonical text and object fields by name, under any comparison. Two types with the same
 * canonical text mean the same.
 */
module TypeOrder {
  import opened TypeSyntax
  import opened TypeParser
  import opened TypePrinter
  import opened TypeMeaning

  /** `le(a, b)`: the locale's comparison puts `a` no later than `b`. */
  type Comparison = (string, string) -> bool

  function InsertMember(le: Comparison, t: TypeAst, ts: seq<TypeAst>): (r: seq<TypeAst>)
    ensures multiset(r) == multiset([t]) + multiset(ts)
  {
    if ts == [] || le(Print(t), Print(ts[0])) then [t] + ts
    else
      assert ts == [ts[0]] + ts[1..];
      [ts[0]] + InsertMember(le, t, ts[1..])
  }

  function InsertField(le: Comparison, f: Field, fs: seq<Field>): (r: seq<Field>)
    ensures multiset(r) == multiset([f]) + multiset(fs)
  {
    if fs == [] || le(f.name, fs[0].name) then [f] + fs
    else
      assert fs == [fs[0]] + fs[1..];
      [fs[0]] + InsertField(le, f, fs[1..])
  }

  /** The type with every list in canonical order. */
  function Order(le: Comparison, t: TypeAst): TypeAst
    decreases t
  {
    match t
    case Union(members) => Union(OrderMembers(le, members))
    case Intersection(members) => Intersection(OrderMembers(le, members))
    case Array(element, readonly) => Array(Order(le, element), readonly)
    case Ref(name, args) => Ref(name, OrderArgs(le, args))
    case Object(fields) => Object(OrderFields(le, fields))
    case Frozen(inner) => Frozen(Order(le, inner))
    case _ => t
  }

  function OrderArgs(le: Comparison, ts: seq<TypeAst>): (r: seq<TypeAst>)
    ensures |r| == |ts|
    decreases ts
  {
    if ts == [] then [] else [Order(le, ts[0])] + OrderArgs(le, ts[1..])
  }

  function OrderMembers(le: Comparison, ts: seq<TypeAst>): (r: seq<TypeAst>)
    ensures |r| == |ts|
    decreases ts
  {
    if ts == [] then []
    else
      var r := InsertMember(le, Order(le, ts[0]), OrderMembers(le, ts[1..]));
      assert |multiset(r)| == |r|;
      r
  }

  function OrderFields(le: Comparison, fs: seq<Field>): (r: seq<Field>)
    ensures |r| == |fs|
    decreases fs
  {
    if fs == [] then []
    else
      var r := InsertField(le, Field(fs[0].name, fs[0].required, Order(le, fs[0].typ)), OrderFields(le, fs[1..]));
      assert |multiset(r)| == |r|;
      r
  }

  function Canonical(le: Comparison, t: TypeAst): string {
    Print(Order(le, t))
  }

  // ---------------------------------------------------------------- order does not matter

  lemma {:induction false} InsertMeans(env: Env, le: Comparison, t: TypeAst, ts: seq<TypeAst>, v: Value)
    ensures HasSome(env, InsertMember(le, t, ts), v) <==> Has(env, t, v) || HasSome(env, ts, v)
    ensures HasAll(env, InsertMember(le, t, ts), v) <==> Has(env, t, v) && HasAll(env, ts, v)
  {
    if ts == [] || le(Print(t), Print(ts[0])) {
      assert ([t] + ts)[1..] == ts;
    } else {
      InsertMeans(env, le, t, ts[1..], v);
    }
  }

  lemma {:induction false} InsertFieldMeans(env: Env, le: Comparison, f: Field, fs: seq<Field>, m: map<string, Value>)
    ensures FieldsHold(env, InsertField(le, f, fs), m) <==> FieldHolds(env, f, m) && FieldsHold(env, fs, m)
  {
    if fs == [] || le(f.name, fs[0].name) {
      assert ([f] + fs)[1..] == fs;
    } else {
      InsertFieldMeans(env, le, f, fs[1..], m);
    }
  }

  lemma {:induction false} OrderMeans(env: Env, le: Comparison, t: TypeAst, v: Value)
    ensures Has(env, Order(le, t), v) <==> Has(env, t, v)
    decreases t
  {
    match t
    case Union(members) => OrderMembersMean(env, le, members, v);
    case Intersection(members) => OrderMembersMean(env, le, members, v);
    case Array(element, _) =>
      forall x ensures Has(env, Order(le, element), x) <==> Has(env, element, x) {
        OrderMeans(env, le, element, x);
      }
    case Ref(_, args) => OrderArgsMean(env, le, args);
    case Object(fields) => if v.Obj? { OrderFieldsMean(env, le, fields, v.entries); }
    case Frozen(inner) => OrderMeans(env, le, inner, v);
    case _ =>
  }

  lemma {:induction false} OrderMembersMean(env: Env, le: Comparison, ts: seq<TypeAst>, v: Value)
    ensures HasSome(env, OrderMembers(le, ts), v) <==> HasSome(env, ts, v)
    ensures HasAll(env, OrderMembers(le, ts), v) <==> HasAll(env, ts, v)
    decreases ts
  {
    if ts != [] {
      OrderMeans(env, le, ts[0], v);
      OrderMembersMean(env, le, ts[1..], v);
      InsertMeans(env, le, Order(le, ts[0]), OrderMembers(le, ts[1..]), v);
    }
  }

  lemma {:induction false} OrderArgsMean(env: Env, le: Comparison, ts: seq<TypeAst>)
    ensures MeaningAll(env, OrderArgs(le, ts)) == MeaningAll(env, ts)
    decreases ts
  {
    if ts != [] {
      forall v ensures Has(env, Order(le, ts[0]), v) <==> Has(env, ts[0], v) {
        OrderMeans(env, le, ts[0], v);
      }
      SameMeaning(env, Order(le, ts[0]), ts[0]);
      OrderArgsMean(env, le, ts[1..]);
    }
  }

  lemma {:induction false} OrderFieldsMean(env: Env, le: Comparison, fs: seq<Field>, m: map<string, Value>)
    ensures FieldsHold(env, OrderFields(le, fs), m) <==> FieldsHold(env, fs, m)
    decreases fs
  {
    if fs != [] {
      var f := Field(fs[0].name, fs[0].required, Order(le, fs[0].typ));
      if f.name in m { OrderMeans(env, le, fs[0].typ, m[f.name]); }
      OrderFieldsMean(env, le, fs[1..], m);
      InsertFieldMeans(env, le, f, OrderFields(le, fs[1..]), m);
    }
  }

  // ---------------------------------------------------------------- ordered types still print unambiguously

  lemma {:induction false} OrderPrintable(le: Comparison, t: TypeAst)
    requires Printable(t)
    ensures Printable(Order(le, t)) && (Order(le, t).Union? <==> t.Union?)
    decreases t
  {
    match t
    case Union(members) => OrderMembersPrintable(le, members);
    case Intersection(members) => OrderMembersPrintable(le, members);
    case Array(element, _) => OrderPrintable(le, element);
    case Ref(_, args) => OrderArgsPrintable(le, args);
    case Object(fields) => OrderFieldsPrintable(le, fields);
    case _ =>
  }

  lemma {:induction false} OrderMembersPrintable(le: Comparison, ts: seq<TypeAst>)
    requires forall t :: t in ts ==> Printable(t)
    ensures forall r :: r in OrderMembers(le, ts) ==> Printable(r)
    ensures (forall t :: t in ts ==> !t.Union?) ==> forall r :: r in OrderMembers(le, ts) ==> !r.Union?
    decreases ts
  {
    if ts != [] {
      OrderPrintable(le, ts[0]);
      OrderMembersPrintable(le, ts[1..]);
      var first, more := Order(le, ts[0]), OrderMembers(le, ts[1..]);
      forall r | r in InsertMember(le, first, more) ensures r == first || r in more {
        assert r in multiset(InsertMember(le, first, more));
      }
    }
  }

  lemma {:induction false} OrderArgsPrintable(le: Comparison, ts: seq<TypeAst>)
    requires forall t :: t in ts ==> Printable(t)
    ensures forall r :: r in OrderArgs(le, ts) ==> Printable(r)
    decreases ts
  {
    if ts != [] {
      OrderPrintable(le, ts[0]);
      OrderArgsPrintable(le, ts[1..]);
    }
  }

  lemma {:induction false} OrderFieldsPrintable(le: Comparison, fs: seq<Field>)
    requires forall f :: f in fs ==> IsWord(f.name) && Printable(f.typ)
    ensures forall r :: r in OrderFields(le, fs) ==> IsWord(r.name) && Printable(r.typ)
    decreases fs
  {
    if fs != [] {
      OrderPrintable(le, fs[0].typ);
      OrderFieldsPrintable(le, fs[1..]);
      var first := Field(fs[0].name, fs[0].required, Order(le, fs[0].typ));
      var more := OrderFields(le, fs[1..]);
      forall r | r in InsertField(le, first, more) ensures r == first || r in more {
        assert r in multiset(InsertField(le, first, more));
      }
    }
  }

  // ---------------------------------------------------------------- canonical text

  /** The canonical text of a type, parsed and desugared, has the type's meaning. */
  lemma CanonicalRoundTrip(env: Env, le: Comparison, t: TypeAst)
    requires Printable(t)
    ensures Same(env, Desugar(ParseType(Canonical(le, t))), t)
  {
    OrderPrintable(le, t);
    PrintParseKeepsMeaning(env, Order(le, t));
    forall v ensures Has(env, Order(le, t), v) <==> Has(env, t, v) {
      OrderMeans(env, le, t, v);
    }
  }

  /** Equal canonical texts mean equal types. */
  lemma CanonicalDecides(env: Env, le: Comparison, a: TypeAst, b: TypeAst)
    requires Printable(a) && Printable(b) && Canonical(le, a) == Canonical(le, b)
    ensures Same(env, a, b)
  {
    CanonicalRoundTrip(env, le, a);
    CanonicalRoundTrip(env, le, b);
  }

  lemma {:induction false} OrderPair(le: Comparison, p: TypeAst, q: TypeAst)
    requires le(Print(Order(le, p)), Print(Order(le, q)))
    ensures OrderMembers(le, [p, q]) == [Order(le, p), Order(le, q)]
  {
    assert [p, q][1..] == [q] && [q][1..] == [];
    assert OrderMembers(le, [q]) == [Order(le, q)];
  }

  lemma {:induction false} PrintPair(p: TypeAst, q: TypeAst, sep: string)
    ensures PrintJoined([p, q], sep) == Print(p) + sep + Print(q)
  {
    assert [p, q][1..] == [q];
  }

  lemma {:induction false} CanonicalPair(le: Comparison, p: TypeAst, q: TypeAst)
    requires le(Canonical(le, p), Canonical(le, q))
    ensures Canonical(le, Union([p, q])) == Canonical(le, p) + " | " + Canonical(le, q)
    ensures Canonical(le, Intersection([p, q])) == Canonical(le, p) + " & " + Canonical(le, q)
  {
    OrderPair(le, p, q);
    PrintPair(Order(le, p), Order(le, q), " | ");
    PrintPair(Order(le, p), Order(le, q), " & ");
  }

  /**
   * Why a union may not stand directly under an intersection: `(1 | 2) & 3` and `1 | (2 & 3)`
   * have the same canonical text under any comparison that sorts digits upwards, and yet the
   * second admits 1 and the first does not.
   */
  lemma {:induction false} UnionUnderIntersectionIsAmbiguous(le: Comparison, env: Env)
    requires le("1", "2") && le("2", "3") && le("1 | 2", "3") && le("1", "2 & 3")
    ensures var a := Intersection([Union([Literal("1"), Literal("2")]), Literal("3")]);
      var b := Union([Literal("1"), Intersection([Literal("2"), Literal("3")])]);
      Canonical(le, a) == Canonical(le, b) && !Same(env, a, b)
  {
    var x, y, z := Literal("1"), Literal("2"), Literal("3");
    var xy, yz := Union([x, y]), Intersection([y, z]);
    CanonicalPair(le, x, y);
    CanonicalPair(le, y, z);
    assert "1" + " | " + "2" == "1 | 2" && "2" + " & " + "3" == "2 & 3";
    CanonicalPair(le, xy, z);
    CanonicalPair(le, x, yz);
    assert "1 | 2" + " & " + "3" == "1" + " | " + "2 & 3";
    OnlyTheUnionHasOne(env, x, y, z);
  }

  lemma {:induction false} OnlyTheUnionHasOne(env: Env, x: TypeAst, y: TypeAst, z: TypeAst)
    requires x == Literal("1") && z == Literal("3")
    ensures !Same(env, Intersection([Union([x, y]), z]), Union([x, Intersection([y, z])]))
  {
    var v := Num("1");
    assert Has(env, x, v) && !Has(env, z, v);
    assert HasSome(env, [x, Intersection([y, z])], v);
    assert [Union([x, y]), z][1..] == [z];
    assert !HasAll(env, [z], v);
    assert !HasAll(env, [Union([x, y]), z], v);
    assert Has(env, Union([x, Intersection([y, z])]), v);
    assert !Has(env, Intersection([Union([x, y]), z]), v);
  }
}
