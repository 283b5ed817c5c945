/**
 * Field pins: the fields of a live type, read from its source, compared with a pinned list.
 */
module TypePins {
  import opened Prelude
  import opened TypeSyntax
  import opened TypeParser
  import opened TypePrinter
  import opened TypeMeaning
  import opened TypeOrder
  import opened TypeRelation
  import opened TypeNames
  import opened TypeAliases
  import opened TypeWriting
  import opened TypeComplete

  datatype FieldSpec = FieldSpec(name: string, required: bool, typ: string)
  datatype FieldPin = FieldPin(name: string, required: bool, typ: string, expansion: bool)

  datatype Relation = SameType | Narrower | Wider | Different

  datatype Drift = TypeMissing | Removed(name: string) | MadeOptional(name: string) | Expanded(name: string) | Narrowed(name: string)

  /** The type a text stands for. */
  function TypeOf(text: string): TypeAst {
    Desugar(ParseType(text))
  }

  function RelateFieldTypes(le: Comparison, live: string, pin: string): Relation {
    var liveToPin, pinToLive := IsAssignable(le, TypeOf(live), TypeOf(pin)), IsAssignable(le, TypeOf(pin), TypeOf(live));
    if liveToPin && pinToLive then SameType
    else if liveToPin then Narrower
    else if pinToLive then Wider
    else Different
  }

  /** The last live field with this name, as building a map from the list keeps it. */
  function LastNamed(live: seq<FieldSpec>, name: string): (r: Option<FieldSpec>)
    ensures r.Some? ==> r.value in live && r.value.name == name
  {
    if live == [] then None
    else if live[|live| - 1].name == name then Some(live[|live| - 1])
    else LastNamed(live[..|live| - 1], name)
  }

  function PinDrift(le: Comparison, found: Option<FieldSpec>, pin: FieldPin): Option<Drift> {
    if found.None? then Some(Removed(pin.name))
    else if pin.required && !found.value.required then Some(MadeOptional(pin.name))
    else
      match RelateFieldTypes(le, found.value.typ, pin.typ)
      case SameType => None
      case Wider => if pin.expansion then None else Some(Expanded(pin.name))
      case _ => Some(Narrowed(pin.name))
  }

  /** The first drift over the pins, or none. */
  function FieldPinDrift(le: Comparison, live: Option<seq<FieldSpec>>, pins: seq<FieldPin>): Option<Drift> {
    if live.None? then Some(TypeMissing)
    else if pins == [] then None
    else
      var first := PinDrift(le, LastNamed(live.value, pins[0].name), pins[0]);
      if first.Some? then first else FieldPinDrift(le, live, pins[1..])
  }

  lemma RelationIsSound(env: Env, le: Comparison, live: string, pin: string)
    requires Monotone(env) && Clean(ParseType(live)) && Clean(ParseType(pin))
    ensures RelateFieldTypes(le, live, pin) in {SameType, Narrower} ==> Covers(env, TypeOf(pin), TypeOf(live))
    ensures RelateFieldTypes(le, live, pin) in {SameType, Wider} ==> Covers(env, TypeOf(live), TypeOf(pin))
  {
    ParsedIsPrintable(live);
    ParsedIsPrintable(pin);
    forall v ensures IsAssignable(le, TypeOf(live), TypeOf(pin)) && Has(env, TypeOf(live), v) ==> Has(env, TypeOf(pin), v) {
      if IsAssignable(le, TypeOf(live), TypeOf(pin)) && Has(env, TypeOf(live), v) {
        AssignableIsSound(env, le, TypeOf(live), TypeOf(pin), v);
      }
    }
    forall v ensures IsAssignable(le, TypeOf(pin), TypeOf(live)) && Has(env, TypeOf(pin), v) ==> Has(env, TypeOf(live), v) {
      if IsAssignable(le, TypeOf(pin), TypeOf(live)) && Has(env, TypeOf(pin), v) {
        AssignableIsSound(env, le, TypeOf(pin), TypeOf(live), v);
      }
    }
  }

  /**
   * No drift reported: every pinned field is still there, still required if it was, its live
   * type accepts every pinned value, and without an expansion mark it accepts nothing else.
   */
  lemma {:induction false} NoDriftMeansServed(
      env: Env, le: Comparison, live: Option<seq<FieldSpec>>, pins: seq<FieldPin>, k: nat)
    requires Monotone(env) && FieldPinDrift(le, live, pins) == None && k < |pins|
    requires Clean(ParseType(pins[k].typ))
    requires live.Some? && LastNamed(live.value, pins[k].name).Some? ==>
      Clean(ParseType(LastNamed(live.value, pins[k].name).value.typ))
    ensures live.Some? && LastNamed(live.value, pins[k].name).Some?
    ensures var f := LastNamed(live.value, pins[k].name).value;
      && (pins[k].required ==> f.required)
      && Covers(env, TypeOf(f.typ), TypeOf(pins[k].typ))
      && (!pins[k].expansion ==> Same(env, TypeOf(f.typ), TypeOf(pins[k].typ)))
  {
    if k > 0 {
      NoDriftMeansServed(env, le, live, pins[1..], k - 1);
    } else {
      RelationIsSound(env, le, LastNamed(live.value, pins[0].name).value.typ, pins[0].typ);
    }
  }

  // ---------------------------------------------------------------- exactly when there is drift

  /** The text stands for a type on which the subtype test decides inclusion, both ways. */
  predicate Plain(text: string) {
    Printable(TypeOf(text)) && Source(TypeOf(text)) && Target(TypeOf(text))
  }

  lemma RelationExactly(env: Env, le: Comparison, live: string, pin: string)
    requires Monotone(env) && Plain(live) && Plain(pin)
    ensures RelateFieldTypes(le, live, pin) in {SameType, Wider} <==> Covers(env, TypeOf(live), TypeOf(pin))
    ensures RelateFieldTypes(le, live, pin) in {SameType, Narrower} <==> Covers(env, TypeOf(pin), TypeOf(live))
  {
    AssignableExactly(env, le, TypeOf(live), TypeOf(pin));
    AssignableExactly(env, le, TypeOf(pin), TypeOf(live));
  }

  /** A pin holds of the live fields: its field is there, required if pinned so, takes every pinned value, and unless marked no other. */
  ghost predicate Holds(env: Env, live: seq<FieldSpec>, pin: FieldPin) {
    && LastNamed(live, pin.name).Some?
    && var f := LastNamed(live, pin.name).value;
      && (pin.required ==> f.required) && Covers(env, TypeOf(f.typ), TypeOf(pin.typ))
      && (pin.expansion || Covers(env, TypeOf(pin.typ), TypeOf(f.typ)))
  }

  /** What a drift says of its pin is so. */
  ghost predicate Tells(env: Env, live: seq<FieldSpec>, pin: FieldPin, drift: Drift) {
    var found := LastNamed(live, pin.name);
    match drift
    case TypeMissing => false
    case Removed(name) => name == pin.name && found.None?
    case MadeOptional(name) => name == pin.name && found.Some? && pin.required && !found.value.required
    case Expanded(name) =>
      && name == pin.name && found.Some? && !pin.expansion
      && Covers(env, TypeOf(found.value.typ), TypeOf(pin.typ)) && !Covers(env, TypeOf(pin.typ), TypeOf(found.value.typ))
    case Narrowed(name) => name == pin.name && found.Some? && !Covers(env, TypeOf(found.value.typ), TypeOf(pin.typ))
  }

  lemma PinExactly(env: Env, le: Comparison, live: seq<FieldSpec>, pin: FieldPin)
    requires Monotone(env) && Plain(pin.typ) && (LastNamed(live, pin.name).Some? ==> Plain(LastNamed(live, pin.name).value.typ))
    ensures PinDrift(le, LastNamed(live, pin.name), pin) == None <==> Holds(env, live, pin)
    ensures PinDrift(le, LastNamed(live, pin.name), pin).Some? ==> Tells(env, live, pin, PinDrift(le, LastNamed(live, pin.name), pin).value)
  {
    var found := LastNamed(live, pin.name);
    if found.Some? { RelationExactly(env, le, found.value.typ, pin.typ); }
  }

  /**
   * No drift is reported exactly when the type is there and every pin holds; and a drift that is
   * reported is the first, names its pin, and is so.
   */
  lemma {:induction false} DriftExactly(env: Env, le: Comparison, live: Option<seq<FieldSpec>>, pins: seq<FieldPin>)
    requires Monotone(env) && forall pin :: pin in pins ==> Plain(pin.typ)
    requires live.Some? ==> forall pin :: pin in pins && LastNamed(live.value, pin.name).Some? ==> Plain(LastNamed(live.value, pin.name).value.typ)
    ensures FieldPinDrift(le, live, pins) == None <==> live.Some? && forall k :: 0 <= k < |pins| ==> Holds(env, live.value, pins[k])
    ensures FieldPinDrift(le, live, pins) == Some(TypeMissing) <==> live.None?
    ensures live.Some? && FieldPinDrift(le, live, pins).Some? ==> FirstTold(env, live.value, pins, FieldPinDrift(le, live, pins).value)
    decreases pins
  {
    if live.Some? && pins != [] {
      PinExactly(env, le, live.value, pins[0]);
      DriftExactly(env, le, live, pins[1..]);
      var first := PinDrift(le, LastNamed(live.value, pins[0].name), pins[0]);
      if first.Some? {
        assert Tells(env, live.value, pins[0], first.value) && !Holds(env, live.value, pins[0]);
      } else {
        HoldsShift(env, live.value, pins);
        if FieldPinDrift(le, live, pins).Some? {
          FirstShift(env, live.value, pins, FieldPinDrift(le, live, pins).value);
        }
      }
    }
  }

  lemma HoldsShift(env: Env, live: seq<FieldSpec>, pins: seq<FieldPin>)
    requires pins != [] && Holds(env, live, pins[0])
    ensures (forall k :: 0 <= k < |pins| ==> Holds(env, live, pins[k])) <==>
      (forall k :: 0 <= k < |pins[1..]| ==> Holds(env, live, pins[1..][k]))
  {
    assert forall k :: 0 < k < |pins| ==> pins[k] == pins[1..][k - 1];
  }

  /** The drift is told truly of some pin, and every pin before it holds. */
  ghost predicate FirstTold(env: Env, live: seq<FieldSpec>, pins: seq<FieldPin>, drift: Drift) {
    exists k :: 0 <= k < |pins| && Tells(env, live, pins[k], drift) && forall j :: 0 <= j < k ==> Holds(env, live, pins[j])
  }

  lemma FirstShift(env: Env, live: seq<FieldSpec>, pins: seq<FieldPin>, drift: Drift)
    requires pins != [] && Holds(env, live, pins[0]) && FirstTold(env, live, pins[1..], drift)
    ensures FirstTold(env, live, pins, drift)
  {
    var k :| 0 <= k < |pins[1..]| && Tells(env, live, pins[1..][k], drift) && forall j :: 0 <= j < k ==> Holds(env, live, pins[1..][j]);
    assert pins[1..][k] == pins[k + 1];
    assert forall j :: 0 < j <= k ==> pins[j] == pins[1..][j - 1];
  }

  // ---------------------------------------------------------------- from the source text

  /** The fields of a type declared in a source, each with its canonical text, in name order. */
  function ExtractFieldSpecs(le: Comparison, aliases: Aliases, typeName: string): Option<seq<FieldSpec>> {
    if typeName !in aliases then None
    else
      var t := DeclaredType(aliases, typeName);
      if !t.Object? then None else Some(SpecsOf(le, t.fields))
  }

  function DeclaredType(aliases: Aliases, typeName: string): TypeAst
    requires typeName in aliases
  {
    Desugar(Resolve(ParseType(aliases[typeName]), aliases, {typeName}))
  }

  function InsertSpec(le: Comparison, s: FieldSpec, specs: seq<FieldSpec>): (r: seq<FieldSpec>)
    ensures forall x :: x in r <==> x == s || x in specs
  {
    if specs == [] || le(s.name, specs[0].name) then [s] + specs
    else [specs[0]] + InsertSpec(le, s, specs[1..])
  }

  function SpecsOf(le: Comparison, fs: seq<Field>): (r: seq<FieldSpec>)
    ensures forall s :: s in r ==> exists f :: f in fs && s == SpecOf(le, f)
  {
    if fs == [] then [] else InsertSpec(le, SpecOf(le, fs[0]), SpecsOf(le, fs[1..]))
  }

  function SpecOf(le: Comparison, f: Field): FieldSpec {
    FieldSpec(f.name, f.required, Canonical(le, f.typ))
  }

  /** The environment reads the two array forms as arrays. */
  ghost predicate KnowsArrays(env: Env) {
    forall s: iset<Value>, v: Value ::
      && (v in env.named("Array", [s]) <==> v.Arr? && forall x :: x in v.items ==> x in s)
      && (v in env.named("ReadonlyArray", [s]) <==> v.Arr? && forall x :: x in v.items ==> x in s)
  }

  lemma {:induction false} DesugarMeans(env: Env, t: TypeAst, v: Value)
    requires KnowsArrays(env)
    ensures Has(env, Desugar(t), v) <==> Has(env, t, v)
    decreases t
  {
    match t
    case Ref(name, args) =>
      if IsArraySugar(name, args) {
        forall x ensures Has(env, Desugar(args[0]), x) <==> Has(env, args[0], x) { DesugarMeans(env, args[0], x); }
        assert MeaningAll(env, args) == [Meaning(env, args[0])];
      } else {
        DesugarArgsMean(env, args);
      }
    case Union(members) => DesugarAllMean(env, members, v);
    case Intersection(members) => DesugarAllMean(env, members, v);
    case Array(element, _) =>
      forall x ensures Has(env, Desugar(element), x) <==> Has(env, element, x) { DesugarMeans(env, element, x); }
    case Object(fields) => if v.Obj? { DesugarFieldsMean(env, fields, v.entries); }
    case _ =>
  }

  lemma {:induction false} DesugarAllMean(env: Env, ts: seq<TypeAst>, v: Value)
    requires KnowsArrays(env)
    ensures HasSome(env, DesugarAll(ts), v) <==> HasSome(env, ts, v)
    ensures HasAll(env, DesugarAll(ts), v) <==> HasAll(env, ts, v)
    decreases ts
  {
    if ts != [] {
      DesugarMeans(env, ts[0], v);
      DesugarAllMean(env, ts[1..], v);
    }
  }

  lemma {:induction false} DesugarArgsMean(env: Env, ts: seq<TypeAst>)
    requires KnowsArrays(env)
    ensures MeaningAll(env, DesugarAll(ts)) == MeaningAll(env, ts)
    decreases ts
  {
    if ts != [] {
      forall v ensures Has(env, Desugar(ts[0]), v) <==> Has(env, ts[0], v) { DesugarMeans(env, ts[0], v); }
      SameMeaning(env, Desugar(ts[0]), ts[0]);
      DesugarArgsMean(env, ts[1..]);
    }
  }

  lemma {:induction false} DesugarFieldsMean(env: Env, fs: seq<Field>, m: map<string, Value>)
    requires KnowsArrays(env)
    ensures FieldsHold(env, DesugarFields(fs), m) <==> FieldsHold(env, fs, m)
    decreases fs
  {
    if fs != [] {
      if fs[0].name in m { DesugarMeans(env, fs[0].typ, m[fs[0].name]); }
      DesugarFieldsMean(env, fs[1..], m);
    }
  }

  /**
   * What a written type means, form by form: quoted text is that text, brackets and `readonly`
   * before them an array, `|` any and `&` all of the members, and gaps and parentheses nothing.
   */
  lemma FormMeans(env: Env, f: Form, v: Value)
    ensures f.Quoted? ==> (Has(env, Meant(f), v) <==> v == Str(TextOf(f.pieces)))
    ensures f.Brackets? ==> (Has(env, Meant(f), v) <==> v.Arr? && forall x :: x in v.items ==> Has(env, Meant(f.element), x))
    ensures f.Readonly? || f.Parens? || f.Spaced? ==> (Has(env, Meant(f), v) <==> Has(env, Meant(f.inner), v))
    ensures f.Or? && f.members != [] ==> (Has(env, Meant(f), v) <==> exists i :: 0 <= i < |f.members| && Has(env, Meant(f.members[i]), v))
    ensures f.And? && f.members != [] ==> (Has(env, Meant(f), v) <==> forall i :: 0 <= i < |f.members| ==> Has(env, Meant(f.members[i]), v))
  {
    match f
    case Quoted(_, pieces) => QuotedMeans(TextOf(pieces), v);
    case Or(_, members) => MembersMean(env, members, v);
    case And(members) => MembersMean(env, members, v);
    case _ =>
  }

  lemma QuotedMeans(text: string, v: Value)
    ensures HasLiteral(QuoteLiteral(text), v) <==> v == Str(text)
  {
    var q := QuoteLiteral(text);
    DecodeEscape(text);
    assert q[1..|q| - 1] == Escape(text);
    assert q[0] == '\'';
  }

  lemma {:induction false} MembersMean(env: Env, fs: seq<Form>, v: Value)
    ensures HasSome(env, MeantAll(fs), v) <==> exists i :: 0 <= i < |fs| && Has(env, Meant(fs[i]), v)
    ensures HasAll(env, MeantAll(fs), v) <==> forall i :: 0 <= i < |fs| ==> Has(env, Meant(fs[i]), v)
    ensures |fs| == 1 ==> MeantAll(fs) == [Meant(fs[0])]
  {
    if fs != [] {
      MembersMean(env, fs[1..], v);
      assert MeantAll(fs)[1..] == MeantAll(fs[1..]);
      forall i | 0 <= i < |fs[1..]| ensures fs[1..][i] == fs[i + 1] {}
      if i :| 0 <= i < |fs| && Has(env, Meant(fs[i]), v) { assert i > 0 ==> Has(env, Meant(fs[1..][i - 1]), v); }
      if i :| 0 <= i < |fs| && !Has(env, Meant(fs[i]), v) { assert i > 0 ==> !Has(env, Meant(fs[1..][i - 1]), v); }
    }
  }

  /** Declarations as they are written; the alias map holds their texts. */
  type Declarations = map<string, Form>

  function TextsOf(decls: Declarations): Aliases {
    map name | name in decls :: Spell(decls[name], "")
  }

  /** Every declaration is written correctly, and the environment gives each name what its declaration means. */
  ghost predicate Declares(env: Env, decls: Declarations) {
    forall name :: name in decls ==>
      Wellformed(decls[name]) && env.named(name, []) == Meaning(env, Meant(decls[name]))
  }

  /** The declared type, read, resolved and desugared, means what was written. */
  lemma DeclaredMeans(env: Env, decls: Declarations, typeName: string, v: Value)
    requires Declares(env, decls) && KnowsArrays(env) && typeName in decls
    ensures Has(env, DeclaredType(TextsOf(decls), typeName), v) <==> Has(env, Meant(decls[typeName]), v)
  {
    var aliases := TextsOf(decls);
    forall name | name in aliases ensures ParseType(aliases[name]) == Meant(decls[name]) {
      WritingIsRead(decls[name]);
    }
    var body := ParseType(aliases[typeName]);
    DesugarMeans(env, Resolve(body, aliases, {typeName}), v);
    ResolveMeans(env, body, aliases, {typeName}, v);
  }

  /** The canonical text of an unambiguous type parses to a clean one. */
  lemma SpecIsClean(le: Comparison, f: Field)
    requires Printable(f.typ)
    ensures Clean(ParseType(SpecOf(le, f).typ))
  {
    var t := Order(le, f.typ);
    OrderPrintable(le, f.typ);
    UnionReads(t, "");
    assert Print(t) + "" == Print(t);
    RereadIsClean(t);
  }

  /** The fields of this name have types that print unambiguously. */
  predicate PrintableField(t: TypeAst, name: string) {
    t.Object? ==> forall f :: f in t.fields && f.name == name ==> Printable(f.typ)
  }

  /**
   * From source text to promise: when a declared type shows no drift against its pins, each
   * pinned field is a field of that declaration which accepts every pinned value. Of the
   * declaration only that field has to print unambiguously.
   */
  lemma PinsHoldInTheSource(
      env: Env, le: Comparison, aliases: Aliases, typeName: string, pins: seq<FieldPin>, k: nat)
    returns (field: Field)
    requires Monotone(env) && k < |pins| && Clean(ParseType(pins[k].typ))
    requires FieldPinDrift(le, ExtractFieldSpecs(le, aliases, typeName), pins) == None
    requires typeName in aliases && PrintableField(DeclaredType(aliases, typeName), pins[k].name)
    ensures DeclaredType(aliases, typeName).Object? && field in DeclaredType(aliases, typeName).fields
    ensures field.name == pins[k].name && (pins[k].required ==> field.required)
    ensures Covers(env, field.typ, TypeOf(pins[k].typ))
    ensures !pins[k].expansion ==> Same(env, field.typ, TypeOf(pins[k].typ))
  {
    var live, t := ExtractFieldSpecs(le, aliases, typeName), DeclaredType(aliases, typeName);
    if live.Some? && LastNamed(live.value, pins[k].name).Some? {
      var f :| f in t.fields && LastNamed(live.value, pins[k].name).value == SpecOf(le, f);
      SpecIsClean(le, f);
    }
    NoDriftMeansServed(env, le, live, pins, k);
    field :| field in t.fields && LastNamed(live.value, pins[k].name).value == SpecOf(le, field);
    CanonicalRoundTrip(env, le, field.typ);
  }

  // ---------------------------------------------------------------- from what was written to what is sent

  lemma {:induction false} HeldField(env: Env, fs: seq<Field>, m: map<string, Value>, f: Field)
    requires f in fs && FieldsHold(env, fs, m)
    ensures FieldHolds(env, f, m)
  {
    if f != fs[0] { HeldField(env, fs[1..], m, f); }
  }

  /** The pinned type, as it is written, and the type its text stands for admit the same values. */
  lemma PinMeans(env: Env, pin: FieldPin, form: Form, v: Value)
    requires KnowsArrays(env) && Wellformed(form) && pin.typ == Spell(form, "")
    ensures Has(env, TypeOf(pin.typ), v) <==> Has(env, Meant(form), v)
  {
    WritingIsRead(form);
    DesugarMeans(env, Meant(form), v);
  }

  /**
   * From the written declarations to the values sent: when a declared type shows no drift, each
   * value of it is an object that carries a pinned required field, and without an expansion mark
   * what it carries there is a value of the pinned type, both types as they are written.
   */
  lemma PinsHoldAsWritten(
      env: Env, le: Comparison, decls: Declarations, typeName: string, pins: seq<FieldPin>, k: nat, form: Form, v: Value)
    requires Monotone(env) && KnowsArrays(env) && Declares(env, decls) && typeName in decls
    requires k < |pins| && Wellformed(form) && pins[k].typ == Spell(form, "") && Clean(Meant(form))
    requires FieldPinDrift(le, ExtractFieldSpecs(le, TextsOf(decls), typeName), pins) == None
    requires PrintableField(DeclaredType(TextsOf(decls), typeName), pins[k].name)
    requires Has(env, Meant(decls[typeName]), v)
    ensures v.Obj? && (pins[k].required ==> pins[k].name in v.entries)
    ensures pins[k].name in v.entries && !pins[k].expansion ==> Has(env, Meant(form), v.entries[pins[k].name])
  {
    WritingIsRead(form);
    DeclaredMeans(env, decls, typeName, v);
    var field := PinsHoldInTheSource(env, le, TextsOf(decls), typeName, pins, k);
    HeldField(env, DeclaredType(TextsOf(decls), typeName).fields, v.entries, field);
    if field.name in v.entries { PinMeans(env, pins[k], form, v.entries[field.name]); }
  }

  lemma {:induction false} OtherFields(env: Env, fs: seq<Field>, m: map<string, Value>, f: Field, x: Value)
    requires FieldsHold(env, fs, m) && Has(env, f.typ, x) && forall g :: g in fs && g.name == f.name ==> g == f
    ensures FieldsHold(env, fs, m[f.name := x])
  {
    if fs != [] { OtherFields(env, fs[1..], m, f, x); }
  }

  /** And it takes every pinned value: put one in the place of the field, and the object is still of the declared type. */
  lemma PinnedIsAccepted(
      env: Env, le: Comparison, decls: Declarations, typeName: string, pins: seq<FieldPin>, k: nat, form: Form, v: Value, x: Value)
    requires Monotone(env) && KnowsArrays(env) && Declares(env, decls) && typeName in decls
    requires k < |pins| && Wellformed(form) && pins[k].typ == Spell(form, "") && Clean(Meant(form))
    requires FieldPinDrift(le, ExtractFieldSpecs(le, TextsOf(decls), typeName), pins) == None
    requires PrintableField(DeclaredType(TextsOf(decls), typeName), pins[k].name)
    requires var t := DeclaredType(TextsOf(decls), typeName); t.Object? ==> DistinctNames(t.fields)
    requires Has(env, Meant(decls[typeName]), v) && Has(env, Meant(form), x)
    ensures v.Obj? && Has(env, Meant(decls[typeName]), Obj(v.entries[pins[k].name := x]))
  {
    WritingIsRead(form);
    DeclaredMeans(env, decls, typeName, v);
    var field := PinsHoldInTheSource(env, le, TextsOf(decls), typeName, pins, k);
    PinMeans(env, pins[k], form, x);
    OtherFields(env, DeclaredType(TextsOf(decls), typeName).fields, v.entries, field, x);
    DeclaredMeans(env, decls, typeName, Obj(v.entries[pins[k].name := x]));
  }
}
