/** Whatever text it is given, the parser only builds names and literals that print unambiguously. */
module TypeNames {
  import opened TypeSyntax
  import opened TypeParser
  import opened TypePrinter
  import opened TypeMeaning

  /** Names and literals are ones the parser reads back; lists of members are not empty. */
  predicate Named(t: TypeAst) {
    match t
    case Keyword(name) => name in TYPE_KEYWORDS
    case Literal(text) => IsLiteralWord(text) || IsQuoted(text)
    case Opaque(_) => true
    case Frozen(inner) => Named(inner)
    case Array(element, _) => Named(element)
    case Ref(name, args) => IsRefName(name) && forall a :: a in args ==> Named(a)
    case Union(members) => members != [] && forall m :: m in members ==> Named(m)
    case Intersection(members) => members != [] && forall m :: m in members ==> Named(m)
    case Object(fields) => forall f :: f in fields ==> IsWord(f.name) && Named(f.typ)
  }

  /** No opaque part, and no union directly under an intersection. */
  predicate Clean(t: TypeAst) {
    match t
    case Keyword(_) => true
    case Literal(_) => true
    case Opaque(_) => false
    case Frozen(_) => false
    case Array(element, _) => Clean(element)
    case Ref(_, args) => forall a :: a in args ==> Clean(a)
    case Union(members) => forall m :: m in members ==> Clean(m)
    case Intersection(members) => forall m :: m in members ==> Clean(m) && !m.Union?
    case Object(fields) => forall f :: f in fields ==> Clean(f.typ)
  }

  lemma QuoteIsQuoted(v: string)
    ensures IsQuoted(QuoteLiteral(v))
  {
    var text := QuoteLiteral(v);
    assert text[1..|text| - 1] == Escape(v);
    DecodeEscape(v);
  }

  lemma {:induction false} UnionNamed(s: string)
    ensures Named(ParseUnion(s).value)
    decreases |s|, 8
  {
    var t := SkipTrivia(s);
    var t1 := if StartsWith(t, '|') then t[1..] else t;
    IntersectionNamed(t1);
    UnionRestNamed(ParseIntersection(t1).rest);
  }

  lemma {:induction false} UnionRestNamed(s: string)
    ensures forall m :: m in ParseUnionRest(s).value ==> Named(m)
    decreases |s|, 7
  {
    var bar := Eat("|", s);
    if bar.value {
      IntersectionNamed(bar.rest);
      UnionRestNamed(ParseIntersection(bar.rest).rest);
    }
  }

  lemma {:induction false} IntersectionNamed(s: string)
    ensures Named(ParseIntersection(s).value)
    decreases |s|, 6
  {
    PostfixNamed(s);
    IntersectionRestNamed(ParsePostfix(s).rest);
  }

  lemma {:induction false} IntersectionRestNamed(s: string)
    ensures forall m :: m in ParseIntersectionRest(s).value ==> Named(m)
    decreases |s|, 5
  {
    var amp := Eat("&", s);
    if amp.value {
      PostfixNamed(amp.rest);
      IntersectionRestNamed(ParsePostfix(amp.rest).rest);
    }
  }

  lemma {:induction false} PostfixNamed(s: string)
    ensures Named(ParsePostfix(s).value)
    decreases |s|, 4
  {
    PrimaryNamed(s);
    BracketsNamed(ParsePrimary(s).value, ParsePrimary(s).rest);
  }

  lemma {:induction false} BracketsNamed(ast: TypeAst, s: string)
    requires Named(ast)
    ensures Named(ParseBrackets(ast, s).value)
    decreases |s|
  {
    var brackets := Eat("[]", s);
    if brackets.value { BracketsNamed(Array(ast, false), brackets.rest); }
  }

  lemma {:induction false} PrimaryNamed(s: string)
    ensures Named(ParsePrimary(s).value)
    decreases |s|, 3
  {
    var t := SkipTrivia(s);
    if t[..WordLength(t)] == "readonly" {
      PostfixNamed(t[8..]);
    } else if StartsWith(t, '(') {
      UnionNamed(t[1..]);
    } else if StartsWith(t, '{') {
      FieldsNamed(t[1..]);
    } else if StartsWith(t, '\'') || StartsWith(t, '"') {
      QuoteIsQuoted(ReadQuoted(t).value);
    } else if ReadWord(t).value != "" {
      assert SkipTrivia(t) == t;
      WordTypeNamed(ReadWord(t).value, ReadWord(t).rest);
    }
  }

  lemma {:induction false} WordTypeNamed(word: string, s: string)
    requires IsWord(word) && word != "readonly"
    ensures Named(ParseWordType(word, s).value)
    decreases |s|, 10
  {
    var angle := Eat("<", s);
    if angle.value { ArgsNamed(angle.rest); }
  }

  lemma {:induction false} ArgsNamed(s: string)
    ensures forall a :: a in ParseArgs(s).value ==> Named(a)
    decreases |s|, 9
  {
    if s != "" {
      var t := SkipTrivia(s);
      if !StartsWith(t, '>') {
        UnionNamed(t);
        var u := SkipTrivia(ParseUnion(t).rest);
        if StartsWith(u, ',') { ArgsNamed(u[1..]); }
      }
    }
  }

  lemma {:induction false} FieldsNamed(s: string)
    ensures forall f :: f in ParseFields(s).value ==> IsWord(f.name) && Named(f.typ)
    decreases |s|, 9
  {
    var t := SkipTrivia(s);
    if s == "" || t == "" || t[0] == '}' {
    } else if t[0] == ';' || t[0] == ',' {
      FieldsNamed(t[1..]);
    } else {
      FieldNamed(t);
      var left := ParseField(t).rest;
      FieldsNamed(if |left| < |t| then left else t[1..]);
    }
  }

  lemma {:induction false} FieldNamed(t: string)
    ensures var r := ParseField(t).value; r.Some? ==> IsWord(r.value.name) && Named(r.value.typ)
    decreases |t|, 7
  {
    var s := SkipTrivia(DropReadonly(t));
    var name := if StartsWith(s, '\'') || StartsWith(s, '"') then ReadQuoted(s) else ReadWord(s);
    if IsWord(name.value) {
      var colon := Eat(":", Eat("?", name.rest).rest);
      if colon.value { UnionNamed(colon.rest); }
    }
  }

  /** A parsed type without opaque parts or ambiguous intersections prints unambiguously once desugared. */
  lemma {:induction false} CleanIsPrintable(t: TypeAst)
    requires Named(t) && Clean(t)
    ensures Printable(Desugar(t)) && (Desugar(t).Union? <==> t.Union?)
    decreases t
  {
    match t
    case Union(members) => CleanAll(members);
    case Intersection(members) => CleanAll(members);
    case Array(element, _) => CleanIsPrintable(element);
    case Ref(_, args) =>
      CleanAll(args);
      if |args| == 1 { CleanIsPrintable(args[0]); }
    case Object(fields) =>
      forall f | f in DesugarFields(fields) ensures IsWord(f.name) && Printable(f.typ) {
        var i: nat :| i < |fields| && DesugarFields(fields)[i] == f;
        assert fields[i] in fields;
        CleanIsPrintable(fields[i].typ);
      }
    case _ =>
  }

  lemma {:induction false} CleanAll(ts: seq<TypeAst>)
    requires forall t :: t in ts ==> Named(t) && Clean(t)
    ensures forall d :: d in DesugarAll(ts) ==> Printable(d)
    ensures (forall t :: t in ts ==> !t.Union?) ==> forall d :: d in DesugarAll(ts) ==> !d.Union?
    decreases ts
  {
    if ts != [] {
      CleanIsPrintable(ts[0]);
      CleanAll(ts[1..]);
    }
  }

  /** For every text: what the parser makes of it prints unambiguously when it is clean. */
  lemma ParsedIsPrintable(text: string)
    requires Clean(ParseType(text))
    ensures Printable(Desugar(ParseType(text)))
  {
    UnionNamed(text);
    CleanIsPrintable(ParseType(text));
  }

  // ---------------------------------------------------------------- printed types read back clean

  lemma {:induction false} RereadIsClean(t: TypeAst)
    requires Printable(t)
    ensures Clean(Reread(t))
    decreases t, 3
  {
    UnionPartsClean(t);
  }

  lemma {:induction false} UnionPartsClean(t: TypeAst)
    requires Printable(t)
    ensures forall p :: p in UnionParts(t) ==> Clean(p)
    decreases t, 2
  {
    if t.Union? {
      AllUnionPartsClean(t.members);
    } else {
      IntersectionPartsClean(t);
    }
  }

  lemma {:induction false} AllUnionPartsClean(ts: seq<TypeAst>)
    requires forall t :: t in ts ==> Printable(t)
    ensures forall p :: p in AllUnionParts(ts) ==> Clean(p)
    decreases ts
  {
    if ts != [] {
      UnionPartsClean(ts[0]);
      AllUnionPartsClean(ts[1..]);
    }
  }

  lemma {:induction false} IntersectionPartsClean(t: TypeAst)
    requires Printable(t) && !t.Union?
    ensures forall p :: p in IntersectionParts(t) ==> Clean(p) && !p.Union?
    decreases t, 1
  {
    if t.Intersection? {
      AllIntersectionPartsClean(t.members);
    } else {
      PlainIsClean(t);
    }
  }

  lemma {:induction false} AllIntersectionPartsClean(ts: seq<TypeAst>)
    requires forall t :: t in ts ==> Printable(t) && !t.Union?
    ensures forall p :: p in AllIntersectionParts(ts) ==> Clean(p) && !p.Union?
    decreases ts
  {
    if ts != [] {
      IntersectionPartsClean(ts[0]);
      AllIntersectionPartsClean(ts[1..]);
    }
  }

  lemma {:induction false} PlainIsClean(t: TypeAst)
    requires Printable(t) && !t.Union? && !t.Intersection?
    ensures Clean(RereadPlain(t))
    decreases t, 0
  {
    match t
    case Array(element, _) => RereadIsClean(element);
    case Ref(_, args) => RereadAllClean(args);
    case Object(fields) => RereadFieldsClean(fields);
    case _ =>
  }

  lemma {:induction false} RereadAllClean(ts: seq<TypeAst>)
    requires forall t :: t in ts ==> Printable(t)
    ensures forall r :: r in RereadAll(ts) ==> Clean(r)
    decreases ts
  {
    if ts != [] {
      RereadIsClean(ts[0]);
      RereadAllClean(ts[1..]);
    }
  }

  lemma {:induction false} RereadFieldsClean(fs: seq<Field>)
    requires forall f :: f in fs ==> Printable(f.typ)
    ensures forall r :: r in RereadFields(fs) ==> Clean(r.typ)
    decreases fs
  {
    if fs != [] {
      RereadIsClean(fs[0].typ);
      RereadFieldsClean(fs[1..]);
    }
  }
}
