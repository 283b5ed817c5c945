/**
 * The ways a type can be written, and that the parser reads every one of them as the type
 * that was meant: `T[]`, `readonly T[]`, parentheses, a leading `|`, either quotes, escapes,
 * `;`, `,` or nothing between fields, and white space and comments between the tokens.
 */
module TypeWriting {
  import opened Prelude
  import opened TypeSyntax
  import opened TypeParser
  import opened TypePrinter

  // ---------------------------------------------------------------- forms

  datatype Trivia = Blank(c: char) | Line(text: string) | Block(text: string)

  type Gap = seq<Trivia>

  /** One character between quotes, as itself or after a backslash. */
  datatype Piece = Char(c: char) | Escaped(c: char)

  datatype Form =
    | Key(name: string)
    | Number(digits: string)
    | Truth(value: bool)
    | Name(name: string)
    | Quoted(mark: char, pieces: seq<Piece>)
    | Applied(name: string, gap: Gap, args: seq<Form>)
    | Brackets(element: Form)
    | Readonly(inner: Form)
    | Parens(inner: Form)
    | Braces(fields: seq<FieldForm>, gap: Gap)
    | And(members: seq<Form>)
    | Or(leading: bool, members: seq<Form>)
    | Spaced(before: Gap, inner: Form, after: Gap)

  /** A field: its name bare or in quotes, perhaps after `readonly`, its type, and what separates it from the next. */
  datatype FieldForm = FieldForm(
    before: Gap, frozen: bool, between: Gap, mark: Option<char>, name: string, after: Gap,
    required: bool, colon: Gap, typ: Form, ends: seq<End>)

  datatype End = End(gap: Gap, sep: char)

  // ---------------------------------------------------------------- their text

  function SpellGap(g: Gap, rest: string): string {
    if g == [] then rest
    else
      var more := SpellGap(g[1..], rest);
      match g[0]
      case Blank(c) => [c] + more
      case Line(text) => "//" + (text + ("\n" + more))
      case Block(text) => "/*" + (text + ("*/" + more))
  }

  function SpellPieces(ps: seq<Piece>, rest: string): string {
    if ps == [] then rest
    else
      var more := SpellPieces(ps[1..], rest);
      match ps[0]
      case Char(c) => [c] + more
      case Escaped(c) => ['\\', c] + more
  }

  /** The text of a form, followed by `rest`. */
  function Spell(f: Form, rest: string): string
    decreases f
  {
    match f
    case Key(name) => name + rest
    case Number(digits) => digits + rest
    case Truth(value) => (if value then "true" else "false") + rest
    case Name(name) => name + rest
    case Quoted(mark, pieces) => [mark] + SpellPieces(pieces, [mark] + rest)
    case Applied(name, gap, args) => name + SpellGap(gap, "<" + SpellList(args, ',', ">" + rest))
    case Brackets(element) => Spell(element, "[]" + rest)
    case Readonly(inner) => "readonly" + Spell(inner, rest)
    case Parens(inner) => "(" + Spell(inner, ")" + rest)
    case Braces(fields, gap) => "{" + SpellFields(fields, SpellGap(gap, "}" + rest))
    case And(members) => SpellList(members, '&', rest)
    case Or(leading, members) => (if leading then "|" else "") + SpellList(members, '|', rest)
    case Spaced(before, inner, after) => SpellGap(before, Spell(inner, SpellGap(after, rest)))
  }

  function SpellList(fs: seq<Form>, sep: char, rest: string): string
    decreases fs
  {
    if fs == [] then rest else Spell(fs[0], SpellTail(fs[1..], sep, rest))
  }

  function SpellTail(fs: seq<Form>, sep: char, rest: string): string
    decreases fs
  {
    if fs == [] then rest else [sep] + Spell(fs[0], SpellTail(fs[1..], sep, rest))
  }

  function SpellFields(fs: seq<FieldForm>, rest: string): string
    decreases fs
  {
    if fs == [] then rest else SpellField(fs[0], SpellEnds(fs[0].ends, SpellFields(fs[1..], rest)))
  }

  function SpellField(f: FieldForm, rest: string): string
    decreases f
  {
    var named := SpellName(f.mark, f.name, SpellTyped(f, rest));
    SpellGap(f.before, if f.frozen then "readonly" + SpellGap(f.between, named) else named)
  }

  function SpellName(mark: Option<char>, name: string, rest: string): string {
    if mark.None? then name + rest else [mark.value] + (name + ([mark.value] + rest))
  }

  function SpellTyped(f: FieldForm, rest: string): string
    decreases f, 0
  {
    var typed := ":" + Spell(f.typ, rest);
    SpellGap(f.after, if f.required then typed else "?" + SpellGap(f.colon, typed))
  }

  function SpellEnds(ends: seq<End>, rest: string): string {
    if ends == [] then rest else SpellGap(ends[0].gap, [ends[0].sep] + SpellEnds(ends[1..], rest))
  }

  // ---------------------------------------------------------------- the type that is meant

  function Meant(f: Form): TypeAst
    decreases f
  {
    match f
    case Key(name) => Keyword(name)
    case Number(digits) => Literal(digits)
    case Truth(value) => Literal(if value then "true" else "false")
    case Name(name) => Ref(name, [])
    case Quoted(_, pieces) => Literal(QuoteLiteral(TextOf(pieces)))
    case Applied(name, _, args) => Ref(name, MeantAll(args))
    case Brackets(element) => Array(Meant(element), false)
    case Readonly(inner) => (match Meant(inner) case Array(element, _) => Array(element, true) case other => Frozen(other))
    case Parens(inner) => Meant(inner)
    case Braces(fields, _) => Object(MeantFields(fields))
    case And(members) => (var ts := MeantAll(members); if |ts| == 1 then ts[0] else Intersection(ts))
    case Or(_, members) => (var ts := MeantAll(members); if |ts| == 1 then ts[0] else Union(ts))
    case Spaced(_, inner, _) => Meant(inner)
  }

  function MeantAll(fs: seq<Form>): (r: seq<TypeAst>)
    ensures |r| == |fs|
    decreases fs
  {
    if fs == [] then [] else [Meant(fs[0])] + MeantAll(fs[1..])
  }

  function MeantFields(fs: seq<FieldForm>): seq<Field>
    decreases fs
  {
    if fs == [] then [] else [Field(fs[0].name, fs[0].required, Meant(fs[0].typ))] + MeantFields(fs[1..])
  }

  /** The characters between the quotes: after a backslash `n` is a line break, any other character itself. */
  function TextOf(ps: seq<Piece>): string {
    if ps == [] then ""
    else [if ps[0] == Escaped('n') then '\n' else ps[0].c] + TextOf(ps[1..])
  }

  // ---------------------------------------------------------------- what may be written

  predicate IsTrivia(t: Trivia) {
    match t
    case Blank(c) => c == ' ' || c == '\t' || c == '\n' || c == '\r'
    case Line(text) => '\n' !in text
    case Block(text) => forall i :: 0 <= i < |text| - 1 ==> text[i] != '*' || text[i + 1] != '/'
  }

  predicate IsGap(g: Gap) {
    forall t :: t in g ==> IsTrivia(t)
  }

  predicate IsMark(c: char) {
    c == '\'' || c == '"'
  }

  predicate IsPiece(mark: char, p: Piece) {
    p.Char? ==> p.c != mark && p.c != '\\'
  }

  /** A name of a type: a word that is no keyword, no numeral and no truth value. */
  predicate IsTypeName(w: string) {
    IsWord(w) && !IsDigits(w) && w !in TYPE_KEYWORDS && w != "true" && w != "false" && w != "readonly"
  }

  /** How loosely a form binds: 0 takes brackets after it, 1 is `readonly`, 2 joins with `&`, 3 with `|`. */
  function Level(f: Form): nat {
    match f
    case Readonly(_) => 1
    case And(_) => 2
    case Or(_, _) => 3
    case Spaced(_, inner, _) => Level(inner)
    case _ => 0
  }

  /** The text of the form does not begin with a word, so it may follow one directly. */
  predicate Apart(f: Form) {
    match f
    case Quoted(_, _) => true
    case Parens(_) => true
    case Braces(_, _) => true
    case Brackets(element) => Apart(element)
    case Spaced(before, inner, _) => before != [] || Apart(inner)
    case _ => false
  }

  predicate Wellformed(f: Form)
    decreases f
  {
    match f
    case Key(name) => name in TYPE_KEYWORDS
    case Number(digits) => IsDigits(digits)
    case Truth(_) => true
    case Name(name) => IsTypeName(name)
    case Quoted(mark, pieces) => IsMark(mark) && forall p :: p in pieces ==> IsPiece(mark, p)
    case Applied(name, gap, args) => IsTypeName(name) && IsGap(gap) && args != [] && forall a :: a in args ==> Wellformed(a)
    case Brackets(element) => Wellformed(element) && Level(element) == 0
    case Readonly(inner) => Wellformed(inner) && Level(inner) == 0 && Apart(inner)
    case Parens(inner) => Wellformed(inner)
    case Braces(fields, gap) => IsGap(gap) && AllFields(fields)
    case And(members) => members != [] && forall m :: m in members ==> Wellformed(m) && Level(m) <= 1
    case Or(_, members) => members != [] && forall m :: m in members ==> Wellformed(m) && Level(m) <= 2
    case Spaced(before, inner, after) => IsGap(before) && IsGap(after) && Wellformed(inner)
  }

  predicate AllFields(fs: seq<FieldForm>)
    decreases fs
  {
    fs == [] || (IsField(fs[0]) && AllFields(fs[1..]) && (fs[0].ends == [] && |fs| > 1 ==> FieldApart(fs[1])))
  }

  predicate IsField(f: FieldForm)
    decreases f
  {
    && IsWord(f.name) && (f.mark.Some? ==> IsMark(f.mark.value))
    && IsGap(f.before) && IsGap(f.between) && IsGap(f.after) && IsGap(f.colon)
    && (f.frozen ==> f.between != [] || f.mark.Some?)
    && Wellformed(f.typ)
    && forall e :: e in f.ends ==> IsGap(e.gap) && (e.sep == ';' || e.sep == ',')
  }

  predicate FieldApart(f: FieldForm) {
    f.before != [] || (!f.frozen && f.mark.Some?)
  }

  // ---------------------------------------------------------------- gaps

  lemma {:induction false} LineSkips(text: string, s: string)
    requires '\n' !in text
    ensures SkipLine(text + ("\n" + s)) == "\n" + s
  {
    if text == "" {
      assert text + ("\n" + s) == "\n" + s;
    } else {
      assert (text + ("\n" + s))[1..] == text[1..] + ("\n" + s);
      LineSkips(text[1..], s);
    }
  }

  lemma {:induction false} BlockSkips(text: string, s: string)
    requires IsTrivia(Block(text))
    ensures SkipBlock(text + ("*/" + s)) == s
  {
    var all := text + ("*/" + s);
    if text == "" {
      assert all == "*/" + s && all[2..] == s;
    } else {
      assert all[1..] == text[1..] + ("*/" + s);
      assert all[0] == text[0] && all[1] == if |text| > 1 then text[1] else '*';
      forall i | 0 <= i < |text[1..]| - 1 ensures text[1..][i] != '*' || text[1..][i + 1] != '/' {
        assert text[1..][i] == text[i + 1] && text[1..][i + 1] == text[i + 2];
      }
      BlockSkips(text[1..], s);
    }
  }

  lemma {:induction false} GapSkips(g: Gap, s: string)
    requires IsGap(g)
    ensures SkipTrivia(SpellGap(g, s)) == SkipTrivia(s)
    ensures g != [] ==> SpellGap(g, s) != "" && !IsWordChar(SpellGap(g, s)[0])
    ensures |s| <= |SpellGap(g, s)|
  {
    if g != [] {
      var more, all := SpellGap(g[1..], s), SpellGap(g, s);
      assert IsTrivia(g[0]);
      GapSkips(g[1..], s);
      match g[0]
      case Blank(c) =>
        assert all[1..] == more;
      case Line(text) =>
        assert all[2..] == text + ("\n" + more);
        LineSkips(text, more);
        assert ("\n" + more)[1..] == more;
      case Block(text) =>
        assert all[2..] == text + ("*/" + more);
        BlockSkips(text, more);
    }
  }

  /** What may follow a form that takes brackets. */
  predicate Boundary(rest: string) {
    (rest == "" || !IsWordChar(rest[0])) && !StartsWith(SkipTrivia(rest), '<')
  }

  lemma GapEnds(g: Gap, s: string)
    requires IsGap(g)
    ensures Boundary(s) ==> Boundary(SpellGap(g, s))
    ensures Ends(s) ==> Ends(SpellGap(g, s))
    ensures EndsIntersection(s) ==> EndsIntersection(SpellGap(g, s))
    ensures EndsUnion(s) ==> EndsUnion(SpellGap(g, s))
    ensures SkipTrivia(SpellGap(g, s)) == SkipTrivia(s)
  {
    GapSkips(g, s);
  }

  /** A gap before a type does not change how it is read. */
  lemma {:induction false} GapBefore(g: Gap, t: string)
    requires IsGap(g)
    ensures var s := SpellGap(g, t);
      ParsePostfix(s) == ParsePostfix(t) && ParseIntersection(s) == ParseIntersection(t) && ParseUnion(s) == ParseUnion(t)
  {
    var s := SpellGap(g, t);
    GapSkips(g, t);
    Skipped(t);
    Skipped(s);
  }

  lemma {:induction false} SignEnds(c: char, s: string)
    requires c == '&' || c == '|' || c == ',' || c == ';' || c == '}' || c == '>' || c == ')' || c == '['
    ensures Boundary([c] + s) && SkipTrivia([c] + s) == [c] + s && ([c] + s)[1..] == s
    ensures c != '[' ==> Ends([c] + s)
  {
    assert ([c] + s)[0] == c;
  }

  // ---------------------------------------------------------------- quoted text

  lemma {:induction false} PiecesRead(before: string, mark: char, ps: seq<Piece>, rest: string)
    requires forall p :: p in ps ==> IsPiece(mark, p)
    requires mark != '\\'
    ensures var s := before + SpellPieces(ps, [mark] + rest); var n := |before| + |SpellPieces(ps, "")|;
      QuotedEnd(s, mark, |before|) == n + 1 && n + 1 <= |s| && s[..n] == before + SpellPieces(ps, "") && s[n + 1..] == rest
    decreases ps
  {
    var s := before + SpellPieces(ps, [mark] + rest);
    if ps == [] {
      assert s[|before|] == mark;
    } else {
      var unit := if ps[0].Char? then [ps[0].c] else ['\\', ps[0].c];
      assert IsPiece(mark, ps[0]);
      assert SpellPieces(ps, "") == unit + SpellPieces(ps[1..], "");
      assert s == (before + unit) + SpellPieces(ps[1..], [mark] + rest);
      assert s[|before|] == unit[0];
      PiecesRead(before + unit, mark, ps[1..], rest);
      assert (before + unit) + SpellPieces(ps[1..], "") == before + SpellPieces(ps, "");
    }
  }

  lemma {:induction false} PiecesDecode(mark: char, ps: seq<Piece>)
    requires forall p :: p in ps ==> IsPiece(mark, p)
    ensures Decode(SpellPieces(ps, "")) == TextOf(ps)
  {
    if ps != [] {
      PiecesDecode(mark, ps[1..]);
      var more := SpellPieces(ps[1..], "");
      assert IsPiece(mark, ps[0]);
      if ps[0].Char? {
        assert ([ps[0].c] + more)[1..] == more;
      } else {
        assert (['\\', ps[0].c] + more)[2..] == more;
      }
    }
  }

  lemma {:induction false} QuotedReads(mark: char, ps: seq<Piece>, rest: string)
    requires IsMark(mark) && forall p :: p in ps ==> IsPiece(mark, p)
    ensures ReadQuoted([mark] + SpellPieces(ps, [mark] + rest)) == Parsed(TextOf(ps), rest)
  {
    var t := [mark] + SpellPieces(ps, [mark] + rest);
    var n := |SpellPieces(ps, "")|;
    PiecesRead([mark], mark, ps, rest);
    PiecesDecode(mark, ps);
    assert t[1..n + 1] == t[..n + 1][1..] == SpellPieces(ps, "");
  }

  // ---------------------------------------------------------------- how a form begins

  /** The first character of a type that is not an array, a list or a gap. */
  predicate Opens(c: char) {
    IsWordChar(c) || c == '\'' || c == '"' || c == '(' || c == '{'
  }

  lemma {:induction false} FormStarts(f: Form, rest: string)
    requires Wellformed(f) && Level(f) <= 2
    ensures var t := SkipTrivia(Spell(f, rest)); t != "" && Opens(t[0])
    ensures Spell(f, rest) != "" && (Apart(f) ==> !IsWordChar(Spell(f, rest)[0]))
    decreases f
  {
    if f.Spaced? {
      FormStarts(f.inner, SpellGap(f.after, rest));
      GapSkips(f.before, Spell(f.inner, SpellGap(f.after, rest)));
    } else if f.Brackets? {
      FormStarts(f.element, "[]" + rest);
    } else if f.And? {
      FormStarts(f.members[0], SpellTail(f.members[1..], '&', rest));
    } else {
      if f.Key? { KeywordIsWord(f.name); }
      if f.Number? { LiteralIsWord(f.digits); }
      assert Spell(f, rest) != "" && Opens(Spell(f, rest)[0]);
    }
  }

  /** With its leading bar a form may also begin with `|`. */
  lemma {:induction false} ArgBegins(f: Form, rest: string)
    requires Wellformed(f)
    ensures var t := SkipTrivia(Spell(f, rest)); t != "" && (Opens(t[0]) || t[0] == '|')
    ensures Spell(f, rest) != ""
    decreases f
  {
    match f
    case Or(leading, members) =>
      FormStarts(members[0], SpellTail(members[1..], '|', rest));
      if leading {
        SignEnds('|', SpellList(members, '|', rest));
      } else {
        assert Spell(f, rest) == SpellList(members, '|', rest);
      }
    case Spaced(before, inner, after) =>
      ArgBegins(inner, SpellGap(after, rest));
      GapSkips(before, Spell(inner, SpellGap(after, rest)));
    case _ => FormStarts(f, rest);
  }

  // ---------------------------------------------------------------- single types

  lemma {:induction false} BracketsSkipped(ast: TypeAst, s: string)
    ensures ParseBrackets(ast, SkipTrivia(s)) == ParseBrackets(ast, s)
  {
    EatSkipped("[]", s);
  }

  lemma {:induction false} BracketsRead(ast: TypeAst, rest: string)
    ensures ParseBrackets(ast, "[]" + rest) == ParseBrackets(Array(ast, false), rest)
  {
    assert ("[]" + rest)[2..] == rest;
  }

  lemma {:induction false} WordReads(f: Form, rest: string)
    requires Wellformed(f) && Boundary(rest) && (f.Key? || f.Number? || f.Truth? || f.Name?)
    ensures ParsePostfix(Spell(f, rest)) == ParseBrackets(Meant(f), rest)
  {
    BracketsSkipped(Meant(f), rest);
    match f
    case Key(name) =>
      KeywordIsWord(name);
      ReadsWord(name, rest);
    case Number(digits) =>
      LiteralIsWord(digits);
      ReadsWord(digits, rest);
    case Truth(value) =>
      var w := if value then "true" else "false";
      LiteralIsWord(w);
      ReadsWord(w, rest);
    case Name(name) =>
      ReadsWord(name, rest);
      EatOther('<', rest);
  }

  lemma {:induction false} QuotedPrimary(mark: char, ps: seq<Piece>, rest: string)
    requires Wellformed(Quoted(mark, ps))
    ensures ParsePrimary(Spell(Quoted(mark, ps), rest)) == Parsed(Meant(Quoted(mark, ps)), rest)
  {
    var t := Spell(Quoted(mark, ps), rest);
    QuotedReads(mark, ps, rest);
    assert t[0] == mark && SkipTrivia(t) == t && WordLength(t) == 0 && t[..0] == "";
  }

  lemma {:induction false} ParensPrimary(body: string, ast: TypeAst, rest: string)
    requires ParseUnion(body) == Parsed(ast, ")" + rest)
    ensures ParsePrimary("(" + body) == Parsed(ast, rest)
  {
    var t := "(" + body;
    assert t[0] == '(' && SkipTrivia(t) == t && WordLength(t) == 0 && t[..0] == "" && t[1..] == body;
    SignEnds(')', rest);
  }

  lemma {:induction false} AppliedPrimary(name: string, gap: Gap, body: string, args: seq<TypeAst>, rest: string)
    requires IsTypeName(name) && IsGap(gap) && ParseArgs(body) == Parsed(args, ">" + rest)
    ensures ParsePrimary(name + SpellGap(gap, "<" + body)) == Parsed(Ref(name, args), rest)
  {
    var after := SpellGap(gap, "<" + body);
    GapSkips(gap, "<" + body);
    ReadsWord(name, after);
    AngleThen(body);
    AngleThen(rest);
    EatSkipped("<", after);
    EatSkipped("<", "<" + body);
  }

  lemma {:induction false} ReadonlyPrimary(body: string, ast: TypeAst, left: string)
    requires body != "" && !IsWordChar(body[0]) && ParsePostfix(body) == Parsed(ast, left)
    ensures ParsePrimary("readonly" + body) == Parsed(if ast.Array? then Array(ast.element, true) else Frozen(ast), left)
  {
    var t := "readonly" + body;
    WordThen("readonly", body);
    assert SkipTrivia(t) == t;
  }

  // ---------------------------------------------------------------- the induction

  /** A form that takes brackets is read up to the brackets after it. */
  lemma {:induction false} TightReads(f: Form, rest: string)
    requires Wellformed(f) && Level(f) == 0 && Boundary(rest)
    ensures ParsePostfix(Spell(f, rest)) == ParseBrackets(Meant(f), rest)
    decreases f, 0
  {
    match f
    case Quoted(mark, pieces) => QuotedPrimary(mark, pieces, rest);
    case Applied(name, gap, args) =>
      ArgsWritten(args, rest);
      AppliedPrimary(name, gap, SpellList(args, ',', ">" + rest), MeantAll(args), rest);
    case Brackets(element) =>
      SignEnds('[', "]" + rest);
      assert ['['] + ("]" + rest) == "[]" + rest;
      TightReads(element, "[]" + rest);
      BracketsRead(Meant(element), rest);
    case Parens(inner) =>
      SignEnds(')', rest);
      FormReads(inner, ")" + rest);
      ParensPrimary(Spell(inner, ")" + rest), Meant(inner), rest);
    case Braces(fields, gap) =>
      FieldsWritten(fields, gap, rest);
      ReadsObject(SpellFields(fields, SpellGap(gap, "}" + rest)));
    case Spaced(before, inner, after) =>
      GapEnds(after, rest);
      TightReads(inner, SpellGap(after, rest));
      GapBefore(before, Spell(inner, SpellGap(after, rest)));
      BracketsSkipped(Meant(inner), SpellGap(after, rest));
      BracketsSkipped(Meant(inner), rest);
    case _ => WordReads(f, rest);
  }

  lemma {:induction false} MemberReads(f: Form, rest: string)
    requires Wellformed(f) && Level(f) <= 1 && Ends(rest)
    ensures ParsePostfix(Spell(f, rest)) == Parsed(Meant(f), SkipTrivia(rest))
    decreases f, 1
  {
    if f.Readonly? {
      FormStarts(f.inner, rest);
      TightReads(f.inner, rest);
      NoBrackets(Meant(f.inner), rest);
      ReadonlyPrimary(Spell(f.inner, rest), Meant(f.inner), SkipTrivia(rest));
      Skipped(rest);
      NoBrackets(Meant(f), SkipTrivia(rest));
    } else if f.Spaced? {
      GapEnds(f.after, rest);
      MemberReads(f.inner, SpellGap(f.after, rest));
      GapBefore(f.before, Spell(f.inner, SpellGap(f.after, rest)));
    } else {
      TightReads(f, rest);
      NoBrackets(Meant(f), rest);
    }
  }

  lemma {:induction false} AndTailReads(fs: seq<Form>, rest: string)
    requires (forall f :: f in fs ==> Wellformed(f) && Level(f) <= 1) && EndsIntersection(rest)
    ensures ParseIntersectionRest(SpellTail(fs, '&', rest)) == Parsed(MeantAll(fs), SkipTrivia(rest))
    ensures Ends(SpellTail(fs, '&', rest))
    decreases fs
  {
    if fs == [] {
      EatOther('&', rest);
    } else {
      var more := SpellTail(fs[1..], '&', rest);
      AndTailReads(fs[1..], rest);
      MemberReads(fs[0], more);
      RestSkipped(more);
      SignEnds('&', Spell(fs[0], more));
    }
  }

  lemma {:induction false} JoinReads(f: Form, rest: string)
    requires Wellformed(f) && Level(f) <= 2 && EndsIntersection(rest)
    ensures ParseIntersection(Spell(f, rest)) == Parsed(Meant(f), SkipTrivia(rest))
    decreases f, 2
  {
    if f.And? {
      var more := SpellTail(f.members[1..], '&', rest);
      AndTailReads(f.members[1..], rest);
      MemberReads(f.members[0], more);
      RestSkipped(more);
    } else if f.Spaced? {
      GapEnds(f.after, rest);
      JoinReads(f.inner, SpellGap(f.after, rest));
      GapBefore(f.before, Spell(f.inner, SpellGap(f.after, rest)));
    } else {
      MemberReads(f, rest);
      EatOther('&', rest);
      RestSkipped(rest);
    }
  }

  lemma {:induction false} OrTailReads(fs: seq<Form>, rest: string)
    requires (forall f :: f in fs ==> Wellformed(f) && Level(f) <= 2) && EndsUnion(rest)
    ensures ParseUnionRest(SpellTail(fs, '|', rest)) == Parsed(MeantAll(fs), SkipTrivia(rest))
    ensures EndsIntersection(SpellTail(fs, '|', rest))
    decreases fs
  {
    if fs == [] {
      EatOther('|', rest);
    } else {
      var more := SpellTail(fs[1..], '|', rest);
      OrTailReads(fs[1..], rest);
      JoinReads(fs[0], more);
      RestSkipped(more);
      SignEnds('|', Spell(fs[0], more));
    }
  }

  lemma {:induction false} BarReads(leading: bool, s: string, first: TypeAst, mid: string, more: seq<TypeAst>, left: string)
    requires SkipTrivia(s) != "" && Opens(SkipTrivia(s)[0])
    requires ParseIntersection(s) == Parsed(first, mid) && ParseUnionRest(mid) == Parsed(more, left)
    ensures ParseUnion((if leading then "|" else "") + s) == Parsed(OfUnion([first] + more), left)
  {
    Skipped(s);
    if leading {
      SignEnds('|', s);
    } else {
      assert "" + s == s;
    }
  }

  lemma {:induction false} OrReads(leading: bool, members: seq<Form>, rest: string)
    requires members != [] && (forall m :: m in members ==> Wellformed(m) && Level(m) <= 2) && EndsUnion(rest)
    ensures ParseUnion(Spell(Or(leading, members), rest)) == Parsed(Meant(Or(leading, members)), SkipTrivia(rest))
    decreases members
  {
    var more := SpellTail(members[1..], '|', rest);
    OrTailReads(members[1..], rest);
    JoinReads(members[0], more);
    RestSkipped(more);
    FormStarts(members[0], more);
    BarReads(leading, Spell(members[0], more), Meant(members[0]), SkipTrivia(more), MeantAll(members[1..]), SkipTrivia(rest));
  }

  /** Every way to write a type is read as that type, and no further. */
  lemma {:induction false} FormReads(f: Form, rest: string)
    requires Wellformed(f) && EndsUnion(rest)
    ensures ParseUnion(Spell(f, rest)) == Parsed(Meant(f), SkipTrivia(rest))
    decreases f, 3
  {
    if f.Or? {
      OrReads(f.leading, f.members, rest);
    } else if f.Spaced? {
      GapEnds(f.after, rest);
      FormReads(f.inner, SpellGap(f.after, rest));
      GapBefore(f.before, Spell(f.inner, SpellGap(f.after, rest)));
    } else {
      JoinReads(f, rest);
      FormStarts(f, rest);
      EatOther('|', rest);
      RestSkipped(rest);
      BarReads(false, Spell(f, rest), Meant(f), SkipTrivia(rest), [], SkipTrivia(rest));
      assert "" + Spell(f, rest) == Spell(f, rest);
    }
  }

  lemma {:induction false} ArgsStep(f: Form, left: string)
    requires Wellformed(f) && EndsUnion(left) && SkipTrivia(left) == left
    ensures var s := Spell(f, left);
      && (StartsWith(left, ',') ==> ParseArgs(s) == Parsed([Meant(f)] + ParseArgs(left[1..]).value, ParseArgs(left[1..]).rest))
      && (!StartsWith(left, ',') ==> ParseArgs(s) == Parsed([Meant(f)], left))
    decreases f, 4
  {
    FormReads(f, left);
    ArgBegins(f, left);
    Skipped(Spell(f, left));
  }

  lemma {:induction false} ArgsWritten(args: seq<Form>, rest: string)
    requires args != [] && forall a :: a in args ==> Wellformed(a)
    ensures ParseArgs(SpellList(args, ',', ">" + rest)) == Parsed(MeantAll(args), ">" + rest)
    decreases args
  {
    if |args| == 1 {
      SignEnds('>', rest);
      ArgsStep(args[0], ">" + rest);
      assert MeantAll(args) == [Meant(args[0])];
    } else {
      var next := SpellList(args[1..], ',', ">" + rest);
      SignEnds(',', next);
      ArgsStep(args[0], "," + next);
      ArgsWritten(args[1..], rest);
    }
  }

  // ---------------------------------------------------------------- fields

  lemma {:induction false} NameReads(mark: Option<char>, name: string, after: string)
    requires IsWord(name) && (mark.Some? ==> IsMark(mark.value)) && (after == "" || !IsWordChar(after[0]))
    ensures var s := SpellName(mark, name, after);
      && s != "" && SkipTrivia(s) == s && Opens(s[0]) && (mark.Some? ==> !IsWordChar(s[0]))
      && (if mark.Some? then IsMark(s[0]) && ReadQuoted(s) == Parsed(name, after) else ReadWord(s) == Parsed(name, after))
  {
    var s := SpellName(mark, name, after);
    if mark.Some? {
      PlainPieces(mark.value, name, [mark.value] + after);
      QuotedReads(mark.value, Pieces(name), after);
    } else {
      WordThen(name, after);
      assert s[0] == name[0] && SkipTrivia(s) == s;
    }
  }

  ghost function Pieces(name: string): seq<Piece> {
    if name == "" then [] else [Char(name[0])] + Pieces(name[1..])
  }

  lemma {:induction false} PlainStep(c: char, ps: seq<Piece>, rest: string)
    ensures SpellPieces([Char(c)] + ps, rest) == [c] + SpellPieces(ps, rest)
    ensures TextOf([Char(c)] + ps) == [c] + TextOf(ps)
  {
    assert ([Char(c)] + ps)[1..] == ps;
  }

  lemma {:induction false} PlainPieces(mark: char, name: string, rest: string)
    requires IsMark(mark) && forall i :: 0 <= i < |name| ==> IsWordChar(name[i])
    ensures SpellPieces(Pieces(name), rest) == name + rest && TextOf(Pieces(name)) == name
    ensures forall p :: p in Pieces(name) ==> IsPiece(mark, p)
  {
    if name == "" {
      assert name + rest == rest;
    } else {
      PlainPieces(mark, name[1..], rest);
      PlainStep(name[0], Pieces(name[1..]), rest);
      assert [name[0]] + (name[1..] + rest) == name + rest;
    }
  }

  /** `readonly` is taken off, except where it is the name of the field. */
  lemma {:induction false} ReadonlyDrops(f: FieldForm, rest: string)
    requires IsField(f)
    ensures var named := SpellName(f.mark, f.name, SpellTyped(f, rest));
      SkipTrivia(DropReadonly(SkipTrivia(SpellField(f, rest)))) == named
  {
    var typed := SpellTyped(f, rest);
    var named := SpellName(f.mark, f.name, typed);
    TypedStarts(f, rest);
    NameReads(f.mark, f.name, typed);
    if f.frozen {
      GapSkips(f.between, named);
      FrozenDrops(f.between, named);
      GapSkips(f.before, "readonly" + SpellGap(f.between, named));
    } else {
      GapSkips(f.before, named);
      OwnName(f.mark, f.name, typed);
    }
  }

  lemma {:induction false} FrozenDrops(gap: Gap, named: string)
    requires IsGap(gap) && named != "" && SkipTrivia(named) == named && Opens(named[0])
    requires gap == [] ==> !IsWordChar(named[0])
    ensures var s := "readonly" + SpellGap(gap, named); SkipTrivia(s) == s && DropReadonly(s) == named
  {
    var after := SpellGap(gap, named);
    GapSkips(gap, named);
    WordThen("readonly", after);
  }

  lemma {:induction false} OwnName(mark: Option<char>, name: string, typed: string)
    requires IsWord(name) && (mark.Some? ==> IsMark(mark.value)) && (typed == "" || !IsWordChar(typed[0]))
    requires StartsWith(SkipTrivia(typed), ':') || StartsWith(SkipTrivia(typed), '?')
    ensures DropReadonly(SpellName(mark, name, typed)) == SpellName(mark, name, typed)
  {
    var s := SpellName(mark, name, typed);
    if mark.Some? {
      assert WordLength(s) == 0 && s[..0] == "";
    } else {
      WordThen(name, typed);
    }
  }

  lemma {:induction false} TypedStarts(f: FieldForm, rest: string)
    requires IsField(f)
    ensures var s, typed := SpellTyped(f, rest), ":" + Spell(f.typ, rest);
      && s != "" && !IsWordChar(s[0]) && StartsWith(SkipTrivia(s), if f.required then ':' else '?')
      && Eat("?", s).value == !f.required && Eat(":", Eat("?", s).rest) == Parsed(true, Spell(f.typ, rest))
      && |s| > |Spell(f.typ, rest)|
  {
    var typed := ":" + Spell(f.typ, rest);
    assert typed[1..] == Spell(f.typ, rest) && SkipTrivia(typed) == typed;
    if f.required {
      GapSkips(f.after, typed);
    } else {
      var next := SpellGap(f.colon, typed);
      GapSkips(f.colon, typed);
      assert ("?" + next)[1..] == next && SkipTrivia("?" + next) == "?" + next;
      GapSkips(f.after, "?" + next);
    }
  }

  lemma {:induction false} FieldParts(t: string, mark: Option<char>, name: string, after: string, required: bool, body: string)
    requires IsWord(name) && (mark.Some? ==> IsMark(mark.value)) && (after == "" || !IsWordChar(after[0]))
    requires SkipTrivia(DropReadonly(t)) == SpellName(mark, name, after)
    requires Eat("?", after).value == !required && Eat(":", Eat("?", after).rest) == Parsed(true, body)
    ensures ParseField(t) == Parsed(Some(Field(name, required, ParseUnion(body).value)), ParseUnion(body).rest)
  {
    NameReads(mark, name, after);
  }

  lemma {:induction false} FieldWritten(f: FieldForm, rest: string)
    requires IsField(f) && EndsUnion(rest)
    ensures var t := SkipTrivia(SpellField(f, rest));
      && t != "" && (IsWordChar(t[0]) || IsMark(t[0])) && |SkipTrivia(rest)| < |t|
      && ParseField(t) == Parsed(Some(Field(f.name, f.required, Meant(f.typ))), SkipTrivia(rest))
    decreases f
  {
    var t := SkipTrivia(SpellField(f, rest));
    FormReads(f.typ, rest);
    TypedStarts(f, rest);
    ReadonlyDrops(f, rest);
    FieldParts(t, f.mark, f.name, SpellTyped(f, rest), f.required, Spell(f.typ, rest));
    FieldStarts(f, rest);
  }

  lemma {:induction false} FieldStarts(f: FieldForm, rest: string)
    requires IsField(f)
    ensures var t := SkipTrivia(SpellField(f, rest)); t != "" && (IsWordChar(t[0]) || IsMark(t[0]))
    ensures |SkipTrivia(SpellField(f, rest))| > |Spell(f.typ, rest)|
  {
    var named := SpellName(f.mark, f.name, SpellTyped(f, rest));
    TypedStarts(f, rest);
    NameReads(f.mark, f.name, SpellTyped(f, rest));
    GapSkips(f.between, named);
    GapSkips(f.before, if f.frozen then "readonly" + SpellGap(f.between, named) else named);
  }

  lemma {:induction false} FieldEnds(f: FieldForm, rest: string)
    requires IsField(f) && FieldApart(f)
    requires var t := SkipTrivia(SpellField(f, rest)); t != "" && (IsWordChar(t[0]) || IsMark(t[0]))
    ensures EndsUnion(SpellField(f, rest))
  {
    var named := SpellName(f.mark, f.name, SpellTyped(f, rest));
    GapSkips(f.before, if f.frozen then "readonly" + SpellGap(f.between, named) else named);
  }

  lemma {:induction false} EndsRead(ends: seq<End>, s: string)
    requires forall e :: e in ends ==> IsGap(e.gap) && (e.sep == ';' || e.sep == ',')
    ensures ParseFields(SpellEnds(ends, s)) == ParseFields(s)
    ensures ends != [] || EndsUnion(s) ==> EndsUnion(SpellEnds(ends, s))
    ensures SkipTrivia(s) != "" ==> SkipTrivia(SpellEnds(ends, s)) != ""
  {
    if ends != [] {
      var more := SpellEnds(ends[1..], s);
      var text := [ends[0].sep] + more;
      assert ends[0] in ends;
      EndsRead(ends[1..], s);
      SignEnds(ends[0].sep, more);
      GapSkips(ends[0].gap, text);
      GapEnds(ends[0].gap, text);
    }
  }

  lemma {:induction false} FieldsThen(s: string, f: Field, next: string)
    requires var t := SkipTrivia(s);
      t != "" && (IsWordChar(t[0]) || IsMark(t[0])) && ParseField(t) == Parsed(Some(f), SkipTrivia(next)) && |SkipTrivia(next)| < |t|
    requires SkipTrivia(next) != ""
    ensures ParseFields(s) == Parsed([f] + ParseFields(next).value, ParseFields(next).rest)
  {
    FieldsSkip(next);
  }

  lemma {:induction false} FieldsSkip(s: string)
    requires SkipTrivia(s) != ""
    ensures ParseFields(SkipTrivia(s)) == ParseFields(s)
  {
    Skipped(s);
  }

  lemma {:induction false} FieldsWritten(fs: seq<FieldForm>, gap: Gap, rest: string)
    requires AllFields(fs) && IsGap(gap)
    ensures var s := SpellFields(fs, SpellGap(gap, "}" + rest));
      ParseFields(s) == Parsed(MeantFields(fs), rest) && SkipTrivia(s) != "" && (fs == [] || FieldApart(fs[0]) ==> EndsUnion(s))
    decreases fs
  {
    if fs == [] {
      SignEnds('}', rest);
      GapSkips(gap, "}" + rest);
      GapEnds(gap, "}" + rest);
    } else {
      var more := SpellFields(fs[1..], SpellGap(gap, "}" + rest));
      var next := SpellEnds(fs[0].ends, more);
      FieldsWritten(fs[1..], gap, rest);
      EndsRead(fs[0].ends, more);
      FieldWritten(fs[0], next);
      if FieldApart(fs[0]) { FieldEnds(fs[0], next); }
      FieldsThen(SpellField(fs[0], next), Field(fs[0].name, fs[0].required, Meant(fs[0].typ)), next);
    }
  }

  /** The text of a type parses to that type. */
  lemma WritingIsRead(f: Form)
    requires Wellformed(f)
    ensures ParseType(Spell(f, "")) == Meant(f)
  {
    FormReads(f, "");
  }
}
