/**
 * Printing types, and that the parser reads back what was printed.
 */
module TypePrinter {
  import opened Prelude
  import opened TypeSyntax
  import opened TypeParser

  // ---------------------------------------------------------------- printing

  function Print(t: TypeAst): string {
    match t
    case Keyword(name) => name
    case Literal(text) => text
    case Opaque(text) => NormalizeWs(text)
    case Frozen(inner) => NormalizeWs("readonly " + Print(inner))
    case Array(element, readonly) => (if readonly then "ReadonlyArray<" else "Array<") + Print(element) + ">"
    case Ref(name, args) => if args == [] then name else name + "<" + PrintJoined(args, ", ") + ">"
    case Union(members) => PrintJoined(members, " | ")
    case Intersection(members) => PrintJoined(members, " & ")
    case Object(fields) => "{ " + PrintFields(fields) + " }"
  }

  function PrintJoined(ts: seq<TypeAst>, sep: string): string {
    if ts == [] then ""
    else if |ts| == 1 then Print(ts[0])
    else Print(ts[0]) + sep + PrintJoined(ts[1..], sep)
  }

  function PrintFields(fs: seq<Field>): string {
    if fs == [] then ""
    else if |fs| == 1 then PrintField(fs[0])
    else PrintField(fs[0]) + "; " + PrintFields(fs[1..])
  }

  function PrintField(f: Field): string {
    f.name + (if f.required then "" else "?") + ": " + Print(f.typ)
  }

  /** Trim, and turn every run of white space into one blank. */
  function NormalizeWs(s: string): string {
    if s == "" then ""
    else if IsSpace(s[0]) then NormalizeWs(s[1..])
    else [s[0]] + NormalizeRest(s[1..])
  }

  function NormalizeRest(s: string): string {
    if s == "" then ""
    else if !IsSpace(s[0]) then [s[0]] + NormalizeRest(s[1..])
    else
      var more := NormalizeWs(s[1..]);
      if more == "" then "" else " " + more
  }

  /** Length of the run without white space at the start. */
  function InkLength(s: string): (n: nat)
    ensures n <= |s|
  {
    if s == "" || IsSpace(s[0]) then 0 else 1 + InkLength(s[1..])
  }

  function WordsOf(s: string): (words: seq<string>)
    ensures words != [] ==> words[0] != ""
    decreases |s|
  {
    if s == "" then []
    else if IsSpace(s[0]) then WordsOf(s[1..])
    else [s[..InkLength(s)]] + WordsOf(s[InkLength(s)..])
  }

  /** The words, each after a blank. */
  function Spread(words: seq<string>): string {
    if words == [] then "" else " " + words[0] + Spread(words[1..])
  }

  /** Normalised text is its words with one blank between each two. */
  lemma {:induction false} NormalizedIsWords(s: string)
    ensures " " + NormalizeWs(s) == if WordsOf(s) == [] then " " else Spread(WordsOf(s))
    decreases |s|
  {
    if s != "" && IsSpace(s[0]) {
      NormalizedIsWords(s[1..]);
    } else if s != "" {
      RestIsWords(s[1..]);
      assert s[..InkLength(s)] == [s[0]] + s[1..][..InkLength(s[1..])] && s[InkLength(s)..] == s[1..][InkLength(s[1..])..];
      var words, more := WordsOf(s), WordsOf(s[InkLength(s)..]);
      assert words == [s[..InkLength(s)]] + more && words[1..] == more;
    }
  }

  lemma {:induction false} RestIsWords(s: string)
    ensures NormalizeRest(s) == s[..InkLength(s)] + Spread(WordsOf(s[InkLength(s)..]))
    decreases |s|
  {
    if s != "" && IsSpace(s[0]) {
      NormalizedIsWords(s[1..]);
      SpreadOf(WordsOf(s[1..]), NormalizeWs(s[1..]));
      assert s[..0] + Spread(WordsOf(s[0..])) == Spread(WordsOf(s)) by { assert s[0..] == s; }
    } else if s != "" {
      RestIsWords(s[1..]);
      assert s[..InkLength(s)] == [s[0]] + s[1..][..InkLength(s[1..])] && s[InkLength(s)..] == s[1..][InkLength(s[1..])..];
    }
  }

  lemma SpreadOf(words: seq<string>, more: string)
    requires " " + more == (if words == [] then " " else Spread(words)) && (words != [] ==> words[0] != "")
    ensures Spread(words) == if more == "" then "" else " " + more
  {
    assert |" " + more| == 1 + |more|;
    if words != [] { assert |Spread(words)| >= 2; }
  }

  // ---------------------------------------------------------------- what prints unambiguously

  predicate IsQuoted(text: string) {
    |text| >= 2 && text == QuoteLiteral(Decode(text[1..|text| - 1]))
  }

  predicate IsRefName(name: string) {
    IsWord(name) && !IsLiteralWord(name) && name !in TYPE_KEYWORDS && name != "readonly"
  }

  /** The array forms are always written as arrays. */
  predicate IsArraySugar(name: string, args: seq<TypeAst>) {
    (name == "Array" || name == "ReadonlyArray") && |args| == 1
  }

  /**
   * A desugared type that means what it prints: no opaque part, no union directly under an
   * intersection (there the printer would need parentheses), and names the parser accepts.
   */
  predicate Printable(t: TypeAst) {
    match t
    case Keyword(name) => name in TYPE_KEYWORDS
    case Literal(text) => IsLiteralWord(text) || IsQuoted(text)
    case Opaque(_) => false
    case Frozen(_) => false
    case Array(element, _) => Printable(element)
    case Ref(name, args) => IsRefName(name) && !IsArraySugar(name, args) && forall a :: a in args ==> Printable(a)
    case Union(members) => members != [] && forall m :: m in members ==> Printable(m)
    case Intersection(members) => members != [] && forall m :: m in members ==> Printable(m) && !m.Union?
    case Object(fields) => forall f :: f in fields ==> IsWord(f.name) && Printable(f.typ)
  }

  // ---------------------------------------------------------------- what the parser makes of it

  /** One type, or several joined by `|`. */
  function OfUnion(ts: seq<TypeAst>): TypeAst
    requires ts != []
  {
    if |ts| == 1 then ts[0] else Union(ts)
  }

  function OfIntersection(ts: seq<TypeAst>): TypeAst
    requires ts != []
  {
    if |ts| == 1 then ts[0] else Intersection(ts)
  }

  /** The tree the parser builds from a printed type: nested unions and intersections come out flat, arrays as references. */
  function Reread(t: TypeAst): TypeAst
    decreases t, 3
  {
    OfUnion(UnionParts(t))
  }

  function UnionParts(t: TypeAst): (r: seq<TypeAst>)
    ensures r != []
    decreases t, 2
  {
    if t.Union? && t.members != [] then AllUnionParts(t.members) else [OfIntersection(IntersectionParts(t))]
  }

  function AllUnionParts(ts: seq<TypeAst>): (r: seq<TypeAst>)
    ensures ts != [] ==> r != []
    decreases ts
  {
    if ts == [] then [] else UnionParts(ts[0]) + AllUnionParts(ts[1..])
  }

  function IntersectionParts(t: TypeAst): (r: seq<TypeAst>)
    ensures r != []
    decreases t, 1
  {
    if t.Intersection? && t.members != [] then AllIntersectionParts(t.members) else [RereadPlain(t)]
  }

  function AllIntersectionParts(ts: seq<TypeAst>): (r: seq<TypeAst>)
    ensures ts != [] ==> r != []
    decreases ts
  {
    if ts == [] then [] else IntersectionParts(ts[0]) + AllIntersectionParts(ts[1..])
  }

  function RereadPlain(t: TypeAst): TypeAst
    decreases t, 0
  {
    match t
    case Array(element, readonly) => Ref(if readonly then "ReadonlyArray" else "Array", [Reread(element)])
    case Ref(name, args) => Ref(name, RereadAll(args))
    case Object(fields) => Object(RereadFields(fields))
    case _ => t
  }

  function RereadAll(ts: seq<TypeAst>): (r: seq<TypeAst>)
    ensures |r| == |ts|
    decreases ts
  {
    if ts == [] then [] else [Reread(ts[0])] + RereadAll(ts[1..])
  }

  function RereadFields(fs: seq<Field>): (r: seq<Field>)
    ensures |r| == |fs|
    decreases fs
  {
    if fs == [] then [] else [Field(fs[0].name, fs[0].required, Reread(fs[0].typ))] + RereadFields(fs[1..])
  }

  // ---------------------------------------------------------------- where a printed type ends

  /** What may follow a type inside an intersection: nothing that would continue it. */
  predicate Ends(rest: string) {
    && (rest == "" || !IsWordChar(rest[0]))
    && var t := SkipTrivia(rest); !StartsWith(t, '[') && !StartsWith(t, '<')
  }

  predicate EndsIntersection(rest: string) {
    Ends(rest) && !StartsWith(SkipTrivia(rest), '&')
  }

  predicate EndsUnion(rest: string) {
    EndsIntersection(rest) && !StartsWith(SkipTrivia(rest), '|')
  }

  lemma {:induction false} EatSkipped(token: string, s: string)
    ensures Eat(token, SkipTrivia(s)) == Eat(token, s)
  {
  }

  lemma {:induction false} EatOther(c: char, s: string)
    requires !StartsWith(SkipTrivia(s), c)
    ensures Eat([c], s) == Parsed(false, SkipTrivia(s))
  {
  }

  lemma {:induction false} NoBrackets(ast: TypeAst, rest: string)
    requires !StartsWith(SkipTrivia(rest), '[')
    ensures ParseBrackets(ast, rest) == Parsed(ast, SkipTrivia(rest))
  {
    assert "[]"[0] == '[';
  }

  /** A printed type begins with a word character, a quote or a brace. */
  lemma {:induction false} PrintStart(t: TypeAst)
    requires Printable(t)
    ensures Print(t) != "" && (IsWordChar(Print(t)[0]) || Print(t)[0] == '\'' || Print(t)[0] == '{')
  {
    match t
    case Union(members) => PrintStart(members[0]);
    case Intersection(members) => PrintStart(members[0]);
    case Keyword(name) =>
      assert IsWord(name);
    case _ =>
  }

  lemma {:induction false} Skipped(s: string)
    ensures SkipTrivia(SkipTrivia(s)) == SkipTrivia(s)
    ensures ParsePrimary(SkipTrivia(s)) == ParsePrimary(s)
    ensures ParsePostfix(SkipTrivia(s)) == ParsePostfix(s)
    ensures ParseIntersection(SkipTrivia(s)) == ParseIntersection(s)
    ensures ParseUnion(SkipTrivia(s)) == ParseUnion(s)
  {
  }

  lemma {:induction false} SkipBlank(s: string)
    ensures SkipTrivia(" " + s) == SkipTrivia(s)
  {
    assert (" " + s)[1..] == s;
  }

  // ---------------------------------------------------------------- primaries

  lemma {:induction false} ReadsWord(w: string, rest: string)
    requires IsWord(w) && w != "readonly" && (rest == "" || !IsWordChar(rest[0]))
    ensures ParsePrimary(w + rest) == ParseWordType(w, rest)
  {
    var t := w + rest;
    WordThen(w, rest);
    assert t[0] == w[0];
    assert SkipTrivia(t) == t;
  }

  lemma {:induction false} ReadsQuoted(v: string, rest: string)
    ensures ParsePrimary(QuoteLiteral(v) + rest) == Parsed(Literal(QuoteLiteral(v)), rest)
  {
    var t := QuoteLiteral(v) + rest;
    var e := Escape(v);
    assert t == "'" + e + "'" + rest;
    assert t[0] == '\'' && SkipTrivia(t) == t && WordLength(t) == 0;
    assert t[..0] == "";
    QuotedEndEscape("'", v, rest);
    DecodeEscape(v);
    assert t[1..|e| + 1] == e;
    assert t[|e| + 2..] == rest;
  }

  lemma {:induction false} ReadsObject(body: string)
    ensures ParsePrimary("{" + body) == Parsed(Object(ParseFields(body).value), ParseFields(body).rest)
  {
    var t := "{" + body;
    assert t[0] == '{' && SkipTrivia(t) == t && WordLength(t) == 0;
    assert t[..0] == "" && t[1..] == body;
  }

  // ---------------------------------------------------------------- chains of `&` and `|`

  /** One member and whatever follows it in an intersection. */
  ghost function IntersectionChain(s: string): Parsed<seq<TypeAst>> {
    var first := ParsePostfix(s);
    var more := ParseIntersectionRest(first.rest);
    Parsed([first.value] + more.value, more.rest)
  }

  ghost function UnionChain(s: string): Parsed<seq<TypeAst>> {
    var first := ParseIntersection(s);
    var more := ParseUnionRest(first.rest);
    Parsed([first.value] + more.value, more.rest)
  }

  lemma {:induction false} SeparatorThen(sep: char, s: string)
    requires sep == '&' || sep == '|'
    ensures Eat([sep], " " + [sep] + " " + s) == Parsed(true, " " + s)
  {
    var text := " " + [sep] + " " + s;
    assert text[1..] == [sep] + (" " + s);
    assert SkipTrivia(text) == [sep] + (" " + s);
    assert ([sep] + (" " + s))[1..] == " " + s;
  }

  lemma {:induction false} AndThen(s: string)
    ensures ParseIntersectionRest(" & " + s) == IntersectionChain(s)
  {
    SeparatorThen('&', s);
    assert " " + "&" + " " + s == " & " + s;
    SkipBlank(s);
    Skipped(s);
    Skipped(" " + s);
  }

  lemma {:induction false} OrThen(s: string)
    ensures ParseUnionRest(" | " + s) == UnionChain(s)
  {
    SeparatorThen('|', s);
    assert " " + "|" + " " + s == " | " + s;
    SkipBlank(s);
    Skipped(s);
    Skipped(" " + s);
  }

  lemma {:induction false} RestSkipped(s: string)
    ensures ParseIntersectionRest(SkipTrivia(s)) == ParseIntersectionRest(s)
    ensures ParseUnionRest(SkipTrivia(s)) == ParseUnionRest(s)
  {
    EatSkipped("&", s);
    EatSkipped("|", s);
  }

  lemma {:induction false} AfterSeparator(sep: char, s: string)
    requires sep == '&' || sep == '|' || sep == ',' || sep == ';' || sep == '}' || sep == '>'
    ensures Ends([sep] + s) && Ends(" " + [sep] + s)
    ensures SkipTrivia([sep] + s) == [sep] + s && SkipTrivia(" " + [sep] + s) == [sep] + s
  {
    assert ([sep] + s)[0] == sep;
    assert (" " + [sep] + s)[1..] == [sep] + s;
  }

  // ---------------------------------------------------------------- the induction

  lemma {:induction false} PostfixFrom(text: string, ast: TypeAst, rest: string, left: string)
    requires ParsePrimary(text + rest) == Parsed(ast, left) && (left == rest || left == SkipTrivia(rest)) && Ends(rest)
    ensures ParsePostfix(text + rest) == Parsed(ast, SkipTrivia(rest))
  {
    Skipped(rest);
    NoBrackets(ast, left);
  }

  lemma {:induction false} KeywordIsWord(name: string)
    requires name in TYPE_KEYWORDS
    ensures IsWord(name) && name != "readonly" && !IsLiteralWord(name)
  {
    assert !('0' <= name[0] <= '9');
  }

  lemma {:induction false} LiteralIsWord(text: string)
    requires IsLiteralWord(text)
    ensures IsWord(text) && text != "readonly"
  {
    if IsDigits(text) {
      assert forall i :: 0 <= i < |text| ==> '0' <= text[i] <= '9' && IsWordChar(text[i]);
      assert text[0] != 'r';
    }
  }

  lemma {:induction false} KeywordPrimary(name: string, rest: string)
    requires name in TYPE_KEYWORDS && Ends(rest)
    ensures ParsePrimary(name + rest) == Parsed(Keyword(name), rest)
  {
    KeywordIsWord(name);
    ReadsWord(name, rest);
  }

  lemma {:induction false} LiteralPrimary(text: string, rest: string)
    requires (IsLiteralWord(text) || IsQuoted(text)) && Ends(rest)
    ensures ParsePrimary(text + rest) == Parsed(Literal(text), rest)
  {
    if IsQuoted(text) {
      var v := Decode(text[1..|text| - 1]);
      assert text == QuoteLiteral(v);
      ReadsQuoted(v, rest);
    } else {
      LiteralIsWord(text);
      ReadsWord(text, rest);
    }
  }

  lemma {:induction false} BareRefPrimary(name: string, rest: string)
    requires IsRefName(name) && Ends(rest)
    ensures ParsePrimary(name + rest) == Parsed(Ref(name, []), SkipTrivia(rest))
  {
    EatOther('<', rest);
    ReadsWord(name, rest);
  }

  lemma {:induction false} AngleThen(inner: string)
    ensures Eat("<", "<" + inner) == Parsed(true, inner)
    ensures Eat(">", ">" + inner) == Parsed(true, inner)
  {
    assert ("<" + inner)[1..] == inner;
    assert (">" + inner)[1..] == inner;
  }

  lemma {:induction false} RefPrimary(name: string, args: seq<TypeAst>, rest: string)
    requires IsRefName(name)
    requires ParseArgs(PrintJoined(args, ", ") + ">" + rest) == Parsed(RereadAll(args), ">" + rest)
    ensures ParsePrimary(name + "<" + PrintJoined(args, ", ") + ">" + rest) == Parsed(Ref(name, RereadAll(args)), rest)
  {
    var inner := PrintJoined(args, ", ") + ">" + rest;
    assert name + "<" + PrintJoined(args, ", ") + ">" + rest == name + ("<" + inner);
    AppliedReads(name, inner, RereadAll(args), rest);
  }

  lemma {:induction false} AppliedReads(name: string, inner: string, args: seq<TypeAst>, rest: string)
    requires IsRefName(name) && ParseArgs(inner) == Parsed(args, ">" + rest)
    ensures ParsePrimary(name + ("<" + inner)) == Parsed(Ref(name, args), rest)
  {
    assert ("<" + inner)[0] == '<';
    ReadsWord(name, "<" + inner);
    AngleThen(inner);
    AngleThen(rest);
  }

  lemma {:induction false} ObjectPrimary(fields: seq<Field>, rest: string)
    requires ParseFields(" " + PrintFields(fields) + " }" + rest) == Parsed(RereadFields(fields), rest)
    ensures ParsePrimary("{ " + PrintFields(fields) + " }" + rest) == Parsed(Object(RereadFields(fields)), rest)
  {
    var body := " " + PrintFields(fields) + " }" + rest;
    assert "{ " + PrintFields(fields) + " }" + rest == "{" + body;
    ReadsObject(body);
  }

  lemma {:induction false} PostfixReads(t: TypeAst, rest: string)
    requires Printable(t) && !t.Union? && !t.Intersection? && Ends(rest)
    ensures ParsePostfix(Print(t) + rest) == Parsed(RereadPlain(t), SkipTrivia(rest))
    decreases t, 0
  {
    var left := if t.Ref? && t.args == [] then SkipTrivia(rest) else rest;
    match t {
      case Keyword(name) => KeywordPrimary(name, rest);
      case Literal(text) => LiteralPrimary(text, rest);
      case Array(element, readonly) => ArrayPrimary(element, readonly, rest);
      case Ref(name, args) =>
        if args == [] {
          BareRefPrimary(name, rest);
        } else {
          ArgsRead(args, rest);
          RefPrimary(name, args, rest);
        }
      case Object(fields) =>
        FieldsRead(fields, rest);
        ObjectPrimary(fields, rest);
    }
    PostfixFrom(Print(t), RereadPlain(t), rest, left);
  }

  lemma {:induction false} ArrayNames()
    ensures IsRefName("Array") && IsRefName("ReadonlyArray")
  {
    assert !('0' <= "Array"[0] <= '9') && !('0' <= "ReadonlyArray"[0] <= '9');
  }

  lemma {:induction false} ArrayText(element: TypeAst, readonly: bool)
    ensures var name := if readonly then "ReadonlyArray" else "Array";
      Print(Array(element, readonly)) == name + "<" + PrintJoined([element], ", ") + ">"
  {
    var inner := Print(element);
    assert PrintJoined([element], ", ") == inner;
    assert "Array<" == "Array" + "<" && "ReadonlyArray<" == "ReadonlyArray" + "<";
  }

  lemma {:induction false} ArrayPrimary(element: TypeAst, readonly: bool, rest: string)
    requires Printable(element)
    ensures ParsePrimary(Print(Array(element, readonly)) + rest) == Parsed(RereadPlain(Array(element, readonly)), rest)
    decreases element, 4
  {
    var name := if readonly then "ReadonlyArray" else "Array";
    ArrayNames();
    ArrayText(element, readonly);
    AfterSeparator('>', rest);
    UnionReads(element, ">" + rest);
    OneArg(element, rest);
    RefPrimary(name, [element], rest);
    RereadOne(element);
  }

  lemma {:induction false} RereadOne(t: TypeAst)
    ensures RereadAll([t]) == [Reread(t)]
  {
  }

  lemma {:induction false} OneArg(t: TypeAst, rest: string)
    requires Printable(t) && ParseUnion(Print(t) + (">" + rest)) == Parsed(Reread(t), ">" + rest)
    ensures ParseArgs(PrintJoined([t], ", ") + ">" + rest) == Parsed(RereadAll([t]), ">" + rest)
  {
    ArgStart(t, ">" + rest);
    AfterSeparator('>', rest);
    assert PrintJoined([t], ", ") + ">" + rest == Print(t) + (">" + rest);
    assert RereadAll([t]) == [Reread(t)];
  }

  lemma {:induction false} ArgsRead(args: seq<TypeAst>, rest: string)
    requires args != [] && forall a :: a in args ==> Printable(a)
    ensures ParseArgs(PrintJoined(args, ", ") + ">" + rest) == Parsed(RereadAll(args), ">" + rest)
    decreases args
  {
    if |args| == 1 {
      AfterSeparator('>', rest);
      UnionReads(args[0], ">" + rest);
      OneArg(args[0], rest);
      assert args == [args[0]];
    } else {
      var more := PrintJoined(args[1..], ", ") + ">" + rest;
      var tail := "," + (" " + more);
      assert PrintJoined(args, ", ") + ">" + rest == Print(args[0]) + tail;
      ArgStart(args[0], tail);
      AfterSeparator(',', " " + more);
      UnionReads(args[0], tail);
      ArgsRead(args[1..], rest);
      assert tail[1..] == " " + more;
      ArgsBlank(more);
    }
  }

  lemma {:induction false} ArgStart(t: TypeAst, tail: string)
    requires Printable(t)
    ensures var s := Print(t) + tail;
      s != "" && SkipTrivia(s) == s && !StartsWith(s, '>') && !StartsWith(s, '|') && !StartsWith(s, '}') && !StartsWith(s, ';') && !StartsWith(s, ',')
  {
    PrintStart(t);
    assert (Print(t) + tail)[0] == Print(t)[0];
  }

  lemma {:induction false} ArgsBlank(s: string)
    requires s != ""
    ensures ParseArgs(" " + s) == ParseArgs(s)
  {
    SkipBlank(s);
  }

  lemma {:induction false} IntersectionReads(t: TypeAst, tail: string)
    requires Printable(t) && !t.Union? && Ends(tail)
    ensures var more := ParseIntersectionRest(tail);
      IntersectionChain(Print(t) + tail) == Parsed(IntersectionParts(t) + more.value, more.rest)
    decreases t, 1
  {
    if t.Intersection? {
      AllIntersectionRead(t.members, tail);
    } else {
      PostfixReads(t, tail);
      RestSkipped(tail);
    }
  }

  lemma {:induction false} JoinedStep(ts: seq<TypeAst>, sep: string, tail: string)
    requires ts != []
    ensures |ts| == 1 ==> PrintJoined(ts, sep) + tail == Print(ts[0]) + tail
    ensures |ts| > 1 ==> PrintJoined(ts, sep) + tail == Print(ts[0]) + (sep + (PrintJoined(ts[1..], sep) + tail))
  {
  }

  lemma {:induction false} Regroup(a: seq<TypeAst>, b: seq<TypeAst>, c: seq<TypeAst>)
    ensures (a + b) + c == a + (b + c) && (b == [] ==> (a + b) + c == a + c)
  {
  }

  lemma {:induction false} SeparatorEnds(sep: char, next: string)
    requires sep == '&' || sep == '|'
    ensures Ends(" " + [sep] + " " + next) && SkipTrivia(" " + [sep] + " " + next) == [sep] + (" " + next)
  {
    assert " " + [sep] + " " + next == " " + [sep] + (" " + next);
    AfterSeparator(sep, " " + next);
  }

  lemma {:induction false} AllIntersectionRead(ts: seq<TypeAst>, tail: string)
    requires ts != [] && (forall m :: m in ts ==> Printable(m) && !m.Union?) && Ends(tail)
    ensures var more := ParseIntersectionRest(tail);
      IntersectionChain(PrintJoined(ts, " & ") + tail) == Parsed(AllIntersectionParts(ts) + more.value, more.rest)
    decreases ts
  {
    JoinedStep(ts, " & ", tail);
    Regroup(IntersectionParts(ts[0]), AllIntersectionParts(ts[1..]), ParseIntersectionRest(tail).value);
    if |ts| == 1 {
      IntersectionReads(ts[0], tail);
    } else {
      var next := PrintJoined(ts[1..], " & ") + tail;
      SeparatorEnds('&', next);
      assert " " + ['&'] + " " + next == " & " + next;
      IntersectionReads(ts[0], " & " + next);
      AndThen(next);
      AllIntersectionRead(ts[1..], tail);
    }
  }

  lemma {:induction false} UnionPartsRead(t: TypeAst, tail: string)
    requires Printable(t) && EndsIntersection(tail)
    ensures var more := ParseUnionRest(tail);
      UnionChain(Print(t) + tail) == Parsed(UnionParts(t) + more.value, more.rest)
    decreases t, 2
  {
    if t.Union? {
      AllUnionRead(t.members, tail);
    } else {
      IntersectionReads(t, tail);
      EatOther('&', tail);
      assert IntersectionParts(t) + [] == IntersectionParts(t);
      RestSkipped(tail);
      assert ParseIntersection(Print(t) + tail) == Parsed(OfIntersection(IntersectionParts(t)), SkipTrivia(tail));
    }
  }

  lemma {:induction false} AllUnionRead(ts: seq<TypeAst>, tail: string)
    requires ts != [] && (forall m :: m in ts ==> Printable(m)) && EndsIntersection(tail)
    ensures var more := ParseUnionRest(tail);
      UnionChain(PrintJoined(ts, " | ") + tail) == Parsed(AllUnionParts(ts) + more.value, more.rest)
    decreases ts
  {
    JoinedStep(ts, " | ", tail);
    Regroup(UnionParts(ts[0]), AllUnionParts(ts[1..]), ParseUnionRest(tail).value);
    if |ts| == 1 {
      UnionPartsRead(ts[0], tail);
    } else {
      var next := PrintJoined(ts[1..], " | ") + tail;
      SeparatorEnds('|', next);
      assert " " + ['|'] + " " + next == " | " + next;
      UnionPartsRead(ts[0], " | " + next);
      OrThen(next);
      AllUnionRead(ts[1..], tail);
    }
  }

  /** Reading a printed type gives its flat form and stops where it ends. */
  lemma {:induction false} UnionReads(t: TypeAst, rest: string)
    requires Printable(t) && EndsUnion(rest)
    ensures ParseUnion(Print(t) + rest) == Parsed(Reread(t), SkipTrivia(rest))
    decreases t, 3
  {
    ArgStart(t, rest);
    UnionPartsRead(t, rest);
    EatOther('|', rest);
    assert UnionParts(t) + [] == UnionParts(t);
  }

  // ---------------------------------------------------------------- object fields

  lemma {:induction false} CloseReads(rest: string)
    ensures ParseFields(" }" + rest) == Parsed([], rest) && ParseFields("}" + rest) == Parsed([], rest)
    ensures ParseFields("  }" + rest) == Parsed([], rest)
    ensures EndsUnion(" }" + rest) && SkipTrivia(" }" + rest) == "}" + rest
  {
    AfterSeparator('}', rest);
    assert " " + ['}'] + rest == " }" + rest;
    assert ("}" + rest)[1..] == rest;
    SkipBlank(" }" + rest);
    assert " " + (" }" + rest) == "  }" + rest;
  }

  lemma {:induction false} SemicolonReads(next: string)
    ensures EndsUnion(";" + next) && SkipTrivia(";" + next) == ";" + next
    ensures ParseFields(";" + next) == ParseFields(next)
  {
    AfterSeparator(';', next);
    assert (";" + next)[1..] == next;
  }

  lemma {:induction false} FieldThen(f: Field, tail: string)
    requires IsWord(f.name)
    requires ParseField(PrintField(f) + tail) == Parsed(Some(Field(f.name, f.required, Reread(f.typ))), SkipTrivia(tail))
    requires |SkipTrivia(tail)| < |PrintField(f) + tail|
    ensures var more := ParseFields(SkipTrivia(tail));
      ParseFields(" " + (PrintField(f) + tail)) == Parsed([Field(f.name, f.required, Reread(f.typ))] + more.value, more.rest)
  {
    var s := PrintField(f) + tail;
    FieldStart(f, tail);
    SkipBlank(s);
    FieldsStep(" " + s, s, Field(f.name, f.required, Reread(f.typ)), SkipTrivia(tail));
  }

  lemma {:induction false} FieldsStep(x: string, s: string, f: Field, left: string)
    requires x != "" && SkipTrivia(x) == s && s != "" && IsWordChar(s[0])
    requires ParseField(s) == Parsed(Some(f), left) && |left| < |s|
    ensures ParseFields(x).value == [f] + ParseFields(left).value
    ensures ParseFields(x).rest == ParseFields(left).rest
  {
  }

  lemma {:induction false} SemicolonText(a: string, b: string, rest: string)
    ensures " " + (a + "; " + b) + " }" + rest == " " + (a + (";" + (" " + b + " }" + rest)))
    ensures " " + a + " }" + rest == " " + (a + (" }" + rest))
    ensures " " + "" + " }" + rest == "  }" + rest
  {
  }

  lemma {:induction false} FieldsRead(fs: seq<Field>, rest: string)
    requires forall f :: f in fs ==> IsWord(f.name) && Printable(f.typ)
    ensures ParseFields(" " + PrintFields(fs) + " }" + rest) == Parsed(RereadFields(fs), rest)
    decreases fs
  {
    CloseReads(rest);
    if fs == [] {
      SemicolonText("", "", rest);
    } else if |fs| == 1 {
      SemicolonText(PrintField(fs[0]), "", rest);
      FieldReads(fs[0], " }" + rest);
      FieldThen(fs[0], " }" + rest);
    } else {
      var next := " " + PrintFields(fs[1..]) + " }" + rest;
      SemicolonText(PrintField(fs[0]), PrintFields(fs[1..]), rest);
      SemicolonReads(next);
      FieldReads(fs[0], ";" + next);
      FieldThen(fs[0], ";" + next);
      FieldsRead(fs[1..], rest);
    }
  }

  lemma {:induction false} FieldStart(f: Field, tail: string)
    requires IsWord(f.name)
    ensures var s := PrintField(f) + tail;
      s != "" && SkipTrivia(s) == s && IsWordChar(s[0])
  {
    assert (PrintField(f) + tail)[0] == f.name[0];
  }

  lemma {:induction false} ReadonlyName(name: string, after: string)
    requires IsWord(name) && after != "" && (after[0] == ':' || after[0] == '?')
    ensures DropReadonly(name + after) == name + after
    ensures SkipTrivia(name + after) == name + after && ReadWord(name + after) == Parsed(name, after)
  {
    WordThen(name, after);
    assert SkipTrivia(after) == after;
    assert (name + after)[0] == name[0];
  }

  lemma {:induction false} MarkThen(typed: string)
    ensures Eat(":", ": " + typed) == Parsed(true, " " + typed)
    ensures Eat("?", ": " + typed) == Parsed(false, ": " + typed)
    ensures Eat("?", "?: " + typed) == Parsed(true, ": " + typed)
  {
    assert (": " + typed)[1..] == " " + typed;
    assert ("?: " + typed)[1..] == ": " + typed;
  }

  lemma {:induction false} FieldText(f: Field, tail: string)
    ensures var typed := Print(f.typ) + tail;
      PrintField(f) + tail == f.name + if f.required then ": " + typed else "?: " + typed
  {
    var p := Print(f.typ);
    if f.required {
      assert f.name + "" + ": " + p + tail == f.name + (": " + (p + tail));
    } else {
      assert f.name + "?" + ": " + p + tail == f.name + ("?: " + (p + tail));
    }
  }

  lemma {:induction false} FieldReads(f: Field, tail: string)
    requires IsWord(f.name) && Printable(f.typ) && EndsUnion(tail)
    ensures ParseField(PrintField(f) + tail) == Parsed(Some(Field(f.name, f.required, Reread(f.typ))), SkipTrivia(tail))
    ensures |SkipTrivia(tail)| < |PrintField(f) + tail|
    decreases f
  {
    var typed := Print(f.typ) + tail;
    var after := if f.required then ": " + typed else "?: " + typed;
    FieldText(f, tail);
    ReadonlyName(f.name, after);
    MarkThen(typed);
    SkipBlank(typed);
    Skipped(typed);
    Skipped(" " + typed);
    UnionReads(f.typ, tail);
  }
}
