/**
 * The recursive-descent parser of the type language, on the text that is left to read.
 * Every function is total: the parser ends on every input.
 */
module TypeParser {
  import opened Prelude
  import opened TypeSyntax

  datatype Parsed<T> = Parsed(value: T, rest: string)

  /** Skip white space and comments, then take `token` when it comes next. */
  function Eat(token: string, s: string): (r: Parsed<bool>)
    ensures |r.rest| <= |s|
    ensures r.value && token != "" ==> |r.rest| < |s|
  {
    var t := SkipTrivia(s);
    if token <= t then Parsed(true, t[|token|..]) else Parsed(false, t)
  }

  function ReadWord(s: string): (r: Parsed<string>)
    ensures |r.rest| <= |s| && (r.value != "" ==> |r.rest| < |s|)
    ensures r.value != "" ==> IsWord(r.value)
  {
    var t := SkipTrivia(s);
    var n := WordLength(t);
    Parsed(t[..n], t[n..])
  }

  function ParseUnion(s: string): (r: Parsed<TypeAst>)
    ensures |r.rest| <= |s|
    decreases |s|, 8
  {
    var t := SkipTrivia(s);
    var t1 := if StartsWith(t, '|') then t[1..] else t;
    var first := ParseIntersection(t1);
    var more := ParseUnionRest(first.rest);
    Parsed(if more.value == [] then first.value else Union([first.value] + more.value), more.rest)
  }

  function ParseUnionRest(s: string): (r: Parsed<seq<TypeAst>>)
    ensures |r.rest| <= |s|
    decreases |s|, 7
  {
    var bar := Eat("|", s);
    if !bar.value then Parsed([], bar.rest)
    else
      var member := ParseIntersection(bar.rest);
      var more := ParseUnionRest(member.rest);
      Parsed([member.value] + more.value, more.rest)
  }

  function ParseIntersection(s: string): (r: Parsed<TypeAst>)
    ensures |r.rest| <= |s|
    decreases |s|, 6
  {
    var first := ParsePostfix(s);
    var more := ParseIntersectionRest(first.rest);
    Parsed(if more.value == [] then first.value else Intersection([first.value] + more.value), more.rest)
  }

  function ParseIntersectionRest(s: string): (r: Parsed<seq<TypeAst>>)
    ensures |r.rest| <= |s|
    decreases |s|, 5
  {
    var amp := Eat("&", s);
    if !amp.value then Parsed([], amp.rest)
    else
      var member := ParsePostfix(amp.rest);
      var more := ParseIntersectionRest(member.rest);
      Parsed([member.value] + more.value, more.rest)
  }

  function ParsePostfix(s: string): (r: Parsed<TypeAst>)
    ensures |r.rest| <= |s|
    decreases |s|, 4
  {
    var primary := ParsePrimary(s);
    ParseBrackets(primary.value, primary.rest)
  }

  function ParseBrackets(ast: TypeAst, s: string): (r: Parsed<TypeAst>)
    ensures |r.rest| <= |s|
    decreases |s|, 0
  {
    var brackets := Eat("[]", s);
    if brackets.value then ParseBrackets(Array(ast, false), brackets.rest)
    else Parsed(ast, brackets.rest)
  }

  function ParsePrimary(s: string): (r: Parsed<TypeAst>)
    ensures |r.rest| <= |s|
    decreases |s|, 3
  {
    var t := SkipTrivia(s);
    if t[..WordLength(t)] == "readonly" then
      var inner := ParsePostfix(t[8..]);
      Parsed(if inner.value.Array? then inner.value.(readonly := true) else Frozen(inner.value), inner.rest)
    else if StartsWith(t, '(') then
      var inner := ParseUnion(t[1..]);
      Parsed(inner.value, Eat(")", inner.rest).rest)
    else if StartsWith(t, '{') then
      var fields := ParseFields(t[1..]);
      Parsed(Object(fields.value), fields.rest)
    else if StartsWith(t, '\'') || StartsWith(t, '"') then
      ParseString(t)
    else
      var word := ReadWord(t);
      if word.value == "" then Parsed(Opaque(""), word.rest) else ParseWordType(word.value, word.rest)
  }

  /** What a quoted text holds, and what follows it. */
  function ReadQuoted(t: string): (r: Parsed<string>)
    requires t != ""
    ensures |r.rest| < |t|
  {
    var end := QuotedEnd(t, t[0], 1);
    var close := if end - 1 <= |t| then end - 1 else |t|;
    Parsed(Decode(t[1..if close < 1 then 1 else close]), t[if end <= |t| then end else |t|..])
  }

  function ParseString(t: string): (r: Parsed<TypeAst>)
    requires t != ""
    ensures |r.rest| < |t|
  {
    var quoted := ReadQuoted(t);
    Parsed(Literal(QuoteLiteral(quoted.value)), quoted.rest)
  }

  predicate IsLiteralWord(w: string) {
    IsDigits(w) || w == "true" || w == "false"
  }

  function ParseWordType(word: string, s: string): (r: Parsed<TypeAst>)
    ensures |r.rest| <= |s|
    decreases |s|, 10
  {
    if IsLiteralWord(word) then Parsed(Literal(word), s)
    else if word in TYPE_KEYWORDS then Parsed(Keyword(word), s)
    else
      var angle := Eat("<", s);
      if !angle.value then Parsed(Ref(word, []), angle.rest)
      else
        var args := ParseArgs(angle.rest);
        Parsed(Ref(word, args.value), Eat(">", args.rest).rest)
  }

  function ParseArgs(s: string): (r: Parsed<seq<TypeAst>>)
    ensures |r.rest| <= |s|
    decreases |s|, 9
  {
    if s == "" then Parsed([], s)
    else
      var t := SkipTrivia(s);
      if StartsWith(t, '>') then Parsed([], t)
      else
        var arg := ParseUnion(t);
        var u := SkipTrivia(arg.rest);
        if StartsWith(u, ',') then
          var more := ParseArgs(u[1..]);
          Parsed([arg.value] + more.value, more.rest)
        else Parsed([arg.value], u)
  }

  function ParseFields(s: string): (r: Parsed<seq<Field>>)
    ensures |r.rest| <= |s|
    decreases |s|, 9
  {
    if s == "" then Parsed([], s)
    else
      var t := SkipTrivia(s);
      if t == "" then Parsed([], t)
      else if t[0] == '}' then Parsed([], t[1..])
      else if t[0] == ';' || t[0] == ',' then ParseFields(t[1..])
      else
        var field := ParseField(t);
        var more := ParseFields(if |field.rest| < |t| then field.rest else t[1..]);
        Parsed((if field.value.Some? then [field.value.value] else []) + more.value, more.rest)
  }

  /** A leading `readonly` is dropped unless it is the field's own name. */
  function DropReadonly(t: string): (r: string)
    ensures |r| <= |t|
  {
    if t[..WordLength(t)] == "readonly" then
      var after := SkipTrivia(t[8..]);
      if StartsWith(after, ':') || StartsWith(after, '?') then t else after
    else t
  }

  function ParseField(t: string): (r: Parsed<Option<Field>>)
    ensures |r.rest| <= |t|
    decreases |t|, 7
  {
    var s := SkipTrivia(DropReadonly(t));
    var name := if StartsWith(s, '\'') || StartsWith(s, '"') then ReadQuoted(s) else ReadWord(s);
    if !IsWord(name.value) then Parsed(None, name.rest)
    else
      var optional := Eat("?", name.rest);
      var colon := Eat(":", optional.rest);
      if !colon.value then Parsed(None, colon.rest)
      else
        var typ := ParseUnion(colon.rest);
        Parsed(Some(Field(name.value, !optional.value, typ.value)), typ.rest)
  }

  function ParseType(text: string): TypeAst {
    ParseUnion(text).value
  }
}
