/**
 * The parser as the source writes it: a text and a cursor that loops and methods move. Each
 * method reads exactly what the parser on the remaining text reads, and leaves exactly its rest.
 */
module TypeCursor {
  import opened Prelude
  import opened TypeSyntax
  import P = TypeParser

  // ---------------------------------------------------------------- scanning from a position

  /** What is left from position `i`; nothing past the end. */
  function From(s: string, i: nat): string {
    if i <= |s| then s[i..] else ""
  }

  lemma FromStep(s: string, i: nat)
    requires i < |s|
    ensures From(s, i) != "" && From(s, i)[0] == s[i] && From(s, i)[1..] == From(s, i + 1)
  {
  }

  lemma FromAdd(s: string, i: nat, n: nat)
    requires i + n <= |s|
    ensures From(s, i)[n..] == From(s, i + n) && |From(s, i)| == |s| - i
  {
  }

  lemma FromSlice(s: string, i: nat, a: nat, b: nat)
    requires a <= b && i + b <= |s|
    ensures s[i + a..i + b] == From(s, i)[a..b]
  {
  }

  method SkipLineComment(s: string, i: nat) returns (j: nat)
    requires i + 2 <= |s|
    ensures i + 2 <= j <= |s| && From(s, j) == SkipLine(From(s, i)[2..])
  {
    j := i + 2;
    FromAdd(s, i, 2);
    while j < |s| && s[j] != '\n'
      invariant i + 2 <= j <= |s| && SkipLine(From(s, j)) == SkipLine(From(s, i + 2))
    {
      FromStep(s, j);
      j := j + 1;
    }
    if j < |s| { FromStep(s, j); }
  }

  method SkipBlockComment(s: string, i: nat) returns (j: nat)
    requires i + 2 <= |s|
    ensures i + 2 <= j <= |s| && From(s, j) == SkipBlock(From(s, i)[2..])
  {
    j := i + 2;
    FromAdd(s, i, 2);
    while j < |s| && !(s[j] == '*' && j + 1 < |s| && s[j + 1] == '/')
      invariant i + 2 <= j <= |s| && SkipBlock(From(s, j)) == SkipBlock(From(s, i + 2))
    {
      FromStep(s, j);
      FromAdd(s, j, 1);
      if j + 1 < |s| { FromStep(s, j + 1); }
      j := j + 1;
    }
    if j < |s| {
      FromStep(s, j);
      FromStep(s, j + 1);
      FromAdd(s, j, 2);
      j := j + 2;
    }
  }

  lemma TriviaSpace(s: string, j: nat)
    requires j < |s| && IsSpace(s[j])
    ensures SkipTrivia(From(s, j)) == SkipTrivia(From(s, j + 1))
  {
    FromStep(s, j);
  }

  lemma TwoAhead(s: string, j: nat)
    requires j < |s|
    ensures From(s, j)[0] == s[j] && (|From(s, j)| >= 2 <==> j + 1 < |s|) && (j + 1 < |s| ==> From(s, j)[1] == s[j + 1])
  {
  }

  /** One step over white space or a comment; `j` itself when there is none. */
  method SkipOnce(s: string, j: nat) returns (k: nat)
    requires j < |s|
    ensures j <= k <= |s| && SkipTrivia(From(s, k)) == SkipTrivia(From(s, j))
    ensures k == j ==> SkipTrivia(From(s, j)) == From(s, j)
  {
    TwoAhead(s, j);
    k := j;
    if IsSpace(s[j]) {
      TriviaSpace(s, j);
      k := j + 1;
    } else if s[j] == '/' && j + 1 < |s| && s[j + 1] == '/' {
      k := SkipLineComment(s, j);
    } else if s[j] == '/' && j + 1 < |s| && s[j + 1] == '*' {
      k := SkipBlockComment(s, j);
    }
  }

  method SkipTriviaAt(s: string, i: nat) returns (j: nat)
    ensures i <= j && From(s, j) == SkipTrivia(From(s, i)) && (j <= |s| || j == i)
  {
    j := i;
    while j < |s|
      invariant i <= j && (j <= |s| || j == i) && SkipTrivia(From(s, j)) == SkipTrivia(From(s, i))
      decreases |s| - j
    {
      var k := SkipOnce(s, j);
      if k == j { return; }
      j := k;
    }
  }

  /** The word at a position, empty when there is none. */
  method ReadWordAt(s: string, i: nat) returns (word: string)
    ensures word == From(s, i)[..WordLength(From(s, i))] && i + |word| <= if i <= |s| then |s| else i
  {
    if i >= |s| || !IsWordChar(s[i]) {
      if i < |s| { FromStep(s, i); }
      return "";
    }
    var j := i;
    while j < |s| && IsWordChar(s[j])
      invariant i <= j <= |s| && WordLength(From(s, i)) == j - i + WordLength(From(s, j))
    {
      FromStep(s, j);
      j := j + 1;
    }
    if j < |s| { FromStep(s, j); }
    word := s[i..j];
  }

  predicate QuoteAt(s: string, i: nat) {
    i < |s| && (s[i] == '\'' || s[i] == '"' || s[i] == '`')
  }

  /** Past a quoted text; anywhere else, one position on. */
  method SkipQuoted(s: string, i: nat) returns (j: nat)
    ensures !QuoteAt(s, i) ==> j == i + 1
    ensures QuoteAt(s, i) ==> i < j <= |s| + 1 && j - i == QuotedEnd(From(s, i), From(s, i)[0], 1)
  {
    if !QuoteAt(s, i) { return i + 1; }
    var quote, t := s[i], From(s, i);
    j := i + 1;
    while j < |s|
      invariant i < j <= |s| + 1 && QuotedEnd(t, quote, j - i) == QuotedEnd(t, quote, 1)
      decreases |s| - j
    {
      assert s[j] == t[j - i];
      if s[j] == '\\' {
        j := j + 2;
      } else if s[j] == quote {
        j := j + 1;
        return;
      } else {
        j := j + 1;
      }
    }
  }

  method DecodeString(raw: string) returns (out: string)
    ensures out == Decode(raw)
  {
    out := "";
    var i := 0;
    while i < |raw|
      invariant 0 <= i <= |raw| + 1 && out + Decode(From(raw, i)) == Decode(raw)
      decreases |raw| - i
    {
      FromStep(raw, i);
      ghost var rest := From(raw, i);
      if raw[i] != '\\' {
        DecodePlain(out, rest);
        out := out + [raw[i]];
      } else {
        if i + 1 < |raw| {
          FromStep(raw, i + 1);
          FromAdd(raw, i, 2);
          DecodeEscaped(out, rest);
          out := out + [if raw[i + 1] == 'n' then '\n' else raw[i + 1]];
        }
        i := i + 1;
      }
      i := i + 1;
    }
  }

  lemma DecodePlain(out: string, rest: string)
    requires rest != "" && rest[0] != '\\'
    ensures out + Decode(rest) == (out + [rest[0]]) + Decode(rest[1..])
  {
  }

  lemma DecodeEscaped(out: string, rest: string)
    requires |rest| > 1 && rest[0] == '\\'
    ensures out + Decode(rest) == (out + [if rest[1] == 'n' then '\n' else rest[1]]) + Decode(rest[2..])
  {
  }

  // ---------------------------------------------------------------- the parser

  lemma SkipSettled(t: string)
    requires Settled(t)
    ensures SkipTrivia(t) == t
  {
  }

  /** What a primary type is read as when it starts with neither a bracket nor `readonly`. */
  function Simple(t: string): P.Parsed<TypeAst> {
    if StartsWith(t, '\'') || StartsWith(t, '"') then P.ParseString(t)
    else
      var word := P.ReadWord(t);
      if word.value == "" then P.Parsed(Opaque(""), word.rest) else P.ParseWordType(word.value, word.rest)
  }

  function Braced(t: string): P.Parsed<TypeAst> {
    if StartsWith(t, '{') then
      var fields := P.ParseFields(t[1..]);
      P.Parsed(Object(fields.value), fields.rest)
    else Simple(t)
  }

  function Grouped(t: string): P.Parsed<TypeAst> {
    if StartsWith(t, '(') then
      var inner := P.ParseUnion(t[1..]);
      P.Parsed(inner.value, P.Eat(")", inner.rest).rest)
    else Braced(t)
  }

  lemma QuotedIs(t: string, end: nat, raw: string, rest: string)
    requires t != "" && end == QuotedEnd(t, t[0], 1)
    requires raw == t[1..var close := if end - 1 <= |t| then end - 1 else |t|; if close < 1 then 1 else close]
    requires rest == if end <= |t| then t[end..] else ""
    ensures P.ReadQuoted(t) == P.Parsed(Decode(raw), rest)
  {
    assert t[|t|..] == "";
  }

  lemma EatOne(c: char, t: string)
    requires Settled(t)
    ensures P.Eat([c], t) == P.Parsed(StartsWith(t, c), if StartsWith(t, c) then t[1..] else t)
  {
    SkipSettled(t);
    if t != "" { assert t[..1] == [t[0]]; }
    assert [c] <= t <==> StartsWith(t, c);
  }

  /** A round of the argument loop: the argument read, whether a comma followed, and what is left. */
  datatype ArgRound = ArgRound(arg: Option<TypeAst>, more: bool, rest: string)

  function NextArg(s: string): (r: ArgRound)
    ensures |r.rest| <= |s| && (r.more ==> r.arg.Some? && |r.rest| < |s|)
  {
    var t := SkipTrivia(s);
    if StartsWith(t, '>') then ArgRound(None, false, t)
    else
      var arg := P.ParseUnion(t);
      var u := SkipTrivia(arg.rest);
      if StartsWith(u, ',') then ArgRound(Some(arg.value), true, u[1..]) else ArgRound(Some(arg.value), false, u)
  }

  lemma ArgsStep(s: string)
    requires s != ""
    ensures var r := NextArg(s);
      P.ParseArgs(s) ==
        if r.arg.None? then P.Parsed([], r.rest)
        else
          var more := if r.more then P.ParseArgs(r.rest) else P.Parsed([], r.rest);
          P.Parsed([r.arg.value] + more.value, more.rest)
  {
    var r := NextArg(s);
    if r.arg.Some? { assert [r.arg.value] + [] == [r.arg.value]; }
  }

  /** A round of the field loop: the field read, if any, and what is left. */
  datatype FieldRound = FieldRound(field: Option<Field>, rest: string)

  function NextField(t: string): (r: FieldRound)
    ensures |r.rest| <= |t|
  {
    var field := P.ParseField(t);
    FieldRound(field.value, if t == "" then "" else if |field.rest| < |t| then field.rest else t[1..])
  }

  class Cursor {
    const source: string
    var i: nat

    constructor (source: string)
      ensures this.source == source && i == 0
    {
      this.source, i := source, 0;
    }

    ghost function Rest(): string
      reads this
    {
      From(source, i)
    }

    method Skip()
      modifies this
      ensures i >= old(i) && Rest() == SkipTrivia(old(Rest()))
    {
      i := SkipTriviaAt(source, i);
    }

    /** Whether the character comes next. */
    function Next(c: char): (yes: bool)
      reads this
      ensures yes <==> StartsWith(Rest(), c)
    {
      i < |source| && source[i] == c
    }

    /** Skips, then takes the token when it comes next; past the end, the empty one still does. */
    method Eat(token: string) returns (ok: bool)
      modifies this
      ensures i >= old(i) && P.Parsed(ok, Rest()) == P.Eat(token, old(Rest()))
    {
      Skip();
      ok := token == "" || (i + |token| <= |source| && source[i..i + |token|] == token);
      if i + |token| <= |source| {
        assert Rest()[..|token|] == source[i..i + |token|];
        FromAdd(source, i, |token|);
      }
      if ok { i := i + |token|; }
    }

    /** The same for one character, when there is nothing to skip. */
    method EatChar(c: char) returns (ok: bool)
      requires Settled(Rest())
      modifies this
      ensures i >= old(i) && ok == StartsWith(old(Rest()), c)
      ensures Rest() == if ok then old(Rest())[1..] else old(Rest())
      ensures ok ==> i > old(i)
    {
      EatOne(c, Rest());
      ghost var t := Rest();
      ok := Eat([c]);
      if ok { assert |Rest()| < |t|; }
    }

    method PeekWord() returns (word: string)
      ensures var t := SkipTrivia(Rest()); word == t[..WordLength(t)]
    {
      var j := SkipTriviaAt(source, i);
      word := ReadWordAt(source, j);
    }

    method ReadWord() returns (word: string)
      modifies this
      ensures i >= old(i) && P.Parsed(word, Rest()) == P.ReadWord(old(Rest()))
    {
      Skip();
      word := ReadWordAt(source, i);
      if i <= |source| { FromAdd(source, i, |word|); }
      i := i + |word|;
    }

    method ParseUnion() returns (ast: TypeAst)
      modifies this
      ensures i >= old(i) && P.Parsed(ast, Rest()) == P.ParseUnion(old(Rest()))
      decreases |Rest()|, 8
    {
      Skip();
      if Next('|') {
        FromStep(source, i);
        i := i + 1;
      }
      var first := ParseIntersection();
      var more := ParseMoreMembers();
      ast := if more == [] then first else Union([first] + more);
    }

    /** The loop over `|` and the member after each. */
    method ParseMoreMembers() returns (more: seq<TypeAst>)
      modifies this
      ensures i >= old(i) && P.Parsed(more, Rest()) == P.ParseUnionRest(old(Rest()))
      decreases |Rest()|, 7
    {
      more := [];
      JoinedNone(P.ParseUnionRest(Rest()));
      while true
        invariant i >= old(i) && |Rest()| <= |old(Rest())|
        invariant Joined(more, P.ParseUnionRest(Rest())) == P.ParseUnionRest(old(Rest()))
        decreases |Rest()|
      {
        var bar := Eat("|");
        if !bar {
          JoinedEnd(more, Rest());
          return;
        }
        var member := ParseIntersection();
        JoinedStep(more, member, P.ParseUnionRest(Rest()));
        more := more + [member];
      }
    }

    method ParseIntersection() returns (ast: TypeAst)
      modifies this
      ensures i >= old(i) && P.Parsed(ast, Rest()) == P.ParseIntersection(old(Rest()))
      decreases |Rest()|, 6
    {
      var first := ParsePostfix();
      var more := ParseMoreParts();
      ast := if more == [] then first else Intersection([first] + more);
    }

    /** The loop over `&` and the part after each. */
    method ParseMoreParts() returns (more: seq<TypeAst>)
      modifies this
      ensures i >= old(i) && P.Parsed(more, Rest()) == P.ParseIntersectionRest(old(Rest()))
      decreases |Rest()|, 5
    {
      more := [];
      JoinedNone(P.ParseIntersectionRest(Rest()));
      while true
        invariant i >= old(i) && |Rest()| <= |old(Rest())|
        invariant Joined(more, P.ParseIntersectionRest(Rest())) == P.ParseIntersectionRest(old(Rest()))
        decreases |Rest()|
      {
        var amp := Eat("&");
        if !amp {
          JoinedEnd(more, Rest());
          return;
        }
        var part := ParsePostfix();
        JoinedStep(more, part, P.ParseIntersectionRest(Rest()));
        more := more + [part];
      }
    }

    method ParsePostfix() returns (ast: TypeAst)
      modifies this
      ensures i >= old(i) && P.Parsed(ast, Rest()) == P.ParsePostfix(old(Rest()))
      decreases |Rest()|, 4
    {
      ast := ParsePrimary();
      while true
        invariant i >= old(i)
        invariant P.ParseBrackets(ast, Rest()) == P.ParsePostfix(old(Rest()))
        decreases |Rest()|
      {
        var brackets := Eat("[]");
        if !brackets { return; }
        ast := Array(ast, false);
      }
    }

    method ParsePrimary() returns (ast: TypeAst)
      modifies this
      ensures i >= old(i) && P.Parsed(ast, Rest()) == P.ParsePrimary(old(Rest()))
      decreases |Rest()|, 3, 1
    {
      Skip();
      SkipSettled(Rest());
      var word := PeekWord();
      if word == "readonly" {
        ast := ParseReadonly();
        return;
      }
      ast := ParseGroup();
    }

    method ParseGroup() returns (ast: TypeAst)
      requires Settled(Rest())
      modifies this
      ensures i >= old(i) && P.Parsed(ast, Rest()) == Grouped(old(Rest()))
      decreases |Rest()|, 3, 0
    {
      SkipSettled(Rest());
      var open := Eat("(");
      if open {
        ast := ParseUnion();
        var close := Eat(")");
      } else {
        ast := ParseObject();
      }
    }

    method ParseObject() returns (ast: TypeAst)
      requires Settled(Rest())
      modifies this
      ensures i >= old(i) && P.Parsed(ast, Rest()) == Braced(old(Rest()))
      decreases |Rest()|, 2
    {
      SkipSettled(Rest());
      var brace := Eat("{");
      if brace {
        var fields := ParseObjectFields();
        ast := Object(fields);
      } else {
        ast := ParseSimple();
      }
    }

    /** A string literal or a word. */
    method ParseSimple() returns (ast: TypeAst)
      modifies this
      ensures i >= old(i) && P.Parsed(ast, Rest()) == Simple(old(Rest()))
      decreases |Rest()|, 1
    {
      if Next('\'') || Next('"') {
        ast := ParseStringLiteral();
        return;
      }
      var word := ReadWord();
      if word == "" {
        ast := Opaque("");
      } else {
        ast := WordType(word);
      }
    }

    /** `readonly` and the type after it. */
    method ParseReadonly() returns (ast: TypeAst)
      requires var t := Rest(); Settled(t) && t[..WordLength(t)] == "readonly"
      modifies this
      ensures i >= old(i)
      ensures var inner := P.ParsePostfix(old(Rest())[8..]);
        P.Parsed(ast, Rest()) == P.Parsed(if inner.value.Array? then inner.value.(readonly := true) else Frozen(inner.value), inner.rest)
      decreases |Rest()|, 2
    {
      SkipSettled(Rest());
      var word := ReadWord();
      var inner := ParsePostfix();
      ast := if inner.Array? then inner.(readonly := true) else Frozen(inner);
    }

    method ParseStringLiteral() returns (ast: TypeAst)
      requires Next('\'') || Next('"')
      modifies this
      ensures i >= old(i) && P.Parsed(ast, Rest()) == P.ParseString(old(Rest()))
    {
      var value := ReadQuoted();
      ast := Literal(QuoteLiteral(value));
    }

    /** A quoted text, decoded. */
    method ReadQuoted() returns (value: string)
      requires Next('\'') || Next('"')
      modifies this
      ensures i >= old(i) && P.Parsed(value, Rest()) == P.ReadQuoted(old(Rest()))
    {
      ghost var t := Rest();
      var end := SkipQuoted(source, i);
      var close := if end - 1 <= |source| then end - 1 else |source|;
      close := if close < i + 1 then i + 1 else close;
      FromSlice(source, i, 1, close - i);
      if end <= |source| { FromAdd(source, i, end - i); }
      QuotedIs(t, end - i, source[i + 1..close], From(source, end));
      value := DecodeString(source[i + 1..close]);
      i := end;
    }

    method WordType(word: string) returns (ast: TypeAst)
      modifies this
      ensures i >= old(i) && P.Parsed(ast, Rest()) == P.ParseWordType(word, old(Rest()))
      decreases |Rest()|, 10
    {
      if IsDigits(word) || word == "true" || word == "false" { return Literal(word); }
      if word in TYPE_KEYWORDS { return Keyword(word); }
      var angle := Eat("<");
      var args := [];
      if angle {
        args := ParseTypeArgs();
        var close := Eat(">");
      }
      ast := Ref(word, args);
    }

    /** The loop over the type arguments. */
    method ParseTypeArgs() returns (args: seq<TypeAst>)
      modifies this
      ensures i >= old(i) && P.Parsed(args, Rest()) == P.ParseArgs(old(Rest()))
      decreases |Rest()|, 10
    {
      args := [];
      ghost var all := P.ParseArgs(Rest());
      JoinedNone(all);
      while i < |source|
        invariant i >= old(i) && |Rest()| <= |old(Rest())|
        invariant Joined(args, P.ParseArgs(Rest())) == all
        decreases |Rest()|
      {
        ArgsStep(Rest());
        var arg, more := ParseArgRound();
        if arg.Some? {
          JoinedStep(args, arg.value, if more then P.ParseArgs(Rest()) else P.Parsed([], Rest()));
          args := args + [arg.value];
        }
        if !more {
          JoinedEnd(args, Rest());
          return;
        }
      }
      JoinedEnd(args, Rest());
    }

    /** One round: the closing angle bracket, or an argument and whether a comma follows it. */
    method ParseArgRound() returns (arg: Option<TypeAst>, more: bool)
      requires i < |source|
      modifies this
      ensures i >= old(i) && ArgRound(arg, more, Rest()) == NextArg(old(Rest()))
      decreases |Rest()|, 9
    {
      Skip();
      arg, more := None, false;
      if Next('>') { return; }
      var ast := ParseUnion();
      Skip();
      arg := Some(ast);
      if Next(',') {
        FromStep(source, i);
        i := i + 1;
        more := true;
      }
    }

    /** The loop over the fields of an object type, up to its closing brace or the end. */
    method ParseObjectFields() returns (fields: seq<Field>)
      modifies this
      ensures i >= old(i) && P.Parsed(fields, Rest()) == P.ParseFields(old(Rest()))
      decreases |Rest()|, 10
    {
      fields := [];
      ghost var all := P.ParseFields(Rest());
      JoinedNone(all);
      while i < |source|
        invariant i >= old(i) && |Rest()| <= |old(Rest())|
        invariant Joined(fields, P.ParseFields(Rest())) == all
        decreases |source| - i
      {
        var field, closed := ParseFieldRound();
        if closed {
          JoinedEnd(fields, Rest());
          return;
        }
        JoinedLed(fields, field, P.ParseFields(Rest()));
        if field.Some? { fields := fields + [field.value]; }
      }
      JoinedEnd(fields, Rest());
    }

    /** One round: the closing brace, a separator, or a field. */
    method ParseFieldRound() returns (field: Option<Field>, closed: bool)
      requires i < |source|
      modifies this
      ensures i > old(i) && |Rest()| <= |old(Rest())|
      ensures closed ==> P.ParseFields(old(Rest())) == P.Parsed([], Rest())
      ensures !closed ==> P.ParseFields(old(Rest())) == Led(field, P.ParseFields(Rest()))
      decreases |Rest()|, 9
    {
      FieldsSkip(Rest());
      Skip();
      var separator;
      closed, separator := EatMark();
      field := None;
      if closed { return; }
      if separator {
        LedNone(P.ParseFields(Rest()));
      } else {
        FieldsStep(Rest());
        field := ParseFieldOrMoveOn();
      }
    }

    /** The closing brace or a separator, when one comes next. */
    method EatMark() returns (closed: bool, separator: bool)
      requires Settled(Rest())
      modifies this
      ensures i >= old(i) && |Rest()| <= |old(Rest())|
      ensures closed ==> i > old(i) && P.ParseFields(old(Rest())) == P.Parsed([], Rest())
      ensures !closed && separator ==> i > old(i) && P.ParseFields(old(Rest())) == P.ParseFields(Rest())
      ensures var t := old(Rest());
        !closed && !separator ==> Rest() == t && !StartsWith(t, '}') && !StartsWith(t, ';') && !StartsWith(t, ',')
    {
      if i < |source| { FieldsMark(Rest()); }
      separator := false;
      closed := EatChar('}');
      if !closed {
        separator := EatChar(';');
        if !separator { separator := EatChar(','); }
      }
    }

    /** A field; when nothing was read, the cursor moves on by one. */
    method ParseFieldOrMoveOn() returns (field: Option<Field>)
      requires Settled(Rest())
      modifies this
      ensures i > old(i) && FieldRound(field, Rest()) == NextField(old(Rest()))
      decreases |Rest()|, 8
    {
      var before := i;
      if i < |source| { FromStep(source, i); }
      field := ParseField();
      if i == before { i := i + 1; }
    }

    /** A leading `readonly` is passed, unless it turns out to be the field's name. */
    method PassReadonly()
      requires Settled(Rest())
      modifies this
      ensures i >= old(i) && Rest() == P.DropReadonly(old(Rest()))
    {
      SkipSettled(Rest());
      var word := PeekWord();
      if word == "readonly" {
        var mark := i;
        word := ReadWord();
        Skip();
        if Next(':') || Next('?') { i := mark; }
      }
    }

    method ReadName() returns (name: string)
      modifies this
      ensures i >= old(i)
      ensures P.Parsed(name, Rest()) ==
        var s := old(Rest());
        if StartsWith(s, '\'') || StartsWith(s, '"') then P.ReadQuoted(s) else P.ReadWord(s)
    {
      if Next('\'') || Next('"') {
        name := ReadQuoted();
      } else {
        name := ReadWord();
      }
    }

    method ParseField() returns (field: Option<Field>)
      requires Settled(Rest())
      modifies this
      ensures i >= old(i) && P.Parsed(field, Rest()) == P.ParseField(old(Rest()))
      decreases |Rest()|, 7
    {
      PassReadonly();
      Skip();
      var name := ReadName();
      if !IsWord(name) { return None; }
      var optional := Eat("?");
      var colon := Eat(":");
      if !colon { return None; }
      var typ := ParseUnion();
      field := Some(Field(name, !optional, typ));
    }
  }

  /** The field, if there is one, before the others. */
  function Led(field: Option<Field>, more: P.Parsed<seq<Field>>): P.Parsed<seq<Field>> {
    P.Parsed((if field.Some? then [field.value] else []) + more.value, more.rest)
  }

  lemma LedNone(more: P.Parsed<seq<Field>>)
    ensures Led(None, more) == more
  {
    assert [] + more.value == more.value;
  }

  lemma JoinedLed(fields: seq<Field>, field: Option<Field>, more: P.Parsed<seq<Field>>)
    ensures Joined(fields, Led(field, more)) == Joined(if field.Some? then fields + [field.value] else fields, more)
  {
    if field.Some? { JoinedStep(fields, field.value, more); } else { LedNone(more); }
  }

  /** The closing brace and the separators. */
  lemma FieldsMark(t: string)
    requires Settled(t) && t != ""
    ensures t[0] == '}' ==> P.ParseFields(t) == P.Parsed([], t[1..])
    ensures t[0] == ';' || t[0] == ',' ==> P.ParseFields(t) == P.ParseFields(t[1..])
  {
    SkipSettled(t);
  }

  lemma FieldsSkip(s: string)
    ensures P.ParseFields(s) == P.ParseFields(SkipTrivia(s))
  {
    SkipSettled(SkipTrivia(s));
  }

  lemma FieldsStep(t: string)
    requires Settled(t) && !StartsWith(t, '}') && !StartsWith(t, ';') && !StartsWith(t, ',')
    ensures P.ParseFields(t) == Led(NextField(t).field, P.ParseFields(NextField(t).rest))
  {
    if t == "" { FieldsStepAtEnd(); } else { FieldsStepInside(t); }
  }

  lemma FieldsStepInside(t: string)
    requires Settled(t) && t != "" && !StartsWith(t, '}') && !StartsWith(t, ';') && !StartsWith(t, ',')
    ensures P.ParseFields(t) == Led(NextField(t).field, P.ParseFields(NextField(t).rest))
  {
    SkipSettled(t);
  }

  lemma FieldsStepAtEnd()
    ensures P.ParseFields("") == Led(NextField("").field, P.ParseFields(NextField("").rest))
  {
    FieldAtEnd();
    LedNone(P.Parsed([], ""));
  }

  lemma FieldAtEnd()
    ensures P.ParseField("") == P.Parsed(None, "") && P.ParseFields("") == P.Parsed([], "")
  {
    assert SkipTrivia("") == "" && WordLength("") == 0;
    assert P.DropReadonly("") == "";
    assert P.ReadWord("") == P.Parsed("", "");
  }

  function Joined<T>(done: seq<T>, more: P.Parsed<seq<T>>): P.Parsed<seq<T>> {
    P.Parsed(done + more.value, more.rest)
  }

  lemma JoinedNone<T>(more: P.Parsed<seq<T>>)
    ensures Joined([], more) == more
  {
    assert [] + more.value == more.value;
  }

  lemma JoinedEnd<T>(done: seq<T>, rest: string)
    ensures Joined(done, P.Parsed([], rest)) == P.Parsed(done, rest)
  {
    assert done + [] == done;
  }

  lemma JoinedStep<T>(done: seq<T>, x: T, more: P.Parsed<seq<T>>)
    ensures Joined(done, P.Parsed([x] + more.value, more.rest)) == Joined(done + [x], more)
  {
    assert done + ([x] + more.value) == (done + [x]) + more.value;
  }

  /** Parsing a text from its start. */
  method ParseTypeText(text: string) returns (ast: TypeAst)
    ensures ast == P.ParseType(text)
  {
    var cursor := new Cursor(text);
    assert From(text, 0) == text;
    ast := cursor.ParseUnion();
  }
}
