/** The small type language of the contract drift check: its syntax tree and its lexical level. */
module TypeSyntax {
  datatype TypeAst =
    | Keyword(name: string)
    | Literal(text: string)
    | Union(members: seq<TypeAst>)
    | Intersection(members: seq<TypeAst>)
    | Array(element: TypeAst, readonly: bool)
    | Ref(name: string, args: seq<TypeAst>)
    | Object(fields: seq<Field>)
    | Opaque(text: string)
    | Frozen(inner: TypeAst)   // `readonly` before something that is not an array: opaque text made from it

  datatype Field = Field(name: string, required: bool, typ: TypeAst)

  const TYPE_KEYWORDS: set<string> := {
    "string", "number", "boolean", "bigint", "symbol", "object",
    "any", "unknown", "never", "void", "null", "undefined"
  }

  // ---------------------------------------------------------------- characters and words

  predicate IsWordChar(c: char) {
    'a' <= c <= 'z' || 'A' <= c <= 'Z' || '0' <= c <= '9' || c == '_'
  }

  predicate IsSpace(c: char) {
    c == ' ' || c == '\t' || c == '\n' || c == '\r'
  }

  predicate IsWord(s: string) {
    s != "" && forall i :: 0 <= i < |s| ==> IsWordChar(s[i])
  }

  predicate IsDigits(s: string) {
    s != "" && forall i :: 0 <= i < |s| ==> '0' <= s[i] <= '9'
  }

  /** Length of the word at the start of `s`. */
  function WordLength(s: string): (n: nat)
    ensures n <= |s|
    ensures forall i :: 0 <= i < n ==> IsWordChar(s[i])
    ensures n < |s| ==> !IsWordChar(s[n])
  {
    if s == "" || !IsWordChar(s[0]) then 0 else 1 + WordLength(s[1..])
  }

  predicate StartsWith(s: string, c: char) {
    s != "" && s[0] == c
  }

  /** A word followed by something that is not a word character is read back whole. */
  lemma {:induction false} WordThen(w: string, rest: string)
    requires forall i :: 0 <= i < |w| ==> IsWordChar(w[i])
    requires rest == "" || !IsWordChar(rest[0])
    ensures WordLength(w + rest) == |w| && (w + rest)[..|w|] == w && (w + rest)[|w|..] == rest
  {
    if w != "" {
      assert (w + rest)[1..] == w[1..] + rest;
      WordThen(w[1..], rest);
    } else {
      assert w + rest == rest;
    }
  }

  // ---------------------------------------------------------------- white space and comments

  function SkipLine(s: string): (r: string)
    ensures |r| <= |s|
  {
    if s == "" || s[0] == '\n' then s else SkipLine(s[1..])
  }

  function SkipBlock(s: string): (r: string)
    ensures |r| <= |s|
  {
    if |s| < 2 then ""
    else if s[0] == '*' && s[1] == '/' then s[2..]
    else SkipBlock(s[1..])
  }

  /** No white space or comment at the start. */
  predicate Settled(s: string) {
    s == "" || (!IsSpace(s[0]) && (s[0] == '/' && |s| >= 2 ==> s[1] != '/' && s[1] != '*'))
  }

  function SkipTrivia(s: string): (r: string)
    ensures |r| <= |s|
    ensures Settled(r)
    decreases |s|
  {
    if s == "" then s
    else if IsSpace(s[0]) then SkipTrivia(s[1..])
    else if |s| >= 2 && s[0] == '/' && s[1] == '/' then SkipTrivia(SkipLine(s[2..]))
    else if |s| >= 2 && s[0] == '/' && s[1] == '*' then SkipTrivia(SkipBlock(s[2..]))
    else s
  }

  // ---------------------------------------------------------------- string literals

  /** Index after the quoted text starting at 0, searching from `j`; past the end when it is not closed. */
  function QuotedEnd(s: string, quote: char, j: nat): (n: nat)
    ensures j <= n && (j <= |s| + 1 ==> n <= |s| + 1)
    decreases |s| - j
  {
    if j >= |s| then j
    else if s[j] == '\\' then QuotedEnd(s, quote, j + 2)
    else if s[j] == quote then j + 1
    else QuotedEnd(s, quote, j + 1)
  }

  function Decode(raw: string): string {
    if raw == "" then ""
    else if raw[0] != '\\' then [raw[0]] + Decode(raw[1..])
    else if |raw| == 1 then ""
    else [if raw[1] == 'n' then '\n' else raw[1]] + Decode(raw[2..])
  }

  function Escape(v: string): string {
    if v == "" then ""
    else if v[0] == '\\' then "\\\\" + Escape(v[1..])
    else if v[0] == '\'' then "\\'" + Escape(v[1..])
    else [v[0]] + Escape(v[1..])
  }

  function QuoteLiteral(v: string): string {
    "'" + Escape(v) + "'"
  }

  /** Escaping loses nothing. */
  lemma {:induction false} DecodeEscape(v: string)
    ensures Decode(Escape(v)) == v
  {
    if v != "" {
      DecodeEscape(v[1..]);
      var e := Escape(v[1..]);
      if v[0] == '\\' {
        assert ("\\\\" + e)[2..] == e;
      } else if v[0] == '\'' {
        assert ("\\'" + e)[2..] == e;
      } else {
        assert ([v[0]] + e)[1..] == e;
      }
      assert v == [v[0]] + v[1..];
    }
  }

  /** The closing quote found is the one that was written, whatever follows it. */
  lemma {:induction false} QuotedEndEscape(before: string, v: string, rest: string)
    ensures QuotedEnd(before + Escape(v) + "'" + rest, '\'', |before|) == |before| + |Escape(v)| + 1
    decreases |v|
  {
    var s := before + Escape(v) + "'" + rest;
    if v == "" {
      assert s[|before|] == '\'';
    } else {
      var e := Escape(v[1..]);
      var unit := if v[0] == '\\' then "\\\\" else if v[0] == '\'' then "\\'" else [v[0]];
      assert Escape(v) == unit + e;
      assert s == (before + unit) + e + "'" + rest;
      assert s[|before|] == unit[0];
      QuotedEndEscape(before + unit, v[1..], rest);
    }
  }
}
