/** The text of a WireGuard configuration, line by line: how lines are joined, split and read. */
module WgLines {
  import opened Prelude
  import opened Text

  // ---------------------------------------------------------------- joining and splitting

  /** The lines with a line break between each two. */
  function Join(lines: List<string>): string {
    match lines
    case Nil => ""
    case Cons(line, Nil) => line
    case Cons(line, rest) => line + "\n" + Join(rest)
  }

  function BreakFrom(s: string, i: nat): (r: nat)
    requires i <= |s|
    ensures i <= r <= |s| && (r < |s| ==> s[r] == '\n') && forall k :: i <= k < r ==> s[k] != '\n'
    decreases |s| - i
  {
    if i == |s| || s[i] == '\n' then i else BreakFrom(s, i + 1)
  }

  function SplitLines(s: string): List<string>
    decreases |s|
  {
    var i := BreakFrom(s, 0);
    if i == |s| then Cons(s, Nil) else Cons(s[..i], SplitLines(s[i + 1..]))
  }

  predicate OneLine(s: string) {
    forall k :: 0 <= k < |s| ==> s[k] != '\n'
  }

  predicate AllOneLine(lines: List<string>) {
    lines.Cons? ==> OneLine(lines.head) && AllOneLine(lines.tail)
  }

  lemma {:induction false} SplitIsOneLine(s: string)
    ensures AllOneLine(SplitLines(s)) && SplitLines(s).Cons?
    decreases |s|
  {
    var i := BreakFrom(s, 0);
    if i < |s| { SplitIsOneLine(s[i + 1..]); }
  }

  lemma SplitFirst(line: string, rest: string)
    requires OneLine(line)
    ensures SplitLines(line + "\n" + rest) == Cons(line, SplitLines(rest))
  {
    var s := line + "\n" + rest;
    assert s[|line|] == '\n';
    assert forall k :: 0 <= k < |line| ==> s[k] == line[k];
    assert BreakFrom(s, 0) == |line|;
    assert s[..|line|] == line && s[|line| + 1..] == rest;
  }

  /** Splitting gives back the lines that were joined. */
  lemma {:induction false} SplitJoin(lines: List<string>)
    requires lines.Cons? && AllOneLine(lines)
    ensures SplitLines(Join(lines)) == lines
  {
    if lines.tail.Cons? {
      SplitJoin(lines.tail);
      SplitFirst(lines.head, Join(lines.tail));
    }
  }

  // ---------------------------------------------------------------- reading a line

  /** The settings the parsers and the filter tell apart. */
  datatype Key = PublicKey | PresharedKey | Endpoint | Keepalive | QuickOnly | OtherKey

  datatype Line = Header(isInterface: bool) | Entry(key: Key, value: string) | NoEntry

  function LowerChar(c: char): char {
    if 'A' <= c <= 'Z' then ((c as int + 32) as char) else c
  }

  function Lower(s: string): (r: string)
    ensures |r| == |s| && forall i :: 0 <= i < |s| ==> r[i] == LowerChar(s[i])
  {
    seq(|s|, i requires 0 <= i < |s| => LowerChar(s[i]))
  }

  function KeyOf(name: string): Key {
    if name == "publickey" then PublicKey
    else if name == "presharedkey" then PresharedKey
    else if name == "endpoint" then Endpoint
    else if name == "persistentkeepalive" then Keepalive
    else if name in ["address", "dns", "mtu", "table", "preup", "postup", "predown", "postdown", "saveconfig"] then QuickOnly
    else OtherKey
  }

  function EqualsFrom(s: string, i: nat): (r: nat)
    requires i <= |s|
    ensures i <= r <= |s| && (r < |s| ==> s[r] == '=') && forall k :: i <= k < r ==> s[k] != '='
    decreases |s| - i
  {
    if i == |s| || s[i] == '=' then i else EqualsFrom(s, i + 1)
  }

  /** What a trimmed line says: its name before the first `=` and its value after it. */
  function ReadTrimmed(t: string): Line {
    if |t| > 0 && t[0] == '[' && t[|t| - 1] == ']' then Header(Lower(t) == "[interface]")
    else
      var eq := EqualsFrom(t, 0);
      if eq == 0 || eq == |t| then NoEntry
      else Entry(KeyOf(Lower(TrimSlice(t, 0, eq))), TrimSlice(t, eq + 1, |t|))
  }

  function ReadLine(raw: string): Line {
    ReadTrimmed(Trim(raw))
  }

  /** Without a blank at either end. */
  predicate Trimmed(s: string) {
    |s| > 0 ==> !White(s[0]) && !White(s[|s| - 1])
  }

  /** A setting's name. */
  predicate NameShape(name: string) {
    |name| > 0 && Trimmed(name) && name[0] != '[' && forall k :: 0 <= k < |name| ==> name[k] != '=' && name[k] != '\n'
  }

  function SettingText(name: string, value: string): string {
    name + " = " + value
  }

  /** The line without its last blank when the value is empty. */
  lemma SettingTrims(name: string, value: string)
    requires NameShape(name) && Trimmed(value)
    ensures Trim(SettingText(name, value)) == if value == "" then name + " =" else SettingText(name, value)
  {
    var s := SettingText(name, value);
    assert s[0] == name[0];
    if value == "" {
      assert s[|s| - 1] == ' ' && s[|s| - 2] == '=';
      assert InkBefore(s, 0, |s|) == |s| - 1;
      assert s[..|s| - 1] == name + " =";
    } else {
      assert s[|s| - 1] == value[|value| - 1];
    }
  }

  lemma NameReads(name: string, t: string)
    requires NameShape(name) && |t| >= |name| + 2 && t[..|name| + 2] == name + " ="
    ensures EqualsFrom(t, 0) == |name| + 1 && TrimSlice(t, 0, |name| + 1) == name && t[0] != '['
  {
    var n := |name|;
    forall k | 0 <= k < n + 2 ensures t[k] == (name + " =")[k] { assert t[..n + 2][k] == t[k]; }
    assert t[0] == name[0] && t[n - 1] == name[n - 1] && t[n] == ' ' && t[n + 1] == '=';
    assert forall k :: 0 <= k <= n ==> t[k] != '=';
    assert InkBefore(t, 0, n + 1) == InkBefore(t, 0, n) == n;
    assert t[..n] == name;
  }

  /** A written setting is read as that setting with that value. */
  lemma SettingReads(name: string, value: string)
    requires NameShape(name) && Trimmed(value)
    ensures ReadLine(SettingText(name, value)) == Entry(KeyOf(Lower(name)), value)
  {
    var t, n := Trim(SettingText(name, value)), |name|;
    SettingTrims(name, value);
    assert t[..n + 2] == name + " =";
    NameReads(name, t);
    if value != "" {
      assert t[n + 2] == ' ' && t[n + 3] == value[0] && t[|t| - 1] == value[|value| - 1];
      assert InkFrom(t, n + 2, |t|) == n + 3;
      assert t[n + 3..] == value;
    }
  }

  lemma {:induction false} InkBeforePast(s: string, low: nat, high: nat, p: nat)
    requires low <= p < high <= |s| && !White(s[p])
    ensures InkBefore(s, low, high) > p
    decreases high
  {
    if White(s[high - 1]) { InkBeforePast(s, low, high - 1, p); }
  }

  /** Whatever the value, the name is read. */
  lemma SettingKey(name: string, value: string)
    requires NameShape(name)
    ensures var line := ReadLine(SettingText(name, value)); line.Entry? && line.key == KeyOf(Lower(name))
  {
    var s, n := SettingText(name, value), |name|;
    assert s[0] == name[0] && s[n + 1] == '=';
    InkBeforePast(s, 0, |s|, n + 1);
    assert s[..n + 2] == name + " =";
    var t := Trim(s);
    assert t == s[0..InkBefore(s, 0, |s|)];
    assert t[..n + 2] == s[..n + 2];
    NameReads(name, t);
  }

  lemma BlankReads()
    ensures ReadLine("") == NoEntry
  {
  }
}
