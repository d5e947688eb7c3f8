/**
  Lines, blanks and the fallback parser's reading of one line
  (src/common/config_parser.c). Texts are C strings: they hold no zero byte.
 */
module ConfigText {

  /** isspace, or only the four characters the rewriter trims. */
  predicate Space(c: char, wide: bool) {
    c == ' ' || c == '\t' || c == '\r' || c == '\n' || (wide && (c == '\U{0B}' || c == '\U{0C}'))
  }

  /** isspace in the C locale is the blank and codes 9 to 13; the rewriter leaves out 11
      and 12. */
  lemma SpaceCodes(c: char)
    ensures Space(c, true) <==> c as int == 32 || 9 <= c as int <= 13
    ensures Space(c, false) <==> Space(c, true) && c as int != 11 && c as int != 12
  {
  }

  function TrimLeft(s: string, wide: bool): (t: string)
    ensures |t| <= |s| && (t != "" ==> !Space(t[0], wide))
  {
    if s != "" && Space(s[0], wide) then TrimLeft(s[1..], wide) else s
  }

  function TrimRight(s: string, wide: bool): (t: string)
    ensures t <= s && (t != "" ==> !Space(t[|t| - 1], wide))
  {
    if s != "" && Space(s[|s| - 1], wide) then TrimRight(s[..|s| - 1], wide) else s
  }

  function Trim(s: string, wide: bool): (t: string) {
    TrimRight(TrimLeft(s, wide), wide)
  }

  /** strchr: the index of the first `c`, or the length. */
  function Find(s: string, c: char): (i: nat)
    ensures i <= |s|
    ensures forall j | 0 <= j < i :: s[j] != c
    ensures i < |s| ==> s[i] == c
  {
    if s == "" || s[0] == c then 0 else 1 + Find(s[1..], c)
  }

  /** How long the first line is, its newline included. */
  function LineLength(text: string): (n: nat)
    ensures text != "" ==> 1 <= n <= |text|
  {
    var i := Find(text, '\n');
    if i < |text| then i + 1 else i
  }

  // ---------------------------------------------------------------------------
  // What a line says
  // ---------------------------------------------------------------------------

  datatype Line = Blank | Header(name: string) | Entry(key: string, value: string) | Bad

  const GROUP_MAX: nat := 256

  /** A line of the file, as the parser takes it. */
  function Classify(line: string): (r: Line) {
    var t := Trim(line, true);
    if t == "" || t[0] == '#' || t[0] == ';' then Blank
    else if t[0] == '[' then
      var end := Find(t[1..], ']') + 1;
      if end == |t| || Trim(t[end + 1..], true) != "" then Bad
      else
        var name := Trim(t[1..end], true);
        if name == "" || |name| >= GROUP_MAX then Bad else Header(name)
    else
      var at := Find(t, '=');
      if at == |t| then Bad
      else
        var key := Trim(t[..at], true);
        if key == "" then Bad else Entry(key, Trim(t[at + 1..], true))
  }

  // ---------------------------------------------------------------------------
  // Trimming
  // ---------------------------------------------------------------------------

  predicate AllSpace(s: string, wide: bool) {
    forall i | 0 <= i < |s| :: Space(s[i], wide)
  }

  lemma {:induction false} TrimLeftSpaces(a: string, s: string, wide: bool)
    requires AllSpace(a, wide)
    ensures TrimLeft(a + s, wide) == TrimLeft(s, wide)
  {
    if a == "" {
      assert a + s == s;
    } else {
      assert (a + s)[1..] == a[1..] + s;
      TrimLeftSpaces(a[1..], s, wide);
    }
  }

  lemma {:induction false} TrimRightSpaces(s: string, b: string, wide: bool)
    requires AllSpace(b, wide)
    ensures TrimRight(s + b, wide) == TrimRight(s, wide)
  {
    if b == "" {
      assert s + b == s;
    } else {
      assert (s + b)[..|s + b| - 1] == s + b[..|b| - 1];
      TrimRightSpaces(s, b[..|b| - 1], wide);
    }
  }

  /** A text that neither starts nor ends with a blank. */
  predicate Tight(s: string, wide: bool) {
    s != "" ==> !Space(s[0], wide) && !Space(s[|s| - 1], wide)
  }

  lemma {:induction false} TrimLeftSplits(s: string, wide: bool) returns (a: string)
    ensures AllSpace(a, wide) && s == a + TrimLeft(s, wide)
  {
    a := "";
    if s != "" && Space(s[0], wide) {
      var rest := TrimLeftSplits(s[1..], wide);
      a := [s[0]] + rest;
    }
  }

  lemma {:induction false} TrimRightSplits(s: string, wide: bool) returns (b: string)
    ensures AllSpace(b, wide) && s == TrimRight(s, wide) + b
  {
    b := "";
    if s != "" && Space(s[|s| - 1], wide) {
      var front := TrimRightSplits(s[..|s| - 1], wide);
      b := front + [s[|s| - 1]];
      assert s == s[..|s| - 1] + [s[|s| - 1]];
    }
  }

  /** A text is its trimmed core between blanks. */
  lemma TrimSplits(s: string, wide: bool) returns (a: string, b: string)
    ensures AllSpace(a, wide) && AllSpace(b, wide) && s == a + Trim(s, wide) + b
    ensures Tight(Trim(s, wide), wide)
  {
    hide TrimLeft, TrimRight;
    a := TrimLeftSplits(s, wide);
    var t := TrimLeft(s, wide);
    b := TrimRightSplits(t, wide);
    assert a + (TrimRight(t, wide) + b) == a + TrimRight(t, wide) + b;
  }

  /** Blanks around a tight text are what trimming takes off, and nothing more. */
  lemma TrimOf(a: string, s: string, b: string, wide: bool)
    requires AllSpace(a, wide) && AllSpace(b, wide) && Tight(s, wide)
    ensures Trim(a + s + b, wide) == s
  {
    assert a + s + b == a + (s + b);
    TrimLeftSpaces(a, s + b, wide);
    if s == "" {
      assert s + b == b + "";
      TrimLeftSpaces(b, "", wide);
    } else {
      assert TrimLeft(s + b, wide) == s + b;
      TrimRightSpaces(s, b, wide);
    }
  }

  lemma TrimTight(s: string, wide: bool)
    requires Tight(s, wide)
    ensures Trim(s, wide) == s
  {
    TrimOf("", s, "", wide);
    assert "" + s + "" == s;
  }

  lemma {:induction false} FindHere(s: string, c: char, rest: string)
    requires c !in s
    ensures Find(s + [c] + rest, c) == |s|
  {
    if s != "" {
      assert (s + [c] + rest)[1..] == s[1..] + [c] + rest;
      FindHere(s[1..], c, rest);
    }
  }

  lemma BlanksAreNo(s: string, c: char)
    requires AllSpace(s, true) && !Space(c, true)
    ensures c !in s
  {
  }

  /** A name in brackets is a section of that name, blanks in or around the brackets or
      not, if it has one to 255 characters. */
  lemma HeaderRead(a: string, x: string, name: string, y: string, b: string)
    requires AllSpace(a, true) && AllSpace(x, true) && AllSpace(y, true) && AllSpace(b, true)
    requires Tight(name, true) && ']' !in name
    ensures Classify(a + ("[" + (x + name + y) + "]") + b) == if 1 <= |name| <= 255 then Header(name) else Bad
  {
    hide Trim, Space;
    var inner := x + name + y;
    var t := "[" + inner + "]";
    BracketTight(t);
    TrimOf(a, t, b, true);
    BlanksAreNo(x, ']');
    BlanksAreNo(y, ']');
    assert t[1..] == inner + [']'] + "" && t[|t|..] == "" && t[1..|t| - 1] == inner;
    FindHere(inner, ']', "");
    TrimTight("", true);
    TrimOf(x, name, y, true);
  }

  lemma BracketTight(t: string)
    requires t != "" && t[0] == '[' && t[|t| - 1] == ']'
    ensures Tight(t, true) && Tight(t, false) && !Space(']', true)
  {
  }

  /** A newline at the end of a line, or none, reads the same. */
  lemma TrimNewline(s: string)
    ensures Trim(s + "\n", true) == Trim(s, true)
  {
    var a, b := TrimSplits(s, true);
    assert s + "\n" == a + Trim(s, true) + (b + "\n");
    TrimOf(a, Trim(s, true), b + "\n", true);
  }

  lemma ClassifyNewline(s: string)
    ensures Classify(s + "\n") == Classify(s)
  {
    hide Trim, Find;
    TrimNewline(s);
  }

  // ---------------------------------------------------------------------------
  // Lines of a concatenation
  // ---------------------------------------------------------------------------

  predicate EndsLine(s: string) {
    s == "" || s[|s| - 1] == '\n'
  }

  lemma FindInPrefix(a: string, b: string, c: char)
    requires Find(a, c) < |a|
    ensures Find(a + b, c) == Find(a, c)
  {
    assert (a + b)[Find(a, c)] == c;
    assert forall j | 0 <= j < Find(a, c) :: (a + b)[j] == a[j];
  }

  /** Text in front that ends its line leaves its own first line alone. */
  lemma LineLengthPrefix(a: string, b: string)
    requires a != "" && EndsLine(a)
    ensures LineLength(a + b) == LineLength(a)
    ensures EndsLine(a[LineLength(a)..])
  {
    assert a[|a| - 1] == '\n';
    FindInPrefix(a, b, '\n');
  }

  function Ended(out: string): (text: string) {
    if EndsLine(out) then out else out + "\n"
  }

  // ---------------------------------------------------------------------------
  // Lines that are written to be read back
  // ---------------------------------------------------------------------------

  predicate PlainKey(key: string) {
    && key != "" && Tight(key, true) && '=' !in key && '\n' !in key
    && key[0] != '#' && key[0] != ';' && key[0] != '['
  }

  lemma FindIs(s: string, c: char, i: nat)
    requires i < |s| && s[i] == c && forall j | 0 <= j < i :: s[j] != c
    ensures Find(s, c) == i
  {
  }

  /** A written entry is read back as that setting, its value trimmed. */
  lemma ClassifySetting(key: string, value: string)
    requires PlainKey(key) && (value != "" ==> !Space(value[|value| - 1], true))
    ensures Classify(key + "=" + value + "\n") == Entry(key, Trim(value, true))
  {
    hide Trim, Find;
    var t := key + "=" + value;
    assert "" + t + "\n" == t + "\n";
    TrimOf("", t, "\n", true);
    assert t[|key|] == '=' && t[..|key|] == key && t[|key| + 1..] == value;
    FindIs(t, '=', |key|);
    TrimTight(key, true);
  }

  lemma ClassifyAssign(key: string, value: string)
    requires PlainKey(key) && Tight(value, true)
    ensures Classify(key + "=" + value + "\n") == Entry(key, value)
  {
    hide Trim, Find, Classify;
    ClassifySetting(key, value);
    TrimTight(value, true);
  }

  /** So is a written section header. */
  lemma ClassifyHeader(name: string)
    requires name != "" && |name| < GROUP_MAX && Tight(name, true) && ']' !in name
    ensures Classify("[" + name + "]\n") == Header(name)
  {
    hide Trim, Find;
    var t := "[" + name + "]";
    assert "" + t + "\n" == "[" + name + "]\n";
    TrimOf("", t, "\n", true);
    assert t[1..] == name + "]";
    FindIs(name + "]", ']', |name|);
    assert t[1..|name| + 1] == name && t[|name| + 2..] == "";
    TrimTight(name, true);
    TrimTight("", true);
  }

  lemma LineIsOne(line: string)
    requires line != "" && line[|line| - 1] == '\n' && forall j | 0 <= j < |line| - 1 :: line[j] != '\n'
    ensures LineLength(line) == |line|
  {
    FindIs(line, '\n', |line| - 1);
  }

  lemma FirstLineIsOne(text: string)
    requires text != ""
    ensures var line := text[..LineLength(text)];
      line != "" && LineLength(line) == |line| && (EndsLine(line) || text[LineLength(text)..] == "")
  {
    var n := LineLength(text);
    var line := text[..n];
    if Find(text, '\n') < |text| {
      assert line[n - 1] == '\n';
      LineIsOne(line);
    } else {
      assert line == text;
    }
  }
}
