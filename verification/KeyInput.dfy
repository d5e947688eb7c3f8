/**
  What a terminal's input means: a reader for the bytes a terminal sends for a key
  (xterm's encoding of function keys and modifiers, in the control sequences of
  section 5.4 of ECMA-48), and that a desk key name (src/common/config.c) stands for
  the key and the modifiers its words say.
 */
module KeyInput {
  import opened Wrappers
  import opened KeyName
  import T = Text

  datatype Button =
    | Up | Down | Right | Left
    | Home | End
    | Insert | Delete
    | PageUp | PageDown
    | Function(number: nat)
    | Byte(code: nat)

  datatype Press = Press(button: Button, modifiers: Modifiers)

  // ---------------------------------------------------------------------------
  // Reading input
  // ---------------------------------------------------------------------------

  /** The last byte of a sequence for a cursor or function key. */
  function LetterButton(final: nat): (r: Option<Button>) {
    match final
    case 0x41 => Some(Up)
    case 0x42 => Some(Down)
    case 0x43 => Some(Right)
    case 0x44 => Some(Left)
    case 0x46 => Some(End)
    case 0x48 => Some(Home)
    case _ => if 0x50 <= final <= 0x53 then Some(Function(final - 0x4F)) else None
  }

  /** The number in front of a tilde. */
  function TildeButton(number: int): (r: Option<Button>) {
    match number
    case 2 => Some(Insert)
    case 3 => Some(Delete)
    case 5 => Some(PageUp)
    case 6 => Some(PageDown)
    case 15 => Some(Function(5))
    case 17 => Some(Function(6))
    case 18 => Some(Function(7))
    case 19 => Some(Function(8))
    case 20 => Some(Function(9))
    case 21 => Some(Function(10))
    case 23 => Some(Function(11))
    case 24 => Some(Function(12))
    case _ => None
  }

  function Numeral(s: seq<nat>): (n: int) {
    if s == [] then 0 else 10 * Numeral(s[..|s| - 1]) + s[|s| - 1] - 0x30
  }

  function Semicolon(s: seq<nat>): (i: nat)
    ensures i <= |s|
  {
    if s == [] || s[0] == 0x3B then 0 else 1 + Semicolon(s[1..])
  }

  /** One more than the sum of 1 for shift, 2 for alt and 4 for control. */
  function ModifiersOf(number: int): (m: Modifiers) {
    var bits := number - 1;
    Modifiers(bits % 2 == 1, bits / 2 % 2 == 1, bits / 4 % 2 == 1)
  }

  function Pressed(b: Option<Button>, m: Modifiers): (r: Option<Press>) {
    if b.None? then None else Some(Press(b.value, m))
  }

  /** ESC [ parameters final: the second parameter is the modifiers. */
  function ReadCsi(parameters: seq<nat>, final: nat): (r: Option<Press>) {
    var i := Semicolon(parameters);
    var m := if i == |parameters| then NONE else ModifiersOf(Numeral(parameters[i + 1..]));
    if final == 0x7E then Pressed(TildeButton(Numeral(parameters[..i])), m)
    else if parameters == [] || Numeral(parameters[..i]) == 1 then Pressed(LetterButton(final), m)
    else None
  }

  /** One key: a byte, ESC and a byte for Meta, ESC O final, or ESC [ … final. */
  function ReadInput(s: seq<nat>): (r: Option<Press>) {
    if |s| == 1 then Some(Press(Byte(s[0]), NONE))
    else if s == [] || s[0] != 0x1B then None
    else if |s| == 2 then Some(Press(Byte(s[1]), NONE.(alt := true)))
    else if |s| == 3 && s[1] == 0x4F then Pressed(LetterButton(s[2]), NONE)
    else if s[1] == 0x5B then ReadCsi(s[2..|s| - 1], s[|s| - 1])
    else None
  }

  // ---------------------------------------------------------------------------
  // What the words say
  // ---------------------------------------------------------------------------

  predicate ShiftWord(w: string) {
    var t := Lower(w);
    t == "s" || t == "shift"
  }

  predicate AltWord(w: string) {
    var t := Lower(w);
    t == "m" || t == "meta" || t == "alt"
  }

  predicate ControlWord(w: string) {
    var t := Lower(w);
    t == "c" || t == "ctrl" || t == "control"
  }

  const UPPER := "ABCDEFGHIJKLMNOPQRSTUVWXYZ"
  const LOWER := "abcdefghijklmnopqrstuvwxyz"

  /** Words are the same in either case. */
  lemma CaseFolds(c: char)
    ensures |UPPER| == |LOWER| == 26
    ensures forall i | 0 <= i < 26 :: LowerChar(UPPER[i]) == LOWER[i]
    ensures c !in UPPER ==> LowerChar(c) == c
  {
    if LowerChar(c) != c {
      assert c == UPPER[c as int - 65];
    }
  }

  /** A number from 1 to 12. */
  predicate Numbers(s: string, n: nat) {
    || (|s| == 1 && 1 <= n <= 9 && s[0] as int == '0' as int + n)
    || (|s| == 2 && 10 <= n <= 12 && s[0] == '1' && s[1] as int == '0' as int + n - 10)
  }

  /** The key a word names. */
  predicate Names(w: string, b: Button) {
    var t := Lower(w);
    match b
    case Up => t == "up"
    case Down => t == "down"
    case Right => t == "right"
    case Left => t == "left"
    case Home => t == "home"
    case End => t == "end"
    case Insert => (t == "insert" || t == "ins")
    case Delete => (t == "delete" || t == "del")
    case PageUp => (t == "pageup" || t == "pgup")
    case PageDown => (t == "pagedown" || t == "pgdn")
    case Function(n) => |t| >= 2 && t[0] == 'f' && Numbers(t[1..], n)
    case Byte(code) =>
      || (|w| == 1 && code == w[0] as int % 256)
      || (t == "space" && code == 0x20)
      || ((t == "enter" || t == "return") && code == 0x0D)
      || ((t == "escape" || t == "esc") && code == 0x1B)
      || (t == "backspace" && code == 0x7F)
      || (t == "tab" && code == 0x09)
  }

  /** A terminal has no code for Control with a character but the control characters:
      the low five bits. Meta is an ESC in front. */
  function Typed(b: Button, m: Modifiers): (p: Press) {
    if b.Byte? then Press(Byte(if m.control then b.code % 32 else b.code), NONE.(alt := m.alt)) else Press(b, m)
  }

  /** Modifier words in front of a key's word. */
  function Spelled(words: seq<string>, base: string): (name: string) {
    if words == [] then base else words[0] + "-" + Spelled(words[1..], base)
  }

  predicate ModifierWord(w: string) {
    ShiftWord(w) || AltWord(w) || ControlWord(w)
  }

  /** The modifiers a list of words names, in any order and however often. */
  predicate Modifying(words: seq<string>, m: Modifiers) {
    && (forall i | 0 <= i < |words| :: ModifierWord(words[i]))
    && (m.shift <==> exists i | 0 <= i < |words| :: ShiftWord(words[i]))
    && (m.alt <==> exists i | 0 <= i < |words| :: AltWord(words[i]))
    && (m.control <==> exists i | 0 <= i < |words| :: ControlWord(words[i]))
  }

  /** A name says `p`: ^ and a character, or words. */
  ghost predicate Says(name: string, p: Press) {
    || (|name| == 2 && name[0] == '^' && p == Press(Byte(name[1] as int % 32), NONE))
    || (exists words: seq<string>, base: string, b: Button, m: Modifiers ::
          name == Spelled(words, base) && Modifying(words, m) && Names(base, b) && p == Typed(b, m))
  }

  // ---------------------------------------------------------------------------
  // From words to stripped names
  // ---------------------------------------------------------------------------

  lemma WordIs(w: string)
    ensures Modifier(w) == Modifiers(ShiftWord(w), AltWord(w), ControlWord(w))
    ensures ModifierWord(w) ==> '-' !in w && w != ""
  {
    var t := Lower(w);
    if ModifierWord(w) {
      assert forall i | 0 <= i < |w| :: t[i] != '-' ==> w[i] != '-';
    }
  }

  /** What stripping takes off is modifier words, and they are what it says. */
  lemma {:induction false} StripIsWords(name: string) returns (words: seq<string>)
    ensures name == Spelled(words, Strip(name).base) && Modifying(words, Strip(name).modifiers)
    decreases |name|
  {
    hide Modifier, ShiftWord, AltWord, ControlWord;
    var i := Dash(name);
    words := [];
    if i < |name| && Modifier(name[..i]).Any() {
      var rest := StripIsWords(name[i + 1..]);
      words := [name[..i]] + rest;
      WordIs(name[..i]);
      assert words[1..] == rest;
      assert name == name[..i] + "-" + name[i + 1..];
      MoreWords(name[..i], rest, Strip(name[i + 1..]).modifiers);
    }
  }

  lemma MoreWords(w: string, rest: seq<string>, m: Modifiers)
    requires ModifierWord(w) && Modifying(rest, m)
    ensures Modifying([w] + rest, Both(Modifiers(ShiftWord(w), AltWord(w), ControlWord(w)), m))
  {
    hide ShiftWord, AltWord, ControlWord;
    var words := [w] + rest;
    assert forall i | 0 <= i < |rest| :: words[i + 1] == rest[i];
    assert forall i | 1 <= i < |words| :: words[i] == rest[i - 1];
    assert words[0] == w;
  }

  // ---------------------------------------------------------------------------
  // From names to forms
  // ---------------------------------------------------------------------------

  /** The button a form stands for. */
  function ButtonOf(special: Special): (r: Option<Button>) {
    match special
    case Csi(final) => LetterButton(ByteOf(final))
    case Ss3(final) => LetterButton(ByteOf(final))
    case Tilde(code) => TildeButton(code)
  }

  lemma FunctionNamed(base: string, n: nat)
    requires 1 <= n <= 12 && Names(base, Function(n))
    ensures ButtonOf(FunctionKey(n).value) == Some(Function(n))
  {
  }

  lemma FunctionWord(base: string)
    requires SpecialKey(base).Some? && Lower(base)[0] == 'f'
    ensures exists n | 1 <= n <= 12 :: Names(base, Function(n)) && SpecialKey(base) == FunctionKey(n)
  {
    var t := Lower(base);
    var n := if |t| == 2 then t[1] as int - '0' as int else 10 + (t[2] as int - '0' as int);
    assert Names(base, Function(n)) && SpecialKey(base) == FunctionKey(n);
  }

  lemma CursorNamed(base: string)
    requires SpecialKey(base).Some? && SpecialKey(base).value.Csi?
    ensures var r := LetterButton(ByteOf(SpecialKey(base).value.final)); r.Some? && !r.value.Byte? && Names(base, r.value)
  {
    hide Numbers;
  }

  lemma EditingNamed(base: string)
    requires SpecialKey(base).Some? && SpecialKey(base).value.Tilde? && Lower(base)[0] != 'f'
    ensures var r := TildeButton(SpecialKey(base).value.code); r.Some? && !r.value.Byte? && Names(base, r.value)
  {
    hide FunctionKey, Numbers;
  }

  lemma OnlyFunctions(base: string)
    requires SpecialKey(base).Some?
    ensures SpecialKey(base).value.Ss3? ==> Lower(base)[0] == 'f'
  {
  }

  /** A special key's sequence is that of the key its word names. */
  lemma SpecialNamed(base: string)
    requires SpecialKey(base).Some?
    ensures var r := ButtonOf(SpecialKey(base).value); r.Some? && !r.value.Byte? && Names(base, r.value)
  {
    hide SpecialKey, Names, LetterButton, TildeButton, FunctionKey;
    SpecialNames(base);
    if Lower(base)[0] == 'f' {
      FunctionWord(base);
      var n :| 1 <= n <= 12 && Names(base, Function(n)) && SpecialKey(base) == FunctionKey(n);
      FunctionNamed(base, n);
    } else if SpecialKey(base).value.Csi? {
      CursorNamed(base);
      assert ButtonOf(SpecialKey(base).value) == LetterButton(ByteOf(SpecialKey(base).value.final));
    } else {
      OnlyFunctions(base);
      EditingNamed(base);
    }
  }

  /** The press a form stands for. */
  function PressOf(f: Form): (p: Press)
    requires f.Chord? || f.Bare? ==> ButtonOf(f.special).Some?
  {
    match f
    case Control(code) => Press(Byte(code), NONE)
    case Named(code, _) => Press(Byte(code), NONE)
    case MetaChar(_, _, code) => Press(Byte(code), NONE.(alt := true))
    case Chord(m, special, _) => Press(ButtonOf(special).value, m)
    case Bare(special, _) => Press(ButtonOf(special).value, NONE)
    case Char(c) => Press(Byte(ByteOf(c)), NONE)
  }

  // ---------------------------------------------------------------------------
  // The bytes of a form
  // ---------------------------------------------------------------------------

  lemma {:induction false} NumeralDecimal(n: nat)
    ensures Numeral(T.Decimal(n)) == n && Semicolon(T.Decimal(n)) == |T.Decimal(n)| > 0
  {
    T.DecimalDigits(n);
    NoSemicolon(T.Decimal(n));
    if n >= 10 {
      NumeralDecimal(n / 10);
      assert T.Decimal(n)[..|T.Decimal(n)| - 1] == T.Decimal(n / 10);
    } else {
      assert T.Decimal(n)[..0] == [];
    }
  }

  lemma {:induction false} NoSemicolon(s: seq<nat>)
    requires forall i | 0 <= i < |s| :: s[i] != 0x3B
    ensures Semicolon(s) == |s|
  {
    if s != [] {
      NoSemicolon(s[1..]);
    }
  }

  lemma {:induction false} SemicolonAfter(s: seq<nat>, rest: seq<nat>)
    requires Semicolon(s) == |s|
    ensures Semicolon(s + [0x3B] + rest) == |s|
  {
    if s == [] {
    } else {
      assert (s + [0x3B] + rest)[1..] == s[1..] + [0x3B] + rest;
      SemicolonAfter(s[1..], rest);
    }
  }

  lemma ValueRead(m: Modifiers)
    ensures ModifiersOf(m.Value()) == m
  {
  }

  /** ESC [ number final */
  lemma ReadNumber(n: nat, final: nat)
    ensures ReadInput([0x1B, 0x5B] + T.Decimal(n) + [final]) ==
      if final == 0x7E then Pressed(TildeButton(n), NONE)
      else if n == 1 then Pressed(LetterButton(final), NONE) else None
  {
    hide TildeButton, LetterButton;
    NumeralDecimal(n);
    var s := [0x1B, 0x5B] + T.Decimal(n) + [final];
    assert s[2..|s| - 1] == T.Decimal(n);
    assert T.Decimal(n)[..|T.Decimal(n)|] == T.Decimal(n);
  }

  /** ESC [ number ; modifiers final */
  lemma ReadModified(n: nat, m: Modifiers, final: nat)
    ensures ReadInput([0x1B, 0x5B] + T.Decimal(n) + [0x3B] + T.Decimal(m.Value()) + [final]) ==
      if final == 0x7E then Pressed(TildeButton(n), m)
      else if n == 1 then Pressed(LetterButton(final), m) else None
  {
    hide TildeButton, LetterButton, ModifiersOf, Numeral, Semicolon;
    NumeralDecimal(n);
    NumeralDecimal(m.Value());
    ValueRead(m);
    var a, b := T.Decimal(n), T.Decimal(m.Value());
    var s := [0x1B, 0x5B] + a + [0x3B] + b + [final];
    SemicolonAfter(a, b);
    assert s[2..|s| - 1] == a + [0x3B] + b;
    assert (a + [0x3B] + b)[..|a|] == a && (a + [0x3B] + b)[|a| + 1..] == b;
  }

  /** What is read back from a form's bytes is the press it stands for. */
  lemma FormRead(f: Form)
    requires f.Chord? || f.Bare? ==> ButtonOf(f.special).Some? && (!f.special.Tilde? ==> ByteOf(f.special.final) != 0x7E)
    ensures ReadInput(SequenceOf(f)) == Some(PressOf(f))
  {
    hide ReadInput, TildeButton, LetterButton, Modifiers.Value;
    match f
    case Chord(m, special, _) =>
      match special {
        case Tilde(code) => ReadModified(code, m, 0x7E);
        case Csi(final) => ReadModifiedOne(m, ByteOf(final));
        case Ss3(final) => ReadModifiedOne(m, ByteOf(final));
      }
    case Bare(special, _) =>
      match special {
        case Tilde(code) => ReadNumber(code, 0x7E);
        case Csi(final) => ReadLetter(0x5B, ByteOf(final));
        case Ss3(final) => ReadLetter(0x4F, ByteOf(final));
      }
    case Control(code) => ReadBytes(code);
    case Named(code, _) => ReadBytes(code);
    case MetaChar(_, _, code) => ReadBytes(code);
    case Char(c) => ReadBytes(ByteOf(c));
  }

  lemma ReadBytes(code: nat)
    ensures ReadInput([code]) == Some(Press(Byte(code), NONE))
    ensures ReadInput([0x1B, code]) == Some(Press(Byte(code), NONE.(alt := true)))
  {
  }

  lemma ReadLetter(introducer: nat, final: nat)
    requires introducer == 0x5B || introducer == 0x4F
    requires final != 0x7E
    ensures ReadInput([0x1B, introducer, final]) == Pressed(LetterButton(final), NONE)
  {
    hide LetterButton;
    assert [0x1B, introducer, final][2..2] == [];
  }

  lemma ReadModifiedOne(m: Modifiers, final: nat)
    requires final != 0x7E
    ensures ReadInput([0x1B, 0x5B, 0x31, 0x3B] + T.Decimal(m.Value()) + [final]) == Pressed(LetterButton(final), m)
  {
    hide ReadInput, LetterButton, TildeButton;
    ReadModified(1, m, final);
    assert T.Decimal(1) == [0x31];
    assert [0x1B, 0x5B] + [0x31] + [0x3B] == [0x1B, 0x5B, 0x31, 0x3B];
  }

  lemma LettersAreLetters(base: string)
    requires SpecialKey(base).Some?
    ensures var special := SpecialKey(base).value; !special.Tilde? ==> ByteOf(special.final) != 0x7E
  {
    hide ButtonOf, Names;
  }

  // ---------------------------------------------------------------------------
  // The form of a name
  // ---------------------------------------------------------------------------

  lemma SaysStripped(name: string, b: Button)
    requires Names(Strip(name).base, b)
    ensures Says(name, Typed(b, Strip(name).modifiers))
  {
    hide Names, Strip, Modifying, Spelled;
    var words := StripIsWords(name);
  }

  lemma ControlCodeIs(c: char)
    ensures ControlCode(c).Some? ==> ControlCode(c).value == c as int % 32 && c as int % 256 % 32 == c as int % 32
  {
  }

  lemma CaretSays(name: string)
    requires |name| == 2 && name[0] == '^' && ReadName(name).Some?
    ensures Says(name, PressOf(ReadName(name).value))
  {
    hide Strip, SpecialKey, NamedKey, ControlCode;
    ControlCodeIs(name[1]);
  }

  lemma ControlNameSays(name: string, ch: string)
    requires Strip(name) == Stripped(NONE.(control := true), ch) && ControlName(ch).Some?
    ensures Says(name, PressOf(ControlName(ch).value))
  {
    hide Strip, Says, ControlCode;
    if Lower(ch) == "space" {
      SaysStripped(name, Byte(0x20));
    } else {
      ControlCodeIs(ch[0]);
      SaysStripped(name, Byte(ch[0] as int % 256));
    }
  }

  lemma StripsWord(name: string, word: string)
    requires StartsWith(name, word + "-") && ControlWord(word) && '-' !in word && !ShiftWord(word) && !AltWord(word)
    ensures var rest := name[|word| + 1..];
      Strip(name) == Stripped(Both(NONE.(control := true), Strip(rest).modifiers), Strip(rest).base)
  {
    hide ShiftWord, AltWord, ControlWord, Modifier;
    WordIs(word);
    DashAt(name, word + "-", |word|);
    assert name[..|word|] == name[..|word| + 1][..|word|] == word;
  }

  lemma ControlWords()
    ensures forall w <- ["Control", "control", "Ctrl", "ctrl", "C", "c"] :: ControlWord(w) && !ShiftWord(w) && !AltWord(w) && '-' !in w
    ensures "Control" + "-" == "Control-" && "control" + "-" == "control-" && "Ctrl" + "-" == "Ctrl-" && "ctrl" + "-" == "ctrl-"
    ensures "C" + "-" == "C-" && "c" + "-" == "c-"
  {
    assert Lower("Control") == "control" && Lower("control") == "control" && Lower("Ctrl") == "ctrl";
    assert Lower("ctrl") == "ctrl" && Lower("C") == "c" && Lower("c") == "c";
  }

  lemma NamedSays(name: string)
    requires NamedKey(name).Some?
    ensures Says(name, PressOf(NamedKey(name).value))
  {
    hide Strip, Says;
    NamedNames(name);
    NoDashAtomic(name);
    SaysStripped(name, Byte(NamedKey(name).value.value));
  }

  lemma ControlFirstSays(name: string, word: string)
    requires word in ["Control", "control", "Ctrl", "ctrl", "C", "c"] && StartsWith(name, word + "-")
    requires ControlName(name[|word| + 1..]).Some?
    ensures Says(name, PressOf(ControlName(name[|word| + 1..]).value))
  {
    hide Strip, Says, PressOf, ControlWord, ShiftWord, AltWord;
    var ch := name[|word| + 1..];
    ControlWords();
    StripsWord(name, word);
    ControlNameAtomic(ch);
    ControlNameSays(name, ch);
  }

  lemma ControlNameAtomic(ch: string)
    requires ControlName(ch).Some?
    ensures Strip(ch) == Stripped(NONE, ch)
  {
    hide Strip, ControlCode;
    if Lower(ch) == "space" {
      assert forall i | 0 <= i < |ch| :: Lower(ch)[i] != '-' ==> ch[i] != '-';
      NoDashAtomic(ch);
    } else {
      assert ch == [ch[0]];
      OneCharAtomic(ch[0]);
    }
  }

  lemma ChordSays(name: string)
    requires var s := Strip(name); SpecialKey(s.base).Some?
    ensures var s := Strip(name); var special := SpecialKey(s.base).value;
      ButtonOf(special).Some? && Says(name, Press(ButtonOf(special).value, s.modifiers))
  {
    hide Strip, Says, SpecialKey, ButtonOf, Names;
    var base := Strip(name).base;
    SpecialNamed(base);
    SaysStripped(name, ButtonOf(SpecialKey(base).value).value);
  }

  lemma CharSays(name: string)
    requires |Strip(name).base| == 1 && !Strip(name).modifiers.shift
    ensures var s := Strip(name); var c := s.base[0];
      && (!s.modifiers.control ==> Says(name, Press(Byte(ByteOf(c)), NONE.(alt := s.modifiers.alt))))
      && (s.modifiers.control && ControlCode(c).Some? ==>
            Says(name, Press(Byte(ControlCode(c).value), NONE.(alt := s.modifiers.alt))))
  {
    hide Strip, Says, ControlCode;
    var c := Strip(name).base[0];
    ControlCodeIs(c);
    SaysStripped(name, Byte(c as int % 256));
  }

  /** Every accepted name says the press its form stands for. */
  lemma NameSays(name: string)
    requires ReadName(name).Some?
    ensures var f := ReadName(name).value; (f.Chord? || f.Bare? ==> ButtonOf(f.special).Some?) && Says(name, PressOf(f))
  {
    hide Strip, Says, SpecialKey, NamedKey, ControlName, ControlCode, StartsWith, ButtonOf, ControlWord, ShiftWord, AltWord;
    ControlWords();
    if |name| == 2 && name[0] == '^' {
      CaretSays(name);
    } else if (StartsWith(name, "Control-") || StartsWith(name, "control-")) && '-' !in name[8..] {
      ControlFirstSays(name, if StartsWith(name, "Control-") then "Control" else "control");
    } else if (StartsWith(name, "Ctrl-") || StartsWith(name, "ctrl-")) && '-' !in name[5..] {
      ControlFirstSays(name, if StartsWith(name, "Ctrl-") then "Ctrl" else "ctrl");
    } else if StartsWith(name, "C-") || StartsWith(name, "c-") {
      if SpecialKey(Strip(name).base).Some? {
        ChordSays(name);
      } else {
        ControlFirstSays(name, if StartsWith(name, "C-") then "C" else "c");
      }
    } else {
      OtherSays(name);
    }
  }

  lemma OtherSays(name: string)
    requires ReadName(name).Some? && !(|name| == 2 && name[0] == '^')
    requires !((StartsWith(name, "Control-") || StartsWith(name, "control-")) && '-' !in name[8..])
    requires !((StartsWith(name, "Ctrl-") || StartsWith(name, "ctrl-")) && '-' !in name[5..])
    requires !(StartsWith(name, "C-") || StartsWith(name, "c-"))
    ensures var f := ReadName(name).value; (f.Chord? || f.Bare? ==> ButtonOf(f.special).Some?) && Says(name, PressOf(f))
  {
    hide Strip, Says, SpecialKey, NamedKey, ControlName, ControlCode, StartsWith, ButtonOf;
    var s := Strip(name);
    if NamedKey(name).Some? {
      NamedSays(name);
    } else if s.modifiers.Any() {
      if SpecialKey(s.base).Some? {
        ChordSays(name);
      } else {
        CharSays(name);
      }
    } else if SpecialKey(name).Some? {
      SpecialNames(name);
      NoDashAtomic(name);
      ChordSays(name);
    } else {
      assert name == [name[0]];
      OneCharAtomic(name[0]);
      CharSays(name);
    }
  }

  // ---------------------------------------------------------------------------
  // A name says one thing
  // ---------------------------------------------------------------------------

  lemma {:induction false} StripSpelled(words: seq<string>, base: string, m: Modifiers)
    requires Modifying(words, m) && Atomic(base)
    ensures Strip(Spelled(words, base)) == Stripped(m, base)
    decreases words
  {
    hide ShiftWord, AltWord, ControlWord, Modifier;
    if words != [] {
      var w, rest := words[0], words[1..];
      var n := Modifiers(exists i | 0 <= i < |rest| :: ShiftWord(rest[i]), exists i | 0 <= i < |rest| :: AltWord(rest[i]),
                         exists i | 0 <= i < |rest| :: ControlWord(rest[i]));
      assert Modifying(rest, n);
      StripSpelled(rest, base, n);
      WordIs(w);
      MoreWords(w, rest, n);
      assert words == [w] + rest;
      StripsOff(w, Spelled(rest, base));
    }
  }

  lemma StripsOff(w: string, rest: string)
    requires '-' !in w && Modifier(w).Any()
    ensures Strip(w + "-" + rest) == Stripped(Both(Modifier(w), Strip(rest).modifiers), Strip(rest).base)
  {
    hide Modifier;
    var name := w + "-" + rest;
    DashAfter(w, rest);
    assert name[..|w|] == w && name[|w| + 1..] == rest;
  }

  lemma {:induction false} DashAfter(w: string, rest: string)
    requires '-' !in w
    ensures Dash(w + "-" + rest) == |w|
  {
    if w != "" {
      assert (w + "-" + rest)[1..] == w[1..] + "-" + rest;
      DashAfter(w[1..], rest);
    }
  }

  lemma NamesAtomic(base: string, b: Button)
    requires Names(base, b)
    ensures Atomic(base) && base != "" && !(|base| == 2 && base[0] == '^')
  {
    hide Strip;
    var t := Lower(base);
    if |base| == 1 {
      assert base == [base[0]];
      OneCharAtomic(base[0]);
    } else {
      NamesDashless(base, b);
      NoDashAtomic(base);
    }
  }

  lemma NamesDashless(base: string, b: Button)
    requires Names(base, b) && |base| > 1
    ensures '-' !in base && base[0] != '^'
  {
    var t := Lower(base);
    LowerKeeps(base);
    if b.Function? {
      assert forall i | 1 <= i < |t| :: t[i] == t[1..][i - 1];
    }
  }

  lemma LowerKeeps(s: string)
    ensures '-' in s <==> '-' in Lower(s)
    ensures s != "" ==> (s[0] == '^' <==> Lower(s)[0] == '^')
  {
    var t := Lower(s);
    assert forall i | 0 <= i < |s| :: t[i] == '-' <==> s[i] == '-';
  }

  lemma NamesOne(base: string, b: Button, c: Button)
    requires Names(base, b) && Names(base, c)
    ensures b == c
  {
  }

  lemma {:induction false} SpelledLong(words: seq<string>, base: string, m: Modifiers)
    requires Modifying(words, m) && base != "" && !(|base| == 2 && base[0] == '^')
    ensures var name := Spelled(words, base); name != "" && !(|name| == 2 && name[0] == '^')
    decreases words
  {
    hide ShiftWord, AltWord, ControlWord;
    if words != [] {
      WordIs(words[0]);
      assert |words[0]| >= 1;
    }
  }

  lemma SaysMeans(name: string, p: Press)
    requires Says(name, p)
    ensures if |name| == 2 && name[0] == '^' then p == Press(Byte(name[1] as int % 32), NONE)
            else exists b | Names(Strip(name).base, b) :: p == Typed(b, Strip(name).modifiers)
  {
    hide Names, Strip, Modifying, Spelled;
    if !(|name| == 2 && name[0] == '^') {
      var words: seq<string>, base: string, b: Button, m: Modifiers :|
        name == Spelled(words, base) && Modifying(words, m) && Names(base, b) && p == Typed(b, m);
      NamesAtomic(base, b);
      StripSpelled(words, base, m);
    } else {
      forall words: seq<string>, base: string, b: Button, m: Modifiers
        | name == Spelled(words, base) && Modifying(words, m) && Names(base, b)
        ensures false
      {
        NamesAtomic(base, b);
        SpelledLong(words, base, m);
      }
    }
  }

  lemma SaysOne(name: string, p: Press, q: Press)
    requires Says(name, p) && Says(name, q)
    ensures p == q
  {
    hide Says, Names, Strip;
    SaysMeans(name, p);
    SaysMeans(name, q);
    if !(|name| == 2 && name[0] == '^') {
      var base := Strip(name).base;
      var b :| Names(base, b) && p == Typed(b, Strip(name).modifiers);
      var c :| Names(base, c) && q == Typed(c, Strip(name).modifiers);
      NamesOne(base, b, c);
    }
  }

  /**
    A desk key is the key its name says. Whatever the order, case and number of the
    words in an accepted name, reading the bytes it stands for, as a terminal's
    input, gives the one key and the modifiers those words say, as far as a terminal
    can tell them apart.
   */
  lemma KeyMeansItsName(text: string, p: Press)
    requires ParseKey(text).Some?
    ensures ReadInput(ParseKey(text).value.sequence) == Some(p) <==> Says(WithoutPrefix(text), p)
  {
    hide ReadName, NameOf, SequenceOf, HasPrefix, Says, ReadInput, PressOf;
    var name := WithoutPrefix(text);
    var f := ReadName(name).value;
    ReadNameProper(name);
    NameSays(name);
    FormLetters(f);
    FormRead(f);
    if Says(name, p) {
      SaysOne(name, p, PressOf(f));
    }
  }

  lemma FormLetters(f: Form)
    requires Proper(f)
    ensures f.Chord? || f.Bare? ==> (!f.special.Tilde? ==> ByteOf(f.special.final) != 0x7E)
  {
    hide SpecialKey, NamedKey, ControlCode;
    if f.Chord? || f.Bare? {
      LettersAreLetters(f.base);
    }
  }

  // ---------------------------------------------------------------------------
  // Which names are accepted
  // ---------------------------------------------------------------------------

  /** The characters a control key exists for. */
  predicate Controllable(c: char) {
    c == ' ' || '@' <= c <= '_' || 'a' <= c <= 'z'
  }

  predicate LongControl(words: seq<string>) {
    |words| == 1 && (words[0] == "Control" || words[0] == "control" || words[0] == "Ctrl" || words[0] == "ctrl")
  }

  predicate ShortControl(words: seq<string>) {
    words != [] && (words[0] == "C" || words[0] == "c")
  }

  /** The combinations of modifier words and key that can be bound. A special key takes
      any, but not Control alone spelt out; a character takes Meta, or one of the
      words for Control alone, or both if C does not come first. */
  predicate Bindable(words: seq<string>, base: string, b: Button, m: Modifiers) {
    var lone := LongControl(words) || (ShortControl(words) && |words| == 1);
    if !b.Byte? then !LongControl(words)
    else if |base| > 1 then words == [] || (lone && b == Byte(0x20))
    else |base| == 1 && !m.shift && (m.control ==> Controllable(base[0]) && if m.alt then !ShortControl(words) else lone)
  }

  lemma ControllableIff(c: char)
    ensures ControlCode(c).Some? <==> Controllable(c)
  {
  }

  lemma SpecialAccepted(base: string, b: Button)
    requires Names(base, b) && !b.Byte?
    ensures SpecialKey(base).Some? && |base| > 1
  {
    hide FunctionKey;
    var t := Lower(base);
    if b.Function? {
      assert t[1] == t[1..][0] && (|t| == 3 ==> t[2] == t[1..][1]);
    }
  }

  lemma NamedAccepted(base: string, code: nat)
    requires Names(base, Byte(code))
    ensures SpecialKey(base).None?
    ensures |base| > 1 ==> NamedKey(base).Some? && (Lower(base) == "space" <==> code == 0x20)
    ensures |base| == 1 ==> NamedKey(base).None?
  {
    hide FunctionKey;
  }

  /** Spelled words show in how the name starts and what is behind that. */
  lemma StartsSpelled(words: seq<string>, base: string, b: Button, m: Modifiers, w: string)
    requires Modifying(words, m) && Names(base, b) && '-' !in w
    ensures var name := Spelled(words, base);
      && (StartsWith(name, w + "-") && w != "" <==> words != [] && words[0] == w && w != "")
      && (words != [] && words[0] == w ==> name[|w| + 1..] == Spelled(words[1..], base))
  {
    hide ShiftWord, AltWord, ControlWord, Names;
    var name := Spelled(words, base);
    if StartsWith(name, w + "-") && w != "" {
      assert forall i | 0 <= i <= |w| :: name[i] == name[..|w| + 1][i] == (w + "-")[i];
      DashAt(name, w + "-", |w|);
      if words == [] {
        assert name == base && name[|w|] == (w + "-")[|w|] == '-';
        NamesDashless(base, b);
        assert false;
      }
      var rest := Spelled(words[1..], base);
      WordIs(words[0]);
      DashAfter(words[0], rest);
      assert name[..|w|] == name[..|w| + 1][..|w|] == w && name[..|w|] == words[0];
    }
    if words != [] && words[0] == w {
      var rest := Spelled(words[1..], base);
      assert name == w + "-" + rest;
      assert name[..|w| + 1] == w + "-" && name[|w| + 1..] == rest;
    }
  }

  /** More than one word leaves a dash. */
  lemma {:induction false} SpelledDash(words: seq<string>, base: string)
    requires words != []
    ensures '-' in Spelled(words, base)
  {
    var rest := Spelled(words[1..], base);
    assert (words[0] + "-" + rest)[|words[0]|] == '-';
  }

  lemma DashedNoName(name: string)
    requires '-' in name && |name| > 1
    ensures NamedKey(name).None? && SpecialKey(name).None? && ControlName(name).None?
  {
    hide NamedKey, SpecialKey;
    if NamedKey(name).Some? { NamedNames(name); }
    if SpecialKey(name).Some? { SpecialNames(name); }
    var i :| 0 <= i < |name| && name[i] == '-';
    assert Lower(name)[i] == '-';
  }

  lemma LongStart(words: seq<string>, base: string, b: Button, m: Modifiers, w: string)
    requires Modifying(words, m) && Names(base, b) && '-' !in w && w != ""
    ensures var name := Spelled(words, base);
      && (StartsWith(name, w + "-") && '-' !in name[|w| + 1..] <==> words == [w] && '-' !in base)
      && (words == [w] ==> name[|w| + 1..] == base)
  {
    hide Modifying, Names, StartsWith;
    StartsSpelled(words, base, b, m, w);
    if words != [] && words[0] == w {
      if |words| > 1 {
        SpelledDash(words[1..], base);
      } else {
        assert words == [w] && words[1..] == [];
      }
    }
  }

  /** The cascade of the reading, word by word. */
  predicate Cascade(words: seq<string>, base: string, m: Modifiers) {
    var name := Spelled(words, base);
    if LongControl(words) && '-' !in base then ControlName(base).Some?
    else if ShortControl(words) then SpecialKey(base).Some? || ControlName(Spelled(words[1..], base)).Some?
    else
      || NamedKey(name).Some?
      || (m.Any() && SpecialKey(base).Some?)
      || (m.alt && !m.shift && |base| == 1 && (m.control ==> ControlCode(base[0]).Some?))
      || (!m.Any() && (SpecialKey(name).Some? || |name| == 1))
  }

  /** How a spelled name starts, as the reading tests it. */
  predicate Starts(name: string, words: seq<string>, base: string) {
    && ((StartsWith(name, "Control-") || StartsWith(name, "control-")) && '-' !in name[8..]
        <==> (words == ["Control"] || words == ["control"]) && '-' !in base)
    && ((StartsWith(name, "Ctrl-") || StartsWith(name, "ctrl-")) && '-' !in name[5..]
        <==> (words == ["Ctrl"] || words == ["ctrl"]) && '-' !in base)
    && (words == ["Control"] || words == ["control"] ==> |name| >= 8 && name[8..] == base)
    && (words == ["Ctrl"] || words == ["ctrl"] ==> |name| >= 5 && name[5..] == base)
    && (StartsWith(name, "C-") || StartsWith(name, "c-") <==> ShortControl(words))
    && (ShortControl(words) ==> |name| >= 2 && name[2..] == Spelled(words[1..], base))
  }

  lemma SpelledStarts(words: seq<string>, base: string, b: Button, m: Modifiers)
    requires Modifying(words, m) && Names(base, b)
    ensures Starts(Spelled(words, base), words, base)
  {
    hide Names, Modifying, Spelled;
    ControlLiterals();
    LongStart(words, base, b, m, "Control");
    LongStart(words, base, b, m, "control");
    LongStart(words, base, b, m, "Ctrl");
    LongStart(words, base, b, m, "ctrl");
    StartsSpelled(words, base, b, m, "C");
    StartsSpelled(words, base, b, m, "c");
  }

  lemma LongControls(words: seq<string>)
    ensures LongControl(words) <==> words == ["Control"] || words == ["control"] || words == ["Ctrl"] || words == ["ctrl"]
  {
  }

  lemma ReadCascade(words: seq<string>, base: string, b: Button, m: Modifiers)
    requires Modifying(words, m) && Names(base, b)
    ensures ReadName(Spelled(words, base)).Some? <==> |Spelled(words, base)| < NAME_MAX && Cascade(words, base, m)
  {
    hide Strip, SpecialKey, NamedKey, ControlName, ControlCode, StartsWith, Names, Modifying, Spelled, LongControl, ShortControl;
    NamesAtomic(base, b);
    StripSpelled(words, base, m);
    SpelledLong(words, base, m);
    SpelledStarts(words, base, b, m);
    LongControls(words);
  }

  lemma ControlLiterals()
    ensures "Control" + "-" == "Control-" && "control" + "-" == "control-" && "Ctrl" + "-" == "Ctrl-" && "ctrl" + "-" == "ctrl-"
    ensures "C" + "-" == "C-" && "c" + "-" == "c-"
  {
  }

  lemma SpelledBehind(words: seq<string>, base: string, m: Modifiers)
    requires Modifying(words, m) && words != [] && base != ""
    ensures NamedKey(Spelled(words, base)).None? && SpecialKey(Spelled(words, base)).None? && |Spelled(words, base)| > 1
    ensures |words| > 1 ==> ControlName(Spelled(words[1..], base)).None?
    ensures |words| == 1 ==> Spelled(words[1..], base) == base
  {
    hide NamedKey, SpecialKey, ControlName, ModifierWord, ShiftWord, AltWord, ControlWord;
    SpelledDash(words, base);
    WordIs(words[0]);
    DashedNoName(Spelled(words, base));
    if |words| > 1 {
      SpelledDash(words[1..], base);
      WordIs(words[1]);
      assert words[1..][0] == words[1];
      DashedNoName(Spelled(words[1..], base));
    } else {
      assert words[1..] == [];
    }
  }

  lemma NoWords(words: seq<string>, m: Modifiers)
    requires Modifying(words, m)
    ensures m.Any() <==> words != []
  {
    hide ShiftWord, AltWord, ControlWord;
    assert words != [] ==> ModifierWord(words[0]);
  }

  lemma LoneControlOnly(words: seq<string>, m: Modifiers)
    requires Modifying(words, m) && |words| == 1 && (LongControl(words) || ShortControl(words))
    ensures m == NONE.(control := true)
  {
    hide ControlWord, ShiftWord, AltWord;
    ControlWords();
    assert words[0] in ["Control", "control", "Ctrl", "ctrl", "C", "c"];
  }

  lemma ShortControls(words: seq<string>, m: Modifiers)
    requires Modifying(words, m) && ShortControl(words)
    ensures m.control
  {
    hide ControlWord, ShiftWord, AltWord;
    ControlWords();
    assert words[0] in ["Control", "control", "Ctrl", "ctrl", "C", "c"];
  }

  lemma BindableSpecial(words: seq<string>, base: string, b: Button, m: Modifiers)
    requires Modifying(words, m) && Names(base, b) && !b.Byte?
    ensures Cascade(words, base, m) <==> Bindable(words, base, b, m)
  {
    hide SpecialKey, NamedKey, ControlCode, Names, Modifying;
    SpecialAccepted(base, b);
    SpecialNames(base);
    NoWords(words, m);
    SpaceIsNamed(base);
    if words != [] {
      SpelledBehind(words, base, m);
    }
  }

  lemma SpaceIsNamed(base: string)
    ensures Lower(base) == "space" ==> NamedKey(base).Some?
  {
  }

  lemma BindableWord(words: seq<string>, base: string, b: Button, m: Modifiers)
    requires Modifying(words, m) && Names(base, b) && b.Byte? && |base| > 1
    ensures Cascade(words, base, m) <==> Bindable(words, base, b, m)
  {
    hide SpecialKey, NamedKey, ControlCode, Names, Modifying;
    NamedAccepted(base, b.code);
    NamesDashless(base, b);
    NoWords(words, m);
    if words != [] {
      SpelledBehind(words, base, m);
    }
  }

  lemma BindableChar(words: seq<string>, base: string, b: Button, m: Modifiers)
    requires Modifying(words, m) && Names(base, b) && b.Byte? && |base| == 1
    ensures Cascade(words, base, m) <==> Bindable(words, base, b, m)
  {
    hide SpecialKey, NamedKey, Names, Modifying, ControlCode;
    NamedAccepted(base, b.code);
    ControllableIff(base[0]);
    NoWords(words, m);
    assert Lower(base) != "space";
    if words != [] {
      SpelledBehind(words, base, m);
      if LongControl(words) || (ShortControl(words) && |words| == 1) {
        LoneControlOnly(words, m);
      }
      if ShortControl(words) {
        ShortControls(words, m);
      }
    }
  }

  /**
    Which names are accepted: of the names made of modifier words and a key's word,
    in any order and either case, those below 64 characters whose combination can be
    bound. `KeyMeansItsName` says that other names are accepted only as ^ and a
    character, `CaretAccepted` which of those.
   */
  lemma AcceptedIff(text: string, words: seq<string>, base: string, b: Button, m: Modifiers)
    requires WithoutPrefix(text) == Spelled(words, base) && Modifying(words, m) && Names(base, b)
    ensures ParseKey(text).Some? <==> |Spelled(words, base)| < NAME_MAX && Bindable(words, base, b, m)
  {
    hide ReadName, Names, Modifying, Spelled, HasPrefix, Cascade, Bindable;
    var name := Spelled(words, base);
    ReadCascade(words, base, b, m);
    if !b.Byte? {
      BindableSpecial(words, base, b, m);
    } else if |base| > 1 {
      BindableWord(words, base, b, m);
    } else {
      NamesAtomic(base, b);
      BindableChar(words, base, b, m);
    }
    if ReadName(name).Some? {
      ReadNameProper(name);
      NormalShort(ReadName(name).value);
    }
    NamesAtomic(base, b);
    SpelledLong(words, base, m);
    EmptyHasNoPrefix();
  }

  lemma EmptyHasNoPrefix()
    ensures WithoutPrefix("") == ""
  {
  }

  /** Normal forms are short. */
  lemma NormalShort(f: Form)
    requires Proper(f)
    ensures |NameOf(f)| <= 16
  {
    hide SpecialKey, NamedKey, ControlCode;
    if f.Chord? || f.Bare? { SpecialNames(f.base); }
    if f.Named? { NamedNames(f.name); }
  }

  lemma CaretAccepted(text: string)
    requires var name := WithoutPrefix(text); |name| == 2 && name[0] == '^'
    ensures ParseKey(text).Some? <==> Controllable(WithoutPrefix(text)[1])
  {
    hide Strip, SpecialKey, NamedKey, ControlCode, StartsWith, HasPrefix;
    var name := WithoutPrefix(text);
    ControllableIff(name[1]);
    if ReadName(name).Some? {
      ReadNameProper(name);
      NormalShort(ReadName(name).value);
    }
    EmptyHasNoPrefix();
  }

  /** Either prefix in front of a name is the same key behind the prefix. */
  lemma PrefixRead(prefix: string, name: string)
    requires (prefix == "Prefix-" || prefix == "prefix-") && name != "" && !HasPrefix(name)
    ensures ParseKey(prefix + name) ==
      if ParseKey(name).None? then None
      else Some(Key(true, ParseKey(name).value.sequence, "Prefix-" + ParseKey(name).value.name))
  {
    hide ReadName, NameOf, SequenceOf;
    assert (prefix + name)[..7] == prefix && (prefix + name)[7..] == name;
    if ReadName(name).Some? {
      ReadNameProper(name);
      NormalShort(ReadName(name).value);
      assert "" + NameOf(ReadName(name).value) == NameOf(ReadName(name).value);
    }
  }
}
