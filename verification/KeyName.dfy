/**
  Desk key names (src/common/config.c, cubicle_config_parse_desk_key_name): what
  names are accepted, the bytes a terminal sends for them, and their normal form.
 */
module KeyName {
  import opened Wrappers
  import T = Text

  const NAME_MAX: nat := 64

  // ---------------------------------------------------------------------------
  // Pieces of a name
  // ---------------------------------------------------------------------------

  function LowerChar(c: char): (d: char) {
    if 'A' <= c <= 'Z' then (c as int + 32) as char else c
  }

  /** string_equals_case compares these. */
  function Lower(s: string): (t: string)
    ensures |t| == |s|
    ensures forall i | 0 <= i < |s| :: t[i] == LowerChar(s[i])
  {
    seq(|s|, i requires 0 <= i < |s| => LowerChar(s[i]))
  }

  function StartsWith(s: string, prefix: string): (b: bool)
    ensures b ==> |prefix| <= |s|
  {
    |prefix| <= |s| && s[..|prefix|] == prefix
  }

  datatype Modifiers = Modifiers(shift: bool, alt: bool, control: bool)
  {
    predicate Any() {
      shift || alt || control
    }

    /** modifier_value */
    function Value(): (n: nat) {
      1 + (if shift then 1 else 0) + (if alt then 2 else 0) + (if control then 4 else 0)
    }
  }

  const NONE := Modifiers(false, false, false)

  /** parse_modifier_token */
  function Modifier(token: string): (m: Modifiers) {
    var t := Lower(token);
    if t == "s" || t == "shift" then NONE.(shift := true)
    else if t == "m" || t == "meta" || t == "alt" then NONE.(alt := true)
    else if t == "c" || t == "ctrl" || t == "control" then NONE.(control := true)
    else NONE
  }

  function Both(m: Modifiers, n: Modifiers): (r: Modifiers) {
    Modifiers(m.shift || n.shift, m.alt || n.alt, m.control || n.control)
  }

  function Dash(s: string): (i: nat)
    ensures i <= |s| && (i < |s| ==> s[i] == '-') && forall j | 0 <= j < i :: s[j] != '-'
  {
    if s == "" || s[0] == '-' then 0 else 1 + Dash(s[1..])
  }

  datatype Stripped = Stripped(modifiers: Modifiers, base: string)

  /** The loop that takes modifiers off the front. */
  function Strip(s: string): (r: Stripped)
    decreases |s|
  {
    var i := Dash(s);
    if i == |s| || !Modifier(s[..i]).Any() then Stripped(NONE, s)
    else
      var rest := Strip(s[i + 1..]);
      Stripped(Both(Modifier(s[..i]), rest.modifiers), rest.base)
  }

  method StripModifiers(s: string) returns (r: Stripped)
    ensures r == Strip(s)
  {
    var modifiers, base := NONE, s;
    while true
      invariant Strip(s) == Stripped(Both(modifiers, Strip(base).modifiers), Strip(base).base)
      decreases |base|
    {
      var i := Dash(base);
      if i == |base| {
        break;
      }
      var m := Modifier(base[..i]);
      if !m.Any() {
        break;
      }
      modifiers := Both(modifiers, m);
      base := base[i + 1..];
    }
    r := Stripped(modifiers, base);
  }

  datatype Special = Csi(final: char) | Tilde(code: nat) | Ss3(final: char)

  /** special_key_code */
  function SpecialKey(base: string): (r: Option<Special>) {
    var t := Lower(base);
    if t == "up" then Some(Csi('A'))
    else if t == "down" then Some(Csi('B'))
    else if t == "right" then Some(Csi('C'))
    else if t == "left" then Some(Csi('D'))
    else if t == "home" then Some(Csi('H'))
    else if t == "end" then Some(Csi('F'))
    else if t == "insert" || t == "ins" then Some(Tilde(2))
    else if t == "delete" || t == "del" then Some(Tilde(3))
    else if t == "pageup" || t == "pgup" then Some(Tilde(5))
    else if t == "pagedown" || t == "pgdn" then Some(Tilde(6))
    else if |t| == 2 && t[0] == 'f' && '1' <= t[1] <= '9' then FunctionKey(t[1] as int - '0' as int)
    else if |t| == 3 && t[0] == 'f' && t[1] == '1' && '0' <= t[2] <= '2' then FunctionKey(10 + (t[2] as int - '0' as int))
    else None
  }

  function FunctionKey(n: nat): (r: Option<Special>)
    requires 1 <= n <= 12
    ensures r.Some?
  {
    if n <= 4 then Some(Ss3("PQRS"[n - 1])) else Some(Tilde([15, 17, 18, 19, 20, 21, 23, 24][n - 5]))
  }

  /** parse_control_key_char */
  function ControlCode(ch: char): (r: Option<nat>)
    ensures r.Some? ==> r.value < 32
  {
    var c := if 'a' <= ch <= 'z' then (ch as int - 32) as char else ch;
    if c == ' ' || c == '@' then Some(0)
    else if c < 'A' || c > '_' then None
    else Some(c as int - '@' as int)
  }

  // ---------------------------------------------------------------------------
  // Names
  // ---------------------------------------------------------------------------

  /** What an accepted name denotes. */
  datatype Form =
    | Control(code: nat)
    | Named(value: nat, name: string)
    | MetaChar(control: bool, ch: char, code: nat)
    | Chord(modifiers: Modifiers, special: Special, base: string)
    | Bare(special: Special, base: string)
    | Char(c: char)

  function ControlForm(ch: Option<nat>): (r: Option<Form>) {
    if ch.None? then None else Some(Control(ch.value))
  }

  /** What may follow Control-, Ctrl- or C-: Space or one character. */
  function ControlName(ch: string): (r: Option<Form>)
    ensures r.Some? ==> r.value.Control? && Proper(r.value)
  {
    if Lower(ch) == "space" then Some(Control(0))
    else if |ch| == 1 then ControlForm(ControlCode(ch[0]))
    else None
  }

  function NamedKey(name: string): (r: Option<Form>)
    ensures r.Some? ==> r.value.Named?
  {
    var t := Lower(name);
    if t == "space" then Some(Named(0x20, "Space"))
    else if t == "enter" || t == "return" then Some(Named(0x0D, "Enter"))
    else if t == "escape" || t == "esc" then Some(Named(0x1B, "Escape"))
    else if t == "backspace" then Some(Named(0x7F, "Backspace"))
    else if t == "tab" then Some(Named(0x09, "Tab"))
    else None
  }

  function ByteOf(c: char): (b: nat) {
    c as int % 256
  }

  /** The cascade over the name without its prefix. */
  function ReadName(name: string): (r: Option<Form>) {
    if |name| >= NAME_MAX then None
    else
      var s := Strip(name);
      if |name| == 2 && name[0] == '^' then ControlForm(ControlCode(name[1]))
      else if (StartsWith(name, "Control-") || StartsWith(name, "control-")) && '-' !in name[8..] then
        ControlName(name[8..])
      else if (StartsWith(name, "Ctrl-") || StartsWith(name, "ctrl-")) && '-' !in name[5..] then
        ControlName(name[5..])
      else if StartsWith(name, "C-") || StartsWith(name, "c-") then
        if SpecialKey(s.base).Some? then Some(Chord(s.modifiers, SpecialKey(s.base).value, s.base))
        else ControlName(name[2..])
      else if NamedKey(name).Some? then NamedKey(name)
      else if s.modifiers.Any() then
        if SpecialKey(s.base).Some? then Some(Chord(s.modifiers, SpecialKey(s.base).value, s.base))
        else if s.modifiers.alt && !s.modifiers.shift && |s.base| == 1 then
          if !s.modifiers.control then Some(MetaChar(false, s.base[0], ByteOf(s.base[0])))
          else
            var code := ControlCode(s.base[0]);
            if code.None? then None else Some(MetaChar(true, s.base[0], code.value))
        else None
      else if SpecialKey(name).Some? then Some(Bare(SpecialKey(name).value, name))
      else if |name| == 1 then Some(Char(name[0]))
      else None
  }

  /** canonical_modifier_prefix */
  function Canonical(m: Modifiers, base: string): (name: string) {
    (if m.control then "C-" else "") + (if m.alt then "M-" else "") + (if m.shift then "S-" else "") + base
  }

  function NameOf(f: Form): (name: string)
    requires Proper(f)
  {
    match f
    case Control(code) => if code == 0 then "C-Space" else "C-" + [(code + '@' as int) as char]
    case Named(_, name) => name
    case MetaChar(control, ch, _) => Canonical(Modifiers(false, true, control), [ch])
    case Chord(m, _, base) => Canonical(m, base)
    case Bare(_, base) => base
    case Char(c) => [c]
  }

  function SequenceOf(f: Form): (s: seq<nat>) {
    match f
    case Control(code) => [code]
    case Named(b, _) => [b]
    case MetaChar(_, _, code) => [0x1B, code]
    case Chord(m, special, _) =>
      (match special
       case Tilde(code) => [0x1B, 0x5B] + T.Decimal(code) + [0x3B] + T.Decimal(m.Value()) + [0x7E]
       case Csi(final) => [0x1B, 0x5B, 0x31, 0x3B] + T.Decimal(m.Value()) + [ByteOf(final)]
       case Ss3(final) => [0x1B, 0x5B, 0x31, 0x3B] + T.Decimal(m.Value()) + [ByteOf(final)])
    case Bare(special, _) =>
      (match special
       case Tilde(code) => [0x1B, 0x5B] + T.Decimal(code) + [0x7E]
       case Csi(final) => [0x1B, 0x5B, ByteOf(final)]
       case Ss3(final) => [0x1B, 0x4F, ByteOf(final)])
    case Char(c) => [ByteOf(c)]
  }

  /** The forms names denote. */
  predicate Proper(f: Form) {
    match f
    case Control(code) => code < 32
    case Named(b, name) => NamedKey(name) == Some(f)
    case MetaChar(control, ch, code) => if control then ControlCode(ch) == Some(code) else code == ByteOf(ch)
    case Chord(m, special, base) => m.Any() && SpecialKey(base) == Some(special)
    case Bare(special, base) => SpecialKey(base) == Some(special)
    case Char(c) => true
  }

  lemma NamedKeyProper(name: string)
    ensures var r := NamedKey(name); r.Some? ==> Proper(r.value) && NamedKey(r.value.name) == r
  {
    assert Lower("Space") == "space" && Lower("Enter") == "enter" && Lower("Escape") == "escape";
    assert Lower("Backspace") == "backspace" && Lower("Tab") == "tab";
  }

  lemma ReadNameProper(name: string)
    ensures ReadName(name).Some? ==> Proper(ReadName(name).value)
  {
    hide SpecialKey, Lower, ControlCode, ControlName, NamedKey, StartsWith, Strip;
    NamedKeyProper(name);
    if StartsWith(name, "C-") || StartsWith(name, "c-") {
      StripsControl(name);
    }
  }

  lemma StripsControl(name: string)
    requires StartsWith(name, "C-") || StartsWith(name, "c-")
    ensures Strip(name).modifiers.control
  {
    assert Dash(name) == 1;
    assert Lower(name[..1]) == "c";
  }

  // ---------------------------------------------------------------------------
  // The whole name
  // ---------------------------------------------------------------------------

  datatype Key = Key(usesPrefix: bool, sequence: seq<nat>, name: string)

  predicate HasPrefix(text: string) {
    StartsWith(text, "Prefix-") || StartsWith(text, "prefix-")
  }

  function WithoutPrefix(text: string): (name: string) {
    if HasPrefix(text) then text[7..] else text
  }

  function ParseKey(text: string): (r: Option<Key>) {
    var f := ReadName(WithoutPrefix(text));
    if text == "" || f.None? then None
    else
      ReadNameProper(WithoutPrefix(text));
      KeyOf(HasPrefix(text), f.value)
  }

  /** The key a form stands for, unless its name is too long to be written down. */
  function KeyOf(prefix: bool, f: Form): (r: Option<Key>)
    requires Proper(f)
  {
    var name := (if prefix then "Prefix-" else "") + NameOf(f);
    if |NameOf(f)| >= NAME_MAX || |name| >= NAME_MAX then None else Some(Key(prefix, SequenceOf(f), name))
  }

  /** Control and Meta with one character. */
  predicate ControlMetaChar(text: string) {
    var s := Strip(WithoutPrefix(text));
    s.modifiers.control && s.modifiers.alt && !s.modifiers.shift && |s.base| == 1
  }

  // ---------------------------------------------------------------------------
  // Stripping a normal form
  // ---------------------------------------------------------------------------

  /** Nothing more can be stripped. */
  predicate Atomic(base: string) {
    Strip(base) == Stripped(NONE, base)
  }

  lemma StripPrefix(letter: char, rest: string, m: Modifiers)
    requires letter != '-' && m == Modifier([letter]) && m.Any()
    ensures var s := Strip([letter, '-'] + rest);
      s == Stripped(Both(m, Strip(rest).modifiers), Strip(rest).base)
  {
    var name := [letter, '-'] + rest;
    assert name[0] == letter && name[1] == '-';
    assert Dash(name) == 1 && name[..1] == [letter] && name[2..] == rest;
  }

  lemma Letters()
    ensures Modifier("C") == NONE.(control := true) && Modifier("M") == NONE.(alt := true) && Modifier("S") == NONE.(shift := true)
  {
    assert Lower("C") == "c" && Lower("M") == "m" && Lower("S") == "s";
  }

  function Front(letter: char, on: bool, rest: string): (s: string) {
    if on then [letter, '-'] + rest else rest
  }

  lemma CanonicalFronts(m: Modifiers, base: string)
    ensures Canonical(m, base) == Front('C', m.control, Front('M', m.alt, Front('S', m.shift, base)))
  {
    var s := Front('S', m.shift, base);
    var a := Front('M', m.alt, s);
    assert s == (if m.shift then "S-" else "") + base;
    assert a == (if m.alt then "M-" else "") + s;
    assert Front('C', m.control, a) == (if m.control then "C-" else "") + a;
    assert Canonical(m, base) == (if m.control then "C-" else "") + ((if m.alt then "M-" else "") + ((if m.shift then "S-" else "") + base));
  }

  lemma StripFront(letter: char, on: bool, rest: string, m: Modifiers)
    requires letter != '-' && m == Modifier([letter]) && m.Any()
    ensures var s := Strip(Front(letter, on, rest));
      s == Stripped(if on then Both(m, Strip(rest).modifiers) else Strip(rest).modifiers, Strip(rest).base)
  {
    hide Strip, Modifier;
    StripPrefix(letter, rest, m);
  }

  /** Stripping the normal form finds the same modifiers and base again. */
  lemma StripCanonical(m: Modifiers, base: string)
    requires Atomic(base)
    ensures Strip(Canonical(m, base)) == Stripped(m, base)
  {
    hide Strip, Modifier, Front, Canonical;
    Letters();
    CanonicalFronts(m, base);
    var s := Front('S', m.shift, base);
    var a := Front('M', m.alt, s);
    StripFront('S', m.shift, base, NONE.(shift := true));
    StripFront('M', m.alt, s, NONE.(alt := true));
    StripFront('C', m.control, a, NONE.(control := true));
  }

  lemma NoDashAtomic(base: string)
    requires '-' !in base
    ensures Atomic(base)
  {
  }

  lemma OneCharAtomic(c: char)
    ensures Atomic([c])
  {
    if c == '-' {
      assert Dash([c]) == 0 && Lower([c][..0]) == "";
    }
  }

  /** Special keys have no dash in their names, and are no named keys. */
  lemma SpecialNames(base: string)
    requires SpecialKey(base).Some?
    ensures '-' !in base && 2 <= |base| <= 8 && base[0] != '^'
    ensures NamedKey(base).None?
  {
    var t := Lower(base);
    assert forall i | 0 <= i < |base| :: t[i] != '-' ==> base[i] != '-';
    assert t[0] != '^' ==> base[0] != '^';
  }

  lemma NamedNames(name: string)
    requires NamedKey(name).Some?
    ensures 3 <= |name| <= 9 && forall i | 0 <= i < |name| :: name[i] != '-' && name[i] != '^'
  {
    var t := Lower(name);
    assert forall i | 0 <= i < |name| :: (t[i] != '-' ==> name[i] != '-') && (t[i] != '^' ==> name[i] != '^');
  }

  // ---------------------------------------------------------------------------
  // Reading a normal form
  // ---------------------------------------------------------------------------

  /** A name whose second character is a dash is none of the words. */
  lemma DashedName(name: string)
    requires |name| >= 2 && name[1] == '-'
    ensures NamedKey(name).None? && SpecialKey(name).None?
    ensures !StartsWith(name, "Control-") && !StartsWith(name, "control-")
    ensures !StartsWith(name, "Ctrl-") && !StartsWith(name, "ctrl-")
    ensures !HasPrefix(name)
  {
    hide NamedKey, SpecialKey;
    if NamedKey(name).Some? { NamedNames(name); }
    if SpecialKey(name).Some? { SpecialNames(name); }
    if |name| >= 8 { assert name[..8][1] == '-'; }
    if |name| >= 7 { assert name[..7][1] == '-'; }
    if |name| >= 5 { assert name[..5][1] == '-'; }
  }

  lemma CanonicalShape(m: Modifiers, base: string)
    requires m.Any()
    ensures var name := Canonical(m, base); |name| >= 2 && name[1] == '-' && name[0] != '^'
    ensures m.control <==> StartsWith(Canonical(m, base), "C-") || StartsWith(Canonical(m, base), "c-")
  {
    var name := Canonical(m, base);
    assert name[..2] == [name[0], name[1]];
  }

  lemma ReadChord(f: Form)
    requires f.Chord? && Proper(f) && |NameOf(f)| < NAME_MAX
    ensures ReadName(NameOf(f)) == Some(f)
  {
    hide SpecialKey, Canonical, StartsWith, Strip;
    var name := Canonical(f.modifiers, f.base);
    SpecialNames(f.base);
    NoDashAtomic(f.base);
    StripCanonical(f.modifiers, f.base);
    CanonicalShape(f.modifiers, f.base);
    DashedName(name);
  }

  /** With Control, a Meta character's normal form is refused. */
  lemma ReadMetaChar(f: Form)
    requires f.MetaChar? && Proper(f) && |NameOf(f)| < NAME_MAX
    ensures ReadName(NameOf(f)) == if f.control then None else Some(f)
  {
    hide SpecialKey, StartsWith, Strip, ControlCode;
    var m := Modifiers(false, true, f.control);
    var name := Canonical(m, [f.ch]);
    OneCharAtomic(f.ch);
    StripCanonical(m, [f.ch]);
    CanonicalShape(m, [f.ch]);
    DashedName(name);
    if SpecialKey([f.ch]).Some? { SpecialNames([f.ch]); }
    if f.control {
      assert |name| == 5 && name[3] == '-' && name[2..][1] == '-';
      assert Lower(name[2..])[1] != "space"[1];
    }
  }

  lemma ReadControl(f: Form)
    requires f.Control? && Proper(f)
    ensures ReadName(NameOf(f)) == Some(f)
  {
    hide SpecialKey, Strip;
    var name := NameOf(f);
    DashedName(name);
    var base := name[2..];
    assert name == "C-" + base && StartsWith(name, "C-");
    assert '-' !in base by {
      assert f.code == 0 ==> base == "Space";
      assert f.code != 0 ==> base == [(f.code + '@' as int) as char];
    }
    NoDashAtomic(base);
    assert Canonical(NONE.(control := true), base) == name;
    StripCanonical(NONE.(control := true), base);
    NotSpecial(f);
  }

  lemma NotSpecial(f: Form)
    requires f.Control? && Proper(f)
    ensures var base := NameOf(f)[2..]; SpecialKey(base).None? && ControlName(base) == Some(f)
  {
    var base := NameOf(f)[2..];
    if f.code == 0 {
      assert base == "Space" && Lower("Space") == "space";
    } else {
      assert base == [(f.code + '@' as int) as char];
    }
  }

  lemma ReadNamed(f: Form)
    requires f.Named? && Proper(f)
    ensures ReadName(NameOf(f)) == Some(f)
  {
    hide SpecialKey, Strip, NamedKey;
    NamedNames(f.name);
    NoPrefixWords(f.name);
  }

  lemma ReadBare(f: Form)
    requires f.Bare? && Proper(f)
    ensures ReadName(NameOf(f)) == Some(f)
  {
    hide SpecialKey, NamedKey, Strip;
    SpecialNames(f.base);
    NoPrefixWords(f.base);
    NoDashAtomic(f.base);
  }

  /** Without a dash a name starts with no modifier word. */
  lemma NoPrefixWords(name: string)
    requires '-' !in name
    ensures !StartsWith(name, "Control-") && !StartsWith(name, "control-")
    ensures !StartsWith(name, "Ctrl-") && !StartsWith(name, "ctrl-")
    ensures !StartsWith(name, "C-") && !StartsWith(name, "c-")
    ensures !HasPrefix(name)
  {
    if |name| >= 8 { assert name[..8][7] == name[7]; }
    if |name| >= 7 { assert name[..7][6] == name[6]; }
    if |name| >= 5 { assert name[..5][4] == name[4]; }
    if |name| >= 2 { assert name[..2][1] == name[1]; }
  }

  lemma ReadChar(f: Form)
    requires f.Char?
    ensures ReadName(NameOf(f)) == Some(f)
  {
    hide SpecialKey, NamedKey, Strip;
    var name := [f.c];
    OneCharAtomic(f.c);
    if SpecialKey(name).Some? { SpecialNames(name); }
    if NamedKey(name).Some? { NamedNames(name); }
  }

  /** Reading a normal form gives the form back, except Control-Meta characters,
      whose normal form is no accepted name at all. */
  lemma ReadNormal(f: Form)
    requires Proper(f) && |NameOf(f)| < NAME_MAX
    ensures ReadName(NameOf(f)) == if f.MetaChar? && f.control then None else Some(f)
  {
    hide ReadName, NameOf;
    match f
    case Control(_) => ReadControl(f);
    case Named(_, _) => ReadNamed(f);
    case MetaChar(_, _, _) => ReadMetaChar(f);
    case Chord(_, _, _) => ReadChord(f);
    case Bare(_, _) => ReadBare(f);
    case Char(_) => ReadChar(f);
  }

  // ---------------------------------------------------------------------------
  // Stability
  // ---------------------------------------------------------------------------

  /** Normal forms do not look prefixed unless they are. */
  lemma NormalHasNoPrefix(f: Form)
    requires Proper(f)
    ensures !HasPrefix(NameOf(f)) && NameOf(f) != ""
  {
    hide SpecialKey, NamedKey, HasPrefix, ControlCode;
    match f
    case Control(_) => DashedName(NameOf(f));
    case Named(_, name) =>
      NamedNames(name);
      NoPrefixWords(name);
    case MetaChar(control, ch, _) =>
      CanonicalShape(Modifiers(false, true, control), [ch]);
      DashedName(NameOf(f));
    case Chord(m, _, base) =>
      CanonicalShape(m, base);
      DashedName(NameOf(f));
    case Bare(_, base) =>
      SpecialNames(base);
      NoPrefixWords(base);
    case Char(c) => ShortHasNoPrefix(c);
  }

  lemma ShortHasNoPrefix(c: char)
    ensures !HasPrefix([c])
  {
  }

  lemma PrefixComesOff(name: string)
    ensures HasPrefix("Prefix-" + name) && WithoutPrefix("Prefix-" + name) == name
  {
    assert ("Prefix-" + name)[..7] == "Prefix-" && ("Prefix-" + name)[7..] == name;
  }

  /** The control-meta forms are those of names with both modifiers on one character. */
  lemma MetaFormIff(name: string)
    requires ReadName(name).Some?
    ensures var f := ReadName(name).value; var s := Strip(name);
      (f.MetaChar? && f.control) <==> s.modifiers.control && s.modifiers.alt && !s.modifiers.shift && |s.base| == 1
  {
    hide Strip, SpecialKey, NamedKey, ControlName, ControlCode, StartsWith;
    var s := Strip(name);
    if |s.base| == 1 && s.modifiers.control && s.modifiers.alt {
      OneCharNotSpecial(s.base);
      TwoModifiers(name);
    }
  }

  lemma OneCharNotSpecial(base: string)
    requires |base| == 1
    ensures SpecialKey(base).None?
  {
    hide SpecialKey;
    if SpecialKey(base).Some? { SpecialNames(base); }
  }

  /** Two modifiers take two dashes, so none of the single-modifier branches applies. */
  lemma TwoModifiers(name: string)
    requires Strip(name).modifiers.control && Strip(name).modifiers.alt && |Strip(name).base| == 1
    ensures |name| != 2 && NamedKey(name).None?
    ensures (StartsWith(name, "Control-") || StartsWith(name, "control-")) ==> '-' in name[8..]
    ensures (StartsWith(name, "Ctrl-") || StartsWith(name, "ctrl-")) ==> '-' in name[5..]
    ensures (StartsWith(name, "C-") || StartsWith(name, "c-")) ==> ControlName(name[2..]).None?
  {
    hide Strip, NamedKey;
    var i := Dash(name);
    SecondDash(name);
    if NamedKey(name).Some? { NamedNames(name); }
    DashAt(name, "Control-", 7);
    DashAt(name, "control-", 7);
    DashAt(name, "Ctrl-", 4);
    DashAt(name, "ctrl-", 4);
    DashAt(name, "C-", 1);
    DashAt(name, "c-", 1);
    if i == 1 {
      var j := Dash(name[2..]);
      assert Lower(name[2..])[j] == '-';
    }
  }

  lemma DashAt(name: string, prefix: string, i: nat)
    requires |prefix| == i + 1 && prefix[i] == '-' && forall j | 0 <= j < i :: prefix[j] != '-'
    ensures StartsWith(name, prefix) ==> Dash(name) == i
  {
    if StartsWith(name, prefix) {
      assert forall j | 0 <= j <= i :: name[j] == name[..i + 1][j];
    }
  }

  lemma SecondDash(name: string)
    requires Strip(name).modifiers.control && Strip(name).modifiers.alt
    ensures var i := Dash(name);
      1 <= i < |name| && 1 <= Dash(name[i + 1..]) < |name[i + 1..]|
  {
    var i := Dash(name);
    assert Lower(name[..0]) == "";
    var rest := name[i + 1..];
    var j := Dash(rest);
    assert Lower(rest[..0]) == "";
  }

  /**
    Normalisation is stable: for every accepted key name, parsing its normal form
    gives the same prefix flag, bytes and normal form, if and only if the name is
    not Control and Meta with a single character; then the normal form is refused.
   */
  lemma NormalisationStable(text: string)
    requires ParseKey(text).Some?
    ensures var k := ParseKey(text).value;
      ParseKey(k.name) == if ControlMetaChar(text) then None else Some(k)
  {
    hide ReadName, NameOf, Strip, SequenceOf, HasPrefix;
    var name := WithoutPrefix(text);
    var f := ReadName(name).value;
    ReadNameProper(name);
    ReadNormal(f);
    MetaFormIff(name);
    NormalHasNoPrefix(f);
    PrefixComesOff(NameOf(f));
    assert "" + NameOf(f) == NameOf(f);
  }
}
