/**
  Saving key bindings and loading the file again (src/common/config.c): exactly
  which accepted keys survive it, and what the others do to the load.
 */
module SavedKeys {
  import opened Wrappers
  import opened ConfigText
  import opened ConfigFile
  import opened KeyName
  import opened ManagedKeys
  import K = KeyTable

  // ---------------------------------------------------------------------------
  // When the saved file does not load
  // ---------------------------------------------------------------------------

  lemma BindRefused(table: K.Table, keyName: string, command: string)
    requires ParseKey(keyName).None?
    ensures !K.Bind(table, keyName, command, false).Done?
  {
    hide ParseKey;
  }

  ghost predicate SomeRefused(ops: seq<(string, string)>) {
    exists i | 0 <= i < |ops| :: ParseKey(ops[i].0).None?
  }

  /** One name that is not accepted stops all the assignments. */
  lemma {:induction false} OpsRefused(table: K.Table, ops: seq<(string, string)>)
    requires SomeRefused(ops)
    ensures RunOps(table, ops).None?
    decreases ops
  {
    hide ParseKey, K.Bind;
    var i :| 0 <= i < |ops| && ParseKey(ops[i].0).None?;
    if i == 0 {
      BindRefused(table, ops[0].0, ops[0].1);
    } else {
      var o := K.Bind(table, ops[0].0, ops[0].1, false);
      assert ParseKey(ops[1..][i - 1].0).None?;
      if o.Done? {
        OpsRefused(o.table, ops[1..]);
      }
    }
  }

  /** A saved file with such a name in its block still parses, and then stops the
      whole load, whatever the rest of the configuration says. */
  lemma LoadRefused(existing: string, base: K.Table, bindings: K.Table, previous: K.Table)
    requires var kept := Parse(Unmanaged(existing, false)); kept.Some? && FreeFrom(kept.value, FIRST_INDEX)
    requires var ops := Ops(bindings, previous); WritableOps(ops) && ShortOps(ops) && SomeRefused(ops)
    ensures var loaded := Parse(Render(existing, bindings, previous));
      loaded.Some? && ApplyFile(base, loaded.value).None?
  {
    hide Unmanaged, ParseText, FreeFrom, RunOps, Render, ApplyFile, ApplyItems, Ops, BlockItems, Distinct,
      WritableOps, OneLineOps, ShortOps, SomeRefused;
    var kept := Parse(Unmanaged(existing, false)).value;
    var ops := Ops(bindings, previous);
    var block := BlockItems(FIRST_INDEX, ops);
    WritableIsOneLine(ops);
    ParseRendered(existing, bindings, previous);
    ParsedDistinct(Render(existing, bindings, previous));
    ApplyFileIsItems(base, kept + block);
    ApplyItemsConcat(base, kept, block);
    if ApplyItems(base, kept).Some? {
      var table := ApplyItems(base, kept).value;
      ApplyBlock(table, FIRST_INDEX, ops);
      OpsRefused(table, ops);
    }
  }

  /** The table holds the keys that `texts` name. */
  predicate MadeFrom(table: K.Table, texts: seq<string>) {
    && |table| == |texts|
    && forall i | 0 <= i < |table| ::
         ParseKey(texts[i]).Some? && table[i] == K.Entry(ParseKey(texts[i]).value, table[i].command, table[i].builtin)
  }

  predicate WritableNames(table: K.Table) {
    forall i | 0 <= i < |table| :: Writable(table[i].name)
  }

  /** None of the names is control and meta on one character. */
  predicate Savable(texts: seq<string>) {
    forall i | 0 <= i < |texts| :: !ControlMetaChar(texts[i])
  }

  /** A made entry's name reads back as its key, or not at all. */
  lemma MadeEntry(table: K.Table, texts: seq<string>, i: nat)
    requires MadeFrom(table, texts) && i < |table|
    ensures 0 < |table[i].name| < NAME_MAX
    ensures if ControlMetaChar(texts[i]) then ParseKey(table[i].name).None? else Stable(table[i])
  {
    hide ControlMetaChar, ReadName, NameOf, SequenceOf, WithoutPrefix, HasPrefix;
    NormalisationStable(texts[i]);
    NameNonempty(texts[i]);
  }

  lemma NameNonempty(text: string)
    requires ParseKey(text).Some?
    ensures ParseKey(text).value.name != ""
  {
    hide ReadName, SequenceOf, NamedKey, SpecialKey, ControlCode;
    var name := WithoutPrefix(text);
    ReadNameProper(name);
    FormNonempty(ReadName(name).value);
  }

  lemma FormNonempty(f: Form)
    requires Proper(f)
    ensures NameOf(f) != ""
  {
    hide ControlCode;
    match f
    case Named(_, name) => NamedNames(name);
    case Chord(_, _, base) => SpecialNames(base);
    case Bare(_, base) => SpecialNames(base);
    case _ =>
  }

  lemma MadeStable(table: K.Table, texts: seq<string>)
    requires MadeFrom(table, texts) && WritableNames(table) && Savable(texts)
    ensures AllStable(table)
  {
    hide ParseKey, ControlMetaChar, Stable, Writable;
    forall i | 0 <= i < |table| ensures Stable(table[i]) {
      MadeEntry(table, texts, i);
    }
  }

  lemma {:induction false} BindsAt(bindings: K.Table)
    requires forall i | 0 <= i < |bindings| :: bindings[i].name != "" && bindings[i].command != ""
    ensures |Binds(bindings)| == |bindings|
    ensures forall i | 0 <= i < |bindings| :: Binds(bindings)[i] == (bindings[i].name, bindings[i].command)
  {
    if bindings != [] {
      BindsAt(bindings[1..]);
    }
  }

  lemma {:induction false} UnbindsAt(previous: K.Table)
    requires forall i | 0 <= i < |previous| :: previous[i].name != ""
    ensures |Unbinds(previous)| == |previous|
    ensures forall i | 0 <= i < |previous| :: Unbinds(previous)[i] == (previous[i].name, "none")
  {
    if previous != [] {
      UnbindsAt(previous[1..]);
    }
  }

  /** The assignments of a save, entry by entry. */
  lemma OpsAt(bindings: K.Table, texts: seq<string>, previous: K.Table, olds: seq<string>)
    requires MadeFrom(bindings, texts) && MadeFrom(previous, olds) && AllKnown(bindings)
    ensures var ops := Ops(bindings, previous);
      && |ops| == |previous| + |bindings|
      && (forall i | 0 <= i < |previous| :: ops[i] == (previous[i].name, "none"))
      && (forall i | 0 <= i < |bindings| :: ops[|previous| + i] == (bindings[i].name, bindings[i].command))
  {
    hide Binds, Unbinds, K.Known, MadeFrom, ParseKey, Stable, ControlMetaChar;
    assert |texts| == |bindings| && |olds| == |previous| by { SameSize(bindings, texts); SameSize(previous, olds); }
    forall i | 0 <= i < |bindings| ensures bindings[i].name != "" && bindings[i].command != "" {
      MadeEntry(bindings, texts, i);
      KnownNonempty(bindings[i]);
    }
    forall i | 0 <= i < |previous| ensures previous[i].name != "" {
      MadeEntry(previous, olds, i);
    }
    UnbindsAt(previous);
    BindsAt(bindings);
  }

  lemma SameSize(table: K.Table, texts: seq<string>)
    requires MadeFrom(table, texts)
    ensures |table| == |texts|
  {
  }

  /** What the assignments of a save are: names of accepted keys, each with a word. */
  ghost predicate MadeOps(ops: seq<(string, string)>) {
    forall i | 0 <= i < |ops| :: MadeOp(ops[i])
  }

  ghost predicate MadeOp(op: (string, string)) {
    && (exists text :: ParseKey(text).Some? && ParseKey(text).value.name == op.0)
    && (op.1 == "none" || Word(op.1))
  }

  lemma SaveMakesOps(bindings: K.Table, texts: seq<string>, previous: K.Table, olds: seq<string>)
    requires MadeFrom(bindings, texts) && MadeFrom(previous, olds) && AllKnown(bindings)
    ensures MadeOps(Ops(bindings, previous))
  {
    hide Ops, K.Known, ParseKey;
    OpsAt(bindings, texts, previous, olds);
    var ops := Ops(bindings, previous);
    forall i | 0 <= i < |ops| ensures MadeOp(ops[i]) {
      if i < |previous| {
        assert ParseKey(olds[i]).Some? && ParseKey(olds[i]).value.name == ops[i].0;
      } else {
        var j := i - |previous|;
        assert ops[|previous| + j] == ops[i];
        KnownPrintable(bindings[j].command);
        assert ParseKey(texts[j]).Some? && ParseKey(texts[j]).value.name == ops[i].0;
      }
    }
  }

  // ---------------------------------------------------------------------------
  // Names that cannot be written
  // ---------------------------------------------------------------------------

  predicate Blankless(s: string) {
    forall i | 0 <= i < |s| :: !Space(s[i], true)
  }

  lemma NamedBlankless(name: string)
    requires NamedKey(name).Some?
    ensures Blankless(name)
  {
    var t := Lower(name);
    assert forall i | 0 <= i < |name| :: 'a' <= t[i] <= 'z' ==> !Space(name[i], true);
  }

  lemma SpecialBlankless(base: string)
    requires SpecialKey(base).Some?
    ensures Blankless(base)
  {
    var t := Lower(base);
    assert forall i | 0 <= i < |base| :: '0' <= t[i] <= 'z' ==> !Space(base[i], true);
  }

  /** The front of a name that ends in a character taken as it is. */
  predicate Stem(s: string) {
    s == "" || s == "M-" || s == "C-M-" || s == "Prefix-" || s == "Prefix-M-" || s == "Prefix-C-M-"
  }

  lemma ControlBlankless(code: nat)
    requires code < 32
    ensures Blankless(NameOf(Control(code)))
  {
  }

  lemma CanonicalBlankless(m: Modifiers, base: string)
    requires Blankless(base)
    ensures Blankless(Canonical(m, base))
  {
  }

  lemma MetaShape(f: Form)
    requires f.MetaChar? && Proper(f)
    ensures NameOf(f) == (if f.control then "C-M-" else "M-") + [f.ch]
  {
    hide ControlCode;
  }

  /** A form's name has no blank, or ends in the character it stands for. */
  lemma FormShape(f: Form)
    requires Proper(f)
    ensures var s := NameOf(f); Blankless(s) || (s != "" && s[..|s| - 1] in {"", "M-", "C-M-"})
  {
    hide ControlCode, Blankless, Canonical, NamedKey, SpecialKey;
    match f
    case Control(code) => ControlBlankless(code);
    case Named(_, name) => NamedBlankless(name);
    case MetaChar(control, ch, _) =>
      MetaShape(f);
      assert ((if control then "C-M-" else "M-") + [ch])[..if control then 4 else 2] == if control then "C-M-" else "M-";
    case Chord(m, _, base) =>
      SpecialBlankless(base);
      CanonicalBlankless(m, base);
    case Bare(_, base) => SpecialBlankless(base);
    case Char(c) => assert [c][..0] == "";
  }

  lemma NameShape(text: string)
    requires ParseKey(text).Some?
    ensures var s := ParseKey(text).value.name; s != "" && (Blankless(s) || Stem(s[..|s| - 1]))
  {
    hide ReadName, SequenceOf, NamedKey, SpecialKey, ControlCode, NameOf;
    NameNonempty(text);
    var name := WithoutPrefix(text);
    ReadNameProper(name);
    var f := ReadName(name).value;
    FormShape(f);
    if HasPrefix(text) {
      PrefixShape(NameOf(f));
    } else {
      assert "" + NameOf(f) == NameOf(f);
    }
  }

  lemma PrefixShape(s: string)
    ensures Blankless(s) ==> Blankless("Prefix-" + s)
    ensures s != "" ==> ("Prefix-" + s)[..|"Prefix-" + s| - 1] == "Prefix-" + s[..|s| - 1]
    ensures "Prefix-" + "" == "Prefix-" && "Prefix-" + "M-" == "Prefix-M-" && "Prefix-" + "C-M-" == "Prefix-C-M-"
  {
  }

  lemma BlanklessWritable(s: string)
    requires s != "" && Blankless(s)
    ensures Writable(s)
  {
  }

  /** A stem and a blank. */
  predicate StemAndBlank(s: string) {
    && s != "" && Stem(s[..|s| - 1])
    && var c := s[|s| - 1];
    c == ' ' || c == '\t' || c == '\n' || (|s| == 1 && Space(c, true))
  }

  /** The names that cannot be written are those. */
  lemma UnwritableName(text: string)
    requires ParseKey(text).Some?
    ensures !Writable(ParseKey(text).value.name) <==> StemAndBlank(ParseKey(text).value.name)
  {
    hide ParseKey, Stem, Blankless;
    NameShape(text);
    var s := ParseKey(text).value.name;
    if Blankless(s) {
      BlanklessWritable(s);
      NoBlankLast(s);
    } else {
      var front, c := s[..|s| - 1], s[|s| - 1];
      assert s == front + [c];
      StemWritable(front);
      if !(c == ' ' || c == '\t' || c == '\n' || (front == "" && Space(c, true))) {
        FrontWritable(front, c);
      }
    }
  }

  lemma NoBlankLast(s: string)
    requires s != "" && Blankless(s)
    ensures !StemAndBlank(s)
  {
    hide Stem;
    assert !Space(s[|s| - 1], true);
  }

  lemma FrontWritable(front: string, c: char)
    requires Blankless(front) && !(c == ' ' || c == '\t' || c == '\n' || (front == "" && Space(c, true)))
    ensures Writable(front + [c])
  {
  }

  lemma StemWritable(s: string)
    requires Stem(s)
    ensures Blankless(s)
  {
  }

  // ---------------------------------------------------------------------------
  // What becomes of them
  // ---------------------------------------------------------------------------

  /** A value that stops every load. */
  ghost predicate Hopeless(value: string) {
    forall table: K.Table :: ApplyValue(table, value).None?
  }

  lemma HopelessKey(value: string, name: string, command: string)
    requires SplitBinding(value) == Some((name, command)) && ParseKey(name).None?
    ensures Hopeless(value)
  {
    hide ParseKey, K.Bind, SplitBinding;
    forall table: K.Table ensures ApplyValue(table, value).None? {
      BindRefused(table, name, command);
    }
  }

  lemma HopelessSplit(value: string)
    requires SplitBinding(value).None?
    ensures Hopeless(value)
  {
    hide SplitBinding, K.Bind;
  }

  lemma {:induction false} NoGap(s: string)
    requires Blankless(s)
    ensures NonGaps(s) == |s|
  {
    if s != "" {
      NoGap(s[1..]);
    }
  }

  /** A single blank is trimmed away, and leaves the command alone. */
  lemma BlankLost(c: char, command: string)
    requires Space(c, true) && Printable(command)
    ensures Written([c], command) == command && SplitBinding(command).None?
  {
    hide Trim;
    var value := [c] + " " + command;
    assert value == [c, ' '] + command + "";
    TrimOf([c, ' '], command, "", true);
    assert Gaps(command) == 0 && command[0..] == command;
    NoGap(command);
  }

  /** A word, a gap, and what is left of the rest. */
  lemma SplitBehind(word: string, c: char, rest: string, command: string)
    requires word != "" && Blankless(word) && Gap(c)
    requires command != "" && TrimRight(rest[Gaps(rest)..], false) == command
    ensures SplitBinding(word + ([c] + rest)) == Some((word, command))
  {
    hide Gaps, NonGaps, TrimRight;
    var value := word + ([c] + rest);
    NoGapsInFront(value);
    NonGapsPrefix(word, [c] + rest);
    assert value[0..] == value && value[..|word|] == word && value[|word| + 1..] == rest;
  }

  lemma CommandBehind(command: string)
    requires Printable(command)
    ensures var rest := " " + command; TrimRight(rest[Gaps(rest)..], false) == command
  {
    OneGap(command);
    assert (" " + command)[1..] == command;
    assert TrimRight(command, false) == command;
  }

  /** A stem and a blank split behind the stem. */
  lemma StemSplits(stem: string, c: char, command: string)
    requires stem != "" && Blankless(stem) && (c == ' ' || c == '\t') && Printable(command)
    ensures SplitBinding(Written(stem + [c], command)) == Some((stem, command))
  {
    hide Trim, Gaps, NonGaps, SplitBinding;
    var value := (stem + [c]) + " " + command;
    TrimTight(value, true);
    assert value == stem + ([c] + (" " + command));
    CommandBehind(command);
    SplitBehind(stem, c, " " + command, command);
  }

  lemma NoGapsInFront(s: string)
    requires s != "" && !Space(s[0], true)
    ensures Gaps(s) == 0
  {
  }

  lemma OneGap(command: string)
    requires Printable(command)
    ensures Gaps(" " + command) == 1
  {
    assert (" " + command)[1..] == command;
    assert Gaps(command) == 0;
  }

  lemma NoBareModifier()
    ensures ReadName("").None? && ReadName("M-").None?
  {
    hide SpecialKey, NamedKey, ControlName;
    ShortNames();
    Letters();
    StripPrefix('M', "", Modifier("M"));
    assert ['M', '-'] + "" == "M-";
    assert Strip("") == Stripped(NONE, "");
  }

  lemma ShortNames()
    ensures SpecialKey("").None? && NamedKey("").None? && NamedKey("M-").None? && NamedKey("C-M-").None?
    ensures SpecialKey("M-").None? && ControlName("M-").None?
  {
    assert |Lower("")| == 0 && |Lower("M-")| == 2 && |Lower("C-M-")| == 4;
    assert Lower("M-")[1] == '-' && Lower("C-M-")[1] == '-';
  }

  lemma NoBareModifiers()
    ensures ReadName("C-M-").None?
  {
    hide SpecialKey, NamedKey, ControlName, Lower, Strip;
    ShortNames();
    Letters();
    StripPrefix('C', "M-", Modifier("C"));
    StripPrefix('M', "", Modifier("M"));
    assert ['C', '-'] + "M-" == "C-M-" && ['M', '-'] + "" == "M-";
    OnlyNothing();
    assert "C-M-"[2..] == "M-" && "C-M-"[..2] == "C-";
  }

  lemma OnlyNothing()
    ensures Strip("") == Stripped(NONE, "")
  {
  }

  /** No stem is a key. */
  lemma StemRefused(stem: string)
    requires Stem(stem)
    ensures ParseKey(stem).None?
  {
    hide ReadName, KeyOf;
    NoBareModifier();
    NoBareModifiers();
    StemNames(stem);
  }

  lemma StemNames(stem: string)
    requires Stem(stem)
    ensures WithoutPrefix(stem) in {"", "M-", "C-M-"}
  {
    hide StartsWith;
    NotPrefixed();
    if stem == "Prefix-" {
      assert stem == "Prefix-" + "";
      PrefixOff("");
    } else if stem == "Prefix-M-" {
      assert stem == "Prefix-" + "M-";
      PrefixOff("M-");
    } else if stem == "Prefix-C-M-" {
      assert stem == "Prefix-" + "C-M-";
      PrefixOff("C-M-");
    }
  }

  lemma NotPrefixed()
    ensures !HasPrefix("") && !HasPrefix("M-") && !HasPrefix("C-M-")
  {
  }

  lemma PrefixOff(s: string)
    ensures WithoutPrefix("Prefix-" + s) == s
  {
    assert ("Prefix-" + s)[..7] == "Prefix-" && ("Prefix-" + s)[7..] == s;
  }

  /** A name that cannot be written, or cannot be read back, stops the load. */
  lemma OpHopeless(text: string, command: string)
    requires ParseKey(text).Some? && Printable(command) && '\n' !in ParseKey(text).value.name
    requires !Writable(ParseKey(text).value.name) || ControlMetaChar(text)
    ensures Hopeless(Written(ParseKey(text).value.name, command))
  {
    hide ParseKey, ControlMetaChar, Written, SplitBinding, Hopeless;
    var s := ParseKey(text).value.name;
    if Writable(s) {
      NormalisationStable(text);
      WrittenWhole(s, command);
      SplitWritten(s, command);
      HopelessKey(Written(s, command), s, command);
    } else {
      UnwritableName(text);
      var stem, c := s[..|s| - 1], s[|s| - 1];
      assert s == stem + [c];
      if stem == "" {
        BlankLost(c, command);
        HopelessSplit(Written(s, command));
      } else {
        StemWritable(stem);
        StemSplits(stem, c, command);
        StemRefused(stem);
        HopelessKey(Written(s, command), stem, command);
      }
    }
  }

  /** One such value among the assignments is enough. */
  lemma {:induction false} BlockHopeless(table: K.Table, index: nat, ops: seq<(string, string)>, i: nat)
    requires i < |ops| && Hopeless(Written(ops[i].0, ops[i].1))
    ensures ApplyItems(table, BlockItems(index, ops)).None?
    decreases ops
  {
    hide ApplyValue, BindKey, StartsWith, Written;
    BindKeyPlain(index);
    BlockItemsHead(index, ops);
    var t := ApplyValue(table, Written(ops[0].0, ops[0].1));
    if i > 0 && t.Some? {
      assert ops[1..][i - 1] == ops[i];
      BlockHopeless(t.value, index + 1, ops[1..], i - 1);
    }
  }

  // ---------------------------------------------------------------------------
  // A line break in a name
  // ---------------------------------------------------------------------------

  lemma BadLineStops(p: Parsed, a: string, line: string, rest: string)
    requires EndsLine(a) && line != "" && EndsLine(line) && LineLength(line) == |line| && Classify(line).Bad?
    ensures ParseText(p, a + (line + rest)).None?
  {
    hide Classify, LineLength, ParseText;
    ParseConcat(p, a, line + rest);
    if ParseText(p, a).Some? {
      var q := ParseText(p, a).value;
      ParseConcat(q, line, rest);
      ParseOne(q, line);
    }
  }

  lemma WordLineIsBad(command: string)
    requires Word(command) || command == "none"
    ensures var line := " " + command + "\n";
      line != "" && EndsLine(line) && LineLength(line) == |line| && Classify(line).Bad?
  {
    hide Trim, Find;
    WordPrintable(command);
    var line := " " + command + "\n";
    TrimOf(" ", command, "\n", true);
    LineIsOne(line);
    assert '=' !in command;
    assert Find(command, '=') == |command|;
  }

  lemma WordPrintable(command: string)
    requires Word(command) || command == "none"
    ensures Printable(command) && '=' !in command && '\n' !in command
    ensures command[0] != '#' && command[0] != ';' && command[0] != '['
  {
  }

  lemma {:induction false} BindLinesEnd(index: nat, ops: seq<(string, string)>)
    ensures EndsLine(BindLines(index, ops))
    decreases ops
  {
    if ops != [] {
      BindLinesEnd(index + 1, ops[1..]);
      var line := BindLine(index, ops[0].0, ops[0].1);
      assert line[|line| - 1] == '\n';
      EndsConcat(line, BindLines(index + 1, ops[1..]));
    }
  }

  /** A block one of whose names ends in a line break does not parse, wherever it is. */
  lemma BrokenBlock(p: Parsed, ops: seq<(string, string)>, i: nat, stem: string)
    requires i < |ops| && ops[i].0 == stem + "\n" && (Word(ops[i].1) || ops[i].1 == "none")
    ensures ParseText(p, Block(ops)).None?
  {
    hide ParseText, BindLines, BindKey, EndsLine, LineLength, Classify;
    var command := ops[i].1;
    var line := " " + command + "\n";
    WordLineIsBad(command);
    var before, after := BindLines(FIRST_INDEX, ops[..i]), BindLines(FIRST_INDEX + i + 1, ops[i + 1..]);
    var first := BindKey(FIRST_INDEX + i) + "=" + stem + "\n";
    BindLinesAround(FIRST_INDEX, ops, i);
    assert BindLine(FIRST_INDEX + i, ops[i].0, command) == first + line;
    var begin, header := BEGIN_MARK + "\n", "[" + GROUP + "]\n";
    var a, rest := begin + header + before + first, after + (END_MARK + "\n");
    assert Block(ops) == a + (line + rest);
    BindLinesEnd(FIRST_INDEX, ops[..i]);
    EndsByNewline(begin);
    EndsByNewline(header);
    EndsByNewline(first);
    EndsConcat(begin, header);
    EndsConcat(begin + header, before);
    EndsConcat(begin + header + before, first);
    BadLineStops(p, a, line, rest);
  }

  lemma EndsByNewline(s: string)
    requires s != "" && s[|s| - 1] == '\n'
    ensures EndsLine(s)
  {
  }

  lemma BindLinesAround(index: nat, ops: seq<(string, string)>, i: nat)
    requires i < |ops|
    ensures BindLines(index, ops)
         == BindLines(index, ops[..i]) + (BindLine(index + i, ops[i].0, ops[i].1) + BindLines(index + i + 1, ops[i + 1..]))
  {
    hide BindLine, BindLines;
    assert ops == ops[..i] + ([ops[i]] + ops[i + 1..]);
    BindLinesConcat(index, ops[..i], [ops[i]] + ops[i + 1..]);
    BindLinesStep(index + i, ops[i], ops[i + 1..]);
  }

  // ---------------------------------------------------------------------------
  // Exactly when a saved file loads
  // ---------------------------------------------------------------------------

  /** Reading a file over a base configuration. */
  function Load(base: K.Table, text: string): (r: Option<K.Table>) {
    var items := Parse(text);
    if items.None? then None else ApplyFile(base, items.value)
  }

  /** One name that cannot be written, or not read back, and nothing loads. */
  lemma NothingLoads(existing: string, base: K.Table, bindings: K.Table, previous: K.Table, i: nat, text: string)
    requires var kept := Parse(Unmanaged(existing, false)); kept.Some? && FreeFrom(kept.value, FIRST_INDEX)
    requires var ops := Ops(bindings, previous);
      && MadeOps(ops) && i < |ops|
      && ParseKey(text).Some? && ParseKey(text).value.name == ops[i].0
      && (!Writable(ops[i].0) || ControlMetaChar(text))
    ensures Load(base, Render(existing, bindings, previous)).None?
  {
    hide Unmanaged, ParseText, FreeFrom, Render, ApplyFile, ApplyItems, Ops, BlockItems, Distinct, MadeOps, Written,
      ParseKey, ControlMetaChar, Writable, OneLineOps, Hopeless;
    var ops := Ops(bindings, previous);
    if j :| 0 <= j < |ops| && '\n' in ops[j].0 {
      BrokenSave(existing, bindings, previous, j);
    } else {
      OneLineSave(ops);
      ParseRendered(existing, bindings, previous);
      var kept, block := Parse(Unmanaged(existing, false)).value, BlockItems(FIRST_INDEX, ops);
      ParsedDistinct(Render(existing, bindings, previous));
      ApplyFileIsItems(base, kept + block);
      ApplyItemsConcat(base, kept, block);
      OpPrintable(ops, i);
      OpHopeless(text, ops[i].1);
      if ApplyItems(base, kept).Some? {
        BlockHopeless(ApplyItems(base, kept).value, FIRST_INDEX, ops, i);
      }
    }
  }

  lemma OpPrintable(ops: seq<(string, string)>, i: nat)
    requires MadeOps(ops) && i < |ops|
    ensures Printable(ops[i].1) && (Word(ops[i].1) || ops[i].1 == "none")
  {
    hide ParseKey;
    assert MadeOp(ops[i]);
    WordPrintable(ops[i].1);
  }

  lemma OneLineSave(ops: seq<(string, string)>)
    requires MadeOps(ops) && forall j | 0 <= j < |ops| :: '\n' !in ops[j].0
    ensures OneLineOps(ops)
  {
    hide MadeOps, Printable;
    forall j | 0 <= j < |ops| ensures Printable(ops[j].1) {
      OpPrintable(ops, j);
    }
  }

  lemma BrokenSave(existing: string, bindings: K.Table, previous: K.Table, j: nat)
    requires Parse(Unmanaged(existing, false)).Some?
    requires var ops := Ops(bindings, previous); MadeOps(ops) && j < |ops| && '\n' in ops[j].0
    ensures Parse(Render(existing, bindings, previous)).None?
  {
    hide Unmanaged, ParseText, Block, Ops, MadeOps, ParseKey;
    var ops, kept := Ops(bindings, previous), Unmanaged(existing, false);
    OpPrintable(ops, j);
    var stem := LineBreakLast(ops, j);
    ParseBase(kept);
    BrokenBlock(ParseText(START, kept).value, ops, j, stem);
    ParseConcat(START, Base(kept), Block(ops));
  }

  lemma LineBreakLast(ops: seq<(string, string)>, j: nat) returns (stem: string)
    requires MadeOps(ops) && j < |ops| && '\n' in ops[j].0
    ensures ops[j].0 == stem + "\n"
  {
    hide ParseKey;
    assert MadeOp(ops[j]);
    var text :| ParseKey(text).Some? && ParseKey(text).value.name == ops[j].0;
    NameShape(text);
    var s := ops[j].0;
    stem := s[..|s| - 1];
    assert s == stem + [s[|s| - 1]];
    if Stem(stem) {
      StemWritable(stem);
    }
  }

  /**
    Both sides of saving and loading. For bindings of accepted keys, and previous
    bindings of accepted keys to be undone, the saved file loads to exactly the
    bindings if and only if none of those keys is control and meta on one
    character and every name can be written; otherwise nothing loads at all.
   */
  lemma SavedLoadsIff(existing: string, base: K.Table, bindings: K.Table, texts: seq<string>,
                      previous: K.Table, olds: seq<string>)
    requires var kept := Parse(Unmanaged(existing, false));
      && kept.Some? && FreeFrom(kept.value, FIRST_INDEX)
      && var table := ApplyFile(base, kept.value);
      table.Some? && |table.value| < K.BINDING_MAX && Strokes(table.value) <= Strokes(previous)
    requires K.Unique(base) && MadeFrom(previous, olds) && MadeFrom(bindings, texts)
    requires AllKnown(bindings) && K.Unique(bindings) && |bindings| <= K.BINDING_MAX
    ensures Load(base, Render(existing, bindings, previous))
         == if Savable(texts) && Savable(olds) && WritableNames(bindings) && WritableNames(previous)
            then Some(Saved(bindings)) else None
  {
    hide Unmanaged, ParseText, FreeFrom, Render, ApplyFile, Ops, Strokes, MadeFrom, AllKnown, K.Unique,
      AllStable, MadeOps, Saved, ParseKey, ControlMetaChar, Writable;
    if Savable(texts) && Savable(olds) && WritableNames(bindings) && WritableNames(previous) {
      MadeStable(bindings, texts);
      MadeStable(previous, olds);
      ManagedRoundTrip(existing, base, bindings, previous);
    } else {
      SaveMakesOps(bindings, texts, previous, olds);
      var i, text := SomeCulprit(bindings, texts, previous, olds);
      NothingLoads(existing, base, bindings, previous, i, text);
    }
  }

  lemma SomeCulprit(bindings: K.Table, texts: seq<string>, previous: K.Table, olds: seq<string>) returns (i: nat, text: string)
    requires MadeFrom(previous, olds) && MadeFrom(bindings, texts) && AllKnown(bindings)
    requires !(Savable(texts) && Savable(olds) && WritableNames(bindings) && WritableNames(previous))
    ensures var ops := Ops(bindings, previous);
      && i < |ops| && ParseKey(text).Some? && ParseKey(text).value.name == ops[i].0
      && (!Writable(ops[i].0) || ControlMetaChar(text))
  {
    hide Ops, K.Known, ParseKey, ControlMetaChar, Writable;
    OpsAt(bindings, texts, previous, olds);
    if !(Savable(olds) && WritableNames(previous)) {
      i :| 0 <= i < |olds| && (ControlMetaChar(olds[i]) || !Writable(previous[i].name));
      text := olds[i];
    } else {
      var j :| 0 <= j < |texts| && (ControlMetaChar(texts[j]) || !Writable(bindings[j].name));
      i, text := |previous| + j, texts[j];
    }
  }

  // ---------------------------------------------------------------------------
  // Two keys
  // ---------------------------------------------------------------------------

  lemma StripControlMetaX()
    ensures Strip("M-C-x") == Stripped(Modifiers(false, true, true), "x")
  {
    hide Strip;
    Letters();
    StripPrefix('M', "C-x", Modifier("M"));
    StripPrefix('C', "x", Modifier("C"));
    OneCharAtomic('x');
    assert ['M', '-'] + "C-x" == "M-C-x" && ['C', '-'] + "x" == "C-x";
  }

  lemma NoWord()
    ensures NamedKey("M-C-x").None? && SpecialKey("x").None? && ControlCode('x') == Some(24)
  {
    assert Lower("M-C-x")[1] == '-' && |Lower("x")| == 1;
  }

  lemma NoPrefixes()
    ensures !HasPrefix("M-C-x") && !StartsWith("M-C-x", "Control-") && !StartsWith("M-C-x", "control-")
    ensures !StartsWith("M-C-x", "Ctrl-") && !StartsWith("M-C-x", "ctrl-")
    ensures !StartsWith("M-C-x", "C-") && !StartsWith("M-C-x", "c-")
  {
    assert "M-C-x"[..2][0] == 'M' && "M-C-x"[..5][0] == 'M';
  }

  lemma ControlMetaX()
    ensures var k := ParseKey("M-C-x"); k.Some? && k.value.name == "C-M-x" && ControlMetaChar("M-C-x")
  {
    hide Strip, NamedKey, SpecialKey, ControlCode, StartsWith, HasPrefix, SequenceOf;
    StripControlMetaX();
    NoWord();
    NoPrefixes();
    assert ReadName("M-C-x") == Some(MetaChar(true, 'x', 24));
  }

  /** Binding M-C-x to quit and saving it, in an empty file over no configuration. */
  lemma ControlMetaExample()
    ensures ParseKey("M-C-x").Some? && ControlMetaChar("M-C-x") && K.Known("quit")
    ensures var b := K.Entry(ParseKey("M-C-x").value, "quit", false);
      var loaded := Parse(Render("", [b], []));
      loaded.Some? && ApplyFile([], loaded.value).None?
  {
    hide ParseKey, ControlMetaChar, Render, ApplyFile;
    ControlMetaX();
    var b := K.Entry(ParseKey("M-C-x").value, "quit", false);
    NormalisationStable("M-C-x");
    BindsHead([b]);
    assert [b][1..] == [] && Binds([]) == [] && Unbinds([]) == [];
    var binds := Binds([b]);
    assert binds == [binds[0]] + binds[1..] && Ops([b], []) == binds;
    assert Writable("C-M-x") && Printable("quit");
    assert Unmanaged("", false) == "" && Parse("") == Some([]);
    assert ToValues([]) == map[];
    var ops := Ops([b], []);
    assert ParseKey(ops[0].0).None?;
    LoadRefused("", [], [b], []);
  }

  lemma BlankKey()
    ensures ParseKey(" ") == Some(Key(false, [0x20], " ")) && !ControlMetaChar(" ") && !Writable(" ")
  {
    hide SpecialKey, NamedKey, Lower, Strip;
    OneCharAtomic(' ');
    assert [' '] == " ";
    assert Strip(" ") == Stripped(NONE, " ");
    OneCharNotSpecial(" ");
    NotNamed();
    assert !HasPrefix(" ") && WithoutPrefix(" ") == " ";
    assert ReadName(" ") == Some(Char(' '));
    assert "" + [' '] == " " && ByteOf(' ') == 0x20 && SequenceOf(Char(' ')) == [0x20];
  }

  lemma NotNamed()
    ensures NamedKey(" ").None?
  {
    assert |Lower(" ")| == 1;
  }

  /** Binding the space bar to quit and saving it. */
  lemma BlankExample()
    ensures ParseKey(" ").Some? && Savable([" "])
    ensures var b := K.Entry(ParseKey(" ").value, "quit", false);
      Parse(Render("", [b], [])).Some? && Load([], Render("", [b], [])).None?
  {
    hide ParseKey, ControlMetaChar, Render, ApplyFile, Writable, MadeOps;
    BlankKey();
    var b := K.Entry(ParseKey(" ").value, "quit", false);
    BindsHead([b]);
    assert [b][1..] == [] && Binds([]) == [] && Unbinds([]) == [];
    var binds := Binds([b]);
    assert binds == [binds[0]] + binds[1..] && Ops([b], []) == binds;
    assert Unmanaged("", false) == "" && Parse("") == Some([]);
    assert ToValues([]) == map[];
    assert MadeFrom([b], [" "]) && MadeFrom([], []);
    SaveMakesOps([b], [" "], [], []);
    OneLineSave(Ops([b], []));
    ParseRendered("", [b], []);
    NothingLoads("", [], [b], [], 0, " ");
  }
}
