/**
  The user's file around the managed block (src/common/config.c,
  render_desk_managed_config): what a save keeps of it, as text and in meaning.
 */
module ManagedText {
  import opened Wrappers
  import opened ConfigText
  import opened ConfigFile
  import opened KeyName
  import opened ManagedKeys
  import opened SavedKeys
  import K = KeyTable

  // ---------------------------------------------------------------------------
  // Saving again replaces the block
  // ---------------------------------------------------------------------------

  function SkipAfter(text: string, skipping: bool): (s: bool)
    decreases |text|
  {
    if text == "" then skipping
    else
      SkipAfter(text[LineLength(text)..], Skips(text[..LineLength(text)], skipping))
  }

  function Skips(line: string, skipping: bool): (s: bool) {
    StartsWith(line, BEGIN_MARK) || (skipping && !StartsWith(line, END_MARK))
  }

  function KeptLine(line: string, skipping: bool): (s: string) {
    if skipping || StartsWith(line, BEGIN_MARK) then "" else line
  }

  /** One line in front. */
  lemma UnmanagedCons(line: string, rest: string, skipping: bool)
    requires line != "" && LineLength(line) == |line| && EndsLine(line)
    ensures Unmanaged(line + rest, skipping) == KeptLine(line, skipping) + Unmanaged(rest, Skips(line, skipping))
    ensures SkipAfter(line + rest, skipping) == SkipAfter(rest, Skips(line, skipping))
  {
    hide StartsWith, BEGIN_MARK, END_MARK, LineLength;
    LineLengthPrefix(line, rest);
    assert (line + rest)[..|line|] == line && (line + rest)[|line|..] == rest;
  }

  lemma FirstLineEnds(a: string)
    requires a != "" && EndsLine(a)
    ensures var line, rest := a[..LineLength(a)], a[LineLength(a)..];
      line != "" && LineLength(line) == |line| && EndsLine(line) && EndsLine(rest) && line + rest == a
  {
    FirstLineIsOne(a);
    LineLengthPrefix(a, "");
    assert a + "" == a;
  }

  lemma {:induction false} UnmanagedConcat(a: string, b: string, skipping: bool)
    requires EndsLine(a)
    ensures Unmanaged(a + b, skipping) == Unmanaged(a, skipping) + Unmanaged(b, SkipAfter(a, skipping))
    ensures SkipAfter(a + b, skipping) == SkipAfter(b, SkipAfter(a, skipping))
    decreases |a|
  {
    hide Unmanaged, SkipAfter, Skips, KeptLine, EndsLine, LineLength;
    if a == "" {
      assert a + b == b && "" + Unmanaged(b, skipping) == Unmanaged(b, skipping);
      UnmanagedNothing(skipping);
    } else {
      var line, rest := a[..LineLength(a)], a[LineLength(a)..];
      FirstLineEnds(a);
      UnmanagedCons(line, rest, skipping);
      UnmanagedCons(line, rest + b, skipping);
      UnmanagedConcat(rest, b, Skips(line, skipping));
      assert line + (rest + b) == a + b;
      var kept, tail, last := KeptLine(line, skipping), Unmanaged(rest, Skips(line, skipping)), Unmanaged(b, SkipAfter(a, skipping));
      assert kept + (tail + last) == (kept + tail) + last;
    }
  }

  lemma UnmanagedNothing(skipping: bool)
    ensures Unmanaged("", skipping) == "" && SkipAfter("", skipping) == skipping
  {
  }

  /** No line opens a block. */
  predicate NoMarks(text: string)
    decreases |text|
  {
    text == "" || (!StartsWith(text[..LineLength(text)], BEGIN_MARK) && NoMarks(text[LineLength(text)..]))
  }

  lemma {:induction false} NoMarksKept(text: string)
    requires NoMarks(text)
    ensures Unmanaged(text, false) == text && !SkipAfter(text, false)
    decreases |text|
  {
    hide StartsWith, BEGIN_MARK, END_MARK, LineLength;
    if text != "" {
      NoMarksKept(text[LineLength(text)..]);
    }
  }

  lemma {:induction false} KeptHasNoMarks(text: string, skipping: bool)
    ensures NoMarks(Unmanaged(text, skipping))
    decreases |text|
  {
    if text != "" {
      hide StartsWith, BEGIN_MARK, END_MARK;
      var n := LineLength(text);
      var line := text[..n];
      if StartsWith(line, BEGIN_MARK) {
        KeptHasNoMarks(text[n..], true);
      } else if skipping {
        KeptHasNoMarks(text[n..], !StartsWith(line, END_MARK));
      } else {
        KeptHasNoMarks(text[n..], false);
        FirstLineIsOne(text);
        NoMarksCons(line, Unmanaged(text[n..], false));
      }
    }
  }

  lemma NoMarksCons(line: string, rest: string)
    requires line != "" && LineLength(line) == |line| && (EndsLine(line) || rest == "") && NoMarks(rest)
    ensures !StartsWith(line, BEGIN_MARK) ==> NoMarks(line + rest)
  {
    hide StartsWith;
    if EndsLine(line) {
      LineLengthPrefix(line, rest);
    } else {
      assert line + rest == line;
    }
    assert (line + rest)[..|line|] == line && (line + rest)[|line|..] == rest;
  }

  /** A newline at the end makes no marker. */
  lemma {:induction false} NoMarksEnded(text: string)
    requires NoMarks(text)
    ensures NoMarks(text + "\n")
    decreases |text|
  {
    hide StartsWith, BEGIN_MARK;
    if Find(text, '\n') == |text| {
      LastLineEnded(text);
    } else {
      var n := LineLength(text);
      var line, rest := text[..n], text[n..];
      FirstLineIsOne(text);
      assert line[n - 1] == '\n';
      NoMarksEnded(rest);
      NoMarksCons(line, rest + "\n");
      assert line + (rest + "\n") == text + "\n";
    }
  }

  /** Ending an unfinished line does not make it a marker. */
  lemma LastLineEnded(text: string)
    requires NoMarks(text) && Find(text, '\n') == |text|
    ensures NoMarks(text + "\n")
  {
    hide StartsWith, BEGIN_MARK;
    var line := text + "\n";
    assert line[|text|] == '\n' && forall j | 0 <= j < |text| :: line[j] == text[j];
    LineIsOne(line);
    assert text[..|text|] == text;
    NewlineNoMarks();
    if text != "" {
      NotMarkEnded(text);
      NoMarksCons(line, "");
      assert line + "" == line;
    } else {
      assert line == "\n";
    }
  }

  lemma NewlineNoMarks()
    ensures NoMarks("\n") && NoMarks("")
  {
    LineIsOne("\n");
    assert "\n"[..1] == "\n" && "\n"[1..] == "";
  }

  lemma NotMarkEnded(text: string)
    requires !StartsWith(text, BEGIN_MARK) && '\n' !in text
    ensures !StartsWith(text + "\n", BEGIN_MARK)
  {
    MarksTight();
    hide BEGIN_MARK;
    var m := |BEGIN_MARK|;
    if m <= |text| {
      assert (text + "\n")[..m] == text[..m];
    } else if m == |text| + 1 {
      assert (text + "\n")[..m][|text|] == '\n';
    }
  }

  /** A line while skipping, and the marks themselves. */
  lemma SkipOne(line: string, skipping: bool)
    requires line != "" && LineLength(line) == |line|
    ensures SkipAfter(line, skipping) == (StartsWith(line, BEGIN_MARK) || (skipping && !StartsWith(line, END_MARK)))
    ensures skipping || StartsWith(line, BEGIN_MARK) ==> Unmanaged(line, skipping) == ""
  {
    hide StartsWith;
    assert line[..|line|] == line && line[|line|..] == "";
  }

  /** No line but perhaps the first begins like a marker. */
  predicate Quiet(s: string) {
    forall i | 0 < i < |s| :: s[i - 1] == '\n' ==> s[i] != '#'
  }

  predicate HashFree(text: string) {
    Quiet(text) && (text != "" ==> text[0] != '#')
  }

  predicate QuietOps(ops: seq<(string, string)>) {
    forall i | 0 <= i < |ops| :: Quiet(ops[i].0) && Quiet(ops[i].1)
  }

  lemma {:induction false} HashFreeSkipped(text: string)
    requires HashFree(text)
    ensures Unmanaged(text, true) == "" && SkipAfter(text, true)
    decreases |text|
  {
    hide StartsWith, LineLength, BEGIN_MARK, END_MARK;
    if text != "" {
      var n := LineLength(text);
      FirstLineIsOne(text);
      assert text[..n][0] == text[0];
      NotMarks(text[..n]);
      assert n < |text| ==> text[n - 1] == '\n';
      assert forall i | 0 <= i < |text[n..]| :: text[n..][i] == text[n + i];
      HashFreeSkipped(text[n..]);
    }
  }

  lemma {:induction false} BindLinesSkipped(index: nat, ops: seq<(string, string)>)
    requires QuietOps(ops)
    ensures EndsLine(BindLines(index, ops))
    ensures Unmanaged(BindLines(index, ops), true) == "" && SkipAfter(BindLines(index, ops), true)
    decreases ops
  {
    hide StartsWith, BindLine, Quiet;
    if ops != [] {
      var line := BindLine(index, ops[0].0, ops[0].1);
      BindLineSkipped(index, ops[0].0, ops[0].1);
      BindLinesSkipped(index + 1, ops[1..]);
      var rest := BindLines(index + 1, ops[1..]);
      UnmanagedConcat(line, rest, true);
      EndsConcat(line, rest);
    }
  }

  lemma BindLineSkipped(index: nat, name: string, command: string)
    requires Quiet(name) && Quiet(command)
    ensures var line := BindLine(index, name, command);
      EndsLine(line) && Unmanaged(line, true) == "" && SkipAfter(line, true)
  {
    hide Unmanaged, SkipAfter, StartsWith;
    BindKeyPlain(index);
    BindLineHashFree(BindKey(index), name, command);
    HashFreeSkipped(BindLine(index, name, command));
  }

  lemma BindLineHashFree(key: string, name: string, command: string)
    requires PlainKey(key) && Quiet(name) && Quiet(command)
    ensures HashFree(key + "=" + (name + " " + command) + "\n")
  {
    var line := key + "=" + (name + " " + command) + "\n";
    var a, b := |key| + 1, |key| + 2 + |name|;
    assert line[0] == key[0] && forall i | 0 <= i < |key| :: line[i] == key[i] && key[i] in key;
    forall i | a <= i < |line| && line[i - 1] == '\n' ensures line[i] != '#' {
      if i < b {
        assert line[i - 1] == if i == a then '=' else name[i - 1 - a];
        assert line[i] == if i == b - 1 then ' ' else name[i - a];
      } else {
        assert line[i - 1] == if i == b then ' ' else command[i - 1 - b];
        assert line[i] == if i == |line| - 1 then '\n' else command[i - b];
      }
    }
  }

  lemma NotMarks(line: string)
    requires line != "" && line[0] != '#'
    ensures !StartsWith(line, BEGIN_MARK) && !StartsWith(line, END_MARK)
  {
    MarksTight();
    hide BEGIN_MARK, END_MARK;
    if |BEGIN_MARK| <= |line| { assert line[..|BEGIN_MARK|][0] == line[0]; }
    if |END_MARK| <= |line| { assert line[..|END_MARK|][0] == line[0]; }
  }

  /** A whole block is skipped, and only it. */
  lemma BlockSkipped(ops: seq<(string, string)>)
    requires QuietOps(ops)
    ensures Unmanaged(Block(ops), false) == "" && !SkipAfter(Block(ops), false)
  {
    hide Unmanaged, SkipAfter, StartsWith, BindLines, EndsLine, LineLength, QuietOps;
    var begin, header, lines, end := BEGIN_MARK + "\n", "[" + GROUP + "]\n", BindLines(FIRST_INDEX, ops), END_MARK + "\n";
    MarkLines();
    BindLinesSkipped(FIRST_INDEX, ops);
    assert Block(ops) == begin + (header + (lines + end));
    UnmanagedConcat(begin, header + (lines + end), false);
    UnmanagedConcat(header, lines + end, true);
    UnmanagedConcat(lines, end, true);
  }

  lemma MarkLines()
    ensures var begin, header, end := BEGIN_MARK + "\n", "[" + GROUP + "]\n", END_MARK + "\n";
      && EndsLine(begin) && Unmanaged(begin, false) == "" && SkipAfter(begin, false)
      && EndsLine(header) && Unmanaged(header, true) == "" && SkipAfter(header, true)
      && EndsLine(end) && Unmanaged(end, true) == "" && !SkipAfter(end, true)
  {
    hide Unmanaged, SkipAfter, LineLength;
    var begin, header, end := BEGIN_MARK + "\n", "[" + GROUP + "]\n", END_MARK + "\n";
    MarksTight();
    LineIsOne(begin);
    LineIsOne(header);
    LineIsOne(end);
    assert begin[..|BEGIN_MARK|] == BEGIN_MARK;
    NotMarks(header);
    hide StartsWith;
    SkipOne(begin, false);
    SkipOne(header, true);
    SkipOne(end, true);
  }

  /** Saving replaces the block it finds: the unmanaged text of the result is the
      unmanaged text there was, ended and followed by one blank line. */
  lemma UnmanagedPreserved(existing: string, bindings: K.Table, previous: K.Table)
    requires QuietOps(Ops(bindings, previous))
    ensures Unmanaged(Render(existing, bindings, previous), false) == Base(Unmanaged(existing, false))
  {
    hide Unmanaged, SkipAfter, Block, NoMarks;
    var kept := Unmanaged(existing, false);
    KeptHasNoMarks(existing, false);
    BaseNoMarks(kept);
    NoMarksKept(Base(kept));
    UnmanagedConcat(Base(kept), Block(Ops(bindings, previous)), false);
    BlockSkipped(Ops(bindings, previous));
  }

  /** Accepted key names and known commands are quiet. */
  lemma AcceptedQuiet(text: string)
    requires ParseKey(text).Some?
    ensures Quiet(ParseKey(text).value.name)
  {
    hide NamedKey, SpecialKey, SequenceOf, ReadName, Strip, ControlCode;
    var name := WithoutPrefix(text);
    ReadNameProper(name);
    var f := ReadName(name).value;
    QuietForm(f);
    var full := ParseKey(text).value.name;
    if HasPrefix(text) {
      assert full == "Prefix-" + NameOf(f);
      assert forall i | 0 <= i < 7 :: full[i] == "Prefix-"[i];
      assert forall i | 7 <= i < |full| :: full[i] == NameOf(f)[i - 7];
    } else {
      assert full == NameOf(f);
    }
  }

  /** A line break can only be a name's last character. */
  lemma QuietForm(f: Form)
    requires Proper(f)
    ensures var s := NameOf(f); forall i | 0 <= i < |s| - 1 :: s[i] != '\n'
  {
    hide ControlCode;
    match f
    case Named(_, name) => NamedOneLine(name);
    case Chord(_, _, base) => SpecialOneLine(base);
    case Bare(_, base) => SpecialOneLine(base);
    case _ =>
  }

  lemma NamedOneLine(name: string)
    requires NamedKey(name).Some?
    ensures '\n' !in name
  {
    var t := Lower(name);
    assert forall i | 0 <= i < |name| :: t[i] != '\n' ==> name[i] != '\n';
  }

  lemma SpecialOneLine(base: string)
    requires SpecialKey(base).Some?
    ensures '\n' !in base
  {
    var t := Lower(base);
    assert forall i | 0 <= i < |base| :: t[i] != '\n' ==> base[i] != '\n';
  }

  /** So saving keeps the rest of the file whatever accepted keys are saved. */
  lemma SavingKeepsRest(existing: string, bindings: K.Table, texts: seq<string>, previous: K.Table, olds: seq<string>)
    requires MadeFrom(bindings, texts) && AllKnown(bindings) && MadeFrom(previous, olds)
    ensures Unmanaged(Render(existing, bindings, previous), false) == Base(Unmanaged(existing, false))
  {
    hide Unmanaged, Render, ParseKey, Base, Quiet, K.Known;
    QuietBinds(bindings, texts);
    QuietUnbinds(previous, olds);
    UnmanagedPreserved(existing, bindings, previous);
  }

  lemma {:induction false} QuietBinds(bindings: K.Table, texts: seq<string>)
    requires MadeFrom(bindings, texts) && AllKnown(bindings)
    ensures QuietOps(Binds(bindings))
    decreases bindings
  {
    hide ParseKey, Quiet, K.Known;
    if bindings != [] {
      AcceptedQuiet(texts[0]);
      KnownQuiet(bindings[0].command);
      QuietBinds(bindings[1..], texts[1..]);
    }
  }

  lemma {:induction false} QuietUnbinds(previous: K.Table, olds: seq<string>)
    requires MadeFrom(previous, olds)
    ensures QuietOps(Unbinds(previous))
    decreases previous
  {
    hide ParseKey, Quiet;
    if previous != [] {
      AcceptedQuiet(olds[0]);
      NonePrintable();
      PrintableQuiet("none");
      QuietUnbinds(previous[1..], olds[1..]);
    }
  }

  lemma PrintableQuiet(s: string)
    requires Printable(s)
    ensures Quiet(s)
  {
    assert Space('\n', true);
  }

  lemma KnownQuiet(command: string)
    requires K.Known(command)
    ensures Quiet(command)
  {
    hide K.Known;
    KnownPrintable(command);
    PrintableQuiet(command);
  }

  lemma BaseNoMarks(kept: string)
    requires NoMarks(kept)
    ensures NoMarks(Base(kept)) && EndsLine(Base(kept))
  {
    hide NoMarks;
    if kept == "" {
      assert Base(kept) == kept;
    } else {
      NoMarksEnded(kept);
      NoMarksEnded(Ended(kept));
    }
  }

  // ---------------------------------------------------------------------------
  // What the kept lines mean
  // ---------------------------------------------------------------------------

  function SectionAfter(group: string, line: string): (g: string) {
    if Classify(line).Header? then Classify(line).name else group
  }

  function EntryAt(group: string, line: string): (items: seq<Item>) {
    if Classify(line).Entry? then [Item(group, Classify(line).key, Classify(line).value)] else []
  }

  /** The entries of a text, line by line, each in its section. */
  function EntriesOf(group: string, text: string): (items: seq<Item>)
    decreases |text|
  {
    if text == "" then []
    else
      var line := text[..LineLength(text)];
      EntryAt(group, line) + EntriesOf(SectionAfter(group, line), text[LineLength(text)..])
  }

  predicate Keeps(line: string, skipping: bool) {
    !skipping && !StartsWith(line, BEGIN_MARK)
  }

  /** The entries outside the blocks, each in the section it has in the whole file. */
  function KeptEntries(group: string, text: string, skipping: bool): (items: seq<Item>)
    decreases |text|
  {
    if text == "" then []
    else
      var line := text[..LineLength(text)];
      (if Keeps(line, skipping) then EntryAt(group, line) else [])
      + KeptEntries(SectionAfter(group, line), text[LineLength(text)..], Skips(line, skipping))
  }

  /** At every kept entry, the section with the blocks and the one without agree. */
  predicate SectionsAgree(with: string, without: string, text: string, skipping: bool)
    decreases |text|
  {
    text == "" ||
    var line := text[..LineLength(text)];
    var keeps := Keeps(line, skipping);
    && (keeps && Classify(line).Entry? ==> with == without)
    && SectionsAgree(SectionAfter(with, line), if keeps then SectionAfter(without, line) else without,
                     text[LineLength(text)..], Skips(line, skipping))
  }

  lemma EntriesCons(group: string, line: string, rest: string)
    requires line != "" && LineLength(line) == |line| && (EndsLine(line) || rest == "")
    ensures EntriesOf(group, line + rest) == EntryAt(group, line) + EntriesOf(SectionAfter(group, line), rest)
  {
    hide Classify, LineLength;
    FirstOf(line, rest);
  }

  lemma FirstOf(line: string, rest: string)
    requires line != "" && LineLength(line) == |line| && (EndsLine(line) || rest == "")
    ensures LineLength(line + rest) == |line| && (line + rest)[..|line|] == line && (line + rest)[|line|..] == rest
  {
    hide LineLength;
    if EndsLine(line) {
      LineLengthPrefix(line, rest);
    } else {
      assert line + rest == line;
    }
  }

  lemma ParseFirst(p: Parsed, line: string, rest: string)
    requires line != "" && LineLength(line) == |line| && (EndsLine(line) || rest == "")
    ensures ParseText(p, line + rest)
         == if ParseLine(p, line).None? then None else ParseText(ParseLine(p, line).value, rest)
  {
    hide Classify, LineLength, Add;
    FirstOf(line, rest);
  }

  /** The kept text is its first kept line and the rest of it. */
  lemma UnmanagedFirst(text: string, skipping: bool)
    requires text != ""
    ensures var line, rest := text[..LineLength(text)], text[LineLength(text)..];
      var kept := Unmanaged(rest, Skips(line, skipping));
      && Unmanaged(text, skipping) == (if Keeps(line, skipping) then line + kept else kept)
      && line != "" && LineLength(line) == |line| && (EndsLine(line) || kept == "")
  {
    hide StartsWith, BEGIN_MARK, END_MARK, LineLength;
    FirstLineIsOne(text);
    UnmanagedNothing(Skips(text[..LineLength(text)], skipping));
  }

  /** Both readings of the kept entries are one if and only if the sections agree. */
  lemma {:induction false} KeptEntriesAgree(with: string, without: string, text: string, skipping: bool)
    ensures SectionsAgree(with, without, text, skipping)
            <==> EntriesOf(without, Unmanaged(text, skipping)) == KeptEntries(with, text, skipping)
    decreases |text|
  {
    hide Classify, LineLength, Unmanaged, Keeps, Skips, SectionAfter;
    if text == "" {
      UnmanagedNothing(skipping);
    } else {
      var n := LineLength(text);
      var line, rest := text[..n], text[n..];
      var kept := Unmanaged(rest, Skips(line, skipping));
      UnmanagedFirst(text, skipping);
      if Keeps(line, skipping) {
        EntriesCons(without, line, kept);
        KeptEntriesAgree(SectionAfter(with, line), SectionAfter(without, line), rest, Skips(line, skipping));
        FirstEntry(with, without, line, EntriesOf(SectionAfter(without, line), kept),
                   KeptEntries(SectionAfter(with, line), rest, Skips(line, skipping)));
      } else {
        KeptEntriesAgree(SectionAfter(with, line), without, rest, Skips(line, skipping));
      }
    }
  }

  lemma FirstEntry(with: string, without: string, line: string, a: seq<Item>, b: seq<Item>)
    ensures EntryAt(without, line) + a == EntryAt(with, line) + b
            <==> a == b && (Classify(line).Entry? ==> with == without)
  {
    hide Classify;
    var x, y := EntryAt(without, line), EntryAt(with, line);
    assert |x| == |y|;
    if x + a == y + b {
      assert x == (x + a)[..|x|] == y && a == (x + a)[|x|..] == b;
    }
  }

  /** Then the kept text parses on its own. */
  lemma {:induction false} KeptParses(p: Parsed, q: Parsed, text: string, skipping: bool)
    requires ParseText(p, text).Some? && SectionsAgree(p.group, q.group, text, skipping)
    ensures ParseText(q, Unmanaged(text, skipping)).Some?
    decreases |text|
  {
    hide Classify, LineLength, Unmanaged, Keeps, Skips, Add;
    if text == "" {
      UnmanagedNothing(skipping);
    } else {
      var n := LineLength(text);
      var line, rest := text[..n], text[n..];
      UnmanagedFirst(text, skipping);
      var p' := ParseLine(p, line).value;
      if Keeps(line, skipping) {
        ParseFirst(q, line, Unmanaged(rest, Skips(line, skipping)));
        KeptParses(p', ParseLine(q, line).value, rest, Skips(line, skipping));
      } else {
        KeptParses(p', q, rest, Skips(line, skipping));
      }
    }
  }

  /** The values that entries leave, the last one of a key winning. */
  function Folded(m: Values, items: seq<Item>): (r: Values)
    decreases items
  {
    if items == [] then m else Folded(m[(items[0].group, items[0].key) := items[0].value], items[1..])
  }

  lemma {:induction false} ParseFolds(p: Parsed, text: string)
    requires ParseText(p, text).Some?
    ensures ToValues(ParseText(p, text).value.items) == Folded(ToValues(p.items), EntriesOf(p.group, text))
    decreases |text|
  {
    hide Classify, LineLength, Add, ToValues;
    if text != "" {
      var n := LineLength(text);
      var line, rest := text[..n], text[n..];
      var entries := EntriesOf(SectionAfter(p.group, line), rest);
      if Classify(line).Entry? {
        AddUpdates(p.items, p.group, Classify(line).key, Classify(line).value);
        assert (EntryAt(p.group, line) + entries)[1..] == entries;
      } else {
        assert EntryAt(p.group, line) + entries == entries;
      }
      ParseFolds(ParseLine(p, line).value, rest);
    }
  }

  /**
    What a save keeps of a file's meaning: the kept text parses, and every kept
    entry has in it the section it had in the whole file, if and only if the
    section with the blocks and the section without them agree at each of them.
   */
  lemma KeptMeansSame(existing: string)
    requires Parse(existing).Some?
    ensures var kept := Unmanaged(existing, false);
      && (SectionsAgree("", "", existing, false)
          <==> Parse(kept).Some? && EntriesOf("", kept) == KeptEntries("", existing, false))
      && (SectionsAgree("", "", existing, false) ==>
          ToValues(Parse(kept).value) == Folded(map[], KeptEntries("", existing, false)))
  {
    hide ParseText, Unmanaged, SectionsAgree, EntriesOf, KeptEntries, ToValues;
    var kept := Unmanaged(existing, false);
    KeptEntriesAgree("", "", existing, false);
    if SectionsAgree("", "", existing, false) {
      KeptParses(START, START, existing, false);
      ParseFolds(START, kept);
      NoValues();
    }
  }

  lemma NoValues()
    ensures ToValues([]) == map[]
  {
  }

  /** So the saved file is the kept entries, meaning what they did, and the block's. */
  lemma SaveKeepsMeaning(existing: string, bindings: K.Table, previous: K.Table)
    requires Parse(existing).Some? && SectionsAgree("", "", existing, false) && OneLineOps(Ops(bindings, previous))
    requires forall n: nat | n >= FIRST_INDEX :: (GROUP, BindKey(n)) !in Folded(map[], KeptEntries("", existing, false))
    ensures var kept, saved := Parse(Unmanaged(existing, false)), Parse(Render(existing, bindings, previous));
      && kept.Some? && ToValues(kept.value) == Folded(map[], KeptEntries("", existing, false))
      && saved == Some(kept.value + BlockItems(FIRST_INDEX, Ops(bindings, previous)))
  {
    hide ParseText, Unmanaged, SectionsAgree, EntriesOf, KeptEntries, ToValues, Folded, Render, OneLineOps, BindKey;
    KeptMeansSame(existing);
    ParseRendered(existing, bindings, previous);
  }

  // ---------------------------------------------------------------------------
  // Files the program has written
  // ---------------------------------------------------------------------------

  lemma {:induction false} NothingKeptAgrees(with: string, without: string, text: string, skipping: bool)
    requires Unmanaged(text, skipping) == ""
    ensures SectionsAgree(with, without, text, skipping)
    decreases |text|
  {
    hide Classify, LineLength, Unmanaged, Keeps, Skips, SectionAfter;
    if text != "" {
      var n := LineLength(text);
      var line, rest := text[..n], text[n..];
      UnmanagedFirst(text, skipping);
      NothingKeptAgrees(SectionAfter(with, line), without, rest, Skips(line, skipping));
    }
  }

  lemma {:induction false} PrefixAgrees(group: string, a: string, b: string)
    requires NoMarks(a) && EndsLine(a) && Unmanaged(b, false) == ""
    ensures SectionsAgree(group, group, a + b, false)
    decreases |a|
  {
    hide Classify, LineLength, Unmanaged, SectionAfter, StartsWith, BEGIN_MARK, END_MARK;
    if a == "" {
      assert a + b == b;
      NothingKeptAgrees(group, group, b, false);
    } else {
      var n := LineLength(a);
      LineLengthPrefix(a, b);
      assert (a + b)[..n] == a[..n] && (a + b)[n..] == a[n..] + b;
      PrefixAgrees(SectionAfter(group, a[..n]), a[n..], b);
    }
  }

  /** In a file the program saved the block is last, and saving again is safe. */
  lemma OwnFilesAgree(existing: string, bindings: K.Table, previous: K.Table)
    requires QuietOps(Ops(bindings, previous))
    ensures SectionsAgree("", "", Render(existing, bindings, previous), false)
  {
    hide Unmanaged, NoMarks, Block, SectionsAgree, EndsLine, Ops;
    var kept := Unmanaged(existing, false);
    KeptHasNoMarks(existing, false);
    BaseNoMarks(kept);
    BlockSkipped(Ops(bindings, previous));
    PrefixAgrees("", Base(kept), Block(Ops(bindings, previous)));
  }

  // ---------------------------------------------------------------------------
  // A line behind the block
  // ---------------------------------------------------------------------------

  lemma F1Line()
    ensures var line := BindLine(1, "F1", "quit");
      && line != "" && EndsLine(line) && LineLength(line) == |line|
      && Classify(line) == Entry(BindKey(1), "F1 quit")
      && Unmanaged(line, false) == line
  {
    hide Classify, LineLength, Unmanaged, BindKey, BEGIN_MARK, END_MARK, StartsWith;
    var line := BindLine(1, "F1", "quit");
    BindKeyPlain(1);
    ClassifyAssign(BindKey(1), "F1 quit");
    assert "F1" + " " + "quit" == "F1 quit";
    assert line == BindKey(1) + "=" + "F1 quit" + "\n";
    LineIsOne(line);
    StartsWithB(1);
    NotMarks(line);
    UnmanagedFirst(line, false);
    assert line[..|line|] == line && line[|line|..] == "";
    UnmanagedNothing(Skips(line, false));
    assert line + "" == line;
  }

  lemma StartsWithB(n: nat)
    ensures BindKey(n) != "" && BindKey(n)[0] == 'b'
  {
  }

  /** A binding added behind an empty block is read under the block's section; after
      the next save it is in none, and the file does not parse. */
  lemma StrayLineExample(bindings: K.Table, previous: K.Table)
    ensures var text := Block([]) + BindLine(1, "F1", "quit");
      && Parse(text) == Some([Item(GROUP, BindKey(1), "F1 quit")])
      && !SectionsAgree("", "", text, false)
      && Parse(Render(text, bindings, previous)).None?
  {
    hide ParseText, Unmanaged, SectionsAgree, Block, BindLine, LineLength, Classify, BindKey, EndsLine;
    var line := BindLine(1, "F1", "quit");
    var text := Block([]) + line;
    F1Line();
    BlockEnds();
    NoValues();
    ParseBlock(START, []);
    assert START.items + BlockItems(FIRST_INDEX, []) == [] && GROUP != "";
    ParseConcat(START, Block([]), line);
    ParseOne(Parsed(GROUP, []), line);
    assert Add([], GROUP, BindKey(1), "F1 quit") == [Item(GROUP, BindKey(1), "F1 quit")];
    BlockSkipped([]);
    UnmanagedConcat(Block([]), line, false);
    assert Unmanaged(text, false) == line;
    ParseOne(START, line);
    ParseConcat(START, line, "\n");
    assert Base(line) == line + "\n" && EndsLine(Base(line)) by { EndsByNewline(line + "\n"); }
    ParseConcat(START, Base(line), Block(Ops(bindings, previous)));
    if SectionsAgree("", "", text, false) {
      KeptMeansSame(text);
    }
  }

  lemma BlockEnds()
    ensures EndsLine(Block([])) && BlockItems(FIRST_INDEX, []) == []
  {
    var b := Block([]);
    assert b[|b| - 1] == '\n';
  }
}
