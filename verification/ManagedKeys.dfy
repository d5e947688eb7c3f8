/**
  Bindings the desk saves for the user (src/common/config.c,
  render_desk_managed_config): a marked block at the end of the user's file that
  first unbinds what was bound before and then binds what is wanted, and the way
  a file's bindings are applied to the table (apply_config_file).
 */
module ManagedKeys {
  import opened Wrappers
  import T = Text
  import opened ConfigText
  import opened ConfigFile
  import opened KeyName
  import K = KeyTable

  const GROUP := "desk.keys"
  const FIRST_INDEX: nat := 9000
  const VALUE_MAX: nat := 160

  // ---------------------------------------------------------------------------
  // Applying a file
  // ---------------------------------------------------------------------------

  predicate Gap(c: char) {
    c == ' ' || c == '\t'
  }

  function Gaps(s: string): (n: nat)
    ensures n <= |s| && (n < |s| ==> !Gap(s[n]))
  {
    if s == "" || !Gap(s[0]) then 0 else 1 + Gaps(s[1..])
  }

  function NonGaps(s: string): (n: nat)
    ensures n <= |s| && (n < |s| ==> Gap(s[n])) && forall j | 0 <= j < n :: !Gap(s[j])
  {
    if s == "" || Gap(s[0]) then 0 else 1 + NonGaps(s[1..])
  }

  /** parse_desk_binding_value: KEY COMMAND. */
  function SplitBinding(value: string): (r: Option<(string, string)>) {
    var s := value[Gaps(value)..];
    var n := NonGaps(s);
    if n == |s| then None
    else
      var rest := s[n + 1..];
      var command := TrimRight(rest[Gaps(rest)..], false);
      if n == 0 || command == "" then None else Some((s[..n], command))
  }

  /** One bind.* value. */
  function ApplyValue(table: K.Table, value: string): (r: Option<K.Table>) {
    if value == "" || |value| >= VALUE_MAX then None
    else
      var b := SplitBinding(value);
      if b.None? then None
      else
        var o := K.Bind(table, b.value.0, b.value.1, false);
        if o.Done? then Some(o.table) else None
  }

  predicate AllGaps(s: string) {
    forall i | 0 <= i < |s| :: Gap(s[i])
  }

  predicate Solid(s: string) {
    forall i | 0 <= i < |s| :: !Gap(s[i])
  }

  lemma {:induction false} GapsOf(a: string, rest: string)
    requires AllGaps(a) && (rest != "" ==> !Gap(rest[0]))
    ensures Gaps(a + rest) == |a|
  {
    if a == "" {
      assert a + rest == rest;
    } else {
      assert (a + rest)[1..] == a[1..] + rest;
      GapsOf(a[1..], rest);
    }
  }

  lemma {:induction false} NonGapsOf(key: string, rest: string)
    requires Solid(key) && (rest != "" ==> Gap(rest[0]))
    ensures NonGaps(key + rest) == |key|
  {
    if key == "" {
      assert key + rest == rest;
    } else {
      assert (key + rest)[1..] == key[1..] + rest;
      NonGapsOf(key[1..], rest);
    }
  }

  /** A key, and behind at least one gap its command, blanks around them or not. */
  lemma BindingRead(a: string, key: string, b: string, command: string, c: string)
    requires AllGaps(a) && Solid(key) && key != "" && AllGaps(b) && b != "" && AllSpace(c, false)
    requires command != "" && Tight(command, false)
    ensures SplitBinding(a + (key + (b + (command + c)))) == Some((key, command))
  {
    var value, tail := a + (key + (b + (command + c))), command + c;
    var s := key + (b + tail);
    GapsOf(a, s);
    assert value[|a|..] == s;
    NonGapsOf(key, b + tail);
    var rest := b[1..] + tail;
    assert s[..|key|] == key && s[|key| + 1..] == rest;
    GapsOf(b[1..], tail);
    assert rest[|b[1..]|..] == tail;
    TrimRightSpaces(command, c, false);
  }

  /** Without a command there is no binding, and without a key neither. */
  lemma BindingRefused(a: string, key: string, c: string)
    requires AllGaps(a) && Solid(key) && AllSpace(c, false) && (c != "" ==> key != "" && Gap(c[0]))
    ensures SplitBinding(a + (key + c)).None?
  {
    var s := key + c;
    GapsOf(a, s);
    assert (a + s)[|a|..] == s;
    NonGapsOf(key, c);
    if c != "" {
      var rest := s[|key| + 1..];
      assert rest == c[1..];
      var left := rest[Gaps(rest)..];
      assert AllSpace(left, false) && "" + left == left;
      TrimRightSpaces("", left, false);
    }
  }

  /** A value of up to 159 characters is the binding it says; a longer one is refused. */
  lemma ValueApplied(table: K.Table, value: string)
    ensures ApplyValue(table, value) ==
      if |value| <= 159 && SplitBinding(value).Some?
         && K.Bind(table, SplitBinding(value).value.0, SplitBinding(value).value.1, false).Done?
      then Some(K.Bind(table, SplitBinding(value).value.0, SplitBinding(value).value.1, false).table) else None
  {
    hide K.Bind;
    if value == "" {
      BindingRefused("", "", "");
      assert value == "" + ("" + "");
    }
  }

  /** The loop of apply_config_file over the keys of the group. */
  function ApplyKeys(table: K.Table, values: Values, keys: seq<string>): (r: Option<K.Table>)
    decreases keys
  {
    if keys == [] then Some(table)
    else if !StartsWith(keys[0], "bind.") || (GROUP, keys[0]) !in values then ApplyKeys(table, values, keys[1..])
    else
      var t := ApplyValue(table, values[(GROUP, keys[0])]);
      if t.None? then None else ApplyKeys(t.value, values, keys[1..])
  }

  function ApplyFile(table: K.Table, items: seq<Item>): (r: Option<K.Table>) {
    ApplyKeys(table, ToValues(items), KeysOf(items, GROUP))
  }

  /** The same, entry by entry. */
  function ApplyItems(table: K.Table, items: seq<Item>): (r: Option<K.Table>)
    decreases items
  {
    if items == [] then Some(table)
    else if items[0].group != GROUP || !StartsWith(items[0].key, "bind.") then ApplyItems(table, items[1..])
    else
      var t := ApplyValue(table, items[0].value);
      if t.None? then None else ApplyItems(t.value, items[1..])
  }

  lemma {:induction false} KeysAreItems(table: K.Table, values: Values, items: seq<Item>)
    requires forall i | 0 <= i < |items| ::
      (items[i].group, items[i].key) in values && values[(items[i].group, items[i].key)] == items[i].value
    ensures ApplyKeys(table, values, KeysOf(items, GROUP)) == ApplyItems(table, items)
    decreases items
  {
    if items != [] {
      hide ApplyValue, StartsWith;
      var keys := KeysOf(items[1..], GROUP);
      if items[0].group == GROUP {
        assert KeysOf(items, GROUP) == [items[0].key] + keys;
        assert ([items[0].key] + keys)[1..] == keys;
        assert (items[0].group, items[0].key) in values;
        var t := ApplyValue(table, items[0].value);
        KeysAreItems(if StartsWith(items[0].key, "bind.") && t.Some? then t.value else table, values, items[1..]);
      } else {
        assert KeysOf(items, GROUP) == keys;
        KeysAreItems(table, values, items[1..]);
      }
    }
  }

  /** Looking the keys up again finds each entry's own value. */
  lemma ApplyFileIsItems(table: K.Table, items: seq<Item>)
    requires Distinct(items)
    ensures ApplyFile(table, items) == ApplyItems(table, items)
  {
    forall i | 0 <= i < |items|
      ensures (items[i].group, items[i].key) in ToValues(items)
      ensures ToValues(items)[(items[i].group, items[i].key)] == items[i].value
    {
      DistinctLookup(items, i);
    }
    KeysAreItems(table, ToValues(items), items);
  }

  lemma {:induction false} ApplyItemsConcat(table: K.Table, a: seq<Item>, b: seq<Item>)
    ensures ApplyItems(table, a + b)
            == if ApplyItems(table, a).None? then None else ApplyItems(ApplyItems(table, a).value, b)
    decreases a
  {
    if a == [] {
      assert a + b == b;
    } else {
      hide ApplyValue, StartsWith;
      assert (a + b)[1..] == a[1..] + b;
      var t := ApplyValue(table, a[0].value);
      ApplyItemsConcat(table, a[1..], b);
      if t.Some? {
        ApplyItemsConcat(t.value, a[1..], b);
      }
    }
  }

  // ---------------------------------------------------------------------------
  // Rendering
  // ---------------------------------------------------------------------------

  const BEGIN_MARK := "# cubicle-desk-managed-keys: begin"
  const END_MARK := "# cubicle-desk-managed-keys: end"

  /** The text outside managed blocks. */
  function Unmanaged(text: string, skipping: bool): (kept: string)
    decreases |text|
  {
    if text == "" then ""
    else
      var n := LineLength(text);
      var line := text[..n];
      if StartsWith(line, BEGIN_MARK) then Unmanaged(text[n..], true)
      else if skipping then Unmanaged(text[n..], !StartsWith(line, END_MARK))
      else line + Unmanaged(text[n..], false)
  }

  function DecimalText(n: nat): (s: string) {
    var d := T.Decimal(n);
    seq(|d|, i requires 0 <= i < |d| => d[i] as char)
  }

  function BindKey(index: nat): (key: string) {
    "bind." + DecimalText(index)
  }

  function BindLine(index: nat, name: string, command: string): (line: string) {
    BindKey(index) + "=" + (name + " " + command) + "\n"
  }

  function BindLines(index: nat, ops: seq<(string, string)>): (text: string)
    decreases ops
  {
    if ops == [] then "" else BindLine(index, ops[0].0, ops[0].1) + BindLines(index + 1, ops[1..])
  }

  /** The saved assignments: everything before goes, everything wanted comes. */
  function Ops(bindings: K.Table, previous: K.Table): (ops: seq<(string, string)>) {
    Unbinds(previous) + Binds(bindings)
  }

  function Unbinds(previous: K.Table): (ops: seq<(string, string)>) {
    if previous == [] then []
    else if previous[0].name == "" then Unbinds(previous[1..])
    else [(previous[0].name, "none")] + Unbinds(previous[1..])
  }

  function Binds(bindings: K.Table): (ops: seq<(string, string)>) {
    if bindings == [] then []
    else if bindings[0].name == "" || bindings[0].command == "" then Binds(bindings[1..])
    else [(bindings[0].name, bindings[0].command)] + Binds(bindings[1..])
  }

  function Base(kept: string): (text: string) {
    Ended(kept) + (if kept == "" then "" else "\n")
  }

  /** append_desk_managed_keys_block */
  function Block(ops: seq<(string, string)>): (text: string) {
    BEGIN_MARK + "\n" + ("[" + GROUP + "]\n") + BindLines(FIRST_INDEX, ops) + (END_MARK + "\n")
  }

  function Render(existing: string, bindings: K.Table, previous: K.Table): (text: string) {
    Base(Unmanaged(existing, false)) + Block(Ops(bindings, previous))
  }

  /** render_desk_managed_config */
  method RenderManagedConfig(existing: string, bindings: K.Table, previous: K.Table) returns (rendered: string)
    ensures rendered == Render(existing, bindings, previous)
  {
    hide StartsWith, LineLength, Block;
    var out, cursor, skipping := "", existing, false;
    while cursor != ""
      invariant Unmanaged(existing, false) == out + Unmanaged(cursor, skipping)
      decreases |cursor|
    {
      var n := LineLength(cursor);
      var line := cursor[..n];
      cursor := cursor[n..];
      if StartsWith(line, BEGIN_MARK) {
        skipping := true;
        continue;
      }
      if skipping {
        if StartsWith(line, END_MARK) {
          skipping := false;
        }
        continue;
      }
      out := out + line;
    }
    assert Unmanaged(existing, false) == out;
    if !EndsLine(out) {
      out := out + "\n";
    }
    if out != "" {
      out := out + "\n";
    }
    var block := AppendBlock(bindings, previous);
    rendered := out + block;
  }

  /** append_desk_managed_keys_block, as its two loops. */
  method AppendBlock(bindings: K.Table, previous: K.Table) returns (text: string)
    ensures text == Block(Ops(bindings, previous))
  {
    var gone, next := AppendUnbinds(previous);
    var wanted := AppendBinds(bindings, next);
    BindLinesConcat(FIRST_INDEX, Unbinds(previous), Binds(bindings));
    text := BEGIN_MARK + "\n" + ("[" + GROUP + "]\n") + (gone + wanted) + (END_MARK + "\n");
  }

  method AppendUnbinds(previous: K.Table) returns (lines: string, index: nat)
    ensures lines == BindLines(FIRST_INDEX, Unbinds(previous)) && index == FIRST_INDEX + |Unbinds(previous)|
  {
    hide BindLine;
    lines, index := "", FIRST_INDEX;
    var rest := previous;
    while rest != []
      invariant BindLines(FIRST_INDEX, Unbinds(previous)) == lines + BindLines(index, Unbinds(rest))
      invariant index + |Unbinds(rest)| == FIRST_INDEX + |Unbinds(previous)|
      decreases rest
    {
      var b := rest[0];
      rest := rest[1..];
      if b.name != "" {
        BindLinesStep(index, (b.name, "none"), Unbinds(rest));
        lines := lines + BindLine(index, b.name, "none");
        index := index + 1;
      }
    }
  }

  method AppendBinds(bindings: K.Table, first: nat) returns (lines: string)
    ensures lines == BindLines(first, Binds(bindings))
  {
    hide BindLine, BindLines;
    lines := "";
    var index, rest := first, bindings;
    while rest != []
      invariant BindLines(first, Binds(bindings)) == lines + BindLines(index, Binds(rest))
      decreases rest
    {
      var b := rest[0];
      rest := rest[1..];
      if b.name != "" && b.command != "" {
        BindLinesStep(index, (b.name, b.command), Binds(rest));
        lines := lines + BindLine(index, b.name, b.command);
        index := index + 1;
      }
    }
    NoBindLines(index);
  }

  lemma NoBindLines(index: nat)
    ensures BindLines(index, []) == ""
  {
  }

  lemma BindLinesStep(index: nat, op: (string, string), ops: seq<(string, string)>)
    ensures BindLines(index, [op] + ops) == BindLine(index, op.0, op.1) + BindLines(index + 1, ops)
  {
    assert ([op] + ops)[1..] == ops;
  }

  lemma {:induction false} BindLinesConcat(index: nat, a: seq<(string, string)>, b: seq<(string, string)>)
    ensures BindLines(index, a + b) == BindLines(index, a) + BindLines(index + |a|, b)
    decreases a
  {
    if a == [] {
      assert a + b == b;
    } else {
      hide BindLine;
      assert (a + b)[1..] == a[1..] + b;
      BindLinesConcat(index + 1, a[1..], b);
    }
  }

  // ---------------------------------------------------------------------------
  // Reading the block back
  // ---------------------------------------------------------------------------

  /** A name or command that survives being written on a line with others. */
  predicate Printable(s: string) {
    s != "" && forall i | 0 <= i < |s| :: !Space(s[i], true)
  }

  /** A name that survives it in front of a command: nothing that ends a word or a
      line, and no blank of any kind in front. */
  predicate Writable(s: string) {
    s != "" && !Space(s[0], true) && forall i | 0 <= i < |s| :: s[i] != ' ' && s[i] != '\t' && s[i] != '\n'
  }

  predicate WritableOps(ops: seq<(string, string)>) {
    forall i | 0 <= i < |ops| :: Writable(ops[i].0) && Printable(ops[i].1)
  }

  predicate OneLineOps(ops: seq<(string, string)>) {
    forall i | 0 <= i < |ops| :: '\n' !in ops[i].0 && Printable(ops[i].1)
  }

  /** What the parser makes of a written assignment. */
  function Written(name: string, command: string): (value: string) {
    Trim(name + " " + command, true)
  }

  lemma WrittenWhole(name: string, command: string)
    requires Writable(name) && Printable(command)
    ensures Written(name, command) == name + " " + command
  {
    hide Trim;
    TrimTight(name + " " + command, true);
  }

  lemma DecimalTextDigits(n: nat)
    ensures DecimalText(n) != "" && forall i | 0 <= i < |DecimalText(n)| :: '0' <= DecimalText(n)[i] <= '9'
  {
    T.DecimalDigits(n);
  }

  lemma BindKeyInjective(m: nat, n: nat)
    requires BindKey(m) == BindKey(n)
    ensures m == n
  {
    hide T.Decimal;
    assert BindKey(m)[5..] == DecimalText(m) && BindKey(n)[5..] == DecimalText(n);
    var a, b := T.Decimal(m), T.Decimal(n);
    assert |a| == |b| && forall i | 0 <= i < |a| :: DecimalText(m)[i] == a[i] as char && DecimalText(n)[i] == b[i] as char;
    assert a == b;
    T.DecimalInjective(m, n);
  }

  lemma BindKeyPlain(n: nat)
    ensures PlainKey(BindKey(n)) && StartsWith(BindKey(n), "bind.")
  {
    hide T.Decimal, DecimalText;
    DecimalTextDigits(n);
    var key := BindKey(n);
    assert key[..5] == "bind." && forall i | 5 <= i < |key| :: key[i] == DecimalText(n)[i - 5];
    assert key[|key| - 1] == DecimalText(n)[|DecimalText(n)| - 1];
    assert forall i | 0 <= i < 5 :: key[i] == "bind."[i];
  }

  lemma ParseBindLine(p: Parsed, index: nat, name: string, command: string)
    requires p.group == GROUP && '\n' !in name && Printable(command)
    ensures EndsLine(BindLine(index, name, command))
    ensures ParseText(p, BindLine(index, name, command))
            == Some(p.(items := Add(p.items, GROUP, BindKey(index), Written(name, command))))
  {
    hide Classify, LineLength, Add, BindKey, Trim;
    var line := BindLine(index, name, command);
    var value := name + " " + command;
    BindKeyPlain(index);
    ClassifySetting(BindKey(index), value);
    LineIsOne(line);
    ParseOne(p, line);
  }

  function BlockItems(index: nat, ops: seq<(string, string)>): (items: seq<Item>)
    decreases ops
  {
    if ops == [] then []
    else [Item(GROUP, BindKey(index), Written(ops[0].0, ops[0].1))] + BlockItems(index + 1, ops[1..])
  }

  /** Keys bind.`index` and up are not in use. */
  ghost predicate FreeFrom(items: seq<Item>, index: nat) {
    forall n: nat | n >= index :: (GROUP, BindKey(n)) !in ToValues(items)
  }

  /** One line more: its entry goes to the end, and the later keys stay free. */
  lemma ParseBindStep(p: Parsed, index: nat, name: string, command: string)
    requires p.group == GROUP && '\n' !in name && Printable(command) && FreeFrom(p.items, index)
    ensures var q := p.(items := p.items + [Item(GROUP, BindKey(index), Written(name, command))]);
      && EndsLine(BindLine(index, name, command))
      && ParseText(p, BindLine(index, name, command)) == Some(q)
      && FreeFrom(q.items, index + 1)
  {
    hide ParseText, BindLine, Add, ToValues, BindKey, Written;
    ParseBindLine(p, index, name, command);
    AddFresh(p.items, GROUP, BindKey(index), Written(name, command));
    StillFree(p.items, index, Written(name, command));
  }

  lemma ParseNothing(p: Parsed)
    ensures ParseText(p, "") == Some(p) && EndsLine("")
  {
  }

  lemma {:induction false} ParseBindLines(p: Parsed, index: nat, ops: seq<(string, string)>)
    requires p.group == GROUP && OneLineOps(ops) && FreeFrom(p.items, index)
    ensures EndsLine(BindLines(index, ops))
    ensures ParseText(p, BindLines(index, ops)) == Some(p.(items := p.items + BlockItems(index, ops)))
    decreases ops
  {
    hide ParseText, BindLine, BindKey, GROUP, FreeFrom, Printable, EndsLine, Written;
    if ops == [] {
      assert p.items + [] == p.items;
      ParseNothing(p);
    } else {
      var line := BindLine(index, ops[0].0, ops[0].1);
      var item := Item(GROUP, BindKey(index), Written(ops[0].0, ops[0].1));
      var q := p.(items := p.items + [item]);
      ParseBindStep(p, index, ops[0].0, ops[0].1);
      ParseBindLines(q, index + 1, ops[1..]);
      ParseConcat(p, line, BindLines(index + 1, ops[1..]));
      EndsConcat(line, BindLines(index + 1, ops[1..]));
      assert (p.items + [item]) + BlockItems(index + 1, ops[1..]) == p.items + ([item] + BlockItems(index + 1, ops[1..]));
    }
  }

  lemma StillFree(items: seq<Item>, index: nat, value: string)
    requires FreeFrom(items, index)
    ensures FreeFrom(items + [Item(GROUP, BindKey(index), value)], index + 1)
  {
    hide BindKey, GROUP, ToValues;
    var all := items + [Item(GROUP, BindKey(index), value)];
    AddFresh(items, GROUP, BindKey(index), value);
    AddUpdates(items, GROUP, BindKey(index), value);
    forall n: nat | n >= index + 1 ensures (GROUP, BindKey(n)) !in ToValues(all) {
      if BindKey(n) == BindKey(index) {
        BindKeyInjective(n, index);
      }
    }
  }

  /** A marker is a comment. */
  lemma MarkIsBlank(p: Parsed, mark: string)
    requires mark != "" && mark[0] == '#' && Tight(mark, true) && '\n' !in mark
    ensures EndsLine(mark + "\n") && ParseText(p, mark + "\n") == Some(p)
  {
    hide Trim, LineLength;
    assert "" + mark + "\n" == mark + "\n";
    TrimOf("", mark, "\n", true);
    LineIsOne(mark + "\n");
    ParseOne(p, mark + "\n");
  }

  lemma GroupHeader(p: Parsed)
    ensures ParseText(p, "[" + GROUP + "]\n") == Some(Parsed(GROUP, p.items)) && EndsLine("[" + GROUP + "]\n")
  {
    hide Classify, LineLength;
    ClassifyHeader(GROUP);
    var line := "[" + GROUP + "]\n";
    LineIsOne(line);
    ParseOne(p, line);
  }

  /** The block parses to its assignments, in order, behind everything else. */
  lemma ParseBlock(p: Parsed, ops: seq<(string, string)>)
    requires OneLineOps(ops) && FreeFrom(p.items, FIRST_INDEX)
    ensures ParseText(p, Block(ops)) == Some(Parsed(GROUP, p.items + BlockItems(FIRST_INDEX, ops)))
  {
    hide ParseText, BindLines, BlockItems, FreeFrom, EndsLine;
    var begin, header, lines, end := BEGIN_MARK + "\n", "[" + GROUP + "]\n", BindLines(FIRST_INDEX, ops), END_MARK + "\n";
    MarksTight();
    MarkIsBlank(p, BEGIN_MARK);
    GroupHeader(p);
    var q := Parsed(GROUP, p.items);
    ParseBindLines(q, FIRST_INDEX, ops);
    MarkIsBlank(q.(items := q.items + BlockItems(FIRST_INDEX, ops)), END_MARK);
    ParseConcat(p, begin, header);
    EndsConcat(begin, header);
    ParseConcat(p, begin + header, lines);
    EndsConcat(begin + header, lines);
    ParseConcat(p, begin + header + lines, end);
  }

  lemma EndsConcat(a: string, b: string)
    requires EndsLine(a) && EndsLine(b)
    ensures EndsLine(a + b)
  {
  }

  lemma MarksTight()
    ensures BEGIN_MARK != "" && BEGIN_MARK[0] == '#' && Tight(BEGIN_MARK, true) && '\n' !in BEGIN_MARK
    ensures END_MARK != "" && END_MARK[0] == '#' && Tight(END_MARK, true) && '\n' !in END_MARK
  {
  }

  /** The rendered file: the unmanaged entries, then the block's. */
  lemma ParseRendered(existing: string, bindings: K.Table, previous: K.Table)
    requires var kept := Parse(Unmanaged(existing, false)); kept.Some? && FreeFrom(kept.value, FIRST_INDEX)
    requires OneLineOps(Ops(bindings, previous))
    ensures Parse(Render(existing, bindings, previous))
            == Some(Parse(Unmanaged(existing, false)).value + BlockItems(FIRST_INDEX, Ops(bindings, previous)))
  {
    hide ParseText, Unmanaged, Block, BlockItems, FreeFrom, OneLineOps, Ops;
    var kept := Unmanaged(existing, false);
    var p := ParseText(START, kept).value;
    ParseBase(kept);
    ParseBlock(p, Ops(bindings, previous));
    ParseConcat(START, Base(kept), Block(Ops(bindings, previous)));
  }

  lemma ParseBase(kept: string)
    requires ParseText(START, kept).Some?
    ensures EndsLine(Base(kept)) && ParseText(START, Base(kept)) == ParseText(START, kept)
  {
    hide ParseText;
    if !EndsLine(kept) {
      ParseNewline(START, kept);
    }
    if kept != "" {
      BlankLine(ParseText(START, kept).value);
      ParseConcat(START, Ended(kept), "\n");
    } else {
      assert Base(kept) == kept;
    }
  }

  // ---------------------------------------------------------------------------
  // Applying the block
  // ---------------------------------------------------------------------------

  function RunOps(table: K.Table, ops: seq<(string, string)>): (r: Option<K.Table>)
    decreases ops
  {
    if ops == [] then Some(table)
    else
      var o := K.Bind(table, ops[0].0, ops[0].1, false);
      if o.Done? then RunOps(o.table, ops[1..]) else None
  }

  lemma {:induction false} RunOpsConcat(table: K.Table, a: seq<(string, string)>, b: seq<(string, string)>)
    ensures RunOps(table, a + b) == if RunOps(table, a).None? then None else RunOps(RunOps(table, a).value, b)
    decreases a
  {
    if a == [] {
      assert a + b == b;
    } else {
      hide K.Bind;
      assert (a + b)[1..] == a[1..] + b;
      var o := K.Bind(table, a[0].0, a[0].1, false);
      if o.Done? {
        RunOpsConcat(o.table, a[1..], b);
      }
    }
  }

  lemma {:induction false} NonGapsPrefix(a: string, b: string)
    requires (forall i | 0 <= i < |a| :: !Gap(a[i])) && b != "" && Gap(b[0])
    ensures NonGaps(a + b) == |a|
  {
    if a == "" {
      assert a + b == b;
    } else {
      assert (a + b)[1..] == a[1..] + b;
      NonGapsPrefix(a[1..], b);
    }
  }

  /** A written assignment splits into its name and command again. */
  lemma SplitWritten(name: string, command: string)
    requires Writable(name) && Printable(command)
    ensures SplitBinding(name + " " + command) == Some((name, command))
  {
    var value := name + " " + command;
    assert value == name + (" " + command) && value[0] == name[0];
    assert Gaps(value) == 0 && value[0..] == value;
    NonGapsPrefix(name, " " + command);
    assert value[|name| + 1..] == command && value[..|name|] == name;
    assert Gaps(command) == 0 && command[0..] == command;
    assert TrimRight(command, false) == command;
  }

  predicate ShortOps(ops: seq<(string, string)>) {
    forall i | 0 <= i < |ops| :: |ops[i].0| + 1 + |ops[i].1| < VALUE_MAX
  }

  lemma ApplyWritten(table: K.Table, name: string, command: string)
    requires Writable(name) && Printable(command) && |name| + 1 + |command| < VALUE_MAX
    ensures var o := K.Bind(table, name, command, false);
      ApplyValue(table, Written(name, command)) == if o.Done? then Some(o.table) else None
  {
    hide K.Bind, SplitBinding, Written;
    WrittenWhole(name, command);
    SplitWritten(name, command);
  }

  lemma {:induction false} ApplyBlock(table: K.Table, index: nat, ops: seq<(string, string)>)
    requires WritableOps(ops) && ShortOps(ops)
    ensures ApplyItems(table, BlockItems(index, ops)) == RunOps(table, ops)
    decreases ops
  {
    hide K.Bind, ApplyValue, BindKey, StartsWith, Printable, Writable, Written;
    if ops != [] {
      ApplyWritten(table, ops[0].0, ops[0].1);
      BindKeyPlain(index);
      BlockItemsHead(index, ops);
      var o := K.Bind(table, ops[0].0, ops[0].1, false);
      if o.Done? {
        ApplyBlock(o.table, index + 1, ops[1..]);
      }
    }
  }

  lemma BlockItemsHead(index: nat, ops: seq<(string, string)>)
    requires ops != []
    ensures var items := BlockItems(index, ops);
      && items != [] && items[0] == Item(GROUP, BindKey(index), Written(ops[0].0, ops[0].1))
      && items[1..] == BlockItems(index + 1, ops[1..])
  {
    hide BindKey, Written;
  }

  // ---------------------------------------------------------------------------
  // What the block does to a table
  // ---------------------------------------------------------------------------

  /** The entry's name is one that parses back to the entry's own key. */
  predicate Stable(b: K.Binding) {
    ParseKey(b.name) == Some(Key(b.usesPrefix, b.sequence, b.name))
  }

  /** Entries made from accepted names are stable, but for Control-Meta characters. */
  lemma BoundEntryStable(text: string, command: string, builtin: bool)
    requires ParseKey(text).Some?
    ensures Stable(K.Entry(ParseKey(text).value, command, builtin)) <==> !ControlMetaChar(text)
  {
    hide ParseKey, ControlMetaChar;
    NormalisationStable(text);
  }

  function Strokes(table: K.Table): (s: set<K.Keystroke>) {
    if table == [] then {} else {K.Stroke(table[0])} + Strokes(table[1..])
  }

  lemma {:induction false} StrokesOfMeaning(table: K.Table)
    ensures K.Meaning(table).Keys == Strokes(table)
  {
    if table != [] {
      StrokesOfMeaning(table[1..]);
    }
  }

  predicate AllStable(table: K.Table) {
    forall i | 0 <= i < |table| :: Stable(table[i]) && Writable(table[i].name)
  }

  lemma UnbindSize(table: K.Table, keyName: string)
    ensures var o := K.Bind(table, keyName, "none", false); o.Done? ==> |o.table| <= |table|
  {
    hide ParseKey;
  }

  /** Unbinding everything that was bound before takes exactly those keys away. */
  lemma {:induction false} UnbindAll(table: K.Table, previous: K.Table)
    requires K.Unique(table) && |table| < K.BINDING_MAX && AllStable(previous)
    ensures var r := RunOps(table, Unbinds(previous));
      && r.Some? && K.Unique(r.value) && |r.value| <= |table|
      && K.Meaning(r.value) == K.Meaning(table) - Strokes(previous)
    decreases previous
  {
    if previous == [] {
      assert K.Meaning(table) - {} == K.Meaning(table);
    } else {
      hide ParseKey, K.Unique, K.Meaning, K.Bind;
      var b := previous[0];
      assert Stable(b) && Writable(b.name);
      K.BindRefines(table, b.name, "none", false);
      UnbindSize(table, b.name);
      var o := K.Bind(table, b.name, "none", false);
      UnbindAll(o.table, previous[1..]);
      UnbindsHead(previous);
      assert K.Meaning(table) - {K.Stroke(b)} - Strokes(previous[1..]) == K.Meaning(table) - Strokes(previous);
    }
  }

  lemma UnbindsHead(previous: K.Table)
    requires previous != [] && previous[0].name != ""
    ensures Unbinds(previous) != [] && Unbinds(previous)[0] == (previous[0].name, "none")
    ensures Unbinds(previous)[1..] == Unbinds(previous[1..])
  {
  }

  /** The bindings as configuration stores them. */
  function Saved(bindings: K.Table): (t: K.Table)
    ensures |t| == |bindings|
  {
    seq(|bindings|, i requires 0 <= i < |bindings| => bindings[i].(builtin := false))
  }

  predicate AllKnown(table: K.Table) {
    forall i | 0 <= i < |table| :: K.Known(table[i].command)
  }

  /** Command names are words of at least four letters, dots and underscores. */
  predicate Word(s: string) {
    && 4 <= |s| < 64 && (|s| > 4 || s[0] == 'q')
    && forall i | 0 <= i < |s| :: s[i] == '.' || s[i] == '_' || 'a' <= s[i] <= 'z'
  }

  lemma PanePrintable(command: string)
    requires K.PaneCommand(command)
    ensures Word(command)
  {
  }

  lemma LayoutPrintable(command: string)
    requires K.LayoutCommand(command)
    ensures Word(command)
  {
  }

  lemma SplitPrintable(command: string)
    requires K.SplitCommand(command)
    ensures Word(command)
  {
  }

  lemma ScrollPrintable(command: string)
    requires K.ScrollCommand(command)
    ensures Word(command)
  {
  }

  lemma DeskPrintable(command: string)
    requires K.DeskCommand(command)
    ensures Word(command)
  {
  }

  lemma KnownPrintable(command: string)
    requires K.Known(command)
    ensures Printable(command) && |command| < 64 && command != "none" && Word(command)
  {
    hide K.PaneCommand, K.LayoutCommand, K.SplitCommand, K.ScrollCommand, K.DeskCommand;
    if K.PaneCommand(command) { PanePrintable(command); }
    if K.LayoutCommand(command) { LayoutPrintable(command); }
    if K.SplitCommand(command) { SplitPrintable(command); }
    if K.ScrollCommand(command) { ScrollPrintable(command); }
    if K.DeskCommand(command) { DeskPrintable(command); }
  }

  lemma BindFresh(table: K.Table, b: K.Binding)
    requires |table| < K.BINDING_MAX && Stable(b) && K.Known(b.command) && K.Unique(table + [b.(builtin := false)])
    ensures K.Bind(table, b.name, b.command, false) == K.Done(table + [b.(builtin := false)])
  {
    hide ParseKey;
    KnownPrintable(b.command);
    hide K.Known;
    var k := Key(b.usesPrefix, b.sequence, b.name);
    var all := table + [b.(builtin := false)];
    forall j | 0 <= j < |table| ensures !K.Matches(table[j], k) {
      assert !K.Clash(all[j], all[|table|]);
    }
  }

  /** Binding distinct keys in an empty table stores them in order. */
  lemma {:induction false} BindAll(table: K.Table, bindings: K.Table)
    requires |table| + |bindings| <= K.BINDING_MAX && K.Unique(table + Saved(bindings))
    requires AllStable(bindings) && AllKnown(bindings)
    ensures RunOps(table, Binds(bindings)) == Some(table + Saved(bindings))
    decreases bindings
  {
    hide K.Bind, K.Known, K.Unique, Stable;
    if bindings == [] {
      assert table + Saved(bindings) == table;
    } else {
      var b := bindings[0];
      var next := table + [b.(builtin := false)];
      SavedHead(table, bindings);
      UniquePrefix(next, Saved(bindings[1..]));
      KnownNonempty(b);
      BindFresh(table, b);
      BindsHead(bindings);
      BindAll(next, bindings[1..]);
    }
  }

  lemma SavedHead(table: K.Table, bindings: K.Table)
    requires bindings != []
    ensures table + Saved(bindings) == (table + [bindings[0].(builtin := false)]) + Saved(bindings[1..])
  {
  }

  lemma KnownNonempty(b: K.Binding)
    requires b.name != "" && K.Known(b.command)
    ensures b.name != "" && b.command != ""
  {
    hide K.Known;
    KnownPrintable(b.command);
  }

  lemma UniquePrefix(a: K.Table, b: K.Table)
    requires K.Unique(a + b)
    ensures K.Unique(a)
  {
    assert forall i | 0 <= i < |a| :: (a + b)[i] == a[i];
  }

  lemma BindsHead(bindings: K.Table)
    requires bindings != [] && bindings[0].name != "" && bindings[0].command != ""
    ensures Binds(bindings) != [] && Binds(bindings)[0] == (bindings[0].name, bindings[0].command)
    ensures Binds(bindings)[1..] == Binds(bindings[1..])
  {
  }

  // ---------------------------------------------------------------------------
  // Saving and loading
  // ---------------------------------------------------------------------------

  lemma {:induction false} ApplyKeepsUnique(table: K.Table, items: seq<Item>)
    requires K.Unique(table)
    ensures ApplyItems(table, items).Some? ==> K.Unique(ApplyItems(table, items).value)
    decreases items
  {
    hide K.Unique, K.Bind, K.Meaning, ParseKey, SplitBinding, StartsWith, K.Known;
    if items != [] {
      var b := SplitBinding(items[0].value);
      if b.Some? {
        K.BindRefines(table, b.value.0, b.value.1, false);
      }
      var t := ApplyValue(table, items[0].value);
      ApplyKeepsUnique(table, items[1..]);
      if t.Some? {
        ApplyKeepsUnique(t.value, items[1..]);
      }
    }
  }

  /** Names that fit a key record and commands that fit theirs fit a value. */
  lemma OpsAreWritable(bindings: K.Table, previous: K.Table)
    requires AllStable(previous) && AllStable(bindings) && AllKnown(bindings)
    ensures WritableOps(Ops(bindings, previous)) && ShortOps(Ops(bindings, previous))
  {
    hide Stable, Writable, Printable, K.Known;
    UnbindsWritable(previous);
    BindsWritable(bindings);
  }

  lemma {:induction false} UnbindsWritable(previous: K.Table)
    requires AllStable(previous)
    ensures WritableOps(Unbinds(previous)) && ShortOps(Unbinds(previous))
  {
    hide Stable, Printable, Writable;
    if previous != [] {
      UnbindsWritable(previous[1..]);
      StableName(previous[0]);
      NonePrintable();
    }
  }

  lemma WritableIsOneLine(ops: seq<(string, string)>)
    requires WritableOps(ops)
    ensures OneLineOps(ops)
  {
    hide Printable;
  }

  lemma NonePrintable()
    ensures Printable("none")
  {
  }

  lemma {:induction false} BindsWritable(bindings: K.Table)
    requires AllStable(bindings) && AllKnown(bindings)
    ensures WritableOps(Binds(bindings)) && ShortOps(Binds(bindings))
  {
    hide Stable, Printable, Writable, K.Known;
    if bindings != [] {
      BindsWritable(bindings[1..]);
      StableName(bindings[0]);
      KnownPrintable(bindings[0].command);
    }
  }

  lemma StableName(b: K.Binding)
    requires Stable(b)
    ensures |b.name| < NAME_MAX
  {
    hide ReadName, NameOf, SequenceOf;
  }

  lemma MeaningEmpty(table: K.Table)
    ensures table != [] ==> K.Meaning(table).Keys != {}
  {
    if table != [] {
      assert K.Stroke(table[0]) in K.Meaning(table).Keys;
    }
  }

  lemma SavedUnique(bindings: K.Table)
    requires K.Unique(bindings)
    ensures K.Unique([] + Saved(bindings)) && [] + Saved(bindings) == Saved(bindings)
  {
    assert [] + Saved(bindings) == Saved(bindings);
    var s := Saved(bindings);
    forall i, j | 0 <= i < j < |s| ensures !K.Clash(s[i], s[j]) {
      assert !K.Clash(bindings[i], bindings[j]);
    }
  }

  /** A table whose every key was bound before is emptied and then filled anew. */
  lemma RunBlock(table: K.Table, bindings: K.Table, previous: K.Table)
    requires K.Unique(table) && |table| < K.BINDING_MAX && Strokes(table) <= Strokes(previous)
    requires AllStable(previous) && AllStable(bindings) && AllKnown(bindings)
    requires K.Unique(bindings) && |bindings| <= K.BINDING_MAX
    ensures RunOps(table, Ops(bindings, previous)) == Some(Saved(bindings))
  {
    hide AllStable, AllKnown, RunOps, Unbinds, Binds, K.Meaning, K.Unique, Saved, Strokes;
    UnbindAll(table, previous);
    var t := RunOps(table, Unbinds(previous)).value;
    StrokesOfMeaning(table);
    assert K.Meaning(t).Keys == K.Meaning(table).Keys - Strokes(previous);
    MeaningEmpty(t);
    SavedUnique(bindings);
    BindAll([], bindings);
    RunOpsConcat(table, Unbinds(previous), Binds(bindings));
  }

  /**
    The managed block's round trip. Whatever the user's file held, if every key
    bound by the base configuration and the unmanaged text is among the previous
    bindings, the numbers from bind.9000 are free, and names and commands are
    ones the program accepts and can print, then loading the rendered file gives
    exactly the new bindings.
   */
  lemma ManagedRoundTrip(existing: string, base: K.Table, bindings: K.Table, previous: K.Table)
    requires var kept := Parse(Unmanaged(existing, false));
      && kept.Some? && FreeFrom(kept.value, FIRST_INDEX)
      && var table := ApplyFile(base, kept.value);
      table.Some? && |table.value| < K.BINDING_MAX && Strokes(table.value) <= Strokes(previous)
    requires K.Unique(base) && AllStable(previous)
    requires AllStable(bindings) && AllKnown(bindings) && K.Unique(bindings) && |bindings| <= K.BINDING_MAX
    ensures var loaded := Parse(Render(existing, bindings, previous));
      loaded.Some? && ApplyFile(base, loaded.value) == Some(Saved(bindings))
  {
    hide Unmanaged, ParseText, FreeFrom, AllStable, AllKnown, K.Unique, RunOps, Render, ApplyFile, ApplyItems, Ops,
      BlockItems, Strokes, Distinct, WritableOps, OneLineOps, ShortOps, Saved;
    var kept := Parse(Unmanaged(existing, false)).value;
    var ops := Ops(bindings, previous);
    var block := BlockItems(FIRST_INDEX, ops);
    OpsAreWritable(bindings, previous);
    WritableIsOneLine(ops);
    ParseRendered(existing, bindings, previous);
    ParsedDistinct(Unmanaged(existing, false));
    ParsedDistinct(Render(existing, bindings, previous));
    ApplyFileIsItems(base, kept);
    ApplyFileIsItems(base, kept + block);
    ApplyItemsConcat(base, kept, block);
    var table := ApplyItems(base, kept).value;
    ApplyKeepsUnique(base, kept);
    ApplyBlock(table, FIRST_INDEX, ops);
    RunBlock(table, bindings, previous);
  }

  lemma ParsedDistinct(text: string)
    ensures Parse(text).Some? ==> Distinct(Parse(text).value)
  {
    ParseDistinct(START, text);
  }
}
