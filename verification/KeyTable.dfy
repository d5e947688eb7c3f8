/**
  The desk's key bindings (src/common/config.c): a table of at most 64 entries in
  which configuration may override a built-in binding, unbind any binding, and
  add new ones.
 */
module KeyTable {
  import opened Wrappers
  import opened KeyName

  const BINDING_MAX: nat := 64

  /** A table entry; unbinding entries are never stored. */
  datatype Binding = Binding(usesPrefix: bool, sequence: seq<nat>, name: string, command: string, builtin: bool)

  type Table = seq<Binding>

  /** desk_command_is_known */
  predicate Known(command: string) {
    PaneCommand(command) || LayoutCommand(command) || SplitCommand(command) || ScrollCommand(command) || DeskCommand(command)
  }

  predicate PaneCommand(command: string) {
    command in ["pane.next", "pane.previous", "pane.left", "pane.right", "pane.above", "pane.below"]
  }

  predicate LayoutCommand(command: string) {
    command in ["layout.zoom", "layout.movepane", "layout.transpose", "layout.addleft", "layout.addright",
                "layout.addtop", "layout.addbottom"]
  }

  predicate SplitCommand(command: string) {
    command in ["layout.resize.toggle", "layout.split.horizontal", "layout.split.vertical",
                "layout.zoom.horizontal", "layout.zoom.vertical"]
  }

  predicate ScrollCommand(command: string) {
    command in ["scroll.page_up", "scroll.page_down", "scroll.line_up", "scroll.line_down", "scroll.top", "scroll.bottom"]
  }

  predicate DeskCommand(command: string) {
    command in ["layout.delete", "layout.reset", "layout.save", "layout.load", "bindings.show", "menu.open",
                "mouse.toggle", "quit"]
  }

  datatype Outcome = Done(table: Table) | TooMany | BadKey | UnknownCommand | Duplicate

  predicate Matches(b: Binding, k: Key) {
    b.usesPrefix == k.usesPrefix && b.sequence == k.sequence
  }

  /** The first entry for a key, or the table's length. */
  function IndexOf(table: Table, k: Key): (i: nat)
    ensures i <= |table| && (i < |table| ==> Matches(table[i], k))
    ensures forall j | 0 <= j < i :: !Matches(table[j], k)
  {
    if table == [] || Matches(table[0], k) then 0 else 1 + IndexOf(table[1..], k)
  }

  /** What a table becomes when a known command, or "none", is given to a key. */
  function Put(table: Table, k: Key, command: string, builtin: bool): (r: Outcome) {
    var i := IndexOf(table, k);
    if i < |table| then
      if command == "none" then Done(table[..i] + table[i + 1..])
      else if table[i].builtin then Done(table[i := Entry(k, command, builtin)])
      else Duplicate
    else if command == "none" then Done(table)
    else Done(table + [Entry(k, command, builtin)])
  }

  /** add_desk_key_binding */
  function Bind(table: Table, keyName: string, command: string, builtin: bool): (r: Outcome) {
    if |table| >= BINDING_MAX then TooMany
    else if ParseKey(keyName).None? then BadKey
    else if command != "none" && !Known(command) then UnknownCommand
    else Put(table, ParseKey(keyName).value, command, builtin)
  }

  function Entry(k: Key, command: string, builtin: bool): (b: Binding) {
    Binding(k.usesPrefix, k.sequence, k.name, command, builtin)
  }

  class Bindings {
    var table: Table

    constructor ()
      ensures table == []
    {
      table := [];
    }

    /** add_desk_key_binding, searching the table and updating it in place. */
    method Add(keyName: string, command: string, builtin: bool) returns (r: Outcome)
      modifies this
      ensures r == Bind(old(table), keyName, command, builtin)
      ensures table == if r.Done? then r.table else old(table)
    {
      hide ParseKey, Known, Put;
      if |table| >= BINDING_MAX {
        return TooMany;
      }
      var key := ParseKey(keyName);
      if key.None? {
        return BadKey;
      }
      if command != "none" && !Known(command) {
        return UnknownCommand;
      }
      r := Store(key.value, command, builtin);
    }

    /** Its loop over the table, and what follows the loop. */
    method Store(k: Key, command: string, builtin: bool) returns (r: Outcome)
      modifies this
      ensures r == Put(old(table), k, command, builtin)
      ensures table == if r.Done? then r.table else old(table)
    {
      var unbind := command == "none";
      var i := 0;
      while i < |table|
        invariant i <= |table| && table == old(table)
        invariant forall j | 0 <= j < i :: !Matches(table[j], k)
      {
        if Matches(table[i], k) {
          assert i == IndexOf(table, k);
          if unbind {
            table := table[..i] + table[i + 1..];
            return Done(table);
          }
          if table[i].builtin {
            table := table[i := Entry(k, command, builtin)];
            return Done(table);
          }
          return Duplicate;
        }
        i := i + 1;
      }
      if !unbind {
        table := table + [Entry(k, command, builtin)];
      }
      return Done(table);
    }

    /** validate_desk_key_conflicts */
    method Validate() returns (ok: bool)
      ensures ok <==> Unique(table)
    {
      var i := 0;
      while i < |table|
        invariant i <= |table|
        invariant forall a, b | 0 <= a < i && a < b < |table| :: !Clash(table[a], table[b])
      {
        var j := i + 1;
        while j < |table|
          invariant i < j <= |table|
          invariant forall b | i < b < j :: !Clash(table[i], table[b])
        {
          if Clash(table[i], table[j]) {
            return false;
          }
          j := j + 1;
        }
        i := i + 1;
      }
      return true;
    }
  }

  // ---------------------------------------------------------------------------
  // The table is a finite map
  // ---------------------------------------------------------------------------

  predicate Clash(a: Binding, b: Binding) {
    a.usesPrefix == b.usesPrefix && a.sequence == b.sequence
  }

  predicate Unique(table: Table) {
    forall i, j | 0 <= i < j < |table| :: !Clash(table[i], table[j])
  }

  type Keystroke = (bool, seq<nat>)

  function Stroke(b: Binding): (s: Keystroke) {
    (b.usesPrefix, b.sequence)
  }

  function StrokeOf(k: Key): (s: Keystroke) {
    (k.usesPrefix, k.sequence)
  }

  function Meaning(table: Table): (m: map<Keystroke, Binding>) {
    if table == [] then map[] else Meaning(table[1..])[Stroke(table[0]) := table[0]]
  }

  lemma {:induction false} MeaningAt(table: Table, k: Key)
    ensures var i := IndexOf(table, k);
      && (i < |table| <==> StrokeOf(k) in Meaning(table))
      && (i < |table| ==> Meaning(table)[StrokeOf(k)] == table[i])
  {
    if table != [] && !Matches(table[0], k) {
      MeaningAt(table[1..], k);
    }
  }

  lemma {:induction false} MeaningAppend(table: Table, b: Binding)
    requires Unique(table + [b])
    ensures Meaning(table + [b]) == Meaning(table)[Stroke(b) := b]
  {
    if table != [] {
      assert (table + [b])[1..] == table[1..] + [b];
      assert forall i, j | 0 <= i < j < |table[1..] + [b]| ::
        (table[1..] + [b])[i] == (table + [b])[i + 1] && (table[1..] + [b])[j] == (table + [b])[j + 1];
      MeaningAppend(table[1..], b);
      assert Clash((table + [b])[0], (table + [b])[|table|]) <==> Stroke(table[0]) == Stroke(b);
    } else {
      assert table + [b] == [b];
    }
  }

  lemma {:induction false} MeaningReplace(table: Table, i: nat, b: Binding)
    requires Unique(table) && i < |table| && Stroke(b) == Stroke(table[i])
    ensures Meaning(table[i := b]) == Meaning(table)[Stroke(b) := b]
  {
    if i == 0 {
      assert table[0 := b][1..] == table[1..];
    } else {
      assert table[i := b][1..] == table[1..][i - 1 := b];
      UniqueTail(table);
      MeaningReplace(table[1..], i - 1, b);
      assert !Clash(table[0], table[i]);
    }
  }

  lemma UniqueTail(table: Table)
    requires Unique(table) && table != []
    ensures Unique(table[1..])
  {
  }

  /** In a table without clashes no other entry has the first one's key. */
  lemma {:induction false} FirstOnly(table: Table, s: Keystroke)
    requires forall i | 0 <= i < |table| :: Stroke(table[i]) != s
    ensures s !in Meaning(table)
  {
    if table != [] {
      FirstOnly(table[1..], s);
    }
  }

  /** Taking out the first entry. */
  lemma MeaningTail(table: Table)
    requires Unique(table) && table != []
    ensures Meaning(table[1..]) == Meaning(table) - {Stroke(table[0])}
  {
    hide Meaning;
    MeaningHead(table);
    forall j | 0 <= j < |table[1..]| ensures Stroke(table[1..][j]) != Stroke(table[0]) {
      assert !Clash(table[0], table[j + 1]);
    }
    FirstOnly(table[1..], Stroke(table[0]));
  }

  lemma MeaningHead(table: Table)
    requires table != []
    ensures Meaning(table) == Meaning(table[1..])[Stroke(table[0]) := table[0]]
  {
  }

  lemma RemoveLater(table: Table, i: nat)
    requires 0 < i < |table|
    ensures var t := table[..i] + table[i + 1..]; var rest := table[1..];
      t != [] && t[0] == table[0] && t[1..] == rest[..i - 1] + rest[i..] && rest[i - 1] == table[i]
  {
  }

  lemma {:induction false} MeaningRemove(table: Table, i: nat)
    requires Unique(table) && i < |table|
    ensures Meaning(table[..i] + table[i + 1..]) == Meaning(table) - {Stroke(table[i])}
  {
    hide Meaning, Unique;
    if i == 0 {
      assert table[..0] + table[1..] == table[1..];
      MeaningTail(table);
    } else {
      RemoveLater(table, i);
      UniqueTail(table);
      MeaningRemove(table[1..], i - 1);
      MeaningHead(table);
      MeaningHead(table[..i] + table[i + 1..]);
      StrokesDiffer(table, 0, i);
    }
  }

  lemma StrokesDiffer(table: Table, i: nat, j: nat)
    requires Unique(table) && i < j < |table|
    ensures Stroke(table[i]) != Stroke(table[j])
  {
    assert !Clash(table[i], table[j]);
  }

  lemma UniqueAppend(table: Table, b: Binding)
    requires Unique(table) && forall j | 0 <= j < |table| :: !Clash(table[j], b)
    ensures Unique(table + [b])
  {
  }

  lemma UniqueReplace(table: Table, i: nat, b: Binding)
    requires Unique(table) && i < |table| && Stroke(b) == Stroke(table[i])
    ensures Unique(table[i := b])
  {
  }

  lemma UniqueRemove(table: Table, i: nat)
    requires Unique(table) && i < |table|
    ensures Unique(table[..i] + table[i + 1..])
  {
    var t := table[..i] + table[i + 1..];
    assert forall j | 0 <= j < |t| :: t[j] == if j < i then table[j] else table[j + 1];
  }

  lemma PutRefines(table: Table, k: Key, command: string, builtin: bool)
    requires Unique(table)
    ensures var r := Put(table, k, command, builtin); var m := Meaning(table); var s := StrokeOf(k);
      && (r.Done? <==> command == "none" || (s in m ==> m[s].builtin))
      && (r.Done? ==> Unique(r.table))
      && (r.Done? ==> Meaning(r.table) == if command == "none" then m - {s} else m[s := Entry(k, command, builtin)])
  {
    hide Meaning, IndexOf;
    var i := IndexOf(table, k);
    MeaningAt(table, k);
    var b := Entry(k, command, builtin);
    if i < |table| {
      hide Unique;
      if command == "none" {
        UniqueRemove(table, i);
        MeaningRemove(table, i);
      } else if table[i].builtin {
        UniqueReplace(table, i, b);
        MeaningReplace(table, i, b);
      }
    } else if command != "none" {
      UniqueAppend(table, b);
      hide Unique;
      MeaningAppend(table, b);
    } else {
      assert Meaning(table) - {StrokeOf(k)} == Meaning(table);
    }
  }

  /**
    Adding, overriding and unbinding are updates of a finite map from keystrokes
    to bindings, and keep keystrokes unique. A binding is refused exactly when the
    table is full, the name or the command is unknown, or the keystroke is bound
    by something other than a built-in.
   */
  lemma BindRefines(table: Table, keyName: string, command: string, builtin: bool)
    requires Unique(table)
    ensures var r := Bind(table, keyName, command, builtin); var key := ParseKey(keyName); var m := Meaning(table);
      && (r.Done? <==>
           && |table| < BINDING_MAX && key.Some? && (command == "none" || Known(command))
           && (command == "none" || (StrokeOf(key.value) in m ==> m[StrokeOf(key.value)].builtin)))
      && (r.Done? ==> Unique(r.table))
      && (r.Done? ==> Meaning(r.table) == if command == "none" then m - {StrokeOf(key.value)}
                                          else m[StrokeOf(key.value) := Entry(key.value, command, builtin)])
  {
    hide ParseKey, Known, Meaning, Unique, Put;
    if ParseKey(keyName).Some? {
      PutRefines(table, ParseKey(keyName).value, command, builtin);
    }
  }

  // ---------------------------------------------------------------------------
  // Every table that can be built
  // ---------------------------------------------------------------------------

  datatype Op = Op(keyName: string, command: string, builtin: bool)

  /** Additions in a row; a refused one leaves the table as it was. */
  function Build(table: Table, ops: seq<Op>): (t: Table)
    decreases ops
  {
    if ops == [] then table
    else
      var r := Bind(table, ops[0].keyName, ops[0].command, ops[0].builtin);
      Build(if r.Done? then r.table else table, ops[1..])
  }

  lemma BindSize(table: Table, keyName: string, command: string, builtin: bool)
    requires |table| <= BINDING_MAX
    ensures var r := Bind(table, keyName, command, builtin); r.Done? ==> |r.table| <= BINDING_MAX
  {
    hide ParseKey, Known;
  }

  /** No sequence of additions, overrides and unbinds, from nothing through the
      built-in defaults to any configuration, makes a table that validation
      rejects or that outgrows its 64 entries. */
  lemma {:induction false} BuiltTablesValidate(table: Table, ops: seq<Op>)
    requires Unique(table) && |table| <= BINDING_MAX
    ensures Unique(Build(table, ops)) && |Build(table, ops)| <= BINDING_MAX
    decreases ops
  {
    if ops != [] {
      hide Unique, ParseKey, Known, Put, Meaning;
      var op := ops[0];
      BindSize(table, op.keyName, op.command, op.builtin);
      BindRefines(table, op.keyName, op.command, op.builtin);
      var r := Bind(table, op.keyName, op.command, op.builtin);
      BuiltTablesValidate(if r.Done? then r.table else table, ops[1..]);
    }
  }
}
