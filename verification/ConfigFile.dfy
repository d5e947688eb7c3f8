/**
  The fallback configuration file parser (src/common/config_parser.c): an array
  of entries in which a later value replaces an earlier one in place, read as a
  map from (group, key) to value.
 */
module ConfigFile {
  import opened Wrappers
  import opened ConfigText

  datatype Item = Item(group: string, key: string, value: string)

  /** add_entry: a known key keeps its place and takes the new value. */
  function Add(items: seq<Item>, group: string, key: string, value: string): (r: seq<Item>) {
    if items == [] then [Item(group, key, value)]
    else if items[0].group == group && items[0].key == key then [Item(group, key, value)] + items[1..]
    else [items[0]] + Add(items[1..], group, key, value)
  }

  type Values = map<(string, string), string>

  /** What looking keys up in the array gives. */
  function ToValues(items: seq<Item>): (m: Values) {
    if items == [] then map[] else ToValues(items[1..])[(items[0].group, items[0].key) := items[0].value]
  }

  /** The array behaves as a map in which the last value wins. */
  lemma {:induction false} AddUpdates(items: seq<Item>, group: string, key: string, value: string)
    ensures ToValues(Add(items, group, key, value)) == ToValues(items)[(group, key) := value]
  {
    if items != [] {
      var r := Add(items, group, key, value);
      if items[0].group == group && items[0].key == key {
        assert r[1..] == items[1..];
      } else {
        assert r[1..] == Add(items[1..], group, key, value);
        AddUpdates(items[1..], group, key, value);
      }
    }
  }

  /** Where the loop of add_entry puts an entry. */
  lemma {:induction false} AddAt(items: seq<Item>, i: nat, group: string, key: string, value: string)
    requires i <= |items| && forall j | 0 <= j < i :: items[j].group != group || items[j].key != key
    ensures i < |items| && items[i].group == group && items[i].key == key
            ==> Add(items, group, key, value) == items[i := Item(group, key, value)]
    ensures i == |items| ==> Add(items, group, key, value) == items + [Item(group, key, value)]
  {
    if i > 0 {
      AddAt(items[1..], i - 1, group, key, value);
      assert i < |items| ==> items[i := Item(group, key, value)] == [items[0]] + items[1..][i - 1 := Item(group, key, value)];
      assert items == [items[0]] + items[1..];
    }
  }

  /** No key is listed twice. */
  predicate Distinct(items: seq<Item>) {
    forall i, j | 0 <= i < j < |items| :: (items[i].group, items[i].key) != (items[j].group, items[j].key)
  }

  /** Every entry is found under its own key. */
  lemma {:induction false} DistinctLookup(items: seq<Item>, i: nat)
    requires Distinct(items) && i < |items|
    ensures var k := (items[i].group, items[i].key); k in ToValues(items) && ToValues(items)[k] == items[i].value
  {
    if i > 0 {
      assert Distinct(items[1..]);
      DistinctLookup(items[1..], i - 1);
      assert (items[0].group, items[0].key) != (items[i].group, items[i].key);
    }
  }

  lemma {:induction false} LookupListed(items: seq<Item>, i: nat)
    requires i < |items|
    ensures (items[i].group, items[i].key) in ToValues(items)
  {
    if i > 0 {
      LookupListed(items[1..], i - 1);
    }
  }

  /** A key the array does not have goes to its end. */
  lemma AddFresh(items: seq<Item>, group: string, key: string, value: string)
    requires (group, key) !in ToValues(items)
    ensures Add(items, group, key, value) == items + [Item(group, key, value)]
  {
    hide Add;
    forall j | 0 <= j < |items| ensures items[j].group != group || items[j].key != key {
      LookupListed(items, j);
    }
    AddAt(items, |items|, group, key, value);
  }

  lemma {:induction false} AddDistinct(items: seq<Item>, group: string, key: string, value: string)
    requires Distinct(items)
    ensures Distinct(Add(items, group, key, value))
  {
    if (group, key) in ToValues(items) {
      AddKnown(items, group, key, value);
    } else {
      AddFresh(items, group, key, value);
      forall j | 0 <= j < |items| ensures (items[j].group, items[j].key) != (group, key) {
        LookupListed(items, j);
      }
    }
  }

  /** A known key is replaced where it stands. */
  lemma {:induction false} AddKnown(items: seq<Item>, group: string, key: string, value: string)
    requires (group, key) in ToValues(items)
    ensures var r := Add(items, group, key, value);
      && |r| == |items|
      && forall j | 0 <= j < |r| :: (r[j].group, r[j].key) == (items[j].group, items[j].key)
  {
    var r := Add(items, group, key, value);
    if !(items[0].group == group && items[0].key == key) {
      AddKnown(items[1..], group, key, value);
      assert r[1..] == Add(items[1..], group, key, value);
    }
  }

  lemma {:induction false} ParseDistinct(p: Parsed, text: string)
    requires Distinct(p.items)
    ensures ParseText(p, text).Some? ==> Distinct(ParseText(p, text).value.items)
    decreases |text|
  {
    if text != "" {
      hide Add, Classify, LineLength, Distinct;
      var line := text[..LineLength(text)];
      if Classify(line).Entry? {
        AddDistinct(p.items, p.group, Classify(line).key, Classify(line).value);
      }
      if ParseLine(p, line).Some? {
        ParseDistinct(ParseLine(p, line).value, text[LineLength(text)..]);
      }
    }
  }

  /** The keys of a group, in the order of their first mention. */
  function KeysOf(items: seq<Item>, group: string): (keys: seq<string>) {
    if items == [] then []
    else (if items[0].group == group then [items[0].key] else []) + KeysOf(items[1..], group)
  }

  /** The parser between two lines. */
  datatype Parsed = Parsed(group: string, items: seq<Item>)

  const START := Parsed("", [])

  function ParseLine(p: Parsed, line: string): (r: Option<Parsed>) {
    match Classify(line)
    case Blank => Some(p)
    case Header(name) => Some(Parsed(name, p.items))
    case Entry(key, value) =>
      if p.group == "" then None else Some(Parsed(p.group, Add(p.items, p.group, key, value)))
    case Bad => None
  }

  function ParseText(p: Parsed, text: string): (r: Option<Parsed>)
    decreases |text|
  {
    if text == "" then Some(p)
    else
      var n := LineLength(text);
      var q := ParseLine(p, text[..n]);
      if q.None? then None else ParseText(q.value, text[n..])
  }

  /** A whole file: its entries, or None if a line is wrong. */
  function Parse(text: string): (r: Option<seq<Item>>) {
    var p := ParseText(START, text);
    if p.None? then None else Some(p.value.items)
  }

  /** Text that ends its line can be parsed on its own. */
  lemma {:induction false} ParseConcat(p: Parsed, a: string, b: string)
    requires EndsLine(a)
    ensures ParseText(p, a + b)
            == if ParseText(p, a).None? then None else ParseText(ParseText(p, a).value, b)
    decreases |a|
  {
    if a == "" {
      assert a + b == b;
    } else {
      var n := LineLength(a);
      LineLengthPrefix(a, b);
      assert (a + b)[..n] == a[..n] && (a + b)[n..] == a[n..] + b;
      var q := ParseLine(p, a[..n]);
      if q.Some? {
        ParseConcat(q.value, a[n..], b);
      }
    }
  }

  /** Ending the last line changes nothing. */
  lemma {:induction false} ParseNewline(p: Parsed, a: string)
    requires !EndsLine(a)
    ensures ParseText(p, a + "\n") == ParseText(p, a)
    decreases |a|
  {
    var n := LineLength(a);
    var i := Find(a, '\n');
    if i < |a| {
      FindInPrefix(a, "\n", '\n');
      assert (a + "\n")[..n] == a[..n] && (a + "\n")[n..] == a[n..] + "\n";
      assert n < |a| && !EndsLine(a[n..]);
      var q := ParseLine(p, a[..n]);
      if q.Some? {
        ParseNewline(q.value, a[n..]);
      }
    } else {
      assert (a + "\n")[i] == '\n' && forall j | 0 <= j < i :: (a + "\n")[j] == a[j];
      assert Find(a + "\n", '\n') == |a|;
      assert a[..n] == a && a[n..] == "" && (a + "\n")[..|a| + 1] == a + "\n" && (a + "\n")[|a| + 1..] == "";
      ClassifyNewline(a);
    }
  }

  /** A single line, ended or not, is parsed as a line. */
  lemma ParseOne(p: Parsed, line: string)
    requires line != "" && LineLength(line) == |line|
    ensures ParseText(p, line) == ParseLine(p, line)
  {
    assert line[..|line|] == line && line[|line|..] == "";
  }

  lemma BlankLine(q: Parsed)
    ensures ParseText(q, "\n") == Some(q)
  {
    LineIsOne("\n");
    ParseOne(q, "\n");
    TrimOf("", "", "\n", true);
    assert "" + "" + "\n" == "\n";
  }

  // ---------------------------------------------------------------------------
  // The parser at work
  // ---------------------------------------------------------------------------

  class File {
    var entries: seq<Item>

    constructor ()
      ensures entries == []
    {
      entries := [];
    }

    method AddEntry(group: string, key: string, value: string)
      modifies this
      ensures entries == Add(old(entries), group, key, value)
    {
      var i := 0;
      while i < |entries|
        invariant i <= |entries| && entries == old(entries)
        invariant forall j | 0 <= j < i :: entries[j].group != group || entries[j].key != key
      {
        if entries[i].group == group && entries[i].key == key {
          AddAt(entries, i, group, key, value);
          entries := entries[i := Item(group, key, value)];
          return;
        }
        i := i + 1;
      }
      AddAt(entries, i, group, key, value);
      entries := entries + [Item(group, key, value)];
    }

    /** The body of the loop of cubicle_config_file_read. */
    method TakeLine(group: string, line: string) returns (ok: bool, next: string)
      modifies this
      ensures ok <==> ParseLine(Parsed(group, old(entries)), line).Some?
      ensures ok ==> Parsed(next, entries) == ParseLine(Parsed(group, old(entries)), line).value
    {
      ok, next := true, group;
      match Classify(line) {
        case Blank =>
        case Header(name) => next := name;
        case Bad => ok := false;
        case Entry(key, value) =>
          ok := group != "";
          if ok {
            AddEntry(group, key, value);
          }
      }
    }

    /** cubicle_config_file_read: line by line, until the end or the first wrong one. */
    method Read(text: string) returns (ok: bool)
      modifies this
      ensures ok <==> Parse(text).Some?
      ensures ok ==> entries == Parse(text).value
    {
      hide ParseLine;
      entries := [];
      var group, rest := "", text;
      while rest != ""
        invariant ParseText(START, text) == ParseText(Parsed(group, entries), rest)
        decreases |rest|
      {
        var n := LineLength(rest);
        ok, group := TakeLine(group, rest[..n]);
        if !ok {
          return;
        }
        rest := rest[n..];
      }
      return true;
    }

    /** cubicle_config_file_get_string */
    method GetString(group: string, key: string) returns (r: Option<string>)
      ensures r.Some? <==> (group, key) in ToValues(entries)
      ensures r.Some? ==> r.value == ToValues(entries)[(group, key)]
    {
      var i := 0;
      assert entries[0..] == entries;
      while i < |entries|
        invariant i <= |entries|
        invariant (group, key) in ToValues(entries) <==> (group, key) in ToValues(entries[i..])
        invariant (group, key) in ToValues(entries) ==>
          ToValues(entries)[(group, key)] == ToValues(entries[i..])[(group, key)]
      {
        if entries[i].group == group && entries[i].key == key {
          return Some(entries[i].value);
        }
        assert entries[i..][1..] == entries[i + 1..];
        i := i + 1;
      }
      r := None;
    }

    /** cubicle_config_file_get_keys */
    method GetKeys(group: string) returns (keys: seq<string>)
      ensures keys == KeysOf(entries, group)
    {
      keys := [];
      var i := 0;
      while i < |entries|
        invariant i <= |entries|
        invariant KeysOf(entries, group) == keys + KeysOf(entries[i..], group)
      {
        if entries[i].group == group {
          keys := keys + [entries[i].key];
        }
        assert entries[i..][1..] == entries[i + 1..];
        i := i + 1;
      }
    }
  }
}
