/**
  `cube config` edits the user's file as text (src/cli/main.c,
  cube_render_updated_config): lines of the [defaults] section that set a
  changed key are left out, and the new settings are put at that section's end,
  or in a new section at the end of the file.
 */
module ConfigRewrite {
  import opened Wrappers
  import opened ConfigText
  import opened ConfigFile

  datatype Change = Keep | Reset | Assign(value: string)

  datatype Update = Update(launch: Change, mode: Change, cleanup: Change)
  {
    function Of(key: string): (c: Change) {
      if key == "launch" then launch
      else if key == "mode" then mode
      else if key == "kill_cleanup" then cleanup
      else Keep
    }

    predicate AnyAssign() {
      launch.Assign? || mode.Assign? || cleanup.Assign?
    }
  }

  // ---------------------------------------------------------------------------
  // How the rewriter sees a line
  // ---------------------------------------------------------------------------

  const COPY_MAX: nat := 256
  const SECTION_MAX: nat := 64

  /** cube_config_line_section */
  function SectionSeen(line: string): (name: Option<string>) {
    if |line| >= COPY_MAX then None
    else
      var t := Trim(line, false);
      if |t| < 3 || t[0] != '[' || t[|t| - 1] != ']' || |t| - 2 >= SECTION_MAX then None
      else Some(t[1..|t| - 1])
  }

  /** The rewriter sees a name of one to 63 characters, right in the brackets, on a
      line of up to 255. */
  lemma SectionRead(a: string, name: string, b: string)
    requires AllSpace(a, false) && AllSpace(b, false)
    ensures var line := a + ("[" + name + "]") + b;
      SectionSeen(line) == if |line| <= 255 && 1 <= |name| <= 63 then Some(name) else None
  {
    hide Trim;
    var t := "[" + name + "]";
    BracketTight(t);
    TrimOf(a, t, b, false);
    assert t[1..|t| - 1] == name;
  }

  /** cube_config_line_key_matches */
  predicate KeySeen(line: string, key: string) {
    |line| < COPY_MAX &&
    var t := TrimLeft(line, false);
    && t != "" && t[0] != '#' && t[0] != ';' && t[0] != '['
    && var at := Find(t, '=');
    at < |t| && TrimRight(t[..at], false) == key
  }

  /** The rewriter sees a key on a line of up to 255 characters, and only the whole key. */
  lemma KeyRead(a: string, key: string, x: string, rest: string, other: string)
    requires AllSpace(a, false) && AllSpace(x, false) && Tight(key, false) && '=' !in key
    requires key != "" && key[0] != '#' && key[0] != ';' && key[0] != '['
    ensures var line := a + (key + x + "=" + rest); KeySeen(line, other) <==> |line| <= 255 && other == key
  {
    hide TrimLeft, TrimRight, Find;
    var t := key + x + "=" + rest;
    TrimLeftSpaces(a, t, false);
    TrimsNothing(t);
    NoEquals(x);
    FindHere(key + x, '=', rest);
    assert t == key + x + ['='] + rest && t[..|key + x|] == key + x;
    TrimRightSpaces(key, x, false);
    TightRight(key);
  }

  lemma TrimsNothing(t: string)
    requires t != "" && !Space(t[0], false)
    ensures TrimLeft(t, false) == t
  {
  }

  lemma TightRight(key: string)
    requires Tight(key, false)
    ensures TrimRight(key, false) == key
  {
  }

  lemma NoEquals(x: string)
    requires AllSpace(x, false)
    ensures '=' !in x
  {
  }

  predicate Dropped(line: string, u: Update) {
    || (!u.launch.Keep? && KeySeen(line, "launch"))
    || (!u.mode.Keep? && KeySeen(line, "mode"))
    || (!u.cleanup.Keep? && KeySeen(line, "kill_cleanup"))
  }

  // ---------------------------------------------------------------------------
  // Rewriting
  // ---------------------------------------------------------------------------

  function AssignLine(key: string, c: Change): (text: string) {
    if c.Assign? then key + "=" + c.value + "\n" else ""
  }

  /** cube_append_updated_defaults */
  function AssignLines(u: Update): (text: string) {
    AssignLine("launch", u.launch) + AssignLine("mode", u.mode) + AssignLine("kill_cleanup", u.cleanup)
  }

  datatype Rewriter = Rewriter(out: string, inDefaults: bool, saw: bool, inserted: bool)

  const BEGIN := Rewriter("", false, false, false)

  /** The settings go in once, where the first [defaults] section ends. */
  function Insert(r: Rewriter, u: Update): (s: Rewriter) {
    if r.inDefaults && !r.inserted then r.(out := Ended(r.out) + AssignLines(u), inserted := true) else r
  }

  function TakeLine(r: Rewriter, line: string, u: Update): (s: Rewriter) {
    var section := SectionSeen(line);
    var s := if section.None? then r
             else
               var d := section.value == "defaults";
               Insert(r, u).(inDefaults := d, saw := r.saw || d);
    if s.inDefaults && Dropped(line, u) then s else s.(out := s.out + line)
  }

  function TakeAll(r: Rewriter, text: string, u: Update): (s: Rewriter)
    decreases |text|
  {
    if text == "" then r
    else TakeAll(TakeLine(r, text[..LineLength(text)], u), text[LineLength(text)..], u)
  }

  function Finish(r: Rewriter, u: Update): (text: string) {
    var s := Insert(r, u);
    if r.saw || !u.AnyAssign() then s.out
    else Ended(s.out) + (if s.out == "" then "" else "\n") + "[defaults]\n" + AssignLines(u)
  }

  function Render(text: string, u: Update): (rendered: string) {
    Finish(TakeAll(BEGIN, text, u), u)
  }

  /** cube_render_updated_config, as its loop over lines. */
  method RenderUpdatedConfig(existing: string, u: Update) returns (rendered: string)
    ensures rendered == Render(existing, u)
  {
    var out, inDefaults, saw, inserted := "", false, false, false;
    var cursor := existing;
    while cursor != ""
      invariant TakeAll(BEGIN, existing, u) == TakeAll(Rewriter(out, inDefaults, saw, inserted), cursor, u)
      decreases |cursor|
    {
      var n := LineLength(cursor);
      var line := cursor[..n];
      cursor := cursor[n..];
      var section := SectionSeen(line);
      if section.Some? {
        if inDefaults && !inserted {
          out := Ended(out) + AssignLines(u);
          inserted := true;
        }
        inDefaults := section.value == "defaults";
        saw := saw || inDefaults;
      }
      if !(inDefaults && Dropped(line, u)) {
        out := out + line;
      }
    }
    rendered := out;
    if inDefaults && !inserted {
      rendered := Ended(rendered) + AssignLines(u);
    }
    if !saw && u.AnyAssign() {
      rendered := Ended(rendered);
      if rendered != "" {
        rendered := rendered + "\n";
      }
      rendered := rendered + "[defaults]\n" + AssignLines(u);
    }
  }

  // ---------------------------------------------------------------------------
  // What should come out
  // ---------------------------------------------------------------------------

  /** The entries an update is about. */
  function Targets(u: Update): (ks: set<(string, string)>) {
    (if u.launch.Keep? then {} else {("defaults", "launch")})
    + (if u.mode.Keep? then {} else {("defaults", "mode")})
    + (if u.cleanup.Keep? then {} else {("defaults", "kill_cleanup")})
  }

  function Assigned(u: Update): (m: Values) {
    var a: Values := if u.launch.Assign? then map[("defaults", "launch") := u.launch.value] else map[];
    var b: Values := if u.mode.Assign? then a[("defaults", "mode") := u.mode.value] else a;
    if u.cleanup.Assign? then b[("defaults", "kill_cleanup") := u.cleanup.value] else b
  }

  function Updated(m: Values, u: Update): (r: Values) {
    (m - Targets(u)) + Assigned(u)
  }

  /** The value is one line, without blanks around it. */
  predicate Clean(c: Change) {
    c.Assign? ==> Tight(c.value, true) && '\n' !in c.value
  }

  predicate CleanUpdate(u: Update) {
    Clean(u.launch) && Clean(u.mode) && Clean(u.cleanup)
  }

  predicate Tracked(key: string) {
    key == "launch" || key == "mode" || key == "kill_cleanup"
  }

  /** The rewriter and the parser agree on what a line is. */
  predicate Agree(line: string) {
    match Classify(line)
    case Header(name) => SectionSeen(line).Some? && (SectionSeen(line).value == "defaults" <==> name == "defaults")
    case Entry(key, _) => SectionSeen(line).None? && (Tracked(key) ==> KeySeen(line, key))
    case Blank => SectionSeen(line).None?
    case Bad => true
  }

  predicate AgreeAll(text: string)
    decreases |text|
  {
    text == "" || (Agree(text[..LineLength(text)]) && AgreeAll(text[LineLength(text)..]))
  }

  /** The assignments as they would land in a section. */
  function AssignedTo(group: string, u: Update): (m: Values) {
    WithChange(WithChange(WithChange(map[], group, "launch", u.launch), group, "mode", u.mode), group, "kill_cleanup", u.cleanup)
  }

  function WithChange(m: Values, group: string, key: string, c: Change): (r: Values) {
    if c.Assign? then m[(group, key) := c.value] else m
  }

  lemma ParseAssignLine(p: Parsed, key: string, c: Change)
    requires p.group != "" && PlainKey(key) && Clean(c)
    ensures EndsLine(AssignLine(key, c))
    ensures ParseText(p, AssignLine(key, c))
            == Some(if c.Assign? then p.(items := Add(p.items, p.group, key, c.value)) else p)
  {
    hide Classify, LineLength, Add;
    if c.Assign? {
      var line := AssignLine(key, c);
      ClassifyAssign(key, c.value);
      assert line[|line| - 1] == '\n';
      LineIsOne(line);
      ParseOne(p, line);
    }
  }

  lemma ParseChange(p: Parsed, key: string, c: Change)
    requires p.group != "" && PlainKey(key) && Clean(c)
    ensures var q := ParseText(p, AssignLine(key, c));
      && q.Some? && q.value.group == p.group && EndsLine(AssignLine(key, c))
      && ToValues(q.value.items) == WithChange(ToValues(p.items), p.group, key, c)
  {
    ParseAssignLine(p, key, c);
    if c.Assign? {
      AddUpdates(p.items, p.group, key, c.value);
    }
  }

  lemma ThreeChanges(m: Values, group: string, u: Update)
    ensures WithChange(WithChange(WithChange(m, group, "launch", u.launch), group, "mode", u.mode), group, "kill_cleanup", u.cleanup)
            == m + AssignedTo(group, u)
  {
  }

  lemma AssignedToDefaults(u: Update)
    ensures AssignedTo("defaults", u) == Assigned(u)
  {
  }

  /** Parsing the inserted block adds exactly the assignments, where it stands. */
  lemma ParseAssignLines(p: Parsed, u: Update)
    requires p.group != "" && CleanUpdate(u)
    ensures EndsLine(AssignLines(u))
    ensures var q := ParseText(p, AssignLines(u));
      q.Some? && q.value.group == p.group && ToValues(q.value.items) == ToValues(p.items) + AssignedTo(p.group, u)
  {
    hide ParseText, ToValues, AssignLine, WithChange, AssignedTo;
    AssignLinesEnd(u);
    var a, b, c := AssignLine("launch", u.launch), AssignLine("mode", u.mode), AssignLine("kill_cleanup", u.cleanup);
    ParseChange(p, "launch", u.launch);
    var p1 := ParseText(p, a).value;
    ParseChange(p1, "mode", u.mode);
    var p2 := ParseText(p1, b).value;
    ParseChange(p2, "kill_cleanup", u.cleanup);
    ParseConcat(p, a, b);
    ParseConcat(p, a + b, c);
    ThreeChanges(ToValues(p.items), p.group, u);
  }

  lemma AssignLinesEnd(u: Update)
    ensures EndsLine(AssignLine("launch", u.launch) + AssignLine("mode", u.mode)) && EndsLine(AssignLines(u))
  {
  }

  lemma EntryOf(line: string, at: nat, key: string)
    requires var w := Trim(line, true);
      && w != "" && w[0] != '#' && w[0] != ';' && w[0] != '[' && key != ""
      && Find(w, '=') == at < |w| && Trim(w[..at], true) == key
    ensures Classify(line).Entry? && Classify(line).key == key
  {
    hide Trim, Find;
  }

  /** A line with a key the rewriter matches has that key for the parser. */
  lemma KeySeenIsKey(line: string, key: string)
    requires KeySeen(line, key) && Tracked(key)
    ensures Classify(line).Entry? && Classify(line).key == key
  {
    hide Find, Classify, TrimLeft, TrimRight, Trim;
    var t := TrimLeft(line, false);
    var at := Find(t, '=');
    var b := TrimRightSplits(t[..at], false);
    NarrowIsWide(b);
    assert t[0] == (key + b)[0] == key[0];
    WideTrim(line, t);
    KeyOf(t, at, key, b);
    EntryOf(line, at, key);
  }

  /** Trimming more kinds of blank from a text that starts with none of them. */
  lemma WideTrim(line: string, t: string)
    requires t == TrimLeft(line, false) && t != "" && !Space(t[0], true)
    ensures Trim(line, true) == TrimRight(t, true)
  {
    var a := TrimLeftSplits(line, false);
    NarrowIsWide(a);
    TrimLeftSpaces(a, t, true);
  }

  lemma KeyOf(t: string, at: nat, key: string, b: string)
    requires at < |t| && t[at] == '=' && (forall j | 0 <= j < at :: t[j] != '=')
    requires t[..at] == key + b && AllSpace(b, true) && PlainKey(key)
    ensures var w := TrimRight(t, true);
      && w != "" && w[0] == key[0] && Find(w, '=') == at < |w| && Trim(w[..at], true) == key
  {
    hide TrimRight, TrimLeft, Find, Trim;
    var w := TrimRight(t, true);
    TrimRightKeeps(t, at);
    assert w[..at] == t[..at];
    FindIs(w, '=', at);
    assert "" + key + b == key + b;
    TrimOf("", key, b, true);
    assert (key + b)[0] == key[0];
  }

  lemma TrimRightKeeps(t: string, at: nat)
    requires at < |t| && !Space(t[at], true)
    ensures at < |TrimRight(t, true)|
  {
    hide TrimRight;
    var c := TrimRightSplits(t, true);
    var w := TrimRight(t, true);
    assert forall i | |w| <= i < |t| :: t[i] == c[i - |w|];
  }

  lemma NarrowIsWide(s: string)
    requires AllSpace(s, false)
    ensures AllSpace(s, true)
  {
  }

  /** Copying a line to the output parses it there too. */
  lemma CopyLine(q: Parsed, out: string, line: string)
    requires ParseText(START, out) == Some(q) && EndsLine(out) && line != "" && LineLength(line) == |line|
    ensures ParseText(START, out + line) == ParseLine(q, line)
  {
    ParseConcat(START, out, line);
    ParseOne(q, line);
  }

  lemma NewSection(q: Parsed, out: string, u: Update)
    requires ParseText(START, out) == Some(q) && CleanUpdate(u)
    ensures var f := ParseText(START, Ended(out) + (if out == "" then "" else "\n") + "[defaults]\n" + AssignLines(u));
      f.Some? && ToValues(f.value.items) == ToValues(q.items) + Assigned(u)
  {
    hide ParseText, ToValues, AssignLines, Assigned, AssignedTo;
    var gap := if out == "" then "" else "\n";
    if !EndsLine(out) {
      ParseNewline(START, out);
    }
    var header := "[defaults]\n";
    var base := Ended(out) + gap;
    BlankLine(q);
    ParseConcat(START, Ended(out), gap);
    assert Ended(out) + "" == Ended(out);
    DefaultsHeader(q);
    ParseConcat(START, base, header);
    var q2 := Parsed("defaults", q.items);
    ParseAssignLines(q2, u);
    AssignedToDefaults(u);
    ParseConcat(START, base + header, AssignLines(u));
  }

  lemma DefaultsHeader(q: Parsed)
    ensures ParseText(q, "[defaults]\n") == Some(Parsed("defaults", q.items))
  {
    hide Classify, LineLength;
    ClassifyHeader("defaults");
    assert "[" + "defaults" + "]\n" == "[defaults]\n";
    LineIsOne("[defaults]\n");
    ParseOne(q, "[defaults]\n");
  }

  // ---------------------------------------------------------------------------
  // What the rewritten file says
  // ---------------------------------------------------------------------------

  /** The rewriter at work on a file that is read line by line: the parser's
      section, the rewriter's flags, and the values of what it has written. */
  datatype Walk = Walk(group: string, inDefaults: bool, saw: bool, inserted: bool, values: Values)

  const FRESH := Walk("", false, false, false, map[])

  function ReadLine(w: Walk, line: string): (x: Walk) {
    match Classify(line)
    case Header(name) => w.(group := name)
    case Entry(key, value) => w.(values := w.values[(w.group, key) := value])
    case Blank => w
    case Bad => w
  }

  function WalkInsert(w: Walk, u: Update): (x: Walk) {
    if w.inDefaults && !w.inserted then w.(values := w.values + AssignedTo(w.group, u), inserted := true) else w
  }

  function WalkSection(w: Walk, line: string, u: Update): (x: Walk) {
    var section := SectionSeen(line);
    if section.None? then w
    else
      var d := section.value == "defaults";
      WalkInsert(w, u).(inDefaults := d, saw := w.saw || d)
  }

  function WalkLine(w: Walk, line: string, u: Update): (x: Walk) {
    var s := WalkSection(w, line, u);
    if s.inDefaults && Dropped(line, u) then s else ReadLine(s, line)
  }

  function WalkAll(w: Walk, text: string, u: Update): (x: Walk)
    decreases |text|
  {
    if text == "" then w
    else WalkAll(WalkLine(w, text[..LineLength(text)], u), text[LineLength(text)..], u)
  }

  function WalkEnd(w: Walk, u: Update): (m: Values) {
    var x := WalkInsert(w, u);
    if w.saw || !u.AnyAssign() then x.values else x.values + Assigned(u)
  }

  /** `r` has written what `w` has walked, and `p` is what it has read. */
  ghost predicate InStep(p: Parsed, q: Parsed, r: Rewriter, w: Walk) {
    && ParseText(START, r.out) == Some(q)
    && q.group == p.group == w.group && ToValues(q.items) == w.values
    && r.inDefaults == w.inDefaults && r.saw == w.saw && r.inserted == w.inserted
    && (w.inDefaults ==> w.group != "")
  }

  /** What the rewriter takes for a section is one, if the line parses at all. */
  lemma SectionIsHeader(line: string)
    requires SectionSeen(line).Some? && !Classify(line).Bad?
    ensures Classify(line).Header? && Classify(line).name != ""
    ensures SectionSeen(line).value == "defaults" ==> Classify(line).name == "defaults"
  {
    hide Find, Trim;
    var t := SectionText(line);
    if SectionSeen(line).value == "defaults" {
      assert t == "[defaults]";
      DefaultsLine(line);
    }
  }

  lemma SectionText(line: string) returns (t: string)
    requires SectionSeen(line).Some?
    ensures t == Trim(line, true) && |t| >= 3 && t[0] == '[' && t == "[" + SectionSeen(line).value + "]"
  {
    hide Find, TrimLeft, TrimRight;
    t := Trim(line, false);
    var a, b := TrimSplits(line, false);
    NarrowIsWide(a);
    NarrowIsWide(b);
    TrimOf(a, t, b, true);
  }

  lemma DefaultsLine(line: string)
    requires Trim(line, true) == "[defaults]"
    ensures Classify(line) == Header("defaults")
  {
    hide Find, Trim;
    ClassifyHeader("defaults");
    var written := "[" + "defaults" + "]\n";
    assert written == "" + "[defaults]" + "\n";
    TrimOf("", "[defaults]", "\n", true);
  }

  lemma InsertInStep(p: Parsed, q: Parsed, r: Rewriter, w: Walk, u: Update) returns (q': Parsed)
    requires InStep(p, q, r, w) && CleanUpdate(u)
    ensures InStep(p, q', Insert(r, u), WalkInsert(w, u))
    ensures EndsLine(r.out) ==> EndsLine(Insert(r, u).out)
  {
    hide ParseText, ToValues, AssignLines, AssignedTo;
    q' := q;
    if r.inDefaults && !r.inserted {
      if !EndsLine(r.out) {
        ParseNewline(START, r.out);
      }
      ParseAssignLines(q, u);
      q' := ParseText(q, AssignLines(u)).value;
      ParseConcat(START, Ended(r.out), AssignLines(u));
    }
  }

  /** A line that is dropped is no header, and the parser is where it was. */
  lemma DroppedIsNoHeader(line: string, u: Update)
    requires Dropped(line, u)
    ensures !Classify(line).Header?
  {
    hide KeySeen, Classify;
    if KeySeen(line, "launch") { KeySeenIsKey(line, "launch"); }
    if KeySeen(line, "mode") { KeySeenIsKey(line, "mode"); }
    if KeySeen(line, "kill_cleanup") { KeySeenIsKey(line, "kill_cleanup"); }
  }

  lemma KeptLine(p: Parsed, q: Parsed, w: Walk, line: string)
    requires q.group == p.group == w.group && ToValues(q.items) == w.values && ParseLine(p, line).Some?
    ensures ParseLine(q, line).Some?
    ensures var p', q', w' := ParseLine(p, line).value, ParseLine(q, line).value, ReadLine(w, line);
      q'.group == p'.group == w'.group && ToValues(q'.items) == w'.values && (w.group != "" ==> w'.group != "")
  {
    hide Trim, Find, ToValues;
    if Classify(line).Entry? {
      AddUpdates(q.items, q.group, Classify(line).key, Classify(line).value);
    }
  }

  lemma LineInStep(p: Parsed, q: Parsed, r: Rewriter, w: Walk, line: string, u: Update) returns (q': Parsed)
    requires InStep(p, q, r, w) && CleanUpdate(u) && EndsLine(r.out)
    requires line != "" && LineLength(line) == |line| && ParseLine(p, line).Some?
    ensures InStep(ParseLine(p, line).value, q', TakeLine(r, line, u), WalkLine(w, line, u))
    ensures EndsLine(line) ==> EndsLine(TakeLine(r, line, u).out)
  {
    hide ParseText, Classify, SectionSeen, Dropped, ToValues, Insert, WalkInsert, LineLength;
    var q1, r1, w1 := q, r, w;
    if SectionSeen(line).Some? {
      q1 := InsertInStep(p, q, r, w, u);
      r1, w1 := Insert(r, u), WalkInsert(w, u);
      SectionIsHeader(line);
    }
    InsertKeeps(r, w, u);
    if Dropped(line, u) {
      DroppedIsNoHeader(line, u);
    }
    KeptLine(p, q1, w1, line);
    CopyLine(q1, r1.out, line);
    q' := if WalkSection(w, line, u).inDefaults && Dropped(line, u) then q1 else ParseLine(q1, line).value;
  }

  lemma InsertKeeps(r: Rewriter, w: Walk, u: Update)
    ensures var s := Insert(r, u); s.inDefaults == r.inDefaults && s.saw == r.saw
    ensures var x := WalkInsert(w, u); x.group == w.group && x.inDefaults == w.inDefaults && x.saw == w.saw
  {
  }

  lemma {:induction false} TextInStep(p: Parsed, q: Parsed, r: Rewriter, w: Walk, text: string, u: Update) returns (q': Parsed)
    requires InStep(p, q, r, w) && CleanUpdate(u) && (EndsLine(r.out) || text == "") && ParseText(p, text).Some?
    ensures InStep(ParseText(p, text).value, q', TakeAll(r, text, u), WalkAll(w, text, u))
    decreases |text|
  {
    hide InStep, TakeLine, ParseLine, WalkLine, LineLength, EndsLine;
    q' := q;
    if text != "" {
      var n := LineLength(text);
      var line := text[..n];
      FirstLineIsOne(text);
      var q1 := LineInStep(p, q, r, w, line, u);
      q' := TextInStep(ParseLine(p, line).value, q1, TakeLine(r, line, u), WalkLine(w, line, u), text[n..], u);
    }
  }

  /** The rewritten file parses, and says what the walk says. */
  lemma RenderMeans(text: string, u: Update)
    requires Parse(text).Some? && CleanUpdate(u)
    ensures Parse(Render(text, u)).Some?
    ensures ToValues(Parse(Render(text, u)).value) == WalkEnd(WalkAll(FRESH, text, u), u)
  {
    hide ParseText, ToValues, AssignLines, TakeAll, WalkAll, AssignedTo, Assigned, WalkInsert, Insert;
    NothingParsed();
    var q := TextInStep(START, START, BEGIN, FRESH, text, u);
    var r, w := TakeAll(BEGIN, text, u), WalkAll(FRESH, text, u);
    var q1 := InsertInStep(ParseText(START, text).value, q, r, w, u);
    if !r.saw && u.AnyAssign() {
      NewSection(q1, Insert(r, u).out, u);
    }
  }

  lemma NothingParsed()
    ensures ParseText(START, "") == Some(START) && ToValues([]) == map[]
  {
  }

  // ---------------------------------------------------------------------------
  // What the file says without the lines the rewriter takes for some keys
  // ---------------------------------------------------------------------------

  const TRACKED: set<string> := {"launch", "mode", "kill_cleanup"}

  /** Where the parser and the rewriter stand in the file. */
  datatype Eye = Eye(group: string, inDefaults: bool)

  const OPEN := Eye("", false)

  function Look(e: Eye, line: string): (f: Eye) {
    Eye(
      if Classify(line).Header? then Classify(line).name else e.group,
      if SectionSeen(line).Some? then SectionSeen(line).value == "defaults" else e.inDefaults)
  }

  /** The rewriter takes the line for one that sets one of the keys in [defaults]. */
  predicate Taken(e: Eye, line: string, keys: set<string>) {
    Look(e, line).inDefaults && exists k <- keys :: KeySeen(line, k)
  }

  function With(m: Values, e: Eye, line: string): (r: Values) {
    if Classify(line).Entry? then m[(e.group, Classify(line).key) := Classify(line).value] else m
  }

  /** The values left, on top of `m`, when such lines are left out. */
  function Without(e: Eye, text: string, keys: set<string>, m: Values): (r: Values)
    decreases |text|
  {
    if text == "" then m
    else
      var line := text[..LineLength(text)];
      Without(Look(e, line), text[LineLength(text)..], keys, if Taken(e, line, keys) then m else With(m, e, line))
  }

  /** The parser's section where the first section ends that the rewriter takes
      for [defaults]. */
  function FirstEnd(e: Eye, text: string): (group: Option<string>)
    decreases |text|
  {
    if text == "" then (if e.inDefaults then Some(e.group) else None)
    else
      var line := text[..LineLength(text)];
      if e.inDefaults && SectionSeen(line).Some? then Some(e.group)
      else FirstEnd(Look(e, line), text[LineLength(text)..])
  }

  /** What a caller can check of a file, whatever the update: leaving out the lines
      the rewriter takes for a key leaves out that default and nothing else, and
      the place it takes for the end of [defaults] is in [defaults]. */
  predicate Legible(text: string) {
    && (forall k <- TRACKED :: Without(OPEN, text, {k}, map[]) == Without(OPEN, text, {}, map[]) - {("defaults", k)})
    && FirstEnd(OPEN, text) in {None, Some("defaults")}
  }

  function Lookup(m: Values, x: (string, string)): (v: Option<string>) {
    if x in m then Some(m[x]) else None
  }

  lemma SameMap(a: Values, b: Values)
    requires forall x :: Lookup(a, x) == Lookup(b, x)
    ensures a == b
  {
    forall x ensures (x in a <==> x in b) && (x in a ==> a[x] == b[x]) {
      assert Lookup(a, x) == Lookup(b, x);
    }
  }

  lemma TakenIsKey(e: Eye, line: string, keys: set<string>, key: string)
    requires keys <= TRACKED && Classify(line).Entry? && Classify(line).key == key
    ensures Taken(e, line, keys) <==> Look(e, line).inDefaults && key in keys && KeySeen(line, key)
  {
    hide KeySeen, Classify, Look;
    forall k <- keys | KeySeen(line, k) ensures k == key {
      KeySeenIsKey(line, k);
    }
  }

  /** Which lines are left out for other keys does not matter to a key. */
  lemma {:induction false} Pointwise(e: Eye, text: string, j: set<string>, k: set<string>, m: Values, n: Values, x: (string, string))
    requires j <= TRACKED && k <= TRACKED && (x.1 in j <==> x.1 in k) && Lookup(m, x) == Lookup(n, x)
    ensures Lookup(Without(e, text, j, m), x) == Lookup(Without(e, text, k, n), x)
    decreases |text|
  {
    hide Classify, SectionSeen, KeySeen, LineLength, Taken, Look;
    if text != "" {
      var line := text[..LineLength(text)];
      if Classify(line).Entry? {
        TakenIsKey(e, line, j, Classify(line).key);
        TakenIsKey(e, line, k, Classify(line).key);
      }
      Pointwise(Look(e, line), text[LineLength(text)..], j, k,
        if Taken(e, line, j) then m else With(m, e, line), if Taken(e, line, k) then n else With(n, e, line), x);
    }
  }

  /** Values once set stay set. */
  lemma {:induction false} WithoutGrows(e: Eye, text: string, keys: set<string>, m: Values)
    ensures m.Keys <= Without(e, text, keys, m).Keys
    decreases |text|
  {
    hide Classify, SectionSeen, LineLength, Taken, Look;
    if text != "" {
      var line := text[..LineLength(text)];
      WithoutGrows(Look(e, line), text[LineLength(text)..], keys, if Taken(e, line, keys) then m else With(m, e, line));
    }
  }

  function Changed(u: Update): (keys: set<string>) {
    set k | k in TRACKED && !u.Of(k).Keep?
  }

  lemma TargetsAre(u: Update)
    ensures Changed(u) <= TRACKED
    ensures forall x :: x in Targets(u) <==> x.0 == "defaults" && x.1 in Changed(u)
  {
  }

  lemma DroppedIsTaken(line: string, u: Update)
    ensures Dropped(line, u) <==> exists k <- Changed(u) :: KeySeen(line, k)
  {
    hide KeySeen;
    if Dropped(line, u) {
      var k := if !u.launch.Keep? && KeySeen(line, "launch") then "launch"
               else if !u.mode.Keep? && KeySeen(line, "mode") then "mode" else "kill_cleanup";
      assert k in Changed(u) && KeySeen(line, k);
    }
  }

  /** A legible file without the lines of all changed keys is the file without
      those defaults. */
  lemma LegibleWithout(text: string, u: Update)
    requires Legible(text)
    ensures Without(OPEN, text, Changed(u), map[]) == Without(OPEN, text, {}, map[]) - Targets(u)
  {
    hide Without, FirstEnd, Targets, Changed;
    TargetsAre(u);
    var left, whole := Without(OPEN, text, Changed(u), map[]), Without(OPEN, text, {}, map[]);
    forall x ensures Lookup(left, x) == Lookup(whole - Targets(u), x) {
      if x.1 in Changed(u) {
        Pointwise(OPEN, text, Changed(u), {x.1}, map[], map[], x);
      } else {
        Pointwise(OPEN, text, Changed(u), {}, map[], map[], x);
      }
    }
    SameMap(left, whole - Targets(u));
  }


  // ---------------------------------------------------------------------------
  // The walk, and the file without the changed keys
  // ---------------------------------------------------------------------------

  function EyeOf(w: Walk): (e: Eye) {
    Eye(w.group, w.inDefaults)
  }

  /** Leaving nothing out is what the parser reads. */
  lemma {:induction false} WithoutNothing(p: Parsed, e: Eye, text: string)
    requires ParseText(p, text).Some? && p.group == e.group
    ensures ToValues(ParseText(p, text).value.items) == Without(e, text, {}, ToValues(p.items))
    decreases |text|
  {
    hide Classify, SectionSeen, LineLength, ToValues;
    if text != "" {
      var line := text[..LineLength(text)];
      var q := ParseLine(p, line).value;
      if Classify(line).Entry? {
        AddUpdates(p.items, p.group, Classify(line).key, Classify(line).value);
      }
      WithoutNothing(q, Look(e, line), text[LineLength(text)..]);
    }
  }

  /** One line, where nothing is inserted. */
  lemma WalkLineIs(w: Walk, line: string, u: Update)
    ensures var x := WalkLine(w, line, u);
      && EyeOf(x) == Look(EyeOf(w), line)
      && x.inserted == WalkSection(w, line, u).inserted && x.saw == WalkSection(w, line, u).saw
      && x.values == if Taken(EyeOf(w), line, Changed(u)) then WalkSection(w, line, u).values
                     else With(WalkSection(w, line, u).values, EyeOf(w), line)
  {
    hide Classify, SectionSeen, KeySeen, Dropped, AssignedTo;
    DroppedIsTaken(line, u);
    if Dropped(line, u) {
      DroppedIsNoHeader(line, u);
    }
  }

  ghost predicate Outside(a: Values, b: Values, except: set<(string, string)>) {
    forall x :: x !in except ==> Lookup(a, x) == Lookup(b, x)
  }

  lemma OutsideWith(a: Values, b: Values, except: set<(string, string)>, e: Eye, line: string)
    requires Outside(a, b, except)
    ensures Outside(With(a, e, line), With(b, e, line), except)
  {
    hide Classify;
    forall x | x !in except ensures Lookup(With(a, e, line), x) == Lookup(With(b, e, line), x) {
      assert Lookup(a, x) == Lookup(b, x);
    }
  }

  /** A line that sets no assigned key may as well come before the assignments. */
  lemma WithAssigned(m: Values, a: Values, e: Eye, line: string, final: Values)
    requires With(m, e, line).Keys <= final.Keys && a.Keys !! final.Keys
    ensures With(m + a, e, line) == With(m, e, line) + a
  {
    hide Classify;
    if Classify(line).Entry? {
      assert (e.group, Classify(line).key) in With(m, e, line).Keys;
    }
  }

  /** Once the assignments are in, in section `g`. */
  lemma {:induction false} WalkOn(w: Walk, text: string, u: Update, g: string, m: Values)
    requires w.inserted && w.saw && Outside(w.values, m, AssignedTo(g, u).Keys)
    ensures var left := Without(EyeOf(w), text, Changed(u), m); var end := WalkEnd(WalkAll(w, text, u), u);
      && Outside(end, left, AssignedTo(g, u).Keys)
      && (w.values == m + AssignedTo(g, u) && AssignedTo(g, u).Keys !! left.Keys ==> end == left + AssignedTo(g, u))
    decreases |text|
  {
    hide Classify, SectionSeen, LineLength, Taken, Look, AssignedTo, Changed, WalkLine, With, Outside;
    if text != "" {
      var n := LineLength(text);
      var line := text[..n];
      var x, e := WalkLine(w, line, u), EyeOf(w);
      WalkLineIs(w, line, u);
      var m' := if Taken(e, line, Changed(u)) then m else With(m, e, line);
      OutsideWith(w.values, m, AssignedTo(g, u).Keys, e, line);
      WalkOn(x, text[n..], u, g, m');
      WithoutGrows(Look(e, line), text[n..], Changed(u), m');
      var left := Without(e, text, Changed(u), m);
      if w.values == m + AssignedTo(g, u) && AssignedTo(g, u).Keys !! left.Keys && !Taken(e, line, Changed(u)) {
        WithAssigned(m, AssignedTo(g, u), e, line, left);
      }
    }
  }

  lemma EntryNoSection(line: string)
    requires Classify(line).Entry?
    ensures SectionSeen(line).None?
  {
    hide Find, Trim;
    if SectionSeen(line).Some? {
      var t := SectionText(line);
    }
  }

  lemma OutsideAssigned(m: Values, g: string, u: Update)
    ensures Outside(m + AssignedTo(g, u), m, AssignedTo(g, u).Keys)
  {
    hide AssignedTo;
  }

  /** What the rewritten file says, of the place where the assignments go in. */
  ghost predicate Says(end: Values, left: Values, place: Option<string>, u: Update) {
    if place.None? then end == left + Assigned(u)
    else
      && Outside(end, left, AssignedTo(place.value, u).Keys)
      && (AssignedTo(place.value, u).Keys !! left.Keys ==> end == left + AssignedTo(place.value, u))
  }

  /** Until they are. */
  lemma {:induction false} WalkTo(w: Walk, text: string, u: Update)
    requires !w.inserted && w.saw == w.inDefaults
    ensures Says(WalkEnd(WalkAll(w, text, u), u), Without(EyeOf(w), text, Changed(u), w.values), FirstEnd(EyeOf(w), text), u)
    decreases |text|
  {
    hide Classify, SectionSeen, LineLength, Taken, AssignedTo, Assigned, Changed, Outside, WalkLine, With;
    if text == "" {
      WalkEnds(w, u);
    } else {
      var n := LineLength(text);
      var line := text[..n];
      var x, e := WalkLine(w, line, u), EyeOf(w);
      WalkLineIs(w, line, u);
      if w.inDefaults && SectionSeen(line).Some? {
        NoEntryHere(w.values, e, line, Changed(u));
        NoEntryHere(w.values + AssignedTo(w.group, u), e, line, Changed(u));
        OutsideAssigned(w.values, w.group, u);
        WalkOn(x, text[n..], u, w.group, w.values);
      } else {
        WalkTo(x, text[n..], u);
      }
    }
  }

  lemma NoEntryHere(m: Values, e: Eye, line: string, keys: set<string>)
    requires SectionSeen(line).Some?
    ensures (if Taken(e, line, keys) then m else With(m, e, line)) == m
  {
    hide Classify, SectionSeen, Taken;
    if Classify(line).Entry? {
      EntryNoSection(line);
    }
  }

  lemma WalkEnds(w: Walk, u: Update)
    requires !w.inserted && w.saw == w.inDefaults
    ensures Says(WalkEnd(w, u), w.values, if w.inDefaults then Some(w.group) else None, u)
  {
    hide AssignedTo, Assigned, Outside;
    OutsideAssigned(w.values, w.group, u);
    if !u.AnyAssign() {
      NoneAssigned(u);
      assert w.values + Assigned(u) == w.values;
    }
  }

  // ---------------------------------------------------------------------------
  // Exactly the legible files
  // ---------------------------------------------------------------------------

  /** The rewritten file parses, and gives the values of the old one with exactly
      the assigned keys set, the reset keys gone and everything else as it was. */
  ghost predicate Commutes(text: string, u: Update)
    requires Parse(text).Some?
  {
    var after := Parse(Render(text, u));
    after.Some? && ToValues(after.value) == Updated(ToValues(Parse(text).value), u)
  }

  /** What a rewrite comes to, from the file's own values and where they end. */
  lemma RewriteSays(text: string, u: Update)
    requires Parse(text).Some? && CleanUpdate(u)
    ensures Parse(Render(text, u)).Some?
    ensures ToValues(Parse(text).value) == Without(OPEN, text, {}, map[])
    ensures Says(ToValues(Parse(Render(text, u)).value), Without(OPEN, text, Changed(u), map[]), FirstEnd(OPEN, text), u)
  {
    hide ParseText, Render, Without, WalkAll, WalkEnd, Says, FirstEnd, ToValues;
    RenderMeans(text, u);
    NothingParsed();
    WithoutNothing(START, OPEN, text);
    WalkTo(FRESH, text, u);
  }

  lemma LegibleCommutes(text: string, u: Update)
    requires Parse(text).Some? && CleanUpdate(u) && Legible(text)
    ensures Commutes(text, u)
  {
    hide Parse, Render, Without, FirstEnd, ToValues, Assigned, AssignedTo, Targets, Outside;
    RewriteSays(text, u);
    LegibleWithout(text, u);
    AssignedToDefaults(u);
    AssignedAreTargets(u);
  }

  lemma AssignedAreTargets(u: Update)
    ensures Assigned(u).Keys <= Targets(u)
  {
  }

  function Only(key: string, c: Change): (u: Update) {
    Update(if key == "launch" then c else Keep, if key == "mode" then c else Keep, if key == "kill_cleanup" then c else Keep)
  }

  lemma OnlyKey(key: string, c: Change)
    requires key in TRACKED && !c.Keep?
    ensures Changed(Only(key, c)) == {key} && Targets(Only(key, c)) == {("defaults", key)}
    ensures forall g :: AssignedTo(g, Only(key, c)) == if c.Assign? then map[(g, key) := c.value] else map[]
    ensures Assigned(Only(key, c)) == if c.Assign? then map[("defaults", key) := c.value] else map[]
  {
  }

  /** A reset of one key tells whether the lines taken for it are its lines. */
  lemma ResetTells(text: string, key: string)
    requires Parse(text).Some? && key in TRACKED && Commutes(text, Only(key, Reset))
    ensures Without(OPEN, text, {key}, map[]) == Without(OPEN, text, {}, map[]) - {("defaults", key)}
  {
    hide Parse, Render, Without, FirstEnd, ToValues, Assigned, AssignedTo, Targets, Outside, Changed, Only;
    OnlyReset(key);
    var u := Only(key, Reset);
    OnlyKey(key, Reset);
    RewriteSays(text, u);
    var left, whole := Without(OPEN, text, {key}, map[]), Without(OPEN, text, {}, map[]);
    assert left + map[] == left && (whole - {("defaults", key)}) + map[] == whole - {("defaults", key)};
  }

  lemma OnlyReset(key: string)
    ensures CleanUpdate(Only(key, Reset))
  {
  }

  lemma {:induction false} TrimShort(s: string, wide: bool)
    ensures |Trim(s, wide)| <= |s|
  {
  }

  lemma EntryShort(line: string)
    ensures Classify(line).Entry? ==> |Classify(line).value| <= |line|
  {
    hide Trim, Find;
    TrimShort(line, true);
    var t := Trim(line, true);
    var at := Find(t, '=');
    if at < |t| {
      TrimShort(t[at + 1..], true);
    }
  }

  predicate ShortValues(m: Values, size: nat) {
    forall x | x in m :: |m[x]| <= size
  }

  lemma WithShort(m: Values, e: Eye, line: string, size: nat)
    requires ShortValues(m, size) && |line| <= size
    ensures ShortValues(With(m, e, line), size)
  {
    hide Classify;
    EntryShort(line);
  }

  /** No value is longer than the file. */
  lemma {:induction false} ValuesShort(e: Eye, text: string, keys: set<string>, m: Values, size: nat)
    requires |text| <= size && ShortValues(m, size)
    ensures ShortValues(Without(e, text, keys, m), size)
    decreases |text|
  {
    hide Classify, SectionSeen, LineLength, Taken, Look, With, ShortValues;
    if text != "" {
      var line := text[..LineLength(text)];
      WithShort(m, e, line, size);
      ValuesShort(Look(e, line), text[LineLength(text)..], keys, if Taken(e, line, keys) then m else With(m, e, line), size);
    }
  }

  function LongValue(n: nat): (v: string) {
    seq(n, _ => 'x')
  }

  lemma OnlyAssign(n: nat)
    ensures CleanUpdate(Only("launch", Assign(LongValue(n))))
  {
  }

  /** One assignment of a value the file cannot hold tells where assignments go. */
  lemma AssignTells(text: string)
    requires Parse(text).Some? && Commutes(text, Only("launch", Assign(LongValue(|text| + 1))))
    ensures FirstEnd(OPEN, text) in {None, Some("defaults")}
  {
    hide Parse, Render, Without, FirstEnd, ToValues, Assigned, AssignedTo, Targets, Changed, Only, LongValue;
    var v := LongValue(|text| + 1);
    LongValueLength(|text| + 1);
    OnlyAssign(|text| + 1);
    var u := Only("launch", Assign(v));
    OnlyKey("launch", Assign(v));
    RewriteSays(text, u);
    var left := Without(OPEN, text, {"launch"}, map[]);
    ValuesShort(OPEN, text, {"launch"}, map[], |text|);
    var end := ToValues(Parse(Render(text, u)).value);
    assert Lookup(end, ("defaults", "launch")) == Some(v);
    assert Lookup(left, ("defaults", "launch")) != Some(v);
  }

  lemma LongValueLength(n: nat)
    ensures |LongValue(n)| == n
  {
  }

  /** Four updates tell whether a file is legible. */
  lemma CommutesLegible(text: string)
    requires Parse(text).Some? && forall k <- TRACKED :: Commutes(text, Only(k, Reset))
    requires Commutes(text, Only("launch", Assign(LongValue(|text| + 1))))
    ensures Legible(text)
  {
    hide Parse, Commutes, Without, FirstEnd, Only, LongValue;
    forall k <- TRACKED
      ensures Without(OPEN, text, {k}, map[]) == Without(OPEN, text, {}, map[]) - {("defaults", k)}
    {
      ResetTells(text, k);
    }
    AssignTells(text);
  }

  /**
    Rewriting commutes with parsing, for every update, on exactly the legible
    files.
   */
  lemma LegibleIff(text: string)
    requires Parse(text).Some?
    ensures Legible(text) <==> forall u | CleanUpdate(u) :: Commutes(text, u)
  {
    hide Parse, Commutes, Legible, CleanUpdate, Only, LongValue;
    if Legible(text) {
      forall u | CleanUpdate(u) ensures Commutes(text, u) {
        LegibleCommutes(text, u);
      }
    }
    if forall u | CleanUpdate(u) :: Commutes(text, u) {
      forall k <- TRACKED ensures Commutes(text, Only(k, Reset)) {
        OnlyReset(k);
      }
      OnlyAssign(|text| + 1);
      CommutesLegible(text);
    }
  }

  // ---------------------------------------------------------------------------
  // When the two readings agree
  // ---------------------------------------------------------------------------

  predicate NoVerticalSpace(s: string) {
    '\U{0B}' !in s && '\U{0C}' !in s
  }

  /** A line short enough for the rewriter's copy, without vertical tab or form
      feed, and, if it names a section, naming it without padding and in under 64
      characters. */
  predicate Simple(line: string) {
    && |line| < COPY_MAX && NoVerticalSpace(line)
    && (Classify(line).Header? ==>
         && Trim(line, true) == "[" + Classify(line).name + "]"
         && |Classify(line).name| < SECTION_MAX)
  }

  lemma {:induction false} TrimLeftSame(s: string)
    requires NoVerticalSpace(s)
    ensures TrimLeft(s, true) == TrimLeft(s, false) && NoVerticalSpace(TrimLeft(s, true))
  {
    if s != "" && Space(s[0], true) {
      TrimLeftSame(s[1..]);
    }
  }

  lemma {:induction false} TrimRightSame(s: string)
    requires NoVerticalSpace(s)
    ensures TrimRight(s, true) == TrimRight(s, false)
  {
    if s != "" && Space(s[|s| - 1], true) {
      TrimRightSame(s[..|s| - 1]);
    }
  }

  lemma TrimSame(s: string)
    requires NoVerticalSpace(s)
    ensures Trim(s, true) == Trim(s, false)
  {
    TrimLeftSame(s);
    TrimRightSame(TrimLeft(s, true));
  }

  lemma EntryKeySeen(line: string)
    requires |line| < COPY_MAX && NoVerticalSpace(line) && Classify(line).Entry?
    ensures KeySeen(line, Classify(line).key)
  {
    hide Find, TrimRight;
    TrimLeftSame(line);
    var t := TrimLeft(line, true);
    var w := TrimRight(t, true);
    var at := Find(w, '=');
    assert w <= t && t[at] == '=' && forall j | 0 <= j < at :: t[j] == w[j];
    FindIs(t, '=', at);
    assert w[..at] == t[..at] && t[0] == w[0];
    TrimTight("", true);
    assert TrimLeft(t[..at], true) == t[..at];
    TrimRightSame(t[..at]);
  }

  /** Simple lines are read the same way by both. */
  lemma SimpleAgrees(line: string)
    requires Simple(line)
    ensures Agree(line)
  {
    TrimSame(line);
    if Classify(line).Entry? {
      EntryKeySeen(line);
    }
  }

  /** Where the two readings agree, the lines taken for a key are its lines. */
  lemma {:induction false} AgreeWithout(p: Parsed, e: Eye, text: string, key: string, m: Values)
    requires AgreeAll(text) && key in TRACKED && (e.inDefaults <==> e.group == "defaults")
    requires p.group == e.group && ParseText(p, text).Some?
    ensures Without(e, text, {key}, m - {("defaults", key)}) == Without(e, text, {}, m) - {("defaults", key)}
    ensures FirstEnd(e, text) in {None, Some("defaults")}
    decreases |text|
  {
    hide Classify, SectionSeen, KeySeen, LineLength, Add, Taken, With;
    if text != "" {
      var n := LineLength(text);
      var line := text[..n];
      AgreeLine(e, line, key, m);
      AgreeWithout(ParseLine(p, line).value, Look(e, line), text[n..], key, With(m, e, line));
    }
  }

  lemma AgreeLine(e: Eye, line: string, key: string, m: Values)
    requires Agree(line) && !Classify(line).Bad? && key in TRACKED && (e.inDefaults <==> e.group == "defaults")
    ensures Look(e, line).inDefaults <==> Look(e, line).group == "defaults"
    ensures (if Taken(e, line, {key}) then m - {("defaults", key)} else With(m - {("defaults", key)}, e, line))
         == With(m, e, line) - {("defaults", key)}
    ensures !Taken(e, line, {})
  {
    hide Classify, SectionSeen, KeySeen;
    if Classify(line).Entry? {
      TakenIsKey(e, line, {key}, Classify(line).key);
    }
  }

  lemma AgreeLegible(text: string)
    requires Parse(text).Some? && AgreeAll(text)
    ensures Legible(text)
  {
    hide ParseText, AgreeAll, Without, FirstEnd;
    forall k <- TRACKED
      ensures Without(OPEN, text, {k}, map[]) == Without(OPEN, text, {}, map[]) - {("defaults", k)}
    {
      var nothing: Values := map[];
      assert nothing - {("defaults", k)} == nothing;
      AgreeWithout(START, OPEN, text, k, map[]);
    }
    AgreeWithout(START, OPEN, text, "mode", map[]);
  }

  /** So rewriting commutes with parsing wherever the two readings agree. */
  lemma RewriteCommutes(text: string, u: Update)
    requires Parse(text).Some? && AgreeAll(text) && CleanUpdate(u)
    ensures Parse(Render(text, u)).Some?
    ensures ToValues(Parse(Render(text, u)).value) == Updated(ToValues(Parse(text).value), u)
  {
    hide Parse, Render, Legible, AgreeAll, ToValues, Updated;
    AgreeLegible(text);
    LegibleCommutes(text, u);
  }

  predicate SimpleText(text: string)
    decreases |text|
  {
    text == "" || (Simple(text[..LineLength(text)]) && SimpleText(text[LineLength(text)..]))
  }

  lemma {:induction false} SimpleTextAgrees(text: string)
    requires SimpleText(text)
    ensures AgreeAll(text)
    decreases |text|
  {
    if text != "" {
      SimpleAgrees(text[..LineLength(text)]);
      SimpleTextAgrees(text[LineLength(text)..]);
    }
  }

  /** If no line looks like [defaults] to the rewriter, resetting does nothing at all. */
  predicate DefaultsUnseen(text: string)
    decreases |text|
  {
    text == "" || (SectionSeen(text[..LineLength(text)]) != Some("defaults") && DefaultsUnseen(text[LineLength(text)..]))
  }

  lemma UnseenLine(r: Rewriter, line: string, u: Update)
    requires SectionSeen(line) != Some("defaults") && !r.inDefaults
    ensures TakeLine(r, line, u) == r.(out := r.out + line)
  {
  }

  lemma SplitOut(out: string, text: string, n: nat)
    requires n <= |text|
    ensures out + text[..n] + text[n..] == out + text
  {
  }

  lemma {:induction false} UnseenUntouched(r: Rewriter, text: string, u: Update)
    requires DefaultsUnseen(text) && !r.inDefaults
    ensures TakeAll(r, text, u) == r.(out := r.out + text)
    decreases |text|
  {
    hide SectionSeen, TakeLine, LineLength;
    if text == "" {
      assert r.out + text == r.out;
    } else {
      var n := LineLength(text);
      UnseenLine(r, text[..n], u);
      UnseenUntouched(r.(out := r.out + text[..n]), text[n..], u);
      SplitOut(r.out, text, n);
    }
  }

  /** Then what is assigned arrives, in a new section, but a reset of anything
      else that the file sets is lost, and exactly then the law fails. */
  lemma ResetLost(text: string, u: Update)
    requires Parse(text).Some? && DefaultsUnseen(text) && CleanUpdate(u)
    ensures !u.AnyAssign() ==> Render(text, u) == text
    ensures Parse(Render(text, u)).Some?
    ensures ToValues(Parse(Render(text, u)).value) == ToValues(Parse(text).value) + Assigned(u)
    ensures ToValues(Parse(Render(text, u)).value) == Updated(ToValues(Parse(text).value), u)
            <==> Targets(u) - Assigned(u).Keys !! ToValues(Parse(text).value).Keys
  {
    hide TakeAll, ParseText, ToValues, DefaultsUnseen, AssignLines, Assigned, Targets;
    UnseenUntouched(BEGIN, text, u);
    assert "" + text == text;
    var q := ParseText(START, text).value;
    if u.AnyAssign() {
      NewSection(q, text, u);
    } else {
      NoneAssigned(u);
      assert ToValues(q.items) + Assigned(u) == ToValues(q.items);
    }
    NothingRemoved(ToValues(q.items), u);
  }

  lemma NoneAssigned(u: Update)
    requires !u.AnyAssign()
    ensures Assigned(u) == map[]
  {
  }

  lemma NothingRemoved(m: Values, u: Update)
    ensures m + Assigned(u) == Updated(m, u) <==> Targets(u) - Assigned(u).Keys !! m.Keys
  {
    hide Targets, Assigned;
    var a, t := Assigned(u), Targets(u);
    assert (m + a).Keys == m.Keys + a.Keys && (m - t + a).Keys == (m.Keys - t) + a.Keys;
    if t - a.Keys !! m.Keys {
      assert m + a == m - t + a;
    }
  }

  function PaddedHeader(name: string): (line: string) {
    "[ " + name + " ]\n"
  }

  function EntryLine(key: string, value: string): (line: string) {
    key + "=" + value + "\n"
  }

  /** A padded section name is such a case: the file's one setting survives its reset. */
  lemma PaddedSectionExample()
    ensures var text := PaddedHeader("defaults") + EntryLine("mode", "tty"); var u := Update(Keep, Reset, Keep);
      && Parse(text) == Some([Item("defaults", "mode", "tty")])
      && Parse(Render(text, u)) == Parse(text)
      && ("defaults", "mode") in Targets(u)
  {
    hide PaddedHeader, EntryLine, Classify, SectionSeen, Render, Parse, LineLength, DefaultsUnseen, ToValues;
    var header, entry := PaddedHeader("defaults"), EntryLine("mode", "tty");
    var text := header + entry;
    PaddedHeaderSeen("defaults");
    EntryLineRead("mode", "tty");
    LineLengthPrefix(header, entry);
    var n := |header|;
    assert text[..n] == header && text[n..] == entry;
    ParseTwo(text, n, "defaults", "mode", "tty");
    EntryNoSection(entry);
    UnseenTwo(text, n);
    ResetLost(text, Update(Keep, Reset, Keep));
  }

  lemma UnseenTwo(text: string, n: nat)
    requires text != "" && LineLength(text) == n < |text| && LineLength(text[n..]) == |text[n..]|
    requires SectionSeen(text[..n]) != Some("defaults") && SectionSeen(text[n..]) != Some("defaults")
    ensures DefaultsUnseen(text)
  {
    hide SectionSeen, LineLength;
    var rest := text[n..];
    assert rest[..|rest|] == rest && rest[|rest|..] == "";
    assert DefaultsUnseen(rest[|rest|..]);
    assert DefaultsUnseen(rest);
  }

  lemma EntryLineRead(key: string, value: string)
    requires PlainKey(key) && Tight(value, true) && '\n' !in value
    ensures var line := EntryLine(key, value);
      line != "" && EndsLine(line) && LineLength(line) == |line| && Classify(line) == Entry(key, value)
  {
    hide Classify, LineLength;
    ClassifyAssign(key, value);
    LineIsOne(EntryLine(key, value));
  }

  lemma ParseTwo(text: string, n: nat, group: string, key: string, value: string)
    requires text != "" && LineLength(text) == n < |text| && group != ""
    requires Classify(text[..n]) == Header(group) && Classify(text[n..]) == Entry(key, value)
    requires LineLength(text[n..]) == |text[n..]|
    ensures Parse(text) == Some([Item(group, key, value)])
  {
    hide Classify, LineLength;
    ParseOne(Parsed(group, []), text[n..]);
  }

  /** The parser takes the padding off; the rewriter does not. */
  lemma PaddedHeaderSeen(name: string)
    requires name != "" && Tight(name, true) && ']' !in name && '\n' !in name && |name| < SECTION_MAX - 2
    ensures var line := PaddedHeader(name);
      && line != "" && EndsLine(line) && LineLength(line) == |line|
      && Classify(line) == Header(name) && SectionSeen(line) == Some(" " + name + " ")
  {
    hide Find, Trim;
    var line := PaddedHeader(name);
    var padded := " " + name + " ";
    var t := "[" + padded + "]";
    assert "" + t + "\n" == line;
    LineIsOne(line);
    TrimOf("", t, "\n", true);
    TrimOf("", t, "\n", false);
    assert t[1..] == padded + "]" && t[1..|padded| + 1] == padded && t[|padded| + 2..] == "";
    FindIs(padded + "]", ']', |padded|);
    TrimOf(" ", name, " ", true);
    TrimTight("", true);
  }

  // ---------------------------------------------------------------------------
  // Two files that are not legible although the rewriter finds their [defaults]
  // ---------------------------------------------------------------------------

  const DEFAULTS := "[defaults]\n"

  lemma DefaultsSeen()
    ensures EndsLine(DEFAULTS) && LineLength(DEFAULTS) == |DEFAULTS| > 0
    ensures Classify(DEFAULTS) == Header("defaults") && SectionSeen(DEFAULTS) == Some("defaults")
  {
    hide Find, TrimLeft, TrimRight;
    LineIsOne(DEFAULTS);
    assert DEFAULTS == "" + "[defaults]" + "\n";
    TrimOf("", "[defaults]", "\n", true);
    TrimOf("", "[defaults]", "\n", false);
    DefaultsLine(DEFAULTS);
    assert "[defaults]"[1..9] == "defaults";
  }

  /** A section name the parser still takes and the rewriter does not. */
  lemma LongHeaderUnseen(name: string)
    requires SECTION_MAX <= |name| < GROUP_MAX && Tight(name, true) && ']' !in name && '\n' !in name
    ensures var line := "[" + name + "]\n";
      && EndsLine(line) && LineLength(line) == |line| && Classify(line) == Header(name) && SectionSeen(line).None?
  {
    hide Find, TrimLeft, TrimRight, Classify;
    ClassifyHeader(name);
    var t, line := "[" + name + "]", "[" + name + "]\n";
    assert line == "" + t + "\n";
    LineIsOne(line);
    TrimOf("", t, "\n", false);
  }

  lemma ModeLineSeen(value: string)
    requires value != "" && Tight(value, true) && '\n' !in value && |value| < 200
    ensures KeySeen(EntryLine("mode", value), "mode")
  {
    hide Find, TrimRight;
    var line := EntryLine("mode", value);
    assert line[0] == 'm' && TrimLeft(line, false) == line;
    assert line[4] == '=' && line[..4] == "mode";
    FindIs(line, '=', 4);
    assert TrimRight("mode", false) == "mode" by { TrimTight("mode", false); }
  }

  predicate OneLine(line: string) {
    line != "" && EndsLine(line) && LineLength(line) == |line|
  }

  lemma WithoutCons(e: Eye, line: string, rest: string, keys: set<string>, m: Values)
    requires OneLine(line)
    ensures Without(e, line + rest, keys, m)
         == Without(Look(e, line), rest, keys, if Taken(e, line, keys) then m else With(m, e, line))
  {
    hide Taken, Look, With, LineLength;
    LineLengthPrefix(line, rest);
    assert (line + rest)[..|line|] == line && (line + rest)[|line|..] == rest;
  }

  lemma ParseCons(p: Parsed, line: string, rest: string)
    requires OneLine(line)
    ensures ParseText(p, line + rest)
         == if ParseLine(p, line).None? then None else ParseText(ParseLine(p, line).value, rest)
  {
    hide ParseText, LineLength;
    ParseConcat(p, line, rest);
    ParseOne(p, line);
  }

  /** Three lines, walked one by one. */
  lemma ThreeLines(a: string, b: string, c: string, keys: set<string>)
    requires OneLine(a) && OneLine(b) && OneLine(c)
    ensures var e := Look(OPEN, a); var f := Look(e, b);
      var m := if Taken(OPEN, a, keys) then map[] else With(map[], OPEN, a);
      var n := if Taken(e, b, keys) then m else With(m, e, b);
      Without(OPEN, a + (b + c), keys, map[]) == if Taken(f, c, keys) then n else With(n, f, c)
    ensures ParseText(START, a + (b + c)) == ParseThree(a, b, c)
  {
    hide OneLine, Taken, Look, With, ParseLine, Without, ParseText;
    var e := Look(OPEN, a);
    var m := if Taken(OPEN, a, keys) then map[] else With(map[], OPEN, a);
    var n := if Taken(e, b, keys) then m else With(m, e, b);
    WithoutCons(OPEN, a, b + c, keys, map[]);
    WithoutCons(e, b, c, keys, m);
    WithoutCons(Look(e, b), c, "", keys, n);
    assert c + "" == c;
    NothingWithout(Look(Look(e, b), c), keys, if Taken(Look(e, b), c, keys) then n else With(n, Look(e, b), c));
    ParseCons(START, a, b + c);
    if ParseLine(START, a).Some? {
      var p := ParseLine(START, a).value;
      ParseCons(p, b, c);
      if ParseLine(p, b).Some? {
        ParseCons(ParseLine(p, b).value, c, "");
        if ParseLine(ParseLine(p, b).value, c).Some? {
          NothingMore(ParseLine(ParseLine(p, b).value, c).value);
        }
      }
    }
  }

  lemma NothingWithout(e: Eye, keys: set<string>, m: Values)
    ensures Without(e, "", keys, m) == m
  {
  }

  lemma NothingMore(p: Parsed)
    ensures ParseText(p, "") == Some(p)
  {
  }

  function ParseThree(a: string, b: string, c: string): (r: Option<Parsed>) {
    var p := ParseLine(START, a);
    if p.None? then None
    else
      var q := ParseLine(p.value, b);
      if q.None? then None else ParseLine(q.value, c)
  }

  /** The second of two sections of one name hides its setting from a reset. */
  lemma ShadowedExample()
    ensures var text := DEFAULTS + (PaddedHeader("defaults") + EntryLine("mode", "x"));
      && Parse(text) == Some([Item("defaults", "mode", "x")])
      && ("defaults", "mode") in Without(OPEN, text, {"mode"}, map[])
      && !Commutes(text, Only("mode", Reset))
  {
    hide Classify, SectionSeen, LineLength, KeySeen, Without, PaddedHeader, EntryLine, DEFAULTS, Commutes, ParseText;
    var a, b, c := DEFAULTS, PaddedHeader("defaults"), EntryLine("mode", "x");
    var text := a + (b + c);
    DefaultsSeen();
    PaddedHeaderSeen("defaults");
    EntryLineRead("mode", "x");
    EntryNoSection(c);
    ThreeLines(a, b, c, {"mode"});
    if Commutes(text, Only("mode", Reset)) {
      ResetTells(text, "mode");
    }
  }

  /** A reset of a default can take another section's setting with it. */
  lemma StrayResetExample(name: string)
    requires SECTION_MAX <= |name| < GROUP_MAX && Tight(name, true) && ']' !in name && '\n' !in name && name != "defaults"
    ensures var text := DEFAULTS + ("[" + name + "]\n" + EntryLine("mode", "x"));
      && Parse(text) == Some([Item(name, "mode", "x")])
      && (name, "mode") !in Without(OPEN, text, {"mode"}, map[])
      && !Commutes(text, Only("mode", Reset))
  {
    hide Classify, SectionSeen, LineLength, KeySeen, Without, EntryLine, DEFAULTS, Commutes, ParseText;
    var a, b, c := DEFAULTS, "[" + name + "]\n", EntryLine("mode", "x");
    var text := a + (b + c);
    DefaultsSeen();
    LongHeaderUnseen(name);
    EntryLineRead("mode", "x");
    ModeLineSeen("x");
    EntryNoSection(c);
    ThreeLines(a, b, c, {"mode"});
    ThreeLines(a, b, c, {});
    assert (name, "mode") in Without(OPEN, text, {}, map[]);
    if Commutes(text, Only("mode", Reset)) {
      ResetTells(text, "mode");
    }
  }
}
