/**
  The controller's event log: appending (src/controller/state.c, append_event)
  and the pages a client reads back (src/controller/control.c,
  write_events_after_response).
 */
module EventLog {
  import opened Wrappers
  import opened Bytes
  import opened Text
  import C = ControlClient

  const LINE_SIZE: nat := 1024
  const PAYLOAD_SIZE: nat := 65536
  const LIMIT_MAX: int := 1024

  datatype Entry = Entry(sequence: nat, event: bytes)

  function LineOf(e: Entry): (line: bytes) {
    Ascii("seq=") + (Decimal(e.sequence) + (Ascii(" ") + e.event + [0x0A]))
  }

  // ---------------------------------------------------------------------------
  // Appending
  // ---------------------------------------------------------------------------

  /** What the one write of a line came to, once it was not interrupted. */
  datatype Write = Whole | Torn(n: nat) | Failed

  datatype Disk = Disk(file: bytes, next: nat)

  /** The sequence number is used up even when nothing is written. */
  function Appended(d: Disk, event: bytes, w: Write): (r: Disk) {
    var line := LineOf(Entry(d.next, event));
    var written := if |line| >= LINE_SIZE || w.Failed? then []
                   else if w.Torn? && w.n < |line| then line[..w.n] else line;
    Disk(d.file + written, d.next + 1)
  }

  class Log {
    var isOpen: bool
    var file: bytes
    var next: nat

    constructor ()
      ensures isOpen && View() == Disk([], 1)
    {
      isOpen, file, next := true, [], 1;
    }

    function View(): (d: Disk)
      reads this
    {
      Disk(file, next)
    }

    /** append_event */
    method Append(event: bytes, w: Write) returns (ok: bool)
      modifies this
      ensures isOpen == old(isOpen)
      ensures View() == if old(isOpen) then Appended(old(View()), event, w) else old(View())
      ensures ok <==> old(isOpen) && |LineOf(Entry(old(next), event))| < LINE_SIZE
                      && (w.Whole? || (w.Torn? && w.n >= |LineOf(Entry(old(next), event))|))
      ensures ok ==> file == old(file) + LineOf(Entry(old(next), event))
    {
      if !isOpen {
        return false;
      }
      var line := LineOf(Entry(next, event));
      next := next + 1;
      if |line| >= LINE_SIZE {
        return false;
      }
      match w
      case Failed =>
        ok := false;
      case Torn(n) =>
        ok := n >= |line|;
        file := file + if ok then line else line[..n];
      case Whole =>
        ok := true;
        file := file + line;
    }
  }

  datatype Op = Op(event: bytes, write: Write)

  function AppendAll(d: Disk, ops: seq<Op>): (r: Disk)
    decreases ops
  {
    if ops == [] then d else AppendAll(Appended(d, ops[0].event, ops[0].write), ops[1..])
  }

  function Kept(next: nat, op: Op): (es: seq<Entry>) {
    var e := Entry(next, op.event);
    if |LineOf(e)| >= LINE_SIZE || op.write.Failed? then [] else [e]
  }

  /** The entries that reach the file. */
  function Entries(next: nat, ops: seq<Op>): (es: seq<Entry>)
    decreases ops
  {
    if ops == [] then [] else Kept(next, ops[0]) + Entries(next + 1, ops[1..])
  }

  /** Events are one line each and no write was torn. */
  predicate Tidy(ops: seq<Op>) {
    forall o <- ops :: 0x0A !in o.event && !o.write.Torn?
  }

  predicate Sound(e: Entry) {
    0x0A !in e.event && |LineOf(e)| < LINE_SIZE
  }

  predicate Ordered(es: seq<Entry>) {
    && (forall i | 0 <= i < |es| :: Sound(es[i]))
    && (forall i, j | 0 <= i < j < |es| :: es[i].sequence < es[j].sequence)
  }

  function Lines(es: seq<Entry>): (lines: seq<bytes>)
    ensures |lines| == |es| && forall i | 0 <= i < |es| :: lines[i] == LineOf(es[i])
  {
    if es == [] then [] else [LineOf(es[0])] + Lines(es[1..])
  }

  predicate Numbered(es: seq<Entry>, low: nat, high: nat) {
    forall i | 0 <= i < |es| :: low <= es[i].sequence < high
  }

  lemma KeptIsAppended(d: Disk, op: Op)
    requires !op.write.Torn?
    ensures Appended(d, op.event, op.write) == Disk(d.file + Join(Lines(Kept(d.next, op))), d.next + 1)
  {
    hide LineOf;
    var line := LineOf(Entry(d.next, op.event));
    assert Join([line]) == line;
  }

  lemma LinesJoin(kept: seq<Entry>, rest: seq<Entry>)
    requires |kept| <= 1
    ensures Join(Lines(kept + rest)) == Join(Lines(kept)) + Join(Lines(rest))
  {
    hide LineOf;
    if kept == [] {
      assert kept + rest == rest;
    } else {
      assert (kept + rest)[1..] == rest;
      assert Lines(kept) == [LineOf(kept[0])] && Join(Lines(kept)) == LineOf(kept[0]);
    }
  }

  lemma OrderedJoin(next: nat, high: nat, op: Op, rest: seq<Entry>)
    requires 0x0A !in op.event && Ordered(rest) && Numbered(rest, next + 1, high) && next < high
    ensures Ordered(Kept(next, op) + rest) && Numbered(Kept(next, op) + rest, next, high)
  {
    hide LineOf;
    var kept := Kept(next, op);
    var es := kept + rest;
    assert forall i | |kept| <= i < |es| :: es[i] == rest[i - |kept|];
  }

  lemma {:induction false} EntriesOrdered(next: nat, ops: seq<Op>)
    requires Tidy(ops)
    ensures Ordered(Entries(next, ops)) && Numbered(Entries(next, ops), next, next + |ops|)
    decreases ops
  {
    hide Kept, Ordered, Numbered;
    if ops == [] {
      NothingAppended(next);
    } else {
      TidyRest(ops);
      EntriesOrdered(next + 1, ops[1..]);
      OrderedJoin(next, next + |ops|, ops[0], Entries(next + 1, ops[1..]));
    }
  }

  lemma TidyRest(ops: seq<Op>)
    requires Tidy(ops) && ops != []
    ensures 0x0A !in ops[0].event && !ops[0].write.Torn? && Tidy(ops[1..])
  {
  }

  /** The file is the lines of the entries that were not refused, and every append
      uses up one number. */
  lemma {:induction false} AppendsAreLines(d: Disk, ops: seq<Op>)
    requires Tidy(ops)
    ensures AppendAll(d, ops) == Disk(d.file + Join(Lines(Entries(d.next, ops))), d.next + |ops|)
    decreases ops
  {
    hide Appended, Kept, Lines, Tidy, Join;
    if ops == [] {
      NothingAppended(d.next);
      assert d.file + [] == d.file;
    } else {
      var kept, rest := Kept(d.next, ops[0]), Entries(d.next + 1, ops[1..]);
      TidyRest(ops);
      KeptIsAppended(d, ops[0]);
      AppendsAreLines(Appended(d, ops[0].event, ops[0].write), ops[1..]);
      KeptOne(d.next, ops[0]);
      LinesJoin(kept, rest);
      assert d.file + Join(Lines(kept)) + Join(Lines(rest)) == d.file + (Join(Lines(kept)) + Join(Lines(rest)));
    }
  }

  lemma NothingAppended(n: nat)
    ensures Join(Lines([])) == [] && Ordered([]) && Numbered([], n, n)
  {
  }

  lemma KeptOne(next: nat, op: Op)
    ensures |Kept(next, op)| <= 1
  {
  }

  // ---------------------------------------------------------------------------
  // Reading a page
  // ---------------------------------------------------------------------------

  /** How much of a file the next fgets takes. */
  function FgetsLength(s: bytes): (n: nat)
    requires s != []
    ensures 1 <= n <= |s|
  {
    var n := if NewlineAt(s) < |s| then NewlineAt(s) + 1 else |s|;
    if n < LINE_SIZE then n else LINE_SIZE - 1
  }

  /** fgets: up to and with the first newline, but never more than 1023 bytes. */
  lemma FgetsReads(s: bytes)
    requires s != []
    ensures var n := FgetsLength(s);
      && n <= LINE_SIZE - 1
      && (forall i | 0 <= i < n - 1 :: s[i] != 0x0A)
      && (s[n - 1] == 0x0A || n == |s| || n == LINE_SIZE - 1)
  {
    NewlineStands(s);
  }

  lemma {:induction false} NewlineStands(s: bytes)
    ensures NewlineAt(s) < |s| ==> s[NewlineAt(s)] == 0x0A
    ensures forall i | 0 <= i < NewlineAt(s) && i < |s| :: s[i] != 0x0A
  {
    if s != [] && s[0] != 0x0A {
      NewlineStands(s[1..]);
      assert forall i | 1 <= i < |s| :: s[i] == s[1..][i - 1];
    }
  }

  function Pieces(file: bytes): (lines: seq<bytes>) {
    if file == [] then [] else [file[..FgetsLength(file)]] + Pieces(file[FgetsLength(file)..])
  }

  /** sscanf(line, "seq=%lld", &sequence) */
  function SequenceOf(line: bytes): (n: Option<int>) {
    if !C.StartsWith(line, Ascii("seq=")) then None
    else
      var r := ScanInt(line[|Ascii("seq=")|..]);
      if r.NoMatch? then None else Some(r.value)
  }

  predicate Newer(line: bytes, after: int) {
    SequenceOf(line).Some? && SequenceOf(line).value > after
  }

  /** The lines of a page. */
  function Pick(lines: seq<bytes>, after: int, limit: nat, room: nat): (picked: seq<bytes>)
    decreases lines
  {
    if lines == [] || limit == 0 then []
    else if !Newer(lines[0], after) then Pick(lines[1..], after, limit, room)
    else if |lines[0]| > room then []
    else [lines[0]] + Pick(lines[1..], after, limit - 1, room - |lines[0]|)
  }

  datatype Reply = InvalidRange | Page(count: nat, payload: bytes)

  lemma PiecesFrom(file: bytes, at: nat)
    requires at < |file|
    ensures var n := FgetsLength(file[at..]);
      Pieces(file[at..]) == [file[at..at + n]] + Pieces(file[at + n..])
  {
    hide FgetsLength;
    var n := FgetsLength(file[at..]);
    assert file[at..][..n] == file[at..at + n] && file[at..][n..] == file[at + n..];
  }

  lemma PickFrom(line: bytes, rest: seq<bytes>, after: int, limit: nat, room: nat)
    ensures limit > 0 && !Newer(line, after) ==>
      Pick([line] + rest, after, limit, room) == Pick(rest, after, limit, room)
    ensures limit > 0 && Newer(line, after) && |line| > room ==> Pick([line] + rest, after, limit, room) == []
    ensures limit > 0 && Newer(line, after) && |line| <= room ==>
      Pick([line] + rest, after, limit, room) == [line] + Pick(rest, after, limit - 1, room - |line|)
    ensures limit == 0 ==> Pick(rest, after, limit, room) == []
  {
    hide Newer;
  }

  lemma PickNone(after: int, limit: nat, room: nat)
    ensures Pick(Pieces([]), after, limit, room) == []
  {
  }

  /** The body of write_events_after_response up to queueing the reply. */
  method ReadEvents(file: bytes, after: int, limit: int) returns (r: Reply)
    ensures after < 0 || limit < 0 || limit > LIMIT_MAX ==> r == InvalidRange
    ensures 0 <= after && 0 <= limit <= LIMIT_MAX ==>
      var p := Pick(Pieces(file), after, limit, PAYLOAD_SIZE); r == Page(|p|, Join(p))
  {
    hide FgetsLength, Newer, Pick, Pieces;
    if after < 0 || limit < 0 || limit > LIMIT_MAX {
      return InvalidRange;
    }
    var payload: bytes, count, at := [], 0, 0;
    ghost var whole := Pick(Pieces(file), after, limit, PAYLOAD_SIZE);
    ghost var left := whole;
    assert file[0..] == file;
    while at < |file| && count < limit
      invariant at <= |file| && 0 <= count <= limit && |payload| <= PAYLOAD_SIZE
      invariant left == Pick(Pieces(file[at..]), after, limit - count, PAYLOAD_SIZE - |payload|)
      invariant |whole| == count + |left| && Join(whole) == payload + Join(left)
    {
      var n := FgetsLength(file[at..]);
      var line := file[at..at + n];
      PiecesFrom(file, at);
      PickFrom(line, Pieces(file[at + n..]), after, limit - count, PAYLOAD_SIZE - |payload|);
      at := at + n;
      if !Newer(line, after) {
        continue;
      }
      if |line| > PAYLOAD_SIZE - |payload| {
        break;
      }
      left := left[1..];
      payload := payload + line;
      count := count + 1;
    }
    if at == |file| {
      PickNone(after, limit - count, PAYLOAD_SIZE - |payload|);
    }
    PickFrom([], Pieces(file[at..]), after, limit - count, PAYLOAD_SIZE - |payload|);
    assert left == [] && payload + [] == payload;
    return Page(count, payload);
  }

  // ---------------------------------------------------------------------------
  // Pages of a tidy log
  // ---------------------------------------------------------------------------

  /** The line without its number. */
  function Tail(e: Entry): (tail: bytes) {
    Ascii(" ") + e.event + [0x0A]
  }

  lemma LinePrefix()
    ensures |Ascii("seq=")| == 4 && 0x0A !in Ascii("seq=")
    ensures Ascii(" ") == [0x20]
  {
  }

  lemma LineNumbered(e: Entry)
    requires e.sequence <= INT64_MAX
    ensures SequenceOf(LineOf(e)) == Some(e.sequence)
  {
    hide Ascii, Decimal, ScanInt;
    LinePrefix();
    ScanDecimal(e.sequence, Tail(e));
    assert LineOf(e)[..4] == Ascii("seq=") && LineOf(e)[4..] == Decimal(e.sequence) + Tail(e);
  }

  /** A reader of lines: "seq=", a number, a blank, and the event up to the newline. */
  function ReadEntry(line: bytes): (e: Option<Entry>) {
    if !C.StartsWith(line, Ascii("seq=")) || line[|line| - 1] != 0x0A then None
    else
      var s := line[4..];
      var n := Digits(s);
      if n == 0 || n + 1 >= |s| || s[n] != 0x20 then None
      else Some(Entry(DigitsValue(s[..n]), s[n + 1..|s| - 1]))
  }

  /** A line says which event it is, number and text. */
  lemma LineRead(e: Entry)
    ensures ReadEntry(LineOf(e)) == Some(e)
  {
    hide Ascii, Decimal, Digits, DigitsValue;
    LinePrefix();
    DecimalDigits(e.sequence);
    var d, line := Decimal(e.sequence), LineOf(e);
    assert line[..4] == Ascii("seq=") && line[4..] == d + Tail(e);
    DigitsPrefix(d, Tail(e));
    var s := line[4..];
    assert s[..|d|] == d && s[|d|] == 0x20 && s[|d| + 1..|s| - 1] == e.event;
  }

  /** The lines say just these events. */
  ghost predicate Tell(lines: seq<bytes>, es: seq<Entry>) {
    |lines| == |es| && forall i | 0 <= i < |es| :: ReadEntry(lines[i]) == Some(es[i])
  }

  lemma LinesTell(es: seq<Entry>)
    ensures Tell(Lines(es), es)
  {
    hide LineOf, ReadEntry, Lines;
    forall i | 0 <= i < |es| ensures ReadEntry(Lines(es)[i]) == Some(es[i]) {
      LineRead(es[i]);
    }
  }

  /** The line up to its newline. */
  lemma LineEnds(e: Entry, rest: bytes)
    requires Sound(e)
    ensures LineOf(e) != [] && FgetsLength(LineOf(e) + rest) == |LineOf(e)|
  {
    hide Ascii, Decimal, NewlineAt;
    LinePrefix();
    DecimalDigits(e.sequence);
    var body := Ascii("seq=") + (Decimal(e.sequence) + (Ascii(" ") + e.event));
    assert LineOf(e) == body + [0x0A];
    assert 0x0A !in body;
    assert LineOf(e) + rest == body + ([0x0A] + rest);
    NewlineAfter(body, [0x0A] + rest);
    NewlineHere([0x0A] + rest);
  }

  lemma {:induction false} PiecesAreLines(es: seq<Entry>)
    requires forall i | 0 <= i < |es| :: Sound(es[i])
    ensures Pieces(Join(Lines(es))) == Lines(es)
  {
    hide LineOf, FgetsLength;
    if es != [] {
      var rest := Join(Lines(es[1..]));
      var file := Join(Lines(es));
      assert file == LineOf(es[0]) + rest;
      LineEnds(es[0], rest);
      PiecesAreLines(es[1..]);
      assert file[..|LineOf(es[0])|] == LineOf(es[0]) && file[|LineOf(es[0])|..] == rest;
    }
  }

  /** How many entries are not newer than `after`. */
  function Seen(es: seq<Entry>, after: int): (n: nat)
    ensures n <= |es|
  {
    if es == [] || es[0].sequence > after then 0 else 1 + Seen(es[1..], after)
  }

  /** How many entries fit a page. */
  function Fitting(es: seq<Entry>, limit: nat, room: nat): (n: nat)
    ensures n <= |es| && n <= limit
  {
    if es == [] || limit == 0 || |LineOf(es[0])| > room then 0
    else 1 + Fitting(es[1..], limit - 1, room - |LineOf(es[0])|)
  }

  predicate InRange(es: seq<Entry>) {
    Ordered(es) && forall i | 0 <= i < |es| :: es[i].sequence <= INT64_MAX
  }

  lemma {:induction false} SeenSplits(es: seq<Entry>, after: int)
    requires Ordered(es)
    ensures forall i | 0 <= i < Seen(es, after) :: es[i].sequence <= after
    ensures forall i | Seen(es, after) <= i < |es| :: es[i].sequence > after
  {
    hide Sound;
    if es != [] && es[0].sequence <= after {
      SeenSplits(es[1..], after);
      assert forall i | 1 <= i < |es| :: es[i] == es[1..][i - 1];
    }
  }

  /** Splitting is what Seen means. */
  lemma SeenIs(es: seq<Entry>, after: int, n: nat)
    requires Ordered(es) && n <= |es|
    requires (n > 0 ==> es[n - 1].sequence <= after) && (n < |es| ==> es[n].sequence > after)
    ensures Seen(es, after) == n
  {
    hide Seen, Sound;
    SeenSplits(es, after);
    var m := Seen(es, after);
    assert m < |es| ==> es[m].sequence > after;
    assert m > 0 ==> es[m - 1].sequence <= after;
  }

  lemma LinesSlice(es: seq<Entry>, a: nat, b: nat)
    requires a <= b <= |es|
    ensures Lines(es)[a..b] == Lines(es[a..b])
  {
    hide LineOf, Lines;
  }

  /** Once every line is newer, a page is as many of them as fit. */
  lemma {:induction false} PickFits(es: seq<Entry>, after: int, limit: nat, room: nat)
    requires InRange(es) && forall i | 0 <= i < |es| :: es[i].sequence > after
    ensures Pick(Lines(es), after, limit, room) == Lines(es)[..Fitting(es, limit, room)]
    decreases es
  {
    hide LineOf, Sound, SequenceOf;
    if es != [] && limit > 0 {
      LineNumbered(es[0]);
      assert Lines(es)[1..] == Lines(es[1..]);
      if |LineOf(es[0])| <= room {
        PickFits(es[1..], after, limit - 1, room - |LineOf(es[0])|);
      }
    }
  }

  lemma {:induction false} PickSkips(es: seq<Entry>, after: int, limit: nat, room: nat)
    requires InRange(es)
    ensures var m := Seen(es, after);
      Pick(Lines(es), after, limit, room) == Pick(Lines(es[m..]), after, limit, room)
    decreases es
  {
    hide LineOf, Sound, SequenceOf;
    if es == [] || es[0].sequence > after {
      assert es[0..] == es;
    } else {
      LineNumbered(es[0]);
      assert Lines(es)[1..] == Lines(es[1..]);
      PickSkips(es[1..], after, limit, room);
      assert es[Seen(es, after)..] == es[1..][Seen(es[1..], after)..];
    }
  }

  /** A page of a tidy log is the next entries, as many as fit. */
  lemma PageIs(es: seq<Entry>, after: int, limit: nat)
    requires InRange(es)
    ensures var m := Seen(es, after); var k := Fitting(es[m..], limit, PAYLOAD_SIZE);
      && Pick(Pieces(Join(Lines(es))), after, limit, PAYLOAD_SIZE) == Lines(es[m..m + k])
      && (k == 0 <==> limit == 0 || m == |es|)
  {
    hide LineOf, Pick, Pieces, Seen;
    hide Lines;
    var m := Seen(es, after);
    var rest := es[m..];
    var k := Fitting(rest, limit, PAYLOAD_SIZE);
    SeenSplits(es, after);
    PiecesAreLines(es);
    PickSkips(es, after, limit, PAYLOAD_SIZE);
    PickFits(rest, after, limit, PAYLOAD_SIZE);
    LinesSlice(rest, 0, k);
    assert rest[0..k] == es[m..m + k] && Lines(rest)[..k] == Lines(rest)[0..k];
    assert m < |es| ==> Sound(rest[0]);
  }

  // ---------------------------------------------------------------------------
  // Following a log that grows
  // ---------------------------------------------------------------------------

  /** The log as it was when it held no more than `n` entries. */
  function Held(es: seq<Entry>, n: nat): (some: seq<Entry>) {
    if n < |es| then es[..n] else es
  }

  function PageAt(es: seq<Entry>, n: nat, after: int, limit: nat): (page: seq<bytes>) {
    Pick(Pieces(Join(Lines(Held(es, n)))), after, limit, PAYLOAD_SIZE)
  }

  /** A client asks next for what follows the last line it was given. */
  function LastSequence(page: seq<bytes>, after: int): (n: int) {
    if page == [] || SequenceOf(page[|page| - 1]).None? then after else SequenceOf(page[|page| - 1]).value
  }

  datatype Fetched = Fetched(lines: seq<bytes>, after: int)

  /** Asking for a page at each of the given times. */
  function Follow(es: seq<Entry>, times: seq<nat>, after: int, limit: nat): (f: Fetched)
    decreases times
  {
    if times == [] then Fetched([], after)
    else
      var page := PageAt(es, times[0], after, limit);
      var f := Follow(es, times[1..], LastSequence(page, after), limit);
      Fetched(page + f.lines, f.after)
  }

  /** How many of the requests were made while the log held something newer. */
  function Behind(es: seq<Entry>, times: seq<nat>, after: int, limit: nat): (n: nat)
    decreases times
  {
    if times == [] then 0
    else
      (if Seen(es, after) < |Held(es, times[0])| then 1 else 0)
      + Behind(es, times[1..], LastSequence(PageAt(es, times[0], after, limit), after), limit)
  }

  lemma SeenEarlier(es: seq<Entry>, n: nat, after: int)
    requires InRange(es)
    ensures InRange(Held(es, n))
    ensures Seen(Held(es, n), after) == if n < Seen(es, after) then n else Seen(es, after)
  {
    hide Seen, Sound;
    SeenSplits(es, after);
    SeenIs(Held(es, n), after, if n < Seen(es, after) then n else Seen(es, after));
  }

  lemma LastLine(es: seq<Entry>, m: nat, n: nat)
    requires m < n <= |es|
    ensures var page := Lines(es[m..n]); |page| == n - m && page[|page| - 1] == LineOf(es[n - 1])
  {
    hide LineOf, Lines;
    assert es[m..n][n - m - 1] == es[n - 1];
  }

  /** Having read up to entry `n - 1` is having seen `n` entries. */
  lemma LastOf(es: seq<Entry>, m: nat, n: nat, after: int)
    requires InRange(es) && m < n <= |es|
    ensures var page := Lines(es[m..n]);
      LastSequence(page, after) == es[n - 1].sequence && Seen(es, es[n - 1].sequence) == n
  {
    hide LineOf, Lines, Seen, Sound, SequenceOf;
    LastLine(es, m, n);
    LineNumbered(es[n - 1]);
    SeenIs(es, es[n - 1].sequence, n);
  }

  /** The page of an earlier log, as entries of the later one. */
  lemma PageEntries(es: seq<Entry>, n: nat, after: int, limit: nat) returns (k: nat)
    requires InRange(es)
    ensures var m := Seen(es, after);
      && m + k <= |es| && PageAt(es, n, after, limit) == Lines(es[m..m + k])
      && (k > 0 <==> limit > 0 && m < n && m < |es|)
  {
    hide LineOf, Pick, Pieces, Seen, Sound, Fitting, Lines, InRange;
    SeenEarlier(es, n, after);
    var held := Held(es, n);
    var m := Seen(held, after);
    PageIs(held, after, limit);
    k := Fitting(held[m..], limit, PAYLOAD_SIZE);
    assert held[m..m + k] == es[m..m + k];
    if n < Seen(es, after) {
      assert held[m..m + k] == [] == es[Seen(es, after)..Seen(es, after)];
    }
  }

  /** One page moves the client past exactly the entries on it. */
  lemma PageAdvances(es: seq<Entry>, n: nat, after: int, limit: nat)
    requires InRange(es)
    ensures var page := PageAt(es, n, after, limit); var next := LastSequence(page, after);
      && Seen(es, after) <= Seen(es, next)
      && page == Lines(es[Seen(es, after)..Seen(es, next)])
      && (Seen(es, after) < Seen(es, next) <==> limit > 0 && Seen(es, after) < n && Seen(es, after) < |es|)
  {
    hide LineOf, PageAt, Seen, SequenceOf, InRange;
    var k := PageEntries(es, n, after, limit);
    var m := Seen(es, after);
    if k > 0 {
      LastOf(es, m, m + k, after);
    }
  }

  /**
    A client that keeps asking for what follows the last event it was given, with
    any page size and however the log grows in between, is given consecutive
    events: none twice, none left out, in order. With a page size of at least one
    every request made while the log holds something newer gives at least one event.
   */
  lemma {:induction false} FollowTiles(es: seq<Entry>, times: seq<nat>, after: int, limit: nat)
    requires InRange(es)
    ensures var f := Follow(es, times, after, limit);
      && Seen(es, after) <= Seen(es, f.after)
      && f.lines == Lines(es[Seen(es, after)..Seen(es, f.after)])
      && Tell(f.lines, es[Seen(es, after)..Seen(es, f.after)])
      && (limit > 0 ==> |f.lines| >= Behind(es, times, after, limit))
    decreases times
  {
    hide LineOf, Lines, PageAt, Seen, InRange, LastSequence, Tell;
    if times == [] {
      LinesTile(es, Seen(es, after), Seen(es, after), Seen(es, after));
      LinesTell(es[Seen(es, after)..Seen(es, after)]);
    } else {
      var page := PageAt(es, times[0], after, limit);
      var next := LastSequence(page, after);
      PageAdvances(es, times[0], after, limit);
      FollowTiles(es, times[1..], next, limit);
      var f := Follow(es, times[1..], next, limit);
      LinesTile(es, Seen(es, after), Seen(es, next), Seen(es, f.after));
      LinesTell(es[Seen(es, after)..Seen(es, f.after)]);
      HeldSize(es, times[0]);
    }
  }

  lemma HeldSize(es: seq<Entry>, n: nat)
    ensures |Held(es, n)| == if n < |es| then n else |es|
  {
  }

  /** So a client that asks `m` times or more of a log that by then held `m` events
      has seen them all, however much the log has grown since. */
  lemma {:induction false} FollowCatchesUp(es: seq<Entry>, times: seq<nat>, after: int, limit: nat, m: nat)
    requires InRange(es) && limit > 0 && m <= |es|
    requires forall i | 0 <= i < |times| :: times[i] >= m
    ensures var seen := Seen(es, Follow(es, times, after, limit).after); seen >= m || seen >= Seen(es, after) + |times|
    decreases times
  {
    hide PageAt, Seen, InRange, LastSequence, Lines;
    if times != [] {
      PageAdvances(es, times[0], after, limit);
      FollowCatchesUp(es, times[1..], LastSequence(PageAt(es, times[0], after, limit), after), limit, m);
    }
  }

  lemma LinesTile(es: seq<Entry>, a: nat, b: nat, c: nat)
    requires a <= b <= c <= |es|
    ensures Lines(es[a..b]) + Lines(es[b..c]) == Lines(es[a..c])
    ensures Lines(es[a..b]) == [] <==> a == b
  {
    hide LineOf, Lines;
    LinesSlice(es, a, b);
    LinesSlice(es, b, c);
    LinesSlice(es, a, c);
    var lines := Lines(es);
    assert lines[a..b] + lines[b..c] == lines[a..c];
    assert |lines[a..b]| == b - a;
  }

  lemma {:induction false} EntriesPrefix(next: nat, ops: seq<Op>, k: nat)
    requires k <= |ops|
    ensures Entries(next, ops[..k]) <= Entries(next, ops)
    decreases ops
  {
    hide Kept;
    if k > 0 {
      EntriesPrefix(next + 1, ops[1..], k - 1);
      assert ops[..k][1..] == ops[1..][..k - 1];
    }
  }

  /** The pages FollowTiles speaks of are those of the file the controller had
      written after the first `k` of its events. */
  lemma PageOfRun(ops: seq<Op>, k: nat, after: int, limit: nat)
    requires Tidy(ops) && |ops| < INT64_MAX && k <= |ops|
    ensures var es := Entries(1, ops);
      && InRange(es)
      && Pick(Pieces(AppendAll(Disk([], 1), ops[..k]).file), after, limit, PAYLOAD_SIZE)
         == PageAt(es, |Entries(1, ops[..k])|, after, limit)
  {
    hide Entries, AppendAll, Lines, Pick, Pieces, LineOf, Sound;
    EntriesOrdered(1, ops);
    EntriesPrefix(1, ops, k);
    AppendsAreLines(Disk([], 1), ops[..k]);
    var file := Join(Lines(Entries(1, ops[..k])));
    assert [] + file == file;
    assert Held(Entries(1, ops), |Entries(1, ops[..k])|) == Entries(1, ops[..k]);
  }

  // ---------------------------------------------------------------------------
  // Behind a torn line
  // ---------------------------------------------------------------------------

  /** What a torn write leaves, and the next line behind it. */
  function Glued(torn: Entry, n: nat, next: Entry): (line: bytes)
    requires n <= |LineOf(torn)|
  {
    LineOf(torn)[..n] + LineOf(next)
  }

  lemma {:induction false} DigitsWithin(d: bytes, n: nat)
    requires AllDigits(d) && n <= |d|
    ensures DigitsValue(d[..n]) <= DigitsValue(d)
    decreases |d|
  {
    if n < |d| {
      DigitsWithin(d[..|d| - 1], n);
      assert d[..|d| - 1][..n] == d[..n];
    } else {
      assert d[..n] == d;
    }
  }

  /** A number cut short, with anything but a digit behind it, is no larger. */
  lemma CutNumber(v: nat, n: nat, rest: bytes)
    requires v <= INT64_MAX && n <= |Decimal(v)| && rest != [] && !IsDigit(rest[0]) && !IsSpace(rest[0])
    requires rest[0] != 0x2D && rest[0] != 0x2B
    ensures var r := ScanInt(Decimal(v)[..n] + rest); r.Match? ==> r.value <= v
  {
    DecimalDigits(v);
    var d := Decimal(v)[..n];
    var s := d + rest;
    DigitsPrefix(d, rest);
    assert s[0] == if n > 0 then d[0] else rest[0];
    assert Spaces(s) == 0 && s[0..] == s;
    assert s[..n] == d;
    DigitsWithin(Decimal(v), n);
  }

  /** The number of a glued line is the torn line's, or a front of it, or none. */
  lemma GluedNumber(torn: Entry, n: nat, next: Entry)
    requires 0 < n < |LineOf(torn)| && torn.sequence <= INT64_MAX
    ensures var r := SequenceOf(Glued(torn, n, next)); r.Some? ==> r.value <= torn.sequence
  {
    hide Ascii, Decimal, ScanInt;
    LinePrefix();
    SeqLetters();
    var d := Decimal(torn.sequence);
    var line, glued := LineOf(torn), Glued(torn, n, next);
    assert line == Ascii("seq=") + (d + Tail(torn));
    if n < 4 {
      assert glued[n] == LineOf(next)[0] == Ascii("seq=")[0];
      assert glued[..4][n] == glued[n];
    } else {
      assert glued[4..] == line[4..n] + LineOf(next);
      if n <= 4 + |d| {
        assert line[4..n] == d[..n - 4];
        assert LineOf(next)[0] == Ascii("seq=")[0];
        CutNumber(torn.sequence, n - 4, LineOf(next));
      } else {
        var rest := Tail(torn)[..n - 4 - |d|] + LineOf(next);
        assert line[4..n] == d + Tail(torn)[..n - 4 - |d|];
        assert glued[4..] == d + rest;
        assert rest[0] == Tail(torn)[0] == 0x20;
        ScanDecimal(torn.sequence, rest);
      }
    }
  }

  lemma SeqLetters()
    ensures Ascii("seq=")[0] == 0x73 && Ascii("seq=")[1] == 0x65 && Ascii("seq=")[2] == 0x71 && Ascii("seq=")[3] == 0x3D
  {
  }

  lemma GluedIsOne(torn: Entry, n: nat, next: Entry, rest: bytes)
    requires 0 < n < |LineOf(torn)| && Sound(torn) && Sound(next) && n + |LineOf(next)| < LINE_SIZE
    ensures var glued := Glued(torn, n, next); glued != [] && FgetsLength(glued + rest) == |glued|
  {
    hide LineOf, NewlineAt;
    LineBody(torn);
    LineBody(next);
    var front, body := LineOf(torn)[..n], LineOf(next)[..|LineOf(next)| - 1];
    assert 0x0A !in front by {
      assert forall b <- front :: b in LineOf(torn)[..|LineOf(torn)| - 1];
    }
    assert Glued(torn, n, next) + rest == (front + body) + ([0x0A] + rest);
    NewlineAfter(front + body, [0x0A] + rest);
    NewlineHere([0x0A] + rest);
  }

  lemma LineBody(e: Entry)
    requires Sound(e)
    ensures var line := LineOf(e); |line| > 0 && line == line[..|line| - 1] + [0x0A] && 0x0A !in line[..|line| - 1]
  {
    hide Ascii, Decimal;
    LinePrefix();
    DecimalDigits(e.sequence);
    var body := Ascii("seq=") + (Decimal(e.sequence) + (Ascii(" ") + e.event));
    assert LineOf(e) == body + [0x0A];
    assert LineOf(e)[..|body|] == body && 0x0A !in body;
  }

  lemma PiecesCons(line: bytes, rest: bytes)
    requires line != [] && FgetsLength(line + rest) == |line|
    ensures Pieces(line + rest) == [line] + Pieces(rest)
  {
    hide FgetsLength;
    assert (line + rest)[..|line|] == line && (line + rest)[|line|..] == rest;
  }

  lemma LinesCons(es: seq<Entry>)
    requires es != []
    ensures Lines(es) == [LineOf(es[0])] + Lines(es[1..]) && Join(Lines(es)) == LineOf(es[0]) + Join(Lines(es[1..]))
  {
    hide LineOf;
  }

  lemma {:induction false} PiecesWithGlue(es: seq<Entry>, glued: bytes, fs: seq<Entry>)
    requires (forall i | 0 <= i < |es| :: Sound(es[i])) && (forall i | 0 <= i < |fs| :: Sound(fs[i]))
    requires glued != [] && forall rest :: FgetsLength(glued + rest) == |glued|
    ensures Pieces(Join(Lines(es)) + (glued + Join(Lines(fs)))) == Lines(es) + ([glued] + Lines(fs))
    decreases es
  {
    hide LineOf, FgetsLength, Pieces, Lines, Join, Sound;
    var tail := glued + Join(Lines(fs));
    if es == [] {
      NothingAppended(0);
      assert Join(Lines(es)) + tail == tail && Lines(es) + ([glued] + Lines(fs)) == [glued] + Lines(fs);
      PiecesCons(glued, Join(Lines(fs)));
      PiecesAreLines(fs);
    } else {
      var line, rest := LineOf(es[0]), Join(Lines(es[1..])) + tail;
      LinesCons(es);
      LineEnds(es[0], rest);
      PiecesCons(line, rest);
      PiecesWithGlue(es[1..], glued, fs);
      assert Join(Lines(es)) + tail == line + rest;
      assert Lines(es) + ([glued] + Lines(fs)) == [line] + (Lines(es[1..]) + ([glued] + Lines(fs)));
    }
  }

  /**
    The event behind a torn line is never shown under its own number: it is glued
    to the rest of that line, and read, if at all, as an event already passed.
   */
  lemma TornHidesNext(es: seq<Entry>, torn: Entry, n: nat, next: Entry, fs: seq<Entry>)
    requires InRange(es + [torn, next] + fs) && 0 < n < |LineOf(torn)| && n + |LineOf(next)| < LINE_SIZE
    ensures var file := Join(Lines(es)) + (Glued(torn, n, next) + Join(Lines(fs)));
      forall piece <- Pieces(file) :: SequenceOf(piece) != Some(next.sequence)
  {
    hide LineOf, SequenceOf, Pieces, FgetsLength, Sound, Glued, Lines, Join;
    var all := es + [torn, next] + fs;
    var k := |es|;
    assert all[k] == torn && all[k + 1] == next;
    assert forall i | 0 <= i < k :: all[i] == es[i];
    assert forall i | 0 <= i < |fs| :: all[k + 2 + i] == fs[i];
    var glued := Glued(torn, n, next);
    GluedIsOne(torn, n, next, []);
    forall rest ensures FgetsLength(glued + rest) == |glued| {
      GluedIsOne(torn, n, next, rest);
    }
    PiecesWithGlue(es, glued, fs);
    GluedNumber(torn, n, next);
    forall i | 0 <= i < k ensures SequenceOf(Lines(es)[i]) != Some(next.sequence) {
      LineNumbered(es[i]);
    }
    forall i | 0 <= i < |fs| ensures SequenceOf(Lines(fs)[i]) != Some(next.sequence) {
      LineNumbered(fs[i]);
    }
  }

  /** Two bytes of the first event reach the disk, and the second is not shown. */
  lemma TornExample()
    ensures var torn, next := Entry(1, []), Entry(2, []);
      && AppendAll(Disk([], 1), [Op([], Torn(2)), Op([], Whole)]).file == Glued(torn, 2, next)
      && forall piece <- Pieces(Glued(torn, 2, next)) :: SequenceOf(piece) != Some(2)
  {
    hide Ascii, Pieces, SequenceOf;
    LinePrefix();
    var torn, next := Entry(1, []), Entry(2, []);
    assert |Decimal(1)| == 1 && |Decimal(2)| == 1;
    assert |LineOf(torn)| == 7 && |LineOf(next)| == 7;
    var ops := [Op([], Torn(2)), Op([], Whole)];
    assert ops[1..] == [Op([], Whole)] && ops[1..][1..] == [];
    assert [] + LineOf(torn)[..2] == LineOf(torn)[..2];
    assert [] + [torn, next] + [] == [torn, next];
    TornHidesNext([], torn, 2, next, []);
    assert Join(Lines([])) == [];
    assert [] + (Glued(torn, 2, next) + []) == Glued(torn, 2, next);
  }
}
