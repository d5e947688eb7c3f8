/**
  Opening a stream end to end: the command the client writes and the header it
  strips (src/client/attachment.c, attachment_connect_unix_stream), against the
  controller's parser, dispatcher and queues.
 */
module Handshake {
  import opened Wrappers
  import opened Bytes
  import opened Text
  import opened Framing
  import A = Attachment
  import C = ControlClient
  import K = Controller

  const UINT64_MAX: nat := 0xFFFF_FFFF_FFFF_FFFF

  /** stream_name */
  function StreamName(kind: A.StreamKind): (name: bytes) {
    match kind
    case StdoutStream => Ascii("stdout")
    case StderrStream => Ascii("stderr")
    case TtyStream => Ascii("tty")
  }

  function StreamFor(kind: A.StreamKind): (stream: C.Stream) {
    if kind.StderrStream? then C.Stderr else C.Stdout
  }

  function AttachText(kind: A.StreamKind, offset: nat): (text: bytes) {
    Ascii("attach ") + (StreamName(kind) + ([0x20] + Decimal(offset)))
  }

  function AttachCommand(kind: A.StreamKind, offset: nat): (text: bytes) {
    AttachText(kind, offset) + [0x0A]
  }

  // ---------------------------------------------------------------------------
  // The controller reads the command back
  // ---------------------------------------------------------------------------

  /** A word of up to the 15 bytes the dispatcher reads. */
  predicate Word(s: bytes) {
    s != [] && |s| <= 15 && forall i | 0 <= i < |s| :: 0x20 < s[i] < 0x7F
  }

  lemma StdoutKnown()
    ensures Word(Ascii("stdout")) && C.StreamOf(Ascii("stdout")) == Some(C.Stdout)
  {
  }

  lemma StderrKnown()
    ensures Word(Ascii("stderr")) && C.StreamOf(Ascii("stderr")) == Some(C.Stderr)
  {
    assert Ascii("stdout")[3] != Ascii("stderr")[3];
  }

  lemma TtyKnown()
    ensures Word(Ascii("tty")) && C.StreamOf(Ascii("tty")) == Some(C.Stdout)
  {
  }

  lemma NameKnown(kind: A.StreamKind)
    ensures Word(StreamName(kind)) && C.StreamOf(StreamName(kind)) == Some(StreamFor(kind))
  {
    hide Ascii, C.StreamOf;
    StdoutKnown();
    StderrKnown();
    TtyKnown();
  }

  lemma WordScanned(word: bytes, rest: bytes)
    requires Word(word) && rest != [] && IsSpace(rest[0])
    ensures ScanWord(word + rest, 15) == Match(word, rest)
  {
    var s := word + rest;
    assert s[0] == word[0] && Spaces(s) == 0 && s[0..] == s;
    GraphsPrefix(word, rest);
    assert s[..|word|] == word && s[|word|..] == rest;
  }

  lemma BlankSkipped(s: bytes)
    ensures ScanInt([0x20] + s) == ScanInt(s)
  {
    var t := [0x20] + s;
    assert t[1..] == s && Spaces(t) == 1 + Spaces(s);
    assert t[Spaces(t)..] == s[Spaces(s)..];
  }

  /** The scanned offset, clamped to a signed 64-bit number. */
  lemma AttachParsed(word: bytes, offset: nat)
    requires Word(word)
    ensures C.ParseAttach(word + ([0x20] + Decimal(offset)))
         == Some((word, if offset > INT64_MAX then INT64_MAX else offset))
  {
    WordScanned(word, [0x20] + Decimal(offset));
    BlankSkipped(Decimal(offset));
    ScanDecimal(offset, []);
    assert Decimal(offset) + [] == Decimal(offset);
  }

  /** A log no clamped offset could reach refuses that offset either way. */
  lemma ClampRefused(c: C.Client, kind: A.StreamKind, offset: nat, world: C.World, granted: bool)
    requires |world.Log(StreamFor(kind))| < INT64_MAX
    ensures C.Attach(c, StreamFor(kind), StreamName(kind), if offset > INT64_MAX then INT64_MAX else offset, world, granted)
         == C.Attach(c, StreamFor(kind), StreamName(kind), offset, world, granted)
  {
    hide C.ErrorReply, C.AttachHeader, StreamName;
  }

  lemma NotStdin(kind: A.StreamKind, offset: nat)
    ensures AttachText(kind, offset) != Ascii("attach stdin") && AttachText(kind, offset) != Ascii("attach in")
  {
    var text := AttachText(kind, offset);
    var rest := StreamName(kind) + ([0x20] + Decimal(offset));
    assert text[7..] == rest;
    NameKnown(kind);
    assert rest[0] == StreamName(kind)[0];
    assert |StreamName(kind)| == 6 ==> |rest| >= 8;
    DecimalDigits(offset);
    assert kind.TtyStream? ==> rest[0] == Ascii("tty")[0] == 0x74;
    assert Ascii("attach stdin")[7] == 0x73 && |Ascii("attach stdin")| == 12;
    assert Ascii("attach in")[7] == 0x69 && |Ascii("attach in")| == 9;
    assert text[7] == rest[0];
  }

  /** What the client asks for is what the dispatcher does, for every offset. */
  lemma CommandUnderstood(c: C.Client, kind: A.StreamKind, offset: nat, world: C.World, granted: bool)
    requires |world.Log(StreamFor(kind))| < INT64_MAX
    ensures C.Command(c, AttachText(kind, offset), world, granted)
         == if world.completed then C.ErrorReply(c, "process_completed", granted)
            else C.Attach(c, StreamFor(kind), StreamName(kind), offset, world, granted)
  {
    hide Ascii, C.Attach, C.ErrorReply, C.ParseAttach, C.StreamOf, StreamName, Decimal;
    NotStdin(kind, offset);
    NameKnown(kind);
    AttachParsed(StreamName(kind), offset);
    ClampRefused(c, kind, offset, world, granted);
    var head := Ascii("attach ");
    var rest := StreamName(kind) + ([0x20] + Decimal(offset));
    assert AttachText(kind, offset)[..|head|] == head && AttachText(kind, offset)[|head|..] == rest;
  }

  /** The stream a name asks for; a terminal's output is retained as standard output. */
  predicate Asks(word: bytes, stream: C.Stream) {
    match stream
    case Stdout => word == Ascii("stdout") || word == Ascii("out") || word == Ascii("tty")
    case Stderr => word == Ascii("stderr") || word == Ascii("err")
  }

  lemma StreamOfAsks(word: bytes)
    ensures C.StreamOf(word) == if Asks(word, C.Stdout) then Some(C.Stdout) else if Asks(word, C.Stderr) then Some(C.Stderr) else None
  {
    hide Ascii;
  }

  /** Any name and offset: the stream of that name, or a refusal of the name. */
  lemma NameUnderstood(c: C.Client, word: bytes, offset: nat, world: C.World, granted: bool)
    requires Word(word) && offset <= INT64_MAX && !world.completed
    ensures var r := C.Command(c, Ascii("attach ") + (word + ([0x20] + Decimal(offset))), world, granted);
      && (Asks(word, C.Stdout) ==> r == C.Attach(c, C.Stdout, word, offset, world, granted))
      && (Asks(word, C.Stderr) ==> r == C.Attach(c, C.Stderr, word, offset, world, granted))
      && (!Asks(word, C.Stdout) && !Asks(word, C.Stderr) ==> r == C.ErrorReply(c, "unknown_stream", granted))
  {
    hide Ascii, C.Attach, C.ErrorReply, C.ParseAttach, Asks, C.StreamOf, Decimal;
    var head, rest := Ascii("attach "), word + ([0x20] + Decimal(offset));
    StreamOfAsks(word);
    OneStream(word);
    AttachParsed(word, offset);
    BlankInside(word, offset);
    assert (head + rest)[..|head|] == head && (head + rest)[|head|..] == rest;
  }

  lemma OneStream(word: bytes)
    ensures !(Asks(word, C.Stdout) && Asks(word, C.Stderr))
  {
    assert Ascii("stdout")[3] == 0x6F && Ascii("stderr")[3] == 0x65;
    assert Ascii("out")[0] == 0x6F && Ascii("tty")[0] == 0x74 && Ascii("err")[0] == 0x65;
    assert |Ascii("stdout")| == |Ascii("stderr")| == 6 && |Ascii("out")| == |Ascii("tty")| == |Ascii("err")| == 3;
  }

  /** A name with a number behind it is not the bare request for standard input. */
  lemma BlankInside(word: bytes, offset: nat)
    ensures var text := Ascii("attach ") + (word + ([0x20] + Decimal(offset)));
      text != Ascii("attach stdin") && text != Ascii("attach in")
  {
    var text := Ascii("attach ") + (word + ([0x20] + Decimal(offset)));
    AttachWord();
    assert text[7 + |word|] == 0x20;
    assert forall i | 7 <= i < 12 :: Ascii("attach stdin")[i] != 0x20;
    assert forall i | 7 <= i < 9 :: Ascii("attach in")[i] != 0x20;
    assert |Ascii("attach stdin")| == 12 && |Ascii("attach in")| == 9;
  }

  /** Anything else behind "attach " is refused, and told so. */
  lemma AttachRefused(c: C.Client, rest: bytes, world: C.World, granted: bool)
    requires C.ParseAttach(rest).None? && !C.AsksStdin(Ascii("attach ") + rest)
    ensures C.Command(c, Ascii("attach ") + rest, world, granted)
         == C.ErrorReply(c, if world.completed then "process_completed" else "bad_attach_command", granted)
  {
    hide Ascii, C.ErrorReply, C.ParseAttach;
    assert (Ascii("attach ") + rest)[..|Ascii("attach ")|] == Ascii("attach ");
    assert (Ascii("attach ") + rest)[|Ascii("attach ")|..] == rest;
  }

  lemma AttachWord()
    ensures Plain(Ascii("attach ")) && |Ascii("attach ")| == 7
  {
  }

  lemma PlainJoin(a: bytes, b: bytes)
    requires Plain(a) && Plain(b)
    ensures Plain(a + b)
  {
  }

  lemma PlainDecimal(n: nat)
    ensures Plain(Decimal(n)) && Decimal(n) != [] && Decimal(n)[|Decimal(n)| - 1] != 0x0D
  {
    hide Decimal, DigitsValue;
    DecimalDigits(n);
  }

  lemma CommandFits(kind: A.StreamKind, offset: nat)
    requires offset <= UINT64_MAX
    ensures Plain(AttachText(kind, offset)) && |AttachCommand(kind, offset)| < 128
    ensures Chomp(AttachText(kind, offset)) == AttachText(kind, offset)
  {
    hide Ascii, StreamName, Decimal, Plain;
    AttachWord();
    NameKnown(kind);
    PlainName(kind);
    Decimal64(offset);
    PlainDecimal(offset);
    PlainBlank();
    var name, digits := StreamName(kind), Decimal(offset);
    PlainJoin([0x20], digits);
    PlainJoin(name, [0x20] + digits);
    PlainJoin(Ascii("attach "), name + ([0x20] + digits));
    var text := AttachText(kind, offset);
    assert text[|text| - 1] == digits[|digits| - 1];
  }

  lemma PlainName(kind: A.StreamKind)
    ensures Plain(StreamName(kind))
  {
    hide StreamName;
    NameKnown(kind);
  }

  lemma PlainBlank()
    ensures Plain([0x20])
  {
  }

  // ---------------------------------------------------------------------------
  // The client reads the header
  // ---------------------------------------------------------------------------

  const HEADER_SIZE: nat := 256

  datatype Opening = Opened(rest: bytes) | Refused | TooLarge | Cut

  /** What the client makes of the bytes that reach it before the connection ends. */
  function HeaderOf(wire: bytes): (r: Opening) {
    var n := NewlineAt(wire);
    if n >= HEADER_SIZE - 1 then TooLarge
    else if n == |wire| then Cut
    else if C.StartsWith(wire[..n], Ascii("ok attached ")) then Opened(wire[n + 1..])
    else Refused
  }

  /** The header loop of attachment_connect_unix_stream: a byte at a time into a
      buffer of 256. */
  method ReadHeader(wire: bytes) returns (r: Opening)
    ensures r == HeaderOf(wire)
  {
    hide NewlineAt, Ascii;
    var header: bytes := [];
    var ended := false;
    var at := 0;
    while |header| + 1 < HEADER_SIZE && !ended
      invariant 0 <= at <= |wire| && |header| < HEADER_SIZE && 0x0A !in header
      invariant ended ==> at > 0 && |header| + 1 < HEADER_SIZE && wire[at - 1] == 0x0A
      invariant header == wire[..if ended then at - 1 else at]
      decreases HEADER_SIZE - |header|, !ended
    {
      if at == |wire| {
        NoNewline(header);
        assert header == wire;
        return Cut;
      }
      if wire[at] == 0x0A {
        ended := true;
      } else {
        header := header + [wire[at]];
      }
      at := at + 1;
    }
    assert wire == header + wire[|header|..];
    NewlineAfter(header, wire[|header|..]);
    if |header| + 1 >= HEADER_SIZE {
      return TooLarge;
    }
    NewlineHere(wire[|header|..]);
    if !C.StartsWith(header, Ascii("ok attached ")) {
      return Refused;
    }
    return Opened(wire[at..]);
  }

  // ---------------------------------------------------------------------------
  // The header the controller writes
  // ---------------------------------------------------------------------------

  /** The header without its newline. */
  function HeaderLine(a: C.Attachment): (line: bytes)
    requires a.start <= a.end
  {
    Ascii("ok attached stream=") + a.name + Ascii(" start=") + Decimal(a.start)
    + Ascii(" length=") + Decimal(a.end - a.start)
  }

  lemma NoNewlineInLiterals()
    ensures 0x0A !in Ascii("ok attached stream=") && 0x0A !in Ascii(" start=") && 0x0A !in Ascii(" length=")
    ensures |Ascii("ok attached stream=")| == 19 && |Ascii(" start=")| == 7 && |Ascii(" length=")| == 8
  {
  }

  lemma LineStart()
    ensures |Ascii("ok attached ")| == 12 && Ascii("ok attached stream=")[..12] == Ascii("ok attached ")
  {
  }

  lemma NewlineLiteral()
    ensures Ascii("\n") == [0x0A]
  {
  }

  lemma NoNewlineInDecimal(n: nat)
    ensures 0x0A !in Decimal(n)
  {
    DecimalDigits(n);
  }

  lemma HeaderIsLine(kind: A.StreamKind, start: nat, end: nat)
    requires start <= end <= UINT64_MAX
    ensures var a := C.Attachment(StreamName(kind), start, end); var line := HeaderLine(a);
      && C.AttachHeader(a) == line + [0x0A]
      && 0x0A !in line && |line| < C.HEADER_MAX - 1 && C.StartsWith(line, Ascii("ok attached "))
  {
    hide Ascii, StreamName, Decimal;
    NoNewlineInLiterals();
    LineStart();
    NewlineLiteral();
    NameKnown(kind);
    NoNewlineInDecimal(start);
    NoNewlineInDecimal(end - start);
    Decimal64(start);
    Decimal64(end - start);
    var line := HeaderLine(C.Attachment(StreamName(kind), start, end));
    assert line[..19] == Ascii("ok attached stream=");
    assert line[..12] == line[..19][..12];
  }

  /** The header is stripped exactly, wherever the stream happens to end. */
  /** The header's numbers, as scanf reads them: where the stream starts, and how much
      of the log comes with it. */
  lemma HeaderNumbers(a: C.Attachment)
    requires a.start <= a.end <= INT64_MAX
    ensures var h := C.AttachHeader(a); var at := |Ascii("ok attached stream=")| + |a.name| + |Ascii(" start=")|;
      && at <= |h|
      && var r := ScanInt(h[at..]);
      && r.Match? && r.value == a.start && C.StartsWith(r.rest, Ascii(" length="))
      && ScanInt(r.rest[|Ascii(" length=")|..]) == Match(a.end - a.start, [0x0A])
  {
    hide Ascii, Decimal, ScanInt;
    NewlineLiteral();
    LengthLiteral();
    var h := C.AttachHeader(a);
    var at := |Ascii("ok attached stream=")| + |a.name| + |Ascii(" start=")|;
    var rest := Ascii(" length=") + (Decimal(a.end - a.start) + [0x0A]);
    assert h[at..] == Decimal(a.start) + rest;
    ScanDecimal(a.start, rest);
    assert rest[..|Ascii(" length=")|] == Ascii(" length=") && rest[|Ascii(" length=")|..] == Decimal(a.end - a.start) + [0x0A];
    ScanDecimal(a.end - a.start, [0x0A]);
  }

  lemma LengthLiteral()
    ensures Ascii(" length=") != [] && !IsDigit(Ascii(" length=")[0])
  {
  }

  lemma HeaderStripped(line: bytes, tail: bytes, wire: bytes)
    requires 0x0A !in line && |line| < C.HEADER_MAX - 1 && C.StartsWith(line, Ascii("ok attached "))
    requires wire <= line + [0x0A] + tail
    ensures HeaderOf(wire) == if |wire| <= |line| then Cut else Opened(wire[|line| + 1..])
  {
    hide Ascii, NewlineAt;
    var whole := line + [0x0A] + tail;
    if |wire| <= |line| {
      assert wire == whole[..|wire|] == line[..|wire|];
      NoNewline(wire);
    } else {
      var rest := wire[|line|..];
      assert wire == whole[..|wire|];
      assert wire[..|line|] == line && rest[0] == whole[|line|] == 0x0A;
      assert wire == line + rest;
      NewlineAfter(line, rest);
      NewlineHere(rest);
    }
  }

  /** An error reply is never taken for a header. */
  lemma ErrorRefused(message: string, wire: bytes)
    requires wire <= Ascii("error " + message + "\n")
    ensures !HeaderOf(wire).Opened?
  {
    if wire != [] {
      assert wire[0] == Ascii("error " + message + "\n")[0] == 0x65 && Ascii("ok attached ")[0] == 0x6F;
      var n := NewlineAt(wire);
      assert n > 0 ==> wire[..n][0] == wire[0];
    }
  }

  // ---------------------------------------------------------------------------
  // From the command to the bytes
  // ---------------------------------------------------------------------------

  /** When an attach request is granted, and what it then attaches. */
  lemma AttachGranted(c: C.Client, kind: A.StreamKind, offset: nat, world: C.World, granted: bool)
    requires c.response == [] && |world.Log(StreamFor(kind))| < INT64_MAX
    ensures var r := C.Attach(c, StreamFor(kind), StreamName(kind), offset, world, granted);
      var length := |world.Log(StreamFor(kind))|;
      && (r.Some? && C.Attached(r.value) <==>
           offset <= length && length - offset <= C.CATCHUP_MAX && world.readable && granted)
      && (r.Some? && C.Attached(r.value) ==>
           && r.value.kind == C.AttachedKind(StreamFor(kind))
           && r.value.attachment == Some(C.Attachment(StreamName(kind), offset, length)))
  {
    hide Ascii, StreamName, C.AttachHeader;
    if offset <= |world.Log(StreamFor(kind))| {
      HeaderIsLine(kind, offset, |world.Log(StreamFor(kind))|);
    }
  }

  /** A slot that has read `sofar` of the client's command. */
  predicate Asking(c: C.Client, kind: A.StreamKind, offset: nat, sofar: bytes, chunk: bytes) {
    && c.kind.Reading?
    && Feed(START, sofar) == Outcome(c.parser, More)
    && sofar + chunk == AttachCommand(kind, offset)
  }

  lemma AskedLine(c: C.Client, kind: A.StreamKind, offset: nat, sofar: bytes, chunk: bytes)
    requires offset <= UINT64_MAX && Asking(c, kind, offset, sofar, chunk)
    ensures var text := AttachText(kind, offset);
      Feed(c.parser, chunk) == Outcome(Parser(text, false, 0), Line(text))
  {
    hide Feed, AttachText, Chomp, Plain;
    CommandFits(kind, offset);
    FeedConcat(START, sofar, chunk);
    assert Join([sofar + chunk]) == sofar + chunk;
    LineRequest(AttachText(kind, offset), [sofar + chunk]);
    FeedAllIsFeed(START, [sofar + chunk]);
  }

  /**
    The controller attaches exactly the client that asks for an offset inside the
    retained log and at most 64 KiB behind, and attaches it there.
   */
  lemma RequestAttaches(s: K.State, i: nat, kind: A.StreamKind, offset: nat, sofar: bytes, chunk: bytes, k: K.Conditions)
    requires K.Inv(s) && s.running && i < K.SLOTS && offset <= UINT64_MAX
    requires Asking(s.clients[i], kind, offset, sofar, chunk) && |s.Log(StreamFor(kind))| < INT64_MAX
    ensures var t := K.Next(s, K.Receive(i, C.Data(chunk), k)); var length := |s.Log(StreamFor(kind))|;
      && |t.clients| == K.SLOTS
      && (C.Attached(t.clients[i]) <==>
           !k.completed && offset <= length && length - offset <= C.CATCHUP_MAX && k.readable && k.granted)
      && (C.Attached(t.clients[i]) ==>
           && t.clients[i].kind == C.AttachedKind(StreamFor(kind))
           && t.clients[i].attachment == Some(C.Attachment(StreamName(kind), offset, length)))
  {
    hide Feed, Ascii, AttachText, C.Attach, C.Command, StreamName, C.AttachHeader;
    var c := s.clients[i];
    AskedLine(c, kind, offset, sofar, chunk);
    var d := c.(parser := Parser(AttachText(kind, offset), false, 0));
    var world := K.WorldOf(s, k);
    CommandUnderstood(d, kind, offset, world, k.granted);
    assert C.Good(c, s.out, s.err);
    AttachGranted(d, kind, offset, world, k.granted);
  }

  /**
    End to end. A client asks for a stream from an offset, and the controller
    attaches it. Whatever else happens while the connection lasts, and however
    much of what was written has arrived, the client finds a header and after it
    the log from the offset it asked for; all of it, once the queue is empty.
   */
  lemma StreamDelivered(s: K.State, i: nat, kind: A.StreamKind, offset: nat, sofar: bytes, chunk: bytes,
                        k: K.Conditions, steps: seq<K.Step>, wire: bytes)
    requires K.Inv(s) && s.running && i < K.SLOTS && offset <= UINT64_MAX
    requires Asking(s.clients[i], kind, offset, sofar, chunk) && |s.Log(StreamFor(kind))| < INT64_MAX
    requires var t := K.Next(s, K.Receive(i, C.Data(chunk), k));
      K.Inv(t) && C.Attached(t.clients[i]) && K.StaysOpen(t, steps, i) && wire <= K.Run(t, steps).clients[i].wire
    ensures var u := K.Run(K.Next(s, K.Receive(i, C.Data(chunk), k)), steps);
      var log := u.Log(StreamFor(kind));
      && offset <= |log|
      && (HeaderOf(wire).Cut? || HeaderOf(wire).Opened?)
      && (HeaderOf(wire).Opened? ==> HeaderOf(wire).rest <= log[offset..])
      && (wire == u.clients[i].wire && u.clients[i].response == [] ==> HeaderOf(wire) == Opened(log[offset..]))
  {
    hide Ascii, StreamName, C.AttachHeader, HeaderOf, HeaderLine, K.Next, K.StaysOpen, Asking;
    var t := K.Next(s, K.Receive(i, C.Data(chunk), k));
    RequestAttaches(s, i, kind, offset, sofar, chunk, k);
    K.StreamContinues(t, steps, i);
    var u := K.Run(t, steps);
    var c := u.clients[i];
    SlotRead(c, kind, offset, |s.Log(StreamFor(kind))|, u, wire);
  }

  /** The same, of one state whose slot `c` is attached at `offset`. */
  lemma SlotRead(c: C.Client, kind: A.StreamKind, offset: nat, end: nat, u: K.State, wire: bytes)
    requires offset <= end <= UINT64_MAX && c.kind == C.AttachedKind(StreamFor(kind))
    requires c.attachment == Some(C.Attachment(StreamName(kind), offset, end))
    requires C.Good(c, u.out, u.err) && wire <= c.wire
    ensures var log := u.Log(StreamFor(kind));
      && offset <= |log|
      && (HeaderOf(wire).Cut? || HeaderOf(wire).Opened?)
      && (HeaderOf(wire).Opened? ==> HeaderOf(wire).rest <= log[offset..])
      && (wire == c.wire && c.response == [] ==> HeaderOf(wire) == Opened(log[offset..]))
  {
    hide Ascii, StreamName, C.AttachHeader, HeaderOf, HeaderLine, C.StreamOf;
    var log := u.Log(StreamFor(kind));
    var line := HeaderLine(c.attachment.value);
    HeaderIsLine(kind, offset, end);
    var whole := line + [0x0A] + log[offset..];
    assert c.wire + C.Pending(c) == whole;
    assert wire <= whole;
    HeaderStripped(line, log[offset..], wire);
    assert whole[|line| + 1..] == log[offset..];
    assert |wire| > |line| ==> wire[|line| + 1..] <= log[offset..];
    assert c.response == [] ==> C.Pending(c) == [] && c.wire == whole;
  }
}
