/**
  One controller connection as a value, and what each operation of
  src/controller/control.c makes of it. `wire` is every byte the socket has
  accepted since the connection was made, and `attachment` what an attached
  client asked for; the program keeps neither.
 */
module ControlClient {
  import opened Wrappers
  import opened Bytes
  import opened Text
  import opened Framing

  const RESPONSE_MAX: nat := 4 * 1024 * 1024
  const CATCHUP_MAX: nat := 65536
  const HEADER_MAX: nat := 96

  datatype Stream = Stdout | Stderr

  datatype Kind =
    | Empty
    | Reading
    | Responding
    | AttachedStdout
    | AttachedStderr
    | AttachingStdin
    | AttachedStdin

  datatype Attachment = Attachment(name: bytes, start: nat, end: nat)

  datatype Client = Client(
    kind: Kind,
    parser: Parser,
    response: bytes,
    offset: nat,
    closeAfter: bool,
    wire: bytes,
    attachment: Option<Attachment>)

  /** close_control_client leaves this; initialize_control_clients starts with it. */
  const EMPTY := Client(Empty, START, [], 0, false, [], None)

  /** accept_control_clients makes this of an empty slot. */
  const ACCEPTED := EMPTY.(kind := Reading)

  /** What the controller knows when a request arrives; `reply` stands for the
      answer to the requests whose handlers are not modelled, `refuse` for their
      failing. */
  datatype World = World(
    out: bytes,
    err: bytes,
    completed: bool,
    stdinOpen: bool,
    readable: bool,
    reply: bytes,
    refuse: bool)
  {
    function Log(stream: Stream): (log: bytes) {
      if stream.Stdout? then out else err
    }
  }

  function AttachedKind(stream: Stream): (kind: Kind) {
    if stream.Stdout? then AttachedStdout else AttachedStderr
  }

  /** stream_file_name */
  function StreamOf(name: bytes): (stream: Option<Stream>) {
    if name == Ascii("stdout") || name == Ascii("out") || name == Ascii("tty") then Some(Stdout)
    else if name == Ascii("stderr") || name == Ascii("err") then Some(Stderr)
    else None
  }

  // ---------------------------------------------------------------------------
  // The response queue
  // ---------------------------------------------------------------------------

  predicate Fits(c: Client, n: nat) {
    |c.response| + n <= RESPONSE_MAX
  }

  /** enqueue_response: all or nothing. The bytes already written count until the
      queue drains. */
  function Enqueue(c: Client, buffer: bytes, granted: bool): (r: Option<Client>) {
    if Fits(c, |buffer|) && granted then Some(c.(response := c.response + buffer)) else None
  }

  /** enqueue_error_response */
  function ErrorReply(c: Client, message: string, granted: bool): (r: Option<Client>) {
    Enqueue(c.(kind := Responding, closeAfter := true), Ascii("error " + message + "\n"), granted)
  }

  /** enqueue_api_frame */
  function ApiReply(c: Client, json: bytes, granted: bool): (r: Option<Client>) {
    if |json| > RESPONSE_MAX - 4 then None
    else Enqueue(c.(kind := Responding, closeAfter := false), U32(|json|) + json, granted)
  }

  datatype Write = Wrote(n: nat) | Interrupted | WouldBlock | Failed

  function Pending(c: Client): (left: bytes)
    requires c.offset <= |c.response|
  {
    c.response[c.offset..]
  }

  /** What flush_control_client_response does once the queue is empty. */
  function Drained(c: Client): (d: Client) {
    var d := c.(response := [], offset := 0);
    if c.kind.Responding? then
      if c.parser.framed && !c.closeAfter
      then d.(kind := Reading, parser := Parser([], true, 0), closeAfter := false)
      else EMPTY
    else if c.kind.AttachingStdin? then d.(kind := AttachedStdin)
    else d
  }

  /** One successful write of up to `n` bytes. */
  function Written(c: Client, n: nat): (d: Client)
    requires c.offset <= |c.response|
    ensures d.offset <= |d.response|
  {
    var m := if n <= |c.response| - c.offset then n else |c.response| - c.offset;
    c.(offset := c.offset + m, wire := c.wire + c.response[c.offset..c.offset + m])
  }

  /** flush_control_client_response: `writes` are the socket's answers, in order;
      after the last of them it would block. */
  function Flush(c: Client, writes: seq<Write>): (d: Client)
    requires c.offset <= |c.response|
    decreases writes
  {
    if c.offset == |c.response| then Drained(c)
    else if writes == [] || writes[0].WouldBlock? then c
    else if writes[0].Failed? then EMPTY
    else if writes[0].Interrupted? then Flush(c, writes[1..])
    else Flush(Written(c, writes[0].n), writes[1..])
  }

  // ---------------------------------------------------------------------------
  // Attaching
  // ---------------------------------------------------------------------------

  function AttachHeader(a: Attachment): (header: bytes)
    requires a.start <= a.end
  {
    Ascii("ok attached stream=") + a.name + Ascii(" start=") + Decimal(a.start)
    + Ascii(" length=") + Decimal(a.end - a.start) + Ascii("\n")
  }

  /** send_attach_catchup and the attach branch of dispatch_control_request. */
  function Attach(c: Client, stream: Stream, name: bytes, start: int, world: World, granted: bool): (r: Option<Client>) {
    var log := world.Log(stream);
    if start < 0 || start > |log| then ErrorReply(c, "invalid_attach_start", granted)
    else if |log| - start > CATCHUP_MAX then ErrorReply(c, "read_too_large", granted)
    else
      var a := Attachment(name, start, |log|);
      if |AttachHeader(a)| >= HEADER_MAX || !world.readable then None
      else
        var q := Enqueue(c, AttachHeader(a) + log[start..], granted);
        if q.None? then None
        else Some(q.value.(kind := AttachedKind(stream), attachment := Some(a)))
  }

  /** sscanf(request + 7, "%15s %lld", stream, &start) == 2 */
  function ParseAttach(text: bytes): (r: Option<(bytes, int)>) {
    var word := ScanWord(text, 15);
    if word.NoMatch? then None
    else
      var number := ScanInt(word.rest);
      if number.NoMatch? then None else Some((word.value, number.value))
  }

  function StartsWith(text: bytes, prefix: bytes): (b: bool)
    ensures b ==> |prefix| <= |text|
  {
    |prefix| <= |text| && text[..|prefix|] == prefix
  }

  /** dispatch_control_request, up to closing on failure. */
  function Command(c: Client, text: bytes, world: World, granted: bool): (r: Option<Client>) {
    if text == Ascii("attach stdin") || text == Ascii("attach in") then
      if world.completed then ErrorReply(c, "process_completed", granted)
      else if !world.stdinOpen then ErrorReply(c, "stdin_closed", granted)
      else Enqueue(c.(kind := AttachingStdin), Ascii("ok attached stream=stdin\n"), granted)
    else if StartsWith(text, Ascii("attach ")) then
      if world.completed then ErrorReply(c, "process_completed", granted)
      else
        var parsed := ParseAttach(text[|Ascii("attach ")|..]);
        if parsed.None? then ErrorReply(c, "bad_attach_command", granted)
        else
          var stream := StreamOf(parsed.value.0);
          if stream.None? then ErrorReply(c, "unknown_stream", granted)
          else Attach(c, stream.value, parsed.value.0, parsed.value.1, world, granted)
    else if world.refuse then None
    else Enqueue(c.(kind := Responding), world.reply, granted)
  }

  function OrClosed(r: Option<Client>): (c: Client) {
    if r.Some? then r.value else EMPTY
  }

  // ---------------------------------------------------------------------------
  // Receiving
  // ---------------------------------------------------------------------------

  datatype Input = Data(chunk: bytes) | Eof | ReadInterrupted | ReadWouldBlock | ReadFailed

  /** The slot after a read; an API reply that cannot be queued ends the controller. */
  datatype Receipt = Receipt(client: Client, halted: bool)

  /** One turn of the loop of read_control_client_request. */
  function Receive(c: Client, input: Input, world: World, granted: bool): (r: Receipt) {
    match input
    case ReadInterrupted => Receipt(c, false)
    case ReadWouldBlock => Receipt(c, false)
    case ReadFailed => Receipt(EMPTY, false)
    case Eof =>
      if c.parser.framed || c.parser.request == [] then Receipt(EMPTY, false)
      else
        var text := Chomp(c.parser.request);
        Receipt(OrClosed(Command(c.(parser := c.parser.(request := text)), text, world, granted)), false)
    case Data(chunk) =>
      var o := Feed(c.parser, chunk);
      var d := c.(parser := o.parser);
      match o.event
      case More => Receipt(d, false)
      case Line(text) => Receipt(OrClosed(Command(d, text, world, granted)), false)
      case Api(payload) =>
        var q := if world.refuse then None else ApiReply(d, world.reply, granted);
        if q.None? then Receipt(d, true) else Receipt(q.value, false)
      case RequestTooLarge => Receipt(OrClosed(if world.refuse then None else ApiReply(d, world.reply, granted)), false)
      case InvalidFrameLength => Receipt(OrClosed(if world.refuse then None else ApiReply(d, world.reply, granted)), false)
      case BadRequest => Receipt(OrClosed(ErrorReply(d, "bad_request", granted)), false)
      case LineTooLong => Receipt(OrClosed(ErrorReply(d, "request_too_long", granted)), false)
  }

  /** read_control_client_request goes on reading after this. */
  predicate ReadsOn(c: Client, input: Input) {
    input.ReadInterrupted? || (input.Data? && Feed(c.parser, input.chunk).event.More?)
  }

  /** read_control_client_request: reads until one ends the call; after the last
      of `inputs` the next read would block. */
  function ReceiveAll(c: Client, inputs: seq<Input>, world: World, granted: bool): (r: Receipt)
    decreases inputs
  {
    if inputs == [] then Receipt(c, false)
    else
      var r := Receive(c, inputs[0], world, granted);
      if ReadsOn(c, inputs[0]) then ReceiveAll(r.client, inputs[1..], world, granted) else r
  }

  // ---------------------------------------------------------------------------
  // The invariant of a slot
  // ---------------------------------------------------------------------------

  /** Bytes on the wire and bytes pending make the header and the log from the
      attach point on: nothing is missing, repeated or out of order. */
  predicate Streaming(c: Client, stream: Stream, log: bytes)
    requires c.offset <= |c.response|
  {
    && c.attachment.Some?
    && var a := c.attachment.value;
    && StreamOf(a.name) == Some(stream)
    && a.start <= a.end <= |log|
    && c.wire + Pending(c) == AttachHeader(a) + log[a.start..]
  }

  predicate Attached(c: Client) {
    c.kind.AttachedStdout? || c.kind.AttachedStderr?
  }

  /** What holds of every slot between steps. */
  predicate Good(c: Client, out: bytes, err: bytes) {
    && c.offset <= |c.response| <= RESPONSE_MAX
    && (c.kind.Empty? ==> c == EMPTY)
    && (c.kind.Reading? ==>
         && Waiting(c.parser) && c.response == []
         && (!c.parser.framed ==> c.wire == []))
    && (c.attachment.Some? ==> Attached(c))
    && (c.kind.AttachedStdout? ==> Streaming(c, Stdout, out))
    && (c.kind.AttachedStderr? ==> Streaming(c, Stderr, err))
  }

  // ---------------------------------------------------------------------------
  // Each operation keeps it
  // ---------------------------------------------------------------------------

  lemma WrittenConserves(c: Client, n: nat)
    requires c.offset <= |c.response|
    ensures var d := Written(c, n);
      d.wire + Pending(d) == c.wire + Pending(c) && c.wire <= d.wire
  {
    var m := if n <= |c.response| - c.offset then n else |c.response| - c.offset;
    assert Pending(c) == c.response[c.offset..c.offset + m] + c.response[c.offset + m..];
  }

  /** A connection that goes on: its stream, if it has one, is the same, and what
      it was sent has only grown. */
  predicate Continues(c: Client, d: Client) {
    c.wire <= d.wire && (Attached(c) ==> d.kind == c.kind && d.attachment == c.attachment)
  }

  /** A flush moves bytes from the queue to the wire, in order, and nothing else. */
  lemma {:induction false} FlushKeepsGood(c: Client, writes: seq<Write>, out: bytes, err: bytes)
    requires Good(c, out, err) && !c.kind.Empty?
    ensures var d := Flush(c, writes); Good(d, out, err) && (d == EMPTY || Continues(c, d))
    decreases writes
  {
    hide StreamOf, AttachHeader;
    if c.offset == |c.response| {
      DrainedKeepsGood(c, out, err);
    } else if writes != [] && writes[0].Wrote? {
      WrittenConserves(c, writes[0].n);
      FlushKeepsGood(Written(c, writes[0].n), writes[1..], out, err);
    } else if writes != [] && writes[0].Interrupted? {
      FlushKeepsGood(c, writes[1..], out, err);
    }
  }

  lemma DrainedKeepsGood(c: Client, out: bytes, err: bytes)
    requires Good(c, out, err) && !c.kind.Empty? && c.offset == |c.response|
    ensures var d := Drained(c); Good(d, out, err) && (d == EMPTY || Continues(c, d))
  {
    hide StreamOf, AttachHeader;
    assert Pending(c) == [] && Pending(Drained(c)) == [];
  }

  /** How much the socket still takes before it would block. */
  function Accepted(writes: seq<Write>): (n: nat) {
    if writes == [] || writes[0].WouldBlock? || writes[0].Failed? then 0
    else (if writes[0].Wrote? then writes[0].n else 0) + Accepted(writes[1..])
  }

  /** A socket that takes as much as is pending leaves a stream fully delivered. */
  lemma {:induction false} FlushDelivers(c: Client, writes: seq<Write>, out: bytes, err: bytes)
    requires Good(c, out, err) && Attached(c) && Accepted(writes) >= |Pending(c)|
    ensures var d := Flush(c, writes); var log := if c.kind.AttachedStdout? then out else err;
      && Continues(c, d) && d.response == []
      && d.wire == AttachHeader(c.attachment.value) + log[c.attachment.value.start..]
    decreases writes
  {
    hide StreamOf, AttachHeader;
    if c.offset == |c.response| {
      assert Pending(c) == [] && c.wire + [] == c.wire;
    } else if writes[0].Wrote? {
      WrittenConserves(c, writes[0].n);
      FlushDelivers(Written(c, writes[0].n), writes[1..], out, err);
    } else {
      FlushDelivers(c, writes[1..], out, err);
    }
  }

  // ---------------------------------------------------------------------------
  // Standard input
  // ---------------------------------------------------------------------------

  predicate AsksStdin(text: bytes) {
    text == Ascii("attach stdin") || text == Ascii("attach in")
  }

  function StdinReply(): (text: bytes) {
    Ascii("ok attached stream=stdin\n")
  }

  /** Of all requests, just these make a slot the child's input, and just while the
      process runs, its input is open and the answer can be queued. */
  lemma StdinAttaching(c: Client, text: bytes, world: World, granted: bool)
    requires !c.kind.AttachingStdin?
    ensures var r := Command(c, text, world, granted);
      && (r.Some? && r.value.kind.AttachingStdin? <==>
            AsksStdin(text) && !world.completed && world.stdinOpen && granted && Fits(c, |StdinReply()|))
      && (r.Some? && r.value.kind.AttachingStdin? ==>
            r.value == c.(kind := AttachingStdin, response := c.response + StdinReply()))
  {
    hide Ascii, ParseAttach, StreamOf, AttachHeader;
  }

  /** Otherwise the asker is told why, and the connection ends behind that. */
  lemma StdinRefused(c: Client, text: bytes, world: World, granted: bool)
    requires AsksStdin(text) && (world.completed || !world.stdinOpen)
    ensures var line := if world.completed then Ascii("error process_completed\n") else Ascii("error stdin_closed\n");
      Command(c, text, world, granted) ==
        if Fits(c, |line|) && granted then Some(c.(kind := Responding, closeAfter := true, response := c.response + line))
        else None
  {
    hide Ascii;
    assert "error " + "process_completed" + "\n" == "error process_completed\n";
    assert "error " + "stdin_closed" + "\n" == "error stdin_closed\n";
  }

  /** Input is passed on once the whole answer is out, and not before. */
  lemma {:induction false} StdinAttached(c: Client, writes: seq<Write>)
    requires c.kind.AttachingStdin? && c.offset <= |c.response|
    ensures var d := Flush(c, writes);
      if Accepted(writes) >= |Pending(c)|
      then d == c.(kind := AttachedStdin, response := [], offset := 0, wire := c.wire + Pending(c))
      else d == EMPTY || (d.kind.AttachingStdin? && d.offset < |d.response| && d.wire + Pending(d) == c.wire + Pending(c))
    decreases writes
  {
    if c.offset == |c.response| {
      assert Pending(c) == [] && c.wire + [] == c.wire;
    } else if writes != [] && writes[0].Wrote? {
      WrittenConserves(c, writes[0].n);
      StdinAttached(Written(c, writes[0].n), writes[1..]);
    } else if writes != [] && writes[0].Interrupted? {
      StdinAttached(c, writes[1..]);
    }
  }

  /** From the first byte: a connection that sends the request, however cut up, and
      takes the answer, is the child's input if and only if that could be had. */
  lemma StdinServed(c: Client, text: bytes, sofar: bytes, chunk: bytes, world: World, granted: bool, writes: seq<Write>)
    requires AsksStdin(text) && Feed(START, sofar) == Outcome(c.parser, More) && sofar + chunk == text + [0x0A]
    requires c == ACCEPTED.(parser := c.parser) && Accepted(writes) >= |StdinReply()|
    ensures var d := Receive(c, Data(chunk), world, granted).client;
      && d.offset <= |d.response|
      && var e := Flush(d, writes);
      && (e.kind.AttachedStdin? <==> !world.completed && world.stdinOpen && granted)
      && (e.kind.AttachedStdin? ==> e.wire == StdinReply() && e.response == [])
  {
    hide Ascii, Feed, Command, Flush;
    StdinLine(text);
    FeedConcat(START, sofar, chunk);
    assert Join([sofar + chunk]) == sofar + chunk;
    LineRequest(text, [sofar + chunk]);
    FeedAllIsFeed(START, [sofar + chunk]);
    var d := c.(parser := Parser(text, false, 0));
    StdinAttaching(d, text, world, granted);
    if !world.completed && world.stdinOpen && granted {
      var e := Command(d, text, world, granted).value;
      assert Pending(e) == StdinReply() && [] + StdinReply() == StdinReply();
      StdinAttached(e, writes);
    } else {
      CommandOffset(d, text, world, granted);
      NotAttached(OrClosed(Command(d, text, world, granted)), writes);
    }
  }

  lemma StdinLine(text: bytes)
    requires AsksStdin(text)
    ensures Plain(text) && |text| < LINE_MAX && Chomp(text) == text && |StdinReply()| == 25
  {
  }

  lemma CommandOffset(c: Client, text: bytes, world: World, granted: bool)
    requires AsksStdin(text) && c.offset == 0 && !(!world.completed && world.stdinOpen && granted)
    ensures var d := OrClosed(Command(c, text, world, granted)); d.offset == 0 && !d.kind.AttachingStdin? && !d.kind.AttachedStdin?
  {
    hide Ascii;
  }

  lemma {:induction false} NotAttached(c: Client, writes: seq<Write>)
    requires c.offset <= |c.response| && !c.kind.AttachingStdin? && !c.kind.AttachedStdin?
    ensures !Flush(c, writes).kind.AttachedStdin?
    decreases writes
  {
    if c.offset < |c.response| && writes != [] {
      if writes[0].Wrote? {
        NotAttached(Written(c, writes[0].n), writes[1..]);
      } else {
        NotAttached(c, writes[1..]);
      }
    }
  }

  /** Broadcasting a chunk to a stream's client extends the stream by that chunk. */
  lemma BroadcastExtends(c: Client, stream: Stream, log: bytes, chunk: bytes, granted: bool)
    requires c.offset <= |c.response| && Streaming(c, stream, log)
    ensures var q := Enqueue(c, chunk, granted);
      q.Some? ==> q.value.offset <= |q.value.response| && Streaming(q.value, stream, log + chunk)
  {
    hide StreamOf, AttachHeader;
    if Enqueue(c, chunk, granted).Some? {
      var d := Enqueue(c, chunk, granted).value;
      var a := c.attachment.value;
      assert Pending(d) == Pending(c) + chunk;
      assert (log + chunk)[a.start..] == log[a.start..] + chunk;
      assert d.wire + Pending(d) == (c.wire + Pending(c)) + chunk;
    }
  }

  /** The catch-up a client gets on attaching is the header and the retained log. */
  lemma AttachStreams(c: Client, stream: Stream, name: bytes, start: int, world: World, granted: bool)
    requires c.response == [] && c.offset == 0 && c.wire == [] && c.attachment.None?
    requires StreamOf(name) == Some(stream)
    ensures var r := Attach(c, stream, name, start, world, granted);
      r.Some? ==> Good(r.value, world.out, world.err) && c.wire <= r.value.wire
  {
    hide StreamOf, AttachHeader;
    var log := world.Log(stream);
    var r := Attach(c, stream, name, start, world, granted);
    if r.Some? && Attached(r.value) {
      var d := r.value;
      var a := Attachment(name, start, |log|);
      assert d.response == AttachHeader(a) + log[start..];
      assert d.wire + Pending(d) == d.response;
    }
  }

  lemma CommandKeepsGood(c: Client, text: bytes, world: World, granted: bool)
    requires c.response == [] && c.offset == 0 && c.wire == [] && c.attachment.None?
    ensures var r := Command(c, text, world, granted); r.Some? ==> Good(r.value, world.out, world.err)
  {
    hide Ascii, ParseAttach, StreamOf, AttachHeader, Attach, StartsWith;
    if StartsWith(text, Ascii("attach ")) {
      var parsed := ParseAttach(text[|Ascii("attach ")|..]);
      if parsed.Some? && StreamOf(parsed.value.0).Some? {
        AttachStreams(c, StreamOf(parsed.value.0).value, parsed.value.0, parsed.value.1, world, granted);
      }
    }
  }

  /** Whatever arrives on a connection, and however it is answered. */
  lemma ReceiveKeepsGood(c: Client, input: Input, world: World, granted: bool)
    requires Good(c, world.out, world.err) && c.kind.Reading?
    ensures var r := Receive(c, input, world, granted);
      !r.halted ==> Good(r.client, world.out, world.err) && (r.client == EMPTY || Continues(c, r.client))
  {
    hide Command, Feed, StreamOf, AttachHeader, Ascii;
    if input.Data? {
      FeedKeepsWaiting(c.parser, input.chunk);
      var o := Feed(c.parser, input.chunk);
      if o.event.Line? {
        CommandKeepsGood(c.(parser := o.parser), o.event.text, world, granted);
      }
    } else if input.Eof? {
      var text := Chomp(c.parser.request);
      if !c.parser.framed {
        CommandKeepsGood(c.(parser := c.parser.(request := text)), text, world, granted);
      }
    }
  }
}
