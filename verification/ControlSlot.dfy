/**
  A client slot as src/controller/control.c keeps it, updated in place, each
  operation proved against its meaning in ControlClient. The socket's answers
  are inputs; whether the allocator grants a larger buffer is not decided here,
  and reported in the ghost result `granted`.
 */
module ControlSlot {
  import opened Wrappers
  import opened Bytes
  import opened Text
  import opened Framing
  import opened ControlClient
  import Controller

  const FILE_CHUNK: nat := 4096

  class Slot {
    var kind: Kind
    var request: bytes
    var framed: bool
    var framedLength: nat
    var response: bytes
    var capacity: nat
    var offset: nat
    var closeAfter: bool
    ghost var wire: bytes
    ghost var attachment: Option<Attachment>

    ghost predicate Valid()
      reads this
    {
      && offset <= |response| <= capacity <= RESPONSE_MAX
      && (capacity == 0 || FILE_CHUNK <= capacity)
    }

    ghost function View(): (c: Client)
      reads this
    {
      Client(kind, Parser(request, framed, framedLength), response, offset, closeAfter, wire, attachment)
    }

    constructor ()
      ensures Valid() && View() == EMPTY
    {
      kind, request, framed, framedLength := Empty, [], false, 0;
      response, capacity, offset, closeAfter := [], 0, 0, false;
      wire, attachment := [], None;
    }

    /** close_control_client */
    method Close()
      modifies this
      ensures Valid() && View() == EMPTY
    {
      kind, request, framed, framedLength := Empty, [], false, 0;
      response, capacity, offset, closeAfter := [], 0, 0, false;
      wire, attachment := [], None;
    }

    /** The slot's part of accept_control_clients. */
    method Accept()
      requires Valid() && View() == EMPTY
      modifies this
      ensures Valid() && View() == ACCEPTED
    {
      kind := Reading;
      request, framed, framedLength := [], false, 0;
      response, offset, closeAfter := [], 0, false;
    }

    /** enqueue_response: the capacity doubles until the bytes fit, never past the
        four megabytes, and memory is asked for only when it is needed. */
    method Enqueue(buffer: bytes) returns (ok: bool, ghost granted: bool)
      requires Valid()
      modifies this`response, this`capacity
      ensures Valid()
      ensures ok <==> ControlClient.Enqueue(old(View()), buffer, granted).Some?
      ensures View() == if ok then ControlClient.Enqueue(old(View()), buffer, granted).value else old(View())
      ensures |old(response)| + |buffer| <= old(capacity) ==> granted
    {
      granted := true;
      if |buffer| > RESPONSE_MAX || |response| > RESPONSE_MAX - |buffer| {
        return false, granted;
      }
      var required := |response| + |buffer|;
      if required > capacity {
        var wanted := if capacity == 0 then FILE_CHUNK else capacity;
        while wanted < required
          invariant FILE_CHUNK <= wanted <= RESPONSE_MAX && capacity <= wanted
          decreases RESPONSE_MAX - wanted
        {
          wanted := if wanted > RESPONSE_MAX / 2 then RESPONSE_MAX else wanted * 2;
        }
        var memory: bool := *;
        if !memory {
          granted := false;
          return false, granted;
        }
        capacity := wanted;
      }
      response := response + buffer;
      return true, granted;
    }

    /** enqueue_stream_bytes: the file is read in pieces of at most 4096 bytes, any
        of which may come back short; where the file ends early, so does the range.
        A failure leaves the pieces queued before it, and the caller closes. */
    method EnqueueStreamBytes(file: bytes, start: nat, length: nat, readable: bool) returns (ok: bool, ghost granted: bool)
      requires Valid() && start <= |file|
      modifies this`response, this`capacity
      ensures Valid()
      ensures ok <==> readable && granted && |old(response)| + InFile(file, start, length) <= RESPONSE_MAX
      ensures ok ==> response == old(response) + file[start..start + InFile(file, start, length)]
      ensures old(response) <= response <= old(response) + file[start..start + InFile(file, start, length)]
    {
      hide Holds;
      HoldsNothing(response, file, start);
      granted := true;
      if !readable {
        PartQueued(response, response, file, start, start, start + InFile(file, start, length));
        return false, granted;
      }
      var remaining, at := length, start;
      while remaining > 0
        invariant 0 <= remaining && at + remaining == start + length && Valid() && granted
        invariant start <= at <= |file| && |response| == |old(response)| + at - start
        invariant Holds(response, old(response), file, start, at)
      {
        if at == |file| {
          break;
        }
        var most := if remaining > FILE_CHUNK then FILE_CHUNK else remaining;
        var n: nat :| 1 <= n <= most && at + n <= |file|;
        ghost var before := response;
        ok, granted := Queue(file[at..at + n]);
        if !ok {
          PartQueued(response, old(response), file, start, at, start + InFile(file, start, length));
          return false, granted;
        }
        PieceJoins(before, old(response), file, start, at, n);
        remaining, at := remaining - n, at + n;
      }
      PartQueued(response, old(response), file, start, at, at);
      ok := true;
    }

    /** enqueue_response, as far as the queue goes. */
    method Queue(buffer: bytes) returns (ok: bool, ghost granted: bool)
      requires Valid()
      modifies this`response, this`capacity
      ensures Valid()
      ensures ok <==> granted && |old(response)| + |buffer| <= RESPONSE_MAX
      ensures response == if ok then old(response) + buffer else old(response)
    {
      ok, granted := Enqueue(buffer);
    }

    /** enqueue_error_response */
    method Error(message: string) returns (ok: bool, ghost granted: bool)
      requires Valid()
      modifies this
      ensures Valid()
      ensures ok <==> ErrorReply(old(View()), message, granted).Some?
      ensures ok ==> View() == ErrorReply(old(View()), message, granted).value
    {
      kind := Responding;
      closeAfter := true;
      ok, granted := Enqueue(Ascii("error " + message + "\n"));
    }

    /** enqueue_api_frame: the length and the text are queued one after the other. */
    method ApiFrame(json: bytes) returns (ok: bool, ghost granted: bool)
      requires Valid()
      modifies this
      ensures Valid()
      ensures ok <==> ApiReply(old(View()), json, granted).Some?
      ensures ok ==> View() == ApiReply(old(View()), json, granted).value
    {
      granted := true;
      if |json| > RESPONSE_MAX - 4 {
        return false, granted;
      }
      kind := Responding;
      closeAfter := false;
      ok, granted := Enqueue(U32(|json|));
      if ok {
        assert old(response) + (U32(|json|) + json) == (old(response) + U32(|json|)) + json;
        ok, granted := Enqueue(json);
      }
    }

    /** send_attach_catchup and the attach branch that calls it. */
    method Attach(stream: Stream, name: bytes, start: int, world: World) returns (ok: bool, ghost granted: bool)
      requires Valid()
      modifies this
      ensures Valid()
      ensures ok <==> ControlClient.Attach(old(View()), stream, name, start, world, granted).Some?
      ensures ok ==> View() == ControlClient.Attach(old(View()), stream, name, start, world, granted).value
    {
      hide Ascii, AttachHeader;
      var log := world.Log(stream);
      if start < 0 || start > |log| {
        ok, granted := Error("invalid_attach_start");
        return;
      }
      var length := |log| - start;
      if length > CATCHUP_MAX {
        ok, granted := Error("read_too_large");
        return;
      }
      granted := true;
      var header := AttachHeader(Attachment(name, start, |log|));
      if |header| >= HEADER_MAX {
        return false, granted;
      }
      ok, granted := Enqueue(header);
      if ok {
        assert old(response) + (header + log[start..]) == (old(response) + header) + log[start..];
        assert log[start..start + length] == log[start..];
        ok, granted := EnqueueStreamBytes(log, start, length, world.readable);
        if ok {
          kind := AttachedKind(stream);
          attachment := Some(Attachment(name, start, |log|));
        }
      }
    }

    /** dispatch_control_request */
    method Dispatch(text: bytes, world: World) returns (ghost granted: bool)
      requires Valid()
      modifies this
      ensures Valid() && View() == OrClosed(Command(old(View()), text, world, granted))
    {
      hide Ascii, ControlClient.Attach, ErrorReply, ParseAttach, StreamOf;
      var ok := false;
      granted := true;
      if text == Ascii("attach stdin") || text == Ascii("attach in") {
        if world.completed {
          ok, granted := Error("process_completed");
        } else if !world.stdinOpen {
          ok, granted := Error("stdin_closed");
        } else {
          kind := AttachingStdin;
          ok, granted := Enqueue(Ascii("ok attached stream=stdin\n"));
        }
      } else if StartsWith(text, Ascii("attach ")) {
        if world.completed {
          ok, granted := Error("process_completed");
        } else {
          var parsed := ParseAttach(text[|Ascii("attach ")|..]);
          if parsed.None? {
            ok, granted := Error("bad_attach_command");
          } else if StreamOf(parsed.value.0).None? {
            ok, granted := Error("unknown_stream");
          } else {
            ok, granted := Attach(StreamOf(parsed.value.0).value, parsed.value.0, parsed.value.1, world);
          }
        }
      } else if !world.refuse {
        kind := Responding;
        ok, granted := Enqueue(world.reply);
      }
      if !ok {
        Close();
      }
    }

    /** The body of the loop of broadcast_attached_output. */
    method Take(stream: Stream, chunk: bytes) returns (ghost granted: bool)
      requires Valid()
      modifies this
      ensures Valid() && View() == Controller.Broadcast(old(View()), stream, chunk, granted)
    {
      granted := true;
      if kind == AttachedKind(stream) {
        var ok;
        ok, granted := Enqueue(chunk);
        if !ok {
          Close();
        }
      }
    }

    /** flush_control_client_response */
    method Flush(writes: seq<Write>)
      requires Valid()
      modifies this
      ensures Valid() && View() == ControlClient.Flush(old(View()), writes)
    {
      var next := 0;
      while offset < |response|
        invariant next <= |writes| && Valid()
        invariant ControlClient.Flush(old(View()), writes) == ControlClient.Flush(View(), writes[next..])
        decreases |writes| - next
      {
        if next == |writes| || writes[next].WouldBlock? {
          return;
        }
        if writes[next].Failed? {
          Close();
          return;
        }
        assert writes[next..][1..] == writes[next + 1..];
        if writes[next].Wrote? {
          var n := writes[next].n;
          if n > |response| - offset {
            n := |response| - offset;
          }
          wire := wire + response[offset..offset + n];
          offset := offset + n;
        }
        next := next + 1;
      }
      Drain();
    }

    /** The rest of flush_control_client_response, once everything is written. */
    method Drain()
      requires Valid()
      modifies this
      ensures Valid() && View() == Drained(old(View()))
    {
      response, offset := [], 0;
      if kind == Responding {
        if framed && !closeAfter {
          kind, request, framedLength := Reading, [], 0;
        } else {
          Close();
        }
      } else if kind == AttachingStdin {
        kind := AttachedStdin;
      }
    }

    /** One turn of read_control_client_request. */
    method Receive(input: Input, world: World) returns (halted: bool, ghost granted: bool)
      requires Valid()
      modifies this
      ensures Valid() && halted == ControlClient.Receive(old(View()), input, world, granted).halted
      ensures !halted ==> View() == ControlClient.Receive(old(View()), input, world, granted).client
    {
      hide Command, ErrorReply, ApiReply, ControlClient.Enqueue, Feed;
      halted, granted := false, true;
      match input
      case ReadInterrupted =>
      case ReadWouldBlock =>
      case ReadFailed => Close();
      case Eof =>
        if framed || request == [] {
          Close();
        } else {
          request := Chomp(request);
          granted := Dispatch(request, world);
        }
      case Data(chunk) =>
        var o := FeedChunk(Parser(request, framed, framedLength), chunk);
        request, framed, framedLength := o.parser.request, o.parser.framed, o.parser.framedLength;
        if o.event.Line? {
          granted := Dispatch(o.event.text, world);
        } else if o.event.BadRequest? {
          granted := ErrorOrClose("bad_request");
        } else if o.event.LineTooLong? {
          granted := ErrorOrClose("request_too_long");
        } else if !o.event.More? {
          var ok := false;
          if !world.refuse {
            ok, granted := ApiFrame(world.reply);
          }
          if !ok {
            if o.event.Api? { halted := true; } else { Close(); }
          }
        }
    }

    method ErrorOrClose(message: string) returns (ghost granted: bool)
      requires Valid()
      modifies this
      ensures Valid() && View() == OrClosed(ErrorReply(old(View()), message, granted))
    {
      hide ErrorReply;
      var ok;
      ok, granted := Error(message);
      if !ok {
        Close();
      }
    }

    /** read_control_client_request */
    method ReadRequest(inputs: seq<Input>, world: World) returns (halted: bool, ghost granted: bool)
      requires Valid()
      modifies this
      ensures Valid() && halted == ReceiveAll(old(View()), inputs, world, granted).halted
      ensures !halted ==> View() == ReceiveAll(old(View()), inputs, world, granted).client
    {
      hide ControlClient.Receive;
      halted, granted := false, true;
      var next := 0;
      while next < |inputs|
        invariant next <= |inputs| && Valid() && !halted
        invariant forall g :: ReceiveAll(old(View()), inputs, world, g) == ReceiveAll(View(), inputs[next..], world, g)
      {
        var readsOn := inputs[next].ReadInterrupted?;
        if inputs[next].Data? {
          var o := FeedChunk(Parser(request, framed, framedLength), inputs[next].chunk);
          readsOn := o.event.More?;
        }
        ghost var before := View();
        assert inputs[next..][1..] == inputs[next + 1..];
        if readsOn {
          OnwardIgnoresMemory(before, inputs[next], world);
        }
        halted, granted := Receive(inputs[next], world);
        if !readsOn {
          return;
        }
        next := next + 1;
      }
    }
  }

  /** How much of a range the file has. */
  function InFile(file: bytes, start: nat, length: nat): (n: nat)
    requires start <= |file|
    ensures start + n <= |file| && n <= length
  {
    if start + length <= |file| then length else |file| - start
  }

  lemma HoldsNothing(before: bytes, file: bytes, start: nat)
    requires start <= |file|
    ensures Holds(before, before, file, start, start)
  {
  }

  lemma PartQueued(now: bytes, before: bytes, file: bytes, start: nat, at: nat, end: nat)
    requires Holds(now, before, file, start, at) && at <= end <= |file|
    ensures before <= now <= before + file[start..end]
    ensures at == end ==> now == before + file[start..end]
  {
    assert file[start..end] == file[start..at] + file[at..end];
    assert before + file[start..end] == now + file[at..end];
  }

  /** `now` is `before` and the file's bytes from `start` to `at`. */
  ghost predicate Holds(now: bytes, before: bytes, log: bytes, start: nat, at: nat) {
    start <= at <= |log| && now == before + log[start..at]
  }

  lemma PieceJoins(now: bytes, before: bytes, log: bytes, start: nat, at: nat, n: nat)
    requires Holds(now, before, log, start, at) && at + n <= |log|
    ensures Holds(now + log[at..at + n], before, log, start, at + n)
  {
    assert log[start..at + n] == log[start..at] + log[at..at + n];
  }

  /** A read that does not end the call does not depend on memory, and goes on. */
  lemma OnwardIgnoresMemory(c: Client, input: Input, world: World)
    requires ReadsOn(c, input)
    ensures forall g, h :: ControlClient.Receive(c, input, world, g) == ControlClient.Receive(c, input, world, h)
    ensures forall g :: !ControlClient.Receive(c, input, world, g).halted
  {
  }

  // ---------------------------------------------------------------------------
  // All slots
  // ---------------------------------------------------------------------------

  ghost predicate AllValid(slots: seq<Slot>)
    reads slots
  {
    && (forall i, j | 0 <= i < j < |slots| :: slots[i] != slots[j])
    && forall i | 0 <= i < |slots| :: slots[i].Valid()
  }

  ghost function Views(slots: seq<Slot>): (cs: seq<Client>)
    reads slots
    ensures |cs| == |slots|
  {
    seq(|slots|, i requires 0 <= i < |slots| reads slots => slots[i].View())
  }

  /** broadcast_attached_output: `refused` are the slots that got no memory. */
  method Broadcast(slots: seq<Slot>, stream: Stream, chunk: bytes) returns (ghost refused: set<nat>)
    requires AllValid(slots)
    modifies slots
    ensures AllValid(slots)
    ensures Views(slots) == Controller.BroadcastAll(old(Views(slots)), stream, chunk, refused)
  {
    hide Controller.Broadcast;
    refused := {};
    var i := 0;
    while i < |slots|
      invariant i <= |slots| && AllValid(slots)
      invariant forall j | 0 <= j < i ::
        slots[j].View() == Controller.Broadcast(old(slots[j].View()), stream, chunk, j !in refused)
      invariant forall j | i <= j < |slots| :: j !in refused && slots[j].View() == old(slots[j].View())
    {
      ghost var granted := slots[i].Take(stream, chunk);
      if !granted {
        refused := refused + {i};
      }
      i := i + 1;
    }
  }

  /** accept_control_clients: one connection takes the first empty slot, if any. */
  method AcceptOne(slots: seq<Slot>) returns (taken: bool)
    requires AllValid(slots) && forall i | 0 <= i < |slots| :: slots[i].kind.Empty? ==> slots[i].View() == EMPTY
    modifies slots
    ensures AllValid(slots)
    ensures var i := Controller.FirstEmpty(old(Views(slots)));
      && taken == (i < |slots|)
      && Views(slots) == if taken then old(Views(slots))[i := ACCEPTED] else old(Views(slots))
  {
    var i := 0;
    while i < |slots| && slots[i].kind != Empty
      invariant i <= |slots|
      invariant forall j | 0 <= j < i :: !slots[j].kind.Empty?
    {
      i := i + 1;
    }
    taken := i < |slots|;
    assert forall j | 0 <= j < |slots| :: Views(slots)[j].kind == slots[j].kind;
    assert i == Controller.FirstEmpty(Views(slots));
    if taken {
      slots[i].Accept();
    }
  }
}
