/**
  Calls over one framed connection, one after the other: the controller reads a
  frame, queues a reply and, once that is written, reads again
  (src/controller/control.c).
 */
module ApiSession {
  import opened Wrappers
  import opened Bytes
  import opened Framing
  import opened ControlClient

  /** A request as it arrives, the reply it gets, and what the socket then takes. */
  datatype Exchange = Exchange(payload: bytes, chunks: seq<bytes>, world: World, writes: seq<Write>)

  function ReplyFrame(x: Exchange): (frame: bytes)
    requires |x.world.reply| <= RESPONSE_MAX - 4
  {
    U32(|x.world.reply|) + x.world.reply
  }

  /** A request that is sent in full and whose reply is taken in full. */
  predicate Complete(x: Exchange) {
    && 1 <= |x.payload| < REQUEST_MAX - 4 && Join(x.chunks) == Frame(x.payload)
    && !x.world.refuse && |x.world.reply| <= RESPONSE_MAX - 4
    && Accepted(x.writes) >= 4 + |x.world.reply|
  }

  /** A connection between requests. */
  predicate Idle(c: Client) {
    c.kind.Reading? && c.response == [] && c.offset == 0 && c.parser == Parser([], c.parser.framed, 0)
  }

  function Arrivals(chunks: seq<bytes>): (inputs: seq<Input>) {
    if chunks == [] then [] else [Data(chunks[0])] + Arrivals(chunks[1..])
  }

  /** read_control_client_request and then flush_control_client_response. */
  function Serve(c: Client, x: Exchange): (d: Client)
    requires c.offset <= |c.response|
  {
    var r := ReceiveAll(c, Arrivals(x.chunks), x.world, true).client;
    if r.offset <= |r.response| then Flush(r, x.writes) else r
  }

  /** Reads up to the one that completes a call leave its reply queued. */
  lemma {:induction false} CallReceived(c: Client, chunks: seq<bytes>, world: World, p: Parser, payload: bytes)
    requires FeedAll(c.parser, chunks) == Outcome(p, Api(payload))
    requires !world.refuse && ApiReply(c.(parser := p), world.reply, true).Some?
    ensures ReceiveAll(c, Arrivals(chunks), world, true)
         == Receipt(ApiReply(c.(parser := p), world.reply, true).value, false)
    decreases chunks
  {
    hide Feed, Command, U32;
    var o := Feed(c.parser, chunks[0]);
    var inputs := Arrivals(chunks);
    assert inputs[0] == Data(chunks[0]) && inputs[1..] == Arrivals(chunks[1..]);
    if o.event.More? {
      var d := c.(parser := o.parser);
      assert d.(parser := p) == c.(parser := p);
      CallReceived(d, chunks[1..], world, p, payload);
    }
  }

  lemma {:induction false} QueueWritten(c: Client, writes: seq<Write>)
    requires c.offset <= |c.response| && Accepted(writes) >= |Pending(c)|
    ensures Flush(c, writes) == Drained(c.(offset := |c.response|, wire := c.wire + Pending(c)))
    decreases writes
  {
    hide Drained;
    if c.offset == |c.response| {
      assert Pending(c) == [] && c.wire + [] == c.wire;
    } else if writes[0].Wrote? {
      WrittenConserves(c, writes[0].n);
      QueueWritten(Written(c, writes[0].n), writes[1..]);
    } else {
      QueueWritten(c, writes[1..]);
    }
  }

  /** One call: its reply on the wire, and the connection ready for the next. */
  lemma CallServed(c: Client, x: Exchange)
    requires Idle(c) && Complete(x)
    ensures Serve(c, x) == c.(parser := Parser([], true, 0), closeAfter := false, wire := c.wire + ReplyFrame(x))
  {
    hide FeedAll, ReceiveAll, Flush, U32, Frame;
    FramedRequest(x.payload, c.parser.framed, x.chunks);
    var p := Parser(x.payload, true, |x.payload|);
    var q := ApiReply(c.(parser := p), x.world.reply, true).value;
    CallReceived(c, x.chunks, x.world, p, x.payload);
    assert q.response == ReplyFrame(x) && Pending(q) == ReplyFrame(x);
    QueueWritten(q, x.writes);
  }

  function Served(c: Client, xs: seq<Exchange>): (d: Client)
    requires c.offset <= |c.response|
    decreases xs
  {
    if xs == [] then c
    else
      var d := Serve(c, xs[0]);
      if d.offset <= |d.response| then Served(d, xs[1..]) else d
  }

  function Replies(xs: seq<Exchange>): (replies: seq<bytes>)
    ensures |replies| == |xs|
  {
    if xs == [] then [] else [xs[0].world.reply] + Replies(xs[1..])
  }

  /** What the client makes of the bytes: complete frames, in order. */
  function Unframed(wire: bytes): (replies: seq<bytes>)
    decreases |wire|
  {
    if |wire| < 4 || |wire| < 4 + FromU32(wire[..4]) then []
    else
      var n := FromU32(wire[..4]);
      [wire[4..4 + n]] + Unframed(wire[4 + n..])
  }

  lemma FrameRead(reply: bytes, rest: bytes)
    requires |reply| <= RESPONSE_MAX
    ensures Unframed(U32(|reply|) + reply + rest) == [reply] + Unframed(rest)
  {
    hide U32, FromU32;
    U32RoundTrip(|reply|);
    var wire := U32(|reply|) + reply + rest;
    assert wire[..4] == U32(|reply|);
    assert wire[4..4 + |reply|] == reply && wire[4 + |reply|..] == rest;
  }

  /**
    Any number of calls on one connection, each arriving in any pieces and each
    reply going out in any pieces: the client reads the replies, one for each call
    and in the order of the calls, and the connection is ready for another.
   */
  lemma {:induction false} CallsServed(c: Client, xs: seq<Exchange>)
    requires Idle(c) && forall i | 0 <= i < |xs| :: Complete(xs[i])
    ensures Idle(Served(c, xs)) && c.wire <= Served(c, xs).wire
    ensures Unframed(Served(c, xs).wire[|c.wire|..]) == Replies(xs)
    decreases xs
  {
    hide Serve, Unframed, Complete, ReplyFrame;
    if xs == [] {
      NothingUnframed();
      assert c.wire[|c.wire|..] == [];
    } else {
      var x := xs[0];
      CallServed(c, x);
      var d := Serve(c, x);
      CallsServed(d, xs[1..]);
      var e := Served(d, xs[1..]);
      ReplyFirst(x, c.wire, d.wire, e.wire);
    }
  }

  lemma NothingUnframed()
    ensures Unframed([]) == []
  {
  }

  lemma ReplyFirst(x: Exchange, before: bytes, after: bytes, wire: bytes)
    requires Complete(x) && after == before + ReplyFrame(x) && after <= wire
    ensures before <= wire && Unframed(wire[|before|..]) == [x.world.reply] + Unframed(wire[|after|..])
  {
    hide Unframed, Accepted, U32;
    var rest := wire[|after|..];
    assert wire[|before|..] == ReplyFrame(x) + rest;
    FrameRead(x.world.reply, rest);
  }

  /** A client that does not wait loses its second call: sent in the read that
      completes the first, all of it or a part, it gets no reply, and the
      connection stands as if it had not been sent. */
  lemma SecondCallLost(c: Client, x: Exchange, rest: bytes)
    requires Idle(c) && Complete(x) && x.chunks == [Frame(x.payload)]
    ensures var y := x.(chunks := [Frame(x.payload) + rest]);
      Serve(c, y) == Serve(c, x) == c.(parser := Parser([], true, 0), closeAfter := false, wire := c.wire + ReplyFrame(x))
  {
    hide Feed, ReceiveAll, Flush, U32, Frame;
    CallServed(c, x);
    SharedReadDropped(x.payload, c.parser.framed, rest);
    var p := Parser(x.payload, true, |x.payload|);
    OneRead(c.parser, Frame(x.payload) + rest);
    CallReceived(c, [Frame(x.payload) + rest], x.world, p, x.payload);
    var q := ApiReply(c.(parser := p), x.world.reply, true).value;
    assert q.response == ReplyFrame(x) && Pending(q) == ReplyFrame(x);
    QueueWritten(q, x.writes);
  }

  lemma OneRead(p: Parser, chunk: bytes)
    ensures FeedAll(p, [chunk]) == Feed(p, chunk)
  {
    hide Feed;
    FeedAllIsFeed(p, [chunk]);
    assert Join([chunk]) == chunk;
  }
}
