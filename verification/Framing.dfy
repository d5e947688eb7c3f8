/**
  How a controller connection is cut into requests (src/controller/control.c,
  read_control_client_request): a framed request is a four-byte big-endian
  length and a payload, a line request ends with a newline. Bytes arrive in
  reads of at most 128; once a request is complete the rest of that read is
  dropped.
 */
module Framing {
  import opened Bytes

  const REQUEST_MAX: nat := 8192
  const LINE_MAX: nat := 256

  /** The parser's part of a client slot; `|request|` is request_length. */
  datatype Parser = Parser(request: bytes, framed: bool, framedLength: nat)

  const START := Parser([], false, 0)

  datatype Event =
    | More
    | Api(payload: bytes)
    | Line(text: bytes)
    | RequestTooLarge
    | InvalidFrameLength
    | BadRequest
    | LineTooLong

  datatype Outcome = Outcome(parser: Parser, event: Event)

  /** A line request loses one carriage return at its end. */
  function Chomp(text: bytes): (t: bytes) {
    if text != [] && text[|text| - 1] == 0x0D then text[..|text| - 1] else text
  }

  /** One byte of a read. */
  function Feed1(p: Parser, b: byte): (o: Outcome) {
    var framed := p.framed || (p.request == [] && b == 0);
    if framed then
      if |p.request| + 1 >= REQUEST_MAX then Outcome(p.(framed := true), RequestTooLarge)
      else
        var request := p.request + [b];
        var length := if |request| == 4 then FromU32(request) else p.framedLength;
        var q := Parser(request, true, length);
        if |request| == 4 && (length == 0 || length >= REQUEST_MAX - 4) then Outcome(q, InvalidFrameLength)
        else if length > 0 && |request| == 4 + length then
          Outcome(Parser(request[4..4 + length], true, length), Api(request[4..4 + length]))
        else Outcome(q, More)
    else if b == 0x0A then
      Outcome(p.(request := Chomp(p.request)), Line(Chomp(p.request)))
    else if b == 0 then Outcome(p, BadRequest)
    else if |p.request| + 1 >= LINE_MAX then Outcome(p, LineTooLong)
    else Outcome(p.(request := p.request + [b]), More)
  }

  /** One read: bytes are taken until one completes or refuses a request. */
  function Feed(p: Parser, chunk: bytes): (o: Outcome)
    decreases chunk
  {
    if chunk == [] then Outcome(p, More)
    else
      var o := Feed1(p, chunk[0]);
      if o.event.More? then Feed(o.parser, chunk[1..]) else o
  }

  /** Reads in a row, until one of them completes or refuses a request. */
  function FeedAll(p: Parser, chunks: seq<bytes>): (o: Outcome)
    decreases chunks
  {
    if chunks == [] then Outcome(p, More)
    else
      var o := Feed(p, chunks[0]);
      if o.event.More? then FeedAll(o.parser, chunks[1..]) else o
  }

  /** What holds of the parser whenever the next byte is waited for. */
  predicate Waiting(p: Parser) {
    if p.framed then
      if |p.request| < 4 then p.framedLength == 0
      else
        && 1 <= p.framedLength < REQUEST_MAX - 4
        && |p.request| < 4 + p.framedLength
        && p.framedLength == FromU32(p.request[..4])
    else
      && p.framedLength == 0 && |p.request| < LINE_MAX
      && forall i | 0 <= i < |p.request| :: p.request[i] != 0 && p.request[i] != 0x0A
  }

  /** The loop over one read, as a method over the slot's own buffer. */
  method FeedChunk(p: Parser, chunk: bytes) returns (o: Outcome)
    ensures o == Feed(p, chunk)
  {
    var q := p;
    var i := 0;
    while i < |chunk|
      invariant i <= |chunk|
      invariant Feed(p, chunk) == Feed(q, chunk[i..])
    {
      o := Feed1(q, chunk[i]);
      if !o.event.More? {
        return;
      }
      assert chunk[i..][1..] == chunk[i + 1..];
      q := o.parser;
      i := i + 1;
    }
    o := Outcome(q, More);
  }

  /**
    Every byte keeps the parser's invariant or ends the request. The buffer of
    8192 bytes is never filled, so the "request too large" branch is dead.
   */
  lemma WaitingKept(p: Parser, b: byte)
    requires Waiting(p)
    ensures var o := Feed1(p, b);
      && (o.event.More? ==> Waiting(o.parser))
      && |o.parser.request| < REQUEST_MAX
      && !o.event.RequestTooLarge?
      && (o.event.Api? ==> 1 <= |o.event.payload| < REQUEST_MAX - 4)
      && (o.event.Line? ==> |o.event.text| < LINE_MAX && !o.parser.framed)
  {
    var o := Feed1(p, b);
    if o.parser.framed && |p.request| >= 4 {
      assert (p.request + [b])[..4] == p.request[..4];
    }
  }

  lemma {:induction false} FeedKeepsWaiting(p: Parser, chunk: bytes)
    requires Waiting(p)
    ensures var o := Feed(p, chunk);
      && (o.event.More? ==> Waiting(o.parser))
      && |o.parser.request| < REQUEST_MAX
      && !o.event.RequestTooLarge?
      && (p.framed ==> o.parser.framed)
      && (o.event.Api? ==> o.parser.framed)
      && (o.event.Line? ==> !o.parser.framed)
    decreases chunk
  {
    if chunk != [] {
      WaitingKept(p, chunk[0]);
      var o := Feed1(p, chunk[0]);
      if o.event.More? {
        FeedKeepsWaiting(o.parser, chunk[1..]);
      }
    }
  }

  // ---------------------------------------------------------------------------
  // Read boundaries do not matter
  // ---------------------------------------------------------------------------

  lemma {:induction false} FeedConcat(p: Parser, a: bytes, b: bytes)
    ensures Feed(p, a + b) == if Feed(p, a).event.More? then Feed(Feed(p, a).parser, b) else Feed(p, a)
    decreases a
  {
    if a == [] {
      assert a + b == b;
    } else {
      var o := Feed1(p, a[0]);
      assert (a + b)[1..] == a[1..] + b;
      if o.event.More? {
        FeedConcat(o.parser, a[1..], b);
      }
    }
  }

  /** However a stream is cut into reads, the first request that ends is the same. */
  lemma {:induction false} FeedAllIsFeed(p: Parser, chunks: seq<bytes>)
    ensures FeedAll(p, chunks) == Feed(p, Join(chunks))
    decreases chunks
  {
    if chunks != [] {
      FeedConcat(p, chunks[0], Join(chunks[1..]));
      var o := Feed(p, chunks[0]);
      if o.event.More? {
        FeedAllIsFeed(o.parser, chunks[1..]);
      }
    }
  }

  // ---------------------------------------------------------------------------
  // Framed requests
  // ---------------------------------------------------------------------------

  /** What the client's transport sends for one request. */
  function Frame(payload: bytes): (s: bytes)
    requires |payload| < 0x1_0000_0000
  {
    U32(|payload|) + payload
  }

  /** The first three bytes of a header are collected. */
  lemma HeaderStart(a: byte, b: byte, c: byte, framed: bool)
    requires framed || a == 0
    ensures Feed(Parser([], framed, 0), [a, b, c]) == Outcome(Parser([a, b, c], true, 0), More)
  {
    hide Feed;
    var p := Parser([], framed, 0);
    assert [] + [a] == [a] && [a] + [b] == [a, b] && [a, b] + [c] == [a, b, c];
    FeedOne(p, a);
    FeedOne(Parser([a], true, 0), b);
    FeedOne(Parser([a, b], true, 0), c);
    FeedConcat(p, [a], [b]);
    FeedConcat(p, [a, b], [c]);
  }

  lemma HeaderEnd(h: bytes)
    requires |h| == 4
    ensures var n := FromU32(h);
      Feed1(Parser(h[..3], true, 0), h[3])
      == Outcome(Parser(h, true, n), if 1 <= n < REQUEST_MAX - 4 then More else InvalidFrameLength)
  {
    hide FromU32;
    assert h[..3] + [h[3]] == h;
  }

  lemma HeaderBytes(n: nat, framed: bool)
    requires n < 0x1_0000_0000 && (framed || n < 0x100_0000)
    ensures var p := Parser([], framed, 0); var h := U32(n);
      && Feed(p, h[..3]) == Outcome(Parser(h[..3], true, 0), More)
      && Feed1(Parser(h[..3], true, 0), h[3])
         == Outcome(Parser(h, true, n), if 1 <= n < REQUEST_MAX - 4 then More else InvalidFrameLength)
  {
    hide Feed, Feed1;
    var h := U32(n);
    FirstIsZero(n);
    hide U32;
    U32RoundTrip(n);
    assert h[..3] == [h[0], h[1], h[2]];
    HeaderStart(h[0], h[1], h[2], framed);
    HeaderEnd(h);
  }

  lemma FirstIsZero(n: nat)
    requires n < 0x1_0000_0000
    ensures n < 0x100_0000 ==> U32(n)[0] == 0
  {
  }

  lemma FeedOne(p: Parser, b: byte)
    ensures Feed(p, [b]) == Feed1(p, b)
  {
    assert [b][1..] == [];
  }

  /** After a valid header the payload is collected, and its last byte dispatches it. */
  lemma {:induction false} PayloadBytes(payload: bytes, k: nat)
    requires 1 <= |payload| < REQUEST_MAX - 4 && k < |payload|
    ensures var n := |payload|; var h := U32(n);
      && Feed(Parser(h, true, n), payload[..k]) == Outcome(Parser(h + payload[..k], true, n), More)
      && Feed1(Parser(h + payload[..k], true, n), payload[k])
         == if k + 1 < n then Outcome(Parser(h + payload[..k + 1], true, n), More)
            else Outcome(Parser(payload, true, n), Api(payload))
  {
    var n := |payload|;
    var h := U32(n);
    U32RoundTrip(n);
    NextPayloadByte(payload, k);
    if k == 0 {
      assert h + payload[..0] == h;
    } else {
      PayloadBytes(payload, k - 1);
      assert payload[..k] == payload[..k - 1] + [payload[k - 1]];
      FeedConcat(Parser(h, true, n), payload[..k - 1], [payload[k - 1]]);
      FeedOne(Parser(h + payload[..k - 1], true, n), payload[k - 1]);
    }
  }

  lemma NextPayloadByte(payload: bytes, k: nat)
    requires 1 <= |payload| < REQUEST_MAX - 4 && k < |payload|
    ensures var n := |payload|; var h := U32(n);
      Feed1(Parser(h + payload[..k], true, n), payload[k])
      == if k + 1 < n then Outcome(Parser(h + payload[..k + 1], true, n), More)
         else Outcome(Parser(payload, true, n), Api(payload))
  {
    hide U32, FromU32;
    var n := |payload|;
    var request := U32(n) + payload[..k + 1];
    assert U32(n) + payload[..k] + [payload[k]] == request;
    if k + 1 == n {
      assert request[4..4 + n] == payload;
    }
  }

  /** Any split of a frame waits until the very last byte. */
  lemma FramePrefix(payload: bytes, framed: bool, k: nat)
    requires 1 <= |payload| < REQUEST_MAX - 4 && k < |Frame(payload)|
    ensures Feed(Parser([], framed, 0), Frame(payload)[..k]).event.More?
  {
    var p := Parser([], framed, 0);
    var h := U32(|payload|);
    HeaderBytes(|payload|, framed);
    if k <= 3 {
      assert h[..3] == h[..k] + h[k..3];
      FeedConcat(p, h[..k], h[k..3]);
      assert Frame(payload)[..k] == h[..k];
    } else {
      PayloadBytes(payload, k - 4);
      FrameFeed(p, h, payload[..k - 4]);
      assert Frame(payload)[..k] == h + payload[..k - 4];
    }
  }

  lemma FrameFeed(p: Parser, h: bytes, rest: bytes)
    requires |h| == 4
    ensures var o3 := Feed(p, h[..3]);
      o3.event.More? ==> var o4 := Feed1(o3.parser, h[3]);
        Feed(p, h + rest) == if o4.event.More? then Feed(o4.parser, rest) else o4
  {
    FeedConcat(p, h[..3], [h[3]] + rest);
    assert h[..3] + ([h[3]] + rest) == h + rest;
    assert ([h[3]] + rest)[1..] == rest;
  }

  /**
    Framing is independent of read boundaries: however a frame of 1 to 8187
    bytes is cut into reads, on a fresh connection or a framed one, all proper
    prefixes wait and the whole dispatches exactly that payload, once.
   */
  lemma FramedRequest(payload: bytes, framed: bool, chunks: seq<bytes>)
    requires 1 <= |payload| < REQUEST_MAX - 4 && Join(chunks) == Frame(payload)
    ensures FeedAll(Parser([], framed, 0), chunks)
            == Outcome(Parser(payload, true, |payload|), Api(payload))
    ensures forall k | 0 <= k < |Frame(payload)| ::
              Feed(Parser([], framed, 0), Frame(payload)[..k]).event.More?
  {
    var p := Parser([], framed, 0);
    var n := |payload|;
    forall k | 0 <= k < |Frame(payload)| ensures Feed(p, Frame(payload)[..k]).event.More? {
      FramePrefix(payload, framed, k);
    }
    FeedAllIsFeed(p, chunks);
    HeaderBytes(n, framed);
    FrameFeed(p, U32(n), payload);
    PayloadBytes(payload, n - 1);
    FeedConcat(Parser(U32(n), true, n), payload[..n - 1], [payload[n - 1]]);
    assert payload == payload[..n - 1] + [payload[n - 1]];
    FeedOne(Parser(U32(n) + payload[..n - 1], true, n), payload[n - 1]);
  }

  /** Whatever shares the read that completes a frame is dropped: a second frame, or
      the front of one, as if it had never been sent. */
  lemma SharedReadDropped(payload: bytes, framed: bool, rest: bytes)
    requires 1 <= |payload| < REQUEST_MAX - 4
    ensures Feed(Parser([], framed, 0), Frame(payload) + rest)
         == Feed(Parser([], framed, 0), Frame(payload))
         == Outcome(Parser(payload, true, |payload|), Api(payload))
  {
    hide Feed, Frame;
    var p := Parser([], framed, 0);
    assert Join([Frame(payload)]) == Frame(payload);
    FramedRequest(payload, framed, [Frame(payload)]);
    FeedAllIsFeed(p, [Frame(payload)]);
    FeedConcat(p, Frame(payload), rest);
  }

  /** Which lengths are served: the others are refused at their fourth byte, or,
      from 2^24 on a fresh connection, not taken for a frame at all. */
  lemma FrameLengths(n: nat, framed: bool, rest: bytes)
    requires n < 0x1_0000_0000
    ensures framed || n < 0x100_0000 ==>
              (Feed(Parser([], framed, 0), U32(n) + rest).event.InvalidFrameLength?
               <==> (n == 0 || n >= REQUEST_MAX - 4))
    ensures !framed && n >= 0x100_0000 ==> !Feed1(START, U32(n)[0]).parser.framed
  {
    if framed || n < 0x100_0000 {
      var p := Parser([], framed, 0);
      HeaderBytes(n, framed);
      U32RoundTrip(n);
      FrameFeed(p, U32(n), rest);
      assert U32(n)[..4] == U32(n);
      if 1 <= n < REQUEST_MAX - 4 {
        NoSecondRefusal(Parser(U32(n), true, n), rest);
      }
    }
  }

  /** Once a header is accepted nothing refuses the rest of the frame. */
  lemma {:induction false} NoSecondRefusal(p: Parser, rest: bytes)
    requires Waiting(p) && p.framed && |p.request| >= 4
    ensures Feed(p, rest).event.More? || Feed(p, rest).event.Api?
    decreases rest
  {
    if rest != [] {
      WaitingKept(p, rest[0]);
      var o := Feed1(p, rest[0]);
      if o.event.More? {
        NoSecondRefusal(o.parser, rest[1..]);
      }
    }
  }

  // ---------------------------------------------------------------------------
  // Line requests
  // ---------------------------------------------------------------------------

  predicate Plain(text: bytes) {
    forall i | 0 <= i < |text| :: text[i] != 0 && text[i] != 0x0A
  }

  lemma {:induction false} PlainBytes(text: bytes, k: nat)
    requires Plain(text) && k <= |text| < LINE_MAX
    ensures Feed(START, text[..k]) == Outcome(Parser(text[..k], false, 0), More)
  {
    if k > 0 {
      PlainBytes(text, k - 1);
      assert text[..k] == text[..k - 1] + [text[k - 1]];
      FeedConcat(START, text[..k - 1], [text[k - 1]]);
      FeedOne(Parser(text[..k - 1], false, 0), text[k - 1]);
    }
  }

  /** A line of up to 255 bytes is dispatched as it stands, however it arrives. */
  lemma LineRequest(text: bytes, chunks: seq<bytes>)
    requires Plain(text) && |text| < LINE_MAX && Join(chunks) == text + [0x0A]
    ensures FeedAll(START, chunks) == Outcome(Parser(Chomp(text), false, 0), Line(Chomp(text)))
  {
    FeedAllIsFeed(START, chunks);
    PlainBytes(text, |text|);
    assert text[..|text|] == text;
    FeedConcat(START, text, [0x0A]);
    FeedOne(Parser(text, false, 0), 0x0A);
  }

  /** A line is the text in front of its newline, or of its carriage return and newline. */
  lemma LineEndings(text: bytes, ending: bytes, chunks: seq<bytes>)
    requires Plain(text) && |text| + 1 < LINE_MAX && (text == [] || text[|text| - 1] != 0x0D)
    requires ending == [0x0A] || ending == [0x0D, 0x0A]
    requires Join(chunks) == text + ending
    ensures FeedAll(START, chunks) == Outcome(Parser(text, false, 0), Line(text))
  {
    hide FeedAll;
    if ending == [0x0A] {
      LineRequest(text, chunks);
    } else {
      var whole := text + [0x0D];
      assert text + ending == whole + [0x0A] && whole[..|whole| - 1] == text;
      LineRequest(whole, chunks);
    }
  }

  /** A zero byte behind the first refuses a line, and so does its 256th byte. */
  lemma LineRefusals(text: bytes, b: byte, rest: bytes)
    requires Plain(text) && text != [] && |text| < LINE_MAX
    ensures b == 0 ==> Feed(START, text + ([b] + rest)).event == BadRequest
    ensures b != 0 && b != 0x0A && |text| == LINE_MAX - 1 ==> Feed(START, text + ([b] + rest)).event == LineTooLong
  {
    PlainBytes(text, |text|);
    assert text[..|text|] == text;
    FeedConcat(START, text, [b] + rest);
  }
}
