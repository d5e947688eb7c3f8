/**
  The client's side of an attachment (src/client/attachment.c): calls that are
  retried over a new connection, over a legacy one, or with a refreshed relay
  grant, and the read offsets all of that must leave alone.
 */
module Attachment {
  import opened Wrappers
  import opened Bytes
  import S = StreamRead

  datatype StreamKind = StdoutStream | StderrStream | TtyStream

  datatype Offsets = Offsets(stdout: nat, stderr: nat, tty: nat)
  {
    function Get(k: StreamKind): (n: nat) {
      match k
      case StdoutStream => stdout
      case StderrStream => stderr
      case TtyStream => tty
    }

    function Set(k: StreamKind, n: nat): (o: Offsets) {
      match k
      case StdoutStream => this.(stdout := n)
      case StderrStream => this.(stderr := n)
      case TtyStream => this.(tty := n)
    }

    /** cubicle_attachment_replay */
    function Back(n: nat): (o: Offsets) {
      Offsets(Monus(stdout, n), Monus(stderr, n), Monus(tty, n))
    }
  }

  function Monus(a: nat, b: nat): (d: nat) {
    if a > b then a - b else 0
  }

  datatype Code =
    | Ok
    | Io
    | ManagerUnavailable
    | ControllerUnavailable
    | Timeout
    | Protocol
    | InvalidState
    | ResourceLimit
    | OtherError

  /** attachment_is_transport_error */
  predicate TransportError(code: Code) {
    code in {Io, ManagerUnavailable, ControllerUnavailable, Timeout}
  }

  /** The methods sent to a controller, and the manager's attachment.request. */
  datatype Method = Attach | Read | Write | Status | Snapshot | Resize | CloseInput | Detach | RequestGrant

  /** attachment_rpc_can_retry */
  predicate CanRetry(name: Method) {
    name in {Read, Write, Status, Snapshot, Resize, Detach}
  }

  /** The fields of a reply that this code looks at; a missing one is None. */
  datatype Reply = Reply(
    channels: Option<set<StreamKind>>,
    stdout: Option<nat>,
    stderr: Option<nat>,
    tty: Option<nat>,
    next: Option<nat>,
    end: Option<bool>,
    data: Option<bytes>,
    offset: Option<nat>)

  function OrZero(n: Option<nat>): (m: nat) {
    if n.Some? then n.value else 0
  }

  /** The offsets in the reply to an attach; a missing one is zero. */
  function OffsetsOf(r: Reply): (o: Offsets) {
    Offsets(OrZero(r.stdout), OrZero(r.stderr), OrZero(r.tty))
  }

  datatype Answer = Answer(code: Code, reply: Reply)

  const NO_REPLY := Reply(None, None, None, None, None, None, None, None)

  datatype Socket = Data(data: bytes) | Again | Closed

  /** What a call asks: a read says which stream, from where and how much. */
  datatype Ask = AskRead(kind: StreamKind, offset: nat, maximum: nat) | AskOther

  /** What the library does to the world outside, and what comes back. */
  datatype Deed =
    | Sent(name: Method, ask: Ask, answer: Answer)
    | Connecting(code: Code)
    | TooLarge
    | Opening(kind: StreamKind, offset: nat, ok: bool)
    | Received(length: nat, socket: Socket)

  /** Everything outside: the transports' answers, in the order they are asked
      for, and a record of what was done. */
  class Network {
    var answers: seq<Answer>
    var sockets: seq<Socket>
    var idle: bool
    ghost var trace: seq<Deed>

    constructor (answers: seq<Answer>, sockets: seq<Socket>)
      ensures trace == []
    {
      this.answers, this.sockets, idle, trace := answers, sockets, false, [];
    }

    /** rpc_object: one request, one answer. */
    method Call(name: Method, ask: Ask) returns (a: Answer)
      modifies this`answers, this`trace
      ensures trace == old(trace) + [Sent(name, ask, a)]
    {
      a := Next();
      trace := trace + [Sent(name, ask, a)];
    }

    method Connect() returns (code: Code)
      modifies this`answers, this`trace
      ensures trace == old(trace) + [Connecting(code)]
    {
      var a := Next();
      code := a.code;
      trace := trace + [Connecting(code)];
    }

    /** Whether the open connection has been idle for too long by now. */
    method Idle() returns (b: bool)
      modifies this`idle
      ensures b == idle
    {
      b := *;
      idle := b;
    }

    /** A request that does not fit its buffer is not sent. */
    method Fits() returns (fits: bool)
      modifies this`trace
      ensures trace == if fits then old(trace) else old(trace) + [TooLarge]
    {
      fits := *;
      if !fits {
        trace := trace + [TooLarge];
      }
    }

    /** attachment_connect_unix_stream, which may fail in many ways. */
    method Open(kind: StreamKind, offset: nat) returns (ok: bool)
      modifies this`trace
      ensures trace == old(trace) + [Opening(kind, offset, ok)]
    {
      ok := *;
      trace := trace + [Opening(kind, offset, ok)];
    }

    method Next() returns (a: Answer)
      modifies this`answers
    {
      if answers == [] {
        a := Answer(Io, NO_REPLY);
      } else {
        a := answers[0];
        answers := answers[1..];
      }
    }

    /** recv of at most `length` bytes. */
    method Receive(length: nat) returns (s: Socket)
      requires length > 0
      modifies this
      ensures s.Data? ==> 1 <= |s.data| <= length
      ensures trace == old(trace) + [Received(length, s)]
    {
      if sockets == [] || sockets[0] == Data([]) {
        s := Closed;
      } else {
        s := sockets[0];
        sockets := sockets[1..];
        if s.Data? && |s.data| > length {
          s := Data(s.data[..length]);
        }
      }
      trace := trace + [Received(length, s)];
    }
  }

  // ---------------------------------------------------------------------------
  // What trying a call comes to
  // ---------------------------------------------------------------------------

  /** One try: what was done to be able to send, and the answer if it was sent. */
  datatype Attempt = Attempt(setup: seq<Deed>, sent: Option<Answer>)

  function AttemptDeeds(name: Method, ask: Ask, t: Attempt): (ds: seq<Deed>) {
    t.setup + if t.sent.Some? then [Sent(name, ask, t.sent.value)] else []
  }

  function Deeds(name: Method, ask: Ask, tries: seq<Attempt>): (ds: seq<Deed>) {
    if tries == [] then [] else AttemptDeeds(name, ask, tries[0]) + Deeds(name, ask, tries[1..])
  }

  /** An answer that is no transport error ends the trying. */
  predicate Settles(t: Attempt) {
    t.sent.Some? && !TransportError(t.sent.value.code)
  }

  /** The controller accepts the attach. */
  predicate Attaches(d: Deed) {
    d.Sent? && d.name == Attach && d.answer.code == Ok && d.answer.reply.channels.Some?
  }

  /** A connection was open, or a new one was made and attached. */
  predicate Established(ds: seq<Deed>) {
    ds == [] || (|ds| == 2 && ds[0] == Connecting(Ok) && Attaches(ds[1]))
  }

  predicate NotEstablished(ds: seq<Deed>) {
    || (|ds| == 1 && ds[0].Connecting? && ds[0].code != Ok)
    || (|ds| == 2 && ds[0] == Connecting(Ok) && (ds[1].TooLarge? || (ds[1].Sent? && ds[1].name == Attach && !Attaches(ds[1]))))
  }

  /** A grant is asked for, and after a transport error once more over a new
      connection. */
  predicate GrantRun(ds: seq<Deed>, ok: bool) {
    && |ds| >= 1 && ds[0].Sent? && ds[0].name == RequestGrant
    && if !TransportError(ds[0].answer.code) then |ds| == 1 && ok == (ds[0].answer.code == Ok)
       else
         && |ds| >= 2 && ds[1].Connecting?
         && if ds[1].code != Ok then |ds| == 2 && !ok
            else |ds| == 3 && ds[2].Sent? && ds[2].name == RequestGrant && ok == (ds[2].answer.code == Ok)
  }

  /** A new grant, and an attach with it. */
  predicate RefreshRun(ds: seq<Deed>, ok: bool) {
    || (GrantRun(ds, false) && !ok)
    || (|ds| >= 2 && GrantRun(ds[..|ds| - 1], true) && AttachTry(ds[|ds| - 1]) && ok == Attaches(ds[|ds| - 1]))
  }

  predicate AttachTry(d: Deed) {
    d.TooLarge? || (d.Sent? && d.name == Attach)
  }

  /** A connection for one call. */
  predicate LegacyTry(t: Attempt) {
    && |t.setup| == 1 && t.setup[0].Connecting? && (t.sent.Some? <==> t.setup[0].code == Ok)
  }

  predicate DirectTry(t: Attempt) {
    if t.sent.Some? then Established(t.setup) else NotEstablished(t.setup)
  }

  predicate RelayTry(t: Attempt) {
    if t.sent.Some? then t.setup == [] else t.setup == [TooLarge]
  }

  predicate RelayRetry(t: Attempt) {
    if t.sent.Some? then RefreshRun(t.setup, true)
    else RefreshRun(t.setup, false) || (|t.setup| >= 1 && t.setup[|t.setup| - 1] == TooLarge && RefreshRun(t.setup[..|t.setup| - 1], true))
  }

  /** The code a failed setup leaves. */
  function SetupCode(ds: seq<Deed>): (code: Code)
    requires ds != []
  {
    match ds[|ds| - 1]
    case Connecting(code) => code
    case Sent(_, _, a) => if a.code == Ok then Protocol else a.code
    case _ => ResourceLimit
  }

  /** How a call is tried: directly over the open connection or a new one, again over
      a new one, and once over one of its own; over a relay once, and again with a
      new grant; in both cases again only for some methods, and only after a
      transport error. `legacy` is that only connections of its own are left. */
  predicate Tried(relay: bool, legacy: bool, name: Method, tries: seq<Attempt>) {
    if relay then
      && 1 <= |tries| <= 2 && RelayTry(tries[0])
      && (|tries| == 2 <==> CanRetry(name) && tries[0].sent.Some? && !Settles(tries[0]))
      && (|tries| == 2 ==> RelayRetry(tries[1]))
    else if legacy then |tries| == 1 && LegacyTry(tries[0])
    else
      && (|tries| == 1 || |tries| == 2 || |tries| == 3) && DirectTry(tries[0])
      && (|tries| >= 2 <==> CanRetry(name) && tries[0].sent.Some? && !Settles(tries[0]))
      && (|tries| >= 2 ==> DirectTry(tries[1]) && tries[1].setup != [])
      && (|tries| == 3 <==> |tries| >= 2 && !Settles(tries[1]))
      && (|tries| == 3 ==> LegacyTry(tries[2]))
  }

  /** What the caller gets. */
  function Result(relay: bool, tries: seq<Attempt>): (a: Answer)
    requires tries != [] && (tries[|tries| - 1].sent.None? ==> tries[|tries| - 1].setup != [])
    requires tries[0].sent.None? ==> |tries| == 1
  {
    var last := tries[|tries| - 1];
    if last.sent.Some? then last.sent.value
    else if relay && |tries| == 2 && RefreshRun(last.setup, false) then tries[0].sent.value
    else Answer(SetupCode(last.setup), NO_REPLY)
  }

  /** What a caller of the library can observe about where it stands. */
  datatype Position = Position(offsets: Offsets, stream: Option<StreamKind>)

  /** What one call of the library did to it. */
  datatype Event =
    | Nothing
    | StreamOpened(kind: StreamKind)
    | StreamClosed
    | SocketRead(kind: StreamKind, data: bytes)
    | RpcRead(kind: StreamKind, maximum: nat, next: nat, text: bytes)
    | Replayed(count: nat)
    | SnapshotTaken(offset: nat)

  function Apply(p: Position, e: Event): (q: Position) {
    match e
    case Nothing => p
    case StreamOpened(k) => p.(stream := Some(k))
    case StreamClosed => p.(stream := None)
    case SocketRead(k, data) => p.(offsets := p.offsets.Set(k, p.offsets.Get(k) + |data|))
    case RpcRead(k, _, next, _) => p.(offsets := p.offsets.Set(k, next))
    case Replayed(n) => p.(offsets := p.offsets.Back(n))
    case SnapshotTaken(offset) => p.(offsets := p.offsets.Set(TtyStream, offset))
  }

  /** What the library sees to itself, whatever is at the other end. */
  predicate Lawful(p: Position, e: Event) {
    match e
    case SocketRead(k, data) => p.stream == Some(k) && data != []
    case RpcRead(k, _, next, _) => p.stream != Some(k) && next >= p.offsets.Get(k)
    case StreamOpened(k) => p.stream != Some(k)
    case _ => true
  }

  function ApplyAll(p: Position, es: seq<Event>): (q: Position)
    decreases es
  {
    if es == [] then p else ApplyAll(Apply(p, es[0]), es[1..])
  }

  /** The bytes an event put into the caller's buffer. */
  function Buffered(e: Event): (data: bytes) {
    match e
    case SocketRead(_, data) => data
    case RpcRead(_, _, _, text) => text
    case _ => []
  }

  /** A caller's use of the library. */
  datatype Request =
    | Start(kind: StreamKind)
    | Fetch(kind: StreamKind, length: nat)
    | GoBack(count: nat)
    | Snap
    | Tell(name: Method)

  /** A reply to a read that can be used: complete, not behind the offset, and
      within the caller's buffer. */
  predicate Usable(r: Reply, offset: nat, length: nat) {
    && r.next.Some? && r.end.Some? && r.next.value >= offset
    && r.data.Some? && |r.data.value| <= length
  }

  /** What a call comes to, from what was done for it. */
  function EventOf(p: Position, r: Request, ds: seq<Deed>): (e: Event) {
    match r
    case GoBack(n) => Replayed(n)
    case Tell(_) => Nothing
    case _ => if ds == [] then Nothing else LastEvent(p, r, ds[|ds| - 1])
  }

  function LastEvent(p: Position, r: Request, d: Deed): (e: Event) {
    match d
    case Received(_, Data(data)) => if r.Fetch? then SocketRead(r.kind, data) else Nothing
    case Received(_, Closed) => StreamClosed
    case Opening(k, _, ok) => if ok then StreamOpened(k) else StreamClosed
    case Sent(name, _, a) =>
      if r.Fetch? && name == Read && a.code == Ok && Usable(a.reply, p.offsets.Get(r.kind), r.length)
      then RpcRead(r.kind, S.Requested(r.length), a.reply.next.value, a.reply.data.value)
      else if r.Snap? && name == Snapshot && a.code == Ok && a.reply.offset.Some? then SnapshotTaken(a.reply.offset.value)
      else Nothing
    case _ => Nothing
  }

  /** What a request may put to the world: a read, of its own stream and offset. */
  predicate Asks(p: Position, r: Request, d: Deed) {
    match d
    case Sent(name, ask, _) =>
      if name == Read then r.Fetch? && ask == AskRead(r.kind, p.offsets.Get(r.kind), S.Requested(r.length)) && p.stream != Some(r.kind)
      else if name == Snapshot then r.Snap? || r == Tell(Snapshot) else true
    case Received(length, s) => r.Fetch? && length == r.length && p.stream == Some(r.kind) && (s.Data? ==> s.data != [])
    case Opening(k, offset, _) => r == Start(k) && offset == p.offsets.Get(k) && p.stream != Some(k)
    case _ => true
  }

  /** One call, after all that `trace` records: whether anything is done for it, that
      this is what it asks for, and what it comes to. */
  predicate Does(relay: bool, trace: seq<Deed>, p: Position, r: Request, e: Event, ds: seq<Deed>) {
    && (ds != [] <==> Reaches(relay, ChannelsOf(trace), p, r))
    && (forall d <- ds :: Asks(p, r, d))
    && e == EventOf(p, r, ds)
  }

  /** A run of calls: what each comes to is what came back for it. */
  predicate Happened(relay: bool, trace: seq<Deed>, p: Position, rs: seq<Request>, es: seq<Event>, deeds: seq<seq<Deed>>)
    decreases es
  {
    && |rs| == |es| == |deeds|
    && (es == [] ||
        (&& Does(relay, trace, p, rs[0], es[0], deeds[0])
         && Happened(relay, trace + deeds[0], Apply(p, es[0]), rs[1..], es[1..], deeds[1..])))
  }

  function Flat(deeds: seq<seq<Deed>>): (ds: seq<Deed>) {
    if deeds == [] then [] else deeds[0] + Flat(deeds[1..])
  }

  lemma {:induction false} OneMore(relay: bool, trace: seq<Deed>, p: Position, rs: seq<Request>, r: Request,
                                   es: seq<Event>, e: Event, deeds: seq<seq<Deed>>, ds: seq<Deed>)
    requires Happened(relay, trace, p, rs, es, deeds)
    requires Does(relay, trace + Flat(deeds), ApplyAll(p, es), r, e, ds)
    ensures ApplyAll(p, es + [e]) == Apply(ApplyAll(p, es), e)
    ensures Happened(relay, trace, p, rs + [r], es + [e], deeds + [ds]) && Flat(deeds + [ds]) == Flat(deeds) + ds
    decreases es
  {
    hide Apply, Does;
    if es == [] {
      assert rs + [r] == [r] && es + [e] == [e] && deeds + [ds] == [ds];
      assert [r][1..] == [] && [e][1..] == [] && [ds][1..] == [];
      assert ds + [] == ds && [] + ds == ds && trace + [] == trace;
    } else {
      assert (rs + [r])[1..] == rs[1..] + [r] && (es + [e])[1..] == es[1..] + [e] && (deeds + [ds])[1..] == deeds[1..] + [ds];
      assert trace + (deeds[0] + Flat(deeds[1..])) == trace + deeds[0] + Flat(deeds[1..]);
      OneMore(relay, trace + deeds[0], Apply(p, es[0]), rs[1..], r, es[1..], e, deeds[1..], ds);
      assert deeds[0] + (Flat(deeds[1..]) + ds) == (deeds[0] + Flat(deeds[1..])) + ds;
    }
  }

  /** The channels an attachment has, from all that was done: those of the last reply
      to an attach, none since a new grant. */
  function ChannelsOf(trace: seq<Deed>): (channels: set<StreamKind>) {
    if trace == [] then {}
    else
      var d := trace[|trace| - 1];
      if Attaches(d) then d.answer.reply.channels.value
      else if d.Sent? && d.name == RequestGrant && d.answer.code == Ok then {}
      else ChannelsOf(trace[..|trace| - 1])
  }

  lemma ChannelsNow(trace: seq<Deed>, d: Deed)
    ensures ChannelsOf(trace + [d]) ==
      if Attaches(d) then d.answer.reply.channels.value
      else if d.Sent? && d.name == RequestGrant && d.answer.code == Ok then {}
      else ChannelsOf(trace)
  {
    assert (trace + [d])[..|trace|] == trace;
  }

  lemma ChannelsKept(trace: seq<Deed>, d: Deed)
    requires d.Sent? ==> d.name != Attach && d.name != RequestGrant
    ensures ChannelsOf(trace + [d]) == ChannelsOf(trace)
  {
    ChannelsNow(trace, d);
  }

  /** The calls that are not refused or answered by the library on its own. */
  predicate Reaches(relay: bool, channels: set<StreamKind>, p: Position, r: Request) {
    match r
    case Start(k) => k in channels && !relay && p.stream != Some(k)
    case Fetch(k, length) => k in channels && length > 0
    case GoBack(_) => false
    case _ => true
  }

  class Attachment {
    const relay: bool
    const net: Network
    var controller: bool
    var channels: set<StreamKind>
    var attachedOnce: bool
    var unsupported: bool
    var offsets: Offsets
    var stream: Option<StreamKind>

    constructor (relay: bool, net: Network)
      requires net.trace == []
      ensures this.relay == relay && this.net == net
      ensures offsets == Offsets(0, 0, 0) && stream == None && !attachedOnce && !unsupported && !controller && Current()
    {
      this.relay, this.net := relay, net;
      controller, channels, attachedOnce, unsupported := false, {}, false, false;
      offsets, stream := Offsets(0, 0, 0), None;
    }

    ghost function View(): (p: Position)
      reads this
    {
      Position(offsets, stream)
    }

    /** A connected attachment: a direct one has attached at least once. */
    ghost predicate Connected()
      reads this, net
    {
      (relay || attachedOnce) && Current()
    }

    /** The channels are those of all that was done. */
    ghost predicate Current()
      reads this, net
    {
      channels == ChannelsOf(net.trace)
    }

    /** parse_attach_response: nothing is taken from a reply without channels. */
    method ParseAttachResponse(r: Reply) returns (code: Code)
      modifies this`channels, this`offsets
      ensures code == if r.channels.Some? then Ok else Protocol
      ensures code != Ok ==> offsets == old(offsets) && channels == old(channels)
      ensures code == Ok ==> channels == r.channels.value
      ensures code == Ok ==> offsets == OffsetsOf(r)
      ensures code == Ok ==> r.stdout in {Some(offsets.stdout), None} && (r.stdout.None? ==> offsets.stdout == 0)
      ensures code == Ok ==> r.stderr in {Some(offsets.stderr), None} && (r.stderr.None? ==> offsets.stderr == 0)
      ensures code == Ok ==> r.tty in {Some(offsets.tty), None} && (r.tty.None? ==> offsets.tty == 0)
    {
      if r.channels.None? {
        return Protocol;
      }
      channels := r.channels.value;
      offsets := OffsetsOf(r);
      return Ok;
    }

    /** attach_controller: only the very first attach takes the reply's offsets. */
    method AttachController() returns (code: Code, ghost d: Deed)
      requires (relay || controller) && Current()
      modifies this, net
      ensures net.idle == old(net.idle)
      ensures Current()
      ensures net.trace == old(net.trace) + [d] && AttachTry(d) && (code == Ok <==> Attaches(d))
      ensures code != Ok ==> code == SetupCode([d])
      ensures stream == old(stream) && unsupported == old(unsupported) && controller == old(controller)
      ensures old(attachedOnce) || code != Ok ==> offsets == old(offsets)
      ensures !old(attachedOnce) && code == Ok ==> offsets == OffsetsOf(d.answer.reply)
      ensures attachedOnce == (old(attachedOnce) || code == Ok)
      decreases if relay then 0 else 2, if relay then 3 else 1
    {
      hide ChannelsOf;
      var kept, preserve := offsets, attachedOnce;
      var a;
      a, d := SendAttach();
      ChannelsNow(old(net.trace), d);
      if a.code != Ok {
        return a.code, d;
      }
      code := ParseAttachResponse(a.reply);
      if code == Ok {
        if preserve {
          offsets := kept;
        }
        attachedOnce := true;
      }
    }

    method SendAttach() returns (a: Answer, ghost d: Deed)
      requires (relay || controller) && Current()
      modifies this, net
      ensures net.idle == old(net.idle)
      ensures net.trace == old(net.trace) + [d]
      ensures if d.TooLarge? then a.code == ResourceLimit else d == Sent(Attach, AskOther, a)
      ensures View() == old(View()) && channels == old(channels)
      ensures attachedOnce == old(attachedOnce) && unsupported == old(unsupported) && controller == old(controller)
      decreases if relay then 0 else 2, if relay then 2 else 0
    {
      hide Tried, Result, Deeds, ChannelsOf;
      var fits := net.Fits();
      if !fits {
        return Answer(ResourceLimit, NO_REPLY), TooLarge;
      }
      if relay {
        ghost var tries;
        a, tries := Rpc(Attach, AskOther);
        OneRelayTry(Attach, AskOther, tries);
        d := if tries[0].sent.Some? then Sent(Attach, AskOther, tries[0].sent.value) else TooLarge;
      } else {
        a := net.Call(Attach, AskOther);
        d := Sent(Attach, AskOther, a);
      }
    }

    /** ensure_controller_client: closes an idle connection, makes a new one. */
    method EnsureController() returns (code: Code, ghost ds: seq<Deed>)
      requires !relay && Current()
      modifies this, net
      ensures net.trace == old(net.trace) + ds && Current()
      ensures if code == Ok then Established(ds) else NotEstablished(ds) && code == SetupCode(ds)
      ensures ds == [] <==> old(controller) && !net.idle
      ensures code != Ok ==> !controller
      ensures stream == old(stream) && unsupported == old(unsupported)
      ensures code == Ok ==> controller
      ensures old(attachedOnce) ==> attachedOnce && offsets == old(offsets)
      ensures code == Ok && !old(controller) ==> attachedOnce
      ensures code == Ok && !old(controller) && !old(attachedOnce) ==> offsets == OffsetsOf(ds[1].answer.reply)
      decreases 2, 2
    {
      ds := [];
      var idle := net.Idle();
      if controller && idle {
        controller := false;
      }
      if controller {
        return Ok, ds;
      }
      code := net.Connect();
      ds := [Connecting(code)];
      ChannelsNow(old(net.trace), Connecting(code));
      if code != Ok {
        return;
      }
      controller := true;
      ghost var d;
      code, d := AttachController();
      ds := ds + [d];
      if code != Ok {
        controller := false;
      }
    }

    /** Asking the manager for a grant, once more after reconnecting to it. */
    method NewGrant() returns (code: Code, ghost ds: seq<Deed>)
      modifies net
      ensures net.idle == old(net.idle)
      ensures net.trace == old(net.trace) + ds && GrantRun(ds, code == Ok)
      ensures ChannelsOf(net.trace) == if code == Ok then {} else ChannelsOf(old(net.trace))
    {
      var a := net.Call(RequestGrant, AskOther);
      code, ds := a.code, [Sent(RequestGrant, AskOther, a)];
      ChannelsNow(old(net.trace), Sent(RequestGrant, AskOther, a));
      if TransportError(code) {
        var again := net.Connect();
        ChannelsNow(old(net.trace) + ds, Connecting(again));
        ds := ds + [Connecting(again)];
        if again == Ok {
          a := net.Call(RequestGrant, AskOther);
          ChannelsNow(old(net.trace) + ds, Sent(RequestGrant, AskOther, a));
          code, ds := a.code, ds + [Sent(RequestGrant, AskOther, a)];
        }
      }
    }

    /** attachment_refresh_relay_grant: a new grant is attached with; the offsets
        are put back whatever the reply says. */
    method RefreshGrant() returns (code: Code, ghost ds: seq<Deed>)
      requires relay && Current()
      modifies this, net
      ensures net.idle == old(net.idle)
      ensures net.trace == old(net.trace) + ds && RefreshRun(ds, code == Ok) && Current()
      ensures View() == old(View()) && unsupported == old(unsupported)
      ensures attachedOnce == (code == Ok || (GrantRun(ds, false) && old(attachedOnce)))
      decreases 0, 4
    {
      hide GrantRun;
      var kept := offsets;
      code, ds := NewGrant();
      if code != Ok {
        return;
      }
      channels := {};
      offsets := kept;
      attachedOnce := false;
      ghost var d;
      code, d := AttachController();
      GrantThenAttach(ds, d);
      ds := ds + [d];
      if code == Ok {
        offsets := kept;
      }
    }

    /**
      attachment_rpc. The recursion through RefreshGrant and AttachController
      comes back here only with a method that is not retried, so it stops there.
      Whatever fails on the way, the offsets stay.
     */
    method Rpc(name: Method, ask: Ask) returns (a: Answer, ghost tries: seq<Attempt>)
      requires relay || (attachedOnce && name != Attach)
      requires name != RequestGrant && Current()
      modifies this, net
      ensures relay ==> net.idle == old(net.idle)
      ensures Tried(relay, !relay && old(unsupported), name, tries) && a == Result(relay, tries)
      ensures net.trace == old(net.trace) + Deeds(name, ask, tries)
      ensures View() == old(View()) && (relay || attachedOnce) && (name != Attach ==> Current())
      ensures unsupported == (old(unsupported) || (!relay && |tries| == 3))
      ensures !CanRetry(name) && relay ==>
        channels == old(channels) && attachedOnce == old(attachedOnce) && controller == old(controller)
      decreases if !relay then 2 else if CanRetry(name) then 1 else 0, if relay then 1 else 5
    {
      if relay {
        a, tries := RelayRpc(name, ask);
      } else {
        a, tries := DirectRpc(name, ask);
      }
    }

    /** The relayed part of attachment_rpc: once, and again with a new grant. */
    method RelayRpc(name: Method, ask: Ask) returns (a: Answer, ghost tries: seq<Attempt>)
      requires relay && name != RequestGrant && Current()
      modifies this, net
      ensures net.idle == old(net.idle)
      ensures name != Attach ==> Current()
      ensures Tried(true, false, name, tries) && a == Result(true, tries)
      ensures net.trace == old(net.trace) + Deeds(name, ask, tries)
      ensures View() == old(View()) && unsupported == old(unsupported)
      ensures !CanRetry(name) ==>
        channels == old(channels) && attachedOnce == old(attachedOnce) && controller == old(controller)
      decreases if CanRetry(name) then 1 else 0, 0
    {
      hide RefreshRun, GrantRun, Established, NotEstablished, Attaches, AttemptDeeds, Deeds, Tried, Result, ChannelsOf;
      var sent;
      ghost var t, again;
      sent, a, t := SendRelay(name, ask);
      tries := [t];
      OneTry(name, ask, t);
      if a.code != Ok && CanRetry(name) && TransportError(a.code) && sent {
        var code;
        ghost var ds;
        code, ds := RefreshGrant();
        again := Attempt(ds, None);
        if code == Ok {
          sent, a, again := SendRelay(name, ask);
          Prepend(name, ask, ds, again);
          again := again.(setup := ds + again.setup);
        } else {
          Unsent(name, ask, ds);
        }
        RetriedRelay(name, t, again, ds, code == Ok, a);
        TwoTries(name, ask, t, again);
        tries := [t, again];
      } else {
        TriedRelay(name, t);
      }
    }

    /** Building and sending attachment.proxy. */
    method SendRelay(name: Method, ask: Ask) returns (sent: bool, a: Answer, ghost t: Attempt)
      requires name != RequestGrant
      modifies net
      ensures net.idle == old(net.idle)
      ensures name != Attach ==> ChannelsOf(net.trace) == ChannelsOf(old(net.trace))
      ensures RelayTry(t) && net.trace == old(net.trace) + AttemptDeeds(name, ask, t)
      ensures sent == t.sent.Some? && a == if sent then t.sent.value else Answer(ResourceLimit, NO_REPLY)
    {
      var fits := net.Fits();
      if !fits {
        ChannelsNow(old(net.trace), TooLarge);
        return false, Answer(ResourceLimit, NO_REPLY), Attempt([TooLarge], None);
      }
      a := net.Call(name, ask);
      ChannelsNow(old(net.trace), Sent(name, ask, a));
      sent, t := true, Attempt([], Some(a));
    }

    /** One attempt over the open connection or a new one. */
    method SendDirect(name: Method, ask: Ask) returns (sent: bool, a: Answer, ghost t: Attempt)
      requires !relay && attachedOnce && name != Attach && name != RequestGrant && Current()
      modifies this, net
      ensures Current()
      ensures DirectTry(t) && net.trace == old(net.trace) + AttemptDeeds(name, ask, t)
      ensures sent == t.sent.Some? && a == if sent then t.sent.value else Answer(SetupCode(t.setup), NO_REPLY)
      ensures t.sent.None? ==> t.setup != []
      ensures !old(controller) ==> t.setup != []
      ensures View() == old(View()) && attachedOnce && unsupported == old(unsupported)
      decreases 2, 3
    {
      hide Established, Attaches;
      var code;
      ghost var ds;
      code, ds := EnsureController();
      if code != Ok {
        return false, Answer(code, NO_REPLY), Attempt(ds, None);
      }
      a := net.Call(name, ask);
      ChannelsKept(old(net.trace) + ds, Sent(name, ask, a));
      sent, t := true, Attempt(ds, Some(a));
    }

    /** A connection made for one call and closed behind it. */
    method LegacyCall(name: Method, ask: Ask) returns (a: Answer, ghost t: Attempt)
      requires name != RequestGrant
      modifies net
      ensures name != Attach ==> ChannelsOf(net.trace) == ChannelsOf(old(net.trace))
      ensures LegacyTry(t) && net.trace == old(net.trace) + AttemptDeeds(name, ask, t)
      ensures a == if t.sent.Some? then t.sent.value else Answer(SetupCode(t.setup), NO_REPLY)
    {
      var code := net.Connect();
      ChannelsNow(old(net.trace), Connecting(code));
      if code != Ok {
        return Answer(code, NO_REPLY), Attempt([Connecting(code)], None);
      }
      a := net.Call(name, ask);
      ChannelsNow(old(net.trace) + [Connecting(Ok)], Sent(name, ask, a));
      t := Attempt([Connecting(Ok)], Some(a));
    }

    /** The direct part of attachment_rpc: the open connection, a new one, a legacy one. */
    method DirectRpc(name: Method, ask: Ask) returns (a: Answer, ghost tries: seq<Attempt>)
      requires !relay && attachedOnce && name != Attach && name != RequestGrant && Current()
      modifies this, net
      ensures Current()
      ensures Tried(false, old(unsupported), name, tries) && a == Result(false, tries)
      ensures net.trace == old(net.trace) + Deeds(name, ask, tries)
      ensures View() == old(View()) && attachedOnce
      ensures unsupported == (old(unsupported) || |tries| == 3) && (|tries| == 3 ==> !controller)
      decreases 2, 4
    {
      hide DirectTry, LegacyTry, SetupCode, AttemptDeeds, Tried, Result, ChannelsOf, Deeds;
      ghost var t, u, v;
      if unsupported {
        a, t := LegacyCall(name, ask);
        LegacyOnce(name, t);
        OneTry(name, ask, t);
        return a, [t];
      }
      var sent, b;
      sent, a, t := SendDirect(name, ask);
      OneTry(name, ask, t);
      if !sent || !CanRetry(name) || !TransportError(a.code) {
        DirectOnce(name, t);
        return a, [t];
      }
      controller := false;
      sent, b, u := SendDirect(name, ask);
      TwoTries(name, ask, t, u);
      if sent {
        a := b;
      }
      if !TransportError(a.code) {
        DirectTwice(name, t, u);
        return a, [t, u];
      }
      controller := false;
      unsupported := true;
      a, v := LegacyCall(name, ask);
      DirectThrice(name, t, u, v);
      ThreeTries(name, ask, t, u, v);
      tries := [t, u, v];
    }

    /** cubicle_attachment_connect and cubicle_attachment_connect_relay */
    method Connect() returns (code: Code, ghost ds: seq<Deed>)
      requires !attachedOnce && !controller && Current()
      modifies this, net
      ensures net.trace == old(net.trace) + ds && ds != [] && Current() && stream == old(stream)
      ensures code == Ok <==> Attaches(ds[|ds| - 1])
      ensures code == Ok ==> Connected() && offsets == OffsetsOf(ds[|ds| - 1].answer.reply)
    {
      ghost var d;
      if relay {
        code, d := AttachController();
        ds := [d];
      } else {
        code, ds := EnsureController();
      }
    }

    /** cubicle_attachment_read_stream: from an open stream socket, or by a call
        whose reply says how far the log was read. What it comes to is decided by
        the last thing that came back, and that is what the caller is given. */
    method ReadStream(kind: StreamKind, length: nat) returns (n: int, data: bytes, ghost event: Event, ghost ds: seq<Deed>)
      requires Connected()
      modifies this, net
      ensures net.trace == old(net.trace) + ds
      ensures event == EventOf(old(View()), Fetch(kind, length), ds)
      ensures forall d <- ds :: Asks(old(View()), Fetch(kind, length), d)
      ensures Connected() && View() == Apply(old(View()), event) && Lawful(old(View()), event)
      ensures data == Buffered(event) && |data| <= length
      ensures n == if event.SocketRead? || event.RpcRead? then |data|
                   else if ds != [] && ds[|ds| - 1] == Received(length, Again) then 0 else -1
      ensures ds == [] <==> length == 0 || kind !in old(channels)
    {
      n, data, event, ds := -1, [], Nothing, [];
      if length == 0 || kind !in channels {
        return;
      }
      if stream == Some(kind) {
        var s := net.Receive(length);
        ds := [Received(length, s)];
        if s.Again? {
          n := 0;
        } else if s.Closed? {
          stream, event := None, StreamClosed;
        } else {
          offsets := offsets.Set(kind, offsets.Get(kind) + |s.data|);
          n, data, event := |s.data|, s.data, SocketRead(kind, s.data);
        }
        return;
      }
      n, data, event, ds := RpcFetch(kind, length);
    }

    method RpcFetch(kind: StreamKind, length: nat) returns (n: int, data: bytes, ghost event: Event, ghost ds: seq<Deed>)
      requires Connected() && stream != Some(kind)
      modifies this, net
      ensures net.trace == old(net.trace) + ds && ds != []
      ensures event == LastEvent(old(View()), Fetch(kind, length), ds[|ds| - 1]) && (event == Nothing || event.RpcRead?)
      ensures forall d <- ds :: Asks(old(View()), Fetch(kind, length), d)
      ensures Connected() && View() == Apply(old(View()), event) && Lawful(old(View()), event)
      ensures data == Buffered(event) && |data| <= length
      ensures n == if event == Nothing then -1 else |data|
      ensures !ds[|ds| - 1].Received?
    {
      hide Tried, Result, Deeds, Asks, LastEvent, S.Requested, ChannelsOf, CanRetry, TransportError;
      n, data, event := -1, [], Nothing;
      var offset, maximum := offsets.Get(kind), S.Requested(length);
      var a;
      ghost var tries;
      a, tries := Rpc(Read, AskRead(kind, offset, maximum));
      ds := Deeds(Read, AskRead(kind, offset, maximum), tries);
      ReadDeeds(relay, !relay && old(unsupported), old(View()), kind, length, tries);
      if a.code != Ok || a.reply.next.None? || a.reply.end.None? || a.reply.next.value < offset {
        return;
      }
      if a.reply.data.None? || |a.reply.data.value| > length {
        return;
      }
      offsets := offsets.Set(kind, a.reply.next.value);
      data := a.reply.data.value;
      n, event := |data|, RpcRead(kind, maximum, a.reply.next.value, data);
    }

    /** cubicle_attachment_stream_start. */
    method StreamStart(kind: StreamKind) returns (ok: bool, ghost event: Event, ghost ds: seq<Deed>)
      requires Connected()
      modifies this, net
      ensures net.trace == old(net.trace) + ds
      ensures event == EventOf(old(View()), Start(kind), ds)
      ensures forall d <- ds :: Asks(old(View()), Start(kind), d)
      ensures Connected() && View() == Apply(old(View()), event) && Lawful(old(View()), event)
      ensures ok <==> kind in channels && (relay || stream == Some(kind))
      ensures ds == [] <==> kind !in channels || relay || old(stream) == Some(kind)
      ensures |ds| <= 1 && channels == old(channels)
    {
      event, ds := Nothing, [];
      if kind !in channels {
        return false, event, ds;
      }
      if stream == Some(kind) || relay {
        return true, event, ds;
      }
      stream := None;
      var reached := net.Open(kind, offsets.Get(kind));
      event, ds := StreamClosed, [Opening(kind, offsets.Get(kind), reached)];
      if reached {
        stream, event := Some(kind), StreamOpened(kind);
      }
      return reached, event, ds;
    }

    /** cubicle_attachment_replay */
    method Replay(count: nat)
      requires Connected()
      modifies this`offsets
      ensures Connected() && View() == Apply(old(View()), Replayed(count))
    {
      offsets := offsets.Back(count);
    }

    /** cubicle_attachment_snapshot: a complete reply moves the terminal's offset. */
    method TakeSnapshot() returns (code: Code, ghost event: Event, ghost ds: seq<Deed>)
      requires Connected()
      modifies this, net
      ensures net.trace == old(net.trace) + ds && ds != []
      ensures event == EventOf(old(View()), Snap, ds)
      ensures forall d <- ds :: Asks(old(View()), Snap, d)
      ensures Connected() && View() == Apply(old(View()), event)
      ensures code == Ok <==> event.SnapshotTaken?
    {
      hide Tried, Result, Deeds, Asks, LastEvent, ChannelsOf, CanRetry, TransportError;
      event := Nothing;
      var a;
      ghost var tries;
      a, tries := Rpc(Snapshot, AskOther);
      ds := Deeds(Snapshot, AskOther, tries);
      SnapshotDeeds(relay, !relay && old(unsupported), old(View()), tries);
      if a.code != Ok {
        return a.code, event, ds;
      }
      if a.reply.offset.None? {
        return Protocol, event, ds;
      }
      offsets := offsets.Set(TtyStream, a.reply.offset.value);
      event := SnapshotTaken(a.reply.offset.value);
      return Ok, event, ds;
    }

    /** The calls that only ask or tell: write, status, resize, close_input, detach. */
    method Tell(name: Method) returns (code: Code, ghost ds: seq<Deed>)
      requires Connected() && name !in {Attach, RequestGrant, Read}
      modifies this, net
      ensures net.trace == old(net.trace) + ds && ds != []
      ensures forall d <- ds :: Asks(old(View()), Request.Tell(name), d)
      ensures Connected() && View() == old(View())
    {
      hide Tried, Result, Deeds, Asks, ChannelsOf, CanRetry, TransportError;
      var a;
      ghost var tries;
      a, tries := Rpc(name, AskOther);
      ds := Deeds(name, AskOther, tries);
      TellDeeds(relay, !relay && old(unsupported), old(View()), name, tries);
      code := a.code;
    }

    /** Any calls, one after the other: where the caller stands afterwards, and the
        bytes it was given, are those of the events that happened, and those are
        what came back for each call. */
    method Perform(requests: seq<Request>) returns (buffers: seq<bytes>, ghost events: seq<Event>, ghost deeds: seq<seq<Deed>>)
      requires Connected()
      requires forall i | 0 <= i < |requests| :: requests[i].Tell? ==> requests[i].name !in {Attach, RequestGrant, Read}
      modifies this, net
      ensures net.trace == old(net.trace) + Flat(deeds)
      ensures Happened(relay, old(net.trace), old(View()), requests, events, deeds)
      ensures Connected() && View() == ApplyAll(old(View()), events)
      ensures |buffers| == |requests| && forall i | 0 <= i < |requests| :: buffers[i] == Buffered(events[i])
    {
      hide Apply, Lawful, ApplyAll, Happened, Flat, Does;
      NoneYet(relay, net.trace, View());
      buffers, events, deeds := [], [], [];
      for i := 0 to |requests|
        invariant Connected() && View() == ApplyAll(old(View()), events)
        invariant net.trace == old(net.trace) + Flat(deeds)
        invariant |events| == |buffers| == |deeds| == i && Happened(relay, old(net.trace), old(View()), requests[..i], events, deeds)
        invariant forall j | 0 <= j < i :: buffers[j] == Buffered(events[j])
      {
        var data;
        ghost var event, ds;
        data, event, ds := PerformOne(requests[i]);
        OneMore(relay, old(net.trace), old(View()), requests[..i], requests[i], events, event, deeds, ds);
        assert requests[..i + 1] == requests[..i] + [requests[i]];
        buffers, events, deeds := buffers + [data], events + [event], deeds + [ds];
      }
      assert requests[..|requests|] == requests;
    }

    method PerformOne(request: Request) returns (data: bytes, ghost event: Event, ghost ds: seq<Deed>)
      requires Connected() && (request.Tell? ==> request.name !in {Attach, RequestGrant, Read})
      modifies this, net
      ensures net.trace == old(net.trace) + ds
      ensures Does(relay, old(net.trace), old(View()), request, event, ds)
      ensures Connected() && View() == Apply(old(View()), event)
      ensures data == Buffered(event)
    {
      data, event, ds := [], Nothing, [];
      match request
      case Start(kind) =>
        var ok;
        ok, event, ds := StreamStart(kind);
      case Fetch(kind, length) =>
        var n;
        n, data, event, ds := ReadStream(kind, length);
      case GoBack(count) =>
        Replay(count);
        event := Replayed(count);
      case Snap =>
        var code;
        code, event, ds := TakeSnapshot();
      case Tell(name) =>
        var code;
        code, ds := Tell(name);
    }
  }

  // ---------------------------------------------------------------------------
  // Tries and deeds
  // ---------------------------------------------------------------------------

  lemma OneTry(name: Method, ask: Ask, t: Attempt)
    ensures Deeds(name, ask, [t]) == AttemptDeeds(name, ask, t)
  {
    hide AttemptDeeds;
    assert AttemptDeeds(name, ask, t) + [] == AttemptDeeds(name, ask, t);
  }

  lemma TwoTries(name: Method, ask: Ask, t: Attempt, u: Attempt)
    ensures Deeds(name, ask, [t, u]) == AttemptDeeds(name, ask, t) + AttemptDeeds(name, ask, u)
  {
    hide AttemptDeeds;
    OneTry(name, ask, u);
    assert [t, u][1..] == [u];
  }

  lemma ThreeTries(name: Method, ask: Ask, t: Attempt, u: Attempt, v: Attempt)
    ensures Deeds(name, ask, [t, u, v]) == AttemptDeeds(name, ask, t) + AttemptDeeds(name, ask, u) + AttemptDeeds(name, ask, v)
  {
    hide AttemptDeeds;
    TwoTries(name, ask, u, v);
    assert [t, u, v][1..] == [u, v];
  }

  lemma Prepend(name: Method, ask: Ask, ds: seq<Deed>, t: Attempt)
    ensures AttemptDeeds(name, ask, t.(setup := ds + t.setup)) == ds + AttemptDeeds(name, ask, t)
  {
  }

  lemma LegacyOnce(name: Method, t: Attempt)
    requires LegacyTry(t)
    ensures Tried(false, true, name, [t]) && t.setup != []
    ensures Result(false, [t]) == if t.sent.Some? then t.sent.value else Answer(SetupCode(t.setup), NO_REPLY)
  {
  }

  lemma DirectOnce(name: Method, t: Attempt)
    requires DirectTry(t) && (t.sent.None? ==> t.setup != []) && !(CanRetry(name) && t.sent.Some? && !Settles(t))
    ensures Tried(false, false, name, [t])
    ensures Result(false, [t]) == if t.sent.Some? then t.sent.value else Answer(SetupCode(t.setup), NO_REPLY)
  {
    hide DirectTry, SetupCode;
  }

  lemma DirectTwice(name: Method, t: Attempt, u: Attempt)
    requires DirectTry(t) && DirectTry(u) && CanRetry(name) && t.sent.Some? && !Settles(t) && u.setup != [] && Settles(u)
    ensures Tried(false, false, name, [t, u]) && Result(false, [t, u]) == u.sent.value
  {
    hide DirectTry;
  }

  lemma DirectThrice(name: Method, t: Attempt, u: Attempt, v: Attempt)
    requires DirectTry(t) && DirectTry(u) && CanRetry(name) && t.sent.Some? && !Settles(t) && u.setup != [] && !Settles(u)
    requires LegacyTry(v)
    ensures Tried(false, false, name, [t, u, v]) && v.setup != []
    ensures Result(false, [t, u, v]) == if v.sent.Some? then v.sent.value else Answer(SetupCode(v.setup), NO_REPLY)
  {
    hide DirectTry, SetupCode;
  }

  lemma OneRelayTry(name: Method, ask: Ask, tries: seq<Attempt>)
    requires Tried(true, false, name, tries) && !CanRetry(name)
    ensures |tries| == 1
    ensures Deeds(name, ask, tries) == [if tries[0].sent.Some? then Sent(name, ask, tries[0].sent.value) else TooLarge]
    ensures Result(true, tries) == if tries[0].sent.Some? then tries[0].sent.value else Answer(ResourceLimit, NO_REPLY)
  {
    assert tries == [tries[0]];
    OneTry(name, ask, tries[0]);
  }

  lemma GrantThenAttach(ds: seq<Deed>, d: Deed)
    requires GrantRun(ds, true) && AttachTry(d)
    ensures RefreshRun(ds + [d], Attaches(d)) && !GrantRun(ds + [d], false)
  {
    hide GrantRun, Attaches;
    assert (ds + [d])[..|ds|] == ds;
    GrantLonger(ds, d);
  }

  lemma GrantLonger(ds: seq<Deed>, d: Deed)
    requires GrantRun(ds, true)
    ensures |ds| >= 1 && !GrantRun(ds + [d], false)
  {
    assert forall i | 0 <= i < |ds| :: (ds + [d])[i] == ds[i];
  }

  lemma Unsent(name: Method, ask: Ask, ds: seq<Deed>)
    ensures AttemptDeeds(name, ask, Attempt(ds, None)) == ds
  {
  }

  lemma TriedRelay(name: Method, t: Attempt)
    requires RelayTry(t) && !(CanRetry(name) && t.sent.Some? && TransportError(t.sent.value.code))
    ensures Tried(true, false, name, [t])
    ensures Result(true, [t]) == if t.sent.Some? then t.sent.value else Answer(ResourceLimit, NO_REPLY)
  {
  }

  lemma RetriedRelay(name: Method, t: Attempt, again: Attempt, ds: seq<Deed>, ok: bool, a: Answer)
    requires RelayTry(t) && t.sent.Some? && TransportError(t.sent.value.code) && CanRetry(name) && RefreshRun(ds, ok)
    requires if !ok then again == Attempt(ds, None) && a == t.sent.value
             else if again.sent.Some? then again.setup == ds && a == again.sent.value
             else again.setup == ds + [TooLarge] && a == Answer(ResourceLimit, NO_REPLY)
    ensures Tried(true, false, name, [t, again]) && Result(true, [t, again]) == a
  {
    if ok && again.sent.None? {
      assert again.setup[..|again.setup| - 1] == ds;
    }
    if !ok {
      RefreshSetup(ds, false);
    }
  }

  lemma NoneYet(relay: bool, trace: seq<Deed>, p: Position)
    ensures ApplyAll(p, []) == p && Happened(relay, trace, p, [], [], []) && Flat([]) == []
  {
  }

  /** Setting up sends nothing but attaches and requests for grants. */
  predicate SetupDeed(d: Deed) {
    d.Connecting? || d.TooLarge? || (d.Sent? && (d.name == Attach || d.name == RequestGrant))
  }

  lemma SetupDeeds(relay: bool, legacy: bool, name: Method, tries: seq<Attempt>, i: nat)
    requires Tried(relay, legacy, name, tries) && i < |tries|
    ensures forall d <- tries[i].setup :: SetupDeed(d)
    ensures tries[i].sent.None? ==> tries[i].setup != []
  {
    if relay && i == 1 {
      RetrySetup(tries[1]);
    }
  }

  lemma RetrySetup(t: Attempt)
    requires RelayRetry(t)
    ensures t.setup != [] && forall d <- t.setup :: SetupDeed(d)
  {
    hide RefreshRun;
    if RefreshRun(t.setup, t.sent.Some?) {
      RefreshSetup(t.setup, t.sent.Some?);
    } else {
      var ds := t.setup[..|t.setup| - 1];
      RefreshSetup(ds, true);
      assert t.setup == ds + [TooLarge];
    }
  }

  lemma RefreshSetup(ds: seq<Deed>, ok: bool)
    requires RefreshRun(ds, ok)
    ensures ds != [] && forall d <- ds :: SetupDeed(d)
  {
    if !GrantRun(ds, false) {
      assert ds == ds[..|ds| - 1] + [ds[|ds| - 1]];
    }
  }

  lemma {:induction false} DeedsOf(name: Method, ask: Ask, tries: seq<Attempt>)
    requires forall i | 0 <= i < |tries| :: forall d <- tries[i].setup :: SetupDeed(d)
    ensures forall d <- Deeds(name, ask, tries) :: SetupDeed(d) || (d.Sent? && d.name == name && d.ask == ask)
  {
    hide SetupDeed;
    if tries != [] {
      DeedsOf(name, ask, tries[1..]);
    }
  }

  /** The deeds of a call: its own method with its own request, besides setting up;
      and the last of them is an Ok answer to it exactly if that is the result. */
  lemma DeedsAsk(relay: bool, legacy: bool, name: Method, ask: Ask, tries: seq<Attempt>)
    requires Tried(relay, legacy, name, tries) && name != Attach && name != RequestGrant
    ensures var ds, a := Deeds(name, ask, tries), Result(relay, tries);
      && ds != []
      && (forall d <- ds :: SetupDeed(d) || (d.Sent? && d.name == name && d.ask == ask))
      && (a.code == Ok ==> ds[|ds| - 1] == Sent(name, ask, a))
      && (ds[|ds| - 1].Sent? && ds[|ds| - 1].name == name && ds[|ds| - 1].answer.code == Ok ==> ds[|ds| - 1].answer == a)
  {
    hide RefreshRun, Established, NotEstablished, RelayRetry;
    forall i | 0 <= i < |tries| ensures (forall d <- tries[i].setup :: SetupDeed(d)) && (tries[i].sent.None? ==> tries[i].setup != []) {
      SetupDeeds(relay, legacy, name, tries, i);
    }
    DeedsOf(name, ask, tries);
    LastDeed(name, ask, tries);
    var t := tries[|tries| - 1];
    assert t.sent.None? ==> t.setup[|t.setup| - 1] in t.setup;
    ResultOk(relay, legacy, name, tries);
  }

  lemma ReadDeeds(relay: bool, legacy: bool, p: Position, kind: StreamKind, length: nat, tries: seq<Attempt>)
    requires Tried(relay, legacy, Read, tries) && p.stream != Some(kind)
    ensures var ask, r := AskRead(kind, p.offsets.Get(kind), S.Requested(length)), Fetch(kind, length);
      var ds, a := Deeds(Read, ask, tries), Result(relay, tries);
      && ds != [] && (forall d <- ds :: Asks(p, r, d)) && !ds[|ds| - 1].Received?
      && LastEvent(p, r, ds[|ds| - 1]) ==
         if a.code == Ok && Usable(a.reply, p.offsets.Get(kind), length)
         then RpcRead(kind, S.Requested(length), a.reply.next.value, a.reply.data.value) else Nothing
  {
    hide Tried, Result, Deeds, S.Requested, Usable;
    DeedsAsk(relay, legacy, Read, AskRead(kind, p.offsets.Get(kind), S.Requested(length)), tries);
  }

  lemma SnapshotDeeds(relay: bool, legacy: bool, p: Position, tries: seq<Attempt>)
    requires Tried(relay, legacy, Snapshot, tries)
    ensures var ds, a := Deeds(Snapshot, AskOther, tries), Result(relay, tries);
      && ds != [] && (forall d <- ds :: Asks(p, Snap, d))
      && LastEvent(p, Snap, ds[|ds| - 1]) ==
         if a.code == Ok && a.reply.offset.Some? then SnapshotTaken(a.reply.offset.value) else Nothing
  {
    hide Tried, Result, Deeds;
    DeedsAsk(relay, legacy, Snapshot, AskOther, tries);
  }

  lemma TellDeeds(relay: bool, legacy: bool, p: Position, name: Method, tries: seq<Attempt>)
    requires Tried(relay, legacy, name, tries) && name !in {Attach, RequestGrant, Read}
    ensures Deeds(name, AskOther, tries) != [] && forall d <- Deeds(name, AskOther, tries) :: Asks(p, Request.Tell(name), d)
  {
    hide Tried, Result, Deeds;
    DeedsAsk(relay, legacy, name, AskOther, tries);
  }

  lemma {:induction false} LastDeed(name: Method, ask: Ask, tries: seq<Attempt>)
    requires tries != [] && (tries[|tries| - 1].sent.None? ==> tries[|tries| - 1].setup != [])
    ensures var ds, t := Deeds(name, ask, tries), tries[|tries| - 1];
      ds != [] && ds[|ds| - 1] == if t.sent.Some? then Sent(name, ask, t.sent.value) else t.setup[|t.setup| - 1]
  {
    if |tries| == 1 {
      OneTry(name, ask, tries[0]);
      assert tries == [tries[0]];
    } else {
      LastDeed(name, ask, tries[1..]);
    }
  }

  /** Only an answer is Ok. */
  lemma ResultOk(relay: bool, legacy: bool, name: Method, tries: seq<Attempt>)
    requires Tried(relay, legacy, name, tries)
    ensures tries[0].sent.None? ==> |tries| == 1
    ensures tries[|tries| - 1].sent.None? ==> tries[|tries| - 1].setup != [] && Result(relay, tries).code != Ok
  {
    if relay && |tries| == 2 {
      RetrySetup(tries[1]);
    }
  }

  // ---------------------------------------------------------------------------
  // What the trying guarantees
  // ---------------------------------------------------------------------------

  function Sends(name: Method, ds: seq<Deed>): (n: nat) {
    if ds == [] then 0 else (if ds[0].Sent? && ds[0].name == name then 1 else 0) + Sends(name, ds[1..])
  }

  lemma {:induction false} SendsOn(name: Method, a: seq<Deed>, b: seq<Deed>)
    ensures Sends(name, a + b) == Sends(name, a) + Sends(name, b)
  {
    if a == [] {
      assert a + b == b;
    } else {
      assert (a + b)[1..] == a[1..] + b;
      SendsOn(name, a[1..], b);
    }
  }

  lemma {:induction false} NoSends(name: Method, ds: seq<Deed>)
    requires name != Attach && name != RequestGrant && forall d <- ds :: SetupDeed(d)
    ensures Sends(name, ds) == 0
  {
    if ds != [] {
      assert SetupDeed(ds[0]);
      NoSends(name, ds[1..]);
    }
  }

  lemma {:induction false} SendsTried(name: Method, ask: Ask, tries: seq<Attempt>)
    requires name != Attach && name != RequestGrant
    requires forall i | 0 <= i < |tries| :: forall d <- tries[i].setup :: SetupDeed(d)
    ensures Sends(name, Deeds(name, ask, tries)) <= |tries|
  {
    hide SetupDeed;
    if tries != [] {
      var t := tries[0];
      var sent := if t.sent.Some? then [Sent(name, ask, t.sent.value)] else [];
      NoSends(name, t.setup);
      SendsOn(name, t.setup, sent);
      assert |sent| <= 1 && Sends(name, sent) <= 1 by { assert sent != [] ==> sent[1..] == []; }
      SendsOn(name, AttemptDeeds(name, ask, t), Deeds(name, ask, tries[1..]));
      SendsTried(name, ask, tries[1..]);
    }
  }

  /** A method is sent at most three times directly, twice over a relay, once if it
      may not be retried or only its own connections are left. */
  lemma SentAtMost(relay: bool, legacy: bool, name: Method, ask: Ask, tries: seq<Attempt>)
    requires Tried(relay, legacy, name, tries) && name != Attach && name != RequestGrant
    ensures Sends(name, Deeds(name, ask, tries)) <= if name == CloseInput then 1 else if relay then 2 else if legacy then 1 else 3
  {
    forall i | 0 <= i < |tries| ensures forall d <- tries[i].setup :: SetupDeed(d) {
      SetupDeeds(relay, legacy, name, tries, i);
    }
    SendsTried(name, ask, tries);
  }

  /** A failure of the transport, not an answer. */
  predicate Passing(a: Answer) {
    a.code == Io || a.code == Timeout || a.code == ManagerUnavailable || a.code == ControllerUnavailable
  }

  /** The result is the first answer that is no transport error: every try before
      the last was unanswered or failed that way, and the last is what counts. */
  lemma FirstSettled(relay: bool, legacy: bool, name: Method, tries: seq<Attempt>)
    requires Tried(relay, legacy, name, tries)
    ensures tries[0].sent.None? ==> |tries| == 1
    ensures tries[|tries| - 1].sent.None? ==> tries[|tries| - 1].setup != []
    ensures forall i | 0 <= i < |tries| - 1 :: tries[i].sent.None? || Passing(tries[i].sent.value)
    ensures forall i | 0 <= i < |tries| && tries[i].sent.Some? && !Passing(tries[i].sent.value) ::
      i == |tries| - 1 && Result(relay, tries) == tries[i].sent.value
  {
    hide RefreshRun, Established, NotEstablished, RelayRetry;
    ResultOk(relay, legacy, name, tries);
  }

  /**
    A transport error, or no answer, comes back for a retryable method only when
    the tries are used up: over a relay, after a second send or a grant or attach
    that failed; directly, after a connection of its own was tried, or when not
    even the first connection could be made.
   */
  lemma GivesUpOnlyWhenSpent(relay: bool, legacy: bool, name: Method, tries: seq<Attempt>)
    requires Tried(relay, legacy, name, tries) && name !in {Attach, CloseInput, RequestGrant}
    requires var last := tries[|tries| - 1]; last.sent.None? || Passing(last.sent.value)
    ensures if relay then tries == [Attempt([TooLarge], None)] || (|tries| == 2 && RelayRetry(tries[1]))
            else if legacy then LegacyTry(tries[0])
            else (|tries| == 1 && NotEstablished(tries[0].setup)) || (|tries| == 3 && LegacyTry(tries[2]))
  {
    hide RefreshRun, Established, NotEstablished, RelayRetry, LegacyTry;
    if relay && |tries| == 1 {
      assert tries == [tries[0]];
    }
  }
}
