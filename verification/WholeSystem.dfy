/**
  A controller and a client together. The controller takes any steps; the client
  makes any calls while it does. Each act of the client happens between two of the
  controller's steps and meets the controller as it then is.
 */
module WholeSystem {
  import opened Wrappers
  import opened Bytes
  import opened Attachment
  import C = ControlClient
  import H = Handshake
  import J = JsonString
  import K = Controller
  import R = ClientRuns
  import S = StreamRead
  import T = Text

  /** The controller after its first `n` steps. */
  function StateAt(steps: seq<K.Step>, n: nat): (s: K.State)
    requires n <= |steps|
    ensures K.Inv(s)
  {
    K.Run(K.Initial(), steps[..n])
  }

  function FinalLogs(steps: seq<K.Step>): (logs: R.Logs) {
    R.Logs(StateAt(steps, |steps|).out, StateAt(steps, |steps|).err)
  }

  lemma {:induction false} RunConcat(s: K.State, a: seq<K.Step>, b: seq<K.Step>)
    requires K.Inv(s)
    ensures K.Run(s, a + b) == K.Run(K.Run(s, a), b)
    decreases a
  {
    hide K.Next;
    if a == [] {
      assert a + b == b;
    } else {
      assert (a + b)[1..] == a[1..] + b && (a + b)[0] == a[0];
      K.StepKeepsInv(s, a[0]);
      RunConcat(K.Next(s, a[0]), a[1..], b);
    }
  }

  lemma Later(steps: seq<K.Step>, m: nat, n: nat)
    requires m <= n <= |steps|
    ensures StateAt(steps, n) == K.Run(StateAt(steps, m), steps[m..n])
    ensures StateAt(steps, m).out <= StateAt(steps, n).out && StateAt(steps, m).err <= StateAt(steps, n).err
  {
    hide K.Run;
    assert steps[..n] == steps[..m] + steps[m..n];
    RunConcat(K.Initial(), steps[..m], steps[m..n]);
  }

  lemma OneStep(steps: seq<K.Step>, n: nat)
    requires n < |steps|
    ensures StateAt(steps, n + 1) == K.Next(StateAt(steps, n), steps[n])
  {
    hide K.Next, K.Inv;
    Later(steps, n, n + 1);
    assert steps[n..n + 1] == [steps[n]] && [steps[n]][1..] == [];
  }

  // ---------------------------------------------------------------------------
  // What the client meets
  // ---------------------------------------------------------------------------

  /** When a call of the client gets its last answer, in which slot it opens a
      stream, and how much of what that slot has written has arrived. */
  datatype Moment = Moment(time: nat, slot: nat, arrived: nat)

  /** The open connection: its slot, its offset and when it was attached. */
  datatype Link = Link(slot: nat, base: nat, since: nat)

  /** Step `time` completes the client's command and the controller attaches it. */
  ghost predicate Granted(steps: seq<K.Step>, time: nat, slot: nat, kind: StreamKind, offset: nat) {
    && time < |steps| && slot < K.SLOTS && offset <= H.UINT64_MAX
    && var u := StateAt(steps, time);
    && u.running && |u.Log(H.StreamFor(kind))| < T.INT64_MAX
    && steps[time].Receive? && steps[time].slot == slot && steps[time].input.Data?
    && (exists sofar :: H.Asking(u.clients[slot], kind, offset, sofar, steps[time].input.chunk))
    && C.Attached(StateAt(steps, time + 1).clients[slot])
  }

  /** The connection has lasted until `time`, and `data` is what follows, in what
      has arrived of it, the bytes already read. */
  ghost predicate Arrived(steps: seq<K.Step>, link: Link, at: nat, time: nat, arrived: nat, data: bytes) {
    && link.since <= time <= |steps| && link.slot < K.SLOTS
    && K.StaysOpen(StateAt(steps, link.since), steps[link.since..time], link.slot)
    && var wire := StateAt(steps, time).clients[link.slot].wire;
    && arrived <= |wire|
    && var o := H.HeaderOf(wire[..arrived]);
    && o.Opened? && link.base <= at && at - link.base + |data| <= |o.rest|
    && data == o.rest[at - link.base..at - link.base + |data|]
  }

  /** The reply to a read of the log as it is. */
  ghost predicate Answered(log: bytes, offset: nat, maximum: nat, next: nat, text: bytes) {
    && offset <= |log|
    && var r := S.ReplyAt(log, offset, maximum);
    next == r.next && J.ReadString(r.data) == Some(text)
  }

  /** What came back, came from the controller as it was at that moment. */
  ghost predicate Met(steps: seq<K.Step>, s: R.Standing, link: Link, d: Deed, m: Moment) {
    && m.time <= |steps|
    && var u := StateAt(steps, m.time);
    match d
    case Opening(k, offset, ok) => ok ==> Granted(steps, m.time, m.slot, k, offset)
    case Received(_, Data(data)) => Arrived(steps, link, s.at, m.time, m.arrived, data)
    case Sent(name, ask, a) =>
      && (name == Read && ask.AskRead? && R.Tells(a) ==>
            Answered(u.Log(H.StreamFor(ask.kind)), ask.offset, ask.maximum, a.reply.next.value, a.reply.data.value))
      && (name == Snapshot && a.code == Ok && a.reply.offset.Some? ==> a.reply.offset.value <= |u.out|)
    case _ => true
  }

  function LinkAfter(s: R.Standing, link: Link, e: Event, m: Moment): (l: Link) {
    if e.StreamOpened? then Link(m.slot, s.Offset(e.kind), m.time + 1) else link
  }

  /** The client's calls, each at its moment, beside the controller's steps. */
  ghost predicate MetAll(steps: seq<K.Step>, s: R.Standing, link: Link, es: seq<Event>, deeds: seq<seq<Deed>>, ms: seq<Moment>)
    decreases es
  {
    && |es| == |deeds| == |ms|
    && (es == [] ||
        (&& (deeds[0] != [] ==> Met(steps, s, link, deeds[0][|deeds[0]| - 1], ms[0]))
         && MetAll(steps, R.After(s, es[0]), LinkAfter(s, link, es[0], ms[0]), es[1..], deeds[1..], ms[1..])))
  }

  // ---------------------------------------------------------------------------
  // It is the log
  // ---------------------------------------------------------------------------

  ghost predicate AttachedAt(c: C.Client, kind: StreamKind, base: nat) {
    && c.kind == C.AttachedKind(H.StreamFor(kind))
    && c.attachment.Some?
    && c.attachment.value.name == H.StreamName(kind) && c.attachment.value.start == base
    && base <= c.attachment.value.end <= H.UINT64_MAX
  }

  /** An open stream is one the controller attached, at the offset asked for. */
  ghost predicate Linked(steps: seq<K.Step>, s: R.Standing, link: Link) {
    s.position.stream.Some? ==>
      && link.since <= |steps| && link.slot < K.SLOTS
      && AttachedAt(StateAt(steps, link.since).clients[link.slot], s.position.stream.value, link.base)
  }

  lemma GrantAttaches(steps: seq<K.Step>, time: nat, slot: nat, kind: StreamKind, offset: nat)
    requires Granted(steps, time, slot, kind, offset)
    ensures AttachedAt(StateAt(steps, time + 1).clients[slot], kind, offset)
    ensures offset <= |StateAt(steps, time).Log(H.StreamFor(kind))|
  {
    hide K.Next, StateAt, H.Asking, H.StreamName;
    var u, step := StateAt(steps, time), steps[time];
    var sofar :| H.Asking(u.clients[slot], kind, offset, sofar, step.input.chunk);
    OneStep(steps, time);
    H.RequestAttaches(u, slot, kind, offset, sofar, step.input.chunk, step.conditions);
  }

  /** A connection that lasts keeps its stream. */
  lemma ConnectionLasts(steps: seq<K.Step>, kind: StreamKind, link: Link, time: nat)
    requires link.since <= time <= |steps| && link.slot < K.SLOTS
    requires K.StaysOpen(StateAt(steps, link.since), steps[link.since..time], link.slot)
    requires AttachedAt(StateAt(steps, link.since).clients[link.slot], kind, link.base)
    ensures AttachedAt(StateAt(steps, time).clients[link.slot], kind, link.base)
  {
    hide K.StaysOpen, H.StreamName, K.Run, StateAt;
    Later(steps, link.since, time);
    K.StreamContinues(StateAt(steps, link.since), steps[link.since..time], link.slot);
  }

  lemma SlotGood(u: K.State, slot: nat)
    requires K.Inv(u) && slot < K.SLOTS
    ensures C.Good(u.clients[slot], u.out, u.err)
  {
    hide C.Good;
  }

  /** Sockets carry the log: what has arrived of a lasting connection, and any part
      of it, is the log from where the connection was attached. */
  lemma ArrivedIsLog(steps: seq<K.Step>, kind: StreamKind, link: Link, at: nat, time: nat, arrived: nat, data: bytes)
    requires Arrived(steps, link, at, time, arrived, data)
    requires AttachedAt(StateAt(steps, link.since).clients[link.slot], kind, link.base)
    ensures var log := StateAt(steps, time).Log(H.StreamFor(kind));
      at + |data| <= |log| && data == log[at..at + |data|]
  {
    hide K.StaysOpen, H.HeaderOf, H.StreamName, StateAt, C.Good;
    var u := StateAt(steps, time);
    var c := u.clients[link.slot];
    ConnectionLasts(steps, kind, link, time);
    SlotGood(u, link.slot);
    H.SlotRead(c, kind, link.base, c.attachment.value.end, u, c.wire[..arrived]);
    SliceOfPrefix(H.HeaderOf(c.wire[..arrived]).rest, u.Log(H.StreamFor(kind)), link.base, at, |data|);
  }

  lemma SliceOfPrefix(rest: bytes, log: bytes, base: nat, at: nat, n: nat)
    requires base <= |log| && rest <= log[base..] && base <= at && at - base + n <= |rest|
    ensures at + n <= |log| && rest[at - base..at - base + n] == log[at..at + n]
  {
    assert forall i | 0 <= i < |rest| :: rest[i] == log[base..][i] == log[base + i];
    var x, y := rest[at - base..at - base + n], log[at..at + n];
    forall i | 0 <= i < n ensures x[i] == y[i] {
      assert x[i] == rest[at - base + i] == log[base + (at - base + i)];
    }
  }

  lemma AnsweredIsServed(log: bytes, now: bytes, offset: nat, maximum: nat, next: nat, text: bytes)
    requires now <= log && Answered(now, offset, maximum, next, text)
    ensures R.Served(log, offset, maximum, next, text)
  {
    hide S.ReplyAt, J.ReadString;
    assert log[..|now|] == now;
  }

  /** The logs at any time are prefixes of the final ones. */
  lemma LogsGrow(steps: seq<K.Step>, n: nat, kind: StreamKind)
    requires n <= |steps|
    ensures StateAt(steps, n).Log(H.StreamFor(kind)) <= FinalLogs(steps).Of(kind)
    ensures StateAt(steps, n).out <= FinalLogs(steps).out
  {
    hide StateAt;
    Later(steps, n, |steps|);
  }

  /** What the client meets is honest, and a stream it opens is linked. */
  lemma MetHonest(steps: seq<K.Step>, s: R.Standing, link: Link, r: Request, ds: seq<Deed>, m: Moment)
    requires forall d <- ds :: Asks(s.position, r, d)
    requires Linked(steps, s, link) && (ds != [] ==> Met(steps, s, link, ds[|ds| - 1], m))
    ensures ds != [] ==> R.Honest(FinalLogs(steps), s, ds[|ds| - 1])
    ensures var e := EventOf(s.position, r, ds); Linked(steps, R.After(s, e), LinkAfter(s, link, e, m))
  {
    hide StateAt, FinalLogs, Granted, Arrived, Answered, AttachedAt, R.Served, K.Inv, S.Requested;
    if ds != [] {
      var d := ds[|ds| - 1];
      assert Asks(s.position, r, d);
      match d
      case Opening(k, offset, ok) =>
        if ok {
          GrantInside(steps, m.time, m.slot, k, offset);
          GrantAttaches(steps, m.time, m.slot, k, offset);
          LogsGrow(steps, m.time, k);
        }
      case Received(_, Data(data)) =>
        ArrivedIsLog(steps, r.kind, link, s.at, m.time, m.arrived, data);
        LogsGrow(steps, m.time, r.kind);
      case Sent(name, ask, a) =>
        LogsGrow(steps, m.time, TtyStream);
        if name == Read && ask.AskRead? && R.Tells(a) {
          LogsGrow(steps, m.time, ask.kind);
          AnsweredIsServed(FinalLogs(steps).Of(ask.kind), StateAt(steps, m.time).Log(H.StreamFor(ask.kind)),
                           ask.offset, ask.maximum, a.reply.next.value, a.reply.data.value);
        }
      case _ =>
    }
  }

  lemma GrantInside(steps: seq<K.Step>, time: nat, slot: nat, kind: StreamKind, offset: nat)
    requires Granted(steps, time, slot, kind, offset)
    ensures time + 1 <= |steps| && slot < K.SLOTS
  {
  }

  lemma {:induction false} MetIsHonest(steps: seq<K.Step>, relay: bool, trace: seq<Deed>, s: R.Standing, link: Link,
                                       rs: seq<Request>, es: seq<Event>, deeds: seq<seq<Deed>>, ms: seq<Moment>)
    requires MetAll(steps, s, link, es, deeds, ms) && Linked(steps, s, link)
    requires Happened(relay, trace, s.position, rs, es, deeds)
    ensures R.HonestRun(FinalLogs(steps), s, es, deeds)
    decreases es
  {
    hide Met, Linked, Asks, EventOf, Apply, Reaches, ChannelsOf, R.Honest, FinalLogs, LinkAfter;
    if es != [] {
      MetHonest(steps, s, link, rs[0], deeds[0], ms[0]);
      MetIsHonest(steps, relay, trace + deeds[0], R.After(s, es[0]), LinkAfter(s, link, es[0], ms[0]),
                  rs[1..], es[1..], deeds[1..], ms[1..]);
    }
  }

  /**
    The whole system. Whatever a controller does from its start, whatever calls a
    client of the library makes beside it, opening streams, reading their sockets as
    the bytes arrive, reading by calls, closing and opening again: what those calls
    put into its buffers for a stream is the retained log, piece after piece from
    where it began to its offset.
   */
  lemma ClientSeesLog(steps: seq<K.Step>, relay: bool, trace: seq<Deed>, s: R.Standing, link: Link, rs: seq<Request>,
                      es: seq<Event>, deeds: seq<seq<Deed>>, buffers: seq<bytes>, ms: seq<Moment>, kind: StreamKind)
    requires s.position.stream.None? && s.Offset(kind) <= |FinalLogs(steps).Of(kind)|
    requires Happened(relay, trace, s.position, rs, es, deeds) && MetAll(steps, s, link, es, deeds, ms)
    requires |buffers| == |rs| == |es| && forall i | 0 <= i < |es| :: buffers[i] == Buffered(es[i])
    requires R.Undisturbed(s, es, kind)
    ensures var log, data := FinalLogs(steps).Of(kind), R.Fetched(rs, buffers, kind);
      var from, to := s.Offset(kind), ApplyAll(s.position, es).offsets.Get(kind);
      && R.Covers(log, from, to, R.Pieces(s, es, kind), data)
      && R.Exact(log, from, to, data, R.AllClean(FinalLogs(steps), s, es, kind))
  {
    hide FinalLogs, MetAll, Happened, Buffered, R.Undisturbed, R.Covers, R.Exact, R.HonestRun, R.TruthfulAll, R.Conforming,
      R.AllClean, R.Fetched, R.Delivered;
    MetIsHonest(steps, relay, trace, s, link, rs, es, deeds, ms);
    R.RunConforms(FinalLogs(steps), relay, trace, s, rs, es, deeds);
    R.FetchedIsDelivered(relay, trace, s.position, rs, es, deeds, buffers, kind);
    R.ReadsCover(FinalLogs(steps), s, es, kind);
  }
}
