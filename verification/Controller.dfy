/**
  The controller as a state machine: 32 slots and the two retained logs. A step
  is what its main loop does between two polls for one descriptor
  (src/controller/stream.c, stream_event_loop): accept, receive, flush, close,
  or take a chunk of process output, append it to the log, advance the offset
  and broadcast it.
 */
module Controller {
  import opened Wrappers
  import opened Bytes
  import opened Framing
  import C = ControlClient

  const SLOTS: nat := 32

  datatype State = State(clients: seq<C.Client>, out: bytes, err: bytes, running: bool)
  {
    function Log(stream: C.Stream): (log: bytes) {
      if stream.Stdout? then out else err
    }
  }

  /** What a request meets besides the logs. */
  datatype Conditions = Conditions(
    completed: bool,
    stdinOpen: bool,
    readable: bool,
    reply: bytes,
    refuse: bool,
    granted: bool)

  datatype Step =
    | Accept
    | Output(stream: C.Stream, chunk: bytes, refused: set<nat>)
    | Flush(slot: nat, writes: seq<C.Write>)
    | Receive(slot: nat, input: C.Input, conditions: Conditions)
    | Close(slot: nat)

  /** initialize_control_clients and empty logs. */
  function Initial(): (s: State)
    ensures Inv(s)
  {
    State(seq(SLOTS, _ => C.EMPTY), [], [], true)
  }

  function FirstEmpty(clients: seq<C.Client>): (i: nat)
    ensures i <= |clients|
    ensures i < |clients| ==> clients[i].kind.Empty?
    ensures forall j | 0 <= j < i :: !clients[j].kind.Empty?
  {
    if clients == [] || clients[0].kind.Empty? then 0 else 1 + FirstEmpty(clients[1..])
  }

  /** broadcast_attached_output, for one slot. */
  function Broadcast(c: C.Client, stream: C.Stream, chunk: bytes, granted: bool): (d: C.Client) {
    if c.kind != C.AttachedKind(stream) then c else C.OrClosed(C.Enqueue(c, chunk, granted))
  }

  function BroadcastAll(clients: seq<C.Client>, stream: C.Stream, chunk: bytes, refused: set<nat>): (ds: seq<C.Client>)
    ensures |ds| == |clients|
  {
    seq(|clients|, i requires 0 <= i < |clients| => Broadcast(clients[i], stream, chunk, i !in refused))
  }

  function WorldOf(s: State, k: Conditions): (w: C.World) {
    C.World(s.out, s.err, k.completed, k.stdinOpen, k.readable, k.reply, k.refuse)
  }

  function Next(s: State, step: Step): (t: State)
    requires Inv(s)
  {
    if !s.running then s
    else match step
      case Accept =>
        var i := FirstEmpty(s.clients);
        if i == |s.clients| then s else s.(clients := s.clients[i := C.ACCEPTED])
      case Output(stream, chunk, refused) =>
        s.(clients := BroadcastAll(s.clients, stream, chunk, refused),
           out := if stream.Stdout? then s.out + chunk else s.out,
           err := if stream.Stderr? then s.err + chunk else s.err)
      case Flush(slot, writes) =>
        if slot >= |s.clients| || s.clients[slot].kind.Empty? then s
        else s.(clients := s.clients[slot := C.Flush(s.clients[slot], writes)])
      case Receive(slot, input, k) =>
        if slot >= |s.clients| || !s.clients[slot].kind.Reading? then s
        else
          var r := C.Receive(s.clients[slot], input, WorldOf(s, k), k.granted);
          if r.halted then s.(running := false) else s.(clients := s.clients[slot := r.client])
      case Close(slot) =>
        if slot >= |s.clients| then s else s.(clients := s.clients[slot := C.EMPTY])
  }

  /** An API call whose reply cannot be made or queued. */
  predicate Halts(s: State, step: Step) {
    && step.Receive? && step.input.Data? && step.slot < |s.clients| && s.clients[step.slot].kind.Reading?
    && var c := s.clients[step.slot];
    var o := Feed(c.parser, step.input.chunk);
    && o.event.Api?
    && (step.conditions.refuse || C.ApiReply(c.(parser := o.parser), step.conditions.reply, step.conditions.granted).None?)
  }

  /** A controller starts running, stops for that and nothing else, and then for good. */
  lemma StopsIff(s: State, step: Step)
    requires Inv(s)
    ensures Initial().running
    ensures Next(s, step).running <==> s.running && !Halts(s, step)
    ensures !s.running ==> Next(s, step) == s
  {
    hide C.Command, C.ErrorReply, C.ApiReply, C.Flush, C.Enqueue, Feed, BroadcastAll;
  }

  ghost predicate Inv(s: State) {
    |s.clients| == SLOTS && forall i | 0 <= i < SLOTS :: C.Good(s.clients[i], s.out, s.err)
  }

  /** One slot across one step: closed, reused, or the same connection going on. */
  predicate SlotStep(c: C.Client, d: C.Client) {
    d == C.EMPTY || (c.kind.Empty? && d == C.ACCEPTED) || C.Continues(c, d)
  }

  lemma BroadcastKeepsGood(s: State, i: nat, stream: C.Stream, chunk: bytes, granted: bool)
    requires Inv(s) && i < SLOTS
    ensures var d := Broadcast(s.clients[i], stream, chunk, granted);
      && C.Good(d, if stream.Stdout? then s.out + chunk else s.out, if stream.Stderr? then s.err + chunk else s.err)
      && SlotStep(s.clients[i], d)
  {
    hide C.StreamOf, C.AttachHeader;
    var c := s.clients[i];
    if c.kind == C.AttachedKind(stream) {
      C.BroadcastExtends(c, stream, s.Log(stream), chunk, granted);
    }
  }

  lemma StepKeepsSlot(s: State, step: Step, i: nat)
    requires Inv(s) && i < SLOTS
    ensures var t := Next(s, step);
      |t.clients| == SLOTS && C.Good(t.clients[i], t.out, t.err) && SlotStep(s.clients[i], t.clients[i])
  {
    hide C.Flush, C.Receive, Broadcast, C.StreamOf, C.AttachHeader;
    match step
    case Accept =>
    case Output(stream, chunk, refused) =>
      BroadcastKeepsGood(s, i, stream, chunk, i !in refused);
    case Flush(slot, writes) =>
      if slot == i && !s.clients[i].kind.Empty? {
        C.FlushKeepsGood(s.clients[i], writes, s.out, s.err);
      }
    case Receive(slot, input, k) =>
      if slot == i && s.clients[i].kind.Reading? {
        C.ReceiveKeepsGood(s.clients[i], input, WorldOf(s, k), k.granted);
      }
    case Close(slot) =>
  }

  /** Every step keeps every slot in order, and only ever extends the logs. */
  lemma StepKeepsInv(s: State, step: Step)
    requires Inv(s)
    ensures Inv(Next(s, step))
    ensures s.out <= Next(s, step).out && s.err <= Next(s, step).err
    ensures forall i | 0 <= i < SLOTS :: SlotStep(s.clients[i], Next(s, step).clients[i])
  {
    forall i | 0 <= i < SLOTS
      ensures var t := Next(s, step);
        |t.clients| == SLOTS && C.Good(t.clients[i], t.out, t.err) && SlotStep(s.clients[i], t.clients[i])
    {
      StepKeepsSlot(s, step, i);
    }
  }

  // ---------------------------------------------------------------------------
  // Whole runs
  // ---------------------------------------------------------------------------

  function Run(s: State, steps: seq<Step>): (t: State)
    requires Inv(s)
    ensures Inv(t) && s.out <= t.out && s.err <= t.err
    decreases steps
  {
    if steps == [] then s
    else
      StepKeepsInv(s, steps[0]);
      Run(Next(s, steps[0]), steps[1..])
  }

  /**
    The main result. After any run, whatever was accepted, attached, output,
    partially flushed, refused memory or closed on the way, every attached client
    has been sent, or still has queued, its header and the log from its attach
    point to the current offset: no gap, no repeat, no reordering.
   */
  lemma AttachedClientsStream(steps: seq<Step>, i: nat)
    requires i < SLOTS
    ensures var s := Run(Initial(), steps); var c := s.clients[i];
      C.Attached(c) ==>
        && c.offset <= |c.response| && c.attachment.Some?
        && var a := c.attachment.value; var log := if c.kind.AttachedStdout? then s.out else s.err;
        && a.start <= a.end <= |log|
        && c.wire + C.Pending(c) == C.AttachHeader(a) + log[a.start..]
        && c.wire <= C.AttachHeader(a) + log[a.start..]
  {
    var s := Run(Initial(), steps);
    var c := s.clients[i];
    assert C.Good(c, s.out, s.err);
    if C.Attached(c) {
      assert c.wire <= c.wire + C.Pending(c);
    }
  }

  /** Slot `i` holds a connection throughout a run. */
  ghost predicate StaysOpen(s: State, steps: seq<Step>, i: nat)
    requires Inv(s) && i < SLOTS
    decreases steps
  {
    !s.clients[i].kind.Empty? &&
    (steps == [] || (StepKeepsInv(s, steps[0]); StaysOpen(Next(s, steps[0]), steps[1..], i)))
  }

  /** An attached client that is not closed keeps its stream, whatever happens to
      the other slots, and what it was sent is never taken back. */
  lemma {:induction false} StreamContinues(s: State, steps: seq<Step>, i: nat)
    requires Inv(s) && i < SLOTS && C.Attached(s.clients[i]) && StaysOpen(s, steps, i)
    ensures C.Continues(s.clients[i], Run(s, steps).clients[i])
    decreases steps
  {
    if steps != [] {
      StepKeepsInv(s, steps[0]);
      var t := Next(s, steps[0]);
      assert SlotStep(s.clients[i], t.clients[i]);
      StreamContinues(t, steps[1..], i);
    }
  }

  /** A stream's client is only ever dropped by a socket error or hang-up, by the
      controller ending, or when more than the queue's four megabytes are owed. */
  lemma DroppedOnlyForCause(s: State, step: Step, i: nat)
    requires Inv(s) && i < SLOTS && C.Attached(s.clients[i]) && Next(s, step).clients[i].kind.Empty?
    ensures match step
      case Output(stream, chunk, refused) => i in refused || |s.clients[i].response| + |chunk| > C.RESPONSE_MAX
      case Flush(slot, writes) => slot == i && exists k | 0 <= k < |writes| :: writes[k].Failed?
      case Close(slot) => slot == i
      case Accept => false
      case Receive(_, _, _) => false
  {
    hide C.Receive;
    if step.Flush? && step.slot == i {
      FlushDropsOnFailure(s.clients[i], step.writes);
    }
  }

  lemma {:induction false} FlushDropsOnFailure(c: C.Client, writes: seq<C.Write>)
    requires c.offset <= |c.response| && C.Attached(c) && C.Flush(c, writes).kind.Empty?
    ensures exists k | 0 <= k < |writes| :: writes[k].Failed?
    decreases writes
  {
    if !writes[0].Failed? {
      FlushDropsOnFailure(if writes[0].Wrote? then C.Written(c, writes[0].n) else c, writes[1..]);
      var k :| 0 <= k < |writes[1..]| && writes[1..][k].Failed?;
      assert writes[k + 1].Failed?;
    }
  }
}
