/**
  Whole runs of an attachment: what a client has been given by any sequence of
  library calls, against the retained logs. `at` is where in the log the open
  stream socket stands, which the library itself does not keep.
 */
module ClientRuns {
  import opened Wrappers
  import opened Bytes
  import opened Attachment
  import J = JsonString
  import S = StreamRead
  import U = Utf8

  /** The logs as they are at the end of the run; earlier they were prefixes. */
  datatype Logs = Logs(out: bytes, err: bytes)
  {
    function Of(kind: StreamKind): (log: bytes) {
      if kind.StderrStream? then err else out
    }
  }

  datatype Standing = Standing(position: Position, at: nat)
  {
    function Offset(kind: StreamKind): (n: nat) {
      position.offsets.Get(kind)
    }
  }

  /** A reply to a read, served from what the log was by then. */
  ghost predicate Served(log: bytes, offset: nat, maximum: nat, next: nat, text: bytes) {
    exists n | offset <= n <= |log| ::
      var r := S.ReplyAt(log[..n], offset, maximum); next == r.next && J.ReadString(r.data) == Some(text)
  }

  /** What the other end sees to: the sockets and replies are those of the logs. */
  ghost predicate Truthful(logs: Logs, s: Standing, e: Event) {
    match e
    case SocketRead(k, data) =>
      s.at + |data| <= |logs.Of(k)| && data == logs.Of(k)[s.at..s.at + |data|]
    case RpcRead(k, maximum, next, text) => Served(logs.Of(k), s.Offset(k), maximum, next, text)
    case StreamOpened(k) => s.Offset(k) <= |logs.Of(k)|
    case SnapshotTaken(offset) => offset <= |logs.out|
    case _ => true
  }

  /** What the calls of the library and a controller behind them can do. */
  ghost predicate Conforms(logs: Logs, s: Standing, e: Event) {
    Lawful(s.position, e) && Truthful(logs, s, e)
  }

  function After(s: Standing, e: Event): (t: Standing) {
    Standing(
      Apply(s.position, e),
      match e
      case StreamOpened(k) => s.Offset(k)
      case SocketRead(_, data) => s.at + |data|
      case _ => s.at)
  }

  // ---------------------------------------------------------------------------
  // The socket and the offset
  // ---------------------------------------------------------------------------

  /** The open stream's offset says where its socket stands. */
  predicate InStep(s: Standing) {
    s.position.stream.Some? ==> s.at == s.Offset(s.position.stream.value)
  }

  /** The calls that move the offset of a stream whose socket stays where it is. */
  predicate MovesOpenStream(s: Standing, e: Event) {
    s.position.stream.Some? &&
    match e
    case Replayed(n) => n > 0 && s.Offset(s.position.stream.value) > 0
    case SnapshotTaken(offset) => s.position.stream == Some(TtyStream) && offset != s.Offset(TtyStream)
    case _ => false
  }

  /** A replay, or a snapshot, under an open stream is exactly what takes the
      offset away from the socket; every other call keeps them together. */
  lemma InStepKept(logs: Logs, s: Standing, e: Event)
    requires InStep(s) && Conforms(logs, s, e)
    ensures InStep(After(s, e)) <==> !MovesOpenStream(s, e)
  {
    hide Served;
  }

  // ---------------------------------------------------------------------------
  // What one kind of reader is given
  // ---------------------------------------------------------------------------

  /** A call that moves the offset of `kind` other than by reading. */
  predicate MovesOffset(s: Standing, e: Event, kind: StreamKind) {
    match e
    case Replayed(n) => n > 0 && s.Offset(kind) > 0
    case SnapshotTaken(offset) => kind.TtyStream? && offset != s.Offset(kind)
    case _ => false
  }

  /** No call of the run moves the offset of `kind`, or of an open stream, that way. */
  predicate Undisturbed(s: Standing, es: seq<Event>, kind: StreamKind)
    decreases es
  {
    es == [] ||
    (!MovesOffset(s, es[0], kind) && !MovesOpenStream(s, es[0]) && Undisturbed(After(s, es[0]), es[1..], kind))
  }

  ghost predicate Conforming(logs: Logs, s: Standing, es: seq<Event>)
    decreases es
  {
    es == [] || (Conforms(logs, s, es[0]) && Conforming(logs, After(s, es[0]), es[1..]))
  }

  function Final(s: Standing, es: seq<Event>): (t: Standing)
    decreases es
  {
    if es == [] then s else Final(After(s, es[0]), es[1..])
  }

  ghost predicate TruthfulAll(logs: Logs, s: Standing, es: seq<Event>)
    decreases es
  {
    es == [] || (Truthful(logs, s, es[0]) && TruthfulAll(logs, After(s, es[0]), es[1..]))
  }

  // ---------------------------------------------------------------------------
  // From what came back to what happened
  // ---------------------------------------------------------------------------

  /** An answer that says how far a log was read and what it held. */
  predicate Tells(a: Answer) {
    a.code == Ok && a.reply.next.Some? && a.reply.data.Some?
  }

  /** What comes back is of the logs: the answer to a read of a stream is served from
      its log for the offset and maximum asked for, and the open socket goes on
      where it stands. */
  ghost predicate Honest(logs: Logs, s: Standing, d: Deed) {
    match d
    case Sent(name, ask, a) =>
      && (name == Read && ask.AskRead? && Tells(a) ==>
            Served(logs.Of(ask.kind), ask.offset, ask.maximum, a.reply.next.value, a.reply.data.value))
      && (name == Snapshot && a.code == Ok && a.reply.offset.Some? ==> a.reply.offset.value <= |logs.out|)
    case Opening(k, offset, ok) => ok ==> offset <= |logs.Of(k)|
    case Received(_, Data(data)) =>
      s.position.stream.Some? ==>
        var log := logs.Of(s.position.stream.value); s.at + |data| <= |log| && data == log[s.at..s.at + |data|]
    case _ => true
  }

  /** The last thing to come back in each call is honest. */
  ghost predicate HonestRun(logs: Logs, s: Standing, es: seq<Event>, deeds: seq<seq<Deed>>)
    decreases es
  {
    && |es| == |deeds|
    && (es == [] ||
        (&& (deeds[0] != [] ==> Honest(logs, s, deeds[0][|deeds[0]| - 1]))
         && HonestRun(logs, After(s, es[0]), es[1..], deeds[1..])))
  }

  /** What a call comes to is lawful whatever came back, and truthful if that was
      honest; and it fits the caller's buffer. */
  lemma HonestTruthful(logs: Logs, s: Standing, r: Request, ds: seq<Deed>)
    requires forall d <- ds :: Asks(s.position, r, d)
    ensures Lawful(s.position, EventOf(s.position, r, ds))
    ensures (ds != [] ==> Honest(logs, s, ds[|ds| - 1])) ==> Truthful(logs, s, EventOf(s.position, r, ds))
  {
    hide Served, S.Requested;
    if ds != [] {
      assert Asks(s.position, r, ds[|ds| - 1]);
    }
  }

  /** A run of the library, which `Attachment.Perform` returns, conforms exactly if
      its events are truthful, and so it does if what came back was honest; and it
      ends where the library says it does. */
  lemma {:induction false} RunConforms(logs: Logs, relay: bool, trace: seq<Deed>, s: Standing,
                                       rs: seq<Request>, es: seq<Event>, deeds: seq<seq<Deed>>)
    requires Happened(relay, trace, s.position, rs, es, deeds)
    ensures Final(s, es).position == ApplyAll(s.position, es)
    ensures Conforming(logs, s, es) <==> TruthfulAll(logs, s, es)
    ensures HonestRun(logs, s, es, deeds) ==> Conforming(logs, s, es)
    decreases es
  {
    hide Apply, Lawful, Truthful, Honest, EventOf, Asks, Reaches, ChannelsOf;
    if es != [] {
      HonestTruthful(logs, s, rs[0], deeds[0]);
      RunConforms(logs, relay, trace + deeds[0], After(s, es[0]), rs[1..], es[1..], deeds[1..]);
    }
  }

  /** Nothing is kept back: the reply to a read, as the controller makes it, is given
      to the caller whole, except a byte above ASCII to a buffer of one byte. */
  lemma ReadDelivers(log: bytes, p: Position, kind: StreamKind, length: nat, ds: seq<Deed>, a: Answer)
    requires length >= 1 && p.offsets.Get(kind) <= |log| && ds != []
    requires ds[|ds| - 1] == Sent(Read, AskRead(kind, p.offsets.Get(kind), S.Requested(length)), a) && a.code == Ok
    requires var r := S.ReplyAt(log, p.offsets.Get(kind), S.Requested(length));
      a.reply.next == Some(r.next) && a.reply.end == Some(r.endOfStream) && a.reply.data == J.ReadString(r.data)
    ensures var offset := p.offsets.Get(kind); var next := S.ReplyAt(log, offset, S.Requested(length)).next;
      && offset <= next <= |log|
      && EventOf(p, Fetch(kind, length), ds) ==
         if length == 1 && offset < |log| && log[offset] >= 0x80 then Nothing
         else RpcRead(kind, S.Requested(length), next, J.Text(log[offset..next]))
  {
    hide J.ReadString, J.Text, S.Requested, S.ReplyTo;
    StartsAt(log, p.offsets.Get(kind), S.Requested(length));
    S.ReplyFits(log, p.offsets.Get(kind), length);
  }

  lemma StartsAt(log: bytes, offset: nat, maximum: nat)
    requires offset <= |log|
    ensures S.ReplyAt(log, offset, maximum).start == offset
  {
  }

  /** The bytes one call put into the buffer of a reader of `kind`. */
  function Given(e: Event, kind: StreamKind): (data: bytes) {
    match e
    case SocketRead(k, data) => if k == kind then data else []
    case RpcRead(k, _, _, text) => if k == kind then text else []
    case _ => []
  }

  function Delivered(es: seq<Event>, kind: StreamKind): (data: bytes) {
    if es == [] then [] else Given(es[0], kind) + Delivered(es[1..], kind)
  }

  /** The buffers of the calls that read `kind`, one after the other. */
  function Fetched(rs: seq<Request>, buffers: seq<bytes>, kind: StreamKind): (data: bytes)
    requires |rs| == |buffers|
  {
    if rs == [] then []
    else (if rs[0].Fetch? && rs[0].kind == kind then buffers[0] else []) + Fetched(rs[1..], buffers[1..], kind)
  }

  /** What a reader of `kind` is given is what its own calls put into its buffers. */
  lemma {:induction false} FetchedIsDelivered(relay: bool, trace: seq<Deed>, p: Position, rs: seq<Request>, es: seq<Event>,
                                              deeds: seq<seq<Deed>>, buffers: seq<bytes>, kind: StreamKind)
    requires Happened(relay, trace, p, rs, es, deeds)
    requires |buffers| == |es| && forall i | 0 <= i < |es| :: buffers[i] == Buffered(es[i])
    ensures Fetched(rs, buffers, kind) == Delivered(es, kind)
    decreases es
  {
    hide Apply, Buffered, Given, Reaches, ChannelsOf, Asks, EventOf;
    if es != [] {
      FetchedOne(p, rs[0], deeds[0], kind);
      FetchedIsDelivered(relay, trace + deeds[0], Apply(p, es[0]), rs[1..], es[1..], deeds[1..], buffers[1..], kind);
    }
  }

  lemma FetchedOne(p: Position, r: Request, ds: seq<Deed>, kind: StreamKind)
    ensures var e := EventOf(p, r, ds); Given(e, kind) == if r.Fetch? && r.kind == kind then Buffered(e) else []
  {
  }

  /** No read by call ever cut, or found, anything but UTF-8. */
  predicate Clean(logs: Logs, s: Standing, e: Event, kind: StreamKind) {
    e.RpcRead? && e.kind == kind && s.Offset(kind) <= e.next <= |logs.Of(kind)| ==>
      U.WellFormed(logs.Of(kind)[s.Offset(kind)..e.next])
  }

  predicate AllClean(logs: Logs, s: Standing, es: seq<Event>, kind: StreamKind)
    decreases es
  {
    es == [] || (Clean(logs, s, es[0], kind) && AllClean(logs, After(s, es[0]), es[1..], kind))
  }

  lemma ServedText(log: bytes, offset: nat, maximum: nat, next: nat, text: bytes)
    requires Served(log, offset, maximum, next, text)
    ensures offset <= next <= |log| && text == J.Text(log[offset..next])
  {
    hide J.Quoted, J.ReadString, J.Text, U.SafeLength;
    var n :| offset <= n <= |log|
      && var r := S.ReplyAt(log[..n], offset, maximum); next == r.next && J.ReadString(r.data) == Some(text);
    var x := S.Window(log[..n], offset, maximum);
    assert x == log[offset..offset + |x|];
    assert x[..S.CutLength(x)] == log[offset..offset + S.CutLength(x)];
    J.RoundTrip(log[offset..next]);
  }

  /** A range of the log that one call covered, raw or as the text of a reply. */
  datatype Piece = Piece(from: nat, to: nat, byCall: bool)

  function PieceOf(s: Standing, e: Event, kind: StreamKind): (ps: seq<Piece>) {
    if (e.SocketRead? || e.RpcRead?) && e.kind == kind
    then [Piece(s.Offset(kind), After(s, e).Offset(kind), e.RpcRead?)] else []
  }

  function Pieces(s: Standing, es: seq<Event>, kind: StreamKind): (ps: seq<Piece>)
    decreases es
  {
    if es == [] then [] else PieceOf(s, es[0], kind) + Pieces(After(s, es[0]), es[1..], kind)
  }

  /** Each piece begins where the one before it ended, from `from` up to `to`. */
  predicate Tiling(ps: seq<Piece>, from: nat, to: nat)
    decreases ps
  {
    if ps == [] then from == to
    else ps[0].from == from && from <= ps[0].to && Tiling(ps[1..], ps[0].to, to)
  }

  function PieceData(log: bytes, p: Piece): (data: bytes) {
    if !(p.from <= p.to <= |log|) then []
    else if p.byCall then J.Text(log[p.from..p.to]) else log[p.from..p.to]
  }

  function PiecesData(log: bytes, ps: seq<Piece>): (data: bytes) {
    if ps == [] then [] else PieceData(log, ps[0]) + PiecesData(log, ps[1..])
  }

  /** `data` is what the pieces hold, and the pieces are the log from `from` to `to`. */
  ghost predicate Covers(log: bytes, from: nat, to: nat, ps: seq<Piece>, data: bytes) {
    from <= to <= |log| && Tiling(ps, from, to) && data == PiecesData(log, ps)
  }

  /** The data is the range itself if and only if `clean`. */
  predicate Exact(log: bytes, from: nat, to: nat, data: bytes, clean: bool) {
    from <= to <= |log| && |data| >= to - from
    && (data == log[from..to] <==> clean) && (|data| == to - from <==> clean)
  }

  lemma StepCovers(logs: Logs, s: Standing, e: Event, kind: StreamKind)
    requires InStep(s) && Conforms(logs, s, e) && !MovesOffset(s, e, kind) && s.Offset(kind) <= |logs.Of(kind)|
    ensures var log, to := logs.Of(kind), After(s, e).Offset(kind);
      && Covers(log, s.Offset(kind), to, PieceOf(s, e, kind), Given(e, kind))
      && Exact(log, s.Offset(kind), to, Given(e, kind), Clean(logs, s, e, kind))
  {
    hide Served, J.Text, U.WellFormed;
    var log, from, to := logs.Of(kind), s.Offset(kind), After(s, e).Offset(kind);
    if e.RpcRead? && e.kind == kind {
      ServedText(log, from, e.maximum, e.next, e.text);
      J.IdentityOnUtf8(log[from..e.next]);
      OnePiece(log, Piece(from, to, true));
    } else if e.SocketRead? && e.kind == kind {
      OnePiece(log, Piece(from, to, false));
    }
  }

  lemma OnePiece(log: bytes, p: Piece)
    requires p.from <= p.to
    ensures Tiling([p], p.from, p.to) && PiecesData(log, [p]) == PieceData(log, p)
  {
    hide PieceData;
    assert PieceData(log, p) + [] == PieceData(log, p);
  }

  lemma ExactOn(log: bytes, a: nat, b: nat, c: nat, x: bytes, y: bytes, p: bool, q: bool)
    requires Exact(log, a, b, x, p) && Exact(log, b, c, y, q)
    ensures Exact(log, a, c, x + y, p && q)
  {
    assert log[a..c] == log[a..b] + log[b..c];
  }

  lemma CoversOn(log: bytes, a: nat, b: nat, c: nat, ps: seq<Piece>, qs: seq<Piece>, x: bytes, y: bytes)
    requires |ps| <= 1 && Covers(log, a, b, ps, x) && Covers(log, b, c, qs, y)
    ensures Covers(log, a, c, ps + qs, x + y)
  {
    hide PieceData;
    if ps == [] {
      assert ps + qs == qs && x + y == y;
    } else {
      assert ps == [ps[0]] && (ps + qs)[1..] == qs && (ps + qs)[0] == ps[0];
      OnePiece(log, ps[0]);
      assert Tiling([], ps[0].to, b);
    }
  }

  /**
    In any run in which only reading moves the offset, whether through the stream
    socket, by calls, or now one and now the other, with the stream opened and
    closed in between, the calls of a reader cover the log from where it started
    to its final offset, each beginning where the one before it ended. What it is
    given is the pieces in that order: raw through the socket, as text by calls.
    It is the range itself if, and only if, no read by call ever covered a piece
    that is not UTF-8.
   */
  lemma {:induction false} ReadsCover(logs: Logs, s: Standing, es: seq<Event>, kind: StreamKind)
    requires InStep(s) && Conforming(logs, s, es) && s.Offset(kind) <= |logs.Of(kind)|
    requires Undisturbed(s, es, kind)
    ensures InStep(Final(s, es))
    ensures Covers(logs.Of(kind), s.Offset(kind), Final(s, es).Offset(kind), Pieces(s, es, kind), Delivered(es, kind))
    ensures Exact(logs.Of(kind), s.Offset(kind), Final(s, es).Offset(kind), Delivered(es, kind), AllClean(logs, s, es, kind))
    decreases es
  {
    hide Conforms, After, Clean, Given, InStep, MovesOffset, MovesOpenStream, PieceOf, Covers, Exact;
    if es == [] {
      NothingCovered(logs.Of(kind), s.Offset(kind));
    } else {
      var t := After(s, es[0]);
      var log, a, b, c := logs.Of(kind), s.Offset(kind), t.Offset(kind), Final(s, es).Offset(kind);
      InStepKept(logs, s, es[0]);
      StepCovers(logs, s, es[0], kind);
      CoveredWithin(log, a, b, PieceOf(s, es[0], kind), Given(es[0], kind));
      ReadsCover(logs, t, es[1..], kind);
      AtMostOne(s, es[0], kind);
      CoversOn(log, a, b, c, PieceOf(s, es[0], kind), Pieces(t, es[1..], kind),
               Given(es[0], kind), Delivered(es[1..], kind));
      ExactOn(log, a, b, c, Given(es[0], kind), Delivered(es[1..], kind),
              Clean(logs, s, es[0], kind), AllClean(logs, t, es[1..], kind));
    }
  }

  lemma NothingCovered(log: bytes, at: nat)
    requires at <= |log|
    ensures Covers(log, at, at, [], []) && Exact(log, at, at, [], true)
  {
  }

  lemma CoveredWithin(log: bytes, a: nat, b: nat, ps: seq<Piece>, x: bytes)
    requires Covers(log, a, b, ps, x)
    ensures a <= b <= |log|
  {
  }

  lemma AtMostOne(s: Standing, e: Event, kind: StreamKind)
    ensures |PieceOf(s, e, kind)| <= 1
  {
  }

  // ---------------------------------------------------------------------------
  // Any run at all
  // ---------------------------------------------------------------------------

  /** The piece a call covered: a socket reads on from where it stands, a call from
      the recorded offset, and replays and snapshots move only the latter. */
  function PieceRead(s: Standing, e: Event, kind: StreamKind): (ps: seq<Piece>) {
    match e
    case SocketRead(k, data) => if k == kind then [Piece(s.at, s.at + |data|, false)] else []
    case RpcRead(k, _, next, _) => if k == kind then [Piece(s.Offset(kind), next, true)] else []
    case _ => []
  }

  function PiecesRead(s: Standing, es: seq<Event>, kind: StreamKind): (ps: seq<Piece>)
    decreases es
  {
    if es == [] then [] else PieceRead(s, es[0], kind) + PiecesRead(After(s, es[0]), es[1..], kind)
  }

  lemma PieceReadGiven(logs: Logs, s: Standing, e: Event, kind: StreamKind)
    requires Conforms(logs, s, e)
    ensures Given(e, kind) == PiecesData(logs.Of(kind), PieceRead(s, e, kind)) && |PieceRead(s, e, kind)| <= 1
    ensures forall p <- PieceRead(s, e, kind) :: p.from <= p.to <= |logs.Of(kind)|
  {
    hide Served, J.Text;
    if e.RpcRead? && e.kind == kind {
      ServedText(logs.Of(kind), s.Offset(kind), e.maximum, e.next, e.text);
      OnePiece(logs.Of(kind), Piece(s.Offset(kind), e.next, true));
    } else if e.SocketRead? && e.kind == kind {
      OnePiece(logs.Of(kind), Piece(s.at, s.at + |e.data|, false));
    }
  }

  lemma PiecesDataOn(log: bytes, ps: seq<Piece>, qs: seq<Piece>)
    requires |ps| <= 1
    ensures PiecesData(log, ps + qs) == PiecesData(log, ps) + PiecesData(log, qs)
  {
    hide PieceData;
    if ps == [] {
      assert ps + qs == qs;
    } else {
      assert ps == [ps[0]] && (ps + qs)[1..] == qs && (ps + qs)[0] == ps[0];
      assert PiecesData(log, ps) == PieceData(log, ps[0]) + [] == PieceData(log, ps[0]);
    }
  }

  /**
    In every run, whatever is replayed or shot on the way, and with the stream open
    or not, what a reader is given is pieces of the log, whole and in the order of
    its calls, each from where its call stood.
   */
  lemma {:induction false} ReadsGiven(logs: Logs, s: Standing, es: seq<Event>, kind: StreamKind)
    requires Conforming(logs, s, es)
    ensures Delivered(es, kind) == PiecesData(logs.Of(kind), PiecesRead(s, es, kind))
    ensures forall p <- PiecesRead(s, es, kind) :: p.from <= p.to <= |logs.Of(kind)|
    decreases es
  {
    hide Conforms, After, Given, PieceRead, PieceData;
    if es != [] {
      PieceReadGiven(logs, s, es[0], kind);
      ReadsGiven(logs, After(s, es[0]), es[1..], kind);
      PiecesDataOn(logs.Of(kind), PieceRead(s, es[0], kind), PiecesRead(After(s, es[0]), es[1..], kind));
    }
  }

  lemma {:induction false} RunOn(logs: Logs, s: Standing, a: seq<Event>, b: seq<Event>)
    ensures Conforming(logs, s, a + b) <==> Conforming(logs, s, a) && Conforming(logs, Final(s, a), b)
    decreases a
  {
    hide Conforms, After;
    if a == [] {
      assert a + b == b;
    } else {
      assert (a + b)[1..] == a[1..] + b && (a + b)[0] == a[0];
      RunOn(logs, After(s, a[0]), a[1..], b);
    }
  }

  /** Between two disturbances the pieces are adjacent: any part of a run that is
      undisturbed, from a point where the open stream is in step, covers its range. */
  lemma PartCovers(logs: Logs, s: Standing, a: seq<Event>, b: seq<Event>, kind: StreamKind)
    requires Conforming(logs, s, a + b) && InStep(Final(s, a)) && Undisturbed(Final(s, a), b, kind)
    requires Final(s, a).Offset(kind) <= |logs.Of(kind)|
    ensures var t := Final(s, a); var log, from, to := logs.Of(kind), t.Offset(kind), Final(t, b).Offset(kind);
      && Covers(log, from, to, Pieces(t, b, kind), Delivered(b, kind))
      && Exact(log, from, to, Delivered(b, kind), AllClean(logs, t, b, kind))
  {
    hide Conforming, Final, Undisturbed, Covers, Exact, Pieces, Delivered, AllClean, InStep;
    RunOn(logs, s, a, b);
    ReadsCover(logs, Final(s, a), b, kind);
  }

  /** With no stream open, a replay gives the last `count` bytes again, and then
      goes on without a gap. */
  lemma ReplayDelivers(logs: Logs, s: Standing, count: nat, es: seq<Event>, kind: StreamKind)
    requires s.position.stream.None? && s.Offset(kind) <= |logs.Of(kind)|
    requires var t := After(s, Replayed(count)); Conforming(logs, t, es) && Undisturbed(t, es, kind)
    ensures var t := After(s, Replayed(count)); var log, from, to := logs.Of(kind), Monus(s.Offset(kind), count), Final(t, es).Offset(kind);
      && t.Offset(kind) == from
      && Covers(log, from, to, Pieces(t, es, kind), Delivered(es, kind))
      && Exact(log, from, to, Delivered(es, kind), AllClean(logs, t, es, kind))
  {
    hide Conforming, AllClean, Final, Delivered, Covers, Exact, Pieces, Undisturbed;
    ReadsCover(logs, After(s, Replayed(count)), es, kind);
  }

  /** With the stream open, it does not: the socket gives what it would have. */
  lemma ReplayIgnored(logs: Logs, s: Standing, count: nat, kind: StreamKind, data: bytes)
    requires InStep(s) && s.position.stream == Some(kind) && count > 0 && s.Offset(kind) > 0 && data != []
    requires Conforms(logs, After(s, Replayed(count)), SocketRead(kind, data))
    ensures var t := After(After(s, Replayed(count)), SocketRead(kind, data)); var o := s.Offset(kind);
      && o + |data| <= |logs.Of(kind)| && data == logs.Of(kind)[o..o + |data|]
      && t.Offset(kind) == Monus(o, count) + |data| < t.at == o + |data|
  {
  }
}
