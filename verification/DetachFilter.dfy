/**
  The escape an attached terminal is left with (src/cli/main.c,
  process_input_chunk): control-backslash and then d detaches; control-backslash
  and anything else sends both bytes.
 */
module DetachFilter {
  import opened Bytes

  const ESCAPE: byte := 0x1C
  const DETACH: byte := 0x64
  const OUTPUT_SIZE: nat := 4096
  const READ_SIZE: nat := 4095

  /** What was sent, whether an escape is pending, whether a detach was asked for. */
  datatype Outcome = Outcome(sent: bytes, pending: bool, detach: bool)

  function Filter1(pending: bool, b: byte): (o: Outcome) {
    if pending then (if b == DETACH then Outcome([], false, true) else Outcome([ESCAPE, b], false, false))
    else if b == ESCAPE then Outcome([], true, false)
    else Outcome([b], false, false)
  }

  function Then(o: Outcome, p: Outcome): (q: Outcome) {
    Outcome(o.sent + p.sent, p.pending, o.detach || p.detach)
  }

  function Filter(pending: bool, s: bytes): (o: Outcome)
    decreases s
  {
    if s == [] then Outcome([], pending, false)
    else
      var o := Filter1(pending, s[0]);
      Then(o, Filter(o.pending, s[1..]))
  }

  // ---------------------------------------------------------------------------
  // The loop over one read
  // ---------------------------------------------------------------------------

  /** The attachment's input; a failed write may have sent a part. */
  class Sink {
    var sent: bytes
    ghost var failures: nat

    constructor ()
      ensures sent == []
    {
      sent, failures := [], 0;
    }

    method WriteAll(data: bytes) returns (ok: bool)
      modifies this
      ensures old(sent) <= sent <= old(sent) + data
      ensures ok ==> sent == old(sent) + data
      ensures failures == old(failures) + if ok then 0 else 1
    {
      var n: nat :| n <= |data|;
      sent := sent + data[..n];
      ok := n == |data|;
      failures := failures + if ok then 0 else 1;
    }
  }

  class Typist {
    const sink: Sink
    var pending: bool
    var detach: bool

    constructor (sink: Sink)
      ensures this.sink == sink && !pending && !detach
    {
      this.sink, pending, detach := sink, false, false;
    }

    /** One byte: dropped, or stored with the escape before it. */
    method Take(b: byte, output: array<byte>, used: nat) returns (now: nat)
      requires used + (if pending then 1 else 0) < output.Length
      modifies this, output
      ensures var o := Filter1(old(pending), b);
        && pending == o.pending && detach == (old(detach) || o.detach)
        && now == used + |o.sent| <= output.Length
        && output[..now] == old(output[..used]) + o.sent
    {
      now := used;
      if pending {
        pending := false;
        if b == DETACH {
          detach := true;
          return;
        }
        output[now] := ESCAPE;
        now := now + 1;
      } else if b == ESCAPE {
        pending := true;
        return;
      }
      output[now] := b;
      now := now + 1;
    }

    /** One byte, and a write if that fills the buffer. `done` is what the bytes
        before it came to, and `start` what was sent before all of them. */
    method TakeByte(b: byte, output: array<byte>, used: nat, ghost start: bytes, ghost done: Outcome)
      returns (ok: bool, now: nat)
      requires output.Length == OUTPUT_SIZE && used + (if pending then 1 else 0) < OUTPUT_SIZE
      requires pending == done.pending && used <= |done.sent| && Progress(start, sink.sent, output[..used], done)
      modifies this, sink, output
      ensures var d := Then(done, Filter1(old(pending), b));
        && pending == d.pending && detach == (old(detach) || Filter1(old(pending), b).detach)
        && (ok ==> now < OUTPUT_SIZE && now <= |d.sent| && Progress(start, sink.sent, output[..now], d))
        && (!ok ==> start <= sink.sent <= start + d.sent)
      ensures ok <==> sink.failures == old(sink.failures)
    {
      ghost var o, buffered := Filter1(pending, b), output[..used];
      now := Take(b, output, used);
      hide Filter1;
      Regroup(sink.sent, buffered, start, done.sent, o.sent);
      ok := true;
      if now >= OUTPUT_SIZE {
        ok := sink.WriteAll(output[..now]);
        if ok {
          now := 0;
          assert sink.sent + output[..0] == sink.sent;
        }
      }
    }

    /** process_input_chunk. The two-byte store stays inside the buffer because a
        read leaves room for the escape that was pending before it. */
    method ProcessChunk(chunk: bytes) returns (ok: bool)
      requires |chunk| <= READ_SIZE
      modifies this, sink
      ensures ok <==> sink.failures == old(sink.failures)
      ensures ok ==>
        var o := Filter(old(pending), chunk);
        && sink.sent == old(sink.sent) + o.sent && pending == o.pending && detach == (old(detach) || o.detach)
      ensures old(sink.sent) <= sink.sent <= old(sink.sent) + Filter(old(pending), chunk).sent
    {
      hide Filter, Filter1, Progress, Then;
      var output := new byte[OUTPUT_SIZE];
      var used := 0;
      ghost var done: Outcome := Outcome([], pending, false);
      ghost var held := if pending then 1 else 0;
      NothingYet(pending, chunk);
      NoProgress(sink.sent, output[..used], done);
      for i := 0 to |chunk|
        invariant 0 <= used < OUTPUT_SIZE && fresh(output) && sink.failures == old(sink.failures)
        invariant used <= |done.sent| && |done.sent| + (if pending then 1 else 0) <= i + held
        invariant pending == done.pending && detach == (old(detach) || done.detach)
        invariant Progress(old(sink.sent), sink.sent, output[..used], done)
        invariant Filter(old(pending), chunk) == Then(done, Filter(pending, chunk[i..]))
      {
        var b := chunk[i];
        ghost var o := Filter1(pending, b);
        FilterNext(pending, chunk, i);
        ThenAssociates(done, o, Filter(o.pending, chunk[i + 1..]));
        SentAtMost(pending, b);
        ThenParts(done, o);
        ok, used := TakeByte(b, output, used, old(sink.sent), done);
        done := Then(done, o);
        if !ok {
          PartOfMore(old(sink.sent), sink.sent, done, Filter(done.pending, chunk[i + 1..]));
          return;
        }
      }
      FilterEnd(pending, chunk);
      ProgressEnds(old(sink.sent), sink.sent, output[..used], done, pending);
      ThenParts(done, Outcome([], pending, false));
      ok := true;
      if used > 0 {
        ok := sink.WriteAll(output[..used]);
      } else {
        assert sink.sent + output[..0] == sink.sent;
      }
    }
  }

  /** Sent and buffered bytes are what was sent before and what the keys came to. */
  ghost predicate Progress(start: bytes, sent: bytes, buffered: bytes, done: Outcome) {
    start <= sent && sent + buffered == start + done.sent
  }

  lemma NoProgress(start: bytes, buffered: bytes, done: Outcome)
    requires buffered == [] && done.sent == []
    ensures Progress(start, start, buffered, done)
  {
  }

  lemma ProgressEnds(start: bytes, sent: bytes, buffered: bytes, done: Outcome, pending: bool)
    requires Progress(start, sent, buffered, done)
    ensures start <= sent && sent + buffered == start + done.sent && Then(done, Outcome([], pending, false)).sent == done.sent
  {
  }

  lemma PartOfMore(start: bytes, now: bytes, done: Outcome, rest: Outcome)
    requires start <= now <= start + done.sent
    ensures start <= now <= start + Then(done, rest).sent
  {
    assert start + Then(done, rest).sent == (start + done.sent) + rest.sent;
  }

  lemma Regroup(a: bytes, x: bytes, c: bytes, y: bytes, o: bytes)
    requires a + x == c + y
    ensures a + (x + o) == c + (y + o)
  {
    assert a + (x + o) == (a + x) + o;
    assert c + (y + o) == (c + y) + o;
  }

  lemma ThenParts(o: Outcome, p: Outcome)
    ensures var q := Then(o, p);
      q.sent == o.sent + p.sent && q.pending == p.pending && q.detach == (o.detach || p.detach)
  {
  }

  /** A byte sends no more than itself and the escape before it. */
  lemma SentAtMost(pending: bool, b: byte)
    ensures var o := Filter1(pending, b);
      |o.sent| + (if o.pending then 1 else 0) <= 1 + (if pending then 1 else 0)
  {
  }

  lemma NothingYet(pending: bool, chunk: bytes)
    ensures Filter(pending, chunk) == Then(Outcome([], pending, false), Filter(pending, chunk[0..]))
  {
    hide Filter;
    assert chunk[0..] == chunk && [] + Filter(pending, chunk).sent == Filter(pending, chunk).sent;
  }

  lemma FilterNext(pending: bool, chunk: bytes, i: nat)
    requires i < |chunk|
    ensures var o := Filter1(pending, chunk[i]); Filter(pending, chunk[i..]) == Then(o, Filter(o.pending, chunk[i + 1..]))
  {
    assert chunk[i..][1..] == chunk[i + 1..];
  }

  lemma FilterEnd(pending: bool, chunk: bytes)
    ensures Filter(pending, chunk[|chunk|..]) == Outcome([], pending, false)
  {
  }

  lemma ThenAssociates(o: Outcome, p: Outcome, q: Outcome)
    ensures Then(o, Then(p, q)) == Then(Then(o, p), q)
  {
    assert o.sent + (p.sent + q.sent) == (o.sent + p.sent) + q.sent;
  }

  // ---------------------------------------------------------------------------
  // Read boundaries
  // ---------------------------------------------------------------------------

  lemma {:induction false} FilterConcat(pending: bool, a: bytes, b: bytes)
    ensures Filter(pending, a + b) == Then(Filter(pending, a), Filter(Filter(pending, a).pending, b))
    decreases a
  {
    hide Filter1;
    if a == [] {
      assert a + b == b && [] + Filter(pending, b).sent == Filter(pending, b).sent;
    } else {
      var o := Filter1(pending, a[0]);
      assert (a + b)[1..] == a[1..] + b && (a + b)[0] == a[0];
      FilterConcat(o.pending, a[1..], b);
      ThenAssociates(o, Filter(o.pending, a[1..]), Filter(Filter(o.pending, a[1..]).pending, b));
    }
  }

  /** The attach loop reads until a chunk asks for the detach. */
  function Session(pending: bool, chunks: seq<bytes>): (o: Outcome)
    decreases chunks
  {
    if chunks == [] then Outcome([], pending, false)
    else
      var o := Filter(pending, chunks[0]);
      if o.detach then o else Then(o, Session(o.pending, chunks[1..]))
  }

  /** How many reads the attach loop makes: up to the one that detaches. */
  function ReadsMade(pending: bool, chunks: seq<bytes>): (k: nat)
    ensures k <= |chunks|
    decreases chunks
  {
    if chunks == [] then 0
    else
      var o := Filter(pending, chunks[0]);
      if o.detach then 1 else 1 + ReadsMade(o.pending, chunks[1..])
  }

  /**
    However the keys are cut into reads, the session is what the filter makes of
    the keys read, which are all of them unless a detach is asked for, and then
    those up to the end of the first read that asks for it.
   */
  lemma {:induction false} SessionIsFilter(pending: bool, chunks: seq<bytes>)
    ensures var o := Session(pending, chunks); var k := ReadsMade(pending, chunks);
      && o == Filter(pending, Join(chunks[..k]))
      && (o.detach <==> Filter(pending, Join(chunks)).detach)
      && (o.detach ==> k > 0 && !Filter(pending, Join(chunks[..k - 1])).detach)
      && (!o.detach ==> k == |chunks|)
    decreases chunks
  {
    hide Filter;
    if chunks == [] {
      NoKeys(pending);
      assert chunks[..0] == [];
    } else {
      var o, k := Filter(pending, chunks[0]), ReadsMade(pending, chunks);
      FilterConcat(pending, chunks[0], Join(chunks[1..]));
      if o.detach {
        NoKeys(pending);
        assert chunks[..1] == [chunks[0]] && chunks[..0] == [] && Join([chunks[0]]) == chunks[0];
      } else {
        SessionIsFilter(o.pending, chunks[1..]);
        FirstRead(pending, chunks, k);
        if k > 1 {
          FirstRead(pending, chunks, k - 1);
        } else {
          assert chunks[1..][..0] == [];
          NoKeys(o.pending);
        }
      }
    }
  }

  lemma FirstRead(pending: bool, chunks: seq<bytes>, k: nat)
    requires 1 <= k <= |chunks|
    ensures var o := Filter(pending, chunks[0]);
      Filter(pending, Join(chunks[..k])) == Then(o, Filter(o.pending, Join(chunks[1..][..k - 1])))
  {
    hide Filter;
    assert chunks[..k][1..] == chunks[1..][..k - 1];
    FilterConcat(pending, chunks[0], Join(chunks[1..][..k - 1]));
  }

  lemma NoKeys(pending: bool)
    ensures Filter(pending, []) == Outcome([], pending, false)
  {
  }

  // ---------------------------------------------------------------------------
  // What the keys mean
  // ---------------------------------------------------------------------------

  /** How many escapes stand directly before key `i`. */
  function EscapesBefore(s: bytes, i: nat): (n: nat)
    requires i <= |s|
  {
    if i == 0 || s[i - 1] != ESCAPE then 0 else 1 + EscapesBefore(s, i - 1)
  }

  /** Key `i` is a d after an odd number of escapes: every two of those are a pair
      that sends itself, and the last one makes the d a detach. */
  predicate Detaches(s: bytes, i: nat)
    requires i < |s|
  {
    s[i] == DETACH && EscapesBefore(s, i) % 2 == 1
  }

  /** The keys with every detaching pair taken out. */
  function Typed(s: bytes, i: nat): (text: bytes)
    requires i <= |s|
    ensures EscapesBefore(s, i) > 0 ==> |text| > 0
  {
    if i == 0 then []
    else if Detaches(s, i - 1) then Typed(s, i - 1)[..|Typed(s, i - 1)| - 1]
    else Typed(s, i - 1) + [s[i - 1]]
  }

  function Held(pending: bool): (text: bytes) {
    if pending then [ESCAPE] else []
  }

  lemma OneKey(pending: bool, b: byte)
    ensures Filter(pending, [b]) == Filter1(pending, b)
  {
    NoKeys(Filter1(pending, b).pending);
    assert Filter1(pending, b).sent + [] == Filter1(pending, b).sent;
  }

  lemma NextKey(s: bytes, i: nat)
    requires i < |s|
    ensures var o := Filter(false, s[..i]); Filter(false, s[..i + 1]) == Then(o, Filter1(o.pending, s[i]))
  {
    hide Filter, Filter1;
    assert s[..i + 1] == s[..i] + [s[i]];
    FilterConcat(false, s[..i], [s[i]]);
    OneKey(Filter(false, s[..i]).pending, s[i]);
  }

  /**
    The filter, from its own state of one bit, against the whole history of keys:
    an escape is pending after an odd run of them, a detach was asked for exactly
    if some d followed an odd run, and what was sent, with the pending escape, is
    what was typed without the detaching pairs. Without a detach nothing is lost.
   */
  lemma {:induction false} FilterMeans(s: bytes, i: nat)
    requires i <= |s|
    ensures var o := Filter(false, s[..i]);
      && (o.pending <==> EscapesBefore(s, i) % 2 == 1)
      && o.sent + Held(o.pending) == Typed(s, i)
      && (o.detach <==> exists j | 0 <= j < i :: Detaches(s, j))
  {
    hide Filter;
    if i == 0 {
      NoKeys(false);
      assert s[..0] == [];
    } else {
      FilterMeans(s, i - 1);
      NextKey(s, i - 1);
      var o := Filter(false, s[..i - 1]);
      var p := Filter1(o.pending, s[i - 1]);
      assert o.sent + p.sent + Held(p.pending) == Typed(s, i) by {
        KeyTyped(s, i, o, p);
      }
      assert p.detach <==> Detaches(s, i - 1);
    }
  }

  lemma KeyTyped(s: bytes, i: nat, o: Outcome, p: Outcome)
    requires 0 < i <= |s| && p == Filter1(o.pending, s[i - 1])
    requires o.pending <==> EscapesBefore(s, i - 1) % 2 == 1
    requires o.sent + Held(o.pending) == Typed(s, i - 1)
    ensures o.sent + p.sent + Held(p.pending) == Typed(s, i)
  {
    if o.pending && s[i - 1] == DETACH {
      assert (o.sent + [ESCAPE])[..|o.sent|] == o.sent;
    } else if o.pending {
      assert o.sent + [ESCAPE, s[i - 1]] == o.sent + [ESCAPE] + [s[i - 1]];
    }
  }

  lemma {:induction false} TypedAll(s: bytes, i: nat)
    requires i <= |s| && forall j | 0 <= j < i :: !Detaches(s, j)
    ensures Typed(s, i) == s[..i]
  {
    if i > 0 {
      TypedAll(s, i - 1);
      assert s[..i] == s[..i - 1] + [s[i - 1]];
    }
  }

  /** Every key reaches the program, but for an escape that is still pending,
      exactly while no detach is asked for. */
  lemma NothingLost(s: bytes)
    requires !Filter(false, s).detach
    ensures Filter(false, s).sent + Held(Filter(false, s).pending) == s
  {
    assert s[..|s|] == s;
    FilterMeans(s, |s|);
    TypedAll(s, |s|);
  }

  lemma {:induction false} JoinPrefix(chunks: seq<bytes>, k: nat)
    requires k <= |chunks|
    ensures Join(chunks[..k]) <= Join(chunks)
  {
    if k > 0 {
      JoinPrefix(chunks[1..], k - 1);
      assert chunks[..k][1..] == chunks[1..][..k - 1];
    }
  }

  /**
    Under every cutting, everything typed before the first detaching pair is sent,
    and the keys behind the pair, which the same read happens to bring, follow it.
   */
  lemma SentUpToDetach(chunks: seq<bytes>, i: nat)
    requires var s := Join(chunks); i < |s| && Detaches(s, i) && forall j | 0 <= j < i :: !Detaches(s, j)
    ensures var s, o := Join(chunks), Session(false, chunks); var n := |Join(chunks[..ReadsMade(false, chunks)])|;
      && o.detach && i > 0 && i < n <= |s|
      && o.sent == s[..i - 1] + Filter(false, s[i + 1..n]).sent
  {
    hide Filter, Filter1;
    var s, k := Join(chunks), ReadsMade(false, chunks);
    var read := Join(chunks[..k]);
    SessionIsFilter(false, chunks);
    JoinPrefix(chunks, k);
    assert s[..|s|] == s && read == s[..|read|];
    FilterMeans(s, |s|);
    FilterMeans(s, |read|);
    BeforeDetach(s, i);
    var n := |read|;
    assert s[..n] == s[..i + 1] + s[i + 1..n];
    FilterConcat(false, s[..i + 1], s[i + 1..n]);
  }

  /** Up to and with its first detaching pair, the keys before the pair are sent. */
  lemma BeforeDetach(s: bytes, i: nat)
    requires i < |s| && Detaches(s, i) && forall j | 0 <= j < i :: !Detaches(s, j)
    ensures i > 0 && Filter(false, s[..i + 1]) == Outcome(s[..i - 1], false, true)
  {
    hide Filter;
    FilterMeans(s, i);
    TypedAll(s, i);
    NextKey(s, i);
    var o := Filter(false, s[..i]);
    assert o.sent + [ESCAPE] == s[..i];
    assert o.sent == s[..i][..i - 1] == s[..i - 1];
  }
}
