/**
  Reading retained output: the controller's bounded reads of a log
  (src/controller/control.c, read_stream_json) and the client's side of the same
  call (src/client/attachment.c, cubicle_attachment_read_stream).
 */
module StreamRead {
  import opened Wrappers
  import opened Bytes
  import opened Utf8
  import opened JsonString

  const READ_MAX: nat := 8192

  datatype Reply = Reply(start: nat, next: nat, endOfStream: bool, data: bytes, length: nat)

  datatype Outcome = Ok(reply: Reply) | TooLong | BadOffset | IoError

  function Min(a: nat, b: nat): (m: nat)
    ensures m <= a && m <= b
  {
    if a < b then a else b
  }

  /** How much of a window is sent: the safe prefix, unless that is nothing. */
  function CutLength(x: bytes): (n: nat)
    ensures n <= |x|
    ensures x != [] ==> n > 0
  {
    var safe := SafeLength(x);
    if 0 < safe < |x| then safe else |x|
  }

  /** The bytes one read looks at. */
  function Window(log: bytes, offset: nat, maximum: nat): (x: bytes)
    requires offset <= |log|
  {
    log[offset..offset + Min(|log| - offset, maximum)]
  }

  /** The reply to one read of a log that is fully on disk. */
  function ReplyAt(log: bytes, offset: nat, maximum: nat): (r: Reply)
    requires offset <= |log|
  {
    ReplyTo(Window(log, offset, maximum), offset, |log|)
  }

  function ReplyTo(x: bytes, offset: nat, available: nat): (r: Reply) {
    var n := CutLength(x);
    Reply(offset, offset + n, offset + n >= available, Quoted(x[..n]), n)
  }

  /** The bytes one read finds when the file may be shorter than the published offset. */
  function OnDisk(file: bytes, available: nat, offset: nat, maximum: nat): (x: bytes)
    requires offset <= available
  {
    if offset >= |file| then [] else Window(file[..Min(|file|, available)], offset, maximum)
  }

  /**
    read_stream_json. `file` is what is on disk, `available` the offset the
    controller has published. Each pread may return fewer bytes than asked for,
    none only at the end of the file, or fail.
   */
  method ReadStreamJson(file: bytes, available: nat, offset: nat, maximum: nat) returns (r: Outcome, ghost broken: bool)
    ensures maximum > READ_MAX <==> r == TooLong
    ensures maximum <= READ_MAX && offset > available <==> r == BadOffset
    ensures r == IoError <==> broken
    ensures r.Ok? ==> r.reply == ReplyTo(OnDisk(file, available, offset, maximum), offset, available)
    ensures r.Ok? && available <= |file| ==> r.reply == ReplyAt(file[..available], offset, maximum)
  {
    hide SafeLength, Quoted, OnDisk, Window;
    broken := false;
    if maximum > READ_MAX { return TooLong, broken; }
    if offset > available { return BadOffset, broken; }
    var readLength := Min(available - offset, maximum);
    var data: bytes := [];
    while |data| < readLength
      invariant |data| <= readLength
      invariant data == [] || (offset + |data| <= |file| && data == file[offset..offset + |data|])
    {
      var left := if offset + |data| < |file| then |file| - offset - |data| else 0;
      var failed: bool := *;
      if failed { return IoError, true; }
      if left == 0 { break; }
      var most := Min(left, readLength - |data|);
      var n: nat :| 1 <= n <= most;
      var at := offset + |data|;
      data := data + file[at..at + n];
    }
    var total := |data|;
    var safe := SafePrefixLength(data);
    if 0 < safe < total {
      total := safe;
    }
    r := Ok(Reply(offset, offset + total, offset + total >= available, Quoted(data[..total]), total));
    ReadIsOnDisk(file, available, offset, maximum, data);
  }

  /** A read that stops where it should, or where the file does, is the window. */
  lemma ReadIsOnDisk(file: bytes, available: nat, offset: nat, maximum: nat, data: bytes)
    requires offset <= available && |data| <= Min(available - offset, maximum)
    requires data == [] || (offset + |data| <= |file| && data == file[offset..offset + |data|])
    requires |data| == Min(available - offset, maximum) || offset + |data| >= |file|
    ensures data == OnDisk(file, available, offset, maximum)
    ensures available <= |file| ==> OnDisk(file, available, offset, maximum) == Window(file[..available], offset, maximum)
  {
    if offset < |file| {
      var log := file[..Min(|file|, available)];
      var n := Min(|log| - offset, maximum);
      assert log[offset..offset + n] == file[offset..offset + n];
      assert n == |data|;
    }
  }

  // ---------------------------------------------------------------------------
  // Repeated reads
  // ---------------------------------------------------------------------------

  /** The replies to reading on from `offset` until the end of a fixed log. */
  function Reads(log: bytes, offset: nat, maximum: nat): (rs: seq<Reply>)
    requires offset <= |log| && maximum >= 1
    decreases |log| - offset
  {
    if offset == |log| then []
    else
      var r := ReplyAt(log, offset, maximum);
      [r] + Reads(log, r.next, maximum)
  }

  /** The raw range each reply covers. */
  function Ranges(log: bytes, rs: seq<Reply>): (parts: seq<bytes>)
    requires forall r <- rs :: r.start <= r.next <= |log|
  {
    seq(|rs|, i requires 0 <= i < |rs| => log[rs[i].start..rs[i].next])
  }

  /** Where a read from `offset` of the rest of a log ends up. */
  lemma ReplyAdvances(log: bytes, offset: nat, maximum: nat)
    requires offset < |log| && maximum >= 1
    ensures var r := ReplyAt(log, offset, maximum);
      && r.start == offset && offset < r.next <= |log| && r.next - offset <= maximum
      && r.length == r.next - offset && (r.endOfStream <==> r.next == |log|)
  {
  }

  /** Reply `i` begins where the one before it ended, the first at `offset`. */
  predicate Follows(rs: seq<Reply>, i: nat, offset: nat)
    requires i < |rs|
  {
    rs[i].start == if i == 0 then offset else rs[i - 1].next
  }

  /** Replies that follow one another from `offset` to the end of the log. */
  predicate Consecutive(log: bytes, offset: nat, maximum: nat, rs: seq<Reply>) {
    && (forall i | 0 <= i < |rs| :: rs[i].start < rs[i].next <= |log| && rs[i].next - rs[i].start <= maximum)
    && (forall i | 0 <= i < |rs| :: Follows(rs, i, offset))
    && (forall i | 0 <= i < |rs| :: rs[i].endOfStream <==> i == |rs| - 1)
  }

  lemma PrependReply(log: bytes, offset: nat, maximum: nat, r: Reply, rest: seq<Reply>)
    requires r.start == offset < r.next <= |log| && r.next - offset <= maximum
    requires Consecutive(log, r.next, maximum, rest) && (r.endOfStream <==> rest == [])
    ensures Consecutive(log, offset, maximum, [r] + rest)
    ensures Ranges(log, [r] + rest) == [log[offset..r.next]] + Ranges(log, rest)
  {
    var rs := [r] + rest;
    forall i | 0 <= i < |rs|
      ensures rs[i].start < rs[i].next <= |log| && rs[i].next - rs[i].start <= maximum
      ensures Follows(rs, i, offset)
      ensures rs[i].endOfStream <==> i == |rs| - 1
      ensures log[rs[i].start..rs[i].next] == ([log[offset..r.next]] + Ranges(log, rest))[i]
    {
      if i > 0 {
        assert rs[i] == rest[i - 1] && Follows(rest, i - 1, r.next);
        assert i > 1 ==> rs[i - 1] == rest[i - 2];
      }
    }
  }

  lemma NoReplies(log: bytes, offset: nat, maximum: nat)
    ensures Consecutive(log, offset, maximum, []) && Join(Ranges(log, [])) == []
  {
  }

  /**
    Every read advances, consecutive replies are adjacent, the ranges tile the
    rest of the log, and the last reply, and only the last, says end of stream.
   */
  lemma {:induction false} ReadsTile(log: bytes, offset: nat, maximum: nat)
    requires offset <= |log| && maximum >= 1
    ensures Consecutive(log, offset, maximum, Reads(log, offset, maximum))
    ensures Join(Ranges(log, Reads(log, offset, maximum))) == log[offset..]
    decreases |log| - offset
  {
    hide ReplyAt, Ranges, Consecutive;
    if offset == |log| {
      NoReplies(log, offset, maximum);
    } else {
      ReplyAdvances(log, offset, maximum);
      var r := ReplyAt(log, offset, maximum);
      var rest := Reads(log, r.next, maximum);
      ReadsTile(log, r.next, maximum);
      PrependReply(log, offset, maximum, r, rest);
      assert log[offset..] == log[offset..r.next] + log[r.next..];
    }
  }

  // ---------------------------------------------------------------------------
  // What the text of all the replies amounts to
  // ---------------------------------------------------------------------------

  function Texts(log: bytes, rs: seq<Reply>): (text: bytes)
    requires forall r <- rs :: r.start <= r.next <= |log|
  {
    if rs == [] then [] else Text(log[rs[0].start..rs[0].next]) + Texts(log, rs[1..])
  }

  /** The cut after window `x`, with `y` still to come, falls inside a sequence. */
  predicate CutSplits(x: bytes, y: bytes) {
    if SafeLength(x) == 0 then StartsSequence(x + y) && x != [] else LoneLeadCompleted(x, y)
  }

  /** How many bytes of `s` are part of no sequence. */
  function StraysIn(s: bytes): (n: nat) {
    Strays(Units(s))
  }

  lemma StraysHead(s: bytes)
    requires s != []
    ensures var u := UnitLength(s); StraysIn(s) == Stray(s[..u]) + StraysIn(s[u..])
  {
    UnitsHead(s);
  }

  /** Reading `n` continuation bytes from inside a sequence yields `n` strays. */
  lemma {:induction false} ContinuationsAreStrays(s: bytes, n: nat)
    requires n <= |s| && forall i | 0 <= i < n :: Continuation(s[i])
    ensures Boundary(s, n)
    ensures StraysIn(s) == n + StraysIn(s[n..])
  {
    if n > 0 {
      hide StraysIn;
      assert LeadLength(s[0]) == 0;
      StraysHead(s);
      ContinuationsAreStrays(s[1..], n - 1);
      assert s[1..][n - 1..] == s[n..];
    } else {
      assert s[n..] == s;
    }
  }

  lemma SequenceTail(s: bytes)
    requires s != [] && UnitLength(s) > 1
    ensures s[0] >= 0x80 && LeadLength(s[0]) == UnitLength(s)
    ensures forall i | 1 <= i < UnitLength(s) :: Continuation(s[i])
  {
  }

  lemma NoStraysInNothing()
    ensures StraysIn([]) == 0
  {
  }

  /** A lead without its whole sequence is a stray, and so is what it is left with. */
  lemma BrokenHead(head: bytes)
    requires head != [] && |head| < LeadLength(head[0])
    requires forall i | 1 <= i < |head| :: Continuation(head[i])
    ensures StraysIn(head) == |head|
  {
    hide StraysIn;
    StraysHead(head);
    assert UnitLength(head) == 1;
    ContinuationsAreStrays(head[1..], |head| - 1);
    assert head[1..][|head| - 1..] == [];
    NoStraysInNothing();
  }

  /** A sequence cut inside turns into strays on both sides. */
  lemma SplitSequence(s: bytes, k: nat)
    requires s != [] && 0 < k < UnitLength(s)
    ensures StraysIn(s[..k]) == k
    ensures StraysIn(s[k..]) > StraysIn(s)
  {
    var u := UnitLength(s);
    SequenceTail(s);
    BrokenHead(s[..k]);
    StraysHead(s);
    ContinuationsAreStrays(s[k..], u - k);
    assert s[k..][u - k..] == s[u..];
  }

  /** Cutting at `k` behind a cut at `u`. */
  lemma CutTwice(s: bytes, u: nat, k: nat)
    requires u <= k <= |s|
    ensures s[u..][..k - u] == s[..k][u..] && s[u..][k - u..] == s[k..] && s[..k][..u] == s[..u]
  {
  }

  lemma CutNowhere(s: bytes)
    ensures Boundary(s, 0) && StraysIn(s[..0]) == 0 && s[0..] == s
  {
    assert s[..0] == [];
  }

  /** Cutting never shortens the text, and lengthens it exactly off a boundary. */
  lemma {:induction false} CutStrays(s: bytes, k: nat)
    requires k <= |s|
    ensures StraysIn(s[..k]) + StraysIn(s[k..]) >= StraysIn(s)
    ensures Boundary(s, k) <==> StraysIn(s[..k]) + StraysIn(s[k..]) == StraysIn(s)
  {
    hide StraysIn, UnitLength, Boundary;
    if k == 0 {
      CutNowhere(s);
    } else {
      var u := UnitLength(s);
      BoundaryFrom(s, k);
      if u <= k {
        UnitLengthOfPrefix(s, k);
        StraysHead(s);
        StraysHead(s[..k]);
        CutStrays(s[u..], k - u);
        CutTwice(s, u, k);
      } else {
        SplitSequence(s, k);
      }
    }
  }

  lemma TextStrays(s: bytes)
    ensures |Text(s)| == |s| + StraysIn(s)
  {
    UnitsPartition(s);
    TextLength(Units(s));
  }

  /** A held-back window sent whole is cut well unless the rest completes it. */
  lemma HeldBackCut(x: bytes, y: bytes)
    requires x != [] && SafeLength(x) == 0
    ensures Boundary(x + y, |x|) <==> !StartsSequence(x + y)
  {
    HeldBackTail(x);
    assert x[0..] == x;
    var s := x + y;
    if StartsSequence(s) {
      assert UnitLength(s) > |x|;
    } else {
      assert forall i | 0 <= i < |x| - 1 :: s[1..][i] == x[i + 1];
      ContinuationsAreStrays(s[1..], |x| - 1);
    }
  }

  lemma CutIsBoundary(x: bytes, y: bytes)
    ensures Boundary(x + y, CutLength(x)) <==> !CutSplits(x, y)
  {
    if x != [] && SafeLength(x) == 0 {
      HeldBackCut(x, y);
    } else {
      ChunkTransparency(x, y);
    }
  }

  predicate SomeCutSplits(log: bytes, offset: nat, maximum: nat)
    requires offset <= |log| && maximum >= 1
    decreases |log| - offset
  {
    offset < |log| &&
    var x := Window(log, offset, maximum);
    (CutSplits(x, log[offset + |x|..]) || SomeCutSplits(log, ReplyAt(log, offset, maximum).next, maximum))
  }

  lemma CutText(s: bytes, k: nat)
    requires k <= |s|
    ensures |Text(s[..k])| + |Text(s[k..])| >= |Text(s)|
    ensures Boundary(s, k) <==> |Text(s[..k])| + |Text(s[k..])| == |Text(s)|
    ensures Boundary(s, k) ==> Text(s) == Text(s[..k]) + Text(s[k..])
  {
    CutStrays(s, k);
    TextStrays(s);
    TextStrays(s[..k]);
    TextStrays(s[k..]);
    if Boundary(s, k) {
      SplitAtBoundary(s, k);
    }
  }

  /** One more read in front: lengths add up, text and cut line up. */
  lemma ReadStep(log: bytes, offset: nat, maximum: nat)
    requires offset < |log| && maximum >= 1
    ensures var next := ReplyAt(log, offset, maximum).next; var x := Window(log, offset, maximum);
      && |Text(log[offset..next])| + |Text(log[next..])| >= |Text(log[offset..])|
      && (CutSplits(x, log[offset + |x|..])
          <==> |Text(log[offset..next])| + |Text(log[next..])| != |Text(log[offset..])|)
      && (!CutSplits(x, log[offset + |x|..])
          ==> Text(log[offset..]) == Text(log[offset..next]) + Text(log[next..]))
  {
    hide Units, Text, Boundary, CutSplits, SafeLength;
    var x := Window(log, offset, maximum);
    var y := log[offset + |x|..];
    var k := CutLength(x);
    assert log[offset..] == x + y;
    assert (x + y)[..k] == log[offset..offset + k] && (x + y)[k..] == log[offset + k..];
    CutIsBoundary(x, y);
    CutText(x + y, k);
  }

  /**
    Reading a log piecewise yields the text of the whole log, exactly when no
    cut fell inside a sequence.
   */
  lemma {:induction false} ReadsText(log: bytes, offset: nat, maximum: nat)
    requires offset <= |log| && maximum >= 1
    ensures forall r <- Reads(log, offset, maximum) :: r.start <= r.next <= |log|
    ensures Texts(log, Reads(log, offset, maximum)) == Text(log[offset..])
            <==> !SomeCutSplits(log, offset, maximum)
    ensures |Texts(log, Reads(log, offset, maximum))| >= |Text(log[offset..])|
    ensures SomeCutSplits(log, offset, maximum)
            ==> |Texts(log, Reads(log, offset, maximum))| > |Text(log[offset..])|
    decreases |log| - offset
  {
    if offset < |log| {
      hide Text;
      var r := ReplyAt(log, offset, maximum);
      ReadsText(log, r.next, maximum);
      ReadStep(log, offset, maximum);
      assert Reads(log, offset, maximum)[1..] == Reads(log, r.next, maximum);
    }
  }

  /** With reads of four bytes or more, only a lone lead at a cut can go wrong. */
  lemma OnlyLoneLeadsSplit(log: bytes, offset: nat, maximum: nat)
    requires offset < |log| && maximum >= 4
    ensures var x := Window(log, offset, maximum); var y := log[offset + |x|..];
      CutSplits(x, y) <==> LoneLeadCompleted(x, y)
  {
    var x := Window(log, offset, maximum);
    var y := log[offset + |x|..];
    if SafeLength(x) == 0 {
      HeldBackTail(x);
      assert x[0..] == x && y == [] && x + y == x;
      ChunkTransparency(x, y);
    }
  }

  // ---------------------------------------------------------------------------
  // The client's buffer
  // ---------------------------------------------------------------------------

  /** The maximum_length a client with a buffer of `length` bytes asks for. */
  function Requested(length: nat): (maximum: nat) {
    var maximum := if length > READ_MAX then READ_MAX else length;
    if maximum > 1 then maximum / 2 else maximum
  }

  /** The request is half of what fits, rounded down; a single byte is asked for whole. */
  lemma RequestedIsHalf(length: nat)
    ensures length <= 1 ==> Requested(length) == length
    ensures length > 1 ==> 2 * Requested(length) <= Min(length, 8192) <= 2 * Requested(length) + 1
  {
  }

  /**
    A conforming reply overflows the caller's buffer, and so is refused as
    "invalid read data", exactly when the buffer is one byte and the next byte
    of the log is not ASCII.
   */
  lemma ReplyFits(log: bytes, offset: nat, length: nat)
    requires offset <= |log| && length >= 1
    ensures var r := ReplyAt(log, offset, Requested(length));
      && r.start <= r.next <= |log|
      && ReadString(r.data) == Some(Text(log[r.start..r.next]))
      && (|Text(log[r.start..r.next])| > length
          <==> length == 1 && offset < |log| && log[offset] >= 0x80)
  {
    var r := ReplyAt(log, offset, Requested(length));
    var s := log[r.start..r.next];
    var x := Window(log, offset, Requested(length));
    assert s == x[..r.length];
    RoundTrip(s);
    IdentityOnUtf8(s);
    if length == 1 && offset < |log| {
      assert s == [log[offset]];
      TextStrays(s);
      UnitsHead(s);
    }
  }
}
