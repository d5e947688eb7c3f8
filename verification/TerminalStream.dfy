/**
  Cursor mode in any stream of terminal output, with settings of any length: when
  every way of feeding the stream leaves the mode that the whole stream says.
 */
module TerminalStream {
  import opened Wrappers
  import opened Bytes
  import opened TerminalScan

  predicate SetsAt(s: bytes, i: nat)
    requires i <= |s|
  {
    Effect(s[i..]).Some?
  }

  /** A setting that no cutting of the stream can hide. */
  predicate ShortAt(s: bytes, i: nat)
    requires i <= |s|
  {
    SetsAt(s, i) && Effect(s[i..]).value.length <= TAIL_MAX + 1
  }

  /** A longer one that some cutting shows: it fits the tail and one feed. */
  predicate VisibleAt(s: bytes, i: nat)
    requires i <= |s|
  {
    SetsAt(s, i) && TAIL_MAX + 1 < Effect(s[i..]).value.length <= TAIL_MAX + FEED_MAX
  }

  function ValueAt(s: bytes, i: nat): (on: bool)
    requires i <= |s| && SetsAt(s, i)
  {
    Effect(s[i..]).value.on
  }

  predicate NoShortAfter(s: bytes, i: nat) {
    forall j | i < j <= |s| :: !ShortAt(s, j)
  }

  predicate NothingAfter(s: bytes, i: nat) {
    forall j | i < j <= |s| :: !SetsAt(s, j)
  }

  /** The last short setting. */
  function LastShort(s: bytes): (r: Option<bool>) {
    if s == [] then None
    else if LastShort(s[1..]).Some? then LastShort(s[1..])
    else if ShortAt(s, 0) then Some(ValueAt(s, 0))
    else None
  }

  /** What a reader of the stream can check: the last setting agrees with the last
      short one, and so does every visible one behind the last short one. */
  ghost predicate Followed(m: bytes) {
    && Last(m) == LastShort(m)
    && forall i | 0 <= i <= |m| && VisibleAt(m, i) && NoShortAfter(m, i) :: LastShort(m) == Some(ValueAt(m, i))
  }

  // ---------------------------------------------------------------------------
  // Last and LastShort by position
  // ---------------------------------------------------------------------------

  lemma Shift(s: bytes, j: nat)
    requires s != [] && j < |s|
    ensures s[1..][j..] == s[j + 1..]
    ensures SetsAt(s[1..], j) == SetsAt(s, j + 1) && ShortAt(s[1..], j) == ShortAt(s, j + 1)
  {
    hide Effect;
    assert s[1..][j..] == s[j + 1..];
  }

  lemma {:induction false} LastIs(s: bytes, i: nat)
    requires i <= |s| && SetsAt(s, i) && NothingAfter(s, i)
    ensures Last(s) == Some(ValueAt(s, i))
  {
    hide Effect;
    assert |s[i..]| > 0 by { EffectNeeds(s[i..]); }
    assert s[0..] == s;
    if i == 0 {
      forall j | 0 <= j <= |s[1..]| ensures !SetsAt(s[1..], j) {
        Shift(s, j);
      }
      LastNone(s[1..]);
    } else {
      Shift(s, i - 1);
      forall j | i - 1 < j <= |s[1..]| ensures !SetsAt(s[1..], j) {
        Shift(s, j);
      }
      LastIs(s[1..], i - 1);
    }
  }

  lemma NothingInNothing()
    ensures !SetsAt([], 0)
  {
  }

  lemma EffectNeeds(s: bytes)
    requires Effect(s).Some?
    ensures |s| >= 5
  {
  }

  lemma {:induction false} LastNone(s: bytes)
    requires forall j | 0 <= j <= |s| :: !SetsAt(s, j)
    ensures Last(s).None?
  {
    hide Effect;
    if s != [] {
      assert s[0..] == s && !SetsAt(s, 0);
      forall j | 0 <= j <= |s[1..]| ensures !SetsAt(s[1..], j) {
        Shift(s, j);
      }
      LastNone(s[1..]);
    }
  }

  lemma {:induction false} LastAt(s: bytes) returns (i: nat)
    requires Last(s).Some?
    ensures i < |s| && SetsAt(s, i) && ValueAt(s, i) == Last(s).value && NothingAfter(s, i)
  {
    hide Effect;
    if Last(s[1..]).Some? {
      var k := LastAt(s[1..]);
      i := k + 1;
      Shift(s, k);
      forall j | i < j <= |s| ensures !SetsAt(s, j) {
        Shift(s, j - 1);
      }
    } else {
      i := 0;
      assert s[0..] == s;
      forall j | 0 < j <= |s| ensures !SetsAt(s, j) {
        Shift(s, j - 1);
        NoLastNone(s[1..], j - 1);
      }
    }
  }

  lemma {:induction false} NoLastNone(s: bytes, j: nat)
    requires Last(s).None? && j <= |s|
    ensures !SetsAt(s, j)
  {
    hide Effect;
    if s == [] {
      NothingInNothing();
    } else if j == 0 {
      assert s[0..] == s;
    } else {
      NoLastNone(s[1..], j - 1);
      Shift(s, j - 1);
    }
  }

  lemma {:induction false} LastShortIs(s: bytes, i: nat)
    requires i <= |s| && ShortAt(s, i) && NoShortAfter(s, i)
    ensures LastShort(s) == Some(ValueAt(s, i))
  {
    hide Effect;
    assert |s[i..]| > 0 by { EffectNeeds(s[i..]); }
    if i == 0 {
      forall j | 0 <= j <= |s[1..]| ensures !ShortAt(s[1..], j) {
        Shift(s, j);
      }
      LastShortNone(s[1..]);
    } else {
      Shift(s, i - 1);
      forall j | i - 1 < j <= |s[1..]| ensures !ShortAt(s[1..], j) {
        Shift(s, j);
      }
      LastShortIs(s[1..], i - 1);
    }
  }

  lemma {:induction false} LastShortNone(s: bytes)
    requires forall j | 0 <= j <= |s| :: !ShortAt(s, j)
    ensures LastShort(s).None?
  {
    hide Effect;
    if s != [] {
      forall j | 0 <= j <= |s[1..]| ensures !ShortAt(s[1..], j) {
        Shift(s, j);
      }
      LastShortNone(s[1..]);
    }
  }

  /** The position of the last short setting, or -1. */
  lemma {:induction false} LastShortAt(s: bytes) returns (i: int)
    ensures -1 <= i <= |s| && forall j | i < j <= |s| && j >= 0 :: !ShortAt(s, j)
    ensures if i < 0 then LastShort(s).None? else ShortAt(s, i) && LastShort(s) == Some(ValueAt(s, i))
  {
    hide Effect;
    if s == [] {
      i := -1;
      NothingInNothing();
    } else {
      var k := LastShortAt(s[1..]);
      forall j | k + 1 < j <= |s| && j >= 1 ensures !ShortAt(s, j) {
        Shift(s, j - 1);
      }
      if k >= 0 {
        i := k + 1;
        Shift(s, k);
      } else {
        i := if ShortAt(s, 0) then 0 else -1;
      }
    }
  }

  // ---------------------------------------------------------------------------
  // One feed
  // ---------------------------------------------------------------------------

  /** A setting found before more output came is the same one after. */
  lemma SettingStays(p: bytes, data: bytes, j: nat)
    requires j <= |p|
    ensures SetsAt(p, j) ==> Effect((p + data)[j..]) == Effect(p[j..])
    ensures SetsAt(p + data, j) && Effect((p + data)[j..]).value.length <= |p| - j ==> Effect(p[j..]) == Effect((p + data)[j..])
  {
    hide Effect;
    assert (p + data)[j..] == p[j..] + data;
    EffectExtends(p[j..], data);
  }

  /** `s` has the short settings of `p`, and no others. */
  predicate SameShorts(p: bytes, s: bytes) {
    && |p| <= |s|
    && (forall j | 0 <= j <= |p| :: ShortAt(s, j) == ShortAt(p, j))
    && (forall j | 0 <= j <= |p| && ShortAt(p, j) :: ValueAt(s, j) == ValueAt(p, j))
    && (forall j | |p| < j <= |s| :: !ShortAt(s, j))
  }

  lemma SameShortsSameLast(p: bytes, s: bytes)
    requires SameShorts(p, s)
    ensures LastShort(s) == LastShort(p)
  {
    hide Effect, LastShort;
    var i := LastShortAt(p);
    if i < 0 {
      LastShortNone(s);
    } else {
      LastShortIs(s, i);
    }
  }

  /** A feed either shows the last setting so far, or brings no short one. */
  lemma FeedCases(p: bytes, data: bytes, on: bool) returns (seen: bool, i: nat)
    requires |data| <= FEED_MAX
    ensures var s, tail := p + data, LastBytes(p, TAIL_MAX); var w := Feed(Watch(on, tail), data);
      && w.tail == LastBytes(s, TAIL_MAX)
      && (seen ==>
           && |p| - |tail| <= i <= |s| && SetsAt(s, i) && w.on == ValueAt(s, i)
           && Effect(s[i..]).value.length <= |tail| + |data| && NothingAfter(s, i))
      && (!seen ==> w.on == on && SameShorts(p, s))
  {
    hide Effect, Last, Scan;
    var s, tail := p + data, LastBytes(p, TAIL_MAX);
    var k := |p| - |tail|;
    var buffer := tail + data;
    LastBytesJoin(p, data);
    ScanIsLast(buffer, on);
    assert s[k..] == buffer && LastBytes(data, FEED_MAX) == data;
    seen, i := Last(buffer).Some?, 0;
    if seen {
      var n := LastAt(buffer);
      i := k + n;
      assert forall j | 0 <= j <= |buffer| :: buffer[j..] == s[k + j..];
      LengthBound(buffer[n..]);
      forall j | i < j <= |s| ensures !SetsAt(s, j) {
        assert s[j..] == buffer[j - k..] && !SetsAt(buffer, j - k);
      }
    } else {
      forall j | k <= j <= |s| ensures !SetsAt(s, j) {
        assert buffer[j - k..] == s[j..];
        NoLastNone(buffer, j - k);
      }
      QuietFeed(p, data);
    }
  }

  lemma LengthBound(s: bytes)
    ensures Effect(s).Some? ==> Effect(s).value.length <= |s|
  {
  }

  /** With nothing set in the tail and the new bytes, the short settings stay. */
  lemma QuietFeed(p: bytes, data: bytes)
    requires forall j | |p| - |LastBytes(p, TAIL_MAX)| <= j <= |p + data| :: !SetsAt(p + data, j)
    ensures SameShorts(p, p + data)
  {
    hide Effect;
    var s := p + data;
    var k := |p| - |LastBytes(p, TAIL_MAX)|;
    forall j | 0 <= j <= |p|
      ensures ShortAt(s, j) == ShortAt(p, j) && (ShortAt(p, j) ==> ValueAt(s, j) == ValueAt(p, j))
    {
      SettingStays(p, data, j);
    }
  }

  // ---------------------------------------------------------------------------
  // Any cutting
  // ---------------------------------------------------------------------------

  /** The modes that feeding `p` in some way can leave. */
  ghost predicate Possible(p: bytes, on: bool, flag: bool) {
    || on == Or(LastShort(p), flag)
    || exists i | 0 <= i <= |p| :: VisibleAt(p, i) && NoShortAfter(p, i) && ValueAt(p, i) == on
  }

  lemma FeedPossible(p: bytes, data: bytes, on: bool, flag: bool)
    requires |data| <= FEED_MAX && Possible(p, on, flag)
    ensures var w := Feed(Watch(on, LastBytes(p, TAIL_MAX)), data);
      w.tail == LastBytes(p + data, TAIL_MAX) && Possible(p + data, w.on, flag)
  {
    hide Effect, LastShort, Feed;
    var s := p + data;
    var w := Feed(Watch(on, LastBytes(p, TAIL_MAX)), data);
    var seen, i := FeedCases(p, data, on);
    if seen {
      assert NoShortAfter(s, i);
      if ShortAt(s, i) {
        LastShortIs(s, i);
      } else {
        assert VisibleAt(s, i);
      }
    } else {
      SameShortsSameLast(p, s);
      if on != Or(LastShort(p), flag) {
        var j :| 0 <= j <= |p| && VisibleAt(p, j) && NoShortAfter(p, j) && ValueAt(p, j) == on;
        SettingStays(p, data, j);
        assert VisibleAt(s, j) && NoShortAfter(s, j) && ValueAt(s, j) == on;
      }
    }
  }

  lemma {:induction false} FeedAllPossible(p: bytes, chunks: seq<bytes>, on: bool, flag: bool)
    requires Possible(p, on, flag) && forall c <- chunks :: |c| <= FEED_MAX
    ensures Possible(p + Join(chunks), FeedAll(Watch(on, LastBytes(p, TAIL_MAX)), chunks).on, flag)
    decreases chunks
  {
    hide Possible, Feed, LastBytes;
    if chunks == [] {
      assert p + Join(chunks) == p;
    } else {
      var w := Feed(Watch(on, LastBytes(p, TAIL_MAX)), chunks[0]);
      assert chunks[0] in chunks && forall c <- chunks[1..] :: c in chunks;
      FeedPossible(p, chunks[0], on, flag);
      FeedAllPossible(p + chunks[0], chunks[1..], w.on, flag);
      assert p + chunks[0] + Join(chunks[1..]) == p + Join(chunks);
    }
  }

  lemma FollowedNoticed(m: bytes)
    requires Followed(m)
    ensures AlwaysNoticed(m)
  {
    hide Effect, LastShort, Last, Scan, FeedAll;
    forall chunks: seq<bytes>, flag: bool | Join(chunks) == m && forall c <- chunks :: |c| <= FEED_MAX
      ensures FeedAll(Watch(flag, []), chunks).on == Scan(m, flag)
    {
      NoShortInNothing();
      FeedAllPossible([], chunks, flag, flag);
      assert [] + Join(chunks) == m && LastBytes([], TAIL_MAX) == [];
      ScanIsLast(m, flag);
    }
  }

  lemma NoShortInNothing()
    ensures LastShort([]).None?
  {
  }

  // ---------------------------------------------------------------------------
  // Two cuttings that show the difference
  // ---------------------------------------------------------------------------

  lemma {:induction false} FeedAllConcat(w: Watch, a: seq<bytes>, b: seq<bytes>)
    ensures FeedAll(w, a + b) == FeedAll(FeedAll(w, a), b)
    decreases a
  {
    hide Feed;
    if a == [] {
      assert a + b == b;
    } else {
      assert (a + b)[1..] == a[1..] + b;
      FeedAllConcat(Feed(w, a[0]), a[1..], b);
    }
  }

  lemma BytewiseHead(rest: bytes)
    requires rest != []
    ensures Bytewise(rest) != [] && Bytewise(rest)[0] == [rest[0]] && Bytewise(rest)[1..] == Bytewise(rest[1..])
  {
  }

  /** Byte by byte, exactly the short settings are seen. */
  lemma {:induction false} BytewiseSees(p: bytes, rest: bytes, flag: bool)
    ensures FeedAll(Watch(Or(LastShort(p), flag), LastBytes(p, TAIL_MAX)), Bytewise(rest))
         == Watch(Or(LastShort(p + rest), flag), LastBytes(p + rest, TAIL_MAX))
    decreases rest
  {
    hide Effect, LastShort, Feed, LastBytes, Bytewise;
    if rest == [] {
      assert p + rest == p;
      NoBytes();
    } else {
      var s, b := p + [rest[0]], [rest[0]];
      BytewiseHead(rest);
      ByteSees(p, rest[0], flag);
      BytewiseSees(s, rest[1..], flag);
      assert s + rest[1..] == p + rest;
    }
  }

  lemma NoBytes()
    ensures Bytewise([]) == []
  {
  }

  lemma ByteSees(p: bytes, b: byte, flag: bool)
    ensures Feed(Watch(Or(LastShort(p), flag), LastBytes(p, TAIL_MAX)), [b])
         == Watch(Or(LastShort(p + [b]), flag), LastBytes(p + [b], TAIL_MAX))
  {
    hide Effect, LastShort, Feed;
    var s := p + [b];
    var seen, i := FeedCases(p, [b], Or(LastShort(p), flag));
    if seen {
      assert ShortAt(s, i) && NoShortAfter(s, i);
      LastShortIs(s, i);
    } else {
      SameShortsSameLast(p, s);
    }
  }

  /** Byte by byte, nothing changes where no short setting is to come. */
  lemma {:induction false} BytewiseKeeps(p: bytes, rest: bytes, on: bool)
    requires forall j | 0 <= j <= |p + rest| && j + TAIL_MAX >= |p| :: !ShortAt(p + rest, j)
    ensures FeedAll(Watch(on, LastBytes(p, TAIL_MAX)), Bytewise(rest)).on == on
    decreases rest
  {
    hide Effect, Feed, Bytewise;
    if rest == [] {
      NoBytes();
    } else {
      var s := p + [rest[0]];
      var seen, i := FeedCases(p, [rest[0]], on);
      assert s + rest[1..] == p + rest;
      if seen {
        SettingStays(s, rest[1..], i);
      }
      assert seen ==> ShortAt(s, i) && ShortAt(p + rest, i);
      BytewiseHead(rest);
      BytewiseKeeps(s, rest[1..], on);
    }
  }

  /** The cutting that shows it: byte by byte, but for one feed that completes it
      with its first bytes in the tail. */
  function Showing(m: bytes, i: nat, n: nat): (chunks: seq<bytes>)
    requires TAIL_MAX <= n && i + n <= |m|
  {
    Bytewise(m[..i + TAIL_MAX]) + ([m[i + TAIL_MAX..i + n]] + Bytewise(m[i + n..]))
  }

  lemma ShowingCuts(m: bytes, i: nat, n: nat)
    requires TAIL_MAX <= n <= TAIL_MAX + FEED_MAX && i + n <= |m|
    ensures Join(Showing(m, i, n)) == m && forall c <- Showing(m, i, n) :: |c| <= FEED_MAX
  {
    hide Bytewise;
    var a, b, c := m[..i + TAIL_MAX], m[i + TAIL_MAX..i + n], m[i + n..];
    JoinBytewise(a);
    JoinBytewise(c);
    SmallBytes(a);
    SmallBytes(c);
    JoinConcat(Bytewise(a), [b] + Bytewise(c));
    assert ([b] + Bytewise(c))[1..] == Bytewise(c) && a + (b + c) == m;
  }

  /** One feed can show a visible setting. */
  lemma VisibleShown(m: bytes, i: nat, flag: bool) returns (chunks: seq<bytes>)
    requires i <= |m| && VisibleAt(m, i) && NoShortAfter(m, i)
    ensures Join(chunks) == m && forall c <- chunks :: |c| <= FEED_MAX
    ensures FeedAll(Watch(flag, []), chunks).on == ValueAt(m, i)
  {
    hide Effect, LastShort, Scan, FeedAll, Bytewise, Feed, LastBytes;
    var n := Effect(m[i..]).value.length;
    LengthBound(m[i..]);
    chunks := Showing(m, i, n);
    ShowingCuts(m, i, n);
    var a, b, c := m[..i + TAIL_MAX], m[i + TAIL_MAX..i + n], m[i + n..];
    var start, w := Watch(flag, []), Watch(Or(LastShort(a), flag), LastBytes(a, TAIL_MAX));
    FeedAllConcat(start, Bytewise(a), [b] + Bytewise(c));
    FromStart(a, flag);
    FeedOne(w, b, Bytewise(c));
    ShownWhole(m, i, w.on);
    assert m[..i + n] + c == m;
    BytewiseKeeps(m[..i + n], c, ValueAt(m, i));
  }

  lemma FromStart(a: bytes, flag: bool)
    ensures FeedAll(Watch(flag, []), Bytewise(a)) == Watch(Or(LastShort(a), flag), LastBytes(a, TAIL_MAX))
  {
    hide FeedAll, Bytewise, LastShort;
    NoShortInNothing();
    BytewiseSees([], a, flag);
    assert [] + a == a && LastBytes([], TAIL_MAX) == [];
  }

  lemma FeedOne(w: Watch, b: bytes, rest: seq<bytes>)
    ensures FeedAll(w, [b] + rest) == FeedAll(Feed(w, b), rest)
  {
    assert ([b] + rest)[1..] == rest;
  }

  lemma ShownWhole(m: bytes, i: nat, on: bool)
    requires i <= |m| && VisibleAt(m, i)
    ensures var n := Effect(m[i..]).value.length;
      && i + n <= |m|
      && Feed(Watch(on, LastBytes(m[..i + TAIL_MAX], TAIL_MAX)), m[i + TAIL_MAX..i + n])
         == Watch(ValueAt(m, i), LastBytes(m[..i + n], TAIL_MAX))
  {
    hide Effect, Scan;
    var n := Effect(m[i..]).value.length;
    LengthBound(m[i..]);
    var tail, b := m[i..i + TAIL_MAX], m[i + TAIL_MAX..i + n];
    assert LastBytes(m[..i + TAIL_MAX], TAIL_MAX) == tail && LastBytes(b, FEED_MAX) == b;
    var one := m[i..i + n];
    assert tail + b == one && m[i..] == one + m[i + n..];
    EffectExtends(one, m[i + n..]);
    SettingApplies(one, on);
    assert LastBytes(one, TAIL_MAX) == LastBytes(m[..i + n], TAIL_MAX);
  }

  lemma NoticedFollowed(m: bytes)
    requires AlwaysNoticed(m)
    ensures Followed(m)
  {
    hide Effect, LastShort, Last, Scan, FeedAll, Bytewise;
    JoinBytewise(m);
    SmallBytes(m);
    forall flag: bool ensures Or(Last(m), flag) == Or(LastShort(m), flag) {
      FromStart(m, flag);
      ScanIsLast(m, flag);
    }
    assert Or(Last(m), true) == Or(LastShort(m), true) && Or(Last(m), false) == Or(LastShort(m), false);
    forall i | 0 <= i <= |m| && VisibleAt(m, i) && NoShortAfter(m, i) ensures LastShort(m) == Some(ValueAt(m, i)) {
      var flag := !ValueAt(m, i);
      var chunks := VisibleShown(m, i, flag);
      ScanIsLast(m, flag);
      assert Or(Last(m), flag) == ValueAt(m, i);
    }
  }

  lemma SmallBytes(m: bytes)
    ensures forall c <- Bytewise(m) :: |c| <= FEED_MAX
  {
  }

  /**
    Any stream, any settings: however it is fed, the mode ends as the whole stream
    says, if and only if its last setting agrees with its last short one and every
    visible longer setting behind that agrees too.
   */
  lemma NoticedIffFollowed(m: bytes)
    ensures AlwaysNoticed(m) <==> Followed(m)
  {
    hide AlwaysNoticed, Followed;
    if Followed(m) {
      FollowedNoticed(m);
    }
    if AlwaysNoticed(m) {
      NoticedFollowed(m);
    }
  }
}
