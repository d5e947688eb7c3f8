/**
  Watching a terminal's output for "application cursor keys" being switched on
  and off (src/common/terminal_model.c, track_application_cursor_mode). Output
  arrives in pieces; between pieces only the last 16 bytes are remembered.
 */
module TerminalScan {
  import opened Wrappers
  import opened Bytes
  import T = Text

  const TAIL_MAX: nat := 16
  const FEED_MAX: nat := 4096

  // ---------------------------------------------------------------------------
  // One control sequence (section 5.4 of ECMA-48, private modes)
  // ---------------------------------------------------------------------------

  /** Setting or resetting the mode, and how many bytes said so. */
  datatype Setting = Setting(on: bool, length: nat)

  /** One more digit of an unsigned 32-bit number. */
  function WithDigit(value: nat, digit: byte): (v: nat)
    requires 0x30 <= digit <= 0x39
  {
    var d: int := digit;
    (value * 10 + d - 0x30) % 0x1_0000_0000
  }

  /** After ESC [ ?: the parameters so far are summed up in whether 1 was among
      them, the number being read (32 bits wide) and whether it has digits. */
  function Parameters(s: bytes, hasOne: bool, value: nat, digits: bool): (r: Option<Setting>)
    ensures r.Some? ==> 1 <= r.value.length <= |s|
  {
    if s == [] then None
    else if 0x30 <= s[0] <= 0x39 then
      Longer(Parameters(s[1..], hasOne, WithDigit(value, s[0]), true))
    else if s[0] == 0x3B then
      Longer(Parameters(s[1..], hasOne || (digits && value == 1), 0, false))
    else if s[0] == 0x68 || s[0] == 0x6C then
      if hasOne || (digits && value == 1) then Some(Setting(s[0] == 0x68, 1)) else None
    else if 0x40 <= s[0] <= 0x7E then None
    else Longer(Parameters(s[1..], hasOne, value, digits))
  }

  function Longer(r: Option<Setting>): (q: Option<Setting>) {
    if r.None? then None else Some(Setting(r.value.on, r.value.length + 1))
  }

  predicate Introduced(s: bytes) {
    |s| >= 3 && s[0] == 0x1B && s[1] == 0x5B && s[2] == 0x3F
  }

  /** What the sequence starting at the first byte of `s` sets, if it is complete. */
  function Effect(s: bytes): (r: Option<Setting>)
    ensures r.Some? ==> 5 <= r.value.length <= |s|
  {
    if !Introduced(s) then None
    else
      var p := Parameters(s[3..], false, 0, false);
      FirstIsNoFinal(s[3..]);
      if p.None? then None else Some(Setting(p.value.on, p.value.length + 3))
  }

  lemma FirstIsNoFinal(s: bytes)
    ensures var p := Parameters(s, false, 0, false); p.Some? ==> p.value.length >= 2
  {
  }

  /** A complete sequence stays what it is when more output follows, and output
      that completes a sequence is part of it. */
  lemma {:induction false} ParametersExtend(s: bytes, t: bytes, hasOne: bool, value: nat, digits: bool)
    ensures var p := Parameters(s, hasOne, value, digits); var q := Parameters(s + t, hasOne, value, digits);
      && (p.Some? ==> q == p)
      && (q.Some? && q.value.length <= |s| ==> p == q)
    decreases s
  {
    if s == [] {
      assert s + t == t;
    } else {
      assert (s + t)[1..] == s[1..] + t;
      if 0x30 <= s[0] <= 0x39 {
        ParametersExtend(s[1..], t, hasOne, WithDigit(value, s[0]), true);
      } else if s[0] == 0x3B {
        ParametersExtend(s[1..], t, hasOne || (digits && value == 1), 0, false);
      } else {
        ParametersExtend(s[1..], t, hasOne, value, digits);
      }
    }
  }

  lemma EffectExtends(s: bytes, t: bytes)
    ensures Effect(s).Some? ==> Effect(s + t) == Effect(s)
    ensures Effect(s + t).Some? && Effect(s + t).value.length <= |s| ==> Effect(s) == Effect(s + t)
  {
    if |s| >= 3 {
      assert (s + t)[3..] == s[3..] + t;
      ParametersExtend(s[3..], t, false, 0, false);
    }
  }

  // ---------------------------------------------------------------------------
  // What a control sequence says
  // ---------------------------------------------------------------------------

  const WORD: nat := 0x1_0000_0000

  predicate Final(b: byte) {
    0x40 <= b <= 0x7E
  }

  /** The text of one parameter. */
  predicate Field(p: bytes) {
    forall i | 0 <= i < |p| :: p[i] != 0x3B && !Final(p[i])
  }

  predicate Fields(ps: seq<bytes>) {
    ps != [] && forall i | 0 <= i < |ps| :: Field(ps[i])
  }

  /** Parameters with semicolons between them. */
  function Separated(ps: seq<bytes>): (text: bytes)
    requires ps != []
  {
    if |ps| == 1 then ps[0] else ps[0] + [0x3B] + Separated(ps[1..])
  }

  /** A parameter's digits; other bytes in it do not count. */
  function DigitsIn(p: bytes): (ds: bytes)
    ensures T.AllDigits(ds)
  {
    if p == [] then []
    else if 0x30 <= p[0] <= 0x39 then [p[0]] + DigitsIn(p[1..])
    else DigitsIn(p[1..])
  }

  /** The parameter is the number 1, as far as 32 bits can tell. */
  predicate One(p: bytes) {
    DigitsIn(p) != [] && Word(DigitsIn(p)) == 1
  }

  predicate SomeOne(ps: seq<bytes>) {
    exists i | 0 <= i < |ps| :: One(ps[i])
  }

  function Number(p: bytes, value: nat): (v: nat)
    decreases p
  {
    if p == [] then value
    else if 0x30 <= p[0] <= 0x39 then Number(p[1..], WithDigit(value, p[0]))
    else Number(p[1..], value)
  }

  function Shifted(r: Option<Setting>, n: nat): (q: Option<Setting>) {
    if r.None? then None else Some(Setting(r.value.on, r.value.length + n))
  }

  /** The value of digits, as far as 32 bits can tell. */
  function Word(ds: bytes): (n: nat)
    requires T.AllDigits(ds)
  {
    T.DigitsValue(ds) % WORD
  }

  lemma DigitAppended(ds: bytes, d: byte)
    requires T.AllDigits(ds) && 0x30 <= d <= 0x39
    ensures T.AllDigits(ds + [d]) && WithDigit(Word(ds), d) == Word(ds + [d])
  {
    var x := T.DigitsValue(ds);
    assert (ds + [d])[..|ds|] == ds;
    var q := x / WORD;
    assert x == WORD * q + x % WORD;
    Wraps(10 * (x % WORD) + (d - 0x30), 10 * q);
  }

  lemma Wraps(a: nat, q: nat)
    ensures (WORD * q + a) % WORD == a % WORD
  {
  }

  lemma NothingIsZero()
    ensures Word([]) == 0
  {
  }

  lemma {:induction false} NumberIs(ds: bytes, p: bytes)
    requires T.AllDigits(ds)
    ensures T.AllDigits(ds + DigitsIn(p)) && Number(p, Word(ds)) == Word(ds + DigitsIn(p))
    decreases p
  {
    hide WithDigit, Word;
    if p == [] {
      assert ds + [] == ds;
    } else if 0x30 <= p[0] <= 0x39 {
      DigitAppended(ds, p[0]);
      NumberIs(ds + [p[0]], p[1..]);
      assert ds + DigitsIn(p) == ds + [p[0]] + DigitsIn(p[1..]);
    } else {
      NumberIs(ds, p[1..]);
    }
  }

  /** Reading past one parameter. */
  lemma {:induction false} PastField(p: bytes, rest: bytes, hasOne: bool, value: nat, digits: bool)
    requires Field(p)
    ensures Parameters(p + rest, hasOne, value, digits)
            == Shifted(Parameters(rest, hasOne, Number(p, value), digits || DigitsIn(p) != []), |p|)
    decreases p
  {
    hide WithDigit;
    if p == [] {
      assert p + rest == rest;
    } else {
      assert (p + rest)[1..] == p[1..] + rest;
      if 0x30 <= p[0] <= 0x39 {
        PastField(p[1..], rest, hasOne, WithDigit(value, p[0]), true);
      } else {
        PastField(p[1..], rest, hasOne, value, digits);
      }
    }
  }

  lemma FieldRead(p: bytes, rest: bytes, hasOne: bool)
    requires Field(p) && rest != [] && (rest[0] == 0x3B || Final(rest[0]))
    ensures Parameters(p + rest, hasOne, 0, false) ==
      if rest[0] == 0x3B then Shifted(Parameters(rest[1..], hasOne || One(p), 0, false), |p| + 1)
      else if (rest[0] == 0x68 || rest[0] == 0x6C) && (hasOne || One(p)) then Some(Setting(rest[0] == 0x68, |p| + 1))
      else None
  {
    hide WithDigit, Word, Number, DigitsIn;
    PastField(p, rest, hasOne, 0, false);
    NothingIsZero();
    NumberIs([], p);
    assert [] + DigitsIn(p) == DigitsIn(p);
  }

  lemma {:induction false} FieldsRead(ps: seq<bytes>, f: byte, rest: bytes, hasOne: bool)
    requires Fields(ps) && Final(f)
    ensures Parameters(Separated(ps) + ([f] + rest), hasOne, 0, false) ==
      if (f == 0x68 || f == 0x6C) && (hasOne || SomeOne(ps)) then Some(Setting(f == 0x68, |Separated(ps)| + 1)) else None
    decreases ps
  {
    hide Parameters, One, Field;
    var tail := [f] + rest;
    if |ps| == 1 {
      FieldRead(ps[0], tail, hasOne);
      assert SomeOne(ps) <==> One(ps[0]);
    } else {
      var more := [0x3B] + (Separated(ps[1..]) + tail);
      assert Separated(ps) + tail == ps[0] + more && more[1..] == Separated(ps[1..]) + tail;
      FieldRead(ps[0], more, hasOne);
      FieldsRead(ps[1..], f, rest, hasOne || One(ps[0]));
      OneAmong(ps);
    }
  }

  lemma OneAmong(ps: seq<bytes>)
    requires ps != []
    ensures SomeOne(ps) <==> One(ps[0]) || SomeOne(ps[1..])
  {
    hide One;
    if SomeOne(ps) {
      var i :| 0 <= i < |ps| && One(ps[i]);
      assert i > 0 ==> One(ps[1..][i - 1]);
    }
    if SomeOne(ps[1..]) {
      var i :| 0 <= i < |ps[1..]| && One(ps[1..][i]);
      assert One(ps[i + 1]);
    }
  }

  /**
    What the scan reads: ESC [ ? parameters and a final byte is a setting if the
    final byte is h or l and one of the parameters is 1 (as 32 bits); h sets, l
    resets, and the setting is as long as what was written. Every other final byte
    ends the sequence and says nothing.
   */
  lemma SettingSaid(ps: seq<bytes>, f: byte, rest: bytes)
    requires Fields(ps) && Final(f)
    ensures Effect([0x1B, 0x5B, 0x3F] + Separated(ps) + ([f] + rest)) ==
      if (f == 0x68 || f == 0x6C) && SomeOne(ps) then Some(Setting(f == 0x68, |Separated(ps)| + 4)) else None
  {
    hide Parameters, SomeOne, Field;
    var s := [0x1B, 0x5B, 0x3F] + Separated(ps) + ([f] + rest);
    assert s[3..] == Separated(ps) + ([f] + rest);
    FieldsRead(ps, f, rest, false);
  }

  /** Without a final byte there is no setting yet. */
  lemma {:induction false} NoFinalNoSetting(s: bytes, hasOne: bool, value: nat, digits: bool)
    requires forall i | 0 <= i < |s| :: !Final(s[i])
    ensures Parameters(s, hasOne, value, digits).None?
    decreases s
  {
    hide WithDigit;
    if s != [] {
      assert !Final(s[0]);
      if 0x30 <= s[0] <= 0x39 {
        NoFinalNoSetting(s[1..], hasOne, WithDigit(value, s[0]), true);
      } else if s[0] == 0x3B {
        NoFinalNoSetting(s[1..], hasOne || (digits && value == 1), 0, false);
      } else {
        NoFinalNoSetting(s[1..], hasOne, value, digits);
      }
    }
  }

  /** Any text without a final byte is parameters with semicolons between them, so
      `SettingSaid` and `NoFinalNoSetting` are about every text there is. */
  lemma {:induction false} EveryTextIsFields(s: bytes) returns (ps: seq<bytes>)
    requires forall i | 0 <= i < |s| :: !Final(s[i])
    ensures Fields(ps) && Separated(ps) == s
  {
    if s == [] {
      ps := [[]];
    } else {
      var rest := EveryTextIsFields(s[1..]);
      if s[0] == 0x3B {
        ps := [[]] + rest;
        assert ps[1..] == rest && [] + [0x3B] + s[1..] == s;
      } else {
        ps := [[s[0]] + rest[0]] + rest[1..];
        assert ps[1..] == rest[1..];
        assert |rest| > 1 ==> [s[0]] + rest[0] + [0x3B] + Separated(rest[1..]) == [s[0]] + s[1..];
      }
    }
  }

  /** A list of numbers, as a program writes it. */
  function DecimalFields(ns: seq<nat>): (ps: seq<bytes>) {
    seq(|ns|, i requires 0 <= i < |ns| => T.Decimal(ns[i]))
  }

  lemma DecimalField(n: nat)
    ensures Field(T.Decimal(n)) && (One(T.Decimal(n)) <==> n % WORD == 1)
  {
    T.DecimalDigits(n);
    AllDigitsIn(T.Decimal(n));
  }

  lemma {:induction false} AllDigitsIn(s: bytes)
    requires T.AllDigits(s)
    ensures DigitsIn(s) == s
  {
    if s != [] {
      AllDigitsIn(s[1..]);
    }
  }

  /** So a list of private modes switches the cursor keys exactly if 1 is among them. */
  lemma ModesSet(ns: seq<nat>, f: byte)
    requires ns != [] && Final(f)
    ensures var s := [0x1B, 0x5B, 0x3F] + Separated(DecimalFields(ns)) + [f];
      Effect(s) == if (f == 0x68 || f == 0x6C) && exists i | 0 <= i < |ns| :: ns[i] % WORD == 1
                   then Some(Setting(f == 0x68, |s|)) else None
  {
    hide Effect, One, Field, Separated;
    var ps := DecimalFields(ns);
    forall i | 0 <= i < |ps| ensures Field(ps[i]) && (One(ps[i]) <==> ns[i] % WORD == 1) {
      DecimalField(ns[i]);
    }
    assert [f] + [] == [f];
    SettingSaid(ps, f, []);
  }

  // ---------------------------------------------------------------------------
  // A whole stream
  // ---------------------------------------------------------------------------

  /** The scan: every position in turn, the last complete sequence winning. */
  function Scan(s: bytes, flag: bool): (on: bool)
    decreases s
  {
    if s == [] then flag
    else Scan(s[1..], if Effect(s).Some? then Effect(s).value.on else flag)
  }

  /** The last setting a stream contains. */
  function Last(s: bytes): (r: Option<bool>) {
    if s == [] then None
    else if Last(s[1..]).Some? then Last(s[1..])
    else if Effect(s).Some? then Some(Effect(s).value.on)
    else None
  }

  function Or(r: Option<bool>, flag: bool): (on: bool) {
    if r.Some? then r.value else flag
  }

  lemma {:induction false} ScanIsLast(s: bytes, flag: bool)
    ensures Scan(s, flag) == Or(Last(s), flag)
    decreases s
  {
    if s != [] {
      ScanIsLast(s[1..], if Effect(s).Some? then Effect(s).value.on else flag);
    }
  }

  /** Every setting in the stream takes at most 17 bytes to say. */
  ghost predicate AllShort(s: bytes) {
    forall i | 0 <= i <= |s| :: Effect(s[i..]).Some? ==> Effect(s[i..]).value.length <= TAIL_MAX + 1
  }

  // ---------------------------------------------------------------------------
  // Feeding it in pieces
  // ---------------------------------------------------------------------------

  datatype Watch = Watch(on: bool, tail: bytes)

  const FRESH := Watch(false, [])

  function LastBytes(s: bytes, n: nat): (t: bytes) {
    if |s| <= n then s else s[|s| - n..]
  }

  function Feed(w: Watch, data: bytes): (w': Watch) {
    var buffer := w.tail + LastBytes(data, FEED_MAX);
    Watch(Scan(buffer, w.on), LastBytes(buffer, TAIL_MAX))
  }

  function FeedAll(w: Watch, chunks: seq<bytes>): (w': Watch)
    decreases chunks
  {
    if chunks == [] then w else FeedAll(Feed(w, chunks[0]), chunks[1..])
  }

  class TerminalModel {
    var applicationCursor: bool
    var inputTail: bytes

    ghost function View(): (w: Watch)
      reads this
    {
      Watch(applicationCursor, inputTail)
    }

    constructor ()
      ensures View() == FRESH
    {
      applicationCursor, inputTail := false, [];
    }

    /** track_application_cursor_mode */
    method Track(data: bytes)
      modifies this
      ensures View() == Feed(old(View()), data)
    {
      hide Parameters, Scan, Effect;
      var recent := if |data| > FEED_MAX then data[|data| - FEED_MAX..] else data;
      var buffer := inputTail + recent;
      var i := 0;
      assert buffer[0..] == buffer;
      while i + 4 < |buffer|
        invariant 0 <= i && (i <= |buffer|)
        invariant inputTail == old(inputTail)
        invariant Scan(buffer, old(applicationCursor)) == Scan(buffer[i..], applicationCursor)
      {
        ScanFrom(buffer, i, applicationCursor);
        EffectFrom(buffer, i);
        if buffer[i] == 0x1B && buffer[i + 1] == 0x5B && buffer[i + 2] == 0x3F {
          var found, on := ReadParameters(buffer, i + 3);
          if found {
            applicationCursor := on;
          }
        }
        i := i + 1;
      }
      TooShort(buffer[i..], applicationCursor);
      inputTail := if |buffer| < TAIL_MAX then buffer else buffer[|buffer| - TAIL_MAX..];
    }
  }

  lemma ScanFrom(buffer: bytes, i: nat, flag: bool)
    requires i < |buffer|
    ensures var e := Effect(buffer[i..]);
      Scan(buffer[i..], flag) == Scan(buffer[i + 1..], if e.Some? then e.value.on else flag)
  {
    hide Effect;
    assert buffer[i..][1..] == buffer[i + 1..];
  }

  lemma EffectFrom(buffer: bytes, i: nat)
    requires i + 4 < |buffer|
    ensures var e := Effect(buffer[i..]); var p := Parameters(buffer[i + 3..], false, 0, false);
      && (e.Some? <==> buffer[i] == 0x1B && buffer[i + 1] == 0x5B && buffer[i + 2] == 0x3F && p.Some?)
      && (e.Some? ==> e.value.on == p.value.on)
  {
    hide Parameters;
    assert buffer[i..][3..] == buffer[i + 3..];
  }

  /** The inner loop: does the sequence whose parameters start at `start` set the mode? */
  method ReadParameters(buffer: bytes, start: nat) returns (found: bool, on: bool)
    requires start <= |buffer|
    ensures var p := Parameters(buffer[start..], false, 0, false);
      (found <==> p.Some?) && (found ==> on == p.value.on)
  {
    hide WithDigit;
    found, on := false, false;
    var cursor := start;
    var hasOne, digits := false, false;
    var value: nat := 0;
    while cursor < |buffer|
      invariant start <= cursor <= |buffer|
      invariant Same(Parameters(buffer[start..], false, 0, false), Parameters(buffer[cursor..], hasOne, value, digits))
    {
      var ch := buffer[cursor];
      assert buffer[cursor..][1..] == buffer[cursor + 1..];
      if 0x30 <= ch <= 0x39 {
        digits := true;
        value := WithDigit(value, ch);
      } else if ch == 0x3B {
        hasOne := hasOne || (digits && value == 1);
        value, digits := 0, false;
      } else if ch == 0x68 || ch == 0x6C {
        hasOne := hasOne || (digits && value == 1);
        found, on := hasOne, ch == 0x68;
        return;
      } else if 0x40 <= ch <= 0x7E {
        return;
      }
      cursor := cursor + 1;
    }
  }

  /** Two readings that set the same thing, at whatever length. */
  predicate Same(p: Option<Setting>, q: Option<Setting>) {
    p.Some? == q.Some? && (p.Some? ==> p.value.on == q.value.on)
  }

  /** Four bytes set nothing, so the scan may stop early. */
  lemma TooShort(s: bytes, flag: bool)
    requires |s| <= 4
    ensures Scan(s, flag) == flag
    decreases s
  {
    if s != [] {
      TooShort(s[1..], flag);
    }
  }

  // ---------------------------------------------------------------------------
  // The tail is enough
  // ---------------------------------------------------------------------------

  /** Settings in a suffix outrank the ones before it. */
  lemma {:induction false} LastOfSuffix(q: bytes, s: bytes)
    ensures Last(s).Some? ==> Last(q + s) == Last(s)
  {
    if q == [] {
      assert q + s == s;
    } else {
      assert (q + s)[1..] == q[1..] + s;
      LastOfSuffix(q[1..], s);
    }
  }

  /**
    Scanning `tail + data` with the flag from `q + tail` gives what scanning
    `q + tail + data` would, as long as no setting reaches from before the tail
    into the data.
   */
  lemma {:induction false} TailSuffices(q: bytes, tail: bytes, data: bytes)
    requires forall i | 0 <= i < |q| ::
      Effect((q + tail + data)[i..]).Some? ==> Effect((q + tail + data)[i..]).value.length <= |q| - i + |tail|
    ensures Last(tail + data).None? ==> Last(q + tail + data) == Last(q + tail)
  {
    var s := q + tail + data;
    if q == [] {
      assert s == tail + data && q + tail == tail;
      if Last(tail + data).None? {
        NoSettingLost(tail, data);
      }
    } else {
      var s' := q[1..] + tail + data;
      assert s[1..] == s' && (q + tail)[1..] == q[1..] + tail && s[0..] == s;
      forall i | 0 <= i < |q[1..]|
        ensures Effect(s'[i..]).Some? ==> Effect(s'[i..]).value.length <= |q[1..]| - i + |tail|
      {
        assert s'[i..] == s[i + 1..];
      }
      TailSuffices(q[1..], tail, data);
      assert s == (q + tail) + data;
      EffectExtends(q + tail, data);
    }
  }

  /** More output never takes a setting away. */
  lemma {:induction false} NoSettingLost(s: bytes, t: bytes)
    requires Last(s + t).None?
    ensures Last(s).None?
  {
    if s != [] {
      assert (s + t)[1..] == s[1..] + t;
      NoSettingLost(s[1..], t);
      EffectExtends(s, t);
    }
  }

  lemma LastBytesJoin(p: bytes, d: bytes)
    ensures LastBytes(LastBytes(p, TAIL_MAX) + d, TAIL_MAX) == LastBytes(p + d, TAIL_MAX)
  {
  }

  /** One feed, from a watch that has seen `p`. */
  lemma FeedStep(p: bytes, data: bytes, flag: bool)
    requires |data| <= FEED_MAX && AllShort(p + data)
    ensures Feed(Watch(Scan(p, flag), LastBytes(p, TAIL_MAX)), data)
            == Watch(Scan(p + data, flag), LastBytes(p + data, TAIL_MAX))
  {
    hide Effect;
    var tail := LastBytes(p, TAIL_MAX);
    var q := p[..|p| - |tail|];
    assert p == q + tail && p + data == q + tail + data;
    ScanIsLast(p, flag);
    ScanIsLast(tail + data, Scan(p, flag));
    ScanIsLast(p + data, flag);
    LastBytesJoin(p, data);
    assert p + data == q + (tail + data);
    LastOfSuffix(q, tail + data);
    if |p| > TAIL_MAX {
      forall i | 0 <= i < |q|
        ensures Effect((p + data)[i..]).Some? ==> Effect((p + data)[i..]).value.length <= |q| - i + |tail|
      {
        assert TAIL_MAX + 1 <= |q| - i + |tail|;
      }
    }
    TailSuffices(q, tail, data);
  }

  /** Short settings stay short when the stream is cut. */
  lemma AllShortPrefix(s: bytes, t: bytes)
    requires AllShort(s + t)
    ensures AllShort(s)
  {
    forall i | 0 <= i <= |s| ensures Effect(s[i..]).Some? ==> Effect(s[i..]).value.length <= TAIL_MAX + 1 {
      assert (s + t)[i..] == s[i..] + t;
      EffectExtends(s[i..], t);
    }
  }

  lemma {:induction false} FeedAllStep(p: bytes, chunks: seq<bytes>, flag: bool)
    requires AllShort(p + Join(chunks)) && forall c <- chunks :: |c| <= FEED_MAX
    ensures FeedAll(Watch(Scan(p, flag), LastBytes(p, TAIL_MAX)), chunks)
            == Watch(Scan(p + Join(chunks), flag), LastBytes(p + Join(chunks), TAIL_MAX))
    decreases chunks
  {
    if chunks == [] {
      assert p + Join(chunks) == p;
    } else {
      var rest := Join(chunks[1..]);
      assert p + Join(chunks) == (p + chunks[0]) + rest;
      AllShortPrefix(p + chunks[0], rest);
      FeedStep(p, chunks[0], flag);
      FeedAllStep(p + chunks[0], chunks[1..], flag);
    }
  }

  /** However a stream is split into feeds, the 16-byte tail ends with the flag
      that one scan of the whole stream ends with. */
  lemma SplitIndependent(chunks: seq<bytes>)
    requires AllShort(Join(chunks)) && forall c <- chunks :: |c| <= FEED_MAX
    ensures FeedAll(FRESH, chunks).on == Scan(Join(chunks), false)
  {
    assert [] + Join(chunks) == Join(chunks);
    FeedAllStep([], chunks, false);
  }

  // ---------------------------------------------------------------------------
  // Seventeen bytes is the exact limit
  // ---------------------------------------------------------------------------

  function Bytewise(s: bytes): (chunks: seq<bytes>) {
    seq(|s|, i requires 0 <= i < |s| => [s[i]])
  }

  lemma {:induction false} JoinBytewise(s: bytes)
    ensures Join(Bytewise(s)) == s
  {
    if s != [] {
      assert Bytewise(s)[1..] == Bytewise(s[1..]);
      JoinBytewise(s[1..]);
    }
  }

  /** `m` is one setting and nothing else. */
  predicate OneSetting(m: bytes) {
    Effect(m).Some? && Effect(m).value.length == |m|
  }

  /** The parameters of a setting hold no final byte before their last. */
  lemma {:induction false} NoInnerFinal(s: bytes, hasOne: bool, value: nat, digits: bool, j: nat)
    requires Parameters(s, hasOne, value, digits).Some? && j < Parameters(s, hasOne, value, digits).value.length - 1
    ensures !(0x40 <= s[j] <= 0x7E)
    decreases s
  {
    if j > 0 {
      if 0x30 <= s[0] <= 0x39 {
        NoInnerFinal(s[1..], hasOne, WithDigit(value, s[0]), true, j - 1);
      } else if s[0] == 0x3B {
        NoInnerFinal(s[1..], hasOne || (digits && value == 1), 0, false, j - 1);
      } else {
        NoInnerFinal(s[1..], hasOne, value, digits, j - 1);
      }
    }
  }

  /** Settings do not nest. */
  lemma NothingInside(m: bytes, i: nat)
    requires OneSetting(m) && 1 <= i <= |m|
    ensures Effect(m[i..]).None?
  {
    if i >= 2 && i + 2 < |m| {
      NoInnerFinal(m[3..], false, 0, false, i + 1 - 3);
      assert m[3..][i + 1 - 3] == m[i + 1] && m[i..][1] == m[i + 1];
    }
  }

  lemma {:induction false} NothingIn(s: bytes, flag: bool)
    requires forall i | 0 <= i <= |s| :: Effect(s[i..]).None?
    ensures Scan(s, flag) == flag
    decreases s
  {
    if s != [] {
      assert s[0..] == s;
      forall i | 0 <= i <= |s[1..]| ensures Effect(s[1..][i..]).None? {
        assert s[1..][i..] == s[i + 1..];
      }
      NothingIn(s[1..], flag);
    }
  }

  /** A window of a setting that misses its first or its last byte sets nothing. */
  lemma WindowSetsNothing(m: bytes, lo: nat, hi: nat, flag: bool)
    requires OneSetting(m) && lo <= hi <= |m| && (lo > 0 || hi < |m|)
    ensures Scan(m[lo..hi], flag) == flag
  {
    var s := m[lo..hi];
    forall i | 0 <= i <= |s| ensures Effect(s[i..]).None? {
      assert m[lo + i..] == s[i..] + m[hi..];
      EffectExtends(s[i..], m[hi..]);
      if lo + i > 0 {
        NothingInside(m, lo + i);
      } else {
        assert m[0..] == m;
      }
    }
    NothingIn(s, flag);
  }

  /** A longer setting, arriving byte by byte, is never noticed. */
  lemma {:induction false} LongSettingMissed(m: bytes, k: nat, flag: bool)
    requires OneSetting(m) && |m| > TAIL_MAX + 1 && k <= |m|
    ensures FeedAll(Watch(flag, LastBytes(m[..k], TAIL_MAX)), Bytewise(m[k..])).on == flag
    decreases |m| - k
  {
    if k < |m| {
      var w := Watch(flag, LastBytes(m[..k], TAIL_MAX));
      var lo := if k <= TAIL_MAX then 0 else k - TAIL_MAX;
      assert w.tail + [m[k]] == m[lo..k + 1];
      WindowSetsNothing(m, lo, k + 1, flag);
      assert LastBytes(m[lo..k + 1], TAIL_MAX) == LastBytes(m[..k + 1], TAIL_MAX);
      assert Bytewise(m[k..])[0] == [m[k]] && Bytewise(m[k..])[1..] == Bytewise(m[k + 1..]);
      LongSettingMissed(m, k + 1, flag);
    }
  }

  /** The flag a watch that starts with `flag` ends with. */
  ghost predicate AlwaysNoticed(m: bytes) {
    forall chunks: seq<bytes>, flag: bool ::
      Join(chunks) == m && (forall c <- chunks :: |c| <= FEED_MAX)
      ==> FeedAll(Watch(flag, []), chunks).on == Scan(m, flag)
  }

  /** A setting is noticed under every split exactly when it is at most 17 bytes long. */
  lemma NoticedIffShort(m: bytes)
    requires OneSetting(m)
    ensures AlwaysNoticed(m) <==> |m| <= TAIL_MAX + 1
  {
    var on := Effect(m).value.on;
    if |m| <= TAIL_MAX + 1 {
      forall i | 0 <= i <= |m| ensures Effect(m[i..]).Some? ==> Effect(m[i..]).value.length <= TAIL_MAX + 1 {
      }
      forall chunks: seq<bytes>, flag: bool | Join(chunks) == m && forall c <- chunks :: |c| <= FEED_MAX
        ensures FeedAll(Watch(flag, []), chunks).on == Scan(m, flag)
      {
        assert [] + Join(chunks) == m;
        FeedAllStep([], chunks, flag);
      }
    } else {
      assert m[..0] == [] && m[0..] == m;
      LongSettingMissed(m, 0, !on);
      JoinBytewise(m);
      SettingApplies(m, !on);
      assert forall c <- Bytewise(m) :: |c| <= FEED_MAX;
      assert FeedAll(Watch(!on, []), Bytewise(m)).on != Scan(m, !on);
    }
  }

  lemma SettingApplies(m: bytes, flag: bool)
    requires OneSetting(m)
    ensures Scan(m, flag) == Effect(m).value.on
  {
    forall i | 0 <= i <= |m[1..]| ensures Effect(m[1..][i..]).None? {
      assert m[1..][i..] == m[i + 1..];
      NothingInside(m, i + 1);
    }
    NothingIn(m[1..], Effect(m).value.on);
  }

  /** An 18-byte setting exists: empty parameters are enough. */
  lemma LongSettingExists()
    ensures exists m :: OneSetting(m) && |m| == 18
  {
    var semicolons: bytes := seq(13, _ => 0x3B);
    var m := [0x1B, 0x5B, 0x3F] + (semicolons + [0x31, 0x68]);
    Semicolons(13);
    assert m[3..] == semicolons + [0x31, 0x68];
    assert OneSetting(m) && |m| == 18;
  }

  lemma {:induction false} Semicolons(n: nat)
    ensures Parameters(seq(n, _ => 0x3B) + [0x31, 0x68], false, 0, false) == Some(Setting(true, n + 2))
  {
    var s := seq(n, _ => 0x3B) + [0x31, 0x68];
    if n == 0 {
      assert s == [0x31, 0x68] && s[1..] == [0x68];
      assert Parameters([0x68], false, 1, true) == Some(Setting(true, 1));
    } else {
      assert s[1..] == seq(n - 1, _ => 0x3B) + [0x31, 0x68];
      Semicolons(n - 1);
    }
  }
}
