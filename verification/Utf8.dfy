/**
  UTF-8 as section 4 of RFC 3629 defines it, the greedy segmentation that the
  JSON string writer performs, and the "safe prefix" the controller cuts reads
  with.
 */
module Utf8 {
  import opened Bytes

  // ---------------------------------------------------------------------------
  // Section 4 of RFC 3629
  // ---------------------------------------------------------------------------

  predicate Continuation(b: byte) {
    0x80 <= b <= 0xBF
  }

  /** The length of the sequence a first byte announces; 0 if it announces none. */
  function LeadLength(b: byte): (n: nat) {
    if b < 0x80 then 1
    else if 0xC2 <= b <= 0xDF then 2
    else if 0xE0 <= b <= 0xEF then 3
    else if 0xF0 <= b <= 0xF4 then 4
    else 0
  }

  /** Which second bytes may follow a first byte of a sequence of two or more. */
  predicate SecondByte(lead: byte, b: byte) {
    if lead == 0xE0 then 0xA0 <= b <= 0xBF
    else if lead == 0xED then 0x80 <= b <= 0x9F
    else if lead == 0xF0 then 0x90 <= b <= 0xBF
    else if lead == 0xF4 then 0x80 <= b <= 0x8F
    else Continuation(b)
  }

  /** The first `n` bytes of `s` are the start of a sequence, as far as they go. */
  predicate Fits(s: bytes, n: nat)
    requires n <= |s|
  {
    && (n >= 2 ==> SecondByte(s[0], s[1]))
    && (n >= 3 ==> Continuation(s[2]))
    && (n >= 4 ==> Continuation(s[3]))
  }

  /** `s` is exactly one well-formed sequence. */
  predicate Sequence(s: bytes) {
    s != [] && LeadLength(s[0]) == |s| && Fits(s, |s|)
  }

  /** `s` is a proper, nonempty prefix of some well-formed sequence. */
  predicate Truncated(s: bytes) {
    s != [] && |s| < LeadLength(s[0]) && Fits(s, |s|)
  }

  /** `s` starts with a well-formed sequence. */
  predicate StartsSequence(s: bytes) {
    s != [] && 1 <= LeadLength(s[0]) <= |s| && Fits(s, LeadLength(s[0]))
  }

  /** The code points UTF-8 encodes: not the surrogates (section 3 of RFC 3629). */
  predicate Scalar(c: nat) {
    c <= 0x10FFFF && !(0xD800 <= c <= 0xDFFF)
  }

  /** The bits of a code point, six to a byte behind the first, as the table of
      section 3 of RFC 3629 lays them out. */
  function EncodeCodePoint(c: nat): (s: bytes)
    requires c <= 0x10FFFF
  {
    if c < 0x80 then [c]
    else if c < 0x800 then [0xC0 + c / 64, 0x80 + c % 64]
    else if c < 0x10000 then [0xE0 + c / 64 / 64, 0x80 + c / 64 % 64, 0x80 + c % 64]
    else [0xF0 + c / 64 / 64 / 64, 0x80 + c / 64 / 64 % 64, 0x80 + c / 64 % 64, 0x80 + c % 64]
  }

  /** The last six bits of a byte behind the first. */
  function Six(b: byte): (n: int) {
    b as int - 0x80
  }

  function DecodeCodePoint(s: bytes): (c: int)
    requires Sequence(s)
  {
    match |s|
    case 1 => s[0]
    case 2 => 64 * (s[0] as int - 0xC0) + Six(s[1])
    case 3 => 4096 * (s[0] as int - 0xE0) + 64 * Six(s[1]) + Six(s[2])
    case _ => 262144 * (s[0] as int - 0xF0) + 4096 * Six(s[1]) + 64 * Six(s[2]) + Six(s[3])
  }

  lemma Sextet(q: nat, r: nat)
    requires r < 64
    ensures (64 * q + r) / 64 == q && (64 * q + r) % 64 == r
  {
  }

  /** Taking six bits at a time off a number made of them. */
  lemma Sextets(a: nat, b: nat, c: nat, d: nat)
    requires b < 64 && c < 64 && d < 64
    ensures var n := 262144 * a + 4096 * b + 64 * c + d;
      n % 64 == d && n / 64 % 64 == c && n / 64 / 64 % 64 == b && n / 64 / 64 / 64 == a && n / 64 / 64 == 64 * a + b
  {
    var n := 262144 * a + 4096 * b + 64 * c + d;
    assert n == 64 * (4096 * a + 64 * b + c) + d;
    Sextet(4096 * a + 64 * b + c, d);
    assert 4096 * a + 64 * b + c == 64 * (64 * a + b) + c;
    Sextet(64 * a + b, c);
    Sextet(a, b);
  }

  lemma DecodesThree(s: bytes)
    requires Sequence(s) && |s| == 3
    ensures 0 <= DecodeCodePoint(s) && Scalar(DecodeCodePoint(s)) && EncodeCodePoint(DecodeCodePoint(s)) == s
  {
    Sextets(0, s[0] - 0xE0, s[1] - 0x80, s[2] - 0x80);
  }

  lemma DecodesFour(s: bytes)
    requires Sequence(s) && |s| == 4
    ensures 0 <= DecodeCodePoint(s) && Scalar(DecodeCodePoint(s)) && EncodeCodePoint(DecodeCodePoint(s)) == s
  {
    Sextets(s[0] - 0xF0, s[1] - 0x80, s[2] - 0x80, s[3] - 0x80);
  }

  lemma DecodesScalar(s: bytes)
    requires Sequence(s)
    ensures 0 <= DecodeCodePoint(s) && Scalar(DecodeCodePoint(s)) && EncodeCodePoint(DecodeCodePoint(s)) == s
  {
    if |s| == 3 {
      DecodesThree(s);
    } else if |s| == 4 {
      DecodesFour(s);
    }
  }

  lemma EncodesSequence(c: nat)
    requires Scalar(c)
    ensures Sequence(EncodeCodePoint(c)) && DecodeCodePoint(EncodeCodePoint(c)) == c
  {
    var q := c / 64;
    assert c == 64 * q + c % 64;
    if c >= 0x800 {
      EncodesLong(c, q, q / 64);
    }
  }

  lemma EncodesLong(c: nat, q: nat, r: nat)
    requires Scalar(c) && c >= 0x800 && q == c / 64 && r == q / 64
    ensures Sequence(EncodeCodePoint(c)) && DecodeCodePoint(EncodeCodePoint(c)) == c
  {
    assert c == 64 * q + c % 64 && q == 64 * r + q % 64;
    if c >= 0x10000 {
      assert r == 64 * (r / 64) + r % 64;
    }
  }

  /** The table of byte ranges is the arithmetic: a sequence is the encoding of a
      code point, and of just one. */
  lemma SequenceIsCodePoint(s: bytes)
    ensures Sequence(s) <==> exists c | Scalar(c) :: EncodeCodePoint(c) == s
    ensures forall c, d | Scalar(c) && Scalar(d) && EncodeCodePoint(c) == EncodeCodePoint(d) :: c == d
  {
    hide Sequence, EncodeCodePoint, DecodeCodePoint;
    if Sequence(s) {
      DecodesScalar(s);
    }
    forall c | Scalar(c) ensures Sequence(EncodeCodePoint(c)) && DecodeCodePoint(EncodeCodePoint(c)) == c {
      EncodesSequence(c);
    }
  }

  /** `Truncated` says what its name says. */
  lemma TruncatedIsProperPrefix(s: bytes)
    ensures Truncated(s) <==> s != [] && exists rest: bytes :: rest != [] && Sequence(s + rest)
  {
    if Truncated(s) {
      CompletesTruncated(s);
    }
    forall rest: bytes | s != [] && rest != [] && Sequence(s + rest) ensures Truncated(s) {
      assert Fits(s + rest, |s|);
    }
  }

  function Completion(s: bytes): (rest: bytes)
    requires Truncated(s)
  {
    var second := if s[0] == 0xE0 then 0xA0 else if s[0] == 0xF0 then 0x90 else 0x80;
    seq(LeadLength(s[0]) - |s|, i requires 0 <= i => if |s| + i == 1 then second else 0x80)
  }

  lemma CompletesTruncated(s: bytes)
    requires Truncated(s)
    ensures Completion(s) != [] && Sequence(s + Completion(s))
  {
    var whole := s + Completion(s);
    assert forall i | |s| <= i < |whole| :: whole[i] == Completion(s)[i - |s|];
  }

  /** `s` is a concatenation of well-formed sequences. */
  predicate WellFormed(s: bytes) {
    s == [] || (StartsSequence(s) && WellFormed(s[LeadLength(s[0])..]))
  }

  predicate Scalars(cs: seq<nat>) {
    forall i | 0 <= i < |cs| :: Scalar(cs[i])
  }

  function EncodeText(cs: seq<nat>): (s: bytes)
    requires Scalars(cs)
  {
    if cs == [] then [] else EncodeCodePoint(cs[0]) + EncodeText(cs[1..])
  }

  lemma StartsAsSequence(s: bytes)
    ensures StartsSequence(s) <==> s != [] && 1 <= LeadLength(s[0]) <= |s| && Sequence(s[..LeadLength(s[0])])
  {
  }

  lemma StartsAfter(u: bytes, rest: bytes)
    requires Sequence(u)
    ensures StartsSequence(u + rest) && LeadLength((u + rest)[0]) == |u| && (u + rest)[|u|..] == rest
  {
  }

  lemma {:induction false} EncodesWellFormed(cs: seq<nat>)
    requires Scalars(cs)
    ensures WellFormed(EncodeText(cs))
  {
    hide StartsSequence, EncodeCodePoint, DecodeCodePoint, Sequence;
    if cs != [] {
      EncodesSequence(cs[0]);
      EncodesWellFormed(cs[1..]);
      StartsAfter(EncodeCodePoint(cs[0]), EncodeText(cs[1..]));
    }
  }

  lemma {:induction false} DecodesText(s: bytes) returns (cs: seq<nat>)
    requires WellFormed(s)
    ensures Scalars(cs) && EncodeText(cs) == s
  {
    hide StartsSequence, EncodeCodePoint, DecodeCodePoint, Sequence;
    cs := [];
    if s != [] {
      var n := LeadLength(s[0]);
      StartsAsSequence(s);
      DecodesScalar(s[..n]);
      var rest := DecodesText(s[n..]);
      cs := [DecodeCodePoint(s[..n])] + rest;
      assert cs[1..] == rest && s == s[..n] + s[n..];
    }
  }

  /** Well formed is to be the encoding of a text of code points. */
  lemma WellFormedIsText(s: bytes)
    ensures WellFormed(s) <==> exists cs | Scalars(cs) :: EncodeText(cs) == s
  {
    hide WellFormed, EncodeText, Scalars;
    if WellFormed(s) {
      var cs := DecodesText(s);
    }
    forall cs | Scalars(cs) ensures WellFormed(EncodeText(cs)) {
      EncodesWellFormed(cs);
    }
  }

  // ---------------------------------------------------------------------------
  // Greedy segmentation
  // ---------------------------------------------------------------------------

  /** One step of the writer: a whole sequence where there is one, else one stray byte. */
  function UnitLength(s: bytes): (n: nat)
    requires s != []
    ensures 1 <= n <= |s|
  {
    if StartsSequence(s) then LeadLength(s[0]) else 1
  }

  function Units(s: bytes): (us: seq<bytes>)
  {
    if s == [] then [] else [s[..UnitLength(s)]] + Units(s[UnitLength(s)..])
  }

  /** What one step of the segmentation can yield. */
  predicate Unit(u: bytes) {
    Sequence(u) || (|u| == 1 && u[0] >= 0x80 && LeadLength(u[0]) != 1)
  }

  lemma FirstUnit(s: bytes)
    requires s != []
    ensures Unit(s[..UnitLength(s)])
  {
  }

  lemma {:induction false} UnitsPartition(s: bytes)
    ensures Join(Units(s)) == s
    ensures forall i | 0 <= i < |Units(s)| :: Unit(Units(s)[i])
  {
    hide Units, UnitLength, Unit;
    if s == [] {
      NoUnits();
    } else {
      var u := UnitLength(s);
      FirstUnit(s);
      UnitsHead(s);
      UnitsPartition(s[u..]);
      PrependUnit(s[..u], Units(s[u..]));
      assert s == s[..u] + s[u..];
    }
  }

  lemma NoUnits()
    ensures Units([]) == [] && Join([]) == []
  {
  }

  lemma PrependUnit(u: bytes, us: seq<bytes>)
    requires Unit(u) && forall i | 0 <= i < |us| :: Unit(us[i])
    ensures forall i | 0 <= i <= |us| :: Unit(([u] + us)[i])
    ensures Join([u] + us) == u + Join(us)
  {
    hide Unit;
    assert ([u] + us)[1..] == us;
  }

  /** `k` is a boundary of the segmentation of `s`. */
  predicate Boundary(s: bytes, k: nat)
    requires k <= |s|
  {
    k == 0 || (UnitLength(s) <= k && Boundary(s[UnitLength(s)..], k - UnitLength(s)))
  }

  /** A prefix that reaches past the first unit has the same first unit. */
  lemma UnitLengthOfPrefix(s: bytes, k: nat)
    requires s != [] && UnitLength(s) <= k <= |s|
    ensures UnitLength(s[..k]) == UnitLength(s)
  {
  }

  lemma UnitsHead(s: bytes)
    requires s != []
    ensures var u := UnitLength(s);
      Units(s) == [s[..u]] + Units(s[u..]) && Units(s)[0] == s[..u] && Units(s)[1..] == Units(s[u..])
  {
  }

  /** The segmentation splits at `k` exactly when `k` is one of its boundaries. */
  lemma {:induction false} UnitsSplit(s: bytes, k: nat)
    requires k <= |s|
    ensures Boundary(s, k) <==> Units(s) == Units(s[..k]) + Units(s[k..])
  {
    if k == 0 {
      assert s[..k] == [] && s[k..] == s;
    } else if UnitLength(s) <= k {
      var u := UnitLength(s);
      UnitLengthOfPrefix(s, k);
      UnitsSplit(s[u..], k - u);
      assert s[u..][..k - u] == s[..k][u..] && s[u..][k - u..] == s[k..] && s[..k][..u] == s[..u];
      SplitStep(s[..u], Units(s[u..]), Units(s[..k][u..]), Units(s[k..]));
      UnitsHead(s);
      UnitsHead(s[..k]);
    } else {
      UnitsHead(s);
      UnitsHead(s[..k]);
      assert |Units(s[..k])[0]| < |Units(s)[0]|;
      assert (Units(s[..k]) + Units(s[k..]))[0] == Units(s[..k])[0];
    }
  }

  lemma SplitStep(u: bytes, all: seq<bytes>, left: seq<bytes>, right: seq<bytes>)
    ensures all == left + right <==> [u] + all == ([u] + left) + right
  {
    assert ([u] + left) + right == [u] + (left + right);
    assert ([u] + all)[1..] == all && ([u] + (left + right))[1..] == left + right;
  }

  // ---------------------------------------------------------------------------
  // The safe prefix
  // ---------------------------------------------------------------------------

  /** The windows the scan stops in front of: a truncated sequence, except a
      three- or four-byte lead standing alone. */
  predicate HeldBack(s: bytes) {
    Truncated(s) && !(|s| == 1 && LeadLength(s[0]) >= 3)
  }

  function SafeLength(s: bytes): (n: nat)
    ensures n <= |s|
  {
    if s == [] || HeldBack(s) then 0
    else UnitLength(s) + SafeLength(s[UnitLength(s)..])
  }

  /** One turn of the scan: stop in front of the byte at `i`, or pass a unit. The
      ranges that differ only in their second byte share a branch, with
      `SecondByte` holding the ranges. */
  method NextSafe(value: bytes, i: nat) returns (stop: bool, step: nat)
    requires i < |value|
    ensures stop <==> HeldBack(value[i..])
    ensures !stop ==> step == UnitLength(value[i..])
  {
    var ch := value[i];
    var rest := |value| - i;
    stop, step := false, 1;
    if ch < 0x80 {
    } else if 0xC2 <= ch <= 0xDF {
      if rest <= 1 {
        stop := true;
      } else if Continuation(value[i + 1]) {
        step := 2;
      }
    } else if 0xE0 <= ch <= 0xEF {
      if rest <= 2 {
        stop := rest > 1 && SecondByte(ch, value[i + 1]);
      } else if SecondByte(ch, value[i + 1]) && Continuation(value[i + 2]) {
        step := 3;
      }
    } else if 0xF0 <= ch <= 0xF4 {
      if rest <= 3 {
        stop := rest > 1 && SecondByte(ch, value[i + 1]) && (rest <= 2 || Continuation(value[i + 2]));
      } else if SecondByte(ch, value[i + 1]) && Continuation(value[i + 2]) && Continuation(value[i + 3]) {
        step := 4;
      }
    }
  }

  lemma SafeFrom(value: bytes, i: nat)
    requires i <= |value|
    ensures i == |value| || HeldBack(value[i..]) ==> SafeLength(value[i..]) == 0
    ensures i < |value| && !HeldBack(value[i..]) ==>
      var u := UnitLength(value[i..]); SafeLength(value[i..]) == u + SafeLength(value[i + u..])
  {
    hide HeldBack, UnitLength;
    if i < |value| {
      var u := UnitLength(value[i..]);
      assert value[i..][u..] == value[i + u..];
    }
  }

  /** cubicle_json_safe_utf8_prefix_length, whose cursor is always at a safe place. */
  method SafePrefixLength(value: bytes) returns (safe: nat)
    ensures safe == SafeLength(value)
    ensures safe <= |value|
  {
    hide SafeLength, HeldBack, UnitLength;
    safe := 0;
    assert value[0..] == value;
    while safe < |value|
      invariant safe <= |value|
      invariant SafeLength(value) == safe + SafeLength(value[safe..])
    {
      var stop, step := NextSafe(value, safe);
      SafeFrom(value, safe);
      if stop {
        return;
      }
      safe := safe + step;
    }
    SafeFrom(value, safe);
  }

  /** `x` ends in a three- or four-byte lead that `y` turns into a sequence. */
  predicate LoneLeadCompleted(x: bytes, y: bytes) {
    x != [] && LeadLength(x[|x| - 1]) >= 3 && StartsSequence([x[|x| - 1]] + y)
  }

  /** Unless the window is truncated, its first unit does not depend on what follows. */
  lemma UnitDecided(x: bytes, y: bytes)
    requires x != [] && !Truncated(x)
    ensures UnitLength(x + y) == UnitLength(x)
  {
  }

  /** The last byte of a complete unit is never a lead of a longer one. */
  lemma UnitEndIsNoLead(x: bytes)
    requires x != [] && !Truncated(x) && UnitLength(x) == |x|
    ensures LeadLength(x[|x| - 1]) < 3
  {
  }

  lemma HeldBackTransparent(x: bytes, y: bytes)
    requires x == [] || HeldBack(x)
    ensures SafeLength(x) == 0 && Boundary(x + y, 0) && !LoneLeadCompleted(x, y)
  {
    if |x| > 1 { assert LeadLength(x[|x| - 1]) == 0; }
  }

  lemma LoneLeadTransparent(x: bytes, y: bytes)
    requires Truncated(x) && !HeldBack(x)
    ensures SafeLength(x) == 1 <= |x| && (Boundary(x + y, 1) <==> !LoneLeadCompleted(x, y))
  {
    assert |x| == 1 && x[1..] == [];
    assert x + y == [x[0]] + y && (x + y)[1..] == y;
    assert SafeLength([]) == 0 && Boundary(y, 0);
    assert UnitLength(x) == 1;
  }

  lemma UnitTransparent(x: bytes, y: bytes)
    requires x != [] && !Truncated(x)
    ensures var u := UnitLength(x);
      && SafeLength(x) == u + SafeLength(x[u..])
      && (Boundary(x + y, SafeLength(x)) <==> Boundary(x[u..] + y, SafeLength(x[u..])))
  {
    hide UnitLength, Truncated, Boundary;
    UnitDecided(x, y);
    var u := UnitLength(x);
    SafeUnit(x);
    BoundaryFrom(x + y, SafeLength(x));
    assert (x + y)[u..] == x[u..] + y;
  }

  lemma SafeUnit(x: bytes)
    requires x != [] && !Truncated(x)
    ensures SafeLength(x) == UnitLength(x) + SafeLength(x[UnitLength(x)..])
  {
    hide UnitLength, Truncated;
  }

  lemma BoundaryFrom(s: bytes, k: nat)
    requires 0 < k <= |s|
    ensures var u := UnitLength(s); Boundary(s, k) <==> u <= k && Boundary(s[u..], k - u)
  {
    hide UnitLength;
  }

  lemma LoneLeadBehind(x: bytes, y: bytes)
    requires x != [] && !Truncated(x)
    ensures LoneLeadCompleted(x, y) <==> LoneLeadCompleted(x[UnitLength(x)..], y)
  {
    var u := UnitLength(x);
    if u == |x| {
      UnitEndIsNoLead(x);
      assert x[u..] == [];
    } else {
      hide UnitLength, Truncated;
      assert x[u..][|x[u..]| - 1] == x[|x| - 1];
    }
  }

  /**
    Chunk transparency, exactly: cutting the stream `x + y` at the safe prefix
    of the window `x` is a cut between units, for every continuation `y`, unless
    the window ends in a lone three- or four-byte lead that `y` completes.
   */
  lemma {:induction false} ChunkTransparency(x: bytes, y: bytes)
    ensures Boundary(x + y, SafeLength(x)) <==> !LoneLeadCompleted(x, y)
  {
    hide HeldBack, Truncated, UnitLength, SafeLength, Boundary, LoneLeadCompleted;
    if x == [] || HeldBack(x) {
      HeldBackTransparent(x, y);
    } else if Truncated(x) {
      LoneLeadTransparent(x, y);
    } else {
      UnitTransparent(x, y);
      LoneLeadBehind(x, y);
      ChunkTransparency(x[UnitLength(x)..], y);
    }
  }

  /** What the scan holds back is at most three bytes, and the start of a sequence. */
  lemma {:induction false} HeldBackTail(x: bytes)
    ensures |x| - SafeLength(x) <= 3
    ensures SafeLength(x) < |x| ==> Truncated(x[SafeLength(x)..])
  {
    if x != [] && !HeldBack(x) {
      var u := UnitLength(x);
      HeldBackTail(x[u..]);
      assert x[u..][SafeLength(x[u..])..] == x[SafeLength(x)..];
    } else {
      assert x[SafeLength(x)..] == x;
    }
  }

  /** Encoding the parts equals encoding the whole, whatever is written per unit. */
  lemma TransparentEncoding(x: bytes, y: bytes)
    requires !LoneLeadCompleted(x, y)
    ensures var k := SafeLength(x); Units(x + y) == Units(x[..k]) + Units(x[k..] + y)
  {
    hide Units, SafeLength, Boundary;
    var k := SafeLength(x);
    ChunkTransparency(x, y);
    UnitsSplit(x + y, k);
    assert (x + y)[..k] == x[..k];
    assert (x + y)[k..] == x[k..] + y;
  }

  /** The exception is real: the euro sign cut after its first byte. */
  lemma LoneLeadExample()
    ensures SafeLength([0xE2]) == 1
    ensures LoneLeadCompleted([0xE2], [0x82, 0xAC])
    ensures Units([0xE2, 0x82, 0xAC]) != Units([0xE2]) + Units([0x82, 0xAC])
    ensures SafeLength([0xC3]) == 0
  {
    var whole: bytes := [0xE2, 0x82, 0xAC];
    assert whole[..3] == whole;
    assert Units(whole)[0] == whole;
    assert |Units([0xE2])[0]| == 1;
    assert SafeLength([0xE2][1..]) == 0;
  }
}
