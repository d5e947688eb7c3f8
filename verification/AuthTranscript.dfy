/**
  The byte strings that authentication signs and that session resumption
  authenticates (src/common/auth_protocol.c).
 */
module AuthTranscript {
  import opened Bytes
  import opened Text

  datatype Transcript = Transcript(
    major: nat,
    minor: nat,
    managerKey: bytes,
    clientKey: bytes,
    clientNonce: bytes,
    managerNonce: bytes,
    connectionId: bytes,
    capabilities: nat,
    generation: nat,
    uid: nat,
    gid: nat,
    workspace: bytes)

  datatype Resume = Resume(
    managerKeyId: bytes,
    sessionId: bytes,
    clientNonce: bytes,
    serverNonce: bytes,
    connectionId: bytes,
    generation: nat,
    uid: nat,
    gid: nat)

  /** The C types of the fields: 32- and 64-bit numbers, fixed arrays, and strings
      that end in front of their array's last byte. */
  predicate ValidTranscript(t: Transcript) {
    && t.major < 0x1_0000_0000 && t.minor < 0x1_0000_0000
    && |t.managerKey| == |t.clientKey| == |t.clientNonce| == |t.managerNonce| == 32
    && |t.connectionId| == 16
    && t.capabilities < 0x1_0000_0000_0000_0000 && t.generation < 0x1_0000_0000_0000_0000
    && t.uid < 0x1_0000_0000 && t.gid < 0x1_0000_0000
    && |t.workspace| <= 255
  }

  predicate ValidResume(r: Resume) {
    && |r.managerKeyId| <= 32 && |r.sessionId| <= 32
    && |r.clientNonce| == |r.serverNonce| == 32 && |r.connectionId| == 16
    && r.generation < 0x1_0000_0000_0000_0000
    && r.uid < 0x1_0000_0000 && r.gid < 0x1_0000_0000
  }

  // ---------------------------------------------------------------------------
  // Encoding
  // ---------------------------------------------------------------------------

  function U64(n: nat): (s: bytes)
    requires n < 0x1_0000_0000_0000_0000
    ensures |s| == 8
  {
    U32(n / 0x1_0000_0000) + U32(n % 0x1_0000_0000)
  }

  function Str(s: bytes): (t: bytes)
    requires |s| < 0x1_0000_0000
    ensures |t| == 4 + |s|
  {
    U32(|s|) + s
  }

  /** The domain strings are written with their terminating zero. */
  const AUTH_DOMAIN: bytes := [0x43, 0x55, 0x42, 0x49, 0x43, 0x4C, 0x45, 0x2D, 0x41, 0x55, 0x54, 0x48, 0x2D, 0x56, 0x30, 0x00]
  const RESUME_DOMAIN: bytes := [0x43, 0x55, 0x42, 0x49, 0x43, 0x4C, 0x45, 0x2D, 0x52, 0x45, 0x53, 0x55, 0x4D, 0x45, 0x2D, 0x56, 0x30, 0x00]

  function TranscriptFields(t: Transcript): (parts: seq<bytes>)
    requires ValidTranscript(t)
  {
    [AUTH_DOMAIN, U32(t.major), U32(t.minor), t.managerKey, t.clientKey, t.clientNonce, t.managerNonce,
     t.connectionId, U64(t.capabilities), U64(t.generation), U64(t.uid), U64(t.gid), Str(t.workspace)]
  }

  function ResumeFields(r: Resume): (parts: seq<bytes>)
    requires ValidResume(r)
  {
    [RESUME_DOMAIN, Str(r.managerKeyId), Str(r.sessionId), r.clientNonce, r.serverNonce, r.connectionId,
     U64(r.generation), U64(r.uid), U64(r.gid)]
  }

  function EncodeTranscript(t: Transcript): (s: bytes)
    requires ValidTranscript(t)
  {
    Join(TranscriptFields(t))
  }

  function EncodeResume(r: Resume): (s: bytes)
    requires ValidResume(r)
  {
    Join(ResumeFields(r))
  }

  // ---------------------------------------------------------------------------
  // Writing into the caller's buffer
  // ---------------------------------------------------------------------------

  /** append_bytes */
  method AppendBytes(buffer: array<byte>, used: nat, data: bytes) returns (ok: bool, next: nat)
    requires used <= buffer.Length
    modifies buffer
    ensures used <= next <= buffer.Length
    ensures ok <==> |data| <= buffer.Length - used
    ensures ok ==> buffer[..next] == old(buffer[..used]) + data
    ensures !ok ==> next == used && buffer[..] == old(buffer[..])
  {
    if |data| > buffer.Length - used {
      return false, used;
    }
    forall i | 0 <= i < |data| { buffer[used + i] := data[i]; }
    return true, used + |data|;
  }

  /** append_u64: two halves, the second only if the first went in. */
  method AppendU64(buffer: array<byte>, used: nat, value: nat) returns (ok: bool, next: nat)
    requires used <= buffer.Length && value < 0x1_0000_0000_0000_0000
    modifies buffer
    ensures used <= next <= buffer.Length
    ensures ok <==> 8 <= buffer.Length - used
    ensures ok ==> buffer[..next] == old(buffer[..used]) + U64(value)
  {
    ok, next := AppendBytes(buffer, used, U32(value / 0x1_0000_0000));
    if ok {
      ok, next := AppendBytes(buffer, next, U32(value % 0x1_0000_0000));
    }
  }

  /** append_string: nothing is copied for an empty string. */
  method AppendString(buffer: array<byte>, used: nat, value: bytes) returns (ok: bool, next: nat)
    requires used <= buffer.Length && |value| < 0x1_0000_0000
    modifies buffer
    ensures used <= next <= buffer.Length
    ensures ok <==> 4 + |value| <= buffer.Length - used
    ensures ok ==> buffer[..next] == old(buffer[..used]) + Str(value)
  {
    ok, next := AppendBytes(buffer, used, U32(|value|));
    if ok && |value| > 0 {
      ok, next := AppendBytes(buffer, next, value);
    }
  }

  /** The first `n` fields stand at the start of the buffer. */
  ghost predicate Wrote(buffer: seq<byte>, used: nat, parts: seq<bytes>, n: nat) {
    used <= |buffer| && n <= |parts| && buffer[..used] == Join(parts[..n])
  }

  lemma WroteNext(before: bytes, parts: seq<bytes>, n: nat)
    requires n < |parts| && before == Join(parts[..n])
    ensures before + parts[n] == Join(parts[..n + 1])
  {
    assert parts[..n + 1] == parts[..n] + [parts[n]];
    JoinConcat(parts[..n], [parts[n]]);
    assert Join([parts[n]]) == parts[n];
  }

  /** A prefix of the fields is no longer than all of them. */
  lemma WrotePrefix(parts: seq<bytes>, n: nat)
    requires n <= |parts|
    ensures |Join(parts[..n])| <= |Join(parts)|
  {
    assert parts == parts[..n] + parts[n..];
    JoinConcat(parts[..n], parts[n..]);
  }

  datatype Field = Raw(data: bytes) | Number(value: nat) | String(text: bytes)

  ghost predicate Encodes(field: Field, part: bytes) {
    match field
    case Raw(data) => part == data
    case Number(value) => value < 0x1_0000_0000_0000_0000 && part == U64(value)
    case String(text) => |text| < 0x1_0000_0000 && part == Str(text)
  }

  /** One link of the chain of appends, by the field's kind. */
  method AppendField(buffer: array<byte>, used: nat, field: Field, ghost parts: seq<bytes>, ghost n: nat)
    returns (ok: bool, next: nat)
    requires Wrote(buffer[..], used, parts, n) && n < |parts| && Encodes(field, parts[n])
    modifies buffer
    ensures ok <==> |Join(parts[..n + 1])| <= buffer.Length
    ensures ok ==> Wrote(buffer[..], next, parts, n + 1)
  {
    WroteNext(buffer[..used], parts, n);
    match field
    case Raw(data) => ok, next := AppendBytes(buffer, used, data);
    case Number(value) => ok, next := AppendU64(buffer, used, value);
    case String(text) => ok, next := AppendString(buffer, used, text);
  }

  /** cubicle_auth_encode_transcript: succeeds exactly when the encoding fits. */
  method WriteTranscript(t: Transcript, buffer: array<byte>) returns (ok: bool, length: nat)
    requires ValidTranscript(t)
    modifies buffer
    ensures ok <==> |EncodeTranscript(t)| <= buffer.Length
    ensures ok ==> length <= buffer.Length && buffer[..length] == EncodeTranscript(t)
  {
    hide U32, U64, Str, Join;
    ghost var parts := TranscriptFields(t);
    var fields := [
      Raw(AUTH_DOMAIN), Raw(U32(t.major)), Raw(U32(t.minor)), Raw(t.managerKey), Raw(t.clientKey),
      Raw(t.clientNonce), Raw(t.managerNonce), Raw(t.connectionId), Number(t.capabilities),
      Number(t.generation), Number(t.uid), Number(t.gid), String(t.workspace)];
    ok, length := AppendFields(buffer, fields, parts);
  }

  /** cubicle_auth_encode_resume */
  method WriteResume(r: Resume, buffer: array<byte>) returns (ok: bool, length: nat)
    requires ValidResume(r)
    modifies buffer
    ensures ok <==> |EncodeResume(r)| <= buffer.Length
    ensures ok ==> length <= buffer.Length && buffer[..length] == EncodeResume(r)
  {
    hide U32, U64, Str, Join;
    ghost var parts := ResumeFields(r);
    var fields := [
      Raw(RESUME_DOMAIN), String(r.managerKeyId), String(r.sessionId), Raw(r.clientNonce), Raw(r.serverNonce),
      Raw(r.connectionId), Number(r.generation), Number(r.uid), Number(r.gid)];
    ok, length := AppendFields(buffer, fields, parts);
  }

  /** The chain itself: the fields in order, until one does not fit. */
  method AppendFields(buffer: array<byte>, fields: seq<Field>, ghost parts: seq<bytes>) returns (ok: bool, length: nat)
    requires |fields| == |parts| && forall i | 0 <= i < |fields| :: Encodes(fields[i], parts[i])
    modifies buffer
    ensures ok <==> |Join(parts)| <= buffer.Length
    ensures ok ==> length <= buffer.Length && buffer[..length] == Join(parts)
  {
    length := 0;
    for i := 0 to |fields|
      invariant Wrote(buffer[..], length, parts, i)
    {
      ok, length := AppendField(buffer, length, fields[i], parts, i);
      if !ok {
        WrotePrefix(parts, i + 1);
        return;
      }
    }
    ok := true;
    assert parts[..|parts|] == parts;
  }

  // ---------------------------------------------------------------------------
  // Sizes
  // ---------------------------------------------------------------------------

  /** The length of the encoding from field `i` on. */
  function SizeFrom(parts: seq<bytes>, i: nat): (n: nat)
    requires i <= |parts|
  {
    |Join(parts[i..])|
  }

  lemma SizeStep(parts: seq<bytes>, i: nat)
    requires i < |parts|
    ensures SizeFrom(parts, i) == |parts[i]| + SizeFrom(parts, i + 1)
  {
    assert parts[i..][1..] == parts[i + 1..];
  }

  lemma SizeEnds(parts: seq<bytes>)
    ensures SizeFrom(parts, 0) == |Join(parts)| && SizeFrom(parts, |parts|) == 0
  {
    assert parts[0..] == parts;
  }

  /** Both encodings fit the 512-byte buffers their callers pass. */
  lemma TranscriptSize(t: Transcript)
    requires ValidTranscript(t)
    ensures |EncodeTranscript(t)| == 204 + |t.workspace| <= 459
  {
    hide U32, U64, Str, Join, SizeFrom;
    var f := TranscriptFields(t);
    SizeStep(f, 0); SizeStep(f, 1); SizeStep(f, 2); SizeStep(f, 3); SizeStep(f, 4); SizeStep(f, 5); SizeStep(f, 6);
    SizeStep(f, 7); SizeStep(f, 8); SizeStep(f, 9); SizeStep(f, 10); SizeStep(f, 11); SizeStep(f, 12);
    SizeEnds(f);
  }

  lemma ResumeSize(r: Resume)
    requires ValidResume(r)
    ensures |EncodeResume(r)| == 130 + |r.managerKeyId| + |r.sessionId| <= 194
  {
    hide U32, U64, Str, Join, SizeFrom;
    var f := ResumeFields(r);
    SizeStep(f, 0); SizeStep(f, 1); SizeStep(f, 2); SizeStep(f, 3); SizeStep(f, 4);
    SizeStep(f, 5); SizeStep(f, 6); SizeStep(f, 7); SizeStep(f, 8);
    SizeEnds(f);
  }

  // ---------------------------------------------------------------------------
  // Where each field stands
  // ---------------------------------------------------------------------------

  /** A number, most significant byte first. */
  function BigEndian(s: bytes): (n: nat) {
    if s == [] then 0 else 256 * BigEndian(s[..|s| - 1]) + s[|s| - 1]
  }

  lemma BigEndianFour(s: bytes)
    requires |s| == 4
    ensures BigEndian(s) == FromU32(s)
  {
    assert s[..3][..2] == s[..2] && s[..2][..1] == s[..1] && s[..1][..0] == [];
    assert BigEndian(s[..1]) == s[0];
    assert BigEndian(s[..2]) == 256 * s[0] as int + s[1];
    assert BigEndian(s[..3]) == 65536 * s[0] as int + 256 * s[1] as int + s[2];
  }

  lemma {:induction false} BigEndianOn(a: bytes, b: bytes)
    requires |b| <= 4
    ensures BigEndian(a + b) == BigEndian(a) * (if |b| == 0 then 1 else if |b| == 1 then 0x100 else if |b| == 2 then 0x1_0000
                                                 else if |b| == 3 then 0x100_0000 else 0x1_0000_0000) + BigEndian(b)
  {
    if b == [] {
      assert a + b == a;
    } else {
      assert (a + b)[..|a + b| - 1] == a + b[..|b| - 1];
      BigEndianOn(a, b[..|b| - 1]);
    }
  }

  lemma NumbersRead(n: nat)
    ensures n < 0x1_0000_0000 ==> BigEndian(U32(n)) == n
    ensures n < 0x1_0000_0000_0000_0000 ==> BigEndian(U64(n)) == n
  {
    hide U32, FromU32;
    if n < 0x1_0000_0000 {
      BigEndianFour(U32(n));
      U32RoundTrip(n);
    }
    if n < 0x1_0000_0000_0000_0000 {
      var high, low := n / 0x1_0000_0000, n % 0x1_0000_0000;
      BigEndianFour(U32(high));
      U32RoundTrip(high);
      BigEndianFour(U32(low));
      U32RoundTrip(low);
      BigEndianOn(U32(high), U32(low));
    }
  }

  /** `part` stands at `at`. */
  predicate Stands(s: bytes, at: nat, part: bytes) {
    at + |part| <= |s| && s[at..at + |part|] == part
  }

  /** Field `i` stands where the fields in front of it end. */
  lemma FieldStands(parts: seq<bytes>, i: nat, at: nat)
    requires i < |parts| && |Join(parts[..i])| == at
    ensures Stands(Join(parts), at, parts[i]) && |Join(parts[..i + 1])| == at + |parts[i]|
  {
    WroteNext(Join(parts[..i]), parts, i);
    assert parts == parts[..i + 1] + parts[i + 1..];
    JoinConcat(parts[..i + 1], parts[i + 1..]);
  }

  lemma FirstStands(parts: seq<bytes>)
    ensures |Join(parts[..0])| == 0
  {
  }

  /** A string stands as its length and its bytes. */
  lemma StringStands(s: bytes, at: nat, text: bytes)
    requires |text| < 0x1_0000_0000 && Stands(s, at, Str(text))
    ensures Stands(s, at, U32(|text|)) && Stands(s, at + 4, text)
  {
    hide U32;
    var whole := s[at..at + |Str(text)|];
    assert whole[..4] == s[at..at + 4] && whole[4..] == s[at + 4..at + 4 + |text|];
  }

  /** The number at `at`, `width` bytes wide. */
  function NumberAt(s: bytes, at: nat, width: nat): (n: nat)
    requires at + width <= |s|
  {
    BigEndian(s[at..at + width])
  }

  lemma NumberStands(s: bytes, at: nat, n: nat)
    ensures n < 0x1_0000_0000 && Stands(s, at, U32(n)) ==> NumberAt(s, at, 4) == n
    ensures n < 0x1_0000_0000_0000_0000 && Stands(s, at, U64(n)) ==> NumberAt(s, at, 8) == n
  {
    hide U32, U64, BigEndian;
    NumbersRead(n);
  }

  lemma DomainNames()
    ensures AUTH_DOMAIN == Ascii("CUBICLE-AUTH-V0") + [0] && RESUME_DOMAIN == Ascii("CUBICLE-RESUME-V0") + [0]
  {
  }

  /** What is signed, byte for byte: every field at its own place, numbers most
      significant byte first. */
  lemma TranscriptLayout(t: Transcript)
    requires ValidTranscript(t)
    ensures var s := EncodeTranscript(t);
      && |s| == 204 + |t.workspace|
      && s[..16] == Ascii("CUBICLE-AUTH-V0") + [0]
      && NumberAt(s, 16, 4) == t.major && NumberAt(s, 20, 4) == t.minor
      && s[24..56] == t.managerKey && s[56..88] == t.clientKey
      && s[88..120] == t.clientNonce && s[120..152] == t.managerNonce
      && s[152..168] == t.connectionId
      && NumberAt(s, 168, 8) == t.capabilities && NumberAt(s, 176, 8) == t.generation
      && NumberAt(s, 184, 8) == t.uid && NumberAt(s, 192, 8) == t.gid
      && NumberAt(s, 200, 4) == |t.workspace| && s[204..] == t.workspace
  {
    hide U32, U64, Str, Join, NumberAt, Ascii;
    var s, f := EncodeTranscript(t), TranscriptFields(t);
    TranscriptSize(t);
    DomainNames();
    FirstStands(f);
    FieldStands(f, 0, 0);
    FieldStands(f, 1, 16);
    FieldStands(f, 2, 20);
    FieldStands(f, 3, 24);
    FieldStands(f, 4, 56);
    FieldStands(f, 5, 88);
    FieldStands(f, 6, 120);
    FieldStands(f, 7, 152);
    FieldStands(f, 8, 168);
    FieldStands(f, 9, 176);
    FieldStands(f, 10, 184);
    FieldStands(f, 11, 192);
    FieldStands(f, 12, 200);
    StringStands(s, 200, t.workspace);
    NumberStands(s, 16, t.major); NumberStands(s, 20, t.minor);
    NumberStands(s, 168, t.capabilities); NumberStands(s, 176, t.generation);
    NumberStands(s, 184, t.uid); NumberStands(s, 192, t.gid);
    NumberStands(s, 200, |t.workspace|);
  }

  /** The same of the resume message, whose first two fields tell their length. */
  lemma ResumeLayout(r: Resume)
    requires ValidResume(r)
    ensures var s := EncodeResume(r); var m, n := |r.managerKeyId|, |r.sessionId|;
      && |s| == 130 + m + n
      && s[..18] == Ascii("CUBICLE-RESUME-V0") + [0]
      && NumberAt(s, 18, 4) == m && s[22..22 + m] == r.managerKeyId
      && NumberAt(s, 22 + m, 4) == n && s[26 + m..26 + m + n] == r.sessionId
      && var at := 26 + m + n;
      && s[at..at + 32] == r.clientNonce && s[at + 32..at + 64] == r.serverNonce
      && s[at + 64..at + 80] == r.connectionId
      && NumberAt(s, at + 80, 8) == r.generation && NumberAt(s, at + 88, 8) == r.uid && NumberAt(s, at + 96, 8) == r.gid
  {
    hide U32, U64, Str, Join, NumberAt, Ascii;
    var s, f := EncodeResume(r), ResumeFields(r);
    var m, n := |r.managerKeyId|, |r.sessionId|;
    var at := 26 + m + n;
    ResumeSize(r);
    DomainNames();
    FirstStands(f);
    FieldStands(f, 0, 0);
    FieldStands(f, 1, 18);
    FieldStands(f, 2, 22 + m);
    FieldStands(f, 3, at);
    FieldStands(f, 4, at + 32);
    FieldStands(f, 5, at + 64);
    FieldStands(f, 6, at + 80);
    FieldStands(f, 7, at + 88);
    FieldStands(f, 8, at + 96);
    StringStands(s, 18, r.managerKeyId);
    StringStands(s, 22 + m, r.sessionId);
    NumberStands(s, 18, m); NumberStands(s, 22 + m, n);
    NumberStands(s, at + 80, r.generation); NumberStands(s, at + 88, r.uid); NumberStands(s, at + 96, r.gid);
  }

  // ---------------------------------------------------------------------------
  // Nothing is signed twice
  // ---------------------------------------------------------------------------

  /** Two fields whose lengths agree as soon as what is written in front does. */
  predicate Aligned(p: bytes, q: bytes) {
    |p| == |q| || (|p| >= 4 && |q| >= 4 && p[..4] != q[..4])
  }

  lemma {:induction false} JoinInjective(a: seq<bytes>, b: seq<bytes>)
    requires |a| == |b| && Join(a) == Join(b)
    requires forall i | 0 <= i < |a| :: Aligned(a[i], b[i])
    ensures a == b
  {
    if a != [] {
      var s := Join(a);
      assert s[..|a[0]|] == a[0] && s[..|b[0]|] == b[0];
      assert |a[0]| >= 4 && |b[0]| >= 4 ==> s[..4] == a[0][..4] && s[..4] == b[0][..4];
      assert s[|a[0]|..] == Join(a[1..]) && s[|b[0]|..] == Join(b[1..]);
      JoinInjective(a[1..], b[1..]);
      assert a == [a[0]] + a[1..] && b == [b[0]] + b[1..];
    }
  }

  lemma U32Injective(m: nat, n: nat)
    requires m < 0x1_0000_0000 && n < 0x1_0000_0000 && U32(m) == U32(n)
    ensures m == n
  {
    U32RoundTrip(m);
    U32RoundTrip(n);
  }

  lemma U64Injective(m: nat, n: nat)
    requires m < 0x1_0000_0000_0000_0000 && n < 0x1_0000_0000_0000_0000 && U64(m) == U64(n)
    ensures m == n
  {
    hide U32;
    assert U64(m)[..4] == U32(m / 0x1_0000_0000) && U64(n)[..4] == U32(n / 0x1_0000_0000);
    assert U64(m)[4..] == U32(m % 0x1_0000_0000) && U64(n)[4..] == U32(n % 0x1_0000_0000);
    U32Injective(m / 0x1_0000_0000, n / 0x1_0000_0000);
    U32Injective(m % 0x1_0000_0000, n % 0x1_0000_0000);
  }

  lemma StrAligned(s: bytes, t: bytes)
    requires |s| < 0x1_0000_0000 && |t| < 0x1_0000_0000
    ensures Aligned(Str(s), Str(t))
    ensures Str(s) == Str(t) ==> s == t
  {
    hide U32;
    assert Str(s)[..4] == U32(|s|) && Str(t)[..4] == U32(|t|);
    assert Str(s)[4..] == s && Str(t)[4..] == t;
    if U32(|s|) == U32(|t|) {
      U32Injective(|s|, |t|);
    }
  }

  /** Equal transcript encodings come from equal transcripts. */
  lemma TranscriptInjective(t: Transcript, u: Transcript)
    requires ValidTranscript(t) && ValidTranscript(u) && EncodeTranscript(t) == EncodeTranscript(u)
    ensures t == u
  {
    hide U32, U64, Str, Join;
    var f, g := TranscriptFields(t), TranscriptFields(u);
    StrAligned(t.workspace, u.workspace);
    JoinInjective(f, g);
    assert f[1] == g[1] && f[2] == g[2] && f[3] == g[3] && f[4] == g[4] && f[5] == g[5] && f[6] == g[6];
    assert f[7] == g[7] && f[8] == g[8] && f[9] == g[9] && f[10] == g[10] && f[11] == g[11] && f[12] == g[12];
    U32Injective(t.major, u.major);
    U32Injective(t.minor, u.minor);
    U64Injective(t.capabilities, u.capabilities);
    U64Injective(t.generation, u.generation);
    U64Injective(t.uid, u.uid);
    U64Injective(t.gid, u.gid);
  }

  /** Equal resume encodings come from equal requests. */
  lemma ResumeInjective(r: Resume, q: Resume)
    requires ValidResume(r) && ValidResume(q) && EncodeResume(r) == EncodeResume(q)
    ensures r == q
  {
    hide U32, U64, Str, Join;
    var f, g := ResumeFields(r), ResumeFields(q);
    StrAligned(r.managerKeyId, q.managerKeyId);
    StrAligned(r.sessionId, q.sessionId);
    JoinInjective(f, g);
    assert f[1] == g[1] && f[2] == g[2] && f[3] == g[3] && f[4] == g[4] && f[5] == g[5];
    assert f[6] == g[6] && f[7] == g[7] && f[8] == g[8];
    U64Injective(r.generation, q.generation);
    U64Injective(r.uid, q.uid);
    U64Injective(r.gid, q.gid);
  }

  /** A transcript signature can never pass for a resume authenticator's message. */
  lemma DomainsDisjoint(t: Transcript, r: Resume)
    requires ValidTranscript(t) && ValidResume(r)
    ensures EncodeTranscript(t) != EncodeResume(r)
  {
    assert EncodeTranscript(t)[8] == AUTH_DOMAIN[8];
    assert EncodeResume(r)[8] == RESUME_DOMAIN[8];
  }
}
