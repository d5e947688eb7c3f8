/**
  The JSON string a byte array is written as (src/common/rpc.c,
  cubicle_json_builder_append_string_n), and a reader for JSON strings after
  section 7 of RFC 8259 to say what that string means.
 */
module JsonString {
  import opened Wrappers
  import opened Bytes
  import opened Utf8

  // ---------------------------------------------------------------------------
  // Writing
  // ---------------------------------------------------------------------------

  /** One lower-case digit of printf's %x. */
  function HexDigit(n: nat): (d: byte)
    requires n < 16
  {
    if n < 10 then 0x30 + n else 0x61 + n - 10
  }

  /** "\u%04x" */
  function UnicodeEscape(b: byte): (text: bytes) {
    [0x5C, 0x75, 0x30, 0x30, HexDigit(b / 16), HexDigit(b % 16)]
  }

  function EncodeByte(b: byte): (text: bytes) {
    match b
    case 0x22 => [0x5C, 0x22]
    case 0x5C => [0x5C, 0x5C]
    case 0x08 => [0x5C, 0x62]
    case 0x0C => [0x5C, 0x66]
    case 0x0A => [0x5C, 0x6E]
    case 0x0D => [0x5C, 0x72]
    case 0x09 => [0x5C, 0x74]
    case _ => if b < 0x20 || b >= 0x80 then UnicodeEscape(b) else [b]
  }

  function EncodeUnit(u: bytes): (text: bytes) {
    if |u| == 1 then EncodeByte(u[0]) else u
  }

  /** What a unit means: itself if it is a sequence, U+00b if it is a stray byte b. */
  function TextUnit(u: bytes): (text: bytes) {
    if |u| == 1 then EncodeCodePoint(u[0]) else u
  }

  function EncodeUnits(us: seq<bytes>): (whole: bytes) {
    if us == [] then [] else EncodeUnit(us[0]) + EncodeUnits(us[1..])
  }

  lemma {:induction false} EncodeUnitsConcat(left: seq<bytes>, right: seq<bytes>)
    ensures EncodeUnits(left + right) == EncodeUnits(left) + EncodeUnits(right)
  {
    if left == [] {
      assert left + right == right;
    } else {
      assert (left + right)[1..] == left[1..] + right;
      EncodeUnitsConcat(left[1..], right);
    }
  }

  function TextUnits(us: seq<bytes>): (whole: bytes) {
    if us == [] then [] else TextUnit(us[0]) + TextUnits(us[1..])
  }

  lemma {:induction false} TextUnitsConcat(left: seq<bytes>, right: seq<bytes>)
    ensures TextUnits(left + right) == TextUnits(left) + TextUnits(right)
  {
    if left == [] {
      assert left + right == right;
    } else {
      assert (left + right)[1..] == left[1..] + right;
      TextUnitsConcat(left[1..], right);
    }
  }

  /** The characters between the quotes. */
  function Escaped(s: bytes): (text: bytes) {
    EncodeUnits(Units(s))
  }

  /** The text a reader of the JSON string gets. */
  function Text(s: bytes): (text: bytes) {
    TextUnits(Units(s))
  }

  /** A writer that has written `done` stands at `i`. */
  ghost predicate WrittenUpTo(s: bytes, i: nat, done: bytes) {
    i <= |s| && Escaped(s) == done + Escaped(s[i..])
  }

  lemma WriteUnit(s: bytes, i: nat, done: bytes, step: nat, chunk: bytes)
    requires i < |s| && WrittenUpTo(s, i, done)
    requires step == UnitLength(s[i..]) && chunk == EncodeUnit(s[i..i + step])
    ensures WrittenUpTo(s, i + step, done + chunk)
  {
    UnitsHead(s[i..]);
    assert s[i..][..step] == s[i..i + step] && s[i..][step..] == s[i + step..];
  }

  lemma WrittenAll(s: bytes, done: bytes)
    requires WrittenUpTo(s, |s|, done)
    ensures done == Escaped(s)
  {
    assert s[|s|..] == [];
  }

  function Quoted(s: bytes): (text: bytes) {
    [0x22] + Escaped(s) + [0x22]
  }

  // ---------------------------------------------------------------------------
  // Reading (section 7 of RFC 8259; surrogate escapes are not accepted)
  // ---------------------------------------------------------------------------

  function HexValue(d: byte): (n: Option<nat>) {
    if 0x30 <= d <= 0x39 then Some(d - 0x30)
    else if 0x61 <= d <= 0x66 then Some(d - 0x61 + 10)
    else if 0x41 <= d <= 0x46 then Some(d - 0x41 + 10)
    else None
  }

  function HexValue4(t: bytes): (n: Option<nat>)
    requires |t| == 4
    ensures n.Some? ==> n.value < 0x10000
  {
    var a, b, c, d := HexValue(t[0]), HexValue(t[1]), HexValue(t[2]), HexValue(t[3]);
    if a.Some? && b.Some? && c.Some? && d.Some?
    then Some(4096 * a.value + 256 * b.value + 16 * c.value + d.value) else None
  }

  function ShortEscape(c: byte): (b: Option<byte>) {
    match c
    case 0x22 => Some(0x22)
    case 0x5C => Some(0x5C)
    case 0x2F => Some(0x2F)
    case 0x62 => Some(0x08)
    case 0x66 => Some(0x0C)
    case 0x6E => Some(0x0A)
    case 0x72 => Some(0x0D)
    case 0x74 => Some(0x09)
    case _ => None
  }

  /** One character of the string body: its text and its length, or None. */
  function ReadChar(t: bytes): (r: Option<(bytes, nat)>)
    requires t != []
    ensures r.Some? ==> 1 <= r.value.1 <= |t|
  {
    if t[0] == 0x5C then
      if |t| < 2 then None
      else if t[1] == 0x75 then
        if |t| < 6 then None
        else
          var c := HexValue4(t[2..6]);
          if c.None? || 0xD800 <= c.value <= 0xDFFF then None
          else Some((EncodeCodePoint(c.value), 6))
      else
        var b := ShortEscape(t[1]);
        if b.None? then None else Some(([b.value], 2))
    else if t[0] < 0x20 || t[0] == 0x22 || !StartsSequence(t) then None
    else Some((t[..LeadLength(t[0])], LeadLength(t[0])))
  }

  /** The rest of a string after its opening quote. */
  function ReadBody(t: bytes): (r: Option<bytes>)
  {
    if t == [] then None
    else if t[0] == 0x22 then if |t| == 1 then Some([]) else None
    else
      var c := ReadChar(t);
      if c.None? then None
      else
        var rest := ReadBody(t[c.value.1..]);
        if rest.None? then None else Some(c.value.0 + rest.value)
  }

  function ReadString(t: bytes): (r: Option<bytes>) {
    if t == [] || t[0] != 0x22 then None else ReadBody(t[1..])
  }

  // ---------------------------------------------------------------------------
  // Round trip
  // ---------------------------------------------------------------------------

  lemma HexRoundTrip(b: byte)
    ensures HexValue4([0x30, 0x30, HexDigit(b / 16), HexDigit(b % 16)]) == Some(b)
  {
  }

  /** A reader sees one written unit as one character, whatever follows it. */
  lemma ReadEncodedByte(b: byte, rest: bytes)
    ensures EncodeByte(b) != [] && EncodeByte(b)[0] != 0x22
    ensures ReadChar(EncodeByte(b) + rest) == Some((EncodeCodePoint(b), |EncodeByte(b)|))
  {
    var t := EncodeByte(b) + rest;
    if EncodeByte(b) == UnicodeEscape(b) {
      HexRoundTrip(b);
      assert t[2..6] == [0x30, 0x30, HexDigit(b / 16), HexDigit(b % 16)];
    } else if EncodeByte(b) == [b] {
      assert t[..1] == [b];
    }
  }

  /** No text for an ASCII character is shorter than the one written. */
  lemma ShortestWritten(b: byte, t: bytes)
    requires b < 0x80 && t != [] && ReadChar(t) == Some(([b], |t|))
    ensures |EncodeByte(b)| <= |t|
  {
    hide HexValue4;
    assert t[0] != 0x5C ==> t == [b];
  }

  lemma ReadEncodedUnit(u: bytes, rest: bytes)
    requires Unit(u)
    ensures EncodeUnit(u) != [] && EncodeUnit(u)[0] != 0x22
    ensures ReadChar(EncodeUnit(u) + rest) == Some((TextUnit(u), |EncodeUnit(u)|))
  {
    if |u| == 1 {
      ReadEncodedByte(u[0], rest);
    } else {
      var t := u + rest;
      assert t[..|u|] == u;
    }
  }

  lemma {:induction false} ReadEncodedUnits(us: seq<bytes>)
    requires forall i | 0 <= i < |us| :: Unit(us[i])
    ensures ReadBody(EncodeUnits(us) + [0x22]) == Some(TextUnits(us))
  {
    if us != [] {
      var code := EncodeUnit(us[0]);
      var rest := EncodeUnits(us[1..]) + [0x22];
      ReadEncodedUnit(us[0], rest);
      ReadEncodedUnits(us[1..]);
      assert EncodeUnits(us) + [0x22] == code + rest;
      assert (code + rest)[0] == code[0] && (code + rest)[|code|..] == rest;
    }
  }

  /** Every byte array is written as a JSON string, and reads back as its text. */
  lemma RoundTrip(s: bytes)
    ensures ReadString(Quoted(s)) == Some(Text(s))
  {
    hide Units, EncodeUnits, TextUnits, ReadBody;
    UnitsPartition(s);
    ReadEncodedUnits(Units(s));
    assert Quoted(s)[1..] == Escaped(s) + [0x22];
  }

  // ---------------------------------------------------------------------------
  // The text is the bytes exactly when they are UTF-8
  // ---------------------------------------------------------------------------

  function Stray(u: bytes): (n: nat) {
    if |u| == 1 && u[0] >= 0x80 then 1 else 0
  }

  function Strays(us: seq<bytes>): (n: nat) {
    if us == [] then 0 else Stray(us[0]) + Strays(us[1..])
  }

  lemma UnitTextLength(u: bytes)
    requires Unit(u)
    ensures |TextUnit(u)| == |u| + Stray(u) && Stray(u) <= |u|
    ensures Stray(u) == 0 ==> TextUnit(u) == u
  {
  }

  /** Each stray byte costs one byte more; nothing else changes the length. */
  lemma {:induction false} TextLength(us: seq<bytes>)
    requires forall i | 0 <= i < |us| :: Unit(us[i])
    ensures |TextUnits(us)| == |Join(us)| + Strays(us)
    ensures Strays(us) <= |Join(us)|
    ensures Strays(us) == 0 ==> TextUnits(us) == Join(us)
  {
    if us != [] {
      UnitTextLength(us[0]);
      TextLength(us[1..]);
    }
  }

  lemma {:induction false} NoStrays(s: bytes)
    ensures WellFormed(s) <==> Strays(Units(s)) == 0
  {
    if s != [] {
      var u := UnitLength(s);
      UnitsHead(s);
      NoStrays(s[u..]);
      assert StartsSequence(s) ==> Sequence(s[..u]);
      assert s[0] < 0x80 ==> StartsSequence(s);
    }
  }

  /** Decoding is the identity exactly on well-formed UTF-8. */
  lemma IdentityOnUtf8(s: bytes)
    ensures Text(s) == s <==> WellFormed(s)
    ensures |Text(s)| == |s| <==> WellFormed(s)
    ensures |s| <= |Text(s)| <= 2 * |s|
  {
    UnitsPartition(s);
    TextLength(Units(s));
    NoStrays(s);
  }

  // ---------------------------------------------------------------------------
  // Both the string and its text are UTF-8
  // ---------------------------------------------------------------------------

  lemma {:induction false} WellFormedConcat(s: bytes, t: bytes)
    requires WellFormed(s) && WellFormed(t)
    ensures WellFormed(s + t)
  {
    if s == [] {
      assert s + t == t;
    } else {
      var n := LeadLength(s[0]);
      assert (s + t)[..n] == s[..n] && (s + t)[n..] == s[n..] + t;
      WellFormedConcat(s[n..], t);
    }
  }

  lemma SequenceIsWellFormed(s: bytes)
    requires Sequence(s)
    ensures WellFormed(s)
  {
    assert s[..|s|] == s && s[|s|..] == [];
  }

  lemma {:induction false} AsciiIsWellFormed(s: bytes)
    requires forall i | 0 <= i < |s| :: s[i] < 0x80
    ensures WellFormed(s)
  {
    if s != [] {
      AsciiIsWellFormed(s[1..]);
    }
  }

  lemma UnitIsWellFormed(u: bytes)
    requires Unit(u)
    ensures WellFormed(EncodeUnit(u)) && WellFormed(TextUnit(u))
  {
    if |u| == 1 {
      AsciiIsWellFormed(EncodeUnit(u));
      SequenceIsWellFormed(TextUnit(u));
    } else {
      SequenceIsWellFormed(u);
    }
  }

  lemma {:induction false} UnitsAreWellFormed(us: seq<bytes>)
    requires forall i | 0 <= i < |us| :: Unit(us[i])
    ensures WellFormed(EncodeUnits(us)) && WellFormed(TextUnits(us))
  {
    if us != [] {
      UnitIsWellFormed(us[0]);
      UnitsAreWellFormed(us[1..]);
      WellFormedConcat(EncodeUnit(us[0]), EncodeUnits(us[1..]));
      WellFormedConcat(TextUnit(us[0]), TextUnits(us[1..]));
    }
  }

  lemma OutputIsUtf8(s: bytes)
    ensures WellFormed(Quoted(s)) && WellFormed(Text(s))
  {
    UnitsPartition(s);
    UnitsAreWellFormed(Units(s));
    AsciiIsWellFormed([0x22]);
    WellFormedConcat([0x22], Escaped(s));
    WellFormedConcat([0x22] + Escaped(s), [0x22]);
  }

  // ---------------------------------------------------------------------------
  // Cutting the bytes and cutting the string
  // ---------------------------------------------------------------------------

  /** The string and the text split where the segmentation does. */
  lemma SplitAtBoundary(s: bytes, k: nat)
    requires k <= |s| && Boundary(s, k)
    ensures Escaped(s) == Escaped(s[..k]) + Escaped(s[k..])
    ensures Text(s) == Text(s[..k]) + Text(s[k..])
  {
    UnitsSplit(s, k);
    EncodeUnitsConcat(Units(s[..k]), Units(s[k..]));
    TextUnitsConcat(Units(s[..k]), Units(s[k..]));
  }
}
