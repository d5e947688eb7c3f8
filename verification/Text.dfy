/** Text as bytes: literals, decimal numbers, and the scanning that sscanf does. */
module Text {
  import opened Bytes

  /** The bytes of a literal. */
  function Ascii(s: string): (text: bytes) {
    seq(|s|, i requires 0 <= i < |s| => s[i] as int % 256)
  }

  predicate IsDigit(b: byte) {
    0x30 <= b <= 0x39
  }

  /** isspace in the C locale. */
  predicate IsSpace(b: byte) {
    b == 0x20 || 0x09 <= b <= 0x0D
  }

  predicate AllDigits(s: bytes) {
    forall i | 0 <= i < |s| :: IsDigit(s[i])
  }

  /** printf's %llu */
  function Decimal(n: nat): (text: bytes) {
    if n < 10 then [0x30 + n] else Decimal(n / 10) + [0x30 + n % 10]
  }

  function DigitsValue(s: bytes): (n: nat)
    requires AllDigits(s)
  {
    if s == [] then 0 else 10 * DigitsValue(s[..|s| - 1]) + (s[|s| - 1] - 0x30)
  }

  /** How many of the bytes from `i` on satisfy a class. */
  function Spaces(s: bytes): (n: nat)
    ensures n <= |s|
  {
    if s == [] || !IsSpace(s[0]) then 0 else 1 + Spaces(s[1..])
  }

  function Digits(s: bytes): (n: nat)
    ensures n <= |s| && AllDigits(s[..n])
  {
    if s == [] || !IsDigit(s[0]) then 0
    else
      var n := 1 + Digits(s[1..]);
      assert s[..n] == [s[0]] + s[1..][..n - 1];
      n
  }

  function Graphs(s: bytes): (n: nat)
    ensures n <= |s|
  {
    if s == [] || IsSpace(s[0]) then 0 else 1 + Graphs(s[1..])
  }

  const INT64_MAX: int := 0x7FFF_FFFF_FFFF_FFFF

  datatype Scan<+T> = NoMatch | Match(value: T, rest: bytes)

  /** sscanf's %lld: blanks, a sign, digits; out-of-range values are clamped. */
  function ScanInt(s: bytes): (r: Scan<int>) {
    var t := s[Spaces(s)..];
    var negative := t != [] && t[0] == 0x2D;
    var u := if t != [] && (t[0] == 0x2D || t[0] == 0x2B) then t[1..] else t;
    var n := Digits(u);
    if n == 0 then NoMatch
    else
      var v: int := DigitsValue(u[..n]);
      Match(if negative then (if v > INT64_MAX + 1 then -INT64_MAX - 1 else -v)
            else if v > INT64_MAX then INT64_MAX else v, u[n..])
  }

  /** sscanf's %Ns: blanks, then one to `width` other bytes. */
  function ScanWord(s: bytes, width: nat): (r: Scan<bytes>)
    requires width > 0
  {
    var t := s[Spaces(s)..];
    var n := if Graphs(t) < width then Graphs(t) else width;
    if n == 0 then NoMatch else Match(t[..n], t[n..])
  }

  lemma {:induction false} DecimalDigits(n: nat)
    ensures Decimal(n) != [] && AllDigits(Decimal(n)) && DigitsValue(Decimal(n)) == n
  {
    if n >= 10 {
      DecimalDigits(n / 10);
      assert Decimal(n)[..|Decimal(n)| - 1] == Decimal(n / 10);
    }
  }

  lemma DecimalInjective(m: nat, n: nat)
    requires Decimal(m) == Decimal(n)
    ensures m == n
  {
    DecimalDigits(m);
    DecimalDigits(n);
  }

  lemma {:induction false} DigitsPrefix(s: bytes, rest: bytes)
    requires AllDigits(s) && (rest == [] || !IsDigit(rest[0]))
    ensures Digits(s + rest) == |s|
  {
    if s == [] {
      assert s + rest == rest;
    } else {
      assert (s + rest)[1..] == s[1..] + rest;
      DigitsPrefix(s[1..], rest);
    }
  }

  lemma {:induction false} GraphsPrefix(s: bytes, rest: bytes)
    requires (forall i | 0 <= i < |s| :: !IsSpace(s[i])) && (rest == [] || IsSpace(rest[0]))
    ensures Graphs(s + rest) == |s|
  {
    if s == [] {
      assert s + rest == rest;
    } else {
      assert (s + rest)[1..] == s[1..] + rest;
      GraphsPrefix(s[1..], rest);
    }
  }

  /** Printing then scanning a number, with anything but a digit behind it. */
  lemma ScanDecimal(n: nat, rest: bytes)
    requires rest == [] || !IsDigit(rest[0])
    ensures ScanInt(Decimal(n) + rest) == Match(if n > INT64_MAX then INT64_MAX else n, rest)
  {
    var s := Decimal(n) + rest;
    DecimalDigits(n);
    assert IsDigit(s[0]) && s[0] == Decimal(n)[0];
    assert Spaces(s) == 0 && s[0..] == s;
    DigitsPrefix(Decimal(n), rest);
    assert s[..|Decimal(n)|] == Decimal(n) && s[|Decimal(n)|..] == rest;
  }

  /** What a sign and a number clamp to. */
  function Clamped(minus: bool, n: nat): (v: int) {
    var m: int := n;
    if minus then (if m >= 0x8000_0000_0000_0000 then -0x8000_0000_0000_0000 else -m)
    else if m >= 0x8000_0000_0000_0000 then 0x7FFF_FFFF_FFFF_FFFF else m
  }

  /** The same with a sign and blanks in front. */
  lemma ScanSigned(blanks: bytes, minus: bool, n: nat, rest: bytes)
    requires (forall i | 0 <= i < |blanks| :: IsSpace(blanks[i])) && (rest == [] || !IsDigit(rest[0]))
    ensures ScanInt(blanks + ([if minus then 0x2D else 0x2B] + (Decimal(n) + rest))) == Match(Clamped(minus, n), rest)
  {
    hide Decimal, Digits, Spaces, DigitsValue;
    var sign: byte := if minus then 0x2D else 0x2B;
    var u := Decimal(n) + rest;
    SpacesPrefix(blanks, [sign] + u);
    assert (blanks + ([sign] + u))[|blanks|..] == [sign] + u;
    assert ([sign] + u)[1..] == u;
    DecimalDigits(n);
    DigitsPrefix(Decimal(n), rest);
    assert u[..|Decimal(n)|] == Decimal(n) && u[|Decimal(n)|..] == rest;
  }

  lemma {:induction false} SpacesPrefix(s: bytes, rest: bytes)
    requires (forall i | 0 <= i < |s| :: IsSpace(s[i])) && (rest == [] || !IsSpace(rest[0]))
    ensures Spaces(s + rest) == |s|
  {
    if s == [] {
      assert s + rest == rest;
    } else {
      assert (s + rest)[1..] == s[1..] + rest;
      SpacesPrefix(s[1..], rest);
    }
  }

  function PowerOfTen(k: nat): (n: nat)
    ensures n > 0
  {
    if k == 0 then 1 else 10 * PowerOfTen(k - 1)
  }

  lemma {:induction false} DecimalLength(n: nat, k: nat)
    requires k > 0 && n < PowerOfTen(k)
    ensures |Decimal(n)| <= k
  {
    if n >= 10 {
      DecimalLength(n / 10, k - 1);
    }
  }

  /** A 64-bit number has at most twenty digits. */
  lemma Decimal64(n: nat)
    requires n < 0x1_0000_0000_0000_0000
    ensures |Decimal(n)| <= 20
  {
    assert PowerOfTen(5) == 100000;
    assert PowerOfTen(10) == 10_000_000_000;
    assert PowerOfTen(15) == 1_000_000_000_000_000;
    assert PowerOfTen(20) == 100_000_000_000_000_000_000;
    DecimalLength(n, 20);
  }

  /** Where the first newline is; the length if there is none. */
  function NewlineAt(s: bytes): (n: nat)
    ensures n <= |s| && (n < |s| ==> s[n] == 0x0A)
  {
    if s == [] || s[0] == 0x0A then 0 else 1 + NewlineAt(s[1..])
  }

  lemma {:induction false} NewlineAfter(s: bytes, rest: bytes)
    requires 0x0A !in s
    ensures NewlineAt(s + rest) == |s| + NewlineAt(rest)
  {
    if s == [] {
      assert s + rest == rest;
    } else {
      assert (s + rest)[1..] == s[1..] + rest && (s + rest)[0] == s[0];
      NewlineAfter(s[1..], rest);
    }
  }

  lemma NoNewline(s: bytes)
    requires 0x0A !in s
    ensures NewlineAt(s) == |s|
  {
    NewlineAfter(s, []);
    assert s + [] == s;
  }

  lemma NewlineHere(s: bytes)
    requires s != [] && s[0] == 0x0A
    ensures NewlineAt(s) == 0
  {
  }
}
