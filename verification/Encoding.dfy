/** UTF-8, and base64 with padding (section 4 of RFC 4648) as the strict decoder reads it. */
module Encoding {
  import opened Finite

  type Byte = b: nat | b < 256

  // ----- UTF-8 -----

  /** Base-64 digits: everything above the last one, and the last one. */
  function Upper(n: nat): nat { n / 64 }
  function Lower(n: nat): nat { n % 64 }
  function Join(upper: nat, lower: nat): nat { upper * 64 + lower }

  lemma Digits(n: nat)
    ensures Join(Upper(n), Lower(n)) == n && Lower(n) < 64
  {
  }

  lemma Joined(upper: nat, lower: nat)
    requires lower < 64
    ensures Upper(Join(upper, lower)) == upper && Lower(Join(upper, lower)) == lower
  {
  }

  function TwoBytes(n: nat): seq<Byte>
    requires n < 0x800
  {
    [0xC0 + Upper(n), 0x80 + Lower(n)]
  }

  function ThreeBytes(n: nat): seq<Byte>
    requires n < 0x1_0000
  {
    [0xE0 + Upper(Upper(n)), 0x80 + Lower(Upper(n)), 0x80 + Lower(n)]
  }

  function FourBytes(n: nat): seq<Byte>
    requires n < 0x11_0000
  {
    [0xF0 + Upper(Upper(Upper(n))), 0x80 + Lower(Upper(Upper(n))), 0x80 + Lower(Upper(n)), 0x80 + Lower(n)]
  }

  function EncodeChar(c: char): (bytes: seq<Byte>)
    ensures bytes != []
  {
    var n := c as int;
    if n < 0x80 then [n] else if n < 0x800 then TwoBytes(n) else if n < 0x1_0000 then ThreeBytes(n) else FourBytes(n)
  }

  /** The layout of section 3 of RFC 3629: the range of each byte, and the bits it carries. */
  lemma Utf8Layout(c: char)
    ensures var n, b: seq<int> := c as int, EncodeChar(c);
            && (n < 0x80 ==> b == [n])
            && (0x80 <= n < 0x800 ==>
                  && |b| == 2 && 0xC2 <= b[0] < 0xE0 && 0x80 <= b[1] < 0xC0
                  && n == (b[0] - 0xC0) * 64 + (b[1] - 0x80))
            && (0x800 <= n < 0x1_0000 ==>
                  && |b| == 3 && 0xE0 <= b[0] < 0xF0 && 0x80 <= b[1] < 0xC0 && 0x80 <= b[2] < 0xC0
                  && n == (b[0] - 0xE0) * 4096 + (b[1] - 0x80) * 64 + (b[2] - 0x80))
            && (0x1_0000 <= n ==>
                  && |b| == 4 && 0xF0 <= b[0] < 0xF5 && 0x80 <= b[1] < 0xC0 && 0x80 <= b[2] < 0xC0
                  && 0x80 <= b[3] < 0xC0
                  && n == (b[0] - 0xF0) * 262144 + (b[1] - 0x80) * 4096 + (b[2] - 0x80) * 64 + (b[3] - 0x80))
  {
    var n := c as int;
    Digits(n);
    Digits(Upper(n));
    Digits(Upper(Upper(n)));
  }

  function EncodeUtf8(s: string): seq<Byte> {
    if s == [] then [] else EncodeChar(s[0]) + EncodeUtf8(s[1..])
  }

  predicate IsScalar(n: int) { 0 <= n < 0xD800 || 0xE000 <= n < 0x11_0000 }

  predicate Continues(b: Byte) { 0x80 <= b < 0xC0 }

  datatype Scalar = Scalar(value: char, size: nat)

  function ScalarIf(ok: bool, n: int, size: nat): Option<Scalar> {
    if ok && IsScalar(n) then Some(Scalar(n as char, size)) else None
  }

  /** The first well-formed character: shortest form, no surrogate, nothing above U+10FFFF. */
  function DecodeChar(b: seq<Byte>): Option<Scalar> {
    if b == [] then None
    else if b[0] < 0x80 then ScalarIf(true, b[0], 1)
    else if 0xC0 <= b[0] < 0xE0 && |b| >= 2 && Continues(b[1]) then
      var n := Join(b[0] - 0xC0, b[1] - 0x80);
      ScalarIf(n >= 0x80, n, 2)
    else if 0xE0 <= b[0] < 0xF0 && |b| >= 3 && Continues(b[1]) && Continues(b[2]) then
      var n := Join(Join(b[0] - 0xE0, b[1] - 0x80), b[2] - 0x80);
      ScalarIf(n >= 0x800, n, 3)
    else if 0xF0 <= b[0] && |b| >= 4 && Continues(b[1]) && Continues(b[2]) && Continues(b[3]) then
      var n := Join(Join(Join(b[0] - 0xF0, b[1] - 0x80), b[2] - 0x80), b[3] - 0x80);
      ScalarIf(n >= 0x1_0000, n, 4)
    else None
  }

  function DecodeUtf8(b: seq<Byte>): Option<string>
    decreases |b|
  {
    if b == [] then Some([])
    else
      var first := DecodeChar(b);
      if first.None? || first.value.size == 0 || first.value.size > |b| then None
      else
        var rest := DecodeUtf8(b[first.value.size..]);
        if rest.None? then None else Some([first.value.value] + rest.value)
  }

  lemma DecodeTwo(u: nat, l: nat, rest: seq<Byte>)
    requires 2 <= u < 32 && l < 64
    ensures DecodeChar([0xC0 + u, 0x80 + l] + rest) == ScalarIf(true, Join(u, l), 2)
  {
    var b := [0xC0 + u, 0x80 + l] + rest;
    assert b[0] == 0xC0 + u && b[1] == 0x80 + l;
  }

  lemma DecodeThree(u: nat, m: nat, l: nat, rest: seq<Byte>)
    requires u < 16 && m < 64 && l < 64 && Join(Join(u, m), l) >= 0x800
    ensures DecodeChar([0xE0 + u, 0x80 + m, 0x80 + l] + rest) == ScalarIf(true, Join(Join(u, m), l), 3)
  {
    var b := [0xE0 + u, 0x80 + m, 0x80 + l] + rest;
    assert b[0] == 0xE0 + u && b[1] == 0x80 + m && b[2] == 0x80 + l;
  }

  lemma DecodeFour(u: nat, k: nat, m: nat, l: nat, rest: seq<Byte>)
    requires u < 8 && k < 64 && m < 64 && l < 64 && Join(Join(Join(u, k), m), l) >= 0x1_0000
    ensures DecodeChar([0xF0 + u, 0x80 + k, 0x80 + m, 0x80 + l] + rest)
      == ScalarIf(true, Join(Join(Join(u, k), m), l), 4)
  {
    var b := [0xF0 + u, 0x80 + k, 0x80 + m, 0x80 + l] + rest;
    assert b[0] == 0xF0 + u && b[1] == 0x80 + k && b[2] == 0x80 + m && b[3] == 0x80 + l;
  }

  /** The sizes of the leading digits in each range of code points. */
  lemma LeadingDigits(n: nat)
    ensures 0x80 <= n < 0x800 ==> 2 <= Upper(n) < 32
    ensures 0x800 <= n < 0x1_0000 ==> Upper(Upper(n)) < 16
    ensures 0x1_0000 <= n < 0x11_0000 ==> Upper(Upper(Upper(n))) < 8
  {
    assert n < 0x11_0000 ==> Upper(n) < 0x4400;
    assert n < 0x11_0000 ==> Upper(Upper(n)) < 0x110;
    assert n < 0x1_0000 ==> Upper(n) < 0x400;
  }

  lemma ThreeByteRoundTrip(n: nat, rest: seq<Byte>)
    requires 0x800 <= n < 0x1_0000
    ensures DecodeChar(ThreeBytes(n) + rest) == ScalarIf(true, n, 3)
  {
    LeadingDigits(n);
    Digits(n);
    Digits(Upper(n));
    DecodeThree(Upper(Upper(n)), Lower(Upper(n)), Lower(n), rest);
  }

  lemma FourByteRoundTrip(n: nat, rest: seq<Byte>)
    requires 0x1_0000 <= n < 0x11_0000
    ensures DecodeChar(FourBytes(n) + rest) == ScalarIf(true, n, 4)
  {
    LeadingDigits(n);
    Digits(n);
    Digits(Upper(n));
    Digits(Upper(Upper(n)));
    DecodeFour(Upper(Upper(Upper(n))), Lower(Upper(Upper(n))), Lower(Upper(n)), Lower(n), rest);
  }

  lemma CharRoundTrip(c: char, rest: seq<Byte>)
    ensures DecodeChar(EncodeChar(c) + rest) == Some(Scalar(c, |EncodeChar(c)|))
  {
    var n := c as int;
    if n < 0x80 {
      assert ([n] + rest)[0] == n;
    } else if n < 0x800 {
      LeadingDigits(n);
      Digits(n);
      DecodeTwo(Upper(n), Lower(n), rest);
    } else if n < 0x1_0000 {
      ThreeByteRoundTrip(n, rest);
    } else {
      FourByteRoundTrip(n, rest);
    }
  }

  lemma EncodeTwo(u: nat, l: nat)
    requires u < 32 && l < 64 && Join(u, l) >= 0x80
    ensures EncodeChar(Join(u, l) as char) == [0xC0 + u, 0x80 + l]
  {
    Joined(u, l);
  }

  lemma ThreeDigits(u: nat, m: nat, l: nat, k: nat, n: nat)
    requires m < 64 && l < 64 && k == Join(u, m) && n == Join(k, l)
    ensures Upper(n) == k && Lower(n) == l && Upper(k) == u && Lower(k) == m
  {
    Joined(u, m);
    Joined(k, l);
  }

  lemma ThreeBytesOf(u: nat, m: nat, l: nat, k: nat, n: nat)
    requires u < 16 && m < 64 && l < 64 && n < 0x1_0000
    requires Upper(n) == k && Lower(n) == l && Upper(k) == u && Lower(k) == m
    ensures ThreeBytes(n) == [0xE0 + u, 0x80 + m, 0x80 + l]
  {
  }

  lemma EncodesInThree(n: nat)
    requires 0x800 <= n < 0x1_0000 && IsScalar(n)
    ensures EncodeChar(n as char) == ThreeBytes(n)
  {
  }

  lemma EncodeThree(u: nat, m: nat, l: nat)
    requires u < 16 && m < 64 && l < 64 && Join(Join(u, m), l) >= 0x800 && IsScalar(Join(Join(u, m), l))
    ensures EncodeChar(Join(Join(u, m), l) as char) == [0xE0 + u, 0x80 + m, 0x80 + l]
  {
    var k := Join(u, m);
    var n := Join(k, l);
    EncodesInThree(n);
    ThreeDigits(u, m, l, k, n);
    ThreeBytesOf(u, m, l, k, n);
  }

  lemma EncodeFour(u: nat, k: nat, m: nat, l: nat)
    requires k < 64 && m < 64 && l < 64
    requires Join(Join(Join(u, k), m), l) >= 0x1_0000 && IsScalar(Join(Join(Join(u, k), m), l))
    ensures EncodeChar(Join(Join(Join(u, k), m), l) as char) == [0xF0 + u, 0x80 + k, 0x80 + m, 0x80 + l]
  {
    Joined(u, k);
    Joined(Join(u, k), m);
    Joined(Join(Join(u, k), m), l);
  }

  lemma CharCanonical(b: seq<Byte>)
    requires DecodeChar(b).Some?
    ensures var first := DecodeChar(b).value;
            0 < first.size <= |b| && b[..first.size] == EncodeChar(first.value)
  {
    if 0xC0 <= b[0] < 0xE0 {
      EncodeTwo(b[0] - 0xC0, b[1] - 0x80);
    } else if 0xE0 <= b[0] < 0xF0 {
      EncodeThree(b[0] - 0xE0, b[1] - 0x80, b[2] - 0x80);
    } else if 0xF0 <= b[0] {
      EncodeFour(b[0] - 0xF0, b[1] - 0x80, b[2] - 0x80, b[3] - 0x80);
    }
  }

  lemma DecodeHead(c: char, rest: seq<Byte>)
    ensures var tail := DecodeUtf8(rest);
            DecodeUtf8(EncodeChar(c) + rest) == if tail.None? then None else Some([c] + tail.value)
  {
    var head := EncodeChar(c);
    CharRoundTrip(c, rest);
    assert (head + rest)[|head|..] == rest && head + rest != [];
  }

  lemma {:induction false} Utf8RoundTrip(s: string)
    ensures DecodeUtf8(EncodeUtf8(s)) == Some(s)
  {
    if s != [] {
      Utf8RoundTrip(s[1..]);
      DecodeHead(s[0], EncodeUtf8(s[1..]));
      assert [s[0]] + s[1..] == s;
    }
  }

  /** The decoder accepts nothing but what the encoder writes. */
  lemma {:induction false} Utf8Canonical(b: seq<Byte>)
    requires DecodeUtf8(b).Some?
    ensures EncodeUtf8(DecodeUtf8(b).value) == b
    decreases |b|
  {
    if b != [] {
      CharCanonical(b);
      var size := DecodeChar(b).value.size;
      Utf8Canonical(b[size..]);
      assert b == b[..size] + b[size..];
    }
  }

  lemma {:induction false} AsciiIsItself(s: string)
    requires forall i | 0 <= i < |s| :: s[i] as int < 0x80
    ensures |EncodeUtf8(s)| == |s| && forall i | 0 <= i < |s| :: EncodeUtf8(s)[i] == s[i] as int
  {
    if s != [] { AsciiIsItself(s[1..]); }
  }

  // ----- Base64 -----

  function Symbol(d: nat): char
    requires d < 64
  {
    if d < 26 then ('A' as int + d) as char
    else if d < 52 then ('a' as int + d - 26) as char
    else if d < 62 then ('0' as int + d - 52) as char
    else if d == 62 then '+' else '/'
  }

  function Sextet(c: char): (d: Option<nat>)
    ensures d.Some? ==> d.value < 64
  {
    if 'A' <= c <= 'Z' then Some(c as int - 'A' as int)
    else if 'a' <= c <= 'z' then Some(c as int - 'a' as int + 26)
    else if '0' <= c <= '9' then Some(c as int - '0' as int + 52)
    else if c == '+' then Some(62) else if c == '/' then Some(63) else None
  }

  /** Table 1 of RFC 4648: the character stands for the six bits d. */
  predicate StandsFor(c: char, d: int) {
    || ('A' <= c <= 'Z' && d == c as int - 'A' as int)
    || ('a' <= c <= 'z' && d == c as int - 'a' as int + 26)
    || ('0' <= c <= '9' && d == c as int - '0' as int + 52)
    || (c == '+' && d == 62) || (c == '/' && d == 63)
  }

  function EncodeBase64(b: seq<Byte>): string {
    if b == [] then []
    else if |b| == 1 then [Symbol(b[0] / 4), Symbol(b[0] % 4 * 16), '=', '=']
    else if |b| == 2 then [Symbol(b[0] / 4), Symbol(b[0] % 4 * 16 + b[1] / 16), Symbol(b[1] % 16 * 4), '=']
    else Group(b[0], b[1], b[2]) + EncodeBase64(b[3..])
  }

  function Group(x: Byte, y: Byte, z: Byte): string {
    [Symbol(x / 4), Symbol(x % 4 * 16 + y / 16), Symbol(y % 16 * 4 + z / 64), Symbol(z % 64)]
  }

  /** Three bytes out of four sextets. */
  function Pack(p: nat, q: nat, r: nat, t: nat): (b: seq<Byte>)
    requires p < 64 && q < 64 && r < 64 && t < 64
    ensures |b| == 3
  {
    [p * 4 + q / 16, q % 16 * 16 + r / 4, r % 4 * 64 + t]
  }

  /** Four symbols without padding. */
  function Ungroup(s: string): Option<seq<Byte>>
    requires |s| == 4
  {
    var p, q, r, t := Sextet(s[0]), Sextet(s[1]), Sextet(s[2]), Sextet(s[3]);
    if p.None? || q.None? || r.None? || t.None? then None
    else Some(Pack(p.value, q.value, r.value, t.value))
  }

  /** The last four characters: padding must be canonical and the bits it leaves over zero. */
  function LastGroup(s: string): Option<seq<Byte>>
    requires |s| == 4
  {
    var p, q, r := Sextet(s[0]), Sextet(s[1]), Sextet(s[2]);
    if s[3] != '=' then Ungroup(s)
    else if p.None? || q.None? then None
    else if s[2] == '=' then if q.value % 16 == 0 then Some([p.value * 4 + q.value / 16]) else None
    else if r.None? || r.value % 4 != 0 then None
    else Some([p.value * 4 + q.value / 16, q.value % 16 * 16 + r.value / 4])
  }

  function DecodeBase64(s: string): Option<seq<Byte>> {
    if s == [] then Some([])
    else if |s| < 4 then None
    else if |s| == 4 then LastGroup(s)
    else
      var head, rest := Ungroup(s[..4]), DecodeBase64(s[4..]);
      if head.None? || rest.None? then None else Some(head.value + rest.value)
  }

  lemma SymbolSextet(d: nat)
    requires d < 64
    ensures Sextet(Symbol(d)) == Some(d) && Symbol(d) != '='
  {
  }

  lemma SextetSymbol(c: char)
    requires Sextet(c).Some?
    ensures Sextet(c).value < 64 && Symbol(Sextet(c).value) == c
  {
  }

  /** Three bytes and the four sextets they unpack into. */
  lemma Resplit(x: Byte, y: Byte, z: Byte)
    ensures var p, q, r, t := x / 4, x % 4 * 16 + y / 16, y % 16 * 4 + z / 64, z % 64;
            && p < 64 && q < 64 && r < 64 && t < 64
            && p * 4 + q / 16 == x && q % 16 * 16 + r / 4 == y && r % 4 * 64 + t == z
  {
    var q, r := x % 4 * 16 + y / 16, y % 16 * 4 + z / 64;
    assert q / 16 == x % 4 && q % 16 == y / 16;
    assert r / 4 == y % 16 && r % 4 == z / 64;
  }

  lemma GroupRoundTrip(x: Byte, y: Byte, z: Byte)
    ensures Ungroup(Group(x, y, z)) == Some([x, y, z])
  {
    SymbolSextet(x / 4);
    SymbolSextet(x % 4 * 16 + y / 16);
    SymbolSextet(y % 16 * 4 + z / 64);
    SymbolSextet(z % 64);
    Resplit(x, y, z);
  }

  lemma DecodeAfterGroup(x: Byte, y: Byte, z: Byte, rest: string)
    requires DecodeBase64(rest).Some?
    ensures DecodeBase64(Group(x, y, z) + rest) == Some([x, y, z] + DecodeBase64(rest).value)
  {
    var s := Group(x, y, z) + rest;
    GroupRoundTrip(x, y, z);
    SymbolSextet(z % 64);
    assert s[..4] == Group(x, y, z) && s[4..] == rest;
    if rest == [] {
      assert s == Group(x, y, z);
      assert LastGroup(s) == Ungroup(s);
      assert [x, y, z] + DecodeBase64(rest).value == [x, y, z];
    }
  }

  lemma OneByteRoundTrip(x: Byte)
    ensures LastGroup([Symbol(x / 4), Symbol(x % 4 * 16), '=', '=']) == Some([x])
  {
    SymbolSextet(x / 4);
    SymbolSextet(x % 4 * 16);
  }

  lemma TwoBytesRoundTrip(x: Byte, y: Byte)
    ensures LastGroup([Symbol(x / 4), Symbol(x % 4 * 16 + y / 16), Symbol(y % 16 * 4), '=']) == Some([x, y])
  {
    SymbolSextet(x / 4);
    SymbolSextet(x % 4 * 16 + y / 16);
    SymbolSextet(y % 16 * 4);
  }

  lemma ShortRoundTrip(b: seq<Byte>)
    requires 1 <= |b| <= 2
    ensures DecodeBase64(EncodeBase64(b)) == Some(b)
  {
    if |b| == 1 {
      OneByteRoundTrip(b[0]);
      assert b == [b[0]];
    } else {
      TwoBytesRoundTrip(b[0], b[1]);
      assert b == [b[0], b[1]];
    }
  }

  lemma {:induction false} Base64RoundTrip(b: seq<Byte>)
    ensures DecodeBase64(EncodeBase64(b)) == Some(b)
  {
    if 1 <= |b| <= 2 {
      ShortRoundTrip(b);
    } else if |b| >= 3 {
      Base64RoundTrip(b[3..]);
      DecodeAfterGroup(b[0], b[1], b[2], EncodeBase64(b[3..]));
      assert b == [b[0], b[1], b[2]] + b[3..];
    }
  }

  /** Four sextets and the three bytes they pack into. */
  lemma Regroup(p: nat, q: nat, r: nat, t: nat)
    requires p < 64 && q < 64 && r < 64 && t < 64
    ensures var x, y, z := p * 4 + q / 16, q % 16 * 16 + r / 4, r % 4 * 64 + t;
            x / 4 == p && x % 4 * 16 + y / 16 == q && y % 16 * 4 + z / 64 == r && z % 64 == t
  {
    var x, y, z := p * 4 + q / 16, q % 16 * 16 + r / 4, r % 4 * 64 + t;
    assert x / 4 == p && x % 4 == q / 16;
    assert y / 16 == q % 16 && y % 16 == r / 4;
    assert z / 64 == r % 4 && z % 64 == t;
  }

  /** Packed and grouped again, four sextets give their symbols. */
  lemma GroupOfSextets(p: nat, q: nat, r: nat, t: nat)
    requires p < 64 && q < 64 && r < 64 && t < 64
    ensures var b := Pack(p, q, r, t); Group(b[0], b[1], b[2]) == [Symbol(p), Symbol(q), Symbol(r), Symbol(t)]
  {
    Regroup(p, q, r, t);
    GroupOfBytes(p * 4 + q / 16, q % 16 * 16 + r / 4, r % 4 * 64 + t, p, q, r, t);
  }

  lemma GroupOfBytes(x: Byte, y: Byte, z: Byte, p: nat, q: nat, r: nat, t: nat)
    requires p < 64 && q < 64 && r < 64 && t < 64
    requires x / 4 == p && x % 4 * 16 + y / 16 == q && y % 16 * 4 + z / 64 == r && z % 64 == t
    ensures Group(x, y, z) == [Symbol(p), Symbol(q), Symbol(r), Symbol(t)]
  {
  }

  lemma UngroupCanonical(s: string)
    requires |s| == 4 && Ungroup(s).Some?
    ensures var b := Ungroup(s).value; |b| == 3 && Group(b[0], b[1], b[2]) == s
  {
    SextetSymbol(s[0]);
    SextetSymbol(s[1]);
    SextetSymbol(s[2]);
    SextetSymbol(s[3]);
    GroupOfSextets(Sextet(s[0]).value, Sextet(s[1]).value, Sextet(s[2]).value, Sextet(s[3]).value);
  }

  lemma TwoBytesCanonical(s: string)
    requires |s| == 4 && s[3] == '=' && s[2] != '=' && LastGroup(s).Some?
    ensures EncodeBase64(LastGroup(s).value) == s
  {
    SextetSymbol(s[0]);
    SextetSymbol(s[1]);
    SextetSymbol(s[2]);
    Regroup(Sextet(s[0]).value, Sextet(s[1]).value, Sextet(s[2]).value, 0);
  }

  lemma OneByteCanonical(s: string)
    requires |s| == 4 && s[3] == '=' && s[2] == '=' && LastGroup(s).Some?
    ensures EncodeBase64(LastGroup(s).value) == s
  {
    SextetSymbol(s[0]);
    SextetSymbol(s[1]);
    Regroup(Sextet(s[0]).value, Sextet(s[1]).value, 0, 0);
  }

  lemma LastGroupCanonical(s: string)
    requires |s| == 4 && LastGroup(s).Some?
    ensures EncodeBase64(LastGroup(s).value) == s
  {
    if s[3] != '=' {
      UngroupCanonical(s);
      var b := LastGroup(s).value;
      assert b[3..] == [];
    } else if s[2] != '=' {
      TwoBytesCanonical(s);
    } else {
      OneByteCanonical(s);
    }
  }

  /** The strict decoder accepts nothing but what the encoder writes. */
  lemma {:induction false} Base64Canonical(s: string)
    requires DecodeBase64(s).Some?
    ensures EncodeBase64(DecodeBase64(s).value) == s
  {
    if |s| == 4 {
      LastGroupCanonical(s);
    } else if |s| > 4 {
      UngroupCanonical(s[..4]);
      Base64Canonical(s[4..]);
      var head, rest := Ungroup(s[..4]).value, DecodeBase64(s[4..]).value;
      assert (head + rest)[3..] == rest;
      assert s == s[..4] + s[4..];
    }
  }

  lemma {:induction false} Base64Alphabet(b: seq<Byte>)
    ensures forall i | 0 <= i < |EncodeBase64(b)| :: Sextet(EncodeBase64(b)[i]).Some? || EncodeBase64(b)[i] == '='
  {
    if |b| >= 3 { Base64Alphabet(b[3..]); }
  }

  predicate NeedsPercentEncoding(s: string) { '+' in s || '/' in s }

  lemma GroupSafety(x: Byte, y: Byte, z: Byte)
    requires x < 128 && y < 128 && z < 128
    ensures NeedsPercentEncoding(Group(x, y, z)) <==> z % 64 >= 62
  {
    var g := Group(x, y, z);
    assert g[0] != '+' && g[0] != '/' && g[1] != '+' && g[1] != '/' && g[2] != '+' && g[2] != '/';
    assert g[3] == Symbol(z % 64);
  }

  lemma AppendSafety(s: string, t: string)
    ensures NeedsPercentEncoding(s + t) <==> NeedsPercentEncoding(s) || NeedsPercentEncoding(t)
  {
  }

  /** For ASCII input the text contains '+' or '/' exactly when some third byte of a group ends in 62 or
      63: '>', '?', '~' or DEL. */
  lemma {:induction false} AsciiBase64Safety(b: seq<Byte>)
    requires forall i | 0 <= i < |b| :: b[i] < 128
    ensures NeedsPercentEncoding(EncodeBase64(b)) <==> exists i :: 0 <= i < |b| && i % 3 == 2 && b[i] % 64 >= 62
  {
    if |b| >= 3 {
      GroupSafety(b[0], b[1], b[2]);
      AsciiBase64Safety(b[3..]);
      AppendSafety(Group(b[0], b[1], b[2]), EncodeBase64(b[3..]));
      if i :| 0 <= i < |b[3..]| && i % 3 == 2 && b[3..][i] % 64 >= 62 {
        assert b[i + 3] % 64 >= 62 && (i + 3) % 3 == 2;
      }
      if i :| 3 <= i < |b| && i % 3 == 2 && b[i] % 64 >= 62 {
        assert b[3..][i - 3] % 64 >= 62 && (i - 3) % 3 == 2;
      }
    } else if |b| == 2 {
      assert EncodeBase64(b)[2] == Symbol(b[1] % 16 * 4);
    }
  }

  // ----- The text symbol by symbol -----

  ghost function ByteOrZero(b: seq<Byte>, i: nat): Byte { if i < |b| then b[i] else 0 }

  /** The 24 bits of group g, zero beyond the end. */
  ghost function GroupBits(b: seq<Byte>, g: nat): nat {
    var x: nat, y: nat, z: nat := ByteOrZero(b, 3 * g), ByteOrZero(b, 3 * g + 1), ByteOrZero(b, 3 * g + 2);
    65536 * x + 256 * y + z
  }

  /** The j-th six of 24 bits, from the highest. */
  ghost function Six(bits: nat, j: nat): nat {
    if j == 0 then bits / 64 / 64 / 64 % 64 else if j == 1 then bits / 64 / 64 % 64
    else if j == 2 then bits / 64 % 64 else bits % 64
  }

  /** The same from the three bytes of the group. */
  ghost function SixOfBytes(x: Byte, y: Byte, z: Byte, j: nat): (d: nat)
    ensures d < 64
  {
    if j == 0 then x / 4 else if j == 1 then x % 4 * 16 + y / 16 else if j == 2 then y % 16 * 4 + z / 64 else z % 64
  }

  lemma SixesOfThree(x: Byte, y: Byte, z: Byte, j: nat)
    ensures Six(65536 * (x as int) + 256 * (y as int) + z as int, j) == SixOfBytes(x, y, z, j)
  {
    var p: nat, q: nat, r: nat, t: nat := x / 4, x % 4 * 16 + y / 16, y % 16 * 4 + z / 64, z % 64;
    JoinedBytes(x, y, z);
    Joined(Join(Join(p, q), r), t);
    Joined(Join(p, q), r);
    Joined(p, q);
  }

  lemma JoinedBytes(x: nat, y: nat, z: nat)
    ensures 65536 * x + 256 * y + z == Join(Join(Join(x / 4, x % 4 * 16 + y / 16), y % 16 * 4 + z / 64), z % 64)
  {
    assert x == 4 * (x / 4) + x % 4 && y == 16 * (y / 16) + y % 16 && z == 64 * (z / 64) + z % 64;
  }

  lemma SymbolStandsFor(d: nat)
    requires d < 64
    ensures StandsFor(Symbol(d), d)
  {
  }

  lemma FirstSymbols(b: seq<Byte>, j: nat)
    requires b != [] && j < 4
    ensures |EncodeBase64(b)| >= 4
    ensures EncodeBase64(b)[j]
         == if j > |b| then '=' else Symbol(SixOfBytes(ByteOrZero(b, 0), ByteOrZero(b, 1), ByteOrZero(b, 2), j))
  {
    if |b| >= 3 { assert EncodeBase64(b)[j] == Group(b[0], b[1], b[2])[j]; }
  }

  lemma FirstGroupBySixes(b: seq<Byte>, j: nat)
    requires b != [] && j < 4
    ensures |EncodeBase64(b)| >= 4 && IsSymbolOf(EncodeBase64(b)[j], b, j)
  {
    var x, y, z := ByteOrZero(b, 0), ByteOrZero(b, 1), ByteOrZero(b, 2);
    FirstSymbols(b, j);
    SixesOfThree(x, y, z, j);
    SymbolStandsFor(SixOfBytes(x, y, z, j));
  }

  /** Symbol k stands for the k % 4-th six bits of its group, or is padding if it has no bits of the input. */
  ghost predicate IsSymbolOf(c: char, b: seq<Byte>, k: nat) {
    if 3 * (k / 4) + k % 4 > |b| then c == '=' else StandsFor(c, Six(GroupBits(b, k / 4), k % 4))
  }

  lemma {:induction false} Base64Length(b: seq<Byte>)
    ensures |EncodeBase64(b)| == 4 * ((|b| + 2) / 3)
  {
    if |b| >= 3 {
      Base64Length(b[3..]);
      assert (|b| + 2) / 3 == (|b[3..]| + 2) / 3 + 1;
    }
  }

  /** Section 4 of RFC 4648: four symbols for each three bytes, each standing for its own six bits. */
  lemma {:induction false} Base64BySixes(b: seq<Byte>, k: nat)
    requires k < |EncodeBase64(b)|
    ensures |EncodeBase64(b)| == 4 * ((|b| + 2) / 3) && IsSymbolOf(EncodeBase64(b)[k], b, k)
  {
    Base64Length(b);
    if k < 4 {
      FirstGroupBySixes(b, k);
    } else {
      assert EncodeBase64(b)[k] == EncodeBase64(b[3..])[k - 4];
      Base64BySixes(b[3..], k - 4);
      LaterGroup(b, k);
    }
  }

  lemma LaterGroup(b: seq<Byte>, k: nat)
    requires |b| >= 3 && k >= 4
    ensures forall c: char :: IsSymbolOf(c, b, k) <==> IsSymbolOf(c, b[3..], k - 4)
  {
    var g := (k - 4) / 4;
    assert k / 4 == g + 1 && k % 4 == (k - 4) % 4;
    assert forall i: nat :: ByteOrZero(b[3..], i) == ByteOrZero(b, i + 3);
    assert GroupBits(b, g + 1) == GroupBits(b[3..], g);
  }
}
