// UTF-8 decoding as Buffer.toString('utf8') does it: ill-formed input becomes U+FFFD, one
// per maximal ill-formed run (the decoder of the WHATWG Encoding Standard).
module Utf8 {
  type Byte = b: int | 0 <= b < 256

  const LF: Byte := 10
  const CR: Byte := 13
  const REPLACEMENT: char := 0xFFFD as char

  /** Byte `i` exists and continues a sequence within the given bounds. */
  predicate Continues(b: seq<Byte>, i: nat, lo: int, hi: int) {
    i < |b| && lo <= b[i] <= hi
  }

  datatype Step = Step(c: char, used: nat)

  function Decode2(b: seq<Byte>): (r: Step)
    requires b != [] && 0xC2 <= b[0] <= 0xDF
    ensures 1 <= r.used <= |b|
  {
    if Continues(b, 1, 0x80, 0xBF) then Step(((b[0] as int - 0xC0) * 64 + (b[1] as int - 0x80)) as char, 2)
    else Step(REPLACEMENT, 1)
  }

  function Decode3(b: seq<Byte>): (r: Step)
    requires b != [] && 0xE0 <= b[0] <= 0xEF
    ensures 1 <= r.used <= |b|
  {
    var lo := if b[0] == 0xE0 then 0xA0 else 0x80;
    var hi := if b[0] == 0xED then 0x9F else 0xBF;
    if !Continues(b, 1, lo, hi) then Step(REPLACEMENT, 1)
    else if !Continues(b, 2, 0x80, 0xBF) then Step(REPLACEMENT, 2)
    else Step(((b[0] as int - 0xE0) * 4096 + (b[1] as int - 0x80) * 64 + (b[2] as int - 0x80)) as char, 3)
  }

  function Decode4(b: seq<Byte>): (r: Step)
    requires b != [] && 0xF0 <= b[0] <= 0xF4
    ensures 1 <= r.used <= |b|
  {
    var lo := if b[0] == 0xF0 then 0x90 else 0x80;
    var hi := if b[0] == 0xF4 then 0x8F else 0xBF;
    if !Continues(b, 1, lo, hi) then Step(REPLACEMENT, 1)
    else if !Continues(b, 2, 0x80, 0xBF) then Step(REPLACEMENT, 2)
    else if !Continues(b, 3, 0x80, 0xBF) then Step(REPLACEMENT, 3)
    else
      Step(((b[0] as int - 0xF0) * 262144 + (b[1] as int - 0x80) * 4096
            + (b[2] as int - 0x80) * 64 + (b[3] as int - 0x80)) as char, 4)
  }

  function DecodeOne(b: seq<Byte>): (r: Step)
    requires b != []
    ensures 1 <= r.used <= |b|
  {
    if b[0] < 0x80 then Step(b[0] as char, 1)
    else if 0xC2 <= b[0] <= 0xDF then Decode2(b)
    else if 0xE0 <= b[0] <= 0xEF then Decode3(b)
    else if 0xF0 <= b[0] <= 0xF4 then Decode4(b)
    else Step(REPLACEMENT, 1)
  }

  function Decode(b: seq<Byte>): (s: string) {
    if b == [] then "" else [DecodeOne(b).c] + Decode(b[DecodeOne(b).used..])
  }

  /** An ASCII byte ends any sequence before it. */
  lemma DecodeOneStops(a: seq<Byte>, x: Byte, b: seq<Byte>)
    requires a != [] && x < 0x80
    ensures DecodeOne(a + [x] + b) == DecodeOne(a)
  {
    var t := a + [x] + b;
    assert t[0] == a[0];
    forall i: nat, lo, hi | i <= 3 && lo >= 0x80 && (forall j :: 1 <= j < i ==> j < |a| && a[j] >= 0x80)
      ensures Continues(t, i, lo, hi) == Continues(a, i, lo, hi) || i > |a|
    {
      if i < |a| {
        assert t[i] == a[i];
      } else if i == |a| {
        assert t[i] == x;
      }
    }
  }

  /** Decoding splits at every ASCII byte, also inside ill-formed input. */
  lemma {:induction false} DecodeSplits(a: seq<Byte>, x: Byte, b: seq<Byte>)
    requires x < 0x80
    ensures Decode(a + [x] + b) == Decode(a) + [x as char] + Decode(b)
    decreases |a|
  {
    var t := a + [x] + b;
    if a == [] {
      assert t == [x] + b && t[1..] == b;
    } else {
      DecodeOneStops(a, x, b);
      var n := DecodeOne(a).used;
      assert t[n..] == a[n..] + [x] + b;
      DecodeSplits(a[n..], x, b);
    }
  }

  lemma DecodeOneAscii(b: seq<Byte>, x: Byte)
    requires b != [] && x < 0x80 && DecodeOne(b).c == x as char
    ensures b[0] == x
  {
  }

  /** An ASCII character in the text comes from that byte. */
  lemma {:induction false} DecodeMakesNoAscii(b: seq<Byte>, x: Byte)
    requires x < 0x80 && x !in b
    ensures x as char !in Decode(b)
    decreases |b|
  {
    if b != [] {
      var n := DecodeOne(b).used;
      DecodeMakesNoAscii(b[n..], x);
      if DecodeOne(b).c == x as char {
        DecodeOneAscii(b, x);
      }
    }
  }

  // ----- Encoding ------------------------------------------------------------

  /** Continuation byte `j` of code point `n`, counting from the end. */
  function Tail(n: nat, j: nat): (x: Byte)
    ensures 0x80 <= x <= 0xBF
  {
    0x80 + (if j == 0 then n else if j == 1 then n / 64 else n / 4096) % 64
  }

  /** The UTF-8 form of a character (RFC 3629, section 3). */
  function EncodeOne(c: char): (b: seq<Byte>)
    ensures 1 <= |b| <= 4
  {
    var n := c as int;
    if n < 0x80 then [n]
    else if n < 0x800 then [0xC0 + n / 64, Tail(n, 0)]
    else if n < 0x10000 then [0xE0 + n / 4096, Tail(n, 1), Tail(n, 0)]
    else [0xF0 + n / 262144, Tail(n, 2), Tail(n, 1), Tail(n, 0)]
  }

  function Encode(s: string): (b: seq<Byte>)
    ensures |s| <= |b|
  {
    if s == [] then [] else EncodeOne(s[0]) + Encode(s[1..])
  }

  lemma Digits64(n: nat)
    requires n <= 0x10FFFF
    ensures n == n / 64 * 64 + n % 64
    ensures n == n / 4096 * 4096 + n / 64 % 64 * 64 + n % 64
    ensures n == n / 262144 * 262144 + n / 4096 % 64 * 4096 + n / 64 % 64 * 64 + n % 64
  {
    assert n / 64 / 64 == n / 4096 && n / 4096 / 64 == n / 262144;
  }

  lemma DecodeTwo(c: char, rest: seq<Byte>)
    requires 0x80 <= c as int < 0x800
    ensures DecodeOne(EncodeOne(c) + rest) == Step(c, 2)
  {
    Digits64(c as int);
  }

  lemma DecodeThree(c: char, rest: seq<Byte>)
    requires 0x800 <= c as int < 0x10000
    ensures DecodeOne(EncodeOne(c) + rest) == Step(c, 3)
  {
    Digits64(c as int);
  }

  lemma DecodeFour(c: char, rest: seq<Byte>)
    requires 0x10000 <= c as int
    ensures DecodeOne(EncodeOne(c) + rest) == Step(c, 4)
  {
    Digits64(c as int);
  }

  lemma DecodeEncodedOne(c: char, rest: seq<Byte>)
    ensures DecodeOne(EncodeOne(c) + rest) == Step(c, |EncodeOne(c)|)
  {
    if c as int < 0x80 {
      assert (EncodeOne(c) + rest)[0] == c as int;
    } else if c as int < 0x800 {
      DecodeTwo(c, rest);
    } else if c as int < 0x10000 {
      DecodeThree(c, rest);
    } else {
      DecodeFour(c, rest);
    }
  }

  lemma TwoEncoded(b: seq<Byte>)
    requires b != [] && 0xC2 <= b[0] <= 0xDF
    ensures var r := Decode2(b); r.c == REPLACEMENT || b[..r.used] == EncodeOne(r.c)
  {
  }

  lemma ThreeEncoded(b: seq<Byte>)
    requires b != [] && 0xE0 <= b[0] <= 0xEF
    ensures var r := Decode3(b); r.c == REPLACEMENT || b[..r.used] == EncodeOne(r.c)
  {
  }

  lemma LastDigit(n: nat, m: nat, d: nat)
    requires n == m * 64 + d && d < 64
    ensures n / 64 == m && n % 64 == d
  {
  }

  lemma FourDigits(n: nat, a: nat, b: nat, c: nat, d: nat)
    requires n == ((a * 64 + b) * 64 + c) * 64 + d && b < 64 && c < 64 && d < 64
    ensures n / 262144 == a && n / 4096 % 64 == b && n / 64 % 64 == c && n % 64 == d
  {
    LastDigit(n, (a * 64 + b) * 64 + c, d);
    LastDigit((a * 64 + b) * 64 + c, a * 64 + b, c);
    LastDigit(a * 64 + b, a, b);
    assert n / 64 / 64 == n / 4096 && n / 4096 / 64 == n / 262144;
  }

  lemma FourEncoded(b: seq<Byte>)
    requires b != [] && 0xF0 <= b[0] <= 0xF4
    ensures var r := Decode4(b); r.c == REPLACEMENT || b[..r.used] == EncodeOne(r.c)
  {
    var r := Decode4(b);
    if r.used == 4 {
      FourDigits(r.c as int, b[0] - 0xF0, b[1] - 0x80, b[2] - 0x80, b[3] - 0x80);
      FourBytes(r.c, b[0], b[1], b[2], b[3]);
      assert b[..4] == [b[0], b[1], b[2], b[3]];
    }
  }

  lemma FourBytes(c: char, w: Byte, x: Byte, y: Byte, z: Byte)
    requires c as int >= 0x10000
    requires 0xF0 + c as int / 262144 == w && 0x80 + c as int / 4096 % 64 == x
    requires 0x80 + c as int / 64 % 64 == y && 0x80 + c as int % 64 == z
    ensures EncodeOne(c) == [w, x, y, z]
  {
  }

  /** Whatever is decoded as a character other than U+FFFD is that character's encoding. */
  lemma DecodedIsEncoded(b: seq<Byte>)
    requires b != []
    ensures var r := DecodeOne(b); r.c == REPLACEMENT || b[..r.used] == EncodeOne(r.c)
  {
    if 0xC2 <= b[0] <= 0xDF {
      TwoEncoded(b);
    } else if 0xE0 <= b[0] <= 0xEF {
      ThreeEncoded(b);
    } else if 0xF0 <= b[0] <= 0xF4 {
      FourEncoded(b);
    }
  }

  /** Every text survives UTF-8. */
  lemma {:induction false} DecodeEncode(s: string)
    ensures Decode(Encode(s)) == s
  {
    if s != [] {
      var b := EncodeOne(s[0]);
      DecodeEncodedOne(s[0], Encode(s[1..]));
      assert (b + Encode(s[1..]))[|b|..] == Encode(s[1..]);
      DecodeEncode(s[1..]);
    }
  }

  lemma CutCharacter(c: char, n: nat)
    requires 0 < n < |EncodeOne(c)|
    ensures Decode(EncodeOne(c)[..n]) == [REPLACEMENT]
  {
    var p := EncodeOne(c)[..n];
    CutStep(c, n);
    assert p[n..] == [];
    assert Decode(p[n..]) == "";
  }

  lemma CutStep(c: char, n: nat)
    requires 0 < n < |EncodeOne(c)|
    ensures DecodeOne(EncodeOne(c)[..n]) == Step(REPLACEMENT, n)
  {
    Digits64(c as int);
  }

  /** Encoded text cut at any byte decodes to a prefix of the text, and one U+FFFD if the cut
      fell inside a character. */
  lemma {:induction false} DecodeCut(s: string, n: nat) returns (m: nat, r: string)
    requires n <= |Encode(s)|
    ensures m <= |s| && (r == "" || r == [REPLACEMENT])
    ensures Decode(Encode(s)[..n]) == s[..m] + r
    decreases |s|
  {
    m, r := 0, "";
    if n > 0 {
      var b, more := EncodeOne(s[0]), Encode(s[1..]);
      var cut := (b + more)[..n];
      if n < |b| {
        r := [REPLACEMENT];
        assert cut == b[..n];
        CutCharacter(s[0], n);
      } else {
        m, r := DecodeCut(s[1..], n - |b|);
        assert cut == b + more[..n - |b|];
        DecodeEncodedOne(s[0], more[..n - |b|]);
        assert cut[|b|..] == more[..n - |b|];
        assert s[..m + 1] == [s[0]] + s[1..][..m];
        m := m + 1;
      }
    }
  }
}
