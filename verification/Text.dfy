// Characters, decimal numerals and the ASCII case folding that SQLite applies in
// LIKE patterns and in NOCASE comparisons.
module Text {

  datatype Option<+T> = None | Some(value: T)

  predicate IsDigit(c: char) {
    '0' <= c <= '9'
  }

  predicate AllDigits(s: string) {
    forall i :: 0 <= i < |s| ==> IsDigit(s[i])
  }

  function DigitChar(d: nat): (c: char)
    requires d < 10
    ensures IsDigit(c) && DigitValue(c) == d
  {
    '0' + d as char
  }

  function DigitValue(c: char): (d: nat)
    requires IsDigit(c)
    ensures d < 10
  {
    c as int - '0' as int
  }

  /** The decimal numeral of `n` without leading zeros. */
  function Dec(n: nat): (s: string)
    ensures |s| > 0 && AllDigits(s)
  {
    if n < 10 then [DigitChar(n)] else Dec(n / 10) + [DigitChar(n % 10)]
  }

  /** The number a string of digits denotes. */
  function DecValue(s: string): nat
    requires AllDigits(s)
  {
    if s == [] then 0 else DecValue(s[..|s| - 1]) * 10 + DigitValue(s[|s| - 1])
  }

  /** Reading a decimal numeral gives back the number it was made from. */
  lemma {:induction false} DecRoundTrip(n: nat)
    ensures DecValue(Dec(n)) == n
  {
    if n < 10 {
      assert Dec(n)[..0] == [];
    } else {
      DecRoundTrip(n / 10);
      assert Dec(n)[..|Dec(n)| - 1] == Dec(n / 10);
    }
  }

  lemma DecInjective(m: nat, n: nat)
    requires Dec(m) == Dec(n)
    ensures m == n
  {
    DecRoundTrip(m);
    DecRoundTrip(n);
  }

  /** ASCII lower case: the only folding SQLite does. */
  function Fold(c: char): char {
    if 'A' <= c <= 'Z' then c + ' ' else c
  }

  /** Two characters fold alike if and only if they are equal or the two cases of one ASCII
      letter. */
  lemma FoldMeans(c: char, d: char)
    ensures Fold(c) == Fold(d) <==>
      || c == d
      || ('A' <= c <= 'Z' && d as int == c as int + 32)
      || ('A' <= d <= 'Z' && c as int == d as int + 32)
  {
  }

  function FoldAll(s: string): (r: string)
    ensures |r| == |s|
    ensures forall i :: 0 <= i < |s| ==> r[i] == Fold(s[i])
  {
    seq(|s|, i requires 0 <= i < |s| => Fold(s[i]))
  }

  /** `t` begins with `p` up to ASCII case. */
  predicate Begins(t: string, p: string) {
    |p| <= |t| && forall k :: 0 <= k < |p| ==> Fold(t[k]) == Fold(p[k])
  }

  lemma BeginsConcat(t: string, p: string, q: string)
    ensures Begins(t, p + q) <==> Begins(t, p) && Begins(t[|p|..], q)
  {
    if Begins(t, p) && Begins(t[|p|..], q) {
      forall k | 0 <= k < |p + q| ensures Fold(t[k]) == Fold((p + q)[k]) {
        if k >= |p| {
          assert t[k] == t[|p|..][k - |p|];
        }
      }
    }
    if Begins(t, p + q) {
      forall k | 0 <= k < |p| ensures Fold(t[k]) == Fold(p[k]) {
        assert (p + q)[k] == p[k];
      }
      forall k | 0 <= k < |q| ensures Fold(t[|p|..][k]) == Fold(q[k]) {
        assert (p + q)[|p| + k] == q[k];
      }
    }
  }

  /** The first place of `x` in `s`, or |s|. */
  function IndexOf<T(==)>(s: seq<T>, x: T): (i: nat)
    ensures i <= |s| && (i < |s| ==> s[i] == x)
    ensures forall j :: 0 <= j < i ==> s[j] != x
  {
    if s == [] || s[0] == x then 0 else 1 + IndexOf(s[1..], x)
  }

  lemma ConcatAssoc<T>(a: seq<T>, b: seq<T>, c: seq<T>)
    ensures (a + b) + c == a + (b + c)
  {
  }

  function FlatMap<A, B>(f: A -> seq<B>, s: seq<A>): seq<B> {
    if s == [] then [] else f(s[0]) + FlatMap(f, s[1..])
  }

  lemma {:induction false} FlatMapConcat<A, B>(f: A -> seq<B>, s: seq<A>, t: seq<A>)
    ensures FlatMap(f, s + t) == FlatMap(f, s) + FlatMap(f, t)
    decreases |s|
  {
    if s == [] {
      assert s + t == t;
    } else {
      FlatMapConcat(f, s[1..], t);
      assert (s + t)[0] == s[0] && (s + t)[1..] == s[1..] + t;
    }
  }

  /** SQLite's BINARY collation: comparing UTF-8 bytes orders text by code points. */
  predicate Less(s: string, t: string) {
    t != [] && (s == [] || s[0] < t[0] || (s[0] == t[0] && Less(s[1..], t[1..])))
  }

  lemma {:induction false} LessTransitive(s: string, t: string, u: string)
    requires Less(s, t) && Less(t, u)
    ensures Less(s, u)
    decreases |s|
  {
    if s != [] && s[0] == t[0] && t[0] == u[0] {
      LessTransitive(s[1..], t[1..], u[1..]);
    }
  }

  /** Exactly one of less, equal, greater. */
  lemma {:induction false} LessTotal(s: string, t: string)
    ensures s == t || Less(s, t) || Less(t, s)
    ensures !(Less(s, t) && Less(t, s)) && (s == t ==> !Less(s, t))
    decreases |s|
  {
    if s != [] && t != [] && s[0] == t[0] {
      LessTotal(s[1..], t[1..]);
      assert s == [s[0]] + s[1..] && t == [t[0]] + t[1..];
    }
  }

  /** The order is that of the first difference, or of the lengths. */
  lemma {:induction false} LessMeans(s: string, t: string)
    ensures Less(s, t) <==> exists i: nat ::
      i <= |s| && i < |t| && s[..i] == t[..i] && (i == |s| || s[i] < t[i])
    decreases |s|
  {
    if Less(s, t) {
      var i := FirstDifference(s, t);
    }
    if i: nat :| i <= |s| && i < |t| && s[..i] == t[..i] && (i == |s| || s[i] < t[i]) {
      DifferenceDecides(s, t, i);
    }
  }

  lemma {:induction false} FirstDifference(s: string, t: string) returns (i: nat)
    requires Less(s, t)
    ensures i <= |s| && i < |t| && s[..i] == t[..i] && (i == |s| || s[i] < t[i])
    decreases |s|
  {
    if s == [] || s[0] < t[0] {
      i := 0;
    } else {
      var j := FirstDifference(s[1..], t[1..]);
      i := j + 1;
      assert s[..i] == [s[0]] + s[1..][..j] && t[..i] == [t[0]] + t[1..][..j];
    }
  }

  lemma {:induction false} DifferenceDecides(s: string, t: string, i: nat)
    requires i <= |s| && i < |t| && s[..i] == t[..i] && (i == |s| || s[i] < t[i])
    ensures Less(s, t)
    decreases |s|
  {
    if i > 0 {
      assert s[0] == s[..i][0] == t[..i][0] == t[0];
      assert s[1..][..i - 1] == s[..i][1..] == t[..i][1..] == t[1..][..i - 1];
      DifferenceDecides(s[1..], t[1..], i - 1);
    }
  }
}
