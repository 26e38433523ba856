/** What the byte tests of `Text` mean: the encoding of a code point, and which
    code points are white space. */
module Utf8 {
  import opened Jsonl
  import opened Text

  /** A Unicode scalar value: any code point but a surrogate. */
  predicate Scalar(v: nat) {
    v < 0x11_0000 && !(0xD800 <= v < 0xE000)
  }

  /** The encoding of section 3 of RFC 3629. */
  function Encode(v: nat): (c: Bytes)
    requires Scalar(v)
  {
    if v < 0x80 then [v as byte]
    else if v < 0x800 then [(0xC0 + v / 0x40) as byte, (0x80 + v % 0x40) as byte]
    else if v < 0x1_0000 then
      [(0xE0 + v / 0x1000) as byte, (0x80 + v / 0x40 % 0x40) as byte, (0x80 + v % 0x40) as byte]
    else
      [(0xF0 + v / 0x4_0000) as byte, (0x80 + v / 0x1000 % 0x40) as byte,
       (0x80 + v / 0x40 % 0x40) as byte, (0x80 + v % 0x40) as byte]
  }

  /** The code points of `char::is_whitespace`. */
  predicate WhiteSpace(v: nat) {
    || 9 <= v <= 13 || v == 0x20 || v == 0x85 || v == 0xA0 || v == 0x1680
    || 0x2000 <= v <= 0x200A || v == 0x2028 || v == 0x2029 || v == 0x202F || v == 0x205F || v == 0x3000
  }

  function Value(c: Bytes): (v: int)
    requires IsChar(c)
  {
    if |c| == 1 then c[0] as int
    else if |c| == 2 then (c[0] as int - 0xC0) * 0x40 + (c[1] as int - 0x80)
    else if |c| == 3 then (c[0] as int - 0xE0) * 0x1000 + (c[1] as int - 0x80) * 0x40 + (c[2] as int - 0x80)
    else
      (c[0] as int - 0xF0) * 0x4_0000 + (c[1] as int - 0x80) * 0x1000
      + (c[2] as int - 0x80) * 0x40 + (c[3] as int - 0x80)
  }

  lemma LastDigit(a: nat, b: nat)
    requires b < 0x40
    ensures (a * 0x40 + b) / 0x40 == a && (a * 0x40 + b) % 0x40 == b
  {
  }

  /** The digits of a number to the base 64. */
  lemma Digits(a: nat, b: nat, c: nat, d: nat)
    requires b < 0x40 && c < 0x40 && d < 0x40
    ensures var v := a * 0x4_0000 + b * 0x1000 + c * 0x40 + d;
            && v / 0x4_0000 == a && v / 0x1000 % 0x40 == b && v / 0x1000 == a * 0x40 + b
            && v / 0x40 % 0x40 == c && v % 0x40 == d
  {
    var v := a * 0x4_0000 + b * 0x1000 + c * 0x40 + d;
    LastDigit(a, b);
    LastDigit(a * 0x40 + b, c);
    LastDigit((a * 0x40 + b) * 0x40 + c, d);
    assert v == ((a * 0x40 + b) * 0x40 + c) * 0x40 + d;
    assert v / 0x1000 == v / 0x40 / 0x40 && v / 0x4_0000 == v / 0x40 / 0x40 / 0x40;
  }

  lemma EncodeValue(c: Bytes)
    requires IsChar(c)
    ensures Value(c) >= 0 && Scalar(Value(c)) && Encode(Value(c)) == c
  {
    if |c| == 2 {
      Digits(0, 0, c[0] as int - 0xC0, c[1] as int - 0x80);
    } else if |c| == 3 {
      EncodeThree(c);
    } else if |c| == 4 {
      EncodeFour(c);
    }
  }

  lemma EncodeThree(c: Bytes)
    requires IsChar(c) && |c| == 3
    ensures Value(c) >= 0 && Scalar(Value(c)) && Encode(Value(c)) == c
  {
    var x, y, z := c[0] as int - 0xE0, c[1] as int - 0x80, c[2] as int - 0x80;
    Digits(0, x, y, z);
    assert 0x800 <= Value(c) < 0x1_0000;
  }

  lemma EncodeFour(c: Bytes)
    requires IsChar(c) && |c| == 4
    ensures Value(c) >= 0 && Scalar(Value(c)) && Encode(Value(c)) == c
  {
    var w, x, y, z := c[0] as int - 0xF0, c[1] as int - 0x80, c[2] as int - 0x80, c[3] as int - 0x80;
    Digits(w, x, y, z);
    assert 0x1_0000 <= Value(c) < 0x11_0000;
  }

  lemma ValueEncode(v: nat)
    requires Scalar(v)
    ensures IsChar(Encode(v)) && Value(Encode(v)) == v
  {
    if v >= 0x1_0000 {
      ValueFour(v);
    } else if v >= 0x800 {
      ValueThree(v);
    }
  }

  lemma ValueThree(v: nat)
    requires Scalar(v) && 0x800 <= v < 0x1_0000
    ensures IsChar(Encode(v)) && Value(Encode(v)) == v
  {
    var x, y, z := v / 0x1000, v / 0x40 % 0x40, v % 0x40;
    assert v == x * 0x1000 + y * 0x40 + z by {
      assert v / 0x1000 == v / 0x40 / 0x40;
    }
  }

  lemma ValueFour(v: nat)
    requires Scalar(v) && v >= 0x1_0000
    ensures IsChar(Encode(v)) && Value(Encode(v)) == v
  {
    var w, x, y, z := v / 0x4_0000, v / 0x1000 % 0x40, v / 0x40 % 0x40, v % 0x40;
    assert v == w * 0x4_0000 + x * 0x1000 + y * 0x40 + z by {
      assert v / 0x1000 == v / 0x40 / 0x40 && v / 0x4_0000 == v / 0x40 / 0x40 / 0x40;
    }
  }

  /** ONE CHARACTER is the encoding of a scalar value, and of one only. */
  lemma CharMeans(c: Bytes)
    ensures IsChar(c) <==> exists v: nat :: Scalar(v) && Encode(v) == c
    ensures forall v: nat, w: nat | Scalar(v) && Scalar(w) && Encode(v) == Encode(w) :: v == w
  {
    if IsChar(c) {
      EncodeValue(c);
    }
    forall v: nat | Scalar(v)
      ensures IsChar(Encode(v)) && Value(Encode(v)) == v
    {
      ValueEncode(v);
    }
  }

  ghost predicate White(c: Bytes) {
    exists v: nat :: Scalar(v) && WhiteSpace(v) && c == Encode(v)
  }

  lemma WhiteByValue(c: Bytes)
    requires IsChar(c)
    ensures White(c) <==> Value(c) >= 0 && WhiteSpace(Value(c))
  {
    EncodeValue(c);
    hide Value, Encode, WhiteSpace;
    if v: nat :| Scalar(v) && WhiteSpace(v) && c == Encode(v) {
      ValueEncode(v);
    }
  }

  /** A white-space character stands at `at` exactly when one does as text. */
  lemma SpaceMeans(s: Bytes, at: nat, n: nat)
    requires n > 0 && at + n <= |s|
    ensures SpaceAt(s, at) == n <==> White(s[at..at + n])
  {
    var c := s[at..at + n];
    assert forall k | 0 <= k < n :: c[k] == s[at + k];
    if IsChar(c) {
      WhiteByValue(c);
      SpaceByValue(s, at, n);
    } else {
      CharMeans(c);
      SpaceIsChar(s, at);
    }
  }

  lemma SpaceIsChar(s: Bytes, at: nat)
    ensures SpaceAt(s, at) > 0 ==> IsChar(s[at..at + SpaceAt(s, at)])
  {
  }

  lemma SpaceByValue(s: Bytes, at: nat, n: nat)
    requires n > 0 && at + n <= |s| && IsChar(s[at..at + n])
    ensures SpaceAt(s, at) == n <==> WhiteSpace(if Value(s[at..at + n]) >= 0 then Value(s[at..at + n]) else 0)
  {
    var c := s[at..at + n];
    assert forall k | 0 <= k < n :: c[k] == s[at + k];
  }

  // ---------------------------------------------------------------- trimming

  /** Of two characters that a text begins with, or ends with, neither is longer. */
  lemma OneCharAtFront(s: Bytes, m: nat, n: nat)
    requires m <= |s| && n <= |s| && IsChar(s[..m]) && IsChar(s[..n])
    ensures m == n
  {
    assert s[..m][0] == s[0] && s[..n][0] == s[0];
  }

  lemma OneCharAtEnd(s: Bytes, m: nat, n: nat)
    requires m < n <= |s| && IsChar(s[|s| - n..])
    ensures !IsChar(s[|s| - m..])
  {
    var a, b := s[|s| - m..], s[|s| - n..];
    if m > 0 {
      assert b[n - m] == a[0];
      Inner(b);
      Inner(a);
    }
  }

  lemma Inner(c: Bytes)
    ensures IsChar(c) ==> !Tail(c[0]) && forall k | 0 < k < |c| :: Tail(c[k])
  {
  }

  /** At the front of a text the test sees its first character, at the end its last. */
  lemma SpaceAtFront(c: Bytes, rest: Bytes)
    requires IsChar(c)
    ensures SpaceAt(c + rest, 0) == if White(c) then |c| else 0
  {
    var s := c + rest;
    assert s[..|c|] == c;
    SpaceMeans(s, 0, |c|);
    SpaceIsChar(s, 0);
    var n := SpaceAt(s, 0);
    if n > 0 {
      assert s[0..n] == s[..n];
      OneCharAtFront(s, |c|, n);
    }
  }

  lemma SpaceAtBack(rest: Bytes, c: Bytes)
    requires IsChar(c)
    ensures SpaceAtEnd(rest + c) == if White(c) then |c| else 0
  {
    var s := rest + c;
    WhiteIsShort(c);
    SpaceThere(rest, c, 1);
    SpaceThere(rest, c, 2);
    SpaceThere(rest, c, 3);
    hide SpaceAt, White;
  }

  lemma SpaceThere(rest: Bytes, c: Bytes, n: nat)
    requires IsChar(c) && n > 0
    ensures var s := rest + c;
            n <= |s| ==> (SpaceAt(s, |s| - n) == n <==> n == |c| && White(c))
  {
    var s := rest + c;
    if n <= |s| {
      var k := |s| - n;
      assert s[|s| - |c|..] == c && s[k..k + n] == s[k..];
      SpaceMeans(s, k, n);
      SpaceIsChar(s, k);
      if n < |c| {
        OneCharAtEnd(s, n, |c|);
      } else if n > |c| && IsChar(s[k..]) {
        OneCharAtEnd(s, |c|, n);
      }
    }
  }

  lemma WhiteIsShort(c: Bytes)
    requires IsChar(c)
    ensures |c| > 0 && (White(c) ==> |c| <= 3)
  {
  }

  lemma {:induction false} TrimStartMeans(cs: seq<Bytes>) returns (a: nat)
    requires AllChars(cs)
    ensures a <= |cs| && TrimStart(Flat(cs)) == Flat(cs[a..])
    ensures (forall k | 0 <= k < a :: White(cs[k])) && (a < |cs| ==> !White(cs[a]))
    decreases |cs|
  {
    hide White, SpaceAt, Flat, TrimStart, IsChar;
    if |cs| == 0 {
      assert cs[0..] == cs;
      TrimNothing();
      return 0;
    }
    var c, rest := cs[0], cs[1..];
    assert IsChar(c);
    TrimFirst(c, rest);
    assert cs == [c] + rest;
    if !White(c) {
      assert cs[0..] == cs;
      return 0;
    }
    assert AllChars(rest);
    var k := TrimStartMeans(rest);
    a := k + 1;
    DropTwice(cs, k);
    assert forall j | 0 < j < |cs| :: cs[j] == rest[j - 1];
  }

  lemma DropTwice(cs: seq<Bytes>, k: nat)
    requires k < |cs|
    ensures cs[1..][k..] == cs[k + 1..]
  {
  }

  lemma TrimNothing()
    ensures TrimStart(Flat([])) == Flat([]) && TrimEnd(Flat([])) == Flat([])
  {
  }

  lemma TrimFirst(c: Bytes, rest: seq<Bytes>)
    requires IsChar(c)
    ensures TrimStart(Flat([c] + rest)) == if White(c) then TrimStart(Flat(rest)) else Flat([c] + rest)
  {
    FlatConcat([c], rest);
    FlatOne(c);
    SpaceAtFront(c, Flat(rest));
    WhiteIsShort(c);
    hide White, SpaceAt, Flat;
    assert (c + Flat(rest))[|c|..] == Flat(rest);
  }

  lemma FlatOne(c: Bytes)
    ensures Flat([c]) == c
  {
    assert [c][..0] == [];
    assert Flat([c][..0]) == [];
  }

  lemma {:induction false} TrimEndMeans(cs: seq<Bytes>) returns (b: nat)
    requires AllChars(cs)
    ensures b <= |cs| && TrimEnd(Flat(cs)) == Flat(cs[..b])
    ensures (forall k | b <= k < |cs| :: White(cs[k])) && (b > 0 ==> !White(cs[b - 1]))
    decreases |cs|
  {
    hide White, SpaceAtEnd, Flat, TrimEnd, IsChar;
    if |cs| == 0 {
      assert cs[..0] == cs;
      TrimNothing();
      return 0;
    }
    var n := |cs| - 1;
    var front, c := cs[..n], cs[n];
    assert IsChar(c);
    TrimLast(front, c);
    assert cs == front + [c];
    if !White(c) {
      assert cs[..n + 1] == cs;
      return n + 1;
    }
    assert AllChars(front);
    b := TrimEndMeans(front);
    assert front[..b] == cs[..b];
  }

  lemma TrimLast(front: seq<Bytes>, c: Bytes)
    requires IsChar(c)
    ensures TrimEnd(Flat(front + [c])) == if White(c) then TrimEnd(Flat(front)) else Flat(front + [c])
  {
    FlatConcat(front, [c]);
    FlatOne(c);
    SpaceAtBack(Flat(front), c);
    WhiteIsShort(c);
    hide White, SpaceAtEnd, Flat;
    assert (Flat(front) + c)[..|Flat(front)|] == Flat(front);
  }

  lemma MiddleOf(cs: seq<Bytes>, a: nat, n: nat)
    requires a + n <= |cs|
    ensures cs[a..][..n] == cs[a..a + n]
  {
  }

  /** WHAT A TRIM TAKES: of any text, the white-space characters at both ends and
      nothing else. */
  lemma TrimMeans(cs: seq<Bytes>) returns (a: nat, b: nat)
    requires AllChars(cs)
    ensures a <= b <= |cs| && Trim(Flat(cs)) == Flat(cs[a..b])
    ensures forall k | 0 <= k < a || b <= k < |cs| :: White(cs[k])
    ensures a < b ==> !White(cs[a]) && !White(cs[b - 1])
  {
    hide White, Flat, TrimStart, TrimEnd, IsChar;
    a := TrimStartMeans(cs);
    var rest := cs[a..];
    assert AllChars(rest);
    var n := TrimEndMeans(rest);
    b := a + n;
    MiddleOf(cs, a, n);
    assert forall k | a <= k < |cs| :: cs[k] == rest[k - a];
  }
}
