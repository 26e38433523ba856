/** Byte budgets on UTF-8 text: `clip` and `tail` cut on character boundaries. */
module Text {
  import opened Jsonl

  predicate Tail(b: byte) {
    0x80 <= b < 0xC0
  }

  /** One character of UTF-8 (section 4 of RFC 3629). */
  predicate IsChar(c: Bytes) {
    if |c| == 1 then c[0] < 0x80
    else if |c| == 2 then 0xC2 <= c[0] < 0xE0 && Tail(c[1])
    else if |c| == 3 then
      && 0xE0 <= c[0] < 0xF0 && Tail(c[1]) && Tail(c[2])
      && (c[0] == 0xE0 ==> c[1] >= 0xA0) && (c[0] == 0xED ==> c[1] < 0xA0)
    else if |c| == 4 then
      && 0xF0 <= c[0] < 0xF5 && Tail(c[1]) && Tail(c[2]) && Tail(c[3])
      && (c[0] == 0xF0 ==> c[1] >= 0x90) && (c[0] == 0xF4 ==> c[1] < 0x90)
    else false
  }

  predicate AllChars(cs: seq<Bytes>) {
    forall c | c in cs :: IsChar(c)
  }

  function Flat(cs: seq<Bytes>): Bytes {
    if |cs| == 0 then [] else Flat(cs[..|cs| - 1]) + cs[|cs| - 1]
  }

  // ---------------------------------------------------------------- the code

  predicate IsBoundary(s: Bytes, i: nat) {
    i == 0 || i == |s| || (i < |s| && !Tail(s[i]))
  }

  function FloorBoundary(s: Bytes, i: nat): (r: nat)
    ensures r <= |s| && (i <= |s| ==> r <= i)
  {
    if i >= |s| then |s| else if IsBoundary(s, i) then i else FloorBoundary(s, i - 1)
  }

  function CeilBoundary(s: Bytes, i: nat): (r: nat)
    ensures r <= |s|
    decreases |s| - i
  {
    if i >= |s| then |s| else if IsBoundary(s, i) then i else CeilBoundary(s, i + 1)
  }

  function BoundaryAtOrBelow(s: Bytes, max: nat): (r: nat)
    ensures r <= |s|
  {
    FloorBoundary(s, Min(max, |s|))
  }

  function Clip(s: Bytes, max: nat): Bytes {
    s[..BoundaryAtOrBelow(s, max)]
  }

  function TailOf(s: Bytes, max: nat): Bytes {
    if max >= |s| then s
    else
      var start := |s| - max;
      if IsBoundary(s, start) then s[start..] else s[CeilBoundary(s, start)..]
  }

  // ---------------------------------------------------------------- characters

  lemma {:induction false} FlatConcat(a: seq<Bytes>, b: seq<Bytes>)
    ensures Flat(a + b) == Flat(a) + Flat(b)
    decreases |b|
  {
    if |b| == 0 {
      assert a + b == a;
    } else {
      assert (a + b)[..|a + b| - 1] == a + b[..|b| - 1];
      FlatConcat(a, b[..|b| - 1]);
      Assoc(Flat(a), Flat(b[..|b| - 1]), b[|b| - 1]);
    }
  }

  lemma FlatSnoc(cs: seq<Bytes>, k: nat)
    requires k < |cs|
    ensures Flat(cs[..k + 1]) == Flat(cs[..k]) + cs[k]
  {
    assert cs[..k + 1][..k] == cs[..k];
  }

  lemma FlatSplit(cs: seq<Bytes>, k: nat)
    requires k <= |cs|
    ensures Flat(cs) == Flat(cs[..k]) + Flat(cs[k..])
  {
    hide Flat;
    assert cs == cs[..k] + cs[k..];
    FlatConcat(cs[..k], cs[k..]);
  }

  /** The text around its k-th character. */
  lemma FlatAround(cs: seq<Bytes>, k: nat)
    requires k < |cs|
    ensures Flat(cs) == Flat(cs[..k]) + (cs[k] + Flat(cs[k + 1..]))
    ensures Flat(cs[..k + 1]) == Flat(cs[..k]) + cs[k]
  {
    hide Flat;
    FlatSplit(cs, k + 1);
    FlatSnoc(cs, k);
    Assoc(Flat(cs[..k]), cs[k], Flat(cs[k + 1..]));
  }

  /** Boundaries fall exactly between characters. */
  lemma InsideChar(cs: seq<Bytes>, k: nat, j: nat)
    requires AllChars(cs) && k < |cs| && j < |cs[k]|
    ensures |Flat(cs[..k])| + j < |Flat(cs)|
    ensures IsBoundary(Flat(cs), |Flat(cs[..k])| + j) <==> j == 0
    ensures 1 <= |cs[k]| <= 4
  {
    FlatAround(cs, k);
    assert IsChar(cs[k]);
    var n := |Flat(cs[..k])|;
    assert Flat(cs)[n + j] == (cs[k] + Flat(cs[k + 1..]))[j] == cs[k][j];
    NonEmptyBefore(cs, k);
  }

  lemma NonEmptyBefore(cs: seq<Bytes>, k: nat)
    requires AllChars(cs) && k <= |cs|
    ensures |Flat(cs[..k])| == 0 <==> k == 0
  {
    if k > 0 {
      FlatAround(cs, k - 1);
      assert IsChar(cs[k - 1]);
    }
  }

  /** Walking back from inside a character ends at its first byte. */
  lemma {:induction false} FloorInside(cs: seq<Bytes>, k: nat, j: nat)
    requires AllChars(cs) && k < |cs| && j < |cs[k]|
    ensures FloorBoundary(Flat(cs), |Flat(cs[..k])| + j) == |Flat(cs[..k])|
    decreases j
  {
    InsideChar(cs, k, j);
    if j > 0 {
      FloorInside(cs, k, j - 1);
    }
  }

  /** Walking on from inside a character ends past its last byte. */
  lemma {:induction false} CeilInside(cs: seq<Bytes>, k: nat, j: nat)
    requires AllChars(cs) && k < |cs| && 0 < j <= |cs[k]|
    ensures CeilBoundary(Flat(cs), |Flat(cs[..k])| + j) == |Flat(cs[..k + 1])|
    decreases |cs[k]| - j
  {
    FlatAround(cs, k);
    if j < |cs[k]| {
      InsideChar(cs, k, j);
      CeilInside(cs, k, j + 1);
    } else if k + 1 < |cs| {
      assert IsChar(cs[k + 1]);
      InsideChar(cs, k + 1, 0);
    } else {
      assert cs[..k + 1] == cs;
    }
  }

  /** How many whole characters fit in the budget, from the front. */
  function Fitting(cs: seq<Bytes>, max: nat): (k: nat)
    ensures k <= |cs|
    ensures |Flat(cs[..k])| <= max
    ensures k == |cs| || |Flat(cs[..k + 1])| > max
  {
    if |Flat(cs)| <= max then
      assert cs[..|cs|] == cs;
      |cs|
    else
      var front := cs[..|cs| - 1];
      var k := Fitting(front, max);
      assert front[..k] == cs[..k];
      assert k < |front| ==> front[..k + 1] == cs[..k + 1];
      assert k == |front| ==> cs[..k + 1] == cs;
      k
  }

  /** CLIP is the longest whole-character prefix within the budget, at most
      three bytes short of it when the text is longer; clipping again changes
      nothing. */
  lemma ClipIsLongest(cs: seq<Bytes>, max: nat)
    requires AllChars(cs)
    ensures Clip(Flat(cs), max) == Flat(cs[..Fitting(cs, max)])
    ensures |Clip(Flat(cs), max)| <= max
    ensures |Flat(cs)| > max ==> max - |Clip(Flat(cs), max)| <= 3
    ensures Clip(Clip(Flat(cs), max), max) == Clip(Flat(cs), max)
  {
    hide Flat, Fitting;
    var k := Fitting(cs, max);
    var n := |Flat(cs[..k])|;
    if k == |cs| {
      assert cs[..k] == cs;
    } else {
      FlatAround(cs, k);
      InsideChar(cs, k, 0);
      FloorInside(cs, k, max - n);
      PrefixOfConcat(Flat(cs[..k]), cs[k] + Flat(cs[k + 1..]));
    }
  }

  lemma PrefixOfConcat(a: Bytes, b: Bytes)
    ensures (a + b)[..|a|] == a
    ensures (a + b)[|a|..] == b
  {
  }

  /** TAIL is the longest whole-character suffix within the budget. */
  lemma TailIsLongest(cs: seq<Bytes>, max: nat) returns (k: nat)
    requires AllChars(cs)
    ensures k <= |cs| && TailOf(Flat(cs), max) == Flat(cs[k..]) && |Flat(cs[k..])| <= max
    ensures k == 0 || |Flat(cs[k - 1..])| > max
    ensures |Flat(cs)| > max ==> max - |TailOf(Flat(cs), max)| <= 3
  {
    hide Flat, Fitting, AllChars, IsChar, IsBoundary, CeilBoundary;
    var s := Flat(cs);
    if max >= |s| {
      assert cs[0..] == cs;
      return 0;
    }
    k := CeilOf(cs, |s| - max);
    CutAt(cs, k);
    CutAt(cs, k - 1);
    TailCuts(s, max);
  }

  lemma CutAt(cs: seq<Bytes>, k: nat)
    requires k <= |cs|
    ensures |Flat(cs[..k])| + |Flat(cs[k..])| == |Flat(cs)|
    ensures Flat(cs)[|Flat(cs[..k])|..] == Flat(cs[k..])
  {
    hide Flat;
    FlatSplit(cs, k);
    PrefixOfConcat(Flat(cs[..k]), Flat(cs[k..]));
  }

  /** A start already on a boundary is where the walk ends. */
  lemma TailCuts(s: Bytes, max: nat)
    requires max < |s|
    ensures TailOf(s, max) == s[CeilBoundary(s, |s| - max)..]
  {
  }

  /** The walk forward from `start` ends after the character that holds it. */
  lemma CeilOf(cs: seq<Bytes>, start: nat) returns (k: nat)
    requires AllChars(cs) && 0 < start <= |Flat(cs)|
    ensures 0 < k <= |cs| && CeilBoundary(Flat(cs), start) == |Flat(cs[..k])|
    ensures |Flat(cs[..k - 1])| < start <= |Flat(cs[..k])| <= start + 3
  {
    hide Flat, Fitting;
    var i := Fitting(cs, start - 1);
    assert cs[..|cs|] == cs;
    FlatAround(cs, i);
    InsideChar(cs, i, 0);
    CeilInside(cs, i, start - |Flat(cs[..i])|);
    k := i + 1;
  }

  // ---------------------------------------------------------------- white space

  predicate Byte3(s: Bytes, at: nat, a: byte, b: byte, lo: byte, hi: byte) {
    at + 3 <= |s| && s[at] == a && s[at + 1] == b && lo <= s[at + 2] <= hi
  }

  /** The length of the white-space character whose encoding is at `at`. */
  function SpaceAt(s: Bytes, at: nat): (n: nat)
    ensures n > 0 ==> at + n <= |s| && (s[at] <= 32 || s[at] >= 0x80)
  {
    if at < |s| && (9 <= s[at] <= 13 || s[at] == 32) then 1
    else if at + 2 <= |s| && s[at] == 0xC2 && (s[at + 1] == 0x85 || s[at + 1] == 0xA0) then 2
    else if Byte3(s, at, 0xE1, 0x9A, 0x80, 0x80) || Byte3(s, at, 0xE2, 0x80, 0x80, 0x8A)
         || Byte3(s, at, 0xE2, 0x80, 0xA8, 0xA9) || Byte3(s, at, 0xE2, 0x80, 0xAF, 0xAF)
         || Byte3(s, at, 0xE2, 0x81, 0x9F, 0x9F) || Byte3(s, at, 0xE3, 0x80, 0x80, 0x80) then 3
    else 0
  }

  function TrimStart(s: Bytes): (t: Bytes)
    ensures |t| <= |s| && t == s[|s| - |t|..]
  {
    var n := SpaceAt(s, 0);
    if n == 0 then s else TrimStart(s[n..])
  }

  /** The length of the white-space character `s` ends with. */
  function SpaceAtEnd(s: Bytes): (n: nat)
    ensures n <= |s|
    ensures n > 0 ==> s[|s| - n] <= 32 || s[|s| - n] >= 0x80
  {
    if |s| >= 1 && SpaceAt(s, |s| - 1) == 1 then 1
    else if |s| >= 2 && SpaceAt(s, |s| - 2) == 2 then 2
    else if |s| >= 3 && SpaceAt(s, |s| - 3) == 3 then 3
    else 0
  }

  function TrimEnd(s: Bytes): (t: Bytes)
    ensures t <= s
  {
    var n := SpaceAtEnd(s);
    if n == 0 then s else TrimEnd(s[..|s| - n])
  }

  function Trim(s: Bytes): Bytes {
    TrimEnd(TrimStart(s))
  }

  /** Neither end is white space, so there is nothing to trim. */
  predicate Trimmed(s: Bytes) {
    SpaceAt(s, 0) == 0 && SpaceAtEnd(s) == 0
  }

  lemma TrimOfTrimmed(s: Bytes)
    requires Trimmed(s)
    ensures Trim(s) == s
  {
  }

  lemma {:induction false} TrimStartDone(s: Bytes)
    ensures SpaceAt(TrimStart(s), 0) == 0
    decreases |s|
  {
    hide SpaceAt;
    var n := SpaceAt(s, 0);
    if n > 0 {
      TrimStartDone(s[n..]);
    }
  }

  lemma {:induction false} TrimEndDone(s: Bytes)
    ensures SpaceAtEnd(TrimEnd(s)) == 0
    decreases |s|
  {
    hide SpaceAt, SpaceAtEnd;
    var n := SpaceAtEnd(s);
    if n > 0 {
      TrimEndDone(s[..|s| - n]);
    }
  }

  /** Trimming once is trimming for good. */
  lemma TrimIsTrimmed(s: Bytes)
    ensures Trimmed(Trim(s)) && Trim(Trim(s)) == Trim(s)
  {
    hide SpaceAtEnd;
    TrimStartDone(s);
    TrimEndDone(TrimStart(s));
    SpaceOfPrefix(TrimStart(s), Trim(s));
    TrimOfTrimmed(Trim(s));
  }

  lemma SpaceOfPrefix(s: Bytes, t: Bytes)
    requires t <= s && SpaceAt(s, 0) == 0
    ensures SpaceAt(t, 0) == 0
  {
  }

  /** Text of printable ASCII needs no trimming. */
  lemma PrintableIsTrimmed(s: Bytes)
    requires forall i | 0 <= i < |s| :: 0x21 <= s[i] < 0x7F
    ensures Trim(s) == s
  {
    assert SpaceAt(s, 0) == 0;
    assert SpaceAtEnd(s) == 0;
  }

  lemma TrimIsPart(s: Bytes, b: byte)
    requires b !in s
    ensures b !in Trim(s)
  {
    hide TrimStart, TrimEnd;
    var t := TrimStart(s);
    var u := TrimEnd(t);
    forall i | 0 <= i < |u|
      ensures u[i] == s[|s| - |t| + i]
    {
    }
  }

  /** The bytes of a word. */
  function Ascii(s: string): Bytes {
    seq(|s|, i requires 0 <= i < |s| => (s[i] as int % 128) as byte)
  }

  // ---------------------------------------------------------------- numbers

  function Decimal(n: nat): (d: Bytes)
    ensures |d| > 0 && forall i | 0 <= i < |d| :: 0x30 <= d[i] <= 0x39
  {
    (if n < 10 then [] else Decimal(n / 10)) + [(0x30 + n % 10) as byte]
  }

  /** The number some decimal digits write. */
  function ValueOf(d: Bytes): nat
    requires forall i | 0 <= i < |d| :: 0x30 <= d[i] <= 0x39
  {
    if |d| == 0 then 0 else 10 * ValueOf(d[..|d| - 1]) + (d[|d| - 1] as int - 0x30)
  }

  lemma {:induction false} ValueOfDecimal(n: nat)
    ensures ValueOf(Decimal(n)) == n
    decreases n
  {
    var d := Decimal(n);
    if n >= 10 {
      ValueOfDecimal(n / 10);
      assert d[..|d| - 1] == Decimal(n / 10);
    }
  }
}
