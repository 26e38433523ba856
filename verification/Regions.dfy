/** The regions no Windows build compiles: which attributes open one, where
    the item each gates ends, and whether a gap asks outside them. */
module Regions {
  import opened Jsonl
  import opened Lexer
  import Utf8

  // ---------------------------------------------------------------- braces

  /** The scan for the brace that closes, `depth` braces open at `i`. */
  function BraceEnd(src: string, i: nat, depth: nat): (r: Option<nat>)
    ensures r.Some? ==> i < r.value <= |src|
    decreases |src| - i
  {
    if i >= |src| then None
    else if !IsCode(src, i) then BraceEnd(src, Next(src, i), depth)
    else if src[i] == '{' then BraceEnd(src, i + 1, depth + 1)
    else if src[i] == '}' then
      if depth == 0 then None
      else if depth == 1 then Some(i + 1)
      else BraceEnd(src, i + 1, depth - 1)
    else BraceEnd(src, i + 1, depth)
  }

  method BalancedBraceEnd(src: string, open: nat) returns (end: Option<nat>)
    requires open <= |src|
    ensures end == BraceEnd(src, open, 0)
  {
    hide NonCodeEnd;
    var depth: nat := 0;
    var i := open;
    while i < |src|
      invariant open <= i <= |src|
      invariant BraceEnd(src, i, depth) == BraceEnd(src, open, 0)
      decreases |src| - i
    {
      var next := NonCodeEnd(src, i);
      if next.Some? {
        i := next.value;
        continue;
      }
      if src[i] == '{' {
        depth := depth + 1;
      } else if src[i] == '}' {
        if depth == 0 {
          return None;
        }
        depth := depth - 1;
        if depth == 0 {
          return Some(i + 1);
        }
      }
      i := i + 1;
    }
    end := None;
  }

  function CharAt(src: string, p: nat): char {
    if p < |src| then src[p] else ' '
  }

  function Brace(c: char): int {
    if c == '{' then 1 else if c == '}' then -1 else 0
  }

  /** Open braces less closed ones, over some places of the text. */
  function Depth(src: string, ps: seq<nat>): int
  {
    if |ps| == 0 then 0 else Brace(CharAt(src, ps[0])) + Depth(src, ps[1..])
  }

  /** The k-th of `ps` is the first to bring the count, `depth` before them, to zero. */
  predicate ClosesAt(src: string, ps: seq<nat>, depth: nat, k: nat)
  {
    && k < |ps|
    && depth + Depth(src, ps[..k + 1]) == 0
    && forall j: nat | 0 < j <= k :: depth + Depth(src, ps[..j]) > 0
  }

  lemma DepthHead(src: string, p: nat, ps: seq<nat>, k: nat)
    requires k <= |ps|
    ensures Depth(src, ([p] + ps)[..k + 1]) == Brace(CharAt(src, p)) + Depth(src, ps[..k])
  {
    assert ([p] + ps)[..k + 1] == [p] + ps[..k];
  }

  lemma ClosesLater(src: string, p: nat, ps: seq<nat>, depth: nat, k: nat)
    requires depth + Brace(CharAt(src, p)) > 0
    ensures ClosesAt(src, [p] + ps, depth, k + 1) <==> ClosesAt(src, ps, depth + Brace(CharAt(src, p)), k)
  {
    var d := depth + Brace(CharAt(src, p));
    if k < |ps| {
      DepthHead(src, p, ps, k + 1);
      forall j: nat | j <= k
        ensures depth + Depth(src, ([p] + ps)[..j + 1]) == d + Depth(src, ps[..j])
      {
        DepthHead(src, p, ps, j);
      }
      if ClosesAt(src, [p] + ps, depth, k + 1) {
        forall j: nat | 0 < j <= k
          ensures d + Depth(src, ps[..j]) > 0
        {
          assert depth + Depth(src, ([p] + ps)[..j + 1]) > 0;
        }
      }
      if ClosesAt(src, ps, d, k) {
        forall j: nat | 0 < j <= k + 1
          ensures depth + Depth(src, ([p] + ps)[..j]) > 0
        {
          assert depth + Depth(src, ([p] + ps)[..(j - 1) + 1]) == d + Depth(src, ps[..j - 1]);
          assert j == 1 ==> ps[..0] == [];
        }
      }
    }
  }

  lemma ClosesFirst(src: string, p: nat, ps: seq<nat>, depth: nat)
    ensures ClosesAt(src, [p] + ps, depth, 0) <==> depth + Brace(CharAt(src, p)) == 0
  {
    DepthHead(src, p, ps, 0);
    assert ps[..0] == [];
  }

  ghost predicate EndsAt(src: string, ps: seq<nat>, depth: nat, end: Option<nat>)
  {
    match end
    case Some(e) => exists k: nat :: k < |ps| && ClosesAt(src, ps, depth, k) && ps[k] + 1 == e
    case None => forall k: nat :: !ClosesAt(src, ps, depth, k)
  }

  lemma EndsLater(src: string, p: nat, ps: seq<nat>, depth: nat, end: Option<nat>)
    requires depth + Brace(CharAt(src, p)) > 0 && EndsAt(src, ps, depth + Brace(CharAt(src, p)), end)
    ensures EndsAt(src, [p] + ps, depth, end)
  {
    hide ClosesAt;
    var d := depth + Brace(CharAt(src, p));
    match end
    case Some(e) =>
      var k: nat :| k < |ps| && ClosesAt(src, ps, d, k) && ps[k] + 1 == e;
      ClosesLater(src, p, ps, depth, k);
    case None =>
      forall k: nat
        ensures !ClosesAt(src, [p] + ps, depth, k)
      {
        if k == 0 {
          ClosesFirst(src, p, ps, depth);
        } else {
          ClosesLater(src, p, ps, depth, k - 1);
        }
      }
  }

  /** THE SCAN ENDS WHERE THE BRACES BALANCE: with braces open it returns the
      place after the first code brace that closes the last of them, and
      nothing exactly when no code place does. */
  lemma {:induction false} BraceEndMeaning(src: string, i: nat, depth: nat)
    requires i <= |src| && depth > 0
    ensures EndsAt(src, Codes(src, i), depth, BraceEnd(src, i, depth))
    decreases |src| - i
  {
    hide NonCodeEnd, EndsAt;
    if i == |src| {
      NeverEnds(src, depth);
    } else if !IsCode(src, i) {
      BraceEndMeaning(src, Next(src, i), depth);
    } else {
      var ps, d := Codes(src, i + 1), depth + Brace(src[i]);
      assert Codes(src, i) == [i] + ps;
      if d == 0 {
        EndsNow(src, i, ps, depth);
      } else {
        BraceEndMeaning(src, i + 1, d);
        EndsLater(src, i, ps, depth, BraceEnd(src, i + 1, d));
      }
    }
  }

  lemma EndsNow(src: string, p: nat, ps: seq<nat>, depth: nat)
    requires depth + Brace(CharAt(src, p)) == 0
    ensures EndsAt(src, [p] + ps, depth, Some(p + 1))
  {
    ClosesFirst(src, p, ps, depth);
    assert ([p] + ps)[0] == p;
  }

  lemma NeverEnds(src: string, depth: nat)
    ensures EndsAt(src, [], depth, None)
  {
  }

  /** From an opening brace, where an item's body ends. */
  lemma BodyEnds(src: string, open: nat)
    requires IsCode(src, open) && src[open] == '{'
    ensures EndsAt(src, Codes(src, open), 0, BraceEnd(src, open, 0))
  {
    hide NonCodeEnd, EndsAt;
    BraceEndMeaning(src, open + 1, 1);
    var ps := Codes(src, open + 1);
    assert Codes(src, open) == [open] + ps;
    EndsLater(src, open, ps, 0, BraceEnd(src, open + 1, 1));
  }

  // ---------------------------------------------------------------- items

  function Nest(c: char, nested: nat): nat {
    if c == '(' || c == '[' then nested + 1
    else if (c == ')' || c == ']') && nested > 0 then nested - 1
    else nested
  }

  /** Past the item an attribute ending at `i` gates. */
  function ItemEnd(src: string, i: nat, nested: nat): (r: Option<nat>)
    ensures r.Some? ==> i < r.value <= |src|
    decreases |src| - i
  {
    if i >= |src| then None
    else if !IsCode(src, i) then ItemEnd(src, Next(src, i), nested)
    else if nested == 0 && src[i] == '{' then BraceEnd(src, i, 0)
    else if nested == 0 && (src[i] == ';' || src[i] == ',') then Some(i + 1)
    else ItemEnd(src, i + 1, Nest(src[i], nested))
  }

  method GatedItemEnd(src: string, from: nat) returns (end: Option<nat>)
    requires from <= |src|
    ensures end == ItemEnd(src, from, 0)
  {
    hide NonCodeEnd, BraceEnd;
    var i := from;
    var nested: nat := 0;
    while i < |src|
      invariant from <= i <= |src|
      invariant ItemEnd(src, i, nested) == ItemEnd(src, from, 0)
      decreases |src| - i
    {
      var next := NonCodeEnd(src, i);
      if next.Some? {
        i := next.value;
        continue;
      }
      var ch := src[i];
      if ch == '(' || ch == '[' {
        nested := nested + 1;
      } else if ch == ')' || ch == ']' {
        nested := if nested > 0 then nested - 1 else 0;
      } else if ch == '{' && nested == 0 {
        end := BalancedBraceEnd(src, i);
        return;
      } else if (ch == ';' || ch == ',') && nested == 0 {
        return Some(i + 1);
      }
      i := i + 1;
    }
    end := None;
  }

  /** The nesting after some places of the text. */
  function Nesting(src: string, ps: seq<nat>): nat
  {
    if |ps| == 0 then 0 else Nest(CharAt(src, ps[|ps| - 1]), Nesting(src, ps[..|ps| - 1]))
  }

  /** Parentheses and brackets opened less those closed, over some places. */
  function Surplus(src: string, ps: seq<nat>): int {
    if |ps| == 0 then 0
    else
      Surplus(src, ps[..|ps| - 1])
      + match CharAt(src, ps[|ps| - 1])
        case '(' => 1
        case '[' => 1
        case ')' => -1
        case ']' => -1
        case _ => 0
  }

  /** Outside every parenthesis and bracket: none opened on the way is still
      open, whatever was closed before it. */
  ghost predicate Outside(src: string, ps: seq<nat>) {
    forall j | 0 <= j <= |ps| :: Surplus(src, ps[j..]) <= 0
  }

  lemma SurplusSnoc(src: string, ps: seq<nat>, p: nat, j: nat)
    requires j <= |ps|
    ensures Surplus(src, (ps + [p])[j..]) ==
            Surplus(src, ps[j..]) + match CharAt(src, p)
                                    case '(' => 1
                                    case '[' => 1
                                    case ')' => -1
                                    case ']' => -1
                                    case _ => 0
  {
    assert (ps + [p])[j..] == ps[j..] + [p];
    assert (ps[j..] + [p])[..|ps| - j] == ps[j..];
  }

  /** The loop's count is the greatest surplus that the places end with. */
  lemma {:induction false} NestingIsSurplus(src: string, ps: seq<nat>)
    ensures forall j | 0 <= j <= |ps| :: Surplus(src, ps[j..]) <= Nesting(src, ps)
    ensures exists j :: 0 <= j <= |ps| && Surplus(src, ps[j..]) == Nesting(src, ps)
    decreases |ps|
  {
    assert ps[|ps|..] == [];
    if |ps| > 0 {
      var front, p := ps[..|ps| - 1], ps[|ps| - 1];
      assert ps == front + [p];
      NestingIsSurplus(src, front);
      hide Surplus;
      forall j | 0 <= j < |ps|
        ensures Surplus(src, ps[j..]) <= Nesting(src, ps)
      {
        SurplusSnoc(src, front, p, j);
        assert Surplus(src, front[j..]) <= Nesting(src, front);
      }
      NoSurplus(src);
      var j :| 0 <= j <= |front| && Surplus(src, front[j..]) == Nesting(src, front);
      SurplusSnoc(src, front, p, j);
      assert Surplus(src, ps[j..]) == Nesting(src, ps) || Surplus(src, ps[|ps|..]) == Nesting(src, ps);
    }
  }

  lemma NestingSnoc(src: string, ps: seq<nat>, p: nat)
    ensures Nesting(src, ps + [p]) == Nest(CharAt(src, p), Nesting(src, ps))
  {
    assert (ps + [p])[..|ps|] == ps;
  }

  lemma NoSurplus(src: string)
    ensures Surplus(src, []) == 0
  {
  }

  lemma NestingMeans(src: string, ps: seq<nat>)
    ensures Nesting(src, ps) == 0 <==> Outside(src, ps)
  {
    NestingIsSurplus(src, ps);
    hide Surplus, Nesting;
    NoSurplus(src);
    assert ps[|ps|..] == [];
  }

  predicate Stop(c: char) {
    c == '{' || c == ';' || c == ','
  }

  ghost predicate StopsAt(src: string, ps: seq<nat>, k: nat)
  {
    k < |ps| && Stop(CharAt(src, ps[k])) && Outside(src, ps[..k])
  }

  /** What an item's end means, given the code places before `i` already passed. */
  ghost predicate ItemEndsAt(src: string, ps: seq<nat>, from: nat, end: Option<nat>)
  {
    if exists k: nat :: from <= k && StopsAt(src, ps, k) then
      exists k: nat :: from <= k < |ps| && StopsAt(src, ps, k)
        && (forall j: nat | from <= j < k :: !StopsAt(src, ps, j))
        && end == (if CharAt(src, ps[k]) == '{' then BraceEnd(src, ps[k], 0) else Some(ps[k] + 1))
    else end == None
  }

  lemma {:induction false} ItemEndWalk(src: string, before: seq<nat>, i: nat)
    requires i <= |src| && forall p | p in before :: IsCode(src, p)
    ensures ItemEndsAt(src, before + Codes(src, i), |before|, ItemEnd(src, i, Nesting(src, before)))
    decreases |src| - i
  {
    hide NonCodeEnd, BraceEnd, Nest, Nesting, Outside, ItemEndsAt, StopsAt, Stop;
    NestingMeans(src, before);
    var ps := before + Codes(src, i);
    if i == |src| {
      NoStopLeft(src, before);
    } else {
      if !IsCode(src, i) {
        ItemEndWalk(src, before, Next(src, i));
      } else {
        assert ps == (before + [i]) + Codes(src, i + 1);
        NestingSnoc(src, before, i);
        StopHere(src, before, i, Codes(src, i + 1));
        ItemEndStep(src, i, Nesting(src, before));
        hide ItemEnd, Codes, IsCode;
        if !(Nesting(src, before) == 0 && Stop(src[i])) {
          ItemEndWalk(src, before + [i], i + 1);
          SkipOne(src, ps, |before|, ItemEnd(src, i, Nesting(src, before)));
        }
      }
    }
  }

  lemma ItemEndStep(src: string, i: nat, nested: nat)
    requires IsCode(src, i)
    ensures ItemEnd(src, i, nested) ==
            if nested == 0 && Stop(src[i]) then if src[i] == '{' then BraceEnd(src, i, 0) else Some(i + 1)
            else ItemEnd(src, i + 1, Nest(src[i], nested))
  {
    hide NonCodeEnd, BraceEnd;
  }

  lemma NoStopLeft(src: string, before: seq<nat>)
    ensures before + Codes(src, |src|) == before && ItemEndsAt(src, before, |before|, None)
  {
  }

  lemma StopHere(src: string, before: seq<nat>, i: nat, rest: seq<nat>)
    requires i < |src|
    ensures var ps := (before + [i]) + rest;
            if Outside(src, before) && Stop(src[i]) then
              ItemEndsAt(src, ps, |before|, if src[i] == '{' then BraceEnd(src, i, 0) else Some(i + 1))
            else !StopsAt(src, ps, |before|)
  {
    hide BraceEnd, Outside;
    var ps := (before + [i]) + rest;
    assert ps[..|before|] == before && ps[|before|] == i;
    assert Outside(src, before) && Stop(src[i]) ==> StopsAt(src, ps, |before|);
  }

  lemma SkipOne(src: string, ps: seq<nat>, from: nat, end: Option<nat>)
    requires !StopsAt(src, ps, from) && ItemEndsAt(src, ps, from + 1, end)
    ensures ItemEndsAt(src, ps, from, end)
  {
    hide StopsAt, BraceEnd, IsCode;
    if k: nat :| from <= k && StopsAt(src, ps, k) {
      assert from + 1 <= k;
    }
  }

  /** WHERE A GATED ITEM ENDS: at the first `{`, `;` or `,` of code outside any
      parenthesis, past it, or past the brace that closes the body it opens. */
  lemma ItemEndMeaning(src: string, from: nat)
    requires from <= |src|
    ensures ItemEndsAt(src, Codes(src, from), 0, ItemEnd(src, from, 0))
  {
    hide ItemEndsAt, ItemEnd;
    ItemEndWalk(src, [], from);
    assert [] + Codes(src, from) == Codes(src, from);
  }

  // ---------------------------------------------------------------- dead ranges

  const DEAD_ON_WINDOWS: seq<string> :=
    ["#[cfg(unix)]", "#[cfg(not(windows))]", "#[cfg(target_os = \"linux\")]"]

  datatype Range = Range(start: nat, end: nat)

  /** `char::is_whitespace`. */
  predicate IsSpace(c: char) {
    Utf8.WhiteSpace(c as int)
  }

  /** Only white space stands between the last newline and `i`. */
  predicate LineStart(src: string, i: nat)
    requires i <= |src|
  {
    i == 0 || src[i - 1] == '\n' || (IsSpace(src[i - 1]) && LineStart(src, i - 1))
  }

  /** The end of the item gated at `i` by an attribute no Windows build meets. */
  function RegionEnd(src: string, i: nat): (r: Option<nat>)
    ensures r.Some? ==> i < r.value <= |src|
  {
    if StartsAt(src, i, DEAD_ON_WINDOWS[0]) then ItemEnd(src, i + |DEAD_ON_WINDOWS[0]|, 0)
    else if StartsAt(src, i, DEAD_ON_WINDOWS[1]) then ItemEnd(src, i + |DEAD_ON_WINDOWS[1]|, 0)
    else if StartsAt(src, i, DEAD_ON_WINDOWS[2]) then ItemEnd(src, i + |DEAD_ON_WINDOWS[2]|, 0)
    else None
  }

  /** A REGION is one of the three attributes and the item it gates. */
  lemma RegionEndMeans(src: string, i: nat, end: nat)
    ensures RegionEnd(src, i) == Some(end) <==>
            exists attr | attr in {"#[cfg(unix)]", "#[cfg(not(windows))]", "#[cfg(target_os = \"linux\")]"} ::
              StartsAt(src, i, attr) && ItemEnd(src, i + |attr|, 0) == Some(end)
  {
    OneAttribute(src, i);
    hide StartsAt, ItemEnd;
  }

  lemma OneAttribute(src: string, i: nat)
    ensures StartsAt(src, i, DEAD_ON_WINDOWS[0]) ==>
              !StartsAt(src, i, DEAD_ON_WINDOWS[1]) && !StartsAt(src, i, DEAD_ON_WINDOWS[2])
    ensures StartsAt(src, i, DEAD_ON_WINDOWS[1]) ==> !StartsAt(src, i, DEAD_ON_WINDOWS[2])
  {
    forall k | 0 <= k < 3 && StartsAt(src, i, DEAD_ON_WINDOWS[k])
      ensures i + 7 < |src| && src[i + 6] == DEAD_ON_WINDOWS[k][6]
    {
      assert src[i..i + |DEAD_ON_WINDOWS[k]|][6] == src[i + 6];
    }
  }

  /** A line begins at `m` and has only white space up to `i`. */
  predicate BlankFrom(src: string, m: int, i: nat) {
    0 <= m <= i <= |src| && (m == 0 || src[m - 1] == '\n') && forall j | m <= j < i :: IsSpace(src[j])
  }

  /** A LINE STARTS at `i` when only white space stands before it since a
      newline, or since the text began. */
  lemma {:induction false} LineStartMeans(src: string, i: nat)
    requires i <= |src|
    ensures LineStart(src, i) <==> exists m :: BlankFrom(src, m, i)
    decreases i
  {
    assert i == 0 || src[i - 1] == '\n' ==> BlankFrom(src, i, i);
    if i > 0 {
      LineStartMeans(src, i - 1);
      if m :| BlankFrom(src, m, i) {
        assert m < i ==> IsSpace(src[i - 1]) && BlankFrom(src, m, i - 1);
      }
      var k := i - 1;
      if m :| BlankFrom(src, m, k) {
        assert IsSpace(src[k]) ==> BlankFrom(src, m, i);
      }
    }
  }

  function DeadRanges(src: string, i: nat): seq<Range>
    requires i <= |src|
    decreases |src| - i
  {
    if i == |src| then []
    else if !IsCode(src, i) then DeadRanges(src, Next(src, i))
    else if LineStart(src, i) && RegionEnd(src, i).Some? then
      [Range(i, RegionEnd(src, i).value)] + DeadRanges(src, RegionEnd(src, i).value)
    else DeadRanges(src, i + 1)
  }

  predicate AllSpace(s: string) {
    forall i | 0 <= i < |s| :: IsSpace(s[i])
  }

  /** `rfind('\n')`. */
  function LastNewline(s: string): (r: Option<nat>)
    ensures r.Some? ==> r.value < |s| && s[r.value] == '\n' && forall j | r.value < j < |s| :: s[j] != '\n'
    ensures r.None? ==> '\n' !in s
  {
    if |s| == 0 then None
    else if s[|s| - 1] == '\n' then Some(|s| - 1)
    else LastNewline(s[..|s| - 1])
  }

  /** After a comment or literal: a newline in it, then only white space. */
  predicate EndsOnFreshLine(s: string) {
    LastNewline(s).Some? && AllSpace(s[LastNewline(s).value + 1..])
  }

  lemma {:induction false} BlankBack(src: string, m: nat, i: nat)
    requires m <= i <= |src| && forall j | m <= j < i :: IsSpace(src[j]) && src[j] != '\n'
    ensures LineStart(src, i) <==> LineStart(src, m)
    decreases i - m
  {
    if m < i {
      BlankBack(src, m, i - 1);
    }
  }

  lemma {:induction false} NotBlankBack(src: string, m: nat, i: nat)
    requires m < i <= |src| && !IsSpace(src[m])
    requires forall j | m <= j < i :: src[j] != '\n'
    ensures !LineStart(src, i)
    decreases i - m
  {
    if IsSpace(src[i - 1]) {
      NotBlankBack(src, m, i - 1);
    }
  }

  lemma FreshLineStart(src: string, i: nat, next: nat)
    requires i < next <= |src| && !IsSpace(src[i])
    ensures EndsOnFreshLine(src[i..next]) <==> LineStart(src, next)
  {
    var s := src[i..next];
    match LastNewline(s)
    case None =>
      assert forall j | i <= j < next :: src[j] == s[j - i];
      NotBlankBack(src, i, next);
    case Some(n) =>
      var m := i + n + 1;
      assert src[m - 1] == s[n];
      assert forall j | m <= j < next :: src[j] == s[j - i] != '\n';
      if AllSpace(s[n + 1..]) {
        assert forall j | m <= j < next :: src[j] == s[n + 1..][j - m];
        BlankBack(src, m, next);
      } else {
        var k :| 0 <= k < |s[n + 1..]| && !IsSpace(s[n + 1..][k]);
        assert src[m + k] == s[n + 1..][k];
        NotBlankBack(src, m + k, next);
      }
  }

  /** The scanner: a walk that remembers whether its line is blank so far. */
  method CfgDeadRanges(src: string) returns (ranges: seq<Range>)
    ensures ranges == DeadRanges(src, 0)
  {
    hide NonCodeEnd, RegionEnd, LineStart, IsSpace, EndsOnFreshLine, IsCode;
    ranges := [];
    var i := 0;
    var atLineStart := true;
    assert LineStart(src, 0) by {
      StartIsBlank(src);
    }
    while i < |src|
      invariant 0 <= i <= |src|
      invariant ranges + DeadRanges(src, i) == DeadRanges(src, 0)
      invariant atLineStart == LineStart(src, i)
      decreases |src| - i
    {
      ghost var was := i;
      var next := NonCodeEnd(src, i);
      CodeOrNot(src, i);
      if next.Some? {
        LiteralIsInk(src, i);
        FreshLineStart(src, i, next.value);
        atLineStart := EndsOnFreshLine(src[i..next.value]);
        i := next.value;
        continue;
      }
      if atLineStart {
        var region := RegionEnd(src, i);
        if region.Some? {
          RegionIsInk(src, i);
          Assoc(ranges, [Range(i, region.value)], DeadRanges(src, region.value));
          ranges := ranges + [Range(i, region.value)];
          i := region.value;
          atLineStart := false;
          continue;
        }
      }
      LineStartNext(src, i);
      atLineStart := if src[i] == '\n' then true else if IsSpace(src[i]) then atLineStart else false;
      i := i + 1;
    }
    assert ranges + [] == ranges;
  }

  lemma StartIsBlank(src: string)
    ensures LineStart(src, 0)
  {
  }

  lemma CodeOrNot(src: string, i: nat)
    requires i < |src|
    ensures IsCode(src, i) <==> NonCodeEnd(src, i).None?
    ensures Next(src, i) == if IsCode(src, i) then i + 1 else NonCodeEnd(src, i).value
  {
  }

  lemma LineStartNext(src: string, i: nat)
    requires i < |src|
    ensures LineStart(src, i + 1)
       <==> (src[i] == '\n' || (IsSpace(src[i]) && LineStart(src, i)))
  {
  }

  lemma LiteralIsInk(src: string, i: nat)
    requires i < |src| && NonCodeEnd(src, i).Some?
    ensures !IsSpace(src[i])
  {
    hide NonCodeEnd;
    if !Opener(src[i]) {
      OnlyOpenersOpen(src, i);
    }
  }

  /** A region ends on its item's last character, never at the start of a line. */
  lemma RegionIsInk(src: string, i: nat)
    requires RegionEnd(src, i).Some?
    ensures !LineStart(src, RegionEnd(src, i).value)
  {
    hide ItemEnd;
    forall a: nat | ItemEnd(src, a, 0).Some?
      ensures !LineStart(src, ItemEnd(src, a, 0).value)
    {
      ItemIsInk(src, a, 0);
    }
  }

  lemma {:induction false} ItemIsInk(src: string, i: nat, nested: nat)
    requires ItemEnd(src, i, nested).Some?
    ensures !LineStart(src, ItemEnd(src, i, nested).value)
    decreases |src| - i
  {
    hide NonCodeEnd, BraceEnd;
    if !IsCode(src, i) {
      ItemIsInk(src, Next(src, i), nested);
    } else if nested == 0 && src[i] == '{' {
      BraceIsInk(src, i, 0);
    } else if nested == 0 && (src[i] == ';' || src[i] == ',') {
      assert !IsSpace(src[i]);
    } else {
      ItemIsInk(src, i + 1, Nest(src[i], nested));
    }
  }

  lemma {:induction false} BraceIsInk(src: string, i: nat, depth: nat)
    requires BraceEnd(src, i, depth).Some?
    ensures !LineStart(src, BraceEnd(src, i, depth).value)
    decreases |src| - i
  {
    hide NonCodeEnd;
    if !IsCode(src, i) {
      BraceIsInk(src, Next(src, i), depth);
    } else if src[i] == '}' && depth == 1 {
      assert !IsSpace(src[i]);
    } else {
      BraceIsInk(src, i + 1, depth + Brace(src[i]));
    }
  }

  // ---------------------------------------------------------------- what the ranges are

  /** In bounds, not empty, in order and apart. */
  ghost predicate InOrder(rs: seq<Range>, lo: nat, hi: nat) {
    && (forall k | 0 <= k < |rs| :: lo <= rs[k].start < rs[k].end <= hi)
    && forall j, k | 0 <= j < k < |rs| :: rs[j].end <= rs[k].start
  }

  lemma {:induction false} RangesInOrder(src: string, i: nat)
    requires i <= |src|
    ensures InOrder(DeadRanges(src, i), i, |src|)
    decreases |src| - i
  {
    hide NonCodeEnd, RegionEnd, LineStart;
    if i < |src| {
      if !IsCode(src, i) {
        RangesInOrder(src, Next(src, i));
      } else if LineStart(src, i) && RegionEnd(src, i).Some? {
        RangesInOrder(src, RegionEnd(src, i).value);
      } else {
        RangesInOrder(src, i + 1);
      }
    }
  }

  lemma {:induction false} BraceOnWalk(src: string, i: nat, depth: nat)
    requires BraceEnd(src, i, depth).Some?
    ensures Reaches(src, i, BraceEnd(src, i, depth).value)
    decreases |src| - i
  {
    hide NonCodeEnd;
    if !IsCode(src, i) {
      BraceOnWalk(src, Next(src, i), depth);
    } else if src[i] == '}' && depth == 1 {
      assert Reaches(src, i + 1, i + 1);
    } else {
      BraceOnWalk(src, i + 1, depth + Brace(src[i]));
    }
  }

  lemma {:induction false} ItemOnWalk(src: string, i: nat, nested: nat)
    requires ItemEnd(src, i, nested).Some?
    ensures Reaches(src, i, ItemEnd(src, i, nested).value)
    decreases |src| - i
  {
    hide NonCodeEnd, BraceEnd;
    if !IsCode(src, i) {
      ItemOnWalk(src, Next(src, i), nested);
    } else if nested == 0 && src[i] == '{' {
      BraceOnWalk(src, i, 0);
    } else if nested == 0 && (src[i] == ';' || src[i] == ',') {
      assert Reaches(src, i + 1, i + 1);
    } else {
      ItemOnWalk(src, i + 1, Nest(src[i], nested));
    }
  }

  /** A stretch with no character that opens a comment or literal is walked through. */
  lemma {:induction false} PlainWalk(src: string, i: nat, n: nat)
    requires i + n <= |src| && forall j | i <= j < i + n :: !Opener(src[j])
    ensures Reaches(src, i, i + n)
    decreases n
  {
    hide NonCodeEnd;
    if n > 0 {
      OnlyOpenersOpen(src, i);
      PlainWalk(src, i + 1, n - 1);
    }
  }

  lemma PlainPattern(src: string, i: nat, pat: string)
    requires StartsAt(src, i, pat) && forall j | 0 <= j < |pat| :: !Opener(pat[j])
    ensures Reaches(src, i, i + |pat|)
  {
    hide Reaches, Opener;
    forall j | i <= j < i + |pat|
      ensures !Opener(src[j])
    {
      assert src[j] == src[i..i + |pat|][j - i];
    }
    PlainWalk(src, i, |pat|);
  }

  /** The attribute is walked through too, its one string literal as a whole. */
  lemma AttributeOnWalk(src: string, i: nat)
    ensures StartsAt(src, i, DEAD_ON_WINDOWS[0]) ==> Reaches(src, i, i + |DEAD_ON_WINDOWS[0]|)
    ensures StartsAt(src, i, DEAD_ON_WINDOWS[1]) ==> Reaches(src, i, i + |DEAD_ON_WINDOWS[1]|)
    ensures StartsAt(src, i, DEAD_ON_WINDOWS[2]) ==> Reaches(src, i, i + |DEAD_ON_WINDOWS[2]|)
  {
    hide Reaches, StartsAt;
    if StartsAt(src, i, DEAD_ON_WINDOWS[0]) {
      PlainPattern(src, i, DEAD_ON_WINDOWS[0]);
    }
    if StartsAt(src, i, DEAD_ON_WINDOWS[1]) {
      PlainPattern(src, i, DEAD_ON_WINDOWS[1]);
    }
    if StartsAt(src, i, DEAD_ON_WINDOWS[2]) {
      LinuxOnWalk(src, i);
    }
  }

  lemma PatternSplit(src: string, i: nat, a: string, b: string)
    requires StartsAt(src, i, a + b)
    ensures StartsAt(src, i, a) && StartsAt(src, i + |a|, b)
  {
    assert (a + b)[..|a|] == a && (a + b)[|a|..] == b;
    assert src[i..i + |a|] == src[i..i + |a + b|][..|a|];
    assert src[i + |a|..i + |a| + |b|] == src[i..i + |a + b|][|a|..];
  }

  lemma LinuxOnWalk(src: string, i: nat)
    requires StartsAt(src, i, DEAD_ON_WINDOWS[2])
    ensures Reaches(src, i, i + |DEAD_ON_WINDOWS[2]|)
  {
    hide Reaches, StartsAt;
    var a, b, c, d, e := "#[cfg(ta", "r", "get_os = ", "\"linux\"", ")]";
    assert DEAD_ON_WINDOWS[2] == a + (b + (c + (d + e)));
    PatternSplit(src, i, a, b + (c + (d + e)));
    PatternSplit(src, i + 8, b, c + (d + e));
    PatternSplit(src, i + 9, c, d + e);
    PatternSplit(src, i + 18, d, e);
    PlainPattern(src, i, a);
    LoneR(src, i + 8, c);
    PlainPattern(src, i + 9, c);
    ShortString(src, i + 18);
    PlainPattern(src, i + 25, e);
    ReachesTrans(src, i + 18, i + 25, i + 27);
    ReachesTrans(src, i + 9, i + 18, i + 27);
    ReachesTrans(src, i + 8, i + 9, i + 27);
    ReachesTrans(src, i, i + 8, i + 27);
  }

  /** An `r` before a letter starts no raw string. */
  lemma LoneR(src: string, i: nat, c: string)
    requires StartsAt(src, i, "r") && StartsAt(src, i + 1, c) && |c| > 0 && c[0] == 'g'
    ensures Reaches(src, i, i + 1)
  {
    assert src[i] == src[i..i + 1][0] == 'r';
    FirstChar(src, i + 1, c);
    FirstChar(src, i, "//");
    FirstChar(src, i, "/*");
    FirstChar(src, i, "br");
    FirstChar(src, i, "\"");
    FirstChar(src, i, "'");
    assert Hashes(src, i + 1) == 0;
    FirstChar(src, i + 1, "\"");
    assert RawStringEnd(src, i) == None;
    assert Next(src, i) == i + 1;
  }

  lemma ShortString(src: string, i: nat)
    requires StartsAt(src, i, "\"linux\"")
    ensures Reaches(src, i, i + 7)
  {
    var s := src[i..i + 7];
    assert s[0] == src[i] && s[1] == src[i + 1] && s[2] == src[i + 2] && s[3] == src[i + 3]
        && s[4] == src[i + 4] && s[5] == src[i + 5] && s[6] == src[i + 6];
    StringOnWalk(src, i);
    assert StringEnd(src, i + 6) == i + 7;
    assert StringEnd(src, i + 4) == i + 7;
    assert StringEnd(src, i + 2) == i + 7;
    assert Reaches(src, i + 7, i + 7);
  }

  lemma StringOnWalk(src: string, i: nat)
    requires i < |src| && src[i] == '\"'
    ensures Next(src, i) == StringEnd(src, i + 1)
  {
    FirstChar(src, i, "//");
    FirstChar(src, i, "/*");
    FirstChar(src, i, "br");
    FirstChar(src, i, "r");
    assert src[i..i + 1] == "\"";
  }

  lemma RegionOnWalk(src: string, i: nat)
    requires RegionEnd(src, i).Some?
    ensures Reaches(src, i, RegionEnd(src, i).value)
  {
    hide Reaches, ItemEnd, StartsAt;
    AttributeOnWalk(src, i);
    var n := if StartsAt(src, i, DEAD_ON_WINDOWS[0]) then |DEAD_ON_WINDOWS[0]|
             else if StartsAt(src, i, DEAD_ON_WINDOWS[1]) then |DEAD_ON_WINDOWS[1]|
             else |DEAD_ON_WINDOWS[2]|;
    ItemOnWalk(src, i + n, 0);
    ReachesTrans(src, i, i + n, RegionEnd(src, i).value);
  }

  /** `p` is code at the start of a line, and an attribute there gates an item
      whose end the scan can find. */
  predicate Gates(src: string, p: nat) {
    IsCode(src, p) && LineStart(src, p) && RegionEnd(src, p).Some?
  }

  ghost predicate Covered(rs: seq<Range>, p: int) {
    exists k :: 0 <= k < |rs| && rs[k].start <= p < rs[k].end
  }

  /** The range starts at a gating attribute the walk from `i` stops at, and
      ends where that item ends, a place the walk stops at too. */
  predicate OnWalk(src: string, i: nat, r: Range) {
    && Gates(src, r.start) && RegionEnd(src, r.start) == Some(r.end)
    && Reaches(src, i, r.start) && Reaches(src, i, r.end)
  }

  lemma OnWalkFrom(src: string, i: nat, next: nat, rs: seq<Range>)
    requires Reaches(src, i, next) && forall k | 0 <= k < |rs| :: OnWalk(src, next, rs[k])
    ensures forall k | 0 <= k < |rs| :: OnWalk(src, i, rs[k])
  {
    hide Reaches, Gates, RegionEnd;
    forall k | 0 <= k < |rs|
      ensures OnWalk(src, i, rs[k])
    {
      assert OnWalk(src, next, rs[k]);
      ReachesTrans(src, i, next, rs[k].start);
      ReachesTrans(src, i, next, rs[k].end);
    }
  }

  /** THE DEAD RANGES ARE GATED ITEMS: none begins or ends inside a comment or
      a literal, and each is one attribute with the item it gates. */
  lemma {:induction false} RangesAreItems(src: string, i: nat)
    requires i <= |src|
    ensures forall k | 0 <= k < |DeadRanges(src, i)| :: OnWalk(src, i, DeadRanges(src, i)[k])
    decreases |src| - i
  {
    hide NonCodeEnd, RegionEnd, LineStart, OnWalk;
    if i < |src| {
      var next := if Gates(src, i) then RegionEnd(src, i).value else Next(src, i);
      if Gates(src, i) {
        RegionOnWalk(src, i);
        FirstOnWalk(src, i);
      }
      assert Reaches(src, next, next);
      RangesAreItems(src, next);
      OnWalkFrom(src, i, next, DeadRanges(src, next));
    }
  }

  lemma FirstOnWalk(src: string, i: nat)
    requires Gates(src, i) && Reaches(src, i, RegionEnd(src, i).value)
    ensures OnWalk(src, i, Range(i, RegionEnd(src, i).value))
  {
  }

  /** AND EVERY ONE OF THEM: a gating attribute that the walk stops at lies in
      some range. */
  lemma {:induction false} EveryItemIsCovered(src: string, i: nat, p: nat)
    requires i <= |src| && Reaches(src, i, p) && Gates(src, p)
    ensures Covered(DeadRanges(src, i), p)
    decreases |src| - i
  {
    hide NonCodeEnd, RegionEnd, LineStart;
    ReachesOn(src, i, p);
    if Gates(src, i) {
      var e := RegionEnd(src, i).value;
      if p < e {
        assert DeadRanges(src, i)[0] == Range(i, e);
      } else {
        RegionOnWalk(src, i);
        OneWalk(src, i, e, p);
        EveryItemIsCovered(src, e, p);
        CoveredLater(Range(i, e), DeadRanges(src, e), p);
      }
    } else {
      assert p != i;
      EveryItemIsCovered(src, Next(src, i), p);
    }
  }

  lemma CoveredLater(r: Range, rs: seq<Range>, p: nat)
    requires Covered(rs, p)
    ensures Covered([r] + rs, p)
  {
    var k :| 0 <= k < |rs| && rs[k].start <= p < rs[k].end;
    assert ([r] + rs)[k + 1] == rs[k];
  }

  // ---------------------------------------------------------------- the gap

  predicate Contains(s: string, pat: string) {
    exists p :: 0 <= p <= |s| && StartsAt(s, p, pat)
  }

  /** Does a stretch of text hold one of the asks? */
  predicate Asks(asks: seq<string>, s: string) {
    exists k :: 0 <= k < |asks| && Contains(s, asks[k])
  }

  /** Does one of the asks stand whole between `lo` and `hi`, on live text only? */
  ghost predicate LiveAsk(src: string, dead: seq<Range>, asks: seq<string>, lo: nat, hi: nat) {
    exists k, p :: 0 <= k < |asks| && LiveAt(src, dead, asks[k], p, lo, hi)
  }

  ghost predicate LiveAt(src: string, dead: seq<Range>, ask: string, p: int, lo: nat, hi: nat) {
    && lo <= p && p + |ask| <= hi && StartsAt(src, p, ask)
    && forall q | p <= q < p + |ask| :: !Covered(dead, q)
  }

  lemma SegmentAt(src: string, dead: seq<Range>, ask: string, p: nat, lo: nat, hi: nat)
    requires lo <= hi <= |src| && forall q | lo <= q < hi :: !Covered(dead, q)
    ensures StartsAt(src[lo..hi], p, ask) <==> LiveAt(src, dead, ask, p + lo, lo, hi)
  {
    hide Covered;
    var s := src[lo..hi];
    if p + |ask| <= |s| {
      assert forall j | p <= j < p + |ask| :: s[j] == src[j + lo];
      assert s[p..p + |ask|] == src[p + lo..p + lo + |ask|];
    }
  }

  /** In a stretch that is all live, a plain search is the question. */
  lemma SegmentAsks(src: string, dead: seq<Range>, asks: seq<string>, lo: nat, hi: nat)
    requires lo <= hi <= |src| && forall q | lo <= q < hi :: !Covered(dead, q)
    ensures Asks(asks, src[lo..hi]) <==> LiveAsk(src, dead, asks, lo, hi)
  {
    hide Covered, StartsAt, LiveAt;
    var s := src[lo..hi];
    if LiveAsk(src, dead, asks, lo, hi) {
      var k, p :| 0 <= k < |asks| && LiveAt(src, dead, asks[k], p, lo, hi);
      assert lo <= p <= hi by {
        LiveInside(src, dead, asks[k], p, lo, hi);
      }
      SegmentAt(src, dead, asks[k], p - lo, lo, hi);
      assert Contains(s, asks[k]);
    }
    if Asks(asks, s) {
      var k :| 0 <= k < |asks| && Contains(s, asks[k]);
      var p :| 0 <= p <= |s| && StartsAt(s, p, asks[k]);
      SegmentAt(src, dead, asks[k], p, lo, hi);
    }
  }

  lemma LiveInside(src: string, dead: seq<Range>, ask: string, p: int, lo: nat, hi: nat)
    requires LiveAt(src, dead, ask, p, lo, hi)
    ensures lo <= p <= p + |ask| <= hi
  {
  }

  /** No live ask straddles a dead place. */
  lemma SplitAtDead(src: string, dead: seq<Range>, asks: seq<string>, lo: nat, mid: nat, hi: nat)
    requires lo <= mid <= hi && (mid == lo || Covered(dead, mid - 1))
    ensures LiveAsk(src, dead, asks, lo, hi)
       <==> (LiveAsk(src, dead, asks, lo, mid) || LiveAsk(src, dead, asks, mid, hi))
  {
    hide Covered, StartsAt;
    if LiveAsk(src, dead, asks, lo, hi) {
      var k, p :| 0 <= k < |asks| && LiveAt(src, dead, asks[k], p, lo, hi);
      assert LiveAt(src, dead, asks[k], p, lo, mid) || LiveAt(src, dead, asks[k], p, mid, hi);
    }
    if LiveAsk(src, dead, asks, lo, mid) {
      var k, p :| 0 <= k < |asks| && LiveAt(src, dead, asks[k], p, lo, mid);
      assert LiveAt(src, dead, asks[k], p, lo, hi);
    }
    if LiveAsk(src, dead, asks, mid, hi) {
      var k, p :| 0 <= k < |asks| && LiveAt(src, dead, asks[k], p, mid, hi);
      assert LiveAt(src, dead, asks[k], p, lo, hi);
    }
  }

  lemma DeadHoldsNone(src: string, dead: seq<Range>, asks: seq<string>, lo: nat, hi: nat)
    requires forall k | 0 <= k < |asks| :: |asks[k]| > 0
    requires forall q | lo <= q < hi :: Covered(dead, q)
    ensures !LiveAsk(src, dead, asks, lo, hi)
  {
    hide Covered, StartsAt;
    forall k, p | 0 <= k < |asks|
      ensures !LiveAt(src, dead, asks[k], p, lo, hi)
    {
      assert lo <= p < hi ==> Covered(dead, p);
    }
  }

  ghost predicate Past(dead: seq<Range>, n: nat, cursor: nat, to: nat) {
    cursor == to || forall j | 0 <= j < n && j < |dead| :: dead[j].end <= cursor || dead[j].start >= to
  }

  /** What one dead range does to the search. */
  lemma RangeStep(src: string, dead: seq<Range>, asks: seq<string>, from: nat, to: nat,
                  i: nat, cursor: nat, s: nat, next: nat)
    requires to <= |src| && InOrder(dead, 0, |src|) && i < |dead| && from <= cursor <= to
    requires forall k | 0 <= k < |asks| :: |asks[k]| > 0
    requires cursor == from || Covered(dead, cursor - 1)
    requires Past(dead, i, cursor, to)
    requires dead[i].end > cursor && dead[i].start < to
    requires s == (if dead[i].start > cursor then dead[i].start else cursor) && next == Min(dead[i].end, to)
    ensures LiveAsk(src, dead, asks, from, next)
       <==> (LiveAsk(src, dead, asks, from, cursor) || (s > cursor && Asks(asks, src[cursor..s])))
    ensures next == from || Covered(dead, next - 1)
    ensures Past(dead, i + 1, next, to)
  {
    hide LiveAsk, Asks;
    LiveBetween(src, dead, i, cursor, s, to);
    RangeCovers(dead, i, s, next);
    SplitAtDead(src, dead, asks, from, cursor, next);
    if s > cursor {
      SegmentAsks(src, dead, asks, cursor, s);
      CutDeadEnd(src, dead, asks, cursor, s, next);
    } else {
      DeadHoldsNone(src, dead, asks, cursor, next);
    }
  }

  lemma LiveBetween(src: string, dead: seq<Range>, i: nat, cursor: nat, s: nat, to: nat)
    requires InOrder(dead, 0, |src|) && i <= |dead| && Past(dead, i, cursor, to) && s <= to
    requires i < |dead| ==> s <= dead[i].start || s <= cursor
    ensures forall q | cursor <= q < s :: !Covered(dead, q)
  {
  }

  lemma RangeCovers(dead: seq<Range>, i: nat, s: nat, next: nat)
    requires i < |dead| && dead[i].start <= s && next <= dead[i].end
    ensures forall q | s <= q < next :: Covered(dead, q)
  {
  }

  lemma CutDeadEnd(src: string, dead: seq<Range>, asks: seq<string>, lo: nat, mid: nat, hi: nat)
    requires lo <= mid <= hi && forall k | 0 <= k < |asks| :: |asks[k]| > 0
    requires forall q | mid <= q < hi :: Covered(dead, q)
    ensures LiveAsk(src, dead, asks, lo, hi) <==> LiveAsk(src, dead, asks, lo, mid)
  {
    hide Covered, StartsAt;
    if LiveAsk(src, dead, asks, lo, hi) {
      var k, p :| 0 <= k < |asks| && LiveAt(src, dead, asks[k], p, lo, hi);
      var last := p + |asks[k]| - 1;
      assert mid <= last < hi ==> Covered(dead, last);
      assert LiveAt(src, dead, asks[k], p, lo, mid);
    }
    if LiveAsk(src, dead, asks, lo, mid) {
      var k, p :| 0 <= k < |asks| && LiveAt(src, dead, asks[k], p, lo, mid);
      assert LiveAt(src, dead, asks[k], p, lo, hi);
    }
  }

  lemma NoRoom(src: string, dead: seq<Range>, asks: seq<string>, at: nat)
    requires forall k | 0 <= k < |asks| :: |asks[k]| > 0
    ensures !LiveAsk(src, dead, asks, at, at)
  {
    DeadHoldsNone(src, dead, asks, at, at);
  }

  /** THE GAP TEST: does the gap `from..to`, less its dead regions, ask? True
      exactly when some ask stands in the gap with every character of it live. */
  method LiveGapAsks(src: string, dead: seq<Range>, asks: seq<string>, from: nat, to: nat) returns (asked: bool)
    requires from <= to <= |src| && InOrder(dead, 0, |src|)
    requires forall k | 0 <= k < |asks| :: |asks[k]| > 0
    ensures asked <==> LiveAsk(src, dead, asks, from, to)
  {
    hide LiveAsk, Asks, Covered, InOrder;
    asked := false;
    var cursor := from;
    NoRoom(src, dead, asks, from);
    for i := 0 to |dead|
      invariant from <= cursor <= to
      invariant cursor == from || Covered(dead, cursor - 1)
      invariant Past(dead, i, cursor, to)
      invariant asked <==> LiveAsk(src, dead, asks, from, cursor)
    {
      var r := dead[i];
      if r.end <= cursor || r.start >= to {
        continue;
      }
      var next := Min(r.end, to);
      RangeStep(src, dead, asks, from, to, i, cursor, if r.start > cursor then r.start else cursor, next);
      if r.start > cursor && Asks(asks, src[cursor..r.start]) {
        asked := true;
      }
      cursor := next;
    }
    LiveBetween(src, dead, |dead|, cursor, to, to);
    SegmentAsks(src, dead, asks, cursor, to);
    SplitAtDead(src, dead, asks, from, cursor, to);
    asked := asked || Asks(asks, src[cursor..to]);
  }

  const SELF: string := "spawn.rs"
  const ASKS: seq<string> := ["hidden(&mut ", "hidden_std(&mut "]
  const ATTEMPTED: seq<string> := ["taskkill", "kill", "pgrep"]
  const ATTEMPT: string := "attempt("

  /** The spellings that count as an ask for one spawn site. */
  function AsksFor(file: string, program: string): (asks: seq<string>)
    ensures forall k | 0 <= k < |asks| :: |asks[k]| > 0
  {
    ASKS + if file == SELF && program in ATTEMPTED then [ATTEMPT] else []
  }

  /** Some ask of this spelling stands live in the gap. */
  ghost predicate Stands(src: string, ask: string, from: nat, to: nat) {
    exists p :: LiveAt(src, DeadRanges(src, 0), ask, p, from, to)
  }

  lemma AsksAre(src: string, file: string, program: string, from: nat, to: nat)
    ensures LiveAsk(src, DeadRanges(src, 0), AsksFor(file, program), from, to) <==>
            || Stands(src, "hidden(&mut ", from, to) || Stands(src, "hidden_std(&mut ", from, to)
            || (file == "spawn.rs" && program in {"taskkill", "kill", "pgrep"} && Stands(src, "attempt(", from, to))
  {
    hide LiveAt, DeadRanges;
    var asks := AsksFor(file, program);
    assert asks[0] == "hidden(&mut " && asks[1] == "hidden_std(&mut ";
    assert |asks| == 3 ==> asks[2] == "attempt(";
    assert |asks| == 3 <==> file == "spawn.rs" && program in {"taskkill", "kill", "pgrep"};
  }

  /** The whole question for one site, from the text alone: one of the two
      spellings, or for a kill in its own file the third, stands in the gap with
      every character of it live. */
  method SiteAsks(src: string, file: string, program: string, from: nat, to: nat) returns (asked: bool)
    requires from <= to <= |src|
    ensures asked <==>
            || Stands(src, "hidden(&mut ", from, to) || Stands(src, "hidden_std(&mut ", from, to)
            || (file == "spawn.rs" && program in {"taskkill", "kill", "pgrep"} && Stands(src, "attempt(", from, to))
  {
    AsksAre(src, file, program, from, to);
    hide LiveAsk, AsksFor, InOrder, DeadRanges;
    var dead := CfgDeadRanges(src);
    RangesInOrder(src, 0);
    asked := LiveGapAsks(src, dead, AsksFor(file, program), from, to);
  }
}
