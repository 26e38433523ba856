/** What is code and what is not: comments, strings and character literals, as
    the dead-region scanner reads them. Offsets count characters. */
module Lexer {
  import opened Jsonl

  predicate StartsAt(src: string, i: nat, pat: string) {
    i + |pat| <= |src| && src[i..i + |pat|] == pat
  }

  /** The first place at or after `i` where `pat` stands. */
  function Find(src: string, i: nat, pat: string): (r: Option<nat>)
    ensures r.Some? ==> i <= r.value && StartsAt(src, r.value, pat)
    ensures r.Some? ==> forall j | i <= j < r.value :: !StartsAt(src, j, pat)
    ensures r.None? ==> forall j | i <= j :: !StartsAt(src, j, pat)
    decreases |src| - i
  {
    if StartsAt(src, i, pat) then Some(i)
    else if i >= |src| then None
    else Find(src, i + 1, pat)
  }

  function AfterFirst(src: string, i: nat, pat: string): (r: nat)
    requires i <= |src|
    ensures i <= r <= |src|
  {
    match Find(src, i, pat)
    case Some(n) => n + |pat|
    case None => |src|
  }

  predicate Opens(src: string, j: nat) {
    StartsAt(src, j, "/*")
  }

  predicate Closes(src: string, j: nat) {
    StartsAt(src, j, "*/")
  }

  /** Past the block comment, `depth` comments deep at `j`; comments nest. */
  function BlockEnd(src: string, j: nat, depth: nat): (r: nat)
    requires depth > 0 && j <= |src|
    ensures j <= r <= |src|
    decreases |src| - j
  {
    if j >= |src| then |src|
    else if Opens(src, j) then BlockEnd(src, j + 2, depth + 1)
    else if Closes(src, j) then if depth == 1 then j + 2 else BlockEnd(src, j + 2, depth - 1)
    else BlockEnd(src, j + 1, depth)
  }

  /** The delimiters of a block comment from `j` on, each with the place after
      it: an opening one counts up, a closing one down. */
  function Delimiters(src: string, j: nat): seq<(int, nat)>
    decreases |src| - j
  {
    if j >= |src| then []
    else if Opens(src, j) then [(1, j + 2)] + Delimiters(src, j + 2)
    else if Closes(src, j) then [(-1, j + 2)] + Delimiters(src, j + 2)
    else Delimiters(src, j + 1)
  }

  function Sum(ds: seq<(int, nat)>): int {
    if |ds| == 0 then 0 else ds[0].0 + Sum(ds[1..])
  }

  /** The k-th delimiter is the first to close every open comment. */
  predicate ClosesAll(ds: seq<(int, nat)>, depth: nat, k: nat) {
    && k < |ds| && depth + Sum(ds[..k + 1]) == 0
    && forall j: nat | 0 < j <= k :: depth + Sum(ds[..j]) > 0
  }

  ghost predicate CommentEnds(src: string, ds: seq<(int, nat)>, depth: nat, end: nat) {
    if exists k: nat :: ClosesAll(ds, depth, k) then
      exists k: nat :: k < |ds| && ClosesAll(ds, depth, k) && end == ds[k].1
    else end == |src|
  }

  lemma SumHead(d: (int, nat), ds: seq<(int, nat)>, k: nat)
    requires k <= |ds|
    ensures Sum(([d] + ds)[..k + 1]) == d.0 + Sum(ds[..k])
  {
    assert ([d] + ds)[..k + 1] == [d] + ds[..k];
  }

  lemma ClosesAllLater(d: (int, nat), ds: seq<(int, nat)>, depth: nat, k: nat)
    requires depth + d.0 > 0
    ensures ClosesAll([d] + ds, depth, k + 1) <==> ClosesAll(ds, depth + d.0, k)
    ensures !ClosesAll([d] + ds, depth, 0)
  {
    SumHead(d, ds, 0);
    assert ds[..0] == [];
    if k < |ds| {
      forall j: nat | j <= k + 1
        ensures depth + Sum(([d] + ds)[..j + 1]) == depth + d.0 + Sum(ds[..j])
      {
        SumHead(d, ds, j);
      }
      if ClosesAll([d] + ds, depth, k + 1) {
        forall j: nat | 0 < j <= k
          ensures depth + d.0 + Sum(ds[..j]) > 0
        {
          assert depth + Sum(([d] + ds)[..j + 1]) > 0;
        }
      }
      if ClosesAll(ds, depth + d.0, k) {
        forall j: nat | 0 < j <= k + 1
          ensures depth + Sum(([d] + ds)[..j]) > 0
        {
          assert depth + Sum(([d] + ds)[..(j - 1) + 1]) == depth + d.0 + Sum(ds[..j - 1]);
        }
      }
    }
  }

  lemma CommentEndsLater(src: string, d: (int, nat), ds: seq<(int, nat)>, depth: nat, end: nat)
    requires depth + d.0 > 0 && CommentEnds(src, ds, depth + d.0, end)
    ensures CommentEnds(src, [d] + ds, depth, end)
  {
    hide ClosesAll;
    forall k: nat
      ensures ClosesAll([d] + ds, depth, k) <==> k > 0 && ClosesAll(ds, depth + d.0, k - 1)
    {
      ClosesAllLater(d, ds, depth, if k > 0 then k - 1 else 0);
    }
    if k: nat :| k < |ds| && ClosesAll(ds, depth + d.0, k) && end == ds[k].1 {
      assert ClosesAll([d] + ds, depth, k + 1) && ([d] + ds)[k + 1] == ds[k];
    }
  }

  lemma CommentEndsNow(src: string, d: (int, nat), ds: seq<(int, nat)>, depth: nat)
    requires depth + d.0 == 0
    ensures CommentEnds(src, [d] + ds, depth, d.1)
  {
    SumHead(d, ds, 0);
    assert ds[..0] == [];
    assert ClosesAll([d] + ds, depth, 0) && ([d] + ds)[0] == d;
  }

  /** COMMENTS NEST: one ends past the first closing delimiter that brings the
      count to zero, or with the text when none does. */
  lemma {:induction false} BlockEndMeaning(src: string, j: nat, depth: nat)
    requires depth > 0 && j <= |src|
    ensures CommentEnds(src, Delimiters(src, j), depth, BlockEnd(src, j, depth))
    decreases |src| - j
  {
    hide CommentEnds, StartsAt;
    if j >= |src| {
      NoDelimiters(src, depth);
    } else if Opens(src, j) {
      Room(src, j, "/*");
      BlockEndMeaning(src, j + 2, depth + 1);
      CommentEndsLater(src, (1, j + 2), Delimiters(src, j + 2), depth, BlockEnd(src, j, depth));
    } else if Closes(src, j) {
      Room(src, j, "*/");
      if depth == 1 {
        CommentEndsNow(src, (-1, j + 2), Delimiters(src, j + 2), depth);
      } else {
        BlockEndMeaning(src, j + 2, depth - 1);
        CommentEndsLater(src, (-1, j + 2), Delimiters(src, j + 2), depth, BlockEnd(src, j, depth));
      }
    } else {
      BlockEndMeaning(src, j + 1, depth);
    }
  }

  lemma Room(src: string, j: nat, pat: string)
    requires StartsAt(src, j, pat)
    ensures j + |pat| <= |src|
  {
  }

  /** One turn of the loop; before the first, `j` is at the opening delimiter. */
  lemma BlockStep(src: string, j: nat, depth: nat)
    requires j < |src|
    ensures Opens(src, j) ==> j + 2 <= |src| && !Closes(src, j)
    ensures Closes(src, j) ==> j + 2 <= |src|
    ensures depth > 0 ==>
              BlockEnd(src, j, depth) ==
              if Opens(src, j) then BlockEnd(src, j + 2, depth + 1)
              else if Closes(src, j) then if depth == 1 then j + 2 else BlockEnd(src, j + 2, depth - 1)
              else BlockEnd(src, j + 1, depth)
  {
    FirstChar(src, j, "/*");
    FirstChar(src, j, "*/");
  }

  lemma NoDelimiters(src: string, depth: nat)
    requires depth > 0
    ensures CommentEnds(src, [], depth, |src|)
  {
  }

  /** Past the closing quote of a plain string whose body goes on at `j`. */
  function StringEnd(src: string, j: nat): (r: nat)
    ensures j <= |src| ==> j <= r
    ensures r <= |src|
    decreases |src| - j
  {
    if j >= |src| then |src|
    else if src[j] == '\\' then StringEnd(src, j + 2)
    else if src[j] == '\"' then j + 1
    else StringEnd(src, j + 1)
  }

  /** How many `#` stand at `i`. */
  function Hashes(src: string, i: nat): (n: nat)
    requires i <= |src|
    ensures i + n <= |src| && forall j | i <= j < i + n :: src[j] == '#'
    ensures i + n < |src| ==> src[i + n] != '#'
    decreases |src| - i
  {
    if i < |src| && src[i] == '#' then 1 + Hashes(src, i + 1) else 0
  }

  function Closer(hashes: nat): (s: string)
    ensures |s| == 1 + hashes
  {
    "\"" + seq(hashes, i => '#')
  }

  /** Past the raw string starting at `i`, if one does and it closes. */
  function RawStringEnd(src: string, i: nat): (r: Option<nat>)
    ensures r.Some? ==> i + 3 <= r.value <= |src|
  {
    if !(StartsAt(src, i, "br") || StartsAt(src, i, "r")) then None
    else
      var j := if StartsAt(src, i, "br") then i + 2 else i + 1;
      var hashes := Hashes(src, j);
      if !StartsAt(src, j + hashes, "\"") then None
      else
        match Find(src, j + hashes + 1, Closer(hashes))
        case Some(n) => Some(n + 1 + hashes)
        case None => None
  }

  /** Past the character literal starting at `i`; a lifetime is not one. */
  function CharLiteralEnd(src: string, i: nat): (r: Option<nat>)
    ensures r.Some? ==> i + 3 <= r.value <= |src|
  {
    if !StartsAt(src, i, "'") || i + 1 >= |src| then None
    else
      var body :=
        if src[i + 1] != '\\' then Some(i + 2)
        else if i + 2 >= |src| then None
        else if src[i + 2] != 'u' then Some(i + 3)
        else match Find(src, i + 3, "}")
          case Some(n) => Some(n + 1)
          case None => None;
      if body.Some? && StartsAt(src, body.value, "'") then Some(body.value + 1) else None
  }

  /** Past the comment or literal starting at `i`, or nothing when `i` is code. */
  function NonCodeEnd(src: string, i: nat): (r: Option<nat>)
    requires i <= |src|
    ensures r.Some? ==> i < r.value <= |src|
  {
    if StartsAt(src, i, "//") then Some(AfterFirst(src, i + 2, "\n"))
    else if StartsAt(src, i, "/*") then Some(BlockEnd(src, i + 2, 1))
    else if RawStringEnd(src, i).Some? then RawStringEnd(src, i)
    else if StartsAt(src, i, "\"") then Some(StringEnd(src, i + 1))
    else CharLiteralEnd(src, i)
  }

  /** The scanner's own loops over a block comment and a string. */
  method BlockCommentEnd(src: string, i: nat) returns (end: nat)
    requires Opens(src, i)
    ensures end == BlockEnd(src, i + 2, 1)
  {
    hide *;
    OpenedHere(src, i);
    var depth: nat := 0;
    var j := i;
    ghost var want := BlockEnd(src, i + 2, 1);
    while j < |src|
      invariant if depth == 0 then j == i else i + 2 <= j <= |src| && BlockEnd(src, j, depth) == want
      decreases |src| - j
    {
      BlockStep(src, j, depth);
      if Opens(src, j) {
        depth := depth + 1;
        j := j + 2;
      } else if Closes(src, j) {
        depth := depth - 1;
        j := j + 2;
        if depth == 0 {
          return j;
        }
      } else {
        j := j + 1;
      }
    }
    EndOfText(src, depth);
    end := |src|;
  }

  lemma OpenedHere(src: string, i: nat)
    requires Opens(src, i)
    ensures i + 2 <= |src|
  {
  }

  lemma EndOfText(src: string, depth: nat)
    requires depth > 0
    ensures BlockEnd(src, |src|, depth) == |src|
  {
  }

  method PlainStringEnd(src: string, i: nat) returns (end: nat)
    requires StartsAt(src, i, "\"")
    ensures end == StringEnd(src, i + 1)
  {
    var j := i + 1;
    while j < |src|
      invariant StringEnd(src, j) == StringEnd(src, i + 1)
      decreases |src| - j
    {
      if src[j] == '\\' {
        j := j + 2;
      } else if src[j] == '\"' {
        return j + 1;
      } else {
        j := j + 1;
      }
    }
    end := |src|;
  }

  // ---------------------------------------------------------------- what each literal is, as text

  /** `r`, the hashes, a quote, the body, a quote and as many hashes; the body
      runs to the first such closer. */
  ghost predicate RawString(lit: string) {
    exists prefix, n, body :: IsRaw(lit, prefix, n, body)
  }

  predicate IsRaw(lit: string, prefix: string, n: nat, body: string) {
    && (prefix == "r" || prefix == "br")
    && lit == prefix + (Run(n) + ("\"" + (body + Closer(n))))
    && NoneBefore(body, Closer(n))
  }

  predicate NoneBefore(body: string, closer: string) {
    forall k | 0 <= k < |body| :: !StartsAt(body + closer, k, closer)
  }

  function Run(n: nat): (s: string)
    ensures |s| == n && forall i | 0 <= i < n :: s[i] == '#'
  {
    seq(n, i => '#')
  }

  /** A quoted character, a quoted escape, or a quoted `\u` escape with its
      braces, the first closing one ending it. */
  predicate CharLiteral(lit: string) {
    || (|lit| == 3 && lit[0] == '\'' && lit[1] != '\\' && lit[2] == '\'')
    || (|lit| == 4 && lit[0] == '\'' && lit[1] == '\\' && lit[2] != 'u' && lit[3] == '\'')
    || (|lit| >= 5 && lit[0] == '\'' && lit[1] == '\\' && lit[2] == 'u'
        && '}' !in lit[3..|lit| - 2] && lit[|lit| - 2] == '}' && lit[|lit| - 1] == '\'')
  }

  lemma OneChar(src: string, i: nat, c: char)
    ensures StartsAt(src, i, [c]) <==> i < |src| && src[i] == c
  {
    if i < |src| {
      assert src[i..i + 1] == [src[i]];
    }
  }

  /** A CHARACTER LITERAL stands at `i` exactly when one does as text. */
  lemma CharLiteralMeans(src: string, i: nat, end: nat)
    requires i <= end <= |src|
    ensures CharLiteralEnd(src, i) == Some(end) <==> CharLiteral(src[i..end])
  {
    var lit := src[i..end];
    OneChar(src, i, '\'');
    assert "'" == ['\''] && "}" == ['}'];
    if i + 1 < |src| && src[i + 1] != '\\' {
      OneChar(src, i + 2, '\'');
    } else if i + 2 < |src| && src[i + 2] != 'u' {
      OneChar(src, i + 3, '\'');
    } else if i + 2 < |src| && src[i] == '\'' {
      UnicodeEscape(src, i, end);
    }
  }

  /** The rest of a `\u` escape whose literal ends before `end`. */
  predicate EscapeTo(src: string, i: nat, end: nat) {
    && i + 5 <= end <= |src| && src[end - 2] == '}' && src[end - 1] == '\''
    && forall k | i + 3 <= k < end - 2 :: src[k] != '}'
  }

  lemma UnicodeEscape(src: string, i: nat, end: nat)
    requires i + 2 < |src| && src[i] == '\'' && src[i + 1] == '\\' && src[i + 2] == 'u' && i <= end <= |src|
    ensures CharLiteralEnd(src, i) == Some(end) <==> CharLiteral(src[i..end])
  {
    EscapeEnds(src, i, end);
    EscapeText(src, i, end);
  }

  lemma EscapeEnds(src: string, i: nat, end: nat)
    requires i + 2 < |src| && src[i] == '\'' && src[i + 1] == '\\' && src[i + 2] == 'u'
    ensures CharLiteralEnd(src, i) == Some(end) <==> EscapeTo(src, i, end)
  {
    hide Find;
    OneChar(src, i, '\'');
    FirstOf(src, i + 3, '}');
    assert ['}'] == "}";
    match Find(src, i + 3, "}") {
      case Some(n) => OneChar(src, n + 1, '\'');
      case None =>
    }
    hide StartsAt;
  }

  lemma EscapeText(src: string, i: nat, end: nat)
    requires i + 2 < |src| && src[i] == '\'' && src[i + 1] == '\\' && src[i + 2] == 'u' && i <= end <= |src|
    ensures EscapeTo(src, i, end) <==> CharLiteral(src[i..end])
  {
    var lit := src[i..end];
    assert forall k | 0 <= k < |lit| :: lit[k] == src[i + k];
    if i + 5 <= end {
      assert lit[3..|lit| - 2] == src[i + 3..end - 2];
      NotAmong(src, i + 3, end - 2);
    }
  }

  lemma FirstOf(src: string, i: nat, c: char)
    ensures var r := Find(src, i, [c]);
            if r.Some? then i <= r.value < |src| && src[r.value] == c && forall k | i <= k < r.value :: src[k] != c
            else forall k | i <= k < |src| :: src[k] != c
  {
    forall j | i <= j
      ensures StartsAt(src, j, [c]) <==> j < |src| && src[j] == c
    {
      OneChar(src, j, c);
    }
    hide StartsAt;
  }

  lemma NotAmong(src: string, a: nat, b: nat)
    requires a <= b <= |src|
    ensures '}' !in src[a..b] <==> forall k | a <= k < b :: src[k] != '}'
  {
    assert forall k | a <= k < b :: src[a..b][k - a] == src[k];
  }

  lemma Within(src: string, a: nat, b: nat, pat: string, k: nat)
    requires a <= b <= |src|
    ensures StartsAt(src[a..b], k, pat) <==> a + k + |pat| <= b && StartsAt(src, a + k, pat)
  {
    if k + |pat| <= b - a {
      var x, y := src[a..b][k..k + |pat|], src[a + k..a + k + |pat|];
      assert forall j | 0 <= j < |pat| :: x[j] == y[j];
      assert x == y;
    }
  }

  lemma Split(src: string, i: nat, lit: string, rest: string, end: nat)
    requires i <= end <= |src| && src[i..end] == lit + rest
    ensures i + |lit| <= end && StartsAt(src, i, lit) && src[i + |lit|..end] == rest
  {
    assert |src[i..end]| == |lit| + |rest|;
    assert src[i..i + |lit|] == src[i..end][..|lit|] == lit;
    assert src[i + |lit|..end] == src[i..end][|lit|..] == rest;
  }

  lemma Glue(src: string, i: nat, lit: string, end: nat, rest: string)
    requires StartsAt(src, i, lit) && i + |lit| <= end <= |src| && src[i + |lit|..end] == rest
    ensures src[i..end] == lit + rest
  {
  }

  /** A RAW STRING stands at `i` exactly when one does as text. */
  lemma RawStringMeans(src: string, i: nat, end: nat)
    requires i <= end <= |src|
    ensures RawStringEnd(src, i) == Some(end) <==> RawString(src[i..end])
  {
    if RawStringEnd(src, i) == Some(end) {
      RawIsText(src, i, end);
    }
    if prefix, n, body :| IsRaw(src[i..end], prefix, n, body) {
      TextIsRaw(src, i, end, prefix, n, body);
    }
  }

  lemma RawIsText(src: string, i: nat, end: nat)
    requires RawStringEnd(src, i) == Some(end)
    ensures RawString(src[i..end])
  {
    hide Find, StartsAt, Hashes, Closer, NoneBefore, IsRaw;
    var prefix := if StartsAt(src, i, "br") then "br" else "r";
    var j := i + |prefix|;
    Room(src, i, prefix);
    var n := Hashes(src, j);
    var q := j + n + 1;
    var m := Find(src, q, Closer(n)).value;
    RunStands(src, j, n);
    FirstCloser(src, q, m, n);
    PartsAreRaw(src, i, prefix, n, m);
  }

  lemma PartsAreRaw(src: string, i: nat, prefix: string, n: nat, m: nat)
    requires prefix == "r" || prefix == "br"
    requires i + |prefix| + n + 1 <= m && m + 1 + n <= |src|
    requires StartsAt(src, i, prefix) && StartsAt(src, i + |prefix|, Run(n))
    requires StartsAt(src, i + |prefix| + n, "\"") && StartsAt(src, m, Closer(n))
    requires NoneBefore(src[i + |prefix| + n + 1..m], Closer(n))
    ensures IsRaw(src[i..m + 1 + n], prefix, n, src[i + |prefix| + n + 1..m])
  {
    var end, j := m + 1 + n, i + |prefix|;
    var q := j + n + 1;
    hide StartsAt, Closer, NoneBefore, Run;
    var body := src[q..m];
    CloserToEnd(src, m, n);
    Slices(src, q, m, end);
    Glue(src, j + n, "\"", end, body + Closer(n));
    Glue(src, j, Run(n), end, "\"" + (body + Closer(n)));
    Glue(src, i, prefix, end, Run(n) + ("\"" + (body + Closer(n))));
  }

  lemma CloserToEnd(src: string, m: nat, n: nat)
    requires StartsAt(src, m, Closer(n))
    ensures m + 1 + n <= |src| && src[m..m + 1 + n] == Closer(n)
  {
  }

  lemma Slices(src: string, a: nat, b: nat, c: nat)
    requires a <= b <= c <= |src|
    ensures src[a..c] == src[a..b] + src[b..c]
  {
  }

  lemma RunStands(src: string, j: nat, n: nat)
    requires j + n <= |src| && forall k | j <= k < j + n :: src[k] == '#'
    ensures StartsAt(src, j, Run(n))
  {
    assert src[j..j + n] == Run(n);
  }

  lemma FirstCloser(src: string, q: nat, m: nat, n: nat)
    requires q <= m && m + |Closer(n)| <= |src| && StartsAt(src, m, Closer(n))
    ensures NoneBefore(src[q..m], Closer(n)) <==> forall k | q <= k < m :: !StartsAt(src, k, Closer(n))
  {
    var body, end := src[q..m], m + |Closer(n)|;
    assert body + Closer(n) == src[q..end] by {
      hide Closer;
      assert src[m..end] == Closer(n);
    }
    forall k: nat
      ensures StartsAt(src[q..end], k, Closer(n)) <==> q + k <= m && StartsAt(src, q + k, Closer(n))
    {
      Within(src, q, end, Closer(n), k);
    }
    hide StartsAt, Closer;
    assert forall k | q <= k < m :: StartsAt(src, k, Closer(n)) <==> StartsAt(src[q..end], k - q, Closer(n));
  }

  lemma TextIsRaw(src: string, i: nat, end: nat, prefix: string, n: nat, body: string)
    requires i <= end <= |src| && IsRaw(src[i..end], prefix, n, body)
    ensures RawStringEnd(src, i) == Some(end)
  {
    var q := i + |prefix| + n + 1;
    var m := q + |body|;
    RawHasParts(src, i, end, prefix, n, body);
    hide Find, StartsAt, Hashes, Closer, NoneBefore, Run, IsRaw;
    FirstCloser(src, q, m, n);
    FindIs(src, q, Closer(n), m);
    HashesAre(src, i + |prefix|, n);
    OnePrefix(src, i, prefix);
    EndOfParts(src, i, prefix, n, m);
  }

  lemma OnePrefix(src: string, i: nat, prefix: string)
    requires (prefix == "r" || prefix == "br") && StartsAt(src, i, prefix)
    ensures StartsAt(src, i, "br") <==> prefix == "br"
  {
    FirstChar(src, i, "br");
    FirstChar(src, i, "r");
  }

  lemma EndOfParts(src: string, i: nat, prefix: string, n: nat, m: nat)
    requires prefix == if StartsAt(src, i, "br") then "br" else "r"
    requires StartsAt(src, i, prefix) && i + |prefix| <= |src| && Hashes(src, i + |prefix|) == n
    requires StartsAt(src, i + |prefix| + n, "\"") && Find(src, i + |prefix| + n + 1, Closer(n)) == Some(m)
    ensures RawStringEnd(src, i) == Some(m + 1 + n)
  {
    hide StartsAt, Find, Hashes, Closer;
  }

  lemma RawHasParts(src: string, i: nat, end: nat, prefix: string, n: nat, body: string)
    requires i <= end <= |src| && IsRaw(src[i..end], prefix, n, body)
    ensures var j := i + |prefix|;
            var q := j + n + 1;
            && StartsAt(src, i, prefix) && StartsAt(src, j, Run(n)) && StartsAt(src, j + n, "\"")
            && q + |body| + n + 1 == end && src[q..q + |body|] == body && StartsAt(src, q + |body|, Closer(n))
            && NoneBefore(body, Closer(n)) && (prefix == "r" || prefix == "br")
  {
    hide StartsAt, Closer, NoneBefore, Run;
    var rest := body + Closer(n);
    var j := i + |prefix|;
    var q := j + n + 1;
    Split(src, i, prefix, Run(n) + ("\"" + rest), end);
    Split(src, j, Run(n), "\"" + rest, end);
    Split(src, j + n, "\"", rest, end);
    Split(src, q, body, Closer(n), end);
    StandsAs(src, q, body);
    assert Closer(n) + [] == Closer(n);
    Split(src, q + |body|, Closer(n), [], end);
  }

  lemma StandsAs(src: string, q: nat, body: string)
    requires StartsAt(src, q, body)
    ensures q + |body| <= |src| && src[q..q + |body|] == body
  {
  }

  lemma FindIs(src: string, i: nat, pat: string, n: nat)
    requires i <= n && StartsAt(src, n, pat) && forall k | i <= k < n :: !StartsAt(src, k, pat)
    ensures Find(src, i, pat) == Some(n)
  {
    hide StartsAt;
  }

  lemma HashesAre(src: string, j: nat, n: nat)
    requires StartsAt(src, j, Run(n)) && StartsAt(src, j + n, "\"")
    ensures j <= |src| && Hashes(src, j) == n
  {
    OneChar(src, j + n, '\"');
    assert "\"" == ['\"'];
    var hashes := src[j..j + n];
    forall k | j <= k < j + n
      ensures src[k] == '#'
    {
      assert hashes[k - j] == src[k];
    }
    hide StartsAt;
  }

  /** Characters and escape pairs, with no quote among the characters. */
  predicate StringBody(s: string) {
    |s| == 0 ||
    (if s[0] == '\\' then |s| >= 2 && StringBody(s[2..]) else s[0] != '\"' && StringBody(s[1..]))
  }

  predicate ClosesAt(src: string, j: nat, end: nat) {
    j < end <= |src| && src[end - 1] == '\"' && StringBody(src[j..end - 1])
  }

  ghost predicate NeverCloses(src: string, j: nat) {
    forall end :: !ClosesAt(src, j, end)
  }

  /** A PLAIN STRING ends past the one quote that its body runs up to, or with
      the text when there is none. */
  lemma {:induction false} StringEndMeans(src: string, j: nat)
    requires j <= |src|
    ensures forall end | ClosesAt(src, j, end) :: StringEnd(src, j) == end
    ensures ClosesAt(src, j, StringEnd(src, j)) || StringEnd(src, j) == |src|
    decreases |src| - j
  {
    if j < |src| && src[j] != '\"' {
      var k := if src[j] == '\\' then 2 else 1;
      forall end | j + k < end <= |src|
        ensures ClosesAt(src, j, end) <==> ClosesAt(src, j + k, end)
      {
        assert src[j..end - 1][0] == src[j] && src[j..end - 1][k..] == src[j + k..end - 1];
      }
      forall end | j < end <= j + k && end <= |src|
        ensures !ClosesAt(src, j, end)
      {
        ShortBody(src, j, end);
      }
      if j + k <= |src| {
        StringEndMeans(src, j + k);
      }
    } else if j < |src| {
      assert src[j..j] == [];
      forall end | j + 1 < end <= |src|
        ensures !ClosesAt(src, j, end)
      {
        assert src[j..end - 1][0] == '\"';
      }
    }
  }

  lemma ShortBody(src: string, j: nat, end: nat)
    requires j < end <= |src| && src[j] != '\"' && end <= j + if src[j] == '\\' then 2 else 1
    ensures !ClosesAt(src, j, end)
  {
    if end == j + 2 {
      assert src[j..end - 1] == [src[j]];
    }
  }

  /** A LINE COMMENT ends past its line's newline, or with the text. */
  lemma LineCommentMeans(src: string, i: nat)
    requires i <= |src| && StartsAt(src, i, "//")
    ensures var end := NonCodeEnd(src, i).value;
            && i + 2 <= end <= |src|
            && (forall k | i <= k < end - 1 :: src[k] != '\n')
            && (end == |src| || src[end - 1] == '\n')
  {
    assert src[i..i + 2][0] == src[i] && src[i..i + 2][1] == src[i + 1];
    hide StartsAt, Find;
    FirstOf(src, i + 2, '\n');
    assert ['\n'] == "\n";
  }

  /** The comment or literal of the text from `i` to `end`, by how it begins; a
      comment or a plain string with no end of its own ends with the text. */
  ghost predicate NonCode(src: string, i: nat, end: nat)
    requires i <= end <= |src|
  {
    if StartsAt(src, i, "//") then
      (forall k | i <= k < end - 1 :: src[k] != '\n') && (end == |src| || (end > i && src[end - 1] == '\n'))
    else if StartsAt(src, i, "/*") then CommentEnds(src, Delimiters(src, i + 2), 1, end)
    else if StartsAt(src, i, "\"") then
      ClosesAt(src, i + 1, end) || (end == |src| && NeverCloses(src, i + 1))
    else RawString(src[i..end]) || CharLiteral(src[i..end])
  }

  /** CODE is where no comment and no literal begins; where one does, the scan
      goes on past it. */
  lemma NonCodeMeans(src: string, i: nat)
    requires i <= |src|
    ensures match NonCodeEnd(src, i)
            case Some(end) => i < end <= |src| && NonCode(src, i, end)
            case None => !StartsAt(src, i, "//") && !StartsAt(src, i, "/*") && !StartsAt(src, i, "\"") &&
                         forall end | i <= end <= |src| :: !RawString(src[i..end]) && !CharLiteral(src[i..end])
  {
    hide StartsAt, RawString, CharLiteral, RawStringEnd, CharLiteralEnd, BlockEnd, CommentEnds, Delimiters, StringEnd;
    hide ClosesAt, AfterFirst;
    if StartsAt(src, i, "//") {
      LineCommentMeans(src, i);
    } else if StartsAt(src, i, "/*") {
      Room(src, i, "/*");
      BlockEndMeaning(src, i + 2, 1);
    } else if StartsAt(src, i, "\"") {
      Room(src, i, "\"");
      StringEndMeans(src, i + 1);
      NoRawQuote(src, i);
    } else {
      RawOrChar(src, i);
    }
  }

  lemma RawOrChar(src: string, i: nat)
    requires i <= |src|
    ensures forall end | i <= end <= |src| ::
              && (RawStringEnd(src, i) == Some(end) <==> RawString(src[i..end]))
              && (CharLiteralEnd(src, i) == Some(end) <==> CharLiteral(src[i..end]))
  {
    forall end | i <= end <= |src|
      ensures RawStringEnd(src, i) == Some(end) <==> RawString(src[i..end])
      ensures CharLiteralEnd(src, i) == Some(end) <==> CharLiteral(src[i..end])
    {
      RawStringMeans(src, i, end);
      CharLiteralMeans(src, i, end);
    }
  }

  lemma NoRawQuote(src: string, i: nat)
    requires StartsAt(src, i, "\"")
    ensures RawStringEnd(src, i) == None
  {
    FirstChar(src, i, "br");
    FirstChar(src, i, "r");
    FirstChar(src, i, "\"");
  }

  // ---------------------------------------------------------------- facts

  /** Only these characters can begin a comment or a literal. */
  predicate Opener(c: char) {
    c == '/' || c == 'r' || c == 'b' || c == '\"' || c == '\''
  }

  lemma OnlyOpenersOpen(src: string, i: nat)
    requires i < |src| && !Opener(src[i])
    ensures NonCodeEnd(src, i) == None
  {
    FirstChar(src, i, "//");
    FirstChar(src, i, "/*");
    FirstChar(src, i, "br");
    FirstChar(src, i, "r");
    FirstChar(src, i, "\"");
    FirstChar(src, i, "'");
  }

  lemma FirstChar(src: string, i: nat, pat: string)
    requires |pat| > 0
    ensures StartsAt(src, i, pat) ==> i < |src| && src[i] == pat[0]
  {
    if StartsAt(src, i, pat) {
      assert src[i..i + |pat|][0] == src[i];
    }
  }

  // ---------------------------------------------------------------- the walk

  /** The next place the walk stops: past a comment or literal, else one on. */
  function Next(src: string, i: nat): (n: nat)
    requires i < |src|
    ensures i < n <= |src|
  {
    match NonCodeEnd(src, i)
    case Some(n) => n
    case None => i + 1
  }

  predicate IsCode(src: string, i: nat) {
    i < |src| && NonCodeEnd(src, i) == None
  }

  /** The walk from `i` stops at `j`. */
  predicate Reaches(src: string, i: nat, j: nat)
    decreases |src| - i
  {
    i == j || (i < |src| && Reaches(src, Next(src, i), j))
  }

  /** The places of code from `i` on, in order. */
  function Codes(src: string, i: nat): (ps: seq<nat>)
    requires i <= |src|
    ensures forall p | p in ps :: i <= p && IsCode(src, p)
    decreases |src| - i
  {
    if i == |src| then []
    else
      var rest := Codes(src, Next(src, i));
      if IsCode(src, i) then [i] + rest else rest
  }

  lemma {:induction false} ReachesOn(src: string, i: nat, j: nat)
    requires i <= |src| && Reaches(src, i, j)
    ensures i <= j <= |src|
    decreases |src| - i
  {
    if i != j {
      ReachesOn(src, Next(src, i), j);
    }
  }

  lemma {:induction false} ReachesTrans(src: string, i: nat, j: nat, k: nat)
    requires Reaches(src, i, j) && Reaches(src, j, k)
    ensures Reaches(src, i, k)
    decreases |src| - i
  {
    if i != j {
      ReachesTrans(src, Next(src, i), j, k);
    }
  }

  /** One walk: of two places it stops at, the later one lies on the walk from the earlier. */
  lemma {:induction false} OneWalk(src: string, i: nat, j: nat, k: nat)
    requires i <= |src| && Reaches(src, i, j) && Reaches(src, i, k) && j <= k
    ensures Reaches(src, j, k)
    decreases |src| - i
  {
    if i != j {
      ReachesOn(src, Next(src, i), j);
      OneWalk(src, Next(src, i), j, k);
    }
  }

  /** THE CODE PLACES are exactly the code the walk stops at. */
  lemma {:induction false} CodesAreReached(src: string, i: nat, p: nat)
    requires i <= |src|
    ensures p in Codes(src, i) <==> Reaches(src, i, p) && IsCode(src, p)
    decreases |src| - i
  {
    if i < |src| {
      CodesAreReached(src, Next(src, i), p);
      if p == i && Reaches(src, Next(src, i), p) {
        ReachesOn(src, Next(src, i), p);
      }
    }
  }
}
