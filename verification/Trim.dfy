/** The one-pass trim of a closed session's file: the loop, its closed form, and
    what it does to a command that recovery would report as interrupted. */
module Trim {
  import opened Jsonl
  import opened SessionEvents
  import opened Recovery

  const MAX_CLOSED_LOG_LINES: nat := 2000

  /** A line of the file: the event a reader gets from it, if any; whether its
      text contains the quoted `command/start`, which a torn line can do too;
      and whether its bytes are UTF-8, which a line cut inside a character is
      not. */
  datatype Line = Line(event: Option<Event>, mentionsStart: bool, utf8: bool)
  {
    /** A start mentions itself; any other line may happen to. */
    predicate Faithful() {
      event.Some? && event.value.kind.CommandStart? ==> mentionsStart
    }
  }

  // ---------------------------------------------------------------- closed form

  /** How many lines mention a start. */
  function Starts(ls: seq<Line>): nat {
    if |ls| == 0 then 0
    else Starts(ls[..|ls| - 1]) + if ls[|ls| - 1].mentionsStart then 1 else 0
  }

  /** The newest line that mentions a start, or the length when none does. */
  function LastStart(ls: seq<Line>): (p: nat)
    ensures p <= |ls|
    ensures p < |ls| <==> Starts(ls) > 0
    ensures p < |ls| ==> ls[p].mentionsStart
  {
    if |ls| == 0 then 0
    else
      var n := |ls| - 1;
      var p := LastStart(ls[..n]);
      if ls[n].mentionsStart then n else if p < n then p else n + 1
  }

  lemma {:induction false} AfterLastStart(ls: seq<Line>, i: nat)
    requires LastStart(ls) < i < |ls|
    ensures !ls[i].mentionsStart
    decreases |ls|
  {
    if i < |ls| - 1 {
      AfterLastStart(ls[..|ls| - 1], i);
    }
  }

  /** The last start and the newest MAX lines, when that start is older than
      the newest MAX + 1 lines; otherwise that start and all that follows it,
      when it is a second or later one; otherwise the newest MAX + 1 lines. */
  function Kept(ls: seq<Line>): seq<Line> {
    var p := LastStart(ls);
    if p < |ls| && |ls| - p > MAX_CLOSED_LOG_LINES + 1 then [ls[p]] + Newest(ls, MAX_CLOSED_LOG_LINES)
    else if Starts(ls) >= 2 then ls[p..]
    else Newest(ls, MAX_CLOSED_LOG_LINES + 1)
  }

  /** No line of the newest 2000 is ever dropped, but for those before a second
      or later start. */
  lemma NewestAreKept(ls: seq<Line>)
    ensures Newest(Kept(ls), 2000) == Newest(if Starts(ls) >= 2 then ls[Min(LastStart(ls), |ls|)..] else ls, 2000)
  {
    var p := LastStart(ls);
    if p < |ls| && |ls| - p > 2001 {
      DropNewest(ls, p);
    } else if Starts(ls) < 2 {
      NewestOfNewest(ls);
    } else {
      hide Newest;
    }
  }

  lemma NewestOfNewest(ls: seq<Line>)
    ensures Newest(Newest(ls, 2001), 2000) == Newest(ls, 2000)
  {
  }

  lemma DropNewest(ls: seq<Line>, p: nat)
    requires p < |ls| && |ls| - p > 2001
    ensures Newest([ls[p]] + Newest(ls, 2000), 2000) == Newest(ls, 2000) == Newest(ls[p..], 2000)
  {
  }

  lemma StartsOfSnoc(ls: seq<Line>, l: Line)
    ensures Starts(ls + [l]) == Starts(ls) + if l.mentionsStart then 1 else 0
    ensures LastStart(ls + [l]) == if l.mentionsStart then |ls|
                                   else if Starts(ls) > 0 then LastStart(ls) else |ls| + 1
  {
    assert (ls + [l])[..|ls|] == ls;
  }

  lemma NewestOfSnoc<T>(s: seq<T>, x: T, n: nat)
    requires n > 0
    ensures Newest(s + [x], n) == Newest(s, n - 1) + [x]
    ensures Newest(s + [x], n) == if |s| < n then Newest(s, n) + [x] else Newest(s, n)[1..] + [x]
  {
  }

  /** What one iteration of the loop does to the tail. */
  function Pushed(tail: seq<Line>, haveStart: bool, l: Line): seq<Line> {
    var cleared := if l.mentionsStart && haveStart then [] else tail;
    var grown := cleared + [l];
    if |grown| <= MAX_CLOSED_LOG_LINES + 1 then grown
    else if (haveStart || l.mentionsStart) && grown[0].mentionsStart then [grown[0]] + grown[2..]
    else grown[1..]
  }

  lemma {:induction false} OnlyStart(ls: seq<Line>, i: nat)
    requires i < |ls| && Starts(ls) <= 1 && i != LastStart(ls)
    ensures !ls[i].mentionsStart
    decreases |ls|
  {
    var n := |ls| - 1;
    if i < n {
      if ls[n].mentionsStart {
        NoStarts(ls[..n], i);
      } else {
        OnlyStart(ls[..n], i);
      }
    }
  }

  lemma {:induction false} NoStarts(ls: seq<Line>, i: nat)
    requires Starts(ls) == 0 && i < |ls|
    ensures !ls[i].mentionsStart
    decreases |ls|
  {
    if i < |ls| - 1 {
      NoStarts(ls[..|ls| - 1], i);
    }
  }

  /** A window that may only slide: no line of it is dropped but its head. */
  lemma PushedWindow(ls: seq<Line>, l: Line, haveStart: bool)
    requires |ls| > MAX_CLOSED_LOG_LINES ==> !ls[|ls| - MAX_CLOSED_LOG_LINES - 1].mentionsStart
    requires !(l.mentionsStart && haveStart)
    ensures Pushed(Newest(ls, MAX_CLOSED_LOG_LINES + 1), haveStart, l) == Newest(ls + [l], MAX_CLOSED_LOG_LINES + 1)
  {
    NewestOfSnoc(ls, l, MAX_CLOSED_LOG_LINES + 1);
  }

  lemma KeptOfFirstStart(ls: seq<Line>, l: Line)
    requires Starts(ls) == 0
    ensures Kept(ls + [l]) == Pushed(Kept(ls), false, l)
  {
    StartsOfSnoc(ls, l);
    var k := |ls| - MAX_CLOSED_LOG_LINES - 1;
    if k >= 0 {
      NoStarts(ls, k);
    }
    PushedWindow(ls, l, false);
  }

  lemma KeptOfNewStart(ls: seq<Line>, l: Line)
    requires Starts(ls) > 0 && l.mentionsStart
    ensures Kept(ls + [l]) == Pushed(Kept(ls), true, l)
  {
    StartsOfSnoc(ls, l);
    assert (ls + [l])[|ls|..] == [l];
  }

  /** The last start is still inside the window after the push: the whole tail
      grows when it is a second or later one, the window slides when it is the first. */
  lemma KeptInsideLater(ls: seq<Line>, l: Line)
    requires Starts(ls) >= 2 && !l.mentionsStart && |ls| - LastStart(ls) <= MAX_CLOSED_LOG_LINES
    ensures Kept(ls + [l]) == Pushed(Kept(ls), true, l)
  {
    StartsOfSnoc(ls, l);
    DropOfConcat(ls, [l], LastStart(ls));
  }

  lemma KeptInsideFirst(ls: seq<Line>, l: Line)
    requires Starts(ls) == 1 && !l.mentionsStart && |ls| - LastStart(ls) <= MAX_CLOSED_LOG_LINES
    ensures Kept(ls + [l]) == Pushed(Kept(ls), true, l)
  {
    hide Starts, LastStart, Pushed;
    StartsOfSnoc(ls, l);
    if |ls| > MAX_CLOSED_LOG_LINES {
      OnlyStart(ls, |ls| - MAX_CLOSED_LOG_LINES - 1);
    }
    PushedWindow(ls, l, true);
  }

  /** The last start is the oldest line of the window, or already held beside it. */
  lemma KeptOutside(ls: seq<Line>, l: Line)
    requires Starts(ls) > 0 && !l.mentionsStart && |ls| - LastStart(ls) > MAX_CLOSED_LOG_LINES
    ensures Kept(ls + [l]) == Pushed(Kept(ls), true, l)
  {
    StartsOfSnoc(ls, l);
    WindowAtStart(ls);
    WindowAtStart(ls + [l]);
    NewestOfSnoc(ls, l, MAX_CLOSED_LOG_LINES);
    PushedBeside(ls[LastStart(ls)], Newest(ls, MAX_CLOSED_LOG_LINES), l);
  }

  lemma PushedBeside(start: Line, window: seq<Line>, l: Line)
    requires start.mentionsStart && !l.mentionsStart && |window| == MAX_CLOSED_LOG_LINES
    ensures Pushed([start] + window, true, l) == [start] + (window[1..] + [l])
  {
    assert ([start] + window + [l])[2..] == window[1..] + [l];
  }

  lemma WindowAtStart(ls: seq<Line>)
    requires Starts(ls) > 0 && |ls| - LastStart(ls) > MAX_CLOSED_LOG_LINES
    ensures Kept(ls) == [ls[LastStart(ls)]] + Newest(ls, MAX_CLOSED_LOG_LINES)
  {
    hide Starts, LastStart;
    if |ls| - LastStart(ls) == MAX_CLOSED_LOG_LINES + 1 {
      NewestWithHead(ls, MAX_CLOSED_LOG_LINES);
    }
  }

  lemma NewestWithHead<T>(s: seq<T>, n: nat)
    requires n < |s|
    ensures Newest(s, n + 1) == [s[|s| - n - 1]] + Newest(s, n)
  {
    assert |s| == n + 1 ==> s[0..] == s;
  }

  lemma KeptOfSnoc(ls: seq<Line>, l: Line)
    ensures Kept(ls + [l]) == Pushed(Kept(ls), Starts(ls) > 0, l)
  {
    if Starts(ls) == 0 {
      KeptOfFirstStart(ls, l);
    } else if l.mentionsStart {
      KeptOfNewStart(ls, l);
    } else if |ls| - LastStart(ls) <= MAX_CLOSED_LOG_LINES {
      if Starts(ls) >= 2 {
        KeptInsideLater(ls, l);
      } else {
        KeptInsideFirst(ls, l);
      }
    } else {
      KeptOutside(ls, l);
    }
  }

  /** The body of the loop. */
  method PushLine(tail0: seq<Line>, haveStart0: bool, line: Line)
    returns (tail: seq<Line>, haveStart: bool, held: nat)
    requires |tail0| <= MAX_CLOSED_LOG_LINES + 1
    ensures tail == Pushed(tail0, haveStart0, line) && |tail| <= MAX_CLOSED_LOG_LINES + 1
    ensures haveStart == (haveStart0 || line.mentionsStart)
    ensures held <= MAX_CLOSED_LOG_LINES + 2
  {
    tail, haveStart := tail0, haveStart0;
    if line.mentionsStart {
      if haveStart {
        tail := [];
      }
      haveStart := true;
    }
    tail := tail + [line];
    held := |tail|;
    if |tail| > MAX_CLOSED_LOG_LINES + 1 {
      var drop := |tail| - (MAX_CLOSED_LOG_LINES + 1);
      if !(haveStart && tail[0].mentionsStart && drop > 0 && |tail| > drop) {
        tail := tail[drop..];
      } else {
        tail := tail[..1] + tail[1 + drop..];
      }
    }
  }

  /** The lines before the first that is not UTF-8: a strict line reader gives
      up there, and the trim takes that for the end of the file. */
  function Whole(ls: seq<Line>): (w: seq<Line>)
    ensures |w| <= |ls| && w == ls[..|w|] && (forall l | l in w :: l.utf8)
    ensures |w| < |ls| ==> !ls[|w|].utf8
  {
    if |ls| == 0 || !ls[0].utf8 then []
    else
      var rest := Whole(ls[1..]);
      assert ls[..|rest| + 1] == [ls[0]] + ls[1..][..|rest|];
      [ls[0]] + rest
  }

  lemma WholeOfWhole(ls: seq<Line>)
    requires forall l | l in ls :: l.utf8
    ensures Whole(ls) == ls
  {
    assert forall i | 0 <= i < |ls| :: ls[i] in ls && ls[i].utf8;
  }

  /** The streaming loop: one pass, never more than MAX + 2 lines in memory. */
  method TrimTail(body: seq<Line>) returns (tail: seq<Line>, peak: nat)
    ensures tail == Kept(Whole(body))
    ensures peak <= 2002 && |tail| <= 2001
  {
    hide Kept, Starts, Pushed, Whole;
    tail, peak := [], 0;
    var haveStart := false;
    var i := 0;
    NoLinesKept();
    assert body[..0] == [];
    while i < |body| && body[i].utf8
      invariant i <= |Whole(body)|
      invariant tail == Kept(body[..i]) && |tail| <= MAX_CLOSED_LOG_LINES + 1
      invariant haveStart == (Starts(body[..i]) > 0)
      invariant peak <= MAX_CLOSED_LOG_LINES + 2
    {
      TailStep(body, i);
      var held;
      tail, haveStart, held := PushLine(tail, haveStart, body[i]);
      peak := if held > peak then held else peak;
      i := i + 1;
    }
    assert i == |Whole(body)|;
  }

  lemma TailStep(body: seq<Line>, i: nat)
    requires i < |body|
    ensures Kept(body[..i + 1]) == Pushed(Kept(body[..i]), Starts(body[..i]) > 0, body[i])
    ensures Starts(body[..i + 1]) > 0 <==> Starts(body[..i]) > 0 || body[i].mentionsStart
  {
    hide Kept, Pushed;
    assert body[..i + 1] == body[..i] + [body[i]];
    KeptOfSnoc(body[..i], body[i]);
    StartsOfSnoc(body[..i], body[i]);
  }

  lemma NoLinesKept()
    ensures Kept([]) == [] && Starts([]) == 0
  {
  }

  /** The file after a trim: a header that is not UTF-8 is lost, and with no
      line kept nothing is rewritten. */
  function TrimmedFile(ls: seq<Line>): seq<Line> {
    if |ls| == 0 then ls
    else
      var tail := Kept(Whole(ls[1..]));
      if |tail| == 0 then ls else (if ls[0].utf8 then [ls[0]] else []) + tail
  }

  method TrimFile(ls: seq<Line>) returns (out: seq<Line>, rewritten: bool)
    ensures out == TrimmedFile(ls)
    ensures rewritten <==> |ls| > 0 && |Whole(ls[1..])| > 0
  {
    hide Kept, Whole;
    if |ls| == 0 {
      return ls, false;
    }
    var tail, peak := TrimTail(ls[1..]);
    KeptIsSome(Whole(ls[1..]));
    if |tail| == 0 {
      return ls, false;
    }
    out := (if ls[0].utf8 then [ls[0]] else []) + tail;
    rewritten := true;
  }

  lemma KeptIsSome(ls: seq<Line>)
    ensures |Kept(ls)| == 0 <==> |ls| == 0
  {
  }

  // ---------------------------------------------------------------- idempotence

  lemma {:induction false} StartsConcat(a: seq<Line>, b: seq<Line>)
    ensures Starts(a + b) == Starts(a) + Starts(b)
    decreases |b|
  {
    if |b| == 0 {
      assert a + b == a;
    } else {
      var n := |b| - 1;
      assert (a + b)[..|a + b| - 1] == a + b[..n];
      StartsConcat(a, b[..n]);
    }
  }

  lemma {:induction false} NoMentions(ls: seq<Line>)
    requires forall i | 0 <= i < |ls| :: !ls[i].mentionsStart
    ensures Starts(ls) == 0
    decreases |ls|
  {
    if |ls| > 0 {
      NoMentions(ls[..|ls| - 1]);
    }
  }

  lemma SuffixHasFewer(ls: seq<Line>, k: nat)
    requires k <= |ls|
    ensures Starts(ls[k..]) <= Starts(ls)
  {
    assert ls == ls[..k] + ls[k..];
    StartsConcat(ls[..k], ls[k..]);
  }

  lemma SuffixAfterStart(ls: seq<Line>, k: nat)
    requires LastStart(ls) < k <= |ls|
    ensures Starts(ls[k..]) == 0
  {
    forall i | 0 <= i < |ls[k..]|
      ensures !ls[k..][i].mentionsStart
    {
      AfterLastStart(ls, k + i);
    }
    NoMentions(ls[k..]);
  }

  lemma OneThenNone(l: Line, ls: seq<Line>)
    requires Starts(ls) == 0
    ensures Starts([l] + ls) <= 1
  {
    StartsConcat([l], ls);
    assert Starts([l]) <= Starts([]) + 1;
  }

  lemma KeptHasOneStart(ls: seq<Line>)
    ensures Starts(Kept(ls)) <= 1
  {
    var p := LastStart(ls);
    if p < |ls| && |ls| - p > MAX_CLOSED_LOG_LINES + 1 {
      SuffixAfterStart(ls, |ls| - MAX_CLOSED_LOG_LINES);
      OneThenNone(ls[p], Newest(ls, MAX_CLOSED_LOG_LINES));
    } else if Starts(ls) >= 2 {
      SuffixAfterStart(ls, p + 1);
      OneThenNone(ls[p], ls[p + 1..]);
      assert ls[p..] == [ls[p]] + ls[p + 1..];
    } else if |ls| > MAX_CLOSED_LOG_LINES + 1 {
      SuffixHasFewer(ls, |ls| - MAX_CLOSED_LOG_LINES - 1);
    }
  }

  lemma KeptTwice(ls: seq<Line>)
    ensures Kept(Kept(ls)) == Kept(ls)
  {
    KeptHasOneStart(ls);
  }

  lemma KeptLength(ls: seq<Line>)
    ensures |Kept(ls)| <= MAX_CLOSED_LOG_LINES + 1
  {
  }

  lemma KeptUntouched(ls: seq<Line>)
    requires Starts(ls) <= 1 && |ls| <= MAX_CLOSED_LOG_LINES + 1
    ensures Kept(ls) == ls
  {
  }

  /** A second trim changes nothing, even where the first one lost the header
      and the second takes the first line kept for one. */
  lemma TrimTwice(ls: seq<Line>)
    ensures TrimmedFile(TrimmedFile(ls)) == TrimmedFile(ls)
  {
    hide Kept, Whole, Starts;
    if |ls| > 0 && |Kept(Whole(ls[1..]))| > 0 {
      var w := Whole(ls[1..]);
      var k := Kept(w);
      KeptIsFromBody(w);
      WholeOfWhole(k);
      if ls[0].utf8 {
        KeptTwice(w);
        assert ([ls[0]] + k)[1..] == k;
      } else {
        HeaderlessAgain(w);
        assert [] + k == k;
      }
    }
  }

  lemma HeaderlessAgain(w: seq<Line>)
    requires |Kept(w)| > 0 && forall l | l in Kept(w) :: l.utf8
    ensures TrimmedFile(Kept(w)) == Kept(w)
  {
    hide Kept, Starts, Whole;
    var k := Kept(w);
    KeptHasOneStart(w);
    KeptLength(w);
    SuffixHasFewer(k, 1);
    KeptUntouched(k[1..]);
    WholeOfWhole(k[1..]);
    assert k[0] in k && [k[0]] + k[1..] == k;
  }

  // ---------------------------------------------------------------- what recovery sees

  function Events(ls: seq<Line>): seq<Event> {
    if |ls| == 0 then []
    else
      var l := ls[|ls| - 1];
      Events(ls[..|ls| - 1]) + if l.event.Some? then [l.event.value] else []
  }

  lemma {:induction false} EventsConcat(a: seq<Line>, b: seq<Line>)
    ensures Events(a + b) == Events(a) + Events(b)
    decreases |b|
  {
    if |b| == 0 {
      assert a + b == a;
    } else {
      assert (a + b)[..|a + b| - 1] == a + b[..|b| - 1];
      EventsConcat(a, b[..|b| - 1]);
    }
  }

  predicate SteersLine(l: Line) {
    l.event.Some? && Steers(l.event.value)
  }

  predicate StartLine(l: Line) {
    l.event.Some? && l.event.value.kind.CommandStart?
  }

  /** `OpenCommand` of the events, in file order. */
  predicate OpenLines(ls: seq<Line>) {
    if |ls| == 0 then false
    else
      var l := ls[|ls| - 1];
      if StartLine(l) then true
      else if SteersLine(l) then false
      else OpenLines(ls[..|ls| - 1])
  }

  lemma {:induction false} OpenLinesMeans(ls: seq<Line>)
    ensures OpenLines(ls) <==> OpenCommand(Events(ls))
    decreases |ls|
  {
    if |ls| > 0 {
      var l := ls[|ls| - 1];
      var front := ls[..|ls| - 1];
      OpenLinesMeans(front);
      if l.event.Some? {
        assert (Events(front) + [l.event.value])[..|Events(front)|] == Events(front);
      } else {
        assert Events(ls) == Events(front);
      }
    }
  }

  lemma {:induction false} OpenLinesConcat(a: seq<Line>, b: seq<Line>)
    ensures OpenLines(a + b) == if exists l | l in b :: SteersLine(l) then OpenLines(b) else OpenLines(a)
    decreases |b|
  {
    if |b| == 0 {
      assert a + b == a;
    } else {
      var n := |b| - 1;
      assert b == b[..n] + [b[n]];
      assert (a + b)[..|a + b| - 1] == a + b[..n];
      OpenLinesConcat(a, b[..n]);
      assert b[n] in b;
      assert (exists l | l in b :: SteersLine(l)) <==> SteersLine(b[n]) || exists l | l in b[..n] :: SteersLine(l);
    }
  }

  lemma {:induction false} OpenNeedsAStart(ls: seq<Line>)
    requires OpenLines(ls)
    ensures exists l :: l in ls && StartLine(l)
    decreases |ls|
  {
    var n := |ls| - 1;
    assert ls == ls[..n] + [ls[n]];
    if !StartLine(ls[n]) {
      OpenNeedsAStart(ls[..n]);
    }
  }

  predicate Faithful(ls: seq<Line>) {
    forall l | l in ls :: l.Faithful()
  }

  predicate EndLine(l: Line) {
    SteersLine(l) && !StartLine(l)
  }

  predicate NoEnds(ls: seq<Line>) {
    forall l | l in ls :: !EndLine(l)
  }

  lemma OneLine(h: Line)
    ensures OpenLines([h]) == StartLine(h)
  {
    assert [h][..0] == [];
  }

  /** With no start in the rest, a command stays open exactly when no end is. */
  lemma NoStartsDecide(a: seq<Line>, b: seq<Line>)
    requires forall l | l in b :: !StartLine(l)
    ensures OpenLines(a + b) <==> OpenLines(a) && NoEnds(b)
  {
    OpenLinesConcat(a, b);
    if OpenLines(b) {
      OpenNeedsAStart(b);
    }
  }

  lemma OpenAfterStart(a: seq<Line>, l: Line)
    requires StartLine(l)
    ensures OpenLines(a + [l])
  {
    assert (a + [l])[..|a|] == a;
  }

  lemma NoMentionNoStart(ls: seq<Line>)
    requires Faithful(ls) && Starts(ls) == 0
    ensures forall l | l in ls :: !StartLine(l)
  {
    forall l | l in ls
      ensures !StartLine(l)
    {
      var i :| 0 <= i < |ls| && ls[i] == l;
      NoStarts(ls, i);
    }
  }

  lemma SubFaithful(all: seq<Line>, part: seq<Line>)
    requires Faithful(all) && forall l | l in part :: l in all
    ensures Faithful(part)
  {
  }

  lemma KeptIsFromBody(ls: seq<Line>)
    ensures forall l | l in Kept(ls) :: l in ls
  {
  }

  /** The last line that mentions a start is the start of a command. */
  predicate RealStart(ls: seq<Line>) {
    LastStart(ls) < |ls| && StartLine(ls[LastStart(ls)])
  }

  /** What the trim keeps before that line: lines of the window, when it is the
      only one and still inside. */
  function Front(ls: seq<Line>): seq<Line> {
    var p := LastStart(ls);
    if Starts(ls) == 1 && |ls| - p <= MAX_CLOSED_LOG_LINES + 1 then
      var window := Newest(ls, MAX_CLOSED_LOG_LINES + 1);
      assert |window| >= |ls| - p;
      window[..|window| - (|ls| - p)]
    else []
  }

  function Rest(ls: seq<Line>): seq<Line>
    requires LastStart(ls) < |ls|
  {
    Newest(ls[LastStart(ls) + 1..], MAX_CLOSED_LOG_LINES)
  }

  /** The kept lines around the last mention. */
  lemma KeptAround(ls: seq<Line>)
    requires LastStart(ls) < |ls|
    ensures Kept(ls) == Front(ls) + ([ls[LastStart(ls)]] + Rest(ls))
    ensures forall l | l in Front(ls) :: l in ls
  {
    hide Starts, LastStart, Kept, Rest, Front;
    var p := LastStart(ls);
    FrontIsBefore(ls);
    if |ls| - p > MAX_CLOSED_LOG_LINES + 1 {
      KeptFar(ls);
      NoFront(ls);
      assert [] + ([ls[p]] + Rest(ls)) == [ls[p]] + Rest(ls);
    } else if Starts(ls) == 1 {
      KeptNear(ls);
      WindowFront(ls);
    } else {
      KeptNear(ls);
      RestNear(ls);
      NoFront(ls);
      assert [] + ([ls[p]] + Rest(ls)) == [ls[p]] + Rest(ls);
    }
  }

  lemma NoFront(ls: seq<Line>)
    requires Starts(ls) != 1 || |ls| - LastStart(ls) > MAX_CLOSED_LOG_LINES + 1
    ensures Front(ls) == []
  {
    hide Starts, LastStart;
  }

  lemma RestNear(ls: seq<Line>)
    requires LastStart(ls) < |ls| && |ls| - LastStart(ls) <= MAX_CLOSED_LOG_LINES + 1
    ensures Rest(ls) == ls[LastStart(ls) + 1..]
  {
    hide Starts, LastStart;
    NewestTail(ls, LastStart(ls));
  }

  lemma WindowFront(ls: seq<Line>)
    requires LastStart(ls) < |ls| && |ls| - LastStart(ls) <= MAX_CLOSED_LOG_LINES + 1 && Starts(ls) == 1
    ensures Newest(ls, MAX_CLOSED_LOG_LINES + 1) == Front(ls) + ([ls[LastStart(ls)]] + Rest(ls))
  {
    hide Starts, LastStart, Newest, Rest, Front;
    var p, window := LastStart(ls), Newest(ls, MAX_CLOSED_LOG_LINES + 1);
    WindowAround(ls, p);
    RestNear(ls);
    FrontIs(ls);
    Glue(window, |window| - (|ls| - p), ls[p], ls[p + 1..], Front(ls), Rest(ls));
  }

  lemma Glue<T>(w: seq<T>, c: nat, x: T, tail: seq<T>, front: seq<T>, rest: seq<T>)
    requires c <= |w| && w == w[..c] + ([x] + tail) && front == w[..c] && rest == tail
    ensures w == front + ([x] + rest)
  {
  }

  lemma FrontIs(ls: seq<Line>)
    requires LastStart(ls) < |ls| && |ls| - LastStart(ls) <= MAX_CLOSED_LOG_LINES + 1 && Starts(ls) == 1
    ensures var window := Newest(ls, MAX_CLOSED_LOG_LINES + 1);
            && |window| >= |ls| - LastStart(ls)
            && Front(ls) == window[..|window| - (|ls| - LastStart(ls))]
  {
    hide Starts, LastStart, Newest;
  }

  lemma KeptFar(ls: seq<Line>)
    requires |ls| - LastStart(ls) > MAX_CLOSED_LOG_LINES + 1
    ensures Kept(ls) == [ls[LastStart(ls)]] + Rest(ls)
  {
    hide Starts, LastStart, Kept;
    KeptFarAt(ls);
    FarRest(ls);
  }

  lemma FarRest(ls: seq<Line>)
    requires |ls| - LastStart(ls) > MAX_CLOSED_LOG_LINES + 1
    ensures Rest(ls) == ls[|ls| - MAX_CLOSED_LOG_LINES..]
  {
    hide Starts, LastStart;
    TailOfTail(ls, LastStart(ls) + 1, |ls| - MAX_CLOSED_LOG_LINES);
  }

  lemma TailOfTail<T>(s: seq<T>, p: nat, k: nat)
    requires p <= k <= |s|
    ensures s[p..][k - p..] == s[k..]
  {
  }

  lemma KeptNear(ls: seq<Line>)
    requires LastStart(ls) < |ls| && |ls| - LastStart(ls) <= MAX_CLOSED_LOG_LINES + 1
    ensures Starts(ls) == 1 ==> Kept(ls) == Newest(ls, MAX_CLOSED_LOG_LINES + 1)
    ensures Starts(ls) != 1 ==> Kept(ls) == [ls[LastStart(ls)]] + ls[LastStart(ls) + 1..]
  {
    hide LastStart, Starts, Newest;
    HeadAndRest(ls, LastStart(ls));
  }

  lemma HeadAndRest<T>(s: seq<T>, p: nat)
    requires p < |s|
    ensures s[p..] == [s[p]] + s[p + 1..]
  {
  }

  lemma NewestTail(ls: seq<Line>, p: nat)
    requires p < |ls|
    ensures |ls| - p > MAX_CLOSED_LOG_LINES
        ==> Newest(ls[p + 1..], MAX_CLOSED_LOG_LINES) == Newest(ls, MAX_CLOSED_LOG_LINES)
    ensures |ls| - p <= MAX_CLOSED_LOG_LINES + 1 ==> Newest(ls[p + 1..], MAX_CLOSED_LOG_LINES) == ls[p + 1..]
  {
  }

  lemma WindowAround(ls: seq<Line>, p: nat)
    requires p < |ls| && |ls| - p <= MAX_CLOSED_LOG_LINES + 1
    ensures var window := Newest(ls, MAX_CLOSED_LOG_LINES + 1);
            && |window| >= |ls| - p
            && window == window[..|window| - (|ls| - p)] + ([ls[p]] + ls[p + 1..])
  {
    var window := Newest(ls, MAX_CLOSED_LOG_LINES + 1);
    var k := |window| - (|ls| - p);
    assert window[k..] == ls[p..];
    assert ls[p..] == [ls[p]] + ls[p + 1..];
    assert window == window[..k] + window[k..];
  }

  /** No start of a command stands after the last mention, and none before it
      that the trim keeps. */
  lemma OnlyRealStart(ls: seq<Line>)
    requires Faithful(ls) && LastStart(ls) < |ls|
    ensures forall l | l in Rest(ls) || l in ls[LastStart(ls) + 1..] :: !StartLine(l)
    ensures forall l | l in Front(ls) :: !StartLine(l)
  {
    hide Starts, LastStart, StartLine, Front;
    var p := LastStart(ls);
    SuffixAfterStart(ls, p + 1);
    SubFaithful(ls, ls[p + 1..]);
    NoMentionNoStart(ls[p + 1..]);
    FrontIsBefore(ls);
    if Starts(ls) == 1 {
      FrontHasNoStart(ls);
      SubFaithful(ls, ls[..p]);
      NoMentionNoStart(ls[..p]);
    }
  }

  lemma FrontIsBefore(ls: seq<Line>)
    requires LastStart(ls) < |ls|
    ensures forall l | l in Front(ls) :: Starts(ls) == 1 && l in ls[..LastStart(ls)]
  {
    hide Starts, LastStart;
    var p, window := LastStart(ls), Newest(ls, MAX_CLOSED_LOG_LINES + 1);
    var k := |ls| - |window|;
    forall i | 0 <= i < |Front(ls)|
      ensures Front(ls)[i] in ls[..p]
    {
      assert Front(ls)[i] == ls[..p][k + i];
    }
  }

  lemma FrontHasNoStart(ls: seq<Line>)
    requires Starts(ls) == 1
    ensures Starts(ls[..LastStart(ls)]) == 0
  {
    var p := LastStart(ls);
    forall i | 0 <= i < p
      ensures !ls[..p][i].mentionsStart
    {
      OnlyStart(ls, i);
    }
    NoMentions(ls[..p]);
  }

  lemma KeptWithStart(a: seq<Line>, body: seq<Line>)
    requires Faithful(body) && RealStart(body)
    ensures OpenLines(a + Kept(body)) <==> NoEnds(Rest(body))
  {
    hide Kept, Starts, LastStart, Faithful, Front;
    var s := body[LastStart(body)];
    KeptAround(body);
    OnlyRealStart(body);
    Assoc(a, Front(body), [s] + Rest(body));
    Assoc(a + Front(body), [s], Rest(body));
    OpenAfterStart(a + Front(body), s);
    NoStartsDecide(a + Front(body) + [s], Rest(body));
  }

  lemma KeptWithoutStart(a: seq<Line>, body: seq<Line>)
    requires Faithful(body) && !RealStart(body)
    ensures forall l | l in Kept(body) :: !StartLine(l)
    ensures OpenLines(a + Kept(body)) <==> OpenLines(a) && NoEnds(Kept(body))
  {
    hide Kept, Starts, LastStart, Faithful, Front;
    KeptIsFromBody(body);
    if LastStart(body) < |body| {
      KeptAround(body);
      OnlyRealStart(body);
    } else {
      NoMentionNoStart(body);
    }
    NoStartsDecide(a, Kept(body));
  }

  /** THE TRIM ON EVERY FILE, in file order. With `w` the lines before the first
      that is not UTF-8: after a trim that rewrites, a command is unfinished
      exactly when the last mention in `w` is a real start and the newest 2000
      lines after it hold no end; or it is not, and the file's first line,
      itself UTF-8, is a start and no kept line an end. */
  lemma TrimmedOpens(ls: seq<Line>)
    requires |ls| > 0 && Faithful(ls)
    ensures var w := Whole(ls[1..]);
            OpenLines(TrimmedFile(ls)) <==>
            if |w| == 0 then OpenLines(ls)
            else if RealStart(w) then NoEnds(Rest(w))
            else ls[0].utf8 && StartLine(ls[0]) && NoEnds(Kept(w))
  {
    hide Kept, Starts, LastStart, Whole, OpenLines, RealStart, Rest, NoEnds, StartLine, Faithful;
    var w, h := Whole(ls[1..]), if ls[0].utf8 then [ls[0]] else [];
    KeptIsSome(w);
    WholeFaithful(ls);
    if RealStart(w) {
      KeptWithStart(h, w);
    } else {
      KeptWithoutStart(h, w);
      OneLine(ls[0]);
      NothingOpen();
    }
  }

  lemma NothingOpen()
    ensures !OpenLines([])
  {
  }

  lemma WholeFaithful(ls: seq<Line>)
    requires |ls| > 0 && Faithful(ls)
    ensures Faithful(Whole(ls[1..]))
  {
    hide Whole;
    assert forall l | l in Whole(ls[1..]) :: l in ls[1..];
  }

  lemma SplitAtStart(h: Line, body: seq<Line>)
    requires LastStart(body) < |body|
    ensures var p := LastStart(body);
            [h] + body == ([h] + body[..p] + [body[p]]) + body[p + 1..]
  {
    hide LastStart, Starts;
    SplitAt(h, body, LastStart(body));
  }

  lemma SplitAt(h: Line, body: seq<Line>, p: nat)
    requires p < |body|
    ensures [h] + body == ([h] + body[..p] + [body[p]]) + body[p + 1..]
  {
  }

  /** AN UNFINISHED COMMAND STAYS UNFINISHED, unless a second or later line
      mentions a start without being one, and then only when the file's first
      line is that start. */
  lemma TrimKeepsInterrupted(h: Line, body: seq<Line>)
    requires Faithful([h] + body) && OpenLines([h] + body)
    ensures OpenLines([h] + Kept(body)) <==> Starts(body) <= 1 || RealStart(body) || StartLine(h)
  {
    hide Kept, Starts, LastStart, OpenLines, Faithful;
    SubFaithful([h] + body, body);
    OneLine(h);
    if RealStart(body) {
      KeptWithStart([h], body);
      OnlyRealStart(body);
      SplitAtStart(h, body);
      var p := LastStart(body);
      NoStartsDecide([h] + body[..p] + [body[p]], body[p + 1..]);
    } else {
      KeptWithoutStart([h], body);
      WithoutRealStart(h, body);
    }
  }

  /** With no real start among the lines, only the first line can be the open one. */
  lemma WithoutRealStart(h: Line, body: seq<Line>)
    requires Faithful([h] + body) && OpenLines([h] + body) && !RealStart(body)
    ensures Starts(body) <= 1 ==> StartLine(h)
    ensures StartLine(h) ==> NoEnds(Kept(body))
  {
    hide Starts, LastStart, OpenLines;
    SubFaithful([h] + body, body);
    KeptIsFromBody(body);
    OneLine(h);
    if Starts(body) <= 1 {
      NoStartAtAll(body);
      NoStartsDecide([h], body);
    } else {
      LaterKept(body);
      OnlyRealStart(body);
      SplitAtStart(h, body);
      var p := LastStart(body);
      assert forall l | l in [body[p]] + body[p + 1..] :: !StartLine(l);
      Assoc([h] + body[..p], [body[p]], body[p + 1..]);
      NoStartsDecide([h] + body[..p], [body[p]] + body[p + 1..]);
      assert forall l | l in Kept(body) :: l in [body[p]] + body[p + 1..];
    }
  }

  lemma NoStartAtAll(body: seq<Line>)
    requires Faithful(body) && Starts(body) <= 1 && !RealStart(body)
    ensures forall l | l in body :: !StartLine(l)
  {
    forall l | l in body
      ensures !StartLine(l)
    {
      var i :| 0 <= i < |body| && body[i] == l;
      if i != LastStart(body) {
        OnlyStart(body, i);
      }
    }
  }

  /** From a second mention on, nothing before the last one is kept. */
  lemma LaterKept(body: seq<Line>)
    requires Starts(body) >= 2
    ensures var p := LastStart(body);
            p < |body| && forall l | l in Kept(body) :: l in [body[p]] + body[p + 1..]
  {
    hide Kept;
    KeptAround(body);
  }

  /** A FINISHED COMMAND READS AS UNFINISHED after a trim exactly when its end was
      dropped between a real last start and the newest 2000 lines, or before
      the kept lines of a file that opens with the start. */
  lemma TrimReopens(h: Line, body: seq<Line>)
    requires Faithful([h] + body) && !OpenLines([h] + body)
    ensures OpenLines([h] + Kept(body)) <==>
            if RealStart(body) then
              |body| - LastStart(body) > MAX_CLOSED_LOG_LINES + 1 && NoEnds(Newest(body, MAX_CLOSED_LOG_LINES))
            else StartLine(h) && NoEnds(Kept(body))
  {
    hide Kept, Starts, LastStart, OpenLines, Faithful;
    SubFaithful([h] + body, body);
    OneLine(h);
    if RealStart(body) {
      var p := LastStart(body);
      KeptWithStart([h], body);
      NewestTail(body, p);
      OnlyRealStart(body);
      SplitAtStart(h, body);
      OpenAfterStart([h] + body[..p], body[p]);
      NoStartsDecide([h] + body[..p] + [body[p]], body[p + 1..]);
    } else {
      KeptWithoutStart([h], body);
    }
  }

  // ---------------------------------------------------------------- file order and `seq` order

  /** Starts and ends are flushed as they are logged, so they lie on disk in the
      order of their numbers while calls for one session do not overlap (output
      lines need not even then). */
  predicate SteersInOrder(es: seq<Event>) {
    forall i, j | 0 <= i < j < |es| && Steers(es[i]) && Steers(es[j]) :: NotAfter(es[i], es[j])
  }

  lemma OpenOfSnoc(es: seq<Event>, e: Event)
    ensures OpenCommand(es + [e]) == if e.kind.CommandStart? then true
                                     else if EndsCommand(e) then false else OpenCommand(es)
  {
    assert (es + [e])[..|es|] == es;
  }

  lemma InsertSteer(es: seq<Event>, e: Event)
    requires Steers(e) ==> forall x | x in es && Steers(x) :: NotAfter(x, e)
    ensures OpenCommand(Insert(es, e)) == OpenCommand(es + [e])
  {
    var n := |es| - 1;
    if |es| > 0 && !NotAfter(es[n], e) {
      assert es == es[..n] + [es[n]];
      InsertSteer(es[..n], e);
      OpenOfSnoc(Insert(es[..n], e), es[n]);
      OpenOfSnoc(es[..n], e);
      OpenOfSnoc(es, e);
    }
  }

  /** When they do, reading by number opens and closes commands as the file does. */
  lemma {:induction false} ReadKeepsSteers(es: seq<Event>)
    requires SteersInOrder(es)
    ensures OpenCommand(Read(es)) == OpenCommand(es)
    decreases |es|
  {
    if |es| > 0 {
      var n := |es| - 1;
      ReadKeepsSteers(es[..n]);
      NotAfterLast(es);
      InsertSteer(Read(es[..n]), es[n]);
      OpenOfSnoc(Read(es[..n]), es[n]);
    }
  }

  lemma NotAfterLast(es: seq<Event>)
    requires SteersInOrder(es) && |es| > 0
    ensures var e := es[|es| - 1];
            Steers(e) ==> forall x | x in Read(es[..|es| - 1]) && Steers(x) :: NotAfter(x, e)
  {
    var n := |es| - 1;
    ReadPermutes(es[..n]);
    forall x | x in Read(es[..n]) && Steers(x) && Steers(es[n])
      ensures NotAfter(x, es[n])
    {
      assert x in es[..n];
      var i :| 0 <= i < n && es[i] == x;
    }
  }

  predicate LinesInOrder(ls: seq<Line>) {
    forall i, j | 0 <= i < j < |ls| && SteersLine(ls[i]) && SteersLine(ls[j]) ::
      NotAfter(ls[i].event.value, ls[j].event.value)
  }

  lemma {:induction false} EventLine(ls: seq<Line>, e: Event) returns (i: nat)
    requires e in Events(ls)
    ensures i < |ls| && ls[i].event == Some(e)
    decreases |ls|
  {
    var n := |ls| - 1;
    if ls[n].event == Some(e) {
      return n;
    }
    i := EventLine(ls[..n], e);
  }

  lemma {:induction false} EventsInOrder(ls: seq<Line>)
    requires LinesInOrder(ls)
    ensures SteersInOrder(Events(ls))
    decreases |ls|
  {
    if |ls| > 0 {
      var n := |ls| - 1;
      var es := Events(ls[..n]);
      EventsInOrder(ls[..n]);
      forall i | 0 <= i < |es| && Steers(es[i]) && SteersLine(ls[n])
        ensures NotAfter(es[i], ls[n].event.value)
      {
        var k := EventLine(ls[..n], es[i]);
      }
    }
  }

  lemma KeptInOrder(h: Line, body: seq<Line>)
    requires LinesInOrder([h] + body)
    ensures LinesInOrder([h] + Kept(body))
  {
    hide LinesInOrder, Starts, LastStart, Kept;
    var p := LastStart(body);
    if p < |body| && |body| - p > MAX_CLOSED_LOG_LINES + 1 {
      KeptFarAt(body);
      StartAndTailInOrder(h, body, p, |body| - MAX_CLOSED_LOG_LINES);
    } else {
      KeptIsSuffix(body);
      TailInOrder(h, body, |body| - |Kept(body)|);
    }
  }

  lemma TailInOrder(h: Line, body: seq<Line>, k: nat)
    requires LinesInOrder([h] + body) && k <= |body|
    ensures LinesInOrder([h] + body[k..])
  {
    hide LinesInOrder;
    InOrderSuffix([h] + body, 1 + k);
    DropOfHead(h, body, k);
  }

  lemma StartAndTailInOrder(h: Line, body: seq<Line>, p: nat, k: nat)
    requires LinesInOrder([h] + body) && p < k <= |body|
    ensures LinesInOrder([h] + ([body[p]] + body[k..]))
  {
    hide LinesInOrder;
    InOrderParts([h] + body, 1 + p, 1 + k);
    DropOfHead(h, body, k);
    assert [h, body[p]] + body[k..] == [h] + ([body[p]] + body[k..]);
  }

  lemma KeptFarAt(ls: seq<Line>)
    requires |ls| - LastStart(ls) > MAX_CLOSED_LOG_LINES + 1
    ensures Kept(ls) == [ls[LastStart(ls)]] + ls[|ls| - MAX_CLOSED_LOG_LINES..]
  {
    hide Starts, LastStart;
  }

  lemma DropOfHead(h: Line, body: seq<Line>, k: nat)
    requires k <= |body|
    ensures ([h] + body)[1 + k..] == body[k..]
  {
  }

  lemma KeptIsSuffix(ls: seq<Line>)
    requires LastStart(ls) == |ls| || |ls| - LastStart(ls) <= MAX_CLOSED_LOG_LINES + 1
    ensures |Kept(ls)| <= |ls| && Kept(ls) == ls[|ls| - |Kept(ls)|..]
  {
    hide Starts, LastStart;
  }

  lemma InOrderSuffix(ls: seq<Line>, k: nat)
    requires LinesInOrder(ls) && 0 < k <= |ls|
    ensures LinesInOrder([ls[0]] + ls[k..])
  {
    var r := [ls[0]] + ls[k..];
    assert forall i | 1 <= i < |r| :: r[i] == ls[k + i - 1];
  }

  lemma InOrderParts(ls: seq<Line>, p: nat, k: nat)
    requires LinesInOrder(ls) && 0 < p < k <= |ls|
    ensures LinesInOrder([ls[0], ls[p]] + ls[k..])
  {
    var r := [ls[0], ls[p]] + ls[k..];
    assert forall i | 2 <= i < |r| :: r[i] == ls[k + i - 2];
  }

  /** For files whose starts and ends lie in order, recovery marks the trimmed
      file exactly when it would have marked the whole one, but for that case. */
  lemma TrimAndRecovery(h: Line, body: seq<Line>)
    requires Faithful([h] + body) && LinesInOrder([h] + body)
    requires OpenCommand(Read(Events([h] + body)))
    ensures OpenCommand(Read(Events([h] + Kept(body)))) <==> Starts(body) <= 1 || RealStart(body) || StartLine(h)
  {
    var all, kept := [h] + body, [h] + Kept(body);
    EventsInOrder(all);
    ReadKeepsSteers(Events(all));
    OpenLinesMeans(all);
    KeptInOrder(h, body);
    EventsInOrder(kept);
    ReadKeepsSteers(Events(kept));
    OpenLinesMeans(kept);
    TrimKeepsInterrupted(h, body);
  }

  /** The same on a file whose every line is UTF-8. */
  lemma FileTrimAndRecovery(ls: seq<Line>)
    requires |ls| > 0 && Faithful(ls) && LinesInOrder(ls) && forall l | l in ls :: l.utf8
    requires OpenCommand(Read(Events(ls)))
    ensures var body := ls[1..];
            OpenCommand(Read(Events(TrimmedFile(ls)))) <==> Starts(body) <= 1 || RealStart(body) || StartLine(ls[0])
  {
    hide Kept, Whole, Starts, LastStart, Faithful, LinesInOrder, OpenCommand, Events, Read;
    var h, body := ls[0], ls[1..];
    assert ls == [h] + body;
    WholeOfWhole(body);
    KeptIsSome(body);
    TrimAndRecovery(h, body);
    assert [h] + [] == [h];
    assert |body| == 0 ==> Kept(body) == [];
  }

  // ---------------------------------------------------------------- by number

  lemma EventsHaveLines(ls: seq<Line>)
    ensures forall e | e in Events(ls) :: exists l :: l in ls && l.event == Some(e)
  {
    forall e | e in Events(ls)
      ensures exists l :: l in ls && l.event == Some(e)
    {
      var i := EventLine(ls, e);
      assert ls[i] in ls;
    }
  }

  lemma NoStartEvents(ls: seq<Line>)
    requires forall l | l in ls :: !StartLine(l)
    ensures forall e | e in Events(ls) :: !e.kind.CommandStart?
  {
    hide Events;
    EventsHaveLines(ls);
  }

  lemma OneEvent(l: Line)
    ensures Events([l]) == if l.event.Some? then [l.event.value] else []
  {
    assert [l][..0] == [];
  }

  /** In a list of events with one start, it is open exactly when it outranks
      every end. */
  lemma OpenAround(a: seq<Event>, s: Event, b: seq<Event>)
    requires s.kind.CommandStart?
    requires forall e | e in b :: !e.kind.CommandStart?
    ensures (exists i :: |a| <= i && OpenAt(a + [s] + b, i)) <==> Outranks(a, s, b)
  {
    var es := a + [s] + b;
    assert es[..|a|] == a && es[|a|] == s && es[|a| + 1..] == b;
    assert forall i | |a| < i < |es| :: es[i] in b;
    assert OpenAt(es, |a|) <==> Outranks(a, s, b);
  }

  lemma OpenAtFirst(s: Event, b: seq<Event>)
    requires s.kind.CommandStart?
    ensures OpenAt([s] + b, 0) <==> Outranks([], s, b)
  {
    assert ([s] + b)[..0] == [] && ([s] + b)[1..] == b;
  }

  predicate FirstOutranks(h: seq<Line>, kept: seq<Line>) {
    |h| > 0 && StartLine(h[0]) && Outranks([], h[0].event.value, Events(kept))
  }

  lemma KeptReadsWithStart(h: seq<Line>, w: seq<Line>)
    requires |h| <= 1 && Faithful(w) && RealStart(w)
    ensures OpenCommand(Read(Events(h + Kept(w)))) <==>
            FirstOutranks(h, Kept(w))
            || Outranks(Events(h + Front(w)), w[LastStart(w)].event.value, Events(Rest(w)))
  {
    hide Kept, Starts, LastStart, Faithful, Front, Rest, Events, Outranks, OpenAt, Read, OpenCommand;
    var l := w[LastStart(w)];
    KeptAround(w);
    OnlyRealStart(w);
    Assoc(h, Front(w), [l] + Rest(w));
    Assoc(h + Front(w), [l], Rest(w));
    var a, b := Events(h + Front(w)), Events(Rest(w));
    EventsConcat(h + Front(w) + [l], Rest(w));
    EventsConcat(h + Front(w), [l]);
    OneEvent(l);
    NoStartEvents(Rest(w));
    ReadOpens(a + [l.event.value] + b);
    OpenAround(a, l.event.value, b);
    FrontStarts(h, Front(w), l.event.value, b);
    SplitFirst(h, Kept(w));
    var es := a + [l.event.value] + b;
    assert h + Kept(w) == h + Front(w) + [l] + Rest(w);
    assert Events(h + Kept(w)) == es;
    OpenSomewhere(es, |a|, |h| == 1 && StartLine(h[0]));
  }

  lemma OpenSomewhere(es: seq<Event>, n: nat, first: bool)
    requires forall i | 0 <= i < n && OpenAt(es, i) :: i == 0 && first
    ensures (exists i :: OpenAt(es, i)) <==> (first && OpenAt(es, 0)) || exists i :: n <= i && OpenAt(es, i)
  {
    hide OpenAt;
    if i :| OpenAt(es, i) {
      assert OpenAt(es, i) ==> 0 <= i by {
        OpenInside(es, i);
      }
    }
  }

  lemma OpenInside(es: seq<Event>, i: int)
    ensures OpenAt(es, i) ==> 0 <= i < |es|
  {
  }

  /** Before the last mention only the first line of the file can be a start. */
  lemma FrontStarts(h: seq<Line>, front: seq<Line>, s: Event, b: seq<Event>)
    requires |h| <= 1 && forall l | l in front :: !StartLine(l)
    ensures forall i | 0 <= i < |Events(h + front)| && OpenAt(Events(h + front) + [s] + b, i) ::
              i == 0 && |h| == 1 && StartLine(h[0])
  {
    hide Outranks;
    var a := Events(h + front);
    EventsConcat(h, front);
    NoStartEvents(front);
    if |h| == 1 {
      assert h == [h[0]];
      OneEvent(h[0]);
    } else {
      assert h == [] && [] + front == front;
      assert Events([]) == [];
    }
    forall i | 0 <= i < |a| && OpenAt(a + [s] + b, i)
      ensures i == 0 && |h| == 1 && StartLine(h[0])
    {
      assert (a + [s] + b)[i] == a[i];
      assert forall j | |Events(h)| <= j < |a| :: a[j] in Events(front);
    }
  }

  lemma SplitFirst(h: seq<Line>, kept: seq<Line>)
    requires |h| <= 1
    ensures FirstOutranks(h, kept) <==> |h| == 1 && StartLine(h[0]) && OpenAt(Events(h + kept), 0)
  {
    hide Outranks;
    if |h| == 1 && StartLine(h[0]) {
      assert h == [h[0]];
      EventsConcat(h, kept);
      OneEvent(h[0]);
      OpenAtFirst(h[0].event.value, Events(kept));
    }
  }

  lemma KeptReadsWithoutStart(h: seq<Line>, w: seq<Line>)
    requires |h| <= 1 && Faithful(w) && !RealStart(w)
    ensures OpenCommand(Read(Events(h + Kept(w)))) <==> FirstOutranks(h, Kept(w))
  {
    hide Kept, Starts, LastStart, Faithful, Events, Outranks, OpenAt, Read, OpenCommand, RealStart;
    KeptWithoutStart(h, w);
    ReadOpens(Events(h + Kept(w)));
    LoneStarts(h, Kept(w));
    SplitFirst(h, Kept(w));
  }

  lemma LoneStarts(h: seq<Line>, kept: seq<Line>)
    requires |h| <= 1 && forall l | l in kept :: !StartLine(l)
    ensures forall i :: OpenAt(Events(h + kept), i) ==> i == 0 && |h| == 1 && StartLine(h[0])
  {
    hide Outranks;
    var a := Events(h + kept);
    EventsConcat(h, kept);
    NoStartEvents(kept);
    if |h| == 1 {
      assert h == [h[0]];
      OneEvent(h[0]);
    } else {
      assert h == [] && [] + kept == kept;
      assert Events([]) == [];
    }
    forall i | OpenAt(a, i)
      ensures i == 0 && |h| == 1 && StartLine(h[0])
    {
      assert forall j | |Events(h)| <= j < |a| :: a[j] in Events(kept);
    }
  }

  /** THE TRIM AND RECOVERY ON EVERY FILE, in any order: after a trim that
      rewrites, recovery, which reads by number, finds a command unfinished
      exactly when one of two starts outranks every end kept beside it: the
      last line before any damage that mentions a start, when it is one; or the
      file's first line, when that is UTF-8 and one. */
  lemma TrimmedReads(ls: seq<Line>)
    requires |ls| > 0 && Faithful(ls)
    ensures var w := Whole(ls[1..]);
            var h := if ls[0].utf8 then [ls[0]] else [];
            OpenCommand(Read(Events(TrimmedFile(ls)))) <==>
            if |w| == 0 then exists i :: OpenAt(Events(ls), i)
            else
              || FirstOutranks(h, Kept(w))
              || (RealStart(w) && Outranks(Events(h + Front(w)), w[LastStart(w)].event.value, Events(Rest(w))))
  {
    hide Kept, Starts, LastStart, Whole, OpenAt, Rest, Front, FirstOutranks, Outranks, Faithful, Events, Read;
    hide OpenCommand, StartLine;
    var w, h := Whole(ls[1..]), if ls[0].utf8 then [ls[0]] else [];
    KeptIsSome(w);
    WholeFaithful(ls);
    ReadOpens(Events(ls));
    if RealStart(w) {
      KeptReadsWithStart(h, w);
    } else {
      KeptReadsWithoutStart(h, w);
    }
  }

  /** A line that is not UTF-8 ends the file for the trim: what follows it is
      dropped, unless nothing comes before it. */
  lemma DamageEndsTheFile(ls: seq<Line>)
    requires |ls| > 0 && |Whole(ls[1..])| < |ls| - 1
    ensures var n := 1 + |Whole(ls[1..])|;
            !ls[n].utf8 && TrimmedFile(ls) == if n == 1 then ls else TrimmedFile(ls[..n])
  {
    hide Kept;
    var w := Whole(ls[1..]);
    var n := 1 + |w|;
    assert ls[1..][|w|] == ls[n];
    assert ls[..n][1..] == ls[1..][..|w|];
    WholeOfWhole(w);
    KeptIsSome(w);
  }

  // ---------------------------------------------------------------- where the conditions bite

  const START_WORD := "command/start"

  /** The line of an event has the quoted word in it when its kind is that, or
      one of its texts is. */
  predicate Mentions(e: Event) {
    || e.kind.CommandStart? || e.body.quotesStart
    || (e.kind.Status? && e.kind.status == START_WORD)
    || (e.kind.Approval? && (e.kind.action == START_WORD || e.kind.subject == START_WORD))
  }

  function Logged(e: Event): Line {
    Line(Some(e), Mentions(e), true)
  }

  /** THE LINE OF A LOGGED EVENT reads back as the event; the trim takes it for a
      start when it is one, or when one of its texts is the very word. */
  lemma LoggedMeans(e: Event)
    ensures Logged(e).event == Some(e) && Logged(e).utf8
    ensures Logged(e).mentionsStart <==>
            match e.kind
            case CommandStart => true
            case Status(status) => status == "command/start" || e.body.quotesStart
            case Approval(action, subject) =>
              action == "command/start" || subject == "command/start" || e.body.quotesStart
            case _ => e.body.quotesStart
  {
  }

  function Start(n: nat): Line {
    Logged(Event(Some(n), CommandStart, PLAIN))
  }

  function End(n: nat): Line {
    Logged(Event(Some(n), CommandEnd, PLAIN))
  }

  const HEADER := Line(None, false, true)
  const TORN_START := Line(None, true, true)
  const DAMAGED := Line(None, false, false)

  /** One damaged line makes the trim drop a command that never finished. */
  lemma DamageHidesTheCommand(n: nat, m: nat)
    ensures var ls := [HEADER, Logged(Event(Some(n), Output, PLAIN)), DAMAGED, Start(m)];
            && Faithful(ls)
            && OpenCommand(Events(ls)) && !OpenCommand(Events(TrimmedFile(ls)))
            && TrimmedFile(ls) == ls[..2]
  {
    hide Events, OpenCommand;
    var o := Logged(Event(Some(n), Output, PLAIN));
    var ls := [HEADER, o, DAMAGED, Start(m)];
    var body := [o, DAMAGED, Start(m)];
    assert ls[1..] == body;
    assert Whole(body[1..]) == [];
    assert Whole(body) == [o];
    OneLineKept(o);
    assert [HEADER] + [o] == ls[..2];
    OpenLinesMeans(ls);
    OpenLinesMeans(ls[..2]);
    assert OpenLines(ls);
    assert ls[..2] == [HEADER] + [o];
    OpenLinesConcat([HEADER], [o]);
    OneLine(HEADER);
    OneLine(o);
  }

  lemma OneLineKept(l: Line)
    requires !l.mentionsStart
    ensures Kept([l]) == [l]
  {
    assert [l][..0] == [];
  }

  /** A line that mentions a start without being one makes the trim forget the
      real start before it. */
  lemma FalseStartHidesTheRealOne(n: nat, l: Line)
    requires l.mentionsStart && !SteersLine(l)
    ensures var body := [Start(n)] + [l];
            && Faithful([HEADER] + body)
            && OpenLines([HEADER] + body) && !OpenLines([HEADER] + Kept(body))
  {
    var body := [Start(n)] + [l];
    StartThenFalse(n, l);
    assert Faithful([HEADER] + body);
    hide Kept, OpenLines, Mentions, LastStart, Starts, Faithful;
    TrimKeepsInterrupted(HEADER, body);
  }

  lemma StartThenFalse(n: nat, l: Line)
    requires l.mentionsStart && !SteersLine(l)
    ensures var body := [Start(n)] + [l];
            Starts(body) == 2 && !RealStart(body) && OpenLines([HEADER] + body)
  {
    hide OpenLines;
    assert [Start(n)] == [] + [Start(n)];
    StartsOfSnoc([], Start(n));
    StartsOfSnoc([Start(n)], l);
    OpenAfterStart([HEADER], Start(n));
    NoStartsDecide([HEADER] + [Start(n)], [l]);
    Assoc([HEADER], [Start(n)], [l]);
    hide Starts, LastStart;
  }

  /** Such a line is the fragment of a later start. */
  lemma TornStartHidesTheRealOne(n: nat)
    ensures var body := [Start(n)] + [TORN_START];
            OpenLines([HEADER] + body) && !OpenLines([HEADER] + Kept(body))
  {
    FalseStartHidesTheRealOne(n, TORN_START);
  }

  /** So is a whole event one of whose texts is that word: a goal, a subject, a
      chunk of output. */
  lemma GoalHidesTheRealOne(n: nat, m: nat, rest: nat)
    ensures var body := [Start(n)] + [Logged(Event(Some(m), Chatter, Body(true, rest)))];
            OpenLines([HEADER] + body) && !OpenLines([HEADER] + Kept(body))
  {
    FalseStartHidesTheRealOne(n, Logged(Event(Some(m), Chatter, Body(true, rest))));
  }

  /** The other way round the trim promises nothing: a command whose end has
      2000 lines or more after it loses the end, and reads as unfinished. */
  lemma FinishedCanReopen(a: nat, b: nat, mute: seq<Line>)
    requires |mute| >= 2000 && forall l | l in mute :: !l.mentionsStart && !SteersLine(l)
    ensures var body := [Start(a)] + ([End(b)] + mute);
            !OpenLines([HEADER] + body) && OpenLines([HEADER] + Kept(body))
  {
    hide Kept, OpenLines;
    var body := [Start(a)] + ([End(b)] + mute);
    NoMentions([End(b)] + mute);
    FirstStart(Start(a), [End(b)] + mute);
    NewestOfMute(a, b, mute);
    EndThenMute([HEADER] + [Start(a)], End(b), mute);
    Assoc([HEADER], [Start(a)], [End(b)] + mute);
    TrimReopens(HEADER, body);
  }

  lemma NewestOfMute(a: nat, b: nat, mute: seq<Line>)
    requires |mute| >= MAX_CLOSED_LOG_LINES
    ensures Newest([Start(a)] + ([End(b)] + mute), MAX_CLOSED_LOG_LINES) == Newest(mute, MAX_CLOSED_LOG_LINES)
  {
  }

  lemma FirstStart(l: Line, ls: seq<Line>)
    requires l.mentionsStart && Starts(ls) == 0
    ensures LastStart([l] + ls) == 0
  {
    var all := [l] + ls;
    StartsConcat([l], ls);
    var p := LastStart(all);
    assert Starts([l]) == Starts([]) + 1;
    if p > 0 {
      NoStarts(ls, p - 1);
    }
  }

  lemma EndThenMute(a: seq<Line>, l: Line, b: seq<Line>)
    requires SteersLine(l) && !StartLine(l) && forall x | x in b :: !SteersLine(x)
    ensures !OpenLines(a + ([l] + b))
  {
    Assoc(a, [l], b);
    OpenLinesConcat(a + [l], b);
    OpenLinesConcat(a, [l]);
    OneLine(l);
    assert l in [l];
  }

  /** Starts out of order: recovery, reading by number, finds command 10 still
      open; the trim keeps the file's last start, command 5, which ended. */
  lemma OutOfOrderStartIsHidden()
    ensures var body := [Start(10), Start(5), End(7)];
            && Faithful([HEADER] + body) && !LinesInOrder([HEADER] + body)
            && OpenCommand(Read(Events([HEADER] + body)))
            && !OpenCommand(Read(Events([HEADER] + Kept(body))))
  {
    hide Events, Read, OpenCommand;
    var s10, s5, e7 := Start(10), Start(5), End(7);
    ThreeKept(s10, s5, e7);
    ThreeRead(s10, s5, e7);
    TwoRead(s5, e7);
    var all := [HEADER] + [s10, s5, e7];
    assert all[1] == s10 && all[2] == s5;
  }

  lemma ThreeKept(r: Line, s: Line, t: Line)
    requires r.mentionsStart && s.mentionsStart && !t.mentionsStart
    ensures Kept([r, s, t]) == [s] + [t]
  {
    assert [] + [r] == [r] && [r] + [s] == [r, s] && [r, s] + [t] == [r, s, t];
    StartsOfSnoc([], r);
    StartsOfSnoc([r], s);
    StartsOfSnoc([r, s], t);
  }

  lemma EventsOfSnoc(ls: seq<Line>, e: Event)
    ensures Events(ls + [Logged(e)]) == Events(ls) + [e]
    ensures Read(Events(ls) + [e]) == Insert(Read(Events(ls)), e)
  {
    assert (ls + [Logged(e)])[..|ls|] == ls;
    assert (Events(ls) + [e])[..|Events(ls)|] == Events(ls);
  }

  lemma HeaderHasNoEvents()
    ensures Events([HEADER]) == [] && Read([]) == []
  {
    assert [HEADER][..0] == [];
  }

  lemma TwoRead(s: Line, t: Line)
    requires s == Start(5) && t == End(7)
    ensures !OpenCommand(Read(Events([HEADER] + ([s] + [t]))))
  {
    var a, b := s.event.value, t.event.value;
    Assoc([HEADER], [s], [t]);
    HeaderHasNoEvents();
    EventsOfSnoc([HEADER], a);
    EventsOfSnoc([HEADER] + [s], b);
    assert Insert([], a) == [a] && Insert([a], b) == [a] + [b];
    OpenOfSnoc([a], b);
  }

  lemma ThreeRead(r: Line, s: Line, t: Line)
    requires r == Start(10) && s == Start(5) && t == End(7)
    ensures OpenCommand(Read(Events([HEADER] + [r, s, t])))
  {
    hide OpenCommand, Mentions;
    var a, b, c := r.event.value, s.event.value, t.event.value;
    HeaderHasNoEvents();
    EventsOfSnoc([HEADER], a);
    EventsOfSnoc([HEADER] + [r], b);
    EventsOfSnoc([HEADER] + [r] + [s], c);
    assert [HEADER] + [r] + [s] + [t] == [HEADER] + [r, s, t];
    assert Insert([], a) == [a];
    InsertBefore([], a, b);
    InsertBefore([b], a, c);
    assert Insert([], b) == [b] && Insert([b], c) == [b] + [c] && [] + [a] == [a];
    OpenOfSnoc([b] + [c], a);
  }

  lemma InsertBefore(es: seq<Event>, last: Event, e: Event)
    requires !NotAfter(last, e)
    ensures Insert(es + [last], e) == Insert(es, e) + [last]
  {
    assert (es + [last])[..|es|] == es;
  }
}
