/** The reachability monitor: an incremental flip detector over a bounded ring,
    and the batch functions over the same probes. */
module Monitor {
  import opened Jsonl

  const SERIES_MAX: nat := 240

  datatype Probe = Probe(tsMs: nat, ok: bool)

  datatype Transition = Transition(atMs: nat, up: bool, lastedMs: nat)

  function SaturatingSub(a: nat, b: nat): nat {
    if a >= b then a - b else 0
  }

  // ---------------------------------------------------------------- what a series says

  /** The stamp of the oldest probe in the current run of equal states. */
  function RunStart(ps: seq<Probe>): nat
    requires |ps| > 0
  {
    var n := |ps| - 1;
    if n > 0 && ps[n - 1].ok == ps[n].ok then RunStart(ps[..n]) else ps[n].tsMs
  }

  /** The transition the last probe makes, if it makes one. */
  function Flip(before: seq<Probe>, p: Probe): Option<Transition> {
    if |before| > 0 && before[|before| - 1].ok != p.ok
    then Some(Transition(p.tsMs, p.ok, SaturatingSub(p.tsMs, RunStart(before))))
    else None
  }

  function AsSeq<T>(o: Option<T>): seq<T> {
    match o case Some(x) => [x] case None => []
  }

  /** Every state change of a series, oldest first. */
  function Transitions(ps: seq<Probe>): seq<Transition> {
    if |ps| == 0 then []
    else Transitions(ps[..|ps| - 1]) + AsSeq(Flip(ps[..|ps| - 1], ps[|ps| - 1]))
  }

  lemma OneMoreProbe(ps: seq<Probe>, i: nat)
    requires 0 < i < |ps|
    ensures Transitions(ps[..i + 1]) == Transitions(ps[..i]) + AsSeq(Flip(ps[..i], ps[i]))
    ensures RunStart(ps[..i + 1]) == if ps[i - 1].ok == ps[i].ok then RunStart(ps[..i]) else ps[i].tsMs
  {
    assert ps[..i + 1][..i] == ps[..i];
  }

  method ComputeTransitions(ps: seq<Probe>, limit: nat) returns (out: seq<Transition>)
    ensures out == Newest(Transitions(ps), limit)
  {
    out := [];
    if |ps| == 0 {
      return;
    }
    var runStart := ps[0].tsMs;
    var current := ps[0].ok;
    assert ps[..1][..0] == [] && ps[..1] == [ps[0]];
    for i := 1 to |ps|
      invariant out == Transitions(ps[..i])
      invariant runStart == RunStart(ps[..i]) && current == ps[i - 1].ok
    {
      hide Transitions, RunStart;
      OneMoreProbe(ps, i);
      if ps[i].ok != current {
        out := out + [Transition(ps[i].tsMs, ps[i].ok, SaturatingSub(ps[i].tsMs, runStart))];
        current := ps[i].ok;
        runStart := ps[i].tsMs;
      }
    }
    assert ps[..|ps|] == ps;
    if |out| > limit {
      out := out[|out| - limit..];
    }
  }

  // ---------------------------------------------------------------- what a transition is

  /** The state differs from the probe before. */
  predicate FlipAt(ps: seq<Probe>, i: int) {
    0 < i < |ps| && ps[i - 1].ok != ps[i].ok
  }

  /** The state that ended just before probe `i` had begun with probe `j`. */
  predicate RunFrom(ps: seq<Probe>, i: int, j: int) {
    && 0 <= j < i < |ps|
    && (j == 0 || ps[j - 1].ok != ps[j].ok)
    && forall m | j <= m < i :: ps[m].ok == ps[i - 1].ok
  }

  /** `t` is the change at probe `i`: its stamp, its state and how long the run
      of the other state, counted from that run's first probe, had lasted. */
  ghost predicate IsChange(ps: seq<Probe>, i: int, t: Transition) {
    && FlipAt(ps, i) && t.atMs == ps[i].tsMs && t.up == ps[i].ok
    && exists j :: RunFrom(ps, i, j) && t.lastedMs == SaturatingSub(ps[i].tsMs, ps[j].tsMs)
  }

  ghost predicate AllFlips(ps: seq<Probe>, ix: seq<int>) {
    && (forall i :: FlipAt(ps, i) <==> i in ix)
    && (forall a, b | 0 <= a < b < |ix| :: ix[a] < ix[b])
  }

  lemma {:induction false} RunStartMeaning(ps: seq<Probe>) returns (j: int)
    requires |ps| > 0
    ensures 0 <= j < |ps| && RunStart(ps) == ps[j].tsMs
    ensures (j == 0 || ps[j - 1].ok != ps[j].ok) && forall m | j <= m < |ps| :: ps[m].ok == ps[|ps| - 1].ok
    decreases |ps|
  {
    var n := |ps| - 1;
    if n > 0 && ps[n - 1].ok == ps[n].ok {
      j := RunStartMeaning(ps[..n]);
      assert forall m | 0 <= m < n :: ps[..n][m] == ps[m];
    } else {
      j := n;
    }
  }

  /** What decides an announcement: the change at the new probe, if it is one. */
  lemma FlipMeaning(before: seq<Probe>, p: Probe)
    ensures Flip(before, p).Some? <==> FlipAt(before + [p], |before|)
    ensures Flip(before, p).Some? ==> IsChange(before + [p], |before|, Flip(before, p).value)
  {
    var ps, n := before + [p], |before|;
    if Flip(before, p).Some? {
      var j := RunStartMeaning(before);
      assert forall m | 0 <= m < n :: ps[m] == before[m];
      assert RunFrom(ps, n, j);
    }
  }

  lemma ChangeOfPrefix(ps: seq<Probe>, p: Probe, i: int, t: Transition)
    requires IsChange(ps, i, t)
    ensures IsChange(ps + [p], i, t)
  {
    var j :| RunFrom(ps, i, j) && t.lastedMs == SaturatingSub(ps[i].tsMs, ps[j].tsMs);
    assert forall m | 0 <= m < |ps| :: (ps + [p])[m] == ps[m];
    assert RunFrom(ps + [p], i, j);
  }

  lemma FlipsOfSnoc(ps: seq<Probe>, p: Probe, ix: seq<int>)
    requires AllFlips(ps, ix)
    ensures AllFlips(ps + [p], ix + if FlipAt(ps + [p], |ps|) then [|ps|] else [])
  {
    var all, n := ps + [p], |ps|;
    var more := ix + if FlipAt(all, n) then [n] else [];
    assert forall m | 0 <= m < n :: all[m] == ps[m];
    assert forall i | i < n :: FlipAt(all, i) <==> FlipAt(ps, i);
    assert forall a | 0 <= a < |ix| :: ix[a] in ix && FlipAt(ps, ix[a]);
  }

  /** THE BATCH FUNCTION lists every change of the series, once and in order. */
  lemma {:induction false} TransitionsMeaning(ps: seq<Probe>) returns (ix: seq<int>)
    ensures AllFlips(ps, ix) && |ix| == |Transitions(ps)|
    ensures forall k | 0 <= k < |ix| :: IsChange(ps, ix[k], Transitions(ps)[k])
    decreases |ps|
  {
    hide IsChange, AllFlips, RunStart;
    if |ps| == 0 {
      ix := NoFlips();
    } else {
      var n := |ps| - 1;
      var front, p := ps[..n], ps[n];
      assert ps == front + [p];
      var before := TransitionsMeaning(front);
      FlipsOfSnoc(front, p, before);
      FlipMeaning(front, p);
      ix := before + if FlipAt(ps, n) then [n] else [];
      forall k | 0 <= k < |before|
        ensures IsChange(ps, before[k], Transitions(front)[k])
      {
        ChangeOfPrefix(front, p, before[k], Transitions(front)[k]);
      }
    }
  }

  lemma NoFlips() returns (ix: seq<int>)
    ensures AllFlips([], ix) && ix == []
  {
    ix := [];
  }

  /** How many entries of a list of transitions go one way. */
  function Count(ts: seq<Transition>, up: bool): nat {
    if |ts| == 0 then 0
    else Count(ts[..|ts| - 1], up) + if ts[|ts| - 1].up == up then 1 else 0
  }

  /** Drops are counted from neighbouring probes, not from the transitions. */
  method CountDrops(ps: seq<Probe>) returns (drops: nat)
    ensures drops == Count(Transitions(ps), false)
  {
    drops := 0;
    if |ps| == 0 {
      return;
    }
    assert ps[..1][..0] == [] && Transitions(ps[..1]) == [];
    for i := 1 to |ps|
      invariant drops == Count(Transitions(ps[..i]), false)
    {
      assert ps[..i + 1][..i] == ps[..i];
      CountSnoc(Transitions(ps[..i]), Flip(ps[..i], ps[i]), false);
      if ps[i - 1].ok && !ps[i].ok {
        drops := drops + 1;
      }
    }
    assert ps[..|ps|] == ps;
  }

  lemma CountSnoc(ts: seq<Transition>, t: Option<Transition>, up: bool)
    ensures Count(ts + AsSeq(t), up) == Count(ts, up) + if t.Some? && t.value.up == up then 1 else 0
  {
    if t.Some? {
      assert (ts + [t.value])[..|ts|] == ts;
    } else {
      assert ts + [] == ts;
    }
  }

  /** Walk back from the newest probe until the state differs. */
  method SinceMs(ps: seq<Probe>) returns (since: nat)
    requires |ps| > 0
    ensures since == RunStart(ps)
  {
    var n := |ps| - 1;
    var current := ps[n].ok;
    since := ps[n].tsMs;
    var i := n;
    assert ps[..n + 1] == ps;
    while i > 0 && ps[i - 1].ok == current
      invariant 0 <= i <= n && since == ps[i].tsMs && ps[i].ok == current
      invariant RunStart(ps[..i + 1]) == RunStart(ps)
    {
      assert ps[..i + 1][..i] == ps[..i];
      i := i - 1;
      since := ps[i].tsMs;
    }
  }

  // ---------------------------------------------------------------- any series

  /** Transitions alternate, start against the first probe's state and end at
      the last one's. */
  lemma {:induction false} Alternate(ps: seq<Probe>)
    requires |ps| > 0
    ensures var ts := Transitions(ps);
            && (forall i | 0 <= i < |ts| - 1 :: ts[i].up != ts[i + 1].up)
            && (|ts| > 0 ==> ts[0].up != ps[0].ok && ts[|ts| - 1].up == ps[|ps| - 1].ok)
            && (|ts| == 0 ==> ps[0].ok == ps[|ps| - 1].ok)
    decreases |ps|
  {
    if |ps| > 1 {
      Alternate(ps[..|ps| - 1]);
    } else {
      assert Transitions(ps[..0]) == [];
    }
  }

  /** The drops exceed the recoveries by exactly what the two ends say: a series
      that begins up and ends down fell once more than it rose. */
  lemma {:induction false} DropsAndRecoveries(ps: seq<Probe>)
    requires |ps| > 0
    ensures var ts := Transitions(ps);
            Count(ts, false) as int - Count(ts, true) as int
            == (if ps[0].ok then 1 else 0) - (if ps[|ps| - 1].ok then 1 else 0)
    decreases |ps|
  {
    var n := |ps| - 1;
    if n > 0 {
      DropsAndRecoveries(ps[..n]);
      CountSnoc(Transitions(ps[..n]), Flip(ps[..n], ps[n]), true);
      CountSnoc(Transitions(ps[..n]), Flip(ps[..n], ps[n]), false);
    } else {
      assert Transitions(ps[..0]) == [];
    }
  }

  function Sum(ts: seq<Transition>): nat {
    if |ts| == 0 then 0 else Sum(ts[..|ts| - 1]) + ts[|ts| - 1].lastedMs
  }

  predicate Nondecreasing(ps: seq<Probe>) {
    forall i, j | 0 <= i < j < |ps| :: ps[i].tsMs <= ps[j].tsMs
  }

  lemma {:induction false} RunStartIsOld(ps: seq<Probe>)
    requires |ps| > 0 && Nondecreasing(ps)
    ensures ps[0].tsMs <= RunStart(ps) <= ps[|ps| - 1].tsMs
    decreases |ps|
  {
    if |ps| > 1 {
      RunStartIsOld(ps[..|ps| - 1]);
    }
  }

  /** The current state began at the last transition, or with the series. */
  lemma {:induction false} SinceIsLastTransition(ps: seq<Probe>)
    requires |ps| > 0
    ensures var ts := Transitions(ps);
            RunStart(ps) == if |ts| > 0 then ts[|ts| - 1].atMs else ps[0].tsMs
    decreases |ps|
  {
    if |ps| > 1 {
      SinceIsLastTransition(ps[..|ps| - 1]);
    } else {
      assert Transitions(ps[..0]) == [];
    }
  }

  lemma SumSnoc(ts: seq<Transition>, t: Option<Transition>)
    ensures Sum(ts + AsSeq(t)) == Sum(ts) + if t.Some? then t.value.lastedMs else 0
  {
    if t.Some? {
      assert (ts + [t.value])[..|ts|] == ts;
    } else {
      assert ts + [] == ts;
    }
  }

  /** The durations account for all the time before it. */
  lemma {:induction false} DurationsAddUp(ps: seq<Probe>)
    requires |ps| > 0 && Nondecreasing(ps)
    ensures ps[0].tsMs + Sum(Transitions(ps)) == RunStart(ps)
    decreases |ps|
  {
    var n := |ps| - 1;
    if n == 0 {
      assert Transitions(ps[..0]) == [];
    } else {
      DurationsAddUp(ps[..n]);
      RunStartIsOld(ps[..n]);
      SumSnoc(Transitions(ps[..n]), Flip(ps[..n], ps[n]));
    }
  }

  // ---------------------------------------------------------------- the ring

  /** One watched target. */
  class Watch {
    var series: seq<Probe>

    constructor ()
      ensures series == []
    {
      series := [];
    }

    /** Record a probe; the announcement, if any, is decided before eviction. */
    method Record(probe: Probe) returns (announced: Option<Transition>)
      modifies this
      ensures series == Newest(old(series) + [probe], SERIES_MAX)
      ensures announced == Flip(old(series), probe)
    {
      hide RunStart;
      var ps := series;
      var n := |ps|;
      var runStart := probe.tsMs;
      if n > 0 {
        var current := ps[n - 1].ok;
        var i := n - 1;
        runStart := ps[i].tsMs;
        assert ps[..n] == ps;
        while i > 0 && ps[i - 1].ok == current
          invariant 0 <= i < n && runStart == ps[i].tsMs && ps[i].ok == current
          invariant RunStart(ps[..i + 1]) == RunStart(ps)
        {
          RunGoesBack(ps, i);
          i := i - 1;
          runStart := ps[i].tsMs;
        }
        RunBeginsHere(ps, i);
      }
      var previous := if n > 0 then Some(ps[n - 1].ok) else None;
      series := ps + [probe];
      ghost var all := series;
      assert all[0..] == all;
      while |series| > SERIES_MAX
        invariant |series| <= |all| && series == all[|all| - |series|..]
        invariant |series| >= SERIES_MAX || |series| == |all|
      {
        DropOne(all, |all| - |series|);
        series := series[1..];
      }
      if previous.Some? && previous.value != probe.ok {
        announced := Some(Transition(probe.tsMs, probe.ok, SaturatingSub(probe.tsMs, runStart)));
      } else {
        announced := None;
      }
    }
  }

  lemma RunGoesBack(ps: seq<Probe>, i: nat)
    requires 0 < i < |ps| && ps[i - 1].ok == ps[i].ok
    ensures RunStart(ps[..i + 1]) == RunStart(ps[..i])
  {
    assert ps[..i + 1][..i] == ps[..i];
  }

  lemma RunBeginsHere(ps: seq<Probe>, i: nat)
    requires i < |ps| && (i > 0 ==> ps[i - 1].ok != ps[i].ok)
    ensures RunStart(ps[..i + 1]) == ps[i].tsMs
  {
  }

  lemma DropOne<T>(s: seq<T>, k: nat)
    requires k < |s|
    ensures s[k..][1..] == s[k + 1..]
  {
  }

  // ---------------------------------------------------------------- the life of a watch

  /** What a watch has come to: its ring, and all it announced. */
  datatype Life = Life(ring: seq<Probe>, announced: seq<Transition>)

  /** One more call of `Record`, as its contract has it. */
  function Recorded(life: Life, p: Probe): Life {
    Life(Newest(life.ring + [p], SERIES_MAX), life.announced + AsSeq(Flip(life.ring, p)))
  }

  function LifeOf(h: seq<Probe>): Life {
    if |h| == 0 then Life([], []) else Recorded(LifeOf(h[..|h| - 1]), h[|h| - 1])
  }

  /** Calls of `Record`, one for each probe. */
  method Live(h: seq<Probe>) returns (announced: seq<Transition>)
    ensures announced == LifeOf(h).announced
  {
    var watch := new Watch();
    announced := [];
    for i := 0 to |h|
      invariant LifeOf(h[..i]) == Life(watch.series, announced)
    {
      assert h[..i + 1][..i] == h[..i];
      var one := watch.Record(h[i]);
      announced := announced + AsSeq(one);
    }
    assert h[..|h|] == h;
  }

  lemma RingIsNewest(h: seq<Probe>, p: Probe)
    ensures Newest(Newest(h, SERIES_MAX) + [p], SERIES_MAX) == Newest(h + [p], SERIES_MAX)
  {
  }

  lemma LifeUnfolds(h: seq<Probe>)
    requires |h| > 0
    ensures LifeOf(h).ring == Newest(LifeOf(h[..|h| - 1]).ring + [h[|h| - 1]], SERIES_MAX)
  {
    hide Newest, Flip;
  }

  /** The ring is the newest probes of the whole history. */
  lemma {:induction false} RingOfLife(h: seq<Probe>)
    ensures LifeOf(h).ring == Newest(h, SERIES_MAX)
    decreases |h|
  {
    hide *;
    if |h| > 0 {
      var before, p := h[..|h| - 1], h[|h| - 1];
      LifeUnfolds(h);
      RingOfLife(before);
      RingIsNewest(before, p);
      assert before + [p] == h;
    } else {
      NoLife();
    }
  }

  lemma NoLife()
    ensures LifeOf([]).ring == Newest([], SERIES_MAX)
  {
  }

  /** The ring holds enough of the history to see the flip of the next probe. */
  lemma SameFlip(h: seq<Probe>, p: Probe)
    ensures Flip(LifeOf(h).ring, p).Some? <==> FlipAt(h + [p], |h|)
    ensures Flip(LifeOf(h).ring, p).Some? ==>
              Flip(LifeOf(h).ring, p).value.atMs == p.tsMs && Flip(LifeOf(h).ring, p).value.up == p.ok
  {
    RingOfLife(h);
    hide RunStart;
    assert |h| > 0 ==> (h + [p])[|h| - 1] == h[|h| - 1];
  }

  /** NO FLIP IS MISSED OR INVENTED: though the ring forgets, the calls of
      `Record` over a life announce, by stamp and state, exactly the flips of
      the whole history, once and in order. */
  lemma {:induction false} EveryFlipIsAnnounced(h: seq<Probe>) returns (ix: seq<int>)
    ensures AllFlips(h, ix) && |LifeOf(h).announced| == |ix|
    ensures forall k | 0 <= k < |ix| ::
              0 <= ix[k] < |h| && LifeOf(h).announced[k].atMs == h[ix[k]].tsMs
              && LifeOf(h).announced[k].up == h[ix[k]].ok
    decreases |h|
  {
    hide AllFlips, Flip;
    if |h| == 0 {
      ix := NoFlips();
    } else {
      var n := |h| - 1;
      var before, p := h[..n], h[n];
      assert h == before + [p];
      var first := EveryFlipIsAnnounced(before);
      FlipsOfSnoc(before, p, first);
      SameFlip(before, p);
      ix := first + if FlipAt(h, n) then [n] else [];
    }
  }

  /** Each announcement is a change of the ring with the new probe, timed by the
      probes the ring still has, and the last one the batch function gives for
      them, before any of them is evicted. */
  lemma AnnouncementIsLastEntry(h: seq<Probe>, p: Probe)
    ensures var ps := LifeOf(h).ring + [p];
            var t := Flip(LifeOf(h).ring, p);
            && (t.Some? <==> FlipAt(ps, |ps| - 1))
            && (t.Some? ==> IsChange(ps, |ps| - 1, t.value)
                            && |Transitions(ps)| > 0 && Transitions(ps)[|Transitions(ps)| - 1] == t.value)
            && LifeOf(h + [p]).announced == LifeOf(h).announced + AsSeq(t)
  {
    hide IsChange, Flip;
    var ring := LifeOf(h).ring;
    FlipMeaning(ring, p);
    assert (ring + [p])[..|ring|] == ring;
    assert (h + [p])[..|h|] == h;
  }

  /** How many probes the current run of equal states has. */
  function RunLength(ps: seq<Probe>): (n: nat)
    ensures n <= |ps| && (|ps| > 0 ==> n > 0)
  {
    if |ps| == 0 then 0
    else
      var n := |ps| - 1;
      if n > 0 && ps[n - 1].ok == ps[n].ok then 1 + RunLength(ps[..n]) else 1
  }

  /** The last `RunLength` probes have one state, and the one before another. */
  lemma {:induction false} RunLengthMeans(ps: seq<Probe>)
    ensures forall i | |ps| - RunLength(ps) <= i < |ps| :: ps[i].ok == ps[|ps| - 1].ok
    ensures RunLength(ps) < |ps| ==> ps[|ps| - RunLength(ps) - 1].ok != ps[|ps| - 1].ok
    decreases |ps|
  {
    if |ps| > 1 {
      RunLengthMeans(ps[..|ps| - 1]);
      assert forall i | 0 <= i < |ps| - 1 :: ps[i] == ps[..|ps| - 1][i];
    }
  }

  lemma {:induction false} RunStartInSuffix(ps: seq<Probe>, k: nat)
    requires 0 < k <= |ps|
    ensures k >= RunLength(ps) ==> RunStart(ps[|ps| - k..]) == RunStart(ps)
    ensures Nondecreasing(ps) ==> RunStart(ps) <= RunStart(ps[|ps| - k..])
    decreases k
  {
    var n := |ps| - 1;
    var w := ps[|ps| - k..];
    if k == 1 {
      if Nondecreasing(ps) {
        RunStartIsOld(ps);
      }
    } else if ps[n - 1].ok == ps[n].ok {
      RunStartInSuffix(ps[..n], k - 1);
      SuffixFront(ps, k);
    }
  }

  lemma SuffixFront(ps: seq<Probe>, k: nat)
    requires 1 < k <= |ps|
    ensures ps[|ps| - k..][..k - 1] == ps[..|ps| - 1][|ps| - k..]
  {
  }

  /** THE ANNOUNCED DURATION is never longer than the state really lasted, and
      is exact whenever the run that ended still lay whole in the ring. */
  lemma AnnouncedDuration(before: seq<Probe>, p: Probe)
    requires Flip(before, p).Some?
    ensures Flip(LifeOf(before).ring, p).Some?
    ensures var announced, whole := Flip(LifeOf(before).ring, p).value, Flip(before, p).value;
            && (RunLength(before) <= SERIES_MAX ==> announced == whole)
            && (Nondecreasing(before) ==> announced.lastedMs <= whole.lastedMs)
  {
    RingOfLife(before);
    if |before| > SERIES_MAX {
      RunStartInSuffix(before, SERIES_MAX);
    }
  }
}
