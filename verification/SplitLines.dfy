/** One audit file and the buffered writers of several logger instances. A line
    that does not fit a writer's buffer leaves it in two calls, the object
    before its newline, and another writer's bytes can land in between. */
module SplitLines {
  import opened Jsonl

  type Inst = nat

  /** What one call puts in the file. */
  datatype Piece<R> = Object(rec: R, owner: Inst) | Newline | Header

  /** `landed` is the file; `pending` what each open writer still holds. */
  datatype State<R> = State(landed: seq<Piece<R>>, pending: map<Inst, seq<Piece<R>>>)

  datatype Step<R> =
    | Open(owner: Inst)
    | Log(owner: Inst, rec: R)
    | Spill(owner: Inst, pieces: nat)
    | Close(owner: Inst)
    | Crash

  // ---------------------------------------------------------------- steps

  predicate MidLine<R>(ps: seq<Piece<R>>) {
    |ps| > 0 && !ps[|ps| - 1].Newline?
  }

  /** Both append rules, which a writer follows once, when it opens. */
  function Prepared<R>(ps: seq<Piece<R>>): seq<Piece<R>> {
    if |ps| == 0 then [Header, Newline] else if MidLine(ps) then ps + [Newline] else ps
  }

  function Spilled<R>(st: State<R>, i: Inst, n: nat): State<R> {
    if i !in st.pending || n > |st.pending[i]| then st
    else State(st.landed + st.pending[i][..n], st.pending[i := st.pending[i][n..]])
  }

  function Do<R>(st: State<R>, step: Step<R>): State<R> {
    match step
    case Open(i) => if i in st.pending then st else State(Prepared(st.landed), st.pending[i := []])
    case Log(i, r) =>
      if i !in st.pending then st else st.(pending := st.pending[i := st.pending[i] + [Object(r, i), Newline]])
    case Spill(i, n) => Spilled(st, i, n)
    case Close(i) =>
      if i !in st.pending then st
      else
        var all := Spilled(st, i, |st.pending[i]|);
        all.(pending := all.pending - {i})
    case Crash => State(st.landed, map[])
  }

  function Run<R>(steps: seq<Step<R>>): State<R> {
    if |steps| == 0 then State([], map[]) else Do(Run(steps[..|steps| - 1]), steps[|steps| - 1])
  }

  /** The step puts an object behind an unfinished line. */
  predicate Fuses<R>(st: State<R>, step: Step<R>) {
    && (step.Spill? || step.Close?) && step.owner in st.pending
    && |st.pending[step.owner]| > 0 && st.pending[step.owner][0].Object?
    && (step.Spill? ==> 0 < step.pieces <= |st.pending[step.owner]|)
    && MidLine(st.landed)
  }

  predicate CleanRun<R>(steps: seq<Step<R>>) {
    |steps| > 0 ==>
      var front := steps[..|steps| - 1];
      CleanRun(front) && !Fuses(Run(front), steps[|steps| - 1])
  }

  // ---------------------------------------------------------------- what reads back

  function BytesOf<R(!new)>(c: Codec<R>, ps: seq<Piece<R>>): Bytes {
    if |ps| == 0 then []
    else
      BytesOf(c, ps[..|ps| - 1]) +
      match ps[|ps| - 1]
      case Object(r, _) => c.encode(r)
      case Newline => [NL]
      case Header => if c.header.Some? then c.header.value else []
  }

  /** An object that another follows on its line does not parse, whatever comes
      after (section 2 of RFC 8259: a text is one value). */
  ghost predicate Ends<R(!new)>(c: Codec<R>) {
    forall r, q, b :: c.parse(c.encode(r) + c.encode(q) + b) == None
  }

  /** Both assumptions can be met at once. */
  lemma EndingCodecExists()
    ensures exists c: Codec<()> :: c.Sound() && Ends(c) && c.header.Some?
  {
    var c: Codec<()> := Codec(
      (r: ()) => [123, 125],
      (b: Bytes) => if b == [123, 125] then Some(()) else None,
      Some([91, 93]));
    assert forall k | 0 < k <= 2 :: c.header.value[..k][0] == 91;
    forall r: ()
      ensures c.parse(c.encode(r)) == Some(r)
    {
      assert r == ();
    }
    assert c.Sound() && Ends(c);
  }

  /** Where the last line starts. */
  function Start<R>(ps: seq<Piece<R>>): (n: nat)
    ensures n <= |ps| && !MidLine(ps[..n]) && (MidLine(ps) ==> n < |ps|)
    ensures forall k | n <= k < |ps| :: !ps[k].Newline?
  {
    if !MidLine(ps) then |ps|
    else
      var front := ps[..|ps| - 1];
      var n := Start(front);
      assert ps[..n] == front[..n];
      assert forall k | n <= k < |front| :: ps[k] == front[k];
      n
  }

  function Alone<R>(line: seq<Piece<R>>): seq<Piece<R>> {
    if |line| == 1 && line[0].Object? then line else []
  }

  /** The objects that stand alone on their line. */
  function Readable<R>(ps: seq<Piece<R>>): seq<Piece<R>> {
    if |ps| == 0 then []
    else if MidLine(ps) then Readable(ps[..Start(ps)]) + Alone(ps[Start(ps)..])
    else Readable(ps[..|ps| - 1])
  }

  function Objects<R>(ps: seq<Piece<R>>): seq<Piece<R>> {
    if |ps| == 0 then []
    else Objects(ps[..|ps| - 1]) + if ps[|ps| - 1].Object? then [ps[|ps| - 1]] else []
  }

  /** A header only at the very start, on a line of its own. */
  predicate Framed<R>(ps: seq<Piece<R>>) {
    forall k | 0 <= k < |ps| && ps[k].Header? :: k == 0 && (|ps| > 1 ==> ps[1].Newline?)
  }

  function Recs<R>(ps: seq<Piece<R>>): (rs: seq<R>)
    requires forall p | p in ps :: p.Object?
    ensures |rs| == |ps|
  {
    seq(|ps|, i requires 0 <= i < |ps| => ps[i].rec)
  }

  lemma ReadableAreObjects<R>(ps: seq<Piece<R>>)
    ensures forall p | p in Readable(ps) :: p.Object?
    ensures forall p | p in Objects(ps) :: p.Object?
  {
  }

  lemma {:induction false} BytesConcat<R(!new)>(c: Codec<R>, a: seq<Piece<R>>, b: seq<Piece<R>>)
    ensures BytesOf(c, a + b) == BytesOf(c, a) + BytesOf(c, b)
    decreases |b|
  {
    if |b| == 0 {
      assert a + b == a;
    } else {
      assert (a + b)[..|a + b| - 1] == a + b[..|b| - 1];
      BytesConcat(c, a, b[..|b| - 1]);
    }
  }

  lemma BytesEnd<R(!new)>(c: Codec<R>, ps: seq<Piece<R>>)
    requires c.Sound() && c.header.Some?
    ensures Torn(BytesOf(c, ps)) <==> MidLine(ps)
  {
  }

  lemma {:induction false} BytesOfLine<R(!new)>(c: Codec<R>, line: seq<Piece<R>>)
    requires c.Sound() && c.header.Some? && forall p | p in line :: !p.Newline?
    ensures NL !in BytesOf(c, line)
    decreases |line|
  {
    if |line| > 0 {
      BytesOfLine(c, line[..|line| - 1]);
    }
  }

  lemma BytesOfOne<R(!new)>(c: Codec<R>, p: Piece<R>)
    ensures BytesOf(c, [p]) == match p
                               case Object(r, _) => c.encode(r)
                               case Newline => [NL]
                               case Header => if c.header.Some? then c.header.value else []
  {
    assert [p][..0] == [];
    assert BytesOf(c, []) == [];
  }

  /** One line parses when it is one object. */
  lemma LineParses<R(!new)>(c: Codec<R>, line: seq<Piece<R>>)
    requires c.Sound() && Ends(c) && c.header.Some? && |line| > 0
    requires forall p | p in line :: !p.Newline?
    requires |line| > 1 ==> forall p | p in line :: p.Object?
    ensures c.parse(BytesOf(c, line)) == if |Alone(line)| == 1 then Some(line[0].rec) else None
    ensures |BytesOf(c, line)| > 0
  {
    BytesOfOne(c, line[0]);
    if |line| == 1 {
      assert line == [line[0]];
      assert line[0].Header? ==> c.header.value[..|c.header.value|] == c.header.value;
    } else {
      assert line[0].Object? && line[1].Object?;
      hide BytesOf;
      BytesOfOne(c, line[1]);
      BytesConcat(c, [line[0]], [line[1]]);
      BytesConcat(c, [line[0]] + [line[1]], line[2..]);
      assert line == [line[0]] + [line[1]] + line[2..];
    }
  }

  lemma LineReads<R(!new)>(c: Codec<R>, line: seq<Piece<R>>)
    requires c.Sound() && Ends(c) && c.header.Some? && |line| > 0
    requires forall p | p in line :: !p.Newline?
    requires |line| > 1 ==> forall p | p in line :: p.Object?
    ensures c.ReadAll(BytesOf(c, line)) == Recs(Alone(line))
  {
    LineParses(c, line);
    BytesOfLine(c, line);
    hide BytesOf;
    c.ReadFragment(BytesOf(c, line));
  }

  lemma RecsConcat<R>(a: seq<Piece<R>>, b: seq<Piece<R>>)
    requires forall p | p in a + b :: p.Object?
    ensures forall p | p in a :: p.Object?
    ensures forall p | p in b :: p.Object?
    ensures Recs(a + b) == Recs(a) + Recs(b)
  {
    assert forall p | p in a :: p in a + b;
    assert forall p | p in b :: p in a + b;
  }

  /** EVERY MOMENT: a reader gets exactly the objects that stand alone. */
  lemma {:induction false} ReadsAlone<R(!new)>(c: Codec<R>, ps: seq<Piece<R>>)
    requires c.Sound() && Ends(c) && c.header.Some? && Framed(ps)
    ensures forall p | p in Readable(ps) :: p.Object?
    ensures c.ReadAll(BytesOf(c, ps)) == Recs(Readable(ps))
    decreases |ps|
  {
    hide Alone, Objects, Lines;
    ReadableAreObjects(ps);
    if |ps| > 0 {
      BytesEnd(c, ps);
      if MidLine(ps) {
        var a, line := LastLine(ps);
        ReadsAlone(c, a);
        BytesEnd(c, a);
        BytesConcat(c, a, line);
        LineReads(c, line);
        c.ReadConcat(BytesOf(c, a), BytesOf(c, line));
        RecsConcat(Readable(a), Alone(line));
      } else {
        var front := ps[..|ps| - 1];
        ReadsAlone(c, front);
        BytesEnd(c, front);
        if MidLine(front) {
          LinesTerminated(BytesOf(c, front));
        } else {
          c.ReadConcat(BytesOf(c, front), [NL]);
          EmptyLine(c);
        }
      }
    }
  }

  lemma EmptyLine<R(!new)>(c: Codec<R>)
    requires c.Sound() && c.header.Some?
    ensures c.ReadAll([NL]) == []
  {
    assert c.header.value[..0] == [];
    c.ReadFragment([]);
    assert [] + [NL] == [NL];
  }

  // ---------------------------------------------------------------- nothing missing

  ghost predicate Fused<R(!new)>(ps: seq<Piece<R>>) {
    exists k | 0 <= k < |ps| - 1 :: ps[k].Object? && ps[k + 1].Object?
  }

  lemma {:induction false} ObjectsConcat<R>(a: seq<Piece<R>>, b: seq<Piece<R>>)
    ensures Objects(a + b) == Objects(a) + Objects(b)
    decreases |b|
  {
    if |b| == 0 {
      assert a + b == a;
    } else {
      assert (a + b)[..|a + b| - 1] == a + b[..|b| - 1];
      ObjectsConcat(a, b[..|b| - 1]);
    }
  }

  lemma {:induction false} AllObjects<R>(ps: seq<Piece<R>>)
    requires forall p | p in ps :: p.Object?
    ensures Objects(ps) == ps
    decreases |ps|
  {
    if |ps| > 0 {
      AllObjects(ps[..|ps| - 1]);
    }
  }

  lemma ObjectsOfLine<R>(line: seq<Piece<R>>)
    requires |line| > 0 && forall p | p in line :: !p.Newline?
    requires |line| > 1 ==> forall p | p in line :: p.Object?
    ensures if |line| == 1 then Alone(line) == Objects(line) else |Alone(line)| < |Objects(line)|
  {
    if |line| == 1 {
      assert line[..0] == [] && Objects(line[..0]) == [];
      assert line == [line[0]];
    } else {
      AllObjects(line);
    }
  }

  lemma FusedConcat<R(!new)>(a: seq<Piece<R>>, b: seq<Piece<R>>)
    ensures Fused(a + b) <==>
            Fused(a) || Fused(b) || (|a| > 0 && |b| > 0 && a[|a| - 1].Object? && b[0].Object?)
  {
    var all := a + b;
    assert forall k | 0 <= k < |a| :: all[k] == a[k];
    assert forall k | 0 <= k < |b| :: all[|a| + k] == b[k];
    if k :| 0 <= k < |all| - 1 && all[k].Object? && all[k + 1].Object? {
      if k >= |a| {
        assert b[k - |a|].Object? && b[k - |a| + 1].Object?;
      }
    }
    if k :| 0 <= k < |b| - 1 && b[k].Object? && b[k + 1].Object? {
      assert all[|a| + k].Object? && all[|a| + k + 1].Object?;
    }
    if |a| > 0 && |b| > 0 && a[|a| - 1].Object? && b[0].Object? {
      assert all[|a| - 1].Object? && all[|a|].Object?;
    }
  }

  lemma FusedLine<R(!new)>(line: seq<Piece<R>>)
    requires |line| > 1 ==> forall p | p in line :: p.Object?
    ensures Fused(line) <==> |line| > 1
  {
    if |line| > 1 {
      assert line[0].Object? && line[1].Object?;
    }
  }

  /** The unfinished line at the end, and what is before it. */
  lemma LastLine<R>(ps: seq<Piece<R>>) returns (a: seq<Piece<R>>, line: seq<Piece<R>>)
    requires Framed(ps) && MidLine(ps)
    ensures ps == a + line && Framed(a) && |a| < |ps| && (|a| > 0 ==> a[|a| - 1].Newline?)
    ensures Readable(ps) == Readable(a) + Alone(line)
    ensures forall p | p in line :: !p.Newline?
    ensures |line| > 1 ==> forall p | p in line :: p.Object?
  {
    a, line := ps[..Start(ps)], ps[Start(ps)..];
  }

  /** Every object stands alone exactly when none is directly behind another. */
  lemma {:induction false} MissingWhenFused<R(!new)>(ps: seq<Piece<R>>)
    requires Framed(ps)
    ensures if Fused(ps) then |Readable(ps)| < |Objects(ps)| else Readable(ps) == Objects(ps)
    decreases |ps|
  {
    hide Alone, Fused;
    if |ps| == 0 {
      FusedLine(ps);
    } else if MidLine(ps) {
      var a, line := LastLine(ps);
      hide Readable, Objects, Framed, MidLine;
      MissingWhenFused(a);
      ObjectsConcat(a, line);
      ObjectsOfLine(line);
      FusedConcat(a, line);
      FusedLine(line);
    } else {
      var front, last := ps[..|ps| - 1], ps[|ps| - 1];
      assert ps == front + [last];
      MissingWhenFused(front);
      FusedConcat(front, [last]);
      FusedLine([last]);
    }
  }

  // ---------------------------------------------------------------- runs

  /** A buffer holds whole lines of its own, but for a first newline. */
  ghost predicate Neat<R(!new)>(ps: seq<Piece<R>>, i: Inst) {
    && !MidLine(ps) && !Fused(ps)
    && forall p | p in ps :: !p.Header? && (p.Object? ==> p.owner == i)
  }

  ghost predicate Inv<R(!new)>(st: State<R>) {
    && Framed(st.landed)
    && (MidLine(st.landed) ==> st.landed[|st.landed| - 1].Object?)
    && forall i | i in st.pending :: Neat(st.pending[i], i) && |st.landed| > 0
  }

  lemma NeatParts<R(!new)>(ps: seq<Piece<R>>, i: Inst, n: nat)
    requires Neat(ps, i) && n <= |ps|
    ensures Neat(ps[n..], i) && !Fused(ps[..n])
    ensures forall p | p in ps[..n] :: !p.Header? && (p.Object? ==> p.owner == i)
  {
    assert ps == ps[..n] + ps[n..];
    FusedConcat(ps[..n], ps[n..]);
  }

  lemma SpillKeeps<R(!new)>(st: State<R>, i: Inst, n: nat)
    requires Inv(st) && i in st.pending && n <= |st.pending[i]|
    ensures Inv(Spilled(st, i, n))
    ensures Fused(Spilled(st, i, n).landed) <==>
            Fused(st.landed) || (n > 0 && st.pending[i][0].Object? && MidLine(st.landed))
  {
    var ps := st.pending[i];
    NeatParts(ps, i, n);
    FusedConcat(st.landed, ps[..n]);
    hide Fused;
    var landed := st.landed + ps[..n];
    forall k | |st.landed| <= k < |landed|
      ensures !landed[k].Header?
    {
      assert landed[k] in ps[..n];
    }
    if MidLine(landed) && n > 0 {
      assert landed[|landed| - 1] == ps[..n][n - 1];
      assert ps[..n][n - 1] in ps[..n];
    }
  }

  lemma LogKeeps<R(!new)>(ps: seq<Piece<R>>, i: Inst, r: R)
    requires Neat(ps, i)
    ensures Neat(ps + [Object(r, i), Newline], i)
  {
    FusedConcat(ps, [Object(r, i), Newline]);
  }

  lemma OpenKeeps<R(!new)>(ps: seq<Piece<R>>)
    requires Framed(ps) && (MidLine(ps) ==> ps[|ps| - 1].Object?)
    ensures Framed(Prepared(ps)) && !MidLine(Prepared(ps)) && (Fused(Prepared(ps)) <==> Fused(ps))
  {
    FusedConcat(ps, [Newline]);
  }

  lemma StepKeeps<R(!new)>(st: State<R>, step: Step<R>)
    requires Inv(st)
    ensures Inv(Do(st, step))
    ensures Fused(Do(st, step).landed) <==> Fused(st.landed) || Fuses(st, step)
  {
    match step
    case Open(i) =>
      OpenKeeps(st.landed);
    case Log(i, r) =>
      if i in st.pending {
        LogKeeps(st.pending[i], i, r);
      }
    case Spill(i, n) =>
      if i in st.pending && n <= |st.pending[i]| {
        SpillKeeps(st, i, n);
      }
    case Close(i) =>
      if i in st.pending {
        SpillKeeps(st, i, |st.pending[i]|);
      }
    case Crash =>
  }

  lemma {:induction false} RunKeeps<R(!new)>(steps: seq<Step<R>>)
    ensures Inv(Run(steps)) && (Fused(Run(steps).landed) <==> !CleanRun(steps))
    decreases |steps|
  {
    if |steps| > 0 {
      hide Inv, Fused, Fuses, Do;
      RunKeeps(steps[..|steps| - 1]);
      StepKeeps(Run(steps[..|steps| - 1]), steps[|steps| - 1]);
    }
  }

  /** EVERY OBJECT THAT LANDED READS BACK, in order, exactly when no writer's
      object ever went out while the file ended mid-line; else fewer do, for good. */
  lemma EveryLandedObjectReads<R(!new)>(c: Codec<R>, steps: seq<Step<R>>)
    requires c.Sound() && Ends(c) && c.header.Some?
    ensures var landed := Run(steps).landed;
            && (forall p | p in Objects(landed) :: p.Object?)
            && (c.ReadAll(BytesOf(c, landed)) == Recs(Objects(landed)) <==> CleanRun(steps))
            && (!CleanRun(steps) ==> |c.ReadAll(BytesOf(c, landed))| < |Objects(landed)|)
  {
    hide Fused, Readable, Objects, CleanRun, Run, BytesOf;
    var landed := Run(steps).landed;
    RunKeeps(steps);
    ReadableAreObjects(landed);
    ReadsAlone(c, landed);
    MissingWhenFused(landed);
  }

  /** A writer that opens starts its bytes on a line of their own: what it finds
      unfinished it ends, and an empty file gets its header. No object comes or
      goes, and its first one can follow no other. */
  lemma OpenEndsTheLine<R(!new)>(st: State<R>, i: Inst)
    requires i !in st.pending
    ensures var st' := Do(st, Open(i));
            && i in st'.pending && st'.pending[i] == [] && !MidLine(st'.landed) && st.landed <= st'.landed
            && st'.landed[|st.landed|..] ==
               (if st.landed == [] then [Header, Newline] else if MidLine(st.landed) then [Newline] else [])
            && Objects(st'.landed) == Objects(st.landed)
            && forall r :: !Fuses(Do(st', Log(i, r)), Close(i))
  {
    var st' := Do(st, Open(i));
    var more := st'.landed[|st.landed|..];
    ObjectsConcat(st.landed, more);
    assert st'.landed == st.landed + more;
    NoObjects<R>();
  }

  lemma NoObjects<R>()
    ensures Objects<R>([Header, Newline]) == [] && Objects<R>([Newline]) == [] && Objects<R>([]) == []
  {
    var h: seq<Piece<R>> := [Header, Newline];
    var n: seq<Piece<R>> := [Newline];
    assert h[..1] == [Header] && h[..1][..0] == [] && n[..0] == [];
    assert Objects(h[..0]) == [] && Objects(h[..1]) == [];
  }

  // ---------------------------------------------------------------- where each event is

  function By<R>(ps: seq<Piece<R>>, i: Inst): seq<R> {
    if |ps| == 0 then []
    else
      var last := ps[|ps| - 1];
      By(ps[..|ps| - 1], i) + if last.Object? && last.owner == i then [last.rec] else []
  }

  function Held<R>(st: State<R>, i: Inst): seq<R> {
    if i in st.pending then By(st.pending[i], i) else []
  }

  /** What an instance has logged, less what a crash took from its buffer. */
  function Logged<R>(steps: seq<Step<R>>, i: Inst): seq<R> {
    if |steps| == 0 then []
    else
      var front, last := steps[..|steps| - 1], steps[|steps| - 1];
      match last
      case Log(j, r) => Logged(front, i) + if j == i && i in Run(front).pending then [r] else []
      case Crash => By(Run(front).landed, i)
      case _ => Logged(front, i)
  }

  lemma {:induction false} ByConcat<R>(a: seq<Piece<R>>, b: seq<Piece<R>>, i: Inst)
    ensures By(a + b, i) == By(a, i) + By(b, i)
    decreases |b|
  {
    if |b| == 0 {
      assert a + b == a;
    } else {
      assert (a + b)[..|a + b| - 1] == a + b[..|b| - 1];
      ByConcat(a, b[..|b| - 1], i);
    }
  }

  lemma {:induction false} ByOthers<R>(ps: seq<Piece<R>>, i: Inst)
    requires forall p | p in ps && p.Object? :: p.owner != i
    ensures By(ps, i) == []
    decreases |ps|
  {
    if |ps| > 0 {
      ByOthers(ps[..|ps| - 1], i);
    }
  }

  lemma SpillMoves<R(!new)>(st: State<R>, j: Inst, n: nat, i: Inst)
    requires Inv(st)
    ensures By(Spilled(st, j, n).landed, i) + Held(Spilled(st, j, n), i) == By(st.landed, i) + Held(st, i)
  {
    hide By, Fused;
    if j in st.pending && n <= |st.pending[j]| {
      var ps := st.pending[j];
      ByConcat(st.landed, ps[..n], i);
      if i == j {
        assert ps == ps[..n] + ps[n..];
        ByConcat(ps[..n], ps[n..], i);
      } else {
        NeatParts(ps, j, n);
        ByOthers(ps[..n], i);
      }
    }
  }

  lemma OpenAddsNone<R>(ps: seq<Piece<R>>, i: Inst)
    ensures By(Prepared(ps), i) == By(ps, i)
  {
    if |ps| == 0 {
      ByOthers(Prepared(ps), i);
    }
  }

  lemma StepMoves<R(!new)>(st: State<R>, step: Step<R>, i: Inst)
    requires Inv(st) && !step.Crash?
    ensures By(Do(st, step).landed, i) + Held(Do(st, step), i) ==
            By(st.landed, i) + Held(st, i) +
            if step.Log? && step.owner == i && i in st.pending then [step.rec] else []
  {
    hide By, Inv, Spilled, Prepared;
    match step
    case Open(j) =>
      OpenAddsNone(st.landed, i);
      NothingHeld<R>(i);
    case Log(j, r) =>
      if j in st.pending {
        ByConcat(st.pending[j], [Object(r, j), Newline], i);
        ByTwo(r, j, i);
      }
    case Spill(j, n) => SpillMoves(st, j, n, i);
    case Close(j) =>
      if j in st.pending {
        SpillMoves(st, j, |st.pending[j]|, i);
        SpilledAll(st, j);
      }
  }

  lemma NothingHeld<R>(i: Inst)
    ensures By<R>([], i) == []
  {
  }

  /** NOTHING IS LOST ON THE WAY: what an instance logged is on disk or in its
      buffer, in the order it was logged. */
  lemma {:induction false} EachIsSomewhere<R(!new)>(steps: seq<Step<R>>, i: Inst)
    ensures By(Run(steps).landed, i) + Held(Run(steps), i) == Logged(steps, i)
    decreases |steps|
  {
    if |steps| > 0 {
      hide By, Inv, Spilled, Prepared;
      var front, step := steps[..|steps| - 1], steps[|steps| - 1];
      EachIsSomewhere(front, i);
      RunKeeps(front);
      if !step.Crash? {
        StepMoves(Run(front), step, i);
      }
    } else {
      NothingHeld<R>(i);
    }
  }

  lemma ByTwo<R>(r: R, j: Inst, i: Inst)
    ensures By([Object(r, j), Newline], i) == if i == j then [r] else []
  {
    assert [Object(r, j), Newline][..1] == [Object(r, j)] && [Object(r, j)][..0] == [];
    assert By<R>([], i) == [];
  }

  lemma SpilledAll<R>(st: State<R>, j: Inst)
    requires j in st.pending
    ensures Held(Spilled(st, j, |st.pending[j]|), j) == []
    ensures Spilled(st, j, |st.pending[j]|).pending.Keys == st.pending.Keys
  {
  }

  // ---------------------------------------------------------------- an input

  lemma StartBehind<R>(ps: seq<Piece<R>>, line: seq<Piece<R>>)
    requires !MidLine(ps) && forall p | p in line :: !p.Newline?
    ensures Start(ps + line) == |ps|
  {
    var all, n := ps + line, Start(ps + line);
    assert forall k | |ps| <= k < |all| :: all[k] in line;
    assert n > 0 ==> all[..n][n - 1] == all[n - 1];
    assert |ps| > 0 ==> all[|ps| - 1] == ps[|ps| - 1];
  }

  lemma TwoOnALine<R>(ps: seq<Piece<R>>, a: R, i: Inst, b: R, j: Inst)
    requires !MidLine(ps)
    ensures Readable(ps + [Object(a, i), Object(b, j)]) == Readable(ps)
  {
    var line := [Object(a, i), Object(b, j)];
    StartBehind(ps, line);
    assert (ps + line)[..|ps|] == ps && (ps + line)[|ps|..] == line;
  }

  lemma HeaderLine<R>()
    ensures Readable<R>([Header]) == []
  {
    var ps: seq<Piece<R>> := [Header];
    assert ps[..0] == [] && Start(ps) == 0;
  }

  lemma ReadableSnoc<R>(ps: seq<Piece<R>>)
    ensures Readable(ps + [Newline]) == Readable(ps)
  {
    assert (ps + [Newline])[..|ps|] == ps;
  }

  lemma RunSnoc<R>(steps: seq<Step<R>>, step: Step<R>)
    ensures Run(steps + [step]) == Do(Run(steps), step)
  {
    assert (steps + [step])[..|steps|] == steps;
  }

  /** Two writers open; a long line of the first is out but for its newline; the
      second's line lands behind it. Nothing was lost in any buffer, and neither
      event can be read again. */
  lemma LongLineTakesAnother<R(!new)>(c: Codec<R>, a: R, b: R)
    requires c.Sound() && Ends(c) && c.header.Some?
    ensures var steps := [Open(0), Open(1), Log(0, a), Spill(0, 1), Log(1, b), Close(1), Close(0)];
            && Run(steps).landed == [Header, Newline, Object(a, 0), Object(b, 1), Newline, Newline]
            && Run(steps).pending == map[]
            && c.ReadAll(BytesOf(c, Run(steps).landed)) == []
  {
    TwoWriters(a);
    SecondClosesFirst(a, b);
    hide *;
    NeitherAlone(a, b);
    ReadsAlone(c, [Header, Newline, Object(a, 0), Object(b, 1), Newline, Newline]);
  }

  lemma NeitherAlone<R>(a: R, b: R)
    ensures var landed := [Header, Newline, Object(a, 0), Object(b, 1), Newline, Newline];
            Framed(landed) && Readable(landed) == []
  {
    var h, line := [Header, Newline], [Object(a, 0), Object(b, 1)];
    assert Readable(h) == [] by {
      assert h[..1] == [Header];
      HeaderLine<R>();
    }
    TwoOnALine(h, a, 0, b, 1);
    ReadableSnoc(h + line);
    ReadableSnoc(h + line + [Newline]);
    var landed := [Header, Newline, Object(a, 0), Object(b, 1), Newline, Newline];
    assert h + line + [Newline] + [Newline] == landed;
  }

  lemma TwoWriters<R>(a: R)
    ensures Run([Open(0), Open(1), Log(0, a), Spill(0, 1)]) ==
            State([Header, Newline, Object(a, 0)], map[0 := [Newline], 1 := []])
  {
    RunSnoc<R>([], Open(0));
    RunSnoc<R>([Open(0)], Open(1));
    var one: seq<Step<R>> := [Open(0)];
    assert [] + one == one && one + [Open(1)] == [Open(0), Open(1)];
    RunSnoc([Open(0), Open(1)], Log(0, a));
    assert [Open(0), Open(1)] + [Log(0, a)] == [Open(0), Open(1), Log(0, a)];
    RunSnoc([Open(0), Open(1), Log(0, a)], Spill(0, 1));
    assert [Open(0), Open(1), Log(0, a)] + [Spill(0, 1)] == [Open(0), Open(1), Log(0, a), Spill(0, 1)];
    var two: State<R> := Run([Open(0), Open(1)]);
    assert two == State([Header, Newline], map[0 := [], 1 := []]);
    hide Run;
    var line := [Object(a, 0), Newline];
    assert [] + line == line && line[..1] == [Object(a, 0)] && line[1..] == [Newline];
    assert Do(two, Log(0, a)) == State([Header, Newline], map[0 := line, 1 := []]);
  }

  lemma SecondClosesFirst<R>(a: R, b: R)
    requires Run([Open(0), Open(1), Log(0, a), Spill(0, 1)]) ==
             State([Header, Newline, Object(a, 0)], map[0 := [Newline], 1 := []])
    ensures Run([Open(0), Open(1), Log(0, a), Spill(0, 1), Log(1, b), Close(1), Close(0)]) ==
            State([Header, Newline, Object(a, 0), Object(b, 1), Newline, Newline], map[])
  {
    var four := [Open(0), Open(1), Log(0, a), Spill(0, 1)];
    RunSnoc(four, Log(1, b));
    RunSnoc(four + [Log(1, b)], Close(1));
    RunSnoc(four + [Log(1, b)] + [Close(1)], Close(0));
    assert four + [Log(1, b)] + [Close(1)] + [Close(0)]
        == [Open(0), Open(1), Log(0, a), Spill(0, 1), Log(1, b), Close(1), Close(0)];
    hide Run;
    LastThree(a, b);
  }

  lemma LastThree<R>(a: R, b: R)
    ensures var st := State([Header, Newline, Object(a, 0)], map[0 := [Newline], 1 := []]);
            Do(Do(Do(st, Log(1, b)), Close(1)), Close(0)) ==
            State([Header, Newline, Object(a, 0), Object(b, 1), Newline, Newline], map[])
  {
    var st := State([Header, Newline, Object(a, 0)], map[0 := [Newline], 1 := []]);
    var line := [Object(b, 1), Newline];
    assert [] + line == line && line[..2] == line;
    assert Do(st, Log(1, b)) == State(st.landed, map[0 := [Newline], 1 := line]);
    var next := State(st.landed + line, map[0 := [Newline]]);
    assert Do(Do(st, Log(1, b)), Close(1)) == next;
    assert Do(next, Close(0)).pending == map[];
  }
}
