/** Boot recovery of one session: a command that never finished gets an
    `interrupted` end, a question that died with the process an `abandoned`. */
module Recovery {
  import opened Jsonl
  import opened SessionEvents

  predicate EndsCommand(e: Event) {
    e.kind.CommandEnd? ||
    (e.kind.Status? && (e.kind.status == "backgrounded" || e.kind.status == "closed" ||
                        "exited:" <= e.kind.status))
  }

  predicate Asks(e: Event) {
    e.kind.Approval? && e.kind.action == "asked"
  }

  predicate Answers(e: Event) {
    e.kind.Approval? && e.kind.action in {"approved", "refused", "expired", "abandoned"}
  }

  /** The last start or end decides. */
  predicate OpenCommand(es: seq<Event>) {
    if |es| == 0 then false
    else
      var e := es[|es| - 1];
      if e.kind.CommandStart? then true
      else if EndsCommand(e) then false
      else OpenCommand(es[..|es| - 1])
  }

  /** That is: some start has nothing after it that ends a command, neither its
      end nor a status line that the shell went away with. */
  lemma OpenCommandMeans(es: seq<Event>)
    ensures OpenCommand(es) <==>
            exists i | 0 <= i < |es| && es[i].kind.CommandStart? :: forall j | i < j < |es| ::
              && es[j].kind != CommandEnd
              && es[j].kind != Status("backgrounded") && es[j].kind != Status("closed")
              && !(es[j].kind.Status? && "exited:" <= es[j].kind.status)
  {
    OpenHasUnfinished(es);
    if i :| 0 <= i < |es| && es[i].kind.CommandStart? && forall j | i < j < |es| ::
              && es[j].kind != CommandEnd
              && es[j].kind != Status("backgrounded") && es[j].kind != Status("closed")
              && !(es[j].kind.Status? && "exited:" <= es[j].kind.status) {
      assert UnfinishedAt(es, i);
    }
  }

  lemma {:induction false} OpenHasUnfinished(es: seq<Event>)
    ensures OpenCommand(es) <==> exists i :: UnfinishedAt(es, i)
    decreases |es|
  {
    if |es| > 0 {
      hide EndsCommand, UnfinishedAt;
      var n := |es| - 1;
      OpenHasUnfinished(es[..n]);
      forall i
        ensures UnfinishedAt(es, i) <==> LastOrBefore(es, i)
      {
        UnfinishedSnoc(es, i);
      }
      StartIsNoEnd(es[n]);
      assert es[n].kind.CommandStart? ==> UnfinishedAt(es, n);
      if i :| UnfinishedAt(es[..n], i) {
        assert !EndsCommand(es[n]) ==> UnfinishedAt(es, i);
      }
    }
  }

  /** A start with nothing after it that ends a command. */
  predicate UnfinishedAt(es: seq<Event>, i: int) {
    0 <= i < |es| && es[i].kind.CommandStart? && forall j | i < j < |es| :: !EndsCommand(es[j])
  }

  predicate LastOrBefore(es: seq<Event>, i: int)
    requires |es| > 0
  {
    var n := |es| - 1;
    (i == n && es[n].kind.CommandStart?) || (UnfinishedAt(es[..n], i) && !EndsCommand(es[n]))
  }

  lemma StartIsNoEnd(e: Event)
    ensures e.kind.CommandStart? ==> !EndsCommand(e)
  {
  }

  lemma UnfinishedSnoc(es: seq<Event>, i: int)
    requires |es| > 0
    ensures UnfinishedAt(es, i) <==> LastOrBefore(es, i)
  {
    hide EndsCommand;
    var n := |es| - 1;
    assert forall j | 0 <= j < n :: es[..n][j] == es[j];
    assert forall j | 0 <= j < n :: es[j] == es[..n][j];
  }

  /** The last question asked, when nothing after it answers one. */
  function OpenQuestion(es: seq<Event>): Option<string> {
    if |es| == 0 then None
    else
      var e := es[|es| - 1];
      if Asks(e) then Some(e.kind.subject)
      else if Answers(e) then None
      else OpenQuestion(es[..|es| - 1])
  }

  /** That is: it was asked, and no later approval event asks another or says
      how one ended. */
  lemma {:induction false} OpenQuestionMeans(es: seq<Event>, subject: string)
    ensures OpenQuestion(es) == Some(subject) <==>
            exists i | 0 <= i < |es| && es[i].kind == Approval("asked", subject) ::
              forall j | i < j < |es| && es[j].kind.Approval? ::
                es[j].kind.action !in {"asked", "approved", "refused", "expired", "abandoned"}
    decreases |es|
  {
    if |es| > 0 {
      var n := |es| - 1;
      OpenQuestionMeans(es[..n], subject);
      assert forall j | 0 <= j < n :: es[..n][j] == es[j];
    }
  }

  // ---------------------------------------------------------------- what reads back last

  /** The last event of a kind. */
  function LastOf(es: seq<Event>, f: Event -> bool): Option<Event> {
    if |es| == 0 then None
    else if f(es[|es| - 1]) then Some(es[|es| - 1]) else LastOf(es[..|es| - 1], f)
  }

  /** The event of a kind with the greatest number, the later in the file among
      equals; those without a number count as greatest. */
  function Top(es: seq<Event>, f: Event -> bool): Option<Event> {
    if |es| == 0 then None
    else
      var best, e := Top(es[..|es| - 1], f), es[|es| - 1];
      if f(e) && (best.None? || NotAfter(best.value, e)) then Some(e) else best
  }

  lemma {:induction false} LastIsIn(es: seq<Event>, f: Event -> bool)
    requires LastOf(es, f).Some?
    ensures LastOf(es, f).value in es && f(LastOf(es, f).value)
    decreases |es|
  {
    if !f(es[|es| - 1]) {
      LastIsIn(es[..|es| - 1], f);
    }
  }

  lemma {:induction false} LastOfInsert(es: seq<Event>, e: Event, f: Event -> bool)
    requires Ordered(es)
    ensures LastOf(Insert(es, e), f)
         == if f(e) && (LastOf(es, f).None? || NotAfter(LastOf(es, f).value, e)) then Some(e) else LastOf(es, f)
    decreases |es|
  {
    var n := |es| - 1;
    if |es| == 0 || NotAfter(es[n], e) {
      assert (es + [e])[..|es|] == es;
      if LastOf(es, f).Some? {
        LastIsIn(es, f);
      }
    } else {
      LastOfInsert(es[..n], e, f);
      var front := Insert(es[..n], e);
      assert (front + [es[n]])[..|front|] == front;
    }
  }

  /** Reading by number, the last event of a kind is the one of greatest number. */
  lemma {:induction false} LastRead(es: seq<Event>, f: Event -> bool)
    ensures LastOf(Read(es), f) == Top(es, f)
    decreases |es|
  {
    if |es| > 0 {
      LastRead(es[..|es| - 1], f);
      ReadOrdered(es[..|es| - 1]);
      LastOfInsert(Read(es[..|es| - 1]), es[|es| - 1], f);
    }
  }

  lemma {:induction false} OpenIsLast(es: seq<Event>)
    ensures OpenCommand(es) <==> LastOf(es, Steers).Some? && LastOf(es, Steers).value.kind.CommandStart?
    ensures OpenQuestion(es)
         == if LastOf(es, Bears).Some? && Asks(LastOf(es, Bears).value)
            then Some(LastOf(es, Bears).value.kind.subject) else None
    decreases |es|
  {
    if |es| > 0 {
      OpenIsLast(es[..|es| - 1]);
    }
  }

  predicate Steers(e: Event) {
    e.kind.CommandStart? || EndsCommand(e)
  }

  predicate Bears(e: Event) {
    Asks(e) || Answers(e)
  }

  /** An end comes before the start by number, or by place among equals. */
  predicate Outranks(before: seq<Event>, start: Event, after: seq<Event>) {
    && (forall x | x in before && EndsCommand(x) :: NotAfter(x, start))
    && (forall x | x in after && EndsCommand(x) :: !NotAfter(start, x))
  }

  ghost predicate OpenAt(es: seq<Event>, i: int) {
    0 <= i < |es| && es[i].kind.CommandStart? && Outranks(es[..i], es[i], es[i + 1..])
  }

  lemma {:induction false} TopIsGreatest(es: seq<Event>, f: Event -> bool)
    ensures Top(es, f).Some? ==> f(Top(es, f).value)
    ensures forall i | 0 <= i < |es| && f(es[i]) :: Top(es, f).Some? && NotAfter(es[i], Top(es, f).value)
    decreases |es|
  {
    if |es| > 0 {
      var n := |es| - 1;
      TopIsGreatest(es[..n], f);
      assert forall i | 0 <= i < n :: es[..n][i] == es[i];
    }
  }

  lemma OutranksSnoc(es: seq<Event>, i: int, e: Event)
    requires 0 <= i < |es|
    ensures OpenAt(es + [e], i) <==> OpenAt(es, i) && (EndsCommand(e) ==> !NotAfter(es[i], e))
  {
    var all := es + [e];
    assert all[..i] == es[..i] && all[i + 1..] == es[i + 1..] + [e];
  }

  /** RECOVERY READS A FILE AS OPEN exactly when some start outranks every end. */
  lemma {:induction false} ReadOpens(es: seq<Event>)
    ensures OpenCommand(Read(es)) <==> exists i :: OpenAt(es, i)
    decreases |es|
  {
    LastRead(es, Steers);
    OpenIsLast(Read(es));
    TopOpens(es);
  }

  ghost predicate TopIsOpen(es: seq<Event>) {
    Top(es, Steers).Some? && Top(es, Steers).value.kind.CommandStart?
  }

  lemma {:induction false} TopOpens(es: seq<Event>)
    ensures TopIsOpen(es) ==> exists i :: OpenAt(es, i) && es[i] == Top(es, Steers).value
    ensures (exists i :: OpenAt(es, i)) ==> TopIsOpen(es)
    decreases |es|
  {
    if |es| > 0 {
      var n := |es| - 1;
      var front, e := es[..n], es[n];
      assert es == front + [e];
      TopOpens(front);
      TopIsGreatest(front, Steers);
      forall i | 0 <= i < n
        ensures OpenAt(es, i) <==> OpenAt(front, i) && (EndsCommand(e) ==> !NotAfter(front[i], e))
      {
        OutranksSnoc(front, i, e);
      }
      if EndsCommand(e) {
        EndComes(front, e);
      } else if e.kind.CommandStart? {
        StartComes(front, e);
      }
    }
  }

  lemma EndComes(front: seq<Event>, e: Event)
    requires EndsCommand(e)
    requires TopIsOpen(front) ==> exists i :: OpenAt(front, i) && front[i] == Top(front, Steers).value
    requires (exists i :: OpenAt(front, i)) ==> TopIsOpen(front)
    ensures var es := front + [e];
            && (TopIsOpen(es) ==> exists i :: OpenAt(es, i) && es[i] == Top(es, Steers).value)
            && ((exists i :: OpenAt(es, i)) ==> TopIsOpen(es))
  {
    var es, n := front + [e], |front|;
    assert es[..n] == front;
    TopIsGreatest(front, Steers);
    forall i | OpenAt(es, i)
      ensures OpenAt(front, i) && !NotAfter(front[i], e)
    {
      assert i < n;
      OutranksSnoc(front, i, e);
    }
    if TopIsOpen(es) {
      var i :| OpenAt(front, i) && front[i] == Top(front, Steers).value;
      OutranksSnoc(front, i, e);
      assert OpenAt(es, i) && es[i] == Top(es, Steers).value;
    }
  }

  lemma StartComes(front: seq<Event>, e: Event)
    requires e.kind.CommandStart?
    requires TopIsOpen(front) ==> exists i :: OpenAt(front, i) && front[i] == Top(front, Steers).value
    requires (exists i :: OpenAt(front, i)) ==> TopIsOpen(front)
    ensures var es := front + [e];
            && (TopIsOpen(es) ==> exists i :: OpenAt(es, i) && es[i] == Top(es, Steers).value)
            && ((exists i :: OpenAt(es, i)) ==> TopIsOpen(es))
  {
    var es, n := front + [e], |front|;
    assert es[..n] == front && es[n + 1..] == [];
    TopIsGreatest(front, Steers);
    TopIsIn(front, Steers);
    assert OpenAt(es, n) <==> forall x | x in front && EndsCommand(x) :: NotAfter(x, e);
    forall i | 0 <= i < n
      ensures OpenAt(es, i) <==> OpenAt(front, i)
    {
      OutranksSnoc(front, i, e);
    }
    if Top(front, Steers).None? || NotAfter(Top(front, Steers).value, e) {
      forall x | x in front && EndsCommand(x)
        ensures NotAfter(x, e)
      {
        var i :| 0 <= i < n && front[i] == x;
        assert Steers(front[i]);
      }
    }
  }

  lemma {:induction false} TopIsIn(es: seq<Event>, f: Event -> bool)
    ensures Top(es, f).Some? ==> Top(es, f).value in es
    decreases |es|
  {
    if |es| > 0 {
      TopIsIn(es[..|es| - 1], f);
    }
  }

  lemma {:induction false} TopOfConcat(a: seq<Event>, b: seq<Event>, f: Event -> bool)
    requires forall e | e in b :: !f(e)
    ensures Top(a + b, f) == Top(a, f)
    decreases |b|
  {
    if |b| == 0 {
      assert a + b == a;
    } else {
      var n := |b| - 1;
      assert b[n] in b && forall e | e in b[..n] :: e in b;
      assert (a + b)[..|a + b| - 1] == a + b[..n];
      TopOfConcat(a, b[..n], f);
    }
  }

  /** Events that neither steer nor bear leave what is open as it is, wherever
      their numbers put them. */
  lemma OthersLeaveOpen(es: seq<Event>, more: seq<Event>)
    requires forall e | e in more :: !Steers(e) && !Bears(e)
    ensures OpenCommand(Read(es + more)) == OpenCommand(Read(es))
    ensures OpenQuestion(Read(es + more)) == OpenQuestion(Read(es))
    ensures forall n :: Markers(es + more, n) == Markers(es, n)
  {
    hide OpenCommand, OpenQuestion, Read, Top;
    TopOfConcat(es, more, Steers);
    TopOfConcat(es, more, Bears);
    LastRead(es, Steers);
    LastRead(es, Bears);
    LastRead(es + more, Steers);
    LastRead(es + more, Bears);
    OpenIsLast(Read(es));
    OpenIsLast(Read(es + more));
  }

  /** The scan of the events for the last start and the last end. */
  method ScanCommand(es: seq<Event>) returns (open: bool)
    ensures open == OpenCommand(es)
  {
    var lastStart: Option<nat> := None;
    var lastEnd: Option<nat> := None;
    for i := 0 to |es|
      invariant lastStart.Some? ==> lastStart.value < i
      invariant lastEnd.Some? ==> lastEnd.value < i
      invariant OpenCommand(es[..i]) <==> lastStart.Some? && (lastEnd.None? || lastEnd.value < lastStart.value)
    {
      assert es[..i + 1][..i] == es[..i];
      if es[i].kind.CommandStart? {
        lastStart := Some(i);
      } else if EndsCommand(es[i]) {
        lastEnd := Some(i);
      }
    }
    assert es[..|es|] == es;
    open := lastStart.Some? && (lastEnd.None? || lastEnd.value < lastStart.value);
  }

  /** The scan for a question nothing answered. */
  method ScanQuestion(es: seq<Event>) returns (open: Option<string>)
    ensures open == OpenQuestion(es)
  {
    var lastAsked: Option<string> := None;
    var answeredAfter := false;
    for i := 0 to |es|
      invariant OpenQuestion(es[..i]) == if answeredAfter then None else lastAsked
    {
      assert es[..i + 1][..i] == es[..i];
      if Asks(es[i]) {
        lastAsked, answeredAfter := Some(es[i].kind.subject), false;
      } else if Answers(es[i]) {
        answeredAfter := true;
      }
    }
    assert es[..|es|] == es;
    open := if answeredAfter then None else lastAsked;
  }

  // ---------------------------------------------------------------- the markers

  function Interrupted(n: nat): Event {
    Event(Some(n), CommandEnd, PLAIN)
  }

  function Abandoned(n: nat, subject: string): Event {
    Event(Some(n), Approval("abandoned", subject), PLAIN)
  }

  function MarkersFor(open: bool, question: Option<string>, n: nat): seq<Event> {
    var command := if open then [Interrupted(n + 1)] else [];
    command + if question.Some? then [Abandoned(n + |command| + 1, question.value)] else []
  }

  /** What a pass over the events `es` writes when the counter stands at `n`. */
  function Markers(es: seq<Event>, n: nat): seq<Event> {
    MarkersFor(OpenCommand(Read(es)), OpenQuestion(Read(es)), n)
  }

  /** Nothing is open in these events, taken in this order. */
  predicate Quiet(es: seq<Event>) {
    !OpenCommand(es) && OpenQuestion(es).None?
  }

  predicate Settled(es: seq<Event>) {
    Quiet(Read(es))
  }

  // ---------------------------------------------------------------- where a marker reads back

  function Numbered(es: seq<Event>): seq<Event> {
    if |es| == 0 then []
    else
      var e := es[|es| - 1];
      Numbered(es[..|es| - 1]) + if e.num.Some? then [e] else []
  }

  function Unnumbered(es: seq<Event>): seq<Event> {
    if |es| == 0 then []
    else
      var e := es[|es| - 1];
      Unnumbered(es[..|es| - 1]) + if e.num.None? then [e] else []
  }

  lemma {:induction false} AllNumberedSplit(es: seq<Event>)
    requires AllNumbered(es)
    ensures Numbered(es) == es && Unnumbered(es) == []
    decreases |es|
  {
    if |es| > 0 {
      var n := |es| - 1;
      assert es == es[..n] + [es[n]];
      AllNumberedSplit(es[..n]);
    }
  }

  lemma {:induction false} OrderedSplit(es: seq<Event>)
    requires Ordered(es)
    ensures es == Numbered(es) + Unnumbered(es)
    decreases |es|
  {
    if |es| > 0 {
      var n := |es| - 1;
      assert es == es[..n] + [es[n]];
      if es[n].num.None? {
        OrderedSplit(es[..n]);
      } else {
        OrderedNumbered(es);
        AllNumberedSplit(es);
      }
    }
  }

  lemma {:induction false} InsertAbove(es: seq<Event>, m: Event)
    requires Ordered(es) && m.num.Some?
    requires forall e | e in es && e.num.Some? :: e.num.value < m.num.value
    ensures Insert(es, m) == Numbered(es) + [m] + Unnumbered(es)
    decreases |es|
  {
    if |es| > 0 {
      var n := |es| - 1;
      var e := es[n];
      if e.num.None? {
        assert Ordered(es[..n]);
        assert forall x | x in es[..n] :: x in es;
        InsertAbove(es[..n], m);
        var front, tail := Numbered(es[..n]) + [m], Unnumbered(es[..n]);
        assert (front + tail) + [e] == front + (tail + [e]);
        assert Numbered(es) == Numbered(es[..n]);
      } else {
        OrderedNumbered(es);
        AllNumberedSplit(es);
        assert e in es && NotAfter(e, m);
        assert es + [m] == es + [m] + [];
      }
    }
  }

  lemma OrderedNumbered(es: seq<Event>)
    requires Ordered(es) && |es| > 0 && es[|es| - 1].num.Some?
    ensures AllNumbered(es)
  {
    forall i | 0 <= i < |es| - 1
      ensures es[i].num.Some?
    {
      assert NotAfter(es[i], es[|es| - 1]);
    }
  }

  lemma UnnumberedOfSnoc(es: seq<Event>, e: Event)
    ensures Unnumbered(es + [e]) == Unnumbered(es) + if e.num.None? then [e] else []
  {
    assert (es + [e])[..|es|] == es;
  }

  lemma InsertUnnumbered(es: seq<Event>, e: Event)
    ensures Unnumbered(Insert(es, e)) == Unnumbered(es) + if e.num.None? then [e] else []
  {
    var n := |es| - 1;
    if |es| == 0 || NotAfter(es[n], e) {
      UnnumberedOfSnoc(es, e);
    } else {
      InsertUnnumbered(es[..n], e);
      UnnumberedOfSnoc(Insert(es[..n], e), es[n]);
    }
  }

  lemma {:induction false} ReadUnnumbered(es: seq<Event>)
    ensures Unnumbered(Read(es)) == Unnumbered(es)
    decreases |es|
  {
    if |es| > 0 {
      ReadUnnumbered(es[..|es| - 1]);
      InsertUnnumbered(Read(es[..|es| - 1]), es[|es| - 1]);
    }
  }

  /** A marker numbered above everything on disk reads back after every
      numbered event; only events without a number come after it. */
  lemma ReadWithMarker(es: seq<Event>, m: Event)
    requires m.num.Some? && MaxSeq(es) < m.num.value
    ensures Read(es) == Numbered(Read(es)) + Unnumbered(es)
    ensures Read(es + [m]) == Numbered(Read(es)) + [m] + Unnumbered(es)
  {
    ReadOrdered(es);
    ReadPermutes(es);
    SameMembers(Read(es), es);
    assert (es + [m])[..|es|] == es;
    OrderedSplit(Read(es));
    InsertAbove(Read(es), m);
    ReadUnnumbered(es);
  }

  // ---------------------------------------------------------------- what a marker closes

  lemma {:induction false} OpenCommandConcat(a: seq<Event>, b: seq<Event>)
    ensures OpenCommand(a + b) == if exists e | e in b :: Steers(e) then OpenCommand(b) else OpenCommand(a)
    decreases |b|
  {
    if |b| == 0 {
      assert a + b == a;
    } else {
      var n := |b| - 1;
      assert b == b[..n] + [b[n]];
      assert (a + b)[..|a + b| - 1] == a + b[..n];
      OpenCommandConcat(a, b[..n]);
      assert b[n] in b;
      assert (exists e | e in b :: Steers(e)) <==> Steers(b[n]) || exists e | e in b[..n] :: Steers(e);
    }
  }

  lemma {:induction false} OpenQuestionConcat(a: seq<Event>, b: seq<Event>)
    ensures OpenQuestion(a + b) == if exists e | e in b :: Bears(e) then OpenQuestion(b) else OpenQuestion(a)
    decreases |b|
  {
    if |b| == 0 {
      assert a + b == a;
    } else {
      var n := |b| - 1;
      assert b == b[..n] + [b[n]];
      assert (a + b)[..|a + b| - 1] == a + b[..n];
      OpenQuestionConcat(a, b[..n]);
      assert b[n] in b;
      assert (exists e | e in b :: Bears(e)) <==> Bears(b[n]) || exists e | e in b[..n] :: Bears(e);
    }
  }

  /** What inserting one marker between the numbered events and the rest does. */
  lemma MarkerEffect(a: seq<Event>, m: Event, u: seq<Event>)
    requires !m.kind.CommandStart? && !Asks(m)
    ensures OpenCommand(a + [m] + u) <==> if EndsCommand(m) then OpenCommand(u) else OpenCommand(a + u)
    ensures OpenQuestion(a + [m] + u) == if Answers(m) then OpenQuestion(u) else OpenQuestion(a + u)
  {
    OpenCommandConcat(a + [m], u);
    OpenCommandConcat(a, [m]);
    OpenCommandConcat(a, u);
    assert !OpenCommand([m]) by {
      assert [m][..0] == [];
    }
    assert m in [m];
    OpenQuestionConcat(a + [m], u);
    OpenQuestionConcat(a, [m]);
    OpenQuestionConcat(a, u);
    assert OpenQuestion([m]) == None by {
      assert [m][..0] == [];
    }
    OpenCommandConcat([], u);
    OpenQuestionConcat([], u);
    assert [] + u == u;
  }

  // ---------------------------------------------------------------- passes

  lemma OneMarker(es: seq<Event>, m: Event)
    requires m.num.Some? && MaxSeq(es) < m.num.value
    requires !m.kind.CommandStart? && !Asks(m)
    ensures OpenCommand(Read(es + [m])) <==>
            if EndsCommand(m) then OpenCommand(Unnumbered(es)) else OpenCommand(Read(es))
    ensures OpenQuestion(Read(es + [m])) ==
            if Answers(m) then OpenQuestion(Unnumbered(es)) else OpenQuestion(Read(es))
    ensures Unnumbered(es + [m]) == Unnumbered(es)
    ensures MaxSeq(es + [m]) == m.num.value
  {
    ReadWithMarker(es, m);
    MarkerEffect(Numbered(Read(es)), m, Unnumbered(es));
    UnnumberedOfSnoc(es, m);
    assert (es + [m])[..|es|] == es;
  }

  /** What a suffix of unnumbered events leaves open is open in the whole. */
  lemma SuffixOpens(es: seq<Event>)
    ensures OpenCommand(Unnumbered(es)) ==> OpenCommand(Read(es))
    ensures OpenQuestion(Unnumbered(es)).Some? ==> OpenQuestion(Read(es)) == OpenQuestion(Unnumbered(es))
  {
    ReadOrdered(es);
    OrderedSplit(Read(es));
    ReadUnnumbered(es);
    var n, u := Numbered(Read(es)), Unnumbered(es);
    OpenCommandConcat(n, u);
    OpenCommandConcat([], u);
    OpenQuestionConcat(n, u);
    OpenQuestionConcat([], u);
    assert [] + u == u;
  }

  /** What a pass over `es` that leaves `r` does to what is open. */
  ghost predicate Effect(es: seq<Event>, r: seq<Event>) {
    && (OpenCommand(Read(r)) <==> OpenCommand(Read(es)) && OpenCommand(Unnumbered(es)))
    && OpenQuestion(Read(r)) == (if OpenQuestion(Read(es)).Some? then OpenQuestion(Unnumbered(es)) else None)
    && Unnumbered(r) == Unnumbered(es)
  }

  lemma PassEffect(es: seq<Event>, n: nat)
    requires MaxSeq(es) <= n
    ensures Effect(es, es + Markers(es, n))
  {
    var ms := Markers(es, n);
    MarkersShape(es, n);
    if |ms| == 0 {
      SuffixOpens(es);
    } else if |ms| == 1 {
      OneEffect(es, ms[0]);
    } else {
      BothEffect(es, ms[0], ms[1]);
    }
  }

  lemma MarkersShape(es: seq<Event>, n: nat)
    ensures var ms := Markers(es, n);
            && |ms| <= 2
            && (|ms| == 0 ==> es + ms == es && Settled(es))
            && (|ms| == 1 ==> ms == [ms[0]])
            && (|ms| == 2 ==> ms == [ms[0], ms[1]])
  {
    assert es + [] == es;
  }

  lemma OneEffect(es: seq<Event>, m: Event)
    requires m.num.Some? && MaxSeq(es) < m.num.value
    requires if OpenCommand(Read(es)) then m.kind.CommandEnd? && OpenQuestion(Read(es)).None?
             else Answers(m) && OpenQuestion(Read(es)).Some?
    ensures Effect(es, es + [m])
  {
    OneMarker(es, m);
  }

  lemma BothEffect(es: seq<Event>, a: Event, b: Event)
    requires a.num.Some? && b.num.Some? && MaxSeq(es) < a.num.value < b.num.value
    requires a.kind.CommandEnd? && Answers(b)
    requires OpenCommand(Read(es)) && OpenQuestion(Read(es)).Some?
    ensures Effect(es, es + [a, b])
  {
    TwoMarkers(es, a, b);
    Assoc(es, [a], [b]);
    assert [a] + [b] == [a, b];
  }

  lemma TwoMarkers(es: seq<Event>, a: Event, b: Event)
    requires a.num.Some? && b.num.Some? && MaxSeq(es) < a.num.value < b.num.value
    requires a.kind.CommandEnd? && Answers(b)
    ensures OpenCommand(Read(es + [a] + [b])) <==> OpenCommand(Unnumbered(es))
    ensures OpenQuestion(Read(es + [a] + [b])) == OpenQuestion(Unnumbered(es))
    ensures Unnumbered(es + [a] + [b]) == Unnumbered(es)
  {
    OneMarker(es, a);
    OneMarker(es + [a], b);
  }

  /** ONE PASS, at a counter not behind the disk, leaves no unfinished last
      command and no unanswered last question EXACTLY WHEN the events without a
      number, which always read back last, do not themselves leave one. */
  lemma PassSettles(es: seq<Event>, n: nat)
    requires MaxSeq(es) <= n
    ensures Settled(es + Markers(es, n)) <==> Quiet(Unnumbered(es))
  {
    PassEffect(es, n);
    SuffixOpens(es);
  }

  /** Idempotence: a settled session gets no marker, an unsettled one at least one. */
  lemma SettledGetsNothing(es: seq<Event>, n: nat)
    ensures Markers(es, n) == [] <==> Settled(es)
  {
  }

  function Kinds(es: seq<Event>): seq<Kind> {
    seq(|es|, i requires 0 <= i < |es| => es[i].kind)
  }

  /** A pass cut short after `k` of its markers leaves exactly the others to write. */
  lemma CutLeavesTheRest(es: seq<Event>, n: nat, k: nat, later: nat)
    requires MaxSeq(es) <= n && Quiet(Unnumbered(es)) && k <= |Markers(es, n)|
    ensures Kinds(Markers(es + Markers(es, n)[..k], later)) == Kinds(Markers(es, n))[k..]
    ensures Unnumbered(es + Markers(es, n)[..k]) == Unnumbered(es)
  {
    hide OpenCommand, OpenQuestion, Read, Unnumbered, MaxSeq;
    var ms := Markers(es, n);
    if k == 0 {
      assert es + ms[..k] == es;
      KindsIgnoreTheCounter(es, n, later);
    } else if k == |ms| {
      assert ms[..k] == ms;
      WholeLeavesNothing(es, n, later);
      assert Kinds(ms)[k..] == [];
    } else {
      assert ms[..k] == [ms[0]];
      QuestionRemains(es, ms[0], later);
      assert Kinds(ms)[k..] == [ms[1].kind];
    }
  }

  lemma WholeLeavesNothing(es: seq<Event>, n: nat, later: nat)
    requires MaxSeq(es) <= n && Quiet(Unnumbered(es))
    ensures Markers(es + Markers(es, n), later) == [] && Kinds([]) == []
    ensures Unnumbered(es + Markers(es, n)) == Unnumbered(es)
  {
    PassEffect(es, n);
    PassSettles(es, n);
    SettledGetsNothing(es + Markers(es, n), later);
  }

  lemma KindsIgnoreTheCounter(es: seq<Event>, m: nat, n: nat)
    ensures Kinds(Markers(es, m)) == Kinds(Markers(es, n))
  {
    hide OpenCommand, OpenQuestion, Read;
  }

  lemma QuestionRemains(es: seq<Event>, m: Event, later: nat)
    requires m.num.Some? && MaxSeq(es) < m.num.value && m.kind.CommandEnd?
    requires Quiet(Unnumbered(es)) && OpenQuestion(Read(es)).Some?
    ensures Markers(es + [m], later) == [Abandoned(later + 1, OpenQuestion(Read(es)).value)]
    ensures Unnumbered(es + [m]) == Unnumbered(es)
  {
    OneMarker(es, m);
  }

  /** The kinds of the markers, one for each open item. */
  function MarkerKinds(es: seq<Event>): seq<Kind> {
    (if OpenCommand(Read(es)) then [CommandEnd] else [])
    + match OpenQuestion(Read(es)) case Some(subject) => [Approval("abandoned", subject)] case None => []
  }

  lemma MarkersAre(es: seq<Event>, n: nat)
    ensures Kinds(Markers(es, n)) == MarkerKinds(es)
    ensures forall i | 0 <= i < |Markers(es, n)| :: Markers(es, n)[i].num == Some(n + 1 + i)
  {
    hide OpenCommand, OpenQuestion, Read;
  }

  // ---------------------------------------------------------------- passes cut short

  /** A pass that died: the counter it started from, the markers it wrote whole
      and the bytes of the next one that reached the disk. */
  datatype Cut = Cut(counter: nat, whole: nat, landed: nat)

  function AfterCut(c: Codec<Event>, file: Bytes, cut: Cut): Bytes {
    var ms := Markers(c.ReadAll(file), cut.counter);
    if cut.whole >= |ms| then c.AppendAll(file, ms)
    else c.AfterWrite(c.AppendAll(file, ms[..cut.whole]), Write(ms[cut.whole], cut.landed))
  }

  function AfterCuts(c: Codec<Event>, file: Bytes, cuts: seq<Cut>): Bytes
    decreases |cuts|
  {
    if |cuts| == 0 then file else AfterCuts(c, AfterCut(c, file, cuts[0]), cuts[1..])
  }

  /** `next_seq` never hands out a number at or below one on disk. */
  predicate CountersAhead(c: Codec<Event>, file: Bytes, cuts: seq<Cut>)
    decreases |cuts|
  {
    |cuts| > 0 ==>
      && MaxSeq(c.ReadAll(file)) <= cuts[0].counter
      && CountersAhead(c, AfterCut(c, file, cuts[0]), cuts[1..])
  }

  lemma CutReads(c: Codec<Event>, file: Bytes, cut: Cut) returns (k: nat)
    requires c.Sound()
    ensures k <= |Markers(c.ReadAll(file), cut.counter)|
    ensures c.ReadAll(AfterCut(c, file, cut)) == c.ReadAll(file) + Markers(c.ReadAll(file), cut.counter)[..k]
  {
    var ms := Markers(c.ReadAll(file), cut.counter);
    if cut.whole >= |ms| {
      c.AppendAllReadsBack(file, ms);
      assert ms[..|ms|] == ms;
      return |ms|;
    }
    var mid := c.AppendAll(file, ms[..cut.whole]);
    var torn := Write(ms[cut.whole], cut.landed);
    c.AppendAllReadsBack(file, ms[..cut.whole]);
    c.OneWriteReadsBack(mid, torn);
    if c.Lands(mid, torn) {
      Assoc(c.ReadAll(file), ms[..cut.whole], [torn.rec]);
      assert ms[..cut.whole] + [torn.rec] == ms[..cut.whole + 1];
      return cut.whole + 1;
    }
    Assoc(c.ReadAll(file), ms[..cut.whole], []);
    assert ms[..cut.whole] + [] == ms[..cut.whole];
    return cut.whole;
  }

  lemma CutOnlyAppends(c: Codec<Event>, file: Bytes, cut: Cut)
    ensures file <= AfterCut(c, file, cut)
  {
    hide OpenCommand, OpenQuestion, Read, MarkersFor;
    var ms := Markers(c.ReadAll(file), cut.counter);
    c.AppendAllOnlyAppends(file, if cut.whole >= |ms| then ms else ms[..cut.whole]);
  }

  lemma {:induction false} CutsOnlyAppend(c: Codec<Event>, file: Bytes, cuts: seq<Cut>)
    ensures file <= AfterCuts(c, file, cuts)
    decreases |cuts|
  {
    if |cuts| > 0 {
      CutOnlyAppends(c, file, cuts[0]);
      CutsOnlyAppend(c, AfterCut(c, file, cuts[0]), cuts[1..]);
    }
  }

  lemma KindsOfConcat(a: seq<Event>, b: seq<Event>)
    ensures Kinds(a + b) == Kinds(a) + Kinds(b)
  {
  }

  /** `added` is what some passes wrote so far: together with what a pass would
      write now, exactly the markers of the original events. */
  ghost predicate Progress(es: seq<Event>, added: seq<Event>, n: nat) {
    && Unnumbered(es + added) == Unnumbered(es)
    && Kinds(added) + Kinds(Markers(es + added, n)) == Kinds(Markers(es, n))
  }

  lemma NoProgress(es: seq<Event>, n: nat)
    ensures Progress(es, [], n)
  {
    assert es + [] == es;
    assert Kinds([]) == [];
  }

  lemma CutProgress(es: seq<Event>, n: nat, k: nat, rest: seq<Event>, last: nat)
    requires MaxSeq(es) <= n && Quiet(Unnumbered(es)) && k <= |Markers(es, n)|
    requires Progress(es + Markers(es, n)[..k], rest, last)
    ensures Progress(es, Markers(es, n)[..k] + rest, last)
  {
    hide OpenCommand, OpenQuestion, Read, Unnumbered, MarkersFor;
    var ms := Markers(es, n);
    CutLeavesTheRest(es, n, k, last);
    Assoc(es, ms[..k], rest);
    KindsOfConcat(ms[..k], rest);
    KindsIgnoreTheCounter(es, n, last);
    var now := Kinds(Markers(es + ms[..k] + rest, last));
    Assoc(Kinds(ms[..k]), Kinds(rest), now);
    assert Kinds(ms[..k]) + Kinds(ms)[k..] == Kinds(ms);
  }

  lemma {:induction false} CutsProgress(c: Codec<Event>, file: Bytes, cuts: seq<Cut>, last: nat)
    returns (added: seq<Event>)
    requires c.Sound() && CountersAhead(c, file, cuts)
    requires Quiet(Unnumbered(c.ReadAll(file)))
    ensures c.ReadAll(AfterCuts(c, file, cuts)) == c.ReadAll(file) + added
    ensures Progress(c.ReadAll(file), added, last)
    decreases |cuts|
  {
    var es := c.ReadAll(file);
    if |cuts| == 0 {
      NoProgress(es, last);
      assert es + [] == es;
      return [];
    }
    var n := cuts[0].counter;
    var k := CutReads(c, file, cuts[0]);
    CutLeavesTheRest(es, n, k, last);
    var rest := CutsProgress(c, AfterCut(c, file, cuts[0]), cuts[1..], last);
    added := Markers(es, n)[..k] + rest;
    Assoc(es, Markers(es, n)[..k], rest);
    CutProgress(es, n, k, rest, last);
  }

  lemma LastPass(es: seq<Event>, added: seq<Event>, last: nat)
    requires Progress(es, added, last) && Quiet(Unnumbered(es)) && MaxSeq(es + added) <= last
    ensures var after := (es + added) + Markers(es + added, last);
            && es <= after && Settled(after)
            && Kinds(after[|es|..]) == Kinds(Markers(es, MaxSeq(es)))
  {
    var ms := Markers(es + added, last);
    PassSettles(es + added, last);
    Assoc(es, added, ms);
    DropOfConcat(es, added + ms, |es|);
    assert es[|es|..] + (added + ms) == added + ms;
    KindsOfConcat(added, ms);
    KindsIgnoreTheCounter(es, last, MaxSeq(es));
  }

  /** CONVERGENCE. Any number of passes, each cut at any byte of any marker,
      and then one whole pass: nothing on disk changed, and what was added is
      exactly one terminal marker for each open item of the original file. */
  lemma RecoveryConverges(c: Codec<Event>, file: Bytes, cuts: seq<Cut>, last: nat)
    requires c.Sound() && CountersAhead(c, file, cuts)
    requires MaxSeq(c.ReadAll(AfterCuts(c, file, cuts))) <= last
    requires Quiet(Unnumbered(c.ReadAll(file)))
    ensures var crashed := AfterCuts(c, file, cuts);
            var recovered := c.AppendAll(crashed, Markers(c.ReadAll(crashed), last));
            var before, after := c.ReadAll(file), c.ReadAll(recovered);
            && file <= recovered && before <= after
            && Kinds(after[|before|..]) == MarkerKinds(before)
            && Settled(after)
  {
    var crashed := AfterCuts(c, file, cuts);
    var added := CutsProgress(c, file, cuts, last);
    LastPass(c.ReadAll(file), added, last);
    MarkersAre(c.ReadAll(file), MaxSeq(c.ReadAll(file)));
    c.AppendAllReadsBack(crashed, Markers(c.ReadAll(crashed), last));
    CutsOnlyAppend(c, file, cuts);
    c.AppendAllOnlyAppends(crashed, Markers(c.ReadAll(crashed), last));
  }
}
