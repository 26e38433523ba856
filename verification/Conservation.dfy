/** No event is lost or doubled between the loggers and the disk: while one
    process runs without a crash, a trim or a deletion, whatever the flush
    order and whichever writers are evicted. */
module Conservation {
  import opened Jsonl
  import opened SessionEvents
  import opened Trim
  import opened Trail

  /** The steps that move events without discarding any. */
  predicate Calm(step: Step) {
    step.Log? || step.Take? || step.Put? || step.Flush? || step.Drop? || step.Seed? || (step.Close? && !step.trims)
  }

  /** An event is on disk or in some logger's buffer. */
  ghost predicate Held(st: State, s: Sid, e: Event) {
    e in Disk(st, s) || exists i :: (i, s) in st.writers && e in st.writers[(i, s)].buffer
  }

  /** An event is in the hands of a call that has not yet written it. */
  ghost predicate InCall(st: State, s: Sid, e: Event) {
    exists t :: t in st.calls && st.calls[t].key.1 == s && st.calls[t].event == e
  }

  ghost predicate Known(st: State, s: Sid, e: Event) {
    Held(st, s, e) || InCall(st, s, e)
  }

  ghost predicate Anchored(st: State) {
    forall k | k in st.writers :: k.1 in st.paths && st.writers[k].inode == st.paths[k.1]
  }

  function IssuedIn(st: State, s: Sid): seq<Event> {
    if s in st.issued then st.issued[s].events else []
  }

  /** A process about to start: nothing numbered, nothing open. */
  ghost predicate Fresh(st: State) {
    Inv(st) && st.writers == map[] && st.seqs == map[] && st.issued == map[] && st.calls == map[]
  }

  ghost predicate Conserved(st0: State, st: State) {
    && Anchored(st)
    && (forall s, e :: Known(st, s, e) <==> e in Disk(st0, s) || e in IssuedIn(st, s))
    && (forall s | s in st.issued :: st.issued[s].seed == MaxSeq(Disk(st0, s)))
  }

  // ---------------------------------------------------------------- each step

  lemma FlushHolds(st: State, key: Key, k: nat, s: Sid, e: Event)
    requires Fits(st) && Anchored(st)
    ensures Held(Flushed(st, key, k), s, e) <==> Held(st, s, e)
    ensures Anchored(Flushed(st, key, k))
  {
    hide Events;
    if key in st.writers && k <= |st.writers[key].buffer| {
      AnchoredFlush(st, key, k, s);
      var b := st.writers[key].buffer;
      assert b == b[..k] + b[k..];
      assert key == (key.0, key.1);
    }
  }

  lemma AnchoredFlush(st: State, key: Key, k: nat, s: Sid)
    requires Fits(st) && Anchored(st) && key in st.writers && k <= |st.writers[key].buffer|
    ensures Disk(Flushed(st, key, k), s)
         == Disk(st, s) + if s == key.1 then st.writers[key].buffer[..k] else []
  {
    var w := st.writers[key];
    if s == key.1 {
      EventsConcat(st.inodes[w.inode], LoggedAll(w.buffer[..k]));
      EventsOfLogged(w.buffer[..k]);
    } else {
      assert FileLines(Flushed(st, key, k), s) == FileLines(st, s);
    }
  }

  lemma DropHolds(st: State, key: Key, s: Sid, e: Event)
    requires Fits(st) && Anchored(st)
    ensures Held(Dropped(st, key), s, e) <==> Held(st, s, e)
    ensures Anchored(Dropped(st, key))
  {
    hide Events;
    if key in st.writers {
      var k := |st.writers[key].buffer|;
      FlushHolds(st, key, k, s, e);
      var mid := Flushed(st, key, k);
      assert key in mid.writers && mid.writers[key].buffer == [];
      assert Disk(Dropped(st, key), s) == Disk(mid, s);
      assert forall i | (i, s) in mid.writers && (i, s) != key :: (i, s) in Dropped(st, key).writers;
    }
  }

  lemma OpenHolds(st: State, key: Key, inode: Inode, s: Sid, e: Event)
    requires Fits(st) && Anchored(st) && inode !in st.inodes
    ensures Held(Opened(st, key, inode), s, e) <==> Held(st, s, e)
    ensures Anchored(Opened(st, key, inode))
  {
    hide Events, Disk, Fits;
    OpenDisk(st, key, inode, s);
    OpenWriters(st, key, inode, s);
    OpenAnchored(st, key, inode);
    hide Opened, Anchored;
  }

  lemma OpenWriters(st: State, key: Key, inode: Inode, s: Sid)
    ensures var st' := Opened(st, key, inode);
            && (forall i | (i, s) in st.writers :: (i, s) in st'.writers && st'.writers[(i, s)] == st.writers[(i, s)])
            && (forall i | (i, s) in st'.writers && (i, s) !in st.writers :: st'.writers[(i, s)].buffer == [])
  {
  }

  lemma OpenAnchored(st: State, key: Key, inode: Inode)
    requires Anchored(st)
    ensures Anchored(Opened(st, key, inode))
  {
  }

  lemma BufferHolds(st: State, key: Key, x: Event, s: Sid, e: Event)
    requires key in st.writers && Anchored(st)
    ensures Held(Buffered(st, key, x), s, e) <==> Held(st, s, e) || (s == key.1 && e == x)
    ensures Anchored(Buffered(st, key, x))
  {
    hide Events, Disk;
    BufferDisk(st, key, x, s);
    assert key == (key.0, key.1);
    var st' := Buffered(st, key, x);
    assert x in st'.writers[key].buffer;
    assert forall i | (i, s) in st.writers && (i, s) != key :: st'.writers[(i, s)] == st.writers[(i, s)];
  }

  lemma NumberedHolds(st: State, t: Sid, kind: Kind, body: Body, s: Sid, e: Event)
    ensures Held(WithNumber(st, t, kind, body), s, e) <==> Held(st, s, e)
    ensures Anchored(st) ==> Anchored(WithNumber(st, t, kind, body))
  {
    hide Events;
    assert Disk(WithNumber(st, t, kind, body), s) == Disk(st, s);
  }

  lemma CappedHolds(st: State, key: Key, victim: Sid, s: Sid, e: Event)
    requires Fits(st) && Unique(st) && Anchored(st)
    ensures var st' := Capped(st, key, victim);
            && Fits(st') && Anchored(st') && st'.inodes.Keys == st.inodes.Keys
            && (Held(st', s, e) <==> Held(st, s, e))
  {
    hide Held, Fits, Unique, Anchored, Dropped, OpenBy;
    DropKeeps(st, (key.0, victim));
    DropHolds(st, (key.0, victim), s, e);
  }

  lemma ReadyHolds(st: State, key: Key, victim: Sid, inode: Inode, s: Sid, e: Event)
    requires Fits(st) && Unique(st) && Anchored(st) && inode !in st.inodes
    ensures var r := Ready(st, key, victim, inode);
            && Anchored(r) && (Held(r, s, e) <==> Held(st, s, e))
  {
    hide Held, Fits, Unique, Anchored, Capped, Opened;
    CappedHolds(st, key, victim, s, e);
    OpenHolds(Capped(st, key, victim), key, inode, s, e);
  }

  lemma EnteredHolds(st: State, key: Key, x: Event, victim: Sid, inode: Inode, s: Sid, e: Event)
    requires Fits(st) && Unique(st) && Anchored(st) && CanEnter(st, key, victim, inode) && key.1 in st.seqs
    requires x.num.Some? && Unused(st, key.1, x.num) && x.num.value <= st.seqs[key.1]
    ensures var st' := Entered(st, key, x, victim, inode);
            && Anchored(st')
            && (Held(st', s, e) <==> Held(st, s, e) || (s == key.1 && e == x))
  {
    hide Held, Fits, Unique, Anchored, Capped, Opened, Unused, Flushed, OpenBy;
    var r := Ready(st, key, victim, inode);
    ReadyKeeps(st, key, victim, inode);
    ReadyUnused(st, key, victim, inode, key.1, x.num);
    ReadyHolds(st, key, victim, inode, s, e);
    BufferKeeps(r, key, x);
    BufferHolds(r, key, x, s, e);
    var b := Buffered(r, key, x);
    FlushHolds(b, key, |b.writers[key].buffer|, s, e);
  }

  lemma LogHolds(st: State, key: Key, kind: Kind, body: Body, victim: Sid, inode: Inode, s: Sid, e: Event)
    requires Fits(st) && Unique(st) && Anchored(st) && Enabled(st, Log(key, kind, body, victim, inode))
    ensures var st' := Do(st, Log(key, kind, body, victim, inode));
            && Anchored(st')
            && (Held(st', s, e) <==> Held(st, s, e) || (s == key.1 && e == NextEvent(st, s, kind, body)))
  {
    var st1 := WithNumber(st, key.1, kind, body);
    NumberedKeeps(st, key.1, kind, body);
    NumberedOpens(st, key, kind, body, key.0);
    NumberedHolds(st, key.1, kind, body, s, e);
    BelowIsUnused(st1, key.1, Counter(st, key.1) + 1);
    hide Held, Fits, Unique, Anchored, Unused, Below, Entered, OpenBy;
    EnteredHolds(st1, key, NextEvent(st, key.1, kind, body), victim, inode, s, e);
  }

  lemma SameMax(a: seq<Event>, b: seq<Event>)
    requires forall e :: e in a <==> e in b
    ensures MaxSeq(a) == MaxSeq(b)
  {
    hide MaxSeq;
  }

  /** A session no logger of this process has touched is as it was at the start. */
  lemma Untouched(st0: State, st: State, s: Sid)
    requires Unique(st) && Counts(st) && CallsOk(st) && Conserved(st0, st) && s !in st.issued
    ensures MaxSeq(Disk(st, s)) == MaxSeq(Disk(st0, s))
  {
    hide Disk, MaxSeq;
    assert SessionOk(st, s);
    forall e
      ensures e in Disk(st, s) <==> e in Disk(st0, s)
    {
      assert !InCall(st, s, e) by {
        NoCallYet(st, s, e);
      }
      assert Known(st, s, e) <==> e in Disk(st, s);
    }
    SameMax(Disk(st, s), Disk(st0, s));
  }

  lemma NoCallYet(st: State, s: Sid, e: Event)
    requires CallsOk(st) && s !in st.seqs
    ensures !InCall(st, s, e)
  {
    hide Unused;
    assert forall t | t in st.calls :: CallOk(st, st.calls[t]);
  }

  lemma SameCallsKnow(st: State, st': State)
    requires st'.calls == st.calls
    ensures forall s, e :: InCall(st', s, e) <==> InCall(st, s, e)
  {
  }

  lemma LogConserves(st0: State, st: State, key: Key, kind: Kind, body: Body, victim: Sid, inode: Inode)
    requires Inv(st) && Conserved(st0, st) && Enabled(st, Log(key, kind, body, victim, inode))
    ensures Conserved(st0, Do(st, Log(key, kind, body, victim, inode)))
  {
    hide Held, Anchored, WithNumber, Do, NextEvent, Disk, MaxSeq, Fits, Unique, Counts, OpenBy;
    var st' := Do(st, Log(key, kind, body, victim, inode));
    AnyAnchored(st, key, kind, body, victim, inode);
    LogFrame(st, key, kind, body, victim, inode);
    NumberedIssues(st0, st, key.1, kind, body);
    NumberedFrame(st, key.1, kind, body);
    SameCallsKnow(st, st');
    hide InCall;
    forall s, e
      ensures Known(st', s, e) <==> e in Disk(st0, s) || e in IssuedIn(st', s)
    {
      LogHolds(st, key, kind, body, victim, inode, s, e);
      assert Known(st, s, e) <==> e in Disk(st0, s) || e in IssuedIn(st, s);
    }
  }

  lemma NumberedFrame(st: State, s: Sid, kind: Kind, body: Body)
    ensures WithNumber(st, s, kind, body).calls == st.calls
  {
  }

  lemma TakeConserves(st0: State, st: State, call: nat, key: Key, kind: Kind, body: Body)
    requires Inv(st) && Conserved(st0, st) && call !in st.calls
    ensures Conserved(st0, Taken(st, call, key, kind, body))
  {
    hide Held, Anchored, WithNumber, NextEvent, Disk, MaxSeq, Fits, Unique, Counts, OpenBy, CallsOk;
    var st1, st' := WithNumber(st, key.1, kind, body), Taken(st, call, key, kind, body);
    NumberedIssues(st0, st, key.1, kind, body);
    NumberedFrame(st, key.1, kind, body);
    AsideHolds(st1, st');
    forall s, e
      ensures Known(st', s, e) <==> e in Disk(st0, s) || e in IssuedIn(st', s)
    {
      NumberedHolds(st, key.1, kind, body, s, e);
      assert Known(st, s, e) <==> e in Disk(st0, s) || e in IssuedIn(st, s);
      OneMoreCall(st1, call, Call(key, NextEvent(st, key.1, kind, body)), s, e);
    }
    NumberedHolds(st, key.1, kind, body, "", Event(None, Chatter, PLAIN));
  }

  lemma OneMoreCall(st: State, call: nat, c: Call, s: Sid, e: Event)
    requires call !in st.calls
    ensures InCall(st.(calls := st.calls[call := c]), s, e)
       <==> InCall(st, s, e) || (c.key.1 == s && c.event == e)
  {
    var st' := st.(calls := st.calls[call := c]);
    assert st'.calls[call] == c;
    assert forall t | t in st.calls :: t in st'.calls && st'.calls[t] == st.calls[t];
    assert forall t | t in st'.calls :: t == call || (t in st.calls && st'.calls[t] == st.calls[t]);
  }

  /** The calls under way have no part in what the loggers hold. */
  lemma AsideHolds(st: State, st': State)
    requires st' == st.(calls := st'.calls)
    ensures forall s, e :: Held(st', s, e) <==> Held(st, s, e)
    ensures Anchored(st') <==> Anchored(st)
    ensures forall s :: IssuedIn(st', s) == IssuedIn(st, s)
  {
    hide Events;
    assert forall s :: Disk(st', s) == Disk(st, s);
  }

  lemma PutKnown(st: State, call: nat, victim: Sid, inode: Inode, s: Sid, e: Event)
    requires Inv(st) && Anchored(st) && Enabled(st, Put(call, victim, inode))
    ensures var st' := Do(st, Put(call, victim, inode));
            Anchored(st') && (Known(st', s, e) <==> Known(st, s, e))
  {
    var c, w := st.calls[call], Without(st, call);
    assert CallOk(st, c);
    CallsAside(st, w);
    AsideHolds(st, w);
    hide Held, Anchored, Fits, Unique, Counts, OpenBy, CallsOk, Entered, InCall, Unused;
    EnteredFrame(w, c.key, c.event, victim, inode);
    SameCallsKnow(w, Entered(w, c.key, c.event, victim, inode));
    EnteredHolds(w, c.key, c.event, victim, inode, s, e);
    OneCallBack(st, call, s, e);
  }

  lemma PutIssues(st: State, call: nat, victim: Sid, inode: Inode)
    requires Enabled(st, Put(call, victim, inode))
    ensures Do(st, Put(call, victim, inode)).issued == st.issued
  {
    hide Entered, CanEnter;
    EnteredFrame(Without(st, call), st.calls[call].key, st.calls[call].event, victim, inode);
  }

  lemma PutConserves(st0: State, st: State, call: nat, victim: Sid, inode: Inode)
    requires Inv(st) && Conserved(st0, st) && Enabled(st, Put(call, victim, inode))
    ensures Conserved(st0, Do(st, Put(call, victim, inode)))
  {
    hide Known, Anchored, Disk, MaxSeq, Inv, Do, Enabled;
    var st' := Do(st, Put(call, victim, inode));
    PutIssues(st, call, victim, inode);
    PutKnown(st, call, victim, inode, "", Event(None, Chatter, PLAIN));
    forall s, e
      ensures Known(st', s, e) <==> Known(st, s, e)
    {
      PutKnown(st, call, victim, inode, s, e);
    }
  }

  lemma OneCallBack(st: State, call: nat, s: Sid, e: Event)
    requires call in st.calls
    ensures InCall(st, s, e)
       <==> InCall(Without(st, call), s, e) || (st.calls[call].key.1 == s && st.calls[call].event == e)
  {
    OneMoreCall(Without(st, call), call, st.calls[call], s, e);
    assert Without(st, call).calls[call := st.calls[call]] == st.calls;
    assert Without(st, call).(calls := st.calls) == st;
  }

  lemma AnyAnchored(st: State, key: Key, kind: Kind, body: Body, victim: Sid, inode: Inode)
    requires Inv(st) && Anchored(st) && Enabled(st, Log(key, kind, body, victim, inode))
    ensures Anchored(Do(st, Log(key, kind, body, victim, inode)))
  {
    hide Held, Anchored, WithNumber, Do, Fits, Unique;
    LogHolds(st, key, kind, body, victim, inode, "", Event(None, Chatter, PLAIN));
  }

  lemma NumberedIssues(st0: State, st: State, t: Sid, kind: Kind, body: Body)
    requires Inv(st) && Conserved(st0, st)
    ensures var st1 := WithNumber(st, t, kind, body);
            && (forall s | s in st1.issued :: st1.issued[s].seed == MaxSeq(Disk(st0, s)))
            && (forall s :: IssuedIn(st1, s)
                 == IssuedIn(st, s) + if s == t then [NextEvent(st, s, kind, body)] else [])
  {
    hide Disk, MaxSeq, Held, InCall, CallsOk, OpenBy, Unique, Fits, Anchored;
    if t !in st.issued {
      Untouched(st0, st, t);
    }
  }

  lemma FlushConserves(st0: State, st: State, key: Key, k: nat)
    requires Inv(st) && Conserved(st0, st)
    ensures Conserved(st0, Flushed(st, key, k))
  {
    FlushedFrame(st, key, k);
    SameCallsKnow(st, Flushed(st, key, k));
    hide Held, InCall, Anchored, Disk, MaxSeq, Unique, Fits, Flushed, Counts, CallsOk, OpenBy;
    forall s, e
      ensures Held(Flushed(st, key, k), s, e) <==> Held(st, s, e)
    {
      FlushHolds(st, key, k, s, e);
    }
    FlushHolds(st, key, k, "", Event(None, Chatter, PLAIN));
  }

  lemma DropConserves(st0: State, st: State, key: Key)
    requires Inv(st) && Conserved(st0, st)
    ensures Conserved(st0, Dropped(st, key))
  {
    DropIssues(st, key);
    SameCallsKnow(st, Dropped(st, key));
    hide Held, InCall, Anchored, Disk, MaxSeq, Unique, Fits, Dropped, Counts, CallsOk, OpenBy;
    forall s, e
      ensures Held(Dropped(st, key), s, e) <==> Held(st, s, e)
    {
      DropHolds(st, key, s, e);
    }
    DropHolds(st, key, "", Event(None, Chatter, PLAIN));
  }

  lemma StepConserves(st0: State, st: State, step: Step)
    requires Inv(st) && Conserved(st0, st) && Enabled(st, step) && Calm(step)
    ensures Conserved(st0, Do(st, step))
  {
    hide Conserved, Inv, Entered, Taken, CanEnter;
    match step
    case Log(key, kind, body, victim, inode) => LogConserves(st0, st, key, kind, body, victim, inode);
    case Take(call, key, kind, body) => TakeConserves(st0, st, call, key, kind, body);
    case Put(call, victim, inode) => PutConserves(st0, st, call, victim, inode);
    case Flush(key, k) => FlushConserves(st0, st, key, k);
    case Drop(key) => DropConserves(st0, st, key);
    case Close(key, _, _) => DropConserves(st0, st, key);
    case Seed(t) => SeedConserves(st0, st, t);
  }

  lemma SeedConserves(st0: State, st: State, t: Sid)
    requires Inv(st) && Conserved(st0, st)
    ensures Conserved(st0, Seeded(st, t))
  {
    SeedFrame(st, t);
    SameCallsKnow(st, Seeded(st, t));
    hide Held, Anchored, Disk, MaxSeq, Fits, Unique, OpenBy, Seeded, InCall;
    SeedIssues(st0, st, t);
    forall s, e
      ensures Held(Seeded(st, t), s, e) <==> Held(st, s, e)
    {
      SeedHolds(st, t, s, e);
    }
    SeedHolds(st, t, "", Event(None, Chatter, PLAIN));
  }

  lemma SeedFrame(st: State, t: Sid)
    ensures Seeded(st, t).calls == st.calls
  {
    hide MaxSeq, Events;
  }

  lemma SeedHolds(st: State, t: Sid, s: Sid, e: Event)
    ensures Held(Seeded(st, t), s, e) <==> Held(st, s, e)
    ensures Anchored(st) ==> Anchored(Seeded(st, t))
  {
    hide MaxSeq, Events;
    assert Disk(Seeded(st, t), s) == Disk(st, s);
  }

  lemma SeedShape(st: State, t: Sid)
    requires Unique(st)
    ensures Seeded(st, t) == st
         || (t !in st.seqs && Seeded(st, t).issued == st.issued[t := Issue(MaxSeq(Disk(st, t)), [])])
  {
    hide Disk, MaxSeq, Unique;
    if t in st.seqs {
      SeedIsBehind(st, t);
    }
  }

  lemma SeedIssues(st0: State, st: State, t: Sid)
    requires Inv(st) && Conserved(st0, st)
    ensures forall s | s in Seeded(st, t).issued :: Seeded(st, t).issued[s].seed == MaxSeq(Disk(st0, s))
    ensures forall s :: IssuedIn(Seeded(st, t), s) == IssuedIn(st, s)
  {
    hide Held, InCall, Known, CallsOk, OpenBy, Anchored, Disk, MaxSeq, Fits, Unique, Seeded;
    SeedShape(st, t);
    if t !in st.seqs {
      Untouched(st0, st, t);
    }
  }

  // ---------------------------------------------------------------- whole runs

  predicate AllCalm(steps: seq<Step>) {
    forall i | 0 <= i < |steps| :: Calm(steps[i])
  }

  /** What the callers logged in a session, in the order they took their numbers. */
  function Payloads(steps: seq<Step>, s: Sid): seq<(Kind, Body)> {
    if |steps| == 0 then []
    else
      (if (steps[0].Log? || steps[0].Take?) && steps[0].key.1 == s then [(steps[0].kind, steps[0].body)] else [])
      + Payloads(steps[1..], s)
  }

  function PayloadsOf(es: seq<Event>): seq<(Kind, Body)> {
    seq(|es|, i requires 0 <= i < |es| => (es[i].kind, es[i].body))
  }

  /** The event a step numbers in a session, if it does. */
  function Numbers(st: State, step: Step, s: Sid): seq<Event> {
    if (step.Log? || step.Take?) && step.key.1 == s then [NextEvent(st, s, step.kind, step.body)] else []
  }

  lemma StepNumbers(st: State, step: Step, s: Sid)
    requires Inv(st) && Enabled(st, step) && Calm(step)
    ensures IssuedIn(Do(st, step), s) == IssuedIn(st, s) + Numbers(st, step, s)
  {
    hide Fits, Unique, CallsOk, CanEnter, OpenBy, Events, MaxSeq, Entered, Counter;
    match step
    case Log(key, kind, body, victim, inode) => LogFrame(st, key, kind, body, victim, inode);
    case Take(call, key, kind, body) =>
    case Put(call, victim, inode) => PutIssues(st, call, victim, inode);
    case Seed(t) => SeedShape(st, t);
    case Flush(key, k) => FlushedFrame(st, key, k);
    case Drop(key) => DropIssues(st, key);
    case Close(key, _, _) => DropIssues(st, key);
  }

  lemma DropIssues(st: State, key: Key)
    ensures Dropped(st, key).issued == st.issued && Dropped(st, key).calls == st.calls
  {
    hide LoggedAll;
  }

  lemma StepIssues(st: State, step: Step, s: Sid)
    requires Inv(st) && Enabled(st, step) && Calm(step)
    ensures PayloadsOf(IssuedIn(Do(st, step), s))
         == PayloadsOf(IssuedIn(st, s)) + Payloads([step], s)
  {
    hide Inv, Enabled, Do, IssuedIn, Counter;
    StepNumbers(st, step, s);
    PayloadOfStep(st, step, s);
    hide Numbers, Payloads;
    PayloadsConcat(IssuedIn(st, s), Numbers(st, step, s));
  }

  lemma PayloadOfStep(st: State, step: Step, s: Sid)
    ensures PayloadsOf(Numbers(st, step, s)) == Payloads([step], s)
  {
    hide Counter;
    assert Payloads([step][1..], s) == [];
  }

  lemma PayloadsConcat(a: seq<Event>, b: seq<Event>)
    ensures PayloadsOf(a + b) == PayloadsOf(a) + PayloadsOf(b)
  {
  }

  lemma PayloadsCons(steps: seq<Step>, s: Sid)
    requires |steps| > 0
    ensures Payloads(steps, s) == Payloads([steps[0]], s) + Payloads(steps[1..], s)
  {
    assert [steps[0]][1..] == [];
  }

  lemma {:induction false} CalmRun(st0: State, st: State, steps: seq<Step>, s: Sid)
    requires Inv(st) && Conserved(st0, st) && CanRun(st, steps) && AllCalm(steps)
    ensures Inv(Run(st, steps)) && Conserved(st0, Run(st, steps))
    ensures PayloadsOf(IssuedIn(Run(st, steps), s)) == PayloadsOf(IssuedIn(st, s)) + Payloads(steps, s)
    decreases |steps|
  {
    hide Inv, Conserved, Do, Enabled, IssuedIn, PayloadsOf, Calm;
    if |steps| > 0 {
      assert Calm(steps[0]);
      StepKeepsInv(st, steps[0]);
      StepConserves(st0, st, steps[0]);
      StepIssues(st, steps[0], s);
      PayloadsCons(steps, s);
      hide Payloads;
      CalmRun(st0, Do(st, steps[0]), steps[1..], s);
      Assoc(PayloadsOf(IssuedIn(st, s)), Payloads([steps[0]], s), Payloads(steps[1..], s));
    } else {
      assert PayloadsOf(IssuedIn(st, s)) + [] == PayloadsOf(IssuedIn(st, s));
    }
  }

  ghost predicate Drained(st: State) {
    st.calls == map[] && forall k | k in st.writers :: st.writers[k].buffer == []
  }

  /** A device with no trail yet is such a start. */
  lemma InitIsFresh()
    ensures Fresh(Init)
  {
    InitOk();
  }

  lemma FreshConserved(st0: State)
    requires Fresh(st0)
    ensures Conserved(st0, st0)
  {
  }

  /** NOTHING LOST, NOTHING TWICE. From the start of a process, after any calm
      run whose calls have returned and whose loggers have all been flushed, a
      reader of each session gets what was on disk and then every event logged,
      in the order it was numbered. */
  lemma FlushedDiskHoldsAll(st0: State, steps: seq<Step>, s: Sid)
    requires Fresh(st0) && CanRun(st0, steps) && AllCalm(steps)
    requires Drained(Run(st0, steps))
    ensures var st := Run(st0, steps);
            && Read(Disk(st, s)) == Read(Disk(st0, s)) + IssuedIn(st, s)
            && PayloadsOf(IssuedIn(st, s)) == Payloads(steps, s)
  {
    FreshConserved(st0);
    CalmRun(st0, st0, steps, s);
    assert PayloadsOf(IssuedIn(st0, s)) == [];
    hide Run, CanRun;
    DrainedReads(st0, Run(st0, steps), s);
  }

  lemma DrainedReads(st0: State, st: State, s: Sid)
    requires Fresh(st0) && Inv(st) && Conserved(st0, st) && Drained(st)
    ensures Read(Disk(st, s)) == Read(Disk(st0, s)) + IssuedIn(st, s)
  {
    hide Disk, Fits, OpenBy, Read;
    assert SessionOk(st, s) && SessionOk(st0, s);
    var a, b, n := Read(Disk(st, s)), Read(Disk(st0, s)), IssuedIn(st, s);
    ReadIncreasing(Disk(st, s));
    ReadIncreasing(Disk(st0, s));
    ReadPermutes(Disk(st, s));
    ReadPermutes(Disk(st0, s));
    IssuedAfter(st0, st, s, b);
    forall e
      ensures e in a <==> e in b + n
    {
      assert Known(st, s, e) <==> e in Disk(st0, s) || e in n;
    }
    IncreasingUnique(a, b + n);
  }

  lemma IssuedAfter(st0: State, st: State, s: Sid, b: seq<Event>)
    requires Counts(st) && Conserved(st0, st) && Increasing(b) && AllNumbered(b)
    requires forall e :: e in b <==> e in Disk(st0, s)
    ensures Increasing(b + IssuedIn(st, s)) && AllNumbered(b + IssuedIn(st, s))
  {
    hide Held, InCall, Known, Anchored, Disk, MaxSeq;
    var n := IssuedIn(st, s);
    assert forall j | 0 <= j < |n| :: n[j].num == Some(st.issued[s].seed + 1 + j);
    assert forall i | 0 <= i < |b| :: b[i] in b && b[i].num.value <= MaxSeq(Disk(st0, s));
  }
}
