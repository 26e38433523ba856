/** The mutex protocol of the record files as a state machine: any number of
    threads append and trim, one byte or one system call at a time; a trim
    installs a new inode; any call may fail and the process may die at any step. */
module FeedLock {
  import opened Jsonl
  import opened Feed

  type Tid = nat
  type Inode = nat

  /** What the thread holding the lock is doing. `before` is the file it found. */
  datatype Phase<R> =
    | AppendLocked(rec: R)
    | Appending(rec: R, handle: Inode, before: Bytes, done: nat)
    | TrimLocked(cutoff: nat)
    | TrimRead(cutoff: nat, before: Bytes)
    | TrimTemp(cutoff: nat, before: Bytes, temp: Inode)

  /** The operations that took effect, in the order they did. */
  datatype Event<R> = Added(rec: R) | Aged(cutoff: nat)

  /** `path` is the directory entry of the file; an inode outlives its name. */
  datatype State<R> = State(
    path: Option<Inode>,
    inodes: map<Inode, Bytes>,
    holder: Option<(Tid, Phase<R>)>,
    history: seq<Event<R>>)

  datatype Step<R> =
    | AcquireAppend(t: Tid, rec: R)
    | Open(t: Tid, inode: Inode)
    | WriteByte(t: Tid)
    | AcquireTrim(t: Tid, cutoff: nat)
    | Read(t: Tid)
    | WriteTemp(t: Tid, inode: Inode)
    | Rename(t: Tid)
    | Release(t: Tid)
    | Fail(t: Tid)
    | Crash

  datatype Protocol<!R(!new)> = Protocol(family: Family<R>, base: seq<R>)
  {
    /** The bytes under the path, as a reader that opens it now gets them. */
    function Visible(s: State<R>): Bytes {
      if s.path.Some? && s.path.value in s.inodes then s.inodes[s.path.value] else []
    }

    function Readable(s: State<R>): seq<R> {
      family.codec.ReadAll(Visible(s))
    }

    function LandsAt(before: Bytes, r: R): nat {
      |family.codec.Preamble(before)| + |family.codec.encode(r)|
    }

    // -------------------------------------------------------------- steps

    predicate Holds(s: State<R>, t: Tid) {
      s.holder.Some? && s.holder.value.0 == t
    }

    predicate Enabled(s: State<R>, step: Step<R>) {
      match step
      case AcquireAppend(_, _) => s.holder.None?
      case AcquireTrim(_, _) => s.holder.None?
      case Open(t, inode) =>
        Holds(s, t) && s.holder.value.1.AppendLocked? && (s.path.None? ==> inode !in s.inodes)
      case WriteByte(t) =>
        && Holds(s, t) && s.holder.value.1.Appending?
        && var p := s.holder.value.1;
        p.handle in s.inodes && p.done < |family.codec.WriteOf(p.before, p.rec)|
      case Read(t) => Holds(s, t) && s.holder.value.1.TrimLocked?
      case WriteTemp(t, inode) => Holds(s, t) && s.holder.value.1.TrimRead? && inode !in s.inodes
      case Rename(t) => Holds(s, t) && s.holder.value.1.TrimTemp?
      case Release(t) =>
        && Holds(s, t) && s.holder.value.1.Appending?
        && var p := s.holder.value.1; p.done == |family.codec.WriteOf(p.before, p.rec)|
      case Fail(t) => Holds(s, t)
      case Crash => true
    }

    function Do(s: State<R>, step: Step<R>): State<R>
      requires Enabled(s, step)
    {
      match step
      case AcquireAppend(t, r) => s.(holder := Some((t, AppendLocked(r))))
      case AcquireTrim(t, cutoff) => s.(holder := Some((t, TrimLocked(cutoff))))
      case Open(t, inode) =>
        var r := s.holder.value.1.rec;
        if s.path.Some? then
          s.(holder := Some((t, Appending(r, s.path.value, Visible(s), 0))))
        else
          s.(path := Some(inode), inodes := s.inodes[inode := []],
             holder := Some((t, Appending(r, inode, [], 0))))
      case WriteByte(t) =>
        // To the handle, whatever the path now names.
        var p := s.holder.value.1;
        var b := family.codec.WriteOf(p.before, p.rec)[p.done];
        s.(inodes := s.inodes[p.handle := s.inodes[p.handle] + [b]],
           holder := Some((t, p.(done := p.done + 1))),
           history := if p.done + 1 == LandsAt(p.before, p.rec)
                      then s.history + [Added(p.rec)] else s.history)
      case Read(t) =>
        var cutoff := s.holder.value.1.cutoff;
        if s.path.None? then s.(holder := None)
        else if family.Dropped(cutoff, Visible(s)) == 0 then
          s.(holder := None, history := s.history + [Aged(cutoff)])
        else s.(holder := Some((t, TrimRead(cutoff, Visible(s)))))
      case WriteTemp(t, inode) =>
        var p := s.holder.value.1;
        s.(inodes := s.inodes[inode := family.Trimmed(p.cutoff, p.before)],
           holder := Some((t, TrimTemp(p.cutoff, p.before, inode))))
      case Rename(t) =>
        var p := s.holder.value.1;
        s.(path := Some(p.temp), holder := None, history := s.history + [Aged(p.cutoff)])
      case Release(_) => s.(holder := None)
      case Fail(_) => s.(holder := None)
      case Crash => s.(holder := None)
    }

    predicate CanRun(s: State<R>, steps: seq<Step<R>>)
      decreases |steps|
    {
      |steps| == 0 || (Enabled(s, steps[0]) && CanRun(Do(s, steps[0]), steps[1..]))
    }

    function RunAll(s: State<R>, steps: seq<Step<R>>): State<R>
      requires CanRun(s, steps)
      decreases |steps|
    {
      if |steps| == 0 then s else RunAll(Do(s, steps[0]), steps[1..])
    }

    // -------------------------------------------------------------- meaning

    /** What the operations mean, one after the other. */
    function Replay(rs: seq<R>, history: seq<Event<R>>): seq<R> {
      if |history| == 0 then rs
      else
        var rest := Replay(rs, history[..|history| - 1]);
        match history[|history| - 1]
        case Added(r) => rest + [r]
        case Aged(cutoff) => family.KeptRecords(cutoff, rest)
    }

    ghost predicate Inv(s: State<R>) {
      && (s.path.Some? ==> s.path.value in s.inodes)
      && Readable(s) == Replay(base, s.history)
      && (s.holder.Some? ==> HolderInv(s, s.holder.value.1))
    }

    /** The handle being written is the inode the path names, and its content
        is what was found plus the bytes written so far. */
    ghost predicate HolderInv(s: State<R>, p: Phase<R>) {
      match p
      case AppendLocked(_) => true
      case TrimLocked(_) => true
      case Appending(r, handle, before, done) =>
        && s.path == Some(handle)
        && done <= |family.codec.WriteOf(before, r)|
        && Visible(s) == before + family.codec.WriteOf(before, r)[..done]
        && (done >= LandsAt(before, r) ==>
              |s.history| > 0 && s.history[|s.history| - 1] == Added(r))
      case TrimRead(_, before) => s.path.Some? && Visible(s) == before
      case TrimTemp(cutoff, before, temp) =>
        && s.path.Some? && Visible(s) == before
        && temp in s.inodes && s.inodes[temp] == family.Trimmed(cutoff, before)
    }

    lemma WriteByteKeepsInv(s: State<R>, t: Tid)
      requires family.codec.Sound() && Inv(s) && Enabled(s, WriteByte(t))
      ensures Inv(Do(s, WriteByte(t)))
    {
      ByteReads(s, t);
      ByteHolds(s, t);
    }

    lemma ByteReads(s: State<R>, t: Tid)
      requires family.codec.Sound() && Inv(s) && Enabled(s, WriteByte(t))
      ensures Readable(Do(s, WriteByte(t))) == Replay(base, Do(s, WriteByte(t)).history)
    {
      hide family.codec.Sound, family.codec.WriteOf, family.codec.ReadAll, Visible, LandsAt, Replay, HolderInv;
      WriteByteGrows(s, t);
      var p := s.holder.value.1;
      OneMoreByte(p.before, p.rec, p.done);
      ReplayAdded(s.history, p.rec);
      assert Readable(s) + [] == Readable(s);
    }

    lemma ByteHolds(s: State<R>, t: Tid)
      requires Inv(s) && Enabled(s, WriteByte(t))
      ensures var s' := Do(s, WriteByte(t));
              && s'.path.Some? && s'.path.value in s'.inodes
              && s'.holder.Some? && HolderInv(s', s'.holder.value.1)
    {
      WriteByteGrows(s, t);
      hide family.codec.WriteOf, family.codec.ReadAll, Visible, Replay;
    }

    lemma WriteByteGrows(s: State<R>, t: Tid)
      requires Inv(s) && Enabled(s, WriteByte(t))
      ensures var p := s.holder.value.1;
              && s.path == Some(p.handle)
              && Visible(s) == p.before + family.codec.WriteOf(p.before, p.rec)[..p.done]
              && Visible(Do(s, WriteByte(t))) == p.before + family.codec.WriteOf(p.before, p.rec)[..p.done + 1]
    {
      var p := s.holder.value.1;
      var all := family.codec.WriteOf(p.before, p.rec);
      assert all[..p.done] + [all[p.done]] == all[..p.done + 1];
      Assoc(p.before, all[..p.done], [all[p.done]]);
    }

    /** One more byte changes what a reader gets only when it is the last byte
        of the record's object. */
    lemma OneMoreByte(before: Bytes, r: R, done: nat)
      requires family.codec.Sound() && done < |family.codec.WriteOf(before, r)|
      ensures family.codec.ReadAll(before + family.codec.WriteOf(before, r)[..done + 1])
           == family.codec.ReadAll(before + family.codec.WriteOf(before, r)[..done])
              + if done + 1 == LandsAt(before, r) then [r] else []
    {
      family.codec.PartialAppend(before, r, done);
      family.codec.PartialAppend(before, r, done + 1);
      Assoc(family.codec.ReadAll(before), [r], []);
    }

    lemma ReplayAdded(history: seq<Event<R>>, r: R)
      ensures Replay(base, history + [Added(r)]) == Replay(base, history) + [r]
    {
      assert (history + [Added(r)])[..|history|] == history;
    }

    lemma ReplayAged(history: seq<Event<R>>, cutoff: nat)
      ensures Replay(base, history + [Aged(cutoff)]) == family.KeptRecords(cutoff, Replay(base, history))
    {
      assert (history + [Aged(cutoff)])[..|history|] == history;
    }

    lemma StepKeepsInv(s: State<R>, step: Step<R>)
      requires family.codec.Sound() && Inv(s) && Enabled(s, step)
      ensures Inv(Do(s, step))
    {
      match step
      case WriteByte(t) => WriteByteKeepsInv(s, t);
      case Open(t, inode) => assert Visible(Do(s, step)) == Visible(s);
      case Read(t) =>
        family.TrimReadsBack(s.holder.value.1.cutoff, Visible(s));
        ReplayAged(s.history, s.holder.value.1.cutoff);
      case Rename(t) =>
        family.TrimReadsBack(s.holder.value.1.cutoff, Visible(s));
        ReplayAged(s.history, s.holder.value.1.cutoff);
      case WriteTemp(t, inode) => assert Visible(Do(s, step)) == Visible(s);
      case _ =>
    }

    // -------------------------------------------------------------- runs

    ghost predicate Initial(s: State<R>) {
      && s.holder.None? && s.history == []
      && (s.path.Some? ==> s.path.value in s.inodes)
      && Readable(s) == base
    }

    lemma {:induction false} RunKeepsInv(s: State<R>, steps: seq<Step<R>>)
      requires family.codec.Sound() && Inv(s) && CanRun(s, steps)
      ensures Inv(RunAll(s, steps))
      decreases |steps|
    {
      if |steps| > 0 {
        StepKeepsInv(s, steps[0]);
        RunKeepsInv(Do(s, steps[0]), steps[1..]);
      }
    }

    /** The furthest window any trim of the history applied. */
    function Furthest(history: seq<Event<R>>): nat {
      if |history| == 0 then 0
      else
        var rest := Furthest(history[..|history| - 1]);
        match history[|history| - 1]
        case Added(_) => rest
        case Aged(cutoff) => if cutoff > rest then cutoff else rest
    }

    /** The records added that no later trim excludes, in the order they were added. */
    function Survivors(history: seq<Event<R>>): seq<R> {
      if |history| == 0 then []
      else
        var rest := Survivors(history[..|history| - 1]);
        match history[|history| - 1]
        case Added(r) => rest + [r]
        case Aged(cutoff) => family.KeptRecords(cutoff, rest)
    }

    lemma KeptTwice(a: nat, b: nat, rs: seq<R>)
      ensures family.KeptRecords(a, family.KeptRecords(b, rs))
           == family.KeptRecords(if a > b then a else b, rs)
    {
      if |rs| > 0 {
        KeptTwice(a, b, rs[1..]);
        var head := if family.Excludes(b, rs[0]) then [] else [rs[0]];
        family.KeptRecordsConcat(a, head, family.KeptRecords(b, rs[1..]));
      }
    }

    lemma {:induction false} KeptByZero(rs: seq<R>)
      ensures family.KeptRecords(0, rs) == rs
    {
      if |rs| > 0 {
        KeptByZero(rs[1..]);
      }
    }

    lemma {:induction false} ReplayIsSurvivors(history: seq<Event<R>>)
      ensures Replay(base, history) == family.KeptRecords(Furthest(history), base) + Survivors(history)
      decreases |history|
    {
      if |history| == 0 {
        KeptByZero(base);
      } else {
        var rest := history[..|history| - 1];
        ReplayIsSurvivors(rest);
        match history[|history| - 1]
        case Added(r) =>
        case Aged(cutoff) =>
          family.KeptRecordsConcat(cutoff, family.KeptRecords(Furthest(rest), base), Survivors(rest));
          KeptTwice(cutoff, Furthest(rest), base);
      }
    }

    /** IN EVERY INTERLEAVING, at every moment of it, a reader that takes no
        lock sees exactly the records of the completed operations: what the
        file held and the windows kept, then each added record that no later
        window excludes, in the order the appends held the lock. And a byte is
        only ever written to the inode the path names. */
    lemma EveryReaderSeesTheHistory(s: State<R>, steps: seq<Step<R>>)
      requires family.codec.Sound() && Initial(s) && CanRun(s, steps)
      ensures var s' := RunAll(s, steps);
              && Readable(s') == family.KeptRecords(Furthest(s'.history), base) + Survivors(s'.history)
              && (s'.holder.Some? && s'.holder.value.1.Appending? ==>
                    s'.path == Some(s'.holder.value.1.handle))
    {
      RunKeepsInv(s, steps);
      ReplayIsSurvivors(RunAll(s, steps).history);
    }

    // -------------------------------------------------------------- exactly once

    function Adds(history: seq<Event<R>>): seq<R> {
      if |history| == 0 then []
      else
        Adds(history[..|history| - 1])
        + match history[|history| - 1] case Added(r) => [r] case Aged(_) => []
    }

    /** The record of the append under way, once its object is on disk. */
    function Pending(s: State<R>): seq<R> {
      if s.holder.Some? && s.holder.value.1.Appending? then
        var p := s.holder.value.1;
        if p.done >= LandsAt(p.before, p.rec) then [p.rec] else []
      else []
    }

    function Ended(s: State<R>, step: Step<R>): seq<R> {
      if step.Release? || step.Fail? || step.Crash? then Pending(s) else []
    }

    /** The appends of a run that ended with their object on disk: every one
        released normally, and those of the failed and crashed whose write got
        that far; in the order they held the lock. */
    function Landed(s: State<R>, steps: seq<Step<R>>): seq<R>
      requires CanRun(s, steps)
      decreases |steps|
    {
      if |steps| == 0 then [] else Ended(s, steps[0]) + Landed(Do(s, steps[0]), steps[1..])
    }

    lemma StepSettles(s: State<R>, step: Step<R>, settled: seq<R>)
      requires family.codec.Sound() && Enabled(s, step) && Adds(s.history) == settled + Pending(s)
      ensures Adds(Do(s, step).history) == settled + Ended(s, step) + Pending(Do(s, step))
    {
      match step
      case WriteByte(t) => WriteByteSettles(s, t, settled);
      case Open(t, inode) => OpenSettles(s, t, inode, settled);
      case _ => QuietSettles(s, step, settled);
    }

    lemma AddsOne(history: seq<Event<R>>, e: Event<R>)
      ensures Adds(history + [e]) == Adds(history) + match e case Added(r) => [r] case Aged(_) => []
    {
      assert (history + [e])[..|history|] == history;
    }

    lemma WriteByteSettles(s: State<R>, t: Tid, settled: seq<R>)
      requires family.codec.Sound() && Enabled(s, WriteByte(t)) && Adds(s.history) == settled + Pending(s)
      ensures Adds(Do(s, WriteByte(t)).history) == settled + [] + Pending(Do(s, WriteByte(t)))
    {
      hide family.codec.Sound, family.codec.WriteOf, Adds;
      var p := s.holder.value.1;
      AddsOne(s.history, Added(p.rec));
      Assoc(settled, [], [p.rec]);
      SoundIsSome(p.rec);
    }

    lemma SoundIsSome(r: R)
      requires family.codec.Sound()
      ensures |family.codec.encode(r)| > 0
    {
    }

    lemma OpenSettles(s: State<R>, t: Tid, inode: Inode, settled: seq<R>)
      requires family.codec.Sound() && Enabled(s, Open(t, inode)) && Adds(s.history) == settled + Pending(s)
      ensures Adds(Do(s, Open(t, inode)).history) == settled + [] + Pending(Do(s, Open(t, inode)))
    {
      hide family.codec.Sound, Visible, Adds;
      SoundIsSome(s.holder.value.1.rec);
      Assoc(settled, [], []);
    }

    /** No other step adds a record. */
    lemma QuietSettles(s: State<R>, step: Step<R>, settled: seq<R>)
      requires Enabled(s, step) && Adds(s.history) == settled + Pending(s) && !step.WriteByte? && !step.Open?
      ensures Adds(Do(s, step).history) == settled + Ended(s, step) + Pending(Do(s, step))
    {
      hide family.Trimmed, family.Dropped, Visible, LandsAt, Adds;
      forall cutoff
        ensures Adds(s.history + [Aged(cutoff)]) == Adds(s.history) + []
      {
        AddsOne(s.history, Aged(cutoff));
      }
      Assoc(settled, Pending(s), []);
      Assoc(settled, [], []);
    }

    /** EXACTLY ONCE, IN LOCK ORDER: over any run the added records of the
        history are the landed appends, one event each. */
    lemma {:induction false} AddedExactlyOnce(s: State<R>, steps: seq<Step<R>>, settled: seq<R>)
      requires family.codec.Sound() && CanRun(s, steps) && Adds(s.history) == settled + Pending(s)
      ensures Adds(RunAll(s, steps).history)
           == settled + Landed(s, steps) + Pending(RunAll(s, steps))
      decreases |steps|
    {
      if |steps| > 0 {
        StepSettles(s, steps[0], settled);
        AddedExactlyOnce(Do(s, steps[0]), steps[1..], settled + Ended(s, steps[0]));
        Assoc(settled, Ended(s, steps[0]), Landed(Do(s, steps[0]), steps[1..]));
      }
    }

    lemma {:induction false} KeptWhenNoneExcluded(cutoff: nat, rs: seq<R>)
      requires forall r | r in rs :: !family.Excludes(cutoff, r)
      ensures family.KeptRecords(cutoff, rs) == rs
    {
      if |rs| > 0 {
        KeptWhenNoneExcluded(cutoff, rs[1..]);
      }
    }

    /** A record every window of the run keeps is never lost. */
    lemma {:induction false} NoKeptRecordIsLost(history: seq<Event<R>>, window: nat)
      requires Furthest(history) <= window
      requires forall r | r in Adds(history) :: !family.Excludes(window, r)
      ensures Survivors(history) == Adds(history)
      decreases |history|
    {
      if |history| > 0 {
        var rest := history[..|history| - 1];
        assert forall r | r in Adds(rest) :: r in Adds(history);
        NoKeptRecordIsLost(rest, window);
        match history[|history| - 1]
        case Added(r) =>
        case Aged(cutoff) => KeptWhenNoneExcluded(cutoff, Adds(rest));
      }
    }

    /** Why the lock must cover both: a byte written through a handle the path
        no longer names reaches no reader, though the write succeeds. */
    lemma OrphanedWriteIsLost(s: State<R>, t: Tid)
      requires Enabled(s, WriteByte(t)) && s.path.Some?
      requires s.path.value in s.inodes && s.path.value != s.holder.value.1.handle
      ensures Visible(Do(s, WriteByte(t))) == Visible(s)
    {
    }

    // -------------------------------------------------------------- what one operation does

    /** What a reader gets changes in two ways only: the byte that completes an
        object adds its record, and the rename of a trim drops what the trim's
        window excludes. */
    lemma StepReads(s: State<R>, step: Step<R>)
      requires family.codec.Sound() && Inv(s) && Enabled(s, step)
      ensures Readable(Do(s, step)) ==
              if step.WriteByte? then
                var p := s.holder.value.1;
                Readable(s) + if p.done + 1 == LandsAt(p.before, p.rec) then [p.rec] else []
              else if step.Rename? then family.KeptRecords(s.holder.value.1.cutoff, Readable(s))
              else Readable(s)
    {
      match step
      case WriteByte(t) => ByteAdds(s, t);
      case Rename(t) => family.TrimReadsBack(s.holder.value.1.cutoff, Visible(s));
      case _ => QuietStep(s, step);
    }

    lemma ByteAdds(s: State<R>, t: Tid)
      requires family.codec.Sound() && Inv(s) && Enabled(s, WriteByte(t))
      ensures var p := s.holder.value.1;
              Readable(Do(s, WriteByte(t)))
              == Readable(s) + if p.done + 1 == LandsAt(p.before, p.rec) then [p.rec] else []
    {
      WriteByteGrows(s, t);
      hide family.codec.Sound, family.codec.WriteOf, family.codec.ReadAll, LandsAt, HolderInv, Visible, Do;
      var p := s.holder.value.1;
      OneMoreByte(p.before, p.rec, p.done);
    }

    lemma QuietStep(s: State<R>, step: Step<R>)
      requires Inv(s) && Enabled(s, step) && !step.WriteByte? && !step.Rename?
      ensures Visible(Do(s, step)) == Visible(s)
    {
      hide family.Dropped, family.Trimmed, family.codec.WriteOf, family.codec.ReadAll, LandsAt, Replay;
    }

    /** A trim finds nothing to drop exactly when its window excludes no record. */
    lemma NothingOld(cutoff: nat, content: Bytes)
      ensures family.Dropped(cutoff, content) == 0 <==>
              forall r | r in family.codec.ReadAll(content) :: !family.Excludes(cutoff, r)
    {
      var rs := family.codec.ReadAll(content);
      family.TrimReadsBack(cutoff, content);
      FewerWhenExcluded(cutoff, rs);
    }

    lemma {:induction false} FewerWhenExcluded(cutoff: nat, rs: seq<R>)
      ensures |family.KeptRecords(cutoff, rs)| <= |rs|
      ensures |family.KeptRecords(cutoff, rs)| == |rs| <==> forall r | r in rs :: !family.Excludes(cutoff, r)
    {
      if |rs| > 0 {
        FewerWhenExcluded(cutoff, rs[1..]);
        assert rs == [rs[0]] + rs[1..];
      }
    }

    /** THE LOCK: it is taken only when it is free, and while a thread holds it
        only that thread's calls and a crash are possible; a crash always is, and
        a held lock never waits on another thread. */
    lemma OneHolder(s: State<R>, step: Step<R>)
      ensures Enabled(s, step) ==>
                if step.AcquireAppend? || step.AcquireTrim? then s.holder.None?
                else step.Crash? || (s.holder.Some? && s.holder.value.0 == step.t)
      ensures Enabled(s, Crash) && (s.holder.Some? ==> Enabled(s, Fail(s.holder.value.0)))
      ensures s.holder.None? ==> forall t, r :: Enabled(s, AcquireAppend(t, r))
      ensures s.holder.None? ==> forall t, cutoff :: Enabled(s, AcquireTrim(t, cutoff))
    {
    }

    // -------------------------------------------------------------- every trim, once

    function Ages(history: seq<Event<R>>): seq<nat> {
      if |history| == 0 then []
      else
        Ages(history[..|history| - 1])
        + match history[|history| - 1] case Added(_) => [] case Aged(cutoff) => [cutoff]
    }

    /** The last lock taken: by whom, and what for. */
    function LastAcquired(steps: seq<Step<R>>): Option<Step<R>> {
      if |steps| == 0 then None
      else
        var last := steps[|steps| - 1];
        if last.AcquireAppend? || last.AcquireTrim? then Some(last) else LastAcquired(steps[..|steps| - 1])
    }

    /** The windows of the trims that completed: at the rename, or at the read
        that found a file with no record older than the window. */
    ghost function Completed(s: State<R>, steps: seq<Step<R>>): seq<nat>
      requires CanRun(s, steps)
      decreases |steps|
    {
      if |steps| == 0 then []
      else
        var front, last := steps[..|steps| - 1], steps[|steps| - 1];
        FrontRuns(s, steps);
        var before := RunAll(s, front);
        Completed(s, front)
        + match LastAcquired(front)
          case Some(AcquireTrim(_, cutoff)) =>
            if last.Rename? || (last.Read? && before.path.Some? &&
                                forall r | r in Readable(before) :: !family.Excludes(cutoff, r))
            then [cutoff] else []
          case _ => []
    }

    lemma {:induction false} FrontRuns(s: State<R>, steps: seq<Step<R>>)
      requires CanRun(s, steps) && |steps| > 0
      ensures var front, last := steps[..|steps| - 1], steps[|steps| - 1];
              && CanRun(s, front) && Enabled(RunAll(s, front), last)
              && RunAll(s, steps) == Do(RunAll(s, front), last)
      decreases |steps|
    {
      if |steps| > 1 {
        var rest := steps[1..];
        FrontRuns(Do(s, steps[0]), rest);
        assert steps[..|steps| - 1][1..] == rest[..|rest| - 1];
      }
    }

    /** The phase of the thread that holds the lock says what it took it for. */
    ghost predicate HoldsFor(s: State<R>, last: Option<Step<R>>) {
      s.holder.Some? ==>
        match s.holder.value.1
        case AppendLocked(r) => last == Some(AcquireAppend(s.holder.value.0, r))
        case Appending(r, _, _, _) => last == Some(AcquireAppend(s.holder.value.0, r))
        case TrimLocked(cutoff) => last == Some(AcquireTrim(s.holder.value.0, cutoff))
        case TrimRead(cutoff, _) => last == Some(AcquireTrim(s.holder.value.0, cutoff))
        case TrimTemp(cutoff, _, _) => last == Some(AcquireTrim(s.holder.value.0, cutoff))
    }

    lemma {:induction false} HolderAcquiredLast(s: State<R>, steps: seq<Step<R>>)
      requires s.holder.None? && CanRun(s, steps)
      ensures HoldsFor(RunAll(s, steps), LastAcquired(steps))
      decreases |steps|
    {
      if |steps| > 0 {
        hide family.Dropped, family.Trimmed, family.codec.WriteOf, Visible, LandsAt;
        FrontRuns(s, steps);
        HolderAcquiredLast(s, steps[..|steps| - 1]);
      }
    }

    /** EVERY TRIM, ONCE: over any run the ages of the history are the windows of
        the trims that completed, in the order they held the lock. */
    lemma {:induction false} AgedExactlyOnce(s: State<R>, steps: seq<Step<R>>)
      requires Initial(s) && CanRun(s, steps)
      ensures Ages(RunAll(s, steps).history) == Completed(s, steps)
      decreases |steps|
    {
      if |steps| > 0 {
        var front, last := steps[..|steps| - 1], steps[|steps| - 1];
        FrontRuns(s, steps);
        AgedExactlyOnce(s, front);
        HolderAcquiredLast(s, front);
        StepAges(RunAll(s, front), last);
        EnabledPhase(RunAll(s, front), last);
        hide RunAll, CanRun, LastAcquired, Enabled, Do, Ages, Readable;
      }
    }

    lemma EnabledPhase(s: State<R>, step: Step<R>)
      requires Enabled(s, step)
      ensures step.Rename? ==> s.holder.Some? && s.holder.value.1.TrimTemp?
      ensures step.Read? ==> s.holder.Some? && s.holder.value.1.TrimLocked?
    {
    }

    lemma AgesOne(history: seq<Event<R>>, e: Event<R>)
      ensures Ages(history + [e]) == Ages(history) + match e case Added(_) => [] case Aged(cutoff) => [cutoff]
    {
      assert (history + [e])[..|history|] == history;
    }

    lemma StepAges(s: State<R>, step: Step<R>)
      requires Enabled(s, step)
      ensures Ages(Do(s, step).history) == Ages(s.history) +
              if step.Rename? then [s.holder.value.1.cutoff]
              else if step.Read? && s.path.Some? &&
                      forall r | r in Readable(s) :: !family.Excludes(s.holder.value.1.cutoff, r)
              then [s.holder.value.1.cutoff] else []
    {
      hide family.Dropped, family.Trimmed, family.codec.WriteOf, Visible, LandsAt, Ages;
      match step
      case WriteByte(t) => AgesOne(s.history, Added(s.holder.value.1.rec));
      case Rename(t) => AgesOne(s.history, Aged(s.holder.value.1.cutoff));
      case Read(t) =>
        AgesOne(s.history, Aged(s.holder.value.1.cutoff));
        NothingOld(s.holder.value.1.cutoff, Visible(s));
      case _ =>
    }

    // -------------------------------------------------------------- one operation, start to end

    /** The rest of an append: a byte a step, then the release. */
    function Finish(t: Tid, k: nat): seq<Step<R>> {
      if k == 0 then [Release(t)] else [WriteByte(t)] + Finish(t, k - 1)
    }

    /** What the append under way has still to add. */
    function Missing(s: State<R>): seq<R> {
      if s.holder.Some? && s.holder.value.1.Appending? then
        var p := s.holder.value.1;
        if p.done < LandsAt(p.before, p.rec) then [p.rec] else []
      else []
    }

    lemma {:induction false} AppendEnds(s: State<R>, t: Tid, k: nat)
      requires family.codec.Sound() && Inv(s) && Holds(s, t) && s.holder.value.1.Appending?
      requires var p := s.holder.value.1; |family.codec.WriteOf(p.before, p.rec)| == p.done + k
      ensures CanRun(s, Finish(t, k)) && RunAll(s, Finish(t, k)).holder.None?
      ensures Readable(RunAll(s, Finish(t, k))) == Readable(s) + Missing(s)
      decreases k
    {
      hide Inv, Do, Enabled, Readable, LandsAt, Missing, family.codec.WriteOf, Visible, CanRun, RunAll;
      NextOfAppend(s, t);
      if k == 0 {
        Released(s, t);
      } else {
        OneByteOn(s, t);
        AppendEnds(Do(s, WriteByte(t)), t, k - 1);
        Then(s, WriteByte(t), Finish(t, k - 1));
      }
    }

    lemma Released(s: State<R>, t: Tid)
      requires family.codec.Sound() && Inv(s) && Enabled(s, Release(t)) && Missing(s) == []
      requires Do(s, Release(t)).holder.None?
      ensures CanRun(s, Finish(t, 0)) && RunAll(s, Finish(t, 0)).holder.None?
      ensures Readable(RunAll(s, Finish(t, 0))) == Readable(s) + Missing(s)
    {
      hide Inv, Do, Enabled, Readable, Missing;
      Alone(s, Release(t));
      StepReads(s, Release(t));
    }

    lemma NextOfAppend(s: State<R>, t: Tid)
      requires Inv(s) && Holds(s, t) && s.holder.value.1.Appending?
      ensures var p := s.holder.value.1;
              && LandsAt(p.before, p.rec) < |family.codec.WriteOf(p.before, p.rec)|
              && (p.done < |family.codec.WriteOf(p.before, p.rec)| ==> Enabled(s, WriteByte(t)))
              && (p.done >= LandsAt(p.before, p.rec) ==> Missing(s) == [])
              && (p.done == |family.codec.WriteOf(p.before, p.rec)| ==>
                    Enabled(s, Release(t)) && Do(s, Release(t)).holder.None?)
    {
      hide family.codec.ReadAll, Replay;
    }

    lemma OneByteOn(s: State<R>, t: Tid)
      requires family.codec.Sound() && Inv(s) && Enabled(s, WriteByte(t))
      ensures var p, s' := s.holder.value.1, Do(s, WriteByte(t));
              && Inv(s') && s'.holder == Some((t, p.(done := p.done + 1)))
              && Readable(s') + Missing(s') == Readable(s) + Missing(s)
    {
      StepKeepsInv(s, WriteByte(t));
      ByteAdds(s, t);
      hide Inv, Readable, LandsAt, family.codec.WriteOf;
    }

    /** An append that nothing stops: the record is there for every reader, last,
        and the lock is free. */
    lemma OneAppend(s: State<R>, t: Tid, r: R, inode: Inode)
      requires family.codec.Sound() && Inv(s) && s.holder.None? && (s.path.None? ==> inode !in s.inodes)
      ensures var steps := [AcquireAppend(t, r), Open(t, inode)] + Finish(t, |family.codec.WriteOf(Visible(s), r)|);
              && CanRun(s, steps) && RunAll(s, steps).holder.None?
              && Readable(RunAll(s, steps)) == Readable(s) + [r]
    {
      var k := |family.codec.WriteOf(Visible(s), r)|;
      AppendBegins(s, t, r, inode);
      hide Inv, Do, Enabled, Readable, LandsAt, family.codec.WriteOf, Visible, Holds;
      var locked := Do(s, AcquireAppend(t, r));
      AppendEnds(Do(locked, Open(t, inode)), t, k);
      Then(locked, Open(t, inode), Finish(t, k));
      Then(s, AcquireAppend(t, r), [Open(t, inode)] + Finish(t, k));
      assert [AcquireAppend(t, r), Open(t, inode)] + Finish(t, k)
          == [AcquireAppend(t, r)] + ([Open(t, inode)] + Finish(t, k));
    }

    lemma AppendBegins(s: State<R>, t: Tid, r: R, inode: Inode)
      requires family.codec.Sound() && Inv(s) && s.holder.None? && (s.path.None? ==> inode !in s.inodes)
      ensures Enabled(s, AcquireAppend(t, r))
      ensures var locked := Do(s, AcquireAppend(t, r));
              && Enabled(locked, Open(t, inode))
              && var writing := Do(locked, Open(t, inode));
              && Inv(writing) && Holds(writing, t) && Readable(writing) == Readable(s)
              && writing.holder.value.1.Appending? && Missing(writing) == [r]
              && var p := writing.holder.value.1;
              p.before == Visible(s) && p.rec == r && p.done == 0
    {
      var locked := Do(s, AcquireAppend(t, r));
      StepKeepsInv(s, AcquireAppend(t, r));
      StepKeepsInv(locked, Open(t, inode));
      QuietStep(locked, Open(t, inode));
      SoundIsSome(r);
      hide Inv, family.codec.ReadAll, family.codec.WriteOf, family.codec.Sound;
    }

    /** A trim that nothing stops, of a file with something old: a reader then
        gets what the window keeps, and the lock is free. */
    lemma OneTrim(s: State<R>, t: Tid, cutoff: nat, inode: Inode)
      requires family.codec.Sound() && Inv(s) && s.holder.None? && inode !in s.inodes
      requires exists r :: r in Readable(s) && family.Excludes(cutoff, r)
      ensures var steps: seq<Step<R>> := [AcquireTrim(t, cutoff), Read(t), WriteTemp(t, inode), Rename(t)];
              && CanRun(s, steps) && RunAll(s, steps).holder.None?
              && Readable(RunAll(s, steps)) == family.KeptRecords(cutoff, Readable(s))
    {
      TrimBegins(s, t, cutoff, inode);
      var locked := Do(s, AcquireTrim(t, cutoff));
      var found := Do(locked, Read(t));
      var temp := Do(found, WriteTemp(t, inode));
      hide Do, Enabled, Inv, Readable, family.Excludes;
      Alone(temp, Rename(t));
      Then(found, WriteTemp(t, inode), [Rename(t)]);
      Then(locked, Read(t), [WriteTemp(t, inode)] + [Rename(t)]);
      Then(s, AcquireTrim(t, cutoff), [Read(t)] + ([WriteTemp(t, inode)] + [Rename(t)]));
      var steps: seq<Step<R>> := [AcquireTrim(t, cutoff), Read(t), WriteTemp(t, inode), Rename(t)];
      assert steps == [AcquireTrim(t, cutoff)] + ([Read(t)] + ([WriteTemp(t, inode)] + [Rename(t)]));
    }

    lemma Alone(s: State<R>, step: Step<R>)
      requires Enabled(s, step)
      ensures CanRun(s, [step]) && RunAll(s, [step]) == Do(s, step)
    {
      assert [step][1..] == [];
    }

    lemma Then(s: State<R>, step: Step<R>, rest: seq<Step<R>>)
      requires Enabled(s, step) && CanRun(Do(s, step), rest)
      ensures CanRun(s, [step] + rest) && RunAll(s, [step] + rest) == RunAll(Do(s, step), rest)
    {
      assert ([step] + rest)[1..] == rest;
    }

    /** The first three steps of it change nothing a reader sees. */
    lemma TrimBegins(s: State<R>, t: Tid, cutoff: nat, inode: Inode)
      requires family.codec.Sound() && Inv(s) && s.holder.None? && inode !in s.inodes
      requires exists r :: r in Readable(s) && family.Excludes(cutoff, r)
      ensures Enabled(s, AcquireTrim(t, cutoff))
      ensures var locked := Do(s, AcquireTrim(t, cutoff));
              && Enabled(locked, Read(t))
              && var found := Do(locked, Read(t));
              && Enabled(found, WriteTemp(t, inode))
              && var temp := Do(found, WriteTemp(t, inode));
              && Enabled(temp, Rename(t)) && Do(temp, Rename(t)).holder.None?
              && Readable(Do(temp, Rename(t))) == family.KeptRecords(cutoff, Readable(s))
    {
      NothingOld(cutoff, Visible(s));
      family.TrimReadsBack(cutoff, Visible(s));
      EmptyReads();
      hide Inv, family.Dropped, family.codec.ReadAll, family.Trimmed;
    }

    lemma EmptyReads()
      ensures family.codec.ReadAll([]) == []
    {
    }
  }
}
