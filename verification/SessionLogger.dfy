/** The logger's methods on the process-wide state: each one is the step of the
    audit trail it takes. */
module SessionLogger {
  import opened Jsonl
  import opened SessionEvents
  import opened Recovery
  import opened Trim
  import opened Trail

  class AuditProcess {
    var paths: map<Sid, Inode>
    var inodes: map<Inode, seq<Line>>
    var writers: map<Key, Writer>
    var seqs: map<Sid, nat>
    ghost var issued: map<Sid, Issue>

    ghost function Now(): State
      reads this
    {
      State(paths, inodes, writers, seqs, issued, map[])
    }

    /** A process starts with the files it finds and nothing in memory. */
    constructor (paths: map<Sid, Inode>, inodes: map<Inode, seq<Line>>)
      ensures Now() == State(paths, inodes, map[], map[], map[], map[])
    {
      this.paths, this.inodes := paths, inodes;
      writers, seqs, issued := map[], map[], map[];
    }

    /** The highest number on disk, or 0: one scan of the file. */
    method MaxSeqOnDisk(s: Sid) returns (m: nat)
      ensures m == MaxSeq(Disk(Now(), s))
    {
      m := 0;
      if s !in paths || paths[s] !in inodes {
        NoLinesNoEvents();
        return;
      }
      var ls := inodes[paths[s]];
      NoLinesNoEvents();
      for i := 0 to |ls|
        invariant m == MaxSeq(Events(ls[..i]))
      {
        hide MaxSeq, Events;
        OneMoreLine(ls, i);
        if ls[i].event.Some? {
          var e := ls[i].event.value;
          if e.num.Some? && e.num.value > m {
            m := e.num.value;
          }
        }
      }
      assert ls[..|ls|] == ls;
    }

    method NextSeq(s: Sid) returns (n: nat)
      modifies this`seqs
      ensures n == Counter(old(Now()), s) + 1 && seqs == old(seqs)[s := n]
    {
      if s !in seqs {
        var seed := MaxSeqOnDisk(s);
        seqs := seqs[s := seed];
      }
      n := seqs[s] + 1;
      seqs := seqs[s := n];
    }

    /** Write a writer's whole buffer through to its inode. */
    method FlushWriter(key: Key)
      requires key in writers && writers[key].inode in inodes
      modifies this`inodes, this`writers
      ensures Now() == Flushed(old(Now()), key, |old(writers)[key].buffer|)
    {
      var w := writers[key];
      assert w.buffer[..|w.buffer|] == w.buffer && w.buffer[|w.buffer|..] == [];
      inodes := inodes[w.inode := inodes[w.inode] + LoggedAll(w.buffer)];
      writers := writers[key := w.(buffer := [])];
    }

    /** At the cap, flush and drop whichever open writer the map yields first. */
    method MakeRoom(key: Key) returns (victim: Sid)
      requires Fits(Now())
      modifies this`inodes, this`writers
      ensures |OpenBy(old(Now()), key.0)| >= MAX_OPEN_WRITERS && key !in old(writers)
          ==> (key.0, victim) in old(writers)
      ensures Now() == Capped(old(Now()), key, victim)
    {
      victim := key.1;
      var open := set k | k in writers && k.0 == key.0;
      assert open == OpenBy(Now(), key.0);
      if |open| >= MAX_OPEN_WRITERS && key !in writers {
        var k :| k in open;
        victim := k.1;
        assert k == (key.0, victim);
        FlushWriter(k);
        writers := writers - {k};
      }
    }

    method OpenWriter(key: Key, inode: Inode)
      requires Fits(Now())
      modifies this`paths, this`inodes, this`writers
      ensures Now() == Opened(old(Now()), key, inode)
    {
      if key !in writers {
        if key.1 !in paths {
          paths, inodes := paths[key.1 := inode], inodes[inode := [HEADER]];
        }
        writers := writers[key := Writer(paths[key.1], [])];
      }
    }

    /** The first half of a call: take a number, under the counters' lock. */
    method TakeNumber(s: Sid, kind: Kind, body: Body) returns (e: Event)
      modifies this`seqs, this`issued
      ensures e == NextEvent(old(Now()), s, kind, body)
      ensures Now() == WithNumber(old(Now()), s, kind, body)
    {
      ghost var st := Now();
      var n := NextSeq(s);
      e := Event(Some(n), kind, body);
      issued := WithNumber(st, s, kind, body).issued;
    }

    /** The second half: room, a writer, the buffer and the boundary flush,
        under the instance's lock; `inode` is what the file system would create. */
    method Enter(key: Key, e: Event, inode: Inode) returns (victim: Sid)
      requires Fits(Now()) && Unique(Now()) && inode !in inodes && key.1 in seqs
      modifies this`paths, this`inodes, this`writers
      ensures CanEnter(old(Now()), key, victim, inode)
      ensures Now() == Entered(old(Now()), key, e, victim, inode)
    {
      hide SessionOk, Unique, Below;
      ghost var st := Now();
      victim := MakeRoom(key);
      ReadyKeeps(st, key, victim, inode);
      DropKeeps(st, (key.0, victim));
      OpenWriter(key, inode);
      assert Now() == Ready(st, key, victim, inode);
      hide Fits, OpenBy, Opened, Capped;
      writers := writers[key := writers[key].(buffer := writers[key].buffer + [e])];
      WritersHaveFiles(Now(), key);
      if !e.kind.Output? {
        FlushWriter(key);
      }
    }

    /** Log one event. */
    method Log(key: Key, kind: Kind, body: Body, inode: Inode) returns (victim: Sid)
      requires Inv(Now()) && inode !in inodes
      modifies this
      ensures Enabled(old(Now()), Step.Log(key, kind, body, victim, inode))
      ensures Now() == Do(old(Now()), Step.Log(key, kind, body, victim, inode))
      ensures Inv(Now())
    {
      ghost var st := Now();
      NumberedKeeps(st, key.1, kind, body);
      NumberedOpens(st, key, kind, body, key.0);
      var e := TakeNumber(key.1, kind, body);
      hide Fits, Unique, OpenBy, Entered, Counter;
      victim := Enter(key, e, inode);
      hide WithNumber, CallsOk, Counts;
      StepKeepsInv(st, Step.Log(key, kind, body, victim, inode));
    }

    /** Flush, drop and trim: the session's file is then the trim of its lines
        and what an attached logger still held. */
    method CloseSession(key: Key, inode: Inode)
      requires Inv(Now()) && inode !in inodes
      modifies this
      ensures Now() == Do(old(Now()), Close(key, true, inode)) && Inv(Now())
      ensures key !in old(writers) ==> Now() == old(Now())
      ensures key in old(writers) ==> FileLines(Now(), key.1) == TrimmedFile(old(LinesWith(Now(), key)))
      ensures key !in writers && OthersStay(old(Now()), Now(), key)
    {
      hide LinesWith, OthersStay, Kept;
      ghost var st := Now();
      CloseLeaves(st, key, true, inode);
      StepKeepsInv(st, Close(key, true, inode));
      if key !in writers {
        return;
      }
      FlushWriter(key);
      writers := writers - {key};
      ghost var st1 := Now();
      if key.1 in paths && paths[key.1] in inodes {
        var out, rewritten := TrimFile(inodes[paths[key.1]]);
        if rewritten {
          paths, inodes := paths[key.1 := inode], inodes[inode := out];
        }
      }
    }

    /** Recovery of one session. An attached logger that finds something open
        adds what it had buffered and then exactly the markers, and leaves the
        session settled; one that is not attached reports and adds nothing. */
    method RecoverSession(key: Key, inode: Inode) returns (affected: bool, ghost n: nat)
      requires Inv(Now()) && inode !in inodes
      modifies this
      ensures Inv(Now())
      ensures MaxSeq(old(Disk(Now(), key.1))) <= n
      ensures affected <==> !Settled(old(Disk(Now(), key.1)))
      ensures Disk(Now(), key.1) == old(Disk(Now(), key.1))
              + (if affected && old(Attached(Now(), key))
                 then old(Pending(Now(), key)) + Markers(old(Disk(Now(), key.1)), n) else [])
      ensures old(Attached(Now(), key)) ==> Settled(Disk(Now(), key.1))
    {
      hide Inv, Disk, MaxSeq, Attached, Pending, OpenCommand, OpenQuestion, MarkersFor, Counter, Seeded, Read;
      var es := ReadSession(key.1);
      n := SeedFromDisk(key);
      SettledByMarkers(Now(), key, n);
      var open := ScanCommand(Read(es));
      var question := ScanQuestion(Read(es));
      affected := open || question.Some?;
      if affected {
        OpenHasFile(Now(), key.1);
        WriteMarkers(key, open, question, inode);
      }
    }

    /** The markers of one pass, each logged in turn. */
    method WriteMarkers(key: Key, open: bool, question: Option<string>, inode: Inode)
      requires Inv(Now()) && inode !in inodes && key.1 in paths && (open || question.Some?)
      modifies this
      ensures Inv(Now())
      ensures Disk(Now(), key.1) == old(Disk(Now(), key.1))
              + (if old(Attached(Now(), key))
                 then old(Pending(Now(), key)) + MarkersFor(open, question, old(Counter(Now(), key.1))) else [])
    {
      hide Inv, Disk, Attached, Pending, Counter;
      ghost var before, waiting := Disk(Now(), key.1), Pending(Now(), key);
      if open {
        LogMarker(key, CommandEnd, inode);
        if question.Some? {
          ghost var n := old(Counter(Now(), key.1));
          LogMarker(key, Approval("abandoned", question.value), inode);
          TwoMarks(before, waiting, Interrupted(n + 1), Abandoned(n + 2, question.value));
        }
      } else {
        LogMarker(key, Approval("abandoned", question.value), inode);
      }
    }

    method ReadSession(s: Sid) returns (es: seq<Event>)
      ensures es == Disk(Now(), s)
    {
      es := Events(if s in paths && paths[s] in inodes then inodes[paths[s]] else []);
    }

    method SeedFromDisk(key: Key) returns (ghost n: nat)
      requires Inv(Now())
      modifies this`seqs, this`issued
      ensures Now() == Seeded(old(Now()), key.1) && Inv(Now())
      ensures n == Counter(Now(), key.1) && MaxSeq(Disk(Now(), key.1)) <= n
      ensures Disk(Now(), key.1) == old(Disk(Now(), key.1))
      ensures Attached(Now(), key) == old(Attached(Now(), key)) && Pending(Now(), key) == old(Pending(Now(), key))
    {
      hide Inv, Disk, MaxSeq, Attached, Pending;
      SeedOwn(Now(), key);
      StepKeepsInv(Now(), Seed(key.1));
      var m := MaxSeqOnDisk(key.1);
      if m > 0 && (key.1 !in seqs || seqs[key.1] < m) {
        seqs := seqs[key.1 := m];
        issued := issued[key.1 := Issue(m, [])];
      }
      n := Counter(Now(), key.1);
      CounterAhead(Now(), key.1);
    }

    /** Log one marker: on disk when the call returns, if the logger is attached. */
    method LogMarker(key: Key, kind: Kind, inode: Inode)
      requires Inv(Now()) && inode !in inodes && key.1 in paths && !kind.Output?
      modifies this
      ensures Inv(Now()) && inode !in inodes && key.1 in paths
      ensures Disk(Now(), key.1) == old(Disk(Now(), key.1))
              + (if old(Attached(Now(), key))
                 then old(Pending(Now(), key)) + [Event(Some(old(Counter(Now(), key.1)) + 1), kind, PLAIN)] else [])
      ensures Attached(Now(), key) == old(Attached(Now(), key)) && Pending(Now(), key) == []
      ensures Counter(Now(), key.1) == old(Counter(Now(), key.1)) + 1
    {
      hide Inv, Attached, Pending, Do, Enabled, Disk, Capped;
      ghost var st := Now();
      var victim := Log(key, kind, PLAIN, inode);
      LogReachesDisk(st, key, kind, PLAIN, victim, inode);
      LogFrame(st, key, kind, PLAIN, victim, inode);
    }
  }

  lemma TwoMarks(before: seq<Event>, waiting: seq<Event>, a: Event, b: Event)
    ensures before + (waiting + [a]) + [b] == before + (waiting + ([a] + [b]))
    ensures before + (waiting + [a]) + ([] + [b]) == before + (waiting + ([a] + [b]))
  {
  }

  /** A session with something open has a file. */
  lemma OpenHasFile(st: State, s: Sid)
    requires !Settled(Disk(st, s))
    ensures s in st.paths
  {
    if s !in st.paths {
      NoLinesNoEvents();
      NothingOpenInNone();
    }
  }

  lemma NothingOpenInNone()
    ensures Settled([]) && Quiet([])
  {
  }

  lemma OneMoreLine(ls: seq<Line>, i: nat)
    requires i < |ls|
    ensures var m, e := MaxSeq(Events(ls[..i])), ls[i].event;
            MaxSeq(Events(ls[..i + 1]))
              == if e.Some? && e.value.num.Some? && e.value.num.value > m then e.value.num.value else m
  {
    var before := Events(ls[..i]);
    assert ls[..i + 1][..i] == ls[..i];
    if ls[i].event.Some? {
      MaxOfSnoc(before, ls[i].event.value);
    } else {
      assert Events(ls[..i + 1]) == before;
    }
  }

  lemma MaxOfSnoc(es: seq<Event>, e: Event)
    ensures MaxSeq(es + [e]) == if e.num.Some? && e.num.value > MaxSeq(es) then e.num.value else MaxSeq(es)
  {
    assert (es + [e])[..|es|] == es;
  }

  lemma WritersHaveFiles(st: State, key: Key)
    ensures Fits(st) && key in st.writers ==> st.writers[key].inode in st.inodes
  {
  }

  lemma SeedOwn(st: State, key: Key)
    ensures var st' := Seeded(st, key.1);
            && Disk(st', key.1) == Disk(st, key.1)
            && Attached(st', key) == Attached(st, key) && Pending(st', key) == Pending(st, key)
  {
    hide Events, MaxSeq;
  }

  lemma CounterAhead(st: State, s: Sid)
    requires Inv(st)
    ensures MaxSeq(Disk(st, s)) <= Counter(st, s)
  {
    assert SessionOk(st, s);
  }

  /** The markers settle the file, with whatever output the logger had waiting
      before them. */
  lemma SettledByMarkers(st: State, key: Key, n: nat)
    requires Inv(st) && Counter(st, key.1) <= n
    ensures var es := Disk(st, key.1);
            && Settled(es + (Pending(st, key) + Markers(es, n)))
            && (Markers(es, n) == [] <==> Settled(es))
  {
    hide OpenCommand, OpenQuestion, Read, MarkersFor, Disk, MaxSeq;
    var es, more := Disk(st, key.1), Pending(st, key);
    NumberedAndBelow(st, key);
    OthersLeaveOpen(es, more);
    AllNumberedSplit(es + more);
    PassSettles(es + more, n);
    SettledGetsNothing(es, n);
    Assoc(es, more, Markers(es, n));
    NothingOpenInNone();
  }

  lemma NumberedAndBelow(st: State, key: Key)
    requires Inv(st)
    ensures var all := Disk(st, key.1) + Pending(st, key);
            AllNumbered(all) && MaxSeq(all) <= Counter(st, key.1)
    ensures forall e | e in Pending(st, key) :: !Steers(e) && !Bears(e)
  {
    hide Events, DistinctNumbers, MaxSeq;
    assert SessionOk(st, key.1);
    assert key == (key.0, key.1);
    var all, n := Disk(st, key.1) + Pending(st, key), Counter(st, key.1);
    forall e | e in all
      ensures e.num.Some? && e.num.value <= n
    {
      assert e in Disk(st, key.1) || e in Pending(st, key);
    }
    MaxIsReached(all, n);
  }

  lemma MaxIsReached(es: seq<Event>, n: nat)
    requires forall e | e in es :: e.num.Some? && e.num.value <= n
    ensures MaxSeq(es) <= n
  {
    hide MaxSeq;
  }
}
