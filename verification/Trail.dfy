/** The session audit trail as a state machine: one process-wide `seq` counter
    per session, any number of logger instances with their own buffered
    writers, calls that overlap, flushes, evictions, trims, crashes and
    restarts. */
module Trail {
  import opened Jsonl
  import opened SessionEvents
  import opened Trim

  type Sid = string
  type Inst = nat
  type Inode = nat
  type Key = (Inst, Sid)

  const MAX_OPEN_WRITERS: nat := 64

  /** A buffered append handle; it keeps writing to the inode it opened. */
  datatype Writer = Writer(inode: Inode, buffer: seq<Event>)

  /** What one process has numbered in a session: the number it was seeded
      with, and the events in the order they were logged. */
  datatype Issue = Issue(seed: nat, events: seq<Event>)

  /** A call of `log` that has its number and waits for its instance's writers. */
  datatype Call = Call(key: Key, event: Event)

  datatype State = State(
    paths: map<Sid, Inode>,
    inodes: map<Inode, seq<Line>>,
    writers: map<Key, Writer>,
    seqs: map<Sid, nat>,
    issued: map<Sid, Issue>,
    calls: map<nat, Call>)

  /** `Log` is a call that nothing interrupts; `Take` and `Put` are the halves
      of one that other steps may come between. */
  datatype Step =
    | Log(key: Key, kind: Kind, body: Body, victim: Sid, inode: Inode)
    | Take(call: nat, key: Key, kind: Kind, body: Body)
    | Put(call: nat, victim: Sid, inode: Inode)
    | Flush(key: Key, k: nat)
    | Drop(key: Key)
    | Close(key: Key, trims: bool, inode: Inode)
    | Seed(sid: Sid)
    | Prune(sid: Sid)
    | Crash(torn: Option<Torn>)

  /** A flush that died in the middle of a line, and what it left of the line. */
  datatype Torn = Torn(key: Key, mentionsStart: bool, utf8: bool)

  const Init := State(map[], map[], map[], map[], map[], map[])

  // ---------------------------------------------------------------- reading the state

  /** The lines under the session's path. */
  function FileLines(st: State, s: Sid): seq<Line> {
    if s in st.paths && st.paths[s] in st.inodes then st.inodes[st.paths[s]] else []
  }

  /** The readable events on disk, in file order. */
  function Disk(st: State, s: Sid): seq<Event> {
    Events(FileLines(st, s))
  }

  function OpenBy(st: State, i: Inst): set<Key> {
    set k | k in st.writers && k.0 == i
  }

  function Counter(st: State, s: Sid): nat {
    if s in st.seqs then st.seqs[s] else MaxSeq(Disk(st, s))
  }

  // ---------------------------------------------------------------- steps

  function LoggedAll(es: seq<Event>): seq<Line> {
    seq(|es|, i requires 0 <= i < |es| => Logged(es[i]))
  }

  /** The first `k` buffered events of one writer reach its inode. */
  function Flushed(st: State, key: Key, k: nat): State {
    if key !in st.writers || st.writers[key].inode !in st.inodes || k > |st.writers[key].buffer| then st
    else
      var w := st.writers[key];
      st.(inodes := st.inodes[w.inode := st.inodes[w.inode] + LoggedAll(w.buffer[..k])],
          writers := st.writers[key := w.(buffer := w.buffer[k..])])
  }

  /** Flush a writer, then drop it. */
  function Dropped(st: State, key: Key): State {
    if key !in st.writers then st
    else
      var flushed := Flushed(st, key, |st.writers[key].buffer|);
      flushed.(writers := flushed.writers - {key})
  }

  function NextEvent(st: State, s: Sid, kind: Kind, body: Body): Event {
    Event(Some(Counter(st, s) + 1), kind, body)
  }

  /** Issue the next number, seeding the counter from the file on first use. */
  function WithNumber(st: State, s: Sid, kind: Kind, body: Body): State {
    var before := if s in st.issued then st.issued[s] else Issue(Counter(st, s), []);
    var e := NextEvent(st, s, kind, body);
    st.(seqs := st.seqs[s := Counter(st, s) + 1],
        issued := st.issued[s := before.(events := before.events + [e])])
  }

  /** Make room when the instance holds its cap of writers. */
  function Capped(st: State, key: Key, victim: Sid): State {
    if |OpenBy(st, key.0)| >= MAX_OPEN_WRITERS && key !in st.writers then Dropped(st, (key.0, victim)) else st
  }

  /** Open in append mode, starting a fresh file with its header. */
  function Opened(st: State, key: Key, inode: Inode): State {
    if key in st.writers then st
    else if key.1 in st.paths then
      st.(writers := st.writers[key := Writer(st.paths[key.1], [])])
    else
      st.(paths := st.paths[key.1 := inode], inodes := st.inodes[inode := [HEADER]],
          writers := st.writers[key := Writer(inode, [])])
  }

  function Buffered(st: State, key: Key, e: Event): State {
    if key !in st.writers then st
    else st.(writers := st.writers[key := st.writers[key].(buffer := st.writers[key].buffer + [e])])
  }

  /** Rewrite the file through a new inode, unless the trim would keep no line. */
  function Rewritten(st: State, s: Sid, inode: Inode): State {
    var ls := FileLines(st, s);
    if |ls| == 0 || |Whole(ls[1..])| == 0 then st
    else st.(paths := st.paths[s := inode], inodes := st.inodes[inode := TrimmedFile(ls)])
  }

  /** A boot seeds the counter from the file, and never moves it back. */
  function Seeded(st: State, s: Sid): State {
    var m := MaxSeq(Disk(st, s));
    if m == 0 || (s in st.seqs && m <= st.seqs[s]) then st
    else st.(seqs := st.seqs[s := m], issued := st.issued[s := Issue(m, [])])
  }

  /** Everything in memory is lost; a flush under way may leave part of a line. */
  function Crashed(st: State, torn: Option<Torn>): State {
    var left :=
      if torn.Some? && torn.value.key in st.writers && st.writers[torn.value.key].inode in st.inodes then
        var inode := st.writers[torn.value.key].inode;
        st.inodes[inode := st.inodes[inode] + [Line(None, torn.value.mentionsStart, torn.value.utf8)]]
      else st.inodes;
    State(st.paths, left, map[], map[], map[], map[])
  }

  /** The second half of a call: room, a writer, the buffer, and a flush for
      every kind but output. */
  function Entered(st: State, key: Key, e: Event, victim: Sid, inode: Inode): State {
    var st3 := Buffered(Opened(Capped(st, key, victim), key, inode), key, e);
    if e.kind.Output? || key !in st3.writers then st3 else Flushed(st3, key, |st3.writers[key].buffer|)
  }

  function Taken(st: State, call: nat, key: Key, kind: Kind, body: Body): State {
    var numbered := WithNumber(st, key.1, kind, body);
    numbered.(calls := numbered.calls[call := Call(key, NextEvent(st, key.1, kind, body))])
  }

  function Without(st: State, call: nat): State {
    st.(calls := st.calls - {call})
  }

  function Do(st: State, step: Step): State {
    match step
    case Log(key, kind, body, victim, inode) =>
      Entered(WithNumber(st, key.1, kind, body), key, NextEvent(st, key.1, kind, body), victim, inode)
    case Take(call, key, kind, body) => Taken(st, call, key, kind, body)
    case Put(call, victim, inode) =>
      if call !in st.calls then st
      else Entered(Without(st, call), st.calls[call].key, st.calls[call].event, victim, inode)
    case Flush(key, k) => Flushed(st, key, k)
    case Drop(key) => Dropped(st, key)
    case Close(key, trims, inode) =>
      var st1 := Dropped(st, key);
      if key in st.writers && trims then Rewritten(st1, key.1, inode) else st1
    case Seed(s) => Seeded(st, s)
    case Prune(s) => st.(paths := st.paths - {s})
    case Crash(torn) => Crashed(st, torn)
  }

  /** A fresh inode is fresh, and an eviction picks one of the open writers. */
  predicate CanEnter(st: State, key: Key, victim: Sid, inode: Inode) {
    && inode !in st.inodes
    && (|OpenBy(st, key.0)| >= MAX_OPEN_WRITERS && key !in st.writers ==> (key.0, victim) in st.writers)
  }

  predicate Enabled(st: State, step: Step) {
    match step
    case Log(key, _, _, victim, inode) => CanEnter(st, key, victim, inode)
    case Take(call, _, _, _) => call !in st.calls
    case Put(call, victim, inode) => call in st.calls && CanEnter(st, st.calls[call].key, victim, inode)
    case Close(_, _, inode) => inode !in st.inodes
    case _ => true
  }

  predicate CanRun(st: State, steps: seq<Step>)
    decreases |steps|
  {
    |steps| == 0 || (Enabled(st, steps[0]) && CanRun(Do(st, steps[0]), steps[1..]))
  }

  function Run(st: State, steps: seq<Step>): State
    decreases |steps|
  {
    if |steps| == 0 then st else Run(Do(st, steps[0]), steps[1..])
  }

  // ---------------------------------------------------------------- the invariant

  ghost predicate Fits(st: State) {
    && (forall s | s in st.paths :: st.paths[s] in st.inodes)
    && (forall s, t | s in st.paths && t in st.paths && s != t :: st.paths[s] != st.paths[t])
    && (forall k | k in st.writers :: st.writers[k].inode in st.inodes)
    && (forall k, s | k in st.writers && s in st.paths && st.writers[k].inode == st.paths[s] :: k.1 == s)
  }

  predicate Disjoint(a: seq<Event>, b: seq<Event>) {
    forall x, y | x in a && y in b :: x.num != y.num
  }

  predicate UpTo(es: seq<Event>, n: nat) {
    forall e | e in es :: e.num.Some? && e.num.value <= n
  }

  /** No number of a session is used twice, on disk or in any buffer, and the
      counter is not behind any of them. */
  ghost predicate SessionOk(st: State, s: Sid) {
    && AllNumbered(Disk(st, s)) && DistinctNumbers(Disk(st, s))
    && (s in st.seqs ==> UpTo(Disk(st, s), st.seqs[s]))
    && (forall i | (i, s) in st.writers ::
          && s in st.seqs && UpTo(st.writers[(i, s)].buffer, st.seqs[s])
          && DistinctNumbers(st.writers[(i, s)].buffer)
          && Disjoint(st.writers[(i, s)].buffer, Disk(st, s)))
    && (forall i, j | (i, s) in st.writers && (j, s) in st.writers && i != j ::
          Disjoint(st.writers[(i, s)].buffer, st.writers[(j, s)].buffer))
  }

  ghost predicate Unique(st: State) {
    forall s :: SessionOk(st, s)
  }

  predicate Contiguous(i: Issue) {
    forall j | 0 <= j < |i.events| :: i.events[j].num == Some(i.seed + 1 + j)
  }

  /** One process numbers a session without a gap. */
  ghost predicate Counts(st: State) {
    && st.issued.Keys == st.seqs.Keys
    && (forall s | s in st.seqs ::
          st.seqs[s] == st.issued[s].seed + |st.issued[s].events| && Contiguous(st.issued[s]))
  }

  // ---------------------------------------------------------------- each step keeps it

  /** Nothing of the session differs between two states. */
  ghost predicate SameSession(st: State, st': State, s: Sid) {
    && Disk(st', s) == Disk(st, s)
    && (s in st'.seqs <==> s in st.seqs) && (s in st.seqs ==> st'.seqs[s] == st.seqs[s])
    && (forall i :: (i, s) in st'.writers <==> (i, s) in st.writers)
    && (forall i | (i, s) in st.writers :: st'.writers[(i, s)].buffer == st.writers[(i, s)].buffer)
  }

  lemma SameSessionOk(st: State, st': State, s: Sid)
    requires SameSession(st, st', s) && SessionOk(st, s)
    ensures SessionOk(st', s)
  {
    hide Disk, AllNumbered, DistinctNumbers, UpTo, Increasing, Disjoint;
  }

  lemma {:induction false} EventsOfLogged(es: seq<Event>)
    ensures Events(LoggedAll(es)) == es
    decreases |es|
  {
    if |es| > 0 {
      var n := |es| - 1;
      assert LoggedAll(es)[..n] == LoggedAll(es[..n]);
      EventsOfLogged(es[..n]);
      assert es == es[..n] + [es[n]];
    }
  }

  /** What a flush adds to the session's file: nothing when the writer's inode
      is no longer the one under the path. */
  lemma FlushDisk(st: State, key: Key, k: nat, s: Sid)
    requires Fits(st) && key in st.writers && k <= |st.writers[key].buffer|
    ensures Disk(Flushed(st, key, k), s) == Disk(st, s)
         || (s == key.1 && Disk(Flushed(st, key, k), s) == Disk(st, s) + st.writers[key].buffer[..k])
  {
    var w := st.writers[key];
    if s in st.paths && st.paths[s] == w.inode {
      EventsConcat(st.inodes[w.inode], LoggedAll(w.buffer[..k]));
      EventsOfLogged(w.buffer[..k]);
    }
  }

  lemma FlushFits(st: State, key: Key, k: nat)
    requires Fits(st)
    ensures Fits(Flushed(st, key, k))
  {
  }

  lemma DisjointParts(b: seq<Event>, d: seq<Event>, k: nat)
    requires DistinctNumbers(b) && AllNumbered(b) && Disjoint(b, d) && AllNumbered(d) && DistinctNumbers(d) && k <= |b|
    ensures AllNumbered(d + b[..k]) && DistinctNumbers(d + b[..k])
    ensures Disjoint(b[k..], d + b[..k]) && DistinctNumbers(b[k..])
  {
    forall e | e in d + b[..k]
      ensures e in d || e in b
    {
    }
    var r := d + b[..k];
    forall i, j | 0 <= i < j < |r|
      ensures r[i].num != r[j].num
    {
      if i < |d| <= j {
        assert r[i] in d && b[j - |d|] in b;
      }
    }
    forall x, y | x in b[k..] && y in r
      ensures x.num != y.num
    {
      var i :| 0 <= i < |b| - k && b[k..][i] == x;
      if y in b[..k] {
        var j :| 0 <= j < k && b[j] == y;
      } else {
        assert x in b && y in d;
      }
    }
  }

  lemma UpToParts(b: seq<Event>, d: seq<Event>, k: nat, n: nat)
    requires UpTo(b, n) && UpTo(d, n) && k <= |b|
    ensures UpTo(b[k..], n) && UpTo(d + b[..k], n) && AllNumbered(b)
  {
    forall e | e in d + b[..k]
      ensures e in d || e in b
    {
    }
    forall e | e in b[k..]
      ensures e in b
    {
    }
  }

  lemma FlushKeeps(st: State, key: Key, k: nat)
    requires Fits(st) && Unique(st) && key in st.writers && k <= |st.writers[key].buffer|
    ensures Unique(Flushed(st, key, k))
  {
    var st' := Flushed(st, key, k);
    forall s
      ensures SessionOk(st', s)
    {
      FlushDisk(st, key, k, s);
      if s == key.1 {
        FlushOwnSession(st, key, k);
      } else {
        assert forall i :: (i, s) != key;
        SameSessionOk(st, st', s);
      }
    }
  }

  lemma FlushOwnSession(st: State, key: Key, k: nat)
    requires Fits(st) && SessionOk(st, key.1) && key in st.writers && k <= |st.writers[key].buffer|
    ensures SessionOk(Flushed(st, key, k), key.1)
  {
    hide AllNumbered, DistinctNumbers, Events;
    var s, b := key.1, st.writers[key].buffer;
    assert key == (key.0, s);
    var d := Disk(st, s);
    FlushDisk(st, key, k, s);
    UpToParts(b, d, k, st.seqs[s]);
    DisjointParts(b, d, k);
    assert forall e | e in b[k..] :: e in b;
    assert forall e | e in b[..k] :: e in b;
    assert forall e | e in d + b[..k] :: e in d || e in b[..k];
  }

  lemma DropKeeps(st: State, key: Key)
    requires Fits(st) && Unique(st)
    ensures Fits(Dropped(st, key)) && Unique(Dropped(st, key))
    ensures Dropped(st, key).inodes.Keys == st.inodes.Keys && Dropped(st, key).paths == st.paths
    ensures Dropped(st, key).writers.Keys == st.writers.Keys - {key}
    ensures forall s | s != key.1 :: SameSession(st, Dropped(st, key), s)
  {
    hide Fits, Unique, SameSession, Flushed;
    DropFrame(st, key);
    if key in st.writers {
      var k := |st.writers[key].buffer|;
      FlushKeeps(st, key, k);
      FlushFits(st, key, k);
      RemoveWriter(Flushed(st, key, k), key);
    }
    forall s | s != key.1
      ensures SameSession(st, Dropped(st, key), s)
    {
      DropElsewhere(st, key, s);
    }
  }

  lemma RemoveWriter(st: State, key: Key)
    requires Fits(st) && Unique(st)
    ensures var st' := st.(writers := st.writers - {key}); Fits(st') && Unique(st')
  {
    var st' := st.(writers := st.writers - {key});
    hide AllNumbered, DistinctNumbers, Events, UpTo, Disjoint;
    forall s
      ensures SessionOk(st', s)
    {
      assert SessionOk(st, s);
      assert FileLines(st', s) == FileLines(st, s);
    }
  }

  lemma DropFrame(st: State, key: Key)
    ensures var st' := Dropped(st, key);
            && st'.inodes.Keys == st.inodes.Keys && st'.paths == st.paths && SameCounters(st, st')
            && st'.writers.Keys == st.writers.Keys - {key}
  {
    hide LoggedAll;
    assert key !in st.writers ==> st.writers.Keys - {key} == st.writers.Keys;
  }

  lemma DropElsewhere(st: State, key: Key, s: Sid)
    requires Fits(st) && s != key.1
    ensures SameSession(st, Dropped(st, key), s)
  {
    hide Events, Fits;
    DropFrame(st, key);
    DropPaths(st, key);
    if key in st.writers {
      FlushDisk(st, key, |st.writers[key].buffer|, s);
    }
  }

  /** Every number of the session, on disk or buffered, is below `n`. */
  ghost predicate Below(st: State, s: Sid, n: nat) {
    && (forall e | e in Disk(st, s) :: e.num.Some? && e.num.value < n)
    && (forall i | (i, s) in st.writers :: forall e | e in st.writers[(i, s)].buffer :: e.num.Some? && e.num.value < n)
  }

  lemma NumberedKeeps(st: State, s: Sid, kind: Kind, body: Body)
    requires Fits(st) && Unique(st)
    ensures Fits(WithNumber(st, s, kind, body)) && Unique(WithNumber(st, s, kind, body))
    ensures Below(WithNumber(st, s, kind, body), s, Counter(st, s) + 1)
  {
    hide Events, DistinctNumbers, Increasing;
    var st' := WithNumber(st, s, kind, body);
    assert forall t :: Disk(st', t) == Disk(st, t);
    assert SessionOk(st, s);
    forall t
      ensures SessionOk(st', t)
    {
      assert SessionOk(st, t);
      if t != s {
        SameSessionOk(st, st', t);
      }
    }
  }

  lemma OpenFits(st: State, key: Key, inode: Inode)
    requires Fits(st) && inode !in st.inodes
    ensures Fits(Opened(st, key, inode))
    ensures key in Opened(st, key, inode).writers
  {
    hide Fits;
    if key !in st.writers {
      if key.1 in st.paths {
        WriterFits(st, key);
      } else {
        FreshFits(st, key, inode);
      }
    }
  }

  lemma WriterFits(st: State, key: Key)
    requires Fits(st) && key.1 in st.paths
    ensures Fits(st.(writers := st.writers[key := Writer(st.paths[key.1], [])]))
  {
  }

  lemma FreshFits(st: State, key: Key, inode: Inode)
    requires Fits(st) && key.1 !in st.paths && inode !in st.inodes
    ensures Fits(st.(paths := st.paths[key.1 := inode], inodes := st.inodes[inode := [HEADER]],
                     writers := st.writers[key := Writer(inode, [])]))
  {
  }

  lemma OpenDisk(st: State, key: Key, inode: Inode, s: Sid)
    requires Fits(st) && inode !in st.inodes
    ensures Disk(Opened(st, key, inode), s) == Disk(st, s)
  {
    hide Events;
    HeaderHasNoEvents();
    OpenLinesOf(st, key, inode, s);
    hide FileLines, Opened;
    NoLinesNoEvents();
  }

  lemma OpenLinesOf(st: State, key: Key, inode: Inode, s: Sid)
    requires Fits(st) && inode !in st.inodes
    ensures var st' := Opened(st, key, inode);
            FileLines(st', s) == FileLines(st, s) || (FileLines(st', s) == [HEADER] && FileLines(st, s) == [])
  {
  }

  lemma NothingTwice()
    ensures DistinctNumbers([])
  {
  }

  lemma NoLinesNoEvents()
    ensures Events([]) == []
  {
  }

  /** Opening a writer adds at most an empty buffer. */
  lemma OpenSession(st: State, key: Key, inode: Inode, s: Sid)
    requires Fits(st) && SessionOk(st, s) && inode !in st.inodes && key.1 in st.seqs
    ensures SessionOk(Opened(st, key, inode), s)
  {
    hide Fits, SessionOk, Disk;
    OpenDisk(st, key, inode, s);
    OpenedFrame(st, key, inode);
    OneMoreWriter(st, Opened(st, key, inode), s);
  }

  /** A writer with nothing in its buffer changes nothing of the session. */
  lemma OneMoreWriter(st: State, st': State, s: Sid)
    requires SessionOk(st, s) && Disk(st', s) == Disk(st, s) && st'.seqs == st.seqs
    requires forall i | (i, s) in st'.writers ::
      if (i, s) in st.writers then st'.writers[(i, s)] == st.writers[(i, s)]
      else s in st.seqs && st'.writers[(i, s)].buffer == []
    ensures SessionOk(st', s)
  {
    NothingTwice();
    hide AllNumbered, DistinctNumbers, Disk;
  }

  /** No event of the session, on disk or buffered, has this number. */
  ghost predicate Unused(st: State, s: Sid, n: Option<nat>) {
    && (forall e | e in Disk(st, s) :: e.num != n)
    && (forall i | (i, s) in st.writers :: forall e | e in st.writers[(i, s)].buffer :: e.num != n)
  }

  lemma BelowIsUnused(st: State, s: Sid, n: nat)
    requires Below(st, s, n)
    ensures Unused(st, s, Some(n))
  {
    forall e | e in Disk(st, s)
      ensures e.num != Some(n)
    {
    }
    forall i, e | (i, s) in st.writers && e in st.writers[(i, s)].buffer
      ensures e.num != Some(n)
    {
    }
  }

  lemma BufferSession(st: State, key: Key, e: Event)
    requires SessionOk(st, key.1) && key in st.writers
    requires e.num.Some? && Unused(st, key.1, e.num) && key.1 in st.seqs && e.num.value <= st.seqs[key.1]
    ensures SessionOk(Buffered(st, key, e), key.1)
  {
    hide AllNumbered, DistinctNumbers, Disk;
    var s := key.1;
    var st' := Buffered(st, key, e);
    BufferDisk(st, key, e, s);
    assert key == (key.0, s);
    DistinctSnoc(st.writers[key].buffer, e);
    assert forall x | x in st'.writers[key].buffer :: x in st.writers[key].buffer || x == e;
  }

  lemma DistinctSnoc(es: seq<Event>, e: Event)
    requires DistinctNumbers(es) && forall x | x in es :: x.num != e.num
    ensures DistinctNumbers(es + [e])
  {
    assert forall i | 0 <= i < |es| :: es[i] in es;
  }

  lemma BufferDisk(st: State, key: Key, e: Event, s: Sid)
    ensures Disk(Buffered(st, key, e), s) == Disk(st, s)
  {
  }

  lemma BufferKeeps(st: State, key: Key, e: Event)
    requires Fits(st) && Unique(st) && key in st.writers
    requires e.num.Some? && Unused(st, key.1, e.num) && key.1 in st.seqs && e.num.value <= st.seqs[key.1]
    ensures Fits(Buffered(st, key, e)) && Unique(Buffered(st, key, e))
  {
    hide AllNumbered, DistinctNumbers, Disk, UpTo, Disjoint, Increasing;
    var st' := Buffered(st, key, e);
    forall s
      ensures SessionOk(st', s)
    {
      BufferDisk(st, key, e, s);
      if s == key.1 {
        BufferSession(st, key, e);
      } else {
        SameSessionOk(st, st', s);
      }
    }
  }

  /** The state just before an event enters its buffer. */
  function Ready(st: State, key: Key, victim: Sid, inode: Inode): State {
    Opened(Capped(st, key, victim), key, inode)
  }

  lemma FlushUnused(st: State, key: Key, k: nat, s: Sid, n: Option<nat>)
    requires Fits(st) && Unused(st, s, n)
    ensures Unused(Flushed(st, key, k), s, n)
  {
    hide Disk;
    if key in st.writers && k <= |st.writers[key].buffer| {
      FlushDisk(st, key, k, s);
      var b := st.writers[key].buffer;
      assert key == (key.0, key.1);
      assert forall e | e in b[k..] :: e in b;
      assert forall e | e in b[..k] :: e in b;
    }
  }

  lemma DropUnused(st: State, key: Key, s: Sid, n: Option<nat>)
    requires Fits(st) && Unused(st, s, n)
    ensures Unused(Dropped(st, key), s, n)
  {
    if key in st.writers {
      var k := |st.writers[key].buffer|;
      FlushUnused(st, key, k, s, n);
      hide Flushed, Events;
      assert Disk(Dropped(st, key), s) == Disk(Flushed(st, key, k), s);
    }
  }

  lemma OpenUnused(st: State, key: Key, inode: Inode, s: Sid, n: Option<nat>)
    requires Fits(st) && inode !in st.inodes && Unused(st, s, n)
    ensures Unused(Opened(st, key, inode), s, n)
  {
    hide Disk;
    OpenDisk(st, key, inode, s);
    var st' := Opened(st, key, inode);
    assert forall i | (i, s) in st'.writers ::
      || ((i, s) in st.writers && st'.writers[(i, s)] == st.writers[(i, s)])
      || ((i, s) == key && st'.writers[(i, s)].buffer == []);
  }

  lemma ReadyKeeps(st: State, key: Key, victim: Sid, inode: Inode)
    requires Fits(st) && Unique(st) && CanEnter(st, key, victim, inode) && key.1 in st.seqs
    ensures var r := Ready(st, key, victim, inode);
            && Fits(r) && Unique(r) && key in r.writers && r.seqs == st.seqs
  {
    hide Disk, SessionOk;
    var st2 := Capped(st, key, victim);
    DropKeeps(st, (key.0, victim));
    CappedFrame(st, key, victim);
    OpenedFrame(st2, key, inode);
    OpenFits(st2, key, inode);
    forall s
      ensures SessionOk(Opened(st2, key, inode), s)
    {
      OpenSession(st2, key, inode, s);
    }
  }

  lemma ReadyUnused(st: State, key: Key, victim: Sid, inode: Inode, s: Sid, n: Option<nat>)
    requires Fits(st) && Unique(st) && CanEnter(st, key, victim, inode) && Unused(st, s, n)
    ensures Unused(Ready(st, key, victim, inode), s, n)
  {
    hide Unused, Unique, Fits, Dropped, OpenBy;
    DropKeeps(st, (key.0, victim));
    DropUnused(st, (key.0, victim), s, n);
    hide Opened;
    OpenUnused(Capped(st, key, victim), key, inode, s, n);
  }

  lemma EnteredKeeps(st: State, key: Key, e: Event, victim: Sid, inode: Inode)
    requires Fits(st) && Unique(st) && CanEnter(st, key, victim, inode) && key.1 in st.seqs
    requires e.num.Some? && Unused(st, key.1, e.num) && e.num.value <= st.seqs[key.1]
    ensures var st' := Entered(st, key, e, victim, inode); Fits(st') && Unique(st')
  {
    hide Fits, Unique, CanEnter, Capped, Opened, Unused;
    ReadyKeeps(st, key, victim, inode);
    ReadyUnused(st, key, victim, inode, key.1, e.num);
    var r := Ready(st, key, victim, inode);
    BufferKeeps(r, key, e);
    var b := Buffered(r, key, e);
    if !e.kind.Output? {
      FlushKeeps(b, key, |b.writers[key].buffer|);
      FlushFits(b, key, |b.writers[key].buffer|);
    }
  }

  /** Every other number stays as unused as it was. */
  lemma EnteredUnused(st: State, key: Key, e: Event, victim: Sid, inode: Inode, s: Sid, n: Option<nat>)
    requires Fits(st) && Unique(st) && CanEnter(st, key, victim, inode) && key.1 in st.seqs
    requires Unused(st, s, n) && (s == key.1 ==> n != e.num)
    ensures Unused(Entered(st, key, e, victim, inode), s, n)
  {
    hide Fits, Unique, CanEnter, Capped, Opened, Unused, Flushed;
    ReadyKeeps(st, key, victim, inode);
    ReadyUnused(st, key, victim, inode, s, n);
    var r := Ready(st, key, victim, inode);
    BufferUnused(r, key, e, s, n);
    var b := Buffered(r, key, e);
    if !e.kind.Output? && key in b.writers {
      FlushUnused(b, key, |b.writers[key].buffer|, s, n);
    }
  }

  lemma BufferUnused(st: State, key: Key, e: Event, s: Sid, n: Option<nat>)
    requires Fits(st) && Unused(st, s, n) && (s == key.1 ==> n != e.num)
    ensures Fits(Buffered(st, key, e)) && Unused(Buffered(st, key, e), s, n)
  {
    BufferFits(st, key, e);
    hide Disk, Fits;
    BufferDisk(st, key, e, s);
    var st' := Buffered(st, key, e);
    assert key == (key.0, key.1);
    assert forall i | (i, s) in st'.writers && (i, s) != key :: st'.writers[(i, s)] == st.writers[(i, s)];
  }

  lemma BufferFits(st: State, key: Key, e: Event)
    requires Fits(st)
    ensures Fits(Buffered(st, key, e))
  {
  }

  lemma LogKeeps(st: State, key: Key, kind: Kind, body: Body, victim: Sid, inode: Inode)
    requires Fits(st) && Unique(st) && Enabled(st, Log(key, kind, body, victim, inode))
    ensures var st' := Do(st, Log(key, kind, body, victim, inode)); Fits(st') && Unique(st')
  {
    NumberedKeeps(st, key.1, kind, body);
    NumberedOpens(st, key, kind, body, key.0);
    var st1 := WithNumber(st, key.1, kind, body);
    BelowIsUnused(st1, key.1, Counter(st, key.1) + 1);
    hide Fits, Unique, OpenBy, Entered, Below, Unused;
    EnteredKeeps(st1, key, NextEvent(st, key.1, kind, body), victim, inode);
  }

  // ---------------------------------------------------------------- calls under way

  /** A number taken and not yet written is unused, not ahead of the counter,
      and no other call's. */
  ghost predicate CallOk(st: State, c: Call) {
    && c.event.num.Some? && c.key.1 in st.seqs && c.event.num.value <= st.seqs[c.key.1]
    && Unused(st, c.key.1, c.event.num)
  }

  ghost predicate CallsOk(st: State) {
    && (forall t | t in st.calls :: CallOk(st, st.calls[t]))
    && (forall t, u | t in st.calls && u in st.calls && t != u && st.calls[t].key.1 == st.calls[u].key.1 ::
          st.calls[t].event.num != st.calls[u].event.num)
  }

  lemma SameCalls(st: State, st': State)
    requires CallsOk(st) && st'.calls == st.calls
    requires forall s | s in st.seqs :: s in st'.seqs && st.seqs[s] <= st'.seqs[s]
    requires forall t | t in st.calls ::
      Unused(st, st.calls[t].key.1, st.calls[t].event.num) ==> Unused(st', st.calls[t].key.1, st.calls[t].event.num)
    ensures CallsOk(st')
  {
    hide Unused;
  }

  lemma EnteredCalls(st: State, key: Key, e: Event, victim: Sid, inode: Inode)
    requires Fits(st) && Unique(st) && CanEnter(st, key, victim, inode) && key.1 in st.seqs && CallsOk(st)
    requires forall t | t in st.calls && st.calls[t].key.1 == key.1 :: st.calls[t].event.num != e.num
    ensures CallsOk(Entered(st, key, e, victim, inode))
  {
    hide Fits, Unique, CanEnter, Unused, Entered;
    EnteredFrame(st, key, e, victim, inode);
    forall t | t in st.calls
      ensures Unused(Entered(st, key, e, victim, inode), st.calls[t].key.1, st.calls[t].event.num)
    {
      assert CallOk(st, st.calls[t]);
      EnteredUnused(st, key, e, victim, inode, st.calls[t].key.1, st.calls[t].event.num);
    }
    SameCalls(st, Entered(st, key, e, victim, inode));
  }

  lemma NumberedCalls(st: State, s: Sid, kind: Kind, body: Body)
    requires CallsOk(st)
    ensures var st' := WithNumber(st, s, kind, body);
            CallsOk(st') && forall t | t in st.calls && st.calls[t].key.1 == s ::
              st.calls[t].event.num != Some(Counter(st, s) + 1)
  {
    hide Events;
    var st' := WithNumber(st, s, kind, body);
    assert forall r :: Disk(st', r) == Disk(st, r);
    assert forall t | t in st.calls :: CallOk(st, st.calls[t]);
    SameCalls(st, st');
  }

  lemma LogCalls(st: State, key: Key, kind: Kind, body: Body, victim: Sid, inode: Inode)
    requires Fits(st) && Unique(st) && CallsOk(st) && Enabled(st, Log(key, kind, body, victim, inode))
    ensures CallsOk(Do(st, Log(key, kind, body, victim, inode)))
  {
    NumberedKeeps(st, key.1, kind, body);
    NumberedCalls(st, key.1, kind, body);
    NumberedOpens(st, key, kind, body, key.0);
    hide Fits, Unique, OpenBy, Entered, CallsOk, Below;
    EnteredCalls(WithNumber(st, key.1, kind, body), key, NextEvent(st, key.1, kind, body), victim, inode);
  }

  lemma TakeKeeps(st: State, call: nat, key: Key, kind: Kind, body: Body)
    requires Fits(st) && Unique(st) && CallsOk(st) && call !in st.calls
    ensures var st' := Taken(st, call, key, kind, body); Fits(st') && Unique(st') && CallsOk(st')
  {
    NumberedKeeps(st, key.1, kind, body);
    NumberedCalls(st, key.1, kind, body);
    var st1 := WithNumber(st, key.1, kind, body);
    BelowIsUnused(st1, key.1, Counter(st, key.1) + 1);
    AddCall(st1, call, Call(key, NextEvent(st, key.1, kind, body)));
  }

  lemma AddCall(st: State, call: nat, c: Call)
    requires Fits(st) && Unique(st) && CallsOk(st) && call !in st.calls && CallOk(st, c)
    requires forall t | t in st.calls && st.calls[t].key.1 == c.key.1 :: st.calls[t].event.num != c.event.num
    ensures var st' := st.(calls := st.calls[call := c]); Fits(st') && Unique(st') && CallsOk(st')
  {
    var st' := st.(calls := st.calls[call := c]);
    CallsAside(st, st');
    hide Unused, Fits, Unique;
    forall t | t in st'.calls
      ensures CallOk(st', st'.calls[t])
    {
      assert CallOk(st, st'.calls[t]);
    }
    hide CallOk;
    forall t, u | t in st'.calls && u in st'.calls && t != u && st'.calls[t].key.1 == st'.calls[u].key.1
      ensures st'.calls[t].event.num != st'.calls[u].event.num
    {
      assert t == call || st'.calls[t] == st.calls[t];
      assert u == call || st'.calls[u] == st.calls[u];
    }
  }

  lemma CallsAside(st: State, st': State)
    requires st' == st.(calls := st'.calls)
    ensures Fits(st) ==> Fits(st')
    ensures Unique(st) ==> Unique(st')
    ensures forall s, n :: Unused(st', s, n) <==> Unused(st, s, n)
    ensures forall i :: OpenBy(st', i) == OpenBy(st, i)
    ensures forall s :: Disk(st', s) == Disk(st, s)
  {
    hide Events, AllNumbered, DistinctNumbers, UpTo, Disjoint;
    assert forall s :: Disk(st', s) == Disk(st, s);
    if Unique(st) {
      forall s
        ensures SessionOk(st', s)
      {
        SameSessionOk(st, st', s);
      }
    }
  }

  lemma PutKeeps(st: State, call: nat, victim: Sid, inode: Inode)
    requires Fits(st) && Unique(st) && CallsOk(st) && Enabled(st, Put(call, victim, inode))
    ensures var st' := Do(st, Put(call, victim, inode)); Fits(st') && Unique(st') && CallsOk(st')
  {
    var c, st0 := st.calls[call], Without(st, call);
    assert CallOk(st, c);
    CallsAside(st, st0);
    SameButOne(st, call);
    hide Fits, Unique, Unused, OpenBy, Entered;
    EnteredKeeps(st0, c.key, c.event, victim, inode);
    EnteredCalls(st0, c.key, c.event, victim, inode);
  }

  lemma SameButOne(st: State, call: nat)
    requires CallsOk(st) && call in st.calls
    ensures CallsOk(Without(st, call))
    ensures forall t | t in Without(st, call).calls && st.calls[t].key.1 == st.calls[call].key.1 ::
              st.calls[t].event.num != st.calls[call].event.num
  {
    CallsAside(st, Without(st, call));
    hide Unused;
    forall t | t in Without(st, call).calls
      ensures CallOk(Without(st, call), st.calls[t])
    {
      assert CallOk(st, st.calls[t]);
    }
  }

  // ---------------------------------------------------------------- trims, seeds and crashes

  /** Some events of another list, none repeated that was not. */
  ghost predicate Thinner(a: seq<Event>, b: seq<Event>) {
    (forall e | e in a :: e in b) && (DistinctNumbers(b) ==> DistinctNumbers(a))
  }

  lemma DropMiddle(a: seq<Event>, m: seq<Event>, b: seq<Event>)
    ensures Thinner(a + b, a + m + b)
  {
    var r, all := a + b, a + m + b;
    if DistinctNumbers(all) {
      forall i, j | 0 <= i < j < |r|
        ensures r[i].num != r[j].num
      {
        var i' := if i < |a| then i else i + |m|;
        var j' := if j < |a| then j else j + |m|;
        assert r[i] == all[i'] && r[j] == all[j'];
      }
    }
  }

  lemma DropMiddleLines(a: seq<Line>, m: seq<Line>, b: seq<Line>)
    ensures Thinner(Events(a + b), Events(a + m + b))
  {
    hide Events, DistinctNumbers, Thinner;
    EventsConcat(a, b);
    EventsConcat(a, m);
    EventsConcat(a + m, b);
    DropMiddle(Events(a), Events(m), Events(b));
  }

  lemma ThinnerTwice(a: seq<Event>, b: seq<Event>, c: seq<Event>)
    requires Thinner(a, b) && Thinner(b, c)
    ensures Thinner(a, c)
  {
    hide DistinctNumbers;
  }

  /** The trim keeps some of the file's events. */
  lemma KeptIsThinner(h: Line, body: seq<Line>)
    ensures Thinner(Events([h] + Kept(body)), Events([h] + body))
  {
    hide Events, Thinner, Starts;
    var p := LastStart(body);
    if p < |body| && |body| - p > MAX_CLOSED_LOG_LINES + 1 {
      var k := |body| - MAX_CLOSED_LOG_LINES;
      ThreeParts(h, body, p, k);
      DropMiddleLines([h], body[..p], body[p..]);
      DropMiddleLines([h, body[p]], body[p + 1..k], body[k..]);
      ThinnerTwice(Events([h] + Kept(body)), Events([h] + body[p..]), Events([h] + body));
    } else {
      KeptIsSuffix(body);
      var k := |body| - |Kept(body)|;
      DropMiddleLines([h], body[..k], body[k..]);
      assert [h] + body[..k] + body[k..] == [h] + body;
    }
  }

  lemma TrimIsThinner(ls: seq<Line>)
    ensures Thinner(Events(TrimmedFile(ls)), Events(ls))
  {
    hide Events, Thinner, Kept, Whole;
    SameIsThinner(Events(ls));
    if |ls| > 0 {
      var h, w := ls[0], Whole(ls[1..]);
      var rest := ls[1..][|w|..];
      KeptIsThinner(h, w);
      DropMiddleLines([h] + w, rest, []);
      assert [h] + w + [] == [h] + w && [h] + w + rest + [] == ls;
      ThinnerTwice(Events([h] + Kept(w)), Events([h] + w), Events(ls));
      DropMiddleLines([], [h], Kept(w));
      assert [] + Kept(w) == Kept(w) && [] + [h] + Kept(w) == [h] + Kept(w);
      ThinnerTwice(Events(Kept(w)), Events([h] + Kept(w)), Events(ls));
    }
  }

  lemma SameIsThinner(es: seq<Event>)
    ensures Thinner(es, es)
  {
  }

  lemma ThreeParts(h: Line, body: seq<Line>, p: nat, k: nat)
    requires p < k <= |body|
    ensures [h] + body[..p] + body[p..] == [h] + body
    ensures [h, body[p]] + body[p + 1..k] + body[k..] == [h] + body[p..]
    ensures [h, body[p]] + body[k..] == [h] + ([body[p]] + body[k..])
  {
  }

  lemma RewriteDisk(st: State, s: Sid, inode: Inode, t: Sid)
    requires Fits(st) && inode !in st.inodes
    ensures Thinner(Disk(Rewritten(st, s, inode), t), Disk(st, t))
    ensures t != s ==> Disk(Rewritten(st, s, inode), t) == Disk(st, t)
  {
    hide Events, TrimmedFile, DistinctNumbers;
    var ls := FileLines(st, s);
    if |ls| > 0 && t == s {
      TrimIsThinner(ls);
    }
  }

  lemma ThinnerSession(st: State, st': State, s: Sid)
    requires SessionOk(st, s) && Thinner(Disk(st', s), Disk(st, s))
    requires st'.seqs == st.seqs && st'.writers == st.writers
    ensures SessionOk(st', s)
  {
    hide Disk, DistinctNumbers;
  }

  lemma RewriteKeeps(st: State, s: Sid, inode: Inode)
    requires Fits(st) && Unique(st) && inode !in st.inodes
    ensures Fits(Rewritten(st, s, inode)) && Unique(Rewritten(st, s, inode))
  {
    hide SessionOk, Kept, Events;
    forall t
      ensures SessionOk(Rewritten(st, s, inode), t)
    {
      RewriteDisk(st, s, inode, t);
      ThinnerSession(st, Rewritten(st, s, inode), t);
    }
  }

  lemma PruneKeeps(st: State, s: Sid)
    requires Fits(st) && Unique(st)
    ensures Fits(Do(st, Step.Prune(s))) && Unique(Do(st, Step.Prune(s)))
  {
    hide SessionOk;
    NoLinesNoEvents();
    var st' := Do(st, Step.Prune(s));
    forall t
      ensures SessionOk(st', t)
    {
      ThinnerSession(st, st', t);
    }
  }

  lemma SeedKeeps(st: State, s: Sid)
    requires Fits(st) && Unique(st)
    ensures Fits(Seeded(st, s)) && Unique(Seeded(st, s))
  {
    hide Events, DistinctNumbers, Increasing;
    var st' := Seeded(st, s);
    assert forall t :: Disk(st', t) == Disk(st, t);
    forall t
      ensures SessionOk(st', t)
    {
      assert SessionOk(st, t);
      if t != s {
        SameSessionOk(st, st', t);
      }
    }
  }

  /** The torn line of a crash is no event. */
  lemma CrashDisk(st: State, torn: Option<Torn>, s: Sid)
    ensures Disk(Crashed(st, torn), s) == Disk(st, s)
  {
    if torn.Some? && torn.value.key in st.writers {
      var w := st.writers[torn.value.key];
      var l := Line(None, torn.value.mentionsStart, torn.value.utf8);
      if s in st.paths && st.paths[s] == w.inode && w.inode in st.inodes {
        EventsConcat(st.inodes[w.inode], [l]);
        assert [l][..0] == [] && Events([l]) == [];
      }
    }
  }

  lemma CrashKeeps(st: State, torn: Option<Torn>)
    requires Fits(st) && Unique(st)
    ensures Fits(Crashed(st, torn)) && Unique(Crashed(st, torn))
  {
    hide Events, DistinctNumbers, Increasing, AllNumbered;
    var st' := Crashed(st, torn);
    forall s
      ensures SessionOk(st', s)
    {
      assert SessionOk(st, s);
      CrashDisk(st, torn, s);
    }
  }

  lemma StepKeepsUnique(st: State, step: Step)
    requires Fits(st) && Unique(st) && CallsOk(st) && Enabled(st, step)
    ensures Fits(Do(st, step)) && Unique(Do(st, step))
  {
    hide Fits, Unique, CallsOk, Entered, Taken;
    match step
    case Take(call, key, kind, body) => TakeKeeps(st, call, key, kind, body);
    case Put(call, victim, inode) => PutKeeps(st, call, victim, inode);
    case Log(key, kind, body, victim, inode) => LogKeeps(st, key, kind, body, victim, inode);
    case Flush(key, k) =>
      FlushFits(st, key, k);
      if key in st.writers && k <= |st.writers[key].buffer| {
        FlushKeeps(st, key, k);
      }
    case Drop(key) => DropKeeps(st, key);
    case Close(key, trims, inode) =>
      DropKeeps(st, key);
      RewriteKeeps(Dropped(st, key), key.1, inode);
    case Seed(s) => SeedKeeps(st, s);
    case Prune(s) => PruneKeeps(st, s);
    case Crash(torn) => CrashKeeps(st, torn);
  }

  lemma StepKeepsCalls(st: State, step: Step)
    requires Fits(st) && Unique(st) && CallsOk(st) && Enabled(st, step)
    ensures CallsOk(Do(st, step))
  {
    hide Fits, Unique, Entered, Taken, CallsOk;
    match step
    case Log(key, kind, body, victim, inode) => LogCalls(st, key, kind, body, victim, inode);
    case Take(call, key, kind, body) => TakeKeeps(st, call, key, kind, body);
    case Put(call, victim, inode) => PutKeeps(st, call, victim, inode);
    case Crash(torn) => NoCalls(Do(st, step));
    case Seed(s) => SeedCalls(st, s);
    case _ => MoveCalls(st, step);
  }

  lemma NoCalls(st: State)
    requires st.calls == map[]
    ensures CallsOk(st)
  {
  }

  lemma SeedCalls(st: State, s: Sid)
    requires CallsOk(st)
    ensures CallsOk(Seeded(st, s))
  {
    hide Events;
    var st' := Seeded(st, s);
    assert forall r :: Disk(st', r) == Disk(st, r);
    SameCalls(st, st');
  }

  /** Steps that move or discard events use no number that was unused. */
  lemma MoveCalls(st: State, step: Step)
    requires Fits(st) && Unique(st) && CallsOk(st) && Enabled(st, step)
    requires step.Flush? || step.Drop? || step.Close? || step.Prune?
    ensures CallsOk(Do(st, step))
  {
    MoveFrame(st, step);
    forall t | t in st.calls
      ensures Unused(Do(st, step), st.calls[t].key.1, st.calls[t].event.num)
    {
      assert CallOk(st, st.calls[t]);
      MoveUnused(st, step, st.calls[t].key.1, st.calls[t].event.num);
    }
    hide Unused, Do;
    SameCalls(st, Do(st, step));
  }

  lemma MoveFrame(st: State, step: Step)
    requires step.Flush? || step.Drop? || step.Close? || step.Prune?
    ensures Do(st, step).seqs == st.seqs && Do(st, step).calls == st.calls
  {
    hide Flushed, Dropped, TrimmedFile, Whole, FileLines;
    match step
    case Flush(key, k) => FlushedFrame(st, key, k);
    case Drop(key) => DropFrame(st, key);
    case Close(key, trims, inode) => DropFrame(st, key);
    case Prune(s) =>
  }

  lemma MoveUnused(st: State, step: Step, s: Sid, n: Option<nat>)
    requires Fits(st) && Unique(st) && Enabled(st, step) && Unused(st, s, n)
    requires step.Flush? || step.Drop? || step.Close? || step.Prune?
    ensures Unused(Do(st, step), s, n)
  {
    hide Unused, Fits, Unique;
    match step
    case Flush(key, k) => FlushUnused(st, key, k, s, n);
    case Drop(key) => DropUnused(st, key, s, n);
    case Close(key, trims, inode) =>
      DropKeeps(st, key);
      DropUnused(st, key, s, n);
      RewriteUnused(Dropped(st, key), key.1, inode, s, n);
    case Prune(t) => PruneUnused(st, t, s, n);
  }

  lemma RewriteUnused(st: State, t: Sid, inode: Inode, s: Sid, n: Option<nat>)
    requires Fits(st) && inode !in st.inodes && Unused(st, s, n)
    ensures Unused(Rewritten(st, t, inode), s, n)
  {
    RewriteDisk(st, t, inode, s);
    hide Disk, TrimmedFile, DistinctNumbers;
  }

  lemma PruneUnused(st: State, t: Sid, s: Sid, n: Option<nat>)
    requires Unused(st, s, n)
    ensures Unused(Do(st, Step.Prune(t)), s, n)
  {
    NoLinesNoEvents();
    var st' := Do(st, Step.Prune(t));
    assert s != t ==> FileLines(st', s) == FileLines(st, s);
    assert s == t ==> FileLines(st', s) == [];
    hide Events;
  }

  // ---------------------------------------------------------------- counting and the writer cap

  /** What entering an event does to the counters and to the set of open writers. */
  lemma EnteredFrame(st: State, key: Key, e: Event, victim: Sid, inode: Inode)
    ensures var st' := Entered(st, key, e, victim, inode);
            && SameCounters(st, st')
            && st'.writers.Keys == Capped(st, key, victim).writers.Keys + {key}
  {
    var st2 := Capped(st, key, victim);
    var st3 := Opened(st2, key, inode);
    var st4 := Buffered(st3, key, e);
    CappedFrame(st, key, victim);
    OpenedFrame(st2, key, inode);
    BufferedFrame(st3, key, e);
    hide Capped, Opened, Buffered;
    if key in st4.writers {
      FlushedFrame(st4, key, |st4.writers[key].buffer|);
      hide Flushed;
    }
  }

  lemma LogFrame(st: State, key: Key, kind: Kind, body: Body, victim: Sid, inode: Inode)
    ensures var st' := Do(st, Log(key, kind, body, victim, inode));
            var st1 := WithNumber(st, key.1, kind, body);
            && SameCounters(st1, st')
            && st'.writers.Keys == Capped(st1, key, victim).writers.Keys + {key}
  {
    hide WithNumber, Entered, NextEvent;
    EnteredFrame(WithNumber(st, key.1, kind, body), key, NextEvent(st, key.1, kind, body), victim, inode);
  }

  /** Same counters and calls. */
  ghost predicate SameCounters(st: State, st': State) {
    st'.seqs == st.seqs && st'.issued == st.issued && st'.calls == st.calls
  }

  lemma FlushedFrame(st: State, key: Key, k: nat)
    ensures SameCounters(st, Flushed(st, key, k)) && Flushed(st, key, k).writers.Keys == st.writers.Keys
  {
  }

  lemma CappedFrame(st: State, key: Key, victim: Sid)
    ensures SameCounters(st, Capped(st, key, victim))
  {
  }

  lemma OpenedFrame(st: State, key: Key, inode: Inode)
    ensures SameCounters(st, Opened(st, key, inode))
    ensures Opened(st, key, inode).writers.Keys == st.writers.Keys + {key}
  {
  }

  lemma BufferedFrame(st: State, key: Key, e: Event)
    ensures SameCounters(st, Buffered(st, key, e)) && Buffered(st, key, e).writers.Keys == st.writers.Keys
  {
  }

  lemma NumberedCounts(st: State, s: Sid, kind: Kind, body: Body)
    requires Counts(st)
    ensures Counts(WithNumber(st, s, kind, body))
  {
    hide Events;
  }

  lemma StepKeepsCounts(st: State, step: Step)
    requires Unique(st) && Counts(st)
    ensures Counts(Do(st, step))
  {
    hide Events, Unique, SessionOk, Entered;
    match step
    case Log(key, kind, body, victim, inode) =>
      LogFrame(st, key, kind, body, victim, inode);
      NumberedCounts(st, key.1, kind, body);
    case Take(call, key, kind, body) => NumberedCounts(st, key.1, kind, body);
    case Put(call, victim, inode) =>
      if call in st.calls {
        EnteredFrame(Without(st, call), st.calls[call].key, st.calls[call].event, victim, inode);
      }
    case Seed(s) =>
      if s in st.seqs {
        SeedIsBehind(st, s);
      }
    case _ =>
  }

  lemma SeedIsBehind(st: State, s: Sid)
    requires Unique(st) && s in st.seqs
    ensures MaxSeq(Disk(st, s)) <= st.seqs[s]
  {
    assert SessionOk(st, s);
  }

  lemma CapAfter(before: set<Key>, after: set<Key>)
    requires after <= before
    ensures |after| <= |before|
  {
    assert before == (before - after) + after;
  }

  lemma StepKeepsCap(st: State, step: Step, i: Inst)
    requires Enabled(st, step) && |OpenBy(st, i)| <= MAX_OPEN_WRITERS
    ensures |OpenBy(Do(st, step), i)| <= MAX_OPEN_WRITERS
  {
    hide Entered;
    match step
    case Log(key, kind, body, victim, inode) =>
      NumberedOpens(st, key, kind, body, i);
      EnteredKeepsCap(WithNumber(st, key.1, kind, body), key, NextEvent(st, key.1, kind, body), victim, inode, i);
    case Take(call, key, kind, body) => NumberedOpens(st, key, kind, body, i);
      assert OpenBy(Do(st, step), i) == OpenBy(st, i);
    case Put(call, victim, inode) =>
      var c := st.calls[call];
      assert OpenBy(Without(st, call), i) == OpenBy(st, i);
      assert OpenBy(Without(st, call), c.key.0) == OpenBy(st, c.key.0);
      EnteredKeepsCap(Without(st, call), c.key, c.event, victim, inode, i);
    case _ => CapAfter(OpenBy(st, i), OpenBy(Do(st, step), i));
  }

  lemma EnteredKeepsCap(st: State, key: Key, e: Event, victim: Sid, inode: Inode, i: Inst)
    requires CanEnter(st, key, victim, inode) && |OpenBy(st, i)| <= MAX_OPEN_WRITERS
    ensures |OpenBy(Entered(st, key, e, victim, inode), i)| <= MAX_OPEN_WRITERS
  {
    EnteredFrame(st, key, e, victim, inode);
    hide Entered;
    var v := (key.0, victim);
    var open, after := OpenBy(st, i), OpenBy(Entered(st, key, e, victim, inode), i);
    if key in st.writers || i != key.0 {
      CapAfter(open, after);
    } else if |open| >= MAX_OPEN_WRITERS {
      DroppedKeys(st, v);
      assert v in open && after <= open - {v} + {key};
      CapAfter(open - {v} + {key}, after);
    } else {
      assert after <= open + {key};
      CapAfter(open + {key}, after);
    }
  }

  lemma NumberedOpens(st: State, key: Key, kind: Kind, body: Body, i: Inst)
    ensures WithNumber(st, key.1, kind, body).writers == st.writers
    ensures OpenBy(WithNumber(st, key.1, kind, body), i) == OpenBy(st, i)
    ensures OpenBy(WithNumber(st, key.1, kind, body), key.0) == OpenBy(st, key.0)
  {
  }

  lemma DroppedKeys(st: State, key: Key)
    ensures Dropped(st, key).writers.Keys == st.writers.Keys - {key}
  {
  }

  // ---------------------------------------------------------------- whole runs

  ghost predicate Inv(st: State) {
    && Fits(st) && Unique(st) && CallsOk(st) && Counts(st) && OutputWaits(st)
    && (forall i :: |OpenBy(st, i)| <= MAX_OPEN_WRITERS)
  }

  lemma StepKeepsInv(st: State, step: Step)
    requires Inv(st) && Enabled(st, step)
    ensures Inv(Do(st, step))
  {
    StepWaits(st, step);
    hide Fits, Unique, CallsOk, Counts, OutputWaits, Do, OpenBy;
    StepKeepsUnique(st, step);
    StepKeepsCalls(st, step);
    StepKeepsCounts(st, step);
    forall i
      ensures |OpenBy(Do(st, step), i)| <= MAX_OPEN_WRITERS
    {
      StepKeepsCap(st, step, i);
    }
  }

  lemma {:induction false} RunKeepsInv(st: State, steps: seq<Step>)
    requires Inv(st) && CanRun(st, steps)
    ensures Inv(Run(st, steps))
    decreases |steps|
  {
    hide Inv, Do, Enabled;
    if |steps| > 0 {
      StepKeepsInv(st, steps[0]);
      RunKeepsInv(Do(st, steps[0]), steps[1..]);
    }
  }

  lemma InitOk()
    ensures Inv(Init)
  {
    NoLinesNoEvents();
    assert forall i :: OpenBy(Init, i) == {};
  }

  /** OVER ANY RUN of any number of logger instances, with calls that overlap,
      through flushes in any order, evictions, trims, crashes that lose buffers
      and restarts that reseed from disk: no two readable events of a session share a number, so
      a reader gets a strictly increasing permutation of the file; the numbers
      one process issued are contiguous; and no instance holds over 64 writers. */
  lemma EveryRun(steps: seq<Step>, s: Sid)
    requires CanRun(Init, steps)
    ensures var st := Run(Init, steps);
            && DistinctNumbers(Disk(st, s))
            && Increasing(Read(Disk(st, s))) && multiset(Read(Disk(st, s))) == multiset(Disk(st, s))
            && (s in st.issued ==>
                  forall j | 0 <= j < |st.issued[s].events| ::
                    st.issued[s].events[j].num == Some(st.issued[s].seed + 1 + j))
            && (forall i :: |OpenBy(st, i)| <= 64)
  {
    InitOk();
    RunKeepsInv(Init, steps);
    var st := Run(Init, steps);
    hide Run, CanRun, Disk, Read, OpenBy, Increasing;
    assert SessionOk(st, s);
    ReadIncreasing(Disk(st, s));
  }

  // ---------------------------------------------------------------- a boundary event is on disk at once

  /** The logger has no writer open for the session, or one that writes to the
      file under the path and not to one a trim replaced or a prune removed. */
  predicate Attached(st: State, key: Key) {
    key in st.writers ==> key.1 in st.paths && st.writers[key].inode == st.paths[key.1]
  }

  function Pending(st: State, key: Key): seq<Event> {
    if key in st.writers then st.writers[key].buffer else []
  }

  lemma DropPaths(st: State, key: Key)
    ensures Dropped(st, key).paths == st.paths
    ensures forall k | k in st.writers && k != key ::
              k in Dropped(st, key).writers && Dropped(st, key).writers[k] == st.writers[k]
  {
  }

  /** Making room touches nothing of the session itself. */
  lemma CappedOwn(st: State, key: Key, victim: Sid, inode: Inode)
    requires Fits(st) && Unique(st) && CanEnter(st, key, victim, inode)
    ensures var st' := Capped(st, key, victim);
            && Fits(st') && st'.inodes.Keys == st.inodes.Keys && st'.paths == st.paths
            && Disk(st', key.1) == Disk(st, key.1)
            && Attached(st', key) == Attached(st, key) && Pending(st', key) == Pending(st, key)
            && (key in st'.writers <==> key in st.writers)
  {
    hide Events, Fits, Unique;
    DropKeeps(st, (key.0, victim));
    DropPaths(st, (key.0, victim));
    if Capped(st, key, victim) != st {
      assert victim != key.1;
      assert SameSession(st, Dropped(st, (key.0, victim)), key.1);
    }
  }

  /** A writer of the session is open, and attached unless it already was not. */
  lemma OpenedOwn(st: State, key: Key, inode: Inode)
    requires Fits(st) && inode !in st.inodes
    ensures var st' := Opened(st, key, inode);
            && Fits(st') && key in st'.writers && Disk(st', key.1) == Disk(st, key.1)
            && Attached(st', key) == Attached(st, key) && Pending(st', key) == Pending(st, key)
            && (key.1 in st.paths ==> st'.inodes.Keys == st.inodes.Keys && st'.paths == st.paths)
  {
    hide Fits, Disk;
    OpenFits(st, key, inode);
    OpenDisk(st, key, inode, key.1);
  }

  lemma FlushOwn(st: State, key: Key)
    requires Fits(st) && key in st.writers
    ensures var b := st.writers[key].buffer;
            var st' := Flushed(st, key, |b|);
            && Disk(st', key.1) == Disk(st, key.1) + (if Attached(st, key) then b else [])
            && Attached(st', key) == Attached(st, key) && Pending(st', key) == []
            && st'.inodes.Keys == st.inodes.Keys && st'.paths == st.paths
  {
    var w := st.writers[key];
    assert w.buffer[..|w.buffer|] == w.buffer && w.buffer[|w.buffer|..] == [];
    var st' := Flushed(st, key, |w.buffer|);
    if Attached(st, key) {
      EventsConcat(st.inodes[w.inode], LoggedAll(w.buffer));
      EventsOfLogged(w.buffer);
    } else {
      assert key.1 in st.paths ==> st.paths[key.1] != w.inode;
      assert FileLines(st', key.1) == FileLines(st, key.1);
    }
    hide Events;
  }

  /** What entering an event puts in the session's file. */
  lemma EnteredDisk(st: State, key: Key, e: Event, victim: Sid, inode: Inode)
    requires Fits(st) && Unique(st) && CanEnter(st, key, victim, inode)
    ensures var st' := Entered(st, key, e, victim, inode);
            && Disk(st', key.1) == Disk(st, key.1)
               + (if e.kind.Output? || !Attached(st, key) then [] else Pending(st, key) + [e])
            && Attached(st', key) == Attached(st, key)
            && Pending(st', key) == (if e.kind.Output? then Pending(st, key) + [e] else [])
            && (key.1 in st.paths ==> st'.inodes.Keys == st.inodes.Keys && st'.paths == st.paths)
  {
    hide Fits, Unique, OpenBy, Disk, Capped, Opened, Flushed;
    CappedOwn(st, key, victim, inode);
    OpenedOwn(Capped(st, key, victim), key, inode);
    var r := Ready(st, key, victim, inode);
    BufferOwn(r, key, e);
    if !e.kind.Output? {
      FlushOwn(Buffered(r, key, e), key);
    }
  }

  lemma BufferOwn(st: State, key: Key, e: Event)
    requires Fits(st) && key in st.writers
    ensures var st' := Buffered(st, key, e);
            && Fits(st') && key in st'.writers && Disk(st', key.1) == Disk(st, key.1)
            && Attached(st', key) == Attached(st, key) && Pending(st', key) == Pending(st, key) + [e]
            && st'.inodes == st.inodes && st'.paths == st.paths
  {
    hide Events;
    BufferDisk(st, key, e, key.1);
  }

  /** WHEN AN EVENT IS ON DISK as its `log` returns: exactly when it is not
      output and the logger is attached. Then its file grows by what the logger
      had buffered and the event, whether the file was there or not; otherwise
      it grows by nothing, and for a logger that is not attached the event is
      lost, though the call does not fail. */
  lemma LogReachesDisk(st: State, key: Key, kind: Kind, body: Body, victim: Sid, inode: Inode)
    requires Inv(st) && Enabled(st, Log(key, kind, body, victim, inode))
    ensures var st' := Do(st, Log(key, kind, body, victim, inode));
            var e := NextEvent(st, key.1, kind, body);
            && Disk(st', key.1) == Disk(st, key.1)
               + (if kind.Output? || !Attached(st, key) then [] else Pending(st, key) + [e])
            && (e in Disk(st', key.1) <==> !kind.Output? && Attached(st, key))
            && Attached(st', key) == Attached(st, key)
            && Pending(st', key) == (if kind.Output? then Pending(st, key) + [e] else [])
            && (key.1 in st.paths ==> st'.inodes.Keys == st.inodes.Keys && st'.paths == st.paths)
  {
    var e := NextEvent(st, key.1, kind, body);
    var st1 := WithNumber(st, key.1, kind, body);
    NumberedKeeps(st, key.1, kind, body);
    NumberedOpens(st, key, kind, body, key.0);
    NumberedOwn(st, key, kind, body);
    NewNumber(st, key.1, e);
    hide Fits, Unique, Disk, OpenBy, WithNumber, NextEvent, Entered;
    EnteredDisk(st1, key, e, victim, inode);
  }

  lemma NumberedOwn(st: State, key: Key, kind: Kind, body: Body)
    ensures var st1 := WithNumber(st, key.1, kind, body);
            && Disk(st1, key.1) == Disk(st, key.1) && Attached(st1, key) == Attached(st, key)
            && Pending(st1, key) == Pending(st, key) && st1.inodes == st.inodes && st1.paths == st.paths
  {
    hide Events;
  }

  lemma NewNumber(st: State, s: Sid, e: Event)
    requires Inv(st) && e.num == Some(Counter(st, s) + 1)
    ensures e !in Disk(st, s)
  {
    hide Disk;
    assert SessionOk(st, s);
  }

  // ---------------------------------------------------------------- what the other steps leave

  /** The session's lines and what an attached logger still holds of them. */
  function LinesWith(st: State, key: Key): seq<Line> {
    FileLines(st, key.1) + if Attached(st, key) then LoggedAll(Pending(st, key)) else []
  }

  /** The files of the other sessions, and the other writers, are as they were. */
  ghost predicate OthersStay(st: State, st': State, key: Key) {
    && (forall s | s != key.1 :: FileLines(st', s) == FileLines(st, s))
    && (forall k | k != key :: k in st'.writers <==> k in st.writers)
    && (forall k | k in st.writers && k != key :: st'.writers[k] == st.writers[k])
  }

  /** A writer that is flushed and dropped puts what it held in the session's
      file, when it is attached, and nothing anywhere else. */
  lemma DropLeaves(st: State, key: Key)
    requires Fits(st)
    ensures var st' := Dropped(st, key);
            && FileLines(st', key.1) == LinesWith(st, key) && Fits(st')
            && key !in st'.writers && OthersStay(st, st', key)
            && st'.paths == st.paths && st'.inodes.Keys == st.inodes.Keys
  {
    if key in st.writers {
      var w := st.writers[key];
      assert w.buffer[..|w.buffer|] == w.buffer;
      assert Attached(st, key) <==> key.1 in st.paths && st.paths[key.1] == w.inode;
      assert forall s | s in st.paths && st.paths[s] == w.inode :: s == key.1;
    }
  }

  lemma RewriteLeaves(st: State, key: Key, inode: Inode)
    requires Fits(st) && inode !in st.inodes
    ensures var st' := Rewritten(st, key.1, inode);
            && FileLines(st', key.1) == TrimmedFile(FileLines(st, key.1))
            && st'.writers == st.writers && OthersStay(st, st', key)
  {
    hide Kept, Whole;
    var ls := FileLines(st, key.1);
    if |ls| > 0 {
      KeptIsSome(Whole(ls[1..]));
    }
  }

  /** WHAT A CLOSE LEAVES. Nothing changes without a writer. With one, the
      session's file is its lines and what an attached logger still held, in
      order, trimmed when the close trims; a logger that is not attached adds
      nothing. The writer is gone; all else is as it was. */
  lemma CloseLeaves(st: State, key: Key, trims: bool, inode: Inode)
    requires Fits(st) && inode !in st.inodes
    ensures var st' := Do(st, Close(key, trims, inode));
            && (key !in st.writers ==> st' == st)
            && (key in st.writers ==>
                  FileLines(st', key.1) == if trims then TrimmedFile(LinesWith(st, key)) else LinesWith(st, key))
            && key !in st'.writers && OthersStay(st, st', key)
            && st'.seqs == st.seqs && st'.issued == st.issued && st'.calls == st.calls
  {
    hide Flushed, LinesWith, TrimmedFile, Fits;
    DropLeaves(st, key);
    FlushedFrame(st, key, |Pending(st, key)|);
    RewriteLeaves(Dropped(st, key), key, inode);
  }

  /** Without a trim, the events on disk grow by what the logger held. */
  lemma CloseKeepsEvents(st: State, key: Key, inode: Inode)
    requires Fits(st) && inode !in st.inodes
    ensures Disk(Do(st, Close(key, false, inode)), key.1)
         == Disk(st, key.1) + if Attached(st, key) then Pending(st, key) else []
  {
    CloseLeaves(st, key, false, inode);
    EventsConcat(FileLines(st, key.1), LoggedAll(Pending(st, key)));
    EventsOfLogged(Pending(st, key));
    hide Do, Events;
  }

  /** What may happen at any moment: a flush of any part of a buffer, an
      eviction, a seed, a prune and a crash; and, given a new inode, a close and
      a call of `log` by any instance. */
  lemma AnyTime(st: State, key: Key, k: nat, s: Sid, torn: Option<Torn>, inode: Inode, kind: Kind, body: Body)
    ensures Enabled(st, Flush(key, k)) && Enabled(st, Drop(key)) && Enabled(st, Seed(s))
    ensures Enabled(st, Prune(s)) && Enabled(st, Crash(torn))
    ensures inode !in st.inodes ==>
              && (forall trims :: Enabled(st, Close(key, trims, inode)))
              && exists victim :: Enabled(st, Log(key, kind, body, victim, inode))
  {
    if inode !in st.inodes {
      var victim := SomeVictim(st, key);
      assert Enabled(st, Log(key, kind, body, victim, inode));
    }
  }

  lemma SomeVictim(st: State, key: Key) returns (victim: Sid)
    ensures |OpenBy(st, key.0)| >= MAX_OPEN_WRITERS ==> (key.0, victim) in st.writers
  {
    victim := key.1;
    if |OpenBy(st, key.0)| >= MAX_OPEN_WRITERS {
      var k :| k in OpenBy(st, key.0);
      victim := k.1;
      assert k == (key.0, victim);
    }
  }

  /** The lines of an attached session grow by the whole buffer and the event at
      a boundary and by nothing at output; a missing file begins with its header. */
  lemma EnteredLines(st: State, key: Key, e: Event, victim: Sid, inode: Inode)
    requires Fits(st) && Unique(st) && CanEnter(st, key, victim, inode) && Attached(st, key)
    ensures FileLines(Entered(st, key, e, victim, inode), key.1) ==
            (if key.1 in st.paths then FileLines(st, key.1) else [HEADER])
            + if e.kind.Output? then [] else LoggedAll(Pending(st, key) + [e])
  {
    hide Fits, Unique, OpenBy, Capped, Opened, Flushed;
    CappedLines(st, key, victim, inode);
    CappedOwn(st, key, victim, inode);
    OpenedLines(Capped(st, key, victim), key, inode);
    OpenedOwn(Capped(st, key, victim), key, inode);
    var r := Ready(st, key, victim, inode);
    BufferOwn(r, key, e);
    if !e.kind.Output? {
      FlushLines(Buffered(r, key, e), key);
    }
  }

  lemma CappedLines(st: State, key: Key, victim: Sid, inode: Inode)
    requires Fits(st) && CanEnter(st, key, victim, inode)
    ensures FileLines(Capped(st, key, victim), key.1) == FileLines(st, key.1)
  {
    MakingRoom(st, key, victim, inode);
    hide Capped, Fits, LinesWith;
  }

  lemma OpenedLines(st: State, key: Key, inode: Inode)
    requires Fits(st) && inode !in st.inodes && Attached(st, key)
    ensures FileLines(Opened(st, key, inode), key.1) == if key.1 in st.paths then FileLines(st, key.1) else [HEADER]
  {
  }

  lemma FlushLines(st: State, key: Key)
    requires Fits(st) && key in st.writers && Attached(st, key)
    ensures FileLines(Flushed(st, key, |st.writers[key].buffer|), key.1)
         == FileLines(st, key.1) + LoggedAll(Pending(st, key))
  {
    var w := st.writers[key];
    assert w.buffer[..|w.buffer|] == w.buffer;
  }

  /** Below 64 open writers of the instance nothing is evicted; at 64, one
      writer of another session, and what it held goes to its file. */
  lemma MakingRoom(st: State, key: Key, victim: Sid, inode: Inode)
    requires Fits(st) && CanEnter(st, key, victim, inode)
    ensures var st', gone := Capped(st, key, victim), (key.0, victim);
            if |OpenBy(st, key.0)| < 64 || key in st.writers then st' == st
            else
              && gone in st.writers && gone !in st'.writers && victim != key.1
              && FileLines(st', victim) == LinesWith(st, gone) && OthersStay(st, st', gone)
  {
    hide LinesWith, Dropped, Fits, OthersStay;
    DropLeaves(st, (key.0, victim));
  }

  /** A crash loses the memory and no file: each session's lines are as they
      were, with at most a fragment after one session's, which no reader takes
      for an event. */
  lemma CrashLeaves(st: State, torn: Option<Torn>, s: Sid)
    requires Fits(st)
    ensures var st' := Do(st, Crash(torn));
            && st'.paths == st.paths && st'.writers == map[] && st'.seqs == map[] && st'.calls == map[]
            && Disk(st', s) == Disk(st, s)
            && FileLines(st', s) ==
               FileLines(st, s) +
               (if torn.Some? && torn.value.key in st.writers && torn.value.key.1 == s && Attached(st, torn.value.key)
                then [Line(None, torn.value.mentionsStart, torn.value.utf8)] else [])
  {
    CrashDisk(st, torn, s);
    hide Disk, Events;
    if torn.Some? && torn.value.key in st.writers {
      assert Attached(st, torn.value.key) <==>
             torn.value.key.1 in st.paths && st.paths[torn.value.key.1] == st.writers[torn.value.key].inode;
    }
  }

  /** A prune takes the session's file from its readers and from every writer
      that is open on it; all else is as it was. */
  lemma PruneLeaves(st: State, s: Sid)
    ensures var st' := Do(st, Prune(s));
            && FileLines(st', s) == [] && (forall i | (i, s) in st.writers :: !Attached(st', (i, s)))
            && (forall t | t != s :: FileLines(st', t) == FileLines(st, t))
            && st'.inodes == st.inodes && st'.writers == st.writers && st'.seqs == st.seqs && st'.calls == st.calls
  {
  }

  /** A seed puts the counter at or past every number on disk, never back, and
      for good: no later prune of the file takes it back. */
  lemma SeedLeaves(st: State, s: Sid)
    ensures var st', m := Do(st, Seed(s)), MaxSeq(Disk(st, s));
            && Counter(st', s) == (if m > Counter(st, s) then m else Counter(st, s))
            && Counter(Do(st', Prune(s)), s) == Counter(st', s)
            && (forall t | t != s :: Counter(st', t) == Counter(st, t))
            && st'.paths == st.paths && st'.inodes == st.inodes && st'.writers == st.writers && st'.calls == st.calls
  {
    hide MaxSeq, Events;
    NoFileNoNumbers(Do(Do(st, Seed(s)), Prune(s)), s);
  }

  lemma NoFileNoNumbers(st: State, s: Sid)
    requires s !in st.paths
    ensures MaxSeq(Disk(st, s)) == 0
  {
    NoLinesNoEvents();
  }

  // ---------------------------------------------------------------- what a buffer holds

  /** Only output waits in a buffer. */
  ghost predicate OutputWaits(st: State) {
    forall k | k in st.writers :: forall e | e in st.writers[k].buffer :: e.kind.Output?
  }

  lemma FlushWaits(st: State, key: Key, k: nat)
    requires OutputWaits(st)
    ensures OutputWaits(Flushed(st, key, k))
  {
    if key in st.writers && k <= |st.writers[key].buffer| {
      var b := st.writers[key].buffer;
      assert forall e | e in b[k..] :: e in b;
    }
  }

  lemma DropWaits(st: State, key: Key)
    requires OutputWaits(st)
    ensures OutputWaits(Dropped(st, key))
  {
    if key in st.writers {
      FlushWaits(st, key, |st.writers[key].buffer|);
      hide Flushed;
    }
  }

  lemma OpenWaits(st: State, key: Key, inode: Inode)
    requires OutputWaits(st)
    ensures OutputWaits(Opened(st, key, inode))
  {
  }

  /** Only the entered event's own buffer can hold anything else, and that one
      is flushed for it. */
  lemma EnteredWaits(st: State, key: Key, e: Event, victim: Sid, inode: Inode)
    requires OutputWaits(st) && Fits(st) && Unique(st) && CanEnter(st, key, victim, inode)
    ensures OutputWaits(Entered(st, key, e, victim, inode))
  {
    hide Unique, Fits, Dropped, OpenBy;
    DropWaits(st, (key.0, victim));
    OpenWaits(Capped(st, key, victim), key, inode);
    EnteredDisk(st, key, e, victim, inode);
    BufferThenFlush(Ready(st, key, victim, inode), key, e);
    hide OutputWaits, Capped, Opened;
  }

  lemma BufferThenFlush(st: State, key: Key, e: Event)
    requires OutputWaits(st)
    ensures var b := Buffered(st, key, e);
            && (e.kind.Output? ==> OutputWaits(b))
            && (key in b.writers && Pending(Flushed(b, key, |b.writers[key].buffer|), key) == []
                ==> OutputWaits(Flushed(b, key, |b.writers[key].buffer|)))
  {
    var b := Buffered(st, key, e);
    if key in b.writers {
      FlushOthers(b, key, |b.writers[key].buffer|);
    }
    hide Flushed;
  }

  lemma FlushOthers(st: State, key: Key, k: nat)
    ensures Flushed(st, key, k).writers.Keys == st.writers.Keys
    ensures forall j | j in st.writers && j != key :: Flushed(st, key, k).writers[j] == st.writers[j]
  {
    hide LoggedAll;
  }

  lemma StepWaits(st: State, step: Step)
    requires Inv(st) && OutputWaits(st) && Enabled(st, step)
    ensures OutputWaits(Do(st, step))
  {
    hide Entered, CallsOk, Counts, Events, Dropped, Flushed;
    match step
    case Log(key, kind, body, victim, inode) =>
      NumberedKeeps(st, key.1, kind, body);
      NumberedOpens(st, key, kind, body, key.0);
      hide Fits, Unique, OpenBy;
      EnteredWaits(WithNumber(st, key.1, kind, body), key, NextEvent(st, key.1, kind, body), victim, inode);
    case Take(call, key, kind, body) =>
    case Put(call, victim, inode) =>
      CallsAside(st, Without(st, call));
      hide Fits, Unique, OpenBy;
      EnteredWaits(Without(st, call), st.calls[call].key, st.calls[call].event, victim, inode);
    case Flush(key, k) => FlushWaits(st, key, k);
    case Drop(key) => DropWaits(st, key);
    case Close(key, trims, inode) => DropWaits(st, key);
    case Seed(s) =>
    case Prune(s) =>
    case Crash(torn) =>
  }
}
