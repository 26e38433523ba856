/** What a machine that lost power can come back with, after any run of
    replacements, appends and earlier cuts on one file. */
module PowerCut {
  import opened Jsonl
  import opened Atomic

  ghost function Versions(fs: Fs): set<Version> {
    fs.past + {Current(fs)}
  }

  /** Some version of the directory; synced files whole, the others anything. */
  ghost predicate AfterPowerCut(fs: Fs, dir: map<string, Inode>, inodes: map<Inode, File>) {
    && (exists v | v in Versions(fs) :: v.dir == dir)
    && inodes.Keys == fs.inodes.Keys
    && forall i | i in fs.inodes && fs.inodes[i].synced :: inodes[i].data == fs.inodes[i].data
  }

  /** On a file system that keeps metadata in order, a directory comes back with
      every permission that was restricted when it was made. */
  ghost predicate InOrder(fs: Fs, dir: map<string, Inode>, inodes: map<Inode, File>) {
    exists v | v in Versions(fs) :: v.dir == dir && v.hardened <= Flags(inodes)
  }

  /** The machine is up again: what it reads is what is on the platter. */
  function Booted(dir: map<string, Inode>, inodes: map<Inode, File>): Fs {
    Fs(dir, map i | i in inodes :: inodes[i].(synced := true), {})
  }

  // ---------------------------------------------------------------- a file and its temp, in every version

  /** Names have files, and a temp is never the target. */
  ghost predicate Linked(path: string, fs: Fs) {
    var tmp := TempPath(path);
    && (forall v, n | v in Versions(fs) && n in v.dir :: v.dir[n] in fs.inodes)
    && (forall v | v in Versions(fs) :: v.hardened <= fs.inodes.Keys)
    && (forall v | v in Versions(fs) && tmp in v.dir && path in v.dir :: v.dir[tmp] != v.dir[path])
    && (forall v | v in Versions(fs) && tmp in fs.dir && path in v.dir :: fs.dir[tmp] != v.dir[path])
  }

  /** Every version that has the name names a synced file. */
  ghost predicate Durable(path: string, fs: Fs) {
    forall v | v in Versions(fs) && path in v.dir :: v.dir[path] in fs.inodes && fs.inodes[v.dir[path]].synced
  }

  /** And one that was restricted when the version was made. */
  ghost predicate Guarded(path: string, fs: Fs) {
    forall v | v in Versions(fs) && path in v.dir :: v.dir[path] in v.hardened
  }

  /** What the name reads in some version. */
  ghost function Reads(path: string, fs: Fs): set<Option<Bytes>> {
    set v | v in Versions(fs) :: Read(v.dir, fs.inodes, path)
  }

  // ---------------------------------------------------------------- one replacement, stopped anywhere

  /** A directory that a call of `replace` passes through before its rename. */
  ghost predicate Before(job: Job, fs0: Fs, fs: Fs, dir: map<string, Inode>) {
    var tmp, i := TempPath(job.path), TempInode(job, fs0);
    dir == fs0.dir || dir == fs0.dir - {tmp} || (dir == fs0.dir[tmp := i] && i in fs.inodes)
  }

  ghost predicate Between(job: Job, fs0: Fs, fs: Fs, v: Version) {
    && Before(job, fs0, fs, v.dir)
    && Flags(fs0.inodes) <= v.hardened <= Flags(fs0.inodes) + {TempInode(job, fs0)}
    && v.hardened <= fs.inodes.Keys
  }

  ghost predicate Files(job: Job, fs0: Fs, fs: Fs) {
    var i := TempInode(job, fs0);
    && fs0.inodes.Keys <= fs.inodes.Keys <= fs0.inodes.Keys + {i}
    && (forall j | j in fs0.inodes && j != i :: fs.inodes[j] == fs0.inodes[j])
    && (i in fs0.inodes && fs0.inodes[i].hardened ==> fs.inodes[i].hardened)
  }

  /** What a call has done to the file system so far. */
  ghost predicate Trace(job: Job, fs0: Fs, st: State) {
    var tmp, i := TempPath(job.path), TempInode(job, fs0);
    && Files(job, fs0, st.fs)
    && fs0.past <= st.fs.past
    && (forall v | v in st.fs.past && v !in fs0.past :: Between(job, fs0, st.fs, v))
    && (if Landed(st) then
          && st.fs.dir == (fs0.dir - {tmp})[job.path := i]
          && exists v | v in st.fs.past :: Between(job, fs0, st.fs, v)
        else Between(job, fs0, st.fs, Current(st.fs)))
  }

  lemma FlagsOf(job: Job, fs0: Fs, fs: Fs)
    requires Files(job, fs0, fs)
    ensures Flags(fs0.inodes) <= Flags(fs.inodes) <= Flags(fs0.inodes) + {TempInode(job, fs0)}
  {
  }

  lemma NextKeepsFiles(job: Job, fs0: Fs, st: State, ok: bool)
    requires Ready(job, fs0) && Inv(job, fs0, st) && Files(job, fs0, st.fs)
    ensures Files(job, fs0, Next(job, st, ok).fs)
  {
  }

  /** A call changes the directory as `Before` says or lands, and keeps the
      version it replaces. */
  lemma NextVersion(job: Job, fs0: Fs, st: State, ok: bool)
    requires Ready(job, fs0) && Inv(job, fs0, st)
    requires !Landed(st) && Before(job, fs0, st.fs, st.fs.dir)
    ensures var st' := Next(job, st, ok);
            && (st'.fs.past == st.fs.past || st'.fs.past == st.fs.past + {Current(st.fs)})
            && (if Landed(st') then
                  && Current(st.fs) in st'.fs.past
                  && st'.fs.dir == (fs0.dir - {TempPath(job.path)})[job.path := TempInode(job, fs0)]
                else Before(job, fs0, st'.fs, st'.fs.dir))
  {
    TempIsSibling(job.path);
    if st.pc.Create? && ok {
      assert Flags(Updated(fs0, job.inode, File([], false, false)).inodes) == Flags(fs0.inodes);
    }
  }

  lemma BetweenGrows(job: Job, fs0: Fs, fs: Fs, fs': Fs, v: Version)
    requires Between(job, fs0, fs, v) && fs.inodes.Keys <= fs'.inodes.Keys
    ensures Between(job, fs0, fs', v)
  {
  }

  lemma NextKeepsTrace(job: Job, fs0: Fs, st: State, ok: bool)
    requires Ready(job, fs0) && Inv(job, fs0, st) && Trace(job, fs0, st)
    ensures Trace(job, fs0, Next(job, st, ok))
  {
    if !st.pc.Done? {
      hide Next, Inv, Ready, Files, Flags, TempInode;
      var st' := Next(job, st, ok);
      NextKeepsFiles(job, fs0, st, ok);
      NextGrows(job, st, ok);
      NextVersion(job, fs0, st, ok);
      FlagsOf(job, fs0, st'.fs);
      FlagsHaveFiles(st'.fs);
      assert !Landed(st') ==> Between(job, fs0, st'.fs, Current(st'.fs));
      hide Between;
      forall v | Between(job, fs0, st.fs, v)
        ensures Between(job, fs0, st'.fs, v)
      {
        BetweenGrows(job, fs0, st.fs, st'.fs, v);
      }
    }
  }

  lemma FlagsHaveFiles(fs: Fs)
    ensures Flags(fs.inodes) <= fs.inodes.Keys
  {
  }

  lemma NextGrows(job: Job, st: State, ok: bool)
    ensures st.fs.inodes.Keys <= Next(job, st, ok).fs.inodes.Keys
  {
  }

  lemma {:induction false} RunKeepsTrace(job: Job, fs0: Fs, st: State, oks: seq<bool>)
    requires Ready(job, fs0) && Inv(job, fs0, st) && Trace(job, fs0, st)
    ensures Trace(job, fs0, RunAll(job, st, oks))
    decreases |oks|
  {
    hide Inv, Ready, Next, Trace;
    if |oks| > 0 {
      NextKeepsInv(job, fs0, st, oks[0]);
      NextKeepsTrace(job, fs0, st, oks[0]);
      RunKeepsTrace(job, fs0, Next(job, st, oks[0]), oks[1..]);
    }
  }

  /** What follows from the two invariants, once the call has stopped. */
  ghost predicate Stopped(job: Job, fs0: Fs, st: State) {
    && job.inode !in fs0.inodes
    && Linked(job.path, fs0) && Trace(job, fs0, st)
    && (Landed(st) ==> Installed(job, fs0, st.fs))
  }

  lemma Stops(job: Job, fs0: Fs, oks: seq<bool>)
    requires Linked(job.path, fs0) && job.inode !in fs0.inodes
    ensures Ready(job, fs0) && Stopped(job, fs0, RunAll(job, State(fs0, Create), oks))
  {
    assert Current(fs0) in Versions(fs0);
    RunKeepsInv(job, fs0, State(fs0, Create), oks);
    RunKeepsTrace(job, fs0, State(fs0, Create), oks);
  }

  /** The versions after the call: those before it, some with the same entry for
      the target, and the one with the new contents. */
  lemma VersionsAfter(job: Job, fs0: Fs, st: State, v: Version)
    requires Stopped(job, fs0, st) && v in Versions(st.fs)
    ensures v in fs0.past || Between(job, fs0, st.fs, v) || (Landed(st) && v == Current(st.fs))
  {
  }

  lemma SameUnderName(job: Job, fs0: Fs, fs: Fs, v: Version)
    requires Linked(job.path, fs0) && job.inode !in fs0.inodes && Files(job, fs0, fs) && Between(job, fs0, fs, v)
    ensures SameEntry(v.dir, fs0.dir, job.path)
    ensures Read(v.dir, fs.inodes, job.path) == Read(fs0.dir, fs0.inodes, job.path)
    ensures job.path in v.dir ==> (v.dir[job.path] in v.hardened <==> v.dir[job.path] in Flags(fs0.inodes))
  {
    TempIsSibling(job.path);
    assert Current(fs0) in Versions(fs0);
  }

  lemma SameInThePast(job: Job, fs0: Fs, fs: Fs, v: Version)
    requires Linked(job.path, fs0) && job.inode !in fs0.inodes && Files(job, fs0, fs) && v in Versions(fs0)
    ensures Read(v.dir, fs.inodes, job.path) == Read(v.dir, fs0.inodes, job.path)
    ensures job.path in v.dir ==>
              && v.dir[job.path] in fs0.inodes && v.dir[job.path] in fs.inodes
              && fs.inodes[v.dir[job.path]] == fs0.inodes[v.dir[job.path]]
  {
  }

  lemma StaysLinked(job: Job, fs0: Fs, st: State)
    requires Stopped(job, fs0, st)
    ensures Linked(job.path, st.fs)
  {
    assert Current(fs0) in Versions(fs0);
    TempIsSibling(job.path);
    forall v | v in Versions(st.fs)
      ensures (forall n | n in v.dir :: v.dir[n] in st.fs.inodes) && v.hardened <= st.fs.inodes.Keys
      ensures TempPath(job.path) in v.dir && job.path in v.dir ==> v.dir[TempPath(job.path)] != v.dir[job.path]
      ensures TempPath(job.path) in st.fs.dir && job.path in v.dir ==>
                st.fs.dir[TempPath(job.path)] != v.dir[job.path]
    {
      VersionsAfter(job, fs0, st, v);
    }
  }

  /** A version after the call with the target's old entry. */
  lemma OldEntryStays(job: Job, fs0: Fs, st: State) returns (v: Version)
    requires Stopped(job, fs0, st)
    ensures v in Versions(st.fs) && Between(job, fs0, st.fs, v)
  {
    if Landed(st) {
      v :| v in st.fs.past && Between(job, fs0, st.fs, v);
    } else {
      v := Current(st.fs);
    }
  }

  lemma ReadsAfter(job: Job, fs0: Fs, st: State)
    requires Stopped(job, fs0, st)
    ensures Reads(job.path, st.fs) == Reads(job.path, fs0) + if Landed(st) then {Some(job.body)} else {}
  {
    var path := job.path;
    var more := if Landed(st) then {Some(job.body)} else {};
    forall c | c in Reads(path, st.fs)
      ensures c in Reads(path, fs0) + more
    {
      var v :| v in Versions(st.fs) && c == Read(v.dir, st.fs.inodes, path);
      VersionsAfter(job, fs0, st, v);
      if v in fs0.past {
        SameInThePast(job, fs0, st.fs, v);
      } else if Between(job, fs0, st.fs, v) {
        SameUnderName(job, fs0, st.fs, v);
        assert Current(fs0) in Versions(fs0);
      }
    }
    forall c | c in Reads(path, fs0) + more
      ensures c in Reads(path, st.fs)
    {
      if c in Reads(path, fs0) {
        var v :| v in Versions(fs0) && c == Read(v.dir, fs0.inodes, path);
        SameInThePast(job, fs0, st.fs, v);
        if v !in fs0.past {
          var w := OldEntryStays(job, fs0, st);
          SameUnderName(job, fs0, st.fs, w);
        }
      } else {
        assert Current(st.fs) in Versions(st.fs);
      }
    }
  }

  lemma DurableAfter(job: Job, fs0: Fs, st: State)
    requires Stopped(job, fs0, st)
    ensures Durable(job.path, st.fs) <==> Durable(job.path, fs0)
  {
    var path := job.path;
    if Durable(path, fs0) {
      forall v | v in Versions(st.fs) && path in v.dir
        ensures v.dir[path] in st.fs.inodes && st.fs.inodes[v.dir[path]].synced
      {
        VersionsAfter(job, fs0, st, v);
        if v in fs0.past {
          SameInThePast(job, fs0, st.fs, v);
        } else if Between(job, fs0, st.fs, v) {
          SameUnderName(job, fs0, st.fs, v);
          SameInThePast(job, fs0, st.fs, Current(fs0));
        }
      }
    }
    if Durable(path, st.fs) {
      forall v | v in Versions(fs0) && path in v.dir
        ensures v.dir[path] in fs0.inodes && fs0.inodes[v.dir[path]].synced
      {
        SameInThePast(job, fs0, st.fs, v);
        if v !in fs0.past {
          var w := OldEntryStays(job, fs0, st);
          SameUnderName(job, fs0, st.fs, w);
        }
      }
    }
  }

  lemma GuardedAfter(job: Job, fs0: Fs, st: State)
    requires Stopped(job, fs0, st)
    ensures Guarded(job.path, st.fs) <==>
            Guarded(job.path, fs0) && (Landed(st) ==> st.fs.inodes[st.fs.dir[job.path]].hardened)
  {
    var path := job.path;
    if Guarded(path, fs0) && (Landed(st) ==> st.fs.inodes[st.fs.dir[job.path]].hardened) {
      forall v | v in Versions(st.fs) && path in v.dir
        ensures v.dir[path] in v.hardened
      {
        VersionsAfter(job, fs0, st, v);
        if v !in fs0.past && Between(job, fs0, st.fs, v) {
          SameUnderName(job, fs0, st.fs, v);
          assert Current(fs0) in Versions(fs0);
        }
      }
    }
    if Guarded(path, st.fs) {
      assert Current(st.fs) in Versions(st.fs);
      forall v | v in Versions(fs0) && path in v.dir
        ensures v.dir[path] in v.hardened
      {
        if v !in fs0.past {
          var w := OldEntryStays(job, fs0, st);
          SameUnderName(job, fs0, st.fs, w);
        }
      }
    }
  }

  // ---------------------------------------------------------------- one cut

  lemma DurableCut(path: string, fs: Fs, dir: map<string, Inode>, inodes: map<Inode, File>)
    requires Durable(path, fs) && AfterPowerCut(fs, dir, inodes)
    ensures Read(dir, inodes, path) in Reads(path, fs)
  {
    var v :| v in Versions(fs) && v.dir == dir;
    assert Read(v.dir, fs.inodes, path) == Read(dir, inodes, path);
  }

  /** Each version may come back. */
  lemma CutTo(path: string, fs: Fs, c: Option<Bytes>) returns (dir: map<string, Inode>)
    requires c in Reads(path, fs)
    ensures AfterPowerCut(fs, dir, fs.inodes) && Read(dir, fs.inodes, path) == c
  {
    var v :| v in Versions(fs) && c == Read(v.dir, fs.inodes, path);
    dir := v.dir;
  }

  lemma {:induction false} BytesOutside(had: set<Option<Bytes>>) returns (bytes: Bytes)
    ensures forall c | c in had && c.Some? :: |c.value| < |bytes|
    decreases |had|
  {
    if had == {} {
      bytes := [];
    } else {
      var c :| c in had;
      bytes := BytesOutside(had - {c});
      if c.Some? {
        bytes := bytes + c.value + [0];
      }
    }
  }

  /** An unsynced file in some version: bytes that the name never held. */
  lemma TornCut(path: string, fs: Fs, had: set<Option<Bytes>>)
      returns (dir: map<string, Inode>, inodes: map<Inode, File>)
    requires Linked(path, fs) && !Durable(path, fs)
    ensures AfterPowerCut(fs, dir, inodes) && Read(dir, inodes, path) !in had
  {
    var v :| v in Versions(fs) && path in v.dir
          && !(v.dir[path] in fs.inodes && fs.inodes[v.dir[path]].synced);
    var bytes := BytesOutside(had);
    dir, inodes := v.dir, fs.inodes[v.dir[path] := File(bytes, false, false)];
  }

  // ---------------------------------------------------------------- runs

  /** What happens to one file: a call of `replace` stopped anywhere, an append
      that nobody syncs, or a power cut. */
  datatype Event =
    | Replacing(job: Job, oks: seq<bool>)
    | Appending(bytes: Bytes, inode: Inode)
    | Cut(dir: map<string, Inode>, inodes: map<Inode, File>)

  function AfterCall(job: Job, oks: seq<bool>, fs: Fs): State {
    RunAll(job, State(fs, Create), oks)
  }

  function Appended(path: string, fs: Fs, bytes: Bytes, inode: Inode): Fs {
    if path in fs.dir && fs.dir[path] in fs.inodes then
      var f := fs.inodes[fs.dir[path]];
      Updated(fs, fs.dir[path], f.(data := f.data + bytes, synced := false))
    else
      Updated(Renamed(fs, fs.dir[path := inode]), inode, File(bytes, false, false))
  }

  function Do(path: string, fs: Fs, e: Event): Fs {
    match e
    case Replacing(job, oks) => AfterCall(job, oks, fs).fs
    case Appending(bytes, inode) => Appended(path, fs, bytes, inode)
    case Cut(dir, inodes) => Booted(dir, inodes)
  }

  ghost predicate May(path: string, fs: Fs, e: Event) {
    match e
    case Replacing(job, _) => job.path == path && job.inode !in fs.inodes
    case Appending(bytes, inode) => |bytes| > 0 && inode !in fs.inodes
    case Cut(dir, inodes) => AfterPowerCut(fs, dir, inodes)
  }

  function DoAll(path: string, fs: Fs, es: seq<Event>): Fs {
    if |es| == 0 then fs else Do(path, DoAll(path, fs, es[..|es| - 1]), es[|es| - 1])
  }

  ghost predicate MayAll(path: string, fs: Fs, es: seq<Event>) {
    |es| > 0 ==>
      && MayAll(path, fs, es[..|es| - 1])
      && May(path, DoAll(path, fs, es[..|es| - 1]), es[|es| - 1])
  }

  /** What the name reads while the machine is up. */
  function Live(path: string, fs: Fs, es: seq<Event>): Option<Bytes> {
    if |es| == 0 then Target(fs, path)
    else
      var front, e := es[..|es| - 1], es[|es| - 1];
      var before := Live(path, fs, front);
      match e
      case Replacing(job, oks) => if LandsOn(job, oks) then Some(job.body) else before
      case Appending(bytes, _) => Some((if before.Some? then before.value else []) + bytes)
      case Cut(dir, inodes) => Read(dir, inodes, path)
  }

  /** What it has read since the machine came up. */
  ghost function Ever(path: string, fs: Fs, es: seq<Event>): set<Option<Bytes>> {
    if |es| == 0 then Reads(path, fs)
    else
      var now := {Live(path, fs, es)};
      if es[|es| - 1].Cut? then now else Ever(path, fs, es[..|es| - 1]) + now
  }

  /** Nothing was appended since the machine came up. */
  ghost predicate Unwritten(path: string, fs: Fs, es: seq<Event>) {
    if |es| == 0 then Durable(path, fs)
    else es[|es| - 1].Cut? || (!es[|es| - 1].Appending? && Unwritten(path, fs, es[..|es| - 1]))
  }

  /** No restricted name came up or was made unrestricted: each replacement whose
      answers let it land had one for its hardening, or a restricted temp to
      truncate; an append found the file; and a cut left its permissions. */
  ghost predicate Restricted(path: string, fs: Fs, es: seq<Event>) {
    if |es| == 0 then Guarded(path, fs)
    else
      var front, e := es[..|es| - 1], es[|es| - 1];
      var before := DoAll(path, fs, front);
      match e
      case Replacing(job, oks) => Restricted(path, fs, front) && (LandsOn(job, oks) ==> Restricts(job, before, oks))
      case Appending(_, _) => Restricted(path, fs, front) && path in before.dir
      case Cut(dir, inodes) => path in dir ==> dir[path] in Flags(inodes)
  }

  lemma AppendKeeps(path: string, fs: Fs, bytes: Bytes, inode: Inode)
    requires Linked(path, fs) && inode !in fs.inodes
    ensures Linked(path, Appended(path, fs, bytes, inode))
    ensures !Durable(path, Appended(path, fs, bytes, inode))
    ensures Guarded(path, Appended(path, fs, bytes, inode)) <==> Guarded(path, fs) && path in fs.dir
    ensures var before := Target(fs, path);
            Target(Appended(path, fs, bytes, inode), path) ==
            Some((if before.Some? then before.value else []) + bytes)
  {
    TempIsSibling(path);
    assert Current(fs) in Versions(fs);
    var fs' := Appended(path, fs, bytes, inode);
    assert Current(fs') in Versions(fs');
    if path in fs.dir {
      assert Flags(fs'.inodes) == Flags(fs.inodes);
      assert Current(fs') == Current(fs) && Versions(fs') == Versions(fs);
    } else {
      assert [] + bytes == bytes;
      assert fs'.dir[path] == inode && inode !in Flags(fs'.inodes);
      assert Flags(fs'.inodes) == Flags(fs.inodes);
      assert Versions(fs') == Versions(fs) + {Current(fs')};
    }
  }

  lemma CutKeeps(path: string, fs: Fs, dir: map<string, Inode>, inodes: map<Inode, File>)
    requires Linked(path, fs) && AfterPowerCut(fs, dir, inodes)
    ensures Linked(path, Booted(dir, inodes)) && Durable(path, Booted(dir, inodes))
    ensures Reads(path, Booted(dir, inodes)) == {Read(dir, inodes, path)}
    ensures Guarded(path, Booted(dir, inodes)) <==> (path in dir ==> dir[path] in Flags(inodes))
    ensures Target(Booted(dir, inodes), path) == Read(dir, inodes, path)
  {
    var v :| v in Versions(fs) && v.dir == dir;
    var fs' := Booted(dir, inodes);
    assert Flags(fs'.inodes) == Flags(inodes);
    assert Versions(fs') == {Current(fs')};
    assert Read(dir, fs'.inodes, path) == Read(dir, inodes, path);
  }

  lemma CallKeeps(path: string, fs: Fs, job: Job, oks: seq<bool>)
    requires Linked(path, fs) && job.path == path && job.inode !in fs.inodes
    ensures var st := AfterCall(job, oks, fs);
            && Linked(path, st.fs) && (Durable(path, st.fs) <==> Durable(path, fs))
            && Reads(path, st.fs) == Reads(path, fs) + {Target(st.fs, path)}
            && Target(st.fs, path) == (if LandsOn(job, oks) then Some(job.body) else Target(fs, path))
            && (Guarded(path, st.fs) <==> Guarded(path, fs) && (LandsOn(job, oks) ==> Restricts(job, fs, oks)))
  {
    hide RunAll, Linked, Durable, Guarded, Trace;
    var st := AfterCall(job, oks, fs);
    Stops(job, fs, oks);
    StaysLinked(job, fs, st);
    ReadsAfter(job, fs, st);
    DurableAfter(job, fs, st);
    GuardedAfter(job, fs, st);
    NeverInBetween(job, fs, oks);
    LandsExactly(job, fs, oks);
    assert Current(fs) in Versions(fs);
    assert Target(fs, path) in Reads(path, fs);
  }

  /** Every run: what the name reads, and what its older versions do. */
  lemma {:induction false} EveryRun(path: string, fs: Fs, es: seq<Event>)
    requires Linked(path, fs) && MayAll(path, fs, es)
    ensures var end := DoAll(path, fs, es);
            && Linked(path, end) && Target(end, path) == Live(path, fs, es)
            && (Durable(path, end) <==> Unwritten(path, fs, es))
            && (Unwritten(path, fs, es) ==> Reads(path, end) == Ever(path, fs, es))
            && (Guarded(path, end) <==> Restricted(path, fs, es))
    decreases |es|
  {
    if |es| > 0 {
      hide Linked, Durable, Guarded, AfterPowerCut, Reads, AfterCall, Appended, Target;
      var front, e := es[..|es| - 1], es[|es| - 1];
      var before := DoAll(path, fs, front);
      EveryRun(path, fs, front);
      match e
      case Replacing(job, oks) => CallKeeps(path, before, job, oks);
      case Appending(bytes, inode) => AppendKeeps(path, before, bytes, inode);
      case Cut(dir, inodes) => CutKeeps(path, before, dir, inodes);
    }
  }

  // ---------------------------------------------------------------- what comes back

  /** WHOLE CONTENTS, AND WHICH. After any run, every power cut leaves something
      that the name has read since the machine came up exactly when nothing was
      appended since then; and any of it may come back, however old. */
  lemma WhatACutBringsBack(path: string, fs: Fs, es: seq<Event>)
    requires Linked(path, fs) && MayAll(path, fs, es)
    ensures var end := DoAll(path, fs, es);
            (forall dir, inodes | AfterPowerCut(end, dir, inodes) :: Read(dir, inodes, path) in Ever(path, fs, es)) <==>
            Unwritten(path, fs, es)
    ensures Unwritten(path, fs, es) ==> forall c | c in Ever(path, fs, es) ::
              exists dir, inodes :: AfterPowerCut(DoAll(path, fs, es), dir, inodes) && Read(dir, inodes, path) == c
  {
    hide Linked, Durable, AfterPowerCut, Reads, Unwritten, Ever, DoAll, MayAll;
    EveryRun(path, fs, es);
    var end := DoAll(path, fs, es);
    if Unwritten(path, fs, es) {
      forall dir, inodes | AfterPowerCut(end, dir, inodes)
        ensures Read(dir, inodes, path) in Ever(path, fs, es)
      {
        DurableCut(path, end, dir, inodes);
      }
      forall c | c in Ever(path, fs, es)
        ensures exists dir, inodes :: AfterPowerCut(end, dir, inodes) && Read(dir, inodes, path) == c
      {
        var dir := CutTo(path, end, c);
      }
    } else {
      var dir, inodes := TornCut(path, end, Ever(path, fs, es));
    }
  }

  /** RESTRICTED WHENEVER IT IS THERE. Where metadata comes back in order, exactly
      when each replacement that landed had hardened its temp; where it does not,
      only of a name that no version has. */
  lemma ProtectedAfterACut(path: string, fs: Fs, es: seq<Event>)
    requires Linked(path, fs) && MayAll(path, fs, es)
    ensures var end := DoAll(path, fs, es);
            && ((forall dir, inodes | AfterPowerCut(end, dir, inodes) && InOrder(end, dir, inodes) ::
                   path in dir ==> dir[path] in Flags(inodes)) <==> Restricted(path, fs, es))
            && ((forall dir, inodes | AfterPowerCut(end, dir, inodes) ::
                   path in dir ==> dir[path] in Flags(inodes)) <==>
                (forall v | v in Versions(end) :: path !in v.dir))
  {
    EveryRun(path, fs, es);
    CutsInOrder(path, DoAll(path, fs, es));
    CutsOutOfOrder(path, DoAll(path, fs, es));
  }

  lemma CutsInOrder(path: string, fs: Fs)
    requires Linked(path, fs)
    ensures (forall dir, inodes | AfterPowerCut(fs, dir, inodes) && InOrder(fs, dir, inodes) ::
               path in dir ==> dir[path] in Flags(inodes)) <==> Guarded(path, fs)
  {
    if !Guarded(path, fs) {
      var v :| v in Versions(fs) && path in v.dir && v.dir[path] !in v.hardened;
      var inodes := map i | i in fs.inodes :: fs.inodes[i].(hardened := i in v.hardened);
      assert v.hardened <= Flags(inodes) && v.dir[path] !in Flags(inodes);
      assert AfterPowerCut(fs, v.dir, inodes) && InOrder(fs, v.dir, inodes);
    }
  }

  lemma CutsOutOfOrder(path: string, fs: Fs)
    requires Linked(path, fs)
    ensures (forall dir, inodes | AfterPowerCut(fs, dir, inodes) :: path in dir ==> dir[path] in Flags(inodes)) <==>
            (forall v | v in Versions(fs) :: path !in v.dir)
  {
    if v :| v in Versions(fs) && path in v.dir {
      var inodes := map i | i in fs.inodes :: fs.inodes[i].(hardened := false);
      assert AfterPowerCut(fs, v.dir, inodes) && path in v.dir && v.dir[path] !in Flags(inodes);
    }
  }

  /** Only ever replaced fail-closed, on a file system that keeps metadata in order. */
  ghost predicate FailClosedOnly(path: string, fs: Fs, es: seq<Event>) {
    |es| > 0 ==>
      var front, e := es[..|es| - 1], es[|es| - 1];
      && FailClosedOnly(path, fs, front)
      && (match e
          case Replacing(job, _) => job.posture.FailClosed?
          case Appending(_, _) => path in DoAll(path, fs, front).dir
          case Cut(dir, inodes) => InOrder(DoAll(path, fs, front), dir, inodes))
  }

  /** Then the file is restricted wherever it is there, after any run and any cut. */
  lemma {:induction false} FailClosedIsProtected(path: string, fs: Fs, es: seq<Event>)
    requires Linked(path, fs) && MayAll(path, fs, es)
    requires Guarded(path, fs) && FailClosedOnly(path, fs, es)
    ensures Restricted(path, fs, es)
    decreases |es|
  {
    if |es| > 0 {
      hide Linked, Guarded, AfterPowerCut, InOrder, AfterCall;
      var front, e := es[..|es| - 1], es[|es| - 1];
      var before := DoAll(path, fs, front);
      EveryRun(path, fs, front);
      FailClosedIsProtected(path, fs, front);
      match e
      case Replacing(job, oks) => CallKeeps(path, before, job, oks);
      case Appending(_, _) =>
      case Cut(dir, inodes) => CutsInOrder(path, before);
    }
  }

  // ---------------------------------------------------------------- two inputs

  function Ones(n: nat): (oks: seq<bool>)
    ensures |oks| == n && forall i | 0 <= i < n :: oks[i]
  {
    seq(n, _ => true)
  }

  /** A call of `replace` in which nothing fails. */
  function Whole(job: Job): Event {
    Replacing(job, Ones(|job.body| + 6))
  }

  lemma MayTwo(path: string, fs: Fs, a: Event, b: Event)
    requires May(path, fs, a) && May(path, Do(path, fs, a), b)
    ensures MayAll(path, fs, [a, b]) && DoAll(path, fs, [a, b]) == Do(path, Do(path, fs, a), b)
  {
    assert [a, b][..1] == [a] && [a][..0] == [];
    assert DoAll(path, fs, []) == fs && MayAll(path, fs, []);
    assert DoAll(path, fs, [a]) == Do(path, fs, a) && MayAll(path, fs, [a]);
  }

  lemma WholeLands(path: string, fs: Fs, job: Job)
    requires Linked(path, fs) && job.path == path && job.inode !in fs.inodes
    ensures Target(Do(path, fs, Whole(job)), path) == Some(job.body)
    ensures Do(path, fs, Whole(job)).inodes.Keys <= fs.inodes.Keys + {job.inode}
    ensures Linked(path, Do(path, fs, Whole(job))) && Reads(path, fs) <= Reads(path, Do(path, fs, Whole(job)))
  {
    NothingFails(job, State(fs, Create), Ones(|job.body| + 6));
    Stops(job, fs, Ones(|job.body| + 6));
    CallKeeps(path, fs, job, Ones(|job.body| + 6));
    assert Current(fs) in Versions(fs);
  }

  /** Two replacements in which nothing failed: a cut can still bring back the
      contents from before both, older than the ones the second replaced. */
  lemma OlderThanTheOld(path: string, oldest: Bytes, middle: Bytes, newest: Bytes)
    ensures var fs := Fs(map[path := 0], map[0 := File(oldest, true, false)], {});
            var es := [Whole(Job(path, NoHardening, middle, 1)), Whole(Job(path, NoHardening, newest, 2))];
            && Linked(path, fs) && MayAll(path, fs, es) && Target(DoAll(path, fs, es), path) == Some(newest)
            && exists dir, inodes ::
                 AfterPowerCut(DoAll(path, fs, es), dir, inodes) && Read(dir, inodes, path) == Some(oldest)
  {
    hide RunAll, AfterPowerCut;
    var fs := Fs(map[path := 0], map[0 := File(oldest, true, false)], {});
    var first, second := Job(path, NoHardening, middle, 1), Job(path, NoHardening, newest, 2);
    var es := [Whole(first), Whole(second)];
    TempIsSibling(path);
    assert Current(fs) in Versions(fs) && Some(oldest) in Reads(path, fs);
    WholeLands(path, fs, first);
    hide Linked, Reads, LandsOn;
    WholeLands(path, Do(path, fs, es[0]), second);
    MayTwo(path, fs, es[0], es[1]);
    var dir := CutTo(path, DoAll(path, fs, es), Some(oldest));
  }

  /** A file appended to and then replaced, with nothing failing, as a trim does
      it: a cut can leave bytes under the name that it never held. */
  lemma ReplacingWhatWasAppended(path: string, fs: Fs, bytes: Bytes, inode: Inode, job: Job)
    requires Linked(path, fs) && |bytes| > 0 && inode !in fs.inodes
    requires job.path == path && job.inode !in fs.inodes && job.inode != inode
    ensures var es := [Appending(bytes, inode), Whole(job)];
            && MayAll(path, fs, es) && Target(DoAll(path, fs, es), path) == Some(job.body)
            && exists dir, inodes ::
                 AfterPowerCut(DoAll(path, fs, es), dir, inodes) && Read(dir, inodes, path) !in Ever(path, fs, es)
  {
    hide RunAll, AfterPowerCut, Linked;
    var es := [Appending(bytes, inode), Whole(job)];
    AppendKeeps(path, fs, bytes, inode);
    WholeLands(path, Appended(path, fs, bytes, inode), job);
    MayTwo(path, fs, es[0], es[1]);
    WhatACutBringsBack(path, fs, es);
    assert es[..1] == [es[0]];
  }
}
