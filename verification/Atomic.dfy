/** Atomic replacement of a file, one system call and one byte at a time, with a
    failure or a crash after any of them. `PowerCut` adds the loss of power. */
module Atomic {
  import opened Jsonl

  type Inode = nat

  datatype Hardening = NoHardening | BestEffort | FailClosed

  datatype File = File(data: Bytes, synced: bool, hardened: bool)

  /** The metadata at one moment: the directory, and the files whose permissions
      are restricted. */
  datatype Version = Version(dir: map<string, Inode>, hardened: set<Inode>)

  /** `dir` is the live directory. A metadata change reaches the platter on its
      own time: `past` holds the earlier versions a power cut may bring back. */
  datatype Fs = Fs(dir: map<string, Inode>, inodes: map<Inode, File>, past: set<Version>)

  /** One call of `replace`. `inode` is what creating the temp would allocate. */
  datatype Job = Job(path: string, posture: Hardening, body: Bytes, inode: Inode)

  function TempPath(path: string): string {
    path + ".tmp"
  }

  lemma TempIsSibling(path: string)
    ensures TempPath(path) != path
  {
    assert |TempPath(path)| == |path| + 4;
  }

  /** What is under a name: nothing, or a file's bytes. */
  function Read(dir: map<string, Inode>, inodes: map<Inode, File>, name: string): Option<Bytes> {
    if name in dir && dir[name] in inodes then Some(inodes[dir[name]].data) else None
  }

  function Target(fs: Fs, path: string): Option<Bytes> {
    Read(fs.dir, fs.inodes, path)
  }

  function Flags(inodes: map<Inode, File>): set<Inode> {
    set i | i in inodes && inodes[i].hardened
  }

  function Current(fs: Fs): Version {
    Version(fs.dir, Flags(fs.inodes))
  }

  /** A directory update: the version it replaces may still come back. */
  function Renamed(fs: Fs, dir: map<string, Inode>): Fs {
    fs.(dir := dir, past := fs.past + {Current(fs)})
  }

  /** A permission update, likewise. */
  function Hardened(fs: Fs, i: Inode, f: File): Fs {
    fs.(inodes := fs.inodes[i := f.(hardened := true)], past := fs.past + {Current(fs)})
  }

  // ---------------------------------------------------------------- the sequence

  datatype Pc =
    | Create
    | Writing(done: nat)
    | Flush
    | Sync
    | Harden
    | Rename
    | CleanUp
    | Done(ok: bool, removed: bool)

  datatype State = State(fs: Fs, pc: Pc)

  /** The temp's inode: a leftover temp is truncated in place. */
  function TempInode(job: Job, fs: Fs): Inode {
    var tmp := TempPath(job.path);
    if tmp in fs.dir then fs.dir[tmp] else job.inode
  }

  function Updated(fs: Fs, i: Inode, f: File): Fs {
    fs.(inodes := fs.inodes[i := f])
  }

  /** One call; `ok` is the system's answer to it. */
  function Next(job: Job, st: State, ok: bool): State {
    var tmp := TempPath(job.path);
    var i := TempInode(job, st.fs);
    var f := if i in st.fs.inodes then st.fs.inodes[i] else File([], false, false);
    match st.pc
    case Create =>
      if !ok then st.(pc := CleanUp)
      else
        var made := Updated(st.fs, i, File([], false, f.hardened && tmp in st.fs.dir));
        State(if tmp in st.fs.dir then made else Renamed(made, made.dir[tmp := i]), Writing(0))
    case Writing(done) =>
      if !ok then st.(pc := CleanUp)
      else if done >= |job.body| then st.(pc := Flush)
      else State(Updated(st.fs, i, f.(data := f.data + [job.body[done]], synced := false)), Writing(done + 1))
    case Flush => st.(pc := if ok then Sync else CleanUp)
    case Sync =>
      if !ok then st.(pc := CleanUp) else State(Updated(st.fs, i, f.(synced := true)), Harden)
    case Harden =>
      (match job.posture
       case NoHardening => st.(pc := Rename)
       case BestEffort => State(if ok then Hardened(st.fs, i, f) else st.fs, Rename)
       case FailClosed =>
         if !ok then st.(pc := CleanUp) else State(Hardened(st.fs, i, f), Rename))
    case Rename =>
      if !ok then st.(pc := CleanUp)
      else State(Renamed(st.fs, (st.fs.dir - {tmp})[job.path := i]), Done(true, false))
    case CleanUp =>
      State(if ok && tmp in st.fs.dir then Renamed(st.fs, st.fs.dir - {tmp}) else st.fs, Done(false, ok))
    case Done(_, _) => st
  }

  function RunAll(job: Job, st: State, oks: seq<bool>): State
    decreases |oks|
  {
    if |oks| == 0 then st else RunAll(job, Next(job, st, oks[0]), oks[1..])
  }

  // ---------------------------------------------------------------- safety

  /** Before the call: names have files, and a leftover temp is not the target. */
  ghost predicate Ready(job: Job, fs: Fs) {
    var tmp := TempPath(job.path);
    && job.inode !in fs.inodes
    && (forall n | n in fs.dir :: fs.dir[n] in fs.inodes)
    && (tmp in fs.dir && job.path in fs.dir ==> fs.dir[tmp] != fs.dir[job.path])
  }

  predicate SameEntry(d: map<string, Inode>, e: map<string, Inode>, name: string) {
    (name in d <==> name in e) && (name in d ==> d[name] == e[name])
  }

  /** The target's entry is as before the call, in the directory and in every
      version of it that the call has left behind. */
  ghost predicate Untouched(job: Job, fs0: Fs, fs: Fs) {
    && SameEntry(fs.dir, fs0.dir, job.path)
    && (forall v | v in fs.past && v !in fs0.past :: SameEntry(v.dir, fs0.dir, job.path))
    && OldFileWhole(job, fs0, fs)
  }

  function Temp(job: Job, fs0: Fs): Inode {
    TempInode(job, fs0)
  }

  ghost predicate Inv(job: Job, fs0: Fs, st: State) {
    var tmp, i := TempPath(job.path), Temp(job, fs0);
    if st.pc.Create? then st.fs == fs0
    else if Landed(st) then Installed(job, fs0, st.fs)
    else if st.pc.Done? then Untouched(job, fs0, st.fs) && (st.pc.removed ==> tmp !in st.fs.dir)
    else if st.pc.CleanUp? then Untouched(job, fs0, st.fs)
    else
      && Untouched(job, fs0, st.fs)
      && tmp in st.fs.dir && st.fs.dir[tmp] == i && i in st.fs.inodes
      && (if st.pc.Writing? then st.pc.done <= |job.body| && st.fs.inodes[i].data == job.body[..st.pc.done]
          else st.fs.inodes[i].data == job.body)
      && (st.pc.Harden? || st.pc.Rename? ==> st.fs.inodes[i].synced)
      && (st.pc.Rename? && job.posture.FailClosed? ==> st.fs.inodes[i].hardened)
  }

  /** The new contents are under the name: synced, hardened when that is
      required, and the old file still whole behind every older directory. */
  ghost predicate Installed(job: Job, fs0: Fs, fs: Fs) {
    var tmp, i := TempPath(job.path), Temp(job, fs0);
    && i in fs.inodes && fs.inodes[i].data == job.body && fs.inodes[i].synced
    && (job.posture.FailClosed? ==> fs.inodes[i].hardened)
    && job.path in fs.dir && fs.dir[job.path] == i && tmp !in fs.dir
    && (forall v | v in fs.past && v !in fs0.past :: SameEntry(v.dir, fs0.dir, job.path))
    && OldFileWhole(job, fs0, fs)
  }

  ghost predicate OldFileWhole(job: Job, fs0: Fs, fs: Fs) {
    job.path in fs0.dir ==>
      && fs0.dir[job.path] in fs0.inodes && fs0.dir[job.path] in fs.inodes
      && fs.inodes[fs0.dir[job.path]] == fs0.inodes[fs0.dir[job.path]]
  }

  predicate Landed(st: State) {
    st.pc.Done? && st.pc.ok
  }

  lemma NextKeepsInv(job: Job, fs0: Fs, st: State, ok: bool)
    requires Ready(job, fs0) && Inv(job, fs0, st)
    ensures Inv(job, fs0, Next(job, st, ok))
  {
    TempIsSibling(job.path);
    if st.pc.Writing? && st.pc.done < |job.body| {
      assert job.body[..st.pc.done] + [job.body[st.pc.done]] == job.body[..st.pc.done + 1];
    }
    if st.pc.Writing? && st.pc.done == |job.body| {
      assert job.body[..st.pc.done] == job.body;
    }
  }

  lemma {:induction false} RunKeepsInv(job: Job, fs0: Fs, st: State, oks: seq<bool>)
    requires Ready(job, fs0) && Inv(job, fs0, st)
    ensures Inv(job, fs0, RunAll(job, st, oks))
    decreases |oks|
  {
    hide Inv, Ready, Next;
    if |oks| > 0 {
      NextKeepsInv(job, fs0, st, oks[0]);
      RunKeepsInv(job, fs0, Next(job, st, oks[0]), oks[1..]);
    }
  }

  /** WHOLE OLD OR WHOLE NEW. Stop the sequence anywhere, with any calls having
      failed: the process that looks next reads the old contents or the new. The
      new ones are only ever under the name once synced and, fail-closed,
      hardened, and then no temp is left; nor after a clean-up that succeeded. */
  lemma NeverInBetween(job: Job, fs0: Fs, oks: seq<bool>)
    requires Ready(job, fs0)
    ensures var st := RunAll(job, State(fs0, Create), oks);
            var tmp := TempPath(job.path);
            && Target(st.fs, job.path) == (if Landed(st) then Some(job.body) else Target(fs0, job.path))
            && (Landed(st) ==>
                  && job.path in st.fs.dir && st.fs.dir[job.path] in st.fs.inodes
                  && st.fs.inodes[st.fs.dir[job.path]].synced
                  && (job.posture.FailClosed? ==> st.fs.inodes[st.fs.dir[job.path]].hardened)
                  && tmp !in st.fs.dir)
            && (st.pc == Done(false, true) ==> tmp !in st.fs.dir)
  {
    RunKeepsInv(job, fs0, State(fs0, Create), oks);
  }

  function CallsLeft(job: Job, pc: Pc): int {
    match pc
    case Create => |job.body| + 6
    case Writing(done) => |job.body| - done + 5
    case Flush => 4
    case Sync => 3
    case Harden => 2
    case Rename => 1
    case _ => 0
  }

  /** When every call succeeds, the sequence runs to the end. */
  lemma {:induction false} NothingFails(job: Job, st: State, oks: seq<bool>)
    requires forall i | 0 <= i < |oks| :: oks[i]
    requires |oks| == CallsLeft(job, st.pc)
    requires st.pc.Writing? ==> st.pc.done <= |job.body|
    requires !st.pc.CleanUp? && (st.pc.Done? ==> st.pc.ok)
    ensures Landed(RunAll(job, st, oks))
    decreases |oks|
  {
    if |oks| > 0 {
      NothingFails(job, Next(job, st, true), oks[1..]);
    }
  }

  // ---------------------------------------------------------------- which answers land

  /** The answers that the new contents wait for: to the creation, each byte of
      the body, its end, the flush, the sync, the hardening, the rename. Only a
      fail-closed posture waits for the hardening's. */
  predicate AllPass(job: Job, oks: seq<bool>, n: nat)
    requires n <= |oks|
  {
    forall i | 0 <= i < n :: oks[i] || (i == HardeningCall(job) && !job.posture.FailClosed?)
  }

  function HardeningCall(job: Job): nat {
    |job.body| + 4
  }

  predicate LandsOn(job: Job, oks: seq<bool>) {
    |oks| >= |job.body| + 6 && AllPass(job, oks, |job.body| + 6)
  }

  function PcAt(job: Job, n: nat): Pc {
    var k := |job.body|;
    if n == 0 then Create
    else if n <= k + 1 then Writing(n - 1)
    else if n == k + 2 then Flush
    else if n == k + 3 then Sync
    else if n == k + 4 then Harden
    else if n == k + 5 then Rename
    else Done(true, false)
  }

  /** The permissions of the file that the new contents are, or would be, in. */
  function Restricts(job: Job, fs0: Fs, oks: seq<bool>): bool {
    || (!job.posture.NoHardening? && |oks| > HardeningCall(job) && oks[HardeningCall(job)])
    || (TempPath(job.path) in fs0.dir && fs0.dir[TempPath(job.path)] in Flags(fs0.inodes))
  }

  /** Where a call stands after some answers. */
  ghost predicate Stands(job: Job, fs0: Fs, oks: seq<bool>, st: State) {
    var n := if |oks| < |job.body| + 6 then |oks| else |job.body| + 6;
    if AllPass(job, oks, n) then
      && st.pc == PcAt(job, n)
      && (n > 0 ==> Temp(job, fs0) in st.fs.inodes &&
                    (st.fs.inodes[Temp(job, fs0)].hardened <==> Restricts(job, fs0, oks)) &&
                    (st.fs.inodes[Temp(job, fs0)].synced <==> n > |job.body| + 3))
    else st.pc.CleanUp? || (st.pc.Done? && !st.pc.ok)
  }

  lemma PassSnoc(job: Job, oks: seq<bool>, ok: bool)
    ensures AllPass(job, oks + [ok], |oks| + 1) <==>
            AllPass(job, oks, |oks|) && (ok || (|oks| == HardeningCall(job) && !job.posture.FailClosed?))
    ensures forall n | 0 <= n <= |oks| :: AllPass(job, oks + [ok], n) <==> AllPass(job, oks, n)
  {
    var all := oks + [ok];
    assert forall i | 0 <= i < |oks| :: all[i] == oks[i];
    assert all[|oks|] == ok;
  }

  lemma RestrictsSnoc(job: Job, fs0: Fs, oks: seq<bool>, ok: bool)
    ensures Restricts(job, fs0, oks + [ok]) <==>
            Restricts(job, fs0, oks) || (!job.posture.NoHardening? && |oks| == HardeningCall(job) && ok)
  {
  }

  /** One call's effect on where it stands and on the temp's permissions. */
  lemma NextStands(job: Job, fs0: Fs, oks: seq<bool>, st: State, ok: bool)
    requires Ready(job, fs0) && Inv(job, fs0, st) && Stands(job, fs0, oks, st)
    ensures Stands(job, fs0, oks + [ok], Next(job, st, ok))
  {
    PassSnoc(job, oks, ok);
    RestrictsSnoc(job, fs0, oks, ok);
    hide AllPass, Restricts;
    if |oks| < |job.body| + 6 && AllPass(job, oks, |oks|) {
      NextPc(job, fs0, st, ok, |oks|);
      NextHardened(job, fs0, st, ok);
      hide Next, Inv, Ready;
      if |oks| == 0 {
        NothingRestricted(job, fs0, oks);
      }
    } else {
      hide Inv, Ready;
    }
  }

  lemma NothingRestricted(job: Job, fs0: Fs, oks: seq<bool>)
    requires |oks| == 0
    ensures Restricts(job, fs0, oks) <==>
            TempPath(job.path) in fs0.dir && fs0.dir[TempPath(job.path)] in Flags(fs0.inodes)
  {
  }

  lemma NextPc(job: Job, fs0: Fs, st: State, ok: bool, n: nat)
    requires Inv(job, fs0, st) && n < |job.body| + 6 && st.pc == PcAt(job, n)
    ensures Next(job, st, ok).pc ==
            if ok || (n == HardeningCall(job) && !job.posture.FailClosed?) then PcAt(job, n + 1) else CleanUp
  {
    hide Inv, Updated, Renamed, Hardened, TempInode;
  }

  lemma NextHardened(job: Job, fs0: Fs, st: State, ok: bool)
    requires Ready(job, fs0) && Inv(job, fs0, st) && !st.pc.Done? && !st.pc.CleanUp?
    ensures var st', i, tmp := Next(job, st, ok), Temp(job, fs0), TempPath(job.path);
            && (!st'.pc.CleanUp? ==> i in st'.fs.inodes)
            && (st'.pc.Done? ==> st'.fs.dir == (st.fs.dir - {tmp})[job.path := i])
            && (st.pc.Create? && ok ==> (st'.fs.inodes[i].hardened <==> tmp in fs0.dir && i in Flags(fs0.inodes)))
            && (st.pc.Create? && ok ==> !st'.fs.inodes[i].synced)
            && (!st.pc.Create? && !st'.pc.CleanUp? ==>
                  (st'.fs.inodes[i].synced <==>
                   st.pc.Sync? || (st.fs.inodes[i].synced && st'.pc != st.pc && !st'.pc.Writing?)))
            && (!st.pc.Create? ==> i in st.fs.inodes)
            && (!st.pc.Create? && !st'.pc.CleanUp? ==>
                  (st'.fs.inodes[i].hardened <==>
                   st.fs.inodes[i].hardened || (st.pc.Harden? && !job.posture.NoHardening? && ok)))
  {
  }

  lemma {:induction false} WhereACallStands(job: Job, fs0: Fs, oks: seq<bool>)
    requires Ready(job, fs0)
    ensures Stands(job, fs0, oks, RunAll(job, State(fs0, Create), oks))
    decreases |oks|
  {
    if |oks| > 0 {
      hide Stands, Ready, Inv, Next;
      var front, ok := oks[..|oks| - 1], oks[|oks| - 1];
      assert oks == front + [ok];
      WhereACallStands(job, fs0, front);
      RunSnoc(job, State(fs0, Create), front, ok);
      InitInv(job, fs0);
      RunKeepsInv(job, fs0, State(fs0, Create), front);
      NextStands(job, fs0, front, RunAll(job, State(fs0, Create), front), ok);
    }
  }

  lemma InitInv(job: Job, fs0: Fs)
    ensures Inv(job, fs0, State(fs0, Create))
  {
  }

  /** A call that the system refuses changes nothing on disk. */
  lemma RefusedChangesNothing(job: Job, st: State)
    ensures Next(job, st, false).fs == st.fs
  {
  }

  /** WHICH RUNS LAND, AND HOW PROTECTED. The new contents land exactly when
      every answer they wait for was a success; the file is then restricted
      exactly when there is a posture and the hardening succeeded, or when the
      temp that the call truncated was restricted already. */
  lemma LandsExactly(job: Job, fs0: Fs, oks: seq<bool>)
    requires Ready(job, fs0)
    ensures var st := RunAll(job, State(fs0, Create), oks);
            && (Landed(st) <==> LandsOn(job, oks))
            && (Landed(st) ==> job.path in st.fs.dir)
            && (Landed(st) ==> (st.fs.dir[job.path] in Flags(st.fs.inodes) <==> Restricts(job, fs0, oks)))
  {
    WhereACallStands(job, fs0, oks);
    RunKeepsInv(job, fs0, State(fs0, Create), oks);
  }

  // ---------------------------------------------------------------- the method

  /** The system's answers to one call of `replace`. */
  datatype Answers = Answers(
    create: bool, written: nat, flush: bool, sync: bool, harden: bool, rename: bool, remove: bool)

  lemma {:induction false} RunSnoc(job: Job, st: State, oks: seq<bool>, ok: bool)
    ensures RunAll(job, st, oks + [ok]) == Next(job, RunAll(job, st, oks), ok)
    decreases |oks|
  {
    hide Next;
    if |oks| == 0 {
      assert [] + [ok] == [ok];
      assert RunAll(job, Next(job, st, ok), [ok][1..]) == Next(job, st, ok);
    } else {
      assert (oks + [ok])[1..] == oks[1..] + [ok];
      RunSnoc(job, Next(job, st, oks[0]), oks[1..], ok);
    }
  }

  lemma {:induction false} RunConcat(job: Job, st: State, a: seq<bool>, b: seq<bool>)
    ensures RunAll(job, st, a + b) == RunAll(job, RunAll(job, st, a), b)
    decreases |b|
  {
    hide Next;
    if |b| == 0 {
      assert a + b == a;
    } else {
      var front, ok := b[..|b| - 1], b[|b| - 1];
      RunConcat(job, st, a, front);
      RunSnoc(job, st, a + front, ok);
      RunSnoc(job, RunAll(job, st, a), front, ok);
      assert a + b == a + front + [ok] && b == front + [ok];
    }
  }

  /** `replace` and its helpers, each call of them a step of the sequence above. */
  class Disk {
    var dir: map<string, Inode>
    var inodes: map<Inode, File>
    ghost var past: set<Version>

    ghost function Now(): Fs
      reads this
    {
      Fs(dir, inodes, past)
    }

    predicate HasTemp(job: Job)
      reads this
    {
      TempPath(job.path) in dir && dir[TempPath(job.path)] in inodes
    }

    /** Whether the temp, if any, is restricted. */
    predicate TempHardened(job: Job)
      reads this
    {
      HasTemp(job) && inodes[dir[TempPath(job.path)]].hardened
    }

    constructor (dir: map<string, Inode>, inodes: map<Inode, File>)
      ensures this.dir == dir && this.inodes == inodes && past == {}
    {
      this.dir, this.inodes, past := dir, inodes, {};
    }

    method CreateTemp(job: Job)
      modifies this
      ensures State(Now(), Writing(0)) == Next(job, State(old(Now()), Create), true) && HasTemp(job)
      ensures TempHardened(job) == old(TempHardened(job))
    {
      var tmp := TempPath(job.path);
      var there := tmp in dir;
      var i := if there then dir[tmp] else job.inode;
      var hardened := there && i in inodes && inodes[i].hardened;
      inodes := inodes[i := File([], false, hardened)];
      if !there {
        past := past + {Current(Now())};
        dir := dir[tmp := i];
      }
    }

    /** Write the body to the temp; `written` bytes go through. */
    method WriteBody(job: Job, written: nat) returns (ok: bool, ghost oks: seq<bool>)
      requires HasTemp(job)
      modifies this`inodes
      ensures HasTemp(job) && (ok <==> written >= |job.body|) && TempHardened(job) == old(TempHardened(job))
      ensures RunAll(job, State(old(Now()), Writing(0)), oks) == State(Now(), if ok then Flush else CleanUp)
    {
      var i := dir[TempPath(job.path)];
      ghost var st := State(Now(), Writing(0));
      oks := [];
      var done := 0;
      while done < |job.body| && done < written
        invariant done <= |job.body| && done <= written && HasTemp(job)
        invariant TempHardened(job) == old(TempHardened(job))
        invariant RunAll(job, st, oks) == State(Now(), Writing(done))
      {
        RunSnoc(job, st, oks, true);
        oks := oks + [true];
        inodes := inodes[i := inodes[i].(data := inodes[i].data + [job.body[done]], synced := false)];
        done := done + 1;
      }
      ok := done == |job.body|;
      RunSnoc(job, st, oks, ok);
      oks := oks + [ok];
    }

    /** Everything the device still holds of the temp goes out. */
    method SyncTemp(job: Job, flush: bool, sync: bool) returns (ok: bool, ghost oks: seq<bool>)
      requires HasTemp(job)
      modifies this`inodes
      ensures HasTemp(job) && (ok <==> flush && sync) && TempHardened(job) == old(TempHardened(job))
      ensures RunAll(job, State(old(Now()), Flush), oks) == State(Now(), if ok then Harden else CleanUp)
    {
      ghost var st := State(Now(), Flush);
      RunSnoc(job, st, [], flush);
      oks := [flush];
      assert [] + [flush] == oks;
      ok := flush && sync;
      if flush {
        RunSnoc(job, st, oks, sync);
        oks := oks + [sync];
      }
      if ok {
        var i := dir[TempPath(job.path)];
        inodes := inodes[i := inodes[i].(synced := true)];
      }
    }

    /** The posture, applied to the temp: it is restricted afterwards when it
        was before, or when there is a posture and the system's answer is yes. */
    method HardenTemp(job: Job, answer: bool) returns (ok: bool)
      requires HasTemp(job)
      modifies this`inodes, this`past
      ensures HasTemp(job) && (ok <==> job.posture.FailClosed? ==> answer)
      ensures TempHardened(job) <==> old(TempHardened(job)) || (!job.posture.NoHardening? && answer)
      ensures Next(job, State(old(Now()), Harden), answer) == State(Now(), if ok then Pc.Rename else CleanUp)
    {
      var i := dir[TempPath(job.path)];
      match job.posture {
        case NoHardening => return true;
        case BestEffort =>
          if answer {
            past := past + {Current(Now())};
            inodes := inodes[i := inodes[i].(hardened := true)];
          }
          return true;
        case FailClosed =>
          if !answer {
            return false;
          }
          past := past + {Current(Now())};
          inodes := inodes[i := inodes[i].(hardened := true)];
          return true;
      }
    }

    method RenameTemp(job: Job)
      requires HasTemp(job)
      modifies this`dir, this`past
      ensures Next(job, State(old(Now()), Pc.Rename), true) == State(Now(), Done(true, false))
      ensures job.path in dir && dir[job.path] in inodes
      ensures inodes[dir[job.path]].hardened == old(TempHardened(job))
    {
      var tmp := TempPath(job.path);
      past := past + {Current(Now())};
      dir := (dir - {tmp})[job.path := dir[tmp]];
    }

    method RemoveTemp(job: Job, removed: bool)
      modifies this`dir, this`past
      ensures Next(job, State(old(Now()), CleanUp), removed) == State(Now(), Done(false, removed))
      ensures !removed ==> Now() == old(Now())
    {
      if removed && TempPath(job.path) in dir {
        past := past + {Current(Now())};
        dir := dir - {TempPath(job.path)};
      }
    }

    /** The temp, ready to be renamed; no rollback of its own. */
    method PrepareTemp(job: Job, a: Answers) returns (ok: bool, ghost oks: seq<bool>)
      modifies this
      ensures ok ==> HasTemp(job)
      ensures ok ==> (TempHardened(job) <==> old(TempHardened(job)) || (!job.posture.NoHardening? && a.harden))
      ensures ok <==> a.create && a.written >= |job.body| && a.flush && a.sync && (job.posture.FailClosed? ==> a.harden)
      ensures RunAll(job, State(old(Now()), Create), oks) == State(Now(), if ok then Pc.Rename else CleanUp)
    {
      hide Next;
      ghost var st := State(Now(), Create);
      RunSnoc(job, st, [], a.create);
      oks := [a.create];
      assert [] + [a.create] == oks;
      if !a.create {
        FailedCreate(job, st);
        return false, oks;
      }
      CreateTemp(job);
      ghost var more;
      ok, more := WriteBody(job, a.written);
      RunConcat(job, st, oks, more);
      oks := oks + more;
      if ok {
        ok, more := SyncTemp(job, a.flush, a.sync);
        RunConcat(job, st, oks, more);
        oks := oks + more;
      }
      if ok {
        ok := HardenTemp(job, a.harden);
        RunSnoc(job, st, oks, a.harden);
        oks := oks + [a.harden];
      }
    }

    /** Prepare and rename. */
    method WriteTempAndRename(job: Job, a: Answers) returns (ok: bool, ghost oks: seq<bool>)
      modifies this
      ensures ok <==> a.create && a.written >= |job.body| && a.flush && a.sync
                      && (job.posture.FailClosed? ==> a.harden) && a.rename
      ensures ok ==> job.path in dir && dir[job.path] in inodes
      ensures ok ==> (inodes[dir[job.path]].hardened <==>
                      old(TempHardened(job)) || (!job.posture.NoHardening? && a.harden))
      ensures RunAll(job, State(old(Now()), Create), oks) == State(Now(), if ok then Done(true, false) else CleanUp)
    {
      hide Next;
      ghost var st := State(Now(), Create);
      ok, oks := PrepareTemp(job, a);
      if ok {
        RunSnoc(job, st, oks, a.rename);
        oks := oks + [a.rename];
        if a.rename {
          RenameTemp(job);
        } else {
          FailedRename(job, Now());
          ok := false;
        }
      }
    }

    /** The whole call, one run of the sequence: an error leaves the target as it
        was, and no temp when removing it succeeds. */
    method Replace(job: Job, a: Answers) returns (ok: bool, ghost oks: seq<bool>)
      requires Ready(job, Now())
      modifies this
      ensures RunAll(job, State(old(Now()), Create), oks)
           == State(Now(), if ok then Done(true, false) else Done(false, a.remove))
      ensures ok <==> a.create && a.written >= |job.body| && a.flush && a.sync
                      && (job.posture.FailClosed? ==> a.harden) && a.rename
      ensures Read(dir, inodes, job.path) == if ok then Some(job.body) else Read(old(dir), old(inodes), job.path)
      ensures ok ==> job.path in dir && dir[job.path] in inodes && inodes[dir[job.path]].synced
      ensures ok && job.posture.FailClosed? ==> inodes[dir[job.path]].hardened
      ensures ok ==> (inodes[dir[job.path]].hardened <==>
                      old(TempHardened(job)) || (!job.posture.NoHardening? && a.harden))
      ensures ok || a.remove ==> TempPath(job.path) !in dir
    {
      hide Next, Ready;
      ghost var st := State(Now(), Create);
      ok, oks := WriteTempAndRename(job, a);
      if !ok {
        RunSnoc(job, st, oks, a.remove);
        oks := oks + [a.remove];
        RemoveTemp(job, a.remove);
      }
      RunKeepsInv(job, st.fs, st, oks);
    }
  }

  lemma FailedCreate(job: Job, st: State)
    requires st.pc.Create?
    ensures Next(job, st, false) == st.(pc := CleanUp)
  {
  }

  lemma FailedRename(job: Job, fs: Fs)
    ensures Next(job, State(fs, Rename), false) == State(fs, CleanUp)
  {
  }
}
