/** Retention of the session audit trail: whole files that are past the window
    are deleted at startup. */
module Pruning {
  import opened Jsonl
  import opened Retention

  const NANOS: nat := 1_000_000_000

  /** What the prune looks at of a file: the creation second of its header, if
      its first line has one, and its modification time, in nanoseconds. */
  datatype AuditFile = AuditFile(createdAt: Option<u64>, mtime: Option<nat>)

  /** The header's clock, and the file system's only without it; a stamp in the
      future is no age at all. */
  function AgeOf(f: AuditFile, now: nat): nat {
    var stamp := match f.createdAt
                 case Some(secs) => secs as int * NANOS
                 case None => if f.mtime.Some? then f.mtime.value else 0;
    if now < stamp then 0 else now - stamp
  }

  predicate EndsWith(name: string, suffix: string) {
    |suffix| <= |name| && name[|name| - |suffix|..] == suffix
  }

  lemma AuditNames(name: string)
    ensures IsAudit(name) <==>
            || (|name| >= 6 && name[|name| - 6..] == ".jsonl")
            || (|name| >= 10 && name[|name| - 10..] == ".jsonl.tmp")
  {
  }

  predicate IsAudit(name: string) {
    EndsWith(name, ".jsonl") || EndsWith(name, ".jsonl.tmp")
  }

  /** The window in nanoseconds: the clamped days, or all of the epoch so far
      when that is shorter; longer on a clock whose milliseconds pass 64 bits. */
  function Window(days: u64, nowSecs: u64): nat {
    var kept := if days as int < 1 then 1 else if days as int > 36_500 then 36_500 else days as int;
    (if nowSecs as int * 1000 > U64_MAX then nowSecs as int - (U64_MAX - kept * 86_400_000) / 1000
     else if kept * 86_400 < nowSecs as int then kept * 86_400
     else nowSecs as int) * NANOS
  }

  /** WHICH FILES ARE STALE: exactly those older than the clamped window. */
  lemma StaleExactly(days: u64, nowSecs: u64, ageNanos: nat)
    ensures Stale(days, nowSecs, ageNanos) <==> ageNanos > Window(days, nowSecs)
  {
    var clamped := Clamp(days, MIN_RETENTION_DAYS as u64, MAX_RETENTION_DAYS as u64) as int;
    assert 0 <= clamped * DAY_MS <= MAX_RETENTION_DAYS * DAY_MS <= U64_MAX;
    assert clamped * DAY_MS == clamped * 86_400 * 1000;
    if U64_MAX >= nowSecs as int * 1000 >= clamped * DAY_MS {
      assert (nowSecs as int * 1000 - clamped * DAY_MS) / 1000 == nowSecs as int - clamped * 86_400;
    }
  }

  class AuditDir {
    var files: map<string, AuditFile>

    constructor (files: map<string, AuditFile>)
      ensures this.files == files
    {
      this.files := files;
    }

    /** Delete the stale audit files and count them. Each age is taken from a
        clock of its own, `clock`; the files in `stuck` cannot be deleted. */
    method PruneStale(days: u64, nowSecs: u64, clock: string -> nat, stuck: set<string>) returns (removed: nat)
      modifies this
      ensures forall n :: n in files <==>
                n in old(files) &&
                !(IsAudit(n) && n !in stuck && AgeOf(old(files)[n], clock(n)) > Window(days, nowSecs))
      ensures forall n | n in files :: files[n] == old(files)[n]
      ensures removed == |old(files)| - |files|
    {
      removed := 0;
      var rest := files.Keys;
      while rest != {}
        invariant rest <= files.Keys && files.Keys <= old(files).Keys
        invariant forall n | n in files :: files[n] == old(files)[n]
        invariant forall n | n in old(files) && n !in rest ::
          n in files <==> !(IsAudit(n) && n !in stuck && AgeOf(old(files)[n], clock(n)) > Window(days, nowSecs))
        invariant removed == |old(files)| - |files|
        decreases |rest|
      {
        var n :| n in rest;
        rest := rest - {n};
        StaleExactly(days, nowSecs, AgeOf(files[n], clock(n)));
        if IsAudit(n) && Stale(days, nowSecs, AgeOf(files[n], clock(n))) && n !in stuck {
          assert |files - {n}| == |files| - 1 by {
            Without(files, n);
          }
          files := files - {n};
          removed := removed + 1;
        }
      }
    }
  }

  lemma Without(m: map<string, AuditFile>, n: string)
    requires n in m
    ensures |m - {n}| == |m| - 1
  {
    assert (m - {n}).Keys == m.Keys - {n};
    assert |m| == |m.Keys| && |m - {n}| == |(m - {n}).Keys|;
  }
}
