/** The age window every record family shares, in unsigned 64-bit arithmetic. */
module Retention {
  const U64_MAX: nat := 0xffff_ffff_ffff_ffff
  const MIN_RETENTION_DAYS: nat := 1
  const MAX_RETENTION_DAYS: nat := 36_500
  const DAY_MS: nat := 86_400_000
  const DAY_SECS: nat := 86_400

  newtype u64 = x: int | 0 <= x <= 0xffff_ffff_ffff_ffff

  function SaturatingMul(a: u64, b: u64): u64 {
    if a as int * b as int > U64_MAX then U64_MAX as u64 else (a as int * b as int) as u64
  }

  function SaturatingSub(a: u64, b: u64): u64 {
    if a < b then 0 else a - b
  }

  function Clamp(x: u64, lo: u64, hi: u64): u64
    requires lo <= hi
  {
    if x < lo then lo else if x > hi then hi else x
  }

  /** The resolved boundary, in milliseconds. */
  datatype Cutoff = Cutoff(ms: u64)
  {
    predicate Excludes(stampMs: u64) {
      stampMs < ms
    }

    function Secs(): u64 {
      ms / 1000
    }

    predicate ExcludesSecs(stampSecs: u64) {
      stampSecs < Secs()
    }
  }

  function DaysBefore(days: u64, nowMs: u64): Cutoff {
    Cutoff(SaturatingSub(nowMs,
      SaturatingMul(Clamp(days, MIN_RETENTION_DAYS as u64, MAX_RETENTION_DAYS as u64), DAY_MS as u64)))
  }

  function CappedDaysBefore(days: u64, nowMs: u64): Cutoff {
    Cutoff(SaturatingSub(nowMs,
      SaturatingMul(if days > MAX_RETENTION_DAYS as u64 then MAX_RETENTION_DAYS as u64 else days, DAY_MS as u64)))
  }

  /** NOTHING WRAPS: for every argument the machine can hold, a stamp is
      excluded exactly when it is more than the clamped number of days old. */
  lemma WindowIsExact(days: u64, nowMs: u64, stampMs: u64)
    ensures var kept := if days as int < 1 then 1 else if days as int > 36_500 then 36_500 else days as int;
            DaysBefore(days, nowMs).Excludes(stampMs) <==> stampMs as int + kept * 86_400_000 < nowMs as int
    ensures var kept := if days as int > 36_500 then 36_500 else days as int;
            CappedDaysBefore(days, nowMs).Excludes(stampMs) <==> stampMs as int + kept * 86_400_000 < nowMs as int
  {
    var clamped := Clamp(days, MIN_RETENTION_DAYS as u64, MAX_RETENTION_DAYS as u64) as int;
    assert 0 <= clamped * DAY_MS <= MAX_RETENTION_DAYS * DAY_MS <= U64_MAX;
    var capped := if days as int > MAX_RETENTION_DAYS then MAX_RETENTION_DAYS else days as int;
    assert 0 <= capped * DAY_MS <= MAX_RETENTION_DAYS * DAY_MS;
  }

  /** THE FLOOR: no argument reaches a record of the last day. */
  lemma LastDayIsKept(days: u64, nowMs: u64, stampMs: u64)
    requires stampMs as int + DAY_MS >= nowMs as int
    ensures !DaysBefore(days, nowMs).Excludes(stampMs)
  {
    WindowIsExact(days, nowMs, stampMs);
  }

  /** The seconds rule excludes a second exactly when the milliseconds rule
      excludes every stamp within it: it can only keep more. */
  lemma SecondsKeepMore(c: Cutoff, secs: u64)
    requires secs as int * 1000 + 999 <= U64_MAX
    ensures c.ExcludesSecs(secs) <==>
            forall m: u64 | secs as int * 1000 <= m as int < secs as int * 1000 + 1000 :: c.Excludes(m)
  {
    var last := (secs as int * 1000 + 999) as u64;
    assert c.ExcludesSecs(secs) <==> c.Excludes(last);
  }

  /** The audit trail's pruning test on one file: its age, to the nanosecond,
      against the whole-second distance from now to the cutoff. */
  predicate Stale(days: u64, nowSecs: u64, ageNanos: nat) {
    var cutoff := DaysBefore(days, SaturatingMul(nowSecs, 1000));
    ageNanos > SaturatingSub(nowSecs, cutoff.Secs()) as int * 1_000_000_000
  }

  /** Its floor: a file at most a day old survives every argument, on any clock
      past the first day of the epoch. */
  lemma FreshFileSurvives(days: u64, nowSecs: u64, ageNanos: nat)
    requires DAY_SECS <= nowSecs as int <= U64_MAX / 1000
    requires ageNanos <= DAY_SECS * 1_000_000_000
    ensures !Stale(days, nowSecs, ageNanos)
  {
    var clamped := Clamp(days, MIN_RETENTION_DAYS as u64, MAX_RETENTION_DAYS as u64) as int;
    assert DAY_MS <= clamped * DAY_MS <= MAX_RETENTION_DAYS * DAY_MS <= U64_MAX;
    assert nowSecs as int * 1000 <= U64_MAX;
    assert (nowSecs as int * 1000 - clamped * DAY_MS) / 1000 <= nowSecs as int - DAY_SECS;
  }
}
