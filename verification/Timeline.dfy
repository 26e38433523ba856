/** The operation timeline: terminal events and browser actions merged in
    millisecond order, newest `limit`, with two read shortcuts that must not
    show: a line cap on the browser feed and skipping old session files. */
module Timeline {
  import opened Jsonl

  const OPERATION_READ_CAP: nat := 500
  const OPERATION_KINDS: seq<string> := ["command/start", "command/end", "goal", "plan", "approval", "control"]

  /** A line of either feed: what of it the timeline looks at, and the rest. */
  datatype Line = Junk | Rec(kind: string, ts: Option<nat>, body: nat)

  datatype Row = Row(fromBrowser: bool, ts: nat, body: nat)

  /** A session file; `mtime` is missing when the file system cannot say. The
      timeline reads a file strictly, and one that is not UTF-8 not at all. */
  datatype Session = Session(mtime: Option<nat>, utf8: bool, lines: seq<Line>)

  // ---------------------------------------------------------------- the feeds

  function TerminalRow(line: Line, since: nat): (row: Option<Row>) {
    if line.Rec? && line.kind in OPERATION_KINDS && line.ts.Some? && line.ts.value >= since then
      Some(Row(false, line.ts.value, line.body))
    else None
  }

  function BrowserRow(line: Line, since: nat): (row: Option<Row>) {
    if line.Rec? && line.ts.Some? && line.ts.value >= since then
      Some(Row(true, line.ts.value, line.body))
    else None
  }

  function SessionRows(lines: seq<Line>, since: nat): seq<Row> {
    if |lines| == 0 then []
    else
      (match TerminalRow(lines[0], since) case Some(r) => [r] case None => []) + SessionRows(lines[1..], since)
  }

  function FileRows(s: Session, since: nat): seq<Row> {
    if s.utf8 then SessionRows(s.lines, since) else []
  }

  predicate Skipped(s: Session, since: nat) {
    since > 0 && s.mtime.Some? && s.mtime.value + 1000 < since
  }

  function AllSessionRows(sessions: seq<Session>, since: nat): seq<Row> {
    if |sessions| == 0 then []
    else FileRows(sessions[0], since) + AllSessionRows(sessions[1..], since)
  }

  function ReadSessionRows(sessions: seq<Session>, since: nat): seq<Row> {
    if |sessions| == 0 then []
    else
      (if Skipped(sessions[0], since) then [] else FileRows(sessions[0], since))
      + ReadSessionRows(sessions[1..], since)
  }

  /** The feed from its newest line back. */
  function BrowserRows(lines: seq<Line>, since: nat): seq<Row> {
    if |lines| == 0 then []
    else
      var n := |lines| - 1;
      (match BrowserRow(lines[n], since) case Some(r) => [r] case None => []) + BrowserRows(lines[..n], since)
  }

  /** A line of that stamp and payload. */
  predicate Carries(line: Line, r: Row) {
    line.Rec? && line.ts == Some(r.ts) && line.body == r.body
  }

  /** The terminal rows of a file are its lines of the six kinds of operation
      that the window admits. */
  lemma {:induction false} SessionRowsAre(lines: seq<Line>, since: nat, r: Row)
    ensures r in SessionRows(lines, since) <==>
            && !r.fromBrowser && since <= r.ts
            && exists i | 0 <= i < |lines| :: Carries(lines[i], r) &&
                 lines[i].kind in {"command/start", "command/end", "goal", "plan", "approval", "control"}
    decreases |lines|
  {
    if |lines| > 0 {
      KindsAre(lines[0]);
      hide OPERATION_KINDS;
      SessionRowsAre(lines[1..], since, r);
      assert forall i | 0 < i < |lines| :: lines[i] == lines[1..][i - 1];
    }
  }

  lemma KindsAre(line: Line)
    ensures line.Rec? ==>
              (line.kind in OPERATION_KINDS <==>
               line.kind in {"command/start", "command/end", "goal", "plan", "approval", "control"})
  {
  }

  /** The rows read are those of every file that is UTF-8 and was not left
      untouched for a second before the window. */
  lemma {:induction false} ReadSessionRowsAre(sessions: seq<Session>, since: nat, r: Row)
    ensures r in ReadSessionRows(sessions, since) <==>
            exists k | 0 <= k < |sessions| && sessions[k].utf8 && r in SessionRows(sessions[k].lines, since) ::
              since == 0 || sessions[k].mtime == None || since <= sessions[k].mtime.value + 1000
    decreases |sessions|
  {
    if |sessions| > 0 {
      hide SessionRows;
      ReadSessionRowsAre(sessions[1..], since, r);
      assert forall k | 0 < k < |sessions| :: sessions[k] == sessions[1..][k - 1];
    }
  }

  lemma {:induction false} AllSessionRowsAre(sessions: seq<Session>, since: nat, r: Row)
    ensures r in AllSessionRows(sessions, since) <==>
            exists k | 0 <= k < |sessions| && sessions[k].utf8 :: r in SessionRows(sessions[k].lines, since)
    decreases |sessions|
  {
    if |sessions| > 0 {
      hide SessionRows;
      AllSessionRowsAre(sessions[1..], since, r);
      assert forall k | 0 < k < |sessions| :: sessions[k] == sessions[1..][k - 1];
    }
  }

  /** In the order of the file, and of the files. */
  lemma {:induction false} SessionRowsConcat(a: seq<Line>, b: seq<Line>, since: nat)
    ensures SessionRows(a + b, since) == SessionRows(a, since) + SessionRows(b, since)
    decreases |a|
  {
    if |a| == 0 {
      assert a + b == b;
    } else {
      hide TerminalRow;
      assert (a + b)[1..] == a[1..] + b;
      SessionRowsConcat(a[1..], b, since);
      Assoc(match TerminalRow(a[0], since) case Some(r) => [r] case None => [],
            SessionRows(a[1..], since), SessionRows(b, since));
    }
  }

  lemma {:induction false} ReadSessionRowsConcat(a: seq<Session>, b: seq<Session>, since: nat)
    ensures ReadSessionRows(a + b, since) == ReadSessionRows(a, since) + ReadSessionRows(b, since)
    decreases |a|
  {
    if |a| == 0 {
      assert a + b == b;
    } else {
      hide FileRows;
      assert (a + b)[1..] == a[1..] + b;
      ReadSessionRowsConcat(a[1..], b, since);
    }
  }

  /** The browser's rows are its records that the window admits. */
  lemma {:induction false} BrowserRowsAre(feed: seq<Line>, since: nat, r: Row)
    ensures r in BrowserRows(feed, since) <==>
            r.fromBrowser && since <= r.ts && exists i | 0 <= i < |feed| :: Carries(feed[i], r)
    decreases |feed|
  {
    if |feed| > 0 {
      var n := |feed| - 1;
      BrowserRowsAre(feed[..n], since, r);
      assert forall i | 0 <= i < n :: feed[i] == feed[..n][i];
    }
  }

  // ---------------------------------------------------------------- the sort

  /** Into a sorted list, after every row that is not later. */
  function Insert(rows: seq<Row>, r: Row): seq<Row> {
    if |rows| == 0 || rows[|rows| - 1].ts <= r.ts then rows + [r]
    else Insert(rows[..|rows| - 1], r) + [rows[|rows| - 1]]
  }

  /** `sort_by_key` on the millisecond stamp: the stable sort. */
  function Sort(rows: seq<Row>): seq<Row> {
    if |rows| == 0 then [] else Insert(Sort(rows[..|rows| - 1]), rows[|rows| - 1])
  }

  predicate Sorted(rows: seq<Row>) {
    forall i, j | 0 <= i < j < |rows| :: rows[i].ts <= rows[j].ts
  }

  function AtStamp(rows: seq<Row>, t: nat): seq<Row> {
    if |rows| == 0 then []
    else AtStamp(rows[..|rows| - 1], t) + if rows[|rows| - 1].ts == t then [rows[|rows| - 1]] else []
  }

  lemma AtStampSnoc(rows: seq<Row>, r: Row, t: nat)
    ensures AtStamp(rows + [r], t) == AtStamp(rows, t) + if r.ts == t then [r] else []
  {
    assert (rows + [r])[..|rows|] == rows;
  }

  lemma {:induction false} InsertSorts(rows: seq<Row>, r: Row)
    requires Sorted(rows)
    ensures Sorted(Insert(rows, r)) && |Insert(rows, r)| == |rows| + 1
    ensures forall x | x in Insert(rows, r) :: x in rows || x == r
    decreases |rows|
  {
    if |rows| > 0 && rows[|rows| - 1].ts > r.ts {
      var n := |rows| - 1;
      var lower, last := Insert(rows[..n], r), rows[n];
      InsertSorts(rows[..n], r);
      forall x | x in lower
        ensures x.ts <= last.ts
      {
      }
      SortedSnoc(lower, last);
    }
  }

  lemma SortedSnoc(rows: seq<Row>, last: Row)
    requires Sorted(rows) && forall x | x in rows :: x.ts <= last.ts
    ensures Sorted(rows + [last])
  {
  }

  lemma {:induction false} InsertAtStamp(rows: seq<Row>, r: Row, t: nat)
    requires Sorted(rows)
    ensures AtStamp(Insert(rows, r), t) == AtStamp(rows, t) + if r.ts == t then [r] else []
    decreases |rows|
  {
    if |rows| == 0 || rows[|rows| - 1].ts <= r.ts {
      AtStampSnoc(rows, r, t);
    } else {
      var front, last := rows[..|rows| - 1], rows[|rows| - 1];
      InsertAtStamp(front, r, t);
      AtStampSnoc(Insert(front, r), last, t);
      assert r.ts == t ==> last.ts != t;
    }
  }

  /** THE SORT IS THE STABLE ONE: in order, and at each stamp the same rows in
      the order they were given. */
  lemma {:induction false} SortMeaning(rows: seq<Row>, t: nat)
    ensures Sorted(Sort(rows)) && |Sort(rows)| == |rows|
    ensures AtStamp(Sort(rows), t) == AtStamp(rows, t)
    decreases |rows|
  {
    if |rows| > 0 {
      SortMeaning(rows[..|rows| - 1], t);
      InsertSorts(Sort(rows[..|rows| - 1]), rows[|rows| - 1]);
      InsertAtStamp(Sort(rows[..|rows| - 1]), rows[|rows| - 1], t);
    }
  }

  // ---------------------------------------------------------------- the timeline

  function Timeline(rows: seq<Row>, limit: nat): seq<Row> {
    Newest(Sort(rows), limit)
  }

  /** How many rows are strictly later than `t`. */
  function Later(rows: seq<Row>, t: nat): (n: nat) {
    if |rows| == 0 then 0 else Later(rows[..|rows| - 1], t) + if rows[|rows| - 1].ts > t then 1 else 0
  }

  lemma LaterSnoc(rows: seq<Row>, r: Row, t: nat)
    ensures Later(rows + [r], t) == Later(rows, t) + if r.ts > t then 1 else 0
  {
    assert (rows + [r])[..|rows|] == rows;
  }

  lemma {:induction false} LaterInsert(rows: seq<Row>, r: Row, t: nat)
    ensures Later(Insert(rows, r), t) == Later(rows + [r], t)
    decreases |rows|
  {
    LaterSnoc(rows, r, t);
    if |rows| > 0 && rows[|rows| - 1].ts > r.ts {
      var front, last := rows[..|rows| - 1], rows[|rows| - 1];
      LaterInsert(front, r, t);
      LaterSnoc(front, r, t);
      LaterSnoc(Insert(front, r), last, t);
    }
  }

  lemma {:induction false} LaterSort(rows: seq<Row>, t: nat)
    ensures Later(Sort(rows), t) == Later(rows, t)
    decreases |rows|
  {
    if |rows| > 0 {
      var front, last := rows[..|rows| - 1], rows[|rows| - 1];
      LaterSort(front, t);
      LaterInsert(Sort(front), last, t);
      LaterSnoc(Sort(front), last, t);
    }
  }

  /** A row goes in below the rows later than it, so the newest of those stay
      the newest. */
  lemma {:induction false} InsertBelow(rows: seq<Row>, r: Row, n: nat)
    requires Sorted(rows) && Later(rows, r.ts) >= n
    ensures n <= |rows| && Newest(Insert(rows, r), n) == Newest(rows, n)
    decreases |rows|
  {
    hide Newest, Sorted, Insert, Later;
    if n > 0 {
      SomeLater(rows, r.ts);
      var front, last := rows[..|rows| - 1], rows[|rows| - 1];
      InsertBelow(front, r, n - 1);
      InsertUnder(rows, r);
      NewestSnoc(Insert(front, r), last, n - 1);
      NewestSnoc(front, last, n - 1);
      assert front + [last] == rows;
    } else {
      NewestNone(Insert(rows, r), rows);
    }
  }

  lemma NewestNone<T>(xs: seq<T>, ys: seq<T>)
    ensures Newest(xs, 0) == Newest(ys, 0)
  {
  }

  /** In a sorted list with later rows, the last one is among them. */
  lemma SomeLater(rows: seq<Row>, t: nat)
    requires Sorted(rows) && Later(rows, t) > 0
    ensures |rows| > 0 && rows[|rows| - 1].ts > t
    ensures Sorted(rows[..|rows| - 1]) && Later(rows[..|rows| - 1], t) == Later(rows, t) - 1
  {
    if rows[|rows| - 1].ts <= t {
      NoneLater(rows, t);
    }
  }

  lemma InsertUnder(rows: seq<Row>, r: Row)
    requires |rows| > 0 && rows[|rows| - 1].ts > r.ts
    ensures Insert(rows, r) == Insert(rows[..|rows| - 1], r) + [rows[|rows| - 1]]
    ensures |Insert(rows[..|rows| - 1], r)| == |rows|
  {
    InsertLength(rows[..|rows| - 1], r);
  }

  lemma InsertLength(rows: seq<Row>, r: Row)
    ensures |Insert(rows, r)| == |rows| + 1
  {
  }

  lemma NewestSnoc<T>(xs: seq<T>, x: T, n: nat)
    requires n <= |xs|
    ensures Newest(xs + [x], n + 1) == Newest(xs, n) + [x]
  {
  }

  lemma NoneLater(rows: seq<Row>, t: nat)
    ensures (forall x | x in rows :: x.ts <= t) ==> Later(rows, t) == 0
  {
    if |rows| > 0 {
      NoneLater(rows[..|rows| - 1], t);
    }
  }

  lemma {:induction false} LaterConcat(a: seq<Row>, b: seq<Row>, t: nat)
    ensures Later(a + b, t) == Later(a, t) + Later(b, t)
    decreases |b|
  {
    if |b| == 0 {
      assert a + b == a;
    } else {
      var front, last := b[..|b| - 1], b[|b| - 1];
      assert a + b == (a + front) + [last] && b == front + [last];
      LaterConcat(a, front, t);
      LaterSnoc(a + front, last, t);
    }
  }

  /** Rows that `limit` others outrank never show. */
  lemma {:induction false} OutrankedNeverShow(rows: seq<Row>, past: seq<Row>, limit: nat)
    requires forall r | r in past :: Later(rows, r.ts) >= limit
    ensures Timeline(rows + past, limit) == Timeline(rows, limit)
    decreases |past|
  {
    hide Insert, Later;
    if |past| == 0 {
      assert rows + past == rows;
    } else {
      var front, last := past[..|past| - 1], past[|past| - 1];
      assert rows + past == (rows + front) + [last];
      assert (rows + past)[..|rows + front|] == rows + front;
      OutrankedNeverShow(rows, front, limit);
      LaterConcat(rows, front, last.ts);
      LaterSort(rows + front, last.ts);
      SortMeaning(rows + front, 0);
      InsertBelow(Sort(rows + front), last, limit);
    }
  }

  // ---------------------------------------------------------------- the cap

  /** Every line of the browser feed is a stamped record, later than the one before. */
  predicate Steady(lines: seq<Line>) {
    && (forall i | 0 <= i < |lines| :: lines[i].Rec? && lines[i].ts.Some?)
    && forall i, j | 0 <= i < j < |lines| :: lines[i].ts.value < lines[j].ts.value
  }

  lemma {:induction false} BrowserRowsConcat(a: seq<Line>, b: seq<Line>, since: nat)
    ensures BrowserRows(a + b, since) == BrowserRows(b, since) + BrowserRows(a, since)
    decreases |b|
  {
    if |b| == 0 {
      assert a + b == a;
    } else {
      var n := |b| - 1;
      assert (a + b)[..|a + b| - 1] == a + b[..n];
      BrowserRowsConcat(a, b[..n], since);
      Assoc(match BrowserRow(b[n], since) case Some(r) => [r] case None => [],
            BrowserRows(b[..n], since), BrowserRows(a, since));
    }
  }

  /** Lines that all carry a stamp later than `t >= since` all show. */
  lemma {:induction false} AllLater(lines: seq<Line>, since: nat, t: nat)
    requires t >= since
    requires forall l | l in lines :: l.Rec? && l.ts.Some? && l.ts.value > t
    ensures Later(BrowserRows(lines, since), t) == |lines|
    decreases |lines|
  {
    if |lines| > 0 {
      var n := |lines| - 1;
      assert lines[n] in lines;
      AllLater(lines[..n], since, t);
      var head := BrowserRow(lines[n], since).value;
      LaterConcat([head], BrowserRows(lines[..n], since), t);
      LaterOne(head, t);
    }
  }

  lemma LaterOne(r: Row, t: nat)
    requires r.ts > t
    ensures Later([r], t) == 1
  {
    assert [r][..0] == [];
  }

  lemma {:induction false} RowsComeFromLines(lines: seq<Line>, since: nat)
    ensures forall r | r in BrowserRows(lines, since) ::
              r.ts >= since && exists i :: 0 <= i < |lines| && lines[i].Rec? && lines[i].ts == Some(r.ts)
    decreases |lines|
  {
    if |lines| > 0 {
      var n := |lines| - 1;
      RowsComeFromLines(lines[..n], since);
      forall r | r in BrowserRows(lines, since)
        ensures r.ts >= since && exists i :: 0 <= i < |lines| && lines[i].Rec? && lines[i].ts == Some(r.ts)
      {
        if r in BrowserRows(lines[..n], since) {
          var i :| 0 <= i < n && lines[..n][i].Rec? && lines[..n][i].ts == Some(r.ts);
          assert lines[i].Rec?;
        } else {
          assert lines[n].Rec?;
        }
      }
    }
  }

  /** The lines a cap leaves unread. */
  function Unread(lines: seq<Line>, cap: nat): seq<Line> {
    lines[..|lines| - |Newest(lines, cap)|]
  }

  lemma ReadAndUnread(lines: seq<Line>, cap: nat, since: nat)
    ensures Unread(lines, cap) + Newest(lines, cap) == lines
    ensures BrowserRows(lines, since) == BrowserRows(Newest(lines, cap), since) + BrowserRows(Unread(lines, cap), since)
  {
    BrowserRowsConcat(Unread(lines, cap), Newest(lines, cap), since);
  }

  /** Each row of the unread lines has `limit` strictly later ones among the read. */
  predicate Outranked(lines: seq<Line>, since: nat, limit: nat, cap: nat) {
    forall r | r in BrowserRows(Unread(lines, cap), since) ::
      Later(BrowserRows(Newest(lines, cap), since), r.ts) >= limit
  }

  lemma OutrankedDoesNotShow(terminal: seq<Row>, lines: seq<Line>, since: nat, limit: nat, cap: nat)
    requires Outranked(lines, since, limit, cap)
    ensures Timeline(terminal + BrowserRows(Newest(lines, cap), since), limit)
         == Timeline(terminal + BrowserRows(lines, since), limit)
  {
    hide Timeline, Later, BrowserRows, Newest;
    var kept, past := BrowserRows(Newest(lines, cap), since), BrowserRows(Unread(lines, cap), since);
    ReadAndUnread(lines, cap, since);
    Assoc(terminal, kept, past);
    forall r | r in past
      ensures Later(terminal + kept, r.ts) >= limit
    {
      LaterConcat(terminal, kept, r.ts);
    }
    OutrankedNeverShow(terminal + kept, past, limit);
  }

  // ---------------------------------------------------------------- when the cap shows

  lemma {:induction false} SortMembers(rows: seq<Row>)
    ensures forall r | r in Sort(rows) :: r in rows
    decreases |rows|
  {
    if |rows| > 0 {
      SortMembers(rows[..|rows| - 1]);
      SortMeaning(rows[..|rows| - 1], 0);
      InsertSorts(Sort(rows[..|rows| - 1]), rows[|rows| - 1]);
    }
  }

  lemma {:induction false} LaterIsAntitone(rows: seq<Row>, t: nat, u: nat)
    requires t <= u
    ensures Later(rows, u) <= Later(rows, t)
    decreases |rows|
  {
    if |rows| > 0 {
      LaterIsAntitone(rows[..|rows| - 1], t, u);
    }
  }

  /** A row goes in right below the rows later than it. */
  lemma {:induction false} InsertedTail(rows: seq<Row>, r: Row)
    requires Sorted(rows)
    ensures r in Newest(Insert(rows, r), Later(rows, r.ts) + 1)
    decreases |rows|
  {
    hide Newest, Sorted, Insert, Later;
    if |rows| == 0 || rows[|rows| - 1].ts <= r.ts {
      InsertedLast(rows, r);
      NewestOne(rows, r);
    } else {
      LastIsLater(rows, r.ts);
      var front, last := rows[..|rows| - 1], rows[|rows| - 1];
      InsertedTail(front, r);
      InsertUnder(rows, r);
      LaterWithin(front, r.ts);
      NewestSnoc(Insert(front, r), last, Later(front, r.ts) + 1);
    }
  }

  lemma InsertedLast(rows: seq<Row>, r: Row)
    requires Sorted(rows) && (|rows| == 0 || rows[|rows| - 1].ts <= r.ts)
    ensures Insert(rows, r) == rows + [r] && Later(rows, r.ts) == 0
  {
    hide Later;
    NoneLater(rows, r.ts);
  }

  lemma NewestOne<T>(xs: seq<T>, x: T)
    ensures Newest(xs + [x], 1) == [x]
  {
  }

  lemma LastIsLater(rows: seq<Row>, t: nat)
    requires Sorted(rows) && |rows| > 0 && rows[|rows| - 1].ts > t
    ensures Sorted(rows[..|rows| - 1]) && Later(rows, t) == Later(rows[..|rows| - 1], t) + 1
  {
  }

  lemma LaterWithin(rows: seq<Row>, t: nat)
    ensures Later(rows, t) <= |rows|
  {
  }

  /** A row with few enough later ones shows, whatever older rows follow it. */
  lemma {:induction false} FewLaterShows(rows: seq<Row>, d: Row, older: seq<Row>)
    requires forall b | b in older :: b.ts < d.ts
    ensures d in Newest(Sort(rows + [d] + older), Later(rows, d.ts) + 1)
    decreases |older|
  {
    hide Insert, Later, Newest, Sorted;
    var n := Later(rows, d.ts) + 1;
    SortMeaning(rows, 0);
    if |older| == 0 {
      assert rows + [d] + [] == rows + [d];
      SortSnoc(rows, d);
      LaterSort(rows, d.ts);
      InsertedTail(Sort(rows), d);
    } else {
      var front, b := older[..|older| - 1], older[|older| - 1];
      assert forall x | x in front :: x in older;
      FewLaterShows(rows, d, front);
      var all := rows + [d] + front;
      assert rows + [d] + older == all + [b];
      SortSnoc(all, b);
      SortMeaning(all, 0);
      LaterSort(all, b.ts);
      LaterThanOlder(rows, d, front, b.ts);
      InsertBelow(Sort(all), b, n);
    }
  }

  lemma SortSnoc(rows: seq<Row>, r: Row)
    ensures Sort(rows + [r]) == Insert(Sort(rows), r)
  {
    assert (rows + [r])[..|rows|] == rows;
  }

  lemma LaterThanOlder(rows: seq<Row>, d: Row, front: seq<Row>, t: nat)
    requires t < d.ts
    ensures Later(rows + [d] + front, t) >= Later(rows, d.ts) + 1
  {
    LaterConcat(rows + [d], front, t);
    LaterConcat(rows, [d], t);
    LaterIsAntitone(rows, t, d.ts);
    LaterOne(d, t);
  }

  /** The newest row, the last of several. */
  lemma LastNewest(rows: seq<Row>) returns (j: nat)
    requires |rows| > 0
    ensures j < |rows|
    ensures forall i | 0 <= i < |rows| :: rows[i].ts <= rows[j].ts
    ensures forall i | j < i < |rows| :: rows[i].ts < rows[j].ts
  {
    j := 0;
    for k := 1 to |rows|
      invariant j < k
      invariant forall i | 0 <= i < k :: rows[i].ts <= rows[j].ts
      invariant forall i | j < i < k :: rows[i].ts < rows[j].ts
    {
      if rows[k].ts >= rows[j].ts {
        j := k;
      }
    }
  }

  lemma UnreadShows(kept: seq<Row>, past: seq<Row>, r: Row, limit: nat)
    requires r in past && Later(kept, r.ts) < limit
    requires forall x | x in past :: x !in kept
    ensures Timeline(kept + past, limit) != Timeline(kept, limit)
  {
    hide Sort, Later, Newest;
    var j := LastNewest(past);
    var d, before, older := past[j], past[..j], past[j + 1..];
    var i :| 0 <= i < |past| && past[i] == r;
    LaterIsAntitone(kept, r.ts, d.ts);
    LaterConcat(kept, before, d.ts);
    NoneLater(before, d.ts);
    assert kept + past == (kept + before) + [d] + older;
    FewLaterShows(kept + before, d, older);
    NewestGrows(Sort(kept + past), Later(kept, d.ts) + 1, limit, d);
    SortMembers(kept);
    NewestMembers(Sort(kept), limit);
  }

  lemma NewestGrows<T>(xs: seq<T>, m: nat, n: nat, x: T)
    requires x in Newest(xs, m) && m <= n
    ensures x in Newest(xs, n)
  {
    var ys, zs := Newest(xs, m), Newest(xs, n);
    var i :| 0 <= i < |ys| && ys[i] == x;
    assert zs[|zs| - |ys| + i] == x;
  }

  lemma NewestMembers<T>(xs: seq<T>, n: nat)
    ensures forall x | x in Newest(xs, n) :: x in xs
  {
  }

  /** No unread row is the same as a read one. */
  predicate ToldApart(lines: seq<Line>, since: nat, cap: nat) {
    forall r | r in BrowserRows(Unread(lines, cap), since) :: r !in BrowserRows(Newest(lines, cap), since)
  }

  /** WHEN THE CAP SHOWS: for rows that can be told apart, with junk, missing
      stamps and clocks that step back allowed, a capped read gives the
      uncapped timeline, whatever the terminal adds, exactly when every unread
      row has `limit` strictly later ones among the rows read. */
  lemma CapShowsNothing(lines: seq<Line>, since: nat, limit: nat, cap: nat)
    requires ToldApart(lines, since, cap)
    ensures (forall terminal: seq<Row> :: Timeline(terminal + BrowserRows(Newest(lines, cap), since), limit)
                                       == Timeline(terminal + BrowserRows(lines, since), limit))
       <==> Outranked(lines, since, limit, cap)
  {
    hide Timeline, Later, BrowserRows, Newest;
    var kept, past := BrowserRows(Newest(lines, cap), since), BrowserRows(Unread(lines, cap), since);
    if Outranked(lines, since, limit, cap) {
      forall terminal: seq<Row>
        ensures Timeline(terminal + kept, limit) == Timeline(terminal + BrowserRows(lines, since), limit)
      {
        OutrankedDoesNotShow(terminal, lines, since, limit, cap);
      }
    } else {
      var r :| r in past && Later(kept, r.ts) < limit;
      ReadAndUnread(lines, cap, since);
      UnreadShows(kept, past, r, limit);
      assert [] + kept == kept && [] + BrowserRows(lines, since) == BrowserRows(lines, since);
    }
  }

  lemma {:induction false} SinceKeepsLater(lines: seq<Line>, since: nat, t: nat)
    requires t >= since
    ensures Later(BrowserRows(lines, since), t) == Later(BrowserRows(lines, 0), t)
    decreases |lines|
  {
    if |lines| > 0 {
      var n := |lines| - 1;
      SinceKeepsLater(lines[..n], since, t);
      BrowserRowsSnoc(lines, since, t);
      BrowserRowsSnoc(lines, 0, t);
    }
  }

  lemma BrowserRowsSnoc(lines: seq<Line>, since: nat, t: nat)
    requires |lines| > 0 && t >= since
    ensures var n := |lines| - 1;
            Later(BrowserRows(lines, since), t) == Later(BrowserRows(lines[..n], since), t)
              + if lines[n].Rec? && lines[n].ts.Some? && lines[n].ts.value > t then 1 else 0
  {
    var n := |lines| - 1;
    var head := match BrowserRow(lines[n], since) case Some(r) => [r] case None => [];
    LaterConcat(head, BrowserRows(lines[..n], since), t);
    if |head| == 1 {
      assert head[..0] == [] && head == [head[0]];
    }
  }

  lemma {:induction false} SinceOnlyFilters(lines: seq<Line>, since: nat)
    ensures forall r | r in BrowserRows(lines, since) :: r in BrowserRows(lines, 0) && r.ts >= since
    decreases |lines|
  {
    if |lines| > 0 {
      SinceOnlyFilters(lines[..|lines| - 1], since);
    }
  }

  /** The condition for every window is the condition for the whole feed. */
  lemma EveryWindowOutranked(lines: seq<Line>, limit: nat, cap: nat)
    ensures (forall since: nat :: Outranked(lines, since, limit, cap)) <==> Outranked(lines, 0, limit, cap)
  {
    hide BrowserRows, Later, Newest, Unread;
    if Outranked(lines, 0, limit, cap) {
      forall since: nat
        ensures Outranked(lines, since, limit, cap)
      {
        SinceOnlyFilters(Unread(lines, cap), since);
        forall r | r in BrowserRows(Unread(lines, cap), since)
          ensures Later(BrowserRows(Newest(lines, cap), since), r.ts) >= limit
        {
          SinceKeepsLater(Newest(lines, cap), since, r.ts);
        }
      }
    }
  }

  /** THE LINE CAP DOES NOT SHOW on a feed of stamped records each later than
      the one before, read to at least `limit` lines. */
  lemma CapDoesNotShow(terminal: seq<Row>, lines: seq<Line>, since: nat, limit: nat, cap: nat)
    requires Steady(lines) && limit <= cap
    ensures Timeline(terminal + BrowserRows(Newest(lines, cap), since), limit)
         == Timeline(terminal + BrowserRows(lines, since), limit)
  {
    hide Timeline, Later, BrowserRows;
    var a, b := Unread(lines, cap), Newest(lines, cap);
    RowsComeFromLines(a, since);
    forall r | r in BrowserRows(a, since)
      ensures Later(BrowserRows(b, since), r.ts) >= limit
    {
      NewerLines(lines, cap, r.ts);
      AllLater(b, since, r.ts);
    }
    OutrankedDoesNotShow(terminal, lines, since, limit, cap);
  }

  lemma NewerLines(lines: seq<Line>, cap: nat, t: nat)
    requires Steady(lines) && cap < |lines|
    requires exists i :: 0 <= i < |lines| - cap && lines[i].ts == Some(t)
    ensures forall l | l in lines[|lines| - cap..] :: l.Rec? && l.ts.Some? && l.ts.value > t
  {
    var b := lines[|lines| - cap..];
    forall l | l in b
      ensures l.Rec? && l.ts.Some? && l.ts.value > t
    {
      var k :| 0 <= k < |b| && b[k] == l;
      assert l == lines[|lines| - cap + k];
    }
  }

  /** Two actions in one millisecond are enough to show it: uncapped, the feed
      enters the sort newest first and the OLDER of the two comes out last. */
  lemma EqualStampsShowTheCap(t: nat, first: nat, second: nat)
    requires first != second
    ensures var lines := [Rec("", Some(t), first), Rec("", Some(t), second)];
            && Timeline(BrowserRows(Newest(lines, 1), 0), 1) == [Row(true, t, second)]
            && Timeline(BrowserRows(lines, 0), 1) == [Row(true, t, first)]
  {
    hide BrowserRows, Sort;
    var a, b := Rec("", Some(t), first), Rec("", Some(t), second);
    var ra, rb := Row(true, t, first), Row(true, t, second);
    OneRow(a, ra);
    OneRow(b, rb);
    BrowserRowsConcat([a], [b], 0);
    assert [a, b] == [a] + [b] && [rb] + [ra] == [rb, ra];
    OneSorted(rb);
    TwoSorted(rb, ra);
  }

  lemma OneRow(line: Line, r: Row)
    requires BrowserRow(line, 0) == Some(r)
    ensures BrowserRows([line], 0) == [r]
  {
    assert [line][..0] == [];
  }

  lemma OneSorted(r: Row)
    ensures Sort([r]) == [r]
  {
    assert [r][..0] == [];
  }

  lemma TwoSorted(r: Row, s: Row)
    requires r.ts == s.ts
    ensures Sort([r, s]) == [r, s]
  {
    OneSorted(r);
    assert [r, s][..1] == [r];
    assert [r] + [s] == [r, s];
  }

  // ---------------------------------------------------------------- the skip

  /** The time stamp of a file that is read is at most a second behind its
      newest event. */
  predicate KeptTime(s: Session) {
    s.mtime.Some? && s.utf8 ==> forall i | 0 <= i < |s.lines| && TerminalRow(s.lines[i], 0).Some? ::
      s.lines[i].ts.value <= s.mtime.value + 1000
  }

  lemma {:induction false} NothingRecent(lines: seq<Line>, since: nat)
    requires forall i | 0 <= i < |lines| && TerminalRow(lines[i], 0).Some? :: lines[i].ts.value < since
    ensures SessionRows(lines, since) == []
    decreases |lines|
  {
    if |lines| > 0 {
      assert TerminalRow(lines[0], since) == None;
      NothingRecent(lines[1..], since);
    }
  }

  lemma {:induction false} SomethingRecent(lines: seq<Line>, i: nat, since: nat)
    requires i < |lines| && TerminalRow(lines[i], since).Some?
    ensures |SessionRows(lines, since)| > 0
    decreases |lines|
  {
    if i > 0 {
      SomethingRecent(lines[1..], i - 1, since);
    }
  }

  lemma {:induction false} SkipShortens(sessions: seq<Session>, since: nat)
    ensures |ReadSessionRows(sessions, since)| <= |AllSessionRows(sessions, since)|
    ensures (exists k :: 0 <= k < |sessions| && Skipped(sessions[k], since) && |FileRows(sessions[k], since)| > 0)
        ==> |ReadSessionRows(sessions, since)| < |AllSessionRows(sessions, since)|
    decreases |sessions|
  {
    if |sessions| > 0 {
      SkipShortens(sessions[1..], since);
    }
  }

  lemma {:induction false} SkipDrops(sessions: seq<Session>, since: nat)
    requires forall k | 0 <= k < |sessions| :: KeptTime(sessions[k])
    ensures ReadSessionRows(sessions, since) == AllSessionRows(sessions, since)
    decreases |sessions|
  {
    if |sessions| > 0 {
      SkipDrops(sessions[1..], since);
      assert KeptTime(sessions[0]);
      if Skipped(sessions[0], since) && sessions[0].utf8 {
        NothingRecent(sessions[0].lines, since);
      }
    }
  }

  lemma LateEvent(s: Session) returns (since: nat)
    requires !KeptTime(s)
    ensures Skipped(s, since) && |FileRows(s, since)| > 0
  {
    var i :| 0 <= i < |s.lines| && TerminalRow(s.lines[i], 0).Some? && s.lines[i].ts.value > s.mtime.value + 1000;
    since := s.lines[i].ts.value;
    SomethingRecent(s.lines, i, since);
  }

  /** THE SKIP DOES NOT SHOW, whatever the window asked for, exactly when no
      file's time stamp is more than a second behind one of its events. */
  lemma SkipDoesNotShow(sessions: seq<Session>)
    ensures (forall since: nat :: ReadSessionRows(sessions, since) == AllSessionRows(sessions, since))
       <==> forall k | 0 <= k < |sessions| :: KeptTime(sessions[k])
  {
    hide ReadSessionRows, AllSessionRows, KeptTime;
    if k :| 0 <= k < |sessions| && !KeptTime(sessions[k]) {
      var since := LateEvent(sessions[k]);
      SkipShortens(sessions, since);
    } else {
      forall since: nat
        ensures ReadSessionRows(sessions, since) == AllSessionRows(sessions, since)
      {
        SkipDrops(sessions, since);
      }
    }
  }

  /** One byte that is not UTF-8 hides a session, whatever the window asked for,
      exactly when the session had an operation to show. */
  lemma DamageHidesTheSession(s: Session)
    ensures (forall since: nat :: FileRows(s, since) == SessionRows(s.lines, since))
       <==> s.utf8 || forall i | 0 <= i < |s.lines| :: TerminalRow(s.lines[i], 0).None?
  {
    if !s.utf8 {
      if i :| 0 <= i < |s.lines| && TerminalRow(s.lines[i], 0).Some? {
        SomethingRecent(s.lines, i, 0);
        assert FileRows(s, 0) == [];
      } else {
        forall since: nat
          ensures SessionRows(s.lines, since) == []
        {
          NothingRecent(s.lines, since);
        }
      }
    }
  }

  // ---------------------------------------------------------------- the code

  method TerminalEvents(sessions: seq<Session>, since: nat) returns (rows: seq<Row>)
    ensures rows == ReadSessionRows(sessions, since)
  {
    hide TerminalRow, Skipped, ReadSessionRows, SessionRows;
    rows := [];
    NothingToRead(since);
    assert sessions[0..] == sessions;
    for k := 0 to |sessions|
      invariant rows + ReadSessionRows(sessions[k..], since) == ReadSessionRows(sessions, since)
    {
      var s := sessions[k];
      ReadOneSession(sessions[k..], since);
      assert sessions[k..][1..] == sessions[k + 1..];
      if Skipped(s, since) {
        assert [] + ReadSessionRows(sessions[k + 1..], since) == ReadSessionRows(sessions[k + 1..], since);
        continue;
      }
      var more := [];
      if s.utf8 {
        more := FileEvents(s.lines, since);
      }
      Assoc(rows, more, ReadSessionRows(sessions[k + 1..], since));
      rows := rows + more;
    }
    assert rows + [] == rows;
  }

  lemma ReadOneSession(sessions: seq<Session>, since: nat)
    requires |sessions| > 0
    ensures ReadSessionRows(sessions, since)
         == (if Skipped(sessions[0], since) then [] else FileRows(sessions[0], since))
            + ReadSessionRows(sessions[1..], since)
  {
  }

  lemma NothingToRead(since: nat)
    ensures ReadSessionRows([], since) == []
  {
  }

  method FileEvents(lines: seq<Line>, since: nat) returns (rows: seq<Row>)
    ensures rows == SessionRows(lines, since)
  {
    hide TerminalRow;
    rows := [];
    for i := 0 to |lines|
      invariant rows + SessionRows(lines[i..], since) == SessionRows(lines, since)
    {
      assert lines[i..][1..] == lines[i + 1..];
      var row := TerminalRow(lines[i], since);
      match row
      case Some(r) =>
        Assoc(rows, [r], SessionRows(lines[i + 1..], since));
        rows := rows + [r];
      case None =>
        assert [] + SessionRows(lines[i + 1..], since) == SessionRows(lines[i + 1..], since);
    }
    assert rows + [] == rows;
  }

  /** The whole request. What it returns is the newest `limit` of everything
      eligible in both feeds, whenever the shortcuts are in their right. */
  method MergedOperation(sessions: seq<Session>, feed: seq<Line>, since: nat, limit: nat) returns (rows: seq<Row>)
    ensures rows == Timeline(ReadSessionRows(sessions, since)
                             + BrowserRows(Newest(feed, OPERATION_READ_CAP), since), limit)
    ensures Outranked(feed, since, limit, OPERATION_READ_CAP)
            && (forall k | 0 <= k < |sessions| :: KeptTime(sessions[k]))
        ==> rows == Timeline(AllSessionRows(sessions, since) + BrowserRows(feed, since), limit)
    ensures limit <= OPERATION_READ_CAP && Steady(feed) && (forall k | 0 <= k < |sessions| :: KeptTime(sessions[k]))
        ==> rows == Timeline(AllSessionRows(sessions, since) + BrowserRows(feed, since), limit)
  {
    hide Sort, Steady, Outranked, KeptTime, ReadSessionRows, AllSessionRows, BrowserRows;
    var terminal := TerminalEvents(sessions, since);
    var all := terminal + BrowserRows(Newest(feed, OPERATION_READ_CAP), since);
    rows := Sort(all);
    if |rows| > limit {
      rows := rows[|rows| - limit..];
    }
    if limit <= OPERATION_READ_CAP && Steady(feed) {
      CapDoesNotShow(terminal, feed, since, limit, OPERATION_READ_CAP);
    }
    if Outranked(feed, since, limit, OPERATION_READ_CAP) {
      OutrankedDoesNotShow(terminal, feed, since, limit, OPERATION_READ_CAP);
    }
    SkipDoesNotShow(sessions);
  }
}
