/** The run log: one execution's begin and end, the boot pass that closes the
    runs a dead process left open, and what the age trim does to a run. */
module Runs {
  import opened Jsonl
  import opened Text
  import opened Feed

  const LABEL_MAX_BYTES: nat := 200

  datatype Kind = Begin | End | Other

  /** A record of the log; `note` is a begin's label or an end's outcome. */
  datatype Rec = Rec(kind: Kind, id: Option<Bytes>, ts: Option<nat>, note: Option<Bytes>)

  predicate Begins(r: Rec, id: Bytes) {
    r.kind.Begin? && r.id == Some(id)
  }

  predicate Ends(r: Rec, id: Bytes) {
    r.kind.End? && r.id == Some(id)
  }

  // ---------------------------------------------------------------- ids

  /** A client-supplied id, trimmed and capped on a character boundary. */
  function ClipId(s: Bytes): Bytes {
    Clip(Trim(s), LABEL_MAX_BYTES)
  }

  function Clean(s: Bytes): Option<Bytes> {
    if |Trim(s)| == 0 then None else Some(Clip(Trim(s), LABEL_MAX_BYTES))
  }

  lemma ClipOnlyShortens(s: Bytes)
    ensures |ClipId(s)| <= |s|
    ensures |ClipId(s)| == |s| ==> ClipId(s) == s
  {
    hide BoundaryAtOrBelow, SpaceAt, SpaceAtEnd;
    var t := TrimStart(s);
    var u := TrimEnd(t);
    var v := Clip(u, LABEL_MAX_BYTES);
    assert v == u[..|v|];
    if |v| == |s| {
      assert v == u == t == s;
    }
  }

  /** Printable ASCII with no space, within the cap. */
  predicate Plain(s: Bytes) {
    |s| <= LABEL_MAX_BYTES && forall i | 0 <= i < |s| :: 0x21 <= s[i] < 0x7F
  }

  lemma PlainIsFixed(s: Bytes)
    requires Plain(s)
    ensures ClipId(s) == s
  {
    hide Trim;
    PrintableIsTrimmed(s);
    assert s[..|s|] == s;
  }

  function Pow10(k: nat): (p: nat)
    ensures p > 0
  {
    if k == 0 then 1 else 10 * Pow10(k - 1)
  }

  lemma {:induction false} DecimalIsShort(n: nat, k: nat)
    requires n < Pow10(k + 1)
    ensures |Decimal(n)| <= k + 1
    decreases k
  {
    if n >= 10 {
      assert k > 0;
      DecimalIsShort(n / 10, k - 1);
    }
  }

  function HexDigit(n: nat): byte
    requires n < 16
  {
    if n < 10 then (0x30 + n) as byte else (0x57 + n) as byte
  }

  function Hex6(n: nat): (h: Bytes)
    ensures |h| == 6 && forall i | 0 <= i < 6 :: 0x30 <= h[i] < 0x7F
  {
    [HexDigit(n / 0x100000 % 16), HexDigit(n / 0x10000 % 16), HexDigit(n / 0x1000 % 16),
     HexDigit(n / 0x100 % 16), HexDigit(n / 0x10 % 16), HexDigit(n % 16)]
  }

  /** `run-<ts_ms>-<six hex digits>`. */
  function Mint(tsMs: nat, rand: nat): Bytes {
    [0x72, 0x75, 0x6E, 0x2D] + Decimal(tsMs) + [0x2D] + Hex6(rand)
  }

  /** Every id this module mints, on any 64-bit clock, survives the cap that
      its end record goes through. */
  lemma MintedIdsAreFixed(tsMs: nat, rand: nat)
    requires tsMs < 0x1_0000_0000_0000_0000
    ensures ClipId(Mint(tsMs, rand)) == Mint(tsMs, rand)
  {
    hide ClipId;
    MintedIdsArePlain(tsMs, rand);
    PlainIsFixed(Mint(tsMs, rand));
  }

  lemma MintedIdsArePlain(tsMs: nat, rand: nat)
    requires tsMs < 0x1_0000_0000_0000_0000
    ensures Plain(Mint(tsMs, rand))
  {
    hide Decimal, Hex6;
    assert Pow10(20) == 100_000_000_000_000_000_000 by {
      assert Pow10(10) == 10_000_000_000;
      Pow10Plus(10, 10);
    }
    DecimalIsShort(tsMs, 19);
  }

  lemma Pow10Plus(a: nat, b: nat)
    ensures Pow10(a + b) == Pow10(a) * Pow10(b)
    decreases a
  {
    if a > 0 {
      Pow10Plus(a - 1, b);
    }
  }

  // ---------------------------------------------------------------- open runs

  ghost predicate FirstBegin(rs: seq<Rec>, id: Bytes, i: int) {
    && 0 <= i < |rs| && Begins(rs[i], id)
    && forall j | 0 <= j < i :: !Begins(rs[j], id)
  }

  /** Begun, with no end after the first begin. */
  ghost predicate Open(rs: seq<Rec>, id: Bytes) {
    exists i :: FirstBegin(rs, id, i) && forall j | i < j < |rs| :: !Ends(rs[j], id)
  }

  ghost predicate Closed(rs: seq<Rec>, id: Bytes) {
    exists i, j :: FirstBegin(rs, id, i) && i < j < |rs| && Ends(rs[j], id)
  }

  function BegunIds(rs: seq<Rec>): set<Bytes> {
    set r | r in rs && r.kind.Begin? && r.id.Some? :: r.id.value
  }

  function Without(ids: seq<Bytes>, id: Bytes): (out: seq<Bytes>)
    ensures forall x :: x in out <==> x in ids && x != id
  {
    if |ids| == 0 then [] else (if ids[0] == id then [] else [ids[0]]) + Without(ids[1..], id)
  }

  function Step(open: seq<Bytes>, seen: set<Bytes>, r: Rec): seq<Bytes> {
    if r.id.None? then open
    else match r.kind
      case Begin => if r.id.value in seen then open else open + [r.id.value]
      case End => Without(open, r.id.value)
      case Other => open
  }

  function OpenIds(rs: seq<Rec>): seq<Bytes> {
    if |rs| == 0 then []
    else
      var front := rs[..|rs| - 1];
      Step(OpenIds(front), BegunIds(front), rs[|rs| - 1])
  }

  /** The boot pass's scan: one loop over the parsed records. */
  method ScanOpen(rs: seq<Rec>) returns (open: seq<Bytes>)
    ensures open == OpenIds(rs)
    ensures forall id :: id in open <==> Open(rs, id)
    ensures Distinct(open) && ByBegin(rs, open)
  {
    open := [];
    var seen: set<Bytes> := {};
    for i := 0 to |rs|
      invariant open == OpenIds(rs[..i]) && seen == BegunIds(rs[..i])
    {
      assert rs[..i + 1][..i] == rs[..i];
      assert rs[..i + 1] == rs[..i] + [rs[i]];
      var r := rs[i];
      if r.id.Some? {
        var id := r.id.value;
        if r.kind.Begin? {
          if id !in seen {
            seen := seen + {id};
            open := open + [id];
          }
        } else if r.kind.End? {
          open := Without(open, id);
        }
      }
    }
    assert rs[..|rs|] == rs;
    DistinctOpen(rs);
    OpenByBegin(rs);
    forall id
      ensures id in open <==> Open(rs, id)
    {
      OpenIdsMeaning(rs, id);
    }
  }

  lemma BegunSnoc(rs: seq<Rec>, r: Rec, id: Bytes)
    ensures Open(rs + [r], id)
        <==> (Open(rs, id) && !Ends(r, id)) || (id !in BegunIds(rs) && Begins(r, id))
  {
    var all := rs + [r];
    assert forall j | 0 <= j < |rs| :: rs[j] == all[j];
    if Open(all, id) {
      var i :| FirstBegin(all, id, i) && forall j | i < j < |all| :: !Ends(all[j], id);
      if i < |rs| {
        assert FirstBegin(rs, id, i);
        assert forall j | i < j < |rs| :: !Ends(rs[j], id) by {
          assert forall j | i < j < |rs| :: all[j] == rs[j];
        }
        assert all[|rs|] == r;
      } else {
        assert forall j | 0 <= j < |rs| :: all[j] == rs[j] && !Begins(rs[j], id);
      }
    }
    if Open(rs, id) && !Ends(r, id) {
      var i :| FirstBegin(rs, id, i) && forall j | i < j < |rs| :: !Ends(rs[j], id);
      assert FirstBegin(all, id, i);
    }
    if id !in BegunIds(rs) && Begins(r, id) {
      assert forall j | 0 <= j < |rs| :: all[j] == rs[j] && all[j] in rs;
      assert FirstBegin(all, id, |rs|);
    }
  }

  /** The scan keeps exactly the ids with no end after their first begin. */
  lemma {:induction false} OpenIdsMeaning(rs: seq<Rec>, id: Bytes)
    ensures id in OpenIds(rs) <==> Open(rs, id)
    decreases |rs|
  {
    if |rs| > 0 {
      var front, r := rs[..|rs| - 1], rs[|rs| - 1];
      OpenIdsMeaning(front, id);
      assert rs == front + [r];
      BegunSnoc(front, r, id);
    }
  }

  ghost predicate Distinct(ids: seq<Bytes>) {
    forall i, j | 0 <= i < j < |ids| :: ids[i] != ids[j]
  }

  lemma WithoutDistinct(ids: seq<Bytes>, id: Bytes)
    requires Distinct(ids)
    ensures Distinct(Without(ids, id))
  {
    if |ids| > 0 {
      WithoutDistinct(ids[1..], id);
      assert ids[0] !in ids[1..];
      assert ids[0] !in Without(ids[1..], id);
    }
  }

  lemma {:induction false} DistinctOpen(rs: seq<Rec>)
    ensures Distinct(OpenIds(rs))
    decreases |rs|
  {
    if |rs| > 0 {
      var front, r := rs[..|rs| - 1], rs[|rs| - 1];
      DistinctOpen(front);
      if r.id.Some? {
        WithoutDistinct(OpenIds(front), r.id.value);
        OpenIdsMeaning(front, r.id.value);
        assert Open(front, r.id.value) ==> r.id.value in BegunIds(front);
      }
    }
  }

  /** `a` first began before `b` did. */
  ghost predicate Earlier(rs: seq<Rec>, a: Bytes, b: Bytes) {
    exists i, j :: FirstBegin(rs, a, i) && FirstBegin(rs, b, j) && i < j
  }

  ghost predicate ByBegin(rs: seq<Rec>, ids: seq<Bytes>) {
    forall p, q | 0 <= p < q < |ids| :: Earlier(rs, ids[p], ids[q])
  }

  lemma EarlierStays(rs: seq<Rec>, r: Rec, a: Bytes, b: Bytes)
    requires Earlier(rs, a, b)
    ensures Earlier(rs + [r], a, b)
  {
    var i, j :| FirstBegin(rs, a, i) && FirstBegin(rs, b, j) && i < j;
    assert FirstBegin(rs + [r], a, i) && FirstBegin(rs + [r], b, j);
  }

  lemma EarlierThanNew(rs: seq<Rec>, r: Rec, a: Bytes, b: Bytes)
    requires a in OpenIds(rs) && b !in BegunIds(rs) && Begins(r, b)
    ensures Earlier(rs + [r], a, b)
  {
    hide OpenIds;
    OpenIdsMeaning(rs, a);
    var i :| FirstBegin(rs, a, i);
    assert FirstBegin(rs + [r], a, i);
    assert FirstBegin(rs + [r], b, |rs|) by {
      assert forall k | 0 <= k < |rs| :: (rs + [r])[k] == rs[k] && !Begins(rs[k], b);
    }
  }

  lemma WithoutByBegin(rs: seq<Rec>, ids: seq<Bytes>, id: Bytes)
    requires ByBegin(rs, ids)
    ensures ByBegin(rs, Without(ids, id))
  {
    hide Earlier;
    if |ids| > 0 {
      var rest := Without(ids[1..], id);
      WithoutByBegin(rs, ids[1..], id);
      forall x | x in rest
        ensures Earlier(rs, ids[0], x)
      {
        assert x in ids[1..];
      }
    }
  }

  lemma {:induction false} OpenByBegin(rs: seq<Rec>)
    ensures ByBegin(rs, OpenIds(rs))
    decreases |rs|
  {
    if |rs| > 0 {
      hide Earlier;
      var front, r := rs[..|rs| - 1], rs[|rs| - 1];
      var open := OpenIds(front);
      assert rs == front + [r];
      OpenByBegin(front);
      forall p, q | 0 <= p < q < |open|
        ensures Earlier(rs, open[p], open[q])
      {
        EarlierStays(front, r, open[p], open[q]);
      }
      if r.id.Some? {
        WithoutByBegin(rs, open, r.id.value);
        if r.kind.Begin? && r.id.value !in BegunIds(front) {
          forall p | 0 <= p < |open|
            ensures Earlier(rs, open[p], r.id.value)
          {
            EarlierThanNew(front, r, open[p], r.id.value);
          }
        }
      }
    }
  }

  // ---------------------------------------------------------------- the pass

  function EndOf(id: Bytes, now: nat, outcome: Bytes): Rec {
    Rec(End, Some(ClipId(id)), Some(now), Clean(outcome))
  }

  /** THE END RECORD carries the clock's stamp, the id without its margins and
      the outcome without its own, none when that is blank; each in full up to
      200 bytes, and else a prefix of it. */
  lemma EndRecordMeans(id: Bytes, now: nat, outcome: Bytes)
    ensures var e := EndOf(id, now, outcome);
            && e.kind.End? && e.ts == Some(now)
            && e.id.Some? && UpTo200(e.id.value, Trim(id))
            && (e.note.None? <==> |Trim(outcome)| == 0)
            && (e.note.Some? ==> UpTo200(e.note.value, Trim(outcome)))
  {
    hide Trim;
    ClipUpTo(Trim(id));
    ClipUpTo(Trim(outcome));
  }

  lemma ClipUpTo(s: Bytes)
    ensures UpTo200(Clip(s, 200), s)
  {
    assert s[..|s|] == s;
  }

  predicate UpTo200(part: Bytes, whole: Bytes) {
    part <= whole && |part| <= 200 && (|whole| <= 200 ==> part == whole)
  }

  /** The end records of one pass; each reads the clock for itself. */
  function EndsFor(open: seq<Bytes>, clock: nat -> nat, outcome: Bytes): (rs: seq<Rec>)
    ensures |rs| == |open|
    ensures forall i | 0 <= i < |rs| :: rs[i] == EndOf(open[i], clock(i), outcome)
  {
    seq(|open|, i requires 0 <= i < |open| => EndOf(open[i], clock(i), outcome))
  }

  function AfterPass(rs: seq<Rec>, clock: nat -> nat, outcome: Bytes): seq<Rec> {
    rs + EndsFor(OpenIds(rs), clock, outcome)
  }

  /** A run once closed stays closed, whatever anyone appends. */
  lemma ClosedForGood(rs: seq<Rec>, more: seq<Rec>, id: Bytes)
    requires Closed(rs, id)
    ensures Closed(rs + more, id) && !Open(rs + more, id)
  {
    var i, j :| FirstBegin(rs, id, i) && i < j < |rs| && Ends(rs[j], id);
    var all := rs + more;
    assert FirstBegin(all, id, i) && Ends(all[j], id);
    assert forall k | FirstBegin(all, id, k) :: k == i;
  }

  /** An end that lands after the pass read the log closes the run, whatever
      else was appended before it or after it. */
  lemma EndCloses(rs: seq<Rec>, more: seq<Rec>, id: Bytes)
    requires id in BegunIds(rs)
    requires exists j :: 0 <= j < |more| && Ends(more[j], id)
    ensures Closed(rs + more, id) && !Open(rs + more, id)
  {
    var j :| 0 <= j < |more| && Ends(more[j], id);
    var i := FirstIndex(rs, id);
    assert FirstBegin(rs + more, id, i);
    assert Ends((rs + more)[|rs| + j], id);
    ClosedForGood(rs + more, [], id);
    assert rs + more + [] == rs + more;
  }

  lemma FirstIndex(rs: seq<Rec>, id: Bytes) returns (i: nat)
    requires id in BegunIds(rs)
    ensures FirstBegin(rs, id, i)
  {
    i := 0;
    while !Begins(rs[i], id)
      invariant i < |rs| && forall j | 0 <= j < i :: !Begins(rs[j], id)
      invariant exists k :: i <= k < |rs| && Begins(rs[k], id)
      decreases |rs| - i
    {
      i := i + 1;
    }
  }

  /** What stays open after a pass: the runs whose id no end record names. */
  lemma AfterPassOpen(rs: seq<Rec>, clock: nat -> nat, outcome: Bytes, id: Bytes)
    ensures Open(AfterPass(rs, clock, outcome), id)
        <==> Open(rs, id) && forall o | o in OpenIds(rs) :: ClipId(o) != id
  {
    hide ClipId, OpenIds;
    var open := OpenIds(rs);
    var more := EndsFor(open, clock, outcome);
    if o :| o in open && ClipId(o) == id {
      var j :| 0 <= j < |open| && open[j] == o;
      assert Ends(more[j], id);
      if Open(rs + more, id) {
        OpenInFront(rs, more, id);
        EndCloses(rs, more, id);
      }
    } else {
      forall j | 0 <= j < |more|
        ensures !Ends(more[j], id) && !Begins(more[j], id)
      {
        assert more[j] == EndOf(open[j], clock(j), outcome) && open[j] in open;
      }
      QuietAppend(rs, more, id);
    }
  }

  lemma OpenInFront(rs: seq<Rec>, more: seq<Rec>, id: Bytes)
    requires forall j | 0 <= j < |more| :: !more[j].kind.Begin?
    requires Open(rs + more, id)
    ensures id in BegunIds(rs)
  {
    var i :| FirstBegin(rs + more, id, i);
    assert i < |rs| && rs[i] in rs;
  }

  lemma QuietAppend(rs: seq<Rec>, more: seq<Rec>, id: Bytes)
    requires forall j | 0 <= j < |more| :: !Ends(more[j], id) && !Begins(more[j], id)
    ensures Open(rs + more, id) <==> Open(rs, id)
  {
    var all := rs + more;
    if Open(rs, id) {
      var i :| FirstBegin(rs, id, i) && forall j | i < j < |rs| :: !Ends(rs[j], id);
      assert FirstBegin(all, id, i);
    }
    if Open(all, id) {
      var i :| FirstBegin(all, id, i) && forall j | i < j < |all| :: !Ends(all[j], id);
      assert i < |rs|;
      assert forall j | 0 <= j < |rs| :: rs[j] == all[j];
      assert FirstBegin(rs, id, i);
    }
  }

  /** A SECOND PASS CLOSES NOTHING exactly when every id the first one closed
      survives the cap its end records go through; an id that does not would
      be closed again at every boot. */
  lemma SecondPassClosesNothing(rs: seq<Rec>, clock: nat -> nat, outcome: Bytes)
    ensures |OpenIds(AfterPass(rs, clock, outcome))| == 0
       <==> forall o | o in OpenIds(rs) :: ClipId(o) == o
  {
    hide ClipId, OpenIds;
    var open := OpenIds(rs);
    var after := OpenIds(AfterPass(rs, clock, outcome));
    forall id
      ensures id in after <==> id in open && forall o | o in open :: ClipId(o) != id
    {
      OpenIdsMeaning(AfterPass(rs, clock, outcome), id);
      OpenIdsMeaning(rs, id);
      AfterPassOpen(rs, clock, outcome, id);
    }
    if |after| == 0 {
      assert forall id | id in open :: exists o :: o in open && ClipId(o) == id;
      if o :| o in open && ClipId(o) != o {
        CoveringIsFixed(open, o);
      }
    } else {
      assert after[0] in after;
    }
  }

  /** An id that shrinks would have to be the image of a longer one that does. */
  lemma {:induction false} CoveringIsFixed(ids: seq<Bytes>, o: Bytes)
    requires forall id | id in ids :: exists p :: p in ids && ClipId(p) == id
    requires o in ids && ClipId(o) != o
    ensures false
    decreases LongestOf(ids) - |o|
  {
    hide ClipId;
    var p :| p in ids && ClipId(p) == o;
    ClipOnlyShortens(p);
    LongestBounds(ids, p);
    CoveringIsFixed(ids, p);
  }

  function LongestOf(ids: seq<Bytes>): nat {
    if |ids| == 0 then 0
    else
      var rest := LongestOf(ids[1..]);
      if |ids[0]| > rest then |ids[0]| else rest
  }

  lemma LongestBounds(ids: seq<Bytes>, o: Bytes)
    requires o in ids
    ensures |o| <= LongestOf(ids)
  {
    if ids[0] != o {
      LongestBounds(ids[1..], o);
    }
  }

  function EndRecords(rs: seq<Rec>, id: Bytes): seq<Rec> {
    if |rs| == 0 then []
    else (if Ends(rs[0], id) then [rs[0]] else []) + EndRecords(rs[1..], id)
  }

  lemma EndRecordsConcat(a: seq<Rec>, b: seq<Rec>, id: Bytes)
    ensures EndRecords(a + b, id) == EndRecords(a, id) + EndRecords(b, id)
    decreases |a|
  {
    if |a| == 0 {
      assert a + b == b;
    } else {
      assert (a + b)[1..] == a[1..] + b;
      EndRecordsConcat(a[1..], b, id);
      Assoc(if Ends(a[0], id) then [a[0]] else [], EndRecords(a[1..], id), EndRecords(b, id));
    }
  }

  lemma EndsForSnoc(open: seq<Bytes>, clock: nat -> nat, outcome: Bytes, id: Bytes)
    requires |open| > 0
    ensures EndRecords(EndsFor(open, clock, outcome), id)
         == EndRecords(EndsFor(open[..|open| - 1], clock, outcome), id)
            + if ClipId(open[|open| - 1]) == id then [EndOf(open[|open| - 1], clock(|open| - 1), outcome)] else []
  {
    hide ClipId, Clean;
    var n := |open| - 1;
    var last := EndOf(open[n], clock(n), outcome);
    assert EndsFor(open, clock, outcome) == EndsFor(open[..n], clock, outcome) + [last];
    EndRecordsConcat(EndsFor(open[..n], clock, outcome), [last], id);
    assert EndRecords([last], id) == if ClipId(open[n]) == id then [last] else [];
  }

  ghost predicate FixedIds(ids: seq<Bytes>) {
    forall i | 0 <= i < |ids| :: ClipId(ids[i]) == ids[i]
  }

  lemma {:induction false} NoEndForOthers(open: seq<Bytes>, clock: nat -> nat, outcome: Bytes, id: Bytes)
    requires FixedIds(open) && id !in open
    ensures EndRecords(EndsFor(open, clock, outcome), id) == []
    decreases |open|
  {
    hide ClipId, Clean, EndsFor, EndRecords;
    if |open| > 0 {
      var n := |open| - 1;
      assert ClipId(open[n]) == open[n] && open[n] != id;
      NoEndForOthers(open[..n], clock, outcome, id);
      EndsForSnoc(open, clock, outcome, id);
    } else {
      NoRecords(EndsFor(open, clock, outcome), id);
    }
  }

  lemma NoRecords(rs: seq<Rec>, id: Bytes)
    requires |rs| == 0
    ensures EndRecords(rs, id) == []
  {
  }

  lemma {:induction false} OneEndForEach(open: seq<Bytes>, clock: nat -> nat, outcome: Bytes, i: nat)
    requires FixedIds(open) && Distinct(open) && i < |open|
    ensures EndRecords(EndsFor(open, clock, outcome), open[i]) == [EndOf(open[i], clock(i), outcome)]
    decreases |open|
  {
    hide ClipId, Clean, EndsFor, EndRecords;
    var n := |open| - 1;
    assert ClipId(open[n]) == open[n];
    EndsForSnoc(open, clock, outcome, open[i]);
    if i < n {
      assert open[n] != open[i];
      OneEndForEach(open[..n], clock, outcome, i);
    } else {
      assert open[n] !in open[..n];
      NoEndForOthers(open[..n], clock, outcome, open[n]);
    }
  }

  /** THE PASS ON THE FILE, for runs whose ids were minted here: the bytes are
      an untouched prefix; afterwards no run is open; a run that was closed
      keeps its end records as they were, and one that was open gains exactly
      one, with the outcome given. */
  lemma PassClosesEveryRun(c: Codec<Rec>, file: Bytes, clock: nat -> nat, outcome: Bytes, id: Bytes)
    requires c.Sound() && FixedIds(OpenIds(c.ReadAll(file)))
    ensures var rs := c.ReadAll(file);
            var later := c.AppendAll(file, EndsFor(OpenIds(rs), clock, outcome));
            && file <= later
            && c.ReadAll(later) == AfterPass(rs, clock, outcome)
            && !Open(c.ReadAll(later), id)
            && (id !in OpenIds(rs) ==> EndRecords(c.ReadAll(later), id) == EndRecords(rs, id))
            && forall i | 0 <= i < |OpenIds(rs)| && OpenIds(rs)[i] == id ::
                 EndRecords(c.ReadAll(later), id)
                 == EndRecords(rs, id) + [Rec(End, Some(id), Some(clock(i)), Clean(outcome))]
  {
    hide ClipId, Clean, OpenIds, EndRecords;
    var rs := c.ReadAll(file);
    var open := OpenIds(rs);
    assert forall i | 0 <= i < |open| :: ClipId(open[i]) == open[i];
    var more := EndsFor(open, clock, outcome);
    c.AppendAllReadsBack(file, more);
    c.AppendAllOnlyAppends(file, more);
    SecondPassClosesNothing(rs, clock, outcome);
    OpenIdsMeaning(AfterPass(rs, clock, outcome), id);
    DistinctOpen(rs);
    if id !in open {
      NoEndForOthers(open, clock, outcome, id);
    }
    forall i | 0 <= i < |open| && open[i] == id
      ensures EndRecords(more, id) == [EndOf(id, clock(i), outcome)]
    {
      OneEndForEach(open, clock, outcome, i);
    }
    EndRecordsConcat(rs, more, id);
  }

  // ---------------------------------------------------------------- the log

  method AnyBegins(rs: seq<Rec>, id: Bytes) returns (found: bool)
    ensures found <==> id in BegunIds(rs)
  {
    for i := 0 to |rs|
      invariant forall j | 0 <= j < i :: !Begins(rs[j], id)
    {
      if Begins(rs[i], id) {
        return true;
      }
    }
    return false;
  }

  class RunLog {
    const file: RecordFile<Rec>

    constructor (file: RecordFile<Rec>)
      ensures this.file == file
    {
      this.file := file;
    }

    method Begin(tsMs: nat, rand: nat, title: Bytes) returns (id: Bytes)
      modifies file
      ensures id == Mint(tsMs, rand)
      ensures file.family.codec.Sound()
          ==> file.Records() == old(file.Records()) + [Rec(Kind.Begin, Some(id), Some(tsMs), Clean(title))]
    {
      id := Mint(tsMs, rand);
      file.Append(Rec(Kind.Begin, Some(id), Some(tsMs), Clean(title)));
    }

    method End(id: Bytes, now: nat, outcome: Bytes)
      modifies file
      ensures file.content == Some(file.family.codec.Appended(
                if old(file.content).Some? then old(file.content).value else [], EndOf(id, now, outcome)))
      ensures file.family.codec.Sound() ==>
                && |file.Records()| == |old(file.Records())| + 1 && old(file.Records()) <= file.Records()
                && var e := file.Records()[|old(file.Records())|];
                && e == EndOf(id, now, outcome) && e.kind.End? && e.ts == Some(now)
                && e.id.Some? && UpTo200(e.id.value, Trim(id))
                && (e.note.None? <==> |Trim(outcome)| == 0)
                && (e.note.Some? ==> UpTo200(e.note.value, Trim(outcome)))
    {
      EndRecordMeans(id, now, outcome);
      hide Trim, EndOf, UpTo200;
      file.Append(EndOf(id, now, outcome));
    }

    /** Was this id ever minted. */
    method Known(id: Bytes) returns (known: bool)
      ensures known <==> id in BegunIds(file.Records())
    {
      if file.content.None? {
        return false;
      }
      known := AnyBegins(file.family.codec.ReadAll(file.content.value), id);
    }

    /** Close every run the last process left open. */
    method AbandonOpenRuns(clock: nat -> nat, outcome: Bytes) returns (closed: nat)
      modifies file
      ensures closed == |OpenIds(old(file.Records()))|
      ensures old(file.content).None? || closed == 0 ==> file.content == old(file.content)
      ensures old(file.content).Some? ==> file.content == Some(file.family.codec.AppendAll(
                old(file.content).value, EndsFor(OpenIds(old(file.Records())), clock, outcome)))
      ensures file.family.codec.Sound() ==> file.Records() == AfterPass(old(file.Records()), clock, outcome)
    {
      hide OpenIds, EndsFor;
      if file.content.None? {
        NothingOpen(clock, outcome);
        return 0;
      }
      var c := file.family.codec;
      ghost var bytes := file.content.value;
      var open := ScanOpen(c.ReadAll(file.content.value));
      EndAll(open, clock, outcome);
      if c.Sound() {
        c.AppendAllReadsBack(bytes, EndsFor(open, clock, outcome));
      }
      closed := |open|;
      assert closed == 0 ==> c.AppendAll(bytes, EndsFor(open, clock, outcome)) == bytes;
    }

    method EndAll(open: seq<Bytes>, clock: nat -> nat, outcome: Bytes)
      requires file.content.Some?
      modifies file
      ensures file.content
           == Some(file.family.codec.AppendAll(old(file.content).value, EndsFor(open, clock, outcome)))
    {
      hide ClipId, Clean;
      ghost var c, bytes, ends := file.family.codec, file.content.value, EndsFor(open, clock, outcome);
      for i := 0 to |open|
        invariant file.content == Some(c.AppendAll(bytes, ends[..i]))
      {
        End(open[i], clock(i), outcome);
        AppendAllSnoc(c, bytes, ends[..i], ends[i]);
        assert ends[..i + 1] == ends[..i] + [ends[i]];
      }
      assert ends[..|open|] == ends;
    }
  }

  lemma NothingOpen(clock: nat -> nat, outcome: Bytes)
    ensures OpenIds([]) == [] && AfterPass([], clock, outcome) == []
  {
    assert EndsFor([], clock, outcome) == [];
  }

  lemma AppendAllSnoc<R(!new)>(c: Codec<R>, file: Bytes, rs: seq<R>, r: R)
    ensures c.AppendAll(file, rs + [r]) == c.Appended(c.AppendAll(file, rs), r)
    decreases |rs|
  {
    if |rs| > 0 {
      assert (rs + [r])[1..] == rs[1..] + [r];
      AppendAllSnoc(c, c.Appended(file, rs[0]), rs[1..], r);
    } else {
      assert rs + [r] == [r];
    }
  }

  // ---------------------------------------------------------------- the trim

  ghost predicate BegunOnce(rs: seq<Rec>, id: Bytes) {
    forall i, j | 0 <= i < j < |rs| :: !(Begins(rs[i], id) && Begins(rs[j], id))
  }

  /** The log's records carry their age in `ts_ms`. */
  ghost predicate AgedByStamp(f: Family<Rec>) {
    forall r :: f.stamp(r) == r.ts
  }

  /** Some begin stayed as the first one, and every later end went. */
  ghost predicate KeptOpen(f: Family<Rec>, cutoff: nat, rs: seq<Rec>, id: Bytes) {
    exists i :: KeptOpenAt(f, cutoff, rs, id, i)
  }

  ghost predicate KeptOpenAt(f: Family<Rec>, cutoff: nat, rs: seq<Rec>, id: Bytes, i: int) {
    && 0 <= i < |rs| && Begins(rs[i], id) && !f.Excludes(cutoff, rs[i])
    && (forall j | 0 <= j < i && Begins(rs[j], id) :: f.Excludes(cutoff, rs[j]))
    && forall j | i < j < |rs| && Ends(rs[j], id) :: f.Excludes(cutoff, rs[j])
  }

  lemma {:induction false} OpenAfterTrim(f: Family<Rec>, cutoff: nat, rs: seq<Rec>, id: Bytes)
    ensures Open(f.KeptRecords(cutoff, rs), id) <==> KeptOpen(f, cutoff, rs, id)
    decreases |rs|
  {
    if |rs| > 0 {
      hide Open, KeptOpen;
      var front, r := rs[..|rs| - 1], rs[|rs| - 1];
      OpenAfterTrim(f, cutoff, front, id);
      KeptSnoc(f, cutoff, front, r);
      assert rs == front + [r];
      OneMore(f, cutoff, front, r, id);
    }
  }

  lemma KeptMembers(f: Family<Rec>, cutoff: nat, rs: seq<Rec>, r: Rec)
    ensures r in f.KeptRecords(cutoff, rs) <==> r in rs && !f.Excludes(cutoff, r)
  {
    if |rs| > 0 {
      KeptMembers(f, cutoff, rs[1..], r);
      assert rs == [rs[0]] + rs[1..];
    }
  }

  /** Whether a trim leaves a begin of the id. */
  lemma KeptBegun(f: Family<Rec>, cutoff: nat, rs: seq<Rec>, id: Bytes)
    ensures id in BegunIds(f.KeptRecords(cutoff, rs))
       <==> exists j :: 0 <= j < |rs| && Begins(rs[j], id) && !f.Excludes(cutoff, rs[j])
  {
    var kept := f.KeptRecords(cutoff, rs);
    if id in BegunIds(kept) {
      var r :| r in kept && Begins(r, id);
      KeptMembers(f, cutoff, rs, r);
    }
    if j :| 0 <= j < |rs| && Begins(rs[j], id) && !f.Excludes(cutoff, rs[j]) {
      KeptMembers(f, cutoff, rs, rs[j]);
    }
  }

  lemma KeptSnoc(f: Family<Rec>, cutoff: nat, front: seq<Rec>, r: Rec)
    ensures f.KeptRecords(cutoff, front + [r])
         == f.KeptRecords(cutoff, front) + if f.Excludes(cutoff, r) then [] else [r]
  {
    f.KeptRecordsConcat(cutoff, front, [r]);
    assert f.KeptRecords(cutoff, [r]) == if f.Excludes(cutoff, r) then [] else [r];
  }

  lemma OneMore(f: Family<Rec>, cutoff: nat, front: seq<Rec>, r: Rec, id: Bytes)
    requires Open(f.KeptRecords(cutoff, front), id) <==> KeptOpen(f, cutoff, front, id)
    ensures Open(f.KeptRecords(cutoff, front) + (if f.Excludes(cutoff, r) then [] else [r]), id)
       <==> KeptOpen(f, cutoff, front + [r], id)
  {
    hide Open, BegunIds, KeptOpen;
    var kept := f.KeptRecords(cutoff, front);
    KeptOpenSnoc(f, cutoff, front, r, id);
    if f.Excludes(cutoff, r) {
      assert kept + [] == kept;
    } else {
      BegunSnoc(kept, r, id);
      KeptBegun(f, cutoff, front, id);
    }
  }

  lemma KeptOpenSnoc(f: Family<Rec>, cutoff: nat, front: seq<Rec>, r: Rec, id: Bytes)
    ensures KeptOpen(f, cutoff, front + [r], id)
       <==> ((KeptOpen(f, cutoff, front, id) && (Ends(r, id) ==> f.Excludes(cutoff, r)))
             || (Begins(r, id) && !f.Excludes(cutoff, r)
                 && forall j | 0 <= j < |front| && Begins(front[j], id) :: f.Excludes(cutoff, front[j])))
  {
    var all := front + [r];
    assert forall j | 0 <= j < |front| :: all[j] == front[j];
    forall i | 0 <= i < |front|
      ensures KeptOpenAt(f, cutoff, all, id, i)
         <==> KeptOpenAt(f, cutoff, front, id, i) && (Ends(r, id) ==> f.Excludes(cutoff, r))
    {
      assert all[|front|] == r;
      assert forall j | 0 <= j < |front| :: front[j] == all[j];
    }
    KeptOpenLast(f, cutoff, front, r, id);
    hide KeptOpenAt;
    if i :| KeptOpenAt(f, cutoff, all, id, i) {
      assert 0 <= i <= |front| by {
        KeptOpenInside(f, cutoff, all, id, i);
      }
    }
    if i :| KeptOpenAt(f, cutoff, front, id, i) {
      KeptOpenInside(f, cutoff, front, id, i);
    }
  }

  lemma KeptOpenInside(f: Family<Rec>, cutoff: nat, rs: seq<Rec>, id: Bytes, i: int)
    requires KeptOpenAt(f, cutoff, rs, id, i)
    ensures 0 <= i < |rs|
  {
  }

  lemma KeptOpenLast(f: Family<Rec>, cutoff: nat, front: seq<Rec>, r: Rec, id: Bytes)
    ensures KeptOpenAt(f, cutoff, front + [r], id, |front|)
       <==> (Begins(r, id) && !f.Excludes(cutoff, r)
             && forall j | 0 <= j < |front| && Begins(front[j], id) :: f.Excludes(cutoff, front[j]))
  {
    var all := front + [r];
    assert all[|front|] == r && forall j | 0 <= j < |front| :: all[j] == front[j];
    assert forall j | 0 <= j < |front| :: front[j] == all[j];
  }

  /** A later end or an earlier begin that no cutoff drops before begin `i`. */
  predicate Covers(rs: seq<Rec>, id: Bytes, i: int, j: int) {
    && 0 <= i < |rs| && 0 <= j < |rs|
    && ((i < j && Ends(rs[j], id)) || (j < i && Begins(rs[j], id)))
    && (rs[j].ts.None? || (rs[i].ts.Some? && rs[i].ts.value <= rs[j].ts.value))
  }

  ghost predicate AllCovered(rs: seq<Rec>, id: Bytes) {
    forall i | 0 <= i < |rs| && Begins(rs[i], id) :: exists j :: Covers(rs, id, i, j)
  }

  /** THE TRIM NEVER LEAVES A RUN OPEN, at any cutoff, exactly when for every
      begin of it some later end, or some earlier begin, carries no stamp or one
      at least as new. */
  lemma TrimKeepsClosed(f: Family<Rec>, rs: seq<Rec>, id: Bytes)
    requires AgedByStamp(f)
    ensures (forall cutoff: nat :: !Open(f.KeptRecords(cutoff, rs), id)) <==> AllCovered(rs, id)
  {
    hide Open, KeptOpen, Covers;
    if AllCovered(rs, id) {
      forall cutoff: nat
        ensures !Open(f.KeptRecords(cutoff, rs), id)
      {
        OpenAfterTrim(f, cutoff, rs, id);
        NeverKeptOpen(f, cutoff, rs, id);
      }
    } else {
      var i :| 0 <= i < |rs| && Begins(rs[i], id) && forall j :: !Covers(rs, id, i, j);
      var cutoff := BadCutoff(f, rs, id, i);
      OpenAfterTrim(f, cutoff, rs, id);
    }
  }

  lemma NeverKeptOpen(f: Family<Rec>, cutoff: nat, rs: seq<Rec>, id: Bytes)
    requires AgedByStamp(f) && AllCovered(rs, id)
    ensures !KeptOpen(f, cutoff, rs, id)
  {
    forall i
      ensures !KeptOpenAt(f, cutoff, rs, id, i)
    {
      if 0 <= i < |rs| && Begins(rs[i], id) && !f.Excludes(cutoff, rs[i]) {
        var j :| Covers(rs, id, i, j);
        assert !f.Excludes(cutoff, rs[j]);
      }
    }
  }

  lemma BadCutoff(f: Family<Rec>, rs: seq<Rec>, id: Bytes, i: int) returns (cutoff: nat)
    requires AgedByStamp(f) && 0 <= i < |rs| && Begins(rs[i], id) && forall j :: !Covers(rs, id, i, j)
    ensures KeptOpen(f, cutoff, rs, id)
  {
    cutoff := if rs[i].ts.Some? then rs[i].ts.value else 1 + NewestStamp(rs);
    forall j | 0 <= j < |rs| && ((i < j && Ends(rs[j], id)) || (j < i && Begins(rs[j], id)))
      ensures f.Excludes(cutoff, rs[j])
    {
      assert !Covers(rs, id, i, j);
      if rs[j].ts.Some? {
        StampBound(rs, rs[j]);
      }
    }
    assert KeptOpenAt(f, cutoff, rs, id, i);
  }

  function NewestStamp(rs: seq<Rec>): nat {
    if |rs| == 0 then 0
    else
      var rest := NewestStamp(rs[1..]);
      if rs[0].ts.Some? && rs[0].ts.value > rest then rs[0].ts.value else rest
  }

  lemma StampBound(rs: seq<Rec>, r: Rec)
    requires r in rs && r.ts.Some?
    ensures r.ts.value <= NewestStamp(rs)
  {
    if rs[0] != r {
      StampBound(rs[1..], r);
    }
  }

  // ---------------------------------------------------------------- minted ids

  /** A MINTED ID, character by character. */
  lemma MintText(tsMs: nat, rand: nat)
    ensures var hex := Ascii("0123456789abcdef");
            Mint(tsMs, rand) ==
            Ascii("run-") + Decimal(tsMs) + Ascii("-")
            + [hex[rand / 0x100000 % 16], hex[rand / 0x10000 % 16], hex[rand / 0x1000 % 16],
               hex[rand / 0x100 % 16], hex[rand / 0x10 % 16], hex[rand % 16]]
  {
    HexText();
    assert Ascii("run-") == [0x72, 0x75, 0x6E, 0x2D] && Ascii("-") == [0x2D];
    hide Decimal, Ascii, HexDigit;
  }

  lemma HexText()
    ensures |Ascii("0123456789abcdef")| == 16
    ensures forall n: nat | n < 16 :: Ascii("0123456789abcdef")[n] == HexDigit(n)
  {
    var hex := Ascii("0123456789abcdef");
    assert hex == [0x30, 0x31, 0x32, 0x33, 0x34, 0x35, 0x36, 0x37, 0x38, 0x39, 0x61, 0x62, 0x63, 0x64, 0x65, 0x66];
  }

  /** A minted id tells its stamp. */
  lemma MintTellsStamp(a: nat, b: nat, r: nat, s: nat)
    requires Mint(a, r) == Mint(b, s)
    ensures a == b
  {
    hide Decimal, Hex6;
    MintDigits(a, r);
    MintDigits(b, s);
    ValueOfDecimal(a);
    ValueOfDecimal(b);
  }

  lemma MintDigits(a: nat, r: nat)
    ensures |Mint(a, r)| == |Decimal(a)| + 11
    ensures Mint(a, r)[4..|Mint(a, r)| - 7] == Decimal(a)
  {
    hide Decimal, Hex6;
    var head: Bytes := [0x72, 0x75, 0x6E, 0x2D];
    var m := Mint(a, r);
    assert m == (head + Decimal(a)) + ([0x2D] + Hex6(r));
    assert m[..|m| - 7] == head + Decimal(a);
    assert m[4..|m| - 7] == m[..|m| - 7][4..];
  }

  /** Each begin of the id is one that `begin` wrote: the id embeds its stamp. */
  ghost predicate MintedHere(rs: seq<Rec>, id: Bytes) {
    forall i | 0 <= i < |rs| && Begins(rs[i], id) ::
      rs[i].ts.Some? && exists rand: nat :: id == Mint(rs[i].ts.value, rand)
  }

  lemma OneStamp(rs: seq<Rec>, id: Bytes, i: int, j: int)
    requires MintedHere(rs, id) && 0 <= i < |rs| && 0 <= j < |rs| && Begins(rs[i], id) && Begins(rs[j], id)
    ensures rs[i].ts == rs[j].ts
  {
    var r: nat :| id == Mint(rs[i].ts.value, r);
    var s: nat :| id == Mint(rs[j].ts.value, s);
    MintTellsStamp(rs[i].ts.value, rs[j].ts.value, r, s);
  }

  /** FOR A RUN BEGUN HERE, however often its id was begun, no cutoff leaves it
      open exactly when some end after its first begin carries no stamp or one
      at least as new. */
  lemma TrimKeepsMinted(f: Family<Rec>, rs: seq<Rec>, id: Bytes, i: int)
    requires AgedByStamp(f) && MintedHere(rs, id) && FirstBegin(rs, id, i)
    ensures (forall cutoff: nat :: !Open(f.KeptRecords(cutoff, rs), id))
       <==> exists j :: i < j && Covers(rs, id, i, j)
  {
    hide Open, MintedHere;
    TrimKeepsClosed(f, rs, id);
    if j :| i < j && Covers(rs, id, i, j) {
      forall k | 0 <= k < |rs| && Begins(rs[k], id)
        ensures exists m :: Covers(rs, id, k, m)
      {
        OneStamp(rs, id, i, k);
        if k == i {
          assert Covers(rs, id, k, j);
        } else {
          assert Covers(rs, id, k, i);
        }
      }
    }
    if AllCovered(rs, id) {
      var j :| Covers(rs, id, i, j);
      assert i < j;
    }
  }

  /** With stamps that never go back, no cutoff turns a closed run into an open
      one, when it was begun here or begun once. */
  lemma SteadyClockTrimsSafely(f: Family<Rec>, cutoff: nat, rs: seq<Rec>, id: Bytes)
    requires AgedByStamp(f) && (MintedHere(rs, id) || BegunOnce(rs, id))
    requires forall i, j | 0 <= i < j < |rs| && rs[i].ts.Some? && rs[j].ts.Some? :: rs[i].ts.value <= rs[j].ts.value
    requires forall i | 0 <= i < |rs| && Begins(rs[i], id) :: rs[i].ts.Some?
    requires Closed(rs, id)
    ensures !Open(f.KeptRecords(cutoff, rs), id)
  {
    hide Open, MintedHere;
    var i, j :| FirstBegin(rs, id, i) && i < j < |rs| && Ends(rs[j], id);
    assert Covers(rs, id, i, j);
    if MintedHere(rs, id) {
      TrimKeepsMinted(f, rs, id, i);
    } else {
      TrimKeepsClosed(f, rs, id);
    }
  }

  /** An id begun twice with two stamps, which only another hand can write, can
      be reopened even by a steady clock: the begin and the end go, and the
      stale second begin becomes the first. */
  lemma SecondBeginReopens(f: Family<Rec>, id: Bytes)
    requires AgedByStamp(f)
    ensures var rs := [Rec(Begin, Some(id), Some(1), None), Rec(End, Some(id), Some(2), None),
                       Rec(Begin, Some(id), Some(3), None)];
            && Closed(rs, id) && !Open(rs, id) && !MintedHere(rs, id)
            && Open(f.KeptRecords(3, rs), id)
  {
    var rs := [Rec(Begin, Some(id), Some(1), None), Rec(End, Some(id), Some(2), None),
               Rec(Begin, Some(id), Some(3), None)];
    if MintedHere(rs, id) {
      OneStamp(rs, id, 0, 2);
    }
    assert FirstBegin(rs, id, 0) && Ends(rs[1], id);
    ClosedForGood(rs, [], id);
    assert rs + [] == rs;
    assert f.KeptRecords(3, rs[1..]) == f.KeptRecords(3, rs[2..]);
    assert f.KeptRecords(3, rs[2..]) == [rs[2]];
    assert FirstBegin([rs[2]], id, 0);
  }
}
