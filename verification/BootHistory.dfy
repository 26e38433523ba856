/** The boot history: one record appended per boot, and a repair pass that
    keeps the newest ones and drops whatever does not read as a record. */
module BootHistory {
  import opened Jsonl
  import opened Text
  import opened Feed

  const BOOT_HISTORY_MAX: nat := 200

  predicate Blank(line: Bytes) {
    |Trim(line)| == 0
  }

  /** The lines that are not blank. */
  function Solid(lines: seq<Bytes>): seq<Bytes> {
    if |lines| == 0 then [] else (if Blank(lines[0]) then [] else [lines[0]]) + Solid(lines[1..])
  }

  /** The lines that read as a record. */
  function Good<R(!new)>(c: Codec<R>, lines: seq<Bytes>): (good: seq<Bytes>)
    ensures |good| <= |lines|
    ensures forall l | l in good :: l in lines && c.parse(l).Some?
    ensures |good| == |lines| <==> forall l | l in lines :: c.parse(l).Some?
  {
    if |lines| == 0 then []
    else
      (if c.parse(lines[0]).Some? then [lines[0]] else []) + Good(c, lines[1..])
  }

  /** Nothing to do: few enough lines, all of them records. */
  predicate Healthy<R(!new)>(c: Codec<R>, file: Bytes) {
    var lines := Solid(Lines(file));
    |lines| <= BOOT_HISTORY_MAX + 1 && forall l | l in lines :: c.parse(l).Some?
  }

  function Pruned<R(!new)>(c: Codec<R>, file: Bytes): Bytes
    requires c.header.Some?
  {
    if Healthy(c, file) then file
    else c.header.value + [NL] + Join(Newest(Good(c, Solid(Lines(file))), BOOT_HISTORY_MAX))
  }

  /** A history's codec: it has a header that starts with something printed,
      and a blank line is no record. */
  ghost predicate Proper<R(!new)>(c: Codec<R>) {
    && c.Sound() && c.header.Some?
    && (forall l | Blank(l) :: c.parse(l) == None)
    && forall k | 0 < k <= |c.header.value| :: !Blank(c.header.value[..k])
  }

  function Braces(): Codec<()> {
    Codec((r: ()) => [123, 125], (b: Bytes) => if b == [123, 125] then Some(()) else None, Some([91, 93]))
  }

  lemma BracesSound()
    ensures Braces().Sound()
  {
    var c := Braces();
    forall k | 0 <= k <= 2
      ensures c.parse(c.header.value[..k]) == None
    {
      assert k > 0 ==> c.header.value[..k][0] == 91;
    }
    forall r: ()
      ensures c.parse(c.encode(r)) == Some(r)
    {
      assert r == ();
    }
  }

  /** The assumptions of `Proper` can be met. */
  lemma ProperCodecExists()
    ensures exists c: Codec<()> :: Proper(c)
  {
    var c := Braces();
    BracesSound();
    hide Blank, c.Sound;
    forall l | Blank(l)
      ensures c.parse(l) == None
    {
      BlankIsNoBrace(l);
    }
    forall k | 0 < k <= 2
      ensures !Blank(c.header.value[..k])
    {
      PrintedIsNotBlank(c.header.value[..k]);
    }
    assert Proper(c);
  }

  lemma PrintedIsNotBlank(s: Bytes)
    requires |s| > 0 && forall i | 0 <= i < |s| :: 0x21 <= s[i] < 0x7F
    ensures !Blank(s)
  {
    hide Trim;
    PrintableIsTrimmed(s);
  }

  lemma BlankIsNoBrace(l: Bytes)
    requires Blank(l)
    ensures l != [123, 125]
  {
    hide Blank;
    PrintedIsNotBlank([123, 125]);
  }

  // ---------------------------------------------------------------- one prune

  lemma {:induction false} DecodeSolid<R(!new)>(c: Codec<R>, lines: seq<Bytes>)
    requires Proper(c)
    ensures c.Decode(Solid(lines)) == c.Decode(lines)
    decreases |lines|
  {
    hide Blank;
    if |lines| > 0 {
      DecodeSolid(c, lines[1..]);
      assert Blank(lines[0]) ==> c.parse(lines[0]) == None;
      c.DecodeConcat(if Blank(lines[0]) then [] else [lines[0]], Solid(lines[1..]));
      DecodeOne(c, lines[0]);
    }
  }

  lemma DecodeOne<R(!new)>(c: Codec<R>, line: Bytes)
    ensures c.Decode([line]) == (match c.parse(line) case Some(r) => [r] case None => [])
    ensures c.Decode([]) == []
  {
    assert c.Decode([line][1..]) == [];
  }

  lemma {:induction false} DecodeGood<R(!new)>(c: Codec<R>, lines: seq<Bytes>)
    ensures c.Decode(Good(c, lines)) == c.Decode(lines)
    ensures |c.Decode(lines)| == |Good(c, lines)|
    decreases |lines|
  {
    if |lines| > 0 {
      DecodeGood(c, lines[1..]);
      c.DecodeConcat(if c.parse(lines[0]).Some? then [lines[0]] else [], Good(c, lines[1..]));
      DecodeOne(c, lines[0]);
    }
  }

  /** Among lines that all read as records, the newest lines are the newest records. */
  lemma {:induction false} DecodeNewest<R(!new)>(c: Codec<R>, good: seq<Bytes>, n: nat)
    requires forall l | l in good :: c.parse(l).Some?
    ensures c.Decode(Newest(good, n)) == Newest(c.Decode(good), n)
    ensures |c.Decode(good)| == |good|
    decreases |good|
  {
    if |good| > 0 {
      hide Newest;
      DecodeNewest(c, good[1..], n);
      NewestCons(good[0], good[1..], n);
      NewestCons(c.parse(good[0]).value, c.Decode(good[1..]), n);
      assert good == [good[0]] + good[1..];
      assert |good| <= n ==> Newest(good[1..], n) == good[1..] by {
        NewestOfShort(good[1..], n);
      }
    }
  }

  lemma NewestCons<T>(x: T, xs: seq<T>, n: nat)
    ensures Newest([x] + xs, n) == if |xs| < n then [x] + Newest(xs, n) else Newest(xs, n)
  {
  }

  lemma SolidAreLines(lines: seq<Bytes>)
    ensures forall l | l in Solid(lines) :: l in lines
    ensures forall l :: l in Solid(lines) <==> l in lines && !Blank(l)
  {
    hide Blank;
    if |lines| > 0 {
      assert lines == [lines[0]] + lines[1..];
      SolidAreLines(lines[1..]);
      assert Solid(lines) == (if Blank(lines[0]) then [] else [lines[0]]) + Solid(lines[1..]);
    }
  }

  /** A PRUNE KEEPS THE NEWEST RECORDS, and repairs: a rewritten file holds the
      newest 200 records, a file left alone the records it held. So the bound
      fails exactly for a healthy file of 201 records, which has no header. */
  lemma PruneKeepsNewest<R(!new)>(c: Codec<R>, file: Bytes)
    requires Proper(c)
    ensures !Healthy(c, file) ==> c.ReadAll(Pruned(c, file)) == Newest(c.ReadAll(file), BOOT_HISTORY_MAX)
    ensures c.ReadAll(Pruned(c, file)) == Newest(c.ReadAll(file), BOOT_HISTORY_MAX)
       <==> !(Healthy(c, file) && |c.ReadAll(file)| == BOOT_HISTORY_MAX + 1)
  {
    hide Solid, Lines, Good, Newest, Join;
    var lines := Solid(Lines(file));
    DecodeSolid(c, Lines(file));
    DecodeGood(c, lines);
    if Healthy(c, file) {
      NewestOfShort(c.ReadAll(file), BOOT_HISTORY_MAX);
    } else {
      Rewritten(c, file);
    }
  }

  /** WHAT A PRUNE LEAVES ALONE: exactly a file of at most 201 records all of
      whose lines are records or white space. Any other becomes the header and
      the newest 200 of its own lines that read as records. */
  lemma PruneMeans<R(!new)>(c: Codec<R>, file: Bytes)
    requires Proper(c)
    ensures var sound := forall l | l in Lines(file) && |Trim(l)| > 0 :: c.parse(l).Some?;
            if sound && |c.ReadAll(file)| <= 201 then Pruned(c, file) == file
            else
              && c.header.value + [NL] <= Pruned(c, file)
              && Lines(Pruned(c, file))[0] == c.header.value
              && c.ReadAll(Pruned(c, file)) == Newest(c.ReadAll(file), 200)
              && forall l | l in Lines(Pruned(c, file))[1..] :: l in Lines(file) && c.parse(l).Some?
  {
    hide Solid, Lines, Good, Newest, Join, Trim;
    var lines := Solid(Lines(file));
    SolidAreLines(Lines(file));
    DecodeSolid(c, Lines(file));
    DecodeGood(c, lines);
    assert (forall l | l in lines :: c.parse(l).Some?) <==>
           forall l | l in Lines(file) && |Trim(l)| > 0 :: c.parse(l).Some?;
    if !Healthy(c, file) {
      Rewritten(c, file);
      PrunedLines(c, file);
    }
  }

  lemma PrunedLines<R(!new)>(c: Codec<R>, file: Bytes)
    requires Proper(c) && !Healthy(c, file)
    ensures Lines(Pruned(c, file)) == [c.header.value] + Newest(Good(c, Solid(Lines(file))), BOOT_HISTORY_MAX)
    ensures forall l | l in Lines(Pruned(c, file))[1..] :: l in Lines(file) && c.parse(l).Some?
  {
    hide Solid, Lines, Good, Healthy, Join, Blank;
    var lines := Solid(Lines(file));
    var kept := Newest(Good(c, lines), BOOT_HISTORY_MAX);
    LinesAreLines(file);
    SolidAreLines(Lines(file));
    LinesOfJoin(kept);
    HeaderReadsNothing(c, Join(kept));
  }

  lemma NewestOfShort<T>(xs: seq<T>, n: nat)
    ensures |xs| <= n <==> Newest(xs, n) == xs
  {
  }

  lemma Rewritten<R(!new)>(c: Codec<R>, file: Bytes)
    requires Proper(c) && !Healthy(c, file)
    ensures c.ReadAll(Pruned(c, file)) == Newest(c.ReadAll(file), BOOT_HISTORY_MAX)
  {
    hide Solid, Lines, Good, Healthy, Join, Blank;
    var lines := Solid(Lines(file));
    var good := Good(c, lines);
    var kept := Newest(good, BOOT_HISTORY_MAX);
    DecodeSolid(c, Lines(file));
    DecodeGood(c, lines);
    DecodeNewest(c, good, BOOT_HISTORY_MAX);
    LinesAreLines(file);
    SolidAreLines(Lines(file));
    LinesOfJoin(kept);
    HeaderReadsNothing(c, Join(kept));
  }

  lemma HeaderReadsNothing<R(!new)>(c: Codec<R>, body: Bytes)
    requires Proper(c)
    ensures c.ReadAll(c.header.value + [NL] + body) == c.ReadAll(body)
    ensures Lines(c.header.value + [NL] + body) == [c.header.value] + Lines(body)
    ensures c.parse(c.header.value) == None
  {
    var h := c.header.value;
    assert h[..|h|] == h;
    c.ReadFragment(h);
    LinesOfPlain(h);
    LinesConcat(h + [NL], body);
    c.ReadConcat(h + [NL], body);
  }

  // ---------------------------------------------------------------- runs

  /** One boot: its record, how many bytes of the append landed (all of them
      unless the machine died in it), and whether the prune's rewrite went
      through. */
  datatype Boot<R> = Boot(write: Write<R>, pruned: bool)

  predicate Whole<R(!new)>(c: Codec<R>, file: Bytes, b: Boot<R>) {
    b.write.landed >= |c.WriteOf(file, b.write.rec)|
  }

  function AfterBoot<R(!new)>(c: Codec<R>, file: Bytes, b: Boot<R>): Bytes
    requires c.header.Some?
  {
    var appended := c.AfterWrite(file, b.write);
    if Whole(c, file, b) && b.pruned then Pruned(c, appended) else appended
  }

  /** A boot that died in its append, or whose rewrite failed, has only added
      what landed of its record. */
  lemma CutBootOnlyAppends<R(!new)>(c: Codec<R>, file: Bytes, b: Boot<R>)
    requires c.header.Some? && (b.write.landed < |c.WriteOf(file, b.write.rec)| || !b.pruned)
    ensures AfterBoot(c, file, b) ==
            file + c.WriteOf(file, b.write.rec)[..Min(b.write.landed, |c.WriteOf(file, b.write.rec)|)]
  {
    hide Pruned, c.WriteOf;
  }

  function AfterBoots<R(!new)>(c: Codec<R>, file: Bytes, bs: seq<Boot<R>>): Bytes
    requires c.header.Some?
    decreases |bs|
  {
    if |bs| == 0 then file else AfterBoots(c, AfterBoot(c, file, bs[0]), bs[1..])
  }

  /** The boots whose record reached the disk whole, in order. */
  function Recorded<R(!new)>(c: Codec<R>, file: Bytes, bs: seq<Boot<R>>): seq<R>
    requires c.header.Some?
    decreases |bs|
  {
    if |bs| == 0 then []
    else
      (if c.Lands(file, bs[0].write) then [bs[0].write.rec] else [])
      + Recorded(c, AfterBoot(c, file, bs[0]), bs[1..])
  }

  /** Some line of the file is neither blank nor a record: the header, or what
      a crash left of it. */
  ghost predicate Marked<R(!new)>(c: Codec<R>, file: Bytes) {
    exists l :: l in Solid(Lines(file)) && c.parse(l).None?
  }

  /** What the file shows of the boots recorded so far: at least the newest 200. */
  ghost predicate Shows<R(!new)>(c: Codec<R>, file: Bytes, all: seq<R>) {
    var rs := c.ReadAll(file);
    |rs| <= |all| && Newest(all, |rs|) == rs && (|rs| < BOOT_HISTORY_MAX ==> rs == all)
  }

  lemma ShowsNewest<R(!new)>(c: Codec<R>, file: Bytes, all: seq<R>, n: nat)
    requires Shows(c, file, all) && n <= BOOT_HISTORY_MAX
    ensures Newest(c.ReadAll(file), n) == Newest(all, n)
  {
    hide c.ReadAll;
  }

  lemma BootKeepsShows<R(!new)>(c: Codec<R>, file: Bytes, b: Boot<R>, all: seq<R>)
    requires Proper(c) && Shows(c, file, all)
    ensures Shows(c, AfterBoot(c, file, b), all + if c.Lands(file, b.write) then [b.write.rec] else [])
  {
    hide c.Sound, Blank, Pruned, c.ReadAll, c.Lands, c.AfterWrite, Whole, Healthy;
    var appended := c.AfterWrite(file, b.write);
    var more := if c.Lands(file, b.write) then [b.write.rec] else [];
    OneWrite(c, file, b.write);
    ShowsMore(c.ReadAll(file), all, more);
    if AfterBoot(c, file, b) != appended {
      Pruning(c, appended);
      ShowsTrimmed(c.ReadAll(appended), all + more);
    }
  }

  lemma OneWrite<R(!new)>(c: Codec<R>, file: Bytes, w: Write<R>)
    requires Proper(c)
    ensures c.ReadAll(c.AfterWrite(file, w)) == c.ReadAll(file) + if c.Lands(file, w) then [w.rec] else []
  {
    hide Blank;
    c.OneWriteReadsBack(file, w);
  }

  lemma Pruning<R(!new)>(c: Codec<R>, file: Bytes)
    requires Proper(c)
    ensures Pruned(c, file) == file
         || c.ReadAll(Pruned(c, file)) == Newest(c.ReadAll(file), BOOT_HISTORY_MAX)
  {
    hide Healthy;
    if !Healthy(c, file) {
      PruneKeepsNewest(c, file);
    }
  }

  lemma ShowsMore<R>(rs: seq<R>, all: seq<R>, more: seq<R>)
    requires |rs| <= |all| && Newest(all, |rs|) == rs && (|rs| < BOOT_HISTORY_MAX ==> rs == all)
    ensures Newest(all + more, |rs + more|) == rs + more
    ensures |rs + more| < BOOT_HISTORY_MAX ==> rs + more == all + more
  {
  }

  lemma ShowsTrimmed<R>(rs: seq<R>, all: seq<R>)
    requires |rs| <= |all| && Newest(all, |rs|) == rs && (|rs| < BOOT_HISTORY_MAX ==> rs == all)
    ensures var kept := Newest(rs, BOOT_HISTORY_MAX);
            && |kept| <= |all| && Newest(all, |kept|) == kept
            && (|kept| < BOOT_HISTORY_MAX ==> kept == all)
  {
  }

  lemma {:induction false} BootsKeepShows<R(!new)>(c: Codec<R>, file: Bytes, bs: seq<Boot<R>>, all: seq<R>)
    requires Proper(c) && Shows(c, file, all)
    ensures Shows(c, AfterBoots(c, file, bs), all + Recorded(c, file, bs))
    decreases |bs|
  {
    if |bs| == 0 {
      assert all + [] == all;
    } else {
      hide Shows, AfterBoot, c.Lands, Blank;
      var more := if c.Lands(file, bs[0].write) then [bs[0].write.rec] else [];
      var next := AfterBoot(c, file, bs[0]);
      BootKeepsShows(c, file, bs[0], all);
      BootsKeepShows(c, next, bs[1..], all + more);
      Assoc(all, more, Recorded(c, next, bs[1..]));
    }
  }

  /** RECENT_BOOTS: newest first, at most `limit`. */
  function RecentBoots<R(!new)>(c: Codec<R>, file: Bytes, limit: nat): seq<R> {
    var all := Reversed(c.ReadAll(file));
    if |all| > limit then all[..limit] else all
  }

  function Reversed<T>(xs: seq<T>): (ys: seq<T>)
    ensures |ys| == |xs| && forall i | 0 <= i < |xs| :: ys[i] == xs[|xs| - 1 - i]
  {
    if |xs| == 0 then [] else [xs[|xs| - 1]] + Reversed(xs[..|xs| - 1])
  }

  lemma RecentIsNewest<T>(xs: seq<T>, limit: nat)
    ensures var all := Reversed(xs);
            (if |all| > limit then all[..limit] else all) == Reversed(Newest(xs, limit))
  {
    hide Reversed;
  }

  /** OVER ANY RUN OF BOOTS, from any file, with crashes after any byte of any
      append and rewrites that fail: a reader asking for at most 200 boots gets
      the newest completely written ones, newest first. */
  lemma HistoryIsNewestBoots<R(!new)>(c: Codec<R>, file: Bytes, bs: seq<Boot<R>>, limit: nat)
    requires Proper(c) && limit <= BOOT_HISTORY_MAX
    ensures RecentBoots(c, AfterBoots(c, file, bs), limit)
         == Reversed(Newest(c.ReadAll(file) + Recorded(c, file, bs), limit))
  {
    hide c.Sound, Blank, AfterBoots, Recorded, Newest, Reversed;
    var later := AfterBoots(c, file, bs);
    AllShown(c, file);
    BootsKeepShows(c, file, bs, c.ReadAll(file));
    ShowsNewest(c, later, c.ReadAll(file) + Recorded(c, file, bs), limit);
    RecentIsNewest(c.ReadAll(later), limit);
  }

  lemma AllShown<R(!new)>(c: Codec<R>, file: Bytes)
    ensures Shows(c, file, c.ReadAll(file))
  {
  }

  // ---------------------------------------------------------------- the bound

  lemma MarkedGrows<R(!new)>(c: Codec<R>, front: Bytes, rest: Bytes)
    requires !Torn(front) && Marked(c, front)
    ensures Marked(c, front + rest)
  {
    hide Solid, Lines;
    LinesConcat(front, rest);
    SolidConcat(Lines(front), Lines(rest));
    var l :| l in Solid(Lines(front)) && c.parse(l).None?;
    assert l in Solid(Lines(front + rest));
  }

  /** A header, or a part of one, is a line that stays and reads as nothing. */
  lemma HeaderMarks<R(!new)>(c: Codec<R>, k: nat)
    requires Proper(c) && 0 < k <= |c.header.value| + 1
    ensures Marked(c, (c.header.value + [NL])[..k])
  {
    hide Blank, Lines;
    var h := c.header.value;
    var l := h[..Min(k, |h|)];
    assert (h + [NL])[..k] == if k <= |h| then l else l + [NL];
    LinesOfPlain(l);
    assert c.parse(l) == None && !Blank(l);
    assert Solid([l]) == [l] + Solid([l][1..]);
    assert l in Solid([l]);
  }

  /** No write, whole or cut, leaves a file with bytes but no such line. */
  lemma WriteMarks<R(!new)>(c: Codec<R>, file: Bytes, w: Write<R>)
    requires Proper(c)
    requires |file| == 0 || Marked(c, file)
    ensures |c.AfterWrite(file, w)| == 0 || Marked(c, c.AfterWrite(file, w))
    ensures w.landed > 0 ==> Marked(c, c.AfterWrite(file, w))
  {
    hide c.Sound, Blank, Marked;
    var all := c.WriteOf(file, w.rec);
    var k := Min(w.landed, |all|);
    var p, rest := c.Preamble(file), c.encode(w.rec) + [NL];
    Assoc(p, c.encode(w.rec), [NL]);
    TakeOfConcat(p, rest, k);
    if k == 0 {
      assert file + all[..0] == file;
    } else if |file| == 0 {
      FirstWrite(c, all, rest, k);
      assert file + all[..k] == all[..k];
    } else if Torn(file) {
      TornMarked(c, file);
      assert file + all[..k] == (file + [NL]) + rest[..k - 1];
      MarkedGrows(c, file + [NL], rest[..k - 1]);
    } else {
      assert all == rest;
      MarkedGrows(c, file, all[..k]);
    }
  }

  lemma TornMarked<R(!new)>(c: Codec<R>, file: Bytes)
    requires Torn(file) && Marked(c, file)
    ensures Marked(c, file + [NL])
  {
    hide Lines, Solid;
    LinesTerminated(file);
  }

  lemma FirstWrite<R(!new)>(c: Codec<R>, all: Bytes, rest: Bytes, k: nat)
    requires Proper(c) && all == c.header.value + [NL] + rest && 0 < k <= |all|
    ensures Marked(c, all[..k])
  {
    hide Marked, Blank;
    var h := c.header.value + [NL];
    if k <= |h| {
      HeaderMarks(c, k);
      TakeOfConcat(h, rest, k);
    } else {
      HeaderMarks(c, |h|);
      assert h[..|h|] == h;
      TakeOfConcat(h, rest, k);
      MarkedGrows(c, h, rest[..k - |h|]);
    }
  }

  lemma BootMarks<R(!new)>(c: Codec<R>, file: Bytes, b: Boot<R>)
    requires Proper(c)
    requires |file| == 0 || Marked(c, file)
    ensures |AfterBoot(c, file, b)| == 0 || Marked(c, AfterBoot(c, file, b))
  {
    hide Marked, Blank, Healthy;
    var appended := c.AfterWrite(file, b.write);
    WriteMarks(c, file, b.write);
    if !Healthy(c, appended) {
      var h := c.header.value + [NL];
      HeaderMarks(c, |h|);
      assert h[..|h|] == h;
      MarkedGrows(c, h, Join(Newest(Good(c, Solid(Lines(appended))), BOOT_HISTORY_MAX)));
    }
  }

  lemma {:induction false} BootsMark<R(!new)>(c: Codec<R>, file: Bytes, bs: seq<Boot<R>>)
    requires Proper(c)
    requires |file| == 0 || Marked(c, file)
    ensures |AfterBoots(c, file, bs)| == 0 || Marked(c, AfterBoots(c, file, bs))
    decreases |bs|
  {
    if |bs| > 0 {
      hide Marked, c.Sound, Blank, AfterBoot;
      BootMarks(c, file, bs[0]);
      BootsMark(c, AfterBoot(c, file, bs[0]), bs[1..]);
    }
  }

  lemma {:induction false} BootsSnoc<R(!new)>(c: Codec<R>, file: Bytes, bs: seq<Boot<R>>, b: Boot<R>)
    requires c.header.Some?
    ensures AfterBoots(c, file, bs + [b]) == AfterBoot(c, AfterBoots(c, file, bs), b)
    decreases |bs|
  {
    hide AfterBoot;
    if |bs| > 0 {
      assert (bs + [b])[1..] == bs[1..] + [b];
      BootsSnoc(c, AfterBoot(c, file, bs[0]), bs[1..], b);
    } else {
      assert bs + [b] == [b];
      assert AfterBoots(c, AfterBoot(c, file, b), [b][1..]) == AfterBoot(c, file, b);
    }
  }

  /** THE BOUND. In a history that was empty or had its header, a boot that
      completes leaves exactly the newest 200 records in the file. */
  lemma CompletedBootLeavesNewest<R(!new)>(c: Codec<R>, file: Bytes, bs: seq<Boot<R>>, b: Boot<R>)
    requires Proper(c) && (|file| == 0 || Marked(c, file))
    requires b.pruned && b.write.landed >= |c.WriteOf(AfterBoots(c, file, bs), b.write.rec)|
    ensures c.ReadAll(AfterBoots(c, file, bs + [b]))
         == Newest(c.ReadAll(file) + Recorded(c, file, bs + [b]), BOOT_HISTORY_MAX)
  {
    hide c.Sound, Blank, AfterBoots, Recorded, Newest, Healthy, Pruned, Lines, Solid, Marked;
    var before := AfterBoots(c, file, bs);
    var appended := c.AfterWrite(before, b.write);
    BootsMark(c, file, bs);
    WriteMarks(c, before, b.write);
    ProperHeader(c);
    BootsSnoc(c, file, bs, b);
    MarkedIsRewritten(c, appended);
    AllShown(c, file);
    BootsKeepShows(c, file, bs + [b], c.ReadAll(file));
    NewestAgain(c.ReadAll(appended), BOOT_HISTORY_MAX);
    ShowsNewest(c, AfterBoots(c, file, bs + [b]),
                c.ReadAll(file) + Recorded(c, file, bs + [b]), BOOT_HISTORY_MAX);
  }

  lemma ProperHeader<R(!new)>(c: Codec<R>)
    requires Proper(c)
    ensures c.header.Some? && forall file, r :: |c.WriteOf(file, r)| > 0
  {
    hide Blank;
  }

  lemma MarkedIsRewritten<R(!new)>(c: Codec<R>, file: Bytes)
    requires Proper(c) && Marked(c, file)
    ensures c.ReadAll(Pruned(c, file)) == Newest(c.ReadAll(file), BOOT_HISTORY_MAX)
  {
    hide Lines, Solid, Pruned, Newest;
    Rewritten(c, file);
  }

  lemma NewestAgain<T>(xs: seq<T>, n: nat)
    ensures Newest(Newest(xs, n), n) == Newest(xs, n)
  {
  }

  lemma {:induction false} SolidConcat(a: seq<Bytes>, b: seq<Bytes>)
    ensures Solid(a + b) == Solid(a) + Solid(b)
    decreases |a|
  {
    hide Blank;
    if |a| == 0 {
      assert a + b == b;
    } else {
      assert (a + b)[1..] == a[1..] + b;
      SolidConcat(a[1..], b);
      Assoc(if Blank(a[0]) then [] else [a[0]], Solid(a[1..]), Solid(b));
    }
  }

  // ---------------------------------------------------------------- the module

  method WithLines(head: Bytes, keep: seq<Bytes>) returns (body: Bytes)
    ensures body == head + Join(keep)
  {
    body := head;
    for i := 0 to |keep|
      invariant body == head + Join(keep[..i])
    {
      JoinSnoc(keep[..i], keep[i]);
      assert keep[..i + 1] == keep[..i] + [keep[i]];
      body := body + keep[i] + [NL];
    }
    assert keep[..|keep|] == keep;
  }

  class History<R(!new)> {
    const codec: Codec<R>
    var bytes: Bytes

    constructor (codec: Codec<R>, bytes: Bytes)
      ensures this.codec == codec && this.bytes == bytes
    {
      this.codec := codec;
      this.bytes := bytes;
    }

    method PruneHistory(rewritten: bool)
      requires codec.header.Some?
      modifies this
      ensures bytes == if rewritten then Pruned(codec, old(bytes)) else old(bytes)
    {
      var lines := Solid(Lines(bytes));
      var good := Good(codec, lines);
      if |lines| <= BOOT_HISTORY_MAX + 1 && |good| == |lines| {
        return;
      }
      var body := WithLines(codec.header.value + [NL], Newest(good, BOOT_HISTORY_MAX));
      if rewritten {
        bytes := body;
      }
    }

    /** Append this boot, then prune; nothing crashed in between. */
    method RecordBoot(rec: R, rewritten: bool)
      requires codec.header.Some?
      modifies this
      ensures bytes
           == AfterBoot(codec, old(bytes), Boot(Write(rec, |codec.WriteOf(old(bytes), rec)|), rewritten))
    {
      hide Pruned;
      ghost var all := codec.WriteOf(bytes, rec);
      assert all[..|all|] == all;
      var log := new LogFile(bytes);
      log.Append(codec, rec);
      bytes := log.bytes;
      PruneHistory(rewritten);
    }
  }

  lemma JoinSnoc(lines: seq<Bytes>, l: Bytes)
    ensures Join(lines + [l]) == Join(lines) + l + [NL]
  {
    JoinConcat(lines, [l]);
    assert Join([l]) == l + [NL];
    Assoc(Join(lines), l, [NL]);
  }
}
