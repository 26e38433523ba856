/** The lock-protected record files (the evidence feed and the run log): appends
    and age trims that replace the file by rename, under one mutex, with readers
    that take no lock. */
module Feed {
  import opened Jsonl

  // ---------------------------------------------------------------- the age trim

  /** A record family: how a record is written and the stamp it carries, if any. */
  datatype Family<!R(!new)> = Family(codec: Codec<R>, stamp: R -> Option<nat>)
  {
    predicate Excludes(cutoff: nat, r: R) {
      stamp(r).Some? && stamp(r).value < cutoff
    }

    /** A line goes only when it parses and its record is older than the window. */
    predicate OldLine(cutoff: nat, line: Bytes) {
      codec.parse(line).Some? && Excludes(cutoff, codec.parse(line).value)
    }

    function KeptLines(cutoff: nat, lines: seq<Bytes>): (kept: seq<Bytes>)
      ensures |kept| <= |lines|
      ensures forall l | l in kept :: l in lines
    {
      if |lines| == 0 then []
      else (if OldLine(cutoff, lines[0]) then [] else [lines[0]]) + KeptLines(cutoff, lines[1..])
    }

    function KeptRecords(cutoff: nat, rs: seq<R>): seq<R> {
      if |rs| == 0 then []
      else (if Excludes(cutoff, rs[0]) then [] else [rs[0]]) + KeptRecords(cutoff, rs[1..])
    }

    function Trimmed(cutoff: nat, content: Bytes): Bytes {
      Join(KeptLines(cutoff, Lines(content)))
    }

    function Dropped(cutoff: nat, content: Bytes): nat {
      |Lines(content)| - |KeptLines(cutoff, Lines(content))|
    }

    lemma KeptRecordsConcat(cutoff: nat, a: seq<R>, b: seq<R>)
      ensures KeptRecords(cutoff, a + b) == KeptRecords(cutoff, a) + KeptRecords(cutoff, b)
      decreases |a|
    {
      if |a| == 0 {
        assert a + b == b;
      } else {
        assert (a + b)[1..] == a[1..] + b;
        KeptRecordsConcat(cutoff, a[1..], b);
      }
    }

    lemma {:induction false} DecodeKept(cutoff: nat, lines: seq<Bytes>)
      ensures codec.Decode(KeptLines(cutoff, lines)) == KeptRecords(cutoff, codec.Decode(lines))
      ensures |KeptLines(cutoff, lines)| == |lines| ==> KeptLines(cutoff, lines) == lines
      ensures |codec.Decode(lines)| - |KeptRecords(cutoff, codec.Decode(lines))|
           == |lines| - |KeptLines(cutoff, lines)|
      decreases |lines|
    {
      if |lines| > 0 {
        DecodeKept(cutoff, lines[1..]);
        var head := match codec.parse(lines[0]) case Some(r) => [r] case None => [];
        var kept := if OldLine(cutoff, lines[0]) then [] else [lines[0]];
        codec.DecodeConcat(kept, KeptLines(cutoff, lines[1..]));
        KeptRecordsConcat(cutoff, head, codec.Decode(lines[1..]));
        assert codec.Decode(kept) == KeptRecords(cutoff, head);
        assert |head| - |KeptRecords(cutoff, head)| == 1 - |kept|;
      }
    }

    /** LINE BY LINE: a trim leaves each line of the file where it stands between
        the others, or drops it, exactly when it parses to a record whose stamp
        is before the cutoff; one without a stamp stays. */
    lemma TrimGoesByLine(cutoff: nat, content: Bytes, before: seq<Bytes>, line: Bytes, after: seq<Bytes>)
      requires Lines(content) == before + [line] + after
      ensures Lines(Trimmed(cutoff, content)) ==
              KeptLines(cutoff, before)
              + (if codec.parse(line).Some? && stamp(codec.parse(line).value).Some?
                    && stamp(codec.parse(line).value).value < cutoff then [] else [line])
              + KeptLines(cutoff, after)
    {
      KeptLine(cutoff, line);
      hide KeptLines;
      LinesAreLines(content);
      LinesOfJoin(KeptLines(cutoff, Lines(content)));
      KeptLinesConcat(this, cutoff, before + [line], after);
      KeptLinesConcat(this, cutoff, before, [line]);
    }

    lemma KeptLine(cutoff: nat, line: Bytes)
      ensures KeptLines(cutoff, [line]) ==
              if codec.parse(line).Some? && stamp(codec.parse(line).value).Some?
                 && stamp(codec.parse(line).value).value < cutoff then [] else [line]
    {
      assert [line][1..] == [] && KeptLines(cutoff, []) == [];
    }

    /** Trimming the bytes drops exactly the excluded records and keeps the
        others in order; unparseable lines stay; a trim that drops no line
        would change no record. */
    lemma TrimReadsBack(cutoff: nat, content: Bytes)
      ensures codec.ReadAll(Trimmed(cutoff, content)) == KeptRecords(cutoff, codec.ReadAll(content))
      ensures |codec.ReadAll(content)| - |codec.ReadAll(Trimmed(cutoff, content))|
           == Dropped(cutoff, content)
      ensures Dropped(cutoff, content) == 0
          ==> KeptRecords(cutoff, codec.ReadAll(content)) == codec.ReadAll(content)
    {
      LinesAreLines(content);
      var kept := KeptLines(cutoff, Lines(content));
      LinesOfJoin(kept);
      DecodeKept(cutoff, Lines(content));
    }
  }

  function Join(lines: seq<Bytes>): Bytes {
    if |lines| == 0 then [] else lines[0] + [NL] + Join(lines[1..])
  }

  lemma {:induction false} LinesAreLines(s: Bytes)
    ensures forall l | l in Lines(s) :: NL !in l
    decreases |s|
  {
    var n := LineEnd(s);
    if n < |s| {
      LinesAreLines(s[n + 1..]);
    }
  }

  lemma {:induction false} LinesOfJoin(lines: seq<Bytes>)
    requires forall l | l in lines :: NL !in l
    ensures Lines(Join(lines)) == lines
    decreases |lines|
  {
    if |lines| > 0 {
      LinesOfPlain(lines[0]);
      LinesConcat(lines[0] + [NL], Join(lines[1..]));
      LinesOfJoin(lines[1..]);
    }
  }

  lemma JoinConcat(a: seq<Bytes>, b: seq<Bytes>)
    ensures Join(a + b) == Join(a) + Join(b)
    decreases |a|
  {
    if |a| == 0 {
      assert a + b == b;
    } else {
      assert (a + b)[1..] == a[1..] + b;
      JoinConcat(a[1..], b);
    }
  }

  /** One record file as a single process uses it: `None` when it is missing. */
  class RecordFile<R(!new)> {
    const family: Family<R>
    var content: Option<Bytes>

    ghost function Records(): seq<R>
      reads this
    {
      if content.Some? then family.codec.ReadAll(content.value) else []
    }

    constructor (family: Family<R>, content: Option<Bytes>)
      ensures this.family == family && this.content == content
    {
      this.family := family;
      this.content := content;
    }

    method Append(r: R)
      modifies this
      ensures content == Some(family.codec.Appended(if old(content).Some? then old(content).value else [], r))
      ensures family.codec.Sound() ==> Records() == old(Records()) + [r]
    {
      var log := new LogFile(if content.Some? then content.value else []);
      log.Append(family.codec, r);
      content := Some(log.bytes);
    }

    /** Drop the lines the window excludes; `rewriteFails` is the disk's answer
        to the atomic rewrite, which is not asked when nothing is old. */
    method Trim(cutoff: nat, rewriteFails: bool) returns (dropped: nat)
      modifies this
      ensures content.Some? == old(content).Some?
      ensures content != old(content) ==> !rewriteFails && dropped > 0
      ensures dropped == if old(content).None? || rewriteFails then 0
                         else family.Dropped(cutoff, old(content).value)
      ensures dropped > 0 ==> content == Some(family.Trimmed(cutoff, old(content).value))
      ensures !rewriteFails ==> Records() == family.KeptRecords(cutoff, old(Records()))
      ensures |old(Records())| - |Records()| == dropped
    {
      dropped := 0;
      if content.None? {
        return;
      }
      var lines := Lines(content.value);
      var kept: Bytes := [];
      family.TrimReadsBack(cutoff, content.value);
      for i := 0 to |lines|
        invariant content == old(content)
        invariant kept == Join(family.KeptLines(cutoff, lines[..i]))
        invariant dropped == i - |family.KeptLines(cutoff, lines[..i])|
      {
        assert lines[..i + 1] == lines[..i] + [lines[i]];
        KeptLinesConcat(family, cutoff, lines[..i], [lines[i]]);
        JoinConcat(family.KeptLines(cutoff, lines[..i]), family.KeptLines(cutoff, [lines[i]]));
        if family.OldLine(cutoff, lines[i]) {
          dropped := dropped + 1;
        } else {
          kept := kept + lines[i] + [NL];
        }
      }
      assert lines[..|lines|] == lines;
      if dropped == 0 {
        return;
      }
      if rewriteFails {
        return 0;
      }
      content := Some(kept);
    }
  }

  lemma KeptLinesConcat<R(!new)>(family: Family<R>, cutoff: nat, a: seq<Bytes>, b: seq<Bytes>)
    ensures family.KeptLines(cutoff, a + b) == family.KeptLines(cutoff, a) + family.KeptLines(cutoff, b)
    decreases |a|
  {
    if |a| == 0 {
      assert a + b == b;
    } else {
      assert (a + b)[1..] == a[1..] + b;
      KeptLinesConcat(family, cutoff, a[1..], b);
    }
  }
}
