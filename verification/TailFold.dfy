/** The last event of a session file, read from its final 64 KiB. */
module TailFold {
  import opened Jsonl

  const TAIL_BYTES: nat := 65536

  /** The last line that parses. */
  function LastRecord<R(!new)>(c: Codec<R>, lines: seq<Bytes>): Option<R> {
    if |lines| == 0 then None
    else
      var n := |lines| - 1;
      if c.parse(lines[n]).Some? then c.parse(lines[n]) else LastRecord(c, lines[..n])
  }

  /** It is the last of the records that a reader of them all gets. */
  lemma {:induction false} LastRecordMeans<R(!new)>(c: Codec<R>, lines: seq<Bytes>)
    ensures var rs := c.Decode(lines); LastRecord(c, lines) == if |rs| == 0 then None else Some(rs[|rs| - 1])
    decreases |lines|
  {
    if |lines| > 0 {
      var n := |lines| - 1;
      LastRecordMeans(c, lines[..n]);
      assert lines == lines[..n] + [lines[n]];
      c.DecodeConcat(lines[..n], [lines[n]]);
      assert [lines[n]][1..] == [] && c.Decode([]) == [];
    }
  }

  function WindowStart(file: Bytes): nat {
    if |file| > TAIL_BYTES then |file| - TAIL_BYTES else 0
  }

  /** The reader: the lines of the window, less the fragment it may open with. */
  function TailRead<R(!new)>(c: Codec<R>, file: Bytes): Option<R> {
    var start := WindowStart(file);
    var lines := Lines(file[start..]);
    LastRecord(c, if start > 0 && |lines| > 0 then lines[1..] else lines)
  }

  lemma {:induction false} LastRecordConcat<R(!new)>(c: Codec<R>, a: seq<Bytes>, b: seq<Bytes>)
    ensures LastRecord(c, a + b) == if LastRecord(c, b).Some? then LastRecord(c, b) else LastRecord(c, a)
    decreases |b|
  {
    if |b| == 0 {
      assert a + b == a;
    } else {
      assert (a + b)[..|a + b| - 1] == a + b[..|b| - 1];
      LastRecordConcat(c, a, b[..|b| - 1]);
    }
  }

  /** Where the line of the file's last record begins. */
  function LastOffset<R(!new)>(c: Codec<R>, file: Bytes): (o: Option<nat>)
    ensures o.Some? ==> o.value < |file| && (o.value == 0 || file[o.value - 1] == NL)
    decreases |file|
  {
    if |file| == 0 then None else OffsetWith(c, file, RestOffset(c, file))
  }

  /** The same for what follows the first line. */
  function RestOffset<R(!new)>(c: Codec<R>, file: Bytes): (o: Option<nat>)
    requires |file| > 0
    ensures o.Some? ==>
              && LineEnd(file) + 1 + o.value < |file|
              && (o.value == 0 || file[LineEnd(file) + o.value] == NL)
    decreases |file|, 0
  {
    var n := LineEnd(file);
    if n < |file| then LastOffset(c, file[n + 1..]) else None
  }

  function OffsetWith<R(!new)>(c: Codec<R>, file: Bytes, rest: Option<nat>): Option<nat> {
    var n := LineEnd(file);
    if rest.Some? then Some(n + 1 + rest.value) else if c.parse(file[..n]).Some? then Some(0) else None
  }

  lemma FirstLine<R(!new)>(c: Codec<R>, file: Bytes)
    requires |file| > 0
    ensures var n := LineEnd(file);
            var rest := if n < |file| then file[n + 1..] else [];
            LastRecord(c, Lines(file)) == if LastRecord(c, Lines(rest)).Some? then LastRecord(c, Lines(rest))
                                          else c.parse(file[..n])
  {
    var n := LineEnd(file);
    var rest := if n < |file| then file[n + 1..] else [];
    assert Lines(file) == [file[..n]] + Lines(rest);
    LastRecordConcat(c, [file[..n]], Lines(rest));
    assert [file[..n]][..0] == [];
  }

  lemma {:induction false} OffsetWhenRecord<R(!new)>(c: Codec<R>, file: Bytes)
    ensures LastOffset(c, file).Some? <==> LastRecord(c, Lines(file)).Some?
    decreases |file|
  {
    hide LineEnd, Lines, LastRecord, LastOffset;
    if |file| > 0 {
      OffsetUnfolds(c, file);
      FirstLine(c, file);
      var n := LineEnd(file);
      if n < |file| {
        OffsetWhenRecord(c, file[n + 1..]);
      }
    }
    NothingLast(c);
  }

  lemma NothingLast<R(!new)>(c: Codec<R>)
    ensures LastRecord(c, Lines([])) == None && LastOffset(c, []) == None
  {
  }

  lemma OffsetUnfolds<R(!new)>(c: Codec<R>, file: Bytes)
    requires |file| > 0
    ensures LastOffset(c, file) == OffsetWith(c, file, RestOffset(c, file))
  {
    hide LineEnd;
  }

  lemma LineEndIsFirst(s: Bytes, i: nat)
    requires i < |s| && s[i] == NL
    ensures LineEnd(s) <= i
  {
    if s[0] != NL {
      LineEndIsFirst(s[1..], i - 1);
    }
  }

  lemma BoundaryInRest(file: Bytes, k: nat)
    requires 0 < k <= |file| && file[k - 1] == NL
    ensures var n := LineEnd(file);
            && n < k
            && (k == n + 1 || file[n + 1..][k - n - 2] == NL)
            && file[n + 1..][k - n - 1..] == file[k..]
  {
    LineEndIsFirst(file, k - 1);
  }

  /** Reading on from a line boundary `k` finds the file's last record when its
      line begins at `k` or later, and nothing otherwise. */
  lemma {:induction false} FromBoundary<R(!new)>(c: Codec<R>, file: Bytes, k: nat)
    requires k <= |file| && (k == 0 || file[k - 1] == NL)
    ensures LastRecord(c, Lines(file[k..]))
         == if LastOffset(c, file).Some? && LastOffset(c, file).value >= k
            then LastRecord(c, Lines(file)) else None
    decreases |file|
  {
    hide LineEnd, Lines, LastRecord, LastOffset;
    if k == 0 {
      OffsetWhenRecord(c, file);
      assert file[0..] == file;
    } else {
      BoundaryInRest(file, k);
      var n := LineEnd(file);
      FromBoundary(c, file[n + 1..], k - n - 1);
      PastFirstLine(c, file, k, LastRecord(c, Lines(file[k..])));
    }
  }

  lemma PastFirstLine<R(!new)>(c: Codec<R>, file: Bytes, k: nat, found: Option<R>)
    requires LineEnd(file) < k <= |file|
    requires var n := LineEnd(file);
             var rest := file[n + 1..];
             found == if LastOffset(c, rest).Some? && LastOffset(c, rest).value >= k - n - 1
                      then LastRecord(c, Lines(rest)) else None
    ensures found == if LastOffset(c, file).Some? && LastOffset(c, file).value >= k
                     then LastRecord(c, Lines(file)) else None
  {
    hide LineEnd, Lines, LastRecord, LastOffset;
    FirstLine(c, file);
    OffsetUnfolds(c, file);
    OffsetWhenRecord(c, file[LineEnd(file) + 1..]);
  }

  /** THE TAIL FOLD REFINES THE FULL FOLD: it returns the file's last record
      exactly when the whole file is in the window or that record's line begins
      strictly after the window does, and nothing in every other case. */
  lemma TailReadIsLastOrNothing<R(!new)>(c: Codec<R>, file: Bytes)
    ensures TailRead(c, file)
         == if |file| <= 65536 || (LastOffset(c, file).Some? && LastOffset(c, file).value > |file| - 65536)
            then LastRecord(c, Lines(file)) else None
  {
    var start := WindowStart(file);
    if start == 0 {
      assert file[0..] == file;
    } else {
      LongFile(c, file, start);
      NoLineWithin(c, file, start);
    }
  }

  lemma LinesUnfold(s: Bytes)
    requires |s| > 0
    ensures |Lines(s)| > 0
    ensures Lines(s)[1..] == if LineEnd(s) < |s| then Lines(s[LineEnd(s) + 1..]) else []
  {
  }

  /** The window less its fragment is what follows its first newline. */
  lemma LongFile<R(!new)>(c: Codec<R>, file: Bytes, start: nat)
    requires 0 < start < |file|
    ensures |Lines(file[start..])| > 0
    ensures LastRecord(c, Lines(file[start..])[1..])
         == if LastOffset(c, file).Some? && LastOffset(c, file).value > start + LineEnd(file[start..])
            then LastRecord(c, Lines(file)) else None
  {
    hide LineEnd, Lines, LastRecord, LastOffset;
    WindowTail(file, start);
    var k := start + LineEnd(file[start..]) + 1;
    if k <= |file| {
      FromBoundary(c, file, k);
    } else {
      NoRecordInNone(c);
      OffsetInside(c, file);
    }
  }

  lemma NoRecordInNone<R(!new)>(c: Codec<R>)
    ensures LastRecord(c, []) == None
  {
  }

  lemma OffsetInside<R(!new)>(c: Codec<R>, file: Bytes)
    ensures LastOffset(c, file).Some? ==> LastOffset(c, file).value < |file|
  {
    hide LastOffset;
  }

  lemma WindowTail(file: Bytes, start: nat)
    requires 0 < start < |file|
    ensures var k := start + LineEnd(file[start..]) + 1;
            && |Lines(file[start..])| > 0
            && (k <= |file| ==> file[k - 1] == NL && Lines(file[start..])[1..] == Lines(file[k..]))
            && (k > |file| ==> Lines(file[start..])[1..] == [])
  {
    hide LineEnd, Lines;
    var window := file[start..];
    LinesUnfold(window);
    var e := LineEnd(window);
    if e < |window| {
      assert file[start + e] == window[e];
      SuffixOfSuffix(file, start, e + 1);
    }
  }

  lemma SuffixOfSuffix<T>(s: seq<T>, p: nat, q: nat)
    requires p + q <= |s|
    ensures s[p..][q..] == s[p + q..]
  {
  }

  lemma NoLineWithin<R(!new)>(c: Codec<R>, file: Bytes, start: nat)
    requires 0 < start < |file|
    ensures LastOffset(c, file).Some? && LastOffset(c, file).value > start
        ==> LastOffset(c, file).value > start + LineEnd(file[start..])
  {
    var o := LastOffset(c, file);
    if o.Some? && o.value > start {
      LineEndIsFirst(file[start..], o.value - 1 - start);
    }
  }
}
