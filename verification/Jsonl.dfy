/** Append-only JSONL files: bytes split on 0x0A, the two crash-safety rules
    every append follows, and the reader that skips what does not parse. */
module Jsonl {
  newtype byte = x: int | 0 <= x < 256
  type Bytes = seq<byte>

  datatype Option<+T> = None | Some(value: T)

  const NL: byte := 10

  // ---------------------------------------------------------------- sequences

  lemma TakeOfConcat<T>(a: seq<T>, b: seq<T>, k: nat)
    requires k <= |a| + |b|
    ensures (a + b)[..k] == if k <= |a| then a[..k] else a + b[..k - |a|]
  {
  }

  lemma DropOfConcat<T>(a: seq<T>, b: seq<T>, k: nat)
    requires k <= |a|
    ensures (a + b)[k..] == a[k..] + b
  {
  }

  lemma Assoc<T>(a: seq<T>, b: seq<T>, c: seq<T>)
    ensures (a + b) + c == a + (b + c)
  {
  }

  function Min(a: nat, b: nat): nat {
    if a <= b then a else b
  }

  /** The newest `n` entries of a list that grows at its end. */
  function Newest<T>(xs: seq<T>, n: nat): (ys: seq<T>)
    ensures |ys| == Min(n, |xs|)
  {
    if |xs| > n then xs[|xs| - n..] else xs
  }

  // ---------------------------------------------------------------- lines

  /** The index of the first newline, or the length when there is none. */
  function LineEnd(s: Bytes): (n: nat)
    ensures n <= |s|
    ensures n < |s| ==> s[n] == NL
    ensures NL !in s[..n]
  {
    if |s| == 0 || s[0] == NL then 0
    else
      var n := 1 + LineEnd(s[1..]);
      assert s[..n] == [s[0]] + s[1..][..n - 1];
      n
  }

  /** Split on newlines; a final newline does not open an empty last line. */
  function Lines(s: Bytes): (ls: seq<Bytes>)
    ensures |s| == 0 <==> |ls| == 0
  {
    if |s| == 0 then []
    else
      var n := LineEnd(s);
      [s[..n]] + if n < |s| then Lines(s[n + 1..]) else []
  }

  /** A non-empty file whose last byte is not a newline ends mid-line. */
  predicate Torn(s: Bytes) {
    |s| > 0 && s[|s| - 1] != NL
  }

  lemma LineEndOfPrefix(a: Bytes, b: Bytes)
    requires |a| > 0 && a[|a| - 1] == NL
    ensures LineEnd(a + b) == LineEnd(a) < |a|
  {
    if a[0] != NL {
      assert (a + b)[1..] == a[1..] + b;
      LineEndOfPrefix(a[1..], b);
    }
  }

  /** The first line and the rest. */
  lemma LinesFirst(s: Bytes)
    ensures |s| == 0 ==> Lines(s) == []
    ensures |s| > 0 ==>
              Lines(s) == [s[..LineEnd(s)]] + if LineEnd(s) < |s| then Lines(s[LineEnd(s) + 1..]) else []
  {
    hide LineEnd;
  }

  lemma {:induction false} LinesConcat(a: Bytes, b: Bytes)
    requires !Torn(a)
    ensures Lines(a + b) == Lines(a) + Lines(b)
    decreases |a|
  {
    hide LineEnd, Lines;
    LinesFirst(a);
    LinesFirst(a + b);
    if |a| == 0 {
      assert a + b == b && [] + Lines(b) == Lines(b);
    } else {
      LineEndOfPrefix(a, b);
      var n := LineEnd(a);
      TakeOfConcat(a, b, n);
      DropOfConcat(a, b, n + 1);
      LinesConcat(a[n + 1..], b);
      Assoc([a[..n]], Lines(a[n + 1..]), Lines(b));
    }
  }

  lemma LineEndOfPlain(l: Bytes, b: Bytes)
    requires NL !in l
    ensures LineEnd(l + b) == |l| + LineEnd(b)
  {
    if |l| == 0 {
      assert l + b == b;
    } else {
      assert (l + b)[1..] == l[1..] + b;
      LineEndOfPlain(l[1..], b);
    }
  }

  lemma LinesOfPlain(l: Bytes)
    requires NL !in l
    ensures Lines(l + [NL]) == [l]
    ensures Lines(l) == if |l| == 0 then [] else [l]
  {
    LineEndOfPlain(l, [NL]);
    LineEndOfPlain(l, []);
    assert l + [] == l;
    assert (l + [NL])[..|l|] == l;
  }

  /** Where the last line starts, when the file ends mid-line. */
  function TailStart(s: Bytes): (n: nat)
    ensures n <= |s| && !Torn(s[..n]) && NL !in s[n..]
    ensures Torn(s) ==> n < |s|
  {
    if !Torn(s) then |s|
    else
      var front := s[..|s| - 1];
      var n := TailStart(front);
      assert s[..n] == front[..n] && s[n..] == front[n..] + [s[|s| - 1]];
      n
  }

  /** Terminating a torn tail changes no line. */
  lemma LinesTerminated(s: Bytes)
    requires Torn(s)
    ensures Lines(s + [NL]) == Lines(s)
  {
    var n := TailStart(s);
    var a, l := s[..n], s[n..];
    assert s == a + l;
    Assoc(a, l, [NL]);
    LinesConcat(a, l);
    LinesConcat(a, l + [NL]);
    LinesOfPlain(l);
  }

  function PreambleOf(header: Option<Bytes>, file: Bytes): Bytes {
    if |file| == 0 then
      if header.Some? then header.value + [NL] else []
    else if Torn(file) then [NL] else []
  }

  // ---------------------------------------------------------------- records

  /** One append of a run: the bytes of it that reached the disk before a crash
      (all of them when there was none). */
  datatype Write<R> = Write(rec: R, landed: nat)

  /** JSON stays abstract: an encoder, a parser and the header a fresh file
      starts with (`None` for the families that write none). */
  datatype Codec<!R(!new)> = Codec(
    encode: R -> Bytes,
    parse: Bytes -> Option<R>,
    header: Option<Bytes>)
  {
    /** What the writers rely on: an encoded object is one line, it reads back,
        and no proper prefix of it parses (section 4 of RFC 8259). The header
        is one line too, and neither it nor a prefix of it reads as a record. */
    ghost predicate Sound() {
      && (forall r :: |encode(r)| > 0 && NL !in encode(r))
      && (forall r :: parse(encode(r)) == Some(r))
      && (forall r, k | 0 <= k < |encode(r)| :: parse(encode(r)[..k]) == None)
      && (header.Some? ==>
        && |header.value| > 0 && NL !in header.value
        && forall k | 0 <= k <= |header.value| :: parse(header.value[..k]) == None)
    }

    /** The records among some lines, in order. */
    function Decode(lines: seq<Bytes>): seq<R> {
      if |lines| == 0 then []
      else
        (match parse(lines[0]) case Some(r) => [r] case None => []) + Decode(lines[1..])
    }

    function ReadAll(file: Bytes): seq<R> {
      Decode(Lines(file))
    }

    /** What a writer puts before its record: the header of a fresh file, or
        the newline that ends a torn line. */
    function Preamble(file: Bytes): Bytes {
      PreambleOf(header, file)
    }

    /** All the bytes one append writes. */
    function WriteOf(file: Bytes, r: R): Bytes {
      Preamble(file) + encode(r) + [NL]
    }

    function Appended(file: Bytes, r: R): Bytes {
      file + WriteOf(file, r)
    }

    lemma DecodeConcat(a: seq<Bytes>, b: seq<Bytes>)
      ensures Decode(a + b) == Decode(a) + Decode(b)
      decreases |a|
    {
      if |a| == 0 {
        assert a + b == b;
      } else {
        assert (a + b)[1..] == a[1..] + b;
        DecodeConcat(a[1..], b);
      }
    }

    lemma ReadConcat(a: Bytes, b: Bytes)
      requires !Torn(a)
      ensures ReadAll(a + b) == ReadAll(a) + ReadAll(b)
    {
      LinesConcat(a, b);
      DecodeConcat(Lines(a), Lines(b));
    }

    /** Part of one line, with or without its newline. */
    lemma ReadFragment(l: Bytes)
      requires NL !in l
      requires |l| == 0 ==> parse(l) == None
      ensures ReadAll(l) == ReadAll(l + [NL]) == (match parse(l) case Some(r) => [r] case None => [])
    {
      LinesOfPlain(l);
      assert Decode([l]) == (match parse(l) case Some(r) => [r] case None => []) + Decode([]);
    }

    lemma ReadRecordPart(r: R, k: nat)
      requires Sound() && k <= |encode(r)| + 1
      ensures ReadAll((encode(r) + [NL])[..k]) == if k >= |encode(r)| then [r] else []
    {
      var e := encode(r);
      if k > |e| {
        assert (e + [NL])[..k] == e + [NL];
        ReadFragment(e);
      } else {
        assert (e + [NL])[..k] == e[..k];
        assert k == |e| ==> e[..k] == e;
        ReadFragment(e[..k]);
      }
    }

    lemma ReadHeaderPart(h: Bytes, k: nat)
      requires Sound() && header == Some(h) && k <= |h| + 1
      ensures ReadAll((h + [NL])[..k]) == []
    {
      if k > |h| {
        assert h[..|h|] == h;
        assert (h + [NL])[..k] == h + [NL];
        ReadFragment(h);
      } else {
        assert (h + [NL])[..k] == h[..k];
        ReadFragment(h[..k]);
      }
    }

    /** The preamble alone adds no record and removes none, wherever it is cut;
        once whole, the next byte starts a line. */
    lemma ReadPreamblePart(file: Bytes, k: nat)
      requires Sound() && k <= |Preamble(file)|
      ensures ReadAll(file + Preamble(file)[..k]) == ReadAll(file)
      ensures k == |Preamble(file)| ==> !Torn(file + Preamble(file)[..k])
    {
      var p := Preamble(file);
      if k == 0 {
        assert file + p[..k] == file;
      } else if |file| == 0 {
        assert file + p[..k] == p[..k];
        ReadHeaderPart(header.value, k);
      } else {
        assert p[..k] == [NL];
        LinesTerminated(file);
      }
    }

    /** APPEND, CUT ANYWHERE. Whatever bytes the file held, a write of one
        record stopped after `k` bytes leaves every record readable before
        exactly as it was, and adds the new one exactly when the last byte of
        its object landed. */
    lemma PartialAppend(file: Bytes, r: R, k: nat)
      requires Sound() && k <= |WriteOf(file, r)|
      ensures ReadAll(file + WriteOf(file, r)[..k])
           == ReadAll(file) + if k >= |Preamble(file)| + |encode(r)| then [r] else []
    {
      if k <= |Preamble(file)| {
        PartOfPreamble(file, r, k);
      } else {
        PartOfRecord(file, r, k);
      }
    }

    lemma PartOfPreamble(file: Bytes, r: R, k: nat)
      requires Sound() && k <= |Preamble(file)|
      ensures ReadAll(file + WriteOf(file, r)[..k]) == ReadAll(file) + []
    {
      Assoc(Preamble(file), encode(r), [NL]);
      TakeOfConcat(Preamble(file), encode(r) + [NL], k);
      ReadPreamblePart(file, k);
    }

    lemma PartOfRecord(file: Bytes, r: R, k: nat)
      requires Sound() && |Preamble(file)| < k <= |WriteOf(file, r)|
      ensures ReadAll(file + WriteOf(file, r)[..k])
           == ReadAll(file) + if k >= |Preamble(file)| + |encode(r)| then [r] else []
    {
      var p := Preamble(file);
      var part := (encode(r) + [NL])[..k - |p|];
      Assoc(p, encode(r), [NL]);
      TakeOfConcat(p, encode(r) + [NL], k);
      Assoc(file, p, part);
      WholePreamble(file);
      ReadConcat(file + p, part);
      ReadRecordPart(r, k - |p|);
    }

    lemma WholePreamble(file: Bytes)
      requires Sound()
      ensures ReadAll(file + Preamble(file)) == ReadAll(file) && !Torn(file + Preamble(file))
    {
      var p := Preamble(file);
      assert p[..|p|] == p;
      ReadPreamblePart(file, |p|);
    }

    /** A whole append reads back as what was there, then the new record. */
    lemma AppendReadsBack(file: Bytes, r: R)
      requires Sound()
      ensures ReadAll(Appended(file, r)) == ReadAll(file) + [r]
      ensures file <= Appended(file, r) && !Torn(Appended(file, r))
    {
      var w := WriteOf(file, r);
      assert w[..|w|] == w;
      PartialAppend(file, r, |w|);
    }

    function AppendAll(file: Bytes, rs: seq<R>): Bytes
      decreases |rs|
    {
      if |rs| == 0 then file else AppendAll(Appended(file, rs[0]), rs[1..])
    }

    lemma {:induction false} AppendAllReadsBack(file: Bytes, rs: seq<R>)
      requires Sound()
      ensures ReadAll(AppendAll(file, rs)) == ReadAll(file) + rs
      decreases |rs|
    {
      var before := ReadAll(file);
      if |rs| == 0 {
        assert before + rs == before;
      } else {
        AppendReadsBack(file, rs[0]);
        AppendAllReadsBack(Appended(file, rs[0]), rs[1..]);
        Assoc(before, [rs[0]], rs[1..]);
        assert [rs[0]] + rs[1..] == rs;
      }
    }

    lemma {:induction false} AppendAllOnlyAppends(file: Bytes, rs: seq<R>)
      ensures file <= AppendAll(file, rs)
      decreases |rs|
    {
      if |rs| > 0 {
        AppendAllOnlyAppends(Appended(file, rs[0]), rs[1..]);
      }
    }

    // -------------------------------------------------------------- runs

    function AfterWrite(file: Bytes, w: Write<R>): Bytes {
      var all := WriteOf(file, w.rec);
      file + all[..Min(w.landed, |all|)]
    }

    /** The record's object, if not its newline, reached the disk whole. */
    predicate Lands(file: Bytes, w: Write<R>) {
      w.landed >= |Preamble(file)| + |encode(w.rec)|
    }

    lemma OneWriteReadsBack(file: Bytes, w: Write<R>)
      requires Sound()
      ensures ReadAll(AfterWrite(file, w)) == ReadAll(file) + if Lands(file, w) then [w.rec] else []
    {
      PartialAppend(file, w.rec, Min(w.landed, |WriteOf(file, w.rec)|));
    }

    function AfterRun(file: Bytes, ws: seq<Write<R>>): Bytes
      decreases |ws|
    {
      if |ws| == 0 then file else AfterRun(AfterWrite(file, ws[0]), ws[1..])
    }

    /** The records of a run whose object reached the disk whole, in order. */
    function Completed(file: Bytes, ws: seq<Write<R>>): seq<R>
      decreases |ws|
    {
      if |ws| == 0 then []
      else
        (if Lands(file, ws[0]) then [ws[0].rec] else []) + Completed(AfterWrite(file, ws[0]), ws[1..])
    }

    /** OVER ANY RUN of appends and mid-write crashes, from any bytes at all:
        the reader gets the records it could read before, then every completed
        record once, in order; and no byte once written is ever changed. */
    lemma {:induction false} RunReadsBack(file: Bytes, ws: seq<Write<R>>)
      requires Sound()
      ensures ReadAll(AfterRun(file, ws)) == ReadAll(file) + Completed(file, ws)
      decreases |ws|
    {
      if |ws| == 0 {
        Assoc(ReadAll(file), [], []);
      } else {
        var next := AfterWrite(file, ws[0]);
        OneWriteReadsBack(file, ws[0]);
        RunReadsBack(next, ws[1..]);
        var head := if Lands(file, ws[0]) then [ws[0].rec] else [];
        Assoc(ReadAll(file), head, Completed(next, ws[1..]));
      }
    }
  }

  /** The assumptions of `Sound` can be met. */
  lemma SoundCodecExists()
    ensures exists c: Codec<()> :: c.Sound() && c.header.Some?
  {
    var c: Codec<()> := Codec(
      (r: ()) => [123, 125],
      (b: Bytes) => if b == [123, 125] then Some(()) else None,
      Some([91, 93]));
    forall k | 0 <= k <= 2
      ensures c.parse(c.header.value[..k]) == None
    {
      assert k > 0 ==> c.header.value[..k][0] == 91;
    }
    forall r: ()
      ensures c.parse(c.encode(r)) == Some(r)
    {
      assert r == ();
    }
    assert c.Sound();
  }

  /** An open append handle on one file. */
  class LogFile {
    var bytes: Bytes

    constructor (bytes: Bytes)
      ensures this.bytes == bytes
    {
      this.bytes := bytes;
    }

    method HasTornTail() returns (torn: bool)
      ensures torn == Torn(bytes)
    {
      if |bytes| == 0 {
        return false;
      }
      return bytes[|bytes| - 1] != NL;
    }

    /** Both append rules: the header of a fresh file, else the end of a torn line. */
    method PrepareAppend(header: Option<Bytes>)
      modifies this
      ensures bytes == old(bytes) + PreambleOf(header, old(bytes)) && !Torn(bytes)
      ensures old(bytes) == [] ==> bytes == if header.Some? then header.value + [NL] else []
      ensures old(bytes) != [] ==> bytes == if old(bytes)[|old(bytes)| - 1] != NL then old(bytes) + [NL] else old(bytes)
      ensures |old(bytes)| > 0 ==> Lines(bytes) == Lines(old(bytes))
    {
      if |bytes| == 0 {
        if header.Some? {
          bytes := header.value + [NL];
        }
        return;
      }
      var torn := HasTornTail();
      if torn {
        LinesTerminated(bytes);
        bytes := bytes + [NL];
      }
    }

    method Append<R(!new)>(c: Codec<R>, r: R)
      modifies this
      ensures bytes == c.Appended(old(bytes), r)
      ensures c.Sound() ==> c.ReadAll(bytes) == c.ReadAll(old(bytes)) + [r]
    {
      hide c.Sound, c.ReadAll, PreambleOf, Torn, Lines;
      if c.Sound() {
        c.AppendReadsBack(bytes, r);
      }
      ghost var before := bytes;
      PrepareAppend(c.header);
      Assoc(before, c.Preamble(before), c.encode(r));
      Assoc(before, c.Preamble(before) + c.encode(r), [NL]);
      bytes := bytes + c.encode(r) + [NL];
    }
  }
}
