/** The run journal: what the next start is told about the run before it. */
module RunState {
  import opened Jsonl
  import opened Text
  import opened Feed

  type U64 = x: int | 0 <= x <= 0xffff_ffff_ffff_ffff

  const EQ: byte := 0x3D
  const STARTED: Bytes := [0x73, 0x74, 0x61, 0x72, 0x74, 0x65, 0x64]
  const LAST: Bytes := [0x6C, 0x61, 0x73, 0x74]
  const EXITED: Bytes := [0x65, 0x78, 0x69, 0x74, 0x65, 0x64]
  const REASON: Bytes := [0x72, 0x65, 0x61, 0x73, 0x6F, 0x6E]
  const UPDATE: Bytes := [0x75, 0x70, 0x64, 0x61, 0x74, 0x65]
  const ONE: Bytes := [0x31]
  const ZERO: Bytes := [0x30]

  const REPLACED_WITHIN_SECS: nat := 60

  /** One run's footprint. */
  datatype Run = Run(started: U64, last: U64, exited: bool, reason: Option<Bytes>)

  // ---------------------------------------------------------------- the file

  function ParseU64(s: Bytes): Option<U64> {
    var d := if |s| > 0 && s[0] == 0x2B then s[1..] else s;
    if |d| == 0 || (exists i :: 0 <= i < |d| && !(0x30 <= d[i] <= 0x39)) then None
    else if ValueOf(d) > 0xffff_ffff_ffff_ffff then None
    else Some(ValueOf(d))
  }

  function EqAt(line: Bytes): (n: nat)
    ensures n <= |line|
    ensures n < |line| ==> line[n] == EQ
    ensures EQ !in line[..n]
  {
    if |line| == 0 || line[0] == EQ then 0
    else
      var n := 1 + EqAt(line[1..]);
      assert line[..n] == [line[0]] + line[1..][..n - 1];
      n
  }

  /** What the lines read so far have said. */
  datatype Fields = Fields(started: Option<U64>, last: Option<U64>, exited: bool, reason: Option<Bytes>)

  const NOTHING := Fields(None, None, false, None)

  function NonEmpty(s: Bytes): Option<Bytes> {
    if |s| == 0 then None else Some(s)
  }

  function SetField(f: Fields, key: Bytes, value: Bytes): Fields {
    if key == STARTED then f.(started := ParseU64(value))
    else if key == LAST then f.(last := ParseU64(value))
    else if key == EXITED then f.(exited := value == ONE)
    else if key == REASON then f.(reason := NonEmpty(value))
    else f
  }

  function ReadLine(f: Fields, line: Bytes): Option<Fields> {
    var n := EqAt(line);
    if n == |line| then None else Some(SetField(f, Trim(line[..n]), Trim(line[n + 1..])))
  }

  function ReadLines(f: Fields, lines: seq<Bytes>): Option<Fields>
    decreases |lines|
  {
    if |lines| == 0 then Some(f)
    else match ReadLine(f, lines[0])
      case None => None
      case Some(next) => ReadLines(next, lines[1..])
  }

  function Finish(f: Fields): Option<Run> {
    if f.started.None? then None
    else Some(Run(f.started.value, if f.last.Some? then f.last.value else f.started.value, f.exited, f.reason))
  }

  function Parse(text: Bytes): Option<Run> {
    match ReadLines(NOTHING, Lines(text))
    case None => None
    case Some(f) => Finish(f)
  }

  /** The parser, line by line. */
  method ParseJournal(text: Bytes) returns (run: Option<Run>)
    ensures run == Parse(text)
  {
    var lines := Lines(text);
    var f := NOTHING;
    for i := 0 to |lines|
      invariant ReadLines(NOTHING, lines) == ReadLines(f, lines[i..])
    {
      match ReadLine(f, lines[i])
      case None => return None;
      case Some(next) => f := next;
      assert lines[i..][1..] == lines[i + 1..];
    }
    run := Finish(f);
  }

  function Field(key: Bytes, value: Bytes): Bytes {
    key + [EQ] + value
  }

  function Head(run: Run): seq<Bytes> {
    [Field(STARTED, Decimal(run.started)), Field(LAST, Decimal(run.last)),
     Field(EXITED, if run.exited then ONE else ZERO)]
  }

  function ReasonLine(run: Run): Bytes {
    if run.reason.Some? && |run.reason.value| > 0 then Field(REASON, run.reason.value) + [NL] else []
  }

  function Render(run: Run): Bytes {
    Join(Head(run)) + ReasonLine(run)
  }

  // ---------------------------------------------------------------- round trip

  lemma EqAtField(key: Bytes, value: Bytes)
    requires EQ !in key
    ensures EqAt(Field(key, value)) == |key|
  {
    if |key| > 0 {
      assert Field(key, value)[1..] == Field(key[1..], value);
      EqAtField(key[1..], value);
    }
  }

  lemma ReadField(f: Fields, key: Bytes, value: Bytes)
    requires EQ !in key
    ensures ReadLine(f, Field(key, value)) == Some(SetField(f, Trim(key), Trim(value)))
  {
    hide SetField, Trim, EqAt;
    EqAtField(key, value);
    assert Field(key, value)[..|key|] == key;
    assert Field(key, value)[|key| + 1..] == value;
  }

  lemma ParseDecimal(n: U64)
    ensures Trim(Decimal(n)) == Decimal(n) && ParseU64(Decimal(n)) == Some(n)
  {
    hide Decimal, ValueOf, Trim;
    PrintableIsTrimmed(Decimal(n));
    ValueOfDecimal(n);
  }

  lemma KeysAreTrimmed()
    ensures Trim(STARTED) == STARTED && Trim(LAST) == LAST && Trim(EXITED) == EXITED
    ensures Trim(REASON) == REASON && Trim(ONE) == ONE && Trim(ZERO) == ZERO
  {
    hide Trim;
    PrintableIsTrimmed(STARTED);
    PrintableIsTrimmed(LAST);
    PrintableIsTrimmed(EXITED);
    PrintableIsTrimmed(REASON);
    PrintableIsTrimmed(ONE);
    PrintableIsTrimmed(ZERO);
  }

  lemma ReadCons(f: Fields, key: Bytes, value: Bytes, more: seq<Bytes>)
    requires EQ !in key && Trim(key) == key && Trim(value) == value
    ensures ReadLines(f, [Field(key, value)] + more) == ReadLines(SetField(f, key, value), more)
  {
    hide SetField, Trim, ReadLine, Field;
    ReadField(f, key, value);
    assert ([Field(key, value)] + more)[1..] == more;
  }

  lemma ReadHead(run: Run, more: seq<Bytes>)
    ensures ReadLines(NOTHING, Head(run) + more)
         == ReadLines(Fields(Some(run.started), Some(run.last), run.exited, None), more)
  {
    hide Trim, ReadLines, ParseU64, Decimal, Field;
    KeysAreTrimmed();
    ParseDecimal(run.started);
    ParseDecimal(run.last);
    var h, exited := Head(run), if run.exited then ONE else ZERO;
    var f1 := NOTHING.(started := Some(run.started));
    var f2 := f1.(last := Some(run.last));
    assert Head(run) + more == [h[0]] + ([h[1]] + ([h[2]] + more));
    ReadCons(NOTHING, STARTED, Decimal(run.started), [h[1]] + ([h[2]] + more));
    ReadCons(f1, LAST, Decimal(run.last), [h[2]] + more);
    ReadCons(f2, EXITED, exited, more);
  }

  lemma HeadIsLines(run: Run)
    ensures forall l | l in Head(run) :: NL !in l
    ensures !Torn(Join(Head(run)))
  {
    hide Decimal;
    forall l | l in Head(run)
      ensures NL !in l
    {
    }
    JoinEndsLines(Head(run));
  }

  lemma JoinEndsLines(lines: seq<Bytes>)
    ensures !Torn(Join(lines))
  {
  }

  lemma RenderedLines(run: Run)
    ensures Lines(Render(run)) == Head(run) + Lines(ReasonLine(run))
  {
    hide Head, ReasonLine, Join;
    HeadIsLines(run);
    LinesOfJoin(Head(run));
    LinesConcat(Join(Head(run)), ReasonLine(run));
  }

  /** What one line can carry and the parser gives back unchanged. */
  predicate Tidy(reason: Option<Bytes>) {
    reason.Some? ==> |reason.value| > 0 && NL !in reason.value && Trim(reason.value) == reason.value
  }

  lemma ReadKeepsTidy(f: Fields, line: Bytes)
    requires Tidy(f.reason) && NL !in line && ReadLine(f, line).Some?
    ensures Tidy(ReadLine(f, line).value.reason)
  {
    hide Trim, EqAt;
    var value := line[EqAt(line) + 1..];
    TrimIsPart(value, NL);
    TrimIsTrimmed(value);
  }

  lemma {:induction false} ReadLinesKeepsTidy(f: Fields, lines: seq<Bytes>)
    requires Tidy(f.reason) && forall l | l in lines :: NL !in l
    requires ReadLines(f, lines).Some?
    ensures Tidy(ReadLines(f, lines).value.reason)
    decreases |lines|
  {
    hide Tidy, ReadLine;
    if |lines| > 0 {
      ReadKeepsTidy(f, lines[0]);
      ReadLinesKeepsTidy(ReadLine(f, lines[0]).value, lines[1..]);
    }
  }

  lemma ParsedIsTidy(text: Bytes)
    requires Parse(text).Some?
    ensures Tidy(Parse(text).value.reason)
  {
    hide ReadLines, Lines;
    LinesAreLines(text);
    ReadLinesKeepsTidy(NOTHING, Lines(text));
  }

  lemma ReadReason(f: Fields, reason: Bytes)
    requires Tidy(Some(reason))
    ensures ReadLines(f, Lines(Field(REASON, reason) + [NL])) == Some(f.(reason := Some(reason)))
  {
    hide ReadLine, Trim, Lines;
    KeysAreTrimmed();
    ReadField(f, REASON, reason);
    LinesOfPlain(Field(REASON, reason));
    assert [Field(REASON, reason)][1..] == [];
  }

  /** THE JOURNAL READS BACK AS WRITTEN exactly when its reason is one that a
      single line carries: absent, or non-empty, trimmed and free of newlines.
      The writer trims its reason but lets a newline inside it through. */
  lemma RoundTrip(run: Run)
    ensures Parse(Render(run)) == Some(run) <==> Tidy(run.reason)
  {
    hide Tidy, Render, ReadLines, Head, Lines;
    if Tidy(run.reason) {
      RenderedLines(run);
      ReadHead(run, Lines(ReasonLine(run)));
      TidyReasonReads(run);
    }
    if Parse(Render(run)) == Some(run) {
      ParsedIsTidy(Render(run));
    }
  }

  lemma TidyReasonReads(run: Run)
    requires Tidy(run.reason)
    ensures var f := Fields(Some(run.started), Some(run.last), run.exited, None);
            ReadLines(f, Lines(ReasonLine(run))) == Some(f.(reason := run.reason))
  {
    if run.reason.Some? {
      hide Field, Lines;
      ReadReason(Fields(Some(run.started), Some(run.last), run.exited, None), run.reason.value);
    }
  }

  // ---------------------------------------------------------------- the verdict

  datatype BootKind = FirstRun | CleanExit | Replaced | MachineRestart | Crashed

  function SinceLast(now: U64, last: U64): nat {
    if now < last then 0 else now - last
  }

  function Classify(previous: Option<Run>, now: U64, boot: Option<U64>): BootKind {
    match previous
    case None => FirstRun
    case Some(prev) =>
      if prev.exited then
        if prev.reason == Some(UPDATE) then Replaced else CleanExit
      else if boot.Some? && boot.value > prev.last then MachineRestart
      else if SinceLast(now, prev.last) <= REPLACED_WITHIN_SECS then Replaced
      else Crashed
  }

  /** What the next start reports; a journal that does not parse is a crash. */
  function Verdict(file: Option<Bytes>, now: U64, boot: Option<U64>): BootKind {
    if file.Some? && Parse(file.value).None? then Crashed
    else Classify(if file.Some? then Parse(file.value) else None, now, boot)
  }

  /** What the clock says of a run that was not marked ended, last alive at `last`. */
  ghost predicate ByTheClock(kind: BootKind, last: U64, now: U64, boot: Option<U64>) {
    && (kind == MachineRestart <==> boot.Some? && boot.value as int > last as int)
    && (kind != MachineRestart ==> (kind == Replaced <==> now as int <= last as int + 60))
    && (kind == MachineRestart || kind == Replaced || kind == Crashed)
  }

  /** THE VERDICT. A first run exactly without a journal; a crash for one that
      does not parse; of a run marked ended, a replacement exactly for the word
      `update` and else a clean exit; of any other, what the clock says. */
  lemma VerdictMeans(file: Option<Bytes>, now: U64, boot: Option<U64>)
    ensures var kind := Verdict(file, now, boot);
            && (kind == FirstRun <==> file.None?)
            && (file.Some? && Parse(file.value).None? ==> kind == Crashed)
            && (file.Some? && Parse(file.value).Some? ==>
                  var prev := Parse(file.value).value;
                  if prev.exited then kind == (if prev.reason == Some(Ascii("update")) then Replaced else CleanExit)
                  else ByTheClock(kind, prev.last, now, boot))
  {
    hide Parse;
    assert Ascii("update") == UPDATE;
  }

  /** The journal's text, as any build writes it. */
  lemma JournalText(run: Run)
    ensures Render(run) ==
            Join([Ascii("started=") + Decimal(run.started),
                  Ascii("last=") + Decimal(run.last),
                  Ascii("exited=") + Ascii(if run.exited then "1" else "0")])
            + if run.reason.Some? && |run.reason.value| > 0 then Ascii("reason=") + run.reason.value + [NL] else []
  {
    hide Decimal, Ascii;
    JournalWords();
    hide Join;
  }

  lemma JournalWords()
    ensures Ascii("started=") == STARTED + [EQ] && Ascii("last=") == LAST + [EQ]
    ensures Ascii("exited=") == EXITED + [EQ] && Ascii("reason=") == REASON + [EQ]
    ensures Ascii("1") == ONE && Ascii("0") == ZERO
  {
  }

  /** One call, with the clock it read and whether its save reached the disk;
      the save is atomic, so a crash inside it is a save that did not. */
  datatype Step =
    | Begin(now: U64, saved: bool)
    | Beat(started: U64, now: U64, saved: bool)
    | MarkExited(started: U64, now: U64, saved: bool)
    | MarkStop(why: Bytes, now: U64, saved: bool)
    | Crash

  /** The state a call wants to save, if any. */
  function Wanted(file: Option<Bytes>, step: Step): Option<Run> {
    match step
    case Begin(now, _) => Some(Run(now, now, false, None))
    case Beat(started, now, _) => Some(Run(started, now, false, None))
    case MarkExited(started, now, _) => Some(Run(started, now, true, None))
    case MarkStop(why, now, _) =>
      (match if file.Some? then Parse(file.value) else None
       case None => None
       case Some(run) =>
         if run.exited then None
         else Some(run.(exited := true, reason := NonEmpty(Trim(why)), last := now)))
    case Crash => None
  }

  predicate Saves(step: Step) {
    !step.Crash? && step.saved
  }

  function After(file: Option<Bytes>, step: Step): Option<Bytes> {
    match Wanted(file, step)
    case None => file
    case Some(run) => if Saves(step) then Some(Render(run)) else file
  }

  function AfterAll(file: Option<Bytes>, steps: seq<Step>): Option<Bytes>
    decreases |steps|
  {
    if |steps| == 0 then file else AfterAll(After(file, steps[0]), steps[1..])
  }

  lemma FirstStep(file: Option<Bytes>, step: Step, steps: seq<Step>)
    ensures AfterAll(file, [step] + steps) == AfterAll(After(file, step), steps)
  {
    hide After;
    assert ([step] + steps)[1..] == steps;
  }

  /** A step that can replace a mark: only a save that is not itself a mark. */
  predicate Overwrites(step: Step) {
    Saves(step) && (step.Begin? || step.Beat? || step.MarkExited?)
  }

  // ---------------------------------------------------------------- a reason of several lines

  function FirstLine(reason: Bytes): Bytes {
    reason[..LineEnd(reason)]
  }

  /** The lines a reason adds to the journal after its first. */
  function LaterLines(reason: Bytes): seq<Bytes> {
    var n := LineEnd(reason);
    if n == |reason| then [] else Lines(reason[n + 1..] + [NL])
  }

  predicate Pairs(lines: seq<Bytes>) {
    forall l | l in lines :: EqAt(l) < |l|
  }

  /** The value of the last line with a key. */
  function LastValue(lines: seq<Bytes>, key: Bytes): Option<Bytes> {
    if |lines| == 0 then None
    else
      var rest, n := LastValue(lines[1..], key), EqAt(lines[0]);
      if rest.Some? then rest
      else if n < |lines[0]| && Trim(lines[0][..n]) == key then Some(Trim(lines[0][n + 1..])) else None
  }

  /** Each field as its last line has it. */
  function Overridden(f: Fields, lines: seq<Bytes>): Fields {
    Fields(
      match LastValue(lines, STARTED) case None => f.started case Some(v) => ParseU64(v),
      match LastValue(lines, LAST) case None => f.last case Some(v) => ParseU64(v),
      match LastValue(lines, EXITED) case None => f.exited case Some(v) => v == ONE,
      match LastValue(lines, REASON) case None => f.reason case Some(v) => NonEmpty(v))
  }

  lemma OverriddenFirst(f: Fields, lines: seq<Bytes>)
    requires |lines| > 0 && EqAt(lines[0]) < |lines[0]|
    ensures ReadLine(f, lines[0]).Some?
    ensures Overridden(f, lines) == Overridden(ReadLine(f, lines[0]).value, lines[1..])
  {
    hide Trim, ParseU64;
  }

  lemma {:induction false} ReadIsLast(f: Fields, lines: seq<Bytes>)
    ensures ReadLines(f, lines) == if Pairs(lines) then Some(Overridden(f, lines)) else None
    decreases |lines|
  {
    hide Overridden, ReadLine, EqAt, Pairs;
    PairsFirst(lines);
    if |lines| == 0 {
      NothingOverridden(f);
    } else if EqAt(lines[0]) == |lines[0]| {
      NoPairNoLine(f, lines[0]);
    } else {
      OverriddenFirst(f, lines);
      ReadIsLast(ReadLine(f, lines[0]).value, lines[1..]);
    }
  }

  lemma PairsFirst(lines: seq<Bytes>)
    ensures Pairs(lines) <==> |lines| == 0 || (EqAt(lines[0]) < |lines[0]| && Pairs(lines[1..]))
  {
    hide EqAt;
    assert |lines| > 0 ==> lines == [lines[0]] + lines[1..];
  }

  lemma NoPairNoLine(f: Fields, line: Bytes)
    ensures EqAt(line) == |line| ==> ReadLine(f, line) == None
  {
  }

  lemma NothingOverridden(f: Fields)
    ensures Overridden(f, []) == f
  {
  }

  lemma ReasonLines(reason: Bytes)
    ensures Lines(Field(REASON, reason) + [NL]) == [Field(REASON, FirstLine(reason))] + LaterLines(reason)
  {
    hide Lines, Field;
    var n := LineEnd(reason);
    var first := Field(REASON, FirstLine(reason));
    FieldIsLine(FirstLine(reason));
    LinesOfPlain(first);
    if n < |reason| {
      FieldSplits(reason);
      LinesConcat(first + [NL], reason[n + 1..] + [NL]);
    } else {
      assert FirstLine(reason) == reason;
      assert [first] + [] == [first];
    }
  }

  lemma FieldIsLine(value: Bytes)
    requires NL !in value
    ensures NL !in Field(REASON, value)
  {
  }

  lemma FieldSplits(reason: Bytes)
    requires LineEnd(reason) < |reason|
    ensures var n := LineEnd(reason);
            Field(REASON, reason) + [NL] == (Field(REASON, FirstLine(reason)) + [NL]) + (reason[n + 1..] + [NL])
  {
    var n := LineEnd(reason);
    AtNewline(reason, n);
    hide LineEnd;
    Regroup(REASON + [EQ], reason[..n], [NL], reason[n + 1..]);
  }

  lemma AtNewline(s: Bytes, n: nat)
    requires n < |s| && s[n] == NL
    ensures s == s[..n] + [NL] + s[n + 1..]
  {
  }

  lemma Regroup<T>(p: seq<T>, a: seq<T>, m: seq<T>, b: seq<T>)
    ensures p + (a + m + b) + m == (p + a + m) + (b + m)
  {
    Assoc(p, a + m + b, m);
    Assoc(a + m, b, m);
    Assoc(p, a, m);
    Assoc(p, a + m, b + m);
  }

  /** WHAT A WRITTEN STATE READS BACK AS, whatever its reason. */
  function ReadBack(run: Run): Option<Run> {
    var reason := if run.reason.Some? then run.reason.value else [];
    if !Pairs(LaterLines(reason)) then None
    else Finish(Overridden(Fields(Some(run.started), Some(run.last), run.exited, NonEmpty(Trim(FirstLine(reason)))),
                           LaterLines(reason)))
  }

  lemma RenderReadsBack(run: Run)
    ensures Parse(Render(run)) == ReadBack(run)
  {
    hide Render, ReadLines, Lines, Head, Trim, Overridden, Pairs;
    var f := Fields(Some(run.started), Some(run.last), run.exited, None);
    RenderedLines(run);
    ReadHead(run, Lines(ReasonLine(run)));
    if run.reason.Some? && |run.reason.value| > 0 {
      var r := run.reason.value;
      ReasonLines(r);
      ReadReasonLine(f, FirstLine(r), LaterLines(r));
      ReadIsLast(f.(reason := NonEmpty(Trim(FirstLine(r)))), LaterLines(r));
    } else {
      NoReason(f);
    }
  }

  lemma ReadReasonLine(f: Fields, value: Bytes, more: seq<Bytes>)
    ensures ReadLines(f, [Field(REASON, value)] + more) == ReadLines(f.(reason := NonEmpty(Trim(value))), more)
  {
    hide Trim, ReadLine, Field;
    KeysAreTrimmed();
    ReadField(f, REASON, value);
    assert ([Field(REASON, value)] + more)[1..] == more;
  }

  lemma NoReason(f: Fields)
    ensures Lines([]) == [] && ReadLines(f, []) == Some(f)
    ensures LaterLines([]) == [] && Pairs([]) && Trim(FirstLine([])) == []
    ensures Overridden(f, []) == f
  {
    NothingOverridden(f);
  }

  // ---------------------------------------------------------------- when a journal stays readable

  predicate Readable(file: Option<Bytes>) {
    file.Some? && Parse(file.value).Some?
  }

  /** Each later line of the reason is a pair, and the last that gives a start
      gives a number. */
  predicate KeepsReadable(why: Bytes) {
    var later := LaterLines(Trim(why));
    && Pairs(later)
    && (LastValue(later, STARTED).Some? ==> ParseU64(LastValue(later, STARTED).value).Some?)
  }

  lemma MarkedReadable(run: Run, why: Bytes)
    requires run.reason == NonEmpty(Trim(why))
    ensures Parse(Render(run)).Some? <==> KeepsReadable(why)
  {
    hide Parse, Render, Trim, Lines, ParseU64, LaterLines;
    RenderReadsBack(run);
  }

  /** The mark takes effect, and leaves a journal that does not parse. */
  predicate Spoils(file: Option<Bytes>, step: Step) {
    && step.MarkStop? && step.saved && Readable(file) && !Parse(file.value).value.exited
    && !KeepsReadable(step.why)
  }

  /** ONE STEP, on any file: a plain save makes the journal readable; a mark that
      spoils it makes it unreadable; nothing else changes which it is. */
  lemma StepReadable(file: Option<Bytes>, step: Step)
    requires file.Some?
    ensures After(file, step).Some?
    ensures Readable(After(file, step)) <==> Overwrites(step) || (Readable(file) && !Spoils(file, step))
  {
    hide Parse, Render, Trim, KeepsReadable;
    var wanted := Wanted(file, step);
    if wanted.Some? && Saves(step) {
      if step.MarkStop? {
        MarkedReadable(wanted.value, step.why);
      } else {
        RoundTrip(wanted.value);
      }
    }
  }

  /** Step `i` spoils the journal and no later one replaces it. */
  predicate SpoiledAt(file: Option<Bytes>, steps: seq<Step>, i: int) {
    && 0 <= i < |steps| && Spoils(AfterAll(file, steps[..i]), steps[i])
    && forall j | i < j < |steps| :: !Overwrites(steps[j])
  }

  lemma SpoiledLater(file: Option<Bytes>, steps: seq<Step>, i: int)
    requires 0 < i < |steps|
    ensures SpoiledAt(file, steps, i) <==> SpoiledAt(After(file, steps[0]), steps[1..], i - 1)
  {
    hide After, Spoils, Overwrites;
    assert steps[..i] == [steps[0]] + steps[1..][..i - 1];
    FirstStep(file, steps[0], steps[1..][..i - 1]);
    assert forall j | 1 <= j < |steps| :: steps[j] == steps[1..][j - 1];
    assert forall j | 0 <= j < |steps| - 1 :: steps[1..][j] == steps[j + 1];
  }

  lemma SpoiledFirst(file: Option<Bytes>, steps: seq<Step>)
    requires |steps| > 0
    ensures SpoiledAt(file, steps, 0)
       <==> Spoils(file, steps[0]) && forall j | 0 <= j < |steps| - 1 :: !Overwrites(steps[1..][j])
  {
    hide After, Spoils, Overwrites;
    assert steps[..0] == [];
    assert forall j | 1 <= j < |steps| :: steps[j] == steps[1..][j - 1];
    assert forall j | 0 <= j < |steps| - 1 :: steps[1..][j] == steps[j + 1];
  }

  lemma {:induction false} RunReadable(file: Option<Bytes>, steps: seq<Step>)
    requires file.Some?
    ensures AfterAll(file, steps).Some?
    ensures !Readable(AfterAll(file, steps))
       <==> ((!Readable(file) && forall j | 0 <= j < |steps| :: !Overwrites(steps[j]))
             || exists i :: SpoiledAt(file, steps, i))
    decreases |steps|
  {
    hide After, Readable, Spoils, Overwrites;
    if |steps| > 0 {
      var next, rest := After(file, steps[0]), steps[1..];
      StepReadable(file, steps[0]);
      RunReadable(next, rest);
      SpoiledFirst(file, steps);
      SpoilsReadable(file, steps[0]);
      SpoiledShift(file, steps);
      assert forall j | 1 <= j < |steps| :: steps[j] == rest[j - 1];
      assert forall j | 0 <= j < |rest| :: rest[j] == steps[j + 1];
    }
  }

  lemma SpoilsReadable(file: Option<Bytes>, step: Step)
    ensures Spoils(file, step) ==> Readable(file) && !Overwrites(step)
  {
  }

  lemma SpoiledShift(file: Option<Bytes>, steps: seq<Step>)
    requires |steps| > 0
    ensures (exists i :: SpoiledAt(file, steps, i))
       <==> (SpoiledAt(file, steps, 0) || exists i :: SpoiledAt(After(file, steps[0]), steps[1..], i))
  {
    hide After, Spoils, Overwrites;
    if i :| SpoiledAt(file, steps, i) {
      if i > 0 {
        SpoiledLater(file, steps, i);
      }
    }
    if i :| SpoiledAt(After(file, steps[0]), steps[1..], i) {
      SpoiledLater(file, steps, i + 1);
    }
  }

  lemma ParsedIsNotFirst(run: Run, now: U64, boot: Option<U64>)
    ensures Classify(Some(run), now, boot) != FirstRun
  {
  }

  /** AFTER ONE SUCCESSFUL SAVE, whatever the file held before it and whatever
      calls, failed saves and crashes follow, no start reports a first run; and
      none finds a journal it cannot read, exactly unless a mark spoiled it and
      no plain save came after. */
  lemma NeverAFirstRunAgain(file: Option<Bytes>, step: Step, steps: seq<Step>, now: U64, boot: Option<U64>)
    requires Overwrites(step)
    ensures var later := AfterAll(file, [step] + steps);
            && later.Some? && Verdict(later, now, boot) != FirstRun
            && (Parse(later.value).None? <==> exists i :: SpoiledAt(After(file, step), steps, i))
  {
    hide Parse, AfterAll, Trim, Render, Classify, KeepsReadable, SpoiledAt;
    FirstStep(file, step, steps);
    RoundTrip(Wanted(file, step).value);
    RunReadable(After(file, step), steps);
    var later := AfterAll(After(file, step), steps);
    if Parse(later.value).Some? {
      ParsedIsNotFirst(Parse(later.value).value, now, boot);
    }
  }

  // ---------------------------------------------------------------- which verdict a mark gives

  lemma {:induction false} MarkedStays(file: Option<Bytes>, steps: seq<Step>)
    requires file.Some? && Parse(file.value).Some? && Parse(file.value).value.exited
    requires forall i | 0 <= i < |steps| :: !Overwrites(steps[i])
    ensures AfterAll(file, steps) == file
    decreases |steps|
  {
    hide Parse, Render;
    if |steps| > 0 {
      assert After(file, steps[0]) == file;
      MarkedStays(file, steps[1..]);
    }
  }

  /** What a mark leaves for the next start to read. */
  function Marked(live: Run, why: Bytes, at: U64): Run {
    Run(live.started, at, true, NonEmpty(Trim(why)))
  }

  /** THE VERDICT OF ANY MARK on a live run: a crash when it spoils the journal,
      else that of the state as its reason's later lines override it. */
  lemma MarkVerdict(file: Option<Bytes>, why: Bytes, at: U64, now: U64, boot: Option<U64>)
    requires Readable(file) && !Parse(file.value).value.exited
    ensures var live := Parse(file.value).value;
            Verdict(After(file, MarkStop(why, at, true)), now, boot) ==
            if KeepsReadable(why) then Classify(ReadBack(Marked(live, why, at)), now, boot) else Crashed
  {
    hide Parse, Render, Trim, KeepsReadable, ReadBack, Classify;
    var run := Marked(Parse(file.value).value, why, at);
    RenderReadsBack(run);
    MarkedReadable(run, why);
  }

  /** The reason's later lines leave the run ended, and for what it was. */
  predicate Decides(why: Bytes) {
    var reason := Trim(why);
    var later := LaterLines(reason);
    && KeepsReadable(why)
    && (LastValue(later, EXITED) == None || LastValue(later, EXITED) == Some(ONE))
    && (reason != UPDATE ==>
          LastValue(later, REASON) != Some(UPDATE)
          && (LastValue(later, REASON) == None ==> Trim(FirstLine(reason)) != UPDATE))
  }

  lemma UpdateIsOneLine()
    ensures LaterLines(UPDATE) == [] && FirstLine(UPDATE) == UPDATE && Trim(UPDATE) == UPDATE
    ensures forall key :: LastValue([], key) == None
  {
    hide Trim, Lines;
    LineEndOfPlain(UPDATE, []);
    assert UPDATE + [] == UPDATE;
    PrintableIsTrimmed(UPDATE);
  }

  lemma MarkedReads(live: Run, why: Bytes, at: U64)
    requires KeepsReadable(why)
    ensures ReadBack(Marked(live, why, at)).Some?
    ensures var exited := LastValue(LaterLines(Trim(why)), EXITED);
            ReadBack(Marked(live, why, at)).value.exited <==> (exited == None || exited == Some(ONE))
    ensures var reason := LastValue(LaterLines(Trim(why)), REASON);
            ReadBack(Marked(live, why, at)).value.reason ==
            if reason.Some? then NonEmpty(reason.value) else NonEmpty(Trim(FirstLine(Trim(why))))
  {
    hide Trim, LaterLines, ParseU64, FirstLine;
  }

  lemma DecidesReason(live: Run, why: Bytes, at: U64)
    requires KeepsReadable(why)
    ensures var run := ReadBack(Marked(live, why, at));
            && run.Some?
            && (Decides(why) <==> run.value.exited && (run.value.reason == Some(UPDATE) <==> Trim(why) == UPDATE))
  {
    hide KeepsReadable, ReadBack, Trim, LaterLines, LastValue, FirstLine, NonEmpty;
    MarkedReads(live, why, at);
    UpdateIsOneLine();
    SomeUpdate(Trim(FirstLine(Trim(why))));
    var v := LastValue(LaterLines(Trim(why)), REASON);
    if v.Some? {
      SomeUpdate(v.value);
    }
  }

  lemma SomeUpdate(v: Bytes)
    ensures NonEmpty(v) == Some(UPDATE) <==> v == UPDATE
  {
  }

  /** A DELIBERATE STOP FIXES THE VERDICT, at any clock, delay and boot time and
      until something other than a mark saves again: `Replaced` for an update
      and `CleanExit` for anything else, exactly when the reason's later lines,
      if it has any, do not say otherwise. The first such mark stands. */
  lemma MarkFixesTheVerdict(file: Option<Bytes>, why: Bytes, at: U64)
    requires Readable(file) && !Parse(file.value).value.exited
    ensures (forall steps: seq<Step>, now: U64, boot: Option<U64> | !AnyOverwrites(steps) ::
               Verdict(AfterAll(file, [MarkStop(why, at, true)] + steps), now, boot) == Wished(why))
       <==> Decides(why)
  {
    hide Parse, Render, Trim, KeepsReadable, AfterAll, ReadBack, Classify, Decides, Overwrites;
    var mark := MarkStop(why, at, true);
    if Decides(why) {
      forall steps: seq<Step>, now: U64, boot: Option<U64> | !AnyOverwrites(steps)
        ensures Verdict(AfterAll(file, [mark] + steps), now, boot) == Wished(why)
      {
        FirstStep(file, mark, steps);
        MarkStays(file, why, at, steps);
        DecidedVerdict(file, why, at, now, boot);
      }
    } else {
      UndecidedVerdict(file, why, at);
      FirstStep(file, mark, []);
      AfterNothing(After(file, mark));
    }
  }

  function Wished(why: Bytes): BootKind {
    if Trim(why) == UPDATE then Replaced else CleanExit
  }

  predicate AnyOverwrites(steps: seq<Step>) {
    exists i :: 0 <= i < |steps| && Overwrites(steps[i])
  }

  lemma AfterNothing(file: Option<Bytes>)
    ensures AfterAll(file, []) == file && !AnyOverwrites([])
  {
  }

  lemma MarkStays(file: Option<Bytes>, why: Bytes, at: U64, steps: seq<Step>)
    requires Readable(file) && !Parse(file.value).value.exited && Decides(why) && !AnyOverwrites(steps)
    ensures AfterAll(After(file, MarkStop(why, at, true)), steps) == After(file, MarkStop(why, at, true))
  {
    hide Parse, Render, Trim, LaterLines, LastValue, ReadBack, FirstLine, ParseU64;
    var run := Marked(Parse(file.value).value, why, at);
    RenderReadsBack(run);
    MarkedReads(Parse(file.value).value, why, at);
    hide KeepsReadable;
    MarkedStays(Some(Render(run)), steps);
  }

  lemma DecidedVerdict(file: Option<Bytes>, why: Bytes, at: U64, now: U64, boot: Option<U64>)
    requires Readable(file) && !Parse(file.value).value.exited && Decides(why)
    ensures Verdict(After(file, MarkStop(why, at, true)), now, boot) == Wished(why)
  {
    DecidesKeeps(why);
    hide Parse, Render, Trim, KeepsReadable, ReadBack, Decides;
    MarkVerdict(file, why, at, now, boot);
    DecidesReason(Parse(file.value).value, why, at);
  }

  lemma DecidesKeeps(why: Bytes)
    requires Decides(why)
    ensures KeepsReadable(why)
  {
  }

  /** At the epoch, on a host that cannot tell its boot time, a run that is not
      marked ended reads as replaced. */
  lemma UndecidedVerdict(file: Option<Bytes>, why: Bytes, at: U64)
    requires Readable(file) && !Parse(file.value).value.exited && !Decides(why)
    ensures Verdict(After(file, MarkStop(why, at, true)), 0, None) != Wished(why)
  {
    UpdateIsOneLine();
    UpdateDecides(why);
    hide Parse, Render, Trim, KeepsReadable, ReadBack, Decides;
    MarkVerdict(file, why, at, 0, None);
    if KeepsReadable(why) {
      DecidesReason(Parse(file.value).value, why, at);
    }
  }

  lemma UpdateDecides(why: Bytes)
    ensures Trim(why) == UPDATE ==> Decides(why)
  {
    UpdateIsOneLine();
    hide Trim, LaterLines, FirstLine, Lines;
  }

  /** A saved beginning or beat reads back as a run that is alive now, a saved
      end as one that is over; each as the whole state that it was called with. */
  lemma SavedReads(file: Option<Bytes>, step: Step)
    requires Overwrites(step)
    ensures After(file, step).Some?
    ensures Parse(After(file, step).value) ==
            match step
            case Begin(now, _) => Some(Run(now, now, false, None))
            case Beat(started, now, _) => Some(Run(started, now, false, None))
            case MarkExited(started, now, _) => Some(Run(started, now, true, None))
            case _ => None
  {
    hide Parse, Render;
    RoundTrip(Wanted(file, step).value);
  }

  /** A saved mark of a live run, for a reason of one line or none, reads back as
      that run ended now, begun when it was. */
  lemma MarkReads(file: Option<Bytes>, why: Bytes, now: U64)
    requires Readable(file) && !Parse(file.value).value.exited && NL !in Trim(why)
    ensures var live := Parse(file.value).value;
            && After(file, MarkStop(why, now, true)).Some?
            && Parse(After(file, MarkStop(why, now, true)).value)
               == Some(Run(live.started, now, true, if |Trim(why)| == 0 then None else Some(Trim(why))))
  {
    TrimIsTrimmed(why);
    hide Parse, Render, Trim;
    RoundTrip(Run(Parse(file.value).value.started, now, true, NonEmpty(Trim(why))));
  }

  /** So the next start reports what the clock says of a run that last saved a
      beginning or a beat, and a clean exit of one that saved its end. */
  lemma VerdictAfterSave(file: Option<Bytes>, step: Step, now: U64, boot: Option<U64>)
    requires Overwrites(step)
    ensures var kind := Verdict(After(file, step), now, boot);
            if step.MarkExited? then kind == CleanExit else ByTheClock(kind, step.now, now, boot)
  {
    hide Parse, Render, After, Verdict, ByTheClock;
    SavedReads(file, step);
    VerdictMeans(After(file, step), now, boot);
  }

  /** A beat after the mark takes it back: the verdict is the clock's again. */
  lemma BeatUndoesTheMark(file: Option<Bytes>, why: Bytes, at: U64, started: U64, beat: U64,
                          now: U64, boot: Option<U64>)
    ensures ByTheClock(
              Verdict(AfterAll(file, [MarkStop(why, at, true), Beat(started, beat, true)]), now, boot), beat, now, boot)
  {
    hide Parse, Render, Trim;
    var mark := MarkStop(why, at, true);
    var second := Beat(started, beat, true);
    assert [mark, second] == [mark] + [second];
    FirstStep(file, mark, [second]);
    assert AfterAll(After(file, mark), [second]) == After(After(file, mark), second);
    VerdictAfterSave(After(file, mark), second, now, boot);
  }

  /** A newline in the reason is written as it is, and the line it starts has no
      `=`: a deliberate stop the next start can only report as a crash. */
  lemma NewlineInReason(started: U64, last: U64, at: U64, now: U64, boot: Option<U64>)
    ensures var file := Some(Render(Run(started, last, false, None)));
            Verdict(After(file, MarkStop([0x61, NL, 0x62], at, true)), now, boot) == Crashed
  {
    hide Parse, Render, Trim;
    RoundTrip(Run(started, last, false, None));
    TwoLines(started, at);
  }

  lemma TwoLines(started: U64, at: U64)
    ensures Trim([0x61, NL, 0x62]) == [0x61, NL, 0x62]
    ensures Parse(Render(Run(started, at, true, Some([0x61, NL, 0x62])))) == None
  {
    hide Render, ReadLines, Lines, Head, Trim;
    var why: Bytes := [0x61, NL, 0x62];
    ShortIsTrimmed(why);
    var marked := Run(started, at, true, Some(why));
    RenderedLines(marked);
    assert ReasonLine(marked) == (Field(REASON, [0x61]) + [NL]) + ([0x62] + [NL]);
    LinesConcat(Field(REASON, [0x61]) + [NL], [0x62] + [NL]);
    LinesOfPlain(Field(REASON, [0x61]));
    LinesOfPlain([0x62]);
    ReadHead(marked, [Field(REASON, [0x61])] + [[0x62]]);
    NoEq(Fields(Some(started), Some(at), true, None));
  }

  lemma ShortIsTrimmed(s: Bytes)
    requires s == [0x61, NL, 0x62]
    ensures Trim(s) == s
  {
    TrimOfTrimmed(s);
  }

  lemma NoEq(f: Fields)
    ensures ReadLines(f, [Field(REASON, [0x61])] + [[0x62]]) == None
  {
    hide Trim, Field;
    KeysAreTrimmed();
    PrintableIsTrimmed([0x61]);
    ReadCons(f, REASON, [0x61], [[0x62]]);
    assert EqAt([0x62]) == 1;
  }

  // ---------------------------------------------------------------- the module

  class RunJournal {
    var file: Option<Bytes>

    constructor (file: Option<Bytes>)
      ensures this.file == file
    {
      this.file := file;
    }

    method Load() returns (run: Option<Run>)
      ensures run == if file.Some? then Parse(file.value) else None
    {
      if file.None? {
        return None;
      }
      run := ParseJournal(file.value);
    }

    method Save(run: Run, saved: bool)
      modifies this
      ensures file == if saved then Some(Render(run)) else old(file)
    {
      if saved {
        file := Some(Render(run));
      }
    }

    method BeginRun(now: U64, boot: Option<U64>, saved: bool) returns (previous: Option<Run>, kind: BootKind)
      modifies this
      ensures previous == if old(file).Some? then Parse(old(file).value) else None
      ensures kind == Verdict(old(file), now, boot)
      ensures kind == FirstRun <==> old(file).None?
      ensures old(file).Some? && previous.None? ==> kind == Crashed
      ensures previous.Some? && !previous.value.exited ==> ByTheClock(kind, previous.value.last, now, boot)
      ensures file == After(old(file), Begin(now, saved))
    {
      VerdictMeans(file, now, boot);
      hide ByTheClock, Parse;
      previous := Load();
      var unreadable := file.Some? && previous.None?;
      kind := if unreadable then Crashed else Classify(previous, now, boot);
      Save(Run(now, now, false, None), saved);
    }

    method BeatOnce(started: U64, now: U64, saved: bool)
      modifies this
      ensures file == After(old(file), Beat(started, now, saved))
    {
      Save(Run(started, now, false, None), saved);
    }

    method MarkDeliberateStop(why: Bytes, now: U64, saved: bool) returns (changed: bool)
      modifies this
      ensures file == After(old(file), MarkStop(why, now, saved))
      ensures changed <==> Wanted(old(file), MarkStop(why, now, saved)).Some?
    {
      hide Render, Trim, Parse;
      var state := Load();
      if state.None? || state.value.exited {
        return false;
      }
      var run := state.value.(exited := true, reason := NonEmpty(Trim(why)), last := now);
      Save(run, saved);
      changed := true;
    }
  }
}
