/** The double-buffered logger of log/AsyncLogging.cc: front-end appenders and one back-end thread
    hand large buffers around under one lock.  Each critical section is one step; between steps any
    thread may move.  Smart pointers may be null, and a step that would dereference null or pop an
    empty vector is not Safe. */
module AsyncLogging {
  import opened FixedBuffers
  import opened Wrappers

  /** A large buffer: its bytes, and (history only) the lines they came from. */
  datatype Buffer = Buffer(data: string, lines: seq<string>)

  const EMPTY := Buffer([], [])

  /** The back end is at the test of running_, about to lock, waiting on the condition variable,
      writing, trimming to two buffers, refilling its two spares, clearing, or gone. */
  datatype Pc = Top | Locking | Waiting | Writing | Trimming | Refilling1 | Refilling2 | Clearing | Ended

  datatype State = State(
    running: bool,
    current: Option<Buffer>,
    next: Option<Buffer>,
    buffers: seq<Option<Buffer>>,
    pc: Pc,
    spare1: Option<Buffer>,
    spare2: Option<Buffer>,
    toWrite: seq<Option<Buffer>>,
    at: nat,                       // the buffer of toWrite to be written next
    file: string,
    // history
    appended: seq<string>,         // every line given to append, in lock order
    written: seq<string>)          // the lines of the buffers written to the file

  datatype Step =
    | Append(line: string)
    | Stop
    | TestRunning
    | Lock
    | Wake
    | WriteOne
    | WriteDone
    | Trim
    | Refill1
    | Refill2
    | Clear

  // ----- steps -----

  function Initial(): State {
    State(true, Some(EMPTY), Some(EMPTY), [], Top, Some(EMPTY), Some(EMPTY), [], 0, [], [], [])
  }

  predicate Fits(b: Buffer, line: string) { LARGE_BUFFER_SIZE - |b.data| > |line| }

  function Store(b: Buffer, line: string): Buffer {
    if Fits(b, line) then Buffer(b.data + line, b.lines + [line]) else b
  }

  predicate Enabled(s: State, step: Step) {
    match step
    case Append(_) => true
    case Stop => s.running
    case TestRunning => s.pc.Top?
    case Lock => s.pc.Locking?
    case Wake => s.pc.Waiting?
    case WriteOne => s.pc.Writing? && s.at < |s.toWrite|
    case WriteDone => s.pc.Writing? && s.at >= |s.toWrite|
    case Trim => s.pc.Trimming?
    case Refill1 => s.pc.Refilling1?
    case Refill2 => s.pc.Refilling2?
    case Clear => s.pc.Clearing?
  }

  /** The step dereferences no null pointer and takes no element from an empty vector. */
  predicate Safe(s: State, step: Step) {
    match step
    case Append(_) => s.current.Some?
    case WriteOne => s.at < |s.toWrite| && s.toWrite[s.at].Some?
    case Refill1 => s.spare1.None? ==> s.toWrite != [] && s.toWrite[|s.toWrite| - 1].Some?
    case Refill2 => s.spare2.None? ==> s.toWrite != [] && s.toWrite[|s.toWrite| - 1].Some?
    case _ => true
  }

  function AppendLine(s: State, line: string): State
    requires s.current.Some?
  {
    var t := s.(appended := s.appended + [line]);
    if Fits(s.current.value, line) then
      t.(current := Some(Store(s.current.value, line)))
    else
      var empty := if s.next.Some? then s.next.value else EMPTY;
      t.(buffers := s.buffers + [s.current], current := Some(Store(empty, line)), next := None)
  }

  /** The end of the back end's critical section. */
  function Exchange(s: State): State {
    s.(buffers := s.toWrite,
       toWrite := s.buffers + [s.current],
       current := s.spare1, spare1 := None,
       next := if s.next.None? then s.spare2 else s.next,
       spare2 := if s.next.None? then None else s.spare2,
       pc := Writing, at := 0)
  }

  function Apply(s: State, step: Step): State
    requires Enabled(s, step) && Safe(s, step)
  {
    match step
    case Append(line) => AppendLine(s, line)
    case Stop => s.(running := false)
    case TestRunning => s.(pc := if s.running then Locking else Ended)
    case Lock => if s.buffers == [] then s.(pc := Waiting) else Exchange(s)
    case Wake => Exchange(s)
    case WriteOne =>
      var b := s.toWrite[s.at].value;
      s.(file := s.file + b.data, written := s.written + b.lines, at := s.at + 1)
    case WriteDone => s.(pc := Trimming)
    case Trim => s.(toWrite := if |s.toWrite| > 2 then s.toWrite[..2] else s.toWrite, pc := Refilling1)
    case Refill1 => (if s.spare1.Some? then s else
                     s.(spare1 := Some(EMPTY), toWrite := s.toWrite[..|s.toWrite| - 1])).(pc := Refilling2)
    case Refill2 => (if s.spare2.Some? then s else
                     s.(spare2 := Some(EMPTY), toWrite := s.toWrite[..|s.toWrite| - 1])).(pc := Clearing)
    case Clear => s.(toWrite := [], at := 0, pc := Top)
  }

  ghost predicate Next(s: State, t: State) {
    exists step :: Enabled(s, step) && Safe(s, step) && t == Apply(s, step)
  }

  ghost predicate StepAt(b: seq<State>, i: nat) { i + 1 < |b| && Next(b[i], b[i + 1]) }

  ghost predicate Run(b: seq<State>) {
    b != [] && b[0] == Initial() && forall i: nat {:trigger StepAt(b, i)} :: i + 1 < |b| ==> StepAt(b, i)
  }

  // ----- ownership -----

  predicate AllThere(bs: seq<Option<Buffer>>) { forall i :: 0 <= i < |bs| ==> bs[i].Some? }

  predicate EmptyOrNone(b: Option<Buffer>) { b.Some? ==> b.value == EMPTY }

  /** The counting argument that spans both threads: a spare is missing only when a full buffer
      took its place. */
  predicate Owned(s: State) {
    && s.current.Some?
    && (s.next.None? ==> s.buffers != [])
    && AllThere(s.buffers) && AllThere(s.toWrite)
    && EmptyOrNone(s.next) && EmptyOrNone(s.spare1) && EmptyOrNone(s.spare2)
    && match s.pc
       case Top => s.spare1.Some? && s.spare2.Some? && s.toWrite == []
       case Locking => s.spare1.Some? && s.spare2.Some? && s.toWrite == []
       case Waiting => s.spare1.Some? && s.spare2.Some? && s.toWrite == []
       case Writing => s.spare1.None? && |s.toWrite| >= (if s.spare2.None? then 2 else 1)
       case Trimming => s.spare1.None? && |s.toWrite| >= (if s.spare2.None? then 2 else 1)
       case Refilling1 => s.spare1.None? && |s.toWrite| >= (if s.spare2.None? then 2 else 1)
       case Refilling2 => s.spare1.Some? && (s.spare2.None? ==> s.toWrite != [])
       case Clearing => s.spare1.Some? && s.spare2.Some?
       case Ended => true
  }

  lemma OwnedIsSafe(s: State, step: Step)
    requires Owned(s) && Enabled(s, step)
    ensures Safe(s, step)
  {
  }

  lemma AppendOwned(s: State, line: string)
    requires Owned(s)
    ensures Owned(AppendLine(s, line))
  {
  }

  lemma ExchangeOwned(s: State)
    requires Owned(s) && (s.pc.Locking? || s.pc.Waiting?)
    ensures Owned(Exchange(s))
  {
  }

  lemma StepOwned(s: State, step: Step)
    requires Owned(s) && Enabled(s, step) && Safe(s, step)
    ensures Owned(Apply(s, step))
  {
    match step
    case Append(line) => AppendOwned(s, line);
    case Lock => if s.buffers != [] { ExchangeOwned(s); }
    case Wake => ExchangeOwned(s);
    case _ =>
  }

  // ----- conservation -----

  function Flatten(lines: seq<string>): string {
    if lines == [] then [] else Flatten(lines[..|lines| - 1]) + lines[|lines| - 1]
  }

  lemma {:induction false} FlattenConcat(a: seq<string>, b: seq<string>)
    ensures Flatten(a + b) == Flatten(a) + Flatten(b)
    decreases |b|
  {
    if b == [] {
      assert a + b == a;
    } else {
      var front, last := b[..|b| - 1], b[|b| - 1];
      assert (a + b)[..|a + b| - 1] == a + front && (a + b)[|a + b| - 1] == last;
      FlattenConcat(a, front);
      assert Flatten(a) + Flatten(front) + last == Flatten(a) + (Flatten(front) + last);
    }
  }

  /** The lines a buffer can hold at all; longer ones FixedBuffer::append drops. */
  function Kept(lines: seq<string>): seq<string> {
    if lines == [] then []
    else
      var front, line := Kept(lines[..|lines| - 1]), lines[|lines| - 1];
      if |line| < LARGE_BUFFER_SIZE then front + [line] else front
  }

  function LinesIn(bs: seq<Option<Buffer>>): seq<string> {
    if bs == [] then []
    else LinesIn(bs[..|bs| - 1]) + (if bs[|bs| - 1].Some? then bs[|bs| - 1].value.lines else [])
  }

  /** The lines the back end has taken over and not yet written. */
  function Batch(s: State): seq<string> {
    if s.pc.Writing? && s.at <= |s.toWrite| then LinesIn(s.toWrite[s.at..]) else []
  }

  /** The lines on their way to the file, in order: rest of the batch, full buffers, current buffer. */
  function InFlight(s: State): seq<string> { Batch(s) + LinesIn(s.buffers) + LinesIn([s.current]) }

  /** The bytes of a buffer are whole lines. */
  predicate WholeLines(b: Buffer) { b.data == Flatten(b.lines) && |b.data| <= LARGE_BUFFER_SIZE }

  predicate AllWhole(bs: seq<Option<Buffer>>) { forall i :: 0 <= i < |bs| ==> bs[i].Some? ==> WholeLines(bs[i].value) }

  predicate Conserved(s: State) {
    && s.written + InFlight(s) == Kept(s.appended)
    && s.file == Flatten(s.written)
    && AllWhole(s.buffers) && AllWhole(s.toWrite) && AllWhole([s.current])
    && (s.pc.Writing? ==> s.at <= |s.toWrite|)
  }

  lemma {:induction false} LinesInConcat(a: seq<Option<Buffer>>, b: seq<Option<Buffer>>)
    ensures LinesIn(a + b) == LinesIn(a) + LinesIn(b)
    decreases |b|
  {
    if b == [] {
      assert a + b == a;
    } else {
      assert (a + b)[..|a + b| - 1] == a + b[..|b| - 1];
      LinesInConcat(a, b[..|b| - 1]);
    }
  }

  lemma OneBuffer(b: Buffer)
    ensures LinesIn([Some(b)]) == b.lines
  {
    assert [Some(b)][..0] == [];
  }

  lemma KeptSnoc(lines: seq<string>, line: string)
    ensures Kept(lines + [line]) == Kept(lines) + (if |line| < LARGE_BUFFER_SIZE then [line] else [])
  {
    assert (lines + [line])[..|lines|] == lines;
  }

  lemma StoreWhole(b: Buffer, line: string)
    requires WholeLines(b)
    ensures WholeLines(Store(b, line)) && Store(b, line).data == Appended(LARGE_BUFFER_SIZE, b.data, line)
  {
    assert (b.lines + [line])[..|b.lines|] == b.lines;
  }

  lemma Regroup<T>(a: seq<T>, x: seq<T>, b: seq<T>, c: seq<T>, d: seq<T>)
    ensures a + (x + b + c + d) == a + x + (b + c + d)
    ensures a + (b + c + (d + x)) == a + (b + c + d) + x
    ensures a + (b + (c + d) + x) == a + (b + c + d) + x
  {
  }

  lemma AppendCurrent(s: State, line: string)
    requires Owned(s) && Conserved(s) && Fits(s.current.value, line)
    ensures Conserved(AppendLine(s, line))
  {
    var t := AppendLine(s, line);
    KeptSnoc(s.appended, line);
    OneBuffer(s.current.value);
    OneBuffer(t.current.value);
    assert WholeLines([s.current][0].value);
    StoreWhole(s.current.value, line);
    Regroup(s.written, [line], Batch(s), LinesIn(s.buffers), s.current.value.lines);
  }

  lemma AppendFresh(s: State, line: string)
    requires Owned(s) && Conserved(s) && !Fits(s.current.value, line)
    ensures Conserved(AppendLine(s, line))
  {
    var t := AppendLine(s, line);
    KeptSnoc(s.appended, line);
    OneBuffer(s.current.value);
    OneBuffer(t.current.value);
    assert WholeLines([s.current][0].value);
    StoreWhole(EMPTY, line);
    LinesInConcat(s.buffers, [s.current]);
    Regroup(s.written, t.current.value.lines, Batch(s), LinesIn(s.buffers), s.current.value.lines);
  }

  lemma ExchangeConserved(s: State)
    requires Owned(s) && Conserved(s) && (s.pc.Locking? || s.pc.Waiting?)
    ensures Conserved(Exchange(s))
  {
    var t := Exchange(s);
    ExchangeInFlight(s);
    forall i | 0 <= i < |t.toWrite| ensures WholeLines(t.toWrite[i].value) {
      if i == |s.buffers| { assert t.toWrite[i] == [s.current][0]; }
    }
    assert AllWhole([t.current]);
  }

  lemma ExchangeInFlight(s: State)
    requires Owned(s) && (s.pc.Locking? || s.pc.Waiting?)
    ensures InFlight(Exchange(s)) == InFlight(s)
  {
    var t := Exchange(s);
    LinesInConcat(s.buffers, [s.current]);
    OneBuffer(EMPTY);
    assert t.toWrite[0..] == t.toWrite && t.buffers == [] && Batch(s) == [];
    assert Batch(t) == LinesIn(s.buffers) + LinesIn([s.current]);
  }

  lemma WriteConserved(s: State)
    requires Owned(s) && Conserved(s) && Enabled(s, WriteOne) && Safe(s, WriteOne)
    ensures Conserved(Apply(s, WriteOne))
  {
    var b := s.toWrite[s.at].value;
    BatchHead(s);
    FlattenConcat(s.written, b.lines);
    Regroup(s.written, b.lines, LinesIn(s.toWrite[s.at + 1..]), LinesIn(s.buffers), LinesIn([s.current]));
  }

  lemma BatchHead(s: State)
    requires s.pc.Writing? && s.at < |s.toWrite| && s.toWrite[s.at].Some?
    ensures Batch(s) == s.toWrite[s.at].value.lines + LinesIn(s.toWrite[s.at + 1..])
  {
    assert s.toWrite[s.at..] == [s.toWrite[s.at]] + s.toWrite[s.at + 1..];
    LinesInConcat([s.toWrite[s.at]], s.toWrite[s.at + 1..]);
    OneBuffer(s.toWrite[s.at].value);
  }

  /** A step that neither appends, nor exchanges, nor writes. */
  lemma QuietConserved(s: State, t: State)
    requires Conserved(s) && t.appended == s.appended && t.written == s.written && t.file == s.file
    requires t.buffers == s.buffers && t.current == s.current && Batch(t) == Batch(s)
    requires AllWhole(t.toWrite) && (t.pc.Writing? ==> t.at <= |t.toWrite|)
    ensures Conserved(t)
  {
  }

  lemma WriteDoneConserved(s: State)
    requires Conserved(s) && Enabled(s, WriteDone)
    ensures Conserved(Apply(s, WriteDone))
  {
    assert s.toWrite[s.at..] == [];
    QuietConserved(s, Apply(s, WriteDone));
  }

  /** Trimming and refilling take buffers that have been written. */
  lemma TailConserved(s: State, step: Step)
    requires Owned(s) && Conserved(s) && Enabled(s, step) && Safe(s, step)
    requires step.Trim? || step.Refill1? || step.Refill2? || step.Clear?
    ensures Conserved(Apply(s, step))
  {
    assert Apply(s, step).toWrite <= s.toWrite;
    QuietConserved(s, Apply(s, step));
  }

  lemma StepConserved(s: State, step: Step)
    requires Owned(s) && Conserved(s) && Enabled(s, step) && Safe(s, step)
    ensures Conserved(Apply(s, step))
  {
    match step
    case Append(line) => if Fits(s.current.value, line) { AppendCurrent(s, line); } else { AppendFresh(s, line); }
    case Lock =>
      if s.buffers != [] { ExchangeConserved(s); } else { QuietConserved(s, Apply(s, step)); }
    case Wake => ExchangeConserved(s);
    case WriteOne => WriteConserved(s);
    case WriteDone => WriteDoneConserved(s);
    case Stop => QuietConserved(s, Apply(s, step));
    case TestRunning => QuietConserved(s, Apply(s, step));
    case _ => TailConserved(s, step);
  }

  predicate Good(s: State) { Owned(s) && Conserved(s) }

  lemma InitialGood()
    ensures Good(Initial())
  {
    OneBuffer(EMPTY);
  }

  lemma NextGood(s: State, t: State)
    requires Good(s) && Next(s, t)
    ensures Good(t)
  {
    var step :| Enabled(s, step) && Safe(s, step) && t == Apply(s, step);
    StepOwned(s, step);
    StepConserved(s, step);
  }

  lemma {:induction false} RunInvariant(b: seq<State>, i: nat)
    requires Run(b) && i < |b|
    ensures Good(b[i])
  {
    if i == 0 {
      InitialGood();
    } else {
      RunInvariant(b, i - 1);
      assert StepAt(b, i - 1);
      NextGood(b[i - 1], b[i]);
    }
  }

  // ----- the theorems -----

  /** In no interleaving does an appender see a null currentBuffer_, is a null buffer written, or
      does the back end take a buffer from an empty vector. */
  lemma NeverUnsafe(b: seq<State>, i: nat, step: Step)
    requires Run(b) && i < |b| && Enabled(b[i], step)
    ensures Safe(b[i], step)
  {
    RunInvariant(b, i);
    OwnedIsSafe(b[i], step);
  }

  /** While the lock is free nextBuffer_ is missing only if some buffer is full, and both spares are
      there whenever the back end is at the top of its loop. */
  lemma SparesAreThere(b: seq<State>, i: nat)
    requires Run(b) && i < |b|
    ensures b[i].next.None? ==> b[i].buffers != []
    ensures b[i].pc.Top? ==> b[i].spare1.Some? && b[i].spare2.Some?
  {
    RunInvariant(b, i);
  }

  /** At every moment the lines written and the lines on their way are, in lock order, exactly the
      lines shorter than a large buffer; the file holds whole lines. */
  lemma NothingLostOrReordered(b: seq<State>, i: nat)
    requires Run(b) && i < |b|
    ensures b[i].written + InFlight(b[i]) == Kept(b[i].appended)
    ensures b[i].file == Flatten(b[i].written)
  {
    RunInvariant(b, i);
  }

  // ----- stop() -----

  /** The lines that are with the front end: in full buffers and in the current one. */
  function AtFront(s: State): seq<string> { LinesIn(s.buffers) + LinesIn([s.current]) }

  /** The back end has seen running_ set and not yet taken over the front end's buffers. */
  predicate AboutToSwap(s: State) { s.pc.Locking? || s.pc.Waiting? }

  lemma {:induction false} AppendedGrows(b: seq<State>, i: nat, j: nat)
    requires Run(b) && i <= j < |b|
    ensures |b[i].appended| <= |b[j].appended|
    decreases j
  {
    if i < j {
      AppendedGrows(b, i, j - 1);
      assert StepAt(b, j - 1);
    }
  }

  /** Once running_ is cleared and nobody appends, the back end at most finishes the pass it is in. */
  lemma StoppingStep(s: State, step: Step)
    requires Owned(s) && !s.running && Enabled(s, step) && Safe(s, step)
    requires |Apply(s, step).appended| == |s.appended|
    ensures var t := Apply(s, step); !t.running && (AboutToSwap(t) ==> AboutToSwap(s))
    ensures var t := Apply(s, step); AtFront(t) == if AboutToSwap(s) && !AboutToSwap(t) then [] else AtFront(s)
  {
    OneBuffer(EMPTY);
  }

  /** What has become of a stopped state by the time of `t`: `swap` tells whether the exchange of
      buffers was still to come, and `front` what was with the front end. */
  predicate StoppedSince(swap: bool, front: seq<string>, t: State) {
    !t.running && if AboutToSwap(t) || !swap then AboutToSwap(t) == swap && AtFront(t) == front else AtFront(t) == []
  }

  lemma StoppingAt(b: seq<State>, swap: bool, front: seq<string>, i: nat)
    requires Run(b) && i + 1 < |b| && StoppedSince(swap, front, b[i]) && |b[i + 1].appended| == |b[i].appended|
    ensures StoppedSince(swap, front, b[i + 1])
  {
    RunInvariant(b, i);
    assert StepAt(b, i);
    var step :| Enabled(b[i], step) && Safe(b[i], step) && b[i + 1] == Apply(b[i], step);
    StoppingStep(b[i], step);
  }

  lemma {:induction false} StoppingRun(b: seq<State>, swap: bool, front: seq<string>, j: nat, i: nat)
    requires Run(b) && j <= i < |b| && |b[i].appended| == |b[j].appended| && StoppedSince(swap, front, b[j])
    ensures StoppedSince(swap, front, b[i])
    decreases i
  {
    if j < i {
      AppendedGrows(b, j, i - 1);
      AppendedGrows(b, i - 1, i);
      StoppingRun(b, swap, front, j, i - 1);
      StoppingAt(b, swap, front, i - 1);
    }
  }

  /** When the back end has gone and nobody appended after stop(), every line is in the file exactly
      if stop() found the back end between its test of running_ and the exchange of buffers, or found
      nothing with the front end. */
  lemma StopDrainsIff(b: seq<State>, j: nat, i: nat)
    requires Run(b) && j < i < |b| && b[j].running && b[j + 1] == Apply(b[j], Stop)
    requires b[i].pc.Ended? && b[i].appended == b[j].appended
    ensures b[i].written == Kept(b[i].appended) <==> AboutToSwap(b[j]) || AtFront(b[j]) == []
  {
    StoppingRun(b, AboutToSwap(b[j]), AtFront(b[j]), j + 1, i);
    EndedAt(b, i);
  }

  /** The back end takes over the buffers between states `k` and `k + 1`. */
  predicate ExchangeAt(b: seq<State>, k: nat) { k + 1 < |b| && AboutToSwap(b[k]) && !AboutToSwap(b[k + 1]) }

  /** `j` is the start of the run or the end of an exchange. */
  predicate JustExchanged(b: seq<State>, j: nat) { j == 0 || ExchangeAt(b, j - 1) }

  function From(lines: seq<string>, n: nat): seq<string> { if n <= |lines| then lines[n..] else [] }

  /** The front end has what was appended after the first `n` lines. */
  predicate Collected(n: nat, s: State) { n <= |s.appended| && AtFront(s) == Kept(From(s.appended, n)) }

  lemma AppendedFront(s: State, line: string)
    requires Owned(s) && AllWhole([s.current])
    ensures AtFront(AppendLine(s, line)) == AtFront(s) + if |line| < LARGE_BUFFER_SIZE then [line] else []
  {
    var t := AppendLine(s, line);
    OneBuffer(s.current.value);
    OneBuffer(t.current.value);
    LinesInConcat(s.buffers, [s.current]);
    assert WholeLines([s.current][0].value);
  }

  lemma KeptFromSnoc(lines: seq<string>, n: nat, line: string)
    requires n <= |lines|
    ensures Kept(From(lines + [line], n)) == Kept(From(lines, n)) + if |line| < LARGE_BUFFER_SIZE then [line] else []
  {
    assert From(lines + [line], n) == From(lines, n) + [line];
    KeptSnoc(From(lines, n), line);
  }

  lemma AppendCollects(n: nat, s: State, line: string)
    requires Good(s) && Collected(n, s)
    ensures Collected(n, AppendLine(s, line))
  {
    AppendedFront(s, line);
    KeptFromSnoc(s.appended, n, line);
  }

  /** A step other than append and exchange leaves the front end alone. */
  lemma FrontStep(s: State, step: Step)
    requires Owned(s) && Enabled(s, step) && Safe(s, step) && !step.Append?
    ensures var t := Apply(s, step);
            && t.appended == s.appended
            && AtFront(t) == if AboutToSwap(s) && !AboutToSwap(t) then [] else AtFront(s)
  {
    OneBuffer(EMPTY);
  }

  lemma NextCollects(n: nat, s: State, t: State)
    requires Good(s) && Next(s, t) && Collected(n, s) && (AboutToSwap(s) ==> AboutToSwap(t))
    ensures Collected(n, t)
  {
    var step :| Enabled(s, step) && Safe(s, step) && t == Apply(s, step);
    if step.Append? { AppendCollects(n, s, step.line); } else { FrontStep(s, step); }
  }

  lemma ExchangedCollects(s: State, t: State)
    requires Good(s) && Next(s, t) && AboutToSwap(s) && !AboutToSwap(t)
    ensures Collected(|t.appended|, t)
  {
    var step :| Enabled(s, step) && Safe(s, step) && t == Apply(s, step);
    FrontStep(s, step);
  }

  lemma CollectedFirst(b: seq<State>, j: nat)
    requires Run(b) && j < |b| && JustExchanged(b, j)
    ensures Collected(|b[j].appended|, b[j])
  {
    if j == 0 {
      OneBuffer(EMPTY);
    } else {
      RunInvariant(b, j - 1);
      assert StepAt(b, j - 1);
      ExchangedCollects(b[j - 1], b[j]);
    }
  }

  lemma {:induction false} CollectedSince(b: seq<State>, j: nat, i: nat)
    requires Run(b) && j <= i < |b| && JustExchanged(b, j) && forall k: nat :: j <= k < i ==> !ExchangeAt(b, k)
    ensures Collected(|b[j].appended|, b[i])
    decreases i
  {
    if i == j {
      CollectedFirst(b, j);
    } else {
      CollectedSince(b, j, i - 1);
      assert !ExchangeAt(b, i - 1);
      RunInvariant(b, i - 1);
      assert StepAt(b, i - 1);
      NextCollects(|b[j].appended|, b[i - 1], b[i]);
    }
  }

  /** In general, when the back end has gone, every line is in the file exactly if none that a buffer can
      hold was appended after the last exchange of buffers. */
  lemma EndedDrainsIff(b: seq<State>, j: nat, i: nat)
    requires Run(b) && j <= i < |b| && b[i].pc.Ended?
    requires JustExchanged(b, j) && forall k: nat :: j <= k < i ==> !ExchangeAt(b, k)
    ensures b[i].written == Kept(b[i].appended) <==> Kept(From(b[i].appended, |b[j].appended|)) == []
  {
    CollectedSince(b, j, i);
    EndedAt(b, i);
  }

  lemma EndedAt(b: seq<State>, i: nat)
    requires Run(b) && i < |b| && b[i].pc.Ended?
    ensures b[i].written == Kept(b[i].appended) <==> AtFront(b[i]) == []
  {
    RunInvariant(b, i);
    assert b[i].written + AtFront(b[i]) == Kept(b[i].appended);
  }

  /** So the promise ends with the back end: after stop() a line can stay in a buffer for good. */
  lemma StopCanStrandALine(line: string) returns (b: seq<State>)
    requires |line| < LARGE_BUFFER_SIZE
    ensures Run(b) && Last(b).pc.Ended? && Last(b).appended == [line] && Last(b).file == []
  {
    var s := Initial();
    var t := Apply(s, Append(line));
    var u := Apply(t, Stop);
    var v := Apply(u, TestRunning);
    b := [s, t, u, v];
    assert Next(s, t) && Next(t, u) && Next(u, v);
    assert StepAt(b, 0) && StepAt(b, 1) && StepAt(b, 2);
  }

  function Last(b: seq<State>): State
    requires b != []
  {
    b[|b| - 1]
  }

  // ----- a line that is appended gets written -----

  /** append() hands over its line, and only that, behind all lines so far; no other step does. */
  lemma AppendedByAppends(s: State, step: Step)
    requires Enabled(s, step) && Safe(s, step)
    ensures Apply(s, step).appended == s.appended + if step.Append? then [step.line] else []
  {
  }

  /** When its wait is over, or when it finds a full buffer at once, the back end takes over everything
      that the front end has. */
  predicate TakesOver(s: State, t: State) {
    (s.pc.Waiting? && !t.pc.Waiting?) || (s.pc.Locking? && !t.pc.Locking? && s.buffers != [])
  }

  lemma ExchangeTakesAll(s: State)
    requires Owned(s) && AboutToSwap(s)
    ensures Batch(Exchange(s)) == AtFront(s) && AtFront(Exchange(s)) == []
  {
    OneBuffer(EMPTY);
    LinesInConcat(s.buffers, [s.current]);
    assert Exchange(s).toWrite[0..] == Exchange(s).toWrite;
  }

  lemma TakeoverExchanges(s: State, t: State)
    requires Next(s, t) && TakesOver(s, t)
    ensures AboutToSwap(s) && t == Exchange(s)
  {
  }

  lemma AllAtFront(s: State)
    requires Conserved(s) && !s.pc.Writing?
    ensures Batch(s) == [] && s.written + AtFront(s) == Kept(s.appended)
  {
    assert [] + LinesIn(s.buffers) + LinesIn([s.current]) == AtFront(s);
  }

  lemma NextTakesOver(s: State, t: State)
    requires Good(s) && Next(s, t) && TakesOver(s, t)
    ensures Batch(t) == AtFront(s) && AtFront(t) == [] && t.written + Batch(t) == Kept(s.appended)
  {
    TakeoverExchanges(s, t);
    ExchangeTakesAll(s);
    AllAtFront(s);
  }

  /** In every run: what the front end had when the back end's wait ended is the back end's batch. */
  lemma WaitEndsInTakeover(b: seq<State>, i: nat)
    requires Run(b) && i + 1 < |b| && TakesOver(b[i], b[i + 1])
    ensures Batch(b[i + 1]) == AtFront(b[i]) && AtFront(b[i + 1]) == []
  {
    RunInvariant(b, i);
    assert StepAt(b, i);
    NextTakesOver(b[i], b[i + 1]);
  }

  lemma TakeoverTakesAll(b: seq<State>, i: nat)
    requires Run(b) && i + 1 < |b| && TakesOver(b[i], b[i + 1])
    ensures b[i + 1].written + Batch(b[i + 1]) == Kept(b[i].appended)
  {
    RunInvariant(b, i);
    assert StepAt(b, i);
    NextTakesOver(b[i], b[i + 1]);
  }

  lemma Associate<T>(a: seq<T>, b: seq<T>, c: seq<T>)
    ensures a + (b + c) == a + b + c
  {
  }

  lemma WriteOneKeeps(s: State)
    requires Enabled(s, WriteOne) && Safe(s, WriteOne)
    ensures var t := Apply(s, WriteOne); s.written + Batch(s) == t.written + Batch(t)
  {
    BatchHead(s);
    Associate(s.written, s.toWrite[s.at].value.lines, LinesIn(s.toWrite[s.at + 1..]));
  }

  /** A step other than writing keeps the batch, if there is one. */
  lemma OtherStepKeeps(s: State, step: Step)
    requires Good(s) && Enabled(s, step) && Safe(s, step) && !step.WriteOne?
    ensures Apply(s, step).written == s.written && (Batch(s) == [] || Batch(Apply(s, step)) == Batch(s))
  {
    if step.WriteDone? { assert s.toWrite[s.at..] == []; }
  }

  lemma PrefixSum<T>(w: seq<T>, a: seq<T>, b: seq<T>)
    requires a == [] || a == b
    ensures w + a <= w + b
  {
  }

  /** What is written or about to be only grows. */
  lemma StepWrites(s: State, step: Step)
    requires Good(s) && Enabled(s, step) && Safe(s, step)
    ensures s.written + Batch(s) <= Apply(s, step).written + Batch(Apply(s, step))
  {
    if step.WriteOne? {
      WriteOneKeeps(s);
    } else {
      OtherStepKeeps(s, step);
      PrefixSum(s.written, Batch(s), Batch(Apply(s, step)));
    }
  }

  lemma NextWrites(s: State, t: State)
    requires Good(s) && Next(s, t)
    ensures s.written + Batch(s) <= t.written + Batch(t)
  {
    var step :| Enabled(s, step) && Safe(s, step) && t == Apply(s, step);
    StepWrites(s, step);
  }

  lemma {:induction false} WritesGrow(b: seq<State>, i: nat, j: nat)
    requires Run(b) && i <= j < |b|
    ensures b[i].written + Batch(b[i]) <= b[j].written + Batch(b[j])
    decreases j
  {
    if i < j {
      WritesGrow(b, i, j - 1);
      RunInvariant(b, j - 1);
      assert StepAt(b, j - 1);
      NextWrites(b[j - 1], b[j]);
    }
  }

  /** Everything appended up to that moment is in the file when the back end is next at its loop top. */
  lemma TakenOverIsWritten(b: seq<State>, i: nat, j: nat)
    requires Run(b) && i + 1 < j < |b| && TakesOver(b[i], b[i + 1]) && b[j].pc.Top?
    ensures Kept(b[i].appended) <= b[j].written && Flatten(Kept(b[i].appended)) <= b[j].file
  {
    TakeoverTakesAll(b, i);
    WritesGrow(b, i + 1, j);
    WrittenAtTop(b, j);
    FlattenPrefix(Kept(b[i].appended), b[j].written);
  }

  lemma WrittenAtTop(b: seq<State>, j: nat)
    requires Run(b) && j < |b| && b[j].pc.Top?
    ensures b[j].written + Batch(b[j]) == b[j].written && b[j].file == Flatten(b[j].written)
  {
    RunInvariant(b, j);
  }

  lemma FlattenPrefix(a: seq<string>, b: seq<string>)
    requires a <= b
    ensures Flatten(a) <= Flatten(b)
  {
    assert b == a + b[|a|..];
    FlattenConcat(a, b[|a|..]);
  }

  /** So a line that fits, appended at step `k`, is written in its place after the next takeover. */
  lemma AppendedLineIsWritten(b: seq<State>, k: nat, line: string, i: nat, j: nat)
    requires Run(b) && k < i && i + 1 < j < |b| && TakesOver(b[i], b[i + 1]) && b[j].pc.Top?
    requires Enabled(b[k], Append(line)) && Safe(b[k], Append(line)) && b[k + 1] == Apply(b[k], Append(line))
    requires |line| < LARGE_BUFFER_SIZE
    ensures Kept(b[k].appended) + [line] <= b[j].written
  {
    AppendedByAppends(b[k], Append(line));
    KeptSnoc(b[k].appended, line);
    AppendedPrefix(b, k + 1, i);
    KeptPrefix(b[k + 1].appended, b[i].appended);
    TakenOverIsWritten(b, i, j);
  }

  lemma {:induction false} AppendedPrefix(b: seq<State>, i: nat, j: nat)
    requires Run(b) && i <= j < |b|
    ensures b[i].appended <= b[j].appended
    decreases j
  {
    if i < j {
      AppendedPrefix(b, i, j - 1);
      assert StepAt(b, j - 1);
    }
  }

  lemma {:induction false} KeptPrefix(a: seq<string>, b: seq<string>)
    requires a <= b
    ensures Kept(a) <= Kept(b)
    decreases |b|
  {
    if a != b {
      KeptPrefix(a, b[..|b| - 1]);
    }
  }

  // ----- how many buffers there are -----

  function Count(b: Option<Buffer>): nat { if b.Some? then 1 else 0 }

  /** The buffers that either thread has. */
  function Held(s: State): nat {
    |s.buffers| + |s.toWrite| + Count(s.current) + Count(s.next) + Count(s.spare1) + Count(s.spare2)
  }

  /** append allocates a buffer only if the line does not fit and nextBuffer_ is gone; the back end
      allocates none, keeps at most two of those it has written, and waits unless one is full. */
  lemma StepBuffers(s: State, step: Step)
    requires Owned(s) && Enabled(s, step) && Safe(s, step)
    ensures var t := Apply(s, step);
            match step
            case Append(line) => Held(t) == Held(s) + if !Fits(s.current.value, line) && s.next.None? then 1 else 0
            case Trim => |t.toWrite| == (if |s.toWrite| > 2 then 2 else |s.toWrite|) && Held(t) <= Held(s)
            case Clear => t.toWrite == [] && Held(t) == Held(s) - |s.toWrite|
            case Lock => Held(t) == Held(s) && (t.pc.Waiting? <==> s.buffers == [])
            case _ => Held(t) == Held(s)
  {
  }

  // ----- and nothing keeps the back end from it -----

  ghost predicate Path(b: seq<State>) {
    b != [] && forall i: nat {:trigger StepAt(b, i)} :: i + 1 < |b| ==> StepAt(b, i)
  }

  lemma Joined(a: seq<State>, b: seq<State>) returns (r: seq<State>)
    requires Path(a) && Path(b) && Last(a) == b[0]
    ensures Path(r) && r[0] == a[0] && Last(r) == Last(b)
  {
    r := a + b[1..];
    forall i: nat | i + 1 < |r| ensures StepAt(r, i) {
      if i + 1 < |a| { assert StepAt(a, i); } else { assert StepAt(b, i + 1 - |a|); }
    }
  }

  /** One more step of a path. */
  lemma Then(a: seq<State>, step: Step) returns (r: seq<State>)
    requires Path(a) && Good(Last(a)) && Enabled(Last(a), step)
    ensures Safe(Last(a), step) && Path(r) && r[0] == a[0] && Last(r) == Apply(Last(a), step) && Good(Last(r))
  {
    OwnedIsSafe(Last(a), step);
    var b := [Last(a), Apply(Last(a), step)];
    assert Next(b[0], b[1]);
    assert StepAt(b, 0);
    r := Joined(a, b);
    NextGood(b[0], b[1]);
  }

  /** The front end is where it was. */
  predicate SameFront(s: State, t: State) {
    t.appended == s.appended && t.buffers == s.buffers && t.current == s.current
  }

  /** The rest of a batch can be written. */
  lemma {:induction false} BatchWrites(a: seq<State>) returns (r: seq<State>)
    requires Path(a) && Good(Last(a)) && Last(a).pc.Writing?
    ensures Path(r) && r[0] == a[0] && Good(Last(r)) && Last(r).pc.Trimming? && SameFront(Last(a), Last(r))
    decreases |Last(a).toWrite| - Last(a).at
  {
    if Last(a).at < |Last(a).toWrite| {
      r := Then(a, WriteOne);
      r := BatchWrites(r);
    } else {
      r := Then(a, WriteDone);
    }
  }

  lemma TakeoverPossible(s: State) returns (b: seq<State>)
    requires Good(s) && s.pc.Top? && s.running
    ensures Path(b) && b[0] == s && Good(Last(b)) && Last(b).pc.Writing? && Last(b).appended == s.appended
    ensures AtFront(Last(b)) == []
  {
    b := Then([s], TestRunning);
    b := Then(b, Lock);
    if Last(b).pc.Waiting? {
      ExchangeTakesAll(Last(b));
      b := Then(b, Wake);
    } else {
      ExchangeTakesAll(s.(pc := Locking));
    }
  }

  lemma SpareRefillPossible(a: seq<State>) returns (r: seq<State>)
    requires Path(a) && Good(Last(a)) && Last(a).pc.Trimming?
    ensures Path(r) && r[0] == a[0] && Good(Last(r)) && Last(r).pc.Top? && SameFront(Last(a), Last(r))
  {
    r := Then(a, Trim);
    r := Then(r, Refill1);
    r := Then(r, Refill2);
    r := Then(r, Clear);
  }

  /** From its loop top a running back end can always get to its next one by itself, having written every
      line that fits a buffer. */
  lemma PassPossible(s: State) returns (b: seq<State>)
    requires Good(s) && s.pc.Top? && s.running
    ensures Path(b) && b[0] == s && Last(b).pc.Top? && Last(b).written == Kept(s.appended)
  {
    b := TakeoverPossible(s);
    b := BatchWrites(b);
    b := SpareRefillPossible(b);
    AllAtFront(Last(b));
  }
}
