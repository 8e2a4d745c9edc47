/** The three-stage loader as a step system: one reader that shuffles lines, a pool of parsers and a pool of
    handlers, joined by two bounded channels, with a `done` channel, a wait group and four shared counters.
    A step is one channel operation or one counter update of one goroutine; any interleaving is a run. */
module Loader {

  import opened Options

  /** `parse` maps a trimmed line to the subject of its record, or fails; `fingerprint` hashes a subject. */
  datatype Config = Config(
    shuffle: nat, inputCap: nat, cnqCap: nat, parsers: nat, handlers: nat,
    parse: string -> Option<string>, fingerprint: string -> nat, mod: nat)

  predicate ValidConfig(c: Config) {
    c.shuffle > 0 && c.inputCap > 0 && c.cnqCap > 0 && c.parsers > 0 && c.handlers > 0 && c.mod > 0
  }

  /** The sizes the program uses; only the number of parsers depends on the machine. */
  function ProgramConfig(parsers: nat, parse: string -> Option<string>, fingerprint: string -> nat, mod: nat): Config {
    Config(1000, 10000, 10000, parsers, 3000, parse, fingerprint, mod)
  }

  //
  // Lines
  //

  predicate IsBlankChar(c: char) {
    c == ' ' || c == '\t'
  }

  function TrimLeft(s: string): string {
    if s != "" && IsBlankChar(s[0]) then TrimLeft(s[1..]) else s
  }

  function TrimRight(s: string): string {
    if s != "" && IsBlankChar(s[|s| - 1]) then TrimRight(s[..|s| - 1]) else s
  }

  function Trim(s: string): string {
    TrimRight(TrimLeft(s))
  }

  predicate Blank(line: string) {
    Trim(line) == ""
  }

  lemma {:induction false} TrimLeftSpan(s: string) returns (i: nat)
    ensures i <= |s| && TrimLeft(s) == s[i..] && forall k :: 0 <= k < i ==> s[k] == ' ' || s[k] == '\t'
    ensures i < |s| ==> s[i] != ' ' && s[i] != '\t'
  {
    if s != "" && IsBlankChar(s[0]) {
      i := TrimLeftSpan(s[1..]);
      i := i + 1;
    } else {
      i := 0;
    }
  }

  lemma {:induction false} TrimRightSpan(s: string) returns (n: nat)
    ensures n <= |s| && TrimRight(s) == s[..n] && forall k :: n <= k < |s| ==> s[k] == ' ' || s[k] == '\t'
    ensures n > 0 ==> s[n - 1] != ' ' && s[n - 1] != '\t'
    decreases |s|
  {
    if s != "" && IsBlankChar(s[|s| - 1]) {
      n := TrimRightSpan(s[..|s| - 1]);
      assert s[..|s| - 1][..n] == s[..n];
    } else {
      n := |s|;
    }
  }

  /** What is trimmed off are the spaces and tabs at both ends, all of them and nothing else. */
  lemma TrimSpan(s: string) returns (i: nat, j: nat)
    ensures i <= j <= |s| && Trim(s) == s[i..j]
    ensures forall k :: 0 <= k < i || j <= k < |s| ==> s[k] == ' ' || s[k] == '\t'
    ensures i < j ==> s[i] != ' ' && s[i] != '\t' && s[j - 1] != ' ' && s[j - 1] != '\t'
    ensures Blank(s) <==> forall k :: 0 <= k < |s| ==> s[k] == ' ' || s[k] == '\t'
  {
    i := TrimLeftSpan(s);
    var n := TrimRightSpan(s[i..]);
    j := i + n;
    assert s[i..][..n] == s[i..j];
    forall k | j <= k < |s|
      ensures s[k] == ' ' || s[k] == '\t'
    {
      assert s[i..][k - i] == s[k];
    }
    assert i < j ==> s[i..][n - 1] == s[j - 1];
  }

  predicate Parses(c: Config, line: string) {
    !Blank(line) && c.parse(Trim(line)).Some?
  }

  /** Records of other subjects are ignored. */
  predicate Sampled(c: Config, line: string)
    requires ValidConfig(c)
  {
    Parses(c, line) && c.fingerprint(c.parse(Trim(line)).value) % c.mod == 0
  }

  //
  // States
  //

  datatype Reader = Filling | Streaming | Replacing(k: nat) | Draining(next: nat) | Closed
  datatype Parser = Idle | Sending(line: string) | Counting | Reporting(ok: bool) | Stopped(ok: bool)
  datatype Handler = Ready | Handling(line: string) | Finished
  datatype MainThread = Collecting(received: nat) | Waiting | Returned | Died | Panicked

  /** A record travels as the line it was parsed from. The last four fields are history. */
  datatype State = State(
    pending: seq<string>, buf: seq<string>, reader: Reader,
    input: seq<string>, inputClosed: bool,
    parsers: seq<Parser>, done: seq<bool>,
    cnq: seq<string>, cnqClosed: bool,
    handlers: seq<Handler>, wg: int,
    main: MainThread,
    read: nat, parsed: nat, processed: nat, ignored: nat,
    skipped: multiset<string>, dropped: multiset<string>,
    processedLines: multiset<string>, ignoredLines: multiset<string>)

  function Init(c: Config, lines: seq<string>): State {
    State(lines, [], Filling, [], false, seq(c.parsers, _ => Idle), [], [], false,
          seq(c.handlers, _ => Ready), c.handlers, Collecting(0), 0, 0, 0, 0,
          multiset{}, multiset{}, multiset{}, multiset{})
  }

  datatype Step =
    | Fill | StartStreaming | Shuffle(k: nat) | Replace | StartDraining | Drain | CloseInput | ReadError
    | Take(p: nat) | SendRecord(p: nat) | CountParsed(p: nat) | StopParser(p: nat) | Report(p: nat)
    | TakeRecord(h: nat) | Handle(h: nat) | StopHandler(h: nat) | HandlerError(h: nat)
    | Collect | CloseRecords | Return

  predicate Final(s: State) {
    s.main.Returned? || s.main.Died? || s.main.Panicked?
  }

  /** A send waits for room, unless the channel is closed: then it goes ahead and panics. */
  predicate CanSend<T>(channel: seq<T>, capacity: nat, closed: bool) {
    |channel| < capacity || closed
  }

  predicate ReaderEnabled(c: Config, s: State, step: Step) {
    match step
    case Fill => s.reader.Filling? && s.pending != [] && |s.buf| < c.shuffle
    case StartStreaming => s.reader.Filling? && (s.pending == [] || |s.buf| >= c.shuffle)
    case Shuffle(k) => s.reader.Streaming? && s.pending != [] && (k < |s.buf| || s.buf == [])
                       && CanSend(s.input, c.inputCap, s.inputClosed)
    case Replace => s.reader.Replacing? && s.pending != [] && s.reader.k < |s.buf|
    case StartDraining => s.reader.Streaming? && s.pending == []
    case Drain => s.reader.Draining? && s.reader.next < |s.buf| && CanSend(s.input, c.inputCap, s.inputClosed)
    case CloseInput => s.reader.Draining? && s.reader.next >= |s.buf|
    case ReadError => s.reader.Filling? || s.reader.Streaming?
    case _ => false
  }

  predicate ParserEnabled(c: Config, s: State, step: Step) {
    match step
    case Take(p) => p < |s.parsers| && s.parsers[p].Idle? && s.input != []
    case SendRecord(p) => p < |s.parsers| && s.parsers[p].Sending? && CanSend(s.cnq, c.cnqCap, s.cnqClosed)
    case CountParsed(p) => p < |s.parsers| && s.parsers[p].Counting?
    case StopParser(p) => p < |s.parsers| && s.parsers[p].Idle? && s.input == [] && s.inputClosed
    case Report(p) => p < |s.parsers| && s.parsers[p].Reporting? && |s.done| < c.parsers
    case _ => false
  }

  predicate HandlerEnabled(c: Config, s: State, step: Step)
    requires ValidConfig(c)
  {
    match step
    case TakeRecord(h) => h < |s.handlers| && s.handlers[h].Ready? && s.cnq != []
    case Handle(h) => h < |s.handlers| && s.handlers[h].Handling?
    case StopHandler(h) => h < |s.handlers| && s.handlers[h].Ready? && s.cnq == [] && s.cnqClosed
    case HandlerError(h) => h < |s.handlers| && s.handlers[h].Handling? && Sampled(c, s.handlers[h].line)
    case _ => false
  }

  predicate MainEnabled(c: Config, s: State, step: Step) {
    match step
    case Collect => s.main.Collecting? && s.main.received < c.parsers && s.done != []
    case CloseRecords => s.main.Collecting? && s.main.received >= c.parsers
    case Return => s.main.Waiting? && s.wg == 0
    case _ => false
  }

  predicate Enabled(c: Config, s: State, step: Step)
    requires ValidConfig(c)
  {
    && !Final(s)
    && (ReaderEnabled(c, s, step) || ParserEnabled(c, s, step) || HandlerEnabled(c, s, step) || MainEnabled(c, s, step))
  }

  function ReaderStep(c: Config, s: State, step: Step): State
    requires ReaderEnabled(c, s, step)
  {
    match step
    case Fill => s.(buf := s.buf + [s.pending[0]], pending := s.pending[1..])
    case StartStreaming => s.(reader := Streaming)
    case Shuffle(k) =>
      if s.buf == [] || s.inputClosed then s.(main := Panicked)
      else s.(input := s.input + [s.buf[k]], reader := Replacing(k))
    case Replace =>
      s.(buf := s.buf[s.reader.k := s.pending[0]], pending := s.pending[1..], reader := Streaming, read := s.read + 1)
    case StartDraining => s.(reader := Draining(0))
    case Drain =>
      if s.inputClosed then s.(main := Panicked)
      else s.(input := s.input + [s.buf[s.reader.next]], reader := Draining(s.reader.next + 1))
    case CloseInput =>
      if s.inputClosed then s.(main := Panicked) else s.(inputClosed := true, reader := Closed)
    case ReadError => s.(main := Died)
  }

  function ParserStep(c: Config, s: State, step: Step): State
    requires ParserEnabled(c, s, step)
  {
    match step
    case Take(p) =>
      var line := s.input[0];
      var t := s.(input := s.input[1..]);
      if Blank(line) then t.(skipped := t.skipped + multiset{line})
      else if Parses(c, line) then t.(parsers := s.parsers[p := Sending(line)])
      else t.(parsers := s.parsers[p := Reporting(false)], dropped := t.dropped + multiset{line})
    case SendRecord(p) =>
      if s.cnqClosed then s.(main := Panicked)
      else s.(cnq := s.cnq + [s.parsers[p].line], parsers := s.parsers[p := Counting])
    case CountParsed(p) => s.(parsers := s.parsers[p := Idle], parsed := s.parsed + 1)
    case StopParser(p) => s.(parsers := s.parsers[p := Reporting(true)])
    case Report(p) => s.(parsers := s.parsers[p := Stopped(s.parsers[p].ok)], done := s.done + [s.parsers[p].ok])
  }

  function HandlerStep(c: Config, s: State, step: Step): State
    requires ValidConfig(c) && HandlerEnabled(c, s, step)
  {
    match step
    case TakeRecord(h) => s.(cnq := s.cnq[1..], handlers := s.handlers[h := Handling(s.cnq[0])])
    case Handle(h) =>
      var line := s.handlers[h].line;
      var t := s.(handlers := s.handlers[h := Ready]);
      if Sampled(c, line) then t.(processed := s.processed + 1, processedLines := s.processedLines + multiset{line})
      else t.(ignored := s.ignored + 1, ignoredLines := s.ignoredLines + multiset{line})
    case StopHandler(h) =>
      if s.wg <= 0 then s.(main := Panicked) else s.(handlers := s.handlers[h := Finished], wg := s.wg - 1)
    case HandlerError(h) => s.(main := Died)
  }

  function MainStep(c: Config, s: State, step: Step): State
    requires MainEnabled(c, s, step)
  {
    match step
    case Collect =>
      s.(done := s.done[1..], main := if s.done[0] then Collecting(s.main.received + 1) else Died)
    case CloseRecords => if s.cnqClosed then s.(main := Panicked) else s.(cnqClosed := true, main := Waiting)
    case Return => s.(main := Returned)
  }

  function Apply(c: Config, s: State, step: Step): State
    requires ValidConfig(c) && Enabled(c, s, step)
  {
    if ReaderEnabled(c, s, step) then ReaderStep(c, s, step)
    else if ParserEnabled(c, s, step) then ParserStep(c, s, step)
    else if HandlerEnabled(c, s, step) then HandlerStep(c, s, step)
    else MainStep(c, s, step)
  }

  predicate Run(c: Config, s: State, steps: seq<Step>, t: State)
    requires ValidConfig(c)
    decreases |steps|
  {
    if steps == [] then s == t
    else Enabled(c, s, steps[0]) && Run(c, Apply(c, s, steps[0]), steps[1..], t)
  }

  //
  // Counting goroutines by what they are doing
  //

  function Bit(b: bool): nat {
    if b then 1 else 0
  }

  function Count<T>(s: seq<T>, f: T -> bool): nat {
    if s == [] then 0 else Count(s[..|s| - 1], f) + Bit(f(s[|s| - 1]))
  }

  lemma {:induction false} CountUpdate<T>(s: seq<T>, i: nat, v: T, f: T -> bool)
    requires i < |s|
    ensures Count(s[i := v], f) == Count(s, f) - Bit(f(s[i])) + Bit(f(v))
    decreases |s|
  {
    var n := |s| - 1;
    if i < n {
      assert s[i := v][..n] == s[..n][i := v];
      CountUpdate(s[..n], i, v, f);
    } else {
      assert s[i := v][..n] == s[..n];
    }
  }

  lemma {:induction false} CountAll<T>(s: seq<T>, f: T -> bool)
    ensures Count(s, f) <= |s|
    ensures Count(s, f) == |s| <==> forall i :: 0 <= i < |s| ==> f(s[i])
    ensures Count(s, f) == 0 <==> forall i :: 0 <= i < |s| ==> !f(s[i])
    decreases |s|
  {
    if s != [] {
      var n := |s| - 1;
      CountAll(s[..n], f);
      assert forall i :: 0 <= i < n ==> s[..n][i] == s[i];
    }
  }

  function SendsLine(x: string): Parser -> bool { (p: Parser) => p.Sending? && p.line == x }
  predicate IsCounting(p: Parser) { p.Counting? }
  predicate IsStopped(p: Parser) { p.Stopped? }
  predicate HasEnded(p: Parser) { (p.Reporting? || p.Stopped?) && p.ok }
  predicate HasFailed(p: Parser) { (p.Reporting? || p.Stopped?) && !p.ok }
  predicate StoppedFailed(p: Parser) { p.Stopped? && !p.ok }
  function HandlesLine(x: string): Handler -> bool { (h: Handler) => h.Handling? && h.line == x }
  predicate IsHandling(h: Handler) { h.Handling? }
  predicate IsUnfinished(h: Handler) { !h.Finished? }
  predicate IsFailure(ok: bool) { !ok }

  //
  // Invariants
  //

  /** Past the first lines, the buffer is full or the input was shorter than it. */
  predicate BufferFull(c: Config, s: State) {
    |s.buf| == c.shuffle || (s.pending == [] && s.read == 0)
  }

  predicate ReaderInv(c: Config, total: nat, s: State) {
    && |s.buf| <= c.shuffle && |s.buf| + |s.pending| + s.read == total
    && (s.inputClosed <==> s.reader.Closed?)
    && match s.reader
       case Filling => s.read == 0
       case Streaming => BufferFull(c, s)
       case Replacing(k) => BufferFull(c, s) && s.pending != [] && k < |s.buf|
       case Draining(next) => BufferFull(c, s) && s.pending == [] && next <= |s.buf|
       case Closed => BufferFull(c, s) && s.pending == []
  }

  predicate ControlInv(c: Config, s: State) {
    && |s.parsers| == c.parsers && |s.handlers| == c.handlers
    && |s.dropped| == Count(s.parsers, HasFailed)
    && (Count(s.parsers, HasEnded) > 0 ==> s.inputClosed && s.input == [])
    && s.wg == Count(s.handlers, IsUnfinished)
    && (s.wg < c.handlers ==> s.cnqClosed && s.cnq == [])
    && match s.main
       case Collecting(received) =>
         && !s.cnqClosed && received + |s.done| == Count(s.parsers, IsStopped)
         && Count(s.done, IsFailure) == Count(s.parsers, StoppedFailed)
       case Died => true
       case Panicked => false
       case _ =>
         && s.cnqClosed && Count(s.parsers, IsStopped) == c.parsers && Count(s.parsers, StoppedFailed) == 0
         && s.done == [] && (s.main.Returned? ==> s.wg == 0)
  }

  /** The buffered lines that are not yet sent. */
  function Unsent(s: State): seq<string> {
    match s.reader
    case Replacing(k) => if k < |s.buf| then s.buf[..k] + s.buf[k + 1..] else []
    case Draining(next) => if next <= |s.buf| then s.buf[next..] else []
    case Closed => []
    case _ => s.buf
  }

  function Occurs(s: seq<string>, x: string): nat {
    multiset(s)[x]
  }

  /** How many copies of line `x` there are, wherever they are. */
  function Copies(s: State, x: string): nat {
    Occurs(s.pending, x) + Occurs(Unsent(s), x) + Occurs(s.input, x) + Count(s.parsers, SendsLine(x))
    + s.skipped[x] + s.dropped[x]
    + Occurs(s.cnq, x) + Count(s.handlers, HandlesLine(x)) + s.processedLines[x] + s.ignoredLines[x]
  }

  ghost predicate CopiesInv(lines: seq<string>, s: State) {
    forall x :: Copies(s, x) == Occurs(lines, x)
  }

  /** Records sent are those counted as parsed and those whose count is still to come; each is queued, in a
      handler, or counted as processed or ignored. */
  predicate CounterInv(s: State) {
    && |s.cnq| + Count(s.handlers, IsHandling) + s.processed + s.ignored == s.parsed + Count(s.parsers, IsCounting)
    && s.processed == |s.processedLines| && s.ignored == |s.ignoredLines|
  }

  ghost predicate Each(m: multiset<string>, kind: string -> bool) {
    forall x :: x in m ==> kind(x)
  }

  function BlankLine(): string -> bool {
    x => Blank(x)
  }

  function BadLine(c: Config): string -> bool {
    x => !Blank(x) && !Parses(c, x)
  }

  function SampledLine(c: Config): string -> bool
    requires ValidConfig(c)
  {
    x => Sampled(c, x)
  }

  function IgnoredLine(c: Config): string -> bool
    requires ValidConfig(c)
  {
    x => Parses(c, x) && !Sampled(c, x)
  }

  predicate QueueParses(c: Config, cnq: seq<string>) {
    forall i :: 0 <= i < |cnq| ==> Parses(c, cnq[i])
  }

  predicate ParsersParse(c: Config, ps: seq<Parser>) {
    forall i :: 0 <= i < |ps| && ps[i].Sending? ==> Parses(c, ps[i].line)
  }

  predicate HandlersParse(c: Config, hs: seq<Handler>) {
    forall i :: 0 <= i < |hs| && hs[i].Handling? ==> Parses(c, hs[i].line)
  }

  /** Every line is where its kind says it should go. */
  ghost predicate KindInv(c: Config, s: State)
    requires ValidConfig(c)
  {
    && Each(s.skipped, BlankLine()) && Each(s.dropped, BadLine(c))
    && QueueParses(c, s.cnq) && ParsersParse(c, s.parsers) && HandlersParse(c, s.handlers)
    && Each(s.processedLines, SampledLine(c)) && Each(s.ignoredLines, IgnoredLine(c))
  }

  ghost predicate Inv(c: Config, lines: seq<string>, s: State)
    requires ValidConfig(c)
  {
    ReaderInv(c, |lines|, s) && ControlInv(c, s) && CopiesInv(lines, s) && CounterInv(s) && KindInv(c, s)
  }

  lemma InitHolds(c: Config, lines: seq<string>)
    requires ValidConfig(c)
    ensures Inv(c, lines, Init(c, lines))
  {
    hide Count, Occurs;
    var s := Init(c, lines);
    CountAll(s.parsers, HasFailed);
    CountAll(s.parsers, HasEnded);
    CountAll(s.parsers, IsStopped);
    CountAll(s.parsers, IsCounting);
    CountAll(s.parsers, StoppedFailed);
    CountAll(s.handlers, IsUnfinished);
    CountAll(s.handlers, IsHandling);
    forall x
      ensures Copies(s, x) == Occurs(lines, x)
    {
      OccursNone(x);
      CountAll(s.parsers, SendsLine(x));
      CountAll(s.handlers, HandlesLine(x));
    }
    CountAll(s.done, IsFailure);
  }

  lemma OccursNone(x: string)
    ensures Occurs([], x) == 0
  {
  }

  lemma ReaderStepKeeps(c: Config, total: nat, s: State, step: Step)
    requires ValidConfig(c) && ReaderInv(c, total, s) && ReaderEnabled(c, s, step)
    ensures ReaderInv(c, total, ReaderStep(c, s, step)) && (ReaderStep(c, s, step).main == s.main || step.ReadError?)
  {
  }

  lemma ReaderUntouched(c: Config, total: nat, s: State, step: Step)
    requires ValidConfig(c) && ReaderInv(c, total, s) && Enabled(c, s, step) && !ReaderEnabled(c, s, step)
    ensures ReaderInv(c, total, Apply(c, s, step))
  {
    hide ReaderInv, ReaderEnabled, ParserEnabled, HandlerEnabled, MainEnabled, ParserStep, HandlerStep, MainStep;
    if ParserEnabled(c, s, step) {
      ParserLeavesReader(c, s, step);
    } else if HandlerEnabled(c, s, step) {
      HandlerLeavesReader(c, s, step);
    } else {
      MainLeavesReader(c, s, step);
    }
    ReaderFrame(c, total, s, Apply(c, s, step));
  }

  predicate SameReader(s: State, t: State) {
    && t.pending == s.pending && t.buf == s.buf && t.reader == s.reader
    && t.inputClosed == s.inputClosed && t.read == s.read
  }

  lemma ParserLeavesReader(c: Config, s: State, step: Step)
    requires ParserEnabled(c, s, step)
    ensures SameReader(s, ParserStep(c, s, step))
  {
    hide Blank, Parses;
  }

  lemma HandlerLeavesReader(c: Config, s: State, step: Step)
    requires ValidConfig(c) && HandlerEnabled(c, s, step)
    ensures SameReader(s, HandlerStep(c, s, step))
  {
    hide Sampled;
  }

  lemma MainLeavesReader(c: Config, s: State, step: Step)
    requires MainEnabled(c, s, step)
    ensures SameReader(s, MainStep(c, s, step))
  {
  }

  lemma ReaderFrame(c: Config, total: nat, s: State, t: State)
    requires ReaderInv(c, total, s) && SameReader(s, t)
    ensures ReaderInv(c, total, t)
  {
  }

  lemma ParserCounts(ps: seq<Parser>, p: nat, v: Parser)
    requires p < |ps|
    ensures Count(ps[p := v], HasFailed) == Count(ps, HasFailed) - Bit(HasFailed(ps[p])) + Bit(HasFailed(v))
    ensures Count(ps[p := v], HasEnded) == Count(ps, HasEnded) - Bit(HasEnded(ps[p])) + Bit(HasEnded(v))
    ensures Count(ps[p := v], IsStopped) == Count(ps, IsStopped) - Bit(IsStopped(ps[p])) + Bit(IsStopped(v))
    ensures Count(ps[p := v], IsCounting) == Count(ps, IsCounting) - Bit(IsCounting(ps[p])) + Bit(IsCounting(v))
    ensures Count(ps[p := v], StoppedFailed) ==
            Count(ps, StoppedFailed) - Bit(StoppedFailed(ps[p])) + Bit(StoppedFailed(v))
  {
    CountUpdate(ps, p, v, HasFailed);
    CountUpdate(ps, p, v, HasEnded);
    CountUpdate(ps, p, v, IsStopped);
    CountUpdate(ps, p, v, IsCounting);
    CountUpdate(ps, p, v, StoppedFailed);
  }

  lemma HandlerCounts(hs: seq<Handler>, h: nat, v: Handler)
    requires h < |hs|
    ensures Count(hs[h := v], IsHandling) == Count(hs, IsHandling) - Bit(IsHandling(hs[h])) + Bit(IsHandling(v))
    ensures Count(hs[h := v], IsUnfinished) == Count(hs, IsUnfinished) - Bit(IsUnfinished(hs[h])) + Bit(IsUnfinished(v))
  {
    CountUpdate(hs, h, v, IsHandling);
    CountUpdate(hs, h, v, IsUnfinished);
  }

  lemma CountAppend<T>(s: seq<T>, v: T, f: T -> bool)
    ensures Count(s + [v], f) == Count(s, f) + Bit(f(v))
  {
    assert (s + [v])[..|s|] == s;
  }

  lemma {:induction false} CountTail<T>(s: seq<T>, f: T -> bool)
    requires s != []
    ensures Count(s, f) == Count(s[1..], f) + Bit(f(s[0]))
    decreases |s|
  {
    var n := |s| - 1;
    if n > 0 {
      CountTail(s[..n], f);
      assert s[1..][..n - 1] == s[..n][1..];
    }
  }

  lemma CountMember<T>(s: seq<T>, i: nat, f: T -> bool)
    requires i < |s|
    ensures f(s[i]) ==> Count(s, f) > 0
    ensures !f(s[i]) ==> Count(s, f) < |s|
  {
    CountAll(s, f);
  }

  /** While a parser has not reported, the main goroutine still collects, so both channels it may use are open. */
  lemma ActiveParser(c: Config, s: State, p: nat)
    requires ControlInv(c, s) && p < |s.parsers| && !s.parsers[p].Stopped? && !Final(s)
    ensures s.main.Collecting? && !s.cnqClosed && |s.done| < c.parsers
  {
    hide Count;
    CountMember(s.parsers, p, IsStopped);
  }

  lemma TakeControl(c: Config, s: State, p: nat)
    requires ValidConfig(c) && ControlInv(c, s) && !Final(s) && ParserEnabled(c, s, Take(p))
    ensures ControlInv(c, ParserStep(c, s, Take(p))) && ParserStep(c, s, Take(p)).main == s.main
  {
    hide Count, Blank, Parses;
    ActiveParser(c, s, p);
    ParserCounts(s.parsers, p, Sending(s.input[0]));
    ParserCounts(s.parsers, p, Reporting(false));
  }

  lemma ReportControl(c: Config, s: State, p: nat)
    requires ValidConfig(c) && ControlInv(c, s) && !Final(s) && ParserEnabled(c, s, Report(p))
    ensures ControlInv(c, ParserStep(c, s, Report(p))) && ParserStep(c, s, Report(p)).main == s.main
  {
    hide Count;
    ActiveParser(c, s, p);
    ParserCounts(s.parsers, p, Stopped(s.parsers[p].ok));
    CountAppend(s.done, s.parsers[p].ok, IsFailure);
  }

  lemma ParserStepControl(c: Config, s: State, step: Step)
    requires ValidConfig(c) && ControlInv(c, s) && !Final(s) && ParserEnabled(c, s, step)
    ensures ControlInv(c, ParserStep(c, s, step)) && ParserStep(c, s, step).main == s.main
  {
    hide Count, Blank, Parses;
    ActiveParser(c, s, step.p);
    match step {
      case Take(p) => TakeControl(c, s, p);
      case SendRecord(p) => ParserCounts(s.parsers, p, Counting);
      case CountParsed(p) => ParserCounts(s.parsers, p, Idle);
      case StopParser(p) => ParserCounts(s.parsers, p, Reporting(true));
      case Report(p) => ReportControl(c, s, p);
    }
  }

  lemma HandlerStepControl(c: Config, s: State, step: Step)
    requires ValidConfig(c) && ControlInv(c, s) && !Final(s) && HandlerEnabled(c, s, step)
    ensures ControlInv(c, HandlerStep(c, s, step)) && (HandlerStep(c, s, step).main == s.main || step.HandlerError?)
  {
    hide Count, Sampled;
    var h := step.h;
    var t := HandlerStep(c, s, step);
    CountMember(s.handlers, h, IsUnfinished);
    if t.handlers != s.handlers {
      HandlerCounts(s.handlers, h, t.handlers[h]);
    }
  }

  lemma MainStepControl(c: Config, s: State, step: Step)
    requires ValidConfig(c) && ControlInv(c, s) && !Final(s) && MainEnabled(c, s, step)
    ensures ControlInv(c, MainStep(c, s, step))
  {
    hide Count;
    CountAll(s.parsers, IsStopped);
    if step.Collect? {
      CountTail(s.done, IsFailure);
    } else if step.CloseRecords? {
      CountAll(s.done, IsFailure);
    }
  }

  lemma ReaderStepControl(c: Config, total: nat, s: State, step: Step)
    requires ValidConfig(c) && ReaderInv(c, total, s) && ControlInv(c, s) && !Final(s) && ReaderEnabled(c, s, step)
    ensures ControlInv(c, ReaderStep(c, s, step))
  {
    hide Count;
    CountAll(s.parsers, HasEnded);
  }

  /** No goroutine ever sends on a closed channel, closes one twice or overdraws the wait group. */
  lemma StepKeepsControl(c: Config, total: nat, s: State, step: Step)
    requires ValidConfig(c) && ReaderInv(c, total, s) && ControlInv(c, s) && Enabled(c, s, step)
    ensures ReaderInv(c, total, Apply(c, s, step)) && ControlInv(c, Apply(c, s, step))
  {
    hide ReaderInv, ControlInv, ReaderStep, ParserStep, HandlerStep, MainStep;
    hide ReaderEnabled, ParserEnabled, HandlerEnabled, MainEnabled;
    if ReaderEnabled(c, s, step) {
      ReaderStepKeeps(c, total, s, step);
      ReaderStepControl(c, total, s, step);
    } else {
      ReaderUntouched(c, total, s, step);
      if ParserEnabled(c, s, step) {
        ParserStepControl(c, s, step);
      } else if HandlerEnabled(c, s, step) {
        HandlerStepControl(c, s, step);
      } else {
        MainStepControl(c, s, step);
      }
    }
  }

  //
  // Nothing is lost, duplicated or invented
  //

  lemma OccursWithout(s: seq<string>, k: nat, x: string)
    requires k < |s|
    ensures Occurs(s, x) == Occurs(s[..k] + s[k + 1..], x) + Occurs([s[k]], x)
  {
    assert s == s[..k] + [s[k]] + s[k + 1..];
  }

  lemma OccursHead(s: seq<string>, x: string)
    requires s != []
    ensures Occurs(s, x) == Occurs(s[1..], x) + Occurs([s[0]], x)
  {
    assert s == [s[0]] + s[1..];
  }

  lemma OccursAppend(s: seq<string>, line: string, x: string)
    ensures Occurs(s + [line], x) == Occurs(s, x) + Occurs([line], x)
  {
  }

  lemma OccursOne(line: string, x: string)
    ensures Occurs([line], x) == (if line == x then 1 else 0) == multiset{line}[x]
  {
  }

  lemma ReplaceCopies(c: Config, total: nat, s: State, x: string)
    requires ReaderInv(c, total, s) && ReaderEnabled(c, s, Replace)
    ensures Copies(ReaderStep(c, s, Replace), x) == Copies(s, x)
  {
    hide Count, Occurs;
    var k, buf := s.reader.k, s.buf[s.reader.k := s.pending[0]];
    OccursHead(s.pending, x);
    OccursWithout(buf, k, x);
    assert buf[..k] == s.buf[..k] && buf[k + 1..] == s.buf[k + 1..];
  }

  lemma DrainCopies(c: Config, total: nat, s: State, x: string)
    requires ReaderInv(c, total, s) && ReaderEnabled(c, s, Drain)
    ensures Copies(ReaderStep(c, s, Drain), x) == Copies(s, x)
  {
    hide Count, Occurs;
    var rest := s.buf[s.reader.next..];
    OccursHead(rest, x);
    OccursAppend(s.input, rest[0], x);
    assert rest[1..] == s.buf[s.reader.next + 1..];
  }

  lemma ReaderStepCopies(c: Config, total: nat, s: State, step: Step, x: string)
    requires ValidConfig(c) && ReaderInv(c, total, s) && ReaderEnabled(c, s, step)
    ensures Copies(ReaderStep(c, s, step), x) == Copies(s, x)
  {
    hide Count, Occurs;
    match step {
      case Fill =>
        OccursHead(s.pending, x);
        OccursAppend(s.buf, s.pending[0], x);
      case Shuffle(k) =>
        if k < |s.buf| {
          OccursWithout(s.buf, k, x);
          OccursAppend(s.input, s.buf[k], x);
        }
      case Replace => ReplaceCopies(c, total, s, x);
      case StartDraining => assert s.buf[0..] == s.buf;
      case Drain => DrainCopies(c, total, s, x);
      case CloseInput => assert s.buf[s.reader.next..] == [];
      case _ =>
    }
  }

  lemma TakeCopies(c: Config, s: State, p: nat, x: string)
    requires ValidConfig(c) && ParserEnabled(c, s, Take(p))
    ensures Copies(ParserStep(c, s, Take(p)), x) == Copies(s, x)
  {
    hide Count, Blank, Parses, Unsent, Occurs;
    var t, line := ParserStep(c, s, Take(p)), s.input[0];
    CountUpdate(s.parsers, p, t.parsers[p], SendsLine(x));
    assert s.parsers[p := s.parsers[p]] == s.parsers;
    OccursHead(s.input, x);
    OccursOne(line, x);
    SameUnsent(s, t);
  }

  lemma ParserStepCopies(c: Config, s: State, step: Step, x: string)
    requires ValidConfig(c) && ParserEnabled(c, s, step)
    ensures Copies(ParserStep(c, s, step), x) == Copies(s, x)
  {
    hide Count, Blank, Parses, Unsent, Occurs;
    if step.Take? {
      TakeCopies(c, s, step.p, x);
    } else {
      var t, p := ParserStep(c, s, step), step.p;
      CountUpdate(s.parsers, p, t.parsers[p], SendsLine(x));
      assert t.parsers == s.parsers[p := t.parsers[p]];
      if step.SendRecord? {
        OccursAppend(s.cnq, s.parsers[p].line, x);
        OccursOne(s.parsers[p].line, x);
      }
      SameUnsent(s, t);
    }
  }

  lemma TakeRecordCopies(c: Config, s: State, h: nat, x: string)
    requires ValidConfig(c) && HandlerEnabled(c, s, TakeRecord(h))
    ensures Copies(HandlerStep(c, s, TakeRecord(h)), x) == Copies(s, x)
  {
    hide Count, Sampled, Unsent, Occurs;
    CountUpdate(s.handlers, h, Handling(s.cnq[0]), HandlesLine(x));
    OccursHead(s.cnq, x);
    OccursOne(s.cnq[0], x);
    SameUnsent(s, HandlerStep(c, s, TakeRecord(h)));
  }

  lemma HandleCopies(c: Config, s: State, h: nat, x: string)
    requires ValidConfig(c) && HandlerEnabled(c, s, Handle(h))
    ensures Copies(HandlerStep(c, s, Handle(h)), x) == Copies(s, x)
  {
    hide Count, Sampled, Unsent, Occurs;
    CountUpdate(s.handlers, h, Ready, HandlesLine(x));
    SameUnsent(s, HandlerStep(c, s, Handle(h)));
  }

  lemma HandlerStepCopies(c: Config, s: State, step: Step, x: string)
    requires ValidConfig(c) && HandlerEnabled(c, s, step)
    ensures Copies(HandlerStep(c, s, step), x) == Copies(s, x)
  {
    hide Count, Sampled, Unsent, Occurs;
    match step {
      case TakeRecord(h) => TakeRecordCopies(c, s, h, x);
      case Handle(h) => HandleCopies(c, s, h, x);
      case StopHandler(h) =>
        CountUpdate(s.handlers, h, Finished, HandlesLine(x));
        SameUnsent(s, HandlerStep(c, s, step));
      case HandlerError(h) => SameUnsent(s, HandlerStep(c, s, step));
    }
  }

  lemma SameUnsent(s: State, t: State)
    requires t.reader == s.reader && t.buf == s.buf
    ensures Unsent(t) == Unsent(s)
  {
  }

  lemma StepKeepsCopies(c: Config, lines: seq<string>, s: State, step: Step)
    requires ValidConfig(c) && ReaderInv(c, |lines|, s) && CopiesInv(lines, s) && Enabled(c, s, step)
    ensures CopiesInv(lines, Apply(c, s, step))
  {
    hide ReaderInv, ReaderStep, ParserStep, HandlerStep, ReaderEnabled, ParserEnabled, HandlerEnabled, Copies;
    forall x
      ensures Copies(Apply(c, s, step), x) == Occurs(lines, x)
    {
      if ReaderEnabled(c, s, step) {
        ReaderStepCopies(c, |lines|, s, step, x);
      } else if ParserEnabled(c, s, step) {
        ParserStepCopies(c, s, step, x);
      } else if HandlerEnabled(c, s, step) {
        HandlerStepCopies(c, s, step, x);
      } else {
        MainStepCopies(c, s, step, x);
      }
    }
  }

  lemma MainStepCopies(c: Config, s: State, step: Step, x: string)
    requires MainEnabled(c, s, step)
    ensures Copies(MainStep(c, s, step), x) == Copies(s, x)
  {
    hide Count, Unsent, Occurs;
    SameUnsent(s, MainStep(c, s, step));
  }

  lemma TakeCounters(c: Config, s: State, p: nat)
    requires ValidConfig(c) && CounterInv(s) && ParserEnabled(c, s, Take(p))
    ensures CounterInv(ParserStep(c, s, Take(p)))
  {
    hide Count, Blank, Parses;
    CountUpdate(s.parsers, p, Sending(s.input[0]), IsCounting);
    CountUpdate(s.parsers, p, Reporting(false), IsCounting);
  }

  lemma ParserStepCounters(c: Config, s: State, step: Step)
    requires ValidConfig(c) && CounterInv(s) && ParserEnabled(c, s, step)
    ensures CounterInv(ParserStep(c, s, step))
  {
    hide Count, Blank, Parses;
    match step {
      case Take(p) => TakeCounters(c, s, p);
      case SendRecord(p) => CountUpdate(s.parsers, p, Counting, IsCounting);
      case CountParsed(p) => CountUpdate(s.parsers, p, Idle, IsCounting);
      case StopParser(p) => CountUpdate(s.parsers, p, Reporting(true), IsCounting);
      case Report(p) => CountUpdate(s.parsers, p, Stopped(s.parsers[p].ok), IsCounting);
    }
  }

  lemma HandlerStepCounters(c: Config, s: State, step: Step)
    requires ValidConfig(c) && CounterInv(s) && HandlerEnabled(c, s, step)
    ensures CounterInv(HandlerStep(c, s, step))
  {
    hide Count, Sampled;
    match step {
      case TakeRecord(h) => HandlerCounts(s.handlers, h, Handling(s.cnq[0]));
      case Handle(h) => HandlerCounts(s.handlers, h, Ready);
      case StopHandler(h) => HandlerCounts(s.handlers, h, Finished);
      case HandlerError(h) =>
    }
  }

  lemma StepKeepsCounters(c: Config, s: State, step: Step)
    requires ValidConfig(c) && CounterInv(s) && Enabled(c, s, step)
    ensures CounterInv(Apply(c, s, step))
  {
    hide Count, ParserStep, HandlerStep;
    if !ReaderEnabled(c, s, step) && ParserEnabled(c, s, step) {
      ParserStepCounters(c, s, step);
    } else if !ReaderEnabled(c, s, step) && HandlerEnabled(c, s, step) {
      HandlerStepCounters(c, s, step);
    }
  }

  lemma StepKeepsKinds(c: Config, s: State, step: Step)
    requires ValidConfig(c) && KindInv(c, s) && Enabled(c, s, step)
    ensures KindInv(c, Apply(c, s, step))
  {
    hide Blank, Parses, Sampled, ParserStep, HandlerStep, KindInv;
    if ReaderEnabled(c, s, step) {
      KindsUntouched(c, s, Apply(c, s, step));
    } else if ParserEnabled(c, s, step) {
      ParserStepKinds(c, s, step);
    } else if HandlerEnabled(c, s, step) {
      HandlerStepKinds(c, s, step);
    } else {
      KindsUntouched(c, s, Apply(c, s, step));
    }
  }

  lemma KindsUntouched(c: Config, s: State, t: State)
    requires ValidConfig(c) && KindInv(c, s)
    requires t.skipped == s.skipped && t.dropped == s.dropped && t.cnq == s.cnq && t.parsers == s.parsers
    requires t.handlers == s.handlers && t.processedLines == s.processedLines && t.ignoredLines == s.ignoredLines
    ensures KindInv(c, t)
  {
  }

  lemma EachPlus(m: multiset<string>, line: string, kind: string -> bool)
    requires Each(m, kind) && kind(line)
    ensures Each(m + multiset{line}, kind)
  {
  }

  lemma ParserStepKinds(c: Config, s: State, step: Step)
    requires ValidConfig(c) && KindInv(c, s) && ParserEnabled(c, s, step)
    ensures KindInv(c, ParserStep(c, s, step))
  {
    hide Blank, Parses, Sampled, Each;
    if step.Take? {
      var line := s.input[0];
      if Blank(line) {
        EachPlus(s.skipped, line, BlankLine());
      } else if !Parses(c, line) {
        EachPlus(s.dropped, line, BadLine(c));
      }
    }
  }

  lemma SampledParses(c: Config, x: string)
    requires ValidConfig(c)
    ensures Sampled(c, x) ==> Parses(c, x)
    ensures Parses(c, x) ==> !Blank(x)
  {
  }

  lemma HandlerStepKinds(c: Config, s: State, step: Step)
    requires ValidConfig(c) && KindInv(c, s) && HandlerEnabled(c, s, step)
    ensures KindInv(c, HandlerStep(c, s, step))
  {
    hide Blank, Parses, Sampled, Each;
    if step.Handle? {
      var line := s.handlers[step.h].line;
      if Sampled(c, line) {
        EachPlus(s.processedLines, line, SampledLine(c));
      } else {
        EachPlus(s.ignoredLines, line, IgnoredLine(c));
      }
    }
  }

  lemma StepKeepsInv(c: Config, lines: seq<string>, s: State, step: Step)
    requires ValidConfig(c) && Inv(c, lines, s) && Enabled(c, s, step)
    ensures Inv(c, lines, Apply(c, s, step))
  {
    hide Apply, ReaderInv, ControlInv, CopiesInv, CounterInv, KindInv, Enabled;
    StepKeepsControl(c, |lines|, s, step);
    StepKeepsCopies(c, lines, s, step);
    StepKeepsCounters(c, s, step);
    StepKeepsKinds(c, s, step);
  }

  lemma {:induction false} RunKeepsInv(c: Config, lines: seq<string>, s: State, steps: seq<Step>, t: State)
    requires ValidConfig(c) && Inv(c, lines, s) && Run(c, s, steps, t)
    ensures Inv(c, lines, t)
    decreases |steps|
  {
    hide Inv, Apply, Enabled;
    if steps != [] {
      StepKeepsInv(c, lines, s, steps[0]);
      RunKeepsInv(c, lines, Apply(c, s, steps[0]), steps[1..], t);
    }
  }

  //
  // The channels
  //

  /** No channel ever holds more than it has room for. */
  predicate WithinCapacity(c: Config, s: State) {
    |s.input| <= c.inputCap && |s.cnq| <= c.cnqCap && |s.done| <= c.parsers
  }

  lemma StepFits(c: Config, s: State, step: Step)
    requires ValidConfig(c) && WithinCapacity(c, s) && Enabled(c, s, step)
    ensures WithinCapacity(c, Apply(c, s, step))
  {
    hide Parses, Blank, Sampled, ReaderStep, ParserStep, HandlerStep, MainStep;
    hide ReaderEnabled, ParserEnabled, HandlerEnabled, MainEnabled;
    if ReaderEnabled(c, s, step) {
      ReaderStepFits(c, s, step);
    } else if ParserEnabled(c, s, step) {
      ParserStepFits(c, s, step);
    } else if HandlerEnabled(c, s, step) {
      HandlerStepFits(c, s, step);
    } else {
      MainStepFits(c, s, step);
    }
  }

  lemma ReaderStepFits(c: Config, s: State, step: Step)
    requires WithinCapacity(c, s) && ReaderEnabled(c, s, step)
    ensures WithinCapacity(c, ReaderStep(c, s, step))
  {
  }

  lemma ParserStepFits(c: Config, s: State, step: Step)
    requires WithinCapacity(c, s) && ParserEnabled(c, s, step)
    ensures WithinCapacity(c, ParserStep(c, s, step))
  {
    hide Parses, Blank;
  }

  lemma HandlerStepFits(c: Config, s: State, step: Step)
    requires ValidConfig(c) && WithinCapacity(c, s) && HandlerEnabled(c, s, step)
    ensures WithinCapacity(c, HandlerStep(c, s, step))
  {
    hide Sampled;
  }

  lemma MainStepFits(c: Config, s: State, step: Step)
    requires WithinCapacity(c, s) && MainEnabled(c, s, step)
    ensures WithinCapacity(c, MainStep(c, s, step))
  {
  }

  lemma {:induction false} RunFits(c: Config, s: State, steps: seq<Step>, t: State)
    requires ValidConfig(c) && WithinCapacity(c, s) && Run(c, s, steps, t)
    ensures WithinCapacity(c, t)
    decreases |steps|
  {
    hide WithinCapacity, Apply, Enabled;
    if steps != [] {
      StepFits(c, s, steps[0]);
      RunFits(c, Apply(c, s, steps[0]), steps[1..], t);
    }
  }

  /** The program's channels hold at most ten thousand lines and ten thousand records, its shuffle buffer at most a
      thousand lines, and 3000 handlers are at work. */
  lemma ProgramFits(parsers: nat, parse: string -> Option<string>, fingerprint: string -> nat, mod: nat,
                    lines: seq<string>, steps: seq<Step>, t: State)
    requires parsers > 0 && mod > 0
    requires var c := ProgramConfig(parsers, parse, fingerprint, mod); Run(c, Init(c, lines), steps, t)
    ensures |t.input| <= 10000 && |t.cnq| <= 10000 && |t.done| <= parsers && |t.buf| <= 1000
    ensures |t.handlers| == 3000 && |t.parsers| == parsers
  {
    hide Run, CopiesInv, CounterInv, KindInv, Count;
    var c := ProgramConfig(parsers, parse, fingerprint, mod);
    InitHolds(c, lines);
    RunKeepsInv(c, lines, Init(c, lines), steps, t);
    RunFits(c, Init(c, lines), steps, t);
  }

  //
  // Main results
  //

  /** In no interleaving, and for no choice of the shuffler, does any goroutine send on a closed channel, close a
      channel twice, overdraw the wait group or draw from an empty shuffle buffer. */
  lemma NeverPanics(c: Config, lines: seq<string>, steps: seq<Step>, t: State)
    requires ValidConfig(c) && Run(c, Init(c, lines), steps, t)
    ensures t.main != Panicked
    ensures forall p :: p in t.parsers && p.Sending? && !Final(t) ==> !t.cnqClosed
    ensures t.reader.Streaming? || t.reader.Draining? ==> !t.inputClosed
  {
    hide Run, Init, CopiesInv, CounterInv, KindInv;
    InitHolds(c, lines);
    RunKeepsInv(c, lines, Init(c, lines), steps, t);
    forall p | p in t.parsers && p.Sending? && !Final(t)
      ensures !t.cnqClosed
    {
      var i :| 0 <= i < |t.parsers| && t.parsers[i] == p;
      ActiveParser(c, t, i);
    }
  }

  /** At any moment the handlers are ahead of the parsers' count by at most one record a parser, because a parser
      counts a record only after sending it. */
  lemma CountersLag(c: Config, lines: seq<string>, steps: seq<Step>, t: State)
    requires ValidConfig(c) && Run(c, Init(c, lines), steps, t)
    ensures t.processed + t.ignored <= t.parsed + c.parsers
  {
    hide Run, Init, CopiesInv, KindInv, Count;
    InitHolds(c, lines);
    RunKeepsInv(c, lines, Init(c, lines), steps, t);
    CountAll(t.parsers, IsCounting);
  }

  function Min(a: nat, b: nat): nat {
    if a < b then a else b
  }

  /** When the loader returns, every line that is not blank parsed and was handled exactly once, in the way its
      subject calls for, and every counter is exact. */
  lemma CompletesExactly(c: Config, lines: seq<string>, steps: seq<Step>, t: State)
    requires ValidConfig(c) && Run(c, Init(c, lines), steps, t) && t.main.Returned?
    ensures forall x :: t.processedLines[x] == if Sampled(c, x) then Occurs(lines, x) else 0
    ensures forall x :: t.ignoredLines[x] == if !Blank(x) && !Sampled(c, x) then Occurs(lines, x) else 0
    ensures forall x :: x in lines && !Blank(x) ==> Parses(c, x)
    ensures t.processed == |t.processedLines| && t.ignored == |t.ignoredLines|
    ensures t.parsed == t.processed + t.ignored
    ensures t.read == |lines| - Min(|lines|, c.shuffle)
  {
    hide Run, Init, ReaderInv, ControlInv, CounterInv, KindInv, Copies, Sampled, Blank, Parses;
    InitHolds(c, lines);
    RunKeepsInv(c, lines, Init(c, lines), steps, t);
    FinalCounters(c, |lines|, t);
    forall x
      ensures Occurs(lines, x) == t.skipped[x] + t.processedLines[x] + t.ignoredLines[x]
    {
      NothingInFlight(c, |lines|, t, x);
      assert Copies(t, x) == Occurs(lines, x);
    }
    KindsSeparate(c, lines, t);
  }

  /** The same in the loader's own terms: when it returns, every line that is not blank parsed, and it was processed
      exactly if the fingerprint of its record's subject is a multiple of the modulus, and ignored otherwise. */
  lemma SampledByFingerprint(c: Config, lines: seq<string>, steps: seq<Step>, t: State, x: string)
    requires ValidConfig(c) && Run(c, Init(c, lines), steps, t) && t.main.Returned?
    ensures x in lines && Trim(x) != "" ==> c.parse(Trim(x)).Some?
    ensures x !in lines || Trim(x) == "" ==> t.processedLines[x] == t.ignoredLines[x] == 0
    ensures x in lines && Trim(x) != "" ==>
              var sampled := c.fingerprint(c.parse(Trim(x)).value) % c.mod == 0;
              && t.processedLines[x] == (if sampled then multiset(lines)[x] else 0)
              && t.ignoredLines[x] == (if sampled then 0 else multiset(lines)[x])
  {
    hide Run, Init, Trim;
    CompletesExactly(c, lines, steps, t);
    SampledParses(c, x);
    assert x !in lines ==> Occurs(lines, x) == 0;
  }

  /** With a modulus of one every record is processed and none is ignored. */
  lemma SamplesAll(c: Config, lines: seq<string>, steps: seq<Step>, t: State)
    requires ValidConfig(c) && c.mod == 1 && Run(c, Init(c, lines), steps, t) && t.main.Returned?
    ensures t.ignored == 0
    ensures forall x :: t.processedLines[x] == if Trim(x) == "" then 0 else multiset(lines)[x]
  {
    hide Run, Init, Trim;
    CompletesExactly(c, lines, steps, t);
    forall x
      ensures t.ignoredLines[x] == 0 && t.processedLines[x] == if Trim(x) == "" then 0 else multiset(lines)[x]
    {
      SampledByFingerprint(c, lines, steps, t, x);
    }
    assert t.ignoredLines == multiset{};
  }

  lemma KindsSeparate(c: Config, lines: seq<string>, t: State)
    requires ValidConfig(c) && KindInv(c, t)
    requires forall x :: Occurs(lines, x) == t.skipped[x] + t.processedLines[x] + t.ignoredLines[x]
    ensures forall x :: t.processedLines[x] == if Sampled(c, x) then Occurs(lines, x) else 0
    ensures forall x :: t.ignoredLines[x] == if !Blank(x) && !Sampled(c, x) then Occurs(lines, x) else 0
    ensures forall x :: x in lines && !Blank(x) ==> Parses(c, x)
  {
    hide Blank, Parses, Sampled;
    forall x
      ensures t.processedLines[x] == if Sampled(c, x) then Occurs(lines, x) else 0
      ensures t.ignoredLines[x] == if !Blank(x) && !Sampled(c, x) then Occurs(lines, x) else 0
      ensures x in lines && !Blank(x) ==> Parses(c, x)
    {
      SampledParses(c, x);
      assert x in lines <==> Occurs(lines, x) > 0;
      assert t.skipped[x] > 0 ==> x in t.skipped && BlankLine()(x);
      assert t.processedLines[x] > 0 ==> x in t.processedLines && SampledLine(c)(x);
      assert t.ignoredLines[x] > 0 ==> x in t.ignoredLines && IgnoredLine(c)(x);
    }
  }

  lemma AllStopped(c: Config, total: nat, t: State)
    requires ValidConfig(c) && ReaderInv(c, total, t) && ControlInv(c, t) && t.main.Returned?
    ensures t.reader.Closed? && t.input == [] && t.cnq == [] && t.dropped == multiset{}
    ensures Count(t.parsers, IsCounting) == 0 && Count(t.handlers, IsHandling) == 0
    ensures forall i :: 0 <= i < |t.parsers| ==> t.parsers[i].Stopped?
    ensures forall i :: 0 <= i < |t.handlers| ==> t.handlers[i].Finished?
  {
    hide Count;
    CountAll(t.parsers, IsStopped);
    CountAll(t.parsers, StoppedFailed);
    CountAll(t.parsers, HasFailed);
    CountAll(t.parsers, IsCounting);
    CountAll(t.handlers, IsUnfinished);
    CountAll(t.handlers, IsHandling);
    assert t.parsers[0].Stopped? && HasEnded(t.parsers[0]);
    CountMember(t.parsers, 0, HasEnded);
  }

  lemma FinalCounters(c: Config, total: nat, t: State)
    requires ValidConfig(c) && ReaderInv(c, total, t) && ControlInv(c, t) && CounterInv(t) && t.main.Returned?
    ensures t.processed == |t.processedLines| && t.ignored == |t.ignoredLines|
    ensures t.parsed == t.processed + t.ignored && t.read == total - Min(total, c.shuffle)
  {
    hide Count, ControlInv;
    AllStopped(c, total, t);
  }

  lemma NothingInFlight(c: Config, total: nat, t: State, x: string)
    requires ValidConfig(c) && ReaderInv(c, total, t) && ControlInv(c, t) && t.main.Returned?
    ensures Copies(t, x) == t.skipped[x] + t.processedLines[x] + t.ignoredLines[x]
  {
    hide Count;
    AllStopped(c, total, t);
    CountAll(t.parsers, SendsLine(x));
    CountAll(t.handlers, HandlesLine(x));
    assert forall i :: 0 <= i < |t.parsers| ==> !SendsLine(x)(t.parsers[i]);
    assert forall i :: 0 <= i < |t.handlers| ==> !HandlesLine(x)(t.handlers[i]);
  }

  /** A line that is not blank and parses, the fingerprint of whose subject is a multiple of the modulus. */
  function SampledText(parse: string -> Option<string>, fingerprint: string -> nat, mod: nat): string -> bool
    requires mod > 0
  {
    x => Trim(x) != "" && parse(Trim(x)).Some? && fingerprint(parse(Trim(x)).value) % mod == 0
  }

  function Filtered(lines: seq<string>, f: string -> bool): seq<string> {
    if lines == [] then [] else
      var n := |lines| - 1;
      var before := Filtered(lines[..n], f);
      if f(lines[n]) then before + [lines[n]] else before
  }

  lemma {:induction false} FilteredOccurs(lines: seq<string>, f: string -> bool, x: string)
    ensures Occurs(Filtered(lines, f), x) == if f(x) then Occurs(lines, x) else 0
    decreases |lines|
  {
    hide Occurs;
    OccursNone(x);
    if lines != [] {
      var n := |lines| - 1;
      FilteredOccurs(lines[..n], f, x);
      assert lines == lines[..n] + [lines[n]];
      OccursAppend(lines[..n], lines[n], x);
      OccursAppend(Filtered(lines[..n], f), lines[n], x);
      OccursOne(lines[n], x);
    }
  }

  /** With the program's own sizes: the value returned is the number of lines whose subject is sampled, and `read`
      counts the lines after the first thousand. */
  lemma ProgramReturns(parsers: nat, parse: string -> Option<string>, fingerprint: string -> nat, mod: nat,
                       lines: seq<string>, steps: seq<Step>, t: State)
    requires parsers > 0 && mod > 0
    requires var c := ProgramConfig(parsers, parse, fingerprint, mod);
             Run(c, Init(c, lines), steps, t) && t.main.Returned?
    ensures forall x :: x in lines && Trim(x) != "" ==> parse(Trim(x)).Some?
    ensures t.processed == |Filtered(lines, SampledText(parse, fingerprint, mod))|
    ensures t.read == if |lines| < 1000 then 0 else |lines| - 1000
  {
    hide Run, Init, Sampled, Blank, Trim, Occurs;
    var c := ProgramConfig(parsers, parse, fingerprint, mod);
    CompletesExactly(c, lines, steps, t);
    var sampled := Filtered(lines, SampledText(parse, fingerprint, mod));
    forall x
      ensures t.processedLines[x] == multiset(sampled)[x]
      ensures x in lines && Trim(x) != "" ==> parse(Trim(x)).Some?
    {
      SampledByFingerprint(c, lines, steps, t, x);
      FilteredOccurs(lines, SampledText(parse, fingerprint, mod), x);
      OccursIs(lines, x);
      OccursIs(sampled, x);
    }
    assert t.processedLines == multiset(sampled);
  }

  lemma OccursIs(lines: seq<string>, x: string)
    ensures Occurs(lines, x) == multiset(lines)[x]
  {
  }

  /** The value the loader returns does not depend on the interleaving or on the shuffler. */
  lemma OutcomeIsDeterministic(c: Config, lines: seq<string>, steps: seq<Step>, t: State, steps': seq<Step>, t': State)
    requires ValidConfig(c) && Run(c, Init(c, lines), steps, t) && Run(c, Init(c, lines), steps', t')
    requires t.main.Returned? && t'.main.Returned?
    ensures t.processed == t'.processed && t.ignored == t'.ignored && t.parsed == t'.parsed && t.read == t'.read
  {
    hide Run, Init, Sampled, Blank, Occurs;
    CompletesExactly(c, lines, steps, t);
    CompletesExactly(c, lines, steps', t');
    assert t.processedLines == t'.processedLines;
    assert t.ignoredLines == t'.ignoredLines;
  }

  //
  // Liveness
  //

  predicate NoError(step: Step) {
    !step.ReadError? && !step.HandlerError?
  }

  lemma ReaderProgress(c: Config, total: nat, s: State) returns (step: Step)
    requires ValidConfig(c) && ReaderInv(c, total, s) && !s.inputClosed && s.input == []
    ensures (ReaderEnabled(c, s, step)) && NoError(step)
  {
    match s.reader
    case Filling => step := if s.pending != [] && |s.buf| < c.shuffle then Fill else StartStreaming;
    case Streaming => step := if s.pending != [] then Shuffle(0) else StartDraining;
    case Replacing(k) => step := Replace;
    case Draining(next) => step := if next < |s.buf| then Drain else CloseInput;
  }

  lemma ParserProgress(c: Config, total: nat, s: State, p: nat) returns (step: Step)
    requires ValidConfig(c) && ReaderInv(c, total, s) && ControlInv(c, s) && !Final(s)
    requires p < |s.parsers| && !s.parsers[p].Stopped? && s.cnq == []
    ensures (ReaderEnabled(c, s, step) || ParserEnabled(c, s, step)) && NoError(step)
  {
    hide Count, ReaderInv;
    ActiveParser(c, s, p);
    match s.parsers[p]
    case Idle =>
      if s.input != [] {
        step := Take(p);
      } else if s.inputClosed {
        step := StopParser(p);
      } else {
        step := ReaderProgress(c, total, s);
      }
    case Sending(line) => step := SendRecord(p);
    case Counting => step := CountParsed(p);
    case Reporting(ok) => step := Report(p);
  }

  lemma HandlerProgress(c: Config, s: State) returns (step: Step)
    requires ValidConfig(c) && ControlInv(c, s) && !Final(s)
    requires s.cnq != [] || (exists h :: 0 <= h < |s.handlers| && s.handlers[h].Handling?)
    ensures (HandlerEnabled(c, s, step)) && NoError(step)
  {
    hide Count;
    if h :| 0 <= h < |s.handlers| && s.handlers[h].Handling? {
      step := Handle(h);
    } else {
      CountAll(s.handlers, IsUnfinished);
      assert IsUnfinished(s.handlers[0]);
      step := TakeRecord(0);
    }
  }

  lemma MainProgress(c: Config, s: State) returns (step: Step)
    requires ValidConfig(c) && ControlInv(c, s) && !Final(s) && s.cnq == []
    requires forall p :: 0 <= p < |s.parsers| ==> s.parsers[p].Stopped?
    requires forall h :: 0 <= h < |s.handlers| ==> !s.handlers[h].Handling?
    ensures (HandlerEnabled(c, s, step) || MainEnabled(c, s, step)) && NoError(step)
  {
    hide Count;
    CountAll(s.parsers, IsStopped);
    CountAll(s.handlers, IsUnfinished);
    if s.main.Collecting? {
      step := if s.done != [] && s.main.received < c.parsers then Collect else CloseRecords;
    } else if h: nat :| h < |s.handlers| && s.handlers[h].Ready? {
      step := StopHandler(h);
    } else {
      assert forall h :: 0 <= h < |s.handlers| ==> !IsUnfinished(s.handlers[h]);
      step := Return;
    }
  }

  lemma SomeProgress(c: Config, lines: seq<string>, s: State) returns (step: Step)
    requires ValidConfig(c) && Inv(c, lines, s) && !Final(s)
    ensures Enabled(c, s, step) && NoError(step)
  {
    hide ReaderInv, ControlInv, CopiesInv, CounterInv, KindInv;
    hide ReaderEnabled, ParserEnabled, HandlerEnabled, MainEnabled;
    if s.cnq != [] || exists h :: 0 <= h < |s.handlers| && s.handlers[h].Handling? {
      step := HandlerProgress(c, s);
    } else if p: nat :| p < |s.parsers| && !s.parsers[p].Stopped? {
      step := ParserProgress(c, |lines|, s, p);
    } else {
      step := MainProgress(c, s);
    }
  }

  /** No reachable state is stuck: until the loader has returned or died, some goroutine
      can move without any error having to occur. */
  lemma NeverStuck(c: Config, lines: seq<string>, steps: seq<Step>, s: State) returns (step: Step)
    requires ValidConfig(c) && Run(c, Init(c, lines), steps, s) && !Final(s)
    ensures Enabled(c, s, step) && NoError(step)
  {
    hide Run, Init, Inv, Enabled;
    InitHolds(c, lines);
    RunKeepsInv(c, lines, Init(c, lines), steps, s);
    step := SomeProgress(c, lines, s);
  }

  function Sum<T>(s: seq<T>, f: T -> nat): nat {
    if s == [] then 0 else Sum(s[..|s| - 1], f) + f(s[|s| - 1])
  }

  lemma {:induction false} SumUpdate<T>(s: seq<T>, i: nat, v: T, f: T -> nat)
    requires i < |s|
    ensures Sum(s[i := v], f) == Sum(s, f) - f(s[i]) + f(v)
    decreases |s|
  {
    var n := |s| - 1;
    if i < n {
      assert s[i := v][..n] == s[..n][i := v];
      SumUpdate(s[..n], i, v, f);
    } else {
      assert s[i := v][..n] == s[..n];
    }
  }

  function ParserWork(p: Parser): nat {
    match p
    case Sending(_) => 8
    case Counting => 4
    case Idle => 3
    case Reporting(_) => 2
    case Stopped(_) => 0
  }

  function HandlerWork(h: Handler): nat {
    match h
    case Handling(_) => 2
    case Ready => 1
    case Finished => 0
  }

  function ReaderWork(s: State): nat {
    10 * |s.pending| + 8 * |Unsent(s)|
    + match s.reader
      case Filling => 3
      case Streaming => 2
      case Replacing(_) => 2
      case Draining(_) => 1
      case Closed => 0
  }

  function MainWork(m: MainThread): nat {
    if m.Collecting? then 2 else if m.Waiting? then 1 else 0
  }

  /** The work left: a bound on the number of steps still possible. */
  function Work(s: State): nat {
    ReaderWork(s) + 7 * |s.input| + Sum(s.parsers, ParserWork) + |s.done| + 3 * |s.cnq| + Sum(s.handlers, HandlerWork)
    + MainWork(s.main)
  }

  lemma ReaderStepWorks(c: Config, total: nat, s: State, step: Step)
    requires ReaderInv(c, total, s) && ReaderEnabled(c, s, step) && !Final(s)
    ensures Work(ReaderStep(c, s, step)) < Work(s)
  {
    hide Sum;
  }

  lemma ParserStepWorks(c: Config, s: State, step: Step)
    requires ValidConfig(c) && ControlInv(c, s) && ParserEnabled(c, s, step) && !Final(s)
    ensures Work(ParserStep(c, s, step)) < Work(s)
  {
    hide Sum, Blank, Parses, ReaderWork, Count, Unsent;
    var t, p := ParserStep(c, s, step), step.p;
    ActiveParser(c, s, p);
    SumUpdate(s.parsers, p, t.parsers[p], ParserWork);
    assert s.parsers[p := t.parsers[p]] == t.parsers;
    SameReaderWork(s, t);
  }

  lemma SameReaderWork(s: State, t: State)
    requires t.reader == s.reader && t.buf == s.buf && t.pending == s.pending
    ensures ReaderWork(t) == ReaderWork(s)
  {
    SameUnsent(s, t);
  }

  lemma HandlerStepWorks(c: Config, s: State, step: Step)
    requires ValidConfig(c) && ControlInv(c, s) && HandlerEnabled(c, s, step) && !Final(s)
    ensures Work(HandlerStep(c, s, step)) < Work(s)
  {
    hide Sum, Sampled, ReaderWork, Count, Unsent;
    var t, h := HandlerStep(c, s, step), step.h;
    CountMember(s.handlers, h, IsUnfinished);
    SumUpdate(s.handlers, h, t.handlers[h], HandlerWork);
    assert s.handlers[h := t.handlers[h]] == t.handlers;
    SameReaderWork(s, t);
  }

  lemma MainStepWorks(c: Config, s: State, step: Step)
    requires ControlInv(c, s) && MainEnabled(c, s, step)
    ensures Work(MainStep(c, s, step)) < Work(s)
  {
    hide Sum, ReaderWork, Count, Unsent;
    SameReaderWork(s, MainStep(c, s, step));
  }

  lemma StepWorks(c: Config, total: nat, s: State, step: Step)
    requires ValidConfig(c) && ReaderInv(c, total, s) && ControlInv(c, s) && Enabled(c, s, step)
    ensures Work(Apply(c, s, step)) < Work(s)
  {
    hide Work, ReaderInv, ControlInv, ReaderStep, ParserStep, HandlerStep, MainStep;
    hide ReaderEnabled, ParserEnabled, HandlerEnabled, MainEnabled;
    if ReaderEnabled(c, s, step) {
      ReaderStepWorks(c, total, s, step);
    } else if ParserEnabled(c, s, step) {
      ParserStepWorks(c, s, step);
    } else if HandlerEnabled(c, s, step) {
      HandlerStepWorks(c, s, step);
    } else {
      MainStepWorks(c, s, step);
    }
  }

  /** Every run is finite: no run from a state has more steps than the work left there. */
  lemma {:induction false} RunsAreBounded(c: Config, lines: seq<string>, s: State, steps: seq<Step>, t: State)
    requires ValidConfig(c) && Inv(c, lines, s) && Run(c, s, steps, t)
    ensures |steps| + Work(t) <= Work(s)
    decreases |steps|
  {
    hide ReaderInv, ControlInv, CopiesInv, CounterInv, KindInv, Work, Apply, Enabled;
    if steps != [] {
      StepKeepsInv(c, lines, s, steps[0]);
      StepWorks(c, |lines|, s, steps[0]);
      RunsAreBounded(c, lines, Apply(c, s, steps[0]), steps[1..], t);
    }
  }

  lemma StepStaysAlive(c: Config, lines: seq<string>, s: State, step: Step)
    requires ValidConfig(c) && Inv(c, lines, s) && Enabled(c, s, step) && NoError(step)
    requires forall x :: x in lines && !Blank(x) ==> Parses(c, x)
    ensures !Apply(c, s, step).main.Died?
  {
    hide Count, Blank, Parses, Sampled, Each, ReaderInv, CounterInv, CopiesInv, KindInv;
    if step.Collect? && !s.done[0] {
      CountMember(s.done, 0, IsFailure);
      CountAll(s.parsers, StoppedFailed);
      var p :| 0 <= p < |s.parsers| && StoppedFailed(s.parsers[p]);
      CountMember(s.parsers, p, HasFailed);
      NothingDropped(c, lines, s);
    }
  }

  lemma NothingDropped(c: Config, lines: seq<string>, s: State)
    requires ValidConfig(c) && CopiesInv(lines, s) && KindInv(c, s)
    requires forall x :: x in lines && !Blank(x) ==> Parses(c, x)
    ensures s.dropped == multiset{}
  {
    hide Count, Blank, Parses, Sampled, Unsent;
    forall x
      ensures s.dropped[x] == 0
    {
      assert Copies(s, x) == Occurs(lines, x);
      assert s.dropped[x] > 0 ==> x in s.dropped && BadLine(c)(x) && x in lines;
    }
  }

  lemma {:induction false} CleanRunsSurvive(c: Config, lines: seq<string>, s: State, steps: seq<Step>, t: State)
    requires ValidConfig(c) && Inv(c, lines, s) && Run(c, s, steps, t) && !s.main.Died?
    requires forall x :: x in lines && !Blank(x) ==> Parses(c, x)
    requires forall i :: 0 <= i < |steps| ==> NoError(steps[i])
    ensures !t.main.Died?
    decreases |steps|
  {
    hide Inv, Apply, Enabled, Blank, Parses, NoError;
    if steps != [] {
      StepKeepsInv(c, lines, s, steps[0]);
      StepStaysAlive(c, lines, s, steps[0]);
      CleanRunsSurvive(c, lines, Apply(c, s, steps[0]), steps[1..], t);
    }
  }

  /** When every line that is not blank parses and no input or database error occurs, a run that cannot go on has
      returned; as runs are bounded, the loader always returns. */
  lemma CleanRunsReturn(c: Config, lines: seq<string>, steps: seq<Step>, t: State)
    requires ValidConfig(c) && Run(c, Init(c, lines), steps, t)
    requires forall x :: x in lines && !Blank(x) ==> Parses(c, x)
    requires forall i :: 0 <= i < |steps| ==> NoError(steps[i])
    requires forall step :: NoError(step) ==> !Enabled(c, t, step)
    ensures t.main.Returned?
  {
    hide Run, Enabled, Blank, Parses;
    InitHolds(c, lines);
    CleanRunsSurvive(c, lines, Init(c, lines), steps, t);
    NeverPanics(c, lines, steps, t);
    if !Final(t) {
      var step := NeverStuck(c, lines, steps, t);
    }
  }

  /** A line that is not blank and does not parse is fatal: once nothing can go on without an error, the loader has
      died, whatever else happened. */
  lemma UnparsableRunsDie(c: Config, lines: seq<string>, steps: seq<Step>, t: State)
    requires ValidConfig(c) && Run(c, Init(c, lines), steps, t)
    requires exists x :: x in lines && !Blank(x) && !Parses(c, x)
    requires forall step :: NoError(step) ==> !Enabled(c, t, step)
    ensures t.main.Died?
  {
    hide Run, Enabled, Blank, Parses, Sampled, Occurs;
    NeverPanics(c, lines, steps, t);
    if !Final(t) {
      var step := NeverStuck(c, lines, steps, t);
    } else if t.main.Returned? {
      CompletesExactly(c, lines, steps, t);
      assert false;
    }
  }

  lemma OneStep(c: Config, s: State, step: Step, rest: seq<Step>, t: State)
    requires ValidConfig(c) && Enabled(c, s, step) && Run(c, Apply(c, s, step), rest, t)
    ensures Run(c, s, [step] + rest, t)
  {
    hide Enabled, Apply;
    assert ([step] + rest)[1..] == rest;
  }
}
