/** The pending figure of the loader's progress reports, records parsed less records ignored and processed: when it
    can be negative, and how far below zero. */
module PendingReports {
  import opened Options
  import opened Loader

  //
  // The ticker
  //

  /** What one report is computed from. The program subtracts in unsigned arithmetic, where a figure below zero wraps
      to a huge number. */
  datatype LogLine = LogLine(processed: nat, parsed: nat, ignored: nat) {
    function Pending(): int {
      parsed - ignored - processed
    }
  }

  /** One tick that reports, from `s` to `t`: it loads `processed`, which is not the count of the last report, then
      `parsed`, then `ignored`. The other goroutines go on before and between the loads. */
  ghost predicate Tick(c: Config, s: State, prev: nat, r: LogLine, t: State)
    requires ValidConfig(c)
  {
    exists p1, t1, p2, t2, p3 ::
      && Run(c, s, p1, t1) && Run(c, t1, p2, t2) && Run(c, t2, p3, t)
      && t1.processed != prev && r == LogLine(t1.processed, t2.parsed, t.ignored)
  }

  /** The ticker can write the reports `rs` from `s` on, when the last report, if any, had `prev` processed. A tick
      that finds that count again writes nothing and changes nothing. */
  ghost predicate Reports(c: Config, s: State, prev: nat, rs: seq<LogLine>)
    requires ValidConfig(c)
    decreases |rs|
  {
    rs == [] || exists t :: Tick(c, s, prev, rs[0], t) && Reports(c, t, rs[0].processed, rs[1..])
  }

  ghost predicate CanReport(c: Config, lines: seq<string>)
    requires ValidConfig(c)
  {
    exists rs: seq<LogLine> :: rs != [] && Reports(c, Init(c, lines), 0, rs)
  }

  ghost predicate CanReportNegative(c: Config, lines: seq<string>)
    requires ValidConfig(c)
  {
    exists rs: seq<LogLine>, i :: Reports(c, Init(c, lines), 0, rs) && 0 <= i < |rs| && rs[i].Pending() < 0
  }

  //
  // The counters of one state
  //

  predicate Negative(s: State) {
    s.parsed < s.processed + s.ignored
  }

  /** In every reachable state: the counters are out of step exactly when the parsers that have sent a record and not
      yet counted it outnumber the records that are queued or being handled. */
  lemma NegativeIff(c: Config, lines: seq<string>, steps: seq<Step>, t: State)
    requires ValidConfig(c) && Run(c, Init(c, lines), steps, t)
    ensures Negative(t) <==> Count(t.parsers, IsCounting) > |t.cnq| + Count(t.handlers, IsHandling)
  {
    hide Run, Init, Count, ReaderInv, ControlInv, CopiesInv, KindInv;
    InitHolds(c, lines);
    RunKeepsInv(c, lines, Init(c, lines), steps, t);
  }

  //
  // On which inputs a report can be negative
  //

  /** The parsers left after one of `budget` has taken `line`: a line that fails to parse costs one. */
  function Left(c: Config, line: string, budget: nat): nat
    requires budget > 0
  {
    if Blank(line) || Parses(c, line) then budget else budget - 1
  }

  /** Whether lines can arrive so that one with a sampled subject is taken while fewer than `budget` that do not parse
      have been: first the queue in its order, then, as long as lines are pending, any line of the buffer, whose
      place the next pending line takes, and at the end the buffer in its order. */
  predicate Serves(c: Config, queue: seq<string>, pending: seq<string>, buf: seq<string>, budget: nat)
    requires ValidConfig(c)
    decreases |pending|, |buf|, |queue|
  {
    && budget > 0
    && if queue != [] then
         Sampled(c, queue[0]) || Serves(c, queue[1..], pending, buf, Left(c, queue[0], budget))
       else if pending != [] then
         exists k :: 0 <= k < |buf| && Serves(c, [buf[k]], pending[1..], buf[k := pending[0]], budget)
       else
         buf != [] && Serves(c, buf, [], [], budget)
  }

  predicate InputServes(c: Config, lines: seq<string>)
    requires ValidConfig(c)
  {
    var n := Min(|lines|, c.shuffle);
    Serves(c, [], lines[n..], lines[..n], c.parsers)
  }

  /** The lines on their way to the parsers, as `Serves` sees them. */
  predicate StateServes(c: Config, s: State, budget: nat)
    requires ValidConfig(c)
  {
    match s.reader
    case Filling =>
      var n := if |s.buf| < c.shuffle then Min(|s.pending|, c.shuffle - |s.buf|) else 0;
      Serves(c, s.input, s.pending[n..], s.buf + s.pending[..n], budget)
    case Streaming => Serves(c, s.input, s.pending, s.buf, budget)
    case Replacing(k) =>
      s.pending != [] && k < |s.buf| && Serves(c, s.input, s.pending[1..], s.buf[k := s.pending[0]], budget)
    case Draining(next) => next <= |s.buf| && Serves(c, s.input + s.buf[next..], [], [], budget)
    case Closed => Serves(c, s.input, [], [], budget)
  }

  /** Sending a buffered line before the queue is empty gives nothing that sending it later would not. */
  lemma {:induction false} ServesLater(
      c: Config, queue: seq<string>, pending: seq<string>, buf: seq<string>, k: nat, budget: nat)
    requires ValidConfig(c) && pending != [] && k < |buf|
    requires Serves(c, queue + [buf[k]], pending[1..], buf[k := pending[0]], budget)
    ensures Serves(c, queue, pending, buf, budget)
    decreases |queue|
  {
    hide Sampled, Left;
    if queue == [] {
      assert queue + [buf[k]] == [buf[k]];
    } else if !Sampled(c, queue[0]) {
      assert (queue + [buf[k]])[1..] == queue[1..] + [buf[k]];
      ServesLater(c, queue[1..], pending, buf, k, Left(c, queue[0], budget));
    }
  }

  /** With nothing pending, the buffer follows the queue. */
  lemma {:induction false} ServesDrained(c: Config, queue: seq<string>, buf: seq<string>, budget: nat)
    requires ValidConfig(c)
    ensures Serves(c, queue, [], buf, budget) <==> Serves(c, queue + buf, [], [], budget)
    decreases |queue|
  {
    hide Sampled, Left;
    if queue == [] {
      assert queue + buf == buf;
    } else {
      assert (queue + buf)[1..] == queue[1..] + buf;
      if budget > 0 {
        ServesDrained(c, queue[1..], buf, Left(c, queue[0], budget));
      }
    }
  }

  /** No record of a sampled subject has been taken on yet. */
  predicate NoneSampled(c: Config, s: State)
    requires ValidConfig(c)
  {
    && s.processed == 0 && (forall i :: 0 <= i < |s.cnq| ==> !Sampled(c, s.cnq[i]))
    && (forall i :: 0 <= i < |s.parsers| && s.parsers[i].Sending? ==> !Sampled(c, s.parsers[i].line))
    && (forall i :: 0 <= i < |s.handlers| && s.handlers[i].Handling? ==> !Sampled(c, s.handlers[i].line))
  }

  function Budget(c: Config, s: State): nat {
    if |s.dropped| <= c.parsers then c.parsers - |s.dropped| else 0
  }

  predicate TakesSampled(c: Config, s: State, step: Step)
    requires ValidConfig(c)
  {
    step.Take? && s.input != [] && Sampled(c, s.input[0])
  }

  lemma NoneSampledStep(c: Config, s: State, step: Step)
    requires ValidConfig(c) && NoneSampled(c, s) && Enabled(c, s, step) && !TakesSampled(c, s, step)
    ensures NoneSampled(c, Apply(c, s, step))
  {
    hide NoneSampled, TakesSampled, ReaderStep, ParserStep, HandlerStep, MainStep;
    hide ReaderEnabled, ParserEnabled, HandlerEnabled, MainEnabled;
    if ReaderEnabled(c, s, step) {
      NoneSampledReaderStep(c, s, step);
    } else if ParserEnabled(c, s, step) {
      NoneSampledParserStep(c, s, step);
    } else if HandlerEnabled(c, s, step) {
      NoneSampledHandlerStep(c, s, step);
    } else {
      NoneSampledMainStep(c, s, step);
    }
  }

  lemma NoneSampledReaderStep(c: Config, s: State, step: Step)
    requires ValidConfig(c) && NoneSampled(c, s) && ReaderEnabled(c, s, step)
    ensures NoneSampled(c, ReaderStep(c, s, step))
  {
    hide Sampled;
  }

  lemma NoneSampledParserStep(c: Config, s: State, step: Step)
    requires ValidConfig(c) && NoneSampled(c, s) && ParserEnabled(c, s, step) && !TakesSampled(c, s, step)
    ensures NoneSampled(c, ParserStep(c, s, step))
  {
    hide Parses, Blank, Sampled;
    match step {
      case Take(p) => NoneSampledTake(c, s, p);
      case SendRecord(p) =>
      case CountParsed(p) =>
      case StopParser(p) =>
      case Report(p) =>
    }
  }

  lemma NoneSampledTake(c: Config, s: State, p: nat)
    requires ValidConfig(c) && NoneSampled(c, s) && ParserEnabled(c, s, Take(p)) && !Sampled(c, s.input[0])
    ensures NoneSampled(c, ParserStep(c, s, Take(p)))
  {
    hide Parses, Blank, Sampled;
  }

  lemma NoneSampledHandlerStep(c: Config, s: State, step: Step)
    requires ValidConfig(c) && NoneSampled(c, s) && HandlerEnabled(c, s, step)
    ensures NoneSampled(c, HandlerStep(c, s, step))
  {
    hide Sampled;
  }

  lemma NoneSampledMainStep(c: Config, s: State, step: Step)
    requires ValidConfig(c) && NoneSampled(c, s) && MainEnabled(c, s, step)
    ensures NoneSampled(c, MainStep(c, s, step))
  {
    hide Sampled;
  }

  lemma ReaderServesBack(c: Config, total: nat, s: State, step: Step, budget: nat)
    requires ValidConfig(c) && ReaderInv(c, total, s) && ReaderEnabled(c, s, step)
    requires StateServes(c, ReaderStep(c, s, step), budget)
    ensures StateServes(c, s, budget)
  {
    hide Serves;
    match step {
      case Fill =>
        var t := ReaderStep(c, s, step);
        var n := Min(|s.pending|, c.shuffle - |s.buf|);
        assert t.pending[n - 1..] == s.pending[n..];
        assert t.buf + t.pending[..n - 1] == s.buf + s.pending[..n];
      case StartStreaming =>
        assert s.pending[0..] == s.pending && s.buf + s.pending[..0] == s.buf;
      case Shuffle(k) =>
        if k < |s.buf| {
          ServesLater(c, s.input, s.pending, s.buf, k, budget);
        }
      case StartDraining =>
        assert s.buf[0..] == s.buf;
        ServesDrained(c, s.input, s.buf, budget);
      case Drain =>
        assert s.input + [s.buf[s.reader.next]] + s.buf[s.reader.next + 1..] == s.input + s.buf[s.reader.next..];
      case CloseInput =>
        assert s.input + s.buf[s.reader.next..] == s.input;
      case _ =>
    }
  }

  /** The parser that takes a line is one of those not lost to unparsable lines. */
  lemma TakerLeft(c: Config, s: State, p: nat)
    requires ControlInv(c, s) && p < |s.parsers| && s.parsers[p].Idle?
    ensures |s.dropped| < c.parsers
  {
    hide Count;
    CountMember(s.parsers, p, HasFailed);
  }

  lemma TakeServesBack(c: Config, total: nat, s: State, p: nat)
    requires ValidConfig(c) && ReaderInv(c, total, s) && ControlInv(c, s) && ParserEnabled(c, s, Take(p))
    requires var t := ParserStep(c, s, Take(p)); Sampled(c, s.input[0]) || StateServes(c, t, Budget(c, t))
    ensures StateServes(c, s, Budget(c, s))
  {
    hide Parses, Blank, Sampled, ControlInv;
    TakerLeft(c, s, p);
    if s.reader.Draining? && s.reader.next <= |s.buf| {
      var rest := s.buf[s.reader.next..];
      assert (s.input + rest)[1..] == s.input[1..] + rest;
    }
  }

  lemma StepServesBack(c: Config, lines: seq<string>, s: State, step: Step)
    requires ValidConfig(c) && Inv(c, lines, s) && Enabled(c, s, step)
    requires TakesSampled(c, s, step) || StateServes(c, Apply(c, s, step), Budget(c, Apply(c, s, step)))
    ensures StateServes(c, s, Budget(c, s))
  {
    hide Parses, Blank, Sampled, StateServes, ReaderStep, ParserStep, HandlerStep, MainStep;
    hide ReaderEnabled, ParserEnabled, HandlerEnabled, MainEnabled;
    hide ReaderInv, ControlInv, CopiesInv, CounterInv, KindInv;
    if ReaderEnabled(c, s, step) {
      ReaderKeepsDropped(c, s, step);
      ReaderServesBack(c, |lines|, s, step, Budget(c, s));
    } else if ParserEnabled(c, s, step) && step.Take? {
      TakeServesBack(c, |lines|, s, step.p);
    } else {
      OthersKeepView(c, s, step);
      SameView(c, s, Apply(c, s, step), Budget(c, s));
    }
  }

  lemma ReaderKeepsDropped(c: Config, s: State, step: Step)
    requires ReaderEnabled(c, s, step)
    ensures ReaderStep(c, s, step).dropped == s.dropped && !step.Take?
  {
  }

  lemma OthersKeepView(c: Config, s: State, step: Step)
    requires ValidConfig(c) && Enabled(c, s, step) && !ReaderEnabled(c, s, step)
    requires !(ParserEnabled(c, s, step) && step.Take?)
    ensures SameReader(s, Apply(c, s, step)) && Apply(c, s, step).input == s.input
    ensures Apply(c, s, step).dropped == s.dropped && !step.Take?
  {
    hide Sampled, ReaderEnabled, ParserEnabled, HandlerEnabled, MainEnabled, ParserStep, HandlerStep, MainStep;
    if ParserEnabled(c, s, step) {
      ParserKeepsView(c, s, step);
    } else if HandlerEnabled(c, s, step) {
      HandlerKeepsView(c, s, step);
    } else {
      MainKeepsView(c, s, step);
    }
  }

  lemma ParserKeepsView(c: Config, s: State, step: Step)
    requires ParserEnabled(c, s, step) && !step.Take?
    ensures var t := ParserStep(c, s, step); SameReader(s, t) && t.input == s.input && t.dropped == s.dropped
  {
  }

  lemma HandlerKeepsView(c: Config, s: State, step: Step)
    requires ValidConfig(c) && HandlerEnabled(c, s, step)
    ensures var t := HandlerStep(c, s, step); SameReader(s, t) && t.input == s.input && t.dropped == s.dropped
    ensures !step.Take?
  {
    hide Sampled;
  }

  lemma MainKeepsView(c: Config, s: State, step: Step)
    requires MainEnabled(c, s, step)
    ensures var t := MainStep(c, s, step); SameReader(s, t) && t.input == s.input && t.dropped == s.dropped
    ensures !step.Take?
  {
  }

  lemma SameView(c: Config, s: State, t: State, budget: nat)
    requires ValidConfig(c) && SameReader(s, t) && t.input == s.input
    ensures StateServes(c, s, budget) == StateServes(c, t, budget)
  {
    hide Serves;
  }

  lemma {:induction false} ProcessedNeedsService(c: Config, lines: seq<string>, s: State, steps: seq<Step>, t: State)
    requires ValidConfig(c) && Inv(c, lines, s) && NoneSampled(c, s) && Run(c, s, steps, t) && t.processed != 0
    ensures StateServes(c, s, Budget(c, s))
    decreases |steps|
  {
    hide Inv, StateServes, Apply, Enabled, Sampled, TakesSampled;
    if steps != [] {
      var step, u := steps[0], Apply(c, s, steps[0]);
      hide NoneSampled;
      if !TakesSampled(c, s, step) {
        NoneSampledStep(c, s, step);
        StepKeepsInv(c, lines, s, step);
        ProcessedNeedsService(c, lines, u, steps[1..], t);
      }
      StepServesBack(c, lines, s, step);
    }
  }

  //
  // A run that makes a report negative
  //

  lemma {:induction false} RunsJoin(c: Config, s: State, p: seq<Step>, t: State, q: seq<Step>, u: State)
    requires ValidConfig(c) && Run(c, s, p, t) && Run(c, t, q, u)
    ensures Run(c, s, p + q, u)
    decreases |p|
  {
    hide Enabled, Apply;
    if p == [] {
      assert p + q == q;
    } else {
      RunsJoin(c, Apply(c, s, p[0]), p[1..], t, q, u);
      assert (p + q)[1..] == p[1..] + q;
    }
  }

  /** Every record taken so far was ignored and is counted, nothing has been reported to the main goroutine, and every
      parser waits for a line or has met a bad one. */
  predicate Settled(s: State) {
    && s.cnq == [] && s.parsed == s.ignored && s.processed == 0
    && s.main.Collecting? && s.main.received == 0 && !s.cnqClosed && s.done == []
    && (forall i :: 0 <= i < |s.parsers| ==> s.parsers[i].Idle? || s.parsers[i] == Reporting(false))
    && (forall i :: 0 <= i < |s.handlers| ==> s.handlers[i].Ready?)
  }

  lemma IdleParser(c: Config, s: State) returns (p: nat)
    requires ControlInv(c, s) && Settled(s) && Budget(c, s) > 0
    ensures p < |s.parsers| && s.parsers[p].Idle?
  {
    hide Count;
    CountAll(s.parsers, HasFailed);
    var q :| 0 <= q < |s.parsers| && !HasFailed(s.parsers[q]);
    p := q;
  }

  lemma HandlerThere(c: Config, s: State)
    requires ValidConfig(c) && ControlInv(c, s)
    ensures s.handlers != []
  {
  }

  lemma NoSteps(c: Config, s: State)
    requires ValidConfig(c)
    ensures Run(c, s, [], s)
  {
  }

  /** Two steps make a run. */
  lemma TwoSteps(c: Config, s: State, first: Step, second: Step)
    requires ValidConfig(c) && Enabled(c, s, first) && Enabled(c, Apply(c, s, first), second)
    ensures Run(c, s, [first, second], Apply(c, Apply(c, s, first), second))
  {
    hide Enabled, Apply;
    var u := Apply(c, s, first);
    var t := Apply(c, u, second);
    NoSteps(c, t);
    OneStep(c, u, second, [], t);
    assert [second] + [] == [second];
    OneStep(c, s, first, [second], t);
    assert [first] + [second] == [first, second];
  }

  /** A parser takes a line and sends its record. */
  lemma TakeAndSend(c: Config, s: State, p: nat) returns (t: State)
    requires ValidConfig(c) && s.main.Collecting? && !s.cnqClosed && s.cnq == []
    requires p < |s.parsers| && s.parsers[p].Idle? && s.input != [] && Parses(c, s.input[0])
    ensures Run(c, s, [Take(p), SendRecord(p)], t)
    ensures t == s.(input := s.input[1..], cnq := [s.input[0]], parsers := s.parsers[p := Counting])
  {
    hide Parses, Blank, Sampled, Run;
    ParsesNotBlank(c, s.input[0]);
    t := Apply(c, Apply(c, s, Take(p)), SendRecord(p));
    TwoSteps(c, s, Take(p), SendRecord(p));
  }

  lemma ParsesNotBlank(c: Config, x: string)
    requires Parses(c, x)
    ensures !Blank(x)
  {
  }

  function Handled(c: Config, s: State, line: string): State
    requires ValidConfig(c)
  {
    if Sampled(c, line) then s.(processed := s.processed + 1, processedLines := s.processedLines + multiset{line})
    else s.(ignored := s.ignored + 1, ignoredLines := s.ignoredLines + multiset{line})
  }

  /** A handler takes the one queued record and finishes with it. */
  lemma HandleOne(c: Config, s: State, line: string) returns (t: State)
    requires ValidConfig(c) && !Final(s) && s.cnq == [line] && s.handlers != [] && s.handlers[0].Ready?
    ensures Run(c, s, [TakeRecord(0), Handle(0)], t)
    ensures t == Handled(c, s.(cnq := []), line)
  {
    hide Sampled, Run, HandlerStep;
    TakeFirst(c, s, line);
    FinishFirst(c, HandlerStep(c, s, TakeRecord(0)), line);
    t := Apply(c, Apply(c, s, TakeRecord(0)), Handle(0));
    TwoSteps(c, s, TakeRecord(0), Handle(0));
    assert s.handlers[0 := Handling(line)][0 := Ready] == s.handlers;
  }

  lemma TakeFirst(c: Config, s: State, line: string)
    requires ValidConfig(c) && s.cnq == [line] && s.handlers != [] && s.handlers[0].Ready?
    ensures HandlerStep(c, s, TakeRecord(0)) == s.(cnq := [], handlers := s.handlers[0 := Handling(line)])
  {
  }

  lemma FinishFirst(c: Config, s: State, line: string)
    requires ValidConfig(c) && s.handlers != [] && s.handlers[0] == Handling(line)
    ensures HandlerStep(c, s, Handle(0)) == Handled(c, s.(handlers := s.handlers[0 := Ready]), line)
  {
    hide Sampled;
  }

  lemma CountOne(c: Config, s: State, p: nat) returns (t: State)
    requires ValidConfig(c) && !Final(s) && p < |s.parsers| && s.parsers[p].Counting?
    ensures Run(c, s, [CountParsed(p)], t)
    ensures t == s.(parsers := s.parsers[p := Idle], parsed := s.parsed + 1)
  {
    hide Run;
    t := Apply(c, s, CountParsed(p));
    NoSteps(c, t);
    OneStep(c, s, CountParsed(p), [], t);
    assert [CountParsed(p)] + [] == [CountParsed(p)];
  }

  /** A parser sends its record and a handler finishes with it before the parser counts it. */
  lemma Overtake(c: Config, s: State, p: nat) returns (steps: seq<Step>, t: State)
    requires ValidConfig(c) && ControlInv(c, s) && Settled(s) && p < |s.parsers| && s.parsers[p].Idle?
    requires s.input != [] && Sampled(c, s.input[0])
    ensures Run(c, s, steps, t) && Negative(t) && t.processed != 0
  {
    hide Parses, Blank, Sampled, Run, ControlInv;
    SampledParses(c, s.input[0]);
    HandlerThere(c, s);
    var u := TakeAndSend(c, s, p);
    t := HandleOne(c, u, s.input[0]);
    steps := [Take(p), SendRecord(p)] + [TakeRecord(0), Handle(0)];
    RunsJoin(c, s, [Take(p), SendRecord(p)], u, [TakeRecord(0), Handle(0)], t);
  }

  /** A record goes all the way: taken, sent, handled and counted. */
  lemma PassOn(c: Config, s: State, p: nat) returns (steps: seq<Step>, t: State)
    requires ValidConfig(c) && ControlInv(c, s) && Settled(s) && p < |s.parsers| && s.parsers[p].Idle?
    requires s.input != [] && Parses(c, s.input[0])
    ensures steps != [] && Run(c, s, steps, t)
    ensures t == Handled(c, s.(input := s.input[1..], parsed := s.parsed + 1), s.input[0])
  {
    hide Parses, Blank, Sampled, Run, ControlInv;
    HandlerThere(c, s);
    var line := s.input[0];
    var u := TakeAndSend(c, s, p);
    var v := HandleOne(c, u, line);
    t := CountOne(c, v, p);
    RunsJoin(c, s, [Take(p), SendRecord(p)], u, [TakeRecord(0), Handle(0)], v);
    steps := [Take(p), SendRecord(p)] + [TakeRecord(0), Handle(0)];
    RunsJoin(c, s, steps, v, [CountParsed(p)], t);
    steps := steps + [CountParsed(p)];
    assert s.parsers[p := Counting][p := Idle] == s.parsers;
  }

  predicate TakesRecord(c: Config, s: State, step: Step) {
    step.Take? && s.input != [] && Parses(c, s.input[0])
  }

  /** The step by which a line comes closer to being handled. */
  lemma NextStep(c: Config, total: nat, s: State) returns (step: Step)
    requires ValidConfig(c) && ReaderInv(c, total, s) && ControlInv(c, s) && Settled(s)
    requires StateServes(c, s, Budget(c, s)) && !(s.input != [] && Parses(c, s.input[0]))
    ensures Enabled(c, s, step) && (ReaderEnabled(c, s, step) || (ParserEnabled(c, s, step) && step.Take?))
    ensures NoError(step) && !TakesRecord(c, s, step)
    ensures StateServes(c, Apply(c, s, step), Budget(c, Apply(c, s, step)))
  {
    hide Parses, Blank, Sampled, Count, ControlInv;
    if s.input != [] {
      SampledParses(c, s.input[0]);
      var p := IdleParser(c, s);
      TakerLeft(c, s, p);
      step := Take(p);
      TakeServes(c, total, s, p);
    } else {
      step := ReaderServes(c, total, s);
    }
  }

  lemma TakeServes(c: Config, total: nat, s: State, p: nat)
    requires ValidConfig(c) && ReaderInv(c, total, s) && ControlInv(c, s) && ParserEnabled(c, s, Take(p))
    requires StateServes(c, s, Budget(c, s)) && !Sampled(c, s.input[0])
    ensures var t := ParserStep(c, s, Take(p)); StateServes(c, t, Budget(c, t))
  {
    hide Parses, Blank, Sampled, ControlInv;
    TakerLeft(c, s, p);
    if s.reader.Draining? {
      var rest := s.buf[s.reader.next..];
      assert (s.input + rest)[1..] == s.input[1..] + rest;
    }
  }

  lemma ReaderServes(c: Config, total: nat, s: State) returns (step: Step)
    requires ValidConfig(c) && ReaderInv(c, total, s) && s.input == [] && StateServes(c, s, Budget(c, s))
    ensures ReaderEnabled(c, s, step) && NoError(step)
    ensures StateServes(c, ReaderStep(c, s, step), Budget(c, s))
  {
    hide Serves, StateServes;
    match s.reader
    case Filling => step := FillServes(c, total, s);
    case Streaming => step := StreamServes(c, total, s);
    case Replacing(k) =>
      step := Replace;
      ReplaceServes(c, total, s);
    case _ => step := DrainServes(c, total, s);
  }

  lemma FillServes(c: Config, total: nat, s: State) returns (step: Step)
    requires ValidConfig(c) && ReaderInv(c, total, s) && s.reader.Filling? && StateServes(c, s, Budget(c, s))
    ensures ReaderEnabled(c, s, step) && NoError(step)
    ensures StateServes(c, ReaderStep(c, s, step), Budget(c, s))
  {
    hide Serves;
    if s.pending != [] && |s.buf| < c.shuffle {
      step := Fill;
      var t := ReaderStep(c, s, step);
      var n := Min(|s.pending|, c.shuffle - |s.buf|);
      assert t.pending[n - 1..] == s.pending[n..];
      assert t.buf + t.pending[..n - 1] == s.buf + s.pending[..n];
    } else {
      step := StartStreaming;
      assert s.pending[0..] == s.pending && s.buf + s.pending[..0] == s.buf;
    }
  }

  lemma StreamServes(c: Config, total: nat, s: State) returns (step: Step)
    requires ValidConfig(c) && ReaderInv(c, total, s) && s.reader.Streaming? && s.input == []
    requires StateServes(c, s, Budget(c, s))
    ensures ReaderEnabled(c, s, step) && NoError(step)
    ensures StateServes(c, ReaderStep(c, s, step), Budget(c, s))
  {
    hide ReaderInv, Sampled, Left;
    var budget := Budget(c, s);
    assert !s.inputClosed by { StreamingOpen(c, total, s); }
    if s.pending != [] {
      var k :| 0 <= k < |s.buf| && Serves(c, [s.buf[k]], s.pending[1..], s.buf[k := s.pending[0]], budget);
      step := Shuffle(k);
      hide Serves;
      assert s.input + [s.buf[k]] == [s.buf[k]];
    } else {
      step := StartDraining;
      assert s.input + s.buf[0..] == s.buf;
    }
  }

  lemma StreamingOpen(c: Config, total: nat, s: State)
    requires ReaderInv(c, total, s) && s.reader.Streaming?
    ensures !s.inputClosed
  {
  }

  lemma ReplaceServes(c: Config, total: nat, s: State)
    requires ValidConfig(c) && ReaderInv(c, total, s) && s.reader.Replacing? && StateServes(c, s, Budget(c, s))
    ensures ReaderEnabled(c, s, Replace)
    ensures StateServes(c, ReaderStep(c, s, Replace), Budget(c, s))
  {
    hide Serves;
  }

  lemma NothingServed(c: Config, budget: nat)
    requires ValidConfig(c)
    ensures !Serves(c, [], [], [], budget)
  {
  }

  lemma DrainServes(c: Config, total: nat, s: State) returns (step: Step)
    requires ValidConfig(c) && ReaderInv(c, total, s) && s.input == [] && (s.reader.Draining? || s.reader.Closed?)
    requires StateServes(c, s, Budget(c, s))
    ensures ReaderEnabled(c, s, step) && NoError(step)
    ensures StateServes(c, ReaderStep(c, s, step), Budget(c, s))
  {
    hide Serves;
    NothingServed(c, Budget(c, s));
    step := Drain;
    if s.reader.Draining? {
      var next := s.reader.next;
      assert s.input + s.buf[next..] == [] <==> next >= |s.buf|;
      assert next < |s.buf| ==>
          s.input + [s.buf[next]] + s.buf[next + 1..] == s.input + s.buf[next..];
    }
  }

  /** Following `Serves` step by step ends with a sampled record that is handled before it is counted. */
  lemma {:induction false} Reach(c: Config, lines: seq<string>, s: State) returns (steps: seq<Step>, t: State)
    requires ValidConfig(c) && Inv(c, lines, s) && Settled(s) && StateServes(c, s, Budget(c, s))
    ensures Run(c, s, steps, t) && Negative(t) && t.processed != 0
    decreases Work(s)
  {
    hide ReaderInv, ControlInv, CopiesInv, CounterInv, KindInv, Parses, Sampled, StateServes;
    hide Settled, Run, Apply, Enabled, Work;
    if s.input != [] && Sampled(c, s.input[0]) {
      var p := ParserForIt(c, s);
      steps, t := Overtake(c, s, p);
    } else {
      var u: State;
      if s.input != [] && Parses(c, s.input[0]) {
        steps, u := PassIgnored(c, lines, s);
      } else {
        var step := NextStep(c, |lines|, s);
        StaysSettled(c, |lines|, s, step);
        u := Apply(c, s, step);
        NoSteps(c, u);
        OneStep(c, s, step, [], u);
        steps := [step] + [];
      }
      RunKeepsInv(c, lines, s, steps, u);
      RunsAreBounded(c, lines, s, steps, u);
      var more: seq<Step>;
      more, t := Reach(c, lines, u);
      RunsJoin(c, s, steps, u, more, t);
      steps := steps + more;
    }
  }

  lemma PassIgnored(c: Config, lines: seq<string>, s: State) returns (steps: seq<Step>, t: State)
    requires ValidConfig(c) && Inv(c, lines, s) && Settled(s) && StateServes(c, s, Budget(c, s))
    requires s.input != [] && Parses(c, s.input[0]) && !Sampled(c, s.input[0])
    ensures steps != [] && Run(c, s, steps, t) && Settled(t) && StateServes(c, t, Budget(c, t))
  {
    hide ReaderInv, ControlInv, CopiesInv, CounterInv, KindInv, Parses, Blank, Sampled, StateServes, Run;
    var p := ParserForIt(c, s);
    steps, t := PassOn(c, s, p);
    TakeServes(c, |lines|, s, p);
    TakenView(c, s, p);
    SameView(c, ParserStep(c, s, Take(p)), t, Budget(c, t));
  }

  lemma TakenView(c: Config, s: State, p: nat)
    requires ParserEnabled(c, s, Take(p)) && Parses(c, s.input[0])
    ensures var t := ParserStep(c, s, Take(p));
            SameReader(s, t) && t.input == s.input[1..] && t.dropped == s.dropped
  {
    hide Parses, Blank;
    ParsesNotBlank(c, s.input[0]);
  }

  lemma ParserForIt(c: Config, s: State) returns (p: nat)
    requires ValidConfig(c) && ControlInv(c, s) && Settled(s) && StateServes(c, s, Budget(c, s))
    ensures p < |s.parsers| && s.parsers[p].Idle?
  {
    hide ControlInv, Settled, Sampled, Left;
    p := IdleParser(c, s);
  }

  lemma StaysSettled(c: Config, total: nat, s: State, step: Step)
    requires ValidConfig(c) && ReaderInv(c, total, s) && Settled(s) && Enabled(c, s, step) && NoError(step)
    requires ReaderEnabled(c, s, step) || (ParserEnabled(c, s, step) && step.Take?)
    requires !TakesRecord(c, s, step)
    ensures Settled(Apply(c, s, step))
  {
    hide Parses, Blank, ReaderInv, HandlerStep, MainStep, HandlerEnabled, MainEnabled;
    if ReaderEnabled(c, s, step) {
      hide ParserStep, ParserEnabled;
      ReaderStepKeeps(c, total, s, step);
    } else {
      hide ReaderStep, ReaderEnabled;
    }
  }

  //
  // The input condition
  //

  /** For every input: the ticker can write a negative report exactly when it can write any, which is exactly when the
      lines can reach the parsers in an order in which one with a sampled subject comes before as many as there are
      parsers that do not parse. */
  lemma CanReportNegativeIff(c: Config, lines: seq<string>)
    requires ValidConfig(c)
    ensures CanReportNegative(c, lines) <==> InputServes(c, lines)
    ensures CanReport(c, lines) <==> InputServes(c, lines)
  {
    hide Run, Init, Inv, Serves, Settled, NoneSampled, Reports, Tick, InputServes, StateServes;
    if CanReport(c, lines) {
      var rs :| rs != [] && Reports(c, Init(c, lines), 0, rs);
      ReportNeedsService(c, lines, rs);
    }
    if InputServes(c, lines) {
      InitHolds(c, lines);
      StartsSettled(c, lines);
      var steps, t := Reach(c, lines, Init(c, lines));
      var r := ReportAt(c, Init(c, lines), steps, t);
      assert Reports(c, Init(c, lines), 0, [r]) && [r][0].Pending() < 0;
    }
  }

  lemma ReportNeedsService(c: Config, lines: seq<string>, rs: seq<LogLine>)
    requires ValidConfig(c) && rs != [] && Reports(c, Init(c, lines), 0, rs)
    ensures InputServes(c, lines)
  {
    hide Run, Init, Inv, Serves, Settled, NoneSampled, StateServes, InputServes;
    InitHolds(c, lines);
    StartsSettled(c, lines);
    var s := Init(c, lines);
    var t :| Tick(c, s, 0, rs[0], t);
    var p1, t1, p2, t2, p3 :|
      && Run(c, s, p1, t1) && Run(c, t1, p2, t2) && Run(c, t2, p3, t)
      && t1.processed != 0 && rs[0] == LogLine(t1.processed, t2.parsed, t.ignored);
    ProcessedNeedsService(c, lines, s, p1, t1);
  }

  /** A tick may find one state for all its loads. */
  lemma ReportAt(c: Config, s: State, steps: seq<Step>, t: State) returns (r: LogLine)
    requires ValidConfig(c) && Run(c, s, steps, t) && t.processed != 0
    ensures r == LogLine(t.processed, t.parsed, t.ignored) && Reports(c, s, 0, [r])
  {
    hide Run;
    r := LogLine(t.processed, t.parsed, t.ignored);
    NoSteps(c, t);
    OneReport(c, s, steps, t, [], t, [], t);
  }

  lemma OneReport(
      c: Config, s: State, p1: seq<Step>, t1: State, p2: seq<Step>, t2: State, p3: seq<Step>, t3: State)
    requires ValidConfig(c) && Run(c, s, p1, t1) && Run(c, t1, p2, t2) && Run(c, t2, p3, t3) && t1.processed != 0
    ensures Reports(c, s, 0, [LogLine(t1.processed, t2.parsed, t3.ignored)])
  {
    hide Run;
    var r := LogLine(t1.processed, t2.parsed, t3.ignored);
    assert Tick(c, s, 0, [r][0], t3);
    hide Tick;
    assert [r][1..] == [];
    assert Reports(c, t3, [r][0].processed, [r][1..]);
  }

  lemma StartsSettled(c: Config, lines: seq<string>)
    requires ValidConfig(c)
    ensures var s := Init(c, lines);
            Settled(s) && NoneSampled(c, s) && (StateServes(c, s, Budget(c, s)) <==> InputServes(c, lines))
  {
    hide Serves, Sampled;
    var n := Min(|lines|, c.shuffle);
    assert [] + lines[..n] == lines[..n];
  }

  ghost predicate AnySampled(c: Config, lines: seq<string>)
    requires ValidConfig(c)
  {
    exists i :: 0 <= i < |lines| && Sampled(c, lines[i])
  }

  lemma {:induction false} ServesNeedsRecord(
      c: Config, queue: seq<string>, pending: seq<string>, buf: seq<string>, budget: nat)
    requires ValidConfig(c) && Serves(c, queue, pending, buf, budget)
    ensures AnySampled(c, queue) || AnySampled(c, pending) || AnySampled(c, buf)
    decreases |pending|, |buf|, |queue|
  {
    hide Sampled, Left;
    if queue != [] {
      if !Sampled(c, queue[0]) {
        ServesNeedsRecord(c, queue[1..], pending, buf, Left(c, queue[0], budget));
      }
    } else if pending != [] {
      var k :| 0 <= k < |buf| && Serves(c, [buf[k]], pending[1..], buf[k := pending[0]], budget);
      ServesNeedsRecord(c, [buf[k]], pending[1..], buf[k := pending[0]], budget);
    } else {
      ServesNeedsRecord(c, buf, [], [], budget);
    }
  }

  /** When fewer lines fail to parse than there are parsers, any order will do. */
  lemma {:induction false} FewBadServe(
      c: Config, queue: seq<string>, pending: seq<string>, buf: seq<string>, budget: nat)
    requires ValidConfig(c)
    requires Count(queue, BadLine(c)) + Count(pending, BadLine(c)) + Count(buf, BadLine(c)) < budget
    requires AnySampled(c, queue) || AnySampled(c, pending) || AnySampled(c, buf)
    requires pending != [] ==> buf != []
    ensures Serves(c, queue, pending, buf, budget)
    decreases |pending|, |buf|, |queue|
  {
    hide Parses, Blank, Sampled, Count;
    NoneCounted(c);
    if queue != [] {
      if !Sampled(c, queue[0]) {
        CountTail(queue, BadLine(c));
        FewBadServe(c, queue[1..], pending, buf, Left(c, queue[0], budget));
      }
    } else if pending != [] {
      SwapCounts(pending, buf, BadLine(c));
      SwapSampled(c, pending, buf);
      FewBadServe(c, [buf[0]], pending[1..], buf[0 := pending[0]], budget);
    } else {
      FewBadServe(c, buf, [], [], budget);
    }
  }

  lemma SwapCounts<T>(pending: seq<T>, buf: seq<T>, f: T -> bool)
    requires pending != [] && buf != []
    ensures Count([buf[0]], f) + Count(pending[1..], f) + Count(buf[0 := pending[0]], f) ==
            Count(pending, f) + Count(buf, f)
  {
    CountTail(pending, f);
    CountUpdate(buf, 0, pending[0], f);
    assert [buf[0]][..0] == [];
  }

  lemma SwapSampled(c: Config, pending: seq<string>, buf: seq<string>)
    requires ValidConfig(c) && pending != [] && buf != [] && (AnySampled(c, pending) || AnySampled(c, buf))
    ensures AnySampled(c, [buf[0]]) || AnySampled(c, pending[1..]) || AnySampled(c, buf[0 := pending[0]])
  {
    hide Sampled;
    if i :| 0 <= i < |pending| && Sampled(c, pending[i]) {
      assert Sampled(c, if i == 0 then buf[0 := pending[0]][0] else pending[1..][i - 1]);
    } else {
      var i :| 0 <= i < |buf| && Sampled(c, buf[i]);
      assert Sampled(c, if i == 0 then [buf[0]][0] else buf[0 := pending[0]][i]);
    }
  }

  lemma NoneCounted(c: Config)
    ensures Count([], BadLine(c)) == 0
  {
  }

  /** A line with a sampled subject is needed; it is enough when fewer lines fail to parse than there are parsers. */
  lemma NegativeWhenFewBad(c: Config, lines: seq<string>)
    requires ValidConfig(c)
    ensures CanReportNegative(c, lines) ==> AnySampled(c, lines)
    ensures AnySampled(c, lines) && Count(lines, BadLine(c)) < c.parsers ==> CanReportNegative(c, lines)
  {
    hide Serves, CanReportNegative, CanReport, Sampled, Count;
    CanReportNegativeIff(c, lines);
    NoneCounted(c);
    var n := Min(|lines|, c.shuffle);
    assert lines == lines[..n] + lines[n..];
    if InputServes(c, lines) {
      ServesNeedsRecord(c, [], lines[n..], lines[..n], c.parsers);
    }
    if AnySampled(c, lines) && Count(lines, BadLine(c)) < c.parsers {
      CountConcat(lines[..n], lines[n..], BadLine(c));
      var i :| 0 <= i < |lines| && Sampled(c, lines[i]);
      assert if i < n then lines[..n][i] == lines[i] else lines[n..][i - n] == lines[i];
      FewBadServe(c, [], lines[n..], lines[..n], c.parsers);
    }
  }

  lemma {:induction false} CountConcat<T>(a: seq<T>, b: seq<T>, f: T -> bool)
    ensures Count(a + b, f) == Count(a, f) + Count(b, f)
    decreases |b|
  {
    if b == [] {
      assert a + b == a;
    } else {
      var n := |b| - 1;
      CountConcat(a, b[..n], f);
      assert (a + b)[..|a + b| - 1] == a + b[..n];
    }
  }

  /** On inputs whose lines all parse or are blank: a negative report is possible whenever some subject is sampled. */
  lemma NegativeOnCleanInputIff(c: Config, lines: seq<string>)
    requires ValidConfig(c) && forall x :: x in lines && !Blank(x) ==> Parses(c, x)
    ensures CanReportNegative(c, lines) <==> exists x :: x in lines && Sampled(c, x)
  {
    hide CanReportNegative, Count, Blank, Parses, Sampled;
    NegativeWhenFewBad(c, lines);
    CountAll(lines, BadLine(c));
    assert forall i :: 0 <= i < |lines| ==> lines[i] in lines;
    if x :| x in lines && Sampled(c, x) {
      var i :| 0 <= i < |lines| && lines[i] == x;
      assert Sampled(c, lines[i]);
    }
  }

  //
  // How far below zero
  //

  lemma StepCounts(c: Config, s: State, step: Step)
    requires ValidConfig(c) && Enabled(c, s, step)
    ensures var t := Apply(c, s, step);
            s.processed <= t.processed && s.ignored <= t.ignored && s.parsed <= t.parsed
  {
    hide Parses, Blank, Sampled;
  }

  lemma {:induction false} CountersGrow(c: Config, s: State, steps: seq<Step>, t: State)
    requires ValidConfig(c) && Run(c, s, steps, t)
    ensures s.processed <= t.processed && s.ignored <= t.ignored && s.parsed <= t.parsed
    decreases |steps|
  {
    hide Apply, Enabled;
    if steps != [] {
      StepCounts(c, s, steps[0]);
      CountersGrow(c, Apply(c, s, steps[0]), steps[1..], t);
    }
  }

  /** A report falls below zero by at most one record a parser and the records ignored between its last two loads. */
  lemma ReportLag(
      c: Config, lines: seq<string>, p1: seq<Step>, t1: State, p2: seq<Step>, t2: State, p3: seq<Step>, t3: State)
    requires ValidConfig(c) && Run(c, Init(c, lines), p1, t1) && Run(c, t1, p2, t2) && Run(c, t2, p3, t3)
    ensures 0 <= t3.ignored - t2.ignored
    ensures LogLine(t1.processed, t2.parsed, t3.ignored).Pending() + c.parsers + (t3.ignored - t2.ignored) >= 0
  {
    hide Run, Init;
    RunsJoin(c, Init(c, lines), p1, t1, p2, t2);
    CountersLag(c, lines, p1 + p2, t2);
    CountersGrow(c, t1, p2, t2);
    CountersGrow(c, t2, p3, t3);
  }

  lemma IgnoredIsListed(c: Config, lines: seq<string>, s: State, x: string)
    requires ValidConfig(c) && CopiesInv(lines, s) && KindInv(c, s) && s.ignoredLines[x] > 0
    ensures x in lines && Parses(c, x) && !Sampled(c, x)
  {
    hide Count, Blank, Parses, Sampled, Unsent;
    assert Copies(s, x) == Occurs(lines, x);
    assert x in s.ignoredLines && IgnoredLine(c)(x);
  }

  lemma NoneIgnored(c: Config, lines: seq<string>, s: State)
    requires ValidConfig(c) && Inv(c, lines, s) && forall x :: x in lines && Parses(c, x) ==> Sampled(c, x)
    ensures s.ignored == 0
  {
    hide Count, Parses, Sampled, ReaderInv, ControlInv, CopiesInv, KindInv;
    if x :| x in s.ignoredLines {
      IgnoredIsListed(c, lines, s, x);
    }
    assert s.ignoredLines == multiset{};
  }

  /** Where nothing is ignored, no report is lower than one record a parser below zero. */
  lemma {:induction false} ReportsBounded(
      c: Config, lines: seq<string>, p: seq<Step>, s: State, prev: nat, rs: seq<LogLine>)
    requires ValidConfig(c) && Run(c, Init(c, lines), p, s) && Reports(c, s, prev, rs)
    requires forall x :: x in lines && Parses(c, x) ==> Sampled(c, x)
    ensures forall i :: 0 <= i < |rs| ==> rs[i].Pending() + c.parsers >= 0
    decreases |rs|
  {
    hide Run, Init, Inv, Parses, Sampled;
    if rs != [] {
      var t :| Tick(c, s, prev, rs[0], t) && Reports(c, t, rs[0].processed, rs[1..]);
      var p1, t1, p2, t2, p3 :|
        && Run(c, s, p1, t1) && Run(c, t1, p2, t2) && Run(c, t2, p3, t)
        && t1.processed != prev && rs[0] == LogLine(t1.processed, t2.parsed, t.ignored);
      RunsJoin(c, Init(c, lines), p, s, p1, t1);
      ReportLag(c, lines, p + p1, t1, p2, t2, p3, t);
      RunsJoin(c, Init(c, lines), p + p1, t1, p2, t2);
      RunsJoin(c, Init(c, lines), p + p1 + p2, t2, p3, t);
      InitHolds(c, lines);
      RunKeepsInv(c, lines, Init(c, lines), p + p1 + p2 + p3, t);
      NoneIgnored(c, lines, t);
      ReportsBounded(c, lines, p + p1 + p2 + p3, t, rs[0].processed, rs[1..]);
    }
  }

  //
  // Without a bound where records are ignored
  //

  /** Nothing but the reader has moved. */
  predicate OnlyReader(s: State, t: State) {
    t == s.(pending := t.pending, buf := t.buf, reader := t.reader, input := t.input, read := t.read)
  }

  lemma {:induction false} FillUp(c: Config, s: State) returns (steps: seq<Step>, t: State)
    requires ValidConfig(c) && !Final(s) && s.reader.Filling? && |s.buf| <= c.shuffle
    ensures Run(c, s, steps, t) && OnlyReader(s, t) && t.reader.Streaming? && t.input == s.input
    ensures s.buf <= t.buf && (s.buf == [] && s.pending != [] ==> t.buf != [] && t.buf[0] == s.pending[0])
    decreases |s.pending|
  {
    hide Run;
    var step := if s.pending != [] && |s.buf| < c.shuffle then Fill else StartStreaming;
    t := Apply(c, s, step);
    if step.Fill? {
      var u := t;
      steps, t := FillUp(c, u);
      assert u.buf[|s.buf|] == s.pending[0];
    } else {
      NoSteps(c, t);
      steps := [];
    }
    OneStep(c, s, step, steps, t);
    steps := [step] + steps;
  }

  /** The reader can send the first line first. */
  lemma SendFirst(c: Config, lines: seq<string>) returns (steps: seq<Step>, t: State)
    requires ValidConfig(c) && lines != []
    ensures Run(c, Init(c, lines), steps, t) && OnlyReader(Init(c, lines), t) && t.input == [lines[0]]
  {
    hide Run;
    var s := Init(c, lines);
    var u: State;
    steps, u := FillUp(c, s);
    var more;
    if u.pending != [] {
      t := Apply(c, u, Shuffle(0));
      NoSteps(c, t);
      OneStep(c, u, Shuffle(0), [], t);
      more := [Shuffle(0)] + [];
    } else {
      t := Apply(c, Apply(c, u, StartDraining), Drain);
      TwoSteps(c, u, StartDraining, Drain);
      more := [StartDraining, Drain];
    }
    RunsJoin(c, s, steps, u, more, t);
    steps := steps + more;
  }

  /** On an input whose lines all parse or are blank, the loader can return from wherever it is. */
  lemma {:induction false} Complete(c: Config, lines: seq<string>, s: State) returns (steps: seq<Step>, t: State)
    requires ValidConfig(c) && Inv(c, lines, s) && !s.main.Died?
    requires forall x :: x in lines && !Blank(x) ==> Parses(c, x)
    ensures Run(c, s, steps, t) && t.main.Returned?
    decreases Work(s)
  {
    hide ReaderInv, CopiesInv, CounterInv, KindInv, Run, Apply, Enabled, Work, Parses, Blank, Count;
    if s.main.Returned? {
      NoSteps(c, s);
      steps, t := [], s;
    } else {
      var step := SomeProgress(c, lines, s);
      StepKeepsInv(c, lines, s, step);
      StepWorks(c, |lines|, s, step);
      StepStaysAlive(c, lines, s, step);
      steps, t := Complete(c, lines, Apply(c, s, step));
      OneStep(c, s, step, steps, t);
      steps := [step] + steps;
    }
  }

  function OneThenMany(a: string, b: string, n: nat): (lines: seq<string>)
    ensures |lines| == n + 1 && lines[0] == a && forall i :: 0 < i <= n ==> lines[i] == b
  {
    [a] + seq(n, _ => b)
  }

  lemma {:induction false} ManyOccur(a: string, b: string, n: nat)
    requires a != b
    ensures Occurs(OneThenMany(a, b, n), b) == n
  {
    if n == 0 {
      assert OneThenMany(a, b, 0) == [a];
    } else {
      ManyOccur(a, b, n - 1);
      assert OneThenMany(a, b, n) == OneThenMany(a, b, n - 1) + [b];
    }
  }

  /** The first line is handled and counted, and nothing else. */
  lemma FirstHandled(c: Config, lines: seq<string>) returns (steps: seq<Step>, t: State)
    requires ValidConfig(c) && lines != [] && Sampled(c, lines[0])
    ensures Run(c, Init(c, lines), steps, t) && t.processed == t.parsed == 1 && !t.main.Died?
  {
    hide Run, Sampled, Parses, Blank;
    var s: State;
    steps, s := SendFirst(c, lines);
    InitHolds(c, lines);
    RunKeepsInv(c, lines, Init(c, lines), steps, s);
    SampledParses(c, lines[0]);
    var more: seq<Step>;
    more, t := PassOn(c, s, 0);
    RunsJoin(c, Init(c, lines), steps, s, more, t);
    steps := steps + more;
  }

  /** With a sampled line and then `n` lines that are parsed and ignored, a report can be `n` below zero, whatever the
      number of parsers: all of them are ignored between the loads of `parsed` and of `ignored`. */
  lemma ReportsUnbounded(c: Config, a: string, b: string, n: nat)
    requires ValidConfig(c) && Sampled(c, a) && Parses(c, b) && !Sampled(c, b)
    ensures exists r: LogLine :: Reports(c, Init(c, OneThenMany(a, b, n)), 0, [r]) && r.Pending() + n == 0
  {
    hide Run, Init, Inv, Sampled, Parses, Blank, Reports, OneThenMany, Occurs;
    var lines := OneThenMany(a, b, n);
    var p1, t1 := FirstHandled(c, lines);
    InitHolds(c, lines);
    RunKeepsInv(c, lines, Init(c, lines), p1, t1);
    SampledParses(c, a);
    var p3, t3 := Complete(c, lines, t1);
    RunsJoin(c, Init(c, lines), p1, t1, p3, t3);
    AllIgnored(c, a, b, n, p1 + p3, t3);
    NoSteps(c, t1);
    OneReport(c, Init(c, lines), p1, t1, [], t1, p3, t3);
    assert LogLine(t1.processed, t1.parsed, t3.ignored).Pending() + n == 0;
  }

  lemma AllIgnored(c: Config, a: string, b: string, n: nat, steps: seq<Step>, t: State)
    requires ValidConfig(c) && Sampled(c, a) && Parses(c, b) && !Sampled(c, b)
    requires Run(c, Init(c, OneThenMany(a, b, n)), steps, t) && t.main.Returned?
    ensures t.ignored == n
  {
    hide Run, Init, Sampled, Parses, Blank, Occurs;
    var lines := OneThenMany(a, b, n);
    CompletesExactly(c, lines, steps, t);
    ParsesNotBlank(c, b);
    ManyOccur(a, b, n);
    forall x
      ensures t.ignoredLines[x] == multiset{b}[x] * n
    {
      NotThere(lines, x);
    }
    OnlyOne(t.ignoredLines, b, n);
  }

  lemma NotThere(lines: seq<string>, x: string)
    ensures x !in lines ==> Occurs(lines, x) == 0
  {
  }

  lemma OnlyOne(m: multiset<string>, b: string, n: nat)
    requires forall x :: m[x] == multiset{b}[x] * n
    ensures |m| == n
  {
    assert m == multiset{}[b := n];
  }
}
