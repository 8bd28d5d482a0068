/**
 The document queue of the docs-i18n tool: the sequential runner, and the parallel
 runner as a transition system over feeder, workers, collector, job channel
 (unbuffered), result channel (buffered, one slot per document) and cancel flag.
 */
module DocQueue {
  import opened Text

  /** What processing one document ends in when nobody cancels it. */
  datatype Outcome = Processed | Skipped | Failed

  /** What a worker reports: the outcome, or an error caused only by the cancelled context. */
  datatype Verdict = Of(outcome: Outcome) | Interrupted

  datatype Message = StartFailed(worker: nat) | Finished(job: nat, verdict: Verdict)

  predicate IsError(m: Message) {
    m.StartFailed? || m.verdict == Of(Failed) || m.verdict.Interrupted?
  }

  // ---------------------------------------------------------------- sequential runner

  datatype Summary = Summary(processed: nat, skipped: nat, failedAt: Option<nat>)

  /** Documents in order, stopping at the first error. */
  function Sequential(outcomes: seq<Outcome>): Summary {
    if outcomes == [] then Summary(0, 0, None)
    else
      var before := Sequential(outcomes[..|outcomes| - 1]);
      if before.failedAt.Some? then before
      else match outcomes[|outcomes| - 1]
        case Processed => before.(processed := before.processed + 1)
        case Skipped => before.(skipped := before.skipped + 1)
        case Failed => before.(failedAt := Some(|outcomes| - 1))
  }

  lemma {:induction false} SequentialStops(outcomes: seq<Outcome>, k: nat)
    requires k <= |outcomes| && Sequential(outcomes[..k]).failedAt.Some?
    ensures Sequential(outcomes) == Sequential(outcomes[..k])
  {
    if k == |outcomes| {
      assert outcomes[..k] == outcomes;
    } else {
      var shorter := outcomes[..|outcomes| - 1];
      assert shorter[..k] == outcomes[..k];
      SequentialStops(shorter, k);
    }
  }

  method RunDocSequential(outcomes: seq<Outcome>) returns (processed: nat, skipped: nat, failedAt: Option<nat>)
    ensures Summary(processed, skipped, failedAt) == Sequential(outcomes)
  {
    processed, skipped, failedAt := 0, 0, None;
    for index := 0 to |outcomes|
      invariant Summary(processed, skipped, None) == Sequential(outcomes[..index])
      invariant failedAt.None?
    {
      assert outcomes[..index + 1][..index] == outcomes[..index];
      match outcomes[index]
      case Failed =>
        SequentialStops(outcomes, index + 1);
        return processed, skipped, Some(index);
      case Skipped => skipped := skipped + 1;
      case Processed => processed := processed + 1;
    }
    assert outcomes[..|outcomes|] == outcomes;
  }

  /** The first failed document is the k-th. */
  predicate IsFirstFailure(outcomes: seq<Outcome>, k: nat) {
    k < |outcomes| && outcomes[k] == Failed && forall i :: 0 <= i < k ==> outcomes[i] != Failed
  }

  function Tallied(outcomes: seq<Outcome>, failedAt: Option<nat>): Summary {
    Summary(multiset(outcomes)[Processed], multiset(outcomes)[Skipped], failedAt)
  }

  /** The sequential runner stops at the first failed document, if any; its counts are tallies up to there. */
  lemma {:induction false} SequentialMeaning(outcomes: seq<Outcome>)
    ensures Failed !in outcomes ==> Sequential(outcomes) == Tallied(outcomes, None)
    ensures Failed in outcomes ==>
              exists k: nat :: IsFirstFailure(outcomes, k) && Sequential(outcomes) == Tallied(outcomes[..k], Some(k))
  {
    if outcomes != [] {
      var shorter, last := outcomes[..|outcomes| - 1], outcomes[|outcomes| - 1];
      SequentialMeaning(shorter);
      assert outcomes == shorter + [last];
      if Failed in shorter {
        var k: nat :| IsFirstFailure(shorter, k) && Sequential(shorter) == Tallied(shorter[..k], Some(k));
        assert shorter[..k] == outcomes[..k] && IsFirstFailure(outcomes, k);
      } else if last == Failed {
        assert IsFirstFailure(outcomes, |shorter|);
      }
    }
  }

  // ---------------------------------------------------------------- parallel runner

  /** One call: which translators fail to start, and what each document ends in. */
  datatype Call = Call(startFails: seq<bool>, outcomes: seq<Outcome>)

  /** Where a worker goroutine is. */
  datatype Worker =
    | Starting(fails: bool)    // before NewPiTranslator returns
    | Ready                    // at the head of the range loop over jobs
    | Holding(job: nat)        // took a job, has not looked at the context yet
    | Running(job: nat)        // inside processFileDoc
    | Sending(message: Message)
    | Cancelling               // sent an error, about to cancel and return
    | Exited

  datatype Collector =
    | Collecting(processed: nat, skipped: nat)
    | Waiting(processed: nat, skipped: nat, error: Option<Message>)
    | Returned(processed: nat, skipped: nat, error: Option<Message>)

  /** `started` records the processFileDoc calls and `dropped` the jobs abandoned on a cancelled context. */
  datatype State = State(
    workers: seq<Worker>, fed: nat, closed: bool, buffer: seq<Message>, received: seq<Message>,
    cancelled: bool, collector: Collector, started: seq<nat>, dropped: nat)

  function Init(c: Call): State {
    State(seq(|c.startFails|, w requires 0 <= w < |c.startFails| => Starting(c.startFails[w])),
          0, false, [], [], false, Collecting(0, 0), [], 0)
  }

  datatype Action =
    | StartTranslator(w: nat)
    | TakeJob(w: nat)
    | SeeClosed(w: nat)
    | CheckContext(w: nat)
    | FinishJob(w: nat, interrupted: bool)
    | SendResult(w: nat)
    | CancelAndExit(w: nat)
    | CloseJobs
    | Receive
    | StopReceiving
    | Return

  ghost predicate Enabled(c: Call, s: State, a: Action) {
    var n := |c.outcomes|;
    match a
    case StartTranslator(w) => w < |s.workers| && s.workers[w].Starting?
    case TakeJob(w) => w < |s.workers| && s.workers[w].Ready? && s.fed < n && !s.closed
    case SeeClosed(w) => w < |s.workers| && s.workers[w].Ready? && s.closed
    case CheckContext(w) => w < |s.workers| && s.workers[w].Holding?
    case FinishJob(w, interrupted) => w < |s.workers| && s.workers[w].Running? && (interrupted ==> s.cancelled)
    case SendResult(w) => w < |s.workers| && s.workers[w].Sending? && |s.buffer| < n
    case CancelAndExit(w) => w < |s.workers| && s.workers[w].Cancelling?
    case CloseJobs => s.fed == n && !s.closed
    case Receive => s.collector.Collecting? && |s.received| < n && s.buffer != []
    case StopReceiving => s.collector.Collecting? && |s.received| >= n
    case Return => s.collector.Waiting? && forall w :: 0 <= w < |s.workers| ==> s.workers[w].Exited?
  }

  function AfterSend(m: Message): Worker {
    if m.StartFailed? then Exited else if IsError(m) then Cancelling else Ready
  }

  function AfterReceive(k: Collector, m: Message): Collector
    requires k.Collecting?
  {
    if IsError(m) then Waiting(k.processed, k.skipped, Some(m))
    else if m.verdict == Of(Skipped) then Collecting(k.processed, k.skipped + 1)
    else Collecting(k.processed + 1, k.skipped)
  }

  ghost function Apply(c: Call, s: State, a: Action): State
    requires Valid(c) && Shape(c, s) && Enabled(c, s, a)
  {
    match a
    case StartTranslator(w) =>
      s.(workers := s.workers[w := if s.workers[w].fails then Sending(StartFailed(w)) else Ready])
    case TakeJob(w) =>
      s.(workers := s.workers[w := Holding(s.fed)], fed := s.fed + 1)
    case SeeClosed(w) =>
      s.(workers := s.workers[w := Exited])
    case CheckContext(w) =>
      if s.cancelled then s.(workers := s.workers[w := Exited], dropped := s.dropped + 1)
      else s.(workers := s.workers[w := Running(s.workers[w].job)], started := s.started + [s.workers[w].job])
    case FinishJob(w, interrupted) =>
      var job := s.workers[w].job;
      var verdict := if interrupted then Interrupted else Of(c.outcomes[job]);
      s.(workers := s.workers[w := Sending(Finished(job, verdict))])
    case SendResult(w) =>
      var m := s.workers[w].message;
      s.(workers := s.workers[w := AfterSend(m)], buffer := s.buffer + [m])
    case CancelAndExit(w) =>
      s.(workers := s.workers[w := Exited], cancelled := true)
    case CloseJobs => s.(closed := true)
    case Receive =>
      s.(buffer := s.buffer[1..], received := s.received + [s.buffer[0]],
         collector := AfterReceive(s.collector, s.buffer[0]))
    case StopReceiving =>
      s.(collector := Waiting(s.collector.processed, s.collector.skipped, None))
    case Return =>
      s.(collector := Returned(s.collector.processed, s.collector.skipped, s.collector.error))
  }

  /** A document that the cancelled context cuts short is reported as interrupted, whatever it would have ended in. */
  lemma InterruptIsReported(c: Call, s: State, w: nat)
    requires Valid(c) && Shape(c, s) && Enabled(c, s, FinishJob(w, true))
    ensures Apply(c, s, FinishJob(w, true)).workers[w] == Sending(Finished(s.workers[w].job, Interrupted))
  {}

  ghost predicate Valid(c: Call) { |c.startFails| >= 1 }

  /** Sizes and job numbers stay in range. */
  ghost predicate Shape(c: Call, s: State) {
    && |s.workers| == |c.startFails|
    && s.fed <= |c.outcomes|
    && |s.buffer| <= |c.outcomes|
    && (forall w :: 0 <= w < |s.workers| && HasJob(s.workers[w]) ==> JobOf(s.workers[w]) < s.fed)
  }

  predicate HasJob(k: Worker) {
    k.Holding? || k.Running? || (k.Sending? && k.message.Finished?)
  }

  function JobOf(k: Worker): nat
    requires HasJob(k)
  {
    match k
    case Holding(j) => j
    case Running(j) => j
    case Sending(m) => m.job
  }

  /** `trace` is a run from s to t. */
  ghost predicate IsRun(c: Call, s: State, trace: seq<Action>, t: State)
    requires Valid(c)
    decreases |trace|
  {
    if trace == [] then s == t
    else Shape(c, s) && Enabled(c, s, trace[0]) && IsRun(c, Apply(c, s, trace[0]), trace[1..], t)
  }

  ghost predicate Reachable(c: Call, s: State)
    requires Valid(c)
  {
    exists trace :: IsRun(c, Init(c), trace, s)
  }

  ghost predicate Stuck(c: Call, s: State) {
    forall a :: !Enabled(c, s, a)
  }

  // ---------------------------------------------------------------- counting

  function Sum(f: Worker -> nat, ws: seq<Worker>): nat {
    if ws == [] then 0 else Sum(f, ws[..|ws| - 1]) + f(ws[|ws| - 1])
  }

  lemma {:induction false} SumUpdate(f: Worker -> nat, ws: seq<Worker>, i: nat, k: Worker)
    requires i < |ws|
    ensures Sum(f, ws[i := k]) + f(ws[i]) == Sum(f, ws) + f(k)
  {
    var last := |ws| - 1;
    if i == last {
      assert ws[i := k][..last] == ws[..last];
    } else {
      assert ws[i := k][..last] == ws[..last][i := k];
      SumUpdate(f, ws[..last], i, k);
    }
  }

  lemma {:induction false} SumAtLeast(f: Worker -> nat, ws: seq<Worker>, i: nat)
    requires i < |ws|
    ensures f(ws[i]) <= Sum(f, ws)
  {
    if i < |ws| - 1 {
      SumAtLeast(f, ws[..|ws| - 1], i);
    }
  }

  lemma {:induction false} SumZero(f: Worker -> nat, ws: seq<Worker>)
    requires forall i :: 0 <= i < |ws| ==> f(ws[i]) == 0
    ensures Sum(f, ws) == 0
  {
    if ws != [] {
      SumZero(f, ws[..|ws| - 1]);
    }
  }

  const JobLoad: Worker -> nat := k => if HasJob(k) then 1 else 0
  const RunLoad: Worker -> nat := k => if HasJob(k) && !k.Holding? then 1 else 0
  const StartLoad: Worker -> nat := k =>
    if k == Starting(true) || (k.Sending? && k.message.StartFailed?) then 1 else 0

  /** How many translators of the call fail to start. */
  function StartFailures(c: Call): nat { multiset(c.startFails)[true] }

  function FinishedCount(ms: seq<Message>): nat {
    if ms == [] then 0 else FinishedCount(ms[..|ms| - 1]) + if ms[|ms| - 1].Finished? then 1 else 0
  }

  function Stream(s: State): seq<Message> { s.received + s.buffer }

  lemma {:induction false} FinishedCountBound(ms: seq<Message>)
    ensures FinishedCount(ms) <= |ms|
    ensures (forall i :: 0 <= i < |ms| ==> ms[i].Finished?) ==> FinishedCount(ms) == |ms|
  {
    if ms != [] { FinishedCountBound(ms[..|ms| - 1]); }
  }

  lemma {:induction false} FinishedCountPrefix(ms: seq<Message>, k: nat)
    requires k <= |ms|
    ensures FinishedCount(ms[..k]) <= FinishedCount(ms)
  {
    if k == |ms| { assert ms[..k] == ms; }
    else {
      FinishedCountPrefix(ms[..|ms| - 1], k);
      assert ms[..|ms| - 1][..k] == ms[..k];
    }
  }

  // ---------------------------------------------------------------- invariants

  /** Every job fed is reported, held by a worker, or dropped; every start failure is reported or pending. */
  ghost predicate Conserved(c: Call, s: State) {
    var finished := FinishedCount(Stream(s));
    && finished + Sum(JobLoad, s.workers) + s.dropped == s.fed
    && finished + Sum(RunLoad, s.workers) == |s.started|
    && |Stream(s)| + Sum(StartLoad, s.workers) == finished + StartFailures(c)
  }

  /** No job is in two places. */
  ghost predicate Exclusive(c: Call, s: State) {
    var stream := Stream(s);
    && (forall v, w :: 0 <= v < w < |s.workers| && HasJob(s.workers[v]) && HasJob(s.workers[w]) ==>
          JobOf(s.workers[v]) != JobOf(s.workers[w]))
    && (forall i, w :: 0 <= i < |stream| && 0 <= w < |s.workers| && stream[i].Finished? && HasJob(s.workers[w]) ==>
          stream[i].job != JobOf(s.workers[w]))
    && (forall i, k :: 0 <= i < k < |stream| && stream[i].Finished? && stream[k].Finished? ==>
          stream[i].job != stream[k].job)
    && (forall i :: 0 <= i < |stream| && stream[i].Finished? ==> stream[i].job < s.fed)
    && (forall w :: 0 <= w < |s.workers| && s.workers[w].Holding? ==> s.workers[w].job !in s.started)
    && (forall i :: 0 <= i < |s.started| ==> s.started[i] < s.fed)
    && (forall i, k :: 0 <= i < k < |s.started| ==> s.started[i] != s.started[k])
  }

  /** An error that some document or translator really produced. */
  ghost predicate Genuine(c: Call, m: Message) {
    match m
    case StartFailed(w) => w < |c.startFails| && c.startFails[w]
    case Finished(j, v) => j < |c.outcomes| && v == Of(Failed) && c.outcomes[j] == Failed
  }

  ghost predicate Faithful(c: Call, m: Message) {
    match m
    case StartFailed(w) => Genuine(c, m)
    case Finished(j, v) => j < |c.outcomes| && (v.Of? ==> v.outcome == c.outcomes[j])
  }

  ghost predicate HasFailedJob(c: Call, ms: seq<Message>) {
    exists i :: 0 <= i < |ms| && ms[i].Finished? && Genuine(c, ms[i])
  }

  /** Cancellation, and every interrupted job, is preceded in the stream by a document that failed. */
  ghost predicate Caused(c: Call, s: State) {
    var stream := Stream(s);
    && (forall i :: 0 <= i < |stream| ==> Faithful(c, stream[i]))
    && (forall i :: 0 <= i < |stream| && stream[i].Finished? && stream[i].verdict.Interrupted? ==>
          HasFailedJob(c, stream[..i]))
    && (s.cancelled ==> HasFailedJob(c, stream))
    && (s.dropped > 0 ==> s.cancelled)
    && (forall w :: 0 <= w < |s.workers| ==> WorkerCaused(c, s, w))
    && ((forall w :: 0 <= w < |c.startFails| ==> c.startFails[w]) ==> s.fed == 0)
    && (s.closed ==> s.fed == |c.outcomes|)
  }

  ghost predicate WorkerCaused(c: Call, s: State, w: nat)
    requires w < |s.workers|
  {
    var k := s.workers[w];
    && w < |c.startFails|
    && (k.Starting? ==> k.fails == c.startFails[w])
    && (k.Ready? || HasJob(k) || k.Cancelling? ==> !c.startFails[w])
    && (k.Sending? ==> Faithful(c, k.message) && (k.message.StartFailed? ==> k.message.worker == w))
    && (k.Sending? && k.message.Finished? && k.message.verdict.Interrupted? ==> s.cancelled)
    && (k.Cancelling? ==> HasFailedJob(c, Stream(s)))
    && (k.Exited? ==> s.closed || s.cancelled || c.startFails[w])
  }

  function Tally(o: Outcome, ms: seq<Message>): nat {
    if ms == [] then 0
    else Tally(o, ms[..|ms| - 1]) + if ms[|ms| - 1].Finished? && ms[|ms| - 1].verdict == Of(o) then 1 else 0
  }

  ghost predicate NoErrors(ms: seq<Message>) {
    forall i :: 0 <= i < |ms| ==> !IsError(ms[i])
  }

  /** The collector's counters are tallies of what it received, and it stops at the first error. */
  ghost predicate CollectedBy(k: Collector, got: seq<Message>, n: nat) {
    && k.processed == Tally(Processed, got)
    && k.skipped == Tally(Skipped, got)
    && |got| <= n
    && if k.Collecting? then NoErrors(got)
       else match k.error
         case None => |got| == n && NoErrors(got)
         case Some(e) => got != [] && got[|got| - 1] == e && IsError(e) && NoErrors(got[..|got| - 1])
  }

  ghost predicate Collected(c: Call, s: State) {
    CollectedBy(s.collector, s.received, |c.outcomes|)
  }

  ghost predicate AllExitedIfReturned(s: State) {
    s.collector.Returned? ==> forall w :: 0 <= w < |s.workers| ==> s.workers[w].Exited?
  }

  ghost predicate Inv(c: Call, s: State) {
    Shape(c, s) && Conserved(c, s) && Exclusive(c, s) && Caused(c, s) && Collected(c, s) && AllExitedIfReturned(s)
  }

  lemma {:induction false} InitialStartLoad(fails: seq<bool>, ws: seq<Worker>)
    requires |ws| == |fails| && forall w :: 0 <= w < |ws| ==> ws[w] == Starting(fails[w])
    ensures Sum(StartLoad, ws) == multiset(fails)[true]
  {
    if ws != [] {
      var last := |ws| - 1;
      InitialStartLoad(fails[..last], ws[..last]);
      assert fails == fails[..last] + [fails[last]];
    }
  }

  lemma InitConserved(c: Call)
    requires Valid(c)
    ensures Conserved(c, Init(c))
  {
    var s := Init(c);
    SumZero(JobLoad, s.workers);
    SumZero(RunLoad, s.workers);
    InitialStartLoad(c.startFails, s.workers);
    assert Stream(s) == [];
  }

  lemma InitExclusive(c: Call, s: State)
    requires Valid(c) && s == Init(c) && Stream(s) == []
    ensures Exclusive(c, s)
  {}

  lemma InitCaused(c: Call, s: State)
    requires Valid(c) && s == Init(c) && Stream(s) == []
    ensures Caused(c, s)
  {
    forall w | 0 <= w < |s.workers| ensures WorkerCaused(c, s, w) { assert s.workers[w].Starting?; }
  }

  lemma AllInvariants(c: Call, t: State)
    requires Shape(c, t) && Conserved(c, t) && Exclusive(c, t) && Caused(c, t) && Collected(c, t)
           && AllExitedIfReturned(t)
    ensures Inv(c, t)
  {
  }

  lemma InvInit(c: Call)
    requires Valid(c)
    ensures Inv(c, Init(c))
  {
    InitConserved(c);
    InitExclusive(c, Init(c));
    InitCaused(c, Init(c));
    AllInvariants(c, Init(c));
  }

  lemma StreamAfter(c: Call, s: State, a: Action)
    requires Valid(c) && Shape(c, s) && Enabled(c, s, a)
    ensures Stream(Apply(c, s, a)) == if a.SendResult? then Stream(s) + [s.workers[a.w].message] else Stream(s)
  {
    if a.Receive? {
      assert s.buffer == [s.buffer[0]] + s.buffer[1..];
      assert s.received + [s.buffer[0]] + s.buffer[1..] == s.received + s.buffer;
    } else if a.SendResult? {
      assert s.received + (s.buffer + [s.workers[a.w].message]) == s.received + s.buffer + [s.workers[a.w].message];
    }
  }

  lemma ShapeStep(c: Call, s: State, a: Action)
    requires Valid(c) && Shape(c, s) && Enabled(c, s, a)
    ensures Shape(c, Apply(c, s, a))
  {}

  lemma ConservedByWorker(c: Call, s: State, a: Action, t: State)
    requires Valid(c) && Shape(c, s) && Conserved(c, s) && Enabled(c, s, a) && ActsOnWorker(a) && t == Apply(c, s, a)
    ensures Conserved(c, t)
  {
    StreamAfter(c, s, a);
    ConservedWorkerStep(s, a.w, t.workers[a.w]);
    assert t.workers == s.workers[a.w := t.workers[a.w]];
    LoadsOf(c, s, a);
  }

  lemma ConservedStep(c: Call, s: State, a: Action)
    requires Valid(c) && Shape(c, s) && Conserved(c, s) && Enabled(c, s, a)
    ensures Conserved(c, Apply(c, s, a))
  {
    if ActsOnWorker(a) {
      ConservedByWorker(c, s, a, Apply(c, s, a));
    } else {
      StreamAfter(c, s, a);
    }
  }

  /** How one action moves one worker's share of the three totals. */
  lemma LoadsOf(c: Call, s: State, a: Action)
    requires Valid(c) && Shape(c, s) && Enabled(c, s, a) && ActsOnWorker(a)
    ensures var t, k := Apply(c, s, a), s.workers[a.w];
            var k' := t.workers[a.w];
            var sent := if a.SendResult? && k.message.Finished? then 1 else 0;
            && JobLoad(k') + sent + t.dropped + s.fed == JobLoad(k) + s.dropped + t.fed
            && RunLoad(k') + sent + |s.started| == RunLoad(k) + |t.started|
            && StartLoad(k') + (if a.SendResult? && k.message.StartFailed? then 1 else 0) == StartLoad(k)
  {}

  predicate ActsOnWorker(a: Action) {
    !a.CloseJobs? && !a.Receive? && !a.StopReceiving? && !a.Return?
  }

  lemma ConservedWorkerStep(s: State, w: nat, k: Worker)
    requires w < |s.workers|
    ensures Sum(JobLoad, s.workers[w := k]) + JobLoad(s.workers[w]) == Sum(JobLoad, s.workers) + JobLoad(k)
    ensures Sum(RunLoad, s.workers[w := k]) + RunLoad(s.workers[w]) == Sum(RunLoad, s.workers) + RunLoad(k)
    ensures Sum(StartLoad, s.workers[w := k]) + StartLoad(s.workers[w]) == Sum(StartLoad, s.workers) + StartLoad(k)
  {
    SumUpdate(JobLoad, s.workers, w, k);
    SumUpdate(RunLoad, s.workers, w, k);
    SumUpdate(StartLoad, s.workers, w, k);
  }

  /** Only taking a job gives a worker a job it did not have. */
  lemma HeldJobs(c: Call, s: State, a: Action, v: nat)
    requires Valid(c) && Shape(c, s) && Enabled(c, s, a) && v < |s.workers|
    ensures var t := Apply(c, s, a);
            |t.workers| == |s.workers| &&
            (HasJob(t.workers[v]) && a != TakeJob(v) ==>
               HasJob(s.workers[v]) && JobOf(t.workers[v]) == JobOf(s.workers[v]))
    ensures a == TakeJob(v) ==> Apply(c, s, a).workers[v] == Holding(s.fed)
  {}

  lemma ExclusiveStep(c: Call, s: State, a: Action)
    requires Valid(c) && Shape(c, s) && Exclusive(c, s) && Enabled(c, s, a)
    ensures Exclusive(c, Apply(c, s, a))
  {
    var t := Apply(c, s, a);
    StreamAfter(c, s, a);
    forall v | 0 <= v < |s.workers| ensures Held(c, s, a, t, v) { HeldJobs(c, s, a, v); }
    ExclusiveStream(c, s, a, t);
    ExclusiveStarted(c, s, a, t);
  }

  ghost predicate Held(c: Call, s: State, a: Action, t: State, v: nat) {
    && v < |s.workers| == |t.workers|
    && (HasJob(t.workers[v]) && a != TakeJob(v) ==>
          HasJob(s.workers[v]) && JobOf(t.workers[v]) == JobOf(s.workers[v]))
    && (a == TakeJob(v) ==> t.workers[v] == Holding(s.fed))
  }

  lemma ExclusiveStream(c: Call, s: State, a: Action, t: State)
    requires Valid(c) && Shape(c, s) && Exclusive(c, s) && Enabled(c, s, a) && t == Apply(c, s, a)
    requires forall v :: 0 <= v < |s.workers| ==> Held(c, s, a, t, v)
    requires Stream(t) == if a.SendResult? then Stream(s) + [s.workers[a.w].message] else Stream(s)
    ensures forall i, w :: 0 <= i < |Stream(t)| && 0 <= w < |t.workers|
                           && Stream(t)[i].Finished? && HasJob(t.workers[w]) ==>
              Stream(t)[i].job != JobOf(t.workers[w])
    ensures forall i, k :: 0 <= i < k < |Stream(t)| && Stream(t)[i].Finished? && Stream(t)[k].Finished? ==>
              Stream(t)[i].job != Stream(t)[k].job
    ensures forall i :: 0 <= i < |Stream(t)| && Stream(t)[i].Finished? ==> Stream(t)[i].job < t.fed
  {
    var old_, new_ := Stream(s), Stream(t);
    assert s.fed <= t.fed;
    assert forall i :: 0 <= i < |old_| ==> new_[i] == old_[i];
    if a.SendResult? && s.workers[a.w].message.Finished? {
      assert HasJob(s.workers[a.w]) && !HasJob(t.workers[a.w]);
      assert new_[|old_|].job == JobOf(s.workers[a.w]);
    }
    forall i, w | 0 <= i < |new_| && 0 <= w < |t.workers| && new_[i].Finished? && HasJob(t.workers[w])
      ensures new_[i].job != JobOf(t.workers[w])
    {
      assert Held(c, s, a, t, w);
      if i == |old_| && w != a.w { assert HasJob(s.workers[w]); }
    }
  }

  lemma ExclusiveStarted(c: Call, s: State, a: Action, t: State)
    requires Valid(c) && Shape(c, s) && Exclusive(c, s) && Enabled(c, s, a) && t == Apply(c, s, a)
    requires forall v :: 0 <= v < |s.workers| ==> Held(c, s, a, t, v)
    ensures forall w :: 0 <= w < |t.workers| && t.workers[w].Holding? ==> t.workers[w].job !in t.started
    ensures forall i :: 0 <= i < |t.started| ==> t.started[i] < t.fed
    ensures forall i, k :: 0 <= i < k < |t.started| ==> t.started[i] != t.started[k]
  {
    assert t.started == s.started || (a.CheckContext? && t.started == s.started + [JobOf(s.workers[a.w])]);
    forall w | 0 <= w < |t.workers| && t.workers[w].Holding?
      ensures t.workers[w].job !in t.started
    {
      assert Held(c, s, a, t, w);
      if a != TakeJob(w) { assert s.workers[w] == t.workers[w]; }
    }
  }

  lemma FailedJobStays(c: Call, ms: seq<Message>, more: seq<Message>)
    requires HasFailedJob(c, ms)
    ensures HasFailedJob(c, ms + more)
  {
    var i :| 0 <= i < |ms| && ms[i].Finished? && Genuine(c, ms[i]);
    assert (ms + more)[i] == ms[i];
  }

  lemma CausedStream(c: Call, s: State, a: Action, t: State)
    requires Valid(c) && Shape(c, s) && Caused(c, s) && Enabled(c, s, a) && t == Apply(c, s, a)
    ensures HasFailedJob(c, Stream(s)) ==> HasFailedJob(c, Stream(t))
    ensures forall i :: 0 <= i < |Stream(t)| ==> Faithful(c, Stream(t)[i])
    ensures forall i :: 0 <= i < |Stream(t)| && Stream(t)[i].Finished? && Stream(t)[i].verdict.Interrupted? ==>
              HasFailedJob(c, Stream(t)[..i])
  {
    StreamAfter(c, s, a);
    var stream, after := Stream(s), Stream(t);
    if ActsOnWorker(a) { assert WorkerCaused(c, s, a.w); }
    var more := if a.SendResult? then [s.workers[a.w].message] else [];
    assert after == stream + more;
    if HasFailedJob(c, stream) { FailedJobStays(c, stream, more); }
    forall i | 0 <= i < |after| && after[i].Finished? && after[i].verdict.Interrupted?
      ensures HasFailedJob(c, after[..i])
    {
      assert after[..i] == stream[..if i < |stream| then i else |stream|];
      assert stream[..|stream|] == stream;
    }
  }

  /** A worker that the step leaves alone. */
  lemma CausedBystander(c: Call, s: State, t: State, w: nat)
    requires w < |s.workers| && w < |t.workers| && t.workers[w] == s.workers[w] && WorkerCaused(c, s, w)
    requires (s.cancelled ==> t.cancelled) && (s.closed ==> t.closed)
    requires HasFailedJob(c, Stream(s)) ==> HasFailedJob(c, Stream(t))
    ensures WorkerCaused(c, t, w)
  {}

  lemma CausedActor(c: Call, s: State, a: Action, t: State)
    requires Valid(c) && Shape(c, s) && Caused(c, s) && Enabled(c, s, a) && ActsOnWorker(a) && t == Apply(c, s, a)
    requires HasFailedJob(c, Stream(s)) ==> HasFailedJob(c, Stream(t))
    ensures WorkerCaused(c, t, a.w)
  {
    assert WorkerCaused(c, s, a.w);
    if a.SendResult? && t.workers[a.w].Cancelling? {
      StreamAfter(c, s, a);
      assert Stream(t)[|Stream(s)|] == s.workers[a.w].message;
    }
  }

  lemma CausedWorker(c: Call, s: State, a: Action, t: State, w: nat)
    requires Valid(c) && Shape(c, s) && Caused(c, s) && Enabled(c, s, a) && t == Apply(c, s, a) && w < |t.workers|
    requires HasFailedJob(c, Stream(s)) ==> HasFailedJob(c, Stream(t))
    ensures WorkerCaused(c, t, w)
  {
    assert WorkerCaused(c, s, w);
    if ActsOnWorker(a) && a.w == w {
      CausedActor(c, s, a, t);
    } else {
      CausedBystander(c, s, t, w);
    }
  }

  lemma CausedStep(c: Call, s: State, a: Action)
    requires Valid(c) && Shape(c, s) && Caused(c, s) && Enabled(c, s, a)
    ensures Caused(c, Apply(c, s, a))
  {
    var t := Apply(c, s, a);
    CausedStream(c, s, a, t);
    if ActsOnWorker(a) { assert WorkerCaused(c, s, a.w); }
    forall w | 0 <= w < |t.workers| ensures WorkerCaused(c, t, w) { CausedWorker(c, s, a, t, w); }
  }

  lemma CollectedReceive(k: Collector, got: seq<Message>, n: nat, m: Message)
    requires k.Collecting? && CollectedBy(k, got, n) && |got| < n
    ensures CollectedBy(AfterReceive(k, m), got + [m], n)
  {
    assert (got + [m])[..|got|] == got;
    if !IsError(m) { assert m.verdict.outcome.Processed? || m.verdict.outcome.Skipped?; }
  }

  lemma CollectedStep(c: Call, s: State, a: Action)
    requires Valid(c) && Shape(c, s) && Collected(c, s) && Enabled(c, s, a)
    ensures Collected(c, Apply(c, s, a))
  {
    if a.Receive? { CollectedReceive(s.collector, s.received, |c.outcomes|, s.buffer[0]); }
  }

  lemma ReturnedStep(c: Call, s: State, a: Action)
    requires Valid(c) && Shape(c, s) && AllExitedIfReturned(s) && Enabled(c, s, a)
    ensures AllExitedIfReturned(Apply(c, s, a))
  {}

  lemma InvStep(c: Call, s: State, a: Action)
    requires Valid(c) && Inv(c, s) && Enabled(c, s, a)
    ensures Inv(c, Apply(c, s, a))
  {
    ShapeStep(c, s, a);
    ConservedStep(c, s, a);
    ExclusiveStep(c, s, a);
    CausedStep(c, s, a);
    CollectedStep(c, s, a);
    ReturnedStep(c, s, a);
    AllInvariants(c, Apply(c, s, a));
  }

  // ---------------------------------------------------------------- runs

  lemma {:induction false} InvRun(c: Call, s: State, trace: seq<Action>, t: State)
    requires Valid(c) && Inv(c, s) && IsRun(c, s, trace, t)
    ensures Inv(c, t)
    decreases |trace|
  {
    if trace != [] {
      InvStep(c, s, trace[0]);
      InvRun(c, Apply(c, s, trace[0]), trace[1..], t);
    }
  }

  /** The invariant holds in every interleaving. */
  lemma InvReachable(c: Call, s: State)
    requires Valid(c) && Reachable(c, s)
    ensures Inv(c, s)
  {
    var trace :| IsRun(c, Init(c), trace, s);
    InvInit(c);
    InvRun(c, Init(c), trace, s);
  }

  lemma {:induction false} RunAppend(c: Call, s: State, first: seq<Action>, m: State, second: seq<Action>, t: State)
    requires Valid(c) && IsRun(c, s, first, m) && IsRun(c, m, second, t)
    ensures IsRun(c, s, first + second, t)
    decreases |first|
  {
    if first == [] {
      assert first + second == second;
    } else {
      RunAppend(c, Apply(c, s, first[0]), first[1..], m, second, t);
      assert (first + second)[1..] == first[1..] + second;
    }
  }

  const Remaining: Worker -> nat := (k: Worker) =>
    match k
    case Starting(_) => 5
    case Ready => 1
    case Holding(_) => 5
    case Running(_) => 4
    case Sending(_) => 3
    case Cancelling => 1
    case Exited => 0

  /** A bound on how many more steps the whole system can take. */
  function Measure(c: Call, s: State): nat
    requires s.fed <= |c.outcomes|
  {
    5 * (|c.outcomes| - s.fed) + (if s.closed then 0 else 1) + Sum(Remaining, s.workers) + |s.buffer|
    + (if s.collector.Collecting? then 2 else if s.collector.Waiting? then 1 else 0)
  }

  lemma StepDecreases(c: Call, s: State, a: Action)
    requires Valid(c) && Shape(c, s) && Enabled(c, s, a)
    ensures Shape(c, Apply(c, s, a)) && Measure(c, Apply(c, s, a)) < Measure(c, s)
  {
    var t := Apply(c, s, a);
    ShapeStep(c, s, a);
    if ActsOnWorker(a) {
      SumUpdate(Remaining, s.workers, a.w, t.workers[a.w]);
      assert t.workers == s.workers[a.w := t.workers[a.w]];
    }
  }

  lemma {:induction false} InitialMeasure(ws: seq<Worker>)
    requires forall w :: 0 <= w < |ws| ==> ws[w].Starting?
    ensures Sum(Remaining, ws) == 5 * |ws|
  {
    if ws != [] { InitialMeasure(ws[..|ws| - 1]); }
  }

  lemma {:induction false} RunShortens(c: Call, s: State, trace: seq<Action>, t: State)
    requires Valid(c) && Shape(c, s) && IsRun(c, s, trace, t)
    ensures |trace| <= Measure(c, s)
    decreases |trace|
  {
    if trace != [] {
      StepDecreases(c, s, trace[0]);
      RunShortens(c, Apply(c, s, trace[0]), trace[1..], t);
    }
  }

  /** No interleaving runs forever: five steps a document, five a worker, three more. */
  lemma RunsAreFinite(c: Call, trace: seq<Action>, t: State)
    requires Valid(c) && IsRun(c, Init(c), trace, t)
    ensures |trace| <= 5 * |c.outcomes| + 5 * |c.startFails| + 3
  {
    InvInit(c);
    InitialMeasure(Init(c).workers);
    RunShortens(c, Init(c), trace, t);
  }

  /** Every state can be driven on until nothing is enabled; a collector that stopped receiving stays stopped. */
  lemma {:induction false} RunToRest(c: Call, s: State) returns (trace: seq<Action>, t: State)
    requires Valid(c) && Inv(c, s)
    ensures IsRun(c, s, trace, t) && Stuck(c, t) && Inv(c, t)
    ensures !s.collector.Collecting? ==> !t.collector.Collecting? && t.received == s.received
    decreases Measure(c, s)
  {
    if Stuck(c, s) {
      trace, t := [], s;
    } else {
      var a :| Enabled(c, s, a);
      StepDecreases(c, s, a);
      InvStep(c, s, a);
      var rest;
      rest, t := RunToRest(c, Apply(c, s, a));
      trace := [a] + rest;
      assert trace[1..] == rest;
    }
  }

  // ---------------------------------------------------------------- blocking

  lemma {:induction false} CountTrue(fails: seq<bool>)
    ensures multiset(fails)[true] <= |fails|
    ensures multiset(fails)[true] == |fails| <==> forall w :: 0 <= w < |fails| ==> fails[w]
    ensures multiset(fails)[true] == 0 <==> forall w :: 0 <= w < |fails| ==> !fails[w]
  {
    if fails != [] {
      var last := |fails| - 1;
      CountTrue(fails[..last]);
      assert fails == fails[..last] + [fails[last]];
    }
  }

  /** In terms of the number of documents and of translators that fail to start. */
  predicate Safe(startFails: seq<bool>, documents: nat) {
    var failures := multiset(startFails)[true];
    failures == 0 || (documents >= 1 && (failures == 1 || (failures == |startFails| && failures <= documents + 1)))
  }

  lemma RestingWorkers(c: Call, s: State, w: nat)
    requires Valid(c) && Inv(c, s) && Stuck(c, s) && w < |s.workers|
    ensures s.workers[w].Exited? || (s.workers[w].Sending? && |s.buffer| == |c.outcomes|)
  {
    assert !Enabled(c, s, StartTranslator(w)) && !Enabled(c, s, TakeJob(w)) && !Enabled(c, s, SeeClosed(w));
    assert !Enabled(c, s, CheckContext(w)) && !Enabled(c, s, FinishJob(w, false)) && !Enabled(c, s, SendResult(w));
    assert !Enabled(c, s, CancelAndExit(w)) && !Enabled(c, s, CloseJobs);
  }

  lemma PendingSends(s: State, w: nat)
    requires w < |s.workers| && s.workers[w].Sending?
    ensures Sum(JobLoad, s.workers) + Sum(StartLoad, s.workers) >= 1
  {
    SumAtLeast(JobLoad, s.workers, w);
    SumAtLeast(StartLoad, s.workers, w);
  }

  lemma NothingPending(s: State)
    requires forall w :: 0 <= w < |s.workers| ==> s.workers[w].Exited?
    ensures Sum(JobLoad, s.workers) == Sum(RunLoad, s.workers) == Sum(StartLoad, s.workers) == 0
  {
    SumZero(JobLoad, s.workers);
    SumZero(RunLoad, s.workers);
    SumZero(StartLoad, s.workers);
  }

  /** The collector never waits for a result that nobody will send. */
  lemma CollectingNeverStuck(c: Call, s: State)
    requires Valid(c) && Inv(c, s) && Stuck(c, s)
    ensures !s.collector.Collecting?
  {
    CountTrue(c.startFails);
    assert WorkerCaused(c, s, 0);
    if s.collector.Collecting? {
      assert !Enabled(c, s, Receive) && !Enabled(c, s, StopReceiving);
      forall w | 0 <= w < |s.workers| ensures s.workers[w].Exited? { RestingWorkers(c, s, w); }
      NothingPending(s);
      var stream := Stream(s);
      assert stream == s.received;
      FinishedCountBound(stream);
    }
  }

  /** With at most one failed start on a non-empty queue, the only rest is a returned call. */
  lemma SafeNeverStuck(c: Call, s: State)
    requires Valid(c) && Inv(c, s) && Stuck(c, s) && Safe(c.startFails, |c.outcomes|)
    ensures s.collector.Returned?
  {
    CollectingNeverStuck(c, s);
    CountTrue(c.startFails);
    if !s.collector.Returned? {
      assert !Enabled(c, s, Return);
      var w :| 0 <= w < |s.workers| && !s.workers[w].Exited?;
      RestingWorkers(c, s, w);
      PendingSends(s, w);
    }
  }

  ghost predicate Blocks(c: Call)
    requires Valid(c)
  {
    exists s :: Reachable(c, s) && Stuck(c, s) && !s.collector.Returned?
  }

  /** Three steps: one worker fails to start, reports it, and the collector stops receiving. */
  lemma FirstFailureRun(c: Call, w: nat) returns (trace: seq<Action>, s: State)
    requires Valid(c) && w < |c.startFails| && c.startFails[w] && |c.outcomes| >= 1
    ensures IsRun(c, Init(c), trace, s) && !s.collector.Collecting? && |s.received| == 1 && !s.cancelled
  {
    var s0 := Init(c);
    var s1 := Apply(c, s0, StartTranslator(w));
    assert s1.workers[w] == Sending(StartFailed(w));
    var s2 := Apply(c, s1, SendResult(w));
    s := Apply(c, s2, Receive);
    assert IsRun(c, s, [], s);
    assert [Receive][1..] == [] && IsRun(c, s2, [Receive], s);
    assert [SendResult(w), Receive][1..] == [Receive] && IsRun(c, s1, [SendResult(w), Receive], s);
    trace := [StartTranslator(w), SendResult(w), Receive];
    assert trace[1..] == [SendResult(w), Receive];
  }

  // ---------------------------------------------------------------- which calls block

  function FailedDocuments(outcomes: seq<Outcome>): nat { multiset(outcomes)[Failed] }

  /** How many documents can be started before as many have failed as there are good workers. */
  function Startable(outcomes: seq<Outcome>, good: nat): (d: nat)
    ensures d <= |outcomes|
  {
    if outcomes == [] then 0
    else
      var init := outcomes[..|outcomes| - 1];
      if Startable(init, good) < |init| || FailedDocuments(init) >= good then Startable(init, good) else |outcomes|
  }

  /** Every document that fails takes a good worker out: document m can be started while one is left. */
  lemma {:induction false} StartableIff(outcomes: seq<Outcome>, good: nat, m: nat)
    requires m < |outcomes|
    ensures m < Startable(outcomes, good) <==> FailedDocuments(outcomes[..m]) < good
  {
    var init := outcomes[..|outcomes| - 1];
    assert outcomes == init + [outcomes[|outcomes| - 1]];
    if m < |init| {
      StartableIff(init, good, m);
      assert init[..m] == outcomes[..m];
    } else if Startable(init, good) < |init| {
      StartableIff(init, good, Startable(init, good));
      FailedPrefix(init, Startable(init, good));
    }
  }

  lemma FailedPrefix(outcomes: seq<Outcome>, k: nat)
    requires k <= |outcomes|
    ensures FailedDocuments(outcomes[..k]) <= FailedDocuments(outcomes)
  {
    assert outcomes == outcomes[..k] + outcomes[k..];
  }

  function GoodWorkers(c: Call): nat {
    CountTrue(c.startFails);
    |c.startFails| - StartFailures(c)
  }

  /**
   * Exactly when the reports of failed starts and startable documents overflow the buffer and the one that is
   * received.
   */
  predicate CanBlock(c: Call) {
    StartFailures(c) >= 1
    && (c.outcomes == [] || StartFailures(c) + Startable(c.outcomes, GoodWorkers(c)) > |c.outcomes| + 1)
  }

  /** A worker is taken out by the failing document it holds, or that it has reported. */
  ghost function FailLoad(c: Call): Worker -> nat {
    (k: Worker) =>
      if k.Cancelling? || (HasJob(k) && JobOf(k) < |c.outcomes| && c.outcomes[JobOf(k)] == Failed) then 1 else 0
  }

  ghost predicate Balanced(c: Call, s: State) {
    !s.cancelled ==> s.fed <= |c.outcomes| && FailedDocuments(c.outcomes[..s.fed]) == Sum(FailLoad(c), s.workers)
  }

  ghost predicate Bounded(c: Call, s: State) {
    var d := Startable(c.outcomes, GoodWorkers(c));
    |s.started| <= d && (!s.cancelled ==> s.fed <= d)
  }

  ghost predicate Fits(f: Worker -> nat, fails: seq<bool>, ws: seq<Worker>) {
    |ws| == |fails| && forall i :: 0 <= i < |ws| ==> f(ws[i]) <= if fails[i] then 0 else 1
  }

  lemma {:induction false} SumFits(f: Worker -> nat, fails: seq<bool>, ws: seq<Worker>)
    requires Fits(f, fails, ws)
    ensures Sum(f, ws) + multiset(fails)[true] <= |ws|
    ensures (forall i :: 0 <= i < |ws| ==> fails[i] || f(ws[i]) == 1) ==> Sum(f, ws) + multiset(fails)[true] == |ws|
  {
    if ws != [] {
      var last := |ws| - 1;
      SumFits(f, fails[..last], ws[..last]);
      assert fails == fails[..last] + [fails[last]];
    }
  }

  /** An idle good worker leaves room. */
  lemma {:induction false} SumFitsLess(f: Worker -> nat, fails: seq<bool>, ws: seq<Worker>, w: nat)
    requires Fits(f, fails, ws) && w < |ws| && !fails[w] && f(ws[w]) == 0
    ensures Sum(f, ws) + multiset(fails)[true] < |ws|
  {
    var last := |ws| - 1;
    assert fails == fails[..last] + [fails[last]];
    if w == last { SumFits(f, fails[..last], ws[..last]); } else { SumFitsLess(f, fails[..last], ws[..last], w); }
  }

  lemma LoadsFit(c: Call, s: State)
    requires Shape(c, s) && Caused(c, s)
    ensures Fits(FailLoad(c), c.startFails, s.workers)
  {
    forall i | 0 <= i < |s.workers| ensures FailLoad(c)(s.workers[i]) <= if c.startFails[i] then 0 else 1 {
      assert WorkerCaused(c, s, i);
    }
  }

  lemma {:induction false} SumLe(f: Worker -> nat, g: Worker -> nat, ws: seq<Worker>)
    requires forall i :: 0 <= i < |ws| ==> f(ws[i]) <= g(ws[i])
    ensures Sum(f, ws) <= Sum(g, ws)
  {
    if ws != [] { SumLe(f, g, ws[..|ws| - 1]); }
  }

  lemma StartedAtMostFed(c: Call, s: State)
    requires Conserved(c, s)
    ensures |s.started| <= s.fed
  {
    SumLe(RunLoad, JobLoad, s.workers);
  }

  /** The load a step puts on its worker, but for a document that is taken. */
  lemma SameLoad(c: Call, s: State, a: Action)
    requires Valid(c) && Shape(c, s) && Caused(c, s) && Enabled(c, s, a) && ActsOnWorker(a) && !Apply(c, s, a).cancelled
    ensures FailLoad(c)(Apply(c, s, a).workers[a.w]) == FailLoad(c)(s.workers[a.w])
            + if a.TakeJob? && c.outcomes[s.fed] == Failed then 1 else 0
  {
    assert WorkerCaused(c, s, a.w);
  }

  lemma LoadStep(c: Call, s: State, a: Action, t: State)
    requires Valid(c) && Shape(c, s) && Caused(c, s) && Enabled(c, s, a) && ActsOnWorker(a) && t == Apply(c, s, a)
           && !t.cancelled
    ensures Sum(FailLoad(c), t.workers)
         == Sum(FailLoad(c), s.workers) + if a.TakeJob? && c.outcomes[s.fed] == Failed then 1 else 0
  {
    SameLoad(c, s, a);
    SumUpdate(FailLoad(c), s.workers, a.w, t.workers[a.w]);
    assert t.workers == s.workers[a.w := t.workers[a.w]];
  }

  lemma FedStep(c: Call, s: State, a: Action, t: State)
    requires Valid(c) && Shape(c, s) && Enabled(c, s, a) && t == Apply(c, s, a)
    ensures t.fed == (if a.TakeJob? then s.fed + 1 else s.fed) && t.fed <= |c.outcomes|
    ensures FailedDocuments(c.outcomes[..t.fed])
         == FailedDocuments(c.outcomes[..s.fed]) + if a.TakeJob? && c.outcomes[s.fed] == Failed then 1 else 0
  {
    if a.TakeJob? { assert c.outcomes[..s.fed + 1] == c.outcomes[..s.fed] + [c.outcomes[s.fed]]; }
  }

  lemma BalancedStep(c: Call, s: State, a: Action)
    requires Valid(c) && Shape(c, s) && Caused(c, s) && Balanced(c, s) && Enabled(c, s, a)
    ensures Balanced(c, Apply(c, s, a))
  {
    var t := Apply(c, s, a);
    FedStep(c, s, a, t);
    if !t.cancelled {
      if ActsOnWorker(a) { LoadStep(c, s, a, t); } else { assert t.workers == s.workers; }
    }
  }

  /** A job is taken only while a good worker is left. */
  lemma TakenIsStartable(c: Call, s: State, w: nat)
    requires Valid(c) && Shape(c, s) && Caused(c, s) && Balanced(c, s) && Enabled(c, s, TakeJob(w)) && !s.cancelled
    ensures s.fed < Startable(c.outcomes, GoodWorkers(c))
  {
    assert WorkerCaused(c, s, w);
    LoadsFit(c, s);
    SumFitsLess(FailLoad(c), c.startFails, s.workers, w);
    StartableIff(c.outcomes, GoodWorkers(c), s.fed);
  }

  lemma BoundedStep(c: Call, s: State, a: Action)
    requires Valid(c) && Inv(c, s) && Balanced(c, s) && Bounded(c, s) && Enabled(c, s, a)
    ensures Bounded(c, Apply(c, s, a))
  {
    InvStep(c, s, a);
    StartedAtMostFed(c, Apply(c, s, a));
    if a.TakeJob? && !s.cancelled { TakenIsStartable(c, s, a.w); }
  }

  lemma {:induction false} BoundedRun(c: Call, s: State, trace: seq<Action>, t: State)
    requires Valid(c) && Inv(c, s) && Balanced(c, s) && Bounded(c, s) && IsRun(c, s, trace, t)
    ensures Inv(c, t) && Balanced(c, t) && Bounded(c, t)
    decreases |trace|
  {
    if trace != [] {
      InvStep(c, s, trace[0]);
      BalancedStep(c, s, trace[0]);
      BoundedStep(c, s, trace[0]);
      BoundedRun(c, Apply(c, s, trace[0]), trace[1..], t);
    }
  }

  lemma BoundedInit(c: Call)
    requires Valid(c)
    ensures Inv(c, Init(c)) && Balanced(c, Init(c)) && Bounded(c, Init(c))
  {
    InvInit(c);
    SumZero(FailLoad(c), Init(c).workers);
    assert c.outcomes[..0] == [];
  }

  /** In a state at rest that has not returned, more has been reported or is waiting to be than the bound allows. */
  lemma RestOverflows(c: Call, s: State)
    requires Valid(c) && Inv(c, s) && Bounded(c, s) && Stuck(c, s) && !s.collector.Returned?
    ensures CanBlock(c)
  {
    CollectingNeverStuck(c, s);
    CountTrue(c.startFails);
    assert !Enabled(c, s, Return);
    var w :| 0 <= w < |s.workers| && !s.workers[w].Exited?;
    RestingWorkers(c, s, w);
    PendingReports(s, w);
  }

  lemma PendingReports(s: State, w: nat)
    requires w < |s.workers| && s.workers[w].Sending?
    ensures Sum(RunLoad, s.workers) + Sum(StartLoad, s.workers) >= 1
  {
    SumAtLeast(RunLoad, s.workers, w);
    SumAtLeast(StartLoad, s.workers, w);
  }

  /** Nothing is enabled but the cancelling of a worker whose document failed. */
  ghost predicate Quiet(c: Call, s: State) { forall a :: Enabled(c, s, a) ==> a.CancelAndExit? }

  /** Every state can be driven on without cancelling until nothing else is enabled. */
  lemma {:induction false} RunToQuiet(c: Call, s: State) returns (trace: seq<Action>, t: State)
    requires Valid(c) && Inv(c, s) && Balanced(c, s) && Bounded(c, s) && !s.cancelled && !s.collector.Collecting?
    ensures IsRun(c, s, trace, t) && Quiet(c, t) && Inv(c, t) && Balanced(c, t) && Bounded(c, t) && !t.cancelled
    ensures !t.collector.Collecting? && t.received == s.received
    decreases Measure(c, s)
  {
    if Quiet(c, s) {
      trace, t := [], s;
    } else {
      var a :| Enabled(c, s, a) && !a.CancelAndExit?;
      StepDecreases(c, s, a);
      InvStep(c, s, a);
      BalancedStep(c, s, a);
      BoundedStep(c, s, a);
      var rest;
      rest, t := RunToQuiet(c, Apply(c, s, a));
      trace := [a] + rest;
      assert trace[1..] == rest;
    }
  }

  lemma QuietWorkers(c: Call, s: State, w: nat)
    requires Valid(c) && Inv(c, s) && Quiet(c, s) && !s.cancelled && w < |s.workers|
    ensures s.workers[w].Exited? || s.workers[w].Cancelling? || (s.workers[w].Sending? && |s.buffer| == |c.outcomes|)
    ensures s.workers[w].Exited? && !c.startFails[w] ==> s.fed == |c.outcomes|
  {
    assert WorkerCaused(c, s, w);
    assert !Enabled(c, s, StartTranslator(w)) && !Enabled(c, s, TakeJob(w)) && !Enabled(c, s, SeeClosed(w));
    assert !Enabled(c, s, CheckContext(w)) && !Enabled(c, s, FinishJob(w, false)) && !Enabled(c, s, SendResult(w));
    assert !Enabled(c, s, CloseJobs);
  }

  /** Where everything has been reported, everything startable has. */
  lemma AllReported(c: Call, s: State)
    requires Valid(c) && Inv(c, s) && Balanced(c, s) && Bounded(c, s) && Quiet(c, s) && !s.cancelled
    requires forall w :: 0 <= w < |s.workers| ==> !s.workers[w].Sending?
    ensures Startable(c.outcomes, GoodWorkers(c)) + StartFailures(c) <= |Stream(s)|
  {
    forall w | 0 <= w < |s.workers| ensures s.workers[w].Exited? || s.workers[w].Cancelling? { QuietWorkers(c, s, w); }
    SumZero(JobLoad, s.workers);
    SumZero(StartLoad, s.workers);
    if s.fed < |c.outcomes| {
      LoadsFit(c, s);
      forall w | 0 <= w < |s.workers| ensures c.startFails[w] || FailLoad(c)(s.workers[w]) == 1 {
        QuietWorkers(c, s, w);
      }
      SumFits(FailLoad(c), c.startFails, s.workers);
      StartableIff(c.outcomes, GoodWorkers(c), s.fed);
    }
  }

  /** A full buffer that nobody reads from stays full. */
  lemma {:induction false} FullStays(c: Call, s: State, trace: seq<Action>, t: State, w: nat)
    requires Valid(c) && IsRun(c, s, trace, t) && w < |s.workers| && s.workers[w].Sending?
    requires |s.buffer| == |c.outcomes| && !s.collector.Collecting? && !s.collector.Returned?
    ensures w < |t.workers| && t.workers[w].Sending? && !t.collector.Returned?
    decreases |trace|
  {
    if trace != [] { FullStays(c, Apply(c, s, trace[0]), trace[1..], t, w); }
  }

  /** After the first failed start has been received, a quiet run of an overflowing call ends at a full buffer. */
  lemma QuietOverflows(c: Call, q: State) returns (v: nat)
    requires Valid(c) && CanBlock(c) && c.outcomes != []
    requires Inv(c, q) && Balanced(c, q) && Bounded(c, q) && Quiet(c, q) && !q.cancelled && |q.received| == 1
    ensures v < |q.workers| && q.workers[v].Sending? && |q.buffer| == |c.outcomes|
  {
    if forall v :: 0 <= v < |q.workers| ==> !q.workers[v].Sending? {
      AllReported(c, q);
      assert false;
    }
    v :| 0 <= v < |q.workers| && q.workers[v].Sending?;
    QuietWorkers(c, q, v);
  }

  lemma OverflowBlocks(c: Call, w: nat)
    requires Valid(c) && CanBlock(c) && c.outcomes != [] && w < |c.startFails| && c.startFails[w]
    ensures Blocks(c)
  {
    BoundedInit(c);
    var first, m := FirstFailureRun(c, w);
    BoundedRun(c, Init(c), first, m);
    var second, q := RunToQuiet(c, m);
    var v := QuietOverflows(c, q);
    RunAppend(c, Init(c), first, m, second, q);
    FullBlocks(c, first + second, q, v);
  }

  lemma FullBlocks(c: Call, trace: seq<Action>, s: State, w: nat)
    requires Valid(c) && Inv(c, s) && IsRun(c, Init(c), trace, s) && w < |s.workers| && s.workers[w].Sending?
    requires |s.buffer| == |c.outcomes| && !s.collector.Collecting?
    ensures Blocks(c)
  {
    var rest, t := RunToRest(c, s);
    RunAppend(c, Init(c), trace, s, rest, t);
    FullStays(c, s, rest, t, w);
  }

  /** With no documents the results channel has no buffer, and nobody receives. */
  lemma EmptyBlocks(c: Call, w: nat)
    requires Valid(c) && c.outcomes == [] && w < |c.startFails| && c.startFails[w]
    ensures Blocks(c)
  {
    InvInit(c);
    var rest, t := RunToRest(c, Init(c));
    if t.collector.Returned? { InvReturned(c, t); }
  }

  lemma InvReturned(c: Call, s: State)
    requires Valid(c) && Inv(c, s) && s.collector.Returned? && c.outcomes == []
    ensures StartFailures(c) == 0
  {
    NothingPending(s);
  }

  /** Exactly which calls can be left blocked by some interleaving. */
  lemma BlocksIff(c: Call)
    requires Valid(c)
    ensures Blocks(c) <==> CanBlock(c)
  {
    if CanBlock(c) {
      CountTrue(c.startFails);
      var w :| 0 <= w < |c.startFails| && c.startFails[w];
      if c.outcomes == [] { EmptyBlocks(c, w); } else { OverflowBlocks(c, w); }
    }
    if s :| Reachable(c, s) && Stuck(c, s) && !s.collector.Returned? {
      var trace :| IsRun(c, Init(c), trace, s);
      BoundedInit(c);
      BoundedRun(c, Init(c), trace, s);
      RestOverflows(c, s);
    }
  }

  lemma {:induction false} AllStartable(outcomes: seq<Outcome>, good: nat)
    requires Failed !in outcomes
    ensures Startable(outcomes, good) == if good > 0 then |outcomes| else 0
  {
    if outcomes != [] {
      var init := outcomes[..|outcomes| - 1];
      assert forall o :: o in init ==> o in outcomes;
      AllStartable(init, good);
    }
  }

  /** Exactly which start failures can leave the parallel runner blocked for some documents and interleaving. */
  lemma SomeCallBlocksIff(startFails: seq<bool>, documents: nat)
    requires |startFails| >= 1
    ensures (exists outcomes: seq<Outcome> :: |outcomes| == documents && Blocks(Call(startFails, outcomes)))
            <==> !Safe(startFails, documents)
  {
    CountTrue(startFails);
    forall outcomes: seq<Outcome> | |outcomes| == documents && Safe(startFails, documents)
      ensures !Blocks(Call(startFails, outcomes))
    {
      BlocksIff(Call(startFails, outcomes));
      if multiset(startFails)[true] == |startFails| { NoneStartable(outcomes); }
    }
    if !Safe(startFails, documents) {
      var outcomes := seq(documents, _ => Processed);
      AllStartable(outcomes, GoodWorkers(Call(startFails, outcomes)));
      BlocksIff(Call(startFails, outcomes));
    }
  }

  lemma {:induction false} NoneStartable(outcomes: seq<Outcome>)
    ensures Startable(outcomes, 0) == 0
  {
    if outcomes != [] { NoneStartable(outcomes[..|outcomes| - 1]); }
  }

  /** With no failed start, a worker that has a result can always send it. */
  lemma SendNeverBlocks(c: Call, s: State, w: nat)
    requires Valid(c) && Reachable(c, s) && StartFailures(c) == 0
    requires w < |s.workers| && s.workers[w].Sending?
    ensures Enabled(c, s, SendResult(w))
  {
    InvReachable(c, s);
    PendingSends(s, w);
  }

  // ---------------------------------------------------------------- results

  predicate Distinct(xs: seq<nat>) {
    forall i, k :: 0 <= i < k < |xs| ==> xs[i] != xs[k]
  }

  lemma {:induction false} DistinctCovers(xs: seq<nat>, n: nat)
    requires Distinct(xs) && |xs| >= n && forall i :: 0 <= i < |xs| ==> xs[i] < n
    ensures |xs| == n && forall j :: 0 <= j < n ==> j in xs
  {
    if xs != [] {
      assert xs[0] < n;
      if n - 1 in xs {
        var i :| 0 <= i < |xs| && xs[i] == n - 1;
        var ys := xs[..i] + xs[i + 1..];
        DistinctCovers(ys, n - 1);
        forall j | 0 <= j < n - 1 ensures j in xs { assert j in ys; }
      } else {
        DistinctCovers(xs, n - 1);
      }
    }
  }

  lemma {:induction false} TallyRemove(o: Outcome, ms: seq<Message>, i: nat)
    requires i < |ms|
    ensures Tally(o, ms) == Tally(o, ms[..i] + ms[i + 1..]) + if ms[i].Finished? && ms[i].verdict == Of(o) then 1 else 0
  {
    var last := |ms| - 1;
    if i == last {
      assert ms[..i] + ms[i + 1..] == ms[..last];
    } else {
      TallyRemove(o, ms[..last], i);
      assert (ms[..i] + ms[i + 1..])[..last - 1] == ms[..last][..i] + ms[..last][i + 1..];
    }
  }

  /** Undisturbed reports of the first n documents, each at most once. */
  ghost predicate Reports(c: Call, ms: seq<Message>, n: nat) {
    && n <= |c.outcomes|
    && (forall i :: 0 <= i < |ms| ==> Reported(c, ms[i], n))
    && (forall i, k :: 0 <= i < k < |ms| ==> ms[i] != ms[k])
  }

  ghost predicate Reported(c: Call, m: Message, n: nat) {
    m.Finished? && m.job < n <= |c.outcomes| && m.verdict == Of(c.outcomes[m.job])
  }

  lemma ReportsRemove(c: Call, ms: seq<Message>, i: nat, n: nat)
    requires Reports(c, ms, n) && i < |ms| && ms[i].job == n - 1
    ensures Reports(c, ms[..i] + ms[i + 1..], n - 1)
  {
    var rest := ms[..i] + ms[i + 1..];
    forall k | 0 <= k < |rest| ensures Reported(c, rest[k], n - 1) {
      var at := if k < i then k else k + 1;
      assert rest[k] == ms[at] && Reported(c, ms[at], n) && ms[at] != ms[i];
    }
  }

  ghost predicate HasReport(ms: seq<Message>, j: nat) {
    exists i :: 0 <= i < |ms| && ms[i].Finished? && ms[i].job == j
  }

  lemma ReportsCover(c: Call, ms: seq<Message>, n: nat)
    requires Reports(c, ms, n) && |ms| == n
    ensures forall j :: 0 <= j < n ==> HasReport(ms, j)
  {
    assert forall i :: 0 <= i < n ==> Reported(c, ms[i], n);
    var jobs := seq(n, i requires 0 <= i < n => ms[i].job);
    forall i, k | 0 <= i < k < n ensures jobs[i] != jobs[k] {
      assert Reported(c, ms[i], n) && Reported(c, ms[k], n) && ms[i] != ms[k];
    }
    DistinctCovers(jobs, n);
    forall j | 0 <= j < n ensures HasReport(ms, j) {
      assert j in jobs;
      var i :| 0 <= i < |jobs| && jobs[i] == j;
      assert ms[i].job == j;
    }
  }

  /** One report per document, in any order, tallies like the documents themselves. */
  lemma {:induction false} TallyAll(c: Call, o: Outcome, ms: seq<Message>, n: nat)
    requires Reports(c, ms, n) && |ms| == n
    ensures Tally(o, ms) == multiset(c.outcomes[..n])[o]
  {
    if n > 0 {
      ReportsCover(c, ms, n);
      assert HasReport(ms, n - 1);
      var i :| 0 <= i < n && ms[i].Finished? && ms[i].job == n - 1;
      TallyRemove(o, ms, i);
      ReportsRemove(c, ms, i, n);
      TallyAll(c, o, ms[..i] + ms[i + 1..], n - 1);
      assert c.outcomes[..n] == c.outcomes[..n - 1] + [c.outcomes[n - 1]];
    }
  }

  lemma ReceivedReports(c: Call, s: State)
    requires Shape(c, s) && Exclusive(c, s) && Caused(c, s) && NoErrors(s.received)
    ensures Reports(c, s.received, |c.outcomes|)
  {
    var got, n := s.received, |c.outcomes|;
    assert forall i :: 0 <= i < |got| ==> Stream(s)[i] == got[i];
    forall i | 0 <= i < |got| ensures Reported(c, got[i], n) {
      assert Faithful(c, Stream(s)[i]) && !IsError(got[i]);
    }
  }

  lemma ReportsFailNowhere(c: Call, ms: seq<Message>)
    requires Reports(c, ms, |c.outcomes|) && |ms| == |c.outcomes| && NoErrors(ms)
    ensures Failed !in c.outcomes
  {
    ReportsCover(c, ms, |ms|);
    forall j | 0 <= j < |c.outcomes| ensures c.outcomes[j] != Failed {
      assert HasReport(ms, j);
      var i :| 0 <= i < |ms| && ms[i].Finished? && ms[i].job == j;
      assert Reported(c, ms[i], |ms|) && !IsError(ms[i]);
    }
  }

  lemma AllStarted(c: Call, s: State)
    requires Inv(c, s) && |s.received| == |c.outcomes| && NoErrors(s.received)
    ensures Distinct(s.started) && |s.started| == |c.outcomes|
    ensures forall j :: 0 <= j < |c.outcomes| ==> j in s.started
  {
    FinishedCountBound(s.received);
    assert Stream(s)[..|s.received|] == s.received;
    FinishedCountPrefix(Stream(s), |s.received|);
    DistinctCovers(s.started, |c.outcomes|);
  }

  /** A call that returns no error ran every document exactly once, with the sequential runner's counts. */
  lemma NilReturn(c: Call, s: State)
    requires Valid(c) && Reachable(c, s) && s.collector.Returned? && s.collector.error.None?
    ensures Sequential(c.outcomes) == Summary(s.collector.processed, s.collector.skipped, None)
    ensures Distinct(s.started) && |s.started| == |c.outcomes|
    ensures forall j :: 0 <= j < |c.outcomes| ==> j in s.started
  {
    InvReachable(c, s);
    ReceivedReports(c, s);
    ReportsFailNowhere(c, s.received);
    AllStarted(c, s);
    TallyAll(c, Processed, s.received, |c.outcomes|);
    TallyAll(c, Skipped, s.received, |c.outcomes|);
    assert c.outcomes[..|c.outcomes|] == c.outcomes;
    SequentialMeaning(c.outcomes);
  }

  /** The error returned is the document's or translator's own, never the cancellation it caused. */
  lemma ErrorIsGenuine(c: Call, s: State)
    requires Valid(c) && Reachable(c, s) && s.collector.Returned? && s.collector.error.Some?
    ensures Genuine(c, s.collector.error.value)
  {
    InvReachable(c, s);
    var last := |s.received| - 1;
    var e := s.received[last];
    assert Stream(s)[last] == e && Faithful(c, e);
    assert Stream(s)[..last] == s.received[..last];
  }

  /** With every translator started, the parallel runner fails exactly when the sequential one does. */
  lemma FailsLikeSequential(c: Call, s: State)
    requires Valid(c) && Reachable(c, s) && s.collector.Returned? && StartFailures(c) == 0
    ensures s.collector.error.Some? <==> Sequential(c.outcomes).failedAt.Some?
    ensures s.collector.error.Some? ==> s.collector.error.value.Finished?
  {
    CountTrue(c.startFails);
    SequentialMeaning(c.outcomes);
    if s.collector.error.Some? {
      ErrorIsGenuine(c, s);
      var e := s.collector.error.value;
      assert e.Finished? && c.outcomes[e.job] == Failed;
    } else {
      NilReturn(c, s);
    }
  }

  /** Whatever happened so far, a safe call can still return, and nothing else ends its runs. */
  lemma SafeCallReturns(c: Call, s: State) returns (trace: seq<Action>, t: State)
    requires Valid(c) && Reachable(c, s) && Safe(c.startFails, |c.outcomes|)
    ensures IsRun(c, s, trace, t) && t.collector.Returned?
    ensures Stuck(c, s) ==> s == t
  {
    InvReachable(c, s);
    trace, t := RunToRest(c, s);
    SafeNeverStuck(c, t);
  }
}
