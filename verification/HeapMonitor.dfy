/** The heap half of the runtime memory monitor, over every trace of allocator operations. */
module HeapMonitor {
  import opened Common

  datatype Stage =
    | IDLE | DNS | TCP | TLS_CONTEXT | CERTIFICATE | PRIVATE_KEY | KEY_SHARE | TLS_HANDSHAKE
    | SERVER_CERT_VERIFY | CLIENT_CERT_VERIFY | PRIMITIVE_SIGN | PRIMITIVE_VERIFY | MQTT | CLOSE

  /** What happens in a monitored window. `inUse` is what the allocator reports afterwards. */
  datatype Op =
    | Allocate(requested: nat, granted: bool, inUse: nat)
    | Release(nonNull: bool, inUse: nat)
    | SetStage(stage: Stage)
    | NoteFailure(noted: nat)
    | Look
    | MarkTls

  datatype Trace = Begin(start: nat) | Then(before: Trace, op: Op)

  // ---- What a window is -----------------------------------------------------------------------

  function InUse(t: Trace): nat {
    match t
    case Begin(n) => n
    case Then(before, Allocate(_, _, n)) => n
    case Then(before, Release(_, n)) => n
    case Then(before, _) => InUse(before)
  }

  function StageOf(t: Trace): Stage {
    match t
    case Begin(_) => IDLE
    case Then(_, SetStage(s)) => s
    case Then(before, _) => StageOf(before)
  }

  function StartOf(t: Trace): nat {
    match t
    case Begin(n) => n
    case Then(before, _) => StartOf(before)
  }

  /** The use at the last mark of the TLS start, if there was one. */
  function TlsMark(t: Trace): Option<nat> {
    match t
    case Begin(_) => None
    case Then(_, MarkTls) => Some(InUse(t))
    case Then(before, _) => TlsMark(before)
  }

  predicate Within(u: Trace, t: Trace) {
    u == t || (t.Then? && Within(u, t.before))
  }

  predicate FailedCall(op: Op) {
    op.Allocate? && !op.granted && op.requested != 0
  }

  /** The operation reports that `bytes` could not be had. */
  predicate Fails(op: Op, bytes: nat) {
    bytes > 0 && (op == NoteFailure(bytes) || (FailedCall(op) && op.requested == bytes))
  }

  function Count(t: Trace, p: Op -> bool): nat {
    if t.Begin? then 0 else Count(t.before, p) + if p(t.op) then 1 else 0
  }

  function MaxRequest(t: Trace): nat {
    match t
    case Begin(_) => 0
    case Then(before, Allocate(n, _, _)) => Max(n, MaxRequest(before))
    case Then(before, _) => MaxRequest(before)
  }

  const IS_CALL: Op -> bool := (op: Op) => op.Allocate?
  const IS_FREE: Op -> bool := (op: Op) => op.Release? && op.nonNull
  const IS_FAILED_CALL: Op -> bool := (op: Op) => FailedCall(op)

  // ---- What the monitor keeps -----------------------------------------------------------------

  datatype Failure = Failure(bytes: nat, stage: Stage)

  datatype Counters = Counters(peak: nat, maxRequest: nat, calls: nat, frees: nat, failedCalls: nat,
                               stage: Stage, failure: Option<Failure>)

  function Start(inUse: nat): Counters {
    Counters(inUse, 0, 0, 0, 0, IDLE, None)
  }

  function Next(c: Counters, op: Op, inUse: nat): Counters {
    var seen := c.(peak := Max(c.peak, inUse));
    match op
    case Look => seen
    case MarkTls => seen
    case SetStage(s) => seen.(stage := s)
    case NoteFailure(n) => if n == 0 || c.failure.Some? then c else c.(failure := Some(Failure(n, c.stage)))
    case Release(nonNull, _) => if nonNull then seen.(frees := (c.frees + 1) % TWO_TO_32) else seen
    case Allocate(n, granted, _) =>
      var counted := seen.(calls := (c.calls + 1) % TWO_TO_32, maxRequest := Max(c.maxRequest, n));
      if granted || n == 0 then counted
      else counted.(failedCalls := (c.failedCalls + 1) % TWO_TO_32,
                    failure := if c.failure.Some? then c.failure else Some(Failure(n, c.stage)))
  }

  function Watch(t: Trace): Counters {
    match t
    case Begin(n) => Start(n)
    case Then(before, op) => Next(Watch(before), op, InUse(t))
  }

  // ---- Exactness ------------------------------------------------------------------------------

  /** The reported peak is the largest in-use value over all states of the window. */
  lemma {:induction false} PeakIsMaximum(t: Trace)
    ensures exists u :: Within(u, t) && InUse(u) == Watch(t).peak
    ensures forall u :: Within(u, t) ==> InUse(u) <= Watch(t).peak
  {
    match t {
      case Begin(_) => assert Within(t, t);
      case Then(before, op) =>
        PeakIsMaximum(before);
        var u :| Within(u, before) && InUse(u) == Watch(before).peak;
        assert Within(u, t) && Within(t, t) && Within(before, before);
        assert InUse(before) <= Watch(before).peak;
    }
  }

  lemma ModSucc(x: nat)
    ensures (x % TWO_TO_32 + 1) % TWO_TO_32 == (x + 1) % TWO_TO_32
  {
  }

  lemma {:induction false} CallsAreExact(t: Trace)
    ensures Watch(t).calls == Count(t, IS_CALL) % TWO_TO_32
  {
    if t.Then? {
      CallsAreExact(t.before);
      ModSucc(Count(t.before, IS_CALL));
    }
  }

  lemma {:induction false} FreesAreExact(t: Trace)
    ensures Watch(t).frees == Count(t, IS_FREE) % TWO_TO_32
  {
    if t.Then? {
      FreesAreExact(t.before);
      ModSucc(Count(t.before, IS_FREE));
    }
  }

  lemma {:induction false} FailedCallsAreExact(t: Trace)
    ensures Watch(t).failedCalls == Count(t, IS_FAILED_CALL) % TWO_TO_32
  {
    if t.Then? {
      FailedCallsAreExact(t.before);
      ModSucc(Count(t.before, IS_FAILED_CALL));
    }
  }

  /** The counters are the numbers of operations in the trace, modulo their width. */
  lemma CountsAreExact(t: Trace)
    ensures Watch(t).calls == Count(t, IS_CALL) % TWO_TO_32
    ensures Watch(t).frees == Count(t, IS_FREE) % TWO_TO_32
    ensures Watch(t).failedCalls == Count(t, IS_FAILED_CALL) % TWO_TO_32
  {
    CallsAreExact(t);
    FreesAreExact(t);
    FailedCallsAreExact(t);
  }

  /** The largest request and the current stage are the trace's. */
  lemma {:induction false} RequestAndStageAreExact(t: Trace)
    ensures Watch(t).maxRequest == MaxRequest(t)
    ensures Watch(t).stage == StageOf(t)
  {
    if t.Then? {
      RequestAndStageAreExact(t.before);
    }
  }

  /** No operation of the trace reports a failure. */
  predicate Quiet(t: Trace) {
    t.Then? ==> Quiet(t.before) && !FailedCall(t.op) && (t.op.NoteFailure? ==> t.op.noted == 0)
  }

  lemma {:induction false} QuietRecordsNothing(t: Trace)
    ensures Quiet(t) <==> Watch(t).failure == None
  {
    if t.Then? {
      QuietRecordsNothing(t.before);
    }
  }

  /** The failure on record is the earliest of the window: nothing is recorded before it, and
      whatever follows leaves it alone. */
  lemma {:induction false} FirstFailureIsKept(u: Trace, op: Op, bytes: nat, t: Trace)
    requires Quiet(u) && Fails(op, bytes) && Within(Then(u, op), t)
    ensures Watch(t).failure == Some(Failure(bytes, StageOf(u)))
  {
    if t == Then(u, op) {
      QuietRecordsNothing(u);
      RequestAndStageAreExact(u);
    } else {
      FirstFailureIsKept(u, op, bytes, t.before);
    }
  }

  /** A positive failure counter always comes with a record. */
  lemma {:induction false} FailuresAreLatched(t: Trace)
    ensures Watch(t).failedCalls > 0 ==> Watch(t).failure.Some?
  {
    if t.Then? {
      FailuresAreLatched(t.before);
    }
  }

  lemma {:induction false} StartIsWithin(t: Trace)
    ensures Within(Begin(StartOf(t)), t)
  {
    if t.Then? {
      StartIsWithin(t.before);
    }
  }

  // ---- The monitor ----------------------------------------------------------------------------

  datatype Result = Result(capacity: nat, before: nat, peak: nat, peakDelta: nat, after: nat, freeBefore: nat,
                           freeBeforeTls: nat, minFree: nat, freeAfter: nat, maxRequest: nat, calls: nat,
                           frees: nat, failedCalls: nat, failure: Option<Failure>)

  /** What is reported as free before TLS: 0 as long as the start of TLS was not marked. */
  function FreeAtMark(mark: Option<nat>, capacity: nat): nat {
    if mark.None? then 0 else Max(capacity - mark.value, 0)
  }

  lemma WindowOpens(n: nat)
    ensures Watch(Begin(n)) == Start(n) && InUse(Begin(n)) == StartOf(Begin(n)) == n && TlsMark(Begin(n)) == None
  {
  }

  lemma WindowGoesOn(t: Trace, op: Op)
    ensures var u := Then(t, op);
            && Watch(u) == Next(Watch(t), op, InUse(u)) && StartOf(u) == StartOf(t)
            && InUse(u) == (if op.Allocate? || op.Release? then op.inUse else InUse(t))
            && TlsMark(u) == if op.MarkTls? then Some(InUse(u)) else TlsMark(t)
  {
  }

  /** The static variables of the monitor, and the allocator's own figure. */
  class Monitor {
    const capacity: nat
    /** `mallinfo().uordblks` */
    var inUse: nat
    var monitoring: bool
    var stage: Stage
    var heapBefore: nat
    var heapPeak: nat
    var freeBeforeTls: nat
    var maxRequest: nat
    var calls: nat
    var frees: nat
    var failedCalls: nat
    var failed: bool
    var failureBytes: nat
    var failureStage: Stage
    ghost var trace: Trace

    ghost function Kept(): Counters
      reads this
    {
      Counters(heapPeak, maxRequest, calls, frees, failedCalls, stage,
               if failed then Some(Failure(failureBytes, failureStage)) else None)
    }

    /** While a window is open, the variables are what its trace makes them. */
    ghost predicate Valid()
      reads this
    {
      monitoring ==> && Kept() == Watch(trace) && inUse == InUse(trace) && heapBefore == StartOf(trace)
                     && freeBeforeTls == FreeAtMark(TlsMark(trace), capacity)
    }

    constructor (capacity: nat)
      ensures Valid() && !monitoring
    {
      this.capacity := capacity;
      inUse, monitoring, stage, heapBefore, heapPeak := 0, false, IDLE, 0, 0;
      freeBeforeTls, maxRequest, calls, frees, failedCalls := 0, 0, 0, 0, 0;
      failed, failureBytes, failureStage, trace := false, 0, IDLE, Begin(0);
    }

    /** `observe_heap` */
    method ObserveHeap()
      modifies this`heapPeak
      ensures heapPeak == if monitoring then Max(old(heapPeak), inUse) else old(heapPeak)
    {
      if !monitoring {
        return;
      }
      if inUse > heapPeak {
        heapPeak := inUse;
      }
    }

    /** The heap part of `runtime_memory_begin` */
    method Open()
      modifies this
      ensures Valid() && monitoring && trace == Begin(inUse) && inUse == old(inUse)
    {
      hide Watch, InUse, StartOf, TlsMark;
      WindowOpens(inUse);
      stage := IDLE;
      failed := false;
      failureBytes := 0;
      failureStage := IDLE;
      heapBefore := inUse;
      heapPeak := heapBefore;
      freeBeforeTls := 0;
      maxRequest := 0;
      calls := 0;
      frees := 0;
      failedCalls := 0;
      monitoring := true;
      trace := Begin(inUse);
    }

    /** `runtime_memory_note_allocation_failure` */
    method NoteAllocationFailure(requested: nat)
      modifies this`failed, this`failureBytes, this`failureStage
      ensures var latches := monitoring && requested != 0 && !old(failed);
              && failed == (old(failed) || latches)
              && failureBytes == (if latches then requested else old(failureBytes))
              && failureStage == (if latches then stage else old(failureStage))
    {
      if !monitoring || requested == 0 || failed {
        return;
      }
      failed := true;
      failureBytes := requested;
      failureStage := stage;
    }

    /** The same, as a step of its own */
    method Note(requested: nat)
      requires Valid()
      modifies this
      ensures Valid() && monitoring == old(monitoring)
      ensures trace == if monitoring then Then(old(trace), NoteFailure(requested)) else old(trace)
    {
      hide Watch, InUse, StartOf, TlsMark;
      WindowGoesOn(trace, NoteFailure(requested));
      NoteAllocationFailure(requested);
      if monitoring {
        trace := Then(trace, NoteFailure(requested));
      }
    }

    /** `runtime_memory_set_stage` */
    method EnterStage(s: Stage)
      requires Valid()
      modifies this
      ensures Valid() && monitoring == old(monitoring) && stage == s
      ensures trace == if monitoring then Then(old(trace), SetStage(s)) else old(trace)
    {
      hide Watch, InUse, StartOf, TlsMark;
      WindowGoesOn(trace, SetStage(s));
      stage := s;
      ObserveHeap();
      if monitoring {
        trace := Then(trace, SetStage(s));
      }
    }

    /** `runtime_memory_observe` */
    method Observe()
      requires Valid()
      modifies this
      ensures Valid() && monitoring == old(monitoring)
      ensures trace == if monitoring then Then(old(trace), Look) else old(trace)
    {
      hide Watch, InUse, StartOf, TlsMark;
      WindowGoesOn(trace, Look);
      ObserveHeap();
      if monitoring {
        trace := Then(trace, Look);
      }
    }

    /** `runtime_memory_mark_tls_start` */
    method MarkTlsStart()
      requires Valid()
      modifies this
      ensures Valid() && monitoring == old(monitoring)
      ensures freeBeforeTls == Max(capacity - inUse, 0)
      ensures trace == if monitoring then Then(old(trace), MarkTls) else old(trace)
    {
      hide Watch, InUse, StartOf, TlsMark;
      WindowGoesOn(trace, MarkTls);
      ObserveHeap();
      freeBeforeTls := if capacity > inUse then capacity - inUse else 0;
      if monitoring {
        trace := Then(trace, MarkTls);
      }
    }

    /** `allocation_observed` */
    method AllocationObserved(requested: nat, granted: bool)
      modifies this`calls, this`maxRequest, this`failedCalls, this`failed, this`failureBytes, this`failureStage,
               this`heapPeak
      ensures Kept() == if monitoring then Next(old(Kept()), Allocate(requested, granted, inUse), inUse) else old(Kept())
    {
      if !monitoring {
        return;
      }
      calls := (calls + 1) % TWO_TO_32;
      if requested > maxRequest {
        maxRequest := requested;
      }
      if !granted && requested != 0 {
        failedCalls := (failedCalls + 1) % TWO_TO_32;
        NoteAllocationFailure(requested);
      }
      ObserveHeap();
    }

    /** `__wrap__malloc_r` and `__wrap__realloc_r` around an allocator that answers as it likes */
    method AllocateR(requested: nat, granted: bool, inUseAfter: nat)
      requires Valid()
      modifies this
      ensures Valid() && monitoring == old(monitoring)
      ensures trace == if monitoring then Then(old(trace), Allocate(requested, granted, inUseAfter)) else old(trace)
    {
      hide Watch, InUse, StartOf, TlsMark, Next;
      WindowGoesOn(trace, Allocate(requested, granted, inUseAfter));
      inUse := inUseAfter;
      AllocationObserved(requested, granted);
      if monitoring {
        trace := Then(trace, Allocate(requested, granted, inUseAfter));
      }
    }

    /** `__wrap__free_r` */
    method FreeR(nonNull: bool, inUseAfter: nat)
      requires Valid()
      modifies this
      ensures Valid() && monitoring == old(monitoring)
      ensures trace == if monitoring then Then(old(trace), Release(nonNull, inUseAfter)) else old(trace)
    {
      hide Watch, InUse, StartOf, TlsMark;
      WindowGoesOn(trace, Release(nonNull, inUseAfter));
      inUse := inUseAfter;
      if monitoring && nonNull {
        frees := (frees + 1) % TWO_TO_32;
      }
      ObserveHeap();
      if monitoring {
        trace := Then(trace, Release(nonNull, inUseAfter));
      }
    }

    /** The heap part of `runtime_memory_end`. Every figure is one of the trace, and the clamp to
        zero hides no negative difference in the peak's growth. */
    method Close() returns (r: Result)
      requires Valid() && monitoring
      modifies this
      ensures Valid() && !monitoring && trace == old(trace)
      ensures var w := Watch(trace);
              && r.before == StartOf(trace) && r.after == InUse(trace)
              && r.peak == w.peak && r.peak == r.before + r.peakDelta
              && r.maxRequest == w.maxRequest && r.calls == w.calls && r.frees == w.frees
              && r.failedCalls == w.failedCalls && r.failure == w.failure
              && r.minFree == Max(capacity - w.peak, 0)
              && r.freeBefore == Max(capacity - r.before, 0) && r.freeAfter == Max(capacity - r.after, 0)
              && r.freeBeforeTls == (if TlsMark(trace).None? then 0 else Max(capacity - TlsMark(trace).value, 0))
              && r.capacity == capacity
    {
      PeakIsMaximum(trace);
      assert Within(trace, trace);
      StartIsWithin(trace);
      ObserveHeap();
      monitoring := false;
      r := Result(
        capacity, heapBefore, heapPeak,
        if heapPeak > heapBefore then heapPeak - heapBefore else 0,
        inUse,
        if capacity > heapBefore then capacity - heapBefore else 0,
        freeBeforeTls,
        if capacity > heapPeak then capacity - heapPeak else 0,
        if capacity > inUse then capacity - inUse else 0,
        maxRequest, calls, frees, failedCalls,
        if failed then Some(Failure(failureBytes, failureStage)) else None);
    }
  }
}
