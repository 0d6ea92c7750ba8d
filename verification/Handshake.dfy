/**
 The sampling handshake between the profiler thread and the signal handler,
 as interleaved atomic steps: the profiler publishes a buffer, signals one
 thread and waits for the buffer's ready flag; the handler on the signalled
 thread finds the buffer through the shared pointer, fills it entry by entry,
 tags it and sets the flag. Only the profiler sends the signal.
 */
module Handshake {
  import opened Basics
  import opened Records

  /** An `AsyncTrace`. */
  datatype Buffer = Buffer(thread: Tid, entries: seq<Instruction>, coroutine: Id, ready: bool)

  /** Where the profiler thread is in its loop, and with which buffer. */
  datatype Profiler =
    | AtHead                     // of the outer loop, about to test `active_`
    | Scanning                   // the threads of one snapshot
    | Allocated(buffer: nat)
    | Published(buffer: nat)
    | Waiting(buffer: nat)
    | Woken(buffer: nat)
    | Withdrawn(buffer: nat)
    | Finished

  /** Where a thread is in the signal handler. */
  datatype Handler =
    | Outside
    | Entered
    | Spinning
    | Filling(buffer: nat)
    | Filled(buffer: nat)
    | Tagged(buffer: nat)
    | Leaving

  datatype RawSample = RawSample(thread: Tid, entries: seq<Instruction>, coroutine: Id)

  /**
   `stacks` and `current` are what unwinding yields on a thread and its current
   coroutine. `sampled` records, whenever a handler sets a ready flag, what its own
   thread was doing; no step reads it.
   */
  datatype State = State(
    hash: Tid -> Id,
    active: bool,
    slot: Option<nat>,           // `trace_`
    buffers: seq<Buffer>,
    profiler: Profiler,
    pending: set<Tid>,           // threads with an undelivered signal
    handlers: map<Tid, Handler>,
    stacks: map<Tid, seq<Instruction>>,
    current: map<Tid, Id>,
    stored: seq<RawSample>,         // the raw queue's input
    sampled: seq<RawSample>)

  datatype Action =
    | TestActive | EndScan
    | Allocate(thread: Tid) | Publish | Kill | Wake | Withdraw | Store
    | Deliver(thread: Tid) | CheckActive(thread: Tid) | Load(thread: Tid)
    | FillOne(thread: Tid) | FinishFilling(thread: Tid) | Tag(thread: Tid) | SetReady(thread: Tid) | Leave(thread: Tid)
    | Execute(thread: Tid, stack: seq<Instruction>, coroutine: Id)
    | Stop

  function Init(hash: Tid -> Id): State {
    State(hash, true, None, [], AtHead, {}, map[], map[], map[], [], [])
  }

  function HandlerOf(s: State, t: Tid): Handler {
    if t in s.handlers then s.handlers[t] else Outside
  }

  function StackOf(s: State, t: Tid): seq<Instruction> {
    if t in s.stacks then s.stacks[t] else []
  }

  function CurrentOf(s: State, t: Tid): Id {
    if t in s.current then s.current[t] else NOT_FOUND
  }

  /** The id a sample is filed under: the coroutine, or the thread if there is none. */
  function TagOf(s: State, t: Tid): Id {
    if CurrentOf(s, t) == NOT_FOUND then s.hash(t) else CurrentOf(s, t)
  }

  predicate Enabled(s: State, a: Action) {
    match a
    case TestActive => s.profiler.AtHead?
    case EndScan => s.profiler.Scanning?
    case Allocate(_) => s.profiler.Scanning?
    case Publish => s.profiler.Allocated?
    case Kill => s.profiler.Published? && s.profiler.buffer < |s.buffers|
    case Wake => s.profiler.Waiting? && s.profiler.buffer < |s.buffers| && s.buffers[s.profiler.buffer].ready
    case Withdraw => s.profiler.Woken?
    case Store => s.profiler.Withdrawn? && s.profiler.buffer < |s.buffers|
    case Deliver(t) => t in s.pending && HandlerOf(s, t).Outside?    // the signal is blocked in its own handler
    case CheckActive(t) => HandlerOf(s, t).Entered?
    case Load(t) => HandlerOf(s, t).Spinning?
    case FillOne(t) =>
      var h := HandlerOf(s, t);
      h.Filling? && h.buffer < |s.buffers| && |s.buffers[h.buffer].entries| < |StackOf(s, t)|
    case FinishFilling(t) =>
      var h := HandlerOf(s, t);
      h.Filling? && h.buffer < |s.buffers| && |s.buffers[h.buffer].entries| >= |StackOf(s, t)|
    case Tag(t) => HandlerOf(s, t).Filled? && HandlerOf(s, t).buffer < |s.buffers|
    case SetReady(t) => HandlerOf(s, t).Tagged? && HandlerOf(s, t).buffer < |s.buffers|
    case Leave(t) => HandlerOf(s, t).Leaving?
    case Execute(t, _, _) => HandlerOf(s, t).Outside?                // the handler interrupts its thread
    case Stop => true
  }

  function Move(s: State, t: Tid, h: Handler): State {
    s.(handlers := s.handlers[t := h])
  }

  function Next(s: State, a: Action): State
    requires Enabled(s, a)
  {
    match a
    case TestActive => s.(profiler := if s.active then Scanning else Finished)
    case EndScan => s.(profiler := AtHead)
    case Allocate(t) =>
      s.(buffers := s.buffers + [Buffer(t, [], NOT_FOUND, false)], profiler := Allocated(|s.buffers|))
    case Publish => s.(slot := Some(s.profiler.buffer), profiler := Published(s.profiler.buffer))
    case Kill =>
      s.(pending := s.pending + {s.buffers[s.profiler.buffer].thread}, profiler := Waiting(s.profiler.buffer))
    case Wake => s.(profiler := Woken(s.profiler.buffer))
    case Withdraw => s.(slot := None, profiler := Withdrawn(s.profiler.buffer))
    case Store =>
      var b := s.buffers[s.profiler.buffer];
      s.(stored := s.stored + [RawSample(b.thread, b.entries, b.coroutine)], profiler := Scanning)
    case Deliver(t) => Move(s.(pending := s.pending - {t}), t, Entered)
    case CheckActive(t) => Move(s, t, if s.active then Spinning else Outside)
    case Load(t) => if s.slot.None? then s else Move(s, t, Filling(s.slot.value))
    case FillOne(t) =>
      var k := HandlerOf(s, t).buffer;
      var b := s.buffers[k];
      s.(buffers := s.buffers[k := b.(entries := b.entries + [StackOf(s, t)[|b.entries|]])])
    case FinishFilling(t) => Move(s, t, Filled(HandlerOf(s, t).buffer))
    case Tag(t) =>
      var k := HandlerOf(s, t).buffer;
      var b := s.buffers[k];
      var id := if CurrentOf(s, t) == NOT_FOUND then s.hash(b.thread) else CurrentOf(s, t);
      Move(s.(buffers := s.buffers[k := b.(coroutine := id)]), t, Tagged(k))
    case SetReady(t) =>
      var k := HandlerOf(s, t).buffer;
      Move(s.(buffers := s.buffers[k := s.buffers[k].(ready := true)],
              sampled := s.sampled + [RawSample(t, StackOf(s, t), TagOf(s, t))]), t, Leaving)
    case Leave(t) => Move(s, t, Outside)
    case Execute(t, stack, coroutine) => s.(stacks := s.stacks[t := stack], current := s.current[t := coroutine])
    case Stop => s.(active := false)
  }

  // ---------- the ownership invariant ----------

  /** The thread is in the handler and has not set a ready flag yet. */
  predicate Busy(h: Handler) {
    h.Entered? || h.Spinning? || h.Filling? || h.Filled? || h.Tagged?
  }

  /** The shared pointer is set exactly from publishing to withdrawing. */
  predicate SlotMatches(s: State) {
    s.slot == if s.profiler.Published? || s.profiler.Waiting? || s.profiler.Woken? then Some(s.profiler.buffer)
      else None
  }

  /** The profiler waits for thread `t` to fill its buffer, which is not ready. */
  predicate WaitingFor(s: State, t: Tid) {
    && s.profiler.Waiting?
    && s.profiler.buffer < |s.buffers|
    && s.buffers[s.profiler.buffer].thread == t
    && !s.buffers[s.profiler.buffer].ready
  }

  /** What the handler of thread `t` has done to the buffer it works on. */
  predicate Progress(s: State, t: Tid, b: Buffer) {
    match HandlerOf(s, t)
    case Filling(_) => b.entries <= StackOf(s, t)
    case Filled(_) => b.entries == StackOf(s, t)
    case Tagged(_) => b.entries == StackOf(s, t) && b.coroutine == TagOf(s, t)
    case _ => b.entries == []
  }

  predicate OwnsBuffer(s: State, t: Tid) {
    var h := HandlerOf(s, t);
    && WaitingFor(s, t)
    && (h.Filling? || h.Filled? || h.Tagged? ==> h.buffer == s.profiler.buffer)
    && Progress(s, t, s.buffers[s.profiler.buffer])
  }

  ghost predicate PendingOwned(s: State) {
    forall t :: t in s.pending ==>
      WaitingFor(s, t) && !Busy(HandlerOf(s, t)) && s.buffers[s.profiler.buffer].entries == []
  }

  ghost predicate BusyOwned(s: State) {
    forall t :: Busy(HandlerOf(s, t)) ==> OwnsBuffer(s, t) && s.pending == {}
  }

  predicate Unused(b: Buffer) {
    b.entries == [] && !b.ready
  }

  function Contents(b: Buffer): RawSample {
    RawSample(b.thread, b.entries, b.coroutine)
  }

  /** Samples taken and samples stored differ by at most the one on its way. */
  predicate Accounted(s: State) {
    match s.profiler
    case AtHead => s.sampled == s.stored
    case Scanning => s.sampled == s.stored
    case Finished => s.sampled == s.stored
    case Allocated(k) => k < |s.buffers| && Unused(s.buffers[k]) && s.sampled == s.stored
    case Published(k) => k < |s.buffers| && Unused(s.buffers[k]) && s.sampled == s.stored
    case Waiting(k) =>
      && k < |s.buffers|
      && s.sampled == if s.buffers[k].ready then s.stored + [Contents(s.buffers[k])] else s.stored
    case Woken(k) => k < |s.buffers| && s.sampled == s.stored + [Contents(s.buffers[k])]
    case Withdrawn(k) => k < |s.buffers| && s.sampled == s.stored + [Contents(s.buffers[k])]
  }

  ghost predicate Inv(s: State) {
    SlotMatches(s) && PendingOwned(s) && BusyOwned(s) && Accounted(s)
  }

  lemma {:induction false} ProfilerStep(s: State, a: Action)
    requires Inv(s) && Enabled(s, a)
    requires a.TestActive? || a.EndScan? || a.Allocate? || a.Publish? || a.Kill? || a.Wake? || a.Withdraw?
      || a.Store? || a.Stop?
    ensures Inv(Next(s, a))
  {
    var n := Next(s, a);
    assert forall t ::
      HandlerOf(n, t) == HandlerOf(s, t) && StackOf(n, t) == StackOf(s, t) && TagOf(n, t) == TagOf(s, t);
  }

  lemma {:induction false} DeliverStep(s: State, t: Tid)
    requires Inv(s) && Enabled(s, Deliver(t))
    ensures Inv(Next(s, Deliver(t)))
  {
    var n := Next(s, Deliver(t));
    assert forall u :: u in s.pending ==> u == t;
    assert n.pending == {};
    assert forall u :: u != t ==> HandlerOf(n, u) == HandlerOf(s, u) && !Busy(HandlerOf(s, u));
  }

  lemma {:induction false} HandlerEntry(s: State, a: Action)
    requires Inv(s) && Enabled(s, a)
    requires a.CheckActive? || a.Load?
    ensures Inv(Next(s, a))
  {
    var n, t := Next(s, a), a.thread;
    assert OwnsBuffer(s, t);
    assert forall u :: u != t ==> HandlerOf(n, u) == HandlerOf(s, u) && !Busy(HandlerOf(s, u));
  }

  lemma {:induction false} OutsideStep(s: State, a: Action)
    requires Inv(s) && Enabled(s, a)
    requires a.Leave? || a.Execute?
    ensures Inv(Next(s, a))
  {
    var n, t := Next(s, a), a.thread;
    assert !Busy(HandlerOf(s, t)) && !Busy(HandlerOf(n, t));
    assert forall u :: u != t ==>
      HandlerOf(n, u) == HandlerOf(s, u) && StackOf(n, u) == StackOf(s, u) && TagOf(n, u) == TagOf(s, u);
    forall u | Busy(HandlerOf(n, u)) ensures OwnsBuffer(n, u) && n.pending == {} {
      assert OwnsBuffer(s, u);
    }
  }

  lemma {:induction false} HandlerWork(s: State, a: Action)
    requires Inv(s) && Enabled(s, a)
    requires a.FillOne? || a.FinishFilling? || a.Tag? || a.SetReady?
    ensures Inv(Next(s, a))
  {
    var n, t := Next(s, a), a.thread;
    assert Busy(HandlerOf(s, t));
    assert forall u :: u != t ==> !Busy(HandlerOf(s, u));
    assert forall u :: u != t ==> HandlerOf(n, u) == HandlerOf(s, u);
  }

  lemma {:induction false} NextKeepsInv(s: State, a: Action)
    requires Inv(s) && Enabled(s, a)
    ensures Inv(Next(s, a))
  {
    match a {
      case TestActive => ProfilerStep(s, a);
      case EndScan => ProfilerStep(s, a);
      case Allocate(_) => ProfilerStep(s, a);
      case Publish => ProfilerStep(s, a);
      case Kill => ProfilerStep(s, a);
      case Wake => ProfilerStep(s, a);
      case Withdraw => ProfilerStep(s, a);
      case Store => ProfilerStep(s, a);
      case Stop => ProfilerStep(s, a);
      case FillOne(_) => HandlerWork(s, a);
      case FinishFilling(_) => HandlerWork(s, a);
      case Tag(_) => HandlerWork(s, a);
      case SetReady(_) => HandlerWork(s, a);
      case Deliver(t) => DeliverStep(s, t);
      case Leave(_) => OutsideStep(s, a);
      case Execute(_, _, _) => OutsideStep(s, a);
      case _ => HandlerEntry(s, a);
    }
  }

  // ---------- runs ----------

  /** The state after a run, if every action was enabled when it was taken. */
  function Run(hash: Tid -> Id, actions: seq<Action>): Option<State> {
    if actions == [] then Some(Init(hash)) else
    var before, a := Run(hash, actions[..|actions| - 1]), actions[|actions| - 1];
    if before.Some? && Enabled(before.value, a) then Some(Next(before.value, a)) else None
  }

  lemma {:induction false} InvAlways(hash: Tid -> Id, actions: seq<Action>)
    requires Run(hash, actions).Some?
    ensures Inv(Run(hash, actions).value)
  {
    hide Inv, Next, Enabled;
    if actions == [] {
      InitInv(hash);
    } else {
      InvAlways(hash, actions[..|actions| - 1]);
      NextKeepsInv(Run(hash, actions[..|actions| - 1]).value, actions[|actions| - 1]);
    }
  }

  lemma {:induction false} InitInv(hash: Tid -> Id)
    ensures Inv(Init(hash))
  {
  }

  /** While a handler works, the profiler waits on that buffer, which is the handler's own thread's. */
  lemma {:induction false} HandlerOwnsBuffer(hash: Tid -> Id, actions: seq<Action>, s: State, t: Tid)
    requires Run(hash, actions) == Some(s) && Busy(HandlerOf(s, t))
    ensures s.profiler.Waiting? && s.slot == Some(s.profiler.buffer) && s.profiler.buffer < |s.buffers|
    ensures s.buffers[s.profiler.buffer].thread == t && !s.buffers[s.profiler.buffer].ready
    ensures var h := HandlerOf(s, t); h.Filling? || h.Filled? || h.Tagged? ==> h.buffer == s.profiler.buffer
    ensures forall u :: Busy(HandlerOf(s, u)) ==> u == t
  {
    InvAlways(hash, actions);
    forall u | Busy(HandlerOf(s, u)) ensures u == t {
      assert OwnsBuffer(s, u);
    }
  }

  /** The handler's loop on the shared pointer never finds it null. */
  lemma {:induction false} SpinNeverSeesNull(hash: Tid -> Id, actions: seq<Action>, s: State, t: Tid)
    requires Run(hash, actions) == Some(s) && Enabled(s, Load(t))
    ensures s.slot.Some? && HandlerOf(Next(s, Load(t)), t) == Filling(s.slot.value)
  {
    HandlerOwnsBuffer(hash, actions, s, t);
  }

  /** Every stored sample is what its thread was doing when it was sampled, in order, none twice. */
  lemma {:induction false} StoredIsSampled(hash: Tid -> Id, actions: seq<Action>, s: State)
    requires Run(hash, actions) == Some(s)
    ensures s.stored <= s.sampled && |s.sampled| <= |s.stored| + 1
    ensures s.profiler.AtHead? || s.profiler.Scanning? || s.profiler.Finished? ==> s.stored == s.sampled
  {
    InvAlways(hash, actions);
  }

  /** What thread `t` was last seen to do in a run: its stack and its coroutine. */
  function LastExecuted(actions: seq<Action>, t: Tid): Option<(seq<Instruction>, Id)> {
    if actions == [] then None else
    match actions[|actions| - 1]
    case Execute(u, stack, coroutine) =>
      if u == t then Some((stack, coroutine)) else LastExecuted(actions[..|actions| - 1], t)
    case _ => LastExecuted(actions[..|actions| - 1], t)
  }

  /** What a sample of thread `t` should hold after the given actions. */
  function SampleOf(hash: Tid -> Id, actions: seq<Action>, t: Tid): RawSample {
    match LastExecuted(actions, t)
    case None => RawSample(t, [], hash(t))
    case Some((stack, coroutine)) => RawSample(t, stack, if coroutine == -1 then hash(t) else coroutine)
  }

  /** The samples that the set ready flags of a run stand for, in order. */
  function SamplesOf(hash: Tid -> Id, actions: seq<Action>): seq<RawSample> {
    if actions == [] then [] else
    var front, a := actions[..|actions| - 1], actions[|actions| - 1];
    SamplesOf(hash, front) + (if a.SetReady? then [SampleOf(hash, front, a.thread)] else [])
  }

  lemma {:induction false} ExecutedStep(s: State, a: Action, t: Tid)
    requires Enabled(s, a)
    ensures Next(s, a).hash == s.hash
    ensures StackOf(Next(s, a), t) == if a.Execute? && a.thread == t then a.stack else StackOf(s, t)
    ensures CurrentOf(Next(s, a), t) == if a.Execute? && a.thread == t then a.coroutine else CurrentOf(s, t)
  {
  }

  lemma {:induction false} ExecutedMeans(hash: Tid -> Id, actions: seq<Action>, s: State, t: Tid)
    requires Run(hash, actions) == Some(s)
    ensures s.hash == hash
    ensures var x := LastExecuted(actions, t);
      && StackOf(s, t) == (if x.Some? then x.value.0 else [])
      && CurrentOf(s, t) == (if x.Some? then x.value.1 else -1)
  {
    hide Enabled, Next, StackOf, CurrentOf;
    if actions == [] {
      NothingExecuted(hash, t);
    } else {
      var front, a := actions[..|actions| - 1], actions[|actions| - 1];
      ExecutedMeans(hash, front, Run(hash, front).value, t);
      ExecutedStep(Run(hash, front).value, a, t);
    }
  }

  lemma {:induction false} NothingExecuted(hash: Tid -> Id, t: Tid)
    ensures Init(hash).hash == hash && StackOf(Init(hash), t) == [] && CurrentOf(Init(hash), t) == -1
  {
  }

  lemma {:induction false} SampledStep(s: State, a: Action)
    requires Enabled(s, a)
    ensures Next(s, a).sampled ==
      s.sampled + (if a.SetReady? then [RawSample(a.thread, StackOf(s, a.thread), TagOf(s, a.thread))] else [])
  {
  }

  lemma {:induction false} SampledMeans(hash: Tid -> Id, actions: seq<Action>, s: State)
    requires Run(hash, actions) == Some(s)
    ensures s.sampled == SamplesOf(hash, actions)
  {
    hide Enabled, Next, StackOf, CurrentOf, LastExecuted;
    if actions == [] {
      assert Init(hash).sampled == [];
    } else {
      var front, a := actions[..|actions| - 1], actions[|actions| - 1];
      var before := Run(hash, front).value;
      SampledMeans(hash, front, before);
      SampledStep(before, a);
      if a.SetReady? { ExecutedMeans(hash, front, before, a.thread); }
    }
  }

  /**
   Over all interleavings, the stored samples are, in order and but for the one on its way,
   those of the ready flags that were set: each of the thread that set it, with the stack
   that thread was last seen to have, and filed under its coroutine, or under the thread's
   hash if it ran none.
   */
  lemma {:induction false} StoredFromActions(hash: Tid -> Id, actions: seq<Action>, s: State)
    requires Run(hash, actions) == Some(s)
    ensures s.stored <= SamplesOf(hash, actions) && |SamplesOf(hash, actions)| <= |s.stored| + 1
  {
    hide Run, SamplesOf;
    StoredIsSampled(hash, actions, s);
    SampledMeans(hash, actions, s);
  }

  lemma {:induction false} SampleHasFlag(hash: Tid -> Id, actions: seq<Action>, m: nat) returns (i: nat)
    requires m < |SamplesOf(hash, actions)|
    ensures i < |actions| && actions[i].SetReady?
    ensures SamplesOf(hash, actions)[m] == SampleOf(hash, actions[..i], actions[i].thread)
  {
    hide SampleOf;
    var front := actions[..|actions| - 1];
    if m < |SamplesOf(hash, front)| {
      i := SampleHasFlag(hash, front, m);
      assert front[..i] == actions[..i];
    } else {
      i := |front|;
    }
  }

  /** So every stored sample has a ready flag that its own thread set, and says what that thread was doing. */
  lemma {:induction false} StoredSampleMeans(hash: Tid -> Id, actions: seq<Action>, s: State, m: nat) returns (i: nat)
    requires Run(hash, actions) == Some(s) && m < |s.stored|
    ensures i < |actions| && actions[i] == SetReady(s.stored[m].thread)
    ensures var x := LastExecuted(actions[..i], s.stored[m].thread);
      && s.stored[m].entries == (if x.Some? then x.value.0 else [])
      && s.stored[m].coroutine == (if x.Some? && x.value.1 != -1 then x.value.1 else hash(s.stored[m].thread))
  {
    hide Run, SamplesOf, LastExecuted;
    StoredFromActions(hash, actions, s);
    assert SamplesOf(hash, actions)[m] == s.stored[m];
    i := SampleHasFlag(hash, actions, m);
  }

  /** A buffer that is being written is never one the profiler reads. */
  lemma {:induction false} NoReadWhileWritten(hash: Tid -> Id, actions: seq<Action>, s: State, t: Tid)
    requires Run(hash, actions) == Some(s) && Busy(HandlerOf(s, t))
    ensures !Enabled(s, Wake) && !Enabled(s, Withdraw) && !Enabled(s, Store) && !Enabled(s, Allocate(t))
  {
    HandlerOwnsBuffer(hash, actions, s, t);
  }

  // ---------- progress ----------

  /** A step of the protocol, as opposed to one of the traced program or a stop. */
  predicate ProtocolStep(a: Action) {
    !a.Execute? && !a.Stop?
  }

  /** The profiler waits for a buffer that nobody is going to fill. */
  predicate Stranded(s: State) {
    && s.profiler.Waiting?
    && s.profiler.buffer < |s.buffers|
    && !s.buffers[s.profiler.buffer].ready
    && var t := s.buffers[s.profiler.buffer].thread;
       t !in s.pending && !Busy(HandlerOf(s, t))
  }

  /**
   In every reachable state the protocol can take a step, unless the profiler has finished
   or is stranded; then only handlers that are done can leave.
   */
  lemma {:induction false} StuckIff(hash: Tid -> Id, actions: seq<Action>, s: State)
    requires Run(hash, actions) == Some(s)
    ensures (exists a :: ProtocolStep(a) && Enabled(s, a))
      <==> (!s.profiler.Finished? && !Stranded(s)) || exists t :: HandlerOf(s, t).Leaving?
  {
    hide Inv, Run, Enabled, Stranded;
    InvAlways(hash, actions);
    if exists t :: HandlerOf(s, t).Leaving? {
      var t :| HandlerOf(s, t).Leaving?;
      LeaveOnlyLeaving(s, Leave(t));
      assert ProtocolStep(Leave(t)) && Enabled(s, Leave(t));
    } else if s.profiler.Finished? || Stranded(s) {
      forall a | ProtocolStep(a) ensures !Enabled(s, a) {
        if a.Leave? { LeaveOnlyLeaving(s, a); } else { NoStepLeft(s, a); }
      }
    } else {
      CanStep(s);
    }
  }

  lemma {:induction false} LeaveOnlyLeaving(s: State, a: Action)
    requires a.Leave?
    ensures Enabled(s, a) <==> HandlerOf(s, a.thread).Leaving?
  {
  }

  lemma {:induction false} NoStepLeft(s: State, a: Action)
    requires Inv(s) && (s.profiler.Finished? || Stranded(s)) && ProtocolStep(a) && !a.Leave?
    ensures !Enabled(s, a)
  {
    if a.CheckActive? || a.Load? || a.FillOne? || a.FinishFilling? || a.Tag? || a.SetReady? {
      assert Busy(HandlerOf(s, a.thread)) ==> OwnsBuffer(s, a.thread);
    }
  }

  lemma {:induction false} CanStep(s: State)
    requires Inv(s) && !s.profiler.Finished? && !Stranded(s)
    ensures exists a :: ProtocolStep(a) && Enabled(s, a)
  {
    match s.profiler {
      case AtHead => assert ProtocolStep(TestActive) && Enabled(s, TestActive);
      case Scanning => assert ProtocolStep(EndScan) && Enabled(s, EndScan);
      case Allocated(_) => assert ProtocolStep(Publish) && Enabled(s, Publish);
      case Published(_) => assert ProtocolStep(Kill) && Enabled(s, Kill);
      case Woken(_) => assert ProtocolStep(Withdraw) && Enabled(s, Withdraw);
      case Withdrawn(_) => assert ProtocolStep(Store) && Enabled(s, Store);
      case Waiting(k) =>
        if s.buffers[k].ready {
          assert ProtocolStep(Wake) && Enabled(s, Wake);
        } else {
          HandlerCanStep(s, s.buffers[k].thread);
        }
    }
  }

  /** Until the profiler is stopped, the protocol can always take a step. */
  lemma {:induction false} NeverStuck(hash: Tid -> Id, actions: seq<Action>, s: State)
    requires Run(hash, actions) == Some(s) && Stop !in actions
    ensures exists a :: ProtocolStep(a) && Enabled(s, a)
  {
    hide Enabled, Run, Inv, HandlerOf;
    StuckIff(hash, actions, s);
    StoppedIff(hash, actions, s);
    if s.profiler.Waiting? { ServedAlways(hash, actions, s); }
  }

  lemma {:induction false} HandlerCanStep(s: State, t: Tid)
    requires Inv(s) && (t in s.pending || Busy(HandlerOf(s, t)))
    ensures exists a :: ProtocolStep(a) && Enabled(s, a)
  {
    var h := HandlerOf(s, t);
    if Busy(h) { assert OwnsBuffer(s, t); }
    var a := match h
      case Outside => Deliver(t)
      case Entered => CheckActive(t)
      case Spinning => Load(t)
      case Filling(k) => if |s.buffers[k].entries| < |StackOf(s, t)| then FillOne(t) else FinishFilling(t)
      case Filled(_) => Tag(t)
      case Tagged(_) => SetReady(t)
      case Leaving => Leave(t);
    assert ProtocolStep(a) && Enabled(s, a);
  }

  // ---------- stopping ----------

  /** The profiler is active until a stop, and finishes only after one. */
  lemma {:induction false} StoppedIff(hash: Tid -> Id, actions: seq<Action>, s: State)
    requires Run(hash, actions) == Some(s)
    ensures s.active <==> Stop !in actions
    ensures s.profiler.Finished? ==> Stop in actions
  {
    hide Enabled, Next;
    if actions != [] {
      var front, a := actions[..|actions| - 1], actions[|actions| - 1];
      assert actions == front + [a];
      var before := Run(hash, front).value;
      StoppedIff(hash, front, before);
      ActiveStep(before, a);
    }
  }

  lemma {:induction false} ActiveStep(s: State, a: Action)
    requires Enabled(s, a)
    ensures Next(s, a).active <==> s.active && a != Stop
    ensures Next(s, a).profiler.Finished? ==> s.profiler.Finished? || !s.active
  {
  }

  /** The profiler tested `active_` at the head of its loop after a stop. */
  ghost predicate SeenStop(actions: seq<Action>) {
    actions != [] &&
    var front, a := actions[..|actions| - 1], actions[|actions| - 1];
    SeenStop(front) || (a == TestActive && Stop in front)
  }

  lemma {:induction false} FinishedStep(s: State, a: Action)
    requires Enabled(s, a)
    ensures Next(s, a).profiler.Finished? <==> s.profiler.Finished? || (a == TestActive && !s.active)
  {
  }

  /** The profiler has finished exactly if it tested the flag at the head of its loop after a stop. */
  lemma {:induction false} FinishedIff(hash: Tid -> Id, actions: seq<Action>, s: State)
    requires Run(hash, actions) == Some(s)
    ensures s.profiler.Finished? <==> SeenStop(actions)
  {
    hide Enabled, Next;
    if actions != [] {
      var front, a := actions[..|actions| - 1], actions[|actions| - 1];
      FinishedIff(hash, front, Run(hash, front).value);
      StoppedIff(hash, front, Run(hash, front).value);
      FinishedStep(Run(hash, front).value, a);
    }
  }

  /** Since the last signal, the handler of thread `t` has tested `active_` after a stop. */
  ghost predicate Declined(actions: seq<Action>, t: Tid) {
    exists i :: 0 <= i < |actions| && actions[i] == CheckActive(t) && Stop in actions[..i] && Kill !in actions[i + 1..]
  }

  lemma {:induction false} DeclinedStep(actions: seq<Action>, t: Tid)
    requires actions != []
    ensures var front, a := actions[..|actions| - 1], actions[|actions| - 1];
      Declined(actions, t) <==> (a != Kill && Declined(front, t)) || (a == CheckActive(t) && Stop in front)
  {
    var n := |actions| - 1;
    var front, a := actions[..n], actions[n];
    assert forall i :: 0 <= i < n ==> front[i] == actions[i];
    forall i | 0 <= i < n
      ensures front[..i] == actions[..i] && (Kill !in actions[i + 1..] <==> a != Kill && Kill !in front[i + 1..])
    {
      SplitAt(actions, i);
    }
    assert actions[..n] == front && actions[n + 1..] == [];
  }

  lemma {:induction false} SplitAt(actions: seq<Action>, i: nat)
    requires i < |actions| - 1
    ensures var front, a := actions[..|actions| - 1], actions[|actions| - 1];
      front[..i] == actions[..i] && (Kill !in actions[i + 1..] <==> a != Kill && Kill !in front[i + 1..])
  {
    var front, a := actions[..|actions| - 1], actions[|actions| - 1];
    assert actions[i + 1..] == front[i + 1..] + [a];
  }

  /**
   Over all interleavings, a waiting profiler is stranded exactly if the handler of the
   thread it waits for tested `active_` after a stop, since the signal.
   */
  lemma {:induction false} StrandedIff(hash: Tid -> Id, actions: seq<Action>, s: State)
    requires Run(hash, actions) == Some(s) && s.profiler.Waiting?
    ensures s.profiler.buffer < |s.buffers|
    ensures Stranded(s) <==> Declined(actions, s.buffers[s.profiler.buffer].thread)
  {
    hide Enabled, Next, Inv, Declined, Stranded;
    InvAlways(hash, actions);
    if actions != [] {
      var front, a := actions[..|actions| - 1], actions[|actions| - 1];
      var before := Run(hash, front).value;
      InvAlways(hash, front);
      WaitingStep(before, a);
      DeclinedStep(actions, s.buffers[s.profiler.buffer].thread);
      StoppedIff(hash, front, before);
      if before.profiler.Waiting? { StrandedIff(hash, front, before); }
      StrandedStep(before, a);
    }
  }

  /** Until a stop, the thread that is waited for has the signal before it or is serving it. */
  lemma {:induction false} ServedAlways(hash: Tid -> Id, actions: seq<Action>, s: State)
    requires Run(hash, actions) == Some(s) && Stop !in actions && s.profiler.Waiting?
    ensures s.profiler.buffer < |s.buffers|
    ensures var b := s.buffers[s.profiler.buffer]; b.ready || b.thread in s.pending || Busy(HandlerOf(s, b.thread))
  {
    StrandedIff(hash, actions, s);
  }

  lemma {:induction false} WaitingStep(s: State, a: Action)
    requires Inv(s) && Enabled(s, a) && Next(s, a).profiler.Waiting?
    ensures var n := Next(s, a);
      && n.profiler.buffer < |n.buffers|
      && (a != Kill ==> s.profiler == n.profiler && n.profiler.buffer < |s.buffers|
                        && s.buffers[n.profiler.buffer].thread == n.buffers[n.profiler.buffer].thread)
  {
  }

  /** What a step does to being stranded. */
  lemma {:induction false} StrandedStep(s: State, a: Action)
    requires Inv(s) && Enabled(s, a) && Next(s, a).profiler.Waiting?
    ensures var n := Next(s, a);
      && n.profiler.buffer < |n.buffers|
      && (Stranded(n) <==>
            (a != Kill && Stranded(s)) || (a == CheckActive(n.buffers[n.profiler.buffer].thread) && !s.active))
  {
    if a.CheckActive? || a.Load? || a.FillOne? || a.FinishFilling? || a.Tag? || a.SetReady? {
      assert OwnsBuffer(s, a.thread);
    }
    if a.Deliver? { assert WaitingFor(s, a.thread); }
  }

  /** A stranded profiler waits forever. */
  lemma {:induction false} StrandedForever(hash: Tid -> Id, actions: seq<Action>, s: State, more: seq<Action>, n: State)
    requires Run(hash, actions) == Some(s) && Stranded(s) && Run(hash, actions + more) == Some(n)
    ensures Stranded(n) && n.profiler == s.profiler && n.stored == s.stored
  {
    hide Enabled, Next, Inv, Stranded;
    if more == [] {
      assert actions + more == actions;
    } else {
      var front, a := more[..|more| - 1], more[|more| - 1];
      assert (actions + more)[..|actions + more| - 1] == actions + front;
      var before := Run(hash, actions + front).value;
      StrandedForever(hash, actions, s, front, before);
      InvAlways(hash, actions + front);
      StrandedStays(before, a);
    }
  }

  lemma {:induction false} StrandedStays(s: State, a: Action)
    requires Inv(s) && Stranded(s) && Enabled(s, a)
    ensures Stranded(Next(s, a)) && Next(s, a).profiler == s.profiler && Next(s, a).stored == s.stored
  {
    NoStepLeftBut(s, a);
  }

  lemma {:induction false} NoStepLeftBut(s: State, a: Action)
    requires Inv(s) && Stranded(s) && Enabled(s, a)
    ensures a.Leave? || a.Execute? || a.Stop?
  {
    if ProtocolStep(a) && !a.Leave? { NoStepLeft(s, a); }
  }

  lemma {:induction false} RunOneMore(hash: Tid -> Id, actions: seq<Action>, s: State, a: Action)
    requires Run(hash, actions) == Some(s) && Enabled(s, a)
    ensures Run(hash, actions + [a]) == Some(Next(s, a))
  {
    hide Enabled, Next;
    assert (actions + [a])[..|actions|] == actions;
  }

  lemma {:induction false} NothingRun(hash: Tid -> Id)
    ensures Run(hash, []) == Some(Init(hash))
  {
  }

  /** A scan samples one more thread, up to the start of its handler. */
  lemma {:induction false} SignalThread(hash: Tid -> Id, actions: seq<Action>, s: State, t: Tid)
    requires Run(hash, actions) == Some(s) && s.profiler == Scanning && s.pending == {} && s.handlers == map[]
    ensures Run(hash, actions + [Allocate(t), Publish, Kill, Deliver(t)]) == Some(s.(
      buffers := s.buffers + [Buffer(t, [], NOT_FOUND, false)], slot := Some(|s.buffers|),
      profiler := Waiting(|s.buffers|), handlers := map[t := Entered]))
  {
    hide Run;
    var k := |s.buffers|;
    var s1 := s.(buffers := s.buffers + [Buffer(t, [], NOT_FOUND, false)], profiler := Allocated(k));
    RunOneMore(hash, actions, s, Allocate(t));
    var s2 := s1.(slot := Some(k), profiler := Published(k));
    RunOneMore(hash, actions + [Allocate(t)], s1, Publish);
    var s3 := s2.(pending := {t}, profiler := Waiting(k));
    RunOneMore(hash, actions + [Allocate(t)] + [Publish], s2, Kill);
    assert Next(s2, Kill).pending == {t};
    RunOneMore(hash, actions + [Allocate(t)] + [Publish] + [Kill], s3, Deliver(t));
    assert Next(s3, Deliver(t)).pending == {};
    assert actions + [Allocate(t)] + [Publish] + [Kill] + [Deliver(t)] == actions
      + [Allocate(t), Publish, Kill, Deliver(t)];
  }

  lemma {:induction false} StartScan(hash: Tid -> Id)
    ensures Run(hash, [TestActive]) == Some(Init(hash).(profiler := Scanning))
  {
    NothingRun(hash);
    RunOneMore(hash, [], Init(hash), TestActive);
    assert [] + [TestActive] == [TestActive];
  }

  /** A stop between the signal and the handler's test strands the profiler. */
  lemma {:induction false} StopStrandsProfiler(hash: Tid -> Id, t: Tid)
    ensures var r := Run(hash, [TestActive, Allocate(t), Publish, Kill, Deliver(t), Stop, CheckActive(t)]);
      r.Some? && Stranded(r.value)
  {
    hide Run;
    var s := Init(hash).(profiler := Scanning);
    StartScan(hash);
    SignalThread(hash, [TestActive], s, t);
    var actions := [TestActive] + [Allocate(t), Publish, Kill, Deliver(t)];
    var n := Run(hash, actions).value;
    RunOneMore(hash, actions, n, Stop);
    RunOneMore(hash, actions + [Stop], Next(n, Stop), CheckActive(t));
    assert actions + [Stop] + [CheckActive(t)]
      == [TestActive, Allocate(t), Publish, Kill, Deliver(t), Stop, CheckActive(t)];
  }

  /** So does a stop in the middle of a scan, which goes on to signal the next thread. */
  lemma {:induction false} StopInScanStrandsProfiler(hash: Tid -> Id, t: Tid)
    ensures var r := Run(hash, [TestActive, Stop, Allocate(t), Publish, Kill, Deliver(t), CheckActive(t)]);
      r.Some? && Stranded(r.value)
  {
    hide Run;
    var s := Init(hash).(profiler := Scanning);
    StartScan(hash);
    RunOneMore(hash, [TestActive], s, Stop);
    SignalThread(hash, [TestActive] + [Stop], s.(active := false), t);
    var actions := [TestActive] + [Stop] + [Allocate(t), Publish, Kill, Deliver(t)];
    var n := Run(hash, actions).value;
    RunOneMore(hash, actions, n, CheckActive(t));
    assert actions + [CheckActive(t)] == [TestActive, Stop, Allocate(t), Publish, Kill, Deliver(t), CheckActive(t)];
  }
}
