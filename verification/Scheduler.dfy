/**
 One shard of the multi-raft scheduler as a transition system.

 Any number of workers take group ids from the shard's queue, claim a group
 through `inProcessing`, take the group's pending state out of `groupState`,
 run the processor callbacks, give the claim back and re-check the map.
 `EnqueueState` writes the map first and puts the group on the queue afterwards,
 both under the shard's mutex, so the two halves are two steps here and the steps
 that need the mutex wait for the second half. The queue may hold a group more than once.
 */
module Scheduler {
  import opened Common

  type GroupId = nat

  /** The bits of `internalState.state`; a bit mask is a set of flags. */
  datatype Flag = Queued | Tick | Proposal | ConfigChange | Step | Ready

  /** The masks the store passes to `EnqueueState`: never the scheduler's own queue bit. */
  type Mask = m: set<Flag> | Queued !in m

  datatype InternalState = InternalState(state: set<Flag>, ticks: nat)

  type GroupStates = map<GroupId, InternalState>

  /** How far a worker is with the callbacks for the state it claimed. */
  datatype Stage = AtProposal | AtConfigChange | AtStep | AtTicks(done: nat) | AtReady | AtDelete

  /** A worker's program counter together with the group it holds. */
  datatype Worker =
    | Idle
    | Popped(g: GroupId)
    | Claimed(g: GroupId)
    | Processing(g: GroupId, claimed: InternalState, stage: Stage)
    | Released(g: GroupId)
    | WillPut(g: GroupId)

  /** `enqueuing` is the group of an `EnqueueState` call that holds the mutex and has not put yet. */
  datatype Shard = Shard(
    queue: seq<GroupId>,
    groupState: GroupStates,
    inProcessing: set<GroupId>,
    workers: seq<Worker>,
    enqueuing: Option<GroupId>)

  datatype Event = EnqueueMap(bits: Mask, g: GroupId) | EnqueuePut | Work(w: nat)

  // ---------------------------------------------------------------------------
  // The steps
  // ---------------------------------------------------------------------------

  function Lookup(gs: GroupStates, g: GroupId): InternalState {
    if g in gs then gs[g] else InternalState({}, 0)
  }

  /** The early return of `EnqueueState`: every bit is pending already and no tick is added. */
  predicate AlreadyPending(was: InternalState, bits: Mask) {
    Tick !in bits && bits <= was.state
  }

  function Merge(was: InternalState, bits: Mask, maxTicks: nat): InternalState {
    InternalState(was.state + bits,
                  if Tick !in bits then was.ticks
                  else if was.ticks + 1 > maxTicks then maxTicks else was.ticks + 1)
  }

  function EnqueueMapStep(s: Shard, bits: Mask, g: GroupId, maxTicks: nat): Shard {
    var was := Lookup(s.groupState, g);
    if AlreadyPending(was, bits) then s
    else
      var merged := Merge(was, bits, maxTicks);
      s.(groupState := s.groupState[g := merged],
         enqueuing := if Queued in merged.state then None else Some(g))
  }

  /** One callback of the worker loop, in program order, on the claimed state. */
  function ProcessStep(w: Worker): Worker
    requires w.Processing? && w.stage != AtDelete
  {
    var c := w.claimed;
    var ready := InternalState(c.state + {Ready}, c.ticks);
    match w.stage
    case AtProposal => Processing(w.g, if Proposal in c.state then ready else c, AtConfigChange)
    case AtConfigChange => Processing(w.g, if ConfigChange in c.state then ready else c, AtStep)
    case AtStep => Processing(w.g, if Step in c.state then ready else c, AtTicks(0))
    case AtTicks(i) =>
      if Tick in c.state && i < c.ticks then Processing(w.g, c, AtTicks(i + 1))
      else Processing(w.g, if Tick in c.state then ready else c, AtReady)
    case AtReady => Processing(w.g, c, AtDelete)
  }

  /** The next step of worker `w`; None while it is blocked on the queue or on the mutex. */
  function WorkStep(s: Shard, w: nat): Option<Shard>
    requires w < |s.workers|
  {
    match s.workers[w]
    case Idle =>
      if s.queue == [] then None
      else Some(s.(queue := s.queue[1..], workers := s.workers[w := Popped(s.queue[0])]))
    case Popped(g) =>
      if g == 0 || g in s.inProcessing then Some(s.(workers := s.workers[w := Idle]))
      else Some(s.(inProcessing := s.inProcessing + {g}, workers := s.workers[w := Claimed(g)]))
    case Claimed(g) =>
      if s.enqueuing.Some? then None
      else Some(s.(groupState := s.groupState[g := InternalState({Queued}, 0)],
                   workers := s.workers[w := Processing(g, Lookup(s.groupState, g), AtProposal)]))
    case Processing(g, _, stage) =>
      if stage == AtDelete
      then Some(s.(inProcessing := s.inProcessing - {g}, workers := s.workers[w := Released(g)]))
      else Some(s.(workers := s.workers[w := ProcessStep(s.workers[w])]))
    case Released(g) =>
      if s.enqueuing.Some? then None
      else if Lookup(s.groupState, g).state == {Queued}
      then Some(s.(groupState := s.groupState - {g}, workers := s.workers[w := Idle]))
      else Some(s.(workers := s.workers[w := WillPut(g)]))
    case WillPut(g) =>
      Some(s.(queue := s.queue + [g], workers := s.workers[w := Idle]))
  }

  function Next(s: Shard, e: Event, maxTicks: nat): Option<Shard> {
    match e
    case EnqueueMap(bits, g) =>
      if s.enqueuing.Some? then None else Some(EnqueueMapStep(s, bits, g, maxTicks))
    case EnqueuePut =>
      if s.enqueuing.None? then None
      else Some(s.(queue := s.queue + [s.enqueuing.value], enqueuing := None))
    case Work(w) =>
      if w < |s.workers| then WorkStep(s, w) else None
  }

  /** The state after the events `es`, one after the other; None if one of them is not enabled. */
  function Run(s: Shard, es: seq<Event>, maxTicks: nat): Option<Shard>
    decreases |es|
  {
    if es == [] then Some(s)
    else
      var r := Next(s, es[0], maxTicks);
      if r.None? then None else Run(r.value, es[1..], maxTicks)
  }

  function Init(workerNum: nat): Shard {
    Shard([], map[], {}, seq(workerNum, i => Idle), None)
  }

  // ---------------------------------------------------------------------------
  // Safety: one worker per group, no lost wake-up
  // ---------------------------------------------------------------------------

  predicate Owns(w: Worker, g: GroupId) {
    (w.Claimed? || w.Processing?) && w.g == g
  }

  predicate Holds(w: Worker, g: GroupId) {
    !w.Idle? && w.g == g
  }

  /** Something will still look at `groupState[g]`. */
  ghost predicate Watched(s: Shard, g: GroupId) {
    || g in s.queue
    || s.enqueuing == Some(g)
    || exists i :: 0 <= i < |s.workers| && Holds(s.workers[i], g)
  }

  /** A claim on a group belongs to exactly one worker. */
  ghost predicate Exclusive(s: Shard) {
    && (forall i, g :: 0 <= i < |s.workers| && Owns(s.workers[i], g) ==> g in s.inProcessing)
    && (forall g :: g in s.inProcessing ==> exists i :: 0 <= i < |s.workers| && Owns(s.workers[i], g))
    && (forall i, j, g :: 0 <= i < j < |s.workers| && Owns(s.workers[i], g) ==> !Owns(s.workers[j], g))
  }

  predicate TicksFlagged(c: InternalState, maxTicks: nat) {
    c.ticks <= maxTicks && (c.ticks > 0 ==> Tick in c.state)
  }

  predicate WorkerOk(w: Worker, maxTicks: nat) {
    && (!w.Idle? && !w.Popped? ==> w.g != 0)
    && (w.Processing? ==>
          && TicksFlagged(w.claimed, maxTicks)
          && (w.stage.AtTicks? ==> w.stage.done <= w.claimed.ticks))
  }

  ghost predicate Inv(s: Shard, maxTicks: nat) {
    && Exclusive(s)
    && (forall i :: 0 <= i < |s.workers| ==> WorkerOk(s.workers[i], maxTicks))
    && (forall g :: g in s.groupState ==> TicksFlagged(s.groupState[g], maxTicks))
    && (forall g :: g in s.groupState && g != 0 ==> Watched(s, g))
  }

  lemma InitInv(workerNum: nat, maxTicks: nat)
    ensures Inv(Init(workerNum), maxTicks)
  {}

  /** Replacing one worker leaves every other worker's hold on a group as it was. */
  lemma WatchedAfter(s: Shard, t: Shard, w: nat, g: GroupId)
    requires w < |s.workers| == |t.workers|
    requires t.workers == s.workers[w := t.workers[w]]
    requires Watched(s, g)
    requires g in s.queue ==> g in t.queue || Holds(t.workers[w], g)
    requires s.enqueuing == t.enqueuing
    requires Holds(s.workers[w], g) ==> Watched(t, g)
    ensures Watched(t, g)
  {
    if i :| 0 <= i < |s.workers| && Holds(s.workers[i], g) && i != w {
      assert Holds(t.workers[i], g);
    } else if Holds(t.workers[w], g) {
    }
  }

  /** A step that leaves the claims of worker `w` alone keeps every claim exclusive. */
  lemma ExclusiveAfter(s: Shard, t: Shard, w: nat)
    requires Exclusive(s)
    requires w < |s.workers| == |t.workers|
    requires t.workers == s.workers[w := t.workers[w]]
    requires forall g :: Owns(s.workers[w], g) <==> Owns(t.workers[w], g)
    requires s.inProcessing == t.inProcessing
    ensures Exclusive(t)
  {
    assert forall i, g :: 0 <= i < |s.workers| ==> (Owns(s.workers[i], g) <==> Owns(t.workers[i], g));
    forall g | g in t.inProcessing
      ensures exists i :: 0 <= i < |t.workers| && Owns(t.workers[i], g)
    {
      var i :| 0 <= i < |s.workers| && Owns(s.workers[i], g);
      assert Owns(t.workers[i], g);
    }
  }

  lemma WorkKeepsExclusive(s: Shard, w: nat, maxTicks: nat)
    requires Inv(s, maxTicks) && w < |s.workers| && WorkStep(s, w).Some?
    ensures Exclusive(WorkStep(s, w).value)
  {
    var t := WorkStep(s, w).value;
    match s.workers[w]
    case Popped(g) =>
      if g == 0 || g in s.inProcessing {
        ExclusiveAfter(s, t, w);
      } else {
        forall h | h in t.inProcessing
          ensures exists i :: 0 <= i < |t.workers| && Owns(t.workers[i], h)
        {
          if h == g {
            assert Owns(t.workers[w], h);
          } else {
            var i :| 0 <= i < |s.workers| && Owns(s.workers[i], h);
            assert Owns(t.workers[i], h);
          }
        }
        assert forall i :: 0 <= i < |s.workers| && i != w ==> t.workers[i] == s.workers[i];
      }
    case Processing(g, _, stage) =>
      if stage == AtDelete {
        assert Owns(s.workers[w], g);
        assert forall i :: 0 <= i < |s.workers| && i != w ==> t.workers[i] == s.workers[i];
        forall h | h in t.inProcessing
          ensures exists i :: 0 <= i < |t.workers| && Owns(t.workers[i], h)
        {
          var i :| 0 <= i < |s.workers| && Owns(s.workers[i], h);
          assert Owns(t.workers[i], h);
        }
      } else {
        ExclusiveAfter(s, t, w);
      }
    case _ => ExclusiveAfter(s, t, w);
  }

  /** Every step of a worker leaves a watched entry watched: a drop (line 149) only happens while
      another worker owns the group, and an entry is only forgotten once it has been deleted. */
  lemma WorkKeepsWatched(s: Shard, w: nat, g: GroupId, maxTicks: nat)
    requires Inv(s, maxTicks) && w < |s.workers| && WorkStep(s, w).Some?
    requires g in WorkStep(s, w).value.groupState && g != 0
    ensures Watched(WorkStep(s, w).value, g)
  {
    var t := WorkStep(s, w).value;
    if Holds(t.workers[w], g) {
    } else if s.workers[w].Popped? && s.workers[w].g == g {
      var i :| 0 <= i < |s.workers| && Owns(s.workers[i], g);
      assert Holds(t.workers[i], g);
    } else if s.workers[w].WillPut? && s.workers[w].g == g {
      assert t.queue[|t.queue| - 1] == g;
    } else {
      assert g in s.groupState;
      if s.workers[w].Idle? && g in s.queue {
        assert s.queue == [s.queue[0]] + t.queue;
      }
      WatchedAfter(s, t, w, g);
    }
  }

  lemma EnqueueMapKeepsInv(s: Shard, bits: Mask, g: GroupId, maxTicks: nat)
    requires Inv(s, maxTicks) && Next(s, EnqueueMap(bits, g), maxTicks).Some?
    ensures Inv(Next(s, EnqueueMap(bits, g), maxTicks).value, maxTicks)
  {
    var t := Next(s, EnqueueMap(bits, g), maxTicks).value;
    assert t.workers == s.workers && t.inProcessing == s.inProcessing && t.queue == s.queue;
    forall h | h in t.groupState && h != 0
      ensures Watched(t, h)
    {
      if h in s.groupState { assert Watched(s, h); }
    }
  }

  lemma EnqueuePutKeepsInv(s: Shard, maxTicks: nat)
    requires Inv(s, maxTicks) && Next(s, EnqueuePut, maxTicks).Some?
    ensures Inv(Next(s, EnqueuePut, maxTicks).value, maxTicks)
  {
    var t := Next(s, EnqueuePut, maxTicks).value;
    assert t.queue[|t.queue| - 1] == s.enqueuing.value;
    forall h | h in t.groupState && h != 0
      ensures Watched(t, h)
    {
      assert Watched(s, h);
    }
  }

  lemma NextKeepsInv(s: Shard, e: Event, maxTicks: nat)
    requires Inv(s, maxTicks) && Next(s, e, maxTicks).Some?
    ensures Inv(Next(s, e, maxTicks).value, maxTicks)
  {
    match e
    case EnqueueMap(bits, g) => EnqueueMapKeepsInv(s, bits, g, maxTicks);
    case EnqueuePut => EnqueuePutKeepsInv(s, maxTicks);
    case Work(w) =>
      var t := Next(s, e, maxTicks).value;
      WorkKeepsExclusive(s, w, maxTicks);
      forall h | h in t.groupState && h != 0
        ensures Watched(t, h)
      {
        WorkKeepsWatched(s, w, h, maxTicks);
      }
  }

  lemma {:induction false} RunKeepsInv(s: Shard, es: seq<Event>, maxTicks: nat)
    requires Inv(s, maxTicks) && Run(s, es, maxTicks).Some?
    ensures Inv(Run(s, es, maxTicks).value, maxTicks)
    decreases |es|
  {
    if es == [] {
    } else {
      NextKeepsInv(s, es[0], maxTicks);
      RunKeepsInv(Next(s, es[0], maxTicks).value, es[1..], maxTicks);
    }
  }

  /** No lost wake-up: whatever the interleaving, a group with pending state is on the queue, is about
      to be put there, or is held by a worker that has not finished its final re-check. */
  lemma NoLostWakeup(workerNum: nat, es: seq<Event>, maxTicks: nat, g: GroupId)
    requires Run(Init(workerNum), es, maxTicks).Some?
    requires g in Run(Init(workerNum), es, maxTicks).value.groupState && g != 0
    ensures Watched(Run(Init(workerNum), es, maxTicks).value, g)
  {
    InitInv(workerNum, maxTicks);
    RunKeepsInv(Init(workerNum), es, maxTicks);
  }

  /** Two workers never process the same group at the same time. */
  lemma OneWorkerPerGroup(workerNum: nat, es: seq<Event>, maxTicks: nat, i: nat, j: nat)
    requires Run(Init(workerNum), es, maxTicks).Some?
    requires var ws := Run(Init(workerNum), es, maxTicks).value.workers;
             i < |ws| && j < |ws| && i != j && !ws[j].Idle? && Owns(ws[j], ws[j].g)
    ensures var ws := Run(Init(workerNum), es, maxTicks).value.workers;
            !Owns(ws[i], ws[j].g)
  {
    InitInv(workerNum, maxTicks);
    RunKeepsInv(Init(workerNum), es, maxTicks);
  }

  // ---------------------------------------------------------------------------
  // Draining: without new EnqueueState calls every interleaving ends, and ends empty
  // ---------------------------------------------------------------------------

  /** An entry whose next re-check will delete it. */
  predicate Clean(gs: GroupStates, g: GroupId) {
    g in gs && gs[g].state == {Queued}
  }

  /** The largest number of callbacks one claim can take. */
  function Span(maxTicks: nat): nat { maxTicks + 6 }

  /** Steps left until the claim is given back. */
  function Remaining(w: Worker): nat
    requires w.Processing?
  {
    match w.stage
    case AtDelete => 1
    case AtReady => 2
    case AtTicks(i) => 3 + if i < w.claimed.ticks then w.claimed.ticks - i else 0
    case AtStep => 4 + w.claimed.ticks
    case AtConfigChange => 5 + w.claimed.ticks
    case AtProposal => 6 + w.claimed.ticks
  }

  /** A token (a queue slot or a busy worker) outweighs everything that deleting an entry can add
      to the phases of the other workers. */
  function TokenWeight(workerNum: nat, maxTicks: nat): nat { workerNum * (Span(maxTicks) + 5) }

  function Phase(w: Worker, gs: GroupStates, maxTicks: nat): nat {
    var k := Span(maxTicks);
    match w
    case Idle => 0
    case WillPut(_) => k + 5
    case Popped(_) => k + 3
    case Claimed(_) => k + 2
    case Processing(g, _, _) => if Clean(gs, g) then 1 + Remaining(w) else k + 6 + Remaining(w)
    case Released(g) => if Clean(gs, g) then 1 else k + 6
  }

  function WorkerWeight(w: Worker, gs: GroupStates, token: nat, maxTicks: nat): nat {
    if w.Idle? then 0 else token + Phase(w, gs, maxTicks)
  }

  function Weights(ws: seq<Worker>, gs: GroupStates, token: nat, maxTicks: nat): (r: seq<nat>)
    ensures |r| == |ws|
    ensures forall i :: 0 <= i < |ws| ==> r[i] == WorkerWeight(ws[i], gs, token, maxTicks)
  {
    seq(|ws|, i requires 0 <= i < |ws| => WorkerWeight(ws[i], gs, token, maxTicks))
  }

  function QueueWeight(n: nat, token: nat, maxTicks: nat): nat { n * (token + Span(maxTicks) + 4) }

  /** Decreases on every step of a worker and when a pending put is carried out. */
  function Measure(s: Shard, maxTicks: nat): nat {
    var token := TokenWeight(|s.workers|, maxTicks);
    QueueWeight(|s.queue|, token, maxTicks)
    + (if s.enqueuing.Some? then token + Span(maxTicks) + 5 else 0)
    + Sum(Weights(s.workers, s.groupState, token, maxTicks))
  }

  lemma QueueWeightStep(n: nat, token: nat, maxTicks: nat)
    ensures QueueWeight(n + 1, token, maxTicks) == QueueWeight(n, token, maxTicks) + token + Span(maxTicks) + 4
  {}

  /** The weights after worker `w` moved and the map stayed. */
  lemma WeightsMoved(s: Shard, w: nat, v: Worker, maxTicks: nat)
    requires w < |s.workers|
    ensures var token := TokenWeight(|s.workers|, maxTicks);
            Sum(Weights(s.workers[w := v], s.groupState, token, maxTicks))
            + WorkerWeight(s.workers[w], s.groupState, token, maxTicks)
            == Sum(Weights(s.workers, s.groupState, token, maxTicks))
               + WorkerWeight(v, s.groupState, token, maxTicks)
  {
    var token := TokenWeight(|s.workers|, maxTicks);
    var a := Weights(s.workers, s.groupState, token, maxTicks);
    var x := WorkerWeight(v, s.groupState, token, maxTicks);
    assert Weights(s.workers[w := v], s.groupState, token, maxTicks) == a[w := x];
    SumOfUpdate(a, w, x);
  }

  /** Taking a group's state out of the map makes its entry clean, which only lowers weights. */
  lemma ClearingLowers(ws: seq<Worker>, gs: GroupStates, g: GroupId, token: nat, maxTicks: nat)
    ensures Sum(Weights(ws, gs[g := InternalState({Queued}, 0)], token, maxTicks))
         <= Sum(Weights(ws, gs, token, maxTicks))
  {
    var b := Weights(ws, gs[g := InternalState({Queued}, 0)], token, maxTicks);
    var a := Weights(ws, gs, token, maxTicks);
    SumOfRaised(a, b, 0);
  }

  /** Deleting an entry raises each worker's phase by a bounded amount. */
  lemma DeletingRaises(ws: seq<Worker>, gs: GroupStates, g: GroupId, maxTicks: nat)
    ensures var token := TokenWeight(|ws|, maxTicks);
            Sum(Weights(ws, gs - {g}, token, maxTicks)) <= Sum(Weights(ws, gs, token, maxTicks)) + token
  {
    var token := TokenWeight(|ws|, maxTicks);
    SumOfRaised(Weights(ws, gs, token, maxTicks), Weights(ws, gs - {g}, token, maxTicks), Span(maxTicks) + 5);
  }

  lemma TakingStateLowers(s: Shard, w: nat, maxTicks: nat)
    requires Inv(s, maxTicks) && w < |s.workers| && s.workers[w].Claimed? && WorkStep(s, w).Some?
    ensures Measure(WorkStep(s, w).value, maxTicks) < Measure(s, maxTicks)
  {
    var t := WorkStep(s, w).value;
    var g := s.workers[w].g;
    var token := TokenWeight(|s.workers|, maxTicks);
    assert TicksFlagged(Lookup(s.groupState, g), maxTicks);
    ClearingLowers(s.workers, s.groupState, g, token, maxTicks);
    WeightsMoved(s.(groupState := t.groupState), w, t.workers[w], maxTicks);
  }

  lemma RecheckLowers(s: Shard, w: nat, maxTicks: nat)
    requires Inv(s, maxTicks) && w < |s.workers| && s.workers[w].Released? && WorkStep(s, w).Some?
    ensures Measure(WorkStep(s, w).value, maxTicks) < Measure(s, maxTicks)
  {
    var t := WorkStep(s, w).value;
    var g := s.workers[w].g;
    WeightsMoved(s, w, t.workers[w], maxTicks);
    if Clean(s.groupState, g) {
      DeletingRaises(t.workers, s.groupState, g, maxTicks);
    }
  }

  lemma ProcessStepLowers(w: Worker, gs: GroupStates, token: nat, maxTicks: nat)
    requires w.Processing? && w.stage != AtDelete && WorkerOk(w, maxTicks)
    ensures WorkerWeight(ProcessStep(w), gs, token, maxTicks) < WorkerWeight(w, gs, token, maxTicks)
  {}

  lemma ProcessingLowers(s: Shard, w: nat, maxTicks: nat)
    requires Inv(s, maxTicks) && w < |s.workers| && s.workers[w].Processing? && WorkStep(s, w).Some?
    ensures Measure(WorkStep(s, w).value, maxTicks) < Measure(s, maxTicks)
  {
    var t := WorkStep(s, w).value;
    WeightsMoved(s, w, t.workers[w], maxTicks);
    if s.workers[w].stage != AtDelete {
      ProcessStepLowers(s.workers[w], s.groupState, TokenWeight(|s.workers|, maxTicks), maxTicks);
    }
  }

  lemma QueueStepLowers(s: Shard, w: nat, maxTicks: nat)
    requires w < |s.workers| && WorkStep(s, w).Some?
    requires s.workers[w].Idle? || s.workers[w].WillPut? || s.workers[w].Popped?
    ensures Measure(WorkStep(s, w).value, maxTicks) < Measure(s, maxTicks)
  {
    var t := WorkStep(s, w).value;
    var token := TokenWeight(|s.workers|, maxTicks);
    WeightsMoved(s, w, t.workers[w], maxTicks);
    match s.workers[w]
    case Idle => QueueWeightStep(|t.queue|, token, maxTicks);
    case WillPut(_) => QueueWeightStep(|s.queue|, token, maxTicks);
    case Popped(_) =>
  }

  lemma WorkLowersMeasure(s: Shard, w: nat, maxTicks: nat)
    requires Inv(s, maxTicks) && w < |s.workers| && WorkStep(s, w).Some?
    ensures Measure(WorkStep(s, w).value, maxTicks) < Measure(s, maxTicks)
  {
    match s.workers[w]
    case Claimed(_) => TakingStateLowers(s, w, maxTicks);
    case Processing(_, _, _) => ProcessingLowers(s, w, maxTicks);
    case Released(_) => RecheckLowers(s, w, maxTicks);
    case _ => QueueStepLowers(s, w, maxTicks);
  }

  predicate DrainEvent(e: Event) { !e.EnqueueMap? }

  lemma DrainLowersMeasure(s: Shard, e: Event, maxTicks: nat)
    requires Inv(s, maxTicks) && DrainEvent(e) && Next(s, e, maxTicks).Some?
    ensures Measure(Next(s, e, maxTicks).value, maxTicks) < Measure(s, maxTicks)
  {
    match e
    case EnqueuePut => QueueWeightStep(|s.queue|, TokenWeight(|s.workers|, maxTicks), maxTicks);
    case Work(w) => WorkLowersMeasure(s, w, maxTicks);
  }

  /** Every interleaving of worker steps is finite: its length is bounded by the measure. */
  lemma {:induction false} DrainIsBounded(s: Shard, es: seq<Event>, maxTicks: nat)
    requires Inv(s, maxTicks) && Run(s, es, maxTicks).Some?
    requires forall i :: 0 <= i < |es| ==> DrainEvent(es[i])
    ensures |es| + Measure(Run(s, es, maxTicks).value, maxTicks) <= Measure(s, maxTicks)
    decreases |es|
  {
    if es == [] {
    } else {
      assert DrainEvent(es[0]);
      DrainLowersMeasure(s, es[0], maxTicks);
      NextKeepsInv(s, es[0], maxTicks);
      DrainIsBounded(Next(s, es[0], maxTicks).value, es[1..], maxTicks);
    }
  }

  /** Nothing can move any more except a new EnqueueState call. */
  ghost predicate Quiescent(s: Shard, maxTicks: nat) {
    forall e: Event :: DrainEvent(e) ==> Next(s, e, maxTicks).None?
  }

  /** A shard with at least one worker that has come to rest is empty, except for an entry of group 0. */
  lemma RestIsEmpty(s: Shard, maxTicks: nat)
    requires Inv(s, maxTicks) && Quiescent(s, maxTicks) && |s.workers| > 0
    ensures s.queue == [] && s.enqueuing.None? && s.inProcessing == {}
    ensures forall i :: 0 <= i < |s.workers| ==> s.workers[i].Idle?
    ensures s.groupState.Keys <= {0}
  {
    assert Next(s, EnqueuePut, maxTicks).None?;
    forall i | 0 <= i < |s.workers|
      ensures s.workers[i].Idle?
    {
      assert Next(s, Work(i), maxTicks).None?;
    }
    assert Next(s, Work(0), maxTicks).None?;
    assert s.inProcessing == {};
    assert forall g :: g in s.groupState && g != 0 ==> Watched(s, g);
  }

  // ---------------------------------------------------------------------------
  // Group 0: the worker loop takes id 0 for an empty queue (line 146)
  // ---------------------------------------------------------------------------

  predicate ZeroEnqueue(e: Event) { e.EnqueueMap? && e.g == 0 && e.bits != {} }

  lemma {:induction false} ZeroEntryIff(s: Shard, es: seq<Event>, maxTicks: nat)
    requires Inv(s, maxTicks) && Run(s, es, maxTicks).Some?
    ensures 0 in Run(s, es, maxTicks).value.groupState
            <==> 0 in s.groupState || exists i :: 0 <= i < |es| && ZeroEnqueue(es[i])
    decreases |es|
  {
    if es == [] {
    } else {
      var t := Next(s, es[0], maxTicks).value;
      assert es[0].Work? ==> WorkerOk(s.workers[es[0].w], maxTicks);
      assert 0 in t.groupState <==> 0 in s.groupState || ZeroEnqueue(es[0]);
      NextKeepsInv(s, es[0], maxTicks);
      ZeroEntryIff(t, es[1..], maxTicks);
      assert forall i :: 0 <= i < |es[1..]| ==> es[1..][i] == es[i + 1];
      if i :| 0 <= i < |es| && ZeroEnqueue(es[i]) && i != 0 {
        assert es[1..][i - 1] == es[i];
      }
    }
  }

  /** A shard that came to rest has forgotten every group exactly when nothing was ever enqueued for
      group 0; state pending for group 0 is never taken. */
  lemma DrainsEmptyIff(workerNum: nat, es: seq<Event>, maxTicks: nat)
    requires workerNum > 0
    requires Run(Init(workerNum), es, maxTicks).Some?
    requires Quiescent(Run(Init(workerNum), es, maxTicks).value, maxTicks)
    ensures var s := Run(Init(workerNum), es, maxTicks).value;
            s.queue == [] && (s.groupState == map[] <==> forall i :: 0 <= i < |es| ==> !ZeroEnqueue(es[i]))
  {
    InitInv(workerNum, maxTicks);
    RunKeepsInv(Init(workerNum), es, maxTicks);
    RunKeepsWorkers(Init(workerNum), es, maxTicks);
    var s := Run(Init(workerNum), es, maxTicks).value;
    RestIsEmpty(s, maxTicks);
    ZeroEntryIff(Init(workerNum), es, maxTicks);
    assert s.groupState == map[] <==> 0 !in s.groupState;
  }

  /** State that is enqueued for group 0 is still there when the shard has come to rest. */
  lemma ZeroIsStranded(maxTicks: nat)
    ensures var s := Run(Init(1), [EnqueueMap({Step}, 0), EnqueuePut, Work(0), Work(0)], maxTicks);
            s.Some? && Quiescent(s.value, maxTicks) && Step in Lookup(s.value.groupState, 0).state
  {
    var s1 := Next(Init(1), EnqueueMap({Step}, 0), maxTicks).value;
    var s2 := Next(s1, EnqueuePut, maxTicks).value;
    var s3 := Next(s2, Work(0), maxTicks).value;
    var s4 := Next(s3, Work(0), maxTicks).value;
    assert Run(s4, [], maxTicks) == Some(s4);
    assert [Work(0)][1..] == [] && [Work(0), Work(0)][1..] == [Work(0)];
    assert Run(s3, [Work(0)], maxTicks) == Some(s4) && Run(s2, [Work(0), Work(0)], maxTicks) == Some(s4);
    assert [EnqueuePut, Work(0), Work(0)][1..] == [Work(0), Work(0)];
    assert Run(s1, [EnqueuePut, Work(0), Work(0)], maxTicks) == Some(s4);
    assert [EnqueueMap({Step}, 0), EnqueuePut, Work(0), Work(0)][1..] == [EnqueuePut, Work(0), Work(0)];
    assert s4.workers == [Idle] && s4.queue == [] && s4.enqueuing.None?;
  }

  lemma {:induction false} RunKeepsWorkers(s: Shard, es: seq<Event>, maxTicks: nat)
    requires Run(s, es, maxTicks).Some?
    ensures |Run(s, es, maxTicks).value.workers| == |s.workers|
    decreases |es|
  {
    if es == [] {
    } else {
      RunKeepsWorkers(Next(s, es[0], maxTicks).value, es[1..], maxTicks);
    }
  }

  // ---------------------------------------------------------------------------
  // Tick conservation
  // ---------------------------------------------------------------------------

  function TickIn(e: Event, g: GroupId): nat {
    if e.EnqueueMap? && e.g == g && Tick in e.bits then 1 else 0
  }

  /** A tick lost because the group already has `maxTicks` of them pending. */
  function TickDropped(s: Shard, e: Event, g: GroupId, maxTicks: nat): nat {
    if TickIn(e, g) == 1 && Lookup(s.groupState, g).ticks + 1 > maxTicks then 1 else 0
  }

  /** A ProcessTick callback. */
  function TickOut(s: Shard, e: Event, g: GroupId): nat {
    if e.Work? && e.w < |s.workers| && TicksAhead(s.workers[e.w], g) > 0 && s.workers[e.w].stage.AtTicks?
    then 1 else 0
  }

  function TicksIn(es: seq<Event>, g: GroupId): nat {
    if es == [] then 0 else TickIn(es[0], g) + TicksIn(es[1..], g)
  }

  function TicksOut(s: Shard, es: seq<Event>, g: GroupId, maxTicks: nat): nat
    requires Run(s, es, maxTicks).Some?
    decreases |es|
  {
    if es == [] then 0
    else TickOut(s, es[0], g) + TicksOut(Next(s, es[0], maxTicks).value, es[1..], g, maxTicks)
  }

  function TicksDropped(s: Shard, es: seq<Event>, g: GroupId, maxTicks: nat): nat
    requires Run(s, es, maxTicks).Some?
    decreases |es|
  {
    if es == [] then 0
    else TickDropped(s, es[0], g, maxTicks) + TicksDropped(Next(s, es[0], maxTicks).value, es[1..], g, maxTicks)
  }

  /** Ticks a worker has claimed for the group and not delivered yet. */
  function TicksAhead(w: Worker, g: GroupId): nat {
    if !w.Processing? || w.g != g || Tick !in w.claimed.state then 0
    else match w.stage
      case AtProposal => w.claimed.ticks
      case AtConfigChange => w.claimed.ticks
      case AtStep => w.claimed.ticks
      case AtTicks(i) => if i < w.claimed.ticks then w.claimed.ticks - i else 0
      case _ => 0
  }

  function Ahead(ws: seq<Worker>, g: GroupId): (r: seq<nat>)
    ensures |r| == |ws| && forall i :: 0 <= i < |ws| ==> r[i] == TicksAhead(ws[i], g)
  {
    seq(|ws|, i requires 0 <= i < |ws| => TicksAhead(ws[i], g))
  }

  /** Ticks that were accepted for the group and are still to be delivered. */
  function Owed(s: Shard, g: GroupId): nat {
    Lookup(s.groupState, g).ticks + Sum(Ahead(s.workers, g))
  }

  lemma AheadMoved(ws: seq<Worker>, w: nat, v: Worker, g: GroupId)
    requires w < |ws|
    ensures Sum(Ahead(ws[w := v], g)) + TicksAhead(ws[w], g) == Sum(Ahead(ws, g)) + TicksAhead(v, g)
  {
    assert Ahead(ws[w := v], g) == Ahead(ws, g)[w := TicksAhead(v, g)];
    SumOfUpdate(Ahead(ws, g), w, TicksAhead(v, g));
  }

  lemma ProcessStepDelivers(w: Worker, g: GroupId, maxTicks: nat)
    requires w.Processing? && w.stage != AtDelete && WorkerOk(w, maxTicks)
    ensures TicksAhead(w, g)
         == TicksAhead(ProcessStep(w), g) + if TicksAhead(w, g) > 0 && w.stage.AtTicks? then 1 else 0
  {}

  lemma WorkConservesTicks(s: Shard, w: nat, g: GroupId, maxTicks: nat)
    requires Inv(s, maxTicks) && w < |s.workers| && WorkStep(s, w).Some?
    ensures Owed(s, g) == Owed(WorkStep(s, w).value, g) + TickOut(s, Work(w), g)
  {
    var t := WorkStep(s, w).value;
    assert WorkerOk(s.workers[w], maxTicks);
    AheadMoved(s.workers, w, t.workers[w], g);
    match s.workers[w]
    case Claimed(h) => assert TicksFlagged(Lookup(s.groupState, h), maxTicks);
    case Released(h) => assert TicksFlagged(Lookup(s.groupState, h), maxTicks);
    case Processing(_, _, stage) =>
      if stage != AtDelete { ProcessStepDelivers(s.workers[w], g, maxTicks); }
    case _ =>
  }

  lemma NextConservesTicks(s: Shard, e: Event, g: GroupId, maxTicks: nat)
    requires Inv(s, maxTicks) && Next(s, e, maxTicks).Some?
    ensures Owed(s, g) + TickIn(e, g)
         == Owed(Next(s, e, maxTicks).value, g) + TickOut(s, e, g) + TickDropped(s, e, g, maxTicks)
  {
    match e
    case Work(w) => WorkConservesTicks(s, w, g, maxTicks);
    case EnqueueMap(_, h) => assert TicksFlagged(Lookup(s.groupState, h), maxTicks);
    case EnqueuePut =>
  }

  /** Over every run and for every group: ticks owed before plus ticks enqueued are the ticks delivered,
      the ticks dropped by saturation and the ticks still owed. Deleting an entry discards none. */
  lemma {:induction false} TickConservation(s: Shard, es: seq<Event>, g: GroupId, maxTicks: nat)
    requires Inv(s, maxTicks) && Run(s, es, maxTicks).Some?
    ensures Owed(s, g) + TicksIn(es, g)
         == Owed(Run(s, es, maxTicks).value, g) + TicksOut(s, es, g, maxTicks) + TicksDropped(s, es, g, maxTicks)
    decreases |es|
  {
    if es == [] {
    } else {
      NextConservesTicks(s, es[0], g, maxTicks);
      NextKeepsInv(s, es[0], maxTicks);
      TickConservation(Next(s, es[0], maxTicks).value, es[1..], g, maxTicks);
    }
  }

  /** When the shard has come to rest, every tick enqueued for a group was delivered or dropped, and
      no claim ever carried more than `maxTicks` of them. */
  lemma TicksSettle(workerNum: nat, es: seq<Event>, g: GroupId, maxTicks: nat)
    requires workerNum > 0 && g != 0
    requires Run(Init(workerNum), es, maxTicks).Some?
    ensures var s := Run(Init(workerNum), es, maxTicks).value;
            && (forall i :: 0 <= i < |s.workers| ==> TicksAhead(s.workers[i], g) <= maxTicks)
            && (Quiescent(s, maxTicks) ==>
                  TicksIn(es, g) == TicksOut(Init(workerNum), es, g, maxTicks)
                                    + TicksDropped(Init(workerNum), es, g, maxTicks))
  {
    InitInv(workerNum, maxTicks);
    RunKeepsInv(Init(workerNum), es, maxTicks);
    RunKeepsWorkers(Init(workerNum), es, maxTicks);
    TickConservation(Init(workerNum), es, g, maxTicks);
    var s := Run(Init(workerNum), es, maxTicks).value;
    assert forall i :: 0 <= i < |s.workers| ==> WorkerOk(s.workers[i], maxTicks);
    SumIsZero(Ahead(Init(workerNum).workers, g));
    if Quiescent(s, maxTicks) {
      RestIsEmpty(s, maxTicks);
      SumIsZero(Ahead(s.workers, g));
    }
  }

  // ---------------------------------------------------------------------------
  // The shard in its own form: each atomic section is the step of the same name
  // ---------------------------------------------------------------------------

  datatype Call = CallProposal | CallConfigChange | CallStep | CallTick | CallReady

  /** The callback, if any, made by `ProcessStep`. */
  function CallOf(w: Worker): seq<Call>
    requires w.Processing?
  {
    match w.stage
    case AtProposal => if Proposal in w.claimed.state then [CallProposal] else []
    case AtConfigChange => if ConfigChange in w.claimed.state then [CallConfigChange] else []
    case AtStep => if Step in w.claimed.state then [CallStep] else []
    case AtTicks(i) => if Tick in w.claimed.state && i < w.claimed.ticks then [CallTick] else []
    case AtReady => if Ready in w.claimed.state then [CallReady] else []
    case AtDelete => []
  }

  /** All callbacks from here to the point where the claim is given back. */
  function CallsFrom(w: Worker): seq<Call>
    requires w.Processing?
    decreases Remaining(w)
  {
    if w.stage == AtDelete then [] else CallOf(w) + CallsFrom(ProcessStep(w))
  }

  lemma UnfoldCalls(calls: seq<Call>, w: Worker)
    requires w.Processing? && w.stage != AtDelete
    ensures calls + CallsFrom(w) == (calls + CallOf(w)) + CallsFrom(ProcessStep(w))
  {}

  lemma ReadyCalls(g: GroupId, c: InternalState)
    ensures CallsFrom(Processing(g, c, AtReady)) == if Ready in c.state then [CallReady] else []
  {
    assert CallsFrom(Processing(g, c, AtDelete)) == [];
    UnfoldCalls([], Processing(g, c, AtReady));
  }

  lemma {:induction false} TickCalls(g: GroupId, c: InternalState, i: nat)
    requires Tick in c.state && i <= c.ticks
    ensures CallsFrom(Processing(g, c, AtTicks(i))) == seq(c.ticks - i, k => CallTick) + [CallReady]
    decreases c.ticks - i
  {
    var w := Processing(g, c, AtTicks(i));
    UnfoldCalls([], w);
    if i == c.ticks {
      ReadyCalls(g, c.(state := c.state + {Ready}));
      assert seq(c.ticks - i, k => CallTick) == [];
    } else {
      TickCalls(g, c, i + 1);
      assert [CallTick] + seq(c.ticks - (i + 1), k => CallTick) == seq(c.ticks - i, k => CallTick);
      assert CallsFrom(w) == [CallTick] + (seq(c.ticks - (i + 1), k => CallTick) + [CallReady]);
    }
  }

  lemma CallsFromTicks(g: GroupId, c: InternalState)
    ensures CallsFrom(Processing(g, c, AtTicks(0)))
            == (if Tick in c.state then seq(c.ticks, i => CallTick) else [])
               + (if Tick in c.state || Ready in c.state then [CallReady] else [])
  {
    if Tick in c.state {
      TickCalls(g, c, 0);
    } else {
      UnfoldCalls([], Processing(g, c, AtTicks(0)));
      ReadyCalls(g, c);
    }
  }

  /** The claim after the request callbacks, which ask for the final one. */
  lemma AfterRequests(g: GroupId, c: InternalState) returns (d: InternalState)
    ensures ProcessStep(ProcessStep(ProcessStep(Processing(g, c, AtProposal)))) == Processing(g, d, AtTicks(0))
    ensures d.ticks == c.ticks && (Tick in d.state <==> Tick in c.state)
    ensures Ready in d.state <==> Proposal in c.state || ConfigChange in c.state || Step in c.state || Ready in c.state
  {
    d := ProcessStep(ProcessStep(ProcessStep(Processing(g, c, AtProposal)))).claimed;
  }

  lemma RequestCalls(g: GroupId, c: InternalState)
    ensures CallsFrom(Processing(g, c, AtProposal))
            == (if Proposal in c.state then [CallProposal] else [])
               + (if ConfigChange in c.state then [CallConfigChange] else [])
               + (if Step in c.state then [CallStep] else [])
               + CallsFrom(ProcessStep(ProcessStep(ProcessStep(Processing(g, c, AtProposal)))))
  {
    var w0 := Processing(g, c, AtProposal);
    var w1 := ProcessStep(w0);
    var w2 := ProcessStep(w1);
    UnfoldCalls([], w0);
    UnfoldCalls(CallOf(w0), w1);
    UnfoldCalls(CallOf(w0) + CallOf(w1), w2);
  }

  /** What one claim comes to: the request queues whose bits are set, in this order, the ticks, and one final call
      for raft's output if there was anything at all. */
  lemma CallsAre(g: GroupId, c: InternalState)
    ensures CallsFrom(Processing(g, c, AtProposal))
            == (if Proposal in c.state then [CallProposal] else [])
               + (if ConfigChange in c.state then [CallConfigChange] else [])
               + (if Step in c.state then [CallStep] else [])
               + (if Tick in c.state then seq(c.ticks, i => CallTick) else [])
               + (if Proposal in c.state || ConfigChange in c.state || Step in c.state || Tick in c.state || Ready in c.state
                  then [CallReady] else [])
  {
    var d := AfterRequests(g, c);
    RequestCalls(g, c);
    CallsFromTicks(g, d);
    Assoc((if Proposal in c.state then [CallProposal] else [])
          + (if ConfigChange in c.state then [CallConfigChange] else [])
          + (if Step in c.state then [CallStep] else []),
          if Tick in c.state then seq(c.ticks, i => CallTick) else [],
          if Tick in d.state || Ready in d.state then [CallReady] else []);
  }

  // ---------------------------------------------------------------------------
  // Every bit is answered by its callback
  // ---------------------------------------------------------------------------

  /** The callback that a bit asks for; ticks are counted above. */
  function CallFor(b: Flag): Option<Call> {
    match b
    case Proposal => Some(CallProposal)
    case ConfigChange => Some(CallConfigChange)
    case Step => Some(CallStep)
    case Ready => Some(CallReady)
    case _ => None
  }

  /** The worker has claimed the bit and is not past its callback. */
  predicate WillCall(w: Worker, g: GroupId, b: Flag) {
    && w.Processing? && w.g == g && b in w.claimed.state
    && match w.stage
       case AtProposal => true
       case AtConfigChange => b != Proposal
       case AtStep => b == Step || b == Ready
       case AtTicks(_) => b == Ready
       case AtReady => b == Ready
       case AtDelete => false
  }

  ghost predicate Due(s: Shard, g: GroupId, b: Flag) {
    || b in Lookup(s.groupState, g).state
    || exists i :: 0 <= i < |s.workers| && WillCall(s.workers[i], g, b)
  }

  /** The event is a worker's callback for the bit of the group. */
  predicate Makes(s: Shard, e: Event, g: GroupId, b: Flag) {
    && e.Work? && e.w < |s.workers| && s.workers[e.w].Processing? && s.workers[e.w].g == g
    && CallFor(b).Some? && CallFor(b).value in CallOf(s.workers[e.w])
  }

  lemma EnqueueMakesDue(s: Shard, bits: Mask, g: GroupId, b: Flag, maxTicks: nat)
    requires b in bits && Next(s, EnqueueMap(bits, g), maxTicks).Some?
    ensures Due(Next(s, EnqueueMap(bits, g), maxTicks).value, g, b)
  {
  }

  /** A bit that is due stays so until its callback is made. */
  lemma DueStays(s: Shard, e: Event, g: GroupId, b: Flag, maxTicks: nat)
    requires CallFor(b).Some? && Due(s, g, b) && Next(s, e, maxTicks).Some?
    ensures Due(Next(s, e, maxTicks).value, g, b) || Makes(s, e, g, b)
  {
    var t := Next(s, e, maxTicks).value;
    if b in Lookup(s.groupState, g).state {
      if e.Work? && s.workers[e.w] == Claimed(g) { assert WillCall(t.workers[e.w], g, b); }
    } else {
      var i :| 0 <= i < |s.workers| && WillCall(s.workers[i], g, b);
      if e.Work? && e.w == i {
        assert Makes(s, e, g, b) || WillCall(t.workers[i], g, b);
      } else {
        assert t.workers[i] == s.workers[i];
      }
    }
  }

  /** Somewhere along the events the callback is made. */
  ghost predicate MadeIn(s: Shard, es: seq<Event>, g: GroupId, b: Flag, maxTicks: nat) {
    exists j :: 0 <= j < |es| && MadeAt(s, es, j, g, b, maxTicks)
  }

  ghost predicate MadeAt(s: Shard, es: seq<Event>, j: nat, g: GroupId, b: Flag, maxTicks: nat)
    requires j < |es|
  {
    Run(s, es[..j], maxTicks).Some? && Makes(Run(s, es[..j], maxTicks).value, es[j], g, b)
  }

  lemma {:induction false} DueIsMade(s: Shard, es: seq<Event>, g: GroupId, b: Flag, maxTicks: nat)
    requires CallFor(b).Some? && Due(s, g, b) && Run(s, es, maxTicks).Some?
    ensures Due(Run(s, es, maxTicks).value, g, b) || MadeIn(s, es, g, b, maxTicks)
    decreases |es|
  {
    if es == [] {
    } else {
      DueStays(s, es[0], g, b, maxTicks);
      var t := Next(s, es[0], maxTicks).value;
      if Makes(s, es[0], g, b) {
        assert es[..0] == [] && MadeAt(s, es, 0, g, b, maxTicks);
      } else {
        DueIsMade(t, es[1..], g, b, maxTicks);
        if MadeIn(t, es[1..], g, b, maxTicks) {
          var j :| 0 <= j < |es[1..]| && MadeAt(t, es[1..], j, g, b, maxTicks);
          assert es[..j + 1][1..] == es[1..][..j] && es[..j + 1][0] == es[0];
          assert MadeAt(s, es, j + 1, g, b, maxTicks);
        }
      }
    }
  }

  lemma {:induction false} RunSplit(s: Shard, es: seq<Event>, k: nat, maxTicks: nat)
    requires k <= |es| && Run(s, es, maxTicks).Some?
    ensures Run(s, es[..k], maxTicks).Some?
    ensures Run(Run(s, es[..k], maxTicks).value, es[k..], maxTicks) == Run(s, es, maxTicks)
    decreases k
  {
    if k == 0 {
      assert es[k..] == es;
    } else {
      RunSplit(Next(s, es[0], maxTicks).value, es[1..], k - 1, maxTicks);
      assert es[..k][1..] == es[1..][..k - 1] && es[1..][k - 1..] == es[k..];
    }
  }

  /** Over every interleaving: a bit that is enqueued for a group other than 0 is answered by a later callback of that
      group, once the shard has come to rest. */
  lemma EveryBitIsCalled(workerNum: nat, es: seq<Event>, k: nat, b: Flag, maxTicks: nat)
    requires workerNum > 0 && Run(Init(workerNum), es, maxTicks).Some?
    requires Quiescent(Run(Init(workerNum), es, maxTicks).value, maxTicks)
    requires k < |es| && es[k].EnqueueMap? && es[k].g != 0 && b in es[k].bits && CallFor(b).Some?
    ensures var s := Run(Init(workerNum), es[..k + 1], maxTicks);
            s.Some? && MadeIn(s.value, es[k + 1..], es[k].g, b, maxTicks)
  {
    var g := es[k].g;
    RunSplit(Init(workerNum), es, k, maxTicks);
    RunSplit(Init(workerNum), es, k + 1, maxTicks);
    var s := Run(Init(workerNum), es[..k], maxTicks).value;
    assert es[..k + 1] == es[..k] + [es[k]];
    StepAfter(Init(workerNum), es[..k], es[k], maxTicks);
    EnqueueMakesDue(s, es[k].bits, g, b, maxTicks);
    DueIsMade(Run(Init(workerNum), es[..k + 1], maxTicks).value, es[k + 1..], g, b, maxTicks);
    InitInv(workerNum, maxTicks);
    RunKeepsInv(Init(workerNum), es, maxTicks);
    RunKeepsWorkers(Init(workerNum), es, maxTicks);
    RestIsEmpty(Run(Init(workerNum), es, maxTicks).value, maxTicks);
  }

  lemma {:induction false} StepAfter(s: Shard, es: seq<Event>, e: Event, maxTicks: nat)
    requires Run(s, es, maxTicks).Some?
    ensures Run(s, es + [e], maxTicks) == Next(Run(s, es, maxTicks).value, e, maxTicks)
    decreases |es|
  {
    if es == [] {
      assert (es + [e])[1..] == [];
    } else {
      assert (es + [e])[1..] == es[1..] + [e];
      StepAfter(Next(s, es[0], maxTicks).value, es[1..], e, maxTicks);
    }
  }

  class Sharder {
    var queue: seq<GroupId>
    var groupState: GroupStates
    var inProcessing: set<GroupId>
    const maxTicks: nat

    constructor (maxTicks: nat)
      ensures this.maxTicks == maxTicks
      ensures View(seq(0, i => Idle)) == Init(0)
    {
      this.maxTicks := maxTicks;
      queue, groupState, inProcessing := [], map[], {};
    }

    /** The shared state together with the program counters of the workers. */
    ghost function View(ws: seq<Worker>): Shard
      reads this
    {
      Shard(queue, groupState, inProcessing, ws, None)
    }

    method EnqueueState(bits: Mask, g: GroupId, ghost ws: seq<Worker>)
      modifies this`queue, this`groupState
      ensures var mid := EnqueueMapStep(old(View(ws)), bits, g, maxTicks);
              View(ws) == if mid.enqueuing.Some? then Next(mid, EnqueuePut, maxTicks).value else mid
      ensures var was := if g in old(groupState) then old(groupState)[g] else InternalState({}, 0);
              if Tick !in bits && bits <= was.state then groupState == old(groupState) && queue == old(queue)
              else && groupState.Keys == old(groupState.Keys) + {g}
                   && (forall h :: h in old(groupState) && h != g ==> groupState[h] == old(groupState)[h])
                   && groupState[g].state == was.state + bits
                   && (Tick !in bits ==> groupState[g].ticks == was.ticks)
                   && (Tick in bits ==> groupState[g].ticks == if was.ticks < maxTicks then was.ticks + 1 else maxTicks)
                   && queue == old(queue) + if Queued in was.state then [] else [g]
    {
      var was := if g in groupState then groupState[g] else InternalState({}, 0);
      if Tick !in bits {
        if was.state * bits == bits {
          assert bits <= was.state;
          return;
        }
      }
      assert !AlreadyPending(was, bits) by {
        if bits <= was.state { assert was.state * bits == bits; }
      }
      was := was.(state := was.state + bits);
      if Tick in bits {
        was := was.(ticks := was.ticks + 1);
        if was.ticks > maxTicks { was := was.(ticks := maxTicks); }
      }
      groupState := groupState[g := was];
      if Queued !in was.state {
        queue := queue + [g];
      }
    }

    method GetOne(ghost ws: seq<Worker>, ghost w: nat) returns (g: GroupId)
      requires queue != []
      requires w < |ws| && ws[w] == Idle
      modifies this`queue
      ensures Some(View(ws[w := Popped(g)])) == WorkStep(old(View(ws)), w)
      ensures old(queue) == [g] + queue
    {
      g := queue[0];
      queue := queue[1..];
    }

    method LoadOrStore(g: GroupId, ghost ws: seq<Worker>, ghost w: nat) returns (claimed: bool)
      requires w < |ws| && ws[w] == Popped(g)
      modifies this`inProcessing
      ensures Some(View(ws[w := if claimed then Claimed(g) else Idle])) == WorkStep(old(View(ws)), w)
      ensures claimed <==> g != 0 && g !in old(inProcessing)
      ensures inProcessing == old(inProcessing) + if claimed then {g} else {}
    {
      if g == 0 { return false; }
      if g in inProcessing { return false; }
      inProcessing := inProcessing + {g};
      claimed := true;
    }

    method TakeState(g: GroupId, ghost ws: seq<Worker>, ghost w: nat) returns (claimed: InternalState)
      requires w < |ws| && ws[w] == Claimed(g)
      modifies this`groupState
      ensures Some(View(ws[w := Processing(g, claimed, AtProposal)])) == WorkStep(old(View(ws)), w)
      ensures g in old(groupState) ==> claimed == old(groupState)[g]
      ensures g !in old(groupState) ==> claimed.state == {} && claimed.ticks == 0
      ensures g in groupState && groupState[g].state == {Queued} && groupState[g].ticks == 0
      ensures groupState - {g} == old(groupState) - {g}
    {
      claimed := if g in groupState then groupState[g] else InternalState({}, 0);
      groupState := groupState[g := InternalState({Queued}, 0)];
    }

    /** The callbacks of one claim that drain the group's request queues. */
    method ProcessRequests(g: GroupId, claimed: InternalState) returns (calls: seq<Call>, c: InternalState)
      ensures c.ticks == claimed.ticks
      ensures calls + CallsFrom(Processing(g, c, AtTicks(0))) == CallsFrom(Processing(g, claimed, AtProposal))
    {
      calls, c := [], claimed;
      ghost var w := Processing(g, claimed, AtProposal);
      if Proposal in c.state {
        calls := calls + [CallProposal];
        c := c.(state := c.state + {Ready});
      }
      UnfoldCalls([], w);
      w := ProcessStep(w);
      ghost var done := calls;
      if ConfigChange in c.state {
        calls := calls + [CallConfigChange];
        c := c.(state := c.state + {Ready});
      }
      UnfoldCalls(done, w);
      w, done := ProcessStep(w), calls;
      if Step in c.state {
        calls := calls + [CallStep];
        c := c.(state := c.state + {Ready});
      }
      UnfoldCalls(done, w);
    }

    /** The callbacks of one claim, run without the mutex. */
    method Process(g: GroupId, claimed: InternalState) returns (calls: seq<Call>)
      ensures calls == CallsFrom(Processing(g, claimed, AtProposal))
      ensures calls == (if Proposal in claimed.state then [CallProposal] else [])
                       + (if ConfigChange in claimed.state then [CallConfigChange] else [])
                       + (if Step in claimed.state then [CallStep] else [])
                       + (if Tick in claimed.state then seq(claimed.ticks, i => CallTick) else [])
                       + (if Proposal in claimed.state || ConfigChange in claimed.state || Step in claimed.state
                             || Tick in claimed.state || Ready in claimed.state then [CallReady] else [])
    {
      calls := ProcessClaim(g, claimed);
      CallsAre(g, claimed);
    }

    method ProcessClaim(g: GroupId, claimed: InternalState) returns (calls: seq<Call>)
      ensures calls == CallsFrom(Processing(g, claimed, AtProposal))
    {
      var c;
      calls, c := ProcessRequests(g, claimed);
      ghost var goal := CallsFrom(Processing(g, claimed, AtProposal));
      if Tick in c.state {
        var i := 0;
        while i < c.ticks
          invariant 0 <= i <= c.ticks
          invariant goal == calls + CallsFrom(Processing(g, c, AtTicks(i)))
        {
          UnfoldCalls(calls, Processing(g, c, AtTicks(i)));
          calls := calls + [CallTick];
          i := i + 1;
        }
        UnfoldCalls(calls, Processing(g, c, AtTicks(i)));
        c := c.(state := c.state + {Ready});
      } else {
        UnfoldCalls(calls, Processing(g, c, AtTicks(0)));
      }
      UnfoldCalls(calls, Processing(g, c, AtReady));
      if Ready in c.state {
        calls := calls + [CallReady];
      }
    }

    method Delete(g: GroupId, claimed: InternalState, ghost ws: seq<Worker>, ghost w: nat)
      requires w < |ws| && ws[w] == Processing(g, claimed, AtDelete)
      modifies this`inProcessing
      ensures Some(View(ws[w := Released(g)])) == WorkStep(old(View(ws)), w)
      ensures inProcessing == old(inProcessing) - {g}
    {
      inProcessing := inProcessing - {g};
    }

    method Recheck(g: GroupId, ghost ws: seq<Worker>, ghost w: nat) returns (again: bool)
      requires w < |ws| && ws[w] == Released(g)
      modifies this`groupState
      ensures Some(View(ws[w := if again then WillPut(g) else Idle])) == WorkStep(old(View(ws)), w)
      ensures again <==> !(g in old(groupState) && old(groupState)[g].state == {Queued})
      ensures groupState == if again then old(groupState) else old(groupState) - {g}
    {
      var now := if g in groupState then groupState[g] else InternalState({}, 0);
      if now.state == {Queued} {
        groupState := groupState - {g};
        again := false;
      } else {
        again := true;
      }
    }

    method PutBack(g: GroupId, ghost ws: seq<Worker>, ghost w: nat)
      requires w < |ws| && ws[w] == WillPut(g)
      modifies this`queue
      ensures Some(View(ws[w := Idle])) == WorkStep(old(View(ws)), w)
      ensures queue == old(queue) + [g]
    {
      queue := queue + [g];
    }
  }
}
