/**
 Linearizable reads in batches: callers, one read loop and the applier as interleaved steps.

 A caller fetches the current signal, nudges the loop through `readIndexCh` and waits for the
 signal. The loop takes a nudge, swaps the signal for a new one, asks raft for a read index under a
 fresh request context, waits until that index is applied and completes the old signal.

 What raft is trusted with: an answer for a context carries an index at least as high as the commit
 index at the moment that context was first submitted. Answers may be delayed, repeated or lost.
 Whether raft keeps its own copy of the request context is the parameter `copies`, because the loop
 reuses one buffer for all its requests. The recorded applied index may fall, as it does while a disk state
 machine replays entries that it already holds; what the machine holds does not. The number of slots of `readIndexCh` is the parameter
 `slots`: 0 in the single-raft node, 1 in the multi-raft store.
 */
module LinearizableRead {
  import opened Common

  datatype Config = Config(copies: bool, slots: nat)

  datatype Signal = Open | Completed(ok: bool)

  /** `floor` is the commit index when the caller fetched its signal `n`; `held` is what the machine held on return. */
  datatype Caller =
    | Start
    | Fetched(n: nat, floor: nat)
    | Waiting(n: nat, floor: nat)
    | Returned(ok: bool, floor: nat, held: nat)

  datatype Loop =
    | Top
    | Parked(id: nat)
    | GotToken(id: nat)
    | Swapped(batch: nat, id: nat)
    | Asked(batch: nat)
    | Answered(batch: nat, index: nat)
    | Acquiring(batch: nat, index: nat)
    | Awaiting(batch: nat, index: nat)
    | Stopped

  datatype Answer = Answer(ctx: nat, index: nat)

  /** `applied` is the recorded applied index, `held` the last entry whose effect the state machine holds;
      `signals` are all signals ever made, the last one being the current one; `swapCommit` is the
      commit index at each swap; `waiting` are the completion channels that are not closed. */
  datatype State = State(
    commit: nat,
    applied: nat,
    held: nat,
    lastCompleted: nat,
    waiting: set<nat>,
    signals: seq<Signal>,
    swapCommit: seq<nat>,
    callers: seq<Caller>,
    tokens: nat,
    loop: Loop,
    buffer: nat,
    nextId: nat,
    submitted: map<nat, nat>,
    answers: set<Answer>)

  datatype Event =
    | Commit(i: nat)
    | Apply(i: nat)
    | Mark
    | Fetch(c: nat)
    | Send(c: nat)
    | Return(c: nat)
    | Cancel(c: nat)
    | LoopTop
    | LeaderChanged
    | Receive
    | Swap
    | Ask(ok: bool)
    | RaftAnswers(a: Answer)
    | Deliver(a: Answer)
    | Fail
    | Check
    | Acquire
    | Wake
    | Stop

  function Init(callerNum: nat): State {
    State(0, 0, 0, 0, {}, [Open], [], seq(callerNum, i => Start), 0, Top, 0, 1, map[], {})
  }

  /** Closing a signal twice would panic; the step is then not possible. */
  function Complete(s: State, n: nat, ok: bool): Option<State> {
    if n < |s.signals| && s.signals[n].Open?
    then Some(s.(signals := s.signals[n := Completed(ok)], loop := Top))
    else None
  }

  function CallerNext(s: State, e: Event, cfg: Config): Option<State>
    requires (e.Fetch? || e.Send? || e.Return? || e.Cancel?) && e.c < |s.callers|
  {
    var k := s.callers[e.c];
    match e
    case Fetch(c) =>
      if (k.Start? || k.Returned?) && |s.signals| > 0
      then Some(s.(callers := s.callers[c := Fetched(|s.signals| - 1, s.commit)]))
      else None
    case Send(c) =>
      if !k.Fetched? then None
      else
        var t := s.(callers := s.callers[c := Waiting(k.n, k.floor)]);
        if s.tokens < cfg.slots then Some(t.(tokens := s.tokens + 1))
        else if s.tokens == 0 && s.loop.Parked? then Some(t.(loop := GotToken(s.loop.id)))
        else Some(t)
    case Return(c) =>
      if k.Waiting? && k.n < |s.signals| && s.signals[k.n].Completed?
      then Some(s.(callers := s.callers[c := Returned(s.signals[k.n].ok, k.floor, s.held)]))
      else None
    case Cancel(c) =>
      if k.Fetched? || k.Waiting?
      then Some(s.(callers := s.callers[c := Returned(false, k.floor, s.held)]))
      else None
  }

  function LoopNext(s: State, e: Event, cfg: Config): Option<State> {
    match (e, s.loop)
    case (LoopTop, Top) => Some(s.(loop := Parked(s.nextId), nextId := s.nextId + 1))
    case (LeaderChanged, Parked(_)) => Some(s.(loop := Top))
    case (Receive, Parked(id)) => if s.tokens == 0 then None else Some(s.(loop := GotToken(id), tokens := s.tokens - 1))
    case (Swap, GotToken(id)) =>
      if s.signals == [] then None
      else Some(s.(loop := Swapped(|s.signals| - 1, id),
                   signals := s.signals + [Open],
                   swapCommit := s.swapCommit + [s.commit]))
    case (Ask(ok), Swapped(batch, id)) =>
      if !ok then Complete(s.(buffer := id), batch, false)
      else Some(s.(buffer := id, submitted := s.submitted[id := s.commit], loop := Asked(batch)))
    case (Deliver(a), Asked(batch)) =>
      if a !in s.answers then None
      else if (if cfg.copies then a.ctx else s.buffer) == s.buffer
      then Some(s.(loop := Answered(batch, a.index)))
      else Some(s)
    case (Fail, Asked(batch)) => Complete(s, batch, false)
    case (Check, Answered(batch, index)) =>
      if s.applied >= index then Complete(s, batch, true) else Some(s.(loop := Acquiring(batch, index)))
    case (Acquire, Acquiring(batch, index)) =>
      Some(s.(loop := Awaiting(batch, index),
              waiting := if s.lastCompleted >= index then s.waiting else s.waiting + {index}))
    case (Wake, Awaiting(batch, index)) => if index in s.waiting then None else Complete(s, batch, true)
    case (Stop, Parked(_)) => Some(s.(loop := Stopped))
    case (Stop, Swapped(_, _)) => Some(s.(loop := Stopped))
    case (Stop, Asked(_)) => Some(s.(loop := Stopped))
    case (Stop, Awaiting(_, _)) => Some(s.(loop := Stopped))
    case _ => None
  }

  function Next(s: State, e: Event, cfg: Config): Option<State> {
    match e
    case Commit(i) => if i >= s.commit then Some(s.(commit := i)) else None
    case Apply(i) =>
      if i <= s.commit then Some(s.(applied := i, held := if s.held <= i then i else s.held)) else None
    case Mark => Some(s.(lastCompleted := s.applied, waiting := set k | k in s.waiting && k > s.applied))
    case RaftAnswers(a) =>
      if a.ctx in s.submitted && s.submitted[a.ctx] <= a.index <= s.commit
      then Some(s.(answers := s.answers + {a}))
      else None
    case _ =>
      if e.Fetch? || e.Send? || e.Return? || e.Cancel?
      then if e.c < |s.callers| then CallerNext(s, e, cfg) else None
      else LoopNext(s, e, cfg)
  }

  function Run(s: State, es: seq<Event>, cfg: Config): Option<State>
    decreases |es|
  {
    if es == [] then Some(s)
    else
      var r := Next(s, es[0], cfg);
      if r.None? then None else Run(r.value, es[1..], cfg)
  }

  // ---------------------------------------------------------------------------
  // Bookkeeping every step keeps, whatever the configuration
  // ---------------------------------------------------------------------------

  /** The swapped-out signal the loop still has to complete. */
  function InHand(l: Loop): Option<nat> {
    if l.Swapped? || l.Asked? || l.Answered? || l.Acquiring? || l.Awaiting? then Some(l.batch) else None
  }

  ghost predicate SignalsOk(s: State) {
    && |s.signals| == |s.swapCommit| + 1
    && s.signals[|s.signals| - 1].Open?
    && (forall n :: 0 <= n < |s.swapCommit| ==> s.swapCommit[n] <= s.commit)
    && (InHand(s.loop).Some? ==> InHand(s.loop).value == |s.signals| - 2 >= 0 && s.signals[|s.signals| - 2].Open?)
    && (!s.loop.Stopped? ==>
          forall n :: 0 <= n < |s.signals| - 1 && Some(n) != InHand(s.loop) ==> s.signals[n].Completed?)
  }

  predicate CallerOk(k: Caller, s: State) {
    match k
    case Start => true
    case Returned(_, _, _) => true
    case _ =>
      && k.n < |s.signals| && k.floor <= s.commit
      && (k.n < |s.swapCommit| ==> k.floor <= s.swapCommit[k.n])
  }

  ghost predicate AppliedOk(s: State) {
    && s.lastCompleted <= s.held && s.applied <= s.held <= s.commit
    && (s.loop.Awaiting? ==> s.loop.index in s.waiting || s.loop.index <= s.held)
  }

  ghost predicate AnswersOk(s: State) {
    && (forall a :: a in s.answers ==> a.ctx in s.submitted && s.submitted[a.ctx] <= a.index)
    && (forall id :: id in s.submitted ==> id < s.nextId && s.submitted[id] <= s.commit)
    && (s.loop.Parked? || s.loop.GotToken? || s.loop.Swapped? ==> s.loop.id < s.nextId && s.loop.id !in s.submitted)
  }

  ghost predicate Books(s: State) {
    && SignalsOk(s) && AppliedOk(s) && AnswersOk(s)
    && (forall c :: 0 <= c < |s.callers| ==> CallerOk(s.callers[c], s))
  }

  lemma CompleteKeepsSignals(s: State, n: nat, ok: bool)
    requires SignalsOk(s) && InHand(s.loop) == Some(n) && Complete(s, n, ok).Some?
    ensures SignalsOk(Complete(s, n, ok).value)
  {}

  lemma SwapKeepsSignals(s: State, cfg: Config)
    requires SignalsOk(s) && s.loop.GotToken?
    ensures SignalsOk(LoopNext(s, Swap, cfg).value)
  {}

  lemma LoopKeepsSignals(s: State, e: Event, cfg: Config)
    requires SignalsOk(s) && LoopNext(s, e, cfg).Some?
    ensures SignalsOk(LoopNext(s, e, cfg).value)
  {
    match e
    case Swap => SwapKeepsSignals(s, cfg);
    case Ask(ok) => if !ok { CompleteKeepsSignals(s.(buffer := s.loop.id), s.loop.batch, false); }
    case Fail => CompleteKeepsSignals(s, s.loop.batch, false);
    case Check => if s.applied >= s.loop.index { CompleteKeepsSignals(s, s.loop.batch, true); }
    case Wake => CompleteKeepsSignals(s, s.loop.batch, true);
    case _ =>
  }

  lemma NextKeepsSignals(s: State, e: Event, cfg: Config)
    requires SignalsOk(s) && Next(s, e, cfg).Some?
    ensures SignalsOk(Next(s, e, cfg).value)
  {
    if LoopNext(s, e, cfg).Some? { LoopKeepsSignals(s, e, cfg); }
  }

  lemma NextKeepsApplied(s: State, e: Event, cfg: Config)
    requires AppliedOk(s) && Next(s, e, cfg).Some?
    ensures AppliedOk(Next(s, e, cfg).value)
  {}

  lemma NextKeepsAnswers(s: State, e: Event, cfg: Config)
    requires AnswersOk(s) && Next(s, e, cfg).Some?
    ensures AnswersOk(Next(s, e, cfg).value)
  {}

  /** A caller's facts survive whatever only adds signals, swaps and commits. */
  lemma CallerOkGrows(k: Caller, s: State, t: State)
    requires CallerOk(k, s) && |s.signals| == |s.swapCommit| + 1
    requires |s.signals| <= |t.signals| && s.commit <= t.commit
    requires t.swapCommit == s.swapCommit || t.swapCommit == s.swapCommit + [s.commit]
    ensures CallerOk(k, t)
  {}

  lemma NextKeepsCaller(s: State, e: Event, cfg: Config, c: nat)
    requires SignalsOk(s) && c < |s.callers| && CallerOk(s.callers[c], s) && Next(s, e, cfg).Some?
    ensures var t := Next(s, e, cfg).value;
            |t.callers| == |s.callers| && CallerOk(t.callers[c], t)
  {
    CallerOkGrows(s.callers[c], s, Next(s, e, cfg).value);
  }

  lemma NextKeepsBooks(s: State, e: Event, cfg: Config)
    requires Books(s) && Next(s, e, cfg).Some?
    ensures Books(Next(s, e, cfg).value)
  {
    NextKeepsSignals(s, e, cfg);
    NextKeepsApplied(s, e, cfg);
    NextKeepsAnswers(s, e, cfg);
    var t := Next(s, e, cfg).value;
    assert |t.callers| == |s.callers|;
    forall c | 0 <= c < |t.callers|
      ensures CallerOk(t.callers[c], t)
    {
      NextKeepsCaller(s, e, cfg, c);
    }
  }

  // ---------------------------------------------------------------------------
  // Safety: a read that returns without error sees everything committed before it
  // ---------------------------------------------------------------------------

  ghost predicate LoopFresh(s: State)
    requires SignalsOk(s)
  {
    && (s.loop.Asked? ==> s.buffer in s.submitted && s.submitted[s.buffer] >= s.swapCommit[s.loop.batch])
    && (s.loop.Answered? || s.loop.Acquiring? || s.loop.Awaiting? ==> s.loop.index >= s.swapCommit[s.loop.batch])
  }

  ghost predicate SignalsTrue(s: State)
    requires SignalsOk(s)
  {
    forall n :: 0 <= n < |s.swapCommit| && s.signals[n] == Completed(true) ==> s.swapCommit[n] <= s.held
  }

  /** A caller that got no error was answered from a state machine that holds everything up to its floor. */
  ghost predicate ReadsFresh(s: State) {
    forall c :: 0 <= c < |s.callers| && s.callers[c].Returned? && s.callers[c].ok
                ==> s.callers[c].floor <= s.callers[c].held
  }

  ghost predicate Safe(s: State) {
    Books(s) && LoopFresh(s) && SignalsTrue(s) && ReadsFresh(s)
  }

  lemma NextKeepsFresh(s: State, e: Event, cfg: Config)
    requires SignalsOk(s) && AnswersOk(s) && LoopFresh(s) && cfg.copies && Next(s, e, cfg).Some?
    requires SignalsOk(Next(s, e, cfg).value)
    ensures LoopFresh(Next(s, e, cfg).value)
  {}

  lemma NextKeepsTrue(s: State, e: Event, cfg: Config)
    requires SignalsOk(s) && AppliedOk(s) && LoopFresh(s) && SignalsTrue(s) && Next(s, e, cfg).Some?
    requires SignalsOk(Next(s, e, cfg).value)
    ensures SignalsTrue(Next(s, e, cfg).value)
  {}

  lemma NextKeepsReads(s: State, e: Event, cfg: Config)
    requires Books(s) && SignalsTrue(s) && ReadsFresh(s) && Next(s, e, cfg).Some?
    ensures ReadsFresh(Next(s, e, cfg).value)
  {
    if e.Return? { assert CallerOk(s.callers[e.c], s); }
  }

  lemma NextKeepsSafe(s: State, e: Event, cfg: Config)
    requires Safe(s) && cfg.copies && Next(s, e, cfg).Some?
    ensures Safe(Next(s, e, cfg).value)
  {
    NextKeepsBooks(s, e, cfg);
    NextKeepsFresh(s, e, cfg);
    NextKeepsTrue(s, e, cfg);
    NextKeepsReads(s, e, cfg);
  }

  lemma {:induction false} RunKeepsSafe(s: State, es: seq<Event>, cfg: Config)
    requires Safe(s) && cfg.copies && Run(s, es, cfg).Some?
    ensures Safe(Run(s, es, cfg).value)
    decreases |es|
  {
    if es == [] {
    } else {
      NextKeepsSafe(s, es[0], cfg);
      RunKeepsSafe(Next(s, es[0], cfg).value, es[1..], cfg);
    }
  }

  lemma {:induction false} RunKeepsBooks(s: State, es: seq<Event>, cfg: Config)
    requires Books(s) && Run(s, es, cfg).Some?
    ensures Books(Run(s, es, cfg).value)
    decreases |es|
  {
    if es == [] {
    } else {
      NextKeepsBooks(s, es[0], cfg);
      RunKeepsBooks(Next(s, es[0], cfg).value, es[1..], cfg);
    }
  }

  /** Extends a run by one event. */
  lemma {:induction false} Extend(s0: State, es: seq<Event>, s: State, e: Event, cfg: Config) returns (fs: seq<Event>, t: State)
    requires Run(s0, es, cfg) == Some(s) && Next(s, e, cfg).Some?
    ensures fs == es + [e] && Some(t) == Next(s, e, cfg) && Run(s0, fs, cfg) == Some(t)
    decreases |es|
  {
    fs, t := es + [e], Next(s, e, cfg).value;
    if es == [] {
      assert fs[1..] == [];
    } else {
      var _, _ := Extend(Next(s0, es[0], cfg).value, es[1..], s, e, cfg);
      assert fs[0] == es[0] && fs[1..] == es[1..] + [e];
    }
  }

  /** The only caller starts a read and the loop takes its nudge. */
  lemma Nudge(es: seq<Event>, s: State, cfg: Config) returns (fs: seq<Event>, t: State)
    requires Run(Init(1), es, cfg) == Some(s)
    requires |s.callers| == 1 && (s.callers[0].Start? || s.callers[0].Returned?) && |s.signals| > 0
    requires s.loop.Top? && s.tokens == 0
    ensures Run(Init(1), fs, cfg) == Some(t)
    ensures t == s.(callers := [Waiting(|s.signals| - 1, s.commit)], loop := GotToken(s.nextId), nextId := s.nextId + 1)
  {
    fs, t := Extend(Init(1), es, s, Fetch(0), cfg);
    assert t.callers == [Fetched(|s.signals| - 1, s.commit)];
    fs, t := Extend(Init(1), fs, t, LoopTop, cfg);
    fs, t := Extend(Init(1), fs, t, Send(0), cfg);
    assert t.callers == [Waiting(|s.signals| - 1, s.commit)];
    if cfg.slots > 0 {
      fs, t := Extend(Init(1), fs, t, Receive, cfg);
    }
  }

  /** The loop swaps the signal and submits its request. */
  lemma SwapAndAsk(es: seq<Event>, s: State, cfg: Config) returns (fs: seq<Event>, t: State)
    requires Run(Init(1), es, cfg) == Some(s) && s.loop.GotToken? && s.signals != []
    ensures Run(Init(1), fs, cfg) == Some(t)
    ensures t == s.(loop := Asked(|s.signals| - 1), signals := s.signals + [Open],
                    swapCommit := s.swapCommit + [s.commit],
                    buffer := s.loop.id, submitted := s.submitted[s.loop.id := s.commit])
  {
    fs, t := Extend(Init(1), es, s, Swap, cfg);
    fs, t := Extend(Init(1), fs, t, Ask(true), cfg);
  }

  /** The loop completes the signal in one step and the caller returns with its result. */
  lemma CompleteAndReturn(es: seq<Event>, s: State, e: Event, n: nat, ok: bool, cfg: Config)
    returns (fs: seq<Event>, t: State)
    requires Run(Init(1), es, cfg) == Some(s) && Next(s, e, cfg) == Complete(s, n, ok)
    requires n < |s.signals| && s.signals[n].Open? && |s.callers| == 1 && s.callers[0].Waiting? && s.callers[0].n == n
    ensures Run(Init(1), fs, cfg) == Some(t)
    ensures t == s.(loop := Top, signals := s.signals[n := Completed(ok)],
                    callers := [Returned(ok, s.callers[0].floor, s.held)])
  {
    fs, t := Extend(Init(1), es, s, e, cfg);
    fs, t := Extend(Init(1), fs, t, Return(0), cfg);
    assert t.callers == [Returned(ok, s.callers[0].floor, s.held)];
  }

  /** A read times out after raft has fixed its index; then another entry is committed. */
  lemma TimedOutRead(cfg: Config) returns (es: seq<Event>, s: State)
    ensures Run(Init(1), es, cfg) == Some(s)
    ensures |s.signals| == 2 && s.signals[1].Open? && s.callers == [Returned(false, 0, 0)]
    ensures s.loop == Top && s.tokens == 0 && s.commit == 1 && s.applied == 0 && s.held == 0 && Answer(1, 0) in s.answers
  {
    es, s := Nudge([], Init(1), cfg);
    es, s := SwapAndAsk(es, s, cfg);
    es, s := Extend(Init(1), es, s, RaftAnswers(Answer(1, 0)), cfg);
    es, s := CompleteAndReturn(es, s, Fail, 0, false, cfg);
    es, s := Extend(Init(1), es, s, Commit(1), cfg);
  }

  /** The same caller reads again, while the answer to its first request is still to come. */
  lemma SecondRequest(cfg: Config) returns (es: seq<Event>, s: State)
    ensures Run(Init(1), es, cfg) == Some(s)
    ensures |s.signals| == 3 && s.signals[1].Open? && s.callers == [Waiting(1, 1)]
    ensures s.loop == Asked(1) && s.applied == 0 && s.held == 0 && Answer(1, 0) in s.answers
  {
    es, s := TimedOutRead(cfg);
    es, s := Nudge(es, s, cfg);
    assert s.signals[1].Open?;
    es, s := SwapAndAsk(es, s, cfg);
  }

  /** The second request is answered with the index that raft had fixed for the first. */
  lemma LateAnswer(cfg: Config) returns (es: seq<Event>, s: State)
    requires !cfg.copies
    ensures Run(Init(1), es, cfg) == Some(s)
    ensures |s.signals| == 3 && s.signals[1].Open? && s.callers == [Waiting(1, 1)] && s.applied == 0 && s.held == 0
    ensures Next(s, Check, cfg) == Complete(s, 1, true)
  {
    es, s := SecondRequest(cfg);
    es, s := Extend(Init(1), es, s, Deliver(Answer(1, 0)), cfg);
  }

  /** With one shared context buffer an answer to a request that timed out passes for the answer to the
      next request: the second read returns without error from a state that lacks its floor. */
  lemma StaleRead(cfg: Config) returns (es: seq<Event>, s: State)
    requires !cfg.copies
    ensures Run(Init(1), es, cfg) == Some(s) && !ReadsFresh(s)
  {
    es, s := LateAnswer(cfg);
    es, s := CompleteAndReturn(es, s, Check, 1, true, cfg);
    assert s.callers[0] == Returned(true, 1, 0);
  }

  ghost predicate AlwaysFresh(cfg: Config) {
    forall callerNum: nat, es: seq<Event> ::
      Run(Init(callerNum), es, cfg).Some? ==> ReadsFresh(Run(Init(callerNum), es, cfg).value)
  }

  /** Over every interleaving of callers, loop, applier and raft's answers, a read that returns without
      error sees a state machine that holds everything committed when it fetched its signal, exactly when
      raft compares request contexts by value. The recorded applied index may rise and fall meanwhile. */
  lemma FreshIffContextsAreValues(cfg: Config)
    ensures AlwaysFresh(cfg) <==> cfg.copies
  {
    if cfg.copies {
      forall callerNum: nat, es: seq<Event> | Run(Init(callerNum), es, cfg).Some?
        ensures ReadsFresh(Run(Init(callerNum), es, cfg).value)
      {
        RunKeepsSafe(Init(callerNum), es, cfg);
      }
    } else {
      var es, s := StaleRead(cfg);
      assert Run(Init(1), es, cfg) == Some(s);
    }
  }

  // ---------------------------------------------------------------------------
  // No stranded read, and every signal completed once
  // ---------------------------------------------------------------------------

  /** A caller that waits for the current signal has left a nudge behind: it lies in the channel, or the
      loop has taken one and not swapped yet. */
  ghost predicate Nudged(s: State) {
    forall c :: 0 <= c < |s.callers| && s.callers[c].Waiting? && s.callers[c].n == |s.signals| - 1
                ==> s.tokens > 0 || s.loop.GotToken?
  }

  lemma NextKeepsNudged(s: State, e: Event, cfg: Config)
    requires Books(s) && Nudged(s) && cfg.slots > 0 && Next(s, e, cfg).Some?
    ensures Nudged(Next(s, e, cfg).value)
  {
    if e.Swap? {
      assert forall c :: 0 <= c < |s.callers| ==> CallerOk(s.callers[c], s);
    }
  }

  lemma {:induction false} RunKeepsNudged(s: State, es: seq<Event>, cfg: Config)
    requires Books(s) && Nudged(s) && cfg.slots > 0 && Run(s, es, cfg).Some?
    ensures Nudged(Run(s, es, cfg).value)
    decreases |es|
  {
    if es == [] {
    } else {
      NextKeepsBooks(s, es[0], cfg);
      NextKeepsNudged(s, es[0], cfg);
      RunKeepsNudged(Next(s, es[0], cfg).value, es[1..], cfg);
    }
  }

  ghost predicate AlwaysNudged(cfg: Config) {
    forall callerNum: nat, es: seq<Event> ::
      Run(Init(callerNum), es, cfg).Some? ==> Nudged(Run(Init(callerNum), es, cfg).value)
  }

  /** Without a slot a caller that comes while the loop is not receiving leaves nothing behind. */
  lemma LostNudge(cfg: Config) returns (es: seq<Event>, s: State)
    requires cfg.slots == 0
    ensures Run(Init(1), es, cfg) == Some(s) && !Nudged(s)
  {
    es, s := Extend(Init(1), [], Init(1), Fetch(0), cfg);
    es, s := Extend(Init(1), es, s, Send(0), cfg);
    assert s.callers[0].Waiting?;
  }

  /** No read is stranded exactly when the nudge channel has a slot; without one, a caller that sends
      while the loop is not in its select waits for a signal nobody will swap out. */
  lemma NudgedIffSlot(cfg: Config)
    ensures AlwaysNudged(cfg) <==> cfg.slots > 0
  {
    if cfg.slots > 0 {
      forall callerNum: nat, es: seq<Event> | Run(Init(callerNum), es, cfg).Some?
        ensures Nudged(Run(Init(callerNum), es, cfg).value)
      {
        RunKeepsNudged(Init(callerNum), es, cfg);
      }
    } else {
      var es, s := LostNudge(cfg);
      assert Run(Init(1), es, cfg) == Some(s);
    }
  }

  /** Along every run each swapped-out signal is completed, except the one the loop has in hand, unless
      the loop stopped; and the one in hand is still open, so completing it never closes a closed channel. */
  lemma SignalsCompleted(callerNum: nat, es: seq<Event>, cfg: Config, n: nat)
    requires Run(Init(callerNum), es, cfg).Some?
    requires n < |Run(Init(callerNum), es, cfg).value.signals| - 1
    ensures var s := Run(Init(callerNum), es, cfg).value;
            && (InHand(s.loop) == Some(n) ==> s.signals[n].Open?)
            && (InHand(s.loop) != Some(n) && !s.loop.Stopped? ==> s.signals[n].Completed?)
  {
    RunKeepsBooks(Init(callerNum), es, cfg);
  }

  lemma NextKeepsCompleted(s: State, e: Event, cfg: Config, n: nat)
    requires n < |s.signals| && s.signals[n].Completed? && Next(s, e, cfg).Some?
    ensures var t := Next(s, e, cfg).value; n < |t.signals| && t.signals[n] == s.signals[n]
  {
  }

  /** A completed signal keeps its result for ever. */
  lemma {:induction false} CompletedOnce(s: State, es: seq<Event>, cfg: Config, n: nat)
    requires Run(s, es, cfg).Some? && n < |s.signals| && s.signals[n].Completed?
    ensures var t := Run(s, es, cfg).value; n < |t.signals| && t.signals[n] == s.signals[n]
    decreases |es|
  {
    if es == [] {
    } else {
      NextKeepsCompleted(s, es[0], cfg, n);
      CompletedOnce(Next(s, es[0], cfg).value, es[1..], cfg, n);
    }
  }

  // ---------------------------------------------------------------------------
  // With which result
  // ---------------------------------------------------------------------------

  /** The event completes a signal: with success once its index is applied, with an error if the request was not
      accepted, or was not answered in time or by the old leader. */
  predicate CompletesWith(e: Event, ok: bool) {
    if ok then e.Check? || e.Wake? else e == Ask(false) || e == Fail
  }

  lemma CompletionCause(s: State, e: Event, cfg: Config, n: nat)
    requires n < |s.signals| && s.signals[n].Open? && Next(s, e, cfg).Some?
    requires var t := Next(s, e, cfg).value; n < |t.signals| && t.signals[n].Completed?
    ensures InHand(s.loop) == Some(n) && CompletesWith(e, Next(s, e, cfg).value.signals[n].ok)
  {
  }

  /** At event `j` the loop had the signal in hand, and the event completed it with that result. */
  ghost predicate CompletedAt(s: State, es: seq<Event>, cfg: Config, j: nat, n: nat, ok: bool)
    requires j < |es|
  {
    && Run(s, es[..j], cfg).Some? && InHand(Run(s, es[..j], cfg).value.loop) == Some(n)
    && CompletesWith(es[j], ok)
  }

  lemma NewSignalsAreOpen(s: State, e: Event, cfg: Config, n: nat)
    requires |s.signals| <= n && Next(s, e, cfg).Some?
    ensures n < |Next(s, e, cfg).value.signals| ==> Next(s, e, cfg).value.signals[n].Open?
  {
  }

  lemma {:induction false} CompletedSince(s: State, es: seq<Event>, cfg: Config, n: nat)
    requires Run(s, es, cfg).Some? && (n < |s.signals| ==> s.signals[n].Open?)
    requires var t := Run(s, es, cfg).value; n < |t.signals| && t.signals[n].Completed?
    ensures exists j :: 0 <= j < |es| && CompletedAt(s, es, cfg, j, n, Run(s, es, cfg).value.signals[n].ok)
    decreases |es|
  {
    var ok := Run(s, es, cfg).value.signals[n].ok;
    if es == [] {
    } else {
      var t := Next(s, es[0], cfg).value;
      if n >= |s.signals| { NewSignalsAreOpen(s, es[0], cfg, n); }
      if n < |t.signals| && t.signals[n].Completed? {
        CompletionCause(s, es[0], cfg, n);
        CompletedOnce(t, es[1..], cfg, n);
        assert es[..0] == [] && CompletedAt(s, es, cfg, 0, n, ok);
      } else {
        CompletedSince(t, es[1..], cfg, n);
        var j :| 0 <= j < |es[1..]| && CompletedAt(t, es[1..], cfg, j, n, ok);
        assert es[..j + 1][1..] == es[1..][..j] && es[..j + 1][0] == es[0];
        assert CompletedAt(s, es, cfg, j + 1, n, ok);
      }
    }
  }

  /** Over every run: a signal that carries an error got it because its request was refused or failed, and one without
      error was completed by an applied index. */
  lemma ResultsAreEarned(callerNum: nat, es: seq<Event>, cfg: Config, n: nat)
    requires Run(Init(callerNum), es, cfg).Some?
    requires var s := Run(Init(callerNum), es, cfg).value; n < |s.signals| && s.signals[n].Completed?
    ensures exists j :: 0 <= j < |es| && CompletedAt(Init(callerNum), es, cfg, j, n, Run(Init(callerNum), es, cfg).value.signals[n].ok)
  {
    CompletedSince(Init(callerNum), es, cfg, n);
  }

  /** An answer is taken exactly if its context is that of the request, as far as raft's copies tell. */
  lemma AnswerTaken(s: State, a: Answer, cfg: Config)
    requires s.loop.Asked? && a in s.answers
    ensures Next(s, Deliver(a), cfg)
            == Some(if cfg.copies ==> a.ctx == s.buffer then s.(loop := Answered(s.loop.batch, a.index)) else s)
  {
  }

  /** An answered request completes its signal without error, at once or after the index has been applied and
      marked; there is no other way on. */
  lemma AnsweredCompletes(s: State, cfg: Config)
    requires Books(s) && s.loop.Answered?
    ensures s.applied >= s.loop.index ==>
              Next(s, Check, cfg) == Some(s.(signals := s.signals[s.loop.batch := Completed(true)], loop := Top))
    ensures s.applied < s.loop.index ==>
              Next(s, Check, cfg) == Some(s.(loop := Acquiring(s.loop.batch, s.loop.index)))
    ensures forall e :: Next(s, e, cfg).Some? && Next(s, e, cfg).value.loop != s.loop ==> e.Check?
  {
  }

  lemma AcquiredWaits(s: State, cfg: Config)
    requires s.loop.Acquiring?
    ensures var t := Next(s, Acquire, cfg);
            && t.Some? && t.value.loop == Awaiting(s.loop.batch, s.loop.index) && t.value.signals == s.signals
            && (s.loop.index in t.value.waiting <==> s.loop.index in s.waiting || s.lastCompleted < s.loop.index)
  {
  }

  /** The loop wakes up exactly if its channel is closed, and completes its signal without error; marking an applied
      index that has reached the awaited one closes it. */
  lemma WakeCompletes(s: State, cfg: Config)
    requires Books(s) && s.loop.Awaiting?
    ensures Next(s, Wake, cfg).Some? <==> s.loop.index !in s.waiting
    ensures s.loop.index !in s.waiting ==>
              Next(s, Wake, cfg) == Some(s.(signals := s.signals[s.loop.batch := Completed(true)], loop := Top))
    ensures s.applied >= s.loop.index ==>
              var t := Next(s, Mark, cfg);
              t.Some? && t.value.loop == s.loop && t.value.signals == s.signals && s.loop.index !in t.value.waiting
    ensures s.applied < s.loop.index && s.loop.index in s.waiting ==> s.loop.index in Next(s, Mark, cfg).value.waiting
  {
  }

  /** A caller's own steps: it fetches the signal of the moment, and returns what its signal carries. */
  lemma CallerSteps(s: State, c: nat, cfg: Config)
    requires c < |s.callers|
    ensures var k := s.callers[c];
            && ((k.Start? || k.Returned?) && s.signals != [] ==>
                  Next(s, Fetch(c), cfg) == Some(s.(callers := s.callers[c := Fetched(|s.signals| - 1, s.commit)])))
            && (k.Fetched? ==> Next(s, Send(c), cfg).Some? && Next(s, Send(c), cfg).value.callers[c] == Waiting(k.n, k.floor))
            && (k.Waiting? && k.n < |s.signals| ==>
                  && (Next(s, Return(c), cfg).Some? <==> s.signals[k.n].Completed?)
                  && (s.signals[k.n].Completed? ==>
                        Next(s, Return(c), cfg).value.callers[c] == Returned(s.signals[k.n].ok, k.floor, s.held)))
            && (k.Fetched? || k.Waiting? ==>
                  Next(s, Cancel(c), cfg).Some? && Next(s, Cancel(c), cfg).value.callers[c] == Returned(false, k.floor, s.held))
  {
  }

  /** The loop's own way to a request: a new signal, and a request under a context that was never used before; a change
      of the leader before the request sends it back to the top. */
  lemma RequestSteps(s: State, cfg: Config)
    requires Books(s)
    ensures s.loop.Top? ==>
              var t := Next(s, LoopTop, cfg);
              && t.Some? && t.value.loop.Parked? && t.value.loop.id !in s.submitted
              && t.value == s.(loop := t.value.loop, nextId := s.nextId + 1)
    ensures s.loop.Parked? ==> Next(s, LeaderChanged, cfg) == Some(s.(loop := Top))
    ensures s.loop.GotToken? ==>
              Next(s, Swap, cfg) == Some(s.(loop := Swapped(|s.signals| - 1, s.loop.id), signals := s.signals + [Open],
                                            swapCommit := s.swapCommit + [s.commit]))
    ensures s.loop.Swapped? ==>
              var t := Next(s, Ask(true), cfg);
              && t.Some? && t.value.loop == Asked(s.loop.batch) && t.value.signals == s.signals
              && t.value.buffer !in s.submitted && t.value.submitted == s.submitted[t.value.buffer := s.commit]
    ensures s.loop.Swapped? ==>
              var t := Next(s, Ask(false), cfg);
              t.Some? && t.value.loop == Top && t.value.signals == s.signals[s.loop.batch := Completed(false)]
  {
  }

  /** From every state of a safe run in which a request is out, the read can still succeed. */
  lemma ReadCanSucceed(s: State, cfg: Config)
    requires Safe(s) && s.loop.Asked?
    ensures var a := Answer(s.buffer, s.commit);
            var t := Run(s, [RaftAnswers(a), Deliver(a), Apply(s.commit), Check], cfg);
            t.Some? && t.value.signals == s.signals[s.loop.batch := Completed(true)] && t.value.held == s.commit
  {
    var a := Answer(s.buffer, s.commit);
    var t1 := s.(answers := s.answers + {a});
    var t2 := t1.(loop := Answered(s.loop.batch, a.index));
    var t3 := t2.(applied := s.commit, held := s.commit);
    var t4 := t3.(signals := s.signals[s.loop.batch := Completed(true)], loop := Top);
    assert s.submitted[s.buffer] <= s.commit;
    assert Next(s, RaftAnswers(a), cfg) == Some(t1) && Next(t1, Deliver(a), cfg) == Some(t2);
    assert Next(t2, Apply(s.commit), cfg) == Some(t3) && Next(t3, Check, cfg) == Some(t4);
    assert Run(t4, [], cfg) == Some(t4) && [Check][1..] == [];
    assert Run(t3, [Check], cfg) == Some(t4) && [Apply(s.commit), Check][1..] == [Check];
    assert Run(t2, [Apply(s.commit), Check], cfg) == Some(t4);
    assert [Deliver(a), Apply(s.commit), Check][1..] == [Apply(s.commit), Check];
    assert Run(t1, [Deliver(a), Apply(s.commit), Check], cfg) == Some(t4);
    assert [RaftAnswers(a), Deliver(a), Apply(s.commit), Check][1..] == [Deliver(a), Apply(s.commit), Check];
  }

  // ---------------------------------------------------------------------------
  // The completion registry in its own form
  // ---------------------------------------------------------------------------

  class Chan {
    var closed: bool
    constructor (closed: bool)
      ensures this.closed == closed
    {
      this.closed := closed;
    }
  }

  class Completion {
    var completions: map<nat, Chan>
    var lastCompletedID: nat
    const closedCh: Chan
    /** Every channel handed out that may still have to be closed. */
    ghost var open: set<Chan>

    ghost predicate Valid()
      reads this, closedCh, open
    {
      && closedCh.closed && closedCh !in open
      && (forall k :: k in completions ==> completions[k] in open && !completions[k].closed && k > lastCompletedID)
      && (forall j, k :: j in completions && k in completions && j != k ==> completions[j] != completions[k])
    }

    constructor ()
      ensures Valid() && completions == map[] && lastCompletedID == 0
    {
      var ch := new Chan(true);
      closedCh := ch;
      completions, lastCompletedID, open := map[], 0, {};
    }

    /** The channel is closed exactly if the id is completed; otherwise it is registered under the id. */
    method AcquireCompletionChan(id: nat) returns (ch: Chan)
      requires Valid()
      modifies this`completions, this`open
      ensures Valid()
      ensures ch.closed <==> lastCompletedID >= id
      ensures completions.Keys == if lastCompletedID >= id then old(completions.Keys) else old(completions.Keys) + {id}
      ensures !ch.closed ==> completions[id] == ch
      ensures forall k :: k in old(completions) ==> completions[k] == old(completions)[k]
    {
      if lastCompletedID >= id { return closedCh; }
      if id in completions {
        ch := completions[id];
      } else {
        ch := new Chan(false);
        completions := completions[id := ch];
        open := open + {ch};
      }
    }

    /** Closes every registered channel up to `id`, once, and forgets it. */
    method MarkCompleted(id: nat)
      requires Valid()
      modifies this`completions, this`lastCompletedID, open
      ensures Valid() && lastCompletedID == id
      ensures forall k :: k in completions <==> k in old(completions) && k > id
      ensures forall k :: k in completions ==> completions[k] == old(completions)[k]
      ensures forall k :: k in old(completions) ==> (old(completions)[k].closed <==> k <= id)
    {
      lastCompletedID := id;
      var todo := completions.Keys;
      while todo != {}
        invariant todo <= old(completions).Keys && lastCompletedID == id && closedCh.closed
        invariant forall k :: k in completions <==> k in old(completions) && (k in todo || k > id)
        invariant forall k :: k in completions ==> completions[k] == old(completions)[k]
        invariant forall k :: k in old(completions) ==> (old(completions)[k].closed <==> k !in todo && k <= id)
        decreases todo
      {
        var k :| k in todo;
        todo := todo - {k};
        if k <= id {
          var v := completions[k];
          completions := completions - {k};
          v.closed := true;
        }
      }
    }
  }
}
