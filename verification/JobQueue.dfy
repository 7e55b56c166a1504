/**
 The job queue of the multi-raft store: a job of a group goes to the shard of the group, whose one worker
 takes jobs from a blocking queue in batches and runs each batch before it takes the next.

 The processes of a shard are those of its queue; process 0 is the worker.
 */
module JobQueue {
  import opened Common
  import B = BlockingQueue

  const MAX_BATCH_SIZE: B.Want := 256

  datatype Job = Job(group: nat, body: nat)

  /** `ran` are the jobs that were run, `next` the worker's place in its batch. */
  datatype Shard = Shard(queue: B.Queue<Job>, ran: seq<Job>, next: nat)

  datatype Event = Put(p: nat, job: Job) | Get | InQueue(e: B.Event<Job>) | RunJob

  function Index(group: nat, shardNum: nat): nat
    requires shardNum > 0
  {
    group % shardNum
  }

  /** What the worker has taken and not run. */
  function Rest(s: Shard): seq<Job> {
    if s.queue.procs != [] && s.queue.procs[0].Got? && s.next <= |s.queue.procs[0].xs|
    then s.queue.procs[0].xs[s.next..] else []
  }

  function Queued(s: Shard, e: B.Event<Job>): Option<Shard> {
    match B.Next(s.queue, e)
    case None => None
    case Some(q) => Some(s.(queue := q))
  }

  function Next(s: Shard, e: Event, index: nat, shardNum: nat): Option<Shard>
    requires shardNum > 0
  {
    if s.queue.procs == [] then None
    else
      var worker := s.queue.procs[0];
      match e
      case Put(p, job) =>
        if p == 0 || Index(job.group, shardNum) != index then None else Queued(s, B.StartPut(p, job, []))
      case Get =>
        if worker.Idle? || (worker.Got? && s.next == |worker.xs|)
        then Queued(s.(next := 0), B.StartPoll(0, MAX_BATCH_SIZE)) else None
      case InQueue(e) => if e.Step? || e.Dispose? then Queued(s, e) else None
      case RunJob =>
        if worker.Got? && s.next < |worker.xs| then Some(s.(ran := s.ran + [worker.xs[s.next]], next := s.next + 1)) else None
  }

  function Run(s: Shard, es: seq<Event>, index: nat, shardNum: nat): Option<Shard>
    requires shardNum > 0
    decreases |es|
  {
    if es == [] then Some(s)
    else
      var r := Next(s, es[0], index, shardNum);
      if r.None? then None else Run(r.value, es[1..], index, shardNum)
  }

  function Init(procNum: nat): Shard { Shard(B.Init(procNum + 1), [], 0) }

  predicate Puts(p: B.Proc<Job>) {
    p.Idle? || p.PutLock? || p.PutLoop? || p.PutAwait? || p.Failed?
  }

  /** Only the worker polls, and it does nothing else. */
  ghost predicate OnlyWorkerPolls(q: B.Queue<Job>) {
    && (forall p :: 0 < p < |q.procs| ==> Puts(q.procs[p]))
    && q.procs != [] && !q.procs[0].PutLock? && !q.procs[0].PutLoop? && !q.procs[0].PutAwait?
  }

  ghost predicate Routed(jobs: seq<Job>, index: nat, shardNum: nat)
    requires shardNum > 0
  {
    forall i :: 0 <= i < |jobs| ==> Index(jobs[i].group, shardNum) == index
  }

  /** The jobs put, and those of the puts that have not got the lock yet, are jobs of this shard. */
  ghost predicate RoutedPuts(q: B.Queue<Job>, index: nat, shardNum: nat)
    requires shardNum > 0
  {
    && Routed(q.put, index, shardNum)
    && forall p :: 0 <= p < |q.procs| && q.procs[p].PutLock? ==> Routed([q.procs[p].first] + q.procs[p].more, index, shardNum)
  }

  /** What was taken is what was run, followed by the rest of the worker's batch. */
  ghost predicate RanInOrder(s: Shard) {
    && s.queue.procs != []
    && (if s.queue.procs[0].Got? then s.next <= |s.queue.procs[0].xs| else s.next == 0 || s.queue.procs[0].Failed?)
    && s.queue.taken == s.ran + Rest(s)
  }

  ghost predicate Inv(s: Shard, index: nat, shardNum: nat)
    requires shardNum > 0
  {
    OnlyWorkerPolls(s.queue) && B.Conserved(s.queue) && RanInOrder(s) && RoutedPuts(s.queue, index, shardNum)
  }

  // ---------------------------------------------------------------- a step of a putter

  /** What a putter's step leaves as it was. */
  ghost predicate PutterMoved(q: B.Queue<Job>, t: B.Queue<Job>, p: nat) {
    && 0 < p < |q.procs| == |t.procs| && t.procs == q.procs[p := t.procs[p]]
    && Puts(t.procs[p]) && !t.procs[p].PutLock? && t.taken == q.taken
    && t.put == q.put + if q.procs[p].PutLock? && t.procs[p].PutLoop? then [q.procs[p].first] + q.procs[p].more else []
  }

  lemma PutterSteps(q: B.Queue<Job>, p: nat)
    requires 0 < p < |q.procs| && Puts(q.procs[p]) && B.StepProc(q, p).Some?
    ensures PutterMoved(q, B.StepProc(q, p).value, p)
  {
    var t := B.StepProc(q, p).value;
    assert q.put + [] == q.put;
    match q.procs[p]
    case PutLock(_, _) => assert t.procs == q.procs[p := t.procs[p]];
    case PutLoop => assert t.procs == q.procs[p := t.procs[p]];
    case PutAwait(_) => assert t.procs == q.procs[p := t.procs[p]];
    case _ =>
  }

  lemma PutterKeepsPolls(q: B.Queue<Job>, t: B.Queue<Job>, p: nat)
    requires OnlyWorkerPolls(q) && PutterMoved(q, t, p)
    ensures OnlyWorkerPolls(t)
  {
  }

  lemma PutterKeepsRan(s: Shard, t: B.Queue<Job>, p: nat)
    requires RanInOrder(s) && PutterMoved(s.queue, t, p)
    ensures RanInOrder(s.(queue := t))
  {
    assert t.procs[0] == s.queue.procs[0];
  }

  lemma PutterKeepsRouted(q: B.Queue<Job>, t: B.Queue<Job>, p: nat, index: nat, shardNum: nat)
    requires shardNum > 0 && RoutedPuts(q, index, shardNum) && PutterMoved(q, t, p)
    ensures RoutedPuts(t, index, shardNum)
  {
    var k := q.procs[p];
    if k.PutLock? { RoutedAppend(q.put, [k.first] + k.more, index, shardNum); }
  }

  lemma RoutedAppend(a: seq<Job>, b: seq<Job>, index: nat, shardNum: nat)
    requires shardNum > 0 && Routed(a, index, shardNum) && Routed(b, index, shardNum)
    ensures Routed(a + b, index, shardNum)
  {
  }

  // ---------------------------------------------------------------- a step of the worker

  /** The worker waits, gives up or takes a batch; nothing is put. */
  ghost predicate WorkerMoved(q: B.Queue<Job>, t: B.Queue<Job>) {
    && |t.procs| == |q.procs| > 0 && t.procs == q.procs[0 := t.procs[0]]
    && !Puts(q.procs[0]) && !q.procs[0].Got? && t.put == q.put
    && !t.procs[0].Idle? && (Puts(t.procs[0]) ==> t.procs[0].Failed?)
    && t.taken == q.taken + if t.procs[0].Got? then t.procs[0].xs else []
  }

  lemma WorkerSteps(q: B.Queue<Job>)
    requires OnlyWorkerPolls(q) && B.StepProc(q, 0).Some?
    ensures WorkerMoved(q, B.StepProc(q, 0).value)
  {
    var t := B.StepProc(q, 0).value;
    assert q.taken + [] == q.taken;
    match q.procs[0]
    case PollLock(n) => assert t.procs == q.procs[0 := t.procs[0]];
    case Parked(_, _) => assert t.procs == q.procs[0 := t.procs[0]];
    case Woken(_, n) => assert t.procs == q.procs[0 := t.procs[0]];
    case TimedOut(_) => assert t.procs == q.procs[0 := t.procs[0]];
    case Unqueue(_) => assert t.procs == q.procs[0 := t.procs[0]];
    case _ =>
  }

  lemma WorkerKeepsRan(s: Shard, t: B.Queue<Job>)
    requires RanInOrder(s) && WorkerMoved(s.queue, t)
    ensures RanInOrder(s.(queue := t))
  {
    assert s.ran + [] == s.ran;
    if t.procs[0].Got? { assert t.procs[0].xs[0..] == t.procs[0].xs; }
  }

  lemma WorkerKeepsRest(q: B.Queue<Job>, t: B.Queue<Job>, index: nat, shardNum: nat)
    requires shardNum > 0 && OnlyWorkerPolls(q) && RoutedPuts(q, index, shardNum) && WorkerMoved(q, t)
    ensures OnlyWorkerPolls(t) && RoutedPuts(t, index, shardNum)
  {
  }

  // ---------------------------------------------------------------- every event

  lemma QueueKeepsInv(s: Shard, e: B.Event<Job>, index: nat, shardNum: nat)
    requires shardNum > 0 && Inv(s, index, shardNum) && (e.Step? || e.Dispose?) && B.Next(s.queue, e).Some?
    ensures Inv(s.(queue := B.Next(s.queue, e).value), index, shardNum)
  {
    B.NextConserves(s.queue, e);
    var t := B.Next(s.queue, e).value;
    if e.Step? {
      if e.p == 0 {
        WorkerSteps(s.queue);
        WorkerKeepsRan(s, t);
        WorkerKeepsRest(s.queue, t, index, shardNum);
      } else {
        PutterSteps(s.queue, e.p);
        PutterKeepsPolls(s.queue, t, e.p);
        PutterKeepsRan(s, t, e.p);
        PutterKeepsRouted(s.queue, t, e.p, index, shardNum);
      }
    }
  }

  lemma PutKeepsInv(s: Shard, p: nat, job: Job, index: nat, shardNum: nat)
    requires shardNum > 0 && Inv(s, index, shardNum) && Next(s, Put(p, job), index, shardNum).Some?
    ensures Inv(Next(s, Put(p, job), index, shardNum).value, index, shardNum)
  {
    B.NextConserves(s.queue, B.StartPut(p, job, []));
  }

  lemma GetKeepsInv(s: Shard, index: nat, shardNum: nat)
    requires shardNum > 0 && Inv(s, index, shardNum) && Next(s, Get, index, shardNum).Some?
    ensures Inv(Next(s, Get, index, shardNum).value, index, shardNum)
  {
    B.NextConserves(s.queue, B.StartPoll(0, MAX_BATCH_SIZE));
    assert Rest(s) == [] && s.ran + [] == s.ran;
  }

  lemma JobRan(s: Shard)
    requires RanInOrder(s) && s.queue.procs[0].Got? && s.next < |s.queue.procs[0].xs|
    ensures RanInOrder(s.(ran := s.ran + [s.queue.procs[0].xs[s.next]], next := s.next + 1))
  {
    var xs, k := s.queue.procs[0].xs, s.next;
    assert [xs[k]] + xs[k + 1..] == xs[k..];
    Assoc(s.ran, [xs[k]], xs[k + 1..]);
  }

  lemma RunJobKeepsInv(s: Shard, index: nat, shardNum: nat)
    requires shardNum > 0 && Inv(s, index, shardNum) && Next(s, RunJob, index, shardNum).Some?
    ensures Inv(Next(s, RunJob, index, shardNum).value, index, shardNum)
  {
    JobRan(s);
  }

  lemma NextKeepsInv(s: Shard, e: Event, index: nat, shardNum: nat)
    requires shardNum > 0 && Inv(s, index, shardNum) && Next(s, e, index, shardNum).Some?
    ensures Inv(Next(s, e, index, shardNum).value, index, shardNum)
  {
    match e
    case Put(p, job) => PutKeepsInv(s, p, job, index, shardNum);
    case Get => GetKeepsInv(s, index, shardNum);
    case InQueue(qe) => QueueKeepsInv(s, qe, index, shardNum);
    case RunJob => RunJobKeepsInv(s, index, shardNum);
  }

  lemma {:induction false} RunKeepsInv(s: Shard, es: seq<Event>, index: nat, shardNum: nat)
    requires shardNum > 0 && Inv(s, index, shardNum) && Run(s, es, index, shardNum).Some?
    ensures Inv(Run(s, es, index, shardNum).value, index, shardNum)
    decreases |es|
  {
    if es == [] {
    } else {
      NextKeepsInv(s, es[0], index, shardNum);
      RunKeepsInv(Next(s, es[0], index, shardNum).value, es[1..], index, shardNum);
    }
  }

  function OfGroup(jobs: seq<Job>, group: nat): seq<Job> {
    if jobs == [] then []
    else OfGroup(jobs[..|jobs| - 1], group) + if jobs[|jobs| - 1].group == group then [jobs[|jobs| - 1]] else []
  }

  lemma {:induction false} OfGroupAppend(a: seq<Job>, b: seq<Job>, group: nat)
    ensures OfGroup(a + b, group) == OfGroup(a, group) + OfGroup(b, group)
    decreases |b|
  {
    if b == [] {
      assert a + b == a;
    } else {
      OfGroupAppend(a, b[..|b| - 1], group);
      assert (a + b)[..|a + b| - 1] == a + b[..|b| - 1];
    }
  }

  lemma {:induction false} OfOtherGroup(jobs: seq<Job>, group: nat, index: nat, shardNum: nat)
    requires shardNum > 0 && Routed(jobs, index, shardNum) && Index(group, shardNum) != index
    ensures OfGroup(jobs, group) == []
  {
    if jobs == [] {
    } else {
      OfOtherGroup(jobs[..|jobs| - 1], group, index, shardNum);
    }
  }

  /**
   Along every interleaving of puts, the worker and disposal: the jobs of a group that were run, those in the
   worker's hands, those Dispose dropped and those still queued are the jobs put for the group, in that order,
   so that each runs at most once and in the order of the puts; and another shard runs none of them.
   */
  lemma JobsInOrder(procNum: nat, es: seq<Event>, index: nat, shardNum: nat, group: nat)
    requires shardNum > 0 && Run(Init(procNum), es, index, shardNum).Some?
    ensures var s := Run(Init(procNum), es, index, shardNum).value;
            && OfGroup(s.queue.put, group)
               == OfGroup(s.ran, group) + OfGroup(Rest(s), group) + OfGroup(s.queue.discarded + s.queue.items, group)
            && (Index(group, shardNum) != index ==> OfGroup(s.ran, group) == [])
  {
    RunKeepsInv(Init(procNum), es, index, shardNum);
    var s := Run(Init(procNum), es, index, shardNum).value;
    OfGroupAppend(s.ran, Rest(s), group);
    OfGroupAppend(s.queue.taken, s.queue.discarded + s.queue.items, group);
    if Index(group, shardNum) != index { OfOtherGroup(s.queue.put, group, index, shardNum); }
  }

  /** The shards share the groups out: the group ids of a block of `shardNum` go to the shards 0, 1, ... in turn. */
  lemma GroupsAreSharedOut(block: nat, k: nat, shardNum: nat)
    requires k < shardNum
    ensures Index(block * shardNum + k, shardNum) == k
  {
    var g := block * shardNum + k;
    var q, r := g / shardNum, g % shardNum;
    assert g == q * shardNum + r;
    if q < block { Scaled(q + 1, block, shardNum); }
    if q > block { Scaled(block + 1, q, shardNum); }
  }

  lemma Scaled(a: nat, b: nat, n: nat)
    requires a <= b
    ensures a * n <= b * n
  {
  }

  // ---------------------------------------------------------------- the size of a batch

  /** The worker asks for a full batch, whenever it asks. */
  predicate AsksForBatch(p: B.Proc<Job>) {
    p.PollLock? || p.Parked? || p.Woken? || p.Got? ==> p.n == MAX_BATCH_SIZE
  }

  ghost predicate BatchInv(s: Shard) {
    B.Inv(s.queue) && B.GotRight(s.queue) && s.queue.procs != [] && AsksForBatch(s.queue.procs[0])
  }

  lemma WorkerAsks(q: B.Queue<Job>, p: nat)
    requires q.procs != [] && AsksForBatch(q.procs[0]) && p < |q.procs| && B.StepProc(q, p).Some?
    ensures var t := B.StepProc(q, p).value; t.procs != [] && AsksForBatch(t.procs[0])
  {
    B.StepMovesOne(q, p);
    var t := B.StepProc(q, p).value;
    if p == 0 {
      match q.procs[0]
      case PollLock(n) => assert AsksForBatch(t.procs[0]);
      case Parked(_, n) => assert AsksForBatch(t.procs[0]);
      case Woken(_, n) => assert AsksForBatch(t.procs[0]);
      case _ =>
    } else {
      assert t.procs[0] == q.procs[0];
    }
  }

  lemma NextKeepsBatch(s: Shard, e: Event, index: nat, shardNum: nat)
    requires shardNum > 0 && BatchInv(s) && Next(s, e, index, shardNum).Some?
    ensures BatchInv(Next(s, e, index, shardNum).value)
  {
    match e
    case Put(p, job) => B.NextKeepsInv(s.queue, B.StartPut(p, job, []));
    case Get => B.NextKeepsInv(s.queue, B.StartPoll(0, MAX_BATCH_SIZE));
    case InQueue(qe) =>
      B.NextKeepsInv(s.queue, qe);
      if qe.Step? {
        B.StepGotRight(s.queue, qe.p);
        WorkerAsks(s.queue, qe.p);
      }
    case RunJob =>
  }

  lemma {:induction false} RunKeepsBatch(s: Shard, es: seq<Event>, index: nat, shardNum: nat)
    requires shardNum > 0 && BatchInv(s) && Run(s, es, index, shardNum).Some?
    ensures BatchInv(Run(s, es, index, shardNum).value)
    decreases |es|
  {
    if es == [] {
    } else {
      NextKeepsBatch(s, es[0], index, shardNum);
      RunKeepsBatch(Next(s, es[0], index, shardNum).value, es[1..], index, shardNum);
    }
  }

  /** Over every run the worker's batch fits its buffer of 256 jobs. */
  lemma BatchFits(procNum: nat, es: seq<Event>, index: nat, shardNum: nat)
    requires shardNum > 0 && Run(Init(procNum), es, index, shardNum).Some?
    ensures var q := Run(Init(procNum), es, index, shardNum).value.queue;
            q.procs != [] && (q.procs[0].Got? ==> 0 < |q.procs[0].xs| <= 256)
  {
    RunKeepsBatch(Init(procNum), es, index, shardNum);
  }
}
