/**
 The blocking queue: `Put` hands items to waiting pollers while it holds the lock.

 A poller that finds the queue empty leaves a semaphore and sleeps. `Put` appends its items, takes
 one semaphore after the other, wakes its poller and waits for the response before it goes on; the
 poller takes its items under the lock of the `Put` that woke it. A poller whose timeout fires
 races with that. Every step between two of these points is a step of its own here.
 */
module BlockingQueue {
  import opened Common

  /** `ready` is the one-slot channel, `response` the counter of the wait group. */
  datatype Sema = Sema(ready: bool, response: int)

  /** `Poll` asks for at least one item; asking for none returns at once. */
  type Want = n: nat | n > 0 witness 1

  /** A `Put` brings at least one item; bringing none returns at once. */
  datatype Proc<T> =
    | Idle
    | PutLock(first: T, more: seq<T>)
    | PutLoop
    | PutAwait(s: nat)
    | PollLock(n: Want)
    | Parked(s: nat, n: Want)
    | Woken(s: nat, n: Want)
    | TimedOut(s: nat)
    | Unqueue(s: nat)
    | Got(n: Want, xs: seq<T>)
    | Failed

  /** `put`, `taken` and `discarded` record the items that went in, out, and out through `Dispose`. */
  datatype Queue<T> = Queue(
    lock: Option<nat>,
    items: seq<T>,
    waiters: seq<nat>,
    semas: seq<Sema>,
    disposed: bool,
    procs: seq<Proc<T>>,
    put: seq<T>,
    taken: seq<T>,
    discarded: seq<T>)

  datatype Event<T> = StartPut(p: nat, first: T, more: seq<T>) | StartPoll(p: nat, n: Want) | Step(p: nat) | Timeout(p: nat) | Dispose

  function Init<T>(procNum: nat): Queue<T> {
    Queue(None, [], [], [], false, seq(procNum, i => Idle), [], [], [])
  }

  function Moved<T>(q: Queue<T>, p: nat, v: Proc<T>): Queue<T>
    requires p < |q.procs|
  {
    q.(procs := q.procs[p := v])
  }

  /** The first `n` items, or all of them. */
  function First<T>(items: seq<T>, n: nat): (r: seq<T>)
    ensures |r| == (if n < |items| then n else |items|) && r == items[..|r|]
  {
    if n < |items| then items[..n] else items
  }

  function Take<T>(q: Queue<T>, p: nat, n: Want): Queue<T>
    requires p < |q.procs|
  {
    var xs := First(q.items, n);
    Moved(q, p, Got(n, xs)).(items := q.items[|xs|..], taken := q.taken + xs)
  }

  /** `Put` has been round its loop: it stops when there is nothing left to hand over. */
  function PutAgain<T>(q: Queue<T>, p: nat): Queue<T>
    requires p < |q.procs|
  {
    if q.items == [] then Moved(q, p, Idle).(lock := None) else Moved(q, p, PutLoop)
  }

  function WithoutWaiter(ws: seq<nat>, s: nat): seq<nat> {
    if ws == [] then [] else if ws[0] == s then WithoutWaiter(ws[1..], s) else [ws[0]] + WithoutWaiter(ws[1..], s)
  }

  function StepProc<T>(q: Queue<T>, p: nat): Option<Queue<T>>
    requires p < |q.procs|
  {
    match q.procs[p]
    case PutLock(x, more) =>
      if q.lock.Some? then None
      else if q.disposed then Some(Moved(q, p, Failed))
      else Some(Moved(q, p, PutLoop).(lock := Some(p), items := q.items + ([x] + more), put := q.put + ([x] + more)))
    case PutLoop =>
      if q.waiters == [] then Some(Moved(q, p, Idle).(lock := None))
      else
        var s := q.waiters[0];
        if s >= |q.semas| then None
        else
          var sema := q.semas[s];
          var r := q.(waiters := q.waiters[1..], semas := q.semas[s := Sema(true, sema.response + 1)]);
          if sema.ready then Some(PutAgain(r, p)) else Some(Moved(r, p, PutAwait(s)))
    case PutAwait(s) =>
      if s >= |q.semas| || q.semas[s].response != 0 then None else Some(PutAgain(q, p))
    case PollLock(n) =>
      if q.lock.Some? then None
      else if q.disposed then Some(Moved(q, p, Failed))
      else if q.items == [] then
        Some(Moved(q, p, Parked(|q.semas|, n)).(waiters := q.waiters + [|q.semas|], semas := q.semas + [Sema(false, 0)]))
      else Some(Take(q, p, n))
    case Parked(s, n) =>
      if s >= |q.semas| || !q.semas[s].ready then None
      else Some(Moved(q, p, Woken(s, n)).(semas := q.semas[s := q.semas[s].(ready := false)]))
    case Woken(s, n) =>
      if s >= |q.semas| then None
      else if q.disposed then Some(Moved(q, p, Failed))
      else Some(Take(q, p, n).(semas := q.semas[s := q.semas[s].(response := q.semas[s].response - 1)]))
    case TimedOut(s) =>
      if s >= |q.semas| then None
      else if !q.semas[s].ready then Some(Moved(q, p, Unqueue(s)).(semas := q.semas[s := q.semas[s].(ready := true)]))
      else Some(Moved(q, p, Failed).(semas := q.semas[s := q.semas[s].(response := q.semas[s].response - 1)]))
    case Unqueue(s) =>
      if q.lock.Some? then None else Some(Moved(q, p, Failed).(waiters := WithoutWaiter(q.waiters, s)))
    case _ => None
  }

  function Next<T>(q: Queue<T>, e: Event<T>): Option<Queue<T>> {
    match e
    case StartPut(p, x, more) =>
      if p < |q.procs| && (q.procs[p].Idle? || q.procs[p].Got? || q.procs[p].Failed?)
      then Some(Moved(q, p, PutLock(x, more))) else None
    case StartPoll(p, n) =>
      if p < |q.procs| && (q.procs[p].Idle? || q.procs[p].Got? || q.procs[p].Failed?)
      then Some(Moved(q, p, PollLock(n))) else None
    case Step(p) => if p < |q.procs| then StepProc(q, p) else None
    case Timeout(p) =>
      if p < |q.procs| && q.procs[p].Parked? then Some(Moved(q, p, TimedOut(q.procs[p].s))) else None
    case Dispose =>
      if q.lock.Some? then None
      else Some(q.(disposed := true, items := [], waiters := [], discarded := q.discarded + q.items,
                   semas := seq(|q.semas|, i requires 0 <= i < |q.semas| =>
                              if i in q.waiters then Sema(true, q.semas[i].response + 1) else q.semas[i])))
  }

  function Run<T>(q: Queue<T>, es: seq<Event<T>>): Option<Queue<T>>
    decreases |es|
  {
    if es == [] then Some(q)
    else
      var r := Next(q, es[0]);
      if r.None? then None else Run(r.value, es[1..])
  }

  // ---------------------------------------------------------------------------
  // First in, first out
  // ---------------------------------------------------------------------------

  ghost predicate Conserved<T>(q: Queue<T>) {
    && q.put == q.taken + (q.discarded + q.items)
    && (if q.disposed then q.items == [] else q.discarded == [])
  }

  lemma NextConserves<T>(q: Queue<T>, e: Event<T>)
    requires Conserved(q) && Next(q, e).Some?
    ensures Conserved(Next(q, e).value)
  {
    if e.Step? {
      match q.procs[e.p]
      case PollLock(n) => TakeConserves(q, e.p, n);
      case Woken(_, n) => TakeConserves(q, e.p, n);
      case _ =>
    }
  }

  lemma TakeConserves<T>(q: Queue<T>, p: nat, n: Want)
    requires Conserved(q) && p < |q.procs|
    ensures Conserved(Take(q, p, n))
  {
    var xs := First(q.items, n);
    var rest := q.items[|xs|..];
    assert q.items == xs + rest;
    if q.disposed {
      assert xs == [] && q.taken + xs == q.taken;
    } else {
      assert q.discarded + q.items == q.items && q.discarded + rest == rest;
      assert q.taken + (xs + rest) == (q.taken + xs) + rest;
    }
  }

  /** Along every interleaving of puts, polls, timeouts and disposal, the items taken, then those returned
      by Dispose, then those left, are the items put, in order. */
  lemma {:induction false} FirstInFirstOut<T>(q: Queue<T>, es: seq<Event<T>>)
    requires Conserved(q) && Run(q, es).Some?
    ensures Conserved(Run(q, es).value)
    decreases |es|
  {
    if es == [] {
    } else {
      NextConserves(q, es[0]);
      FirstInFirstOut(Next(q, es[0]).value, es[1..]);
    }
  }

  // ---------------------------------------------------------------------------
  // The hand-off
  // ---------------------------------------------------------------------------

  /** The semaphore a poller still cares about. */
  function SemaOf<T>(p: Proc<T>): Option<nat> {
    match p
    case Parked(s, _) => Some(s)
    case Woken(s, _) => Some(s)
    case TimedOut(s) => Some(s)
    case Unqueue(s) => Some(s)
    case _ => None
  }

  /** The `Put` that holds the lock waits for the response of `s`. */
  predicate Awaited<T>(q: Queue<T>, s: nat) {
    q.lock.Some? && q.lock.value < |q.procs| && q.procs[q.lock.value] == PutAwait(s)
  }

  predicate PollerOk<T>(q: Queue<T>, p: Proc<T>) {
    SemaOf(p).Some? ==>
      var s := SemaOf(p).value;
      && s < |q.semas|
      && (!q.disposed ==>
            match p
            case Woken(_, _) => s !in q.waiters && q.semas[s] == Sema(false, 1) && Awaited(q, s)
            case Unqueue(_) => q.semas[s].ready && !Awaited(q, s)
            case _ => || (s in q.waiters && q.semas[s] == Sema(false, 0) && !Awaited(q, s))
                      || (s !in q.waiters && q.semas[s] == Sema(true, 1) && Awaited(q, s)))
  }

  ghost predicate LockOk<T>(q: Queue<T>) {
    && (forall p :: 0 <= p < |q.procs| ==> (Putting(q.procs[p]) <==> q.lock == Some(p)))
    && (q.lock.Some? ==> q.lock.value < |q.procs| && !q.disposed)
  }

  predicate PolledBy<T>(q: Queue<T>, s: nat, p: int) {
    0 <= p < |q.procs| && SemaOf(q.procs[p]) == Some(s)
  }

  /** With the lock free there is never both an item and a waiter; a `Put` in its loop has an item to
      hand over, and so has a `Put` whose response is outstanding, whose poller is on its way. */
  ghost predicate HandOff<T>(q: Queue<T>)
    requires LockOk(q)
  {
    match q.lock
    case None => q.items == [] || q.waiters == []
    case Some(p) =>
      match q.procs[p]
      case PutAwait(s) =>
        && s < |q.semas| && s !in q.waiters
        && (|| q.semas[s].response == 0
            || (q.semas[s].response == 1 && q.items != [] && exists r :: PolledBy(q, s, r) && !q.procs[r].Unqueue?))
      case _ => q.items != []
  }

  ghost predicate SemasApart<T>(q: Queue<T>) {
    && Distinct(q.waiters)
    && (forall i :: 0 <= i < |q.waiters| ==> q.waiters[i] < |q.semas| && (!q.disposed ==> exists p :: PolledBy(q, q.waiters[i], p)))
    && (forall s, i, j :: i != j && PolledBy(q, s, i) ==> !PolledBy(q, s, j))
  }

  ghost predicate Inv<T>(q: Queue<T>) {
    && LockOk(q) && HandOff(q) && SemasApart(q)
    && (forall p :: 0 <= p < |q.procs| ==> PollerOk(q, q.procs[p]))
  }

  predicate Putting<T>(p: Proc<T>) { p.PutLoop? || p.PutAwait? }

  /** Only the process that moves can take or give up the lock. */
  lemma LockAfter<T>(q: Queue<T>, t: Queue<T>, p: nat)
    requires LockOk(q) && OneMoved(q, t, p)
    requires t.disposed == q.disposed && (t.lock.Some? ==> !t.disposed)
    requires Putting(t.procs[p]) <==> t.lock == Some(p)
    requires t.lock == q.lock || (q.lock.None? && t.lock == Some(p)) || (q.lock == Some(p) && t.lock.None?)
    ensures LockOk(t)
  {}

  lemma StepKeepsLock<T>(q: Queue<T>, p: nat)
    requires LockOk(q) && p < |q.procs| && StepProc(q, p).Some?
    ensures LockOk(StepProc(q, p).value)
  {
    var t := StepProc(q, p).value;
    StepMovesOne(q, p);
    match q.procs[p]
    case PutLock(_, _) => LockAfter(q, t, p);
    case PutLoop => LockAfter(q, t, p);
    case PutAwait(_) => LockAfter(q, t, p);
    case _ => LockAfter(q, t, p);
  }

  lemma NextKeepsLock<T>(q: Queue<T>, e: Event<T>)
    requires LockOk(q) && Next(q, e).Some?
    ensures LockOk(Next(q, e).value)
  {
    match e
    case Step(p) => StepKeepsLock(q, p);
    case Dispose =>
    case _ => LockAfter(q, Next(q, e).value, e.p);
  }

  lemma {:induction false} WithoutWaiterFrom(ws: seq<nat>, s: nat)
    requires Distinct(ws)
    ensures Distinct(WithoutWaiter(ws, s))
    ensures forall x :: x in WithoutWaiter(ws, s) <==> x in ws && x != s
  {
    if ws == [] {
    } else {
      assert forall i :: 0 <= i < |ws[1..]| ==> ws[1..][i] == ws[i + 1] && ws[1..][i] != ws[0];
      WithoutWaiterFrom(ws[1..], s);
      assert ws == [ws[0]] + ws[1..];
      assert ws[0] !in WithoutWaiter(ws[1..], s);
    }
  }

  /** The process `p` moved and, unless it is said otherwise, took its semaphore along. */
  ghost predicate OneMoved<T>(q: Queue<T>, t: Queue<T>, p: nat) {
    p < |q.procs| == |t.procs| && t.procs == q.procs[p := t.procs[p]]
  }

  lemma SameSemas<T>(q: Queue<T>, t: Queue<T>, p: nat)
    requires SemasApart(q) && OneMoved(q, t, p) && SemaOf(t.procs[p]) == SemaOf(q.procs[p])
    requires |t.semas| == |q.semas| && t.disposed == q.disposed
    requires t.waiters == q.waiters || (q.waiters != [] && t.waiters == q.waiters[1..])
    ensures SemasApart(t)
  {
    assert forall s, r :: PolledBy(q, s, r) <==> PolledBy(t, s, r);
    var k := |q.waiters| - |t.waiters|;
    forall i | 0 <= i < |t.waiters|
      ensures t.waiters[i] < |t.semas| && (!t.disposed ==> exists r :: PolledBy(t, t.waiters[i], r))
    {
      assert t.waiters[i] == q.waiters[i + k];
    }
  }

  lemma Parking<T>(q: Queue<T>, t: Queue<T>, p: nat)
    requires SemasApart(q) && OneMoved(q, t, p) && SemaOf(q.procs[p]).None? && SemaOf(t.procs[p]) == Some(|q.semas|)
    requires |t.semas| == |q.semas| + 1 && t.disposed == q.disposed && t.waiters == q.waiters + [|q.semas|]
    requires forall r :: 0 <= r < |q.procs| && SemaOf(q.procs[r]).Some? ==> SemaOf(q.procs[r]).value < |q.semas|
    ensures SemasApart(t)
  {
    assert PolledBy(t, |q.semas|, p);
    forall s: nat, r | PolledBy(q, s, r)
      ensures PolledBy(t, s, r) && s < |q.semas|
    {}
    assert forall s, r :: PolledBy(t, s, r) && r != p ==> PolledBy(q, s, r);
  }

  /** A poller that is done leaves no semaphore of its own among the waiters. */
  lemma Leaving<T>(q: Queue<T>, t: Queue<T>, p: nat)
    requires SemasApart(q) && OneMoved(q, t, p) && SemaOf(q.procs[p]).Some? && SemaOf(t.procs[p]).None?
    requires |t.semas| == |q.semas| && t.disposed == q.disposed && Distinct(t.waiters)
    requires forall x :: x in t.waiters ==> x in q.waiters && (x != SemaOf(q.procs[p]).value || q.disposed)
    ensures SemasApart(t)
  {
    assert forall x, r :: PolledBy(t, x, r) ==> PolledBy(q, x, r);
    forall i | 0 <= i < |t.waiters|
      ensures t.waiters[i] < |t.semas| && (!t.disposed ==> exists r :: PolledBy(t, t.waiters[i], r))
    {
      var x := t.waiters[i];
      assert x in t.waiters;
      var k :| 0 <= k < |q.waiters| && q.waiters[k] == x;
      if !t.disposed {
        var r :| PolledBy(q, x, r);
        assert PolledBy(t, x, r);
      }
    }
  }

  lemma PollLockKeepsSemas<T>(q: Queue<T>, p: nat)
    requires SemasApart(q) && p < |q.procs| && StepProc(q, p).Some? && q.procs[p].PollLock?
    requires forall r :: 0 <= r < |q.procs| ==> PollerOk(q, q.procs[r])
    ensures SemasApart(StepProc(q, p).value)
  {
    var t := StepProc(q, p).value;
    if SemaOf(t.procs[p]).Some? {
      forall r | 0 <= r < |q.procs| && SemaOf(q.procs[r]).Some?
        ensures SemaOf(q.procs[r]).value < |q.semas|
      {
        assert PollerOk(q, q.procs[r]);
      }
      Parking(q, t, p);
    } else {
      SameSemas(q, t, p);
    }
  }

  lemma PollerKeepsSemas<T>(q: Queue<T>, p: nat)
    requires SemasApart(q) && p < |q.procs| && StepProc(q, p).Some? && SemaOf(q.procs[p]).Some?
    requires PollerOk(q, q.procs[p])
    ensures SemasApart(StepProc(q, p).value)
  {
    var t := StepProc(q, p).value;
    if q.procs[p].Unqueue? {
      WithoutWaiterFrom(q.waiters, q.procs[p].s);
      Leaving(q, t, p);
    } else if SemaOf(t.procs[p]).Some? {
      SameSemas(q, t, p);
    } else {
      Leaving(q, t, p);
    }
  }

  lemma StepKeepsSemas<T>(q: Queue<T>, p: nat)
    requires SemasApart(q) && p < |q.procs| && StepProc(q, p).Some?
    requires forall r :: 0 <= r < |q.procs| ==> PollerOk(q, q.procs[r])
    ensures SemasApart(StepProc(q, p).value)
  {
    if q.procs[p].PollLock? {
      PollLockKeepsSemas(q, p);
    } else if SemaOf(q.procs[p]).Some? {
      PollerKeepsSemas(q, p);
    } else {
      SameSemas(q, StepProc(q, p).value, p);
    }
  }

  lemma NextKeepsSemas<T>(q: Queue<T>, e: Event<T>)
    requires Inv(q) && Next(q, e).Some?
    ensures SemasApart(Next(q, e).value)
  {
    var t := Next(q, e).value;
    match e
    case Dispose => assert forall s, r :: PolledBy(t, s, r) <==> PolledBy(q, s, r);
    case Step(p) => StepKeepsSemas(q, p);
    case StartPut(p, _, _) => SameSemas(q, t, p);
    case StartPoll(p, _) => SameSemas(q, t, p);
    case Timeout(p) => SameSemas(q, t, p);
  }

  /** The hand-off state of the queue after a step of a poller. */
  lemma PollerKeepsHandOff<T>(q: Queue<T>, p: nat)
    requires Inv(q) && p < |q.procs| && SemaOf(q.procs[p]).Some? && StepProc(q, p).Some?
    requires LockOk(StepProc(q, p).value)
    ensures HandOff(StepProc(q, p).value)
  {
    var t := StepProc(q, p).value;
    assert PollerOk(q, q.procs[p]);
    if q.procs[p].Unqueue? { WithoutWaiterFrom(q.waiters, q.procs[p].s); }
    if q.lock.Some? && q.procs[q.lock.value].PutAwait? {
      var s := q.procs[q.lock.value].s;
      if SemaOf(q.procs[p]) != Some(s) {
        forall r | PolledBy(q, s, r)
          ensures PolledBy(t, s, r) && t.procs[r] == q.procs[r]
        {}
      } else if q.procs[p].Parked? {
        assert PolledBy(t, s, p);
      }
    }
  }

  /** The `Put` that takes a semaphore whose poller has not given up waits for that poller. */
  lemma PutKeepsHandOff<T>(q: Queue<T>, p: nat)
    requires Inv(q) && p < |q.procs| && (q.procs[p].PutLoop? || q.procs[p].PutAwait? || q.procs[p].PutLock?)
    requires StepProc(q, p).Some? && LockOk(StepProc(q, p).value)
    ensures HandOff(StepProc(q, p).value)
  {
    var t := StepProc(q, p).value;
    if q.procs[p].PutLoop? && q.waiters != [] && !q.semas[q.waiters[0]].ready {
      var s := q.waiters[0];
      var r :| PolledBy(q, s, r);
      assert PollerOk(q, q.procs[r]);
      assert PolledBy(t, s, r) && r != p;
    }
  }

  lemma NextKeepsHandOff<T>(q: Queue<T>, e: Event<T>)
    requires Inv(q) && Next(q, e).Some? && LockOk(Next(q, e).value)
    ensures HandOff(Next(q, e).value)
  {
    var t := Next(q, e).value;
    if e.Step? && SemaOf(q.procs[e.p]).Some? {
      PollerKeepsHandOff(q, e.p);
    } else if e.Step? && !q.procs[e.p].PollLock? {
      PutKeepsHandOff(q, e.p);
    } else if e != Dispose {
      assert forall s, r :: PolledBy(q, s, r) ==> PolledBy(t, s, r);
      assert q.lock.Some? ==> t.lock == q.lock && t.procs[q.lock.value] == q.procs[q.lock.value];
    }
  }

  lemma PollerMoves<T>(q: Queue<T>, e: Event<T>, p: nat)
    requires Inv(q) && p < |q.procs| && (e == Step(p) || e == Timeout(p)) && Next(q, e).Some?
    ensures PollerOk(Next(q, e).value, Next(q, e).value.procs[p])
  {
    assert PollerOk(q, q.procs[p]);
  }

  /** What a poller relies on: its semaphore, whether it still waits in line, whether it is awaited. */
  lemma PollerFrame<T>(q: Queue<T>, t: Queue<T>, k: Proc<T>)
    requires PollerOk(q, k) && SemaOf(k).Some? && t.disposed == q.disposed
    requires var s := SemaOf(k).value;
             s < |t.semas| && t.semas[s] == q.semas[s] && (s in t.waiters <==> s in q.waiters)
             && (Awaited(t, s) <==> Awaited(q, s))
    ensures PollerOk(t, k)
  {}

  lemma PutLeavesPoller<T>(q: Queue<T>, p: nat, r: nat)
    requires Inv(q) && p < |q.procs| && r < |q.procs| && r != p && StepProc(q, p).Some?
    requires SemaOf(q.procs[r]).Some? && (Putting(q.procs[p]) || q.procs[p].PutLock?)
    ensures PollerOk(StepProc(q, p).value, q.procs[r])
  {
    var t := StepProc(q, p).value;
    var s := SemaOf(q.procs[r]).value;
    assert PollerOk(q, q.procs[r]);
    assert Putting(q.procs[p]) <==> q.lock == Some(p);
    match q.procs[p]
    case PutLoop =>
      if q.waiters != [] {
        assert q.waiters == [q.waiters[0]] + q.waiters[1..];
        assert q.waiters[0] !in q.waiters[1..];
      }
      if q.waiters == [] || s != q.waiters[0] { PollerFrame(q, t, q.procs[r]); }
    case PutLock(_, _) => PollerFrame(q, t, q.procs[r]);
    case PutAwait(_) =>
  }

  lemma PollLeavesPoller<T>(q: Queue<T>, p: nat, r: nat)
    requires Inv(q) && p < |q.procs| && r < |q.procs| && r != p && StepProc(q, p).Some?
    requires SemaOf(q.procs[r]).Some? && !Putting(q.procs[p]) && !q.procs[p].PutLock?
    ensures PollerOk(StepProc(q, p).value, q.procs[r])
  {
    var t := StepProc(q, p).value;
    var s := SemaOf(q.procs[r]).value;
    assert PollerOk(q, q.procs[r]);
    assert PolledBy(q, s, r) && !PolledBy(q, s, p);
    if q.procs[p].Unqueue? { WithoutWaiterFrom(q.waiters, q.procs[p].s); }
    assert t.lock == q.lock && q.lock != Some(p);
    PollerFrame(q, t, q.procs[r]);
  }

  lemma DisposeLeavesPoller<T>(q: Queue<T>, r: nat)
    requires Inv(q) && r < |q.procs| && Next(q, Dispose).Some?
    ensures PollerOk(Next(q, Dispose).value, q.procs[r])
  {
    assert PollerOk(q, q.procs[r]);
  }

  lemma StepKeepsPoller<T>(q: Queue<T>, p: nat, r: nat)
    requires Inv(q) && p < |q.procs| && StepProc(q, p).Some? && r < |q.procs|
    ensures OneMoved(q, StepProc(q, p).value, p)
    ensures PollerOk(StepProc(q, p).value, StepProc(q, p).value.procs[r])
  {
    StepMovesOne(q, p);
    if p == r {
      PollerMoves(q, Step(p), p);
    } else if SemaOf(q.procs[r]).Some? {
      if Putting(q.procs[p]) || q.procs[p].PutLock? { PutLeavesPoller(q, p, r); } else { PollLeavesPoller(q, p, r); }
    }
  }

  lemma StepMovesOne<T>(q: Queue<T>, p: nat)
    requires p < |q.procs| && StepProc(q, p).Some?
    ensures OneMoved(q, StepProc(q, p).value, p)
  {}

  lemma StepKeepsInv<T>(q: Queue<T>, p: nat)
    requires Inv(q) && p < |q.procs| && StepProc(q, p).Some?
    ensures Inv(StepProc(q, p).value)
  {
    StepKeepsLock(q, p);
    NextKeepsHandOff(q, Step(p));
    StepKeepsSemas(q, p);
    StepMovesOne(q, p);
    var t := StepProc(q, p).value;
    forall r | 0 <= r < |t.procs|
      ensures PollerOk(t, t.procs[r])
    {
      StepKeepsPoller(q, p, r);
    }
  }

  lemma OtherKeepsPoller<T>(q: Queue<T>, e: Event<T>, r: nat)
    requires Inv(q) && Next(q, e).Some? && r < |q.procs| && !e.Step?
    ensures var t := Next(q, e).value; |t.procs| == |q.procs| && PollerOk(t, t.procs[r])
  {
    if e == Dispose {
      DisposeLeavesPoller(q, r);
    } else if e.p == r {
      if e.Timeout? { PollerMoves(q, e, r); }
    } else if SemaOf(q.procs[r]).Some? {
      assert PollerOk(q, q.procs[r]);
      assert !Putting(q.procs[e.p]) && q.lock != Some(e.p);
      PollerFrame(q, Next(q, e).value, q.procs[r]);
    }
  }

  lemma OtherKeepsInv<T>(q: Queue<T>, e: Event<T>)
    requires Inv(q) && Next(q, e).Some? && !e.Step?
    ensures Inv(Next(q, e).value)
  {
    NextKeepsLock(q, e);
    NextKeepsHandOff(q, e);
    NextKeepsSemas(q, e);
    var t := Next(q, e).value;
    forall r | 0 <= r < |t.procs|
      ensures PollerOk(t, t.procs[r])
    {
      OtherKeepsPoller(q, e, r);
    }
  }

  lemma NextKeepsInv<T>(q: Queue<T>, e: Event<T>)
    requires Inv(q) && Next(q, e).Some?
    ensures Inv(Next(q, e).value)
  {
    if e.Step? { StepKeepsInv(q, e.p); } else { OtherKeepsInv(q, e); }
  }

  lemma {:induction false} RunKeepsInv<T>(q: Queue<T>, es: seq<Event<T>>)
    requires Inv(q) && Run(q, es).Some?
    ensures Inv(Run(q, es).value)
    decreases |es|
  {
    if es == [] {
    } else {
      NextKeepsInv(q, es[0]);
      RunKeepsInv(Next(q, es[0]).value, es[1..]);
    }
  }

  /** Over every interleaving: items come out in the order in which they went in; with the lock free
      there is never both an item and a waiter; and a poller that was woken, unless the queue was
      disposed of, finds an item. */
  lemma HandOffWorks<T>(procNum: nat, es: seq<Event<T>>)
    requires Run(Init<T>(procNum), es).Some?
    ensures var q := Run(Init<T>(procNum), es).value;
            && (!q.disposed ==> q.put == q.taken + q.items)
            && (q.lock.None? ==> q.items == [] || q.waiters == [])
            && (forall p :: 0 <= p < |q.procs| && q.procs[p].Woken? && !q.disposed ==>
                  q.items != [] && First(q.items, q.procs[p].n) != [])
  {
    RunKeepsInv(Init<T>(procNum), es);
    FirstInFirstOut(Init<T>(procNum), es);
    var q := Run(Init<T>(procNum), es).value;
    if !q.disposed { assert q.discarded + q.items == q.items; }
    forall p | 0 <= p < |q.procs| && q.procs[p].Woken? && !q.disposed
      ensures q.items != []
    {
      assert PollerOk(q, q.procs[p]);
    }
  }

  /** A `Put` that waits for a response is never stuck: the response has come, or the poller it woke can
      take a step towards it. */
  lemma PutNeverStuck<T>(procNum: nat, es: seq<Event<T>>, p: nat)
    requires Run(Init<T>(procNum), es).Some?
    requires var q := Run(Init<T>(procNum), es).value; p < |q.procs| && q.procs[p].PutAwait?
    ensures var q := Run(Init<T>(procNum), es).value;
            || StepProc(q, p).Some?
            || exists r :: PolledBy(q, q.procs[p].s, r) && StepProc(q, r).Some?
  {
    RunKeepsInv(Init<T>(procNum), es);
    var q := Run(Init<T>(procNum), es).value;
    var s := q.procs[p].s;
    assert q.lock == Some(p);
    if q.semas[s].response != 0 {
      var r :| PolledBy(q, s, r) && !q.procs[r].Unqueue?;
      assert PollerOk(q, q.procs[r]);
    }
  }

  // ---------------------------------------------------------------------------
  // The response counters, and leaving a disposed queue
  // ---------------------------------------------------------------------------

  /** No wait group has been answered more often than it was asked; answering once more would panic. */
  ghost predicate NeverNegative<T>(q: Queue<T>) {
    forall s :: 0 <= s < |q.semas| ==> q.semas[s].response >= 0
  }

  /** A poller that Dispose found asleep, or caught by its timeout, has been released. */
  predicate ReleasedPoller<T>(q: Queue<T>, p: Proc<T>) {
    q.disposed && (p.Parked? || p.TimedOut?) ==>
      p.s < |q.semas| && q.semas[p.s].ready && q.semas[p.s].response >= 1
  }

  ghost predicate Answered<T>(q: Queue<T>) {
    NeverNegative(q) && forall p :: 0 <= p < |q.procs| ==> ReleasedPoller(q, q.procs[p])
  }

  /** A step takes back an answer only where one is due. */
  lemma StepCounts<T>(q: Queue<T>, p: nat)
    requires p < |q.procs| && StepProc(q, p).Some?
    requires NeverNegative(q) && PollerOk(q, q.procs[p]) && ReleasedPoller(q, q.procs[p])
    ensures NeverNegative(StepProc(q, p).value)
  {
    var t := StepProc(q, p).value;
    match q.procs[p]
    case Woken(s, _) => assert !q.disposed ==> q.semas[s].response == 1;
    case TimedOut(s) => assert q.semas[s].ready ==> q.semas[s].response >= 1;
    case _ =>
  }

  /** In a disposed queue a poller's step touches its own semaphore only. */
  lemma DisposedStep<T>(q: Queue<T>, p: nat, r: nat)
    requires Inv(q) && q.disposed && p < |q.procs| && r < |q.procs| && StepProc(q, p).Some?
    requires ReleasedPoller(q, q.procs[p]) && ReleasedPoller(q, q.procs[r])
    ensures var t := StepProc(q, p).value; |t.procs| == |q.procs| && ReleasedPoller(t, t.procs[r])
  {
    StepMovesOne(q, p);
    assert !Putting(q.procs[p]);
    if r != p && SemaOf(q.procs[r]).Some? {
      var s := SemaOf(q.procs[r]).value;
      assert PolledBy(q, s, r) && !PolledBy(q, s, p);
    }
  }

  lemma DisposeReleases<T>(q: Queue<T>)
    requires Inv(q) && Answered(q) && Next(q, Dispose).Some?
    ensures Answered(Next(q, Dispose).value)
  {
    var t := Next(q, Dispose).value;
    forall p | 0 <= p < |t.procs|
      ensures ReleasedPoller(t, t.procs[p])
    {
      assert PollerOk(q, q.procs[p]) && ReleasedPoller(q, q.procs[p]);
    }
  }

  lemma NextAnswered<T>(q: Queue<T>, e: Event<T>)
    requires Inv(q) && Answered(q) && Next(q, e).Some?
    ensures Answered(Next(q, e).value)
  {
    match e
    case Dispose => DisposeReleases(q);
    case Step(p) =>
      var t := Next(q, e).value;
      StepCounts(q, p);
      StepMovesOne(q, p);
      if q.disposed {
        forall r | 0 <= r < |t.procs|
          ensures ReleasedPoller(t, t.procs[r])
        {
          DisposedStep(q, p, r);
        }
      }
    case _ =>
  }

  lemma {:induction false} RunAnswered<T>(q: Queue<T>, es: seq<Event<T>>)
    requires Inv(q) && Answered(q) && Run(q, es).Some?
    ensures Inv(Run(q, es).value) && Answered(Run(q, es).value)
    decreases |es|
  {
    if es == [] {
    } else {
      NextAnswered(q, es[0]);
      NextKeepsInv(q, es[0]);
      RunAnswered(Next(q, es[0]).value, es[1..]);
    }
  }

  /** Over every run no counter falls below zero, and once the queue is disposed of nothing is stuck: every
      process that is in `Put` or `Poll` can step. */
  lemma DisposedReleasesAll<T>(procNum: nat, es: seq<Event<T>>)
    requires Run(Init<T>(procNum), es).Some?
    ensures var q := Run(Init<T>(procNum), es).value;
            && NeverNegative(q)
            && (q.disposed ==> forall p :: 0 <= p < |q.procs| ==>
                  q.procs[p].Idle? || q.procs[p].Got? || q.procs[p].Failed? || StepProc(q, p).Some?)
  {
    RunAnswered(Init<T>(procNum), es);
    var q := Run(Init<T>(procNum), es).value;
    forall p | q.disposed && 0 <= p < |q.procs|
      ensures q.procs[p].Idle? || q.procs[p].Got? || q.procs[p].Failed? || StepProc(q, p).Some?
    {
      assert PollerOk(q, q.procs[p]) && ReleasedPoller(q, q.procs[p]);
      assert !Putting(q.procs[p]) && q.lock.None?;
    }
  }

  // ---------------------------------------------------------------------------
  // What the callers get
  // ---------------------------------------------------------------------------

  /** `Poll` answers with the first items, as many as asked for, or all there are; the rest stays. */
  lemma PollTakes<T>(q: Queue<T>, p: nat, n: Want)
    requires p < |q.procs| && !q.disposed && StepProc(q, p).Some?
    requires (q.procs[p] == PollLock(n) && q.items != []) || (q.procs[p].Woken? && q.procs[p].n == n)
    ensures var k := if n <= |q.items| then n else |q.items|;
            var t := StepProc(q, p).value;
            t.procs[p] == Got(n, q.items[..k]) && t.items == q.items[k..] && t.taken == q.taken + q.items[..k]
  {
  }

  /** `Poll` on an empty queue goes to the end of the line. */
  lemma PollParks<T>(q: Queue<T>, p: nat, n: Want)
    requires p < |q.procs| && !q.disposed && q.procs[p] == PollLock(n) && q.items == [] && q.lock.None?
    ensures var t := StepProc(q, p);
            && t.Some? && t.value.procs[p].Parked? && t.value.waiters == q.waiters + [t.value.procs[p].s]
            && t.value.items == [] && t.value.taken == q.taken
  {
  }

  /** `Put` adds all its items at the end, and wakes the first in line. */
  lemma PutAppends<T>(q: Queue<T>, p: nat)
    requires p < |q.procs| && StepProc(q, p).Some?
    ensures var t := StepProc(q, p).value;
            && (q.procs[p].PutLock? && !q.disposed ==>
                  var xs := [q.procs[p].first] + q.procs[p].more;
                  t.items == q.items + xs && t.put == q.put + xs && t.lock == Some(p) && t.procs[p] == PutLoop)
            && (q.procs[p].PutLoop? && q.waiters != [] && q.waiters[0] < |q.semas| ==>
                  t.waiters == q.waiters[1..] && t.semas[q.waiters[0]].ready && t.items == q.items)
            && (q.procs[p].PutLoop? && q.waiters == [] ==> t.procs[p] == Idle && t.lock.None?)
  {
  }

  /** A call fails exactly if it finds the queue disposed of, or its timeout has fired. */
  lemma FailsIff<T>(q: Queue<T>, p: nat)
    requires p < |q.procs| && StepProc(q, p).Some?
    ensures StepProc(q, p).value.procs[p].Failed? <==>
            || (q.disposed && (q.procs[p].PutLock? || q.procs[p].PollLock? || q.procs[p].Woken?))
            || (q.procs[p].TimedOut? && q.semas[q.procs[p].s].ready)
            || q.procs[p].Unqueue?
  {
  }

  /** Dispose empties the queue and the line, and hands the items to its caller. */
  lemma DisposeTakesAll<T>(q: Queue<T>)
    requires Next(q, Dispose).Some?
    ensures var t := Next(q, Dispose).value;
            t.disposed && t.items == [] && t.waiters == [] && t.discarded == q.discarded + q.items && t.procs == q.procs
  {
  }

  /** A poller that got an answer got at least one item, and no more than it asked for. */
  ghost predicate GotRight<T>(q: Queue<T>) {
    forall p :: 0 <= p < |q.procs| && q.procs[p].Got? ==> 0 < |q.procs[p].xs| <= q.procs[p].n
  }

  lemma StepGotRight<T>(q: Queue<T>, p: nat)
    requires Inv(q) && GotRight(q) && p < |q.procs| && StepProc(q, p).Some?
    ensures GotRight(StepProc(q, p).value)
  {
    StepMovesOne(q, p);
    assert PollerOk(q, q.procs[p]);
    if q.procs[p].Woken? && !q.disposed { assert q.items != []; }
    var t := StepProc(q, p).value;
    assert t.procs[p].Got? ==> (q.procs[p].PollLock? && q.items != []) || q.procs[p].Woken?;
    if t.procs[p].Got? { PollTakes(q, p, t.procs[p].n); }
  }

  lemma {:induction false} RunGotRight<T>(q: Queue<T>, es: seq<Event<T>>)
    requires Inv(q) && GotRight(q) && Run(q, es).Some?
    ensures GotRight(Run(q, es).value)
    decreases |es|
  {
    if es == [] {
    } else {
      NextKeepsInv(q, es[0]);
      if es[0].Step? { StepGotRight(q, es[0].p); }
      RunGotRight(Next(q, es[0]).value, es[1..]);
    }
  }

  /** Over every run. */
  lemma NoPollerGetsMore<T>(procNum: nat, es: seq<Event<T>>, p: nat)
    requires Run(Init<T>(procNum), es).Some?
    requires var q := Run(Init<T>(procNum), es).value; p < |q.procs| && q.procs[p].Got?
    ensures var q := Run(Init<T>(procNum), es).value; 0 < |q.procs[p].xs| <= q.procs[p].n
  {
    RunGotRight(Init<T>(procNum), es);
  }

  // ---------------------------------------------------------------------------
  // The loops over the slices
  // ---------------------------------------------------------------------------

  /** `items.get`: copies up to `n` items into the caller's slice and drops them. */
  method GetItems<T(0)>(items: seq<T>, n: nat, out: array<T>) returns (count: nat, rest: seq<T>)
    requires n <= out.Length
    modifies out
    ensures count == |First(items, n)| <= n
    ensures out[..count] == First(items, n) && rest == items[count..]
    ensures out[count..] == old(out[count..])
  {
    count := 0;
    var i := 0;
    while i < n && i < |items|
      invariant 0 <= i == count <= |items| && i <= n
      invariant out[..i] == items[..i] && out[i..] == old(out[i..])
    {
      out[i] := items[i];
      count := count + 1;
      i := i + 1;
    }
    rest := items[count..];
  }

  /** `waiters.remove`: copies all except the given semaphore. */
  method RemoveWaiter(ws: seq<nat>, s: nat) returns (r: seq<nat>)
    ensures r == WithoutWaiter(ws, s)
  {
    r := [];
    var i := 0;
    while i < |ws|
      invariant 0 <= i <= |ws|
      invariant r + WithoutWaiter(ws[i..], s) == WithoutWaiter(ws, s)
    {
      assert ws[i..][1..] == ws[i + 1..];
      if ws[i] != s {
        assert r + WithoutWaiter(ws[i..], s) == (r + [ws[i]]) + WithoutWaiter(ws[i + 1..], s);
        r := r + [ws[i]];
      }
      i := i + 1;
    }
  }
}
