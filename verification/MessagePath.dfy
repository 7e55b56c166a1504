/**
 The way of a request from the store's API to the raft node: the scheduler of `Scheduler`
 composed with the request queues of `SwapQueue`.

 A caller puts its message on the group's queue and then calls `EnqueueState` with the bit of that
 queue; a worker that claimed the bit looks at the queue's length, takes a batch, handles the
 messages one by one and releases the batch. All of these are separate steps, interleaved freely
 with each other and with the steps of the other workers. Proposals, configuration changes and raft
 messages take the same way through three queues of their own.
 */
module MessagePath {
  import opened Common
  import S = Scheduler
  import Q = SwapQueue

  predicate IsKind(f: S.Flag) { f == S.Proposal || f == S.ConfigChange || f == S.Step }

  type Kind = f: S.Flag | IsKind(f) witness S.Step

  /** One request queue of one group. */
  datatype Slot = Slot(g: S.GroupId, kind: Kind)

  /** The queue with its history: messages accepted, handed out in batches, handled. */
  datatype Mail<M> = Mail(box: Q.Box<M>, accepted: seq<M>, handed: seq<M>, handled: seq<M>)

  /** Where a worker is inside `processProposal`, `ProcessConfigChange` or `processStep`. */
  datatype Drainer<M> = NotYet | LenSeen | Handling(batch: seq<M>, next: nat) | Finished

  /** `owing` holds a slot for every caller between its `Put` and its `EnqueueState`. */
  datatype System<M> = System(
    shard: S.Shard,
    mail: map<Slot, Mail<M>>,
    drainers: seq<Drainer<M>>,
    owing: multiset<Slot>)

  datatype Event<M> =
    | Send(slot: Slot, m: M)
    | Notify(slot: Slot)
    | Sched(e: S.Event)
    | Drain(w: nat)

  /** The queue a worker is draining, if it is inside one of the three callbacks. */
  function Calling(w: S.Worker): Option<Slot> {
    if !w.Processing? then None
    else match w.stage
      case AtProposal => if S.Proposal in w.claimed.state then Some(Slot(w.g, S.Proposal)) else None
      case AtConfigChange => if S.ConfigChange in w.claimed.state then Some(Slot(w.g, S.ConfigChange)) else None
      case AtStep => if S.Step in w.claimed.state then Some(Slot(w.g, S.Step)) else None
      case _ => None
  }

  function SendStep<M>(s: System<M>, slot: Slot, m: M): System<M>
    requires slot in s.mail
  {
    var mail := s.mail[slot];
    var (box, r) := Q.BoxPut(mail.box, m);
    if r != Q.PutOk then s
    else s.(mail := s.mail[slot := mail.(box := box, accepted := mail.accepted + [m])],
            owing := s.owing + multiset{slot})
  }

  function DrainStep<M>(s: System<M>, w: nat, slot: Slot): Option<System<M>>
    requires w < |s.drainers|
  {
    match s.drainers[w]
    case NotYet =>
      if slot !in s.mail || s.mail[slot].box.pending == []
      then Some(s.(drainers := s.drainers[w := Finished]))
      else Some(s.(drainers := s.drainers[w := LenSeen]))
    case LenSeen =>
      if slot !in s.mail then None
      else
        var mail := s.mail[slot];
        var (box, r) := Q.BoxGet(mail.box);
        if r.GetBatch?
        then Some(s.(mail := s.mail[slot := mail.(box := box, handed := mail.handed + r.data)],
                     drainers := s.drainers[w := Handling(r.data, 0)]))
        else Some(s.(drainers := s.drainers[w := Finished]))
    case Handling(batch, next) =>
      if slot !in s.mail then None
      else
        var mail := s.mail[slot];
        if next < |batch|
        then Some(s.(mail := s.mail[slot := mail.(handled := mail.handled + [batch[next]])],
                     drainers := s.drainers[w := Handling(batch, next + 1)]))
        else Some(s.(mail := s.mail[slot := mail.(box := Q.BoxRelease(mail.box))],
                     drainers := s.drainers[w := Finished]))
    case Finished => None
  }

  /** A worker leaves a callback only when the callback has returned. */
  predicate Busy<M>(s: System<M>, e: S.Event) {
    e.Work? && e.w < |s.shard.workers| && e.w < |s.drainers|
    && Calling(s.shard.workers[e.w]).Some? && !s.drainers[e.w].Finished?
  }

  function Next<M>(s: System<M>, e: Event<M>, maxTicks: nat): Option<System<M>> {
    match e
    case Send(slot, m) => if slot in s.mail then Some(SendStep(s, slot, m)) else None
    case Notify(slot) =>
      if s.owing[slot] == 0 then None
      else
        var r := S.Next(s.shard, S.EnqueueMap({slot.kind}, slot.g), maxTicks);
        if r.None? then None
        else Some(s.(shard := r.value, owing := s.owing - multiset{slot}))
    case Sched(e) =>
      if Busy(s, e) then None
      else
        var r := S.Next(s.shard, e, maxTicks);
        if r.None? then None
        else Some(s.(shard := r.value,
                     drainers := if e.Work? && e.w < |s.drainers| then s.drainers[e.w := NotYet] else s.drainers))
    case Drain(w) =>
      if w >= |s.shard.workers| || w >= |s.drainers| then None
      else
        var slot := Calling(s.shard.workers[w]);
        if slot.None? then None else DrainStep(s, w, slot.value)
  }

  function Run<M>(s: System<M>, es: seq<Event<M>>, maxTicks: nat): Option<System<M>>
    decreases |es|
  {
    if es == [] then Some(s)
    else
      var r := Next(s, es[0], maxTicks);
      if r.None? then None else Run(r.value, es[1..], maxTicks)
  }

  function FreshMail<M>(size: nat): Mail<M> { Mail(Q.EmptyBox(size), [], [], []) }

  /** A store whose groups have empty queues and whose workers wait. */
  function Init<M>(workerNum: nat, slots: set<Slot>, size: nat): System<M> {
    System(S.Init(workerNum), map slot | slot in slots :: FreshMail(size),
           seq(workerNum, i => NotYet), multiset{})
  }

  // ---------------------------------------------------------------------------
  // The invariant
  // ---------------------------------------------------------------------------

  function StageNo(st: S.Stage): nat {
    match st
    case AtProposal => 0
    case AtConfigChange => 1
    case AtStep => 2
    case _ => 3
  }

  function KindNo(k: Kind): nat {
    match k
    case Proposal => 0
    case ConfigChange => 1
    case _ => 2
  }

  /** The worker has claimed the slot's bit and has not taken the batch yet. */
  predicate WillTake<M>(w: S.Worker, d: Drainer<M>, slot: Slot) {
    && w.Processing? && w.g == slot.g && slot.kind in w.claimed.state
    && (|| StageNo(w.stage) < KindNo(slot.kind)
        || (StageNo(w.stage) == KindNo(slot.kind) && (d.NotYet? || d.LenSeen?)))
  }

  predicate TakenBy<M>(s: System<M>, slot: Slot, i: int) {
    0 <= i < |s.shard.workers| && i < |s.drainers| && WillTake(s.shard.workers[i], s.drainers[i], slot)
  }

  /** A message waiting in the slot will be looked at: its sender is still on the way to `EnqueueState`,
      the bit is pending, or a worker that claimed the bit has yet to take the batch. */
  ghost predicate Covered<M>(s: System<M>, slot: Slot) {
    || s.owing[slot] > 0
    || slot.kind in S.Lookup(s.shard.groupState, slot.g).state
    || exists i :: TakenBy(s, slot, i)
  }

  predicate LentBy<M>(s: System<M>, slot: Slot, i: int) {
    && 0 <= i < |s.shard.workers| && i < |s.drainers|
    && Calling(s.shard.workers[i]) == Some(slot) && s.drainers[i].Handling?
  }

  /** The outstanding batch is the tail of what was handed out, handled up to `next`. */
  ghost predicate BatchOk<M>(mail: Mail<M>, batch: seq<M>, next: nat) {
    && mail.box.lent == Some(batch) && next <= |batch| <= |mail.handed|
    && mail.handed[|mail.handed| - |batch|..] == batch
    && mail.handled == mail.handed[..|mail.handed| - (|batch| - next)]
  }

  ghost predicate DrainerOk<M>(s: System<M>, i: nat)
    requires i < |s.drainers| && i < |s.shard.workers|
  {
    var w, d := s.shard.workers[i], s.drainers[i];
    && (!d.NotYet? ==> Calling(w).Some?)
    && (d.LenSeen? ==> Calling(w).value in s.mail)
    && (d.Handling? ==> Calling(w).value in s.mail && BatchOk(s.mail[Calling(w).value], d.batch, d.next))
  }

  ghost predicate Booked<M>(mail: Mail<M>) {
    && !mail.box.stopped
    && mail.accepted == mail.handed + mail.box.pending
    && (mail.box.lent.None? ==> mail.handled == mail.handed)
  }

  ghost predicate MailOk<M>(s: System<M>, slot: Slot)
    requires slot in s.mail
  {
    && Booked(s.mail[slot])
    && (s.mail[slot].box.lent.Some? ==> exists i :: LentBy(s, slot, i))
    && (s.mail[slot].box.pending != [] ==> Covered(s, slot))
  }

  /** No two workers are inside a callback for the same queue. */
  ghost predicate Alone(ws: seq<S.Worker>) {
    forall i, j :: 0 <= i < |ws| && 0 <= j < |ws| && Calling(ws[i]).Some? && Calling(ws[i]) == Calling(ws[j]) ==> i == j
  }

  ghost predicate Local<M>(s: System<M>) {
    && Alone(s.shard.workers)
    && |s.drainers| == |s.shard.workers|
    && (forall i :: 0 <= i < |s.drainers| ==> DrainerOk(s, i))
    && (forall slot :: slot in s.mail ==> MailOk(s, slot))
  }

  ghost predicate Inv<M>(s: System<M>, maxTicks: nat) {
    S.Inv(s.shard, maxTicks) && Local(s)
  }

  lemma ExclusiveMeansAlone(sh: S.Shard)
    requires S.Exclusive(sh)
    ensures Alone(sh.workers)
  {
    forall i, j | 0 <= i < |sh.workers| && 0 <= j < |sh.workers|
                  && Calling(sh.workers[i]).Some? && Calling(sh.workers[i]) == Calling(sh.workers[j])
      ensures i == j
    {
      var g := Calling(sh.workers[i]).value.g;
      assert S.Owns(sh.workers[i], g) && S.Owns(sh.workers[j], g);
    }
  }

  lemma InitInv<M>(workerNum: nat, slots: set<Slot>, size: nat, maxTicks: nat)
    ensures Inv(Init<M>(workerNum, slots, size), maxTicks)
  {
    S.InitInv(workerNum, maxTicks);
  }

  // ---------------------------------------------------------------------------
  // Every step keeps it
  // ---------------------------------------------------------------------------

  lemma SendKeepsLocal<M>(s: System<M>, slot: Slot, m: M)
    requires Local(s) && slot in s.mail
    ensures Local(SendStep(s, slot, m))
  {
    var t := SendStep(s, slot, m);
    assert MailOk(s, slot);
    forall i | 0 <= i < |t.drainers|
      ensures DrainerOk(t, i)
    {
      assert DrainerOk(s, i);
    }
    forall x | x in t.mail
      ensures MailOk(t, x)
    {
      assert MailOk(s, x);
      assert forall i :: LentBy(s, x, i) ==> LentBy(t, x, i);
      assert forall i :: TakenBy(s, x, i) ==> TakenBy(t, x, i);
    }
  }

  /** Draining one queue leaves the books of the other queues alone. */
  lemma OtherMailKept<M>(s: System<M>, t: System<M>, w: nat, slot: Slot, x: Slot)
    requires Local(s) && w < |s.drainers| && Calling(s.shard.workers[w]) == Some(slot)
    requires t.shard == s.shard && t.owing == s.owing
    requires |t.drainers| == |s.drainers| && t.drainers == s.drainers[w := t.drainers[w]]
    requires x != slot && x in s.mail && x in t.mail && t.mail[x] == s.mail[x]
    ensures MailOk(t, x)
  {
    assert MailOk(s, x);
    forall i | LentBy(s, x, i)
      ensures LentBy(t, x, i)
    {}
    forall i | TakenBy(s, x, i)
      ensures TakenBy(t, x, i)
    {
      assert i == w ==> StageNo(s.shard.workers[w].stage) != KindNo(x.kind);
    }
  }

  lemma LengthSeen<M>(s: System<M>, t: System<M>, w: nat, slot: Slot)
    requires Local(s) && w < |s.drainers| && Calling(s.shard.workers[w]) == Some(slot) && slot in s.mail
    requires s.drainers[w].NotYet? && DrainStep(s, w, slot) == Some(t)
    ensures MailOk(t, slot)
  {
    assert MailOk(s, slot);
    OnlyOneBatch(s, w, slot);
    if s.mail[slot].box.pending != [] { assert TakenBy(t, slot, w); }
  }

  lemma BatchTaken<M>(s: System<M>, t: System<M>, w: nat, slot: Slot)
    requires Local(s) && w < |s.drainers| && Calling(s.shard.workers[w]) == Some(slot) && slot in s.mail
    requires s.drainers[w].LenSeen? && DrainStep(s, w, slot) == Some(t)
    ensures MailOk(t, slot)
  {
    assert MailOk(s, slot);
    OnlyOneBatch(s, w, slot);
    var mail := s.mail[slot];
    assert LentBy(t, slot, w) || mail.box.pending == [];
    if mail.box.pending != [] { assert t.mail[slot].box.pending == []; }
  }

  lemma MessageHandled<M>(s: System<M>, t: System<M>, w: nat, slot: Slot)
    requires Local(s) && w < |s.drainers| && Calling(s.shard.workers[w]) == Some(slot) && slot in s.mail
    requires s.drainers[w].Handling? && DrainStep(s, w, slot) == Some(t)
    ensures MailOk(t, slot)
  {
    assert DrainerOk(s, w) && MailOk(s, slot);
    if s.drainers[w].next < |s.drainers[w].batch| { assert LentBy(t, slot, w); }
    assert forall i :: TakenBy(s, slot, i) && i != w ==> TakenBy(t, slot, i);
    assert !TakenBy(s, slot, w);
  }

  lemma OwnMailKept<M>(s: System<M>, t: System<M>, w: nat, slot: Slot)
    requires Local(s) && w < |s.drainers| && Calling(s.shard.workers[w]) == Some(slot) && slot in s.mail
    requires DrainStep(s, w, slot) == Some(t)
    ensures MailOk(t, slot)
  {
    if s.drainers[w].NotYet? {
      LengthSeen(s, t, w, slot);
    } else if s.drainers[w].LenSeen? {
      BatchTaken(s, t, w, slot);
    } else {
      MessageHandled(s, t, w, slot);
    }
  }

  /** The worker about to take a batch finds the other buffer free. */
  lemma OnlyOneBatch<M>(s: System<M>, w: nat, slot: Slot)
    requires Local(s) && w < |s.drainers| && Calling(s.shard.workers[w]) == Some(slot) && slot in s.mail
    requires !s.drainers[w].Handling?
    ensures s.mail[slot].box.lent.None?
  {
    assert MailOk(s, slot);
    assert forall i :: LentBy(s, slot, i) ==> i == w;
  }

  lemma OwnDrainerKept<M>(s: System<M>, t: System<M>, w: nat, slot: Slot)
    requires Local(s) && w < |s.drainers| && Calling(s.shard.workers[w]) == Some(slot)
    requires DrainStep(s, w, slot) == Some(t)
    ensures w < |t.drainers| && w < |t.shard.workers| && DrainerOk(t, w)
  {
    assert DrainerOk(s, w);
    if slot in s.mail { assert MailOk(s, slot); }
  }

  lemma OtherDrainerKept<M>(s: System<M>, t: System<M>, w: nat, slot: Slot, i: nat)
    requires Local(s) && w < |s.drainers| && Calling(s.shard.workers[w]) == Some(slot)
    requires DrainStep(s, w, slot) == Some(t) && i < |s.drainers| && i != w
    ensures i < |t.drainers| && i < |t.shard.workers| && DrainerOk(t, i)
  {
    DrainFrame(s, t, w, slot);
    assert DrainerOk(s, i) && Calling(s.shard.workers[i]) != Some(slot);
  }

  lemma DrainKeepsLocal<M>(s: System<M>, w: nat, slot: Slot)
    requires Local(s) && w < |s.drainers| && Calling(s.shard.workers[w]) == Some(slot)
    requires DrainStep(s, w, slot).Some?
    ensures Local(DrainStep(s, w, slot).value)
  {
    var t := DrainStep(s, w, slot).value;
    DrainFrame(s, t, w, slot);
    forall i | 0 <= i < |t.drainers|
      ensures DrainerOk(t, i)
    {
      if i == w { OwnDrainerKept(s, t, w, slot); } else { OtherDrainerKept(s, t, w, slot, i); }
    }
    forall x | x in t.mail
      ensures MailOk(t, x)
    {
      if x == slot { OwnMailKept(s, t, w, slot); } else { OtherMailKept(s, t, w, slot, x); }
    }
  }

  /** Bits only leave the map when a worker claims them. */
  lemma BitsStay(sh: S.Shard, e: S.Event, g: S.GroupId, k: Kind, maxTicks: nat)
    requires S.Next(sh, e, maxTicks).Some? && k in S.Lookup(sh.groupState, g).state
    ensures || k in S.Lookup(S.Next(sh, e, maxTicks).value.groupState, g).state
            || (e.Work? && WillTake<bool>(S.Next(sh, e, maxTicks).value.workers[e.w], NotYet, Slot(g, k)))
  {}

  /** A claimed bit is kept in mind until the worker reaches the callback of its queue. */
  lemma ClaimStays(w: S.Worker, x: Slot)
    requires w.Processing? && w.stage != S.AtDelete && w.g == x.g && x.kind in w.claimed.state
    requires StageNo(w.stage) < KindNo(x.kind)
    ensures WillTake<bool>(S.ProcessStep(w), NotYet, x)
  {}

  lemma WillTakeNotYet<M>(w: S.Worker, x: Slot)
    ensures WillTake<M>(w, NotYet, x) == WillTake<bool>(w, NotYet, x)
  {}

  lemma ShardKeepsCovered<M>(s: System<M>, e: S.Event, x: Slot, maxTicks: nat)
    requires Local(s) && x in s.mail && Covered(s, x) && Next(s, Sched(e), maxTicks).Some?
    ensures Covered(Next(s, Sched(e), maxTicks).value, x)
  {
    var t := Next(s, Sched(e), maxTicks).value;
    if s.owing[x] > 0 {
    } else if x.kind in S.Lookup(s.shard.groupState, x.g).state {
      BitsStay(s.shard, e, x.g, x.kind, maxTicks);
      if e.Work? && WillTake<bool>(t.shard.workers[e.w], NotYet, Slot(x.g, x.kind)) {
        WillTakeNotYet<M>(t.shard.workers[e.w], x);
        assert TakenBy(t, x, e.w);
      }
    } else {
      var i :| TakenBy(s, x, i);
      if e.Work? && e.w == i {
        assert DrainerOk(s, i);
        ClaimStays(s.shard.workers[i], x);
        WillTakeNotYet<M>(t.shard.workers[i], x);
      }
      assert TakenBy(t, x, i);
    }
  }

  lemma ShardKeepsLocal<M>(s: System<M>, e: S.Event, maxTicks: nat)
    requires Local(s) && Next(s, Sched(e), maxTicks).Some?
    requires Alone(Next(s, Sched(e), maxTicks).value.shard.workers)
    ensures Local(Next(s, Sched(e), maxTicks).value)
  {
    var t := Next(s, Sched(e), maxTicks).value;
    forall i | 0 <= i < |t.drainers|
      ensures DrainerOk(t, i)
    {
      assert DrainerOk(s, i);
    }
    forall x | x in t.mail
      ensures MailOk(t, x)
    {
      assert MailOk(s, x);
      forall i | LentBy(s, x, i)
        ensures LentBy(t, x, i)
      {}
      if s.mail[x].box.pending != [] { ShardKeepsCovered(s, e, x, maxTicks); }
    }
  }

  lemma NextKeepsInv<M>(s: System<M>, e: Event<M>, maxTicks: nat)
    requires Inv(s, maxTicks) && Next(s, e, maxTicks).Some?
    ensures Inv(Next(s, e, maxTicks).value, maxTicks)
  {
    var t := Next(s, e, maxTicks).value;
    match e
    case Send(slot, m) => SendKeepsLocal(s, slot, m);
    case Drain(w) => DrainKeepsLocal(s, w, Calling(s.shard.workers[w]).value);
    case Sched(f) =>
      S.NextKeepsInv(s.shard, f, maxTicks);
      ExclusiveMeansAlone(t.shard);
      ShardKeepsLocal(s, f, maxTicks);
    case Notify(slot) =>
      var f := S.EnqueueMap({slot.kind}, slot.g);
      var u := Next(s, Sched(f), maxTicks).value;
      S.NextKeepsInv(s.shard, f, maxTicks);
      ExclusiveMeansAlone(t.shard);
      ShardKeepsLocal(s, f, maxTicks);
      NotifyPaid(u, slot);
  }

  /** Once the bit is in the map the caller is not needed any more. */
  lemma NotifyPaid<M>(u: System<M>, slot: Slot)
    requires Local(u) && slot.kind in S.Lookup(u.shard.groupState, slot.g).state
    ensures Local(u.(owing := u.owing - multiset{slot}))
  {
    var t := u.(owing := u.owing - multiset{slot});
    forall i | 0 <= i < |t.drainers|
      ensures DrainerOk(t, i)
    {
      assert DrainerOk(u, i);
    }
    forall x | x in t.mail
      ensures MailOk(t, x)
    {
      assert MailOk(u, x);
      assert forall i :: LentBy(u, x, i) ==> LentBy(t, x, i);
      assert forall i :: TakenBy(u, x, i) ==> TakenBy(t, x, i);
    }
  }

  lemma {:induction false} RunKeepsInv<M>(s: System<M>, es: seq<Event<M>>, maxTicks: nat)
    requires Inv(s, maxTicks) && Run(s, es, maxTicks).Some?
    ensures Inv(Run(s, es, maxTicks).value, maxTicks)
    decreases |es|
  {
    if es == [] {
    } else {
      NextKeepsInv(s, es[0], maxTicks);
      RunKeepsInv(Next(s, es[0], maxTicks).value, es[1..], maxTicks);
    }
  }

  // ---------------------------------------------------------------------------
  // End to end
  // ---------------------------------------------------------------------------

  /** A worker that takes a batch never meets `ErrBufferInUse`, whatever the interleaving. */
  lemma BufferNeverInUse<M>(workerNum: nat, slots: set<Slot>, size: nat, es: seq<Event<M>>, maxTicks: nat, w: nat)
    requires Run(Init<M>(workerNum, slots, size), es, maxTicks).Some?
    requires var s := Run(Init<M>(workerNum, slots, size), es, maxTicks).value;
             w < |s.drainers| && w < |s.shard.workers| && s.drainers[w].LenSeen?
    ensures var s := Run(Init<M>(workerNum, slots, size), es, maxTicks).value;
            var slot := Calling(s.shard.workers[w]);
            slot.Some? && slot.value in s.mail
            && (Q.BoxGet(s.mail[slot.value].box).1.GetBatch? || Q.BoxGet(s.mail[slot.value].box).1.GetNothing?)
  {
    InitInv<M>(workerNum, slots, size, maxTicks);
    RunKeepsInv(Init<M>(workerNum, slots, size), es, maxTicks);
    var s := Run(Init<M>(workerNum, slots, size), es, maxTicks).value;
    assert DrainerOk(s, w);
    OnlyOneBatch(s, w, Calling(s.shard.workers[w]).value);
    assert MailOk(s, Calling(s.shard.workers[w]).value);
  }

  /** At every moment the messages handled are the first ones accepted, in order and without repeats,
      and a message not taken yet is covered by its sender, by a pending bit or by a claimed bit. */
  lemma HandledInOrder<M>(workerNum: nat, slots: set<Slot>, size: nat, es: seq<Event<M>>, maxTicks: nat, slot: Slot)
    requires Run(Init<M>(workerNum, slots, size), es, maxTicks).Some?
    requires slot in Run(Init<M>(workerNum, slots, size), es, maxTicks).value.mail
    ensures var s := Run(Init<M>(workerNum, slots, size), es, maxTicks).value;
            && s.mail[slot].handled <= s.mail[slot].handed <= s.mail[slot].accepted
            && (s.mail[slot].handed != s.mail[slot].accepted ==> Covered(s, slot))
  {
    InitInv<M>(workerNum, slots, size, maxTicks);
    RunKeepsInv(Init<M>(workerNum, slots, size), es, maxTicks);
    var s := Run(Init<M>(workerNum, slots, size), es, maxTicks).value;
    assert MailOk(s, slot);
    if s.mail[slot].box.lent.Some? {
      var i :| LentBy(s, slot, i);
      assert DrainerOk(s, i);
    }
  }

  /** Nothing can move except a new message or a new tick, and every sender has finished. */
  ghost predicate AtRest<M>(s: System<M>, maxTicks: nat) {
    && s.owing == multiset{}
    && (forall e: S.Event :: S.DrainEvent(e) ==> Next(s, Sched(e), maxTicks).None?)
    && (forall w: nat :: Next(s, Drain(w), maxTicks).None?)
  }

  lemma RestingShard<M>(s: System<M>, maxTicks: nat)
    requires Inv(s, maxTicks) && AtRest(s, maxTicks)
    ensures S.Quiescent(s.shard, maxTicks)
  {
    forall e: S.Event | S.DrainEvent(e)
      ensures S.Next(s.shard, e, maxTicks).None?
    {
      assert Next(s, Sched(e), maxTicks).None?;
      if e.Work? && e.w < |s.shard.workers| {
        assert DrainerOk(s, e.w);
        assert Next(s, Drain(e.w), maxTicks).None?;
      }
    }
  }

  /** No stranded message: when everything has come to rest, every accepted message of a group other
      than 0 has been handled exactly once, in the order of the puts. */
  lemma NothingStranded<M>(workerNum: nat, slots: set<Slot>, size: nat, es: seq<Event<M>>, maxTicks: nat, slot: Slot)
    requires workerNum > 0 && slot.g != 0
    requires Run(Init<M>(workerNum, slots, size), es, maxTicks).Some?
    requires slot in Run(Init<M>(workerNum, slots, size), es, maxTicks).value.mail
    requires AtRest(Run(Init<M>(workerNum, slots, size), es, maxTicks).value, maxTicks)
    ensures var s := Run(Init<M>(workerNum, slots, size), es, maxTicks).value;
            s.mail[slot].handled == s.mail[slot].accepted
  {
    InitInv<M>(workerNum, slots, size, maxTicks);
    RunKeepsInv(Init<M>(workerNum, slots, size), es, maxTicks);
    RunKeepsWorkers(Init<M>(workerNum, slots, size), es, maxTicks);
    var s := Run(Init<M>(workerNum, slots, size), es, maxTicks).value;
    RestingShard(s, maxTicks);
    S.RestIsEmpty(s.shard, maxTicks);
    assert MailOk(s, slot);
    assert slot.g !in s.shard.groupState;
    assert forall i :: !LentBy(s, slot, i) && !TakenBy(s, slot, i);
  }

  lemma NextKeepsWorkers<M>(s: System<M>, e: Event<M>, maxTicks: nat)
    requires Next(s, e, maxTicks).Some?
    ensures |Next(s, e, maxTicks).value.shard.workers| == |s.shard.workers|
  {
  }

  lemma {:induction false} RunKeepsWorkers<M>(s: System<M>, es: seq<Event<M>>, maxTicks: nat)
    requires Run(s, es, maxTicks).Some?
    ensures |Run(s, es, maxTicks).value.shard.workers| == |s.shard.workers|
    decreases |es|
  {
    if es == [] {
    } else {
      NextKeepsWorkers(s, es[0], maxTicks);
      RunKeepsWorkers(Next(s, es[0], maxTicks).value, es[1..], maxTicks);
    }
  }

  /** Steps left inside the callback a worker is in. */
  function StepsLeft<M>(s: System<M>, w: S.Worker, d: Drainer<M>): nat {
    var slot := Calling(w);
    if slot.None? then 0
    else
      var waiting := if slot.value in s.mail then |s.mail[slot.value].box.pending| else 0;
      match d
      case NotYet => 3 + waiting
      case LenSeen => 2 + waiting
      case Handling(batch, next) => 1 + if next < |batch| then |batch| - next else 0
      case Finished => 0
  }

  function Left<M>(s: System<M>): (r: seq<nat>)
    requires |s.drainers| == |s.shard.workers|
    ensures |r| == |s.drainers|
    ensures forall i :: 0 <= i < |r| ==> r[i] == StepsLeft(s, s.shard.workers[i], s.drainers[i])
  {
    seq(|s.drainers|, i requires 0 <= i < |s.drainers| => StepsLeft(s, s.shard.workers[i], s.drainers[i]))
  }

  /** What one step of a drain changes: the drainer, and the mail of its own queue. */
  lemma DrainFrame<M>(s: System<M>, t: System<M>, w: nat, slot: Slot)
    requires w < |s.drainers| && DrainStep(s, w, slot) == Some(t)
    ensures t.shard == s.shard && |t.drainers| == |s.drainers|
    ensures forall i :: 0 <= i < |s.drainers| && i != w ==> t.drainers[i] == s.drainers[i]
    ensures forall x :: x != slot ==> (x in t.mail <==> x in s.mail) && (x in s.mail ==> t.mail[x] == s.mail[x])
  {
  }

  /** The worker itself has fewer steps left. */
  lemma DrainerLower<M>(s: System<M>, t: System<M>, w: nat, slot: Slot)
    requires Local(s) && w < |s.drainers| && Calling(s.shard.workers[w]) == Some(slot)
    requires DrainStep(s, w, slot) == Some(t)
    ensures StepsLeft(t, s.shard.workers[w], t.drainers[w]) < StepsLeft(s, s.shard.workers[w], s.drainers[w])
  {
    assert DrainerOk(s, w);
    if s.drainers[w].LenSeen? {
      OnlyOneBatch(s, w, slot);
      assert MailOk(s, slot);
    }
  }

  /** Another worker is in another callback, or in none. */
  lemma OthersSame<M>(s: System<M>, t: System<M>, w: nat, slot: Slot, i: nat)
    requires Alone(s.shard.workers) && |s.drainers| == |s.shard.workers|
    requires w < |s.drainers| && Calling(s.shard.workers[w]) == Some(slot) && DrainStep(s, w, slot) == Some(t)
    requires i < |s.drainers| && i != w
    ensures |t.drainers| == |s.drainers|
    ensures StepsLeft(t, s.shard.workers[i], t.drainers[i]) == StepsLeft(s, s.shard.workers[i], s.drainers[i])
  {
    DrainFrame(s, t, w, slot);
    assert Calling(s.shard.workers[i]) != Some(slot);
  }

  lemma DrainLowersLeft<M>(s: System<M>, t: System<M>, w: nat, slot: Slot)
    requires Local(s) && w < |s.drainers| && Calling(s.shard.workers[w]) == Some(slot)
    requires DrainStep(s, w, slot) == Some(t)
    ensures |t.drainers| == |t.shard.workers| && Sum(Left(t)) < Sum(Left(s))
  {
    DrainFrame(s, t, w, slot);
    DrainerLower(s, t, w, slot);
    var v := StepsLeft(t, s.shard.workers[w], t.drainers[w]);
    forall i | 0 <= i < |s.drainers| && i != w
      ensures Left(t)[i] == Left(s)[i]
    {
      OthersSame(s, t, w, slot, i);
    }
    assert Left(t) == Left(s)[w := v];
    SumOfUpdate(Left(s), w, v);
  }

  /** Without new messages and ticks every step lowers a well-founded pair: the scheduler's measure, and
      then the steps left inside callbacks. */
  lemma StepsLowerMeasure<M>(s: System<M>, e: Event<M>, maxTicks: nat)
    requires Inv(s, maxTicks) && Next(s, e, maxTicks).Some?
    requires e.Drain? || (e.Sched? && S.DrainEvent(e.e))
    ensures var t := Next(s, e, maxTicks).value;
            && |t.drainers| == |t.shard.workers|
            && (|| S.Measure(t.shard, maxTicks) < S.Measure(s.shard, maxTicks)
                || (t.shard == s.shard && Sum(Left(t)) < Sum(Left(s))))
  {
    NextKeepsInv(s, e, maxTicks);
    match e
    case Sched(f) => S.DrainLowersMeasure(s.shard, f, maxTicks);
    case Drain(w) =>
      DrainLowersLeft(s, Next(s, e, maxTicks).value, w, Calling(s.shard.workers[w]).value);
    case _ =>
  }

  // ---------------------------------------------------------------------------
  // Coming to rest
  // ---------------------------------------------------------------------------

  predicate DrainEvent<M>(e: Event<M>) { e.Drain? || (e.Sched? && S.DrainEvent(e.e)) }

  ghost predicate PendingAtMost<M>(s: System<M>, most: nat) {
    forall slot :: slot in s.mail ==> |s.mail[slot].box.pending| <= most
  }

  function Times(a: nat, b: nat): nat { a * b }

  /** Steps left: each step of the scheduler can open one callback on at most `most` messages. */
  function Bound<M>(s: System<M>, maxTicks: nat, most: nat): nat
    requires |s.drainers| == |s.shard.workers|
  {
    Times(S.Measure(s.shard, maxTicks), most + 4) + Sum(Left(s))
  }

  lemma WorkerMoves(sh: S.Shard, e: S.Event, maxTicks: nat)
    requires S.DrainEvent(e) && S.Next(sh, e, maxTicks).Some?
    ensures var t := S.Next(sh, e, maxTicks).value;
            |t.workers| == |sh.workers| &&
            if e.Work? then e.w < |sh.workers| && t.workers == sh.workers[e.w := t.workers[e.w]] else t.workers == sh.workers
  {
  }

  lemma SchedRaisesLeft<M>(s: System<M>, e: S.Event, maxTicks: nat, most: nat)
    requires |s.drainers| == |s.shard.workers| && PendingAtMost(s, most)
    requires S.DrainEvent(e) && Next(s, Sched(e), maxTicks).Some?
    ensures var t := Next(s, Sched(e), maxTicks).value;
            && |t.drainers| == |t.shard.workers| && t.mail == s.mail && t.owing == s.owing
            && Sum(Left(t)) <= Sum(Left(s)) + most + 3
  {
    var t := Next(s, Sched(e), maxTicks).value;
    WorkerMoves(s.shard, e, maxTicks);
    if e.Work? {
      var v := StepsLeft(t, t.shard.workers[e.w], t.drainers[e.w]);
      assert v <= most + 3;
      assert Left(t) == Left(s)[e.w := v];
      SumOfUpdate(Left(s), e.w, v);
    } else {
      assert Left(t) == Left(s);
    }
  }

  lemma DrainKeepsPending<M>(s: System<M>, w: nat, slot: Slot, most: nat)
    requires w < |s.drainers| && DrainStep(s, w, slot).Some? && PendingAtMost(s, most)
    ensures var t := DrainStep(s, w, slot).value;
            PendingAtMost(t, most) && t.owing == s.owing && t.shard == s.shard
  {
  }

  lemma StepLowersBound<M>(s: System<M>, e: Event<M>, maxTicks: nat, most: nat)
    requires Inv(s, maxTicks) && PendingAtMost(s, most) && DrainEvent(e) && Next(s, e, maxTicks).Some?
    ensures var t := Next(s, e, maxTicks).value;
            Inv(t, maxTicks) && PendingAtMost(t, most) && t.owing == s.owing && Bound(t, maxTicks, most) < Bound(s, maxTicks, most)
  {
    NextKeepsInv(s, e, maxTicks);
    var t := Next(s, e, maxTicks).value;
    match e
    case Sched(f) =>
      SchedRaisesLeft(s, f, maxTicks, most);
      S.DrainLowersMeasure(s.shard, f, maxTicks);
      Scaled(S.Measure(t.shard, maxTicks), S.Measure(s.shard, maxTicks), most + 4);
    case Drain(w) =>
      var slot := Calling(s.shard.workers[w]).value;
      DrainLowersLeft(s, t, w, slot);
      DrainKeepsPending(s, w, slot, most);
    case _ =>
  }

  lemma Scaled(a: nat, b: nat, k: nat)
    requires a < b
    ensures Times(a, k) + k <= Times(b, k)
  {
    assert (b - a) * k >= k by { if k > 0 { assert b - a >= 1; } }
  }

  /** Without new messages and ticks every interleaving is no longer than the bound. */
  lemma {:induction false} DrainIsBounded<M>(s: System<M>, es: seq<Event<M>>, maxTicks: nat, most: nat)
    requires Inv(s, maxTicks) && PendingAtMost(s, most) && Run(s, es, maxTicks).Some?
    requires forall i :: 0 <= i < |es| ==> DrainEvent(es[i])
    ensures Inv(Run(s, es, maxTicks).value, maxTicks)
    ensures |es| + Bound(Run(s, es, maxTicks).value, maxTicks, most) <= Bound(s, maxTicks, most)
    decreases |es|
  {
    if es == [] {
    } else {
      StepLowersBound(s, es[0], maxTicks, most);
      DrainIsBounded(Next(s, es[0], maxTicks).value, es[1..], maxTicks, most);
    }
  }

  /** Every queue is at most as long as it was made. */
  ghost predicate Sized<M>(s: System<M>, size: nat) {
    forall slot :: slot in s.mail ==> s.mail[slot].box.size == size && |s.mail[slot].box.pending| <= size
  }

  lemma NextKeepsSized<M>(s: System<M>, e: Event<M>, maxTicks: nat, size: nat)
    requires Sized(s, size) && Next(s, e, maxTicks).Some?
    ensures Sized(Next(s, e, maxTicks).value, size)
  {
  }

  lemma {:induction false} RunKeepsSized<M>(s: System<M>, es: seq<Event<M>>, maxTicks: nat, size: nat)
    requires Sized(s, size) && Run(s, es, maxTicks).Some?
    ensures Sized(Run(s, es, maxTicks).value, size)
    decreases |es|
  {
    if es == [] {
    } else {
      NextKeepsSized(s, es[0], maxTicks, size);
      RunKeepsSized(Next(s, es[0], maxTicks).value, es[1..], maxTicks, size);
    }
  }

  /** From every reachable state the worker and drain steps that follow are bounded in number. */
  lemma ReachableDrains<M>(workerNum: nat, slots: set<Slot>, size: nat, es: seq<Event<M>>, ds: seq<Event<M>>, maxTicks: nat)
    requires Run(Init<M>(workerNum, slots, size), es, maxTicks).Some?
    requires Run(Run(Init<M>(workerNum, slots, size), es, maxTicks).value, ds, maxTicks).Some?
    requires forall i :: 0 <= i < |ds| ==> DrainEvent(ds[i])
    ensures var s := Run(Init<M>(workerNum, slots, size), es, maxTicks).value;
            |s.drainers| == |s.shard.workers| && |ds| <= Bound(s, maxTicks, size)
  {
    InitInv<M>(workerNum, slots, size, maxTicks);
    RunKeepsInv(Init<M>(workerNum, slots, size), es, maxTicks);
    RunKeepsSized(Init<M>(workerNum, slots, size), es, maxTicks, size);
    DrainIsBounded(Run(Init<M>(workerNum, slots, size), es, maxTicks).value, ds, maxTicks, size);
  }

  /** And as long as a step is possible it can be taken, so that rest is reached once all senders have notified. */
  lemma {:induction false} RestIsReached<M>(s: System<M>, maxTicks: nat, most: nat) returns (ds: seq<Event<M>>)
    requires Inv(s, maxTicks) && PendingAtMost(s, most) && s.owing == multiset{}
    ensures forall i :: 0 <= i < |ds| ==> DrainEvent(ds[i])
    ensures Run(s, ds, maxTicks).Some? && AtRest(Run(s, ds, maxTicks).value, maxTicks)
    decreases Bound(s, maxTicks, most)
  {
    if AtRest(s, maxTicks) {
      ds := [];
    } else {
      var e := Possible(s, maxTicks);
      StepLowersBound(s, e, maxTicks, most);
      var rest := RestIsReached(Next(s, e, maxTicks).value, maxTicks, most);
      ds := [e] + rest;
      assert ds[1..] == rest;
    }
  }

  lemma Possible<M>(s: System<M>, maxTicks: nat) returns (e: Event<M>)
    requires s.owing == multiset{} && !AtRest(s, maxTicks)
    ensures DrainEvent(e) && Next(s, e, maxTicks).Some?
  {
    if f: S.Event :| S.DrainEvent(f) && Next(s, Sched(f), maxTicks).Some? {
      e := Sched(f);
    } else {
      var w: nat :| Next(s, Drain(w), maxTicks).Some?;
      e := Drain(w);
    }
  }
}
