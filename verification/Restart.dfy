/**
 Applying committed entries, taking snapshots, and restarting after a crash, for commands without a session.

 The committed log is given once for the whole run; entry `i` of raft is `log[i - 1]`. The state of the
 state machine is the sequence of the indices of the commands it has applied, in order, so that "each
 command once, in log order" is an equation; `Evaluated` turns it into the state of any state machine.
 A restarted disk machine comes back with the state it had after some entry `d` that it reports.
 */
module Restart {
  import opened Common

  const TWO64: nat := 0x1_0000_0000_0000_0000

  datatype Entry<C> = Nil | ConfChange | Command(c: C)

  /** The indices of the commands among the first `k` entries. */
  function Commands<C>(log: seq<Entry<C>>, k: nat): seq<nat>
    requires k <= |log|
  {
    if k == 0 then [] else Commands(log, k - 1) + if log[k - 1].Command? then [k] else []
  }

  /** The state after the listed commands. */
  function Evaluated<S, C>(step: (S, C) -> S, s: S, log: seq<Entry<C>>, applied: seq<nat>): S {
    if applied == [] then s
    else
      var i, before := applied[|applied| - 1], Evaluated(step, s, log, applied[..|applied| - 1]);
      if 0 < i <= |log| && log[i - 1].Command? then step(before, log[i - 1].c) else before
  }

  /** The uninterrupted run: every command of the first `k` entries in turn. */
  function Folded<S, C>(step: (S, C) -> S, s: S, log: seq<Entry<C>>, k: nat): S
    requires k <= |log|
  {
    if k == 0 then s
    else if log[k - 1].Command? then step(Folded(step, s, log, k - 1), log[k - 1].c)
    else Folded(step, s, log, k - 1)
  }

  datatype Snap = Snap(index: nat, applied: seq<nat>)

  /** `delivered` is the last entry raft has handed out since the start; `applied` and `snapshotIndex` are recorded. */
  datatype Node = Node(disk: bool, sm: seq<nat>, delivered: nat, applied: nat, snapshotIndex: nat, open: nat,
                       snap: Option<Snap>, pending: seq<Snap>)

  datatype Event =
    | Batch(k: nat)                   // raft hands out the entries up to `k`
    | Manual                          // a snapshot that a caller asked for
    | Persist                         // the oldest snapshot that was taken is complete
    | Install(j: nat)                 // raft hands out a snapshot of the leader
    | Restart(d: nat, rebuild: bool)  // a crash, and the start after it

  /** `Refused`: the event is not possible, or the start fails with an error. */
  datatype Outcome = Runs(node: Node) | Panics | Refused

  function Max(a: nat, b: nat): nat { if a <= b then b else a }

  /** The last entry whose effect is in the state. */
  function At(n: Node): nat { Max(n.delivered, n.open) }

  // ---------------------------------------------------------------- one event

  /** The state after the entries in (from, k], of which those up to `open` are skipped. */
  function Replayed<C>(log: seq<Entry<C>>, open: nat, sm: seq<nat>, from: nat, k: nat): seq<nat>
    requires from <= k <= |log|
  {
    if k == from then sm
    else Replayed(log, open, sm, from, k - 1) + if log[k - 1].Command? && k > open then [k] else []
  }

  /** Some command has an index in (from, to]. */
  predicate HasCommand<C>(log: seq<Entry<C>>, from: nat, to: nat) {
    exists i :: from <= i < to && i < |log| && log[i].Command?
  }

  function Taken(n: Node): Node {
    n.(snapshotIndex := n.applied, pending := n.pending + [Snap(n.applied, n.sm)])
  }

  /** The trigger's subtraction, on 64-bit words. */
  function Behind(n: Node): nat { (n.applied - n.snapshotIndex) % TWO64 }

  /** A batch without entries records nothing, but the trigger looks at the distance all the same. */
  function Batched<C>(log: seq<Entry<C>>, count: nat, n: Node, k: nat): Node
    requires n.delivered <= k <= |log|
  {
    var n' := n.(sm := Replayed(log, n.open, n.sm, n.delivered, k), delivered := k,
                 applied := if k == n.delivered then n.applied else k);
    if Behind(n') < count then n' else Taken(n')
  }

  function Restarted<C>(log: seq<Entry<C>>, n: Node, d: nat, rebuild: bool): Node
    requires d <= |log|
  {
    var base := if n.snap.Some? then n.snap.value else Snap(0, []);
    if n.disk && !rebuild then
      Node(n.disk, Commands(log, d), base.index, if n.snap.Some? then Max(d, base.index) else 0, base.index, d, n.snap, [])
    else
      Node(n.disk, base.applied, base.index, base.index, base.index, base.index, n.snap, [])
  }

  function Next<C>(log: seq<Entry<C>>, count: nat, n: Node, e: Event): Outcome {
    match e
    case Batch(k) =>
      if !(n.delivered < k <= |log|) then Refused
      else if !n.disk && HasCommand(log, n.delivered, if k <= n.open then k else n.open) then Panics
      else Runs(Batched(log, count, n, k))
    case Manual => Runs(Taken(n))
    case Persist =>
      if n.pending == [] then Refused
      else if n.pending[0].index <= (if n.snap.Some? then n.snap.value.index else 0) then Panics
      else Runs(n.(snap := Some(n.pending[0]), pending := n.pending[1..]))
    case Install(j) =>
      if j > |log| then Refused
      else if j <= n.applied then Panics
      else Runs(n.(sm := Commands(log, j), delivered := j, applied := j, snapshotIndex := j, snap := Some(Snap(j, Commands(log, j)))))
    case Restart(d, rebuild) =>
      if d > At(n) || d > |log| then Refused
      else if n.disk && !rebuild && n.snap.Some? && d < n.snap.value.index then Refused
      else Runs(Restarted(log, n, d, rebuild))
  }

  function Init(disk: bool): Node { Node(disk, [], 0, 0, 0, 0, None, []) }

  function Run<C>(log: seq<Entry<C>>, count: nat, n: Node, es: seq<Event>): Outcome
    decreases |es|
  {
    if es == [] then Runs(n)
    else
      match Run(log, count, n, es[..|es| - 1])
      case Runs(n') => Next(log, count, n', es[|es| - 1])
      case stopped => stopped
  }

  // ---------------------------------------------------------------- soundness

  ghost predicate SnapSound<C>(log: seq<Entry<C>>, s: Snap, at: nat) {
    s.index <= at && s.index <= |log| && s.applied == Commands(log, s.index)
  }

  /** The state and every snapshot hold each command up to their index once, in log order. */
  ghost predicate Sound<C>(log: seq<Entry<C>>, n: Node) {
    && At(n) <= |log| && n.sm == Commands(log, At(n))
    && (n.snap.Some? ==> SnapSound(log, n.snap.value, At(n)))
    && (forall i :: 0 <= i < |n.pending| ==> SnapSound(log, n.pending[i], At(n)))
  }

  /** Where the recorded indices can stand: only a disk machine can be ahead of what raft has handed out. */
  ghost predicate Placed(n: Node) {
    && (!n.disk ==> n.open <= n.delivered)
    && (n.applied == n.delivered || (n.delivered < n.applied == n.open))
  }

  lemma {:induction false} ReplayedSound<C>(log: seq<Entry<C>>, open: nat, sm: seq<nat>, from: nat, k: nat)
    requires from <= k <= |log| && open <= |log| && sm == Commands(log, Max(from, open))
    ensures Replayed(log, open, sm, from, k) == Commands(log, Max(k, open))
    decreases k
  {
    if k != from { ReplayedSound(log, open, sm, from, k - 1); }
  }

  lemma {:induction false} SameCommandsIff<C>(log: seq<Entry<C>>, i: nat, j: nat)
    requires i <= j <= |log|
    ensures Commands(log, i) <= Commands(log, j)
    ensures Commands(log, i) == Commands(log, j) <==> !HasCommand(log, i, j)
    decreases j
  {
    if i < j {
      SameCommandsIff(log, i, j - 1);
      if log[j - 1].Command? {
        assert HasCommand(log, i, j);
      } else {
        assert HasCommand(log, i, j) <==> HasCommand(log, i, j - 1);
      }
    }
  }

  /**
   The guard of the two kinds of events that can go wrong on a disk machine: a snapshot that is taken, or
   installed, below the opened index while commands lie between the two.
   */
  predicate Faithful<C>(log: seq<Entry<C>>, count: nat, n: Node, e: Event) {
    match e
    case Batch(k) =>
      n.delivered <= k <= |log| &&
      (Behind(n.(applied := k)) >= count ==> !HasCommand(log, k, n.open))
    case Manual => !HasCommand(log, n.applied, n.open)
    case Install(j) => !HasCommand(log, j, n.open)
    case _ => true
  }

  lemma TakenSoundIff<C>(log: seq<Entry<C>>, n: Node)
    requires Sound(log, n) && Placed(n)
    ensures Sound(log, Taken(n)) <==> !HasCommand(log, n.applied, n.open)
  {
    SameCommandsIff(log, n.applied, At(n));
    var n' := Taken(n);
    assert n'.pending[|n.pending|] == Snap(n.applied, n.sm);
    assert HasCommand(log, n.applied, At(n)) <==> HasCommand(log, n.applied, n.open);
  }

  lemma BatchedSoundIff<C>(log: seq<Entry<C>>, count: nat, n: Node, k: nat)
    requires Sound(log, n) && Placed(n) && n.delivered < k <= |log|
    ensures Sound(log, Batched(log, count, n, k)) <==> Faithful(log, count, n, Batch(k))
    ensures Placed(Batched(log, count, n, k))
  {
    ReplayedSound(log, n.open, n.sm, n.delivered, k);
    var n' := n.(sm := Replayed(log, n.open, n.sm, n.delivered, k), delivered := k, applied := k);
    assert Sound(log, n');
    TakenSoundIff(log, n');
  }

  lemma InstalledSoundIff<C>(log: seq<Entry<C>>, count: nat, n: Node, j: nat)
    requires Sound(log, n) && Placed(n) && n.applied < j <= |log|
    ensures Sound(log, Next(log, count, n, Install(j)).node) <==> Faithful(log, count, n, Install(j))
  {
    var n' := Next(log, count, n, Install(j)).node;
    SameCommandsIff(log, j, At(n'));
    assert HasCommand(log, j, At(n')) <==> HasCommand(log, j, n.open);
    assert At(n) <= At(n');
  }

  /** Each event keeps soundness exactly if it is faithful; and a memory machine never panics on a replay. */
  lemma NextSoundIff<C>(log: seq<Entry<C>>, count: nat, n: Node, e: Event)
    requires Sound(log, n) && Placed(n)
    ensures Next(log, count, n, e).Runs? ==>
              && Placed(Next(log, count, n, e).node)
              && (Sound(log, Next(log, count, n, e).node) <==> Faithful(log, count, n, e))
    ensures e.Batch? ==> !Next(log, count, n, e).Panics?
  {
    match e
    case Batch(k) =>
      if n.delivered < k <= |log| { BatchedSoundIff(log, count, n, k); }
    case Manual => TakenSoundIff(log, n);
    case Install(j) =>
      if n.applied < j <= |log| { InstalledSoundIff(log, count, n, j); }
    case _ =>
  }

  /** Every event of the run that takes place is faithful. */
  ghost predicate AllFaithful<C>(log: seq<Entry<C>>, count: nat, n: Node, es: seq<Event>)
    decreases |es|
  {
    es == [] ||
    (var front := es[..|es| - 1];
     && AllFaithful(log, count, n, front)
     && (Run(log, count, n, es).Runs? ==> Faithful(log, count, Run(log, count, n, front).node, es[|es| - 1])))
  }

  /** The node is sound after every part of the run. */
  ghost predicate AllSound<C>(log: seq<Entry<C>>, count: nat, n: Node, es: seq<Event>)
    decreases |es|
  {
    && (Run(log, count, n, es).Runs? ==> Sound(log, Run(log, count, n, es).node))
    && (es == [] || AllSound(log, count, n, es[..|es| - 1]))
  }

  /** A whole run, with any number of crashes, is sound throughout exactly if all its events are faithful. */
  lemma {:induction false} RunSoundIff<C>(log: seq<Entry<C>>, count: nat, disk: bool, es: seq<Event>)
    ensures AllSound(log, count, Init(disk), es) <==> AllFaithful(log, count, Init(disk), es)
    ensures AllSound(log, count, Init(disk), es) && Run(log, count, Init(disk), es).Runs? ==>
              Placed(Run(log, count, Init(disk), es).node) && Sound(log, Run(log, count, Init(disk), es).node)
  {
    if es == [] {
    } else {
      var front := es[..|es| - 1];
      RunSoundIff(log, count, disk, front);
      var r := Run(log, count, Init(disk), front);
      if AllSound(log, count, Init(disk), front) && r.Runs? {
        NextSoundIff(log, count, r.node, es[|es| - 1]);
      }
    }
  }

  /** A memory machine is sound in every run, and never finds an entry it has applied before. */
  lemma {:induction false} MemorySound<C>(log: seq<Entry<C>>, count: nat, es: seq<Event>)
    requires Run(log, count, Init(false), es).Runs?
    ensures var n := Run(log, count, Init(false), es).node;
            && Sound(log, n) && Placed(n) && !n.disk && n.applied == n.delivered == At(n)
            && forall k :: !Next(log, count, n, Batch(k)).Panics?
  {
    if es == [] {
    } else {
      MemorySound(log, count, es[..|es| - 1]);
      var n, e := Run(log, count, Init(false), es[..|es| - 1]).node, es[|es| - 1];
      NextSoundIff(log, count, n, e);
    }
    var n := Run(log, count, Init(false), es).node;
    forall k: nat
      ensures !Next(log, count, n, Batch(k)).Panics?
    {
      NextSoundIff(log, count, n, Batch(k));
    }
  }

  lemma {:induction false} EvaluatedIsFolded<S, C>(step: (S, C) -> S, s: S, log: seq<Entry<C>>, k: nat)
    requires k <= |log|
    ensures Evaluated(step, s, log, Commands(log, k)) == Folded(step, s, log, k)
  {
    if k == 0 {
    } else {
      EvaluatedIsFolded(step, s, log, k - 1);
      if log[k - 1].Command? {
        var all := Commands(log, k);
        assert all[..|all| - 1] == Commands(log, k - 1) && all[|all| - 1] == k;
      } else {
        assert Commands(log, k) == Commands(log, k - 1);
      }
    }
  }

  /**
   Once a faithful run has replayed up to an entry, any state machine is in the state of the uninterrupted run
   up to that entry, whatever crashes there were.
   */
  lemma ReplayReachesFold<S, C>(log: seq<Entry<C>>, count: nat, disk: bool, es: seq<Event>, step: (S, C) -> S, s: S)
    requires AllFaithful(log, count, Init(disk), es) && Run(log, count, Init(disk), es).Runs?
    requires Run(log, count, Init(disk), es).node.open <= Run(log, count, Init(disk), es).node.delivered
    ensures var n := Run(log, count, Init(disk), es).node;
            && n.delivered <= |log|
            && Evaluated(step, s, log, n.sm) == Folded(step, s, log, n.delivered)
  {
    RunSoundIff(log, count, disk, es);
    EvaluatedIsFolded(step, s, log, Run(log, count, Init(disk), es).node.delivered);
  }

  // ---------------------------------------------------------------- the snapshot trigger

  /** No caller asks for a snapshot between the start of a disk machine and its first batch. */
  ghost predicate Patient<C>(log: seq<Entry<C>>, count: nat, n: Node, es: seq<Event>)
    decreases |es|
  {
    es == [] ||
    (var front := es[..|es| - 1]; var r := Run(log, count, n, front);
     && Patient(log, count, n, front)
     && (es[|es| - 1].Manual? && r.Runs? ==> r.node.applied == r.node.delivered))
  }

  /** What the recorded snapshot index, and every snapshot to come, can be. */
  ghost predicate Behindhand(n: Node) {
    && n.snapshotIndex <= n.delivered
    && (n.snap.Some? ==> n.snap.value.index <= n.delivered)
    && (forall i :: 0 <= i < |n.pending| ==> n.pending[i].index <= n.delivered)
    && (n.applied == n.delivered || n.delivered < n.applied)
  }

  /** Only a snapshot asked for before the first batch gets ahead of what raft has handed out. */
  lemma NextBehindhandIff<C>(log: seq<Entry<C>>, count: nat, n: Node, e: Event)
    requires Behindhand(n) && Next(log, count, n, e).Runs?
    ensures Behindhand(Next(log, count, n, e).node) <==> (e.Manual? ==> n.applied == n.delivered)
  {
  }

  ghost predicate AllBehindhand<C>(log: seq<Entry<C>>, count: nat, n: Node, es: seq<Event>)
    decreases |es|
  {
    && (Run(log, count, n, es).Runs? ==> Behindhand(Run(log, count, n, es).node))
    && (es == [] || AllBehindhand(log, count, n, es[..|es| - 1]))
  }

  /** The recorded snapshot index stays behind throughout a run exactly if there is no such early snapshot. */
  lemma {:induction false} RunBehindhandIff<C>(log: seq<Entry<C>>, count: nat, disk: bool, es: seq<Event>)
    ensures AllBehindhand(log, count, Init(disk), es) <==> Patient(log, count, Init(disk), es)
  {
    if es == [] {
    } else {
      var front := es[..|es| - 1];
      RunBehindhandIff(log, count, disk, front);
      var r := Run(log, count, Init(disk), front);
      if AllBehindhand(log, count, Init(disk), front) && r.Runs? && Run(log, count, Init(disk), es).Runs? {
        NextBehindhandIff(log, count, r.node, es[|es| - 1]);
      }
    }
  }

  /** A batch's subtraction gives the true distance exactly if the last snapshot is not ahead of the batch. */
  lemma WrapsIff(n: Node, k: nat)
    requires k < TWO64 && n.snapshotIndex < TWO64
    ensures Behind(n.(applied := k)) == k - n.snapshotIndex <==> n.snapshotIndex <= k
  {
  }

  /** In a run without such early snapshots the subtraction of the next batch does not wrap. */
  lemma NeverWraps<C>(log: seq<Entry<C>>, count: nat, disk: bool, es: seq<Event>, k: nat)
    requires |log| < TWO64 && Run(log, count, Init(disk), es).Runs? && Patient(log, count, Init(disk), es)
    requires Run(log, count, Init(disk), es).node.delivered < k <= |log|
    ensures var n := Run(log, count, Init(disk), es).node;
            Behind(n.(applied := k)) == k - n.snapshotIndex
  {
    RunBehindhandIff(log, count, disk, es);
    WrapsIff(Run(log, count, Init(disk), es).node, k);
  }

  /** After every batch, of any run, the recorded distance is below the count. */
  lemma BelowCount<C>(log: seq<Entry<C>>, count: nat, n: Node, k: nat)
    requires count >= 1 && n.delivered < k <= |log|
    ensures Behind(Batched(log, count, n, k)) < count
    ensures Behind(n.(applied := k)) == k - n.snapshotIndex ==>
              var n' := Batched(log, count, n, k); n'.applied == k && 0 <= k - n'.snapshotIndex < count
  {
  }

  // ---------------------------------------------------------------- what the machine holds

  /** Between two starts the last entry that the state holds only rises, although the recorded applied index, which
      never exceeds it, may fall. */
  lemma HeldRises<C>(log: seq<Entry<C>>, count: nat, n: Node, e: Event)
    requires Placed(n) && Next(log, count, n, e).Runs?
    ensures n.applied <= At(n)
    ensures !e.Restart? ==> At(n) <= At(Next(log, count, n, e).node)
  {
  }

  // ---------------------------------------------------------------- snapshots that come too late

  function LastSaved(n: Node): nat { if n.snap.Some? then n.snap.value.index else 0 }

  /** The index of the snapshot that was taken last. */
  function LastTaken(n: Node): nat { if n.pending != [] then n.pending[|n.pending| - 1].index else LastSaved(n) }

  /** Each snapshot is later than the one before it, and the first is later than `from`. */
  predicate Rising(from: nat, snaps: seq<Snap>)
    decreases |snaps|
  {
    snaps == [] || (snaps[0].index > from && Rising(snaps[0].index, snaps[1..]))
  }

  /** The node after all snapshots that were taken are complete, with nothing else in between. */
  function Flushed<C>(log: seq<Entry<C>>, count: nat, n: Node): Outcome
    decreases |n.pending|
  {
    if n.pending == [] then Runs(n)
    else
      match Next(log, count, n, Persist)
      case Runs(n') => Flushed(log, count, n')
      case stopped => stopped
  }

  ghost predicate InTime(n: Node) { Rising(LastSaved(n), n.pending) }

  /** Completing them brings the node down exactly if one is not later than the one before it. */
  lemma {:induction false} FlushPanicsIff<C>(log: seq<Entry<C>>, count: nat, n: Node)
    ensures Flushed(log, count, n).Panics? <==> !InTime(n)
    ensures !Flushed(log, count, n).Refused?
    decreases |n.pending|
  {
    if n.pending == [] {
    } else if n.pending[0].index > LastSaved(n) {
      FlushPanicsIff(log, count, n.(snap := Some(n.pending[0]), pending := n.pending[1..]));
    }
  }

  lemma {:induction false} RisingAppended(from: nat, snaps: seq<Snap>, s: Snap)
    ensures Rising(from, snaps + [s]) <==>
            Rising(from, snaps) && s.index > if snaps == [] then from else snaps[|snaps| - 1].index
    decreases |snaps|
  {
    if snaps == [] {
      assert (snaps + [s])[1..] == [];
    } else {
      assert (snaps + [s])[1..] == snaps[1..] + [s];
      RisingAppended(snaps[0].index, snaps[1..], s);
    }
  }

  /** The guard that keeps snapshots in time: one that is taken is later than the last one taken, and one that is
      installed is not later than one under way. */
  predicate Orderly(count: nat, n: Node, e: Event) {
    match e
    case Batch(k) => Behind(n.(applied := k)) >= count ==> k > LastTaken(n)
    case Manual => n.applied > LastTaken(n)
    case Install(j) => n.pending == [] || n.pending[0].index > j
    case _ => true
  }

  lemma NextInTimeIff<C>(log: seq<Entry<C>>, count: nat, n: Node, e: Event)
    requires InTime(n) && Next(log, count, n, e).Runs?
    ensures InTime(Next(log, count, n, e).node) <==> Orderly(count, n, e)
  {
    match e
    case Batch(k) => RisingAppended(LastSaved(n), n.pending, Snap(k, Replayed(log, n.open, n.sm, n.delivered, k)));
    case Manual => RisingAppended(LastSaved(n), n.pending, Snap(n.applied, n.sm));
    case _ =>
  }

  ghost predicate AllOrderly<C>(log: seq<Entry<C>>, count: nat, n: Node, es: seq<Event>)
    decreases |es|
  {
    es == [] ||
    (var front := es[..|es| - 1];
     && AllOrderly(log, count, n, front)
     && (Run(log, count, n, es).Runs? ==> Orderly(count, Run(log, count, n, front).node, es[|es| - 1])))
  }

  ghost predicate AllInTime<C>(log: seq<Entry<C>>, count: nat, n: Node, es: seq<Event>)
    decreases |es|
  {
    && (Run(log, count, n, es).Runs? ==> !Flushed(log, count, Run(log, count, n, es).node).Panics?)
    && (es == [] || AllInTime(log, count, n, es[..|es| - 1]))
  }

  /** At no point of a run will the snapshots under way bring the node down, exactly if its events are orderly. */
  lemma {:induction false} RunInTimeIff<C>(log: seq<Entry<C>>, count: nat, disk: bool, es: seq<Event>)
    ensures AllInTime(log, count, Init(disk), es) <==> AllOrderly(log, count, Init(disk), es)
  {
    var r := Run(log, count, Init(disk), es);
    if r.Runs? { FlushPanicsIff(log, count, r.node); }
    if es == [] {
    } else {
      var front := es[..|es| - 1];
      RunInTimeIff(log, count, disk, front);
      var before := Run(log, count, Init(disk), front);
      if AllInTime(log, count, Init(disk), front) && r.Runs? {
        FlushPanicsIff(log, count, before.node);
        NextInTimeIff(log, count, before.node, es[|es| - 1]);
      }
    }
  }

  /** Where a memory machine's indices stand as long as its events are orderly. */
  ghost predicate MemoryPlaced<C>(log: seq<Entry<C>>, n: Node) {
    && !n.disk && n.open <= n.delivered == n.applied <= |log|
    && n.snapshotIndex == LastTaken(n) <= n.applied
    && (forall i :: 0 <= i < |n.pending| ==> n.pending[i].index <= n.applied)
    && LastSaved(n) <= n.applied
  }

  /** For a memory machine that means: a snapshot is asked for only when an entry was applied since the last one, and
      no snapshot is under way when one is installed. */
  lemma MemoryOrderlyIff<C>(log: seq<Entry<C>>, count: nat, n: Node, e: Event)
    requires count >= 1 && |log| < TWO64 && MemoryPlaced(log, n) && Next(log, count, n, e).Runs?
    ensures Orderly(count, n, e) <==>
            match e
            case Manual => n.applied != n.snapshotIndex
            case Install(_) => n.pending == []
            case _ => true
    ensures Orderly(count, n, e) ==> MemoryPlaced(log, Next(log, count, n, e).node)
  {
    if e.Batch? { WrapsIff(n, e.k); }
  }

  lemma {:induction false} RunMemoryPlaced<C>(log: seq<Entry<C>>, count: nat, es: seq<Event>)
    requires count >= 1 && |log| < TWO64 && AllOrderly(log, count, Init(false), es) && Run(log, count, Init(false), es).Runs?
    ensures MemoryPlaced(log, Run(log, count, Init(false), es).node)
  {
    if es == [] {
    } else {
      RunMemoryPlaced(log, count, es[..|es| - 1]);
      MemoryOrderlyIff(log, count, Run(log, count, Init(false), es[..|es| - 1]).node, es[|es| - 1]);
    }
  }

  /** A snapshot that a caller asks of a memory machine brings the node down exactly if no entry was applied since the
      last one. */
  lemma ManualPanicsIff<C>(log: seq<Entry<C>>, count: nat, es: seq<Event>)
    requires count >= 1 && |log| < TWO64 && AllOrderly(log, count, Init(false), es) && Run(log, count, Init(false), es).Runs?
    ensures var n := Run(log, count, Init(false), es).node;
            Flushed(log, count, Taken(n)).Panics? <==> n.applied == n.snapshotIndex
  {
    var n := Run(log, count, Init(false), es).node;
    RunMemoryPlaced(log, count, es);
    RunInTimeIff(log, count, false, es);
    FlushPanicsIff(log, count, n);
    NextInTimeIff(log, count, n, Manual);
    FlushPanicsIff(log, count, Taken(n));
  }

  /** A second snapshot right after the first brings a memory machine down. */
  lemma SecondSnapshotPanics<C>(c: C)
    ensures Run([Command(c)], 10, Init(false), [Batch(1), Manual] + [Persist] + [Manual] + [Persist]).Panics?
  {
    var log, n0 := [Command(c)], Init(false);
    assert Replayed(log, 0, [], 0, 1) == [1] by { assert Replayed(log, 0, [], 0, 0) == []; }
    Extend(log, 10, n0, [], Batch(1));
    Extend(log, 10, n0, [Batch(1)], Manual);
    assert [] + [Batch(1)] == [Batch(1)] && [Batch(1)] + [Manual] == [Batch(1), Manual];
    Extend(log, 10, n0, [Batch(1), Manual], Persist);
    Extend(log, 10, n0, [Batch(1), Manual] + [Persist], Manual);
    Extend(log, 10, n0, [Batch(1), Manual] + [Persist] + [Manual], Persist);
  }

  // ---------------------------------------------------------------- what goes wrong on a disk machine

  lemma {:induction false} Extend<C>(log: seq<Entry<C>>, count: nat, n: Node, es: seq<Event>, e: Event)
    ensures Run(log, count, n, es).Runs? ==>
              Run(log, count, n, es + [e]) == Next(log, count, Run(log, count, n, es).node, e)
  {
    assert (es + [e])[..|es + [e]| - 1] == es;
  }

  lemma ThreeCommands<C>(c: C)
    ensures Commands([Command(c), Command(c), Command(c)], 3) == [1, 2, 3]
  {
    var log := [Command(c), Command(c), Command(c)];
    assert Commands(log, 0) == [];
    assert Commands(log, 1) == [1];
    assert Commands(log, 2) == [1, 2];
  }

  /** A disk machine comes back with all three commands and takes a snapshot while it replays the second. */
  lemma MislabelledSnapshot<C>(c: C)
    ensures var log := [Command(c), Command(c), Command(c)];
            Run(log, 2, Init(true), [Batch(3), Restart(3, false), Batch(2)])
            == Runs(Node(true, [1, 2, 3], 2, 2, 2, 3, None, [Snap(2, [1, 2, 3])]))
  {
    var log := [Command(c), Command(c), Command(c)];
    ThreeCommands(c);
    var n0 := Init(true);
    Extend(log, 2, n0, [], Batch(3));
    var n1 := Next(log, 2, n0, Batch(3)).node;
    Extend(log, 2, n0, [Batch(3)], Restart(3, false));
    var n2 := Node(true, [1, 2, 3], 0, 0, 0, 3, None, []);
    assert Next(log, 2, n1, Restart(3, false)) == Runs(n2);
    Extend(log, 2, n0, [Batch(3), Restart(3, false)], Batch(2));
    assert Replayed(log, 3, [1, 2, 3], 0, 2) == [1, 2, 3] by { assert Replayed(log, 3, [1, 2, 3], 0, 1) == [1, 2, 3]; }
    assert [Batch(3), Restart(3, false)] + [Batch(2)] == [Batch(3), Restart(3, false), Batch(2)];
    assert [] + [Batch(3)] == [Batch(3)] && [Batch(3)] + [Restart(3, false)] == [Batch(3), Restart(3, false)];
  }

  /**
   A snapshot taken while a disk machine replays entries that it has already holds more than its index says;
   a machine rebuilt from it applies a command twice.
   */
  lemma AppliesTwice<C>(c: C)
    ensures var log := [Command(c), Command(c), Command(c)];
            var r := Run(log, 2, Init(true), [Batch(3), Restart(3, false), Batch(2)] + [Persist] + [Restart(0, true)] + [Batch(3)]);
            r.Runs? && r.node.sm == [1, 2, 3, 3]
  {
    var log := [Command(c), Command(c), Command(c)];
    var n0, es := Init(true), [Batch(3), Restart(3, false), Batch(2)];
    MislabelledSnapshot(c);
    Extend(log, 2, n0, es, Persist);
    Extend(log, 2, n0, es + [Persist], Restart(0, true));
    var n5 := Node(true, [1, 2, 3], 2, 2, 2, 2, Some(Snap(2, [1, 2, 3])), []);
    Extend(log, 2, n0, es + [Persist] + [Restart(0, true)], Batch(3));
    assert Run(log, 2, n0, es + [Persist] + [Restart(0, true)]) == Runs(n5);
    assert Replayed(log, 2, [1, 2, 3], 2, 3) == [1, 2, 3, 3] by { assert Replayed(log, 2, [1, 2, 3], 2, 2) == [1, 2, 3]; }
  }

  /** A snapshot asked for before the first batch makes the subtraction of that batch wrap. */
  lemma Wraps<C>(c: C)
    ensures var log := [Command(c), Command(c), Command(c)];
            var r := Run(log, 10, Init(true), [Batch(1), Manual, Persist, Batch(3), Restart(3, false), Manual]);
            r.Runs? && r.node.snapshotIndex == 3 && r.node.delivered == 1
            && Behind(r.node.(applied := 2)) == TWO64 - 1
  {
    var log := [Command(c), Command(c), Command(c)];
    ThreeCommands(c);
    var n0 := Init(true);
    assert Replayed(log, 0, [], 0, 1) == [1] by { assert Replayed(log, 0, [], 0, 0) == []; }
    var es: seq<Event> := [];
    Extend(log, 10, n0, es, Batch(1));
    var n1 := Next(log, 10, n0, Batch(1)).node;
    es := es + [Batch(1)];
    Extend(log, 10, n0, es, Manual);
    es := es + [Manual];
    Extend(log, 10, n0, es, Persist);
    var n2 := Next(log, 10, Taken(n1), Persist).node;
    assert n2 == Node(true, [1], 1, 1, 1, 0, Some(Snap(1, [1])), []);
    es := es + [Persist];
    Extend(log, 10, n0, es, Batch(3));
    var n3 := Next(log, 10, n2, Batch(3)).node;
    assert At(n3) == 3;
    es := es + [Batch(3)];
    Extend(log, 10, n0, es, Restart(3, false));
    var n4 := Next(log, 10, n3, Restart(3, false)).node;
    assert n4 == Node(true, [1, 2, 3], 1, 3, 1, 3, Some(Snap(1, [1])), []);
    es := es + [Restart(3, false)];
    Extend(log, 10, n0, es, Manual);
    assert es + [Manual] == [Batch(1), Manual, Persist, Batch(3), Restart(3, false), Manual];
  }

  // ---------------------------------------------------------------- the apply loop

  class Applier<C> {
    const disk: bool
    const count: nat
    var sm: seq<nat>
    var applied: nat
    var snapshotIndex: nat
    var open: nat
    var taken: seq<Snap>

    constructor (disk: bool, count: nat)
      ensures this.disk == disk && this.count == count
      ensures sm == [] && applied == 0 && snapshotIndex == 0 && open == 0 && taken == []
    {
      this.disk, this.count, sm, applied, snapshotIndex, open, taken := disk, count, [], 0, 0, 0, [];
    }

    /** Opens the state machine over the last snapshot; `reported` is what a disk machine reports. */
    method OpenDisk(reported: nat, rebuild: bool, state: seq<nat>, snap: Option<Snap>) returns (ok: bool)
      requires disk
      modifies this
      ensures ok <==> rebuild || snap.None? || reported >= snap.value.index
      ensures ok && !rebuild ==> sm == state && open == reported && snapshotIndex == (if snap.Some? then snap.value.index else 0)
      ensures ok && !rebuild ==> applied == if snap.Some? then Max(reported, snap.value.index) else 0
      ensures ok && rebuild && snap.Some? ==> sm == snap.value.applied && open == applied == snapshotIndex == snap.value.index
      ensures ok && rebuild && snap.None? ==> sm == [] && open == applied == snapshotIndex == 0
    {
      open, applied, snapshotIndex := 0, 0, 0;
      if rebuild {
        sm := [];
        if snap.Some? {
          sm := snap.value.applied;
          open := snap.value.index;
        }
      } else {
        if snap.Some? && reported < snap.value.index { return false; }
        sm := state;
        open := reported;
      }
      InitializeStatus(snap);
      return true;
    }

    method OpenMemory(snap: Option<Snap>)
      requires !disk
      modifies this
      ensures snap.Some? ==> sm == snap.value.applied && open == applied == snapshotIndex == snap.value.index
      ensures snap.None? ==> sm == [] && open == applied == snapshotIndex == 0
    {
      sm, open, applied, snapshotIndex := [], 0, 0, 0;
      if snap.Some? {
        sm := snap.value.applied;
        open := snap.value.index;
      }
      InitializeStatus(snap);
    }

    method InitializeStatus(snap: Option<Snap>)
      modifies this`applied, this`snapshotIndex
      ensures snap.Some? ==> snapshotIndex == snap.value.index && applied == Max(open, snap.value.index)
      ensures snap.None? ==> snapshotIndex == old(snapshotIndex) && applied == old(applied)
    {
      if snap.Some? {
        applied := snap.value.index;
        snapshotIndex := snap.value.index;
        if open > snap.value.index { applied := open; }
      }
    }

    /** The entries in (from, k]. The result is false where the loop panics. */
    method ApplyEntries(log: seq<Entry<C>>, from: nat, k: nat) returns (ok: bool)
      requires from <= k <= |log|
      modifies this`sm, this`applied
      ensures ok <==> disk || !HasCommand(log, from, if k <= open then k else open)
      ensures ok ==> sm == Replayed(log, open, old(sm), from, k) && applied == if from < k then k else old(applied)
    {
      var i := from;
      while i < k
        invariant from <= i <= k
        invariant sm == Replayed(log, open, old(sm), from, i) && applied == old(applied)
        invariant disk || !HasCommand(log, from, if i <= open then i else open)
      {
        match log[i] {
          case Nil =>
          case ConfChange =>
          case Command(c) =>
            if i + 1 <= open {
              if !disk {
                assert HasCommand(log, from, if k <= open then k else open);
                return false;
              }
            } else {
              sm := sm + [i + 1];
            }
        }
        i := i + 1;
      }
      if from < k { applied := k; }
      return true;
    }

    /** A batch of entries as the state machine's loop handles it. */
    method ProcessBatch(log: seq<Entry<C>>, from: nat, k: nat) returns (ok: bool)
      requires from <= k <= |log|
      modifies this
      ensures open == old(open)
      ensures ok <==> disk || !HasCommand(log, from, if k <= open then k else open)
      ensures ok ==> forall snap :: var n := Node(disk, old(sm), from, old(applied), old(snapshotIndex), open, snap, old(taken));
                                    Batched(log, count, n, k) == Node(disk, sm, k, applied, snapshotIndex, open, snap, taken)
    {
      ok := ApplyEntries(log, from, k);
      if !ok { return; }
      if (applied - snapshotIndex) % TWO64 < count { return; }
      TriggerSnapshot();
    }

    method TriggerSnapshot()
      modifies this`snapshotIndex, this`taken
      ensures snapshotIndex == applied && taken == old(taken) + [Snap(applied, sm)]
    {
      snapshotIndex := applied;
      taken := taken + [Snap(applied, sm)];
    }
  }
}
