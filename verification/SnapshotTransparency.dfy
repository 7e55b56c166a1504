/**
 Saving the sessions at any point of the log and going on from the restored ones makes the same
 decisions as going on without a snapshot.
 */
module SnapshotTransparency {
  import opened Common
  import opened Sessions
  import opened ExactlyOnce
  import opened SessionSnapshot

  function NormalOption<R>(s: Option<SessionV<R>>): Option<SessionV<R>> {
    if s.None? then None else Some(NormalSession(s.value))
  }

  // ---------------------------------------------------------------------------
  // Every manager operation commutes with what a snapshot does to the results
  // ---------------------------------------------------------------------------

  lemma {:induction false} FindInNormal<R>(order: seq<SessionV<R>>, id: nat)
    ensures FindIn(NormalList(order), id) == NormalOption(FindIn(order, id))
  {
    if order == [] {
    } else {
      assert NormalList(order)[1..] == NormalList(order[1..]);
      FindInNormal(order[1..], id);
    }
  }

  lemma {:induction false} WithoutNormal<R>(order: seq<SessionV<R>>, id: nat)
    ensures Without(NormalList(order), id) == NormalList(Without(order, id))
  {
    if order == [] {
    } else {
      assert NormalList(order)[1..] == NormalList(order[1..]);
      WithoutNormal(order[1..], id);
    }
  }

  lemma SessionNormal<R>(m: Manager<R>, id: nat)
    ensures Session(NormalManager(m), id) == NormalOption(Session(m, id))
  {
    if m.Lru? { FindInNormal(m.order, id); }
  }

  lemma TouchedNormal<R>(m: Manager<R>, id: nat)
    requires Session(m, id).Some?
    ensures Session(NormalManager(m), id).Some?
    ensures NormalManager(Touched(m, id)) == Touched(NormalManager(m), id)
  {
    SessionNormal(m, id);
    if m.Lru? {
      FindInNormal(m.order, id);
      WithoutNormal(m.order, id);
      assert NormalList([FindIn(m.order, id).value] + Without(m.order, id))
          == [NormalSession(FindIn(m.order, id).value)] + NormalList(Without(m.order, id));
    }
  }

  lemma RegisteredNormal<R>(m: Manager<R>, id: nat, now: int)
    ensures NormalManager(Registered(m, id, now)) == Registered(NormalManager(m), id, now)
  {
    SessionNormal(m, id);
    assert NormalSession<R>(NewSession(id, now)) == NewSession(id, now);
    if Session(m, id).None? {
      match m
      case Lru(max, order) =>
        var pushed := [NewSession<R>(id, now)] + order;
        assert NormalList(pushed) == [NewSession<R>(id, now)] + NormalList(order);
        assert NormalList(pushed[..|pushed| - 1]) == NormalList(pushed)[..|pushed| - 1];
      case Expired(_, table) =>
        assert NormalTable(table[id := NewSession(id, now)]) == NormalTable(table)[id := NewSession(id, now)];
    }
  }

  lemma UnregisteredNormal<R>(m: Manager<R>, id: nat)
    ensures NormalManager(Unregistered(m, id)) == Unregistered(NormalManager(m), id)
  {
    match m
    case Lru(_, order) => WithoutNormal(order, id);
    case Expired(_, table) => assert NormalTable(table - {id}) == NormalTable(table) - {id};
  }

  lemma AfreshNormal<R>(m: Manager<R>, now: int)
    ensures NormalManager(Afresh(m, now)) == Afresh(NormalManager(m), now)
  {}

  lemma StoredNormal<R>(m: Manager<R>, s: SessionV<R>)
    ensures NormalManager(Stored(m, s)) == Stored(NormalManager(m), NormalSession(s))
  {
    match m
    case Lru(_, order) =>
      assert NormalList(Replaced(order, s)) == Replaced(NormalList(order), NormalSession(s));
    case Expired(_, table) =>
      if s.id in table {
        assert NormalTable(table[s.id := s]) == NormalTable(table)[s.id := NormalSession(s)];
      }
  }

  lemma ClearedNormal<R>(s: SessionV<R>, lowest: nat)
    ensures NormalSession(Cleared(s, lowest)) == Cleared(NormalSession(s), lowest)
  {
    assert NormalResults(Cleared(s, lowest).results) == Cleared(NormalSession(s), lowest).results;
  }

  lemma WithResultNormal<R>(s: SessionV<R>, q: nat, at: int, r: ApplyResult<R>)
    ensures NormalSession(WithResult(s, q, at, r)) == WithResult(NormalSession(s), q, at, Normal(r))
  {
    assert NormalResults(s.results[q := r]) == NormalResults(s.results)[q := Normal(r)];
  }

  lemma NormalKeepsEmpty<R>(r: ApplyResult<R>)
    ensures Normal(r).IsEmpty() <==> r.IsEmpty()
  {}

  // ---------------------------------------------------------------------------
  // Nodes that differ only in what a snapshot drops stay that way
  // ---------------------------------------------------------------------------

  ghost predicate Alike<S, R>(a: Node<S, R>, b: Node<S, R>) {
    NormalManager(a.sessions) == NormalManager(b.sessions) && a.machine == b.machine && a.panicked == b.panicked
  }

  function NormalReply<R>(r: Option<ApplyResult<R>>): Option<ApplyResult<R>> {
    if r.None? then None else Some(Normal(r.value))
  }

  /** The same decision, and the same reply as far as a snapshot keeps it. */
  ghost predicate SameDeed<R>(d: Did<R>, e: Did<R>) {
    d.found == e.found && d.executed == e.executed && NormalReply(d.reply) == NormalReply(e.reply)
  }

  /** A command step, described on the normalised sessions only. */
  lemma CommandNormal<S, C, R>(a: Node<S, R>, e: Entry<C>, f: (S, nat, C) -> (S, ApplyResult<R>))
    requires e.Command?
    ensures var m := Afresh(NormalManager(a.sessions), e.now);
            var (t, d) := CommandStep(a, e, f);
            var (machine, r) := Execute(a.machine, e, f);
            if e.sid == 0 then
              NormalManager(t.sessions) == m && t.machine == machine && !t.panicked && d == Did(false, true, Some(r))
            else if Session(m, e.sid).None? then
              NormalManager(t.sessions) == m && t.machine == a.machine && t.panicked == a.panicked
              && !d.found && !d.executed && d.reply == Some(ApplyResult(e.index, None, Some(NOT_FOUND)))
            else
              var s := Session(m, e.sid).value;
              var kept := Cleared(s, e.lowest);
              var at := if e.conf then e.now else e.doneAt;
              if e.seqNum in s.results && (e.conf || !s.results[e.seqNum].IsEmpty()) then
                && NormalManager(t.sessions) == Stored(Touched(m, e.sid), kept)
                && t.machine == a.machine && t.panicked == a.panicked
                && d.found && !d.executed && NormalReply(d.reply) == Some(s.results[e.seqNum])
              else if e.seqNum in kept.results then
                && NormalManager(t.sessions) == Stored(Touched(m, e.sid), kept)
                && t.machine == machine && t.panicked && d == Did(true, true, None)
              else
                && NormalManager(t.sessions) == Stored(Touched(m, e.sid), WithResult(kept, e.seqNum, at, Normal(r)))
                && t.machine == machine && !t.panicked && d == Did(true, true, Some(r))
  {
    var m := Afresh(a.sessions, e.now);
    AfreshNormal(a.sessions, e.now);
    SessionNormal(m, e.sid);
    if e.sid != 0 && Session(m, e.sid).Some? {
      var s := Session(m, e.sid).value;
      var kept := Cleared(s, e.lowest);
      var (machine, r) := Execute(a.machine, e, f);
      var at := if e.conf then e.now else e.doneAt;
      TouchedNormal(m, e.sid);
      ClearedNormal(s, e.lowest);
      StoredNormal(Touched(m, e.sid), kept);
      StoredNormal(Touched(m, e.sid), WithResult(kept, e.seqNum, at, r));
      WithResultNormal(kept, e.seqNum, at, r);
      if e.seqNum in s.results { NormalKeepsEmpty(s.results[e.seqNum]); }
    }
  }

  lemma StepAlike<S, C, R>(a: Node<S, R>, b: Node<S, R>, e: Entry<C>, f: (S, nat, C) -> (S, ApplyResult<R>))
    requires Alike(a, b)
    ensures Alike(Step(a, e, f).0, Step(b, e, f).0) && SameDeed(Step(a, e, f).1, Step(b, e, f).1)
  {
    if !a.panicked {
      match e
      case Register(index, now) =>
        RegisteredNormal(a.sessions, index, now);
        RegisteredNormal(b.sessions, index, now);
        SessionNormal(a.sessions, index);
        SessionNormal(b.sessions, index);
      case Unregister(_, sid) =>
        UnregisteredNormal(a.sessions, sid);
        UnregisteredNormal(b.sessions, sid);
        SessionNormal(a.sessions, sid);
        SessionNormal(b.sessions, sid);
      case Command(_, _, _, _, _, _, _, _) =>
        CommandNormal(a, e, f);
        CommandNormal(b, e, f);
      case _ =>
    }
  }

  /** From nodes that differ only in what a snapshot drops, every log leads to the same decisions. */
  lemma {:induction false} RunAlike<S, C, R>(a: Node<S, R>, b: Node<S, R>, es: seq<Entry<C>>, f: (S, nat, C) -> (S, ApplyResult<R>))
    requires Alike(a, b)
    ensures Alike(Run(a, es, f).0, Run(b, es, f).0)
    ensures forall i :: 0 <= i < |es| ==> SameDeed(Run(a, es, f).1[i], Run(b, es, f).1[i])
  {
    if es == [] {
    } else {
      var fs := es[..|es| - 1];
      RunAlike(a, b, fs, f);
      StepAlike(Run(a, fs, f).0, Run(b, fs, f).0, es[|es| - 1], f);
    }
  }

  lemma {:induction false} NormalListTwice<R>(list: seq<SessionV<R>>)
    ensures NormalList(NormalList(list)) == NormalList(list)
  {
    forall i | 0 <= i < |list|
      ensures NormalSession(NormalSession(list[i])) == NormalSession(list[i])
    {
      NormalTwice(list[i]);
    }
  }

  lemma NormalTwice<R>(s: SessionV<R>)
    ensures NormalSession(NormalSession(s)) == NormalSession(s)
  {
    assert NormalResults(NormalResults(s.results)) == NormalResults(s.results);
  }

  lemma RestoredIsAlike<R>(m: Manager<R>)
    ensures NormalManager(NormalManager(m)) == NormalManager(m)
  {
    match m
    case Lru(_, order) => NormalListTwice(order);
    case Expired(_, table) =>
      forall id | id in table
        ensures NormalSession(NormalSession(table[id])) == NormalSession(table[id])
      {
        NormalTwice(table[id]);
      }
      assert NormalTable(NormalTable(table)) == NormalTable(table);
  }

  /** Snapshot transparency, LRU manager: after any log `es`, writing the sessions (results in whatever
      order), restoring them and applying any further log `more` executes exactly the commands that
      would be executed without the snapshot, with the same replies up to what a snapshot drops. */
  lemma LruTransparent<S, C, R(!new)>(c: ResponseCodec<R>, n: Node<S, R>, es: seq<Entry<C>>, more: seq<Entry<C>>, f: (S, nat, C) -> (S, ApplyResult<R>), orders: seq<seq<nat>>)
    requires Faithful(c)
    requires var m := Run(n, es, f).0.sessions;
             m.Lru? && Orders(m.order, orders) && |m.order| < WORD && ReadableList(m.order)
    ensures var p := Run(n, es, f).0;
            var saved := WriteFile(c, LRU_TYPE, p.sessions.order, orders);
            var r := RestoreLru(c, p.sessions.maxSessions, saved);
            && r.Ok?
            && var q := p.(sessions := r.value);
            && (forall i :: 0 <= i < |more| ==> SameDeed(Run(p, more, f).1[i], Run(q, more, f).1[i]))
            && Run(p, more, f).0.machine == Run(q, more, f).0.machine
  {
    var p := Run(n, es, f).0;
    LruRestored(c, p.sessions, orders);
    RestoredIsAlike(p.sessions);
    RunAlike(p, p.(sessions := NormalManager(p.sessions)), more, f);
  }

  /** Snapshot transparency, expiring manager: also for every order in which the sessions are visited. */
  lemma ExpiredTransparent<S, C, R(!new)>(c: ResponseCodec<R>, n: Node<S, R>, es: seq<Entry<C>>, more: seq<Entry<C>>, f: (S, nat, C) -> (S, ApplyResult<R>), ids: seq<nat>, orders: seq<seq<nat>>)
    requires Faithful(c)
    requires var m := Run(n, es, f).0.sessions;
             && m.Expired? && IdsMatch(m) && Enumerates(ids, m.table.Keys) && |ids| < WORD
             && Orders(Visit(m.table, ids), orders) && ReadableTable(m.table)
    ensures var p := Run(n, es, f).0;
            var saved := WriteFile(c, EXPIRED_TYPE, Visit(p.sessions.table, ids), orders);
            var r := RestoreExpired(c, p.sessions.ttl, saved);
            && r.Ok?
            && var q := p.(sessions := r.value);
            && (forall i :: 0 <= i < |more| ==> SameDeed(Run(p, more, f).1[i], Run(q, more, f).1[i]))
            && Run(p, more, f).0.machine == Run(q, more, f).0.machine
  {
    var p := Run(n, es, f).0;
    ExpiredRestored(c, p.sessions, ids, orders);
    RestoredIsAlike(p.sessions);
    RunAlike(p, p.(sessions := NormalManager(p.sessions)), more, f);
  }
}
