/**
 The session managers in the form of the code, proved to behave as the values of `Sessions`, and the
 order of use that the LRU list keeps.
 */
module SessionManagers {
  import opened Common
  import opened Sessions

  // ---------------------------------------------------------------------------
  // Least recently used: the list is the live sessions in order of last use
  // ---------------------------------------------------------------------------

  datatype Use = Reg(id: nat) | Look(id: nat) | Unreg(id: nat)

  function After<R>(m: Manager<R>, u: Use): Manager<R> {
    match u
    case Reg(id) => Registered(m, id, 0)
    case Look(id) => if Session(m, id).Some? then Touched(m, id) else m
    case Unreg(id) => Unregistered(m, id)
  }

  function AfterAll<R>(max: int, us: seq<Use>): Manager<R> {
    if us == [] then Lru(max, []) else After(AfterAll(max, us[..|us| - 1]), us[|us| - 1])
  }

  /** An operation uses a session if it registers it anew or looks it up while it lives. */
  predicate Uses<R>(m: Manager<R>, u: Use, id: nat) {
    match u
    case Reg(x) => x == id && Session(m, id).None?
    case Look(x) => x == id && Session(m, id).Some?
    case Unreg(_) => false
  }

  /** The position of the last operation that used the session, or -1. */
  function LastUse<R>(max: int, us: seq<Use>, id: nat): int {
    if us == [] then -1
    else if Uses(AfterAll<R>(max, us[..|us| - 1]), us[|us| - 1], id) then |us| - 1
    else LastUse<R>(max, us[..|us| - 1], id)
  }

  function RankOf<R>(max: int, us: seq<Use>): nat -> int { (id: nat) => LastUse<R>(max, us, id) }

  /** Ranks fall strictly along the list, from below `top` down to at least 0. */
  ghost predicate Falls<R>(order: seq<SessionV<R>>, rank: nat -> int, top: int) {
    order == [] || (0 <= rank(order[0].id) < top && Falls(order[1..], rank, rank(order[0].id)))
  }

  ghost predicate ByLastUse<R>(max: int, us: seq<Use>, order: seq<SessionV<R>>) {
    Falls(order, RankOf<R>(max, us), |us|)
  }

  lemma {:induction false} FallsPairwise<R>(order: seq<SessionV<R>>, rank: nat -> int, top: int, j: nat)
    requires Falls(order, rank, top) && j < |order|
    ensures 0 <= rank(order[j].id) < top
    ensures forall i :: 0 <= i < j ==> rank(order[i].id) > rank(order[j].id)
  {
    if j == 0 {
    } else {
      var rest := order[1..];
      FallsPairwise(rest, rank, rank(order[0].id), j - 1);
      assert forall i :: 0 < i < j ==> order[i] == rest[i - 1];
    }
  }

  lemma {:induction false} FallsWithout<R>(order: seq<SessionV<R>>, id: nat, rank: nat -> int, top: int)
    requires Falls(order, rank, top)
    ensures Falls(Without(order, id), rank, top)
  {
    if order == [] {
    } else {
      FallsWithout(order[1..], id, rank, rank(order[0].id));
      if order[0].id != id {
        assert Without(order, id)[1..] == Without(order[1..], id);
      }
    }
  }

  lemma {:induction false} FallsPrefix<R>(order: seq<SessionV<R>>, rank: nat -> int, top: int)
    requires Falls(order, rank, top) && order != []
    ensures Falls(order[..|order| - 1], rank, top)
  {
    if |order| > 1 {
      assert order[..|order| - 1][1..] == order[1..][..|order[1..]| - 1];
      FallsPrefix(order[1..], rank, rank(order[0].id));
    }
  }

  /** Only the ranks of the sessions in the list matter. */
  lemma {:induction false} FallsAgain<R>(order: seq<SessionV<R>>, rank: nat -> int, other: nat -> int, top: int, higher: int)
    requires Falls(order, rank, top) && top <= higher
    requires forall i :: 0 <= i < |order| ==> rank(order[i].id) == other(order[i].id)
    ensures Falls(order, other, higher)
  {
    if order == [] {
    } else {
      FallsAgain(order[1..], rank, other, rank(order[0].id), rank(order[0].id));
    }
  }

  lemma {:induction false} WithoutLacks<R>(order: seq<SessionV<R>>, id: nat)
    ensures forall i :: 0 <= i < |Without(order, id)| ==> Without(order, id)[i].id != id
    ensures |Without(order, id)| <= |order|
    ensures FindIn(order, id).Some? ==> |Without(order, id)| < |order|
  {
    if order == [] {
    } else {
      WithoutLacks(order[1..], id);
    }
  }

  lemma LastUseAfter<R>(max: int, vs: seq<Use>, u: Use, id: nat)
    ensures LastUse<R>(max, vs + [u], id)
         == if Uses(AfterAll<R>(max, vs), u, id) then |vs| else LastUse<R>(max, vs, id)
  {
    assert (vs + [u])[..|vs|] == vs;
  }

  /** The sessions an operation does not use keep their rank. */
  lemma OrderKept<R>(max: int, vs: seq<Use>, u: Use, order: seq<SessionV<R>>)
    requires ByLastUse(max, vs, order)
    requires forall i :: 0 <= i < |order| ==> !Uses(AfterAll<R>(max, vs), u, order[i].id)
    ensures Falls(order, RankOf<R>(max, vs + [u]), |vs|)
  {
    forall i | 0 <= i < |order|
      ensures LastUse<R>(max, vs + [u], order[i].id) == LastUse<R>(max, vs, order[i].id)
    {
      LastUseAfter<R>(max, vs, u, order[i].id);
    }
    FallsAgain(order, RankOf<R>(max, vs), RankOf<R>(max, vs + [u]), |vs|, |vs|);
  }

  /** The session an operation uses comes first, before all others. */
  lemma OrderPushed<R>(max: int, vs: seq<Use>, u: Use, s: SessionV<R>, order: seq<SessionV<R>>)
    requires ByLastUse(max, vs, order) && s.id == u.id && Uses(AfterAll<R>(max, vs), u, u.id)
    requires forall i :: 0 <= i < |order| ==> order[i].id != u.id
    ensures ByLastUse(max, vs + [u], [s] + order)
  {
    OrderKept(max, vs, u, order);
    LastUseAfter<R>(max, vs, u, s.id);
    assert ([s] + order)[1..] == order;
  }

  lemma StepOrder<R>(max: int, vs: seq<Use>, u: Use, m: Manager<R>)
    requires m == AfterAll<R>(max, vs) && m.Lru? && m.maxSessions == max
    requires ByLastUse(max, vs, m.order) && |m.order| <= if max < 0 then 0 else max
    ensures After(m, u).Lru? && After(m, u).maxSessions == max
    ensures ByLastUse(max, vs + [u], After(m, u).order)
    ensures |After(m, u).order| <= if max < 0 then 0 else max
  {
    var order := m.order;
    var w := Without(order, u.id);
    WithoutLacks(order, u.id);
    FallsWithout(order, u.id, RankOf<R>(max, vs), |vs|);
    FindInId(order, u.id);
    AbsentMeansSame(order, u.id);
    if Uses(m, u, u.id) {
      var s := if u.Reg? then NewSession(u.id, 0) else FindIn(order, u.id).value;
      OrderPushed(max, vs, u, s, w);
      FallsPrefix([s] + w, RankOf<R>(max, vs + [u]), |vs| + 1);
    } else {
      var kept := After(m, u).order;
      assert kept == w || kept == order;
      OrderKept(max, vs, u, kept);
      FallsAgain(kept, RankOf<R>(max, vs + [u]), RankOf<R>(max, vs + [u]), |vs|, |vs| + 1);
    }
  }

  /** Along every run of Register, GetSession and UnRegister the list is ordered by last use, without
      repeats, and never longer than allowed. */
  lemma {:induction false} LruOrder<R>(max: int, us: seq<Use>)
    ensures AfterAll<R>(max, us).Lru? && AfterAll<R>(max, us).maxSessions == max
    ensures ByLastUse(max, us, AfterAll<R>(max, us).order)
    ensures |AfterAll<R>(max, us).order| <= if max < 0 then 0 else max
  {
    if us == [] {
    } else {
      var vs, u := us[..|us| - 1], us[|us| - 1];
      LruOrder<R>(max, vs);
      assert us == vs + [u];
      StepOrder(max, vs, u, AfterAll<R>(max, vs));
    }
  }

  lemma {:induction false} AbsentMeansSame<R>(order: seq<SessionV<R>>, id: nat)
    ensures FindIn(order, id).None? ==> Without(order, id) == order
  {
    if order == [] {
    } else {
      AbsentMeansSame(order[1..], id);
    }
  }

  /** What a new head pushes off a list is its last element. */
  lemma PushedOff<R>(order: seq<SessionV<R>>, s: SessionV<R>, x: nat, y: nat)
    requires FindIn(order, x).Some? && FindIn(([s] + order)[..|order|], x).None?
    requires FindIn(order, y).Some? && y != x
    ensures order[|order| - 1].id == x && FindIn(([s] + order)[..|order|], y).Some?
    ensures exists j :: 0 <= j < |order| - 1 && order[j].id == y
  {
    var i := IndexOf(order, x);
    var j := IndexOf(order, y);
    var kept := ([s] + order)[..|order|];
    assert forall k :: 0 <= k < |order| - 1 ==> kept[k + 1] == order[k];
    if i < |order| - 1 { FoundAt(kept, i + 1); }
    assert i == |order| - 1 && j < |order| - 1;
    FoundAt(kept, j + 1);
  }

  /** A registration that overflows the list gives up the session that was used least recently. */
  lemma EvictsLeastRecentlyUsed<R>(max: int, us: seq<Use>, id: nat, x: nat)
    requires var m := AfterAll<R>(max, us);
             Session(m, id).None? && Session(m, x).Some? && x != id
    requires Session(After(AfterAll<R>(max, us), Reg(id)), x).None?
    ensures forall y :: Session(AfterAll<R>(max, us), y).Some? && y != x ==>
              LastUse<R>(max, us, x) < LastUse<R>(max, us, y)
              && Session(After(AfterAll<R>(max, us), Reg(id)), y).Some?
  {
    forall y | Session(AfterAll<R>(max, us), y).Some? && y != x
      ensures LastUse<R>(max, us, x) < LastUse<R>(max, us, y)
      ensures Session(After(AfterAll<R>(max, us), Reg(id)), y).Some?
    {
      Evicts<R>(max, us, id, x, y);
    }
  }

  lemma Evicts<R>(max: int, us: seq<Use>, id: nat, x: nat, y: nat)
    requires var m := AfterAll<R>(max, us);
             Session(m, id).None? && Session(m, x).Some? && x != id && Session(m, y).Some? && y != x
    requires Session(After(AfterAll<R>(max, us), Reg(id)), x).None?
    ensures LastUse<R>(max, us, x) < LastUse<R>(max, us, y)
    ensures Session(After(AfterAll<R>(max, us), Reg(id)), y).Some?
  {
    LruOrder<R>(max, us);
    var order := AfterAll<R>(max, us).order;
    var s := NewSession<R>(id, 0);
    var after := After(AfterAll<R>(max, us), Reg(id)).order;
    var i := IndexOf(order, x);
    assert ([s] + order)[i + 1] == order[i];
    FoundAt([s] + order, i + 1);
    assert after == ([s] + order)[..|order|];
    PushedOff(order, s, x, y);
    var j :| 0 <= j < |order| - 1 && order[j].id == y;
    FallsPairwise(order, RankOf<R>(max, us), |us|, |order| - 1);
  }

  lemma {:induction false} IndexOf<R>(order: seq<SessionV<R>>, id: nat) returns (i: nat)
    requires FindIn(order, id).Some?
    ensures i < |order| && order[i].id == id
  {
    if order[0].id == id { i := 0; } else {
      var k := IndexOf(order[1..], id);
      i := k + 1;
    }
  }

  lemma {:induction false} FoundAt<R>(order: seq<SessionV<R>>, i: nat)
    requires i < |order|
    ensures FindIn(order, order[i].id).Some?
  {
    if i == 0 {
    } else {
      FoundAt(order[1..], i - 1);
    }
  }

  // ---------------------------------------------------------------------------
  // The classes
  // ---------------------------------------------------------------------------

  const MAX_INT64: nat := 0x7fff_ffff_ffff_ffff

  class ClientSession<R> {
    const id: nat
    var lastActive: int
    var result: Results<R>

    constructor (id: nat, lastActive: int)
      ensures Value() == NewSession(id, lastActive)
      ensures this.id == id && this.lastActive == lastActive && result == map[]
    {
      this.id, this.lastActive, result := id, lastActive, map[];
    }

    ghost function Value(): SessionV<R>
      reads this
    {
      SessionV(id, lastActive, result)
    }

    method ClearResult(lowest: nat)
      modifies this`result
      ensures Value() == Cleared(old(Value()), lowest)
      ensures forall q :: q in result <==> q in old(result) && q >= lowest
      ensures forall q :: q in result ==> result[q] == old(result)[q]
    {
      var todo := result.Keys;
      while todo != {}
        invariant todo <= old(result).Keys
        invariant result == map q | q in old(result) && (q in todo || q >= lowest) :: old(result)[q]
        decreases todo
      {
        var q :| q in todo;
        todo := todo - {q};
        if q < lowest { result := result - {q}; }
      }
    }

    method AddResult(q: nat, now: int, r: ApplyResult<R>) returns (ok: bool)
      modifies this`result, this`lastActive
      ensures ok <==> q !in old(result)
      ensures Value() == if ok then WithResult(old(Value()), q, now, r) else old(Value())
      ensures ok ==> lastActive == now && result == old(result)[q := r]
      ensures !ok ==> lastActive == old(lastActive) && result == old(result)
    {
      if q in result { return false; }
      lastActive := now;
      result := result[q := r];
      return true;
    }
  }

  ghost function Values<R>(l: seq<ClientSession<R>>): (r: seq<SessionV<R>>)
    reads l
    ensures |r| == |l| && forall i :: 0 <= i < |l| ==> r[i] == l[i].Value()
  {
    seq(|l|, i requires 0 <= i < |l| reads l => l[i].Value())
  }

  /** `list.Remove`: takes one element out. */
  function Removed<T(==)>(l: seq<T>, x: T): seq<T> {
    if l == [] then [] else if l[0] == x then l[1..] else [l[0]] + Removed(l[1..], x)
  }

  predicate IdsDiffer<R>(l: seq<ClientSession<R>>) {
    forall i, j :: 0 <= i < j < |l| ==> l[i].id != l[j].id
  }

  lemma {:induction false} RemovedMembers<R>(l: seq<ClientSession<R>>, s: ClientSession<R>)
    ensures forall x :: x in Removed(l, s) ==> x in l
    ensures forall x :: x in l && x != s ==> x in Removed(l, s)
  {
    if l == [] {
    } else {
      RemovedMembers(l[1..], s);
      assert l == [l[0]] + l[1..];
    }
  }

  lemma IdsDifferCons<R>(x: ClientSession<R>, l: seq<ClientSession<R>>)
    requires IdsDiffer(l) && forall y :: y in l ==> y.id != x.id
    ensures IdsDiffer([x] + l)
  {
    var all := [x] + l;
    forall i, j | 0 <= i < j < |all|
      ensures all[i].id != all[j].id
    {
      assert all[j] == l[j - 1];
      if i == 0 { assert l[j - 1] in l; } else { assert all[i] == l[i - 1]; }
    }
  }

  lemma IdsDifferTail<R>(l: seq<ClientSession<R>>)
    requires IdsDiffer(l) && l != []
    ensures IdsDiffer(l[1..]) && forall y :: y in l[1..] ==> y.id != l[0].id
  {
    var rest := l[1..];
    assert forall i :: 0 <= i < |rest| ==> rest[i] == l[i + 1] && rest[i].id != l[0].id;
  }

  lemma {:induction false} RemovedFrom<R>(l: seq<ClientSession<R>>, s: ClientSession<R>)
    requires IdsDiffer(l)
    ensures IdsDiffer(Removed(l, s)) && s !in Removed(l, s)
  {
    if l == [] {
    } else {
      IdsDifferTail(l);
      if l[0] != s {
        RemovedFrom(l[1..], s);
        RemovedMembers(l[1..], s);
        IdsDifferCons(l[0], Removed(l[1..], s));
      }
    }
  }

  lemma ValuesCons<R>(s: ClientSession<R>, l: seq<ClientSession<R>>)
    ensures s in [s] + l && Values([s] + l) == [s.Value()] + Values(l)
  {
    assert ([s] + l)[0] == s;
  }

  lemma FirstRemoved<R>(l: seq<ClientSession<R>>)
    requires l != [] && IdsDiffer(l)
    ensures Values(l[1..]) == Without(Values(l), l[0].id) && FindIn(Values(l), l[0].id) == Some(l[0].Value())
  {
    var rest := Values(l)[1..];
    assert rest == Values(l[1..]);
    forall i | 0 <= i < |rest|
      ensures rest[i].id != l[0].id
    {
      assert l[i + 1].id != l[0].id;
    }
    AbsentIn(rest, l[0].id);
  }

  /** Taking a session object out of the list takes its value out of the value list. */
  lemma {:induction false} RemovedValues<R>(l: seq<ClientSession<R>>, s: ClientSession<R>)
    requires s in l && IdsDiffer(l)
    ensures Values(Removed(l, s)) == Without(Values(l), s.id)
    ensures FindIn(Values(l), s.id) == Some(s.Value())
  {
    if l[0] == s {
      FirstRemoved(l);
    } else {
      var rest := l[1..];
      assert Values(l)[1..] == Values(rest);
      var i :| 0 <= i < |l| && l[i] == s;
      assert rest[i - 1] == s && l[0].id != s.id;
      RemovedValues(rest, s);
      assert Values(Removed(l, s)) == [l[0].Value()] + Values(Removed(rest, s));
    }
  }

  lemma {:induction false} AbsentIn<R>(order: seq<SessionV<R>>, id: nat)
    requires forall i :: 0 <= i < |order| ==> order[i].id != id
    ensures FindIn(order, id) == None && Without(order, id) == order
  {
    if order == [] {
    } else {
      AbsentIn(order[1..], id);
    }
  }

  /** The map and the list hold the same sessions, each once. */
  ghost predicate Linked<R>(sessions: map<nat, ClientSession<R>>, lru: seq<ClientSession<R>>) {
    && IdsDiffer(lru)
    && (forall i :: 0 <= i < |lru| ==> lru[i].id in sessions && sessions[lru[i].id] == lru[i])
    && (forall id :: id in sessions ==> sessions[id] in lru && sessions[id].id == id)
  }

  lemma LinkedMember<R>(sessions: map<nat, ClientSession<R>>, lru: seq<ClientSession<R>>, x: ClientSession<R>)
    requires Linked(sessions, lru) && x in lru
    ensures x.id in sessions && sessions[x.id] == x
  {
    var i :| 0 <= i < |lru| && lru[i] == x;
  }

  lemma LinkedRemove<R>(sessions: map<nat, ClientSession<R>>, lru: seq<ClientSession<R>>, s: ClientSession<R>)
    requires Linked(sessions, lru) && s in lru
    ensures Linked(sessions - {s.id}, Removed(lru, s))
  {
    var r := Removed(lru, s);
    RemovedFrom(lru, s);
    RemovedMembers(lru, s);
    LinkedMember(sessions, lru, s);
    forall i | 0 <= i < |r|
      ensures r[i].id in sessions && sessions[r[i].id] == r[i] && r[i].id != s.id
    {
      assert r[i] in r;
      LinkedMember(sessions, lru, r[i]);
    }
  }

  lemma LinkedMove<R>(sessions: map<nat, ClientSession<R>>, lru: seq<ClientSession<R>>, s: ClientSession<R>)
    requires Linked(sessions, lru) && s in lru
    ensures Linked(sessions, [s] + Removed(lru, s))
  {
    LinkedRemove(sessions, lru, s);
    LinkedMember(sessions, lru, s);
    LinkedPush(sessions - {s.id}, Removed(lru, s), s);
    assert (sessions - {s.id})[s.id := s] == sessions;
  }

  lemma LinkedPush<R>(sessions: map<nat, ClientSession<R>>, lru: seq<ClientSession<R>>, s: ClientSession<R>)
    requires Linked(sessions, lru) && s.id !in sessions
    ensures Linked(sessions[s.id := s], [s] + lru)
  {
    forall x | x in lru
      ensures x.id != s.id
    {
      LinkedMember(sessions, lru, x);
    }
    IdsDifferCons(s, lru);
    assert forall i :: 0 <= i < |lru| ==> lru[i] in lru;
  }

  lemma LinkedPop<R>(sessions: map<nat, ClientSession<R>>, lru: seq<ClientSession<R>>)
    requires Linked(sessions, lru) && lru != []
    ensures Linked(sessions - {lru[|lru| - 1].id}, lru[..|lru| - 1])
  {
    var rest, tail := lru[..|lru| - 1], lru[|lru| - 1];
    forall s | s in rest
      ensures s.id != tail.id && s in lru
    {
      var i :| 0 <= i < |rest| && rest[i] == s;
      assert lru[i] == s;
    }
    forall id | id in sessions && id != tail.id
      ensures sessions[id] in rest
    {
      var i :| 0 <= i < |lru| && lru[i] == sessions[id];
      assert rest[i] == sessions[id];
    }
  }

  /** A live session is found exactly under the ids of the map. */
  lemma FoundIffMapped<R>(max: int, sessions: map<nat, ClientSession<R>>, lru: seq<ClientSession<R>>, id: nat)
    requires Linked(sessions, lru)
    ensures Session(Lru(max, Values(lru)), id) == if id in sessions then Some(sessions[id].Value()) else None
  {
    if id in sessions {
      RemovedValues(lru, sessions[id]);
    } else {
      forall i | 0 <= i < |lru|
        ensures Values(lru)[i].id != id
      {
        assert lru[i] in lru;
      }
      AbsentIn(Values(lru), id);
    }
  }

  datatype Lookup<R> = NoOp | NotFound | Managed(session: ClientSession<R>)

  class LruManager<R> {
    const maxSessions: int
    var sessions: map<nat, ClientSession<R>>
    var lru: seq<ClientSession<R>>

    ghost predicate Valid()
      reads this
    {
      Linked(sessions, lru)
    }

    ghost function View(): Manager<R>
      reads this, lru
    {
      Lru(maxSessions, Values(lru))
    }

    constructor (maxSessions: int)
      ensures Valid() && View() == Lru(maxSessions, [])
    {
      this.maxSessions := maxSessions;
      sessions, lru := map[], [];
    }

    /** Id 0 stands for the no-op session, which is not managed and takes no place in the list. */
    method GetSession(id: nat) returns (found: Lookup<R>)
      requires Valid()
      modifies this`lru
      ensures Valid()
      ensures found.NoOp? <==> id == 0
      ensures found.Managed? <==> id != 0 && Session(old(View()), id).Some?
      ensures found.Managed? ==>
                && found.session in lru && found.session.Value() == Session(old(View()), id).value
                && View() == Touched(old(View()), id)
      ensures !found.Managed? ==> View() == old(View())
    {
      if id == 0 { return NoOp; }
      FoundIffMapped(maxSessions, sessions, lru, id);
      if id !in sessions { return NotFound; }
      var s := sessions[id];
      MoveToFront(s);
      return Managed(s);
    }

    method MoveToFront(s: ClientSession<R>)
      requires Valid() && s in lru
      modifies this`lru
      ensures Valid() && s in lru
      ensures Values(lru) == [s.Value()] + Without(old(Values(lru)), s.id)
    {
      RemovedValues(lru, s);
      LinkedMove(sessions, lru, s);
      ValuesCons(s, Removed(lru, s));
      lru := [s] + Removed(lru, s);
    }

    method Register(id: nat, now: int) returns (ok: bool)
      requires Valid()
      modifies this`sessions, this`lru
      ensures Valid()
      ensures ok <==> Session(old(View()), id).None?
      ensures View() == Registered(old(View()), id, now)
    {
      FoundIffMapped(maxSessions, sessions, lru, id);
      if id in sessions { return false; }
      ghost var was := Values(lru);
      var ns := new ClientSession(id, now);
      assert Values(lru) == was;
      PushFront(ns);
      assert Values(lru) == [NewSession(id, now)] + was;
      if |lru| > maxSessions { RemoveTail(); }
      return true;
    }

    method PushFront(ns: ClientSession<R>)
      requires Valid() && ns.id !in sessions
      modifies this`sessions, this`lru
      ensures Valid() && Values(lru) == [ns.Value()] + old(Values(lru))
    {
      LinkedPush(sessions, lru, ns);
      lru := [ns] + lru;
      sessions := sessions[ns.id := ns];
    }

    method RemoveTail()
      requires Valid() && lru != []
      modifies this`sessions, this`lru
      ensures Valid() && Values(lru) == old(Values(lru))[..|old(lru)| - 1]
    {
      LinkedPop(sessions, lru);
      var tail := lru[|lru| - 1];
      lru := lru[..|lru| - 1];
      sessions := sessions - {tail.id};
    }

    method UnRegister(id: nat) returns (ok: bool)
      requires Valid()
      modifies this`sessions, this`lru, if id in sessions then {sessions[id]} else {}
      ensures Valid()
      ensures ok <==> Session(old(View()), id).Some?
      ensures View() == Unregistered(old(View()), id)
    {
      FoundIffMapped(maxSessions, sessions, lru, id);
      if id !in sessions {
        AbsentMeansSame(Values(lru), id);
        return false;
      }
      var s := sessions[id];
      RemovedValues(lru, s);
      RemovedFrom(lru, s);
      LinkedRemove(sessions, lru, s);
      ghost var rest := Values(Removed(lru, s));
      s.ClearResult(MAX_INT64);
      lru := Removed(lru, s);
      sessions := sessions - {id};
      assert Values(lru) == rest;
      return true;
    }
  }

  class ExpiredManager<R> {
    const ttl: int
    var sessions: map<nat, SessionV<R>>

    ghost function View(): Manager<R>
      reads this
    {
      Expired(ttl, sessions)
    }

    constructor (ttl: int)
      ensures View() == Expired(ttl, map[])
    {
      this.ttl, sessions := ttl, map[];
    }

    method Register(id: nat, now: int) returns (ok: bool)
      modifies this`sessions
      ensures ok <==> Session(old(View()), id).None?
      ensures View() == Registered(old(View()), id, now)
    {
      if id in sessions { return false; }
      sessions := sessions[id := NewSession(id, now)];
      return true;
    }

    method UnRegister(id: nat) returns (ok: bool)
      modifies this`sessions
      ensures ok <==> Session(old(View()), id).Some?
      ensures View() == Unregistered(old(View()), id)
    {
      if id !in sessions { return false; }
      sessions := sessions - {id};
      return true;
    }

    /** Deletes while ranging over the map, in whatever order. */
    method ExpireSession(now: int)
      modifies this`sessions
      ensures View() == Afresh(old(View()), now)
    {
      var todo := sessions.Keys;
      while todo != {}
        invariant todo <= old(sessions).Keys
        invariant sessions == map id | id in old(sessions)
                    && (id in todo || !(Wrapped(old(sessions)[id].lastActive + ttl) <= now)) :: old(sessions)[id]
        decreases todo
      {
        var id :| id in todo;
        todo := todo - {id};
        if Wrapped(sessions[id].lastActive + ttl) <= now {
          sessions := sessions - {id};
        }
      }
    }
  }
}
