/**
 Client sessions: the result cache of one session and the two managers that decide which sessions
 live, as values with the laws the apply pipeline relies on.
 */
module Sessions {
  import opened Common

  /** An error is its text; a missing error is nil. */
  datatype ApplyResult<R> = ApplyResult(logIndex: nat, response: Option<R>, error: Option<seq<Byte>>) {
    predicate IsEmpty() {
      logIndex == 0 && response.None? && error.None?
    }
  }

  type Results<R> = map<nat, ApplyResult<R>>

  datatype SessionV<R> = SessionV(id: nat, lastActive: int, results: Results<R>)

  function NewSession<R>(id: nat, now: int): SessionV<R> { SessionV(id, now, map[]) }

  /** Forgets the results the client has acknowledged. */
  function Cleared<R>(s: SessionV<R>, lowest: nat): SessionV<R> {
    s.(results := map q | q in s.results && q >= lowest :: s.results[q])
  }

  function WithResult<R>(s: SessionV<R>, q: nat, now: int, r: ApplyResult<R>): SessionV<R> {
    s.(lastActive := now, results := s.results[q := r])
  }

  // ---------------------------------------------------------------------------
  // The managers as values
  // ---------------------------------------------------------------------------

  /** `Lru` keeps its sessions in order of use, the latest first; `Expired` drops a session that was
      idle for `ttl` nanoseconds. */
  datatype Manager<R> =
    | Lru(maxSessions: int, order: seq<SessionV<R>>)
    | Expired(ttl: int, table: map<nat, SessionV<R>>)

  function FindIn<R>(order: seq<SessionV<R>>, id: nat): Option<SessionV<R>> {
    if order == [] then None
    else if order[0].id == id then Some(order[0])
    else FindIn(order[1..], id)
  }

  function Without<R>(order: seq<SessionV<R>>, id: nat): seq<SessionV<R>> {
    if order == [] then []
    else if order[0].id == id then Without(order[1..], id)
    else [order[0]] + Without(order[1..], id)
  }

  function Replaced<R>(order: seq<SessionV<R>>, s: SessionV<R>): (r: seq<SessionV<R>>)
    ensures |r| == |order|
    ensures forall i :: 0 <= i < |r| ==> r[i] == if order[i].id == s.id then s else order[i]
  {
    seq(|order|, i requires 0 <= i < |order| => if order[i].id == s.id then s else order[i])
  }

  function Session<R>(m: Manager<R>, id: nat): Option<SessionV<R>> {
    match m
    case Lru(_, order) => FindIn(order, id)
    case Expired(_, table) => if id in table then Some(table[id]) else None
  }

  /** `GetSession` of a live session. */
  function Touched<R>(m: Manager<R>, id: nat): Manager<R>
    requires Session(m, id).Some?
  {
    match m
    case Lru(_, order) => m.(order := [FindIn(order, id).value] + Without(order, id))
    case Expired(_, _) => m
  }

  /** `Register`; a known id is refused and changes nothing. */
  function Registered<R>(m: Manager<R>, id: nat, now: int): Manager<R> {
    if Session(m, id).Some? then m
    else match m
      case Lru(max, order) =>
        var pushed := [NewSession(id, now)] + order;
        m.(order := if |pushed| > max then pushed[..|pushed| - 1] else pushed)
      case Expired(_, table) => m.(table := table[id := NewSession(id, now)])
  }

  /** `UnRegister`; an unknown id is refused and changes nothing. */
  function Unregistered<R>(m: Manager<R>, id: nat): Manager<R> {
    match m
    case Lru(_, order) => m.(order := Without(order, id))
    case Expired(_, table) => m.(table := table - {id})
  }

  const INT64_HALF: int := 0x8000_0000_0000_0000
  const UINT64: int := 0x1_0000_0000_0000_0000

  /** Wraps a sum of int64 values the way the processor does. */
  function Wrapped(x: int): int { (x + INT64_HALF) % UINT64 - INT64_HALF }

  function Afresh<R>(m: Manager<R>, now: int): Manager<R> {
    match m
    case Lru(_, _) => m
    case Expired(ttl, table) =>
      m.(table := map id | id in table && !(Wrapped(table[id].lastActive + ttl) <= now) :: table[id])
  }

  /** The manager after the session with that id was changed in place. */
  function Stored<R>(m: Manager<R>, s: SessionV<R>): Manager<R> {
    match m
    case Lru(_, order) => m.(order := Replaced(order, s))
    case Expired(_, table) => if s.id in table then m.(table := table[s.id := s]) else m
  }

  /** The id under which a session is found is its own. */
  ghost predicate IdsMatch<R>(m: Manager<R>) {
    m.Expired? ==> forall id :: id in m.table ==> m.table[id].id == id
  }

  lemma {:induction false} FindInId<R>(order: seq<SessionV<R>>, id: nat)
    ensures FindIn(order, id).Some? ==> FindIn(order, id).value.id == id
  {
    if order == [] {
    } else {
      FindInId(order[1..], id);
    }
  }

  lemma {:induction false} FindInWithout<R>(order: seq<SessionV<R>>, id: nat, x: nat)
    ensures FindIn(Without(order, id), x) == if x == id then None else FindIn(order, x)
  {
    if order == [] {
    } else {
      FindInWithout(order[1..], id, x);
    }
  }

  lemma {:induction false} FindInShortened<R>(order: seq<SessionV<R>>, x: nat)
    requires order != []
    ensures FindIn(order[..|order| - 1], x) in {FindIn(order, x), None}
  {
    if |order| > 1 {
      assert order[..|order| - 1][1..] == order[1..][..|order[1..]| - 1];
      FindInShortened(order[1..], x);
    }
  }

  lemma {:induction false} FindInReplaced<R>(order: seq<SessionV<R>>, s: SessionV<R>, x: nat)
    ensures FindIn(Replaced(order, s), x)
         == if x == s.id && FindIn(order, x).Some? then Some(s) else FindIn(order, x)
  {
    if order == [] {
    } else {
      assert Replaced(order, s)[1..] == Replaced(order[1..], s);
      FindInReplaced(order[1..], s, x);
    }
  }

  /** Looking a session up changes no session. */
  lemma TouchedLaw<R>(m: Manager<R>, id: nat, x: nat)
    requires Session(m, id).Some?
    ensures Session(Touched(m, id), x) == Session(m, x)
  {
    if m.Lru? {
      FindInWithout(m.order, id, x);
      FindInId(m.order, id);
      assert ([FindIn(m.order, id).value] + Without(m.order, id))[1..] == Without(m.order, id);
    }
  }

  /** Registering adds an empty session or none, and at most takes other sessions away. */
  lemma RegisteredLaw<R>(m: Manager<R>, id: nat, now: int, x: nat)
    ensures x != id ==> Session(Registered(m, id, now), x) in {Session(m, x), None}
    ensures Session(m, id).None? ==> Session(Registered(m, id, now), id) in {Some(NewSession(id, now)), None}
  {
    if m.Lru? && Session(m, id).None? {
      var pushed := [NewSession<R>(id, now)] + m.order;
      assert pushed[1..] == m.order;
      FindInShortened(pushed, x);
      FindInShortened(pushed, id);
    }
  }

  lemma {:induction false} FindInLastDropped<R>(order: seq<SessionV<R>>, x: nat)
    requires order != [] && forall i, j :: 0 <= i < j < |order| ==> order[i].id != order[j].id
    ensures FindIn(order[..|order| - 1], x) == if x == order[|order| - 1].id then None else FindIn(order, x)
  {
    if |order| == 1 {
      assert order[1..] == [];
    } else {
      assert order[..|order| - 1][1..] == order[1..][..|order[1..]| - 1];
      FindInLastDropped(order[1..], x);
    }
  }

  lemma {:induction false} FindInAbsent<R>(order: seq<SessionV<R>>, id: nat)
    ensures FindIn(order, id).None? <==> forall i :: 0 <= i < |order| ==> order[i].id != id
  {
    if order == [] {
    } else {
      FindInAbsent(order[1..], id);
      assert forall i :: 1 <= i < |order| ==> order[i] == order[1..][i - 1];
    }
  }

  lemma PushedDistinct<R>(s: SessionV<R>, order: seq<SessionV<R>>)
    requires FindIn(order, s.id).None? && forall i, j :: 0 <= i < j < |order| ==> order[i].id != order[j].id
    ensures var pushed := [s] + order; forall i, j :: 0 <= i < j < |pushed| ==> pushed[i].id != pushed[j].id
  {
    FindInAbsent(order, s.id);
  }

  /** The full list: the new session comes first, and the last one goes. */
  lemma PushedOut<R>(s: SessionV<R>, order: seq<SessionV<R>>, x: nat)
    requires FindIn(order, s.id).None? && forall i, j :: 0 <= i < j < |order| ==> order[i].id != order[j].id
    ensures FindIn(([s] + order)[..|order|], x) == if order == [] then None
                                                  else if x == s.id then Some(s)
                                                  else if x == order[|order| - 1].id then None
                                                  else FindIn(order, x)
  {
    var pushed := [s] + order;
    PushedDistinct(s, order);
    FindInLastDropped(pushed, x);
    assert pushed[1..] == order;
    assert order != [] ==> pushed[|order|] == order[|order| - 1] && pushed[0].id != pushed[|order|].id;
  }

  /** Exactly what a registration does: the new session, without results, is live and no one else is touched, except
      that a list that already held as many sessions as allowed gives up its last. A list that may hold none takes
      none. A live id is refused. */
  lemma RegisteredExactly<R>(m: Manager<R>, id: nat, now: int, x: nat)
    requires m.Lru? ==> forall i, j :: 0 <= i < j < |m.order| ==> m.order[i].id != m.order[j].id
    ensures Session(m, id).Some? ==> Registered(m, id, now) == m
    ensures Session(m, id).None? ==>
              var t := Session(Registered(m, id, now), x);
              if m.Expired? || |m.order| < m.maxSessions then t == if x == id then Some(SessionV(id, now, map[])) else Session(m, x)
              else if m.order == [] then t.None?
              else if x == id then t == Some(SessionV(id, now, map[]))
              else if x == m.order[|m.order| - 1].id then t.None?
              else t == Session(m, x)
  {
    if m.Lru? && Session(m, id).None? {
      assert ([NewSession<R>(id, now)] + m.order)[1..] == m.order;
      PushedOut(NewSession<R>(id, now), m.order, x);
    }
  }

  lemma UnregisteredLaw<R>(m: Manager<R>, id: nat, x: nat)
    ensures Session(Unregistered(m, id), x) == if x == id then None else Session(m, x)
  {
    if m.Lru? { FindInWithout(m.order, id, x); }
  }

  /** Expiry takes away exactly the sessions of an expiring manager whose last activity is `ttl` ago. */
  lemma AfreshLaw<R>(m: Manager<R>, now: int, x: nat)
    ensures Session(Afresh(m, now), x) in {Session(m, x), None}
    ensures Session(m, x).Some? ==>
              (Session(Afresh(m, now), x).None? <==> m.Expired? && Wrapped(Session(m, x).value.lastActive + m.ttl) <= now)
    ensures m.Lru? ==> Afresh(m, now) == m
  {}

  /** The sum of two 64-bit values is the true sum, unless it leaves the range, and then off by 2^64. */
  lemma WrappedLaw(a: int, b: int)
    requires -INT64_HALF <= a < INT64_HALF && -INT64_HALF <= b < INT64_HALF
    ensures Wrapped(a + b) == if a + b >= INT64_HALF then a + b - UINT64
                              else if a + b < -INT64_HALF then a + b + UINT64
                              else a + b
  {
  }

  lemma StoredLaw<R>(m: Manager<R>, s: SessionV<R>, x: nat)
    requires Session(m, s.id).Some?
    ensures Session(Stored(m, s), x) == if x == s.id then Some(s) else Session(m, x)
  {
    if m.Lru? { FindInReplaced(m.order, s, x); }
  }

  lemma SessionId<R>(m: Manager<R>, id: nat)
    requires IdsMatch(m)
    ensures Session(m, id).Some? ==> Session(m, id).value.id == id
  {
    if m.Lru? { FindInId(m.order, id); }
  }
}
