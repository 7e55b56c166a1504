/**
 The apply pipeline with sessions, as a fold over the entries in the order in which they are applied.

 An entry either manages sessions or carries a command of some session. A command of a live session
 is looked up in the session's result cache before it is executed, and its result is cached after.
 Clock readings are part of the entry. Configuration changes take the same way (`conf`), with the
 differences the code has: their result always carries the log index, and a cached result is never
 mistaken for a missing one.
 */
module ExactlyOnce {
  import opened Common
  import opened Sessions

  type Index = n: nat | n > 0 witness 1

  datatype Entry<C> =
    | Nil(index: Index)
    | Register(index: Index, now: int)
    | Unregister(index: Index, sid: nat)
    | Publish(index: Index)
    | Command(index: Index, sid: nat, seqNum: nat, lowest: nat, cmd: C, now: int, doneAt: int, conf: bool)

  /** What happened to one entry: was its session live, was its command executed, what was replied. */
  datatype Did<R> = Did(found: bool, executed: bool, reply: Option<ApplyResult<R>>)

  datatype Node<S, R> = Node(sessions: Manager<R>, machine: S, panicked: bool)

  const NOT_FOUND: seq<Byte> := [110, 111, 116, 32, 102, 111, 117, 110, 100]

  function Execute<S, C, R>(machine: S, e: Entry<C>, f: (S, nat, C) -> (S, ApplyResult<R>)): (S, ApplyResult<R>)
    requires e.Command?
  {
    var (s, r) := f(machine, e.index, e.cmd);
    (s, if e.conf then r.(logIndex := e.index) else r)
  }

  function CommandStep<S, C, R>(n: Node<S, R>, e: Entry<C>, f: (S, nat, C) -> (S, ApplyResult<R>)): (Node<S, R>, Did<R>)
    requires e.Command?
  {
    var m := Afresh(n.sessions, e.now);
    if e.sid == 0 then
      var (machine, r) := Execute(n.machine, e, f);
      (Node(m, machine, false), Did(false, true, Some(r)))
    else if Session(m, e.sid).None? then
      (n.(sessions := m), Did(false, false, Some(ApplyResult(e.index, None, Some(NOT_FOUND)))))
    else
      var s := Session(m, e.sid).value;
      var kept := Cleared(s, e.lowest);
      if e.seqNum in s.results && (e.conf || !s.results[e.seqNum].IsEmpty()) then
        (n.(sessions := Stored(Touched(m, e.sid), kept)), Did(true, false, Some(s.results[e.seqNum])))
      else
        var (machine, r) := Execute(n.machine, e, f);
        if e.seqNum in kept.results then
          // AddResult refuses a sequence number it already has, and the caller panics
          (Node(Stored(Touched(m, e.sid), kept), machine, true), Did(true, true, None))
        else
          var at := if e.conf then e.now else e.doneAt;
          (Node(Stored(Touched(m, e.sid), WithResult(kept, e.seqNum, at, r)), machine, false), Did(true, true, Some(r)))
  }

  function Step<S, C, R>(n: Node<S, R>, e: Entry<C>, f: (S, nat, C) -> (S, ApplyResult<R>)): (Node<S, R>, Did<R>) {
    if n.panicked then (n, Did(false, false, None))
    else match e
      case Nil(_) => (n, Did(false, false, None))
      case Register(index, now) =>
        var err := if Session(n.sessions, index).Some? then Some(NOT_FOUND) else None;
        (n.(sessions := Registered(n.sessions, index, now)), Did(false, false, Some(ApplyResult(index, None, err))))
      case Unregister(index, sid) =>
        var err := if Session(n.sessions, sid).None? then Some(NOT_FOUND) else None;
        (n.(sessions := Unregistered(n.sessions, sid)), Did(false, false, Some(ApplyResult(index, None, err))))
      case Publish(index) => (n, Did(false, false, Some(ApplyResult(index, None, None))))
      case Command(_, _, _, _, _, _, _, _) => CommandStep(n, e, f)
  }

  function Run<S, C, R>(n: Node<S, R>, es: seq<Entry<C>>, f: (S, nat, C) -> (S, ApplyResult<R>)): (r: (Node<S, R>, seq<Did<R>>))
    ensures |r.1| == |es|
  {
    if es == [] then (n, [])
    else
      var (p, ds) := Run(n, es[..|es| - 1], f);
      var (q, d) := Step(p, es[|es| - 1], f);
      (q, ds + [d])
  }

  predicate NoSessions<R>(m: Manager<R>) {
    match m
    case Lru(_, order) => order == []
    case Expired(_, table) => |table| == 0
  }

  // ---------------------------------------------------------------------------
  // What a log says about a key, independently of the cache
  // ---------------------------------------------------------------------------

  predicate HasKey<C>(e: Entry<C>, sid: nat, q: nat) { e.Command? && e.sid == sid && e.seqNum == q }

  ghost predicate Exec<C, R>(es: seq<Entry<C>>, ds: seq<Did<R>>, i: int, sid: nat, q: nat)
    requires |es| == |ds|
  {
    0 <= i < |es| && HasKey(es[i], sid, q) && ds[i].executed
  }

  /** Entry `l` of the live session says that everything below its bound has been received. */
  ghost predicate Clears<C, R>(es: seq<Entry<C>>, ds: seq<Did<R>>, l: int, sid: nat, q: nat)
    requires |es| == |ds|
  {
    0 <= l < |es| && es[l].Command? && es[l].sid == sid && ds[l].found && es[l].lowest > q
  }

  /** Entry `i` executed the key and nothing has acknowledged the result since. */
  ghost predicate Remembered<C, R>(es: seq<Entry<C>>, ds: seq<Did<R>>, i: int, sid: nat, q: nat)
    requires |es| == |ds|
  {
    Exec(es, ds, i, sid, q) && forall l :: i < l < |es| ==> !Clears(es, ds, l, sid, q)
  }

  ghost predicate RegisteredBy<C>(es: seq<Entry<C>>, sid: nat) {
    exists i :: 0 <= i < |es| && es[i].Register? && es[i].index == sid
  }

  /** Log indices are unique, so no two registrations share one. */
  ghost predicate RegistersOnce<C>(es: seq<Entry<C>>) {
    forall i, j :: 0 <= i < j < |es| && es[i].Register? && es[j].Register? ==> es[i].index != es[j].index
  }

  /** The state machine gives every command of a session that was registered before it a result that is not empty. */
  ghost predicate Answers<S(!new), C, R>(f: (S, nat, C) -> (S, ApplyResult<R>), es: seq<Entry<C>>) {
    forall j, s :: 0 <= j < |es| && SessionCommand(es[j]) && RegisteredBy(es[..j], es[j].sid) ==>
      !f(s, es[j].index, es[j].cmd).1.IsEmpty()
  }

  /** The result of a configuration change carries its index, so it is never empty. */
  predicate SessionCommand<C>(e: Entry<C>) { e.Command? && e.sid != 0 && !e.conf }

  lemma AnswersPrefix<S(!new), C, R>(f: (S, nat, C) -> (S, ApplyResult<R>), es: seq<Entry<C>>, k: nat)
    requires k <= |es| && Answers(f, es)
    ensures Answers(f, es[..k])
  {
    assert forall j :: 0 <= j < k ==> es[..k][j] == es[j] && es[..k][..j] == es[..j];
  }

  lemma RememberedSnoc<C, R>(es: seq<Entry<C>>, ds: seq<Did<R>>, e: Entry<C>, d: Did<R>, i: int, sid: nat, q: nat)
    requires |es| == |ds|
    ensures Remembered(es + [e], ds + [d], i, sid, q)
            <==> (if i == |es| then HasKey(e, sid, q) && d.executed
                  else Remembered(es, ds, i, sid, q) && !(e.Command? && e.sid == sid && d.found && e.lowest > q))
  {
    var fs, gs := es + [e], ds + [d];
    assert forall l :: 0 <= l < |es| ==> (Clears(es, ds, l, sid, q) <==> Clears(fs, gs, l, sid, q));
    assert Exec(es, ds, i, sid, q) ==> Exec(fs, gs, i, sid, q);
    if i != |es| && Remembered(fs, gs, i, sid, q) {
      assert Exec(es, ds, i, sid, q);
      assert !Clears(fs, gs, |es|, sid, q);
    }
  }

  /** The cache of a live session is exactly what the log says it should be. */
  ghost predicate History<C, R>(es: seq<Entry<C>>, ds: seq<Did<R>>, m: Manager<R>, sid: nat, q: nat)
    requires |es| == |ds|
  {
    Session(m, sid).Some? ==>
      var rs := Session(m, sid).value.results;
      && (forall i :: Remembered(es, ds, i, sid, q) ==> q in rs && ds[i].reply == Some(rs[q]))
      && (q in rs ==> !rs[q].IsEmpty() && exists i :: Remembered(es, ds, i, sid, q))
  }

  /** Live sessions, and sessions that were ever found live, were registered before. */
  ghost predicate Known<C, R>(es: seq<Entry<C>>, ds: seq<Did<R>>, m: Manager<R>)
    requires |es| == |ds|
  {
    && IdsMatch(m)
    && (forall sid :: Session(m, sid).Some? ==> RegisteredBy(es, sid))
    && (forall l :: 0 <= l < |es| && ds[l].found ==> es[l].Command? && RegisteredBy(es[..l], es[l].sid))
  }

  /** How one entry may change what is cached for a key. */
  ghost predicate CacheMoves<C, R>(before: Option<SessionV<R>>, after: Option<SessionV<R>>, e: Entry<C>, d: Did<R>, sid: nat, q: nat) {
    after.Some? ==>
      && before.Some?
      && var rs, rt := before.value.results, after.value.results;
      && (if HasKey(e, sid, q) && d.executed
          then q !in rs && q in rt && d.reply == Some(rt[q]) && !rt[q].IsEmpty()
          else && (q in rt <==> q in rs && !(e.Command? && e.sid == sid && d.found && e.lowest > q))
               && (q in rt ==> rt[q] == rs[q]))
  }

  lemma HistorySnoc<C, R>(es: seq<Entry<C>>, ds: seq<Did<R>>, e: Entry<C>, d: Did<R>, m: Manager<R>, n: Manager<R>, sid: nat, q: nat)
    requires |es| == |ds| && History(es, ds, m, sid, q)
    requires CacheMoves(Session(m, sid), Session(n, sid), e, d, sid, q)
    ensures History(es + [e], ds + [d], n, sid, q)
  {
    if Session(n, sid).Some? {
      var rt := Session(n, sid).value.results;
      var fs, gs := es + [e], ds + [d];
      forall i | Remembered(fs, gs, i, sid, q)
        ensures q in rt && gs[i].reply == Some(rt[q])
      {
        RememberedSnoc(es, ds, e, d, i, sid, q);
      }
      if q in rt {
        if HasKey(e, sid, q) && d.executed {
          RememberedSnoc(es, ds, e, d, |es|, sid, q);
          assert Remembered(fs, gs, |es|, sid, q);
        } else {
          var i :| Remembered(es, ds, i, sid, q);
          RememberedSnoc(es, ds, e, d, i, sid, q);
          assert Remembered(fs, gs, i, sid, q);
        }
      }
    }
  }

  lemma CommandMovesCache<S(!new), C(!new), R>(n: Node<S, R>, e: Entry<C>, f: (S, nat, C) -> (S, ApplyResult<R>), sid: nat, q: nat)
    requires e.Command? && !n.panicked && sid != 0 && IdsMatch(n.sessions)
    requires SessionCommand(e) && Session(n.sessions, e.sid).Some? ==> !f(n.machine, e.index, e.cmd).1.IsEmpty()
    requires e.sid != 0 && Session(n.sessions, e.sid).Some? && e.seqNum in Session(n.sessions, e.sid).value.results ==>
               !Session(n.sessions, e.sid).value.results[e.seqNum].IsEmpty()
    ensures var (t, d) := CommandStep(n, e, f);
            !t.panicked && CacheMoves(Session(n.sessions, sid), Session(t.sessions, sid), e, d, sid, q)
  {
    var m := Afresh(n.sessions, e.now);
    AfreshLaw(n.sessions, e.now, sid);
    AfreshLaw(n.sessions, e.now, e.sid);
    SessionId(m, e.sid);
    if e.sid != 0 && Session(m, e.sid).Some? {
      var s := Session(m, e.sid).value;
      TouchedLaw(m, e.sid, sid);
      TouchedLaw(m, e.sid, e.sid);
      StoredLaw(Touched(m, e.sid), Cleared(s, e.lowest), sid);
      var (_, r) := Execute(n.machine, e, f);
      StoredLaw(Touched(m, e.sid), WithResult(Cleared(s, e.lowest), e.seqNum, if e.conf then e.now else e.doneAt, r), sid);
    }
  }

  lemma IdsStay<S, C, R>(n: Node<S, R>, e: Entry<C>, f: (S, nat, C) -> (S, ApplyResult<R>))
    requires IdsMatch(n.sessions)
    ensures IdsMatch(Step(n, e, f).0.sessions)
  {
    if e.Command? {
      var m := Afresh(n.sessions, e.now);
      SessionId(m, e.sid);
    }
  }

  ghost predicate Sound<S, C, R>(es: seq<Entry<C>>, ds: seq<Did<R>>, n: Node<S, R>) {
    && |es| == |ds| && !n.panicked && Known(es, ds, n.sessions)
    && (forall l :: 0 <= l < |es| && es[l].Command? && es[l].sid != 0 && ds[l].executed ==> ds[l].found)
    && (forall sid, q :: sid != 0 ==> History(es, ds, n.sessions, sid, q))
  }

  lemma RegisteredGrows<C>(es: seq<Entry<C>>, e: Entry<C>, sid: nat)
    ensures RegisteredBy(es, sid) ==> RegisteredBy(es + [e], sid)
    ensures e.Register? && e.index == sid ==> RegisteredBy(es + [e], sid)
  {
    if i :| 0 <= i < |es| && es[i].Register? && es[i].index == sid {
      assert (es + [e])[i] == es[i];
    }
    assert (es + [e])[|es|] == e;
  }

  /** A session is only live after the step if it was live before or has just been registered. */
  lemma StepFinds<S, C, R>(n: Node<S, R>, e: Entry<C>, f: (S, nat, C) -> (S, ApplyResult<R>), x: nat)
    requires IdsMatch(n.sessions)
    ensures var (t, d) := Step(n, e, f);
            && (Session(t.sessions, x).Some? ==> Session(n.sessions, x).Some? || (e.Register? && e.index == x))
            && (d.found ==> e.Command? && e.sid != 0 && Session(n.sessions, e.sid).Some?)
            && (e.Command? && e.sid != 0 && d.executed ==> d.found)
  {
    match e
    case Register(index, now) => RegisteredLaw(n.sessions, index, now, x);
    case Unregister(_, sid) => UnregisteredLaw(n.sessions, sid, x);
    case Command(_, sid, _, _, _, now, _, _) =>
      var m := Afresh(n.sessions, now);
      AfreshLaw(n.sessions, now, x);
      AfreshLaw(n.sessions, now, sid);
      SessionId(m, sid);
      if sid != 0 && Session(m, sid).Some? {
        var s := Session(m, sid).value;
        TouchedLaw(m, sid, x);
        TouchedLaw(m, sid, sid);
        StoredLaw(Touched(m, sid), Cleared(s, e.lowest), x);
        var (_, r) := Execute(n.machine, e, f);
        StoredLaw(Touched(m, sid), WithResult(Cleared(s, e.lowest), e.seqNum, if e.conf then e.now else e.doneAt, r), x);
      }
    case _ =>
  }

  lemma KnownStep<S, C, R>(es: seq<Entry<C>>, ds: seq<Did<R>>, n: Node<S, R>, e: Entry<C>, f: (S, nat, C) -> (S, ApplyResult<R>))
    requires |es| == |ds| && Known(es, ds, n.sessions)
    ensures var (t, d) := Step(n, e, f); Known(es + [e], ds + [d], t.sessions)
  {
    var (t, d) := Step(n, e, f);
    var fs, gs := es + [e], ds + [d];
    IdsStay(n, e, f);
    forall sid | Session(t.sessions, sid).Some?
      ensures RegisteredBy(fs, sid)
    {
      StepFinds(n, e, f, sid);
      RegisteredGrows(es, e, sid);
    }
    forall l | 0 <= l < |fs| && gs[l].found
      ensures fs[l].Command? && RegisteredBy(fs[..l], fs[l].sid)
    {
      if l < |es| {
        assert fs[..l] == es[..l];
      } else {
        StepFinds(n, e, f, 0);
        assert fs[..l] == es;
      }
    }
  }

  lemma NotRegisteredBefore<C>(es: seq<Entry<C>>, e: Entry<C>)
    requires e.Register? && RegistersOnce(es + [e])
    ensures !RegisteredBy(es, e.index)
  {
    var fs := es + [e];
    assert fs[|es|] == e && forall k :: 0 <= k < |es| ==> fs[k] == es[k];
    assert forall k :: 0 <= k < |es| && fs[k].Register? ==> fs[k].index != fs[|es|].index;
  }

  lemma PrefixRegistered<C>(es: seq<Entry<C>>, i: nat, sid: nat)
    requires i <= |es|
    ensures RegisteredBy(es[..i], sid) ==> RegisteredBy(es, sid)
  {
    assert forall k :: 0 <= k < i ==> es[..i][k] == es[k];
  }

  /** A registration starts with an empty cache, and nothing was executed for its id before. */
  lemma HistoryOfNew<C, R>(es: seq<Entry<C>>, ds: seq<Did<R>>, e: Entry<C>, d: Did<R>, m: Manager<R>, n: Manager<R>, sid: nat, q: nat)
    requires |es| == |ds| && Known(es, ds, m) && e.Register? && e.index == sid && RegistersOnce(es + [e])
    requires forall l :: 0 <= l < |es| && es[l].Command? && es[l].sid != 0 && ds[l].executed ==> ds[l].found
    requires Session(n, sid).Some? ==> Session(n, sid).value.results == map[]
    ensures History(es + [e], ds + [d], n, sid, q)
  {
    var fs, gs := es + [e], ds + [d];
    NotRegisteredBefore(es, e);
    forall i
      ensures !Remembered(fs, gs, i, sid, q)
    {
      RememberedSnoc(es, ds, e, d, i, sid, q);
      if 0 <= i < |es| { PrefixRegistered(es, i, sid); }
    }
  }

  lemma HistoryStep<S(!new), C(!new), R>(es: seq<Entry<C>>, ds: seq<Did<R>>, n: Node<S, R>, e: Entry<C>, f: (S, nat, C) -> (S, ApplyResult<R>), sid: nat, q: nat)
    requires Sound(es, ds, n) && Answers(f, es + [e]) && RegistersOnce(es + [e]) && sid != 0
    ensures var (t, d) := Step(n, e, f); !t.panicked && History(es + [e], ds + [d], t.sessions, sid, q)
  {
    var (t, d) := Step(n, e, f);
    assert History(es, ds, n.sessions, sid, q);
    match e
    case Command(_, x, y, _, _, _, _, _) =>
      if x != 0 { assert History(es, ds, n.sessions, x, y); }
      assert (es + [e])[..|es|] == es && (es + [e])[|es|] == e;
      CommandMovesCache(n, e, f, sid, q);
      HistorySnoc(es, ds, e, d, n.sessions, t.sessions, sid, q);
    case Register(index, now) =>
      RegisteredLaw(n.sessions, index, now, sid);
      if index == sid {
        NotRegisteredBefore(es, e);
        HistoryOfNew(es, ds, e, d, n.sessions, t.sessions, sid, q);
      } else {
        HistorySnoc(es, ds, e, d, n.sessions, t.sessions, sid, q);
      }
    case Unregister(_, x) =>
      UnregisteredLaw(n.sessions, x, sid);
      HistorySnoc(es, ds, e, d, n.sessions, t.sessions, sid, q);
    case _ => HistorySnoc(es, ds, e, d, n.sessions, t.sessions, sid, q);
  }

  /** Along every log the pipeline does not panic and every cache is what the log says. */
  lemma {:induction false} RunSound<S(!new), C(!new), R>(n: Node<S, R>, es: seq<Entry<C>>, f: (S, nat, C) -> (S, ApplyResult<R>))
    requires NoSessions(n.sessions) && !n.panicked && Answers(f, es) && RegistersOnce(es)
    ensures Sound(es, Run(n, es, f).1, Run(n, es, f).0)
  {
    if es == [] {
    } else {
      var fs, e := es[..|es| - 1], es[|es| - 1];
      var (p, ds) := Run(n, fs, f);
      assert es == fs + [e];
      assert RegistersOnce(fs);
      AnswersPrefix(f, es, |es| - 1);
      RunSound(n, fs, f);
      var (t, d) := Step(p, e, f);
      KnownStep(fs, ds, p, e, f);
      StepFinds(p, e, f, 0);
      HistoryStep(fs, ds, p, e, f, 1, 0);
      forall sid, q | sid != 0
        ensures History(fs + [e], ds + [d], t.sessions, sid, q)
      {
        HistoryStep(fs, ds, p, e, f, sid, q);
      }
    }
  }

  lemma {:induction false} RunPrefix<S, C, R>(n: Node<S, R>, es: seq<Entry<C>>, f: (S, nat, C) -> (S, ApplyResult<R>), j: nat)
    requires j < |es|
    ensures Run(n, es[..j], f).1 == Run(n, es, f).1[..j]
    ensures Run(n, es, f).1[j] == Step(Run(n, es[..j], f).0, es[j], f).1
  {
    if j < |es| - 1 {
      var fs := es[..|es| - 1];
      RunPrefix(n, fs, f, j);
      assert fs[..j] == es[..j];
    }
  }

  // ---------------------------------------------------------------------------
  // Exactly once
  // ---------------------------------------------------------------------------

  /** A command of a live session is executed exactly if no earlier execution of the same sequence
      number is remembered; otherwise it is answered with the result of that execution. */
  lemma ExecutedIff<S(!new), C(!new), R>(n: Node<S, R>, es: seq<Entry<C>>, f: (S, nat, C) -> (S, ApplyResult<R>), j: nat)
    requires NoSessions(n.sessions) && !n.panicked && Answers(f, es) && RegistersOnce(es)
    requires j < |es| && es[j].Command? && es[j].sid != 0
    ensures var ds := Run(n, es, f).1;
            && (ds[j].executed <==>
                  ds[j].found && forall i :: !Remembered(es[..j], ds[..j], i, es[j].sid, es[j].seqNum))
            && (ds[j].found && !ds[j].executed ==>
                  exists i :: Remembered(es[..j], ds[..j], i, es[j].sid, es[j].seqNum) && ds[j].reply == ds[i].reply)
  {
    var e, fs := es[j], es[..j];
    RunPrefix(n, es, f, j);
    assert RegistersOnce(fs);
    AnswersPrefix(f, es, j);
    RunSound(n, fs, f);
    var (p, ds) := Run(n, fs, f);
    var m := p.sessions;
    assert History(fs, ds, m, e.sid, e.seqNum);
    AfreshLaw(m, e.now, e.sid);
    if Session(Afresh(m, e.now), e.sid).Some? && e.seqNum in Session(m, e.sid).value.results {
      var i :| Remembered(fs, ds, i, e.sid, e.seqNum);
      assert ds[i].reply == Some(Session(m, e.sid).value.results[e.seqNum]);
    }
  }

  ghost predicate Twice<C, R>(es: seq<Entry<C>>, ds: seq<Did<R>>, sid: nat, q: nat)
    requires |es| == |ds|
  {
    exists i, j :: i < j && Exec(es, ds, i, sid, q) && Exec(es, ds, j, sid, q)
  }

  ghost predicate Met<C, R>(es: seq<Entry<C>>, ds: seq<Did<R>>, i: int, sid: nat, q: nat)
    requires |es| == |ds|
  {
    0 <= i < |es| && HasKey(es[i], sid, q) && ds[i].found
  }

  /** A key met its live session, was acknowledged, and met it again. */
  ghost predicate MetAgain<C, R>(es: seq<Entry<C>>, ds: seq<Did<R>>, sid: nat, q: nat)
    requires |es| == |ds|
  {
    exists i, l, j :: i < l < j && Met(es, ds, i, sid, q) && Clears(es, ds, l, sid, q) && Met(es, ds, j, sid, q)
  }

  /** Entry `i` is a command of the session, which is live when the entry comes up. */
  ghost predicate SentAlive<S, C, R>(n: Node<S, R>, es: seq<Entry<C>>, f: (S, nat, C) -> (S, ApplyResult<R>), i: int, sid: nat) {
    && 0 <= i < |es| && es[i].Command? && es[i].sid == sid
    && Session(Afresh(Run(n, es[..i], f).0.sessions, es[i].now), sid).Some?
  }

  /** The client sent a sequence number again although, in between, it had said that it has the result. */
  ghost predicate StaleRetry<S, C, R>(n: Node<S, R>, es: seq<Entry<C>>, f: (S, nat, C) -> (S, ApplyResult<R>), sid: nat, q: nat) {
    exists i, l, j :: i < l < j
      && SentAlive(n, es, f, i, sid) && SentAlive(n, es, f, l, sid) && SentAlive(n, es, f, j, sid)
      && es[i].seqNum == q && es[l].lowest > q && es[j].seqNum == q
  }

  /** What an entry reports of its session is what the sessions before it say. */
  lemma FoundIffAlive<S(!new), C(!new), R>(n: Node<S, R>, es: seq<Entry<C>>, f: (S, nat, C) -> (S, ApplyResult<R>), i: int, sid: nat)
    requires NoSessions(n.sessions) && !n.panicked && Answers(f, es) && RegistersOnce(es) && sid != 0
    requires 0 <= i < |es| && es[i].Command? && es[i].sid == sid
    ensures Run(n, es, f).1[i].found <==> SentAlive(n, es, f, i, sid)
  {
    RunPrefix(n, es, f, i);
    assert RegistersOnce(es[..i]);
    AnswersPrefix(f, es, i);
    RunSound(n, es[..i], f);
  }

  lemma MetAgainIsStale<S(!new), C(!new), R>(n: Node<S, R>, es: seq<Entry<C>>, f: (S, nat, C) -> (S, ApplyResult<R>), sid: nat, q: nat)
    requires NoSessions(n.sessions) && !n.panicked && Answers(f, es) && RegistersOnce(es) && sid != 0
    ensures MetAgain(es, Run(n, es, f).1, sid, q) ==> StaleRetry(n, es, f, sid, q)
  {
    var ds := Run(n, es, f).1;
    if i, l, j :| i < l < j && Met(es, ds, i, sid, q) && Clears(es, ds, l, sid, q) && Met(es, ds, j, sid, q) {
      FoundIffAlive(n, es, f, i, sid);
      FoundIffAlive(n, es, f, l, sid);
      FoundIffAlive(n, es, f, j, sid);
    }
  }

  lemma StaleIsMetAgain<S(!new), C(!new), R>(n: Node<S, R>, es: seq<Entry<C>>, f: (S, nat, C) -> (S, ApplyResult<R>), sid: nat, q: nat)
    requires NoSessions(n.sessions) && !n.panicked && Answers(f, es) && RegistersOnce(es) && sid != 0
    ensures StaleRetry(n, es, f, sid, q) ==> MetAgain(es, Run(n, es, f).1, sid, q)
  {
    var ds := Run(n, es, f).1;
    if i, l, j :| i < l < j
                  && SentAlive(n, es, f, i, sid) && SentAlive(n, es, f, l, sid) && SentAlive(n, es, f, j, sid)
                  && es[i].seqNum == q && es[l].lowest > q && es[j].seqNum == q {
      FoundIffAlive(n, es, f, i, sid);
      FoundIffAlive(n, es, f, l, sid);
      FoundIffAlive(n, es, f, j, sid);
      assert Met(es, ds, i, sid, q) && Clears(es, ds, l, sid, q) && Met(es, ds, j, sid, q);
    }
  }

  lemma PrefixKeys<C, R>(es: seq<Entry<C>>, ds: seq<Did<R>>, j: nat, i: int, sid: nat, q: nat)
    requires |es| == |ds| && j <= |es|
    ensures Exec(es[..j], ds[..j], i, sid, q) <==> i < j && Exec(es, ds, i, sid, q)
    ensures Clears(es[..j], ds[..j], i, sid, q) <==> i < j && Clears(es, ds, i, sid, q)
  {}

  /** Every command found live was executed by then, at its own place or before. */
  lemma ExecutedByThen<S(!new), C(!new), R>(n: Node<S, R>, es: seq<Entry<C>>, f: (S, nat, C) -> (S, ApplyResult<R>), j: nat, sid: nat, q: nat) returns (a: nat)
    requires NoSessions(n.sessions) && !n.panicked && Answers(f, es) && RegistersOnce(es) && sid != 0
    requires Met(es, Run(n, es, f).1, j, sid, q)
    ensures a <= j && Exec(es, Run(n, es, f).1, a, sid, q)
    ensures forall l :: a < l < j ==> !Clears(es, Run(n, es, f).1, l, sid, q)
  {
    var ds := Run(n, es, f).1;
    ExecutedIff(n, es, f, j);
    if ds[j].executed {
      a := j;
    } else {
      var i :| Remembered(es[..j], ds[..j], i, sid, q);
      a := i;
      forall l | a < l < j
        ensures !Clears(es, ds, l, sid, q)
      {
        PrefixKeys(es, ds, j, l, sid, q);
      }
    }
  }

  lemma TwiceIffMetAgain<S(!new), C(!new), R>(n: Node<S, R>, es: seq<Entry<C>>, f: (S, nat, C) -> (S, ApplyResult<R>), sid: nat, q: nat)
    requires NoSessions(n.sessions) && !n.panicked && Answers(f, es) && RegistersOnce(es) && sid != 0
    ensures Twice(es, Run(n, es, f).1, sid, q) <==> MetAgain(es, Run(n, es, f).1, sid, q)
  {
    var ds := Run(n, es, f).1;
    RunSound(n, es, f);
    if i, j :| i < j && Exec(es, ds, i, sid, q) && Exec(es, ds, j, sid, q) {
      ExecutedIff(n, es, f, j);
      assert !Remembered(es[..j], ds[..j], i, sid, q);
      PrefixKeys(es, ds, j, i, sid, q);
      var l :| i < l < j && Clears(es[..j], ds[..j], l, sid, q);
      PrefixKeys(es, ds, j, l, sid, q);
      assert Met(es, ds, i, sid, q) && Clears(es, ds, l, sid, q) && Met(es, ds, j, sid, q);
    }
    if i, l, j :| i < l < j && Met(es, ds, i, sid, q) && Clears(es, ds, l, sid, q) && Met(es, ds, j, sid, q) {
      var a := ExecutedByThen(n, es, f, i, sid, q);
      var b := ExecutedByThen(n, es, f, j, sid, q);
      assert a < b;
    }
  }

  /** Exactly once: a sequence number of a session is executed twice exactly if the client re-sent it
      after acknowledging it, to a session that was still live. */
  lemma TwiceIffStaleRetry<S(!new), C(!new), R>(n: Node<S, R>, es: seq<Entry<C>>, f: (S, nat, C) -> (S, ApplyResult<R>), sid: nat, q: nat)
    requires NoSessions(n.sessions) && !n.panicked && Answers(f, es) && RegistersOnce(es) && sid != 0
    ensures Twice(es, Run(n, es, f).1, sid, q) <==> StaleRetry(n, es, f, sid, q)
  {
    TwiceIffMetAgain(n, es, f, sid, q);
    MetAgainIsStale(n, es, f, sid, q);
    StaleIsMetAgain(n, es, f, sid, q);
  }

  lemma RunSnoc<S, C, R>(n: Node<S, R>, es: seq<Entry<C>>, e: Entry<C>, f: (S, nat, C) -> (S, ApplyResult<R>))
    ensures var (p, ds) := Run(n, es, f);
            Run(n, es + [e], f) == (Step(p, e, f).0, ds + [Step(p, e, f).1])
  {
    assert (es + [e])[..|es|] == es;
  }

  /** One session, with results for these numbers. */
  ghost predicate OneSession<S, R>(n: Node<S, R>, numbers: set<nat>) {
    && !n.panicked && n.sessions.Expired? && n.sessions.ttl == 1 && n.sessions.table.Keys == {1}
    && n.sessions.table[1].id == 1 && n.sessions.table[1].lastActive == 0 && n.sessions.table[1].results.Keys == numbers
  }

  function Kept(numbers: set<nat>, lowest: nat): set<nat> { set x | x in numbers && x >= lowest }

  /** A command with a number that has no result is executed. */
  lemma SendNew<S, C, R>(n: Node<S, R>, es: seq<Entry<C>>, e: Entry<C>, f: (S, nat, C) -> (S, ApplyResult<R>), numbers: set<nat>)
    requires OneSession(Run(n, es, f).0, numbers)
    requires e.Command? && e.sid == 1 && e.now == e.doneAt == 0 && !e.conf && e.seqNum !in numbers
    ensures OneSession(Run(n, es + [e], f).0, Kept(numbers, e.lowest) + {e.seqNum})
    ensures var ds := Run(n, es + [e], f).1; ds[..|es|] == Run(n, es, f).1 && ds[|es|].executed
  {
    RunSnoc(n, es, e, f);
    var p := Run(n, es, f).0;
    var m := Afresh(p.sessions, 0);
    assert m.table == p.sessions.table;
    var s := m.table[1];
    assert Session(m, 1) == Some(s) && Cleared(s, e.lowest).results.Keys == Kept(numbers, e.lowest);
  }

  lemma RegisterFirst<S, C, R>(machine: S, f: (S, nat, C) -> (S, ApplyResult<R>)) returns (es: seq<Entry<C>>)
    ensures es == [Register(1, 0)]
    ensures var p := Run(Node(Expired(1, map[]), machine, false), es, f).0; OneSession(p, {}) && p.machine == machine
  {
    es := [Register(1, 0)];
    RunSnoc(Node(Expired(1, map[]), machine, false), [], Register(1, 0), f);
    assert [] + es == es;
  }

  /** Number 1 is executed, and number 2 acknowledges it. */
  lemma Acknowledged<S, C, R>(machine: S, c: C, f: (S, nat, C) -> (S, ApplyResult<R>)) returns (es: seq<Entry<C>>)
    ensures |es| == 3 && es[0].Register? && HasKey(es[1], 1, 1) && es[2].Command?
    ensures forall k :: 0 <= k < 3 ==> es[k].index == k + 1 && !IsConf(es[k])
    ensures var (p, ds) := Run(Node(Expired(1, map[]), machine, false), es, f); OneSession(p, {2}) && ds[1].executed
  {
    var n: Node<S, R> := Node(Expired(1, map[]), machine, false);
    var first, second := Command(2, 1, 1, 0, c, 0, 0, false), Command(3, 1, 2, 2, c, 0, 0, false);
    var start := RegisterFirst<S, C, R>(machine, f);
    SendNew(n, start, first, f, {});
    assert Kept({}, 0) + {1} == {1};
    var two := start + [first];
    SendNew(n, two, second, f, {1});
    assert Kept({1}, 2) + {2} == {2};
    es := two + [second];
    assert Run(n, es, f).1[..2][1] == Run(n, two, f).1[1];
  }

  /** Whatever the state machine: a number is acknowledged by the bound of the next command, sent again, and
      executed again. */
  lemma ExecutedTwice<S, C, R>(machine: S, c: C, f: (S, nat, C) -> (S, ApplyResult<R>)) returns (es: seq<Entry<C>>)
    ensures RegistersOnce(es) && Delivered(es) && Twice(es, Run(Node(Expired(1, map[]), machine, false), es, f).1, 1, 1)
  {
    var n: Node<S, R> := Node(Expired(1, map[]), machine, false);
    var again := Command(4, 1, 1, 0, c, 0, 0, false);
    var before := Acknowledged<S, C, R>(machine, c, f);
    SendNew(n, before, again, f, {2});
    es := before + [again];
    var ds := Run(n, es, f).1;
    assert ds[..3][1] == Run(n, before, f).1[1];
    FirstAndLast(es, ds);
  }

  lemma FirstAndLast<C, R>(es: seq<Entry<C>>, ds: seq<Did<R>>)
    requires |es| == |ds| == 4 && es[0].Register? && es[2].Command?
    requires HasKey(es[1], 1, 1) && HasKey(es[3], 1, 1) && ds[1].executed && ds[3].executed
    requires forall k :: 0 <= k < 4 ==> es[k].index == k + 1 && !IsConf(es[k])
    ensures RegistersOnce(es) && Delivered(es) && Twice(es, ds, 1, 1)
  {
    assert Exec(es, ds, 1, 1, 1) && Exec(es, ds, 3, 1, 1);
  }

  /** A client that never sends a sequence number below a bound it has sent before. */
  ghost predicate HonestClients<C>(es: seq<Entry<C>>) {
    forall l, j :: 0 <= l < j < |es| && es[l].Command? && es[j].Command? && es[l].sid == es[j].sid != 0
                   ==> es[j].seqNum >= es[l].lowest
  }

  /** For honest clients every sequence number is executed at most once, and every later entry that
      carries it while the session lives is answered with the result of that one execution. */
  lemma AtMostOnce<S(!new), C(!new), R>(n: Node<S, R>, es: seq<Entry<C>>, f: (S, nat, C) -> (S, ApplyResult<R>), i: nat, j: nat)
    requires NoSessions(n.sessions) && !n.panicked && Answers(f, es) && RegistersOnce(es) && HonestClients(es)
    requires i < j < |es| && es[i].Command? && es[i].sid != 0 && HasKey(es[j], es[i].sid, es[i].seqNum)
    ensures var ds := Run(n, es, f).1;
            ds[i].executed ==> !ds[j].executed && (ds[j].found ==> ds[j].reply == ds[i].reply)
  {
    var ds := Run(n, es, f).1;
    var sid, q := es[i].sid, es[i].seqNum;
    if ds[i].executed {
      assert Exec(es, ds, i, sid, q);
      TwiceIffMetAgain(n, es, f, sid, q);
      assert !MetAgain(es, ds, sid, q);
      assert !Exec(es, ds, j, sid, q);
      ExecutedIff(n, es, f, j);
      if ds[j].found {
        var k :| Remembered(es[..j], ds[..j], k, sid, q) && ds[j].reply == ds[k].reply;
        PrefixKeys(es, ds, j, k, sid, q);
      }
    }
  }

  lemma {:induction false} RunIds<S, C, R>(n: Node<S, R>, es: seq<Entry<C>>, f: (S, nat, C) -> (S, ApplyResult<R>))
    requires IdsMatch(n.sessions)
    ensures IdsMatch(Run(n, es, f).0.sessions)
  {
    if es == [] {
    } else {
      RunIds(n, es[..|es| - 1], f);
      IdsStay(Run(n, es[..|es| - 1], f).0, es[|es| - 1], f);
    }
  }

  /** A session that was registered and is gone (unregistered, evicted or expired) never comes back. */
  lemma {:induction false} StaysGone<S, C, R>(n: Node<S, R>, es: seq<Entry<C>>, f: (S, nat, C) -> (S, ApplyResult<R>), k: nat, sid: nat)
    requires IdsMatch(n.sessions) && RegistersOnce(es) && k <= |es|
    requires RegisteredBy(es[..k], sid) && Session(Run(n, es[..k], f).0.sessions, sid).None?
    ensures Session(Run(n, es, f).0.sessions, sid).None?
  {
    if k == |es| {
      assert es[..k] == es;
    } else {
      var fs, e := es[..|es| - 1], es[|es| - 1];
      assert fs[..k] == es[..k] && es == fs + [e];
      StaysGone(n, fs, f, k, sid);
      RunIds(n, fs, f);
      StepFinds(Run(n, fs, f).0, e, f, sid);
      PrefixRegistered(fs, k, sid);
      if e.Register? { NotRegisteredBefore(fs, e); }
    }
  }

  /** Commands of a session that is gone are not executed. */
  lemma GoneSessionsApplyNothing<S, C, R>(n: Node<S, R>, es: seq<Entry<C>>, f: (S, nat, C) -> (S, ApplyResult<R>), k: nat, j: nat)
    requires IdsMatch(n.sessions) && RegistersOnce(es) && k <= j < |es| && es[j].Command? && es[j].sid != 0
    requires RegisteredBy(es[..k], es[j].sid) && Session(Run(n, es[..k], f).0.sessions, es[j].sid).None?
    ensures !Run(n, es, f).1[j].executed && !Run(n, es, f).1[j].found
  {
    var fs := es[..j];
    assert fs[..k] == es[..k];
    StaysGone(n, fs, f, k, es[j].sid);
    RunIds(n, fs, f);
    StepFinds(Run(n, fs, f).0, es[j], f, 0);
    RunPrefix(n, es, f, j);
  }

  // ---------------------------------------------------------------------------
  // The state machine, the replies and the times
  // ---------------------------------------------------------------------------

  /** The state machine after the commands that are marked as executed, in log order. */
  function Folded<S, C, R>(machine: S, es: seq<Entry<C>>, ds: seq<Did<R>>, f: (S, nat, C) -> (S, ApplyResult<R>)): S
    requires |es| == |ds|
  {
    if es == [] then machine
    else
      var e, before := es[|es| - 1], Folded(machine, es[..|es| - 1], ds[..|ds| - 1], f);
      if e.Command? && ds[|ds| - 1].executed then f(before, e.index, e.cmd).0 else before
  }

  /** Over every log the state machine has gone through exactly the commands reported as executed. */
  lemma {:induction false} MachineIsFold<S, C, R>(n: Node<S, R>, es: seq<Entry<C>>, f: (S, nat, C) -> (S, ApplyResult<R>))
    ensures Run(n, es, f).0.machine == Folded(n.machine, es, Run(n, es, f).1, f)
  {
    if es == [] {
    } else {
      var front := es[..|es| - 1];
      MachineIsFold(n, front, f);
      var ds := Run(n, es, f).1;
      assert ds[..|ds| - 1] == Run(n, front, f).1;
    }
  }

  /** An executed command is answered with the state machine's own result at that point, which carries the log index if
      it is a configuration change; the answer is missing only where the node goes down. */
  lemma ExecutedReplies<S, C, R>(n: Node<S, R>, es: seq<Entry<C>>, f: (S, nat, C) -> (S, ApplyResult<R>), j: nat)
    requires j < |es| && Run(n, es, f).1[j].executed
    ensures es[j].Command?
    ensures var ds := Run(n, es, f).1;
            var r := f(Folded(n.machine, es[..j], ds[..j], f), es[j].index, es[j].cmd).1;
            if ds[j].reply.None? then Run(n, es[..j + 1], f).0.panicked
            else && ds[j].reply.value.response == r.response && ds[j].reply.value.error == r.error
                 && ds[j].reply.value.logIndex == if es[j].conf then es[j].index else r.logIndex
  {
    RunPrefix(n, es, f, j);
    MachineIsFold(n, es[..j], f);
    assert es[..j] + [es[j]] == es[..j + 1];
    RunSnoc(n, es[..j], es[j], f);
  }

  /** What every other entry is answered, by the sessions it meets; a command without a session is always executed. */
  lemma EntryReplies<S, C, R>(n: Node<S, R>, es: seq<Entry<C>>, f: (S, nat, C) -> (S, ApplyResult<R>), j: nat)
    requires j < |es| && !Run(n, es[..j], f).0.panicked
    ensures var m, d := Run(n, es[..j], f).0.sessions, Run(n, es, f).1[j];
            match es[j]
            case Nil(_) => !d.executed && d.reply.None?
            case Register(index, _) =>
              !d.executed && d.reply.Some? && d.reply.value.logIndex == index && d.reply.value.response.None?
              && (d.reply.value.error.None? <==> Session(m, index).None?)
            case Unregister(index, sid) =>
              !d.executed && d.reply.Some? && d.reply.value.logIndex == index && d.reply.value.response.None?
              && (d.reply.value.error.None? <==> Session(m, sid).Some?)
            case Publish(index) => !d.executed && d.reply.Some? && d.reply.value.logIndex == index && d.reply.value.error.None?
            case Command(index, sid, _, _, _, now, _, _) =>
              && (sid == 0 ==> d.executed && d.reply.Some?)
              && (sid != 0 && Session(Afresh(m, now), sid).None? ==>
                    !d.executed && d.reply.Some? && d.reply.value.logIndex == index && d.reply.value.error.Some?)
  {
    RunPrefix(n, es, f, j);
  }

  /** When the session was active last, by the log: the time of its last executed command, or of its registration. */
  function ActiveAt<C, R>(es: seq<Entry<C>>, ds: seq<Did<R>>, sid: nat): int
    requires |es| == |ds|
  {
    if es == [] then 0
    else
      var e, d := es[|es| - 1], ds[|ds| - 1];
      if e.Register? && e.index == sid then e.now
      else if e.Command? && e.sid == sid && d.executed then if e.conf then e.now else e.doneAt
      else ActiveAt(es[..|es| - 1], ds[..|ds| - 1], sid)
  }

  lemma StepActivity<S, C, R>(n: Node<S, R>, e: Entry<C>, f: (S, nat, C) -> (S, ApplyResult<R>), sid: nat)
    requires IdsMatch(n.sessions) && sid != 0 && !Step(n, e, f).0.panicked
    requires e.Register? && e.index == sid ==> Session(n.sessions, sid).None?
    ensures var (t, d) := Step(n, e, f);
            Session(t.sessions, sid).Some? ==>
              if e.Register? && e.index == sid then Session(t.sessions, sid).value.lastActive == e.now
              else && Session(n.sessions, sid).Some?
                   && Session(t.sessions, sid).value.lastActive
                      == if e.Command? && e.sid == sid && d.executed then if e.conf then e.now else e.doneAt
                         else Session(n.sessions, sid).value.lastActive
  {
    match e
    case Register(index, now) => RegisteredLaw(n.sessions, index, now, sid);
    case Unregister(_, x) => UnregisteredLaw(n.sessions, x, sid);
    case Command(_, x, _, _, _, now, _, _) =>
      var m := Afresh(n.sessions, now);
      AfreshLaw(n.sessions, now, sid);
      AfreshLaw(n.sessions, now, x);
      SessionId(m, x);
      if x != 0 && Session(m, x).Some? {
        var s := Session(m, x).value;
        TouchedLaw(m, x, sid);
        TouchedLaw(m, x, x);
        StoredLaw(Touched(m, x), Cleared(s, e.lowest), sid);
        var (_, r) := Execute(n.machine, e, f);
        StoredLaw(Touched(m, x), WithResult(Cleared(s, e.lowest), e.seqNum, if e.conf then e.now else e.doneAt, r), sid);
      }
    case _ =>
  }

  /** Over every log a live session was active last when the log says so. */
  lemma {:induction false} ActivityIs<S, C, R>(n: Node<S, R>, es: seq<Entry<C>>, f: (S, nat, C) -> (S, ApplyResult<R>), sid: nat)
    requires NoSessions(n.sessions) && RegistersOnce(es) && sid != 0
    ensures var (p, ds) := Run(n, es, f);
            && Known(es, ds, p.sessions)
            && (!p.panicked && Session(p.sessions, sid).Some? ==> Session(p.sessions, sid).value.lastActive == ActiveAt(es, ds, sid))
  {
    if es == [] {
    } else {
      var front, e := es[..|es| - 1], es[|es| - 1];
      assert es == front + [e];
      ActivityIs(n, front, f, sid);
      var (p, ds) := Run(n, front, f);
      KnownStep(front, ds, p, e, f);
      if e.Register? { NotRegisteredBefore(front, e); }
      if !Step(p, e, f).0.panicked { StepActivity(p, e, f, sid); }
      assert Run(n, es, f).1[..|es| - 1] == ds;
    }
  }

  /** A command finds a session that has been neither unregistered, evicted nor expired before, exactly if it comes less
      than the limit after the session's last activity; a list of recently used sessions knows no limit. */
  lemma AliveIff<S, C, R>(n: Node<S, R>, es: seq<Entry<C>>, f: (S, nat, C) -> (S, ApplyResult<R>), i: nat, sid: nat)
    requires NoSessions(n.sessions) && RegistersOnce(es) && sid != 0
    requires i < |es| && es[i].Command? && es[i].sid == sid
    requires !Run(n, es[..i], f).0.panicked && Session(Run(n, es[..i], f).0.sessions, sid).Some?
    ensures var (p, ds) := Run(n, es[..i], f);
            SentAlive(n, es, f, i, sid) <==> p.sessions.Lru? || Wrapped(ActiveAt(es[..i], ds, sid) + p.sessions.ttl) > es[i].now
  {
    assert RegistersOnce(es[..i]);
    ActivityIs(n, es[..i], f, sid);
    AfreshLaw(Run(n, es[..i], f).0.sessions, es[i].now, sid);
  }

  // ---------------------------------------------------------------------------
  // The panic of AddResult
  // ---------------------------------------------------------------------------

  predicate IsConf<C>(e: Entry<C>) { e.Command? && e.conf }

  /** Entries as they come to be applied: no index twice, and rising among the configuration changes and among the
      others, which are applied by two loops. */
  ghost predicate Delivered<C>(es: seq<Entry<C>>) {
    forall i, j :: 0 <= i < j < |es| ==>
      es[i].index != es[j].index && (IsConf(es[i]) == IsConf(es[j]) ==> es[i].index < es[j].index)
  }

  /** No command after the first entry of the log gets an empty result. */
  ghost predicate NeverEmpty<S(!new), C(!new), R>(f: (S, nat, C) -> (S, ApplyResult<R>)) {
    forall s, i: nat, c :: i > 1 ==> !f(s, i, c).1.IsEmpty()
  }

  ghost predicate NeverPanics<S(!new), C(!new), R(!new)>(f: (S, nat, C) -> (S, ApplyResult<R>)) {
    forall m: Manager<R>, machine: S, es: seq<Entry<C>> ::
      NoSessions(m) && Delivered(es) ==> !Run(Node(m, machine, false), es, f).0.panicked
  }

  /** A command of a registered session is not the first entry. */
  lemma NeverEmptyAnswers<S(!new), C(!new), R>(f: (S, nat, C) -> (S, ApplyResult<R>), es: seq<Entry<C>>)
    requires NeverEmpty(f) && Delivered(es)
    ensures Answers(f, es) && RegistersOnce(es)
  {
    forall j, s | 0 <= j < |es| && SessionCommand(es[j]) && RegisteredBy(es[..j], es[j].sid)
      ensures !f(s, es[j].index, es[j].cmd).1.IsEmpty()
    {
      var k :| 0 <= k < |es[..j]| && es[..j][k].Register? && es[..j][k].index == es[j].sid;
      assert es[k].index < es[j].index;
    }
  }

  /** The empty result is cached. */
  lemma EmptyIsCached<S, C, R>(n: Node<S, R>, i: Index, c: C, f: (S, nat, C) -> (S, ApplyResult<R>))
    requires OneSession(n, {}) && f(n.machine, i, c).1.IsEmpty()
    ensures var p := Step(n, Command(i, 1, 1, 0, c, 0, 0, false), f).0;
            OneSession(p, {1}) && p.sessions.table[1].results[1].IsEmpty()
  {
    var m := Afresh(n.sessions, 0);
    assert m.table == n.sessions.table;
    assert Session(m, 1) == Some(m.table[1]) && Cleared(m.table[1], 0).results == map[];
  }

  /** It is not taken for a result, and cannot be replaced. */
  lemma RepeatPanics<S, C, R>(n: Node<S, R>, i: Index, c: C, f: (S, nat, C) -> (S, ApplyResult<R>))
    requires OneSession(n, {1}) && n.sessions.table[1].results[1].IsEmpty()
    ensures Step(n, Command(i, 1, 1, 0, c, 0, 0, false), f).0.panicked
  {
    var m := Afresh(n.sessions, 0);
    assert m.table == n.sessions.table;
    assert Session(m, 1) == Some(m.table[1]) && 1 in Cleared(m.table[1], 0).results;
  }

  /** A state machine that answers a command with an empty result, asked twice by the same client. */
  lemma EmptyResultPanics<S, C, R>(machine: S, i: Index, c: C, f: (S, nat, C) -> (S, ApplyResult<R>)) returns (es: seq<Entry<C>>)
    requires i > 1 && f(machine, i, c).1.IsEmpty()
    ensures Delivered(es) && Run(Node(Expired(1, map[]), machine, false), es, f).0.panicked
  {
    var n: Node<S, R> := Node(Expired(1, map[]), machine, false);
    var first, again := Command(i, 1, 1, 0, c, 0, 0, false), Command(i + 1, 1, 1, 0, c, 0, 0, false);
    var start := RegisterFirst<S, C, R>(machine, f);
    RunSnoc(n, start, first, f);
    EmptyIsCached(Run(n, start, f).0, i, c, f);
    var two := start + [first];
    RunSnoc(n, two, again, f);
    RepeatPanics(Run(n, two, f).0, i + 1, c, f);
    es := two + [again];
  }

  /** No log makes the pipeline panic exactly if no command after the first entry gets an empty result. */
  lemma NeverPanicsIff<S(!new), C(!new), R(!new)>(f: (S, nat, C) -> (S, ApplyResult<R>))
    ensures NeverPanics(f) <==> NeverEmpty(f)
  {
    if NeverEmpty(f) {
      forall m: Manager<R>, machine: S, es: seq<Entry<C>> | NoSessions(m) && Delivered(es)
        ensures !Run(Node(m, machine, false), es, f).0.panicked
      {
        NeverEmptyAnswers(f, es);
        RunSound(Node(m, machine, false), es, f);
      }
    } else {
      var s, i: nat, c :| i > 1 && f(s, i, c).1.IsEmpty();
      var es := EmptyResultPanics(s, i, c, f);
      var m: Manager<R> := Expired(1, map[]);
      assert NoSessions(m) && Delivered(es) && Run(Node(m, s, false), es, f).0.panicked;
    }
  }

  // ---------------------------------------------------------------------------
  // The apply loop in its own form
  // ---------------------------------------------------------------------------

  class Applier<S, C, R> {
    var sessions: Manager<R>
    var machine: S
    var panicked: bool
    const apply: (S, nat, C) -> (S, ApplyResult<R>)

    constructor (sessions: Manager<R>, machine: S, apply: (S, nat, C) -> (S, ApplyResult<R>))
      ensures View() == Node(sessions, machine, false) && this.apply == apply
    {
      this.sessions, this.machine, this.panicked, this.apply := sessions, machine, false, apply;
    }

    ghost function View(): Node<S, R>
      reads this
    {
      Node(sessions, machine, panicked)
    }

    /** The look-up of a live session, with the deferred clearing of acknowledged results; a result that
        looks empty to the caller means that the command has to be executed. */
    method DoExactlyOnce(e: Entry<C>) returns (toApply: bool, ar: Option<ApplyResult<R>>)
      requires e.Command? && Session(sessions, e.sid).Some?
      modifies this`sessions
      ensures var s := Session(old(sessions), e.sid).value;
              && sessions == Stored(Touched(old(sessions), e.sid), Cleared(s, e.lowest))
              && ar == (if e.seqNum in s.results then Some(s.results[e.seqNum]) else None)
              && (toApply <==> ar.None? || (!e.conf && ar.value.IsEmpty()))
    {
      var s := Session(sessions, e.sid).value;
      sessions := Touched(sessions, e.sid);
      if e.seqNum in s.results {
        ar := Some(s.results[e.seqNum]);
        toApply := !e.conf && ar.value.IsEmpty();
      } else {
        ar, toApply := None, true;
      }
      sessions := Stored(sessions, Cleared(s, e.lowest));
    }

    method ApplyCommand(e: Entry<C>) returns (d: Did<R>)
      requires e.Command? && !panicked && IdsMatch(sessions)
      modifies this
      ensures (View(), d) == CommandStep(old(View()), e, apply)
    {
      sessions := Afresh(sessions, e.now);
      if e.sid == 0 {
        var (next, r) := Execute(machine, e, apply);
        machine := next;
        return Did(false, true, Some(r));
      }
      var live := Session(sessions, e.sid);
      if live.None? {
        return Did(false, false, Some(ApplyResult(e.index, None, Some(NOT_FOUND))));
      }
      SessionId(sessions, e.sid);
      ghost var current := sessions;
      var kept := Cleared(live.value, e.lowest);
      var toApply, ar := DoExactlyOnce(e);
      if !toApply {
        return Did(true, false, ar);
      }
      var (next, r) := Execute(machine, e, apply);
      machine := next;
      if e.seqNum in kept.results {
        panicked := true;
        return Did(true, true, None);
      }
      var done := WithResult(kept, e.seqNum, if e.conf then e.now else e.doneAt, r);
      StoredTwice(Touched(current, e.sid), kept, done);
      sessions := Stored(sessions, done);
      return Did(true, true, Some(r));
    }

    /** Applies a batch of committed entries in order, until one panics. */
    method ApplyEntries(es: seq<Entry<C>>) returns (ds: seq<Did<R>>)
      requires IdsMatch(sessions)
      modifies this
      ensures (View(), ds) == Run(old(View()), es, apply)
    {
      ds := [];
      var i := 0;
      while i < |es|
        invariant 0 <= i <= |es| && IdsMatch(sessions)
        invariant (View(), ds) == Run(old(View()), es[..i], apply)
      {
        var e := es[i];
        assert es[..i + 1][..i] == es[..i];
        IdsStay(View(), e, apply);
        ghost var before := View();
        var d: Did<R>;
        if panicked {
          d := Did(false, false, None);
        } else {
          match e
          case Nil(_) => d := Did(false, false, None);
          case Register(index, now) =>
            var known := Session(sessions, index).Some?;
            sessions := Registered(sessions, index, now);
            d := Did(false, false, Some(ApplyResult(index, None, if known then Some(NOT_FOUND) else None)));
          case Unregister(index, sid) =>
            var known := Session(sessions, sid).Some?;
            sessions := Unregistered(sessions, sid);
            d := Did(false, false, Some(ApplyResult(index, None, if known then None else Some(NOT_FOUND))));
          case Publish(index) => d := Did(false, false, Some(ApplyResult(index, None, None)));
          case Command(_, _, _, _, _, _, _, _) => d := ApplyCommand(e);
        }
        assert (View(), d) == Step(before, e, apply);
        ds := ds + [d];
        i := i + 1;
      }
      assert es[..|es|] == es;
    }
  }

  /** Changing a session in place twice is changing it once. */
  lemma StoredTwice<R>(m: Manager<R>, s: SessionV<R>, t: SessionV<R>)
    requires s.id == t.id
    ensures Stored(Stored(m, s), t) == Stored(m, t)
  {
    if m.Lru? { assert Replaced(Replaced(m.order, s), t) == Replaced(m.order, t); }
  }
}
