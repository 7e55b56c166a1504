/**
 Recovering as a standalone node: the configuration changes that make the local peer the only member are
 appended to the log, after the committed history, and are applied like any other.
 */
module Recovery {
  import opened Common
  import opened Membership

  // ---------------------------------------------------------------- the ids the recovery knows of

  /** The ids of the snapshot's voters and of the history, or None for a change of unknown type. */
  function Ids(voters: set<nat>, history: seq<Change>): Option<set<nat>> {
    if history == [] then Some(voters)
    else
      var c := history[|history| - 1];
      match Ids(voters, history[..|history| - 1])
      case None => None
      case Some(s) =>
        match c.kind
        case AddNode => Some(s + {c.id})
        case AddLearnerNode => Some(s + {c.id})
        case RemoveNode => Some(s - {c.id})
        case UpdateNode => Some(s)
        case Other => None
  }

  predicate Rising(ids: seq<nat>) { forall i, j :: 0 <= i < j < |ids| ==> ids[i] < ids[j] }

  function Elements(ids: seq<nat>): set<nat> { set i | 0 <= i < |ids| :: ids[i] }

  /** The ids of the changes, in rising order. */
  method ListIds(snapshot: Option<seq<nat>>, history: seq<Change>) returns (r: Option<seq<nat>>)
    ensures var all := Ids(if snapshot.Some? then Elements(snapshot.value) else {}, history);
            && (r.None? <==> all.None?)
            && (r.Some? ==> Rising(r.value) && Elements(r.value) == all.value)
  {
    var nodeIds: set<nat> := {};
    if snapshot.Some? {
      for k := 0 to |snapshot.value|
        invariant nodeIds == set i | 0 <= i < k :: snapshot.value[i]
      {
        nodeIds := nodeIds + {snapshot.value[k]};
      }
    }
    ghost var voters := if snapshot.Some? then Elements(snapshot.value) else {};
    for k := 0 to |history|
      invariant Ids(voters, history[..k]) == Some(nodeIds)
    {
      assert history[..k + 1][..k] == history[..k];
      match history[k].kind {
        case AddLearnerNode => nodeIds := nodeIds + {history[k].id};
        case AddNode => nodeIds := nodeIds + {history[k].id};
        case RemoveNode => nodeIds := nodeIds - {history[k].id};
        case UpdateNode =>
        case Other =>
          UnknownStays(voters, history, k + 1);
          return None;
      }
    }
    assert history[..|history|] == history;
    var ids := Sorted(nodeIds);
    return Some(ids);
  }

  lemma {:induction false} UnknownStays(voters: set<nat>, history: seq<Change>, k: nat)
    requires k <= |history| && Ids(voters, history[..k]).None?
    ensures Ids(voters, history).None?
    decreases |history| - k
  {
    if k == |history| {
      assert history[..k] == history;
    } else {
      assert history[..k + 1][..k] == history[..k];
      UnknownStays(voters, history, k + 1);
    }
  }

  method Sorted(s: set<nat>) returns (ids: seq<nat>)
    ensures Rising(ids) && Elements(ids) == s
  {
    ids := [];
    var todo := s;
    while todo != {}
      invariant todo <= s && Rising(ids) && Elements(ids) == s - todo
      decreases todo
    {
      var x :| x in todo;
      var k := 0;
      while k < |ids| && ids[k] < x
        invariant 0 <= k <= |ids| && forall i :: 0 <= i < k ==> ids[i] < x
      {
        k := k + 1;
      }
      assert k < |ids| ==> ids[k] in Elements(ids);
      assert Elements(ids[..k] + [x] + ids[k..]) == Elements(ids) + {x} by { ElementsInserted(ids, k, x); }
      ids := ids[..k] + [x] + ids[k..];
      todo := todo - {x};
    }
  }

  lemma ElementsInserted(ids: seq<nat>, k: nat, x: nat)
    requires k <= |ids|
    ensures Elements(ids[..k] + [x] + ids[k..]) == Elements(ids) + {x}
  {
    var all := ids[..k] + [x] + ids[k..];
    assert all[k] == x;
    assert forall i :: 0 <= i < |ids| ==> ids[i] == all[if i < k then i else i + 1];
    assert forall i :: 0 <= i < |all| && i != k ==> all[i] == ids[if i < k then i else i - 1];
  }

  // ---------------------------------------------------------------- the changes it appends

  function Removal(id: nat): Change { Change(RemoveNode, id, "", false, false) }

  function Removals(local: nat, ids: seq<nat>): seq<Change> {
    if ids == [] then []
    else Removals(local, ids[..|ids| - 1]) + if ids[|ids| - 1] == local then [] else [Removal(ids[|ids| - 1])]
  }

  function Generated(local: nat, addr: string, ids: seq<nat>): seq<Change> {
    (if local in ids then [] else [Change(AddNode, local, addr, false, false)]) + Removals(local, ids)
  }

  datatype HardState = HardState(term: nat, vote: nat, commit: nat)
  datatype Entry = Entry(term: nat, index: nat, change: Change)

  predicate Numbered(ents: seq<Entry>, hs: HardState, cs: seq<Change>) {
    |ents| == |cs| && forall i :: 0 <= i < |cs| ==> ents[i] == Entry(hs.term, hs.commit + 1 + i, cs[i])
  }

  lemma NumberedAppended(ents: seq<Entry>, hs: HardState, cs: seq<Change>, c: Change)
    requires Numbered(ents, hs, cs)
    ensures Numbered(ents + [Entry(hs.term, hs.commit + 1 + |ents|, c)], hs, cs + [c])
  {
  }

  /** The changes for the first `k + 1` ids extend those for the first `k`. */
  lemma GeneratedGrows(head: seq<Change>, local: nat, ids: seq<nat>, k: nat)
    requires k < |ids|
    ensures head + Removals(local, ids[..k + 1])
            == if ids[k] == local then head + Removals(local, ids[..k])
               else head + Removals(local, ids[..k]) + [Removal(ids[k])]
  {
    assert ids[..k + 1][..k] == ids[..k];
    assert Removals(local, ids[..k]) + [] == Removals(local, ids[..k]);
  }

  method Matches(local: nat, ids: seq<nat>) returns (found: bool)
    ensures found <==> local in ids
  {
    found := false;
    for k := 0 to |ids|
      invariant found <==> local in ids[..k]
    {
      if ids[k] == local { found := true; }
    }
  }

  /** The entries follow the committed ones without a gap, and the commit index moves to the last of them. */
  method CreateEntries(local: nat, addr: string, ids: seq<nat>, hs: HardState) returns (r: Option<(seq<Entry>, HardState)>)
    ensures r.None? <==> hs == HardState(0, 0, 0)
    ensures r.Some? ==> && Numbered(r.value.0, hs, Generated(local, addr, ids))
                        && r.value.1 == hs.(commit := hs.commit + |r.value.0|)
  {
    if hs == HardState(0, 0, 0) { return None; }
    var found := Matches(local, ids);
    var ents: seq<Entry> := [];
    ghost var head: seq<Change> := if local in ids then [] else [Change(AddNode, local, addr, false, false)];
    if !found { ents := [Entry(hs.term, hs.commit + 1, Change(AddNode, local, addr, false, false))]; }
    var nextIndex := hs.commit + 1 + |ents|;
    assert head + Removals(local, ids[..0]) == head;
    for k := 0 to |ids|
      invariant nextIndex == hs.commit + 1 + |ents|
      invariant Numbered(ents, hs, head + Removals(local, ids[..k]))
    {
      GeneratedGrows(head, local, ids, k);
      if ids[k] != local {
        NumberedAppended(ents, hs, head + Removals(local, ids[..k]), Removal(ids[k]));
        ents := ents + [Entry(hs.term, nextIndex, Removal(ids[k]))];
        nextIndex := nextIndex + 1;
      }
    }
    assert ids[..|ids|] == ids;
    return Some((ents, if ents != [] then hs.(commit := ents[|ents| - 1].index) else hs));
  }

  // ---------------------------------------------------------------- the ids after the recovery

  lemma {:induction false} IdsAppend(voters: set<nat>, h: seq<Change>, k: seq<Change>)
    requires Ids(voters, h).Some?
    ensures Ids(voters, h + k) == Ids(Ids(voters, h).value, k)
    decreases |k|
  {
    if k == [] {
      assert h + k == h;
    } else {
      IdsAppend(voters, h, k[..|k| - 1]);
      assert (h + k)[..|h + k| - 1] == h + k[..|k| - 1];
    }
  }

  lemma {:induction false} IdsOfRemovals(s: set<nat>, local: nat, ids: seq<nat>)
    ensures Ids(s, Removals(local, ids)) == Some(s - (Elements(ids) - {local}))
  {
    if ids == [] {
      assert s - (Elements(ids) - {local}) == s;
    } else {
      IdsOfRemovals(s, local, ids[..|ids| - 1]);
      RemovalsGrow(local, ids);
      WithoutOneMore(s, Elements(ids[..|ids| - 1]), local, ids[|ids| - 1]);
    }
  }

  /** Listing the ids again, over the history with the new entries, gives the local peer alone. */
  lemma RefoldIsLocal(voters: set<nat>, history: seq<Change>, local: nat, addr: string, ids: seq<nat>)
    requires Ids(voters, history).Some? && Elements(ids) == Ids(voters, history).value
    ensures Ids(voters, history + Generated(local, addr, ids)) == Some({local})
  {
    var s := Ids(voters, history).value;
    IdsAppend(voters, history, Generated(local, addr, ids));
    if local in ids {
      assert Generated(local, addr, ids) == Removals(local, ids);
      IdsOfRemovals(s, local, ids);
      assert local in Elements(ids);
      assert s - (Elements(ids) - {local}) == {local};
    } else {
      var add := [Change(AddNode, local, addr, false, false)];
      assert Ids(s, add) == Some(s + {local}) by { assert add[..0] == []; }
      IdsAppend(s, add, Removals(local, ids));
      IdsOfRemovals(s + {local}, local, ids);
      assert local !in Elements(ids);
      assert s + {local} - (Elements(ids) - {local}) == {local};
    }
  }

  // ---------------------------------------------------------------- the group after the recovery

  lemma {:induction false} RunAppend(g: Group, h: seq<Change>, k: seq<Change>)
    ensures Run(g, h + k) == match Run(g, h) case None => None case Some(g') => Run(g', k)
    decreases |k|
  {
    if k == [] {
      assert h + k == h;
    } else {
      RunAppend(g, h, k[..|k| - 1]);
      assert (h + k)[..|h + k| - 1] == h + k[..|k| - 1];
    }
  }

  lemma RemovalsGrow(local: nat, ids: seq<nat>)
    requires ids != []
    ensures var front, x := ids[..|ids| - 1], ids[|ids| - 1];
            && Elements(ids) == Elements(front) + {x}
            && (x == local ==> Removals(local, ids) == Removals(local, front))
            && (x != local ==> var all := Removals(local, ids);
                               all != [] && all[..|all| - 1] == Removals(local, front) && all[|all| - 1] == Removal(x))
  {
    var front, x := ids[..|ids| - 1], ids[|ids| - 1];
    ElementsInserted(front, |front|, x);
    assert front[..|front|] + [x] + front[|front|..] == ids;
  }

  /** With the local peer a voter, the removals all go through. */
  lemma {:induction false} RemovalsRun(g: Group, local: nat, ids: seq<nat>)
    requires Agree(g) && local in g.raft.voters
    ensures var g' := Run(g, Removals(local, ids));
            && g'.Some? && Agree(g'.value) && local in g'.value.raft.voters
            && g'.value.store.peers.Keys == g.store.peers.Keys - (Elements(ids) - {local})
  {
    if ids == [] {
      assert Run(g, []) == Some(g);
      assert g.store.peers.Keys - (Elements(ids) - {local}) == g.store.peers.Keys;
    } else {
      var front, x := ids[..|ids| - 1], ids[|ids| - 1];
      RemovalsRun(g, local, front);
      RemovalsGrow(local, ids);
      var h := Run(g, Removals(local, front)).value;
      if x != local { RemovalStep(h, local, x); }
      WithoutOneMore(g.store.peers.Keys, Elements(front), local, x);
    }
  }

  lemma WithoutOneMore(keys: set<nat>, s: set<nat>, local: nat, x: nat)
    ensures keys - (s + {x} - {local}) == if x == local then keys - (s - {local}) else keys - (s - {local}) - {x}
  {
  }

  lemma RemovalStep(g: Group, local: nat, x: nat)
    requires Agree(g) && local in g.raft.voters && x != local
    ensures var g' := Step(g, Removal(x));
            && g'.Some? && Agree(g'.value) && local in g'.value.raft.voters
            && g'.value.store.peers.Keys == g.store.peers.Keys - {x}
  {
    PanicsIff(g, Removal(x));
    StepAgreesIff(g, Removal(x));
  }

  /** Removals add no one: a peer that is no voter before them is none after. */
  lemma {:induction false} RemovalsElect(g: Group, local: nat, ids: seq<nat>)
    requires Agree(g) && local !in g.raft.voters && Run(g, Removals(local, ids)).Some?
    ensures var g' := Run(g, Removals(local, ids)).value; Agree(g') && local !in g'.raft.voters
  {
    if ids == [] {
      assert Run(g, []) == Some(g);
    } else {
      var front, x := ids[..|ids| - 1], ids[|ids| - 1];
      RemovalsGrow(local, ids);
      RemovalsElect(g, local, front);
      if x != local { RemovalElects(Run(g, Removals(local, front)).value, local, x); }
    }
  }

  lemma RemovalElects(g: Group, local: nat, x: nat)
    requires Agree(g) && local !in g.raft.voters
    ensures var g' := Step(g, Removal(x)); g'.Some? ==> Agree(g'.value) && local !in g'.value.raft.voters
  {
    if Step(g, Removal(x)).Some? { StepAgreesIff(g, Removal(x)); }
  }

  lemma OthersRemain(g: Group, local: nat)
    requires Agree(g) && local !in g.raft.voters
    ensures g.store.peers.Keys != {local}
  {
    var v :| v in g.raft.voters;
    assert v in g.store.peers.Keys && v != local;
  }

  /** The local peer can be, or become, a voter. */
  predicate Electable(g: Group, local: nat, addr: string, ids: seq<nat>) {
    if local in g.store.peers then local in g.raft.voters
    else local !in ids && local !in g.store.removed && AddressFree(g.store.peers, addr)
  }

  /** The group after the optional addition of the local peer. */
  lemma Joined(g: Group, local: nat, addr: string, ids: seq<nat>)
    requires Agree(g) && local != NONE
    ensures var head := if local in ids then [] else [Change(AddNode, local, addr, false, false)];
            var g' := Run(g, head);
            && g'.Some? && Agree(g'.value)
            && (local in g'.value.raft.voters <==> Electable(g, local, addr, ids))
            && (Electable(g, local, addr, ids) ==> g'.value.store.peers.Keys == g.store.peers.Keys + {local})
  {
    assert Run(g, []) == Some(g);
    if local !in ids {
      var c := Change(AddNode, local, addr, false, false);
      assert [c][..0] == [];
      assert Run(g, [c]) == Step(g, c);
      PanicsIff(g, c);
      StepAgreesIff(g, c);
      assert Accepts(g.store, c) ==> Step(g, c).value.store.peers.Keys == g.store.peers.Keys + {local};
    }
    assert local in g.store.peers ==> g.store.peers.Keys + {local} == g.store.peers.Keys;
  }

  /**
   The appended changes, applied to the group that the history leads to, leave the local peer as the only
   member exactly if it is a voter or may be added, and every other member is among the listed ids. In the
   other cases raft panics on the removal of the last voter, or a member is left over.
   */
  lemma StandaloneIff(g: Group, local: nat, addr: string, ids: seq<nat>)
    requires Agree(g) && local != NONE
    ensures var g' := Run(g, Generated(local, addr, ids));
            (g'.Some? && g'.value.store.peers.Keys == {local} == g'.value.raft.voters + g'.value.raft.learners) <==>
            (Electable(g, local, addr, ids) && g.store.peers.Keys - {local} <= Elements(ids))
  {
    var head := if local in ids then [] else [Change(AddNode, local, addr, false, false)];
    Joined(g, local, addr, ids);
    var h := Run(g, head).value;
    RunAppend(g, head, Removals(local, ids));
    assert Generated(local, addr, ids) == head + Removals(local, ids);
    if Electable(g, local, addr, ids) {
      RemovalsRun(h, local, ids);
      var rest := h.store.peers.Keys - (Elements(ids) - {local});
      assert local in rest;
      assert rest == {local} <==> g.store.peers.Keys - {local} <= Elements(ids) by {
        if g.store.peers.Keys - {local} <= Elements(ids) { assert rest == {local}; }
        if rest == {local} { assert forall x :: x in g.store.peers.Keys && x != local ==> x !in rest; }
      }
    } else if Run(h, Removals(local, ids)).Some? {
      RemovalsElect(h, local, ids);
      OthersRemain(Run(h, Removals(local, ids)).value, local);
    }
  }

  // ---------------------------------------------------------------- when the listed ids are the members

  /** Every change of the history was accepted. */
  predicate AllAccepted(g: Group, history: seq<Change>) {
    history == [] ||
    (var front := history[..|history| - 1];
     AllAccepted(g, front) && Run(g, front).Some? && Accepts(Run(g, front).value.store, history[|history| - 1]))
  }

  /** The listed ids are the members if the snapshot has no learner and no change was rejected. */
  lemma {:induction false} ListedAreMembers(g: Group, history: seq<Change>)
    requires g.raft.learners == {} && g.store.peers.Keys == g.raft.voters
    requires AllAccepted(g, history) && Run(g, history).Some?
    ensures Ids(g.raft.voters, history) == Some(Run(g, history).value.store.peers.Keys)
  {
    if history == [] {
    } else {
      var front, c := history[..|history| - 1], history[|history| - 1];
      ListedAreMembers(g, front);
      var h := Run(g, front).value;
      var keys, keys' := h.store.peers.Keys, Stored(h.store, c).peers.Keys;
      if Adds(c) || Promotes(c) {
        assert keys' == keys + {c.id};
      } else if c.kind.RemoveNode? {
        assert keys' == keys - {c.id};
      } else {
        assert keys' == keys;
      }
    }
  }

  /** A learner that only the snapshot lists stays a member of the recovered node. */
  lemma LearnerIsLeft(a: string, b: string)
    requires a != b
    ensures var g := Group(1, Store(map[1 := Member(a, false), 2 := Member(b, true)], {}), Config({1}, {2}), map[2 := b]);
            && Agree(g) && Ids(g.raft.voters, []) == Some(Elements([1]))
            && var g' := Run(g, Generated(1, a, [1]));
               g'.Some? && 2 in g'.value.store.peers && 2 in g'.value.raft.learners
  {
    assert Elements([1]) == {1} by { assert [1][0] == 1; }
    assert Removals(1, [1]) == [] by { assert [1][..0] == []; }
    assert Generated(1, a, [1]) == [];
  }

  /** A local peer that was removed before is not admitted again, and raft panics with its last voter. */
  lemma RemovedCannotRecover(a: string, b: string)
    requires a != b
    ensures var g := Group(1, Store(map[2 := Member(b, false)], {1}), Config({2}, {}), map[2 := b]);
            Agree(g) && Run(g, Generated(1, a, [2])).None?
  {
    var g := Group(1, Store(map[2 := Member(b, false)], {1}), Config({2}, {}), map[2 := b]);
    var add := Change(AddNode, 1, a, false, false);
    assert Removals(1, [2]) == [Removal(2)] by { assert [2][..0] == []; }
    assert Generated(1, a, [2]) == [add, Removal(2)];
    assert [add, Removal(2)][..1] == [add] && [add][..0] == [];
    assert 2 in g.raft.voters;
    assert Run(g, []) == Some(g);
    assert Run(g, [add]) == Step(g, add) == Some(g);
    PanicsIff(g, Removal(2));
  }
}
