/**
 Committed configuration changes. Each is validated against the cluster store; an accepted one is handed to
 raft and to the transport, a rejected one reaches raft with node id None.

 Raft's side follows the single-step changes of go.etcd.io/etcd/raft v3.5: node id 0 is skipped, a change that
 would leave no voter makes raft panic.
 */
module Membership {
  import opened Common

  const NONE := 0

  datatype ChangeType = AddNode | AddLearnerNode | RemoveNode | UpdateNode | Other
  datatype Change = Change(kind: ChangeType, id: nat, addr: string, learner: bool, promote: bool)
  datatype Member = Member(addr: string, learner: bool)

  datatype Store = Store(peers: map<nat, Member>, removed: set<nat>)
  datatype Config = Config(voters: set<nat>, learners: set<nat>)
  datatype Group = Group(local: nat, store: Store, raft: Config, directory: map<nat, string>)

  // ---------------------------------------------------------------- the cluster store

  predicate Adds(c: Change) { (c.kind.AddNode? || c.kind.AddLearnerNode?) && !c.promote }
  predicate Promotes(c: Change) { (c.kind.AddNode? || c.kind.AddLearnerNode?) && c.promote }

  predicate AddressFree(peers: map<nat, Member>, addr: string) {
    forall i :: i in peers ==> peers[i].addr != addr
  }

  predicate Accepts(s: Store, c: Change) {
    if Adds(c) then c.id !in s.peers && c.id !in s.removed && AddressFree(s.peers, c.addr)
    else if Promotes(c) then c.id in s.peers && s.peers[c.id].learner
    else (c.kind.RemoveNode? || c.kind.UpdateNode?) && c.id in s.peers
  }

  function Stored(s: Store, c: Change): Store
    requires Accepts(s, c)
  {
    if Adds(c) then s.(peers := s.peers[c.id := Member(c.addr, c.learner)])
    else if Promotes(c) then s.(peers := s.peers[c.id := s.peers[c.id].(learner := false)])
    else if c.kind.RemoveNode? then Store(s.peers - {c.id}, s.removed + {c.id})
    else s.(peers := s.peers[c.id := Member(c.addr, c.learner)])
  }

  // ---------------------------------------------------------------- raft and the transport

  /** Raft's configuration after a change, or None where raft panics. */
  function Applied(r: Config, kind: ChangeType, id: nat): Option<Config> {
    var r' :=
      if id == NONE then r
      else match kind
           case AddNode => Config(r.voters + {id}, r.learners - {id})
           case AddLearnerNode => Config(r.voters - {id}, r.learners + {id})
           case RemoveNode => Config(r.voters - {id}, r.learners - {id})
           case _ => r;
    if r'.voters == {} then None else Some(r')
  }

  /**
   What a change does to raft, id by id: it gives its own id the role that its type says, leaves every other id
   alone, does nothing for None, and panics exactly if no other voter would be left.
   */
  lemma AppliedLaw(r: Config, kind: ChangeType, id: nat, x: nat)
    requires r.voters !! r.learners
    ensures var gone := id != NONE && (kind.RemoveNode? || kind.AddLearnerNode?);
            Applied(r, kind, id).None? <==>
              (forall v :: v in r.voters ==> gone && v == id) && !(id != NONE && kind.AddNode?)
    ensures Applied(r, kind, id).Some? ==>
              var r' := Applied(r, kind, id).value;
              && r'.voters !! r'.learners
              && (x != id || id == NONE ==> (x in r'.voters <==> x in r.voters) && (x in r'.learners <==> x in r.learners))
              && (id != NONE && kind.AddNode? ==> id in r'.voters)
              && (id != NONE && kind.AddLearnerNode? ==> id in r'.learners)
              && (id != NONE && kind.RemoveNode? ==> id !in r'.voters + r'.learners)
  {
    if Applied(r, kind, id).None? {
      assert forall v :: v in r.voters ==> v == id || v in r.voters - {id};
    }
    if exists v :: v in r.voters && v != id {
      var v :| v in r.voters && v != id;
      assert v in r.voters - {id} && v in r.voters + {id};
    }
    assert id in r.voters + {id};
  }

  function Directed(local: nat, d: map<nat, string>, c: Change): map<nat, string> {
    if c.id == local || Promotes(c) then d
    else if Adds(c) then if c.id in d then d else d[c.id := c.addr]
    else if c.kind.RemoveNode? then d - {c.id}
    else if c.kind.UpdateNode? && c.id in d then d[c.id := c.addr]
    else d
  }

  /** One committed change, or None where raft panics. */
  function Step(g: Group, c: Change): Option<Group> {
    if Accepts(g.store, c) then
      match Applied(g.raft, c.kind, c.id)
      case None => None
      case Some(r) => Some(Group(g.local, Stored(g.store, c), r, Directed(g.local, g.directory, c)))
    else
      match Applied(g.raft, c.kind, NONE)
      case None => None
      case Some(r) => Some(g.(raft := r))
  }

  function Run(g: Group, cs: seq<Change>): Option<Group> {
    if cs == [] then Some(g)
    else
      match Run(g, cs[..|cs| - 1])
      case None => None
      case Some(g') => Step(g', cs[|cs| - 1])
  }

  // ---------------------------------------------------------------- agreement on who is a member

  /** Raft knows the members of the store, as either voters or learners, and no one else. */
  ghost predicate Agree(g: Group) {
    && g.store.peers.Keys == g.raft.voters + g.raft.learners
    && g.raft.voters !! g.raft.learners
    && g.raft.voters != {} && NONE !in g.raft.voters + g.raft.learners
  }

  ghost predicate Buried(g: Group) { g.store.peers.Keys !! g.store.removed }

  /** A change keeps agreement exactly if it does not make a member of node id None. */
  lemma StepAgreesIff(g: Group, c: Change)
    requires Agree(g) && Step(g, c).Some?
    ensures Agree(Step(g, c).value) <==> !(Adds(c) && c.id == NONE && Accepts(g.store, c))
  {
    var g' := Step(g, c).value;
    if Accepts(g.store, c) {
      if Adds(c) && c.id == NONE {
        assert NONE in g'.store.peers;
      } else if Adds(c) {
        assert g'.store.peers.Keys == g.store.peers.Keys + {c.id};
      } else if c.kind.RemoveNode? {
        assert g'.store.peers.Keys == g.store.peers.Keys - {c.id};
      } else {
        assert g'.store.peers.Keys == g.store.peers.Keys;
      }
    }
  }

  /** Raft panics exactly on the removal, or the demotion, of its only voter. */
  lemma PanicsIff(g: Group, c: Change)
    requires Agree(g)
    ensures Step(g, c).None? <==>
            Accepts(g.store, c) && c.id != NONE && g.raft.voters == {c.id}
            && (c.kind.RemoveNode? || c.kind.AddLearnerNode?)
  {
    if g.raft.voters - {c.id} == {} { assert g.raft.voters == {c.id}; }
  }

  /** What holds even with a member of node id None: raft's members are the other members of the store. */
  ghost predicate AgreeButNone(g: Group) {
    && g.store.peers.Keys - {NONE} == g.raft.voters + g.raft.learners
    && g.raft.voters !! g.raft.learners && g.raft.voters != {}
  }

  lemma StepKeepsButNone(g: Group, c: Change)
    requires AgreeButNone(g) && Step(g, c).Some?
    ensures AgreeButNone(Step(g, c).value)
  {
    var g' := Step(g, c).value;
    if Accepts(g.store, c) {
      var keys, keys' := g.store.peers.Keys, g'.store.peers.Keys;
      if Adds(c) {
        assert keys' == keys + {c.id};
      } else if c.kind.RemoveNode? {
        assert keys' == keys - {c.id};
      } else {
        assert keys' == keys;
      }
    }
  }

  lemma {:induction false} RunKeepsButNone(g: Group, cs: seq<Change>)
    requires AgreeButNone(g) && Run(g, cs).Some?
    ensures AgreeButNone(Run(g, cs).value)
  {
    if cs == [] {
    } else {
      RunKeepsButNone(g, cs[..|cs| - 1]);
      StepKeepsButNone(Run(g, cs[..|cs| - 1]).value, cs[|cs| - 1]);
    }
  }

  /** Change `i` concerns node id None and is accepted by the store it meets. */
  ghost predicate Happens(g: Group, cs: seq<Change>, i: int) {
    && 0 <= i < |cs| && cs[i].id == NONE
    && Run(g, cs[..i]).Some? && Accepts(Run(g, cs[..i]).value.store, cs[i])
  }

  ghost predicate AddsNone(g: Group, cs: seq<Change>, i: int) { Happens(g, cs, i) && Adds(cs[i]) }
  ghost predicate RemovesNone(g: Group, cs: seq<Change>, i: int) { Happens(g, cs, i) && cs[i].kind.RemoveNode? }

  /** Change `i` adds None, and no later change removes it. */
  ghost predicate NoneStays(g: Group, cs: seq<Change>, i: int) {
    AddsNone(g, cs, i) && forall j :: i < j ==> !RemovesNone(g, cs, j)
  }

  lemma HappensBefore(g: Group, cs: seq<Change>, k: nat, i: int)
    requires k <= |cs|
    ensures AddsNone(g, cs[..k], i) <==> i < k && AddsNone(g, cs, i)
    ensures RemovesNone(g, cs[..k], i) <==> i < k && RemovesNone(g, cs, i)
  {
    if 0 <= i < k { assert cs[..k][..i] == cs[..i] && cs[..k][i] == cs[i]; }
  }

  lemma StaysBefore(g: Group, cs: seq<Change>, n: nat, i: int)
    requires |cs| == n + 1
    ensures NoneStays(g, cs, i) <==> if i == n then AddsNone(g, cs, n) else NoneStays(g, cs[..n], i) && !RemovesNone(g, cs, n)
  {
    HappensBefore(g, cs, n, i);
    forall j
      ensures RemovesNone(g, cs[..n], j) <==> j < n && RemovesNone(g, cs, j)
    {
      HappensBefore(g, cs, n, j);
    }
    assert forall j :: RemovesNone(g, cs, j) ==> j <= n;
  }

  lemma StepOfNone(g: Group, c: Change)
    requires Step(g, c).Some?
    ensures var s, s' := g.store, Step(g, c).value.store;
            NONE in s'.peers <==>
              if c.id == NONE && Accepts(s, c) && Adds(c) then true
              else if c.id == NONE && Accepts(s, c) && c.kind.RemoveNode? then false
              else NONE in s.peers
  {
  }

  lemma {:induction false} NoneIsMemberIff(g: Group, cs: seq<Change>)
    requires NONE !in g.store.peers && Run(g, cs).Some?
    ensures NONE in Run(g, cs).value.store.peers <==> exists i :: NoneStays(g, cs, i)
  {
    if cs == [] {
    } else {
      var n := |cs| - 1;
      NoneIsMemberIff(g, cs[..n]);
      StepOfNone(Run(g, cs[..n]).value, cs[n]);
      StayingIff(g, cs, n);
    }
  }

  lemma StayingIff(g: Group, cs: seq<Change>, n: nat)
    requires |cs| == n + 1
    ensures (exists i :: NoneStays(g, cs, i)) <==>
            AddsNone(g, cs, n) || (!RemovesNone(g, cs, n) && exists i :: NoneStays(g, cs[..n], i))
  {
    StaysBefore(g, cs, n, n);
    if i :| NoneStays(g, cs, i) { StaysBefore(g, cs, n, i); }
    if i :| NoneStays(g, cs[..n], i) { StaysBefore(g, cs, n, i); }
  }

  /** After every run of changes, accepted or rejected, store and raft agree exactly if every addition of node
      id None that was accepted was followed by its removal. */
  lemma RunAgreesIff(g: Group, cs: seq<Change>)
    requires Agree(g) && Run(g, cs).Some?
    ensures Agree(Run(g, cs).value) <==> forall i :: AddsNone(g, cs, i) ==> exists j :: i < j && RemovesNone(g, cs, j)
  {
    RunKeepsButNone(g, cs);
    var keys := Run(g, cs).value.store.peers.Keys;
    assert NONE !in keys ==> keys - {NONE} == keys;
    assert Agree(Run(g, cs).value) <==> NONE !in keys;
    NoneIsMemberIff(g, cs);
    if forall i :: AddsNone(g, cs, i) ==> exists j :: i < j && RemovesNone(g, cs, j) {
      assert forall i :: !NoneStays(g, cs, i);
    } else {
      var i :| AddsNone(g, cs, i) && forall j :: i < j ==> !RemovesNone(g, cs, j);
      assert NoneStays(g, cs, i);
    }
  }

  lemma {:induction false} RunStarts(g: Group, cs: seq<Change>, k: nat)
    requires k <= |cs| && Run(g, cs).Some?
    ensures Run(g, cs[..k]).Some?
  {
    if k == |cs| {
      assert cs[..k] == cs;
    } else {
      assert cs[..|cs| - 1][..k] == cs[..k];
      RunStarts(g, cs[..|cs| - 1], k);
    }
  }

  ghost predicate AgreeAt(g: Group, cs: seq<Change>, k: nat)
    requires k <= |cs|
  {
    Run(g, cs[..k]).Some? && Agree(Run(g, cs[..k]).value)
  }

  lemma NeverAddedAgrees(g: Group, cs: seq<Change>, k: nat)
    requires Agree(g) && Run(g, cs).Some? && k <= |cs| && forall i :: !AddsNone(g, cs, i)
    ensures AgreeAt(g, cs, k)
  {
    RunStarts(g, cs, k);
    forall i
      ensures !AddsNone(g, cs[..k], i)
    {
      HappensBefore(g, cs, k, i);
    }
    RunAgreesIff(g, cs[..k]);
  }

  lemma AddedDisagrees(g: Group, cs: seq<Change>, i: nat)
    requires Agree(g) && Run(g, cs).Some? && AddsNone(g, cs, i)
    ensures !AgreeAt(g, cs, i + 1)
  {
    var k := i + 1;
    RunStarts(g, cs, k);
    HappensBefore(g, cs, k, i);
    forall j | i < j
      ensures !RemovesNone(g, cs[..k], j)
    {
      HappensBefore(g, cs, k, j);
    }
    RunAgreesIff(g, cs[..k]);
  }

  /** They agree throughout a run exactly if no change that adds node id None is accepted. */
  lemma AlwaysAgreesIff(g: Group, cs: seq<Change>)
    requires Agree(g) && Run(g, cs).Some?
    ensures (forall k: nat :: k <= |cs| ==> AgreeAt(g, cs, k)) <==> forall i :: !AddsNone(g, cs, i)
  {
    if i :| AddsNone(g, cs, i) {
      AddedDisagrees(g, cs, i);
    } else {
      forall k: nat | k <= |cs| { NeverAddedAgrees(g, cs, k); }
    }
  }

  /** In particular they agree if no change adds it, accepted or not. */
  lemma RunAgrees(g: Group, cs: seq<Change>)
    requires Agree(g) && Run(g, cs).Some?
    requires forall i :: 0 <= i < |cs| && Adds(cs[i]) ==> cs[i].id != NONE
    ensures Agree(Run(g, cs).value)
  {
    AlwaysAgreesIff(g, cs);
    assert AgreeAt(g, cs, |cs|);
    assert cs[..|cs|] == cs;
  }

  /** Adding a peer with id 0 makes it a member of the store and not of raft. */
  lemma NoneIsAdded(addr: string)
    ensures var g := Group(1, Store(map[1 := Member(addr, false)], {}), Config({1}, {}), map[]);
            var g' := Run(g, [Change(AddNode, NONE, addr + "'", false, false)]);
            Agree(g) && g'.Some? && NONE in g'.value.store.peers && !Agree(g'.value)
  {
    var g := Group(1, Store(map[1 := Member(addr, false)], {}), Config({1}, {}), map[]);
    var c := Change(AddNode, NONE, addr + "'", false, false);
    assert |addr + "'"| != |addr|;
    assert Run(g, []) == Some(g) && [c][..0] == [];
    assert Accepts(g.store, c);
    StepAgreesIff(g, c);
  }

  // ---------------------------------------------------------------- removed for good

  lemma StepKeepsBuried(g: Group, c: Change)
    requires Buried(g) && Step(g, c).Some?
    ensures Buried(Step(g, c).value) && g.store.removed <= Step(g, c).value.store.removed
  {
  }

  /** A removed id is a member at no later time, whatever changes are committed after. */
  lemma {:induction false} RemovedForGood(g: Group, cs: seq<Change>, k: nat, id: nat)
    requires Buried(g) && k <= |cs| && Run(g, cs).Some?
    ensures Run(g, cs[..k]).Some? && Buried(Run(g, cs[..k]).value) && Buried(Run(g, cs).value)
    ensures id in Run(g, cs[..k]).value.store.removed ==> id !in Run(g, cs).value.store.peers
    ensures id in Run(g, cs[..k]).value.store.removed ==> id in Run(g, cs).value.store.removed
    decreases |cs|
  {
    if k == |cs| {
      assert cs[..k] == cs;
      if cs != [] {
        RemovedForGood(g, cs[..|cs| - 1], k - 1, id);
        StepKeepsBuried(Run(g, cs[..|cs| - 1]).value, cs[|cs| - 1]);
      }
    } else {
      assert cs[..|cs| - 1][..k] == cs[..k];
      RemovedForGood(g, cs[..|cs| - 1], k, id);
      StepKeepsBuried(Run(g, cs[..|cs| - 1]).value, cs[|cs| - 1]);
    }
  }

  /** So an accepted removal is final. */
  lemma RemovalIsFinal(g: Group, cs: seq<Change>, k: nat)
    requires Buried(g) && k < |cs| && cs[k].kind.RemoveNode? && Run(g, cs).Some?
    ensures Run(g, cs[..k]).Some?
    ensures cs[k].id in Run(g, cs[..k]).value.store.peers ==> cs[k].id !in Run(g, cs).value.store.peers
  {
    RemovedForGood(g, cs, k, cs[k].id);
    RemovedForGood(g, cs, k + 1, cs[k].id);
    assert cs[..k + 1][..k] == cs[..k];
  }

  // ---------------------------------------------------------------- agreement on roles

  ghost predicate RolesAgree(g: Group) {
    Agree(g) && forall i :: i in g.store.peers ==> (g.store.peers[i].learner <==> i in g.raft.learners)
  }

  /** The change says the same of the role to the store and to raft. */
  predicate OneRole(g: Group, c: Change) {
    if Adds(c) then c.learner <==> c.kind.AddLearnerNode?
    else if Promotes(c) then c.kind.AddNode?
    else c.kind.UpdateNode? && c.id in g.store.peers ==> c.learner == g.store.peers[c.id].learner
  }

  lemma StepRolesIff(g: Group, c: Change)
    requires RolesAgree(g) && Step(g, c).Some? && c.id != NONE
    ensures RolesAgree(Step(g, c).value) <==> (Accepts(g.store, c) ==> OneRole(g, c))
  {
    StepAgreesIff(g, c);
    var g' := Step(g, c).value;
    if Accepts(g.store, c) && !c.kind.RemoveNode? {
      assert c.id in g'.store.peers;
      assert forall i :: i != c.id ==> (i in g'.raft.learners <==> i in g.raft.learners);
      assert forall i :: i in g'.store.peers && i != c.id ==> g'.store.peers[i] == g.store.peers[i];
    }
  }

  /** An update may turn a voter of raft into a learner of the store. */
  lemma UpdateSplitsRoles(addr: string)
    ensures var g := Group(1, Store(map[1 := Member(addr, false)], {}), Config({1}, {}), map[]);
            var g' := Step(g, Change(UpdateNode, 1, addr, true, false));
            RolesAgree(g) && g'.Some? && Agree(g'.value)
            && g'.value.store.peers[1].learner && 1 in g'.value.raft.voters
  {
  }

  // ---------------------------------------------------------------- the transport's directory

  function Addresses(peers: map<nat, Member>): map<nat, string> { map i | i in peers :: peers[i].addr }

  /** The transport knows the address of every other member, and of no one else but perhaps the local peer. */
  ghost predicate Directory(g: Group) {
    g.directory - {g.local} == Addresses(g.store.peers) - {g.local}
  }

  /** A first start lists the other members, a restart lists the local peer as well. */
  lemma StartDirectory(local: nat, store: Store, raft: Config)
    ensures Directory(Group(local, store, raft, Addresses(store.peers) - {local}))
    ensures Directory(Group(local, store, raft, Addresses(store.peers)))
  {
  }

  /** Every change keeps the others' addresses right, and leaves an entry of the local peer as it was. */
  lemma StepKeepsDirectory(g: Group, c: Change)
    requires Directory(g) && Step(g, c).Some?
    ensures var g' := Step(g, c).value;
            && Directory(g') && g'.local == g.local
            && (g.local in g'.directory <==> g.local in g.directory)
            && (g.local in g.directory ==> g'.directory[g.local] == g.directory[g.local])
  {
    var g' := Step(g, c).value;
    assert forall i :: i != g.local ==> (i in g.directory - {g.local} <==> i in g.directory);
    assert forall i :: i != g.local ==> (i in Addresses(g.store.peers) - {g.local} <==> i in g.store.peers);
    forall i | i != g.local
      ensures i in g'.directory <==> i in g'.store.peers
      ensures i in g'.directory ==> g'.directory[i] == g'.store.peers[i].addr
    {
      assert i in g.directory <==> i in g.store.peers;
      if i in g.directory { assert (g.directory - {g.local})[i] == (Addresses(g.store.peers) - {g.local})[i]; }
    }
  }

  lemma {:induction false} RunKeepsDirectory(g: Group, cs: seq<Change>)
    requires Directory(g) && Run(g, cs).Some?
    ensures var g' := Run(g, cs).value;
            && Directory(g') && g'.local == g.local
            && (g.local in g'.directory <==> g.local in g.directory)
            && (g.local in g.directory ==> g'.directory[g.local] == g.directory[g.local])
  {
    if cs == [] {
    } else {
      RunKeepsDirectory(g, cs[..|cs| - 1]);
      StepKeepsDirectory(Run(g, cs[..|cs| - 1]).value, cs[|cs| - 1]);
    }
  }

  // ---------------------------------------------------------------- addresses

  ghost predicate OneAddressEach(s: Store) {
    forall i, j :: i in s.peers && j in s.peers && i != j ==> s.peers[i].addr != s.peers[j].addr
  }

  /** Members keep separate addresses, except that an update is not checked for an address in use. */
  lemma StepAddressesIff(g: Group, c: Change)
    requires OneAddressEach(g.store) && Step(g, c).Some?
    ensures OneAddressEach(Step(g, c).value.store) <==>
            (c.kind.UpdateNode? && c.id in g.store.peers ==> AddressFree(g.store.peers - {c.id}, c.addr))
  {
    var s' := Step(g, c).value.store;
    if Accepts(g.store, c) && c.kind.UpdateNode? {
      var rest := g.store.peers - {c.id};
      assert forall i :: i in rest ==> s'.peers[i] == rest[i];
      if !AddressFree(rest, c.addr) {
        var i :| i in rest && rest[i].addr == c.addr;
        assert s'.peers[i].addr == s'.peers[c.id].addr;
      }
    }
  }

  /** An update may give a member the address of another. */
  lemma UpdateTakesAddress(a: string, b: string)
    requires a != b
    ensures var g := Group(1, Store(map[1 := Member(a, false), 2 := Member(b, false)], {}), Config({1, 2}, {}), map[2 := b]);
            var g' := Step(g, Change(UpdateNode, 2, a, false, false));
            OneAddressEach(g.store) && g'.Some? && !OneAddressEach(g'.value.store)
  {
    var g := Group(1, Store(map[1 := Member(a, false), 2 := Member(b, false)], {}), Config({1, 2}, {}), map[2 := b]);
    var peers := Step(g, Change(UpdateNode, 2, a, false, false)).value.store.peers;
    assert peers[1].addr == peers[2].addr;
  }

  // ---------------------------------------------------------------- the objects

  class Cluster {
    var peers: map<nat, Member>
    var removedIds: set<nat>

    function View(): Store
      reads this
    {
      Store(peers, removedIds)
    }

    constructor (peers: map<nat, Member>)
      ensures View() == Store(peers, {})
    {
      this.peers, removedIds := peers, {};
    }

    method Add(id: nat, m: Member) returns (ok: bool)
      modifies this
      ensures ok <==> id !in old(peers) && id !in old(removedIds) && AddressFree(old(peers), m.addr)
      ensures View() == if ok then old(View()).(peers := old(peers)[id := m]) else old(View())
    {
      if id in peers || id in removedIds { return false; }
      var todo := peers.Keys;
      while todo != {}
        invariant todo <= peers.Keys && peers == old(peers) && removedIds == old(removedIds)
        invariant forall i :: i in peers && i !in todo ==> peers[i].addr != m.addr
        decreases todo
      {
        var i :| i in todo;
        if peers[i].addr == m.addr { return false; }
        todo := todo - {i};
      }
      peers := peers[id := m];
      return true;
    }

    method Update(id: nat, m: Member) returns (ok: bool)
      modifies this
      ensures ok <==> id in old(peers)
      ensures View() == if ok then old(View()).(peers := old(peers)[id := m]) else old(View())
    {
      if id !in peers { return false; }
      var p := peers[id];
      p := p.(addr := m.addr);
      p := p.(learner := m.learner);
      peers := peers[id := p];
      return true;
    }

    method Remove(id: nat) returns (ok: bool)
      modifies this
      ensures ok <==> id in old(peers)
      ensures View() == if ok then Store(old(peers) - {id}, old(removedIds) + {id}) else old(View())
    {
      if id !in peers { return false; }
      peers := peers - {id};
      removedIds := removedIds + {id};
      return true;
    }

    method Promote(id: nat) returns (ok: bool)
      modifies this
      ensures ok <==> id in old(peers) && old(peers)[id].learner
      ensures View() == if ok then old(View()).(peers := old(peers)[id := old(peers)[id].(learner := false)]) else old(View())
    {
      if id !in peers { return false; }
      if !peers[id].learner { return false; }
      peers := peers[id := peers[id].(learner := false)];
      return true;
    }
  }

  /** The part of the applied facade that handles configuration changes. */
  class Facade {
    const cluster: Cluster
    const local: nat
    var raft: Config
    var directory: map<nat, string>
    var panicked: bool

    function View(): Group
      reads this, cluster
    {
      Group(local, cluster.View(), raft, directory)
    }

    constructor (cluster: Cluster, local: nat, raft: Config, directory: map<nat, string>)
      ensures this.cluster == cluster && !panicked && View() == Group(local, cluster.View(), raft, directory)
    {
      this.cluster, this.local, this.raft, this.directory, panicked := cluster, local, raft, directory, false;
    }

    method ValidateAndApply(c: Change) returns (ok: bool)
      modifies cluster
      ensures ok <==> Accepts(old(cluster.View()), c)
      ensures cluster.View() == if ok then Stored(old(cluster.View()), c) else old(cluster.View())
    {
      match c.kind {
        case AddNode | AddLearnerNode =>
          if c.promote {
            ok := cluster.Promote(c.id);
          } else {
            ok := cluster.Add(c.id, Member(c.addr, c.learner));
          }
        case RemoveNode => ok := cluster.Remove(c.id);
        case UpdateNode => ok := cluster.Update(c.id, Member(c.addr, c.learner));
        case Other => ok := false;
      }
    }

    method ApplyConfChange(kind: ChangeType, id: nat)
      modifies this`raft, this`panicked
      ensures match Applied(old(raft), kind, id)
              case None => panicked
              case Some(r) => raft == r && panicked == old(panicked)
    {
      var voters, learners := raft.voters, raft.learners;
      if id != NONE {
        match kind {
          case AddNode => voters, learners := voters + {id}, learners - {id};
          case AddLearnerNode => voters, learners := voters - {id}, learners + {id};
          case RemoveNode => voters, learners := voters - {id}, learners - {id};
          case _ =>
        }
      }
      if voters == {} { panicked := true; } else { raft := Config(voters, learners); }
    }

    /** Whether the local peer was removed, and the state after the change unless raft panicked. */
    method ProcessConfChange(c: Change) returns (removeSelf: bool)
      requires !panicked
      modifies this, cluster
      ensures match Step(old(View()), c)
              case None => panicked
              case Some(g) => !panicked && View() == g
      ensures removeSelf <==> !panicked && c.kind.RemoveNode? && c.id == local && local in old(cluster.peers)
    {
      var ok := ValidateAndApply(c);
      if !ok {
        ApplyConfChange(c.kind, NONE);
        return false;
      }
      ApplyConfChange(c.kind, c.id);
      if panicked { return false; }
      removeSelf := false;
      match c.kind {
        case AddNode | AddLearnerNode =>
          if !c.promote && c.id != local && c.id !in directory { directory := directory[c.id := c.addr]; }
        case RemoveNode =>
          if c.id == local { removeSelf := true; } else { directory := directory - {c.id}; }
        case UpdateNode =>
          if c.id != local && c.id in directory { directory := directory[c.id := c.addr]; }
      }
    }
  }
}
