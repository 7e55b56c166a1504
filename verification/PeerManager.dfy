/**
 Reference-counted transport peers: several (group, peer) identifiers that share an address share
 one peer, which is created with the first of them and stopped with the last.

 Peers made by the factory are numbered in the order of their creation; `stopped` records the calls
 of `Stop`.
 */
module PeerManager {
  import opened Common

  datatype Address = Address(text: string)
  datatype Identifier = Identifier(group: nat, peer: nat)
  type PeerNo = nat

  /** The identifiers that use an address. */
  function Users(addresses: map<Identifier, Address>, a: Address): set<Identifier> {
    set i | i in addresses && addresses[i] == a
  }

  predicate Unused(addresses: map<Identifier, Address>, a: Address) {
    forall i :: i in addresses ==> addresses[i] != a
  }

  predicate SoleUser(addresses: map<Identifier, Address>, i: Identifier)
    requires i in addresses
  {
    forall j :: j in addresses && addresses[j] == addresses[i] ==> j == i
  }

  datatype Found = NotFound | Dangling | Peer(no: PeerNo)

  lemma UsersAdded(addresses: map<Identifier, Address>, i: Identifier, a: Address, b: Address)
    requires i !in addresses
    ensures Users(addresses[i := a], b) == if a == b then Users(addresses, b) + {i} else Users(addresses, b)
    ensures |Users(addresses[i := a], b)| == |Users(addresses, b)| + if a == b then 1 else 0
  {
    assert Users(addresses[i := a], b) == if a == b then Users(addresses, b) + {i} else Users(addresses, b);
  }

  lemma UsersRemoved(addresses: map<Identifier, Address>, i: Identifier, b: Address)
    requires i in addresses
    ensures Users(addresses - {i}, b) == Users(addresses, b) - {i}
    ensures |Users(addresses - {i}, b)| == |Users(addresses, b)| - if addresses[i] == b then 1 else 0
  {
    assert Users(addresses - {i}, b) == Users(addresses, b) - {i};
  }

  /** The counters count the users, and the three maps speak of the same addresses. */
  ghost predicate Counted(peers: map<Address, PeerNo>, addresses: map<Identifier, Address>, refCounts: map<Address, int>) {
    && (forall a {:trigger Users(addresses, a)} :: a in refCounts ==> refCounts[a] == |Users(addresses, a)|)
    && (forall a :: a in refCounts ==> refCounts[a] > 0)
    && peers.Keys == refCounts.Keys
    && (forall i :: i in addresses ==> addresses[i] in refCounts)
  }

  /** Every peer ever made is live at one address, namely `home`, or was stopped once. */
  ghost predicate Accounted(peers: map<Address, PeerNo>, home: map<PeerNo, Address>, made: nat, stopped: seq<PeerNo>) {
    && (forall a :: a in peers ==> peers[a] in home && home[peers[a]] == a)
    && (forall n :: n in home ==> home[n] in peers && peers[home[n]] == n)
    && (forall n :: n in home ==> n < made && n !in stopped)
    && Distinct(stopped) && (forall n :: n in stopped ==> n < made)
    && (forall n: nat :: n < made && n !in home ==> n in stopped)
  }

  lemma AccountedMade(peers: map<Address, PeerNo>, home: map<PeerNo, Address>, made: nat, stopped: seq<PeerNo>, a: Address)
    requires Accounted(peers, home, made, stopped) && a !in peers
    ensures Accounted(peers[a := made], home[made := a], made + 1, stopped)
  {
  }

  lemma AccountedStopped(peers: map<Address, PeerNo>, home: map<PeerNo, Address>, made: nat, stopped: seq<PeerNo>, a: Address)
    requires Accounted(peers, home, made, stopped) && a in peers
    ensures Accounted(peers - {a}, home - {peers[a]}, made, stopped + [peers[a]])
  {
    DistinctAppended(stopped, peers[a]);
  }

  lemma DistinctAppended<T>(s: seq<T>, x: T)
    requires Distinct(s) && x !in s
    ensures Distinct(s + [x])
  {
  }

  class Manager {
    var peers: map<Address, PeerNo>
    var addresses: map<Identifier, Address>
    var refCounts: map<Address, int>
    var made: nat
    var stopped: seq<PeerNo>
    ghost var home: map<PeerNo, Address>

    ghost predicate Valid()
      reads this
    {
      Counted(peers, addresses, refCounts) && Accounted(peers, home, made, stopped)
    }

    constructor ()
      ensures Valid() && addresses == map[] && made == 0 && stopped == []
    {
      peers, addresses, refCounts, made, stopped, home := map[], map[], map[], 0, [], map[];
    }

    /** The case "address exists but peer not found" does not occur. */
    method GetPeer(i: Identifier) returns (r: Found)
      requires Valid()
      ensures r.Peer? <==> i in addresses
      ensures r.Peer? ==> addresses[i] in peers && r.no == peers[addresses[i]] && r.no < made && r.no !in stopped
      ensures !r.Dangling?
    {
      if i !in addresses { return NotFound; }
      if addresses[i] !in peers { return Dangling; }
      return Peer(peers[addresses[i]]);
    }

    method RetainAddress(a: Address)
      requires peers.Keys == refCounts.Keys
      modifies this`peers, this`refCounts, this`made
      ensures a in old(peers) ==>
                peers == old(peers) && made == old(made) && refCounts == old(refCounts)[a := old(refCounts)[a] + 1]
      ensures a !in old(peers) ==>
                peers == old(peers)[a := old(made)] && made == old(made) + 1 && refCounts == old(refCounts)[a := 1]
    {
      if a in peers {
        refCounts := refCounts[a := refCounts[a] + 1];
        return;
      }
      peers := peers[a := made];
      made := made + 1;
      refCounts := refCounts[a := 1];
    }

    method ReleaseAddress(a: Address) returns (stop: Option<PeerNo>)
      requires a in peers && a in refCounts && refCounts[a] > 0
      modifies this`peers, this`refCounts
      ensures stop == if old(refCounts)[a] == 1 then Some(old(peers)[a]) else None
      ensures stop.Some? ==> peers == old(peers) - {a} && refCounts == old(refCounts) - {a}
      ensures stop.None? ==> peers == old(peers) && refCounts == old(refCounts)[a := old(refCounts)[a] - 1]
    {
      refCounts := refCounts[a := refCounts[a] - 1];
      if refCounts[a] > 0 { return None; }
      stop := Some(peers[a]);
      peers := peers - {a};
      refCounts := refCounts - {a};
    }

    method StopPeerIfNeeded(stop: Option<PeerNo>)
      modifies this`stopped, this`home
      ensures stop.Some? ==> stopped == old(stopped) + [stop.value] && home == old(home) - {stop.value}
      ensures stop.None? ==> stopped == old(stopped) && home == old(home)
    {
      if stop.Some? {
        stopped := stopped + [stop.value];
        home := home - {stop.value};
      }
    }

    method AddPeer(i: Identifier, a: Address) returns (ok: bool)
      requires Valid()
      modifies this`peers, this`addresses, this`refCounts, this`made, this`home
      ensures Valid()
      ensures ok <==> i !in old(addresses)
      ensures addresses == if ok then old(addresses)[i := a] else old(addresses)
      ensures made == old(made) + if ok && Unused(old(addresses), a) then 1 else 0
      ensures forall b :: b in old(peers) ==> b in peers && peers[b] == old(peers)[b]
    {
      if i in addresses { return false; }
      CountedRetain(peers, addresses, refCounts, i, a, made);
      if a !in peers {
        AccountedMade(peers, home, made, stopped, a);
        home := home[made := a];
      }
      addresses := addresses[i := a];
      RetainAddress(a);
      return true;
    }

    /** Leaving an address stops its peer exactly if no other identifier uses it. */
    method RemovePeer(i: Identifier) returns (ok: bool)
      requires Valid()
      modifies this`peers, this`addresses, this`refCounts, this`stopped, this`home
      ensures Valid()
      ensures ok <==> i in old(addresses)
      ensures addresses == old(addresses) - {i}
      ensures stopped == if ok && SoleUser(old(addresses), i)
                         then old(stopped) + [old(peers)[old(addresses)[i]]] else old(stopped)
    {
      if i !in addresses {
        assert addresses - {i} == addresses;
        return false;
      }
      var a := addresses[i];
      CountedRelease(peers, addresses, refCounts, i);
      AccountedStopped(peers, home, made, stopped, a);
      addresses := addresses - {i};
      var stop := ReleaseAddress(a);
      StopPeerIfNeeded(stop);
      return true;
    }

    method UpdatePeer(i: Identifier, a: Address) returns (ok: bool)
      requires Valid()
      modifies this
      ensures Valid()
      ensures ok <==> i in old(addresses)
      ensures addresses == if ok then old(addresses)[i := a] else old(addresses)
      ensures stopped == if ok && old(addresses)[i] != a && SoleUser(old(addresses), i)
                         then old(stopped) + [old(peers)[old(addresses)[i]]] else old(stopped)
      ensures made == old(made) + if ok && Unused(old(addresses), a) then 1 else 0
    {
      if i !in addresses { return false; }
      var was := addresses[i];
      if was == a {
        assert addresses[i := a] == addresses;
        return true;
      }
      LeftAddress(peers, addresses, refCounts, i);
      var stop := ReleaseAddress(was);
      ghost var p, r := peers, refCounts;
      addresses := addresses[i := a];
      RetainAddress(a);
      CountedMoved(old(peers), old(addresses), old(refCounts), i, a, old(made), p, r, peers, refCounts);
      if a !in old(peers) { home := home[old(made) := a]; }
      StopPeerIfNeeded(stop);
      AccountedMoved(old(peers), old(home), old(made), old(stopped), was, stop.Some?, a, p, peers, home, made, stopped);
      return true;
    }

    method RemoveAllPeers()
      requires Valid()
      modifies this
      ensures Valid() && addresses == map[] && made == old(made)
      ensures forall n: nat :: n < made ==> n in stopped
    {
      var left := peers;
      peers, addresses, refCounts := map[], map[], map[];
      while left.Keys != {}
        invariant Accounted(left, home, made, stopped)
        invariant peers == map[] && addresses == map[] && refCounts == map[] && made == old(made)
        decreases left.Keys
      {
        var a :| a in left.Keys;
        AccountedStopped(left, home, made, stopped, a);
        StopPeerIfNeeded(Some(left[a]));
        left := left - {a};
      }
      assert left == map[];
    }
  }

  /** Leaving `was`, which stops its peer or not, and joining `a`, whose peer is made if need be. */
  lemma AccountedMoved(peers: map<Address, PeerNo>, home: map<PeerNo, Address>, made: nat, stopped: seq<PeerNo>,
                       was: Address, stop: bool, a: Address, p: map<Address, PeerNo>,
                       peers': map<Address, PeerNo>, home': map<PeerNo, Address>, made': nat, stopped': seq<PeerNo>)
    requires Accounted(peers, home, made, stopped) && was in peers && was != a
    requires p == if stop then peers - {was} else peers
    requires if a in peers then peers' == p && made' == made else peers' == p[a := made] && made' == made + 1
    requires var h := if a in peers then home else home[made := a];
             if stop then home' == h - {peers[was]} && stopped' == stopped + [peers[was]] else home' == h && stopped' == stopped
    ensures Accounted(peers', home', made', stopped')
  {
    var h := if a in peers then home else home[made := a];
    var q := if a in peers then peers else peers[a := made];
    if a !in peers { AccountedMade(peers, home, made, stopped, a); }
    if stop {
      AccountedStopped(q, h, made', stopped, was);
      assert q - {was} == peers';
    }
  }

  /** After one more user joined an address the counters count the users. */
  lemma CountedRetain(peers: map<Address, PeerNo>, addresses: map<Identifier, Address>, refCounts: map<Address, int>,
                      i: Identifier, a: Address, made: nat)
    requires Counted(peers, addresses, refCounts) && i !in addresses
    ensures a in peers ==> Counted(peers, addresses[i := a], refCounts[a := refCounts[a] + 1])
    ensures a !in peers ==> Counted(peers[a := made], addresses[i := a], refCounts[a := 1])
    ensures Unused(addresses, a) <==> a !in peers
  {
    var r := refCounts[a := if a in refCounts then refCounts[a] + 1 else 1];
    forall b | b in r
      ensures r[b] == |Users(addresses[i := a], b)|
    {
      UsersAdded(addresses, i, a, b);
      assert b != a ==> refCounts[b] == |Users(addresses, b)|;
    }
    assert Unused(addresses, a) ==> Users(addresses, a) == {};
    assert a in refCounts ==> refCounts[a] == |Users(addresses, a)|;
  }

  lemma LeftAddress(peers: map<Address, PeerNo>, addresses: map<Identifier, Address>, refCounts: map<Address, int>, i: Identifier)
    requires Counted(peers, addresses, refCounts) && i in addresses
    ensures refCounts[addresses[i]] == 1 <==> SoleUser(addresses, i)
  {
    CountedRelease(peers, addresses, refCounts, i);
  }

  /** A move from one address to another, through the state `p`, `r` after the first was released. */
  lemma CountedMoved(peers: map<Address, PeerNo>, addresses: map<Identifier, Address>, refCounts: map<Address, int>,
                     i: Identifier, a: Address, made: nat,
                     p: map<Address, PeerNo>, r: map<Address, int>, p': map<Address, PeerNo>, r': map<Address, int>)
    requires Counted(peers, addresses, refCounts) && i in addresses && addresses[i] != a
    requires var was := addresses[i];
             if refCounts[was] == 1 then p == peers - {was} && r == refCounts - {was}
             else p == peers && r == refCounts[was := refCounts[was] - 1]
    requires if a in p then a in r && p' == p && r' == r[a := r[a] + 1] else p' == p[a := made] && r' == r[a := 1]
    ensures Counted(p', addresses[i := a], r')
    ensures Unused(addresses, a) <==> a !in peers
  {
    CountedRelease(peers, addresses, refCounts, i);
    CountedRetain(p, addresses - {i}, r, i, a, made);
    assert (addresses - {i})[i := a] == addresses[i := a];
    assert Unused(addresses, a) <==> Unused(addresses - {i}, a) by {
      assert forall j :: j in addresses && j != i ==> (addresses - {i})[j] == addresses[j];
    }
  }

  lemma LastUser(addresses: map<Identifier, Address>, i: Identifier)
    requires i in addresses
    ensures |Users(addresses, addresses[i])| == 1 <==> SoleUser(addresses, i)
  {
    var u := Users(addresses, addresses[i]);
    assert i in u;
    if |u| == 1 {
      assert |u - {i}| == 0;
      assert forall j :: j in addresses && addresses[j] == addresses[i] ==> j in u;
    }
    if SoleUser(addresses, i) { assert u == {i}; }
  }

  /** After one user left an address the counters count the remaining users. */
  lemma CountedRelease(peers: map<Address, PeerNo>, addresses: map<Identifier, Address>, refCounts: map<Address, int>, i: Identifier)
    requires Counted(peers, addresses, refCounts) && i in addresses
    ensures var a := addresses[i];
            && (refCounts[a] == 1 <==> SoleUser(addresses, i))
            && (refCounts[a] == 1 ==> Counted(peers - {a}, addresses - {i}, refCounts - {a}))
            && (refCounts[a] != 1 ==> Counted(peers, addresses - {i}, refCounts[a := refCounts[a] - 1]))
  {
    var a := addresses[i];
    LastUser(addresses, i);
    forall b
      ensures |Users(addresses - {i}, b)| == |Users(addresses, b)| - if a == b then 1 else 0
    {
      UsersRemoved(addresses, i, b);
    }
    assert forall j :: j in addresses && addresses[j] == a ==> j in Users(addresses, a);
  }
}
