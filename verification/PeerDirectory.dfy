/** The shared peer directory (crates/bridge-discovery/src/peer.rs). Time is a parameter. */
module PeerDirectories {
  import opened Common

  type NodeId = Bytes
  type Address = string

  datatype Peer = Peer(
    nodeId: NodeId, name: string, deviceType: string, addresses: seq<Address>, capabilities: nat, lastSeen: int)

  type Peers = map<NodeId, Peer>

  /** Known addresses first, then the new ones, each once. */
  function MergedAddresses(known: seq<Address>, more: seq<Address>): seq<Address> {
    if more == [] then known
    else
      var merged := MergedAddresses(known, more[..|more| - 1]);
      if more[|more| - 1] in merged then merged else merged + [more[|more| - 1]]
  }

  /** Merging loses no address, invents none, keeps the known ones in place and creates no duplicate. */
  lemma {:induction false} MergedAddressesContents(known: seq<Address>, more: seq<Address>)
    ensures known <= MergedAddresses(known, more)
    ensures forall a :: a in MergedAddresses(known, more) <==> a in known || a in more
    ensures NoDuplicates(known) ==> NoDuplicates(MergedAddresses(known, more))
  {
    if more == [] {
    } else {
      MergedAddressesContents(known, more[..|more| - 1]);
      assert more == more[..|more| - 1] + [more[|more| - 1]];
    }
  }

  /** What `insert_or_update` stores. */
  function Stored(peers: Peers, peer: Peer, now: int): Peer {
    if peer.nodeId in peers
    then peer.(addresses := MergedAddresses(peers[peer.nodeId].addresses, peer.addresses),
               nodeId := peers[peer.nodeId].nodeId, lastSeen := now)
    else peer.(lastSeen := now)
  }

  function Inserted(peers: Peers, peer: Peer, now: int): Peers {
    peers[peer.nodeId := Stored(peers, peer, now)]
  }

  /** A clock that went backwards never expires anything. */
  predicate IsExpired(peer: Peer, maxAge: nat, now: int) {
    now >= peer.lastSeen && now - peer.lastSeen > maxAge
  }

  function Pruned(peers: Peers, maxAge: nat, now: int): Peers {
    map id | id in peers && !IsExpired(peers[id], maxAge, now) :: peers[id]
  }

  /** `order` lists each expired key once, in the arbitrary order of the hash map. */
  ghost predicate ListsExpired(peers: Peers, maxAge: nat, now: int, order: seq<NodeId>) {
    && NoDuplicates(order)
    && forall id :: id in order <==> id in peers && IsExpired(peers[id], maxAge, now)
  }

  class PeerDirectory {
    var peers: Peers

    constructor ()
      ensures peers == map[]
    {
      peers := map[];
    }

    method InsertOrUpdate(peer: Peer, now: int) returns (stored: Peer, isNew: bool)
      modifies this
      ensures peers == Inserted(old(peers), peer, now)
      ensures stored == peers[peer.nodeId]
      ensures isNew <==> peer.nodeId !in old(peers)
    {
      if peer.nodeId in peers {
        var existing := peers[peer.nodeId];
        var addresses := existing.addresses;
        for i := 0 to |peer.addresses|
          invariant addresses == MergedAddresses(existing.addresses, peer.addresses[..i])
        {
          assert peer.addresses[..i + 1][..i] == peer.addresses[..i];
          if peer.addresses[i] !in addresses {
            addresses := addresses + [peer.addresses[i]];
          }
        }
        assert peer.addresses[..|peer.addresses|] == peer.addresses;
        existing := existing.(name := peer.name, deviceType := peer.deviceType, capabilities := peer.capabilities,
                              addresses := addresses, lastSeen := now);
        peers := peers[peer.nodeId := existing];
        return existing, false;
      } else {
        var stamped := peer.(lastSeen := now);
        peers := peers[peer.nodeId := stamped];
        return stamped, true;
      }
    }

    method Remove(id: NodeId) returns (removed: Option<Peer>)
      modifies this
      ensures peers == old(peers) - {id}
      ensures removed == if id in old(peers) then Some(old(peers)[id]) else None
    {
      removed := if id in peers then Some(peers[id]) else None;
      peers := peers - {id};
    }

    method PruneExpired(maxAge: nat, now: int) returns (expired: seq<NodeId>)
      modifies this
      ensures peers == Pruned(old(peers), maxAge, now)
      ensures ListsExpired(old(peers), maxAge, now, expired)
    {
      expired := [];
      ghost var all := peers;
      var todo := peers.Keys;
      while todo != {}
        invariant todo <= all.Keys
        invariant forall id :: id in expired <==> id in all && id !in todo && IsExpired(all[id], maxAge, now)
        invariant NoDuplicates(expired)
        invariant forall id :: id in peers <==> id in all && id !in expired
        invariant forall id :: id in peers ==> peers[id] == all[id]
        decreases todo
      {
        var id :| id in todo;
        if IsExpired(peers[id], maxAge, now) {
          expired := expired + [id];
          peers := peers - {id};
        }
        todo := todo - {id};
      }
    }
  }

  /** A peer announced at `seen` survives pruning at `later` exactly if no more than `maxAge` has passed, and what
      survives is the latest announcement with every address ever announced. */
  lemma SurvivesPruneExactlyWithinAge(peers: Peers, peer: Peer, seen: int, maxAge: nat, later: int)
    ensures var pruned := Pruned(Inserted(peers, peer, seen), maxAge, later);
            && (peer.nodeId in pruned <==> later - seen <= maxAge)
            && (peer.nodeId in pruned ==>
                  var p := pruned[peer.nodeId];
                  && p.name == peer.name && p.deviceType == peer.deviceType && p.capabilities == peer.capabilities
                  && p.lastSeen == seen
                  && (forall a :: a in peer.addresses ==> a in p.addresses)
                  && (peer.nodeId in peers ==> peers[peer.nodeId].addresses <= p.addresses))
  {
    if peer.nodeId in peers {
      MergedAddressesContents(peers[peer.nodeId].addresses, peer.addresses);
    }
  }
}
