/** Duplicate and dismissal tracking for mirrored notifications (crates/bridge-notifications/src/guard.rs). */
module NotificationGuards {
  import opened Common

  type NodeId = Bytes
  type Hash = Digest

  /** Origin and notification id; the origin's hexadecimal form in the source is one-to-one. */
  type Key = (NodeId, string)

  datatype State = Active | Dismissed | Expired

  const RING_CAPACITY: nat := 256

  /** Hash cache, eviction ring and state map. */
  datatype Guard = Guard(seen: map<Key, Hash>, ring: seq<Key>, states: map<Key, State>)

  const EMPTY_GUARD: Guard := Guard(map[], [], map[])

  predicate IsDuplicate(g: Guard, key: Key, hash: Hash) {
    key in g.seen && g.seen[key] == hash
  }

  predicate IsDismissed(g: Guard, key: Key) {
    key in g.states && g.states[key] == Dismissed
  }

  /** The guard without its oldest key, if the ring is full. */
  function Evicted(g: Guard): Guard {
    if |g.ring| >= RING_CAPACITY
    then Guard(g.seen - {g.ring[0]}, g.ring[1..], g.states - {g.ring[0]})
    else g
  }

  function RecordPosted(g: Guard, key: Key, hash: Hash): Guard {
    var g1 := if key in g.seen then g else Evicted(g);
    Guard(g1.seen[key := hash],
          if key in g.seen then g1.ring else g1.ring + [key],
          g1.states[key := Active])
  }

  function RecordDismissed(g: Guard, key: Key): Guard {
    Guard(g.seen - {key}, g.ring, if key in g.states then g.states[key := Dismissed] else g.states)
  }

  function RecordClearAll(g: Guard, origin: NodeId): Guard {
    Guard(map k | k in g.seen && k.0 != origin :: g.seen[k],
          g.ring,
          map k | k in g.states :: if k.0 == origin then Dismissed else g.states[k])
  }

  /** The three structures agree: the ring lists each tracked key once, and the cached hashes are those of
      the active keys. */
  ghost predicate Consistent(g: Guard) {
    && NoDuplicates(g.ring) && |g.ring| <= RING_CAPACITY
    && (forall k :: k in g.ring <==> k in g.states)
    && (forall k :: k in g.states ==> g.states[k] != Expired)
    && (forall k :: k in g.seen <==> k in g.states && g.states[k] == Active)
  }

  lemma EvictKeepsConsistent(g: Guard)
    requires Consistent(g)
    ensures Consistent(Evicted(g)) && |Evicted(g).ring| < RING_CAPACITY
    ensures |g.ring| == RING_CAPACITY ==> g.ring[0] !in Evicted(g).states && g.ring[0] !in Evicted(g).seen
  {
  }

  /** A key that is nowhere goes to the back of a ring with room. */
  lemma TrackKeepsConsistent(g: Guard, key: Key, hash: Hash)
    requires Consistent(g) && |g.ring| < RING_CAPACITY && key !in g.states
    ensures Consistent(Guard(g.seen[key := hash], g.ring + [key], g.states[key := Active]))
  {
  }

  lemma PostKeepsConsistent(g: Guard, key: Key, hash: Hash)
    requires Consistent(g) && !IsDismissed(g, key)
    ensures Consistent(RecordPosted(g, key, hash))
  {
    if key !in g.seen {
      EvictKeepsConsistent(g);
      TrackKeepsConsistent(Evicted(g), key, hash);
    }
  }

  lemma DismissKeepsConsistent(g: Guard, key: Key)
    requires Consistent(g)
    ensures Consistent(RecordDismissed(g, key))
  {
  }

  lemma ClearAllKeepsConsistent(g: Guard, origin: NodeId)
    requires Consistent(g)
    ensures Consistent(RecordClearAll(g, origin))
  {
  }

  /** Alone, the guard does not keep its structures in agreement: a dismissed key posted again enters the
      ring twice. The engine's dismissal check is what rules this out. */
  lemma PostingDismissedDuplicatesRing(key: Key, hash: Hash)
    ensures var g := RecordDismissed(RecordPosted(EMPTY_GUARD, key, hash), key);
            Consistent(g) && RecordPosted(g, key, hash).ring == [key, key] && !Consistent(RecordPosted(g, key, hash))
  {
    var g := RecordDismissed(RecordPosted(EMPTY_GUARD, key, hash), key);
    PostKeepsConsistent(EMPTY_GUARD, key, hash);
    DismissKeepsConsistent(RecordPosted(EMPTY_GUARD, key, hash), key);
    var g' := RecordPosted(g, key, hash);
    assert g'.ring == [key, key];
    assert g'.ring[0] == g'.ring[1];
  }

  lemma PostingOldest(g: Guard, key: Key, hash: Hash)
    requires Consistent(g) && IsDismissed(g, key) && |g.ring| == RING_CAPACITY && g.ring[0] == key
    ensures Consistent(RecordPosted(g, key, hash))
  {
  }

  lemma PostingDismissed(g: Guard, key: Key, hash: Hash)
    requires Consistent(g) && IsDismissed(g, key) && !(|g.ring| == RING_CAPACITY && g.ring[0] == key)
    ensures !NoDuplicates(RecordPosted(g, key, hash).ring)
  {
    var r := RecordPosted(g, key, hash).ring;
    var i :| 0 <= i < |g.ring| && g.ring[i] == key;
    var j := if |g.ring| < RING_CAPACITY then i else i - 1;
    assert r[j] == r[|r| - 1];
  }

  /** Exactly when a post keeps the structures in agreement: when the key is not dismissed, or is itself the
      key that a full ring is about to evict. */
  lemma PostConsistentExactly(g: Guard, key: Key, hash: Hash)
    requires Consistent(g)
    ensures Consistent(RecordPosted(g, key, hash)) <==>
            !IsDismissed(g, key) || (|g.ring| == RING_CAPACITY && g.ring[0] == key)
  {
    if !IsDismissed(g, key) {
      PostKeepsConsistent(g, key, hash);
    } else if |g.ring| == RING_CAPACITY && g.ring[0] == key {
      PostingOldest(g, key, hash);
    } else {
      PostingDismissed(g, key, hash);
    }
  }

  class NotificationGuard {
    var seen: map<Key, Hash>
    var ring: seq<Key>
    var states: map<Key, State>

    ghost function View(): Guard
      reads this
    {
      Guard(seen, ring, states)
    }

    constructor ()
      ensures View() == EMPTY_GUARD
    {
      seen, ring, states := map[], [], map[];
    }

    method Post(key: Key, hash: Hash)
      modifies this
      ensures View() == RecordPosted(old(View()), key, hash)
    {
      if key !in seen {
        if |ring| >= RING_CAPACITY {
          var oldest := ring[0];
          ring := ring[1..];
          seen := seen - {oldest};
          states := states - {oldest};
        }
        ring := ring + [key];
      }
      seen := seen[key := hash];
      states := states[key := Active];
    }

    method Dismiss(key: Key)
      modifies this
      ensures View() == RecordDismissed(old(View()), key)
    {
      if key in states {
        states := states[key := Dismissed];
      }
      seen := seen - {key};
    }

    method ClearAll(origin: NodeId)
      modifies this
      ensures View() == RecordClearAll(old(View()), origin)
    {
      var todo := states.Keys;
      while todo != {}
        invariant todo <= states.Keys && states.Keys == old(states).Keys
        invariant seen == old(seen) && ring == old(ring)
        invariant forall k :: k in states ==>
                    states[k] == if k !in todo && k.0 == origin then Dismissed else old(states)[k]
        decreases todo
      {
        var k :| k in todo;
        if k.0 == origin {
          states := states[k := Dismissed];
        }
        todo := todo - {k};
      }
      seen := map k | k in seen && k.0 != origin :: seen[k];
    }
  }
}
