/** Echo suppression and sequence tracking (crates/bridge-clipboard/src/guard.rs). */
module EchoGuards {
  import opened Common

  type Hash = Digest
  type NodeId = Bytes

  const DEFAULT_CAPACITY: nat := 256

  /** The guard as a value: a bounded FIFO, the set that mirrors it, and the last sequence per origin. */
  datatype GuardState = GuardState(capacity: nat, history: seq<Hash>, seen: set<Hash>, sequences: map<NodeId, nat>)

  function NewGuard(capacity: nat): GuardState {
    GuardState(if capacity == 0 then DEFAULT_CAPACITY else capacity, [], {}, map[])
  }

  function PushHash(g: GuardState, hash: Hash): GuardState {
    if hash in g.seen then g
    else if |g.history| >= g.capacity && g.history != []
    then g.(history := g.history[1..] + [hash], seen := (g.seen - {g.history[0]}) + {hash})
    else g.(history := g.history + [hash], seen := g.seen + {hash})
  }

  /** Fresh means: not in the window, and newer than anything applied from that origin. */
  predicate Fresh(g: GuardState, origin: NodeId, sequence: nat, hash: Hash) {
    hash !in g.seen && (origin in g.sequences ==> sequence > g.sequences[origin])
  }

  function RecordReceived(g: GuardState, origin: NodeId, sequence: nat, hash: Hash): GuardState {
    if Fresh(g, origin, sequence, hash)
    then PushHash(g.(sequences := g.sequences[origin := sequence]), hash)
    else g
  }

  // ---------- the simple form: a log and its last entries ----------

  /** The last `capacity` entries of `log`. */
  function Window(log: seq<Hash>, capacity: nat): seq<Hash> {
    if |log| <= capacity then log else log[|log| - capacity..]
  }

  /** The guard shows exactly the last `capacity` entries of the log of hashes that entered it. */
  ghost predicate Refines(g: GuardState, log: seq<Hash>) {
    && g.capacity > 0
    && g.history == Window(log, g.capacity)
    && NoDuplicates(g.history)
    && g.seen == set h | h in g.history
  }

  function Logged(g: GuardState, log: seq<Hash>, hash: Hash): seq<Hash> {
    if hash in g.seen then log else log + [hash]
  }

  lemma PushWithRoom(g: GuardState, log: seq<Hash>, hash: Hash)
    requires Refines(g, log) && hash !in g.seen && |g.history| < g.capacity
    ensures Refines(PushHash(g, hash), log + [hash])
  {
    var g' := PushHash(g, hash);
    assert log == g.history && hash !in g.history;
    assert g'.history == Window(log + [hash], g.capacity);
  }

  /** Dropping the front of a duplicate-free history and adding a new hash at the back. */
  lemma Slide(history: seq<Hash>, hash: Hash)
    requires NoDuplicates(history) && history != [] && hash !in history
    ensures NoDuplicates(history[1..] + [hash])
    ensures forall h :: h in history[1..] + [hash] <==> (h in history && h != history[0]) || h == hash
  {
    assert history == [history[0]] + history[1..];
  }

  lemma PushWhenFull(g: GuardState, log: seq<Hash>, hash: Hash)
    requires Refines(g, log) && hash !in g.seen && |g.history| == g.capacity
    ensures Refines(PushHash(g, hash), log + [hash])
  {
    Slide(g.history, hash);
    assert PushHash(g, hash).history == Window(log + [hash], g.capacity);
  }

  lemma PushRefines(g: GuardState, log: seq<Hash>, hash: Hash)
    requires Refines(g, log)
    ensures Refines(PushHash(g, hash), Logged(g, log, hash))
    ensures hash in PushHash(g, hash).seen
  {
    if hash !in g.seen {
      if |g.history| < g.capacity {
        PushWithRoom(g, log, hash);
      } else {
        PushWhenFull(g, log, hash);
      }
    }
  }

  /** The last index at which `hash` stands in the log. */
  function LastIndex(log: seq<Hash>, hash: Hash): nat {
    if log == [] then 0
    else if log[|log| - 1] == hash then |log| - 1
    else LastIndex(log[..|log| - 1], hash)
  }

  lemma {:induction false} LastIndexFinds(log: seq<Hash>, hash: Hash)
    requires hash in log
    ensures LastIndex(log, hash) < |log| && log[LastIndex(log, hash)] == hash
    ensures forall q :: LastIndex(log, hash) < q < |log| ==> log[q] != hash
  {
    if log[|log| - 1] == hash {
    } else {
      assert log == log[..|log| - 1] + [log[|log| - 1]];
      LastIndexFinds(log[..|log| - 1], hash);
    }
  }

  lemma InWindowIsSeen(g: GuardState, log: seq<Hash>, p: nat)
    requires Refines(g, log) && p < |log| && |log| - (p + 1) < g.capacity
    ensures log[p] in g.seen
  {
    assert g.history[p - (|log| - |g.history|)] == log[p];
  }

  /** A hash that has entered is still suppressed exactly while fewer than `capacity` hashes have entered since it did
      last. */
  lemma SuppressedExactlyWithinWindow(g: GuardState, log: seq<Hash>, hash: Hash)
    requires Refines(g, log) && hash in log
    ensures hash in g.seen <==> |log| - (LastIndex(log, hash) + 1) < g.capacity
  {
    LastIndexFinds(log, hash);
    if |log| - (LastIndex(log, hash) + 1) < g.capacity {
      InWindowIsSeen(g, log, LastIndex(log, hash));
    } else {
      assert hash !in g.history;
    }
  }

  /** A new guard shows an empty log, through a window of the given capacity or, for zero, of 256. */
  lemma NewGuardIsEmpty(capacity: nat)
    ensures Refines(NewGuard(capacity), []) && NewGuard(capacity).sequences == map[]
    ensures NewGuard(0).capacity == 256 && (capacity > 0 ==> NewGuard(capacity).capacity == capacity)
  {
  }

  /** A receipt enters the log and moves its origin's number exactly if its hash is outside the window and its number
      is newer; otherwise the guard stays as it was. */
  lemma RecordedExactlyIfNew(g: GuardState, log: seq<Hash>, origin: NodeId, sequence: nat, hash: Hash)
    requires Refines(g, log)
    ensures var g' := RecordReceived(g, origin, sequence, hash);
            if hash in Window(log, g.capacity) || (origin in g.sequences && sequence <= g.sequences[origin])
            then g' == g
            else Refines(g', log + [hash]) && g'.sequences == g.sequences[origin := sequence]
  {
    PushRefines(g.(sequences := g.sequences[origin := sequence]), log, hash);
  }

  // ---------- the object ----------

  class EchoGuard {
    const capacity: nat
    var history: seq<Hash>
    var seen: set<Hash>
    var sequences: map<NodeId, nat>
    /** Every hash that has entered since the guard was last empty. */
    ghost var log: seq<Hash>

    ghost function State(): GuardState
      reads this
    {
      GuardState(capacity, history, seen, sequences)
    }

    ghost predicate Valid()
      reads this
    {
      Refines(State(), log)
    }

    constructor (capacity: nat)
      ensures Valid() && log == [] && State() == NewGuard(capacity)
    {
      this.capacity := if capacity == 0 then DEFAULT_CAPACITY else capacity;
      this.history := [];
      this.seen := {};
      this.sequences := map[];
      this.log := [];
    }

    method ShouldSuppress(hash: Hash) returns (r: bool)
      requires Valid()
      ensures r <==> hash in Window(log, capacity)
      ensures r <==> hash in State().seen
    {
      r := hash in seen;
    }

    method Push(hash: Hash)
      requires Valid()
      modifies this
      ensures Valid()
      ensures State() == PushHash(old(State()), hash)
      ensures log == Logged(old(State()), old(log), hash)
    {
      PushRefines(State(), log, hash);
      if hash in seen {
        return;
      }
      if |history| >= capacity {
        if |history| > 0 {
          var oldest := history[0];
          history := history[1..];
          seen := seen - {oldest};
        }
      }
      history := history + [hash];
      seen := seen + {hash};
      log := log + [hash];
    }

    method RecordSent(hash: Hash)
      requires Valid()
      modifies this
      ensures Valid()
      ensures State() == PushHash(old(State()), hash)
      ensures log == Logged(old(State()), old(log), hash)
    {
      Push(hash);
    }

    method Record(origin: NodeId, sequence: nat, hash: Hash) returns (isNew: bool)
      requires Valid()
      modifies this
      ensures Valid()
      ensures isNew <==> Fresh(old(State()), origin, sequence, hash)
      ensures State() == RecordReceived(old(State()), origin, sequence, hash)
      ensures !isNew ==> State() == old(State())
      ensures log == if isNew then old(log) + [hash] else old(log)
    {
      var known := ShouldSuppress(hash);
      if known {
        return false;
      }
      if origin in sequences {
        if sequence <= sequences[origin] {
          return false;
        }
      }
      sequences := sequences[origin := sequence];
      Push(hash);
      return true;
    }

    method Clear()
      requires Valid()
      modifies this
      ensures Valid() && log == []
      ensures State() == NewGuard(capacity)
    {
      history := [];
      seen := {};
      sequences := map[];
      log := [];
    }
  }
}
