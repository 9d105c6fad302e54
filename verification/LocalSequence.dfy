/**
 Concurrent calls of `handle_local_change` (crates/bridge-clipboard/src/engine.rs). Each call takes the
 guard's lock twice and the atomic counter once and then broadcasts, and calls may interleave between those points.
 */
module LocalSequence {
  import opened Common
  import opened EchoGuards
  import opened ClipboardEngine

  /** A call passed its check when the clock showed `checked` and the guard's log had `length` entries. It recorded
      its content at `recorded`; its hash then stood at index `place` of the log. */
  datatype Call =
    | Begun(hash: Hash)
    | Passed(hash: Hash, checked: nat, length: nat)
    | Numbered(hash: Hash, checked: nat, length: nat, number: nat)
    | Finished(hash: Hash, checked: nat, length: nat, number: nat, recorded: nat, place: nat, sent: bool)
    | Dropped

  datatype Outgoing = Outgoing(number: nat, hash: Hash)

  /** The shared guard and counter, every call by id, the numbers handed out with the call that got each, the hashes
      that entered the guard and where those applied from peers stand, the broadcasts in order, and the number of
      atomic actions so far. */
  datatype Shared = Shared(
    guard: GuardState, counter: nat, calls: map<nat, Call>, issued: seq<(nat, nat)>,
    log: seq<Hash>, applied: set<nat>, out: seq<Outgoing>, clock: nat)

  /** The steps of a call, and an entry from a peer being recorded under the same lock. */
  datatype Atomic =
    | Begin(id: nat, hash: Hash)
    | Check(id: nat)
    | FetchAdd(id: nat)
    | Record(id: nat)
    | SendOut(id: nat)
    | Apply(hash: Hash)

  /** The call after an atomic action on it; an action that is not its next one changes nothing. */
  function CallAfter(s: Shared, call: Call, a: Atomic): Call {
    match call
    case Begun(hash) =>
      if !a.Check? then call else if hash in s.guard.seen then Dropped else Passed(hash, s.clock, |s.log|)
    case Passed(hash, checked, length) =>
      if a.FetchAdd? then Numbered(hash, checked, length, s.counter) else call
    case Numbered(hash, checked, length, number) =>
      if a.Record?
      then Finished(hash, checked, length, number, s.clock, LastIndex(Logged(s.guard, s.log, hash), hash), false)
      else call
    case Finished(_, _, _, _, _, _, _) => if a.SendOut? then call.(sent := true) else call
    case Dropped => call
  }

  function Act(s: Shared, a: Atomic): Shared {
    if a.Begin? then
      s.(clock := s.clock + 1, calls := if a.id in s.calls then s.calls else s.calls[a.id := Begun(a.hash)])
    else if a.Apply? then
      if a.hash in s.guard.seen then s.(clock := s.clock + 1)
      else s.(clock := s.clock + 1, guard := PushHash(s.guard, a.hash), log := s.log + [a.hash],
              applied := s.applied + {|s.log|})
    else if a.id !in s.calls || CallAfter(s, s.calls[a.id], a) == s.calls[a.id] then s.(clock := s.clock + 1)
    else
      var call := s.calls[a.id];
      var s' := s.(clock := s.clock + 1, calls := s.calls[a.id := CallAfter(s, call, a)]);
      match call
      case Passed(_, _, _) => s'.(counter := (s.counter + 1) % U64_COUNT, issued := s.issued + [(a.id, s.counter)])
      case Numbered(hash, _, _, _) => s'.(guard := PushHash(s.guard, hash), log := Logged(s.guard, s.log, hash))
      case Finished(hash, _, _, number, _, _, _) => s'.(out := s.out + [Outgoing(number, hash)])
      case _ => s'
  }

  const IDLE: Shared := Shared(NewGuard(DEFAULT_CAPACITY), 1, map[], [], [], {}, [], 0)

  function Interleave(actions: seq<Atomic>): Shared {
    if actions == [] then IDLE
    else Act(Interleave(actions[..|actions| - 1]), actions[|actions| - 1])
  }

  // ---------- numbers ----------

  /** The k-th number handed out is 1 + k, modulo 2^64. */
  ghost predicate NumbersOk(s: Shared) {
    && s.counter == (1 + |s.issued|) % U64_COUNT
    && forall k :: 0 <= k < |s.issued| ==> s.issued[k].1 == (1 + k) % U64_COUNT
  }

  predicate HasNumber(call: Call) {
    call.Numbered? || call.Finished?
  }

  /** A call that holds a number was handed it. */
  ghost predicate OwnersOk(s: Shared) {
    forall id :: id in s.calls && HasNumber(s.calls[id]) ==> (id, s.calls[id].number) in s.issued
  }

  lemma ActKeepsNumbers(s: Shared, a: Atomic)
    requires NumbersOk(s) && OwnersOk(s)
    ensures NumbersOk(Act(s, a)) && OwnersOk(Act(s, a))
  {
    var s' := Act(s, a);
    if s'.issued != s.issued {
      assert s'.issued[|s.issued|] == (a.id, s.counter);
    }
    forall id | id in s'.calls && HasNumber(s'.calls[id]) ensures (id, s'.calls[id].number) in s'.issued {
      if id in s.calls && HasNumber(s.calls[id]) {
        assert (id, s.calls[id].number) in s.issued;
      }
    }
  }

  lemma {:induction false} InterleaveKeepsNumbers(actions: seq<Atomic>)
    ensures NumbersOk(Interleave(actions)) && OwnersOk(Interleave(actions))
  {
    if actions == [] {
    } else {
      InterleaveKeepsNumbers(actions[..|actions| - 1]);
      ActKeepsNumbers(Interleave(actions[..|actions| - 1]), actions[|actions| - 1]);
    }
  }

  lemma IndicesOfDistinct(s: Shared, j: nat, k: nat)
    requires NumbersOk(s) && j < k < |s.issued| <= U64_COUNT
    ensures s.issued[j].1 != s.issued[k].1
  {
  }

  /** Under any interleaving, the numbers handed out are pairwise distinct exactly while no more than 2^64
      have been handed out. */
  lemma IssuedNumbersDistinct(actions: seq<Atomic>)
    ensures var s := Interleave(actions);
            (forall j, k :: 0 <= j < k < |s.issued| ==> s.issued[j].1 != s.issued[k].1) <==> |s.issued| <= U64_COUNT
  {
    var s := Interleave(actions);
    InterleaveKeepsNumbers(actions);
    if |s.issued| <= U64_COUNT {
      forall j, k | 0 <= j < k < |s.issued| ensures s.issued[j].1 != s.issued[k].1 {
        IndicesOfDistinct(s, j, k);
      }
    } else {
      assert s.issued[0].1 == s.issued[U64_COUNT].1;
    }
  }

  /** Two different calls that reached the broadcast carry different numbers. */
  lemma CallsNeverShareANumber(actions: seq<Atomic>, id: nat, id': nat)
    requires var s := Interleave(actions);
             && id in s.calls && id' in s.calls && id != id'
             && s.calls[id].Finished? && s.calls[id'].Finished? && |s.issued| <= U64_COUNT
    ensures Interleave(actions).calls[id].number != Interleave(actions).calls[id'].number
  {
    var s := Interleave(actions);
    InterleaveKeepsNumbers(actions);
    assert HasNumber(s.calls[id]) && HasNumber(s.calls[id']);
    var j :| 0 <= j < |s.issued| && s.issued[j] == (id, s.calls[id].number);
    var k :| 0 <= k < |s.issued| && s.issued[k] == (id', s.calls[id'].number);
    if j < k {
      IndicesOfDistinct(s, j, k);
    } else {
      IndicesOfDistinct(s, k, j);
    }
  }

  // ---------- one content, several calls ----------

  predicate HasPassed(call: Call) {
    call.Passed? || call.Numbered? || call.Finished?
  }

  ghost predicate GuardOk(s: Shared) {
    s.guard.capacity == DEFAULT_CAPACITY && Refines(s.guard, s.log)
  }

  /** What calls remember about the clock and the log is so. */
  ghost predicate CallOk(s: Shared, call: Call) {
    && (HasPassed(call) ==> call.checked < s.clock)
    && (call.Finished? ==> call.recorded < s.clock && call.place < |s.log| && s.log[call.place] == call.hash)
  }

  /** The log entry at `q` was made by a call that finished. */
  ghost predicate EntryOf(s: Shared, q: nat, id: nat) {
    q < |s.log| && id in s.calls && s.calls[id].Finished? && s.calls[id].place == q && s.calls[id].hash == s.log[q]
  }

  /** A finished call made the log entry at `q`, or it was applied from a peer. */
  ghost predicate Entered(s: Shared, q: nat) {
    q in s.applied || exists id: nat :: EntryOf(s, q, id)
  }

  /** At least 256 hashes lie between where the content of `f` stood and the check of `g`. */
  predicate Evicted(f: Call, length: nat)
    requires f.Finished?
  {
    length - (f.place + 1) >= DEFAULT_CAPACITY
  }

  /** A check made after another call of the same content had recorded was passed only beyond the window. */
  ghost predicate PairOk(f: Call, g: Call) {
    f.Finished? && HasPassed(g) && f.hash == g.hash && f.recorded < g.checked ==> Evicted(f, g.length)
  }

  ghost predicate CallsOk(s: Shared) {
    forall id :: id in s.calls ==> CallOk(s, s.calls[id])
  }

  ghost predicate LogOk(s: Shared) {
    (forall q: nat :: q < |s.log| ==> Entered(s, q)) && (forall q :: q in s.applied ==> q < |s.log|)
  }

  ghost predicate PairsOk(s: Shared) {
    forall id, id' :: id in s.calls && id' in s.calls ==> PairOk(s.calls[id], s.calls[id'])
  }

  ghost predicate HistoryOk(s: Shared) {
    GuardOk(s) && CallsOk(s) && LogOk(s) && PairsOk(s)
  }

  /** A hash outside the guard's window stands only at positions at least 256 back. */
  lemma UnseenIsEvicted(s: Shared, f: Call)
    requires GuardOk(s) && CallOk(s, f) && f.Finished? && f.hash !in s.guard.seen
    ensures Evicted(f, |s.log|)
  {
    if !Evicted(f, |s.log|) {
      InWindowIsSeen(s.guard, s.log, f.place);
    }
  }

  lemma CheckKeepsHistory(s: Shared, id: nat)
    requires HistoryOk(s) && id in s.calls && s.calls[id].Begun?
    ensures HistoryOk(Act(s, Check(id)))
  {
    var s' := Act(s, Check(id));
    forall q: nat | q < |s'.log| ensures Entered(s', q) {
      assert Entered(s, q);
      if q !in s.applied {
        var x: nat :| EntryOf(s, q, x);
        assert EntryOf(s', q, x);
      }
    }
    forall x, y | x in s'.calls && y in s'.calls ensures PairOk(s'.calls[x], s'.calls[y]) {
      assert CallOk(s, s.calls[x]) && PairOk(s.calls[x], s.calls[y]);
      if y == id && x != id && s.calls[x].Finished? && s'.calls[id].Passed? && s.calls[x].hash == s'.calls[id].hash {
        UnseenIsEvicted(s, s.calls[x]);
      }
    }
  }

  lemma RecordedPlace(s: Shared, hash: Hash)
    requires GuardOk(s)
    ensures var log := Logged(s.guard, s.log, hash);
            && GuardOk(s.(guard := PushHash(s.guard, hash), log := log))
            && LastIndex(log, hash) < |log| && log[LastIndex(log, hash)] == hash
            && (log != s.log ==> log == s.log + [hash] && LastIndex(log, hash) == |s.log|)
  {
    var log := Logged(s.guard, s.log, hash);
    PushRefines(s.guard, s.log, hash);
    assert hash in s.guard.seen ==> hash in s.guard.history;
    LastIndexFinds(log, hash);
  }

  lemma RecordKeepsCalls(s: Shared, id: nat)
    requires GuardOk(s) && CallsOk(s) && id in s.calls && s.calls[id].Numbered?
    ensures GuardOk(Act(s, Record(id))) && CallsOk(Act(s, Record(id)))
  {
    var s' := Act(s, Record(id));
    RecordedPlace(s, s.calls[id].hash);
    forall x | x in s'.calls ensures CallOk(s', s'.calls[x]) {
      assert CallOk(s, s.calls[x]);
    }
  }

  lemma RecordKeepsLog(s: Shared, id: nat)
    requires GuardOk(s) && LogOk(s) && id in s.calls && s.calls[id].Numbered?
    ensures LogOk(Act(s, Record(id)))
  {
    var s' := Act(s, Record(id));
    RecordedPlace(s, s.calls[id].hash);
    forall q: nat | q < |s'.log| ensures Entered(s', q) {
      if q < |s.log| {
        assert Entered(s, q);
        if q !in s.applied {
          var x: nat :| EntryOf(s, q, x);
          assert EntryOf(s', q, x);
        }
      } else {
        assert EntryOf(s', q, id);
      }
    }
  }

  lemma RecordKeepsPairs(s: Shared, id: nat)
    requires CallsOk(s) && PairsOk(s) && id in s.calls && s.calls[id].Numbered?
    ensures PairsOk(Act(s, Record(id)))
  {
    var s' := Act(s, Record(id));
    forall x, y | x in s'.calls && y in s'.calls ensures PairOk(s'.calls[x], s'.calls[y]) {
      assert CallOk(s, s.calls[x]) && CallOk(s, s.calls[y]) && PairOk(s.calls[x], s.calls[y]);
    }
  }

  lemma RecordKeepsHistory(s: Shared, id: nat)
    requires HistoryOk(s) && id in s.calls && s.calls[id].Numbered?
    ensures HistoryOk(Act(s, Record(id)))
  {
    RecordKeepsCalls(s, id);
    RecordKeepsLog(s, id);
    RecordKeepsPairs(s, id);
  }

  /** Calls that differ at most in their number and in having been sent. */
  predicate SameHistory(call: Call, call': Call) {
    || call' == call
    || (call.Passed? && call'.Numbered?
        && (call.hash, call.checked, call.length) == (call'.hash, call'.checked, call'.length))
    || (call.Finished? && call'.Finished? && call' == call.(sent := call'.sent))
  }

  lemma OthersKeepHistory(s: Shared, s': Shared)
    requires HistoryOk(s) && s'.guard == s.guard && s'.log == s.log && s'.applied == s.applied
    requires s'.clock == s.clock + 1
    requires forall id :: id in s.calls ==> id in s'.calls && SameHistory(s.calls[id], s'.calls[id])
    requires forall id :: id in s'.calls && id !in s.calls ==> s'.calls[id].Begun?
    ensures HistoryOk(s')
  {
    forall q: nat | q < |s'.log| ensures Entered(s', q) {
      assert Entered(s, q);
      if q !in s.applied {
        var x: nat :| EntryOf(s, q, x);
        assert SameHistory(s.calls[x], s'.calls[x]);
        assert EntryOf(s', q, x);
      }
    }
    forall id | id in s'.calls ensures CallOk(s', s'.calls[id]) {
      assert id in s.calls ==> CallOk(s, s.calls[id]) && SameHistory(s.calls[id], s'.calls[id]);
    }
    forall x, y | x in s'.calls && y in s'.calls ensures PairOk(s'.calls[x], s'.calls[y]) {
      if x in s.calls && y in s.calls {
        assert PairOk(s.calls[x], s.calls[y]) && SameHistory(s.calls[x], s'.calls[x]) &&
            SameHistory(s.calls[y], s'.calls[y]);
      }
    }
  }

  lemma ApplyKeepsHistory(s: Shared, hash: Hash)
    requires HistoryOk(s) && hash !in s.guard.seen
    ensures HistoryOk(Act(s, Apply(hash)))
  {
    var s' := Act(s, Apply(hash));
    PushRefines(s.guard, s.log, hash);
    forall q: nat | q < |s'.log| ensures Entered(s', q) {
      assert q < |s.log| ==> Entered(s, q);
      if q < |s.log| && q !in s.applied {
        var x: nat :| EntryOf(s, q, x);
        assert EntryOf(s', q, x);
      }
    }
    forall id | id in s'.calls ensures CallOk(s', s'.calls[id]) {
      assert CallOk(s, s.calls[id]);
    }
  }

  lemma ActKeepsHistory(s: Shared, a: Atomic)
    requires HistoryOk(s)
    ensures HistoryOk(Act(s, a))
  {
    if a.Check? && a.id in s.calls && s.calls[a.id].Begun? {
      CheckKeepsHistory(s, a.id);
    } else if a.Record? && a.id in s.calls && s.calls[a.id].Numbered? {
      RecordKeepsHistory(s, a.id);
    } else if a.Apply? && a.hash !in s.guard.seen {
      ApplyKeepsHistory(s, a.hash);
    } else {
      OthersKeepHistory(s, Act(s, a));
    }
  }

  /** Along every interleaving the guard shows the last 256 hashes that entered it, every one of them entered by
      a finished call or applied from a peer, and every call remembers the log truly. */
  lemma {:induction false} InterleaveKeepsHistory(actions: seq<Atomic>)
    ensures HistoryOk(Interleave(actions))
  {
    if actions == [] {
    } else {
      InterleaveKeepsHistory(actions[..|actions| - 1]);
      ActKeepsHistory(Interleave(actions[..|actions| - 1]), actions[|actions| - 1]);
    }
  }

  /** Under any interleaving, an entry from a peer enters the log, marked as applied, exactly if its hash is not among
      the last 256. */
  lemma AppliedExactlyIfNew(actions: seq<Atomic>, hash: Hash)
    ensures var s := Interleave(actions); var s' := Act(s, Apply(hash));
            && s'.calls == s.calls && s'.counter == s.counter && s'.out == s.out
            && if hash in Window(s.log, 256) then s'.log == s.log && s'.applied == s.applied
               else s'.log == s.log + [hash] && s'.applied == s.applied + {|s.log|}
  {
    InterleaveKeepsHistory(actions);
  }

  /** Under any interleaving, a call passes its check if and only if at least 256 hashes have entered since the place
      of every call of the same content that has recorded, and since every time that content was applied from a peer. */
  lemma CheckPassesExactlyBeyondWindow(actions: seq<Atomic>, id: nat)
    requires var s := Interleave(actions); id in s.calls && s.calls[id].Begun?
    ensures var s := Interleave(actions); var hash := s.calls[id].hash;
            Act(s, Check(id)).calls[id].Passed? <==>
              && (forall f :: f in s.calls && s.calls[f].Finished? && s.calls[f].hash == hash ==>
                    Evicted(s.calls[f], |s.log|))
              && (forall q: nat :: q in s.applied && q < |s.log| && s.log[q] == hash ==>
                    |s.log| - (q + 1) >= DEFAULT_CAPACITY)
    ensures var call := Act(Interleave(actions), Check(id)).calls[id]; call.Passed? || call == Dropped
  {
    var s := Interleave(actions);
    var hash := s.calls[id].hash;
    InterleaveKeepsHistory(actions);
    if hash in s.guard.seen {
      assert hash in s.guard.history;
      var k :| 0 <= k < |s.guard.history| && s.guard.history[k] == hash;
      var q := |s.log| - |s.guard.history| + k;
      assert s.log[q] == hash && Entered(s, q);
      if q !in s.applied {
        var f: nat :| EntryOf(s, q, f);
        assert !Evicted(s.calls[f], |s.log|);
      }
    } else {
      forall f | f in s.calls && s.calls[f].Finished? && s.calls[f].hash == hash ensures Evicted(s.calls[f], |s.log|) {
        assert CallOk(s, s.calls[f]);
        UnseenIsEvicted(s, s.calls[f]);
      }
      forall q: nat | q in s.applied && q < |s.log| && s.log[q] == hash
        ensures |s.log| - (q + 1) >= DEFAULT_CAPACITY
      {
        if |s.log| - (q + 1) < DEFAULT_CAPACITY {
          InWindowIsSeen(s.guard, s.log, q);
        }
      }
    }
  }

  /** No two calls record at the same time. */
  ghost predicate RecordTimesDiffer(s: Shared) {
    forall x, y :: x in s.calls && y in s.calls && x != y && s.calls[x].Finished? && s.calls[y].Finished? ==>
      s.calls[x].recorded != s.calls[y].recorded
  }

  lemma ActKeepsTimes(s: Shared, a: Atomic)
    requires HistoryOk(s) && RecordTimesDiffer(s)
    ensures RecordTimesDiffer(Act(s, a))
  {
    forall x | x in s.calls ensures s.calls[x].Finished? ==> s.calls[x].recorded < s.clock {
      assert CallOk(s, s.calls[x]);
    }
  }

  lemma {:induction false} InterleaveKeepsTimes(actions: seq<Atomic>)
    ensures RecordTimesDiffer(Interleave(actions))
  {
    if actions == [] {
    } else {
      InterleaveKeepsTimes(actions[..|actions| - 1]);
      InterleaveKeepsHistory(actions[..|actions| - 1]);
      ActKeepsTimes(Interleave(actions[..|actions| - 1]), actions[|actions| - 1]);
    }
  }

  /** In every run, one content is sent by two calls only if the later one made its check before the earlier one
      had recorded, or at least 256 other hashes had entered in between. */
  lemma SentTwiceOnlyIfOverlappingOrEvicted(actions: seq<Atomic>, id: nat, id': nat)
    requires var s := Interleave(actions);
             && id in s.calls && id' in s.calls && id != id' && s.calls[id].Finished? && s.calls[id'].Finished?
             && s.calls[id].hash == s.calls[id'].hash
    ensures var s := Interleave(actions);
            var (first, second) := if s.calls[id].recorded < s.calls[id'].recorded
                                   then (s.calls[id], s.calls[id']) else (s.calls[id'], s.calls[id]);
            first.recorded < second.recorded && (second.checked <= first.recorded || Evicted(first, second.length))
  {
    var s := Interleave(actions);
    InterleaveKeepsHistory(actions);
    InterleaveKeepsTimes(actions);
    assert PairOk(s.calls[id], s.calls[id']) && PairOk(s.calls[id'], s.calls[id]);
  }

  lemma Extended(actions: seq<Atomic>, a: Atomic) returns (all: seq<Atomic>)
    ensures Interleave(all) == Act(Interleave(actions), a)
  {
    all := actions + [a];
  }

  /** Two calls that have both passed their checks. */
  lemma TwoCallsPassed(hash: Hash, hash': Hash) returns (actions: seq<Atomic>)
    ensures var s := Interleave(actions);
            && s.calls.Keys == {0, 1} && s.counter == 1 && s.out == []
            && s.calls[0].Passed? && s.calls[0].hash == hash && s.calls[1].Passed? && s.calls[1].hash == hash'
  {
    actions := Extended([], Begin(0, hash));
    actions := Extended(actions, Begin(1, hash'));
    var s := Interleave(actions);
    assert s.calls == map[0 := Begun(hash), 1 := Begun(hash')] && s.guard.seen == {} && s.counter == 1 && s.out == [];
    actions := Extended(actions, Check(0));
    actions := Extended(actions, Check(1));
  }

  predicate IsReady(call: Call, hash: Hash, number: nat) {
    call.Finished? && call.hash == hash && call.number == number && !call.sent
  }

  /** Two calls, numbered in order and both recorded, with neither broadcast yet. */
  lemma TwoCallsRecorded(hash: Hash, hash': Hash) returns (actions: seq<Atomic>)
    ensures var s := Interleave(actions);
            && s.calls.Keys == {0, 1} && s.out == []
            && IsReady(s.calls[0], hash, 1) && IsReady(s.calls[1], hash', 2)
  {
    actions := TwoCallsPassed(hash, hash');
    actions := Extended(actions, FetchAdd(0));
    actions := Extended(actions, FetchAdd(1));
    actions := Extended(actions, Record(0));
    actions := Extended(actions, Record(1));
  }

  /** Two copies of one content that check before either has recorded are both sent. */
  lemma SameContentMaySendTwice(hash: Hash) returns (actions: seq<Atomic>)
    ensures Interleave(actions).out == [Outgoing(1, hash), Outgoing(2, hash)]
  {
    actions := TwoCallsRecorded(hash, hash);
    actions := Extended(actions, SendOut(0));
    actions := Extended(actions, SendOut(1));
  }

  // ---------- the order of broadcasts ----------

  /** Nothing is locked while broadcasting, so a later number may go out first. */
  lemma LaterNumberMayGoFirst(hash: Hash, hash': Hash) returns (actions: seq<Atomic>)
    ensures Interleave(actions).out == [Outgoing(2, hash'), Outgoing(1, hash)]
  {
    actions := TwoCallsRecorded(hash, hash');
    actions := Extended(actions, SendOut(1));
    actions := Extended(actions, SendOut(0));
  }

  predicate Rising(out: seq<Outgoing>) {
    forall i, j :: 0 <= i < j < |out| ==> out[i].number < out[j].number
  }

  /** A peer applies every one of the broadcasts, taken in this order. */
  predicate AllApplied(g: GuardState, origin: NodeId, out: seq<Outgoing>)
    decreases |out|
  {
    out == [] ||
    (Fresh(g, origin, out[0].number, out[0].hash) &&
     AllApplied(RecordReceived(g, origin, out[0].number, out[0].hash), origin, out[1..]))
  }

  ghost predicate NewTo(g: GuardState, out: seq<Outgoing>) {
    && (forall i :: 0 <= i < |out| ==> out[i].hash !in g.seen)
    && (forall i, j :: 0 <= i < j < |out| ==> out[i].hash != out[j].hash)
  }

  /** Of broadcasts with contents it does not know, a peer applies every one if and only if their numbers rise in the
      order of arrival, from above the last one it has applied. Any other is refused as stale, and lost. */
  lemma {:induction false} NothingLostExactlyIfSentInOrder(g: GuardState, origin: NodeId, out: seq<Outgoing>)
    requires NewTo(g, out)
    ensures AllApplied(g, origin, out) <==>
            Rising(out) && (out != [] && origin in g.sequences ==> out[0].number > g.sequences[origin])
    decreases |out|
  {
    if out == [] {
    } else {
      var rest, g' := out[1..], RecordReceived(g, origin, out[0].number, out[0].hash);
      if Fresh(g, origin, out[0].number, out[0].hash) {
        assert forall i :: 0 <= i < |rest| ==> rest[i] == out[i + 1];
        NothingLostExactlyIfSentInOrder(g', origin, rest);
        if Rising(rest) && (rest != [] ==> rest[0].number > out[0].number) {
          forall i, j | 0 <= i < j < |out| ensures out[i].number < out[j].number {
            assert j > 1 ==> rest[0].number <= rest[j - 1].number;
            assert i > 0 ==> rest[i - 1].number < rest[j - 1].number;
          }
        }
      }
    }
  }

  /** A call that has a number and has not broadcast yet. */
  predicate InFlight(call: Call) {
    call.Numbered? || (call.Finished? && !call.sent)
  }

  predicate AtMostNumber(out: seq<Outgoing>, n: int) {
    forall i :: 0 <= i < |out| ==> out[i].number <= n
  }

  /** Broadcasts rise so far, and every call in flight holds a number above all of them. */
  ghost predicate InOrder(s: Shared) {
    && Rising(s.out)
    && forall id :: id in s.calls && InFlight(s.calls[id]) ==> AtMostNumber(s.out, s.calls[id].number - 1)
  }

  /** The call is about to broadcast. */
  predicate Sends(s: Shared, a: Atomic) {
    a.SendOut? && a.id in s.calls && s.calls[a.id].Finished? && !s.calls[a.id].sent
  }

  /** A call that broadcasts holds the smallest number in flight. */
  ghost predicate InTurn(s: Shared, a: Atomic) {
    Sends(s, a) ==>
      forall id :: id in s.calls && InFlight(s.calls[id]) ==> s.calls[a.id].number <= s.calls[id].number
  }

  ghost predicate AlwaysInTurn(actions: seq<Atomic>) {
    actions == [] ||
    (AlwaysInTurn(actions[..|actions| - 1]) && InTurn(Interleave(actions[..|actions| - 1]), actions[|actions| - 1]))
  }

  /** Numbers below the wraparound: every one held or sent was handed out, and no two calls hold the same. */
  ghost predicate NumbersBelow(s: Shared) {
    && NumbersOk(s) && OwnersOk(s) && AtMostNumber(s.out, |s.issued|)
  }

  lemma HeldNumber(s: Shared, id: nat)
    requires NumbersBelow(s) && |s.issued| < U64_COUNT && id in s.calls && HasNumber(s.calls[id])
    ensures 1 <= s.calls[id].number <= |s.issued| && s.issued[s.calls[id].number - 1].0 == id
  {
    var k :| 0 <= k < |s.issued| && s.issued[k] == (id, s.calls[id].number);
  }

  lemma HeldNumbersDiffer(s: Shared, x: nat, y: nat)
    requires NumbersBelow(s) && |s.issued| < U64_COUNT && x in s.calls && y in s.calls && x != y
    requires HasNumber(s.calls[x]) && HasNumber(s.calls[y])
    ensures s.calls[x].number != s.calls[y].number
  {
    HeldNumber(s, x);
    HeldNumber(s, y);
  }

  lemma ActKeepsNumbersBelow(s: Shared, a: Atomic)
    requires NumbersBelow(s) && |s.issued| < U64_COUNT
    ensures NumbersBelow(Act(s, a))
  {
    ActKeepsNumbers(s, a);
    if Sends(s, a) {
      HeldNumber(s, a.id);
    }
  }

  lemma {:induction false} InterleaveKeepsNumbersBelow(actions: seq<Atomic>)
    requires |Interleave(actions).issued| < U64_COUNT
    ensures NumbersBelow(Interleave(actions))
  {
    if actions == [] {
    } else {
      InterleaveKeepsNumbersBelow(actions[..|actions| - 1]);
      ActKeepsNumbersBelow(Interleave(actions[..|actions| - 1]), actions[|actions| - 1]);
    }
  }

  /** A broadcast keeps the order exactly if it is in turn. */
  lemma SendOrder(s: Shared, a: Atomic)
    requires NumbersBelow(s) && |s.issued| < U64_COUNT && Sends(s, a)
    ensures InOrder(Act(s, a)) <==> InOrder(s) && InTurn(s, a)
  {
    var s', mine := Act(s, a), s.calls[a.id].number;
    assert s'.out == s.out + [Outgoing(mine, s.calls[a.id].hash)] && s'.out[|s.out|].number == mine;
    forall id | id in s.calls && id != a.id && InFlight(s.calls[id]) ensures s.calls[id].number != mine {
      HeldNumbersDiffer(s, id, a.id);
    }
    assert forall id :: id != a.id && id in s.calls ==> s'.calls[id] == s.calls[id];
    if InOrder(s') {
      assert forall i :: 0 <= i < |s.out| ==> s'.out[i] == s.out[i];
      assert AtMostNumber(s.out, mine - 1);
    }
  }

  /** A new number is above everything sent. */
  lemma NumberOrder(s: Shared, id: nat)
    requires NumbersBelow(s) && |s.issued| + 1 < U64_COUNT && id in s.calls && s.calls[id].Passed?
    ensures InOrder(Act(s, FetchAdd(id))) <==> InOrder(s)
  {
    var s' := Act(s, FetchAdd(id));
    assert s'.calls[id].number == |s.issued| + 1;
    assert forall x :: x != id && x in s.calls ==> s'.calls[x] == s.calls[x];
  }

  lemma ActOrder(s: Shared, a: Atomic)
    requires NumbersBelow(s) && |Act(s, a).issued| < U64_COUNT
    ensures InOrder(Act(s, a)) <==> InOrder(s) && InTurn(s, a)
  {
    if Sends(s, a) {
      SendOrder(s, a);
    } else if a.FetchAdd? && a.id in s.calls && s.calls[a.id].Passed? {
      NumberOrder(s, a.id);
    } else {
      var s' := Act(s, a);
      assert s'.out == s.out;
      assert forall id :: id in s'.calls && InFlight(s'.calls[id]) <==> id in s.calls && InFlight(s.calls[id]);
      assert forall id :: id in s.calls && InFlight(s.calls[id]) ==> s'.calls[id].number == s.calls[id].number;
    }
  }

  /** In every run with fewer than 2^64 numbers, each broadcast is made by the call with the smallest number in flight
      if and only if the numbers have gone out in rising order and those still in flight can follow. */
  lemma {:induction false} InOrderExactlyIfInTurn(actions: seq<Atomic>)
    requires |Interleave(actions).issued| < U64_COUNT
    ensures AlwaysInTurn(actions) <==> InOrder(Interleave(actions))
  {
    if actions == [] {
    } else {
      var init := actions[..|actions| - 1];
      InterleaveKeepsNumbersBelow(init);
      InOrderExactlyIfInTurn(init);
      ActOrder(Interleave(init), actions[|actions| - 1]);
    }
  }

  ghost predicate AtMostOneInFlight(s: Shared) {
    forall x, y :: x in s.calls && y in s.calls && InFlight(s.calls[x]) && InFlight(s.calls[y]) ==> x == y
  }

  /** At no point were two calls between their number and their broadcast. */
  ghost predicate NeverOverlapped(actions: seq<Atomic>) {
    (actions == [] || NeverOverlapped(actions[..|actions| - 1])) && AtMostOneInFlight(Interleave(actions))
  }

  lemma {:induction false} SerialIsInTurn(actions: seq<Atomic>)
    requires NeverOverlapped(actions)
    ensures AlwaysInTurn(actions)
  {
    if actions == [] {
    } else {
      SerialIsInTurn(actions[..|actions| - 1]);
    }
  }

  /** So if no two calls are ever between their number and their broadcast at once, numbers go out in rising order. */
  lemma SerialCallsGoOutInOrder(actions: seq<Atomic>)
    requires NeverOverlapped(actions) && |Interleave(actions).issued| < U64_COUNT
    ensures Rising(Interleave(actions).out)
  {
    SerialIsInTurn(actions);
    InOrderExactlyIfInTurn(actions);
  }
}
