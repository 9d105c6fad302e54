/** What every run of the notification engine keeps: over all sequences of messages, from all origins. */
module NotificationRuns {
  import opened Common
  import opened NotificationGuards
  import opened NotificationEngine

  function Run(env: Env, msgs: seq<Message>): Engine {
    RunFrom(env, EMPTY_ENGINE, msgs)
  }

  function RunFrom(env: Env, s: Engine, msgs: seq<Message>): Engine {
    if msgs == [] then s
    else NextState(env, RunFrom(env, s, msgs[..|msgs| - 1]), msgs[|msgs| - 1])
  }

  // ---------- buckets ----------

  ghost predicate UniqueIds(bucket: seq<Entry>) {
    forall i, j :: 0 <= i < j < |bucket| ==> bucket[i].notificationId != bucket[j].notificationId
  }

  ghost predicate BucketOk(origin: NodeId, bucket: seq<Entry>) {
    && |bucket| <= BUCKET_CAPACITY && UniqueIds(bucket)
    && forall e :: e in bucket ==> e.origin == origin
  }

  lemma {:induction false} WithoutIdContents(bucket: seq<Entry>, id: string)
    ensures forall e :: e in WithoutId(bucket, id) <==> e in bucket && e.notificationId != id
    ensures |WithoutId(bucket, id)| <= |bucket|
  {
    if bucket == [] {
    } else {
      var init, last := bucket[..|bucket| - 1], bucket[|bucket| - 1];
      WithoutIdContents(init, id);
      assert bucket == init + [last];
    }
  }

  lemma {:induction false} WithoutIdUnique(bucket: seq<Entry>, id: string)
    requires UniqueIds(bucket)
    ensures UniqueIds(WithoutId(bucket, id))
  {
    if bucket == [] {
    } else {
      var init, last := bucket[..|bucket| - 1], bucket[|bucket| - 1];
      WithoutIdUnique(init, id);
      WithoutIdContents(init, id);
      var rest := WithoutId(init, id);
      forall i | 0 <= i < |rest| ensures rest[i].notificationId != last.notificationId {
        assert rest[i] in init;
      }
    }
  }

  lemma PushedOk(origin: NodeId, bucket: seq<Entry>, e: Entry)
    requires BucketOk(origin, bucket) && e.origin == origin
    ensures BucketOk(origin, Pushed(bucket, e))
    ensures forall x :: x in Pushed(bucket, e) ==> x == e || (x in bucket && x.notificationId != e.notificationId)
    ensures e in Pushed(bucket, e)
  {
    WithoutIdContents(bucket, e.notificationId);
    WithoutIdUnique(bucket, e.notificationId);
    var rest := WithoutId(bucket, e.notificationId);
    forall i | 0 <= i < |rest| ensures rest[i].notificationId != e.notificationId {
      assert rest[i] in rest;
    }
    assert Pushed(bucket, e)[|Pushed(bucket, e)| - 1] == e;
  }

  // ---------- the invariant ----------

  ghost predicate BucketsOk(s: Engine) {
    forall o :: o in s.active ==> BucketOk(o, s.active[o])
  }

  /** What the guard holds as dismissed, the mirror shows as dismissed. */
  ghost predicate DismissedAgree(s: Engine) {
    forall o, i :: o in s.active && 0 <= i < |s.active[o]| ==>
      var e := s.active[o][i];
      IsDismissed(s.guard, (o, e.notificationId)) ==> e.state == Dismissed
  }

  /** Guard and mirror give the same state to every notification they both hold. */
  ghost predicate StatesAgree(s: Engine) {
    forall o, i :: o in s.active && 0 <= i < |s.active[o]| && (o, s.active[o][i].notificationId) in s.guard.states ==>
      s.guard.states[(o, s.active[o][i].notificationId)] == s.active[o][i].state
  }

  /** A post as `NotificationEntry::new` makes it. */
  predicate Honest(msg: Message) {
    msg.Post? ==> msg.entry.state == Active
  }

  lemma StepKeepsGuard(env: Env, s: Engine, msg: Message)
    requires Consistent(s.guard)
    ensures Consistent(NextState(env, s, msg).guard)
  {
    match msg
    case Post(wire) =>
      var e := EnforceSizeLimits(wire);
      if Delivers(env, s, e) {
        PostKeepsConsistent(s.guard, KeyOf(e), env.hashOf(e));
      }
    case Dismiss(origin, id) => DismissKeepsConsistent(s.guard, (origin, id));
    case ClearAll(origin) => ClearAllKeepsConsistent(s.guard, origin);
    case ActionInvoked(origin, id, _) => DismissKeepsConsistent(s.guard, (origin, id));
  }

  lemma StepKeepsBuckets(env: Env, s: Engine, msg: Message)
    requires BucketsOk(s)
    ensures BucketsOk(NextState(env, s, msg))
  {
    match msg
    case Post(wire) =>
      var e := EnforceSizeLimits(wire);
      PushedOk(e.origin, Bucket(s, e.origin), e);
    case Dismiss(origin, id) => MarkedOk(origin, Bucket(s, origin), id);
    case ClearAll(origin) => MarkedOk(origin, Bucket(s, origin), "");
    case ActionInvoked(origin, id, _) => MarkedOk(origin, Bucket(s, origin), id);
  }

  lemma MarkedOk(origin: NodeId, bucket: seq<Entry>, id: string)
    requires BucketOk(origin, bucket)
    ensures BucketOk(origin, MarkId(bucket, id)) && BucketOk(origin, MarkAll(bucket))
  {
  }

  /** A delivered post leaves the guard's view of every other key as it was, or forgets it. */
  lemma PostedStates(g: Guard, key: Key, hash: Hash, other: Key)
    requires other != key
    ensures var g' := RecordPosted(g, key, hash);
            other in g'.states ==> other in g.states && g'.states[other] == g.states[other]
  {
  }

  lemma DeliverKeepsDismissed(env: Env, s: Engine, e: Entry)
    requires BucketsOk(s) && DismissedAgree(s) && Delivers(env, s, e)
    ensures DismissedAgree(Deliver(env, s, e))
    ensures StatesAgree(s) && e.state == Active ==> StatesAgree(Deliver(env, s, e))
  {
    var s', bucket := Deliver(env, s, e), Bucket(s, e.origin);
    PushedOk(e.origin, bucket, e);
    forall o, i | o in s'.active && 0 <= i < |s'.active[o]|
      ensures var key := (o, s'.active[o][i].notificationId);
              && (IsDismissed(s'.guard, key) ==> s'.active[o][i].state == Dismissed)
              && (StatesAgree(s) && e.state == Active && key in s'.guard.states ==>
                  s'.guard.states[key] == s'.active[o][i].state)
    {
      var x := s'.active[o][i];
      var key := (o, x.notificationId);
      assert x in s'.active[o];
      if key != KeyOf(e) {
        PostedStates(s.guard, KeyOf(e), env.hashOf(e), key);
        assert o in s.active && x in s.active[o];
        var j :| 0 <= j < |s.active[o]| && s.active[o][j] == x;
      }
    }
  }

  lemma DismissKeepsAgreement(s: Engine, key: Key)
    requires DismissedAgree(s)
    ensures DismissedAgree(HandleDismiss(s, key))
    ensures StatesAgree(s) ==> StatesAgree(HandleDismiss(s, key))
  {
  }

  lemma ClearAllKeepsAgreement(s: Engine, origin: NodeId)
    requires DismissedAgree(s)
    ensures DismissedAgree(HandleClearAll(s, origin))
    ensures StatesAgree(s) ==> StatesAgree(HandleClearAll(s, origin))
  {
  }

  lemma StepKeepsAgreement(env: Env, s: Engine, msg: Message)
    requires BucketsOk(s) && DismissedAgree(s)
    ensures DismissedAgree(NextState(env, s, msg))
    ensures StatesAgree(s) && Honest(msg) ==> StatesAgree(NextState(env, s, msg))
  {
    match msg
    case Post(wire) =>
      var e := EnforceSizeLimits(wire);
      if Delivers(env, s, e) {
        DeliverKeepsDismissed(env, s, e);
      }
    case Dismiss(origin, id) => DismissKeepsAgreement(s, (origin, id));
    case ClearAll(origin) => ClearAllKeepsAgreement(s, origin);
    case ActionInvoked(origin, id, _) => DismissKeepsAgreement(s, (origin, id));
  }

  // ---------- main results ----------

  /** In every reachable state the guard's three structures agree, the buckets are bounded and hold each id
      once, and what the guard holds as dismissed the mirror shows as dismissed, whatever the wire carried.
      If every post on the wire was active, guard and mirror agree on every state. */
  lemma {:induction false} ReachableStates(env: Env, msgs: seq<Message>)
    ensures var s := Run(env, msgs);
            && Consistent(s.guard) && BucketsOk(s) && DismissedAgree(s)
            && ((forall msg :: msg in msgs ==> Honest(msg)) ==> StatesAgree(s))
  {
    if msgs == [] {
    } else {
      var init, last := msgs[..|msgs| - 1], msgs[|msgs| - 1];
      ReachableStates(env, init);
      StepKeepsGuard(env, Run(env, init), last);
      StepKeepsBuckets(env, Run(env, init), last);
      StepKeepsAgreement(env, Run(env, init), last);
    }
  }

  /** Exactly when a delivered post leaves guard and mirror agreeing about it: when it was active on the wire. */
  lemma DeliveryAgreesExactlyIfActive(env: Env, msgs: seq<Message>, wire: Entry)
    requires var e := EnforceSizeLimits(wire); Delivers(env, Run(env, msgs), e)
    ensures var s := Run(env, msgs); var e := EnforceSizeLimits(wire); var s' := NextState(env, s, Post(wire));
            && e in s'.active[e.origin]
            && KeyOf(e) in s'.guard.states
            && (s'.guard.states[KeyOf(e)] == e.state <==> wire.state == Active)
  {
    var s, e := Run(env, msgs), EnforceSizeLimits(wire);
    ReachableStates(env, msgs);
    PushedOk(e.origin, Bucket(s, e.origin), e);
  }

  lemma {:induction false} ActiveOnlyContents(bucket: seq<Entry>)
    ensures forall e :: e in ActiveOnly(bucket) <==> e in bucket && e.state == Active
    ensures UniqueIds(bucket) ==> UniqueIds(ActiveOnly(bucket))
  {
    if bucket == [] {
    } else {
      var init, last := bucket[..|bucket| - 1], bucket[|bucket| - 1];
      ActiveOnlyContents(init);
      assert bucket == init + [last];
      var rest := ActiveOnly(init);
      if UniqueIds(bucket) {
        assert UniqueIds(init);
        forall i | 0 <= i < |rest| ensures rest[i].notificationId != last.notificationId {
          assert rest[i] in init;
        }
      }
    }
  }

  /** The snapshot of active notifications never shows an id the guard holds as dismissed, and shows no id twice. */
  lemma SnapshotHidesDismissed(env: Env, msgs: seq<Message>, origin: NodeId)
    ensures var s := Run(env, msgs); var shown := ActiveOnly(Bucket(s, origin));
            && UniqueIds(shown)
            && (forall e :: e in shown ==> e.state == Active && !IsDismissed(s.guard, (origin, e.notificationId)))
  {
    var s := Run(env, msgs);
    ReachableStates(env, msgs);
    var bucket := Bucket(s, origin);
    ActiveOnlyContents(bucket);
    forall e | e in ActiveOnly(bucket) ensures !IsDismissed(s.guard, (origin, e.notificationId)) {
      var i :| 0 <= i < |bucket| && bucket[i] == e;
    }
  }

  // ---------- how long a key stays tracked ----------

  /** The message makes the guard track a key it was not tracking. */
  predicate Inserts(env: Env, s: Engine, msg: Message) {
    msg.Post? && Delivers(env, s, EnforceSizeLimits(msg.entry)) && KeyOf(msg.entry) !in s.guard.states
  }

  function Insertions(env: Env, s: Engine, msgs: seq<Message>): nat {
    if msgs == [] then 0
    else
      var init := msgs[..|msgs| - 1];
      Insertions(env, s, init) + (if Inserts(env, RunFrom(env, s, init), msgs[|msgs| - 1]) then 1 else 0)
  }

  /** The ring under one message: a new key goes to the back and, if the ring is full, the front one leaves. */
  lemma RingStep(env: Env, s: Engine, msg: Message)
    requires Consistent(s.guard)
    ensures var ring, ring' := s.guard.ring, NextState(env, s, msg).guard.ring;
            ring' == if !Inserts(env, s, msg) then ring
                     else (if |ring| == RING_CAPACITY then ring[1..] else ring) + [KeyOf(msg.entry)]
  {
  }

  /** How many insertions the key at index `i` of a ring of length `length` survives. */
  function Lifetime(length: nat, i: nat): nat
    requires i < length <= RING_CAPACITY
  {
    RING_CAPACITY - length + i
  }

  lemma {:induction false} RunKeepsGuard(env: Env, s: Engine, msgs: seq<Message>)
    requires Consistent(s.guard)
    ensures Consistent(RunFrom(env, s, msgs).guard)
  {
    if msgs == [] {
    } else {
      RunKeepsGuard(env, s, msgs[..|msgs| - 1]);
      StepKeepsGuard(env, RunFrom(env, s, msgs[..|msgs| - 1]), msgs[|msgs| - 1]);
    }
  }

  /** The key stands `m` insertions into its lifetime where it should. */
  ghost predicate StandsAt(ring: seq<Key>, length: nat, m: nat, i: nat, key: Key) {
    && |ring| == Min(RING_CAPACITY, length + m)
    && 0 <= i + |ring| - (length + m) < |ring|
    && ring[i + |ring| - (length + m)] == key
  }

  lemma InsertionMoves(ring: seq<Key>, newKey: Key, length: nat, m: nat, i: nat, key: Key)
    requires i < length <= RING_CAPACITY && m + 1 <= Lifetime(length, i) && StandsAt(ring, length, m, i, key)
    ensures StandsAt((if |ring| == RING_CAPACITY then ring[1..] else ring) + [newKey], length, m + 1, i, key)
  {
  }

  lemma SurvivesStep(env: Env, s: Engine, msg: Message, length: nat, m: nat, i: nat, key: Key)
    requires Consistent(s.guard) && i < length <= RING_CAPACITY && StandsAt(s.guard.ring, length, m, i, key)
    requires m + (if Inserts(env, s, msg) then 1 else 0) <= Lifetime(length, i)
    ensures StandsAt(NextState(env, s, msg).guard.ring, length, m + (if Inserts(env, s, msg) then 1 else 0), i, key)
  {
    RingStep(env, s, msg);
    if Inserts(env, s, msg) {
      InsertionMoves(s.guard.ring, KeyOf(msg.entry), length, m, i, key);
    }
  }

  /** While at most `Lifetime` keys have been inserted, the key is still in the ring, moved up by the number
      of insertions that found the ring full. */
  lemma {:induction false} SurvivesInsertions(env: Env, s: Engine, msgs: seq<Message>, i: nat)
    requires Consistent(s.guard) && i < |s.guard.ring|
    requires Insertions(env, s, msgs) <= Lifetime(|s.guard.ring|, i)
    ensures StandsAt(RunFrom(env, s, msgs).guard.ring, |s.guard.ring|, Insertions(env, s, msgs), i, s.guard.ring[i])
  {
    if msgs == [] {
    } else {
      var init, last := msgs[..|msgs| - 1], msgs[|msgs| - 1];
      var s1, m := RunFrom(env, s, init), Insertions(env, s, init);
      assert Insertions(env, s, msgs) == m + (if Inserts(env, s1, last) then 1 else 0);
      assert RunFrom(env, s, msgs) == NextState(env, s1, last);
      SurvivesInsertions(env, s, init, i);
      RunKeepsGuard(env, s, init);
      SurvivesStep(env, s1, last, |s.guard.ring|, m, i, s.guard.ring[i]);
    }
  }

  lemma FrontLeaves(ring: seq<Key>, key: Key)
    requires NoDuplicates(ring) && ring != [] && key !in ring
    ensures ring[0] !in ring[1..] + [key]
  {
  }

  /** A key leaves the ring on exactly the insertion after its lifetime, wherever that insertion comes from. */
  lemma LeavesAfterLifetime(env: Env, s: Engine, msgs: seq<Message>, i: nat)
    requires Consistent(s.guard) && i < |s.guard.ring| && msgs != []
    requires Insertions(env, s, msgs) == Lifetime(|s.guard.ring|, i) + 1
    requires Inserts(env, RunFrom(env, s, msgs[..|msgs| - 1]), msgs[|msgs| - 1])
    ensures s.guard.ring[i] !in RunFrom(env, s, msgs).guard.ring
    ensures s.guard.ring[i] in RunFrom(env, s, msgs[..|msgs| - 1]).guard.ring
  {
    var init, last := msgs[..|msgs| - 1], msgs[|msgs| - 1];
    var s1 := RunFrom(env, s, init);
    SurvivesInsertions(env, s, init, i);
    RunKeepsGuard(env, s, init);
    RingStep(env, s1, last);
    var ring := s1.guard.ring;
    assert |ring| == RING_CAPACITY && ring[0] == s.guard.ring[i];
    FrontLeaves(ring, KeyOf(last.entry));
    assert RunFrom(env, s, msgs).guard.ring == ring[1..] + [KeyOf(last.entry)];
  }

  function Events(env: Env, s: Engine, msgs: seq<Message>): seq<Event> {
    if msgs == [] then []
    else
      var init := msgs[..|msgs| - 1];
      var e := Emitted(env, RunFrom(env, s, init), msgs[|msgs| - 1]);
      Events(env, s, init) + (if e.Some? then [e.value] else [])
  }

  ghost predicate Silent(events: seq<Event>, key: Key) {
    forall e :: e in events && e.Received? ==> KeyOf(e.entry) != key
  }

  lemma DismissedStepStays(env: Env, s: Engine, msg: Message, key: Key)
    requires Consistent(s.guard) && IsDismissed(s.guard, key) && key in NextState(env, s, msg).guard.ring
    ensures IsDismissed(NextState(env, s, msg).guard, key)
    ensures Emitted(env, s, msg).Some? && Emitted(env, s, msg).value.Received? ==>
        KeyOf(Emitted(env, s, msg).value.entry) != key
  {
    StepKeepsGuard(env, s, msg);
    if msg.Post? && Delivers(env, s, EnforceSizeLimits(msg.entry)) {
      PostedStates(s.guard, KeyOf(msg.entry), env.hashOf(EnforceSizeLimits(msg.entry)), key);
    }
  }

  /** After a dismissal, no `Received` event for that id occurs until the id has left the ring, that is, for
      any messages from any origins that insert at most `Lifetime` keys. */
  lemma {:induction false} DismissedStaysSilent(env: Env, s: Engine, msgs: seq<Message>, i: nat)
    requires Consistent(s.guard) && i < |s.guard.ring| && IsDismissed(s.guard, s.guard.ring[i])
    requires Insertions(env, s, msgs) <= Lifetime(|s.guard.ring|, i)
    ensures IsDismissed(RunFrom(env, s, msgs).guard, s.guard.ring[i])
    ensures Silent(Events(env, s, msgs), s.guard.ring[i])
  {
    if msgs == [] {
    } else {
      var init, last := msgs[..|msgs| - 1], msgs[|msgs| - 1];
      DismissedStaysSilent(env, s, init, i);
      SurvivesInsertions(env, s, msgs, i);
      RunKeepsGuard(env, s, init);
      DismissedStepStays(env, RunFrom(env, s, init), last, s.guard.ring[i]);
    }
  }

  /** A dismissal or clear-all puts every tracked id it names into that condition. */
  lemma DismissalTakesHold(env: Env, msgs: seq<Message>, key: Key)
    ensures var s := Run(env, msgs);
            key in s.guard.states ==>
              && IsDismissed(NextState(env, s, Dismiss(key.0, key.1)).guard, key)
              && IsDismissed(NextState(env, s, ActionInvoked(key.0, key.1, DismissAction)).guard, key)
              && IsDismissed(NextState(env, s, ClearAll(key.0)).guard, key)
    ensures var s := Run(env, msgs);
            forall k :: k in s.guard.states && k.0 != key.0 ==>
              NextState(env, s, ClearAll(key.0)).guard.states[k] == s.guard.states[k]
  {
  }

  /** A delivered post is delivered once: any post of the same id with the same content hash, whatever its number and
      time, changes nothing and raises no event but the policy's, while the same id with different content is
      delivered as an update that replaces it in the mirror. */
  lemma DeliveredOnce(env: Env, msgs: seq<Message>, wire: Entry, again: Entry)
    requires Delivers(env, Run(env, msgs), EnforceSizeLimits(wire)) && KeyOf(again) == KeyOf(wire)
    ensures var s' := NextState(env, Run(env, msgs), Post(wire)); var e := EnforceSizeLimits(again);
            env.hashOf(e) == env.hashOf(EnforceSizeLimits(wire)) ==>
              && NextState(env, s', Post(again)) == s'
              && Emitted(env, s', Post(again)) == if env.blocks(e) then Some(PolicyBlocked(KeyOf(again))) else None
    ensures var s' := NextState(env, Run(env, msgs), Post(wire)); var e := EnforceSizeLimits(again);
            (!env.blocks(e) && env.hashOf(e) != env.hashOf(EnforceSizeLimits(wire))) ==>
              && Emitted(env, s', Post(again)) == Some(Received(e))
              && forall x :: x in Bucket(NextState(env, s', Post(again)), e.origin) ==>
                   (x.notificationId == e.notificationId ==> x == e)
  {
    var s := Run(env, msgs);
    var s', e := NextState(env, s, Post(wire)), EnforceSizeLimits(again);
    ReachableStates(env, msgs);
    StepKeepsBuckets(env, s, Post(wire));
    PushedOk(e.origin, Bucket(s', e.origin), e);
  }
}
