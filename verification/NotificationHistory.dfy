/**
 What every run of the notification engine leaves, traced back to its messages: which delivery each tracked id and
 each mirrored entry comes from, and what has dismissed it since (crates/bridge-notifications/src/engine.rs).
 */
module NotificationHistory {
  import opened Common
  import opened NotificationGuards
  import opened NotificationEngine
  import opened NotificationRuns

  /** The message dismisses the key by name, by action or together with all of its origin. */
  predicate Names(msg: Message, key: Key) {
    || msg == Dismiss(key.0, key.1)
    || msg == ActionInvoked(key.0, key.1, DismissAction)
    || msg == ClearAll(key.0)
  }

  /** Message `i` of the run is a post of the key that was delivered. */
  ghost predicate DeliveredAt(env: Env, msgs: seq<Message>, i: nat, key: Key) {
    && i < |msgs| && msgs[i].Post? && KeyOf(msgs[i].entry) == key
    && Delivers(env, Run(env, msgs[..i]), EnforceSizeLimits(msgs[i].entry))
  }

  /** And it was the last delivery of that key. */
  ghost predicate LastDelivered(env: Env, msgs: seq<Message>, i: nat, key: Key) {
    DeliveredAt(env, msgs, i, key) && forall j :: i < j < |msgs| ==> !DeliveredAt(env, msgs, j, key)
  }

  ghost predicate NamedSince(msgs: seq<Message>, i: nat, key: Key) {
    exists j :: i < j < |msgs| && Names(msgs[j], key)
  }

  // ---------- one more message ----------

  lemma DeliveredBefore(env: Env, msgs: seq<Message>, msg: Message, i: nat, key: Key)
    requires i < |msgs|
    ensures DeliveredAt(env, msgs + [msg], i, key) <==> DeliveredAt(env, msgs, i, key)
  {
    assert (msgs + [msg])[..i] == msgs[..i];
  }

  lemma DeliveredLast(env: Env, msgs: seq<Message>, msg: Message, key: Key)
    ensures DeliveredAt(env, msgs + [msg], |msgs|, key) <==>
            msg.Post? && KeyOf(msg.entry) == key && Delivers(env, Run(env, msgs), EnforceSizeLimits(msg.entry))
  {
    assert (msgs + [msg])[..|msgs|] == msgs;
  }

  lemma RunSnoc(env: Env, msgs: seq<Message>, msg: Message)
    ensures Run(env, msgs + [msg]) == NextState(env, Run(env, msgs), msg)
  {
    assert (msgs + [msg])[..|msgs|] == msgs;
  }

  /** A delivery by the last message is the last one, and nothing has named the key since. */
  lemma LastIsLast(env: Env, msgs: seq<Message>, msg: Message, key: Key)
    requires msg.Post? && KeyOf(msg.entry) == key && Delivers(env, Run(env, msgs), EnforceSizeLimits(msg.entry))
    ensures LastDelivered(env, msgs + [msg], |msgs|, key) && !NamedSince(msgs + [msg], |msgs|, key)
  {
    DeliveredLast(env, msgs, msg, key);
  }

  /** Any other message leaves the last delivery where it was, and may name the key. */
  lemma LastStays(env: Env, msgs: seq<Message>, msg: Message, i: nat, key: Key)
    requires LastDelivered(env, msgs, i, key)
    requires !(msg.Post? && KeyOf(msg.entry) == key && Delivers(env, Run(env, msgs), EnforceSizeLimits(msg.entry)))
    ensures LastDelivered(env, msgs + [msg], i, key)
    ensures NamedSince(msgs + [msg], i, key) <==> NamedSince(msgs, i, key) || Names(msg, key)
  {
    var all := msgs + [msg];
    DeliveredLast(env, msgs, msg, key);
    forall j | 0 <= j < |msgs| ensures DeliveredAt(env, all, j, key) <==> DeliveredAt(env, msgs, j, key) {
      DeliveredBefore(env, msgs, msg, j, key);
    }
    assert all[|msgs|] == msg && forall j :: 0 <= j < |msgs| ==> all[j] == msgs[j];
    if NamedSince(msgs, i, key) {
      var j :| i < j < |msgs| && Names(msgs[j], key);
      assert Names(all[j], key);
    }
  }

  // ---------- the guard ----------

  /** What one message does to the guard's view of a key that it did not deliver. */
  lemma GuardStep(env: Env, s: Engine, msg: Message, key: Key)
    requires Consistent(s.guard) && key in NextState(env, s, msg).guard.states
    requires !(msg.Post? && KeyOf(msg.entry) == key && Delivers(env, s, EnforceSizeLimits(msg.entry)))
    ensures var g, g' := s.guard, NextState(env, s, msg).guard;
            && key in g.states
            && g'.states[key] == (if Names(msg, key) then Dismissed else g.states[key])
            && (key in g.seen && !Names(msg, key) ==> key in g'.seen && g'.seen[key] == g.seen[key])
  {
  }

  /** The guard as its key's history says: the last delivery, active or dismissed since, with the hash delivered. */
  ghost predicate GuardTells(env: Env, msgs: seq<Message>, g: Guard, i: nat, key: Key) {
    && key in g.states && LastDelivered(env, msgs, i, key)
    && g.states[key] == (if NamedSince(msgs, i, key) then Dismissed else Active)
    && (!NamedSince(msgs, i, key) ==> key in g.seen && g.seen[key] == env.hashOf(EnforceSizeLimits(msgs[i].entry)))
  }

  /** In every run each id that the guard tracks was delivered, and it is held as dismissed if and only if a dismissal,
      a dismiss action or a clear-all has named it since it was delivered last. Until then the guard keeps the hash of
      that delivery. */
  lemma {:induction false} DismissedExactlyIfNamed(env: Env, msgs: seq<Message>, key: Key) returns (i: nat)
    requires key in Run(env, msgs).guard.states
    ensures GuardTells(env, msgs, Run(env, msgs).guard, i, key)
    decreases |msgs|
  {
    var init, last := msgs[..|msgs| - 1], msgs[|msgs| - 1];
    var s := Run(env, init);
    assert msgs == init + [last];
    RunSnoc(env, init, last);
    if last.Post? && KeyOf(last.entry) == key && Delivers(env, s, EnforceSizeLimits(last.entry)) {
      i := |init|;
      LastIsLast(env, init, last, key);
    } else {
      ReachableStates(env, init);
      GuardStep(env, s, last, key);
      i := DismissedExactlyIfNamed(env, init, key);
      LastStays(env, init, last, i, key);
    }
  }

  // ---------- the mirror ----------

  /** The mirrored entry is the one last delivered under its key, marked if something has named it since. */
  ghost predicate MirrorTells(env: Env, msgs: seq<Message>, origin: NodeId, e: Entry, i: nat) {
    var key := (origin, e.notificationId);
    && LastDelivered(env, msgs, i, key)
    && e == MarkIf(EnforceSizeLimits(msgs[i].entry), NamedSince(msgs, i, key))
  }

  /** The bucket with the entries marked that the message names. */
  function Marked(all: seq<Entry>, origin: NodeId, msg: Message): seq<Entry> {
    seq(|all|, i requires 0 <= i < |all| => MarkIf(all[i], Names(msg, (origin, all[i].notificationId))))
  }

  lemma DismissalMarks(env: Env, s: Engine, origin: NodeId, msg: Message)
    requires !msg.Post?
    ensures Bucket(NextState(env, s, msg), origin) == Marked(Bucket(s, origin), origin, msg)
  {
    match msg
    case Dismiss(o, id) => DismissMarks(s, (o, id), origin, msg);
    case ClearAll(o) => ClearAllMarks(s, o, origin);
    case ActionInvoked(o, id, action) =>
      if action == DismissAction {
        DismissMarks(s, (o, id), origin, msg);
      } else {
        assert Marked(Bucket(s, origin), origin, msg) == Bucket(s, origin);
      }
  }

  lemma DismissMarks(s: Engine, key: Key, origin: NodeId, msg: Message)
    requires msg == Dismiss(key.0, key.1) || msg == ActionInvoked(key.0, key.1, DismissAction)
    ensures Bucket(HandleDismiss(s, key), origin) == Marked(Bucket(s, origin), origin, msg)
  {
  }

  lemma ClearAllMarks(s: Engine, cleared: NodeId, origin: NodeId)
    ensures Bucket(HandleClearAll(s, cleared), origin) == Marked(Bucket(s, origin), origin, ClearAll(cleared))
  {
  }

  lemma DeliveryPushes(s: Engine, origin: NodeId, p: Entry, e: Entry)
    requires BucketsOk(s) && p.origin == origin && e in Pushed(Bucket(s, origin), p)
    requires e.notificationId != p.notificationId
    ensures e in Bucket(s, origin)
  {
    PushedOk(origin, Bucket(s, origin), p);
  }

  /** An entry that the message did not push was there before, and is marked if named. */
  lemma MirrorStep(env: Env, s: Engine, msg: Message, origin: NodeId, e: Entry)
    requires BucketsOk(s) && e in Bucket(NextState(env, s, msg), origin)
    requires !(msg.Post? && KeyOf(msg.entry) == (origin, e.notificationId)
               && Delivers(env, s, EnforceSizeLimits(msg.entry)))
    ensures exists x :: x in Bucket(s, origin) && e == MarkIf(x, Names(msg, (origin, e.notificationId)))
  {
    var bucket := Bucket(s, origin);
    if msg.Post? {
      var p := EnforceSizeLimits(msg.entry);
      if Delivers(env, s, p) && p.origin == origin {
        DeliveryPushes(s, origin, p, e);
      }
      assert e in bucket && e == MarkIf(e, false);
    } else {
      DismissalMarks(env, s, origin, msg);
      var k :| 0 <= k < |bucket| && Marked(bucket, origin, msg)[k] == e;
      assert bucket[k] in bucket;
    }
  }

  /** In every run each mirrored entry is the one last delivered under its id, with the state it had on the wire, unless
      a dismissal, a dismiss action or a clear-all has named it since; then, and only then, it is marked dismissed. */
  lemma {:induction false} MirrorHoldsLastDelivery(env: Env, msgs: seq<Message>, origin: NodeId, e: Entry)
    returns (i: nat)
    requires e in Bucket(Run(env, msgs), origin)
    ensures MirrorTells(env, msgs, origin, e, i)
    decreases |msgs|
  {
    var init, last := msgs[..|msgs| - 1], msgs[|msgs| - 1];
    var s, key := Run(env, init), (origin, e.notificationId);
    assert msgs == init + [last];
    RunSnoc(env, init, last);
    ReachableStates(env, init);
    if last.Post? && KeyOf(last.entry) == key && Delivers(env, s, EnforceSizeLimits(last.entry)) {
      i := |init|;
      LastIsLast(env, init, last, key);
      PushedOk(origin, Bucket(s, origin), EnforceSizeLimits(last.entry));
    } else {
      MirrorStep(env, s, last, origin, e);
      var x :| x in Bucket(s, origin) && e == MarkIf(x, Names(last, key));
      i := MirrorHoldsLastDelivery(env, init, origin, x);
      LastStays(env, init, last, i, key);
    }
  }

  // ---------- which posts are delivered ----------

  /** The guard still tracks the key, and has either been told to dismiss it since its last delivery or been given this
      content with it. */
  ghost predicate Known(env: Env, msgs: seq<Message>, e: Entry) {
    && KeyOf(e) in Run(env, msgs).guard.ring
    && exists i: nat :: LastDelivered(env, msgs, i, KeyOf(e))
                   && (NamedSince(msgs, i, KeyOf(e))
                       || env.hashOf(EnforceSizeLimits(msgs[i].entry)) == env.hashOf(e))
  }

  lemma LastIsUnique(env: Env, msgs: seq<Message>, i: nat, j: nat, key: Key)
    requires LastDelivered(env, msgs, i, key) && LastDelivered(env, msgs, j, key)
    ensures i == j
  {
  }

  /** A post is delivered, that is announced and put at the end of the mirror, exactly if the policy admits it and it
      is not known. Otherwise nothing changes, and only a refusal by the policy is announced. */
  lemma DeliveredExactlyIfUnknown(env: Env, msgs: seq<Message>, wire: Entry)
    ensures var s, e := Run(env, msgs), EnforceSizeLimits(wire); var s' := NextState(env, s, Post(wire));
            var event := Emitted(env, s, Post(wire));
            if env.blocks(e) then s' == s && event == Some(PolicyBlocked(KeyOf(wire)))
            else if Known(env, msgs, e) then s' == s && event == None
            else && event == Some(Received(e))
                 && KeyOf(wire) in s'.guard.ring
                 && Bucket(s', e.origin) != [] && Bucket(s', e.origin)[|Bucket(s', e.origin)| - 1] == e
                 && forall o :: o != e.origin ==> Bucket(s', o) == Bucket(s, o)
  {
    var s, e := Run(env, msgs), EnforceSizeLimits(wire);
    var key := KeyOf(e);
    ReachableStates(env, msgs);
    if key in s.guard.states {
      var i := DismissedExactlyIfNamed(env, msgs, key);
      if Known(env, msgs, e) {
        var j: nat :| LastDelivered(env, msgs, j, key)
                 && (NamedSince(msgs, j, key) || env.hashOf(EnforceSizeLimits(msgs[j].entry)) == env.hashOf(e));
        LastIsUnique(env, msgs, i, j, key);
      }
    }
    if Delivers(env, s, e) {
      StepKeepsGuard(env, s, Post(wire));
    }
  }

  // ---------- what the mirror keeps ----------

  /** Everything delivered from an origin, one entry for each id in the order of the last deliveries, and marked like
      the mirror, but without any limit. */
  function Everything(env: Env, msgs: seq<Message>, origin: NodeId): seq<Entry> {
    if msgs == [] then []
    else
      var init, last := msgs[..|msgs| - 1], msgs[|msgs| - 1];
      Noted(env, Run(env, init), Everything(env, init, origin), origin, last)
  }

  function Noted(env: Env, s: Engine, all: seq<Entry>, origin: NodeId, msg: Message): seq<Entry> {
    if !msg.Post? then Marked(all, origin, msg)
    else
      var e := EnforceSizeLimits(msg.entry);
      if e.origin == origin && Delivers(env, s, e) then WithoutId(all, e.notificationId) + [e] else all
  }

  function Last256(all: seq<Entry>): seq<Entry> {
    if |all| <= 256 then all else all[|all| - 256..]
  }

  lemma {:induction false} WithoutAbsent(bucket: seq<Entry>, id: string)
    requires forall e :: e in bucket ==> e.notificationId != id
    ensures WithoutId(bucket, id) == bucket
  {
    if bucket == [] {
    } else {
      var init := bucket[..|bucket| - 1];
      assert forall e :: e in init ==> e in bucket;
      WithoutAbsent(init, id);
      assert bucket[|bucket| - 1] in bucket;
    }
  }

  lemma {:induction false} WithoutIdOfParts(front: seq<Entry>, back: seq<Entry>, id: string)
    ensures WithoutId(front + back, id) == WithoutId(front, id) + WithoutId(back, id)
    decreases |back|
  {
    if back == [] {
      assert front + back == front;
    } else {
      var init := back[..|back| - 1];
      assert (front + back)[..|front + back| - 1] == front + init;
      WithoutIdOfParts(front, init, id);
    }
  }

  lemma {:induction false} WithoutIdLength(bucket: seq<Entry>, id: string)
    requires UniqueIds(bucket)
    ensures |WithoutId(bucket, id)| == |bucket| - (if exists e :: e in bucket && e.notificationId == id then 1 else 0)
  {
    if bucket == [] {
    } else {
      var init, last := bucket[..|bucket| - 1], bucket[|bucket| - 1];
      assert bucket == init + [last];
      if last.notificationId == id {
        assert forall i :: 0 <= i < |init| ==> init[i] == bucket[i];
        assert forall e :: e in init ==> e.notificationId != id;
        WithoutAbsent(init, id);
        assert last in bucket;
      } else {
        WithoutIdLength(init, id);
        assert forall e :: e in bucket && e.notificationId == id ==> e in init;
        assert forall e :: e in init ==> e in bucket;
      }
    }
  }

  lemma LastOfJoined(front: seq<Entry>, back: seq<Entry>)
    requires |back| >= 256
    ensures Last256(front + back) == back[|back| - 256..]
  {
  }

  lemma PushedToFull(front: seq<Entry>, back: seq<Entry>, e: Entry)
    requires |back| == 256 && UniqueIds(back)
    ensures Pushed(back, e) == Last256(WithoutId(front + back, e.notificationId) + [e])
  {
    var id := e.notificationId;
    var wf, wb := WithoutId(front, id), WithoutId(back, id);
    WithoutIdOfParts(front, back, id);
    WithoutIdLength(back, id);
    LastOfJoined(wf, wb + [e]);
    assert wf + wb + [e] == wf + (wb + [e]);
  }

  lemma {:induction false} WithoutIdShorter(bucket: seq<Entry>, id: string)
    ensures |WithoutId(bucket, id)| <= |bucket|
  {
    if bucket == [] {
    } else {
      WithoutIdShorter(bucket[..|bucket| - 1], id);
    }
  }

  lemma PushedToRoom(all: seq<Entry>, e: Entry)
    requires |all| <= 256
    ensures Pushed(all, e) == Last256(WithoutId(all, e.notificationId) + [e])
  {
    WithoutIdShorter(all, e.notificationId);
    var b := WithoutId(all, e.notificationId) + [e];
    if |b| > 256 {
      assert |b| == 257;
      assert b[|b| - 256..] == b[1..];
    }
  }

  /** Pushing to the last 256 gives the last 256. */
  lemma PushedIsLast256(all: seq<Entry>, e: Entry)
    requires UniqueIds(all)
    ensures Pushed(Last256(all), e) == Last256(WithoutId(all, e.notificationId) + [e])
  {
    if |all| > 256 {
      var front, back := all[..|all| - 256], all[|all| - 256..];
      assert all == front + back;
      PushedToFull(front, back, e);
    } else {
      PushedToRoom(all, e);
    }
  }

  lemma NotedUnique(env: Env, s: Engine, all: seq<Entry>, origin: NodeId, msg: Message)
    requires UniqueIds(all)
    ensures UniqueIds(Noted(env, s, all, origin, msg))
  {
    if msg.Post? {
      var id := EnforceSizeLimits(msg.entry).notificationId;
      WithoutIdUnique(all, id);
      WithoutIdContents(all, id);
      var rest := WithoutId(all, id);
      assert forall i :: 0 <= i < |rest| ==> rest[i] in rest;
    }
  }

  lemma MarkedLast256(all: seq<Entry>, origin: NodeId, msg: Message)
    ensures Marked(Last256(all), origin, msg) == Last256(Marked(all, origin, msg))
  {
  }

  lemma NotedLast256(env: Env, s: Engine, all: seq<Entry>, origin: NodeId, msg: Message)
    requires UniqueIds(all) && Bucket(s, origin) == Last256(all)
    ensures Bucket(NextState(env, s, msg), origin) == Last256(Noted(env, s, all, origin, msg))
  {
    if msg.Post? {
      PushedIsLast256(all, EnforceSizeLimits(msg.entry));
    } else {
      DismissalMarks(env, s, origin, msg);
      MarkedLast256(all, origin, msg);
    }
  }

  /** In every run the mirror of an origin is the last 256 of everything delivered from it, which has each id once. So
      an entry leaves it exactly when 256 other ids of its origin have been delivered since. */
  lemma {:induction false} MirrorIsLast256(env: Env, msgs: seq<Message>, origin: NodeId)
    ensures UniqueIds(Everything(env, msgs, origin))
    ensures Bucket(Run(env, msgs), origin) == Last256(Everything(env, msgs, origin))
  {
    if msgs == [] {
    } else {
      var init, last := msgs[..|msgs| - 1], msgs[|msgs| - 1];
      MirrorIsLast256(env, init, origin);
      NotedUnique(env, Run(env, init), Everything(env, init, origin), origin, last);
      NotedLast256(env, Run(env, init), Everything(env, init, origin), origin, last);
    }
  }

  // ---------- what is announced ----------

  /** Opening, replying and custom actions leave guard and mirror as they were. */
  lemma OtherActionsTouchNothing(env: Env, msgs: seq<Message>, key: Key, action: Action)
    requires action != DismissAction
    ensures Run(env, msgs + [ActionInvoked(key.0, key.1, action)]) == Run(env, msgs)
  {
    RunSnoc(env, msgs, ActionInvoked(key.0, key.1, action));
  }

  /** What a message other than a post announces: its own key or origin, and for an action what was done. */
  function Announced(msg: Message): seq<Event> {
    match msg
    case Post(_) => []
    case Dismiss(origin, id) => [WasDismissed((origin, id))]
    case ClearAll(origin) => [ClearedAll(origin)]
    case ActionInvoked(origin, id, action) => [ActionTaken((origin, id), action)]
  }

  function Announcements(msgs: seq<Message>): seq<Event> {
    if msgs == [] then [] else Announcements(msgs[..|msgs| - 1]) + Announced(msgs[|msgs| - 1])
  }

  function NotOfPosts(events: seq<Event>): seq<Event> {
    if events == [] then []
    else
      var last := events[|events| - 1];
      NotOfPosts(events[..|events| - 1]) + (if last.Received? || last.PolicyBlocked? then [] else [last])
  }

  lemma OneAnnouncement(env: Env, s: Engine, msg: Message, before: seq<Event>)
    ensures var e := Emitted(env, s, msg);
            NotOfPosts(before + (if e.Some? then [e.value] else [])) == NotOfPosts(before) + Announced(msg)
  {
    var e := Emitted(env, s, msg);
    if e.Some? {
      assert (before + [e.value])[..|before|] == before;
    } else {
      assert before + [] == before;
    }
  }

  /** In every run, whatever the state, every dismissal, clear-all and action is announced, once, in order and for the
      key or origin it names. */
  lemma {:induction false} EverythingAnnounced(env: Env, msgs: seq<Message>)
    ensures NotOfPosts(Events(env, EMPTY_ENGINE, msgs)) == Announcements(msgs)
  {
    if msgs == [] {
    } else {
      var init, last := msgs[..|msgs| - 1], msgs[|msgs| - 1];
      EverythingAnnounced(env, init);
      OneAnnouncement(env, RunFrom(env, EMPTY_ENGINE, init), last, Events(env, EMPTY_ENGINE, init));
    }
  }
}
