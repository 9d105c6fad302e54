/**
 Notification mirroring (crates/bridge-notifications/src/engine.rs): the guard and the per-origin buckets
 driven by the four kinds of message.
 */
module NotificationEngine {
  import opened Common
  import opened NotificationGuards
  import Utf8

  datatype Entry = Entry(
    origin: NodeId, sequence: nat, notificationId: string, appId: string,
    title: Bytes, text: Bytes, state: State)

  datatype Action = DismissAction | Open | Reply(text: string) | Custom(name: string, key: string)

  datatype Message =
    | Post(entry: Entry)
    | Dismiss(origin: NodeId, notificationId: string)
    | ActionInvoked(origin: NodeId, notificationId: string, action: Action)
    | ClearAll(origin: NodeId)

  datatype Event =
    | Received(entry: Entry)
    | WasDismissed(key: Key)
    | ClearedAll(origin: NodeId)
    | ActionTaken(key: Key, action: Action)
    | PolicyBlocked(key: Key)

  /** The content hash and the privacy policy. */
  datatype Env = Env(hashOf: Entry -> Hash, blocks: Entry -> bool)

  const BUCKET_CAPACITY: nat := 256

  datatype Engine = Engine(guard: Guard, active: map<NodeId, seq<Entry>>)

  const EMPTY_ENGINE: Engine := Engine(EMPTY_GUARD, map[])

  function KeyOf(e: Entry): Key {
    (e.origin, e.notificationId)
  }

  function EnforceSizeLimits(e: Entry): Entry {
    e.(title := Utf8.Truncated(e.title, 256), text := Utf8.Truncated(e.text, 4096))
  }

  /** Title and text become the longest prefixes of whole characters within 256 and 4096 bytes; the rest is kept. */
  lemma LimitsKept(e: Entry)
    requires Utf8.Valid(e.title) && Utf8.Valid(e.text)
    ensures var e' := EnforceSizeLimits(e);
            && e' == e.(title := e'.title, text := e'.text)
            && Utf8.Valid(e'.title) && e'.title <= e.title && |e'.title| <= 256
            && (forall j :: |e'.title| < j <= Min(256, |e.title|) ==> !Utf8.Valid(e.title[..j]))
            && Utf8.Valid(e'.text) && e'.text <= e.text && |e'.text| <= 4096
            && (forall j :: |e'.text| < j <= Min(4096, |e.text|) ==> !Utf8.Valid(e.text[..j]))
  {
    Utf8.TruncatedIsLongest(e.title, 256);
    Utf8.TruncatedIsLongest(e.text, 4096);
  }

  // ---------- buckets ----------

  function Bucket(s: Engine, origin: NodeId): seq<Entry> {
    if origin in s.active then s.active[origin] else []
  }

  /** `retain(|e| e.notification_id != id)`. */
  function WithoutId(bucket: seq<Entry>, id: string): seq<Entry> {
    if bucket == [] then []
    else
      var rest := WithoutId(bucket[..|bucket| - 1], id);
      if bucket[|bucket| - 1].notificationId == id then rest else rest + [bucket[|bucket| - 1]]
  }

  function Pushed(bucket: seq<Entry>, e: Entry): seq<Entry> {
    var b := WithoutId(bucket, e.notificationId) + [e];
    if |b| > BUCKET_CAPACITY then b[1..] else b
  }

  function MarkIf(e: Entry, hit: bool): Entry {
    if hit then e.(state := Dismissed) else e
  }

  function MarkId(bucket: seq<Entry>, id: string): seq<Entry> {
    seq(|bucket|, i requires 0 <= i < |bucket| => MarkIf(bucket[i], bucket[i].notificationId == id))
  }

  function MarkAll(bucket: seq<Entry>): seq<Entry> {
    seq(|bucket|, i requires 0 <= i < |bucket| => MarkIf(bucket[i], true))
  }

  // ---------- messages ----------

  function HandleDismiss(s: Engine, key: Key): Engine {
    Engine(RecordDismissed(s.guard, key),
           if key.0 in s.active then s.active[key.0 := MarkId(s.active[key.0], key.1)] else s.active)
  }

  function HandleClearAll(s: Engine, origin: NodeId): Engine {
    Engine(RecordClearAll(s.guard, origin),
           if origin in s.active then s.active[origin := MarkAll(s.active[origin])] else s.active)
  }

  /** A post is delivered if policy lets it through, its content is new and its id has not been dismissed. */
  predicate Delivers(env: Env, s: Engine, e: Entry) {
    !env.blocks(e) && !IsDuplicate(s.guard, KeyOf(e), env.hashOf(e)) && !IsDismissed(s.guard, KeyOf(e))
  }

  function Deliver(env: Env, s: Engine, e: Entry): Engine {
    Engine(RecordPosted(s.guard, KeyOf(e), env.hashOf(e)),
           s.active[e.origin := Pushed(Bucket(s, e.origin), e)])
  }

  function NextState(env: Env, s: Engine, msg: Message): Engine {
    match msg
    case Post(wire) =>
      if Delivers(env, s, EnforceSizeLimits(wire)) then Deliver(env, s, EnforceSizeLimits(wire)) else s
    case Dismiss(origin, id) => HandleDismiss(s, (origin, id))
    case ClearAll(origin) => HandleClearAll(s, origin)
    case ActionInvoked(origin, id, action) =>
      if action.DismissAction? then HandleDismiss(s, (origin, id)) else s
  }

  function Emitted(env: Env, s: Engine, msg: Message): Option<Event> {
    match msg
    case Post(wire) =>
      var e := EnforceSizeLimits(wire);
      if env.blocks(e) then Some(PolicyBlocked(KeyOf(e)))
      else if Delivers(env, s, e) then Some(Received(e)) else None
    case Dismiss(origin, id) => Some(WasDismissed((origin, id)))
    case ClearAll(origin) => Some(ClearedAll(origin))
    case ActionInvoked(origin, id, action) => Some(ActionTaken((origin, id), action))
  }

  /** `active_notifications`. */
  function ActiveOnly(bucket: seq<Entry>): seq<Entry> {
    if bucket == [] then []
    else
      var rest := ActiveOnly(bucket[..|bucket| - 1]);
      if bucket[|bucket| - 1].state == Active then rest + [bucket[|bucket| - 1]] else rest
  }

  // ---------- the object ----------

  method MarkInPlace(bucket: seq<Entry>, id: string) returns (marked: seq<Entry>)
    ensures marked == MarkId(bucket, id)
  {
    marked := bucket;
    for i := 0 to |bucket|
      invariant |marked| == |bucket|
      invariant forall j :: 0 <= j < i ==> marked[j] == MarkIf(bucket[j], bucket[j].notificationId == id)
      invariant forall j :: i <= j < |bucket| ==> marked[j] == bucket[j]
    {
      if marked[i].notificationId == id {
        marked := marked[i := marked[i].(state := Dismissed)];
      }
    }
  }

  method MarkAllInPlace(bucket: seq<Entry>) returns (marked: seq<Entry>)
    ensures marked == MarkAll(bucket)
  {
    marked := bucket;
    for i := 0 to |bucket|
      invariant |marked| == |bucket|
      invariant forall j :: 0 <= j < i ==> marked[j] == MarkIf(bucket[j], true)
      invariant forall j :: i <= j < |bucket| ==> marked[j] == bucket[j]
    {
      marked := marked[i := marked[i].(state := Dismissed)];
    }
  }

  class NotificationSyncEngine {
    const env: Env
    const guard: NotificationGuard
    var active: map<NodeId, seq<Entry>>

    ghost function View(): Engine
      reads this, guard
    {
      Engine(guard.View(), active)
    }

    constructor (env: Env)
      ensures View() == EMPTY_ENGINE && this.env == env && fresh(guard)
    {
      this.env := env;
      this.guard := new NotificationGuard();
      this.active := map[];
    }

    method DismissKey(key: Key)
      modifies this, guard
      ensures View() == HandleDismiss(old(View()), key)
    {
      guard.Dismiss(key);
      if key.0 in active {
        var marked := MarkInPlace(active[key.0], key.1);
        active := active[key.0 := marked];
      }
    }

    method HandleMessage(msg: Message) returns (event: Option<Event>)
      modifies this, guard
      ensures View() == NextState(env, old(View()), msg)
      ensures event == Emitted(env, old(View()), msg)
    {
      match msg
      case Post(wire) =>
        var e := EnforceSizeLimits(wire);
        var key, hash := KeyOf(e), env.hashOf(e);
        if env.blocks(e) {
          return Some(PolicyBlocked(key));
        }
        if key in guard.seen && guard.seen[key] == hash {
          return None;
        }
        if key in guard.states && guard.states[key] == Dismissed {
          return None;
        }
        guard.Post(key, hash);
        var bucket := if e.origin in active then active[e.origin] else [];
        bucket := WithoutId(bucket, e.notificationId) + [e];
        if |bucket| > BUCKET_CAPACITY {
          bucket := bucket[1..];
        }
        active := active[e.origin := bucket];
        return Some(Received(e));
      case Dismiss(origin, id) =>
        DismissKey((origin, id));
        return Some(WasDismissed((origin, id)));
      case ClearAll(origin) =>
        guard.ClearAll(origin);
        if origin in active {
          var marked := MarkAllInPlace(active[origin]);
          active := active[origin := marked];
        }
        return Some(ClearedAll(origin));
      case ActionInvoked(origin, id, action) =>
        if action.DismissAction? {
          DismissKey((origin, id));
        }
        return Some(ActionTaken((origin, id), action));
    }

    method ActiveNotifications(origin: NodeId) returns (entries: seq<Entry>)
      ensures entries == ActiveOnly(Bucket(View(), origin))
    {
      entries := [];
      if origin in active {
        var bucket := active[origin];
        for i := 0 to |bucket|
          invariant entries == ActiveOnly(bucket[..i])
        {
          assert bucket[..i + 1][..i] == bucket[..i];
          if bucket[i].state == Active {
            entries := entries + [bucket[i]];
          }
        }
        assert bucket[..|bucket|] == bucket;
      }
    }
  }
}
