/**
 Discovery workers and their events (crates/bridge-discovery/src/udp.rs, crates/bridge-discovery/src/service.rs).

 A worker changes the directory under its lock and sends the events afterwards. One worker alone keeps its
 event log in step with the directory. Two workers sharing the directory keep the balance of events in every run,
 and the log in step about a peer exactly as long as they never both have something unsent to say about it.
 */
module Discovery {
  import opened Common
  import opened PeerDirectories

  datatype Event = PeerDiscovered(id: NodeId) | PeerUpdated(id: NodeId) | PeerLost(id: NodeId) | PeerExpired(id: NodeId)

  // ---------- reading an event log ----------

  /** The set of peers a listener believes in after the events. */
  function Replay(events: seq<Event>): set<NodeId> {
    if events == [] then {}
    else
      var before, e := Replay(events[..|events| - 1]), events[|events| - 1];
      match e
      case PeerDiscovered(id) => before + {id}
      case PeerUpdated(_) => before
      case PeerLost(id) => before - {id}
      case PeerExpired(id) => before - {id}
  }

  function Delta(e: Event, id: NodeId): int {
    if e.id != id || e.PeerUpdated? then 0 else if e.PeerDiscovered? then 1 else -1
  }

  /** Discoveries minus losses and expiries of one peer. */
  function Balance(events: seq<Event>, id: NodeId): int {
    if events == [] then 0 else Balance(events[..|events| - 1], id) + Delta(events[|events| - 1], id)
  }

  lemma {:induction false} BalanceConcat(a: seq<Event>, b: seq<Event>, id: NodeId)
    ensures Balance(a + b, id) == Balance(a, id) + Balance(b, id)
  {
    if b == [] {
      assert a + b == a;
    } else {
      assert (a + b)[..|a + b| - 1] == a + b[..|b| - 1];
      BalanceConcat(a, b[..|b| - 1], id);
    }
  }

  function Expiries(order: seq<NodeId>): seq<Event> {
    seq(|order|, i requires 0 <= i < |order| => PeerExpired(order[i]))
  }

  lemma ExpiriesSnoc(order: seq<NodeId>, i: nat)
    requires i < |order|
    ensures Expiries(order[..i + 1]) == Expiries(order[..i]) + [PeerExpired(order[i])]
  {
  }

  lemma {:induction false} BalanceOfExpiries(order: seq<NodeId>, id: NodeId)
    requires NoDuplicates(order)
    ensures Balance(Expiries(order), id) == if id in order then -1 else 0
  {
    if order == [] {
    } else {
      var init, last := order[..|order| - 1], order[|order| - 1];
      assert Expiries(order)[..|order| - 1] == Expiries(init);
      BalanceOfExpiries(init, id);
      assert order == init + [last];
    }
  }

  lemma {:induction false} ReplayExpiries(events: seq<Event>, order: seq<NodeId>)
    ensures Replay(events + Expiries(order)) == Replay(events) - set id | id in order
  {
    if order == [] {
      assert events + Expiries(order) == events;
    } else {
      var init, last := order[..|order| - 1], order[|order| - 1];
      ReplayExpiries(events, init);
      assert (events + Expiries(order))[..|events| + |order| - 1] == events + Expiries(init);
      assert order == init + [last];
    }
  }

  // ---------- one worker ----------

  /** The events of an announcement, and of a departure, that finds the directory as `peers`. */
  function Announced(peers: Peers, peer: Peer): seq<Event> {
    [if peer.nodeId in peers then PeerUpdated(peer.nodeId) else PeerDiscovered(peer.nodeId)]
  }

  function Departed(peers: Peers, id: NodeId): seq<Event> {
    if id in peers then [PeerLost(id)] else []
  }

  /** A worker alone on its directory: each handled input changes the directory and logs the events. */
  class Worker {
    const directory: PeerDirectory
    const ttl: nat
    var localId: Option<NodeId>
    /** mDNS service names, to resolve removals. */
    var names: map<string, NodeId>
    var log: seq<Event>

    /** Replaying the log gives the directory's keys. */
    ghost predicate InStep()
      reads this, directory
    {
      Replay(log) == directory.peers.Keys
    }

    constructor (directory: PeerDirectory, ttl: nat)
      requires directory.peers == map[]
      ensures this.directory == directory && this.ttl == ttl && log == [] && names == map[] && localId == None
      ensures InStep()
    {
      this.directory := directory;
      this.ttl := ttl;
      this.localId := None;
      this.names := map[];
      this.log := [];
    }

    method Emit(e: Event)
      modifies this`log
      ensures log == old(log) + [e]
      ensures Replay(log) == match e
        case PeerDiscovered(id) => Replay(old(log)) + {id}
        case PeerUpdated(_) => Replay(old(log))
        case PeerLost(id) => Replay(old(log)) - {id}
        case PeerExpired(id) => Replay(old(log)) - {id}
    {
      log := log + [e];
      assert log[..|log| - 1] == old(log);
    }

    /** The announcement arm of the UDP worker. */
    method OnAnnouncement(peer: Peer, now: int)
      requires InStep()
      modifies this`log, directory
      ensures InStep()
      ensures localId == Some(peer.nodeId) ==> directory.peers == old(directory.peers) && log == old(log)
      ensures localId != Some(peer.nodeId) ==>
                && directory.peers == Inserted(old(directory.peers), peer, now)
                && log == old(log) + Announced(old(directory.peers), peer)
    {
      if localId == Some(peer.nodeId) {
        return;
      }
      var stored, isNew := directory.InsertOrUpdate(peer, now);
      assert directory.peers.Keys == old(directory.peers).Keys + {peer.nodeId};
      if isNew {
        Emit(PeerDiscovered(peer.nodeId));
      } else {
        Emit(PeerUpdated(peer.nodeId));
      }
    }

    /** The goodbye arm of the UDP worker. */
    method OnGoodbye(id: NodeId)
      requires InStep()
      modifies this`log, directory
      ensures InStep()
      ensures localId == Some(id) ==> directory.peers == old(directory.peers) && log == old(log)
      ensures localId != Some(id) ==>
                && directory.peers == old(directory.peers) - {id}
                && log == old(log) + Departed(old(directory.peers), id)
    {
      if localId == Some(id) {
        return;
      }
      var removed := directory.Remove(id);
      if removed.Some? {
        Emit(PeerLost(id));
      } else {
        assert old(directory.peers) - {id} == old(directory.peers);
      }
    }

    /** The resolved arm of the mDNS worker. */
    method OnResolved(fullname: string, peer: Peer, now: int)
      requires InStep()
      modifies this`log, this`names, directory
      ensures InStep()
      ensures localId == Some(peer.nodeId) ==>
                directory.peers == old(directory.peers) && log == old(log) && names == old(names)
      ensures localId != Some(peer.nodeId) ==>
                && names == old(names)[fullname := peer.nodeId]
                && directory.peers == Inserted(old(directory.peers), peer, now)
                && log == old(log) + Announced(old(directory.peers), peer)
    {
      if localId == Some(peer.nodeId) {
        return;
      }
      names := names[fullname := peer.nodeId];
      OnAnnouncement(peer, now);
    }

    /** The removed arm of the mDNS worker: the name must still be known and the peer still present. */
    method OnRemoved(fullname: string)
      requires InStep()
      modifies this`log, this`names, directory
      ensures InStep()
      ensures names == old(names) - {fullname}
      ensures if fullname in old(names)
              then directory.peers == old(directory.peers) - {old(names)[fullname]}
                   && log == old(log) + Departed(old(directory.peers), old(names)[fullname])
              else directory.peers == old(directory.peers) && log == old(log)
    {
      if fullname in names {
        var id := names[fullname];
        names := names - {fullname};
        var removed := directory.Remove(id);
        if removed.Some? {
          Emit(PeerLost(id));
        } else {
          assert old(directory.peers) - {id} == old(directory.peers);
        }
      } else {
        assert names - {fullname} == names;
      }
    }

    /** The prune arm of either worker. */
    method OnPrune(now: int) returns (ghost order: seq<NodeId>)
      requires InStep()
      modifies this`log, directory
      ensures InStep()
      ensures directory.peers == Pruned(old(directory.peers), ttl, now)
      ensures ListsExpired(old(directory.peers), ttl, now, order)
      ensures log == old(log) + Expiries(order)
    {
      var expired := directory.PruneExpired(ttl, now);
      order := expired;
      for i := 0 to |expired|
        invariant log == old(log) + Expiries(expired[..i])
        modifies this`log
      {
        ExpiriesSnoc(expired, i);
        log := log + [PeerExpired(expired[i])];
      }
      assert expired[..|expired|] == expired;
      ReplayExpiries(old(log), expired);
    }
  }

  // ---------- two workers ----------

  /** Directory, events changed but not yet sent by each worker, and the log both send to. */
  datatype System = System(peers: Peers, udp: seq<Event>, mdns: seq<Event>, names: map<string, NodeId>, log: seq<Event>)

  const IDLE: System := System(map[], [], [], map[], [])

  datatype Step =
    | UdpAnnouncement(peer: Peer, now: int)
    | UdpGoodbye(id: NodeId)
    | UdpPrune(ttl: nat, now: int, order: seq<NodeId>)
    | UdpSend
    | MdnsResolved(fullname: string, peer: Peer, now: int)
    | MdnsRemoved(fullname: string)
    | MdnsPrune(ttl: nat, now: int, order: seq<NodeId>)
    | MdnsSend

  /** A worker takes its next input only after sending everything from the previous one. */
  ghost predicate Enabled(s: System, step: Step) {
    match step
    case UdpSend => s.udp != []
    case MdnsSend => s.mdns != []
    case UdpPrune(ttl, now, order) => s.udp == [] && ListsExpired(s.peers, ttl, now, order)
    case MdnsPrune(ttl, now, order) => s.mdns == [] && ListsExpired(s.peers, ttl, now, order)
    case UdpAnnouncement(_, _) => s.udp == []
    case UdpGoodbye(_) => s.udp == []
    case MdnsResolved(_, _, _) => s.mdns == []
    case MdnsRemoved(_) => s.mdns == []
  }

  function After(s: System, step: Step): System {
    match step
    case UdpAnnouncement(peer, now) =>
      s.(peers := Inserted(s.peers, peer, now), udp := Announced(s.peers, peer))
    case UdpGoodbye(id) => s.(peers := s.peers - {id}, udp := Departed(s.peers, id))
    case UdpPrune(ttl, now, order) => s.(peers := Pruned(s.peers, ttl, now), udp := Expiries(order))
    case UdpSend => if s.udp == [] then s else s.(udp := s.udp[1..], log := s.log + [s.udp[0]])
    case MdnsResolved(fullname, peer, now) =>
      s.(peers := Inserted(s.peers, peer, now), mdns := Announced(s.peers, peer),
         names := s.names[fullname := peer.nodeId])
    case MdnsRemoved(fullname) =>
      if fullname !in s.names then s
      else s.(peers := s.peers - {s.names[fullname]}, mdns := Departed(s.peers, s.names[fullname]),
              names := s.names - {fullname})
    case MdnsPrune(ttl, now, order) => s.(peers := Pruned(s.peers, ttl, now), mdns := Expiries(order))
    case MdnsSend => if s.mdns == [] then s else s.(mdns := s.mdns[1..], log := s.log + [s.mdns[0]])
  }

  function Run(steps: seq<Step>): System {
    if steps == [] then IDLE else After(Run(steps[..|steps| - 1]), steps[|steps| - 1])
  }

  ghost predicate Legal(steps: seq<Step>) {
    forall i :: 0 <= i < |steps| ==> Enabled(Run(steps[..i]), steps[i])
  }

  lemma LegalInit(steps: seq<Step>)
    requires Legal(steps) && steps != []
    ensures Legal(steps[..|steps| - 1]) && Enabled(Run(steps[..|steps| - 1]), steps[|steps| - 1])
  {
    var init := steps[..|steps| - 1];
    forall i | 0 <= i < |init| ensures Enabled(Run(init[..i]), init[i]) {
      assert init[..i] == steps[..i];
    }
  }

  /** Everything announced about a peer, sent or still to be sent. */
  function NetBalance(s: System, id: NodeId): int {
    Balance(s.log, id) + Balance(s.udp, id) + Balance(s.mdns, id)
  }

  predicate Balanced(s: System, id: NodeId) {
    NetBalance(s, id) == if id in s.peers then 1 else 0
  }

  lemma SingleBalance(e: Event, id: NodeId)
    ensures Balance([e], id) == Delta(e, id)
  {
  }

  lemma SendKeepsBalance(log: seq<Event>, queue: seq<Event>, id: NodeId)
    requires queue != []
    ensures Balance(log + [queue[0]], id) + Balance(queue[1..], id) == Balance(log, id) + Balance(queue, id)
  {
    BalanceConcat(log, [queue[0]], id);
    BalanceConcat([queue[0]], queue[1..], id);
    assert [queue[0]] + queue[1..] == queue;
  }

  lemma StepKeepsBalance(s: System, step: Step, id: NodeId)
    requires Enabled(s, step) && Balanced(s, id)
    ensures Balanced(After(s, step), id)
  {
    match step
    case UdpAnnouncement(peer, _) => SingleBalance(Announced(s.peers, peer)[0], id);
    case MdnsResolved(_, peer, _) => SingleBalance(Announced(s.peers, peer)[0], id);
    case UdpGoodbye(gone) => SingleBalance(PeerLost(gone), id);
    case MdnsRemoved(fullname) =>
      if fullname in s.names {
        SingleBalance(PeerLost(s.names[fullname]), id);
      }
    case UdpPrune(_, _, order) => BalanceOfExpiries(order, id);
    case MdnsPrune(_, _, order) => BalanceOfExpiries(order, id);
    case UdpSend => SendKeepsBalance(s.log, s.udp, id);
    case MdnsSend => SendKeepsBalance(s.log, s.mdns, id);
  }

  /** In every interleaving of the two workers, for every peer, discoveries minus losses and expiries,
      counting those not yet sent, is 1 if the peer is in the directory and 0 if not. */
  lemma {:induction false} EventsBalanceDirectory(steps: seq<Step>, id: NodeId)
    requires Legal(steps)
    ensures Balanced(Run(steps), id)
  {
    if steps == [] {
    } else {
      var init := steps[..|steps| - 1];
      LegalInit(steps);
      EventsBalanceDirectory(init, id);
      StepKeepsBalance(Run(init), steps[|steps| - 1], id);
    }
  }

  lemma RunSnoc(steps: seq<Step>, step: Step)
    ensures Run(steps + [step]) == After(Run(steps), step)
  {
  }

  lemma LegalSnoc(steps: seq<Step>, step: Step)
    requires Legal(steps) && Enabled(Run(steps), step)
    ensures Legal(steps + [step])
  {
    var all := steps + [step];
    forall i | 0 <= i < |all| ensures Enabled(Run(all[..i]), all[i]) {
      assert all[..i] == steps[..i];
      assert steps[..|steps|] == steps;
    }
  }

  lemma Extended(steps: seq<Step>, step: Step, after: System) returns (all: seq<Step>)
    requires Legal(steps) && Enabled(Run(steps), step) && After(Run(steps), step) == after
    ensures Legal(all) && Run(all) == after
  {
    all := steps + [step];
    LegalSnoc(steps, step);
    RunSnoc(steps, step);
  }

  // ---------- when the log of two workers stays in step ----------

  predicate Concerns(e: Event, id: NodeId) {
    e.id == id && !e.PeerUpdated?
  }

  /** The last word of the events about a peer: present, gone, or nothing said. */
  function LastWord(events: seq<Event>, id: NodeId): Option<bool> {
    if events == [] then None
    else if Concerns(events[|events| - 1], id) then Some(events[|events| - 1].PeerDiscovered?)
    else LastWord(events[..|events| - 1], id)
  }

  /** A listener believes in a peer exactly if the last word about it was a discovery. */
  lemma {:induction false} ReplayIsLastWord(events: seq<Event>, id: NodeId)
    ensures id in Replay(events) <==> LastWord(events, id) == Some(true)
  {
    if events == [] {
    } else {
      ReplayIsLastWord(events[..|events| - 1], id);
    }
  }

  lemma {:induction false} LastWordConcat(a: seq<Event>, b: seq<Event>, id: NodeId)
    ensures LastWord(a + b, id) == if LastWord(b, id).Some? then LastWord(b, id) else LastWord(a, id)
  {
    if b == [] {
      assert a + b == a;
    } else {
      assert (a + b)[..|a + b| - 1] == a + b[..|b| - 1];
      LastWordConcat(a, b[..|b| - 1], id);
    }
  }

  lemma LastWordOfOne(e: Event, id: NodeId)
    ensures LastWord([e], id) == if Concerns(e, id) then Some(e.PeerDiscovered?) else None
  {
    assert LastWord([e][..0], id) == None;
  }

  lemma {:induction false} LastWordOfExpiries(order: seq<NodeId>, id: NodeId)
    ensures LastWord(Expiries(order), id) == if id in order then Some(false) else None
  {
    if order == [] {
    } else {
      var init, last := order[..|order| - 1], order[|order| - 1];
      assert Expiries(order)[..|order| - 1] == Expiries(init);
      LastWordOfExpiries(init, id);
      assert order == init + [last];
    }
  }

  /** The two workers do not both have something unsent to say about the peer. */
  predicate Apart(s: System, id: NodeId) {
    LastWord(s.udp, id) == None || LastWord(s.mdns, id) == None
  }

  /** What a listener will believe once everything pending has been sent, if the queues do not contend. */
  function Outlook(s: System, id: NodeId): Option<bool> {
    if LastWord(s.udp, id).Some? then LastWord(s.udp, id)
    else if LastWord(s.mdns, id).Some? then LastWord(s.mdns, id)
    else LastWord(s.log, id)
  }

  predicate OnCourse(s: System, id: NodeId) {
    Apart(s, id) && (Outlook(s, id) == Some(true) <==> id in s.peers)
  }

  predicate IsSend(step: Step) {
    step.UdpSend? || step.MdnsSend?
  }

  predicate IsUdp(step: Step) {
    step.UdpAnnouncement? || step.UdpGoodbye? || step.UdpPrune? || step.UdpSend?
  }

  /** What a change from `peers` to `peers'` gives its worker to say about the peer. */
  function News(peers: Peers, peers': Peers, id: NodeId): Option<bool> {
    if (id in peers) == (id in peers') then None else Some(id in peers')
  }

  lemma AnnouncedNews(peers: Peers, peer: Peer, now: int, id: NodeId)
    ensures LastWord(Announced(peers, peer), id) == News(peers, Inserted(peers, peer, now), id)
  {
    LastWordOfOne(Announced(peers, peer)[0], id);
  }

  lemma DepartedNews(peers: Peers, gone: NodeId, id: NodeId)
    ensures LastWord(Departed(peers, gone), id) == News(peers, peers - {gone}, id)
  {
    LastWordOfOne(PeerLost(gone), id);
  }

  lemma PrunedNews(peers: Peers, ttl: nat, now: int, order: seq<NodeId>, id: NodeId)
    requires ListsExpired(peers, ttl, now, order)
    ensures LastWord(Expiries(order), id) == News(peers, Pruned(peers, ttl, now), id)
  {
    LastWordOfExpiries(order, id);
  }

  lemma UdpChange(s: System, step: Step, id: NodeId)
    requires Enabled(s, step) && IsUdp(step) && !IsSend(step)
    ensures var s' := After(s, step);
            && s.udp == [] && s'.mdns == s.mdns && s'.log == s.log
            && LastWord(s'.udp, id) == News(s.peers, s'.peers, id)
  {
    match step
    case UdpAnnouncement(peer, now) => AnnouncedNews(s.peers, peer, now, id);
    case UdpGoodbye(gone) => DepartedNews(s.peers, gone, id);
    case UdpPrune(ttl, now, order) => PrunedNews(s.peers, ttl, now, order, id);
  }

  lemma MdnsChange(s: System, step: Step, id: NodeId)
    requires Enabled(s, step) && !IsUdp(step) && !IsSend(step)
    ensures var s' := After(s, step);
            && s.mdns == [] && s'.udp == s.udp && s'.log == s.log
            && LastWord(s'.mdns, id) == News(s.peers, s'.peers, id)
  {
    match step
    case MdnsResolved(_, peer, now) => AnnouncedNews(s.peers, peer, now, id);
    case MdnsRemoved(fullname) =>
      if fullname in s.names {
        DepartedNews(s.peers, s.names[fullname], id);
      }
    case MdnsPrune(ttl, now, order) => PrunedNews(s.peers, ttl, now, order, id);
  }

  /** Sending the head of a queue moves what it says from the queue to the log. */
  lemma SendMovesWord(log: seq<Event>, queue: seq<Event>, id: NodeId)
    requires queue != []
    ensures LastWord(queue, id).None? ==>
              LastWord(queue[1..], id) == None && LastWord(log + [queue[0]], id) == LastWord(log, id)
    ensures LastWord(queue, id).Some? ==>
              || LastWord(queue[1..], id) == LastWord(queue, id)
              || (LastWord(queue[1..], id) == None && LastWord(log + [queue[0]], id) == LastWord(queue, id))
  {
    LastWordConcat([queue[0]], queue[1..], id);
    assert [queue[0]] + queue[1..] == queue;
    LastWordConcat(log, [queue[0]], id);
  }

  /** A step from a state on course stays on course unless it makes the two workers contend. */
  lemma StepKeepsCourse(s: System, step: Step, id: NodeId)
    requires Enabled(s, step) && OnCourse(s, id) && Apart(After(s, step), id)
    ensures OnCourse(After(s, step), id)
  {
    if step.UdpSend? {
      SendMovesWord(s.log, s.udp, id);
    } else if step.MdnsSend? {
      SendMovesWord(s.log, s.mdns, id);
    } else if IsUdp(step) {
      UdpChange(s, step, id);
    } else {
      MdnsChange(s, step, id);
    }
  }

  lemma SendKeepsApart(s: System, step: Step, id: NodeId)
    requires Enabled(s, step) && IsSend(step) && Apart(s, id)
    ensures Apart(After(s, step), id)
  {
    if step.UdpSend? {
      SendMovesWord(s.log, s.udp, id);
    } else {
      SendMovesWord(s.log, s.mdns, id);
    }
  }

  /** Sending pending events in the given order, `true` for the UDP worker; an idle worker sends nothing. */
  function Sent(s: System, order: seq<bool>): System
    decreases |order|
  {
    if order == [] then s else Sent(After(s, if order[0] then UdpSend else MdnsSend), order[1..])
  }

  /** Nothing is pending, and the log tells the truth about the peer. */
  predicate LogIsRight(s: System, id: NodeId) {
    s.udp == [] && s.mdns == [] && (id in Replay(s.log) <==> id in s.peers)
  }

  /** In whatever order the pending events are sent, the log ends up right about the peer. */
  ghost predicate SettlesRight(s: System, id: NodeId) {
    forall order :: Sent(s, order).udp == [] && Sent(s, order).mdns == [] ==> LogIsRight(Sent(s, order), id)
  }

  lemma {:induction false} SendingKeepsCourse(s: System, order: seq<bool>, id: NodeId)
    requires OnCourse(s, id)
    ensures OnCourse(Sent(s, order), id)
    decreases |order|
  {
    if order == [] {
    } else {
      var step := if order[0] then UdpSend else MdnsSend;
      if Enabled(s, step) {
        SendKeepsApart(s, step, id);
        StepKeepsCourse(s, step, id);
      }
      SendingKeepsCourse(After(s, step), order[1..], id);
    }
  }

  lemma OnCourseSettlesRight(s: System, id: NodeId)
    requires OnCourse(s, id)
    ensures SettlesRight(s, id)
  {
    forall order | Sent(s, order).udp == [] && Sent(s, order).mdns == [] ensures LogIsRight(Sent(s, order), id) {
      SendingKeepsCourse(s, order, id);
      ReplayIsLastWord(Sent(s, order).log, id);
    }
  }

  /** One worker sends everything, then the other, which has the last word. */
  lemma {:induction false} UdpThenMdns(s: System) returns (order: seq<bool>)
    ensures Sent(s, order) == s.(udp := [], mdns := [], log := s.log + s.udp + s.mdns)
    decreases |s.udp| + |s.mdns|
  {
    if s.udp != [] {
      var rest := UdpThenMdns(After(s, UdpSend));
      order := [true] + rest;
      assert s.log + [s.udp[0]] + s.udp[1..] == s.log + s.udp;
    } else if s.mdns != [] {
      var rest := UdpThenMdns(After(s, MdnsSend));
      order := [false] + rest;
      assert s.log + [s.mdns[0]] + [] + s.mdns[1..] == s.log + [] + s.mdns;
    } else {
      order := [];
    }
  }

  lemma {:induction false} MdnsThenUdp(s: System) returns (order: seq<bool>)
    ensures Sent(s, order) == s.(udp := [], mdns := [], log := s.log + s.mdns + s.udp)
    decreases |s.udp| + |s.mdns|
  {
    if s.mdns != [] {
      var rest := MdnsThenUdp(After(s, MdnsSend));
      order := [false] + rest;
      assert s.log + [s.mdns[0]] + s.mdns[1..] == s.log + s.mdns;
    } else if s.udp != [] {
      var rest := MdnsThenUdp(After(s, UdpSend));
      order := [true] + rest;
      assert s.log + [s.udp[0]] + [] + s.udp[1..] == s.log + [] + s.udp;
    } else {
      order := [];
    }
  }

  lemma OpposedMayMisorder(s: System, id: NodeId)
    requires !Apart(s, id) && LastWord(s.udp, id) != LastWord(s.mdns, id)
    ensures !SettlesRight(s, id)
  {
    var a := UdpThenMdns(s);
    LastWordConcat(s.log + s.udp, s.mdns, id);
    ReplayIsLastWord(s.log + s.udp + s.mdns, id);
    var b := MdnsThenUdp(s);
    LastWordConcat(s.log + s.mdns, s.udp, id);
    ReplayIsLastWord(s.log + s.mdns + s.udp, id);
    var atUdp, atMdns := LastWord(s.udp, id).value, LastWord(s.mdns, id).value;
    assert id in Replay(Sent(s, a).log) <==> atMdns;
    assert id in Replay(Sent(s, b).log) <==> atUdp;
    assert atUdp != atMdns;
    assert !LogIsRight(Sent(s, a), id) || !LogIsRight(Sent(s, b), id);
  }

  /** The step that makes the workers contend leaves them with opposite things to say. */
  lemma FirstContentionIsOpposed(s: System, step: Step, id: NodeId)
    requires Enabled(s, step) && OnCourse(s, id) && !Apart(After(s, step), id)
    ensures LastWord(After(s, step).udp, id) != LastWord(After(s, step).mdns, id)
  {
    assert !IsSend(step) by {
      if IsSend(step) {
        SendKeepsApart(s, step, id);
      }
    }
    if IsUdp(step) {
      UdpChange(s, step, id);
    } else {
      MdnsChange(s, step, id);
    }
  }

  /** At no point of the run did both workers have something unsent to say about the peer. */
  predicate NeverContended(steps: seq<Step>, id: NodeId) {
    (steps == [] || NeverContended(steps[..|steps| - 1], id)) && Apart(Run(steps), id)
  }

  /** At every point of the run, however the events then pending are sent, the log ends up right about the peer. */
  ghost predicate AlwaysSettlesRight(steps: seq<Step>, id: NodeId) {
    (steps == [] || AlwaysSettlesRight(steps[..|steps| - 1], id)) && SettlesRight(Run(steps), id)
  }

  /** While the workers never contend over a peer, what has been and will be sent about it is right. */
  lemma {:induction false} UncontendedIsOnCourse(steps: seq<Step>, id: NodeId)
    requires Legal(steps) && NeverContended(steps, id)
    ensures OnCourse(Run(steps), id)
  {
    if steps == [] {
    } else {
      var init := steps[..|steps| - 1];
      LegalInit(steps);
      UncontendedIsOnCourse(init, id);
      StepKeepsCourse(Run(init), steps[|steps| - 1], id);
    }
  }

  /** With two workers sharing the directory, the log is bound to end up right about a peer at every point of a run
      if and only if the two workers never both had something unsent to say about that peer. */
  lemma {:induction false} LogStaysInStepExactlyWhileApart(steps: seq<Step>, id: NodeId)
    requires Legal(steps)
    ensures AlwaysSettlesRight(steps, id) <==> NeverContended(steps, id)
  {
    if steps == [] {
      OnCourseSettlesRight(IDLE, id);
    } else {
      var init := steps[..|steps| - 1];
      LegalInit(steps);
      LogStaysInStepExactlyWhileApart(init, id);
      if NeverContended(init, id) {
        UncontendedIsOnCourse(init, id);
        if Apart(Run(steps), id) {
          StepKeepsCourse(Run(init), steps[|steps| - 1], id);
          OnCourseSettlesRight(Run(steps), id);
        } else {
          FirstContentionIsOpposed(Run(init), steps[|steps| - 1], id);
          OpposedMayMisorder(Run(steps), id);
        }
      }
    }
  }

  /** Of two contending workers the one that changed the directory last tells the truth. */
  predicate SomeoneIsRight(s: System, id: NodeId) {
    Apart(s, id) || LastWord(s.udp, id) == Some(id in s.peers) || LastWord(s.mdns, id) == Some(id in s.peers)
  }

  lemma StepKeepsSomeoneRight(s: System, step: Step, id: NodeId)
    requires Enabled(s, step) && SomeoneIsRight(s, id)
    ensures SomeoneIsRight(After(s, step), id)
  {
    if step.UdpSend? {
      SendMovesWord(s.log, s.udp, id);
    } else if step.MdnsSend? {
      SendMovesWord(s.log, s.mdns, id);
    } else if IsUdp(step) {
      UdpChange(s, step, id);
    } else {
      MdnsChange(s, step, id);
    }
  }

  lemma {:induction false} RunKeepsSomeoneRight(steps: seq<Step>, id: NodeId)
    requires Legal(steps)
    ensures SomeoneIsRight(Run(steps), id)
  {
    if steps == [] {
    } else {
      var init := steps[..|steps| - 1];
      LegalInit(steps);
      RunKeepsSomeoneRight(init, id);
      StepKeepsSomeoneRight(Run(init), steps[|steps| - 1], id);
    }
  }

  /** Both queues say `word` about the peer or nothing, and if nothing, the log has said it. */
  predicate Unanimous(s: System, id: NodeId, word: bool) {
    && LastWord(s.udp, id) in {None, Some(word)} && LastWord(s.mdns, id) in {None, Some(word)}
    && (LastWord(s.udp, id) == None && LastWord(s.mdns, id) == None ==> LastWord(s.log, id) == Some(word))
  }

  lemma {:induction false} SendingKeepsUnanimous(s: System, order: seq<bool>, id: NodeId, word: bool)
    requires Unanimous(s, id, word)
    ensures Unanimous(Sent(s, order), id, word) && Sent(s, order).peers == s.peers
    decreases |order|
  {
    if order == [] {
    } else {
      if order[0] && s.udp != [] {
        SendMovesWord(s.log, s.udp, id);
      } else if !order[0] && s.mdns != [] {
        SendMovesWord(s.log, s.mdns, id);
      }
      SendingKeepsUnanimous(After(s, if order[0] then UdpSend else MdnsSend), order[1..], id, word);
    }
  }

  /** Wherever in a run both workers have something unsent to say about a peer, every order of sending ends right if
      and only if they say the same. If they do not, one of the two orders ends wrong. */
  lemma ContentionHarmlessExactlyIfUnanimous(steps: seq<Step>, id: NodeId)
    requires Legal(steps) && !Apart(Run(steps), id)
    ensures SettlesRight(Run(steps), id) <==> LastWord(Run(steps).udp, id) == LastWord(Run(steps).mdns, id)
  {
    var s := Run(steps);
    if LastWord(s.udp, id) == LastWord(s.mdns, id) {
      RunKeepsSomeoneRight(steps, id);
      forall order | Sent(s, order).udp == [] && Sent(s, order).mdns == [] ensures LogIsRight(Sent(s, order), id) {
        SendingKeepsUnanimous(s, order, id, id in s.peers);
        ReplayIsLastWord(Sent(s, order).log, id);
      }
    } else {
      OpposedMayMisorder(s, id);
    }
  }

  /** Contending workers may say the same: here a peer was found, lost and found again, both workers have a discovery
      unsent, and the log is bound to end up right. */
  lemma ContendersMayAgree(peer: Peer, now: int) returns (steps: seq<Step>)
    ensures Legal(steps) && !Apart(Run(steps), peer.nodeId) && SettlesRight(Run(steps), peer.nodeId)
  {
    var id := peer.nodeId;
    var found, names := [PeerDiscovered(id)], map["n" := id];
    var stored := Inserted(map[], peer, now);
    steps := [];
    steps := Extended(steps, MdnsResolved("n", peer, now), System(stored, [], found, names, []));
    assert stored - {id} == map[];
    steps := Extended(steps, UdpGoodbye(id), System(map[], [PeerLost(id)], found, names, []));
    assert [PeerLost(id)][1..] == [] && [] + [PeerLost(id)] == [PeerLost(id)];
    steps := Extended(steps, UdpSend, System(map[], [], found, names, [PeerLost(id)]));
    steps := Extended(steps, UdpAnnouncement(peer, now), System(stored, found, found, names, [PeerLost(id)]));
    LastWordOfOne(found[0], id);
    ContentionHarmlessExactlyIfUnanimous(steps, id);
  }

  /** With two workers the order of the log is not the order of the changes: here both workers are idle, the
      directory is empty, and a listener that replays the log still believes in the peer. */
  lemma TwoWorkersMayMisorder(peer: Peer, now: int) returns (steps: seq<Step>)
    ensures Legal(steps)
    ensures var s := Run(steps);
            && s.udp == [] && s.mdns == [] && s.peers == map[]
            && s.log == [PeerLost(peer.nodeId), PeerDiscovered(peer.nodeId)]
            && Replay(s.log) == {peer.nodeId}
  {
    var id := peer.nodeId;
    var stored := Inserted(map[], peer, now);
    var s1 := System(stored, [], [PeerDiscovered(id)], map["n" := id], []);
    var s2 := System(map[], [PeerLost(id)], [PeerDiscovered(id)], map["n" := id], []);
    var s3 := System(map[], [], [PeerDiscovered(id)], map["n" := id], [PeerLost(id)]);
    steps := [];
    steps := Extended(steps, MdnsResolved("n", peer, now), s1);
    assert stored - {id} == map[];
    steps := Extended(steps, UdpGoodbye(id), s2);
    assert s2.udp[1..] == [] && s2.log + [s2.udp[0]] == [PeerLost(id)];
    steps := Extended(steps, UdpSend, s3);
    assert s3.mdns[1..] == [];
    steps := Extended(steps, MdnsSend, System(map[], [], [], map["n" := id], [PeerLost(id), PeerDiscovered(id)]));
    var log := Run(steps).log;
    assert log == [PeerLost(id), PeerDiscovered(id)];
    assert log[..1] == [PeerLost(id)] && log[..1][..0] == [];
    assert Replay(log[..1]) == {};
  }

  // ---------- what is reported ----------

  predicate Outdated(peer: Peer, ttl: nat, now: int) {
    now - peer.lastSeen > ttl
  }

  /** What a step owes the listeners: an announcement a discovery or an update, a departure of a peer that is there its
      loss, and a prune the expiry of every peer not seen for longer than `ttl`. */
  ghost function Due(s: System, step: Step): multiset<Event> {
    match step
    case UdpAnnouncement(peer, _) => DueForAnnouncement(s, peer.nodeId)
    case MdnsResolved(_, peer, _) => DueForAnnouncement(s, peer.nodeId)
    case UdpGoodbye(id) => DueForDeparture(s, id)
    case MdnsRemoved(fullname) => if fullname in s.names then DueForDeparture(s, s.names[fullname]) else multiset{}
    case UdpPrune(ttl, now, _) => DueForPrune(s, ttl, now)
    case MdnsPrune(ttl, now, _) => DueForPrune(s, ttl, now)
    case UdpSend => multiset{}
    case MdnsSend => multiset{}
  }

  ghost function DueForAnnouncement(s: System, id: NodeId): multiset<Event> {
    if id in s.peers then multiset{PeerUpdated(id)} else multiset{PeerDiscovered(id)}
  }

  ghost function DueForDeparture(s: System, id: NodeId): multiset<Event> {
    if id in s.peers then multiset{PeerLost(id)} else multiset{}
  }

  ghost function DueForPrune(s: System, ttl: nat, now: int): multiset<Event> {
    multiset(set id | id in s.peers && Outdated(s.peers[id], ttl, now) :: PeerExpired(id))
  }

  ghost function AllDue(steps: seq<Step>): multiset<Event> {
    if steps == [] then multiset{}
    else AllDue(steps[..|steps| - 1]) + Due(Run(steps[..|steps| - 1]), steps[|steps| - 1])
  }

  /** Everything sent or still to be sent. */
  function Reported(s: System): multiset<Event> {
    multiset(s.log) + multiset(s.udp) + multiset(s.mdns)
  }

  lemma OneMoreElement(s: set<Event>, e: Event)
    requires e !in s
    ensures multiset(s + {e}) == multiset(s) + multiset{e}
  {
  }

  lemma {:induction false} DistinctIsSet(events: seq<Event>)
    requires NoDuplicates(events)
    ensures multiset(events) == multiset(set e | e in events)
  {
    if events == [] {
    } else {
      var init, last := events[..|events| - 1], events[|events| - 1];
      DistinctIsSet(init);
      assert events == init + [last] && last !in init;
      OneMoreElement((set e | e in init), last);
      assert (set e | e in events) == (set e | e in init) + {last};
    }
  }

  lemma ExpiriesAreDue(s: System, ttl: nat, now: int, order: seq<NodeId>)
    requires ListsExpired(s.peers, ttl, now, order)
    ensures multiset(Expiries(order)) == DueForPrune(s, ttl, now)
  {
    var events := Expiries(order);
    DistinctIsSet(events);
    var due := set id | id in s.peers && Outdated(s.peers[id], ttl, now) :: PeerExpired(id);
    forall e ensures e in events <==> e in due {
      if e in due {
        var i :| 0 <= i < |order| && order[i] == e.id;
        assert events[i] == e;
      }
    }
    assert (set e | e in events) == due;
  }

  lemma QueueMoves(log: seq<Event>, queue: seq<Event>)
    requires queue != []
    ensures multiset(log + [queue[0]]) + multiset(queue[1..]) == multiset(log) + multiset(queue)
  {
    assert queue == [queue[0]] + queue[1..];
  }

  lemma AnnouncedIsDue(s: System, peer: Peer)
    ensures multiset(Announced(s.peers, peer)) == DueForAnnouncement(s, peer.nodeId)
  {
  }

  lemma DepartedIsDue(s: System, id: NodeId)
    ensures multiset(Departed(s.peers, id)) == DueForDeparture(s, id)
  {
  }

  lemma UdpReports(s: System, s': System, due: multiset<Event>)
    requires s.udp == [] && s'.log == s.log && s'.mdns == s.mdns && multiset(s'.udp) == due
    ensures Reported(s') == Reported(s) + due
  {
  }

  lemma MdnsReports(s: System, s': System, due: multiset<Event>)
    requires s.mdns == [] && s'.log == s.log && s'.udp == s.udp && multiset(s'.mdns) == due
    ensures Reported(s') == Reported(s) + due
  {
  }

  lemma UdpStepReports(s: System, step: Step)
    requires Enabled(s, step) && IsUdp(step) && !IsSend(step)
    ensures Reported(After(s, step)) == Reported(s) + Due(s, step)
  {
    match step {
      case UdpAnnouncement(peer, _) => AnnouncedIsDue(s, peer);
      case UdpGoodbye(id) => DepartedIsDue(s, id);
      case UdpPrune(ttl, now, order) => ExpiriesAreDue(s, ttl, now, order);
    }
    UdpReports(s, After(s, step), Due(s, step));
  }

  lemma MdnsStepReports(s: System, step: Step)
    requires Enabled(s, step) && !IsUdp(step) && !IsSend(step)
    ensures Reported(After(s, step)) == Reported(s) + Due(s, step)
  {
    match step {
      case MdnsResolved(_, peer, _) => AnnouncedIsDue(s, peer);
      case MdnsRemoved(fullname) =>
        if fullname in s.names {
          DepartedIsDue(s, s.names[fullname]);
        }
      case MdnsPrune(ttl, now, order) => ExpiriesAreDue(s, ttl, now, order);
    }
    MdnsReports(s, After(s, step), Due(s, step));
  }

  lemma SendReports(s: System, step: Step)
    requires Enabled(s, step) && IsSend(step)
    ensures Reported(After(s, step)) == Reported(s) + Due(s, step)
  {
    if step.UdpSend? {
      QueueMoves(s.log, s.udp);
    } else {
      QueueMoves(s.log, s.mdns);
      var log, udp, mdns := multiset(s.log + [s.mdns[0]]), multiset(s.udp), multiset(s.mdns[1..]);
      assert log + udp + mdns == log + mdns + udp;
    }
  }

  lemma StepReportsDue(s: System, step: Step)
    requires Enabled(s, step)
    ensures Reported(After(s, step)) == Reported(s) + Due(s, step)
  {
    if IsSend(step) {
      SendReports(s, step);
    } else if IsUdp(step) {
      UdpStepReports(s, step);
    } else {
      MdnsStepReports(s, step);
    }
  }

  /** In every interleaving what has been sent and what is pending is exactly what the steps owe: nothing is dropped,
      nothing is reported twice, and every event has its own kind of cause. */
  lemma {:induction false} ReportsAreExactlyDue(steps: seq<Step>)
    requires Legal(steps)
    ensures Reported(Run(steps)) == AllDue(steps)
  {
    if steps == [] {
    } else {
      var init := steps[..|steps| - 1];
      LegalInit(steps);
      ReportsAreExactlyDue(init);
      StepReportsDue(Run(init), steps[|steps| - 1]);
    }
  }

  // ---------- names ----------

  predicate Speaks(step: Step, fullname: string) {
    (step.MdnsResolved? || step.MdnsRemoved?) && step.fullname == fullname
  }

  /** The last step about the name resolved it, to this node. */
  ghost predicate ResolvedLast(steps: seq<Step>, fullname: string, id: NodeId) {
    exists i :: 0 <= i < |steps| && steps[i].MdnsResolved? && steps[i].fullname == fullname
                && steps[i].peer.nodeId == id && forall j :: i < j < |steps| ==> !Speaks(steps[j], fullname)
  }

  lemma ResolvedSnoc(steps: seq<Step>, step: Step, fullname: string, id: NodeId)
    ensures ResolvedLast(steps + [step], fullname, id) <==>
            if Speaks(step, fullname) then step.MdnsResolved? && step.peer.nodeId == id
            else ResolvedLast(steps, fullname, id)
  {
    var all := steps + [step];
    assert all[|steps|] == step && forall j :: 0 <= j < |steps| ==> all[j] == steps[j];
    if !Speaks(step, fullname) && ResolvedLast(steps, fullname, id) {
      var i :| 0 <= i < |steps| && steps[i].MdnsResolved? && steps[i].fullname == fullname
               && steps[i].peer.nodeId == id && forall j :: i < j < |steps| ==> !Speaks(steps[j], fullname);
      assert all[i].MdnsResolved?;
    }
  }

  /** In every run a name stands for a node exactly if the last thing heard about the name resolved it to that node, so
      a removal is heeded once. */
  lemma {:induction false} NameExactlyIfResolvedLast(steps: seq<Step>, fullname: string, id: NodeId)
    ensures var names := Run(steps).names;
            fullname in names && names[fullname] == id <==> ResolvedLast(steps, fullname, id)
  {
    if steps == [] {
    } else {
      var init, last := steps[..|steps| - 1], steps[|steps| - 1];
      NameExactlyIfResolvedLast(init, fullname, id);
      ResolvedSnoc(init, last, fullname, id);
      assert steps == init + [last];
    }
  }
}
