/**
 The bound of 128 direct calls in `ClipboardRuns.NoEcho` is tight: a run in which 129 calls are made while the
 notification of an applied entry waits, and that notification is then broadcast. Its 320 steps make everything else
 that can enter the guard enter it: 63 copies that stand ahead in the monitor's queue, 63 entries applied behind, and
 one `Clear`.
 */
module ClipboardBound {
  import opened Common
  import opened EchoGuards
  import opened ClipboardEngine
  import opened ClipboardRuns

  /** The entry to be echoed, and the contents that push it out: 63 ahead, 63 behind, 129 called. */
  datatype Plot = Plot(e: Entry, contents: seq<Content>)

  const AHEAD: nat := 63
  const BEHIND: nat := 63
  const CALLS: nat := 129
  /** The steps after which the queue ahead is drained, and the entries behind have been applied. */
  const DRAINED: nat := AHEAD + 1 + AHEAD
  const FOLLOWED: nat := DRAINED + BEHIND
  const STEPS: nat := FOLLOWED + 1 + CALLS

  /** Everything is admissible and no two hashes are alike. */
  ghost predicate Works(env: Env, z: Plot) {
    && z.e.origin != env.local && env.hashOf(z.e.content) == z.e.contentHash && env.sizeOf(z.e.content) == z.e.byteSize
    && env.allows(z.e.content, z.e.sensitive) && env.allows(z.e.content, false)
    && |z.contents| == AHEAD + BEHIND + CALLS
    && (forall i :: 0 <= i < |z.contents| ==> env.allows(z.contents[i], false))
    && NoDuplicates(Entering(env, z))
  }

  /** The hash that enters the guard as number `k`. */
  function EnteringAt(env: Env, z: Plot, k: nat): Hash
    requires |z.contents| == AHEAD + BEHIND + CALLS && k <= AHEAD + BEHIND + CALLS + 1
  {
    if k == 0 then z.e.contentHash
    else if k <= AHEAD + BEHIND then env.hashOf(z.contents[k - 1])
    else if k == AHEAD + BEHIND + 1 then ZERO_HASH
    else env.hashOf(z.contents[k - 2])
  }

  function Entering(env: Env, z: Plot): seq<Hash>
    requires |z.contents| == AHEAD + BEHIND + CALLS
  {
    seq(AHEAD + BEHIND + CALLS + 2, k requires 0 <= k < AHEAD + BEHIND + CALLS + 2 => EnteringAt(env, z, k))
  }

  /** An entry from the peer after `e`, number `j`. */
  function Later(env: Env, z: Plot, c: Content, j: nat): Entry {
    Entry(z.e.origin, z.e.sequence + j, env.hashOf(c), env.sizeOf(c), false, c)
  }

  function StepAt(env: Env, z: Plot, t: nat): Step
    requires |z.contents| == AHEAD + BEHIND + CALLS && t < STEPS
  {
    if t < AHEAD then AppCopies(z.contents[t])
    else if t == AHEAD then Receives(Sync(z.e))
    else if t < DRAINED then MonitorTakes
    else if t < FOLLOWED then Receives(Sync(Later(env, z, z.contents[t - (AHEAD + 1)], t - (DRAINED - 1))))
    else if t == FOLLOWED then Receives(Clear(z.e.origin, z.e.sequence + BEHIND + 1))
    else LocalCall(z.contents[t - (AHEAD + 2)], false)
  }

  function QueueAt(z: Plot, t: nat): seq<Content>
    requires |z.contents| == AHEAD + BEHIND + CALLS
  {
    if t <= AHEAD then z.contents[..t]
    else if t <= DRAINED then z.contents[t - (AHEAD + 1)..AHEAD] + [z.e.content]
    else if t <= FOLLOWED then [z.e.content] + z.contents[AHEAD..t - (AHEAD + 1)]
    else [z.e.content] + z.contents[AHEAD..AHEAD + BEHIND]
  }

  /** Where the entry's notification stands in the queue. */
  function PlaceAt(t: nat): nat {
    if t <= DRAINED then DRAINED - t else 0
  }

  function SequenceAt(z: Plot, t: nat): nat {
    if t <= DRAINED then z.e.sequence
    else if t <= FOLLOWED then z.e.sequence + (t - DRAINED)
    else z.e.sequence + BEHIND + 1
  }

  /** How many hashes have entered after `t` steps. */
  function EnteredAt(t: nat): nat {
    if t <= AHEAD then 0 else t - AHEAD
  }

  ghost predicate LogAt(env: Env, z: Plot, t: nat, log: seq<Hash>)
    requires |z.contents| == AHEAD + BEHIND + CALLS
  {
    |log| == EnteredAt(t) <= AHEAD + BEHIND + CALLS + 2 && forall k :: 0 <= k < |log| ==>
        log[k] == EnteringAt(env, z, k)
  }

  ghost predicate At(env: Env, z: Plot, t: nat, s: System)
    requires |z.contents| == AHEAD + BEHIND + CALLS
  {
    && GuardOk(s) && s.engine.monitoring && !s.engine.backend.lagged
    && LogAt(env, z, t, s.log)
    && s.engine.backend.queue == QueueAt(z, t) && |s.pending| == |QueueAt(z, t)|
    && (t >= AHEAD + 1 ==> PlaceAt(t) < |s.pending| && s.pending[PlaceAt(t)] == Pending(z.e.content, true, 1, AHEAD, 0))
    && s.calls == (if t <= FOLLOWED + 1 then 0 else t - (FOLLOWED + 1))
    && (z.e.origin in s.engine.guard.sequences <==> t >= AHEAD + 1)
    && (t >= AHEAD + 1 ==> s.engine.guard.sequences[z.e.origin] == SequenceAt(z, t))
  }

  /** The next hash to enter is not in the guard. */
  lemma NextIsNew(env: Env, z: Plot, t: nat, s: System)
    requires Works(env, z) && AHEAD <= t < STEPS && GuardOk(s) && LogAt(env, z, t, s.log)
    ensures EnteringAt(env, z, t - AHEAD) !in s.engine.guard.seen
    ensures LogAt(env, z, t + 1, s.log + [EnteringAt(env, z, t - AHEAD)])
  {
    var all, k := Entering(env, z), t - AHEAD;
    forall h | h in s.engine.guard.history ensures h != EnteringAt(env, z, k) {
      var i :| 0 <= i < |s.log| && s.log[i] == h;
      assert all[i] == h && all[k] == EnteringAt(env, z, k);
    }
  }

  lemma CopyStep(env: Env, z: Plot, t: nat, s: System)
    requires Works(env, z) && t < AHEAD && At(env, z, t, s)
    ensures At(env, z, t + 1, After(env, s, StepAt(env, z, t)))
  {
  }

  lemma EntryStep(env: Env, z: Plot, s: System)
    requires Works(env, z) && At(env, z, AHEAD, s)
    ensures At(env, z, AHEAD + 1, After(env, s, StepAt(env, z, AHEAD)))
  {
    NextIsNew(env, z, AHEAD, s);
    GuardKept(env, s, StepAt(env, z, AHEAD));
  }

  lemma MonitorStep(env: Env, z: Plot, t: nat, s: System)
    requires Works(env, z) && AHEAD + 1 <= t < DRAINED && At(env, z, t, s)
    ensures At(env, z, t + 1, After(env, s, StepAt(env, z, t)))
  {
    NextIsNew(env, z, t, s);
    GuardKept(env, s, StepAt(env, z, t));
    GuardKeptByMonitor(env, s);
    assert QueueAt(z, t)[0] == z.contents[t - (AHEAD + 1)] && QueueAt(z, t)[1..] == QueueAt(z, t + 1);
  }

  lemma BehindStep(env: Env, z: Plot, t: nat, s: System)
    requires Works(env, z) && DRAINED <= t < FOLLOWED && At(env, z, t, s)
    ensures At(env, z, t + 1, After(env, s, StepAt(env, z, t)))
  {
    NextIsNew(env, z, t, s);
    GuardKept(env, s, StepAt(env, z, t));
    assert QueueAt(z, t + 1) == QueueAt(z, t) + [z.contents[t - (AHEAD + 1)]];
  }

  lemma ClearStep(env: Env, z: Plot, s: System)
    requires Works(env, z) && At(env, z, FOLLOWED, s)
    ensures At(env, z, FOLLOWED + 1, After(env, s, StepAt(env, z, FOLLOWED)))
  {
    NextIsNew(env, z, FOLLOWED, s);
    GuardKept(env, s, StepAt(env, z, FOLLOWED));
  }

  lemma CallEffect(env: Env, s: System, c: Content)
    requires GuardOk(s) && env.allows(c, false) && env.hashOf(c) !in s.engine.guard.seen
    ensures var s' := After(env, s, LocalCall(c, false));
            && GuardOk(s') && s'.log == s.log + [env.hashOf(c)] && s'.calls == s.calls + 1 && s'.pending == s.pending
            && s'.engine.backend == s.engine.backend && s'.engine.monitoring == s.engine.monitoring
            && s'.engine.guard.sequences == s.engine.guard.sequences
  {
    GuardAfterLocal(env, s.(calls := s.calls + 1), s.engine, c, false);
  }

  lemma CallStep(env: Env, z: Plot, t: nat, s: System)
    requires Works(env, z) && FOLLOWED + 1 <= t < STEPS && At(env, z, t, s)
    ensures At(env, z, t + 1, After(env, s, StepAt(env, z, t)))
  {
    NextIsNew(env, z, t, s);
    assert EnteringAt(env, z, t - AHEAD) == env.hashOf(z.contents[t - (AHEAD + 2)]);
    CallEffect(env, s, z.contents[t - (AHEAD + 2)]);
  }

  lemma AnyStep(env: Env, z: Plot, t: nat, s: System)
    requires Works(env, z) && t < STEPS && At(env, z, t, s)
    ensures At(env, z, t + 1, After(env, s, StepAt(env, z, t)))
  {
    if t < AHEAD {
      CopyStep(env, z, t, s);
    } else if t == AHEAD {
      EntryStep(env, z, s);
    } else if t < DRAINED {
      MonitorStep(env, z, t, s);
    } else if t < FOLLOWED {
      BehindStep(env, z, t, s);
    } else if t == FOLLOWED {
      ClearStep(env, z, s);
    } else {
      CallStep(env, z, t, s);
    }
  }

  function Script(env: Env, z: Plot, t: nat): seq<Step>
    requires |z.contents| == AHEAD + BEHIND + CALLS && t <= STEPS
  {
    seq(t, i requires 0 <= i < t => StepAt(env, z, i))
  }

  lemma StartIsAt(env: Env, z: Plot)
    requires Works(env, z)
    ensures At(env, z, 0, Start(None))
  {
    RunKeepsInvariant(env, None, []);
  }

  lemma ScriptSnoc(env: Env, z: Plot, t: nat)
    requires |z.contents| == AHEAD + BEHIND + CALLS && t < STEPS
    ensures Run(env, None, Script(env, z, t + 1)) == After(env, Run(env, None, Script(env, z, t)), StepAt(env, z, t))
  {
    var steps := Script(env, z, t + 1);
    assert steps[..|steps| - 1] == Script(env, z, t);
  }

  lemma {:induction false} ScriptRuns(env: Env, z: Plot, t: nat)
    requires Works(env, z) && t <= STEPS
    ensures At(env, z, t, Run(env, None, Script(env, z, t)))
  {
    if t == 0 {
      StartIsAt(env, z);
    } else {
      ScriptRuns(env, z, t - 1);
      ScriptSnoc(env, z, t - 1);
      AnyStep(env, z, t - 1, Run(env, None, Script(env, z, t - 1)));
    }
  }

  /** 129 direct calls while the notification waits, one more than `NoEcho` tolerates, and it is broadcast. */
  lemma BoundIsTight(env: Env, z: Plot)
    requires Works(env, z)
    ensures var s := Run(env, None, Script(env, z, STEPS));
            && s.pending != [] && s.pending[0].remote && s.pending[0].content == z.e.content
            && s.calls - s.pending[0].calls == MAX_CALLS + 1
            && MonitorTurn(env, s.engine).1.Broadcast?
  {
    var s := Run(env, None, Script(env, z, STEPS));
    ScriptRuns(env, z, STEPS);
    var all := Entering(env, z);
    forall q | 1 <= q < |s.log| ensures s.log[q] != z.e.contentHash {
      assert s.log[q] == all[q] && all[0] == z.e.contentHash;
    }
    EchoExactlyBeyondWindow(env, None, Script(env, z, STEPS));
  }
}
