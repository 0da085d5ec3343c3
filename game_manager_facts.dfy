/**
 * What the GameManager session engine guarantees, stated on the transition
 * functions of module GameSession: the update guard, the timeout verdict, the
 * spawn cadence, the progress of the activeServices table, and the invariant
 * (non-negative score in steps of SCORE_PER_EVENT, one entry per NPC, sane
 * timers) that every public operation keeps.
 */
module GameSessionFacts {
  import opened Wrappers
  import GameConfig
  import opened GameSession

  // ---------------------------------------------------------------------------
  // update: guard, countdown and verdict

  /** update does nothing at all unless a level is being played. */
  lemma TickNotPlayingIsNoop(g: Game, dt: real, spawnRand: real, resetRand: real)
    requires IsRandom(spawnRand) && IsRandom(resetRand) && !g.isPlaying
    ensures Tick(g, dt, spawnRand, resetRand) == Outcome(g, None, None)
  {
  }

  /**
   * The level ends on the tick that takes currentTime to zero or below, and that
   * end is always reported as a loss whatever the score: nothing spawns, no
   * service progresses, and currentTime keeps its negative value.
   */
  lemma TimeoutIsAlwaysLoss(g: Game, dt: real, spawnRand: real, resetRand: real)
    requires IsRandom(spawnRand) && IsRandom(resetRand) && g.isPlaying
    ensures var o := Tick(g, dt, spawnRand, resetRand);
      && (o.ended.Some? <==> g.currentTime - dt <= 0.0)
      && (o.ended.Some? ==>
            o.ended == Some(false) && o.spawned == None
            && o.next == g.(currentTime := g.currentTime - dt, isPlaying := false))
      && (o.ended.None? ==> o.next.isPlaying && o.next.currentTime == g.currentTime - dt)
  {
  }

  /** Even a score far above any target is reported as a loss at timeout. */
  lemma HighScoreStillLoses()
    ensures var g := Game(1000000, 1.0, true, [], 4.0, true);
      Tick(g, 2.0, 0.0, 0.0).ended == Some(false)
      && Tick(g, 2.0, 0.0, 0.0).next.currentTime == -1.0
  {
  }

  /** After the timeout tick, every further update is a no-op: the level ends once. */
  lemma {:induction false} TimeoutEndsOnce(g: Game, dt: real, dt2: real, spawnRand: real, resetRand: real)
    requires IsRandom(spawnRand) && IsRandom(resetRand) && g.isPlaying && g.currentTime - dt <= 0.0
    ensures var next := Tick(g, dt, spawnRand, resetRand).next;
      Tick(next, dt2, spawnRand, resetRand) == Outcome(next, None, None)
  {
    TimeoutIsAlwaysLoss(g, dt, spawnRand, resetRand);
    TickNotPlayingIsNoop(Tick(g, dt, spawnRand, resetRand).next, dt2, spawnRand, resetRand);
  }

  // ---------------------------------------------------------------------------
  // update: the spawn cadence

  /**
   * On a tick that does not end the level, the spawn timer either merely counts
   * down or, once at or below zero, is reseeded from [SPAWN_INTERVAL_MIN,
   * SPAWN_INTERVAL_MAX); a key is handed out exactly when it fires and a
   * callback is set, and that key names a catalogue event.
   */
  lemma SpawnCadence(g: Game, dt: real, spawnRand: real, resetRand: real)
    requires IsRandom(spawnRand) && IsRandom(resetRand) && g.isPlaying && g.currentTime - dt > 0.0
    ensures var o := Tick(g, dt, spawnRand, resetRand);
      && (o.spawned.Some? <==> g.hasSpawnCallback && g.spawnTimer - dt <= 0.0)
      && (o.spawned.Some? ==> o.spawned.value in GameConfig.EventTypes)
      && (g.spawnTimer - dt <= 0.0 ==>
            GameConfig.SpawnIntervalMin <= o.next.spawnTimer < GameConfig.SpawnIntervalMax)
      && (g.spawnTimer - dt > 0.0 ==> o.next.spawnTimer == g.spawnTimer - dt)
  {
  }

  /** Every delay of the interval is drawn by some random value. */
  lemma SpawnDelayCoversInterval(t: real)
    requires GameConfig.SpawnIntervalMin <= t < GameConfig.SpawnIntervalMax
    ensures IsRandom((t - 3.0) / 4.0) && SpawnDelay((t - 3.0) / 4.0) == t
  {
  }

  /** Every catalogue event is picked by some random value: keys[i] for rand = i / keys.length. */
  lemma SpawnKeyReachesEveryEvent(i: nat)
    requires i < |GameConfig.EventKeys|
    ensures IsRandom(i as real / 5.0) && SpawnKey(i as real / 5.0) == GameConfig.EventKeys[i]
  {
    assert (i as real / 5.0) * (|GameConfig.EventKeys| as real) == i as real;
  }

  // ---------------------------------------------------------------------------
  // update: progress of the activeServices table

  lemma DecayMembers(ss: seq<Service>, dt: real)
    ensures forall x :: x in Decay(ss, dt) ==>
      exists j :: 0 <= j < |ss| && ss[j].remainingTime - dt > 0.0 && x == Decremented(ss[j], dt)
    ensures forall j :: 0 <= j < |ss| && ss[j].remainingTime - dt > 0.0 ==>
      Decremented(ss[j], dt) in Decay(ss, dt)
  {
    DecayPrefixMembers(ss, |ss|, dt);
  }

  /** Every service either survives a tick or completes: |Decay| + Completed == |ss|. */
  lemma DecayAccountsForEveryService(ss: seq<Service>, dt: real)
    ensures |Decay(ss, dt)| + Completed(ss, dt) == |ss|
  {
    DecayPrefixLength(ss, |ss|, dt);
  }

  /**
   * On a tick that does not end the level, the score grows by SCORE_PER_EVENT for
   * each service that left the table.
   */
  lemma TickScoresEachCompletion(g: Game, dt: real, spawnRand: real, resetRand: real)
    requires IsRandom(spawnRand) && IsRandom(resetRand) && g.isPlaying && g.currentTime - dt > 0.0
    ensures var next := Tick(g, dt, spawnRand, resetRand).next;
      |next.services| <= |g.services|
      && next.score == g.score + GameConfig.ScorePerEvent * (|g.services| - |next.services|)
  {
    DecayAccountsForEveryService(g.services, dt);
  }

  // ---------------------------------------------------------------------------
  // handleService and completeService

  /**
   * handleService leaves the state alone when no level is being played, when the
   * NPC is already being served, or when its event is an inherited name (the call
   * throws, exactly in that last case). Otherwise it appends a fresh entry whose
   * duration is 2.5 s for a perfect match and 5 s otherwise.
   */
  lemma ServiceHandledSpec(g: Game, npc: Npc, workerAttr: GameConfig.Attribute)
    ensures ServiceThrows(g, npc, workerAttr) <==>
      g.isPlaying && !HasKey(g.services, npc.uuid) && GameConfig.InheritedName(npc.event)
    ensures var h := ServiceHandled(g, npc, workerAttr);
      && (!g.isPlaying || HasKey(g.services, npc.uuid) || GameConfig.InheritedName(npc.event) ==> h == g)
      && (g.isPlaying && !HasKey(g.services, npc.uuid) && !GameConfig.InheritedName(npc.event) ==>
            exists d :: h == g.(services := g.services + [Service(npc, d, d)])
                        && (d == 2.5 <==> GameConfig.IsMatch(workerAttr, npc.event))
                        && (d == 5.0 <==> !GameConfig.IsMatch(workerAttr, npc.event)))
  {
    GameConfig.ServiceTimeMatchesIff(workerAttr, npc.event);
    if g.isPlaying && !HasKey(g.services, npc.uuid) && !GameConfig.InheritedName(npc.event) {
      var d := ServiceDuration(workerAttr, npc.event).value;
      assert ServiceHandled(g, npc, workerAttr) == g.(services := g.services + [Service(npc, d, d)]);
    }
  }

  /** An NPC whose event reads "toString" makes handleService throw, and nothing changes. */
  lemma InheritedEventThrows(g: Game, npc: Npc, workerAttr: GameConfig.Attribute)
    requires g.isPlaying && !HasKey(g.services, npc.uuid) && npc.event == "toString"
    ensures ServiceThrows(g, npc, workerAttr) && ServiceHandled(g, npc, workerAttr) == g
  {
    GameConfig.InheritedNamesThrow(workerAttr, npc.event);
  }

  /** MAX_ACTIVE_NPCS is never consulted: a new NPC is accepted however many are being served. */
  lemma CapNotEnforced(g: Game, npc: Npc, workerAttr: GameConfig.Attribute)
    requires g.isPlaying && !HasKey(g.services, npc.uuid) && |g.services| >= GameConfig.MaxActiveNpcs
    requires !GameConfig.InheritedName(npc.event)
    ensures |ServiceHandled(g, npc, workerAttr).services| > GameConfig.MaxActiveNpcs
  {
  }

  /**
   * handleService takes no worker and checks no cooldown: workers of the same
   * attribute serve two NPCs back to back.
   */
  lemma BackToBackServes(g: Game, a: Npc, b: Npc, workerAttr: GameConfig.Attribute)
    requires g.isPlaying && a.uuid != b.uuid && !HasKey(g.services, a.uuid) && !HasKey(g.services, b.uuid)
    requires !GameConfig.InheritedName(a.event) && !GameConfig.InheritedName(b.event)
    ensures |ServiceHandled(ServiceHandled(g, a, workerAttr), b, workerAttr).services| == |g.services| + 2
  {
    var h := ServiceHandled(g, a, workerAttr);
    forall i | 0 <= i < |h.services|
      ensures h.services[i].npc.uuid != b.uuid
    {
      if i < |g.services| {
        assert h.services[i] == g.services[i];
      }
    }
  }

  // ---------------------------------------------------------------------------
  // The session invariant, kept by every public operation

  /** A table entry as handleService creates it and update keeps it. */
  predicate ServiceOk(s: Service)
  {
    (s.totalTime == 2.5 || s.totalTime == 5.0) && 0.0 < s.remainingTime <= s.totalTime
  }

  predicate Inv(g: Game)
  {
    && g.score >= 0 && g.score % GameConfig.ScorePerEvent == 0
    && Distinct(g.services)
    && forall i :: 0 <= i < |g.services| ==> ServiceOk(g.services[i])
  }

  lemma UnstartedInv()
    ensures Inv(Unstarted)
  {
  }

  lemma LevelStartedInv(g: Game, rand: real)
    requires IsRandom(rand)
    ensures Inv(LevelStarted(g, rand)) && LevelStarted(g, rand).score == 0
    ensures LevelStarted(g, rand).services == [] && LevelStarted(g, rand).isPlaying
  {
  }

  lemma ServiceHandledInv(g: Game, npc: Npc, workerAttr: GameConfig.Attribute)
    requires Inv(g)
    ensures Inv(ServiceHandled(g, npc, workerAttr))
  {
    if g.isPlaying && !HasKey(g.services, npc.uuid) && ServiceDuration(workerAttr, npc.event).Some? {
      var h := ServiceHandled(g, npc, workerAttr).services;
      forall a, b | 0 <= a < b < |h|
        ensures h[a].npc.uuid != h[b].npc.uuid
      {
        if b == |g.services| {
          assert h[a] == g.services[a];
        } else {
          assert h[a] == g.services[a] && h[b] == g.services[b];
        }
      }
    }
  }

  lemma ServiceCompletedInv(g: Game, uuid: string)
    requires Inv(g)
    ensures Inv(ServiceCompleted(g, uuid)) && !HasKey(ServiceCompleted(g, uuid).services, uuid)
  {
    RemoveKeyFacts(g.services, uuid);
    var r := RemoveKey(g.services, uuid);
    forall i | 0 <= i < |r|
      ensures ServiceOk(r[i]) && r[i].npc.uuid != uuid
    {
      assert r[i] in r;
      var j :| 0 <= j < |g.services| && g.services[j] == r[i];
    }
  }

  lemma MultipleOfScore(a: int, c: int)
    requires a % GameConfig.ScorePerEvent == 0
    ensures (a + GameConfig.ScorePerEvent * c) % GameConfig.ScorePerEvent == 0
  {
  }

  /** With a non-negative dt, update keeps the session invariant. */
  lemma TickInv(g: Game, dt: real, spawnRand: real, resetRand: real)
    requires IsRandom(spawnRand) && IsRandom(resetRand) && dt >= 0.0 && Inv(g)
    ensures Inv(Tick(g, dt, spawnRand, resetRand).next)
  {
    if g.isPlaying && g.currentTime - dt > 0.0 {
      var d := Decay(g.services, dt);
      DecayPrefixDistinct(g.services, |g.services|, dt);
      DecayMembers(g.services, dt);
      forall i | 0 <= i < |d|
        ensures ServiceOk(d[i])
      {
        assert d[i] in d;
        var j :| 0 <= j < |g.services| && g.services[j].remainingTime - dt > 0.0 && d[i] == Decremented(g.services[j], dt);
      }
      MultipleOfScore(g.score, Completed(g.services, dt));
    }
  }

  // ---------------------------------------------------------------------------
  // Any sequence of calls

  /**
   * A public call on a GameManager, with the random values and frame time it
   * consumes. A Serve that throws leaves the state as it was.
   */
  datatype Call =
    | Update(dt: real, spawnRand: real, resetRand: real)
    | Serve(npc: Npc, workerAttr: GameConfig.Attribute)
    | Complete(uuid: string)
    | Start(rand: real)
    | End
    | SetCallback(present: bool)
    | ResetTimer(rand: real)

  predicate CallOk(c: Call)
  {
    match c
    case Update(dt, spawnRand, resetRand) => dt >= 0.0 && IsRandom(spawnRand) && IsRandom(resetRand)
    case Start(rand) => IsRandom(rand)
    case ResetTimer(rand) => IsRandom(rand)
    case _ => true
  }

  function Apply(g: Game, c: Call): Game
    requires CallOk(c)
  {
    match c
    case Update(dt, spawnRand, resetRand) => Tick(g, dt, spawnRand, resetRand).next
    case Serve(npc, workerAttr) => ServiceHandled(g, npc, workerAttr)
    case Complete(uuid) => ServiceCompleted(g, uuid)
    case Start(rand) => LevelStarted(g, rand)
    case End => g.(isPlaying := false)
    case SetCallback(present) => g.(hasSpawnCallback := present)
    case ResetTimer(rand) => g.(spawnTimer := SpawnDelay(rand))
  }

  function Run(g: Game, cs: seq<Call>): Game
    requires forall i :: 0 <= i < |cs| ==> CallOk(cs[i])
    decreases |cs|
  {
    if cs == [] then g else Run(Apply(g, cs[0]), cs[1..])
  }

  lemma ApplyInv(g: Game, c: Call)
    requires CallOk(c) && Inv(g)
    ensures Inv(Apply(g, c))
  {
    match c
    case Update(dt, spawnRand, resetRand) => TickInv(g, dt, spawnRand, resetRand);
    case Serve(npc, workerAttr) => ServiceHandledInv(g, npc, workerAttr);
    case Complete(uuid) => ServiceCompletedInv(g, uuid);
    case Start(rand) =>
    case End =>
    case SetCallback(present) =>
    case ResetTimer(rand) =>
  }

  /**
   * From a freshly constructed manager, whatever calls follow: the score is a
   * non-negative multiple of SCORE_PER_EVENT, no NPC is served twice at once,
   * and every timer lies within its service's duration.
   */
  lemma {:induction false} RunKeepsInv(g: Game, cs: seq<Call>)
    requires Inv(g) && forall i :: 0 <= i < |cs| ==> CallOk(cs[i])
    ensures Inv(Run(g, cs))
    decreases |cs|
  {
    if cs != [] {
      ApplyInv(g, cs[0]);
      RunKeepsInv(Apply(g, cs[0]), cs[1..]);
    }
  }

  lemma RunFromUnstarted(g: Game, cs: seq<Call>)
    requires g == Unstarted && forall i :: 0 <= i < |cs| ==> CallOk(cs[i])
    ensures Inv(Run(g, cs))
  {
    UnstartedInv();
    RunKeepsInv(g, cs);
  }
}
