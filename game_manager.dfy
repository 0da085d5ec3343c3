/**
 * The GameManager session engine of src/core/GameManager.js: the level countdown,
 * the randomised spawn cadence, and the activeServices table (one entry per NPC
 * uuid) whose entries count down and, on completion, award a fixed score.
 *
 * Math.random() is an input `rand` with 0 <= rand < 1. The spawn callback is
 * modelled by whether one is set; the key it would be called with is returned.
 */
module GameSession {
  import opened Wrappers
  import GameConfig

  /** The part of an NPC mesh the session reads: its uuid and userData.event. */
  datatype Npc = Npc(uuid: string, event: string)

  /** An activeServices entry; the table files it under npc.uuid. Times in seconds. */
  datatype Service = Service(npc: Npc, remainingTime: real, totalTime: real)

  /**
   * Everything a GameManager holds. `services` is the activeServices Map as its
   * entries in insertion order (the order Map.forEach visits them in).
   */
  datatype Game = Game(score: int, currentTime: real, isPlaying: bool, services: seq<Service>,
                       spawnTimer: real, hasSpawnCallback: bool)

  /** this.totalTime: the length of a level in seconds. */
  const TotalTime: real := 120.0

  /** The state the constructor builds. */
  const Unstarted: Game := Game(0, 0.0, false, [], 0.0, false)

  /** A value Math.random() can return. */
  predicate IsRandom(r: real)
  {
    0.0 <= r < 1.0
  }

  predicate HasKey(ss: seq<Service>, uuid: string)
  {
    exists i :: 0 <= i < |ss| && ss[i].npc.uuid == uuid
  }

  /** A Map never holds two entries under one key. */
  predicate Distinct(ss: seq<Service>)
  {
    forall i, j :: 0 <= i < j < |ss| ==> ss[i].npc.uuid != ss[j].npc.uuid
  }

  /** resetSpawnTimer: the next spawn delay, drawn from [SPAWN_INTERVAL_MIN, SPAWN_INTERVAL_MAX). */
  function SpawnDelay(rand: real): (delay: real)
    requires IsRandom(rand)
    ensures GameConfig.SpawnIntervalMin <= delay < GameConfig.SpawnIntervalMax
  {
    rand * (GameConfig.SpawnIntervalMax - GameConfig.SpawnIntervalMin) + GameConfig.SpawnIntervalMin
  }

  /** The event key triggerSpawn picks: keys[Math.floor(rand * keys.length)]. */
  function SpawnKey(rand: real): (key: string)
    requires IsRandom(rand)
    ensures key in GameConfig.EventTypes
  {
    var i := (rand * |GameConfig.EventKeys| as real).Floor;
    assert 0 <= i < |GameConfig.EventKeys|;
    GameConfig.EventKeys[i]
  }

  /** startLevel: fresh score, full time, playing, no services, a new spawn delay. */
  function LevelStarted(g: Game, rand: real): Game
    requires IsRandom(rand)
  {
    Game(0, TotalTime, true, [], SpawnDelay(rand), g.hasSpawnCallback)
  }

  /** triggerSpawn: the key the callback is called with, if one is set. */
  function TriggerSpawn(g: Game, rand: real): Option<string>
    requires IsRandom(rand)
  {
    if g.hasSpawnCallback then Some(SpawnKey(rand)) else None
  }

  /**
   * The first `n` activeServices entries after one tick of `dt`: each loses dt, and
   * those at or below 0 are gone.
   */
  function DecayPrefix(ss: seq<Service>, n: nat, dt: real): seq<Service>
    requires n <= |ss|
    decreases n
  {
    if n == 0 then []
    else
      var rest := DecayPrefix(ss, n - 1, dt);
      var s := ss[n - 1];
      if s.remainingTime - dt <= 0.0 then rest
      else rest + [s.(remainingTime := s.remainingTime - dt)]
  }

  /** How many of the first `n` entries complete in one tick of `dt`. */
  function CompletedPrefix(ss: seq<Service>, n: nat, dt: real): nat
    requires n <= |ss|
    decreases n
  {
    if n == 0 then 0
    else CompletedPrefix(ss, n - 1, dt) + (if ss[n - 1].remainingTime - dt <= 0.0 then 1 else 0)
  }

  /** The activeServices entries left after one tick. */
  function Decay(ss: seq<Service>, dt: real): seq<Service>
  {
    DecayPrefix(ss, |ss|, dt)
  }

  /** How many entries complete in one tick. */
  function Completed(ss: seq<Service>, dt: real): nat
  {
    CompletedPrefix(ss, |ss|, dt)
  }

  /** Map.delete: the entries without the one filed under `uuid`. */
  function RemoveKey(ss: seq<Service>, uuid: string): seq<Service>
    decreases |ss|
  {
    if ss == [] then []
    else (if ss[0].npc.uuid == uuid then [] else [ss[0]]) + RemoveKey(ss[1..], uuid)
  }

  /** completeService: drop the entry and award SCORE_PER_EVENT. */
  function ServiceCompleted(g: Game, uuid: string): Game
  {
    g.(services := RemoveKey(g.services, uuid), score := g.score + GameConfig.ScorePerEvent)
  }

  /** The result of one update: the new state, the endLevel(isWin) call if any, and the spawned key if any. */
  datatype Outcome = Outcome(next: Game, ended: Option<bool>, spawned: Option<string>)

  /** update(dt). `spawnRand` feeds triggerSpawn, `resetRand` feeds resetSpawnTimer. */
  function Tick(g: Game, dt: real, spawnRand: real, resetRand: real): Outcome
    requires IsRandom(spawnRand) && IsRandom(resetRand)
  {
    if !g.isPlaying then
      Outcome(g, None, None)
    else if g.currentTime - dt <= 0.0 then
      Outcome(g.(currentTime := g.currentTime - dt, isPlaying := false), Some(false), None)
    else
      var fires := g.spawnTimer - dt <= 0.0;
      Outcome(g.(currentTime := g.currentTime - dt,
                 spawnTimer := if fires then SpawnDelay(resetRand) else g.spawnTimer - dt,
                 services := Decay(g.services, dt),
                 score := g.score + GameConfig.ScorePerEvent * Completed(g.services, dt)),
              None,
              if fires then TriggerSpawn(g, spawnRand) else None)
  }

  /** The duration of a new service in seconds (calculateServiceTime / 1000), None where that call throws. */
  function ServiceDuration(workerAttr: GameConfig.Attribute, eventId: string): Option<real>
  {
    match GameConfig.CalculateServiceTime(workerAttr, eventId)
    case Some(ms) => Some(ms / 1000.0)
    case None => None
  }

  /** handleService reaches calculateServiceTime and that call throws. */
  predicate ServiceThrows(g: Game, npc: Npc, workerAttr: GameConfig.Attribute)
  {
    g.isPlaying && !HasKey(g.services, npc.uuid) && ServiceDuration(workerAttr, npc.event).None?
  }

  /**
   * handleService: start serving `npc` unless the level is over or that NPC is
   * already being served. When the call throws, it has changed nothing yet.
   */
  function ServiceHandled(g: Game, npc: Npc, workerAttr: GameConfig.Attribute): Game
  {
    if !g.isPlaying || HasKey(g.services, npc.uuid) then g
    else
      match ServiceDuration(workerAttr, npc.event)
      case None => g
      case Some(duration) => g.(services := g.services + [Service(npc, duration, duration)])
  }

  // ---------------------------------------------------------------------------
  // Lemmas the class needs

  lemma {:induction false} RemoveKeyAbsent(ss: seq<Service>, uuid: string)
    requires !HasKey(ss, uuid)
    ensures RemoveKey(ss, uuid) == ss
    decreases |ss|
  {
    if ss != [] {
      forall i | 0 <= i < |ss[1..]|
        ensures ss[1..][i] == ss[i + 1]
      {
      }
      RemoveKeyAbsent(ss[1..], uuid);
      assert ss == [ss[0]] + ss[1..];
    }
  }

  lemma {:induction false} RemoveKeyConcat(a: seq<Service>, b: seq<Service>, uuid: string)
    ensures RemoveKey(a + b, uuid) == RemoveKey(a, uuid) + RemoveKey(b, uuid)
    decreases |a|
  {
    if a == [] {
      assert a + b == b;
    } else {
      assert (a + b)[0] == a[0];
      assert (a + b)[1..] == a[1..] + b;
      RemoveKeyConcat(a[1..], b, uuid);
    }
  }

  /** Deleting the key of the one entry filed under it leaves exactly the other entries. */
  lemma RemoveKeyOfEntry(a: seq<Service>, x: Service, b: seq<Service>)
    requires !HasKey(a, x.npc.uuid) && !HasKey(b, x.npc.uuid)
    ensures RemoveKey(a + [x] + b, x.npc.uuid) == a + b
  {
    RemoveKeyConcat(a + [x], b, x.npc.uuid);
    RemoveKeyConcat(a, [x], x.npc.uuid);
    RemoveKeyAbsent(a, x.npc.uuid);
    RemoveKeyAbsent(b, x.npc.uuid);
  }

  predicate HasKeyBefore(ss: seq<Service>, n: nat, uuid: string)
    requires n <= |ss|
  {
    exists j :: 0 <= j < n && ss[j].npc.uuid == uuid
  }

  /** Every entry left by DecayPrefix comes from the prefix, with the same NPC. */
  lemma {:induction false} DecayPrefixKeys(ss: seq<Service>, n: nat, dt: real, uuid: string)
    requires n <= |ss| && HasKey(DecayPrefix(ss, n, dt), uuid)
    ensures HasKeyBefore(ss, n, uuid)
    decreases n
  {
    var rest := DecayPrefix(ss, n - 1, dt);
    if HasKey(rest, uuid) {
      DecayPrefixKeys(ss, n - 1, dt, uuid);
    } else {
      var i :| 0 <= i < |DecayPrefix(ss, n, dt)| && DecayPrefix(ss, n, dt)[i].npc.uuid == uuid;
      assert i == |rest| && ss[n - 1].npc.uuid == uuid;
    }
  }

  lemma {:induction false} DecayPrefixLength(ss: seq<Service>, n: nat, dt: real)
    requires n <= |ss|
    ensures |DecayPrefix(ss, n, dt)| + CompletedPrefix(ss, n, dt) == n
    decreases n
  {
    if n > 0 {
      DecayPrefixLength(ss, n - 1, dt);
    }
  }

  lemma UpdateAt(a: seq<Service>, b: seq<Service>, x: Service)
    requires b != []
    ensures (a + b)[|a| := x] == a + [x] + b[1..]
  {
  }

  lemma DistinctSplit(ss: seq<Service>, i: nat)
    requires Distinct(ss) && i < |ss|
    ensures !HasKeyBefore(ss, i, ss[i].npc.uuid) && !HasKey(ss[i + 1..], ss[i].npc.uuid)
  {
    var tail := ss[i + 1..];
    forall j | 0 <= j < |tail|
      ensures tail[j].npc.uuid != ss[i].npc.uuid
    {
      assert tail[j] == ss[i + 1 + j];
    }
  }

  /**
   * One visit of Map.forEach in update: entry i, found just after the already
   * visited part, loses dt in place and, if it is done, is deleted by key.
   */
  lemma IterationStep(entries: seq<Service>, i: nat, dt: real)
    requires Distinct(entries) && i < |entries|
    ensures var done := DecayPrefix(entries, i, dt);
      var x := entries[i].(remainingTime := entries[i].remainingTime - dt);
      var visited := (done + entries[i..])[|done| := x];
      && (done + entries[i..])[|done|] == entries[i]
      && (x.remainingTime <= 0.0 ==>
            RemoveKey(visited, x.npc.uuid) == DecayPrefix(entries, i + 1, dt) + entries[i + 1..]
            && DecayPrefix(entries, i + 1, dt) == done
            && CompletedPrefix(entries, i + 1, dt) == CompletedPrefix(entries, i, dt) + 1)
      && (x.remainingTime > 0.0 ==>
            visited == DecayPrefix(entries, i + 1, dt) + entries[i + 1..]
            && |DecayPrefix(entries, i + 1, dt)| == |done| + 1
            && CompletedPrefix(entries, i + 1, dt) == CompletedPrefix(entries, i, dt))
  {
    var done := DecayPrefix(entries, i, dt);
    var x := entries[i].(remainingTime := entries[i].remainingTime - dt);
    UpdateAt(done, entries[i..], x);
    assert entries[i..][1..] == entries[i + 1..];
    if x.remainingTime <= 0.0 {
      DistinctSplit(entries, i);
      if HasKey(done, x.npc.uuid) {
        DecayPrefixKeys(entries, i, dt, x.npc.uuid);
      }
      RemoveKeyOfEntry(done, x, entries[i + 1..]);
    }
  }

  /** The state after the forEach of update has visited the first i entries. */
  function Visited(start: Game, entries: seq<Service>, i: nat, dt: real): Game
    requires i <= |entries|
  {
    start.(services := DecayPrefix(entries, i, dt) + entries[i..],
           score := start.score + GameConfig.ScorePerEvent * CompletedPrefix(entries, i, dt))
  }

  /** Once the visit has covered every entry, the state is the one the forEach leaves. */
  lemma VisitedAll(start: Game, entries: seq<Service>, i: nat, dt: real)
    requires i <= |entries| && |DecayPrefix(entries, i, dt) + entries[i..]| <= |DecayPrefix(entries, i, dt)|
    ensures i == |entries|
    ensures Visited(start, entries, i, dt)
         == start.(services := Decay(entries, dt), score := start.score + GameConfig.ScorePerEvent * Completed(entries, dt))
  {
    assert entries[i..] == [];
  }

  /** An entry after one tick of `dt`. */
  function Decremented(s: Service, dt: real): Service
  {
    s.(remainingTime := s.remainingTime - dt)
  }

  /**
   * The entries that survive a tick are exactly the entries whose remaining time
   * stays above zero, each reduced by dt.
   */
  lemma {:induction false} DecayPrefixMembers(ss: seq<Service>, n: nat, dt: real)
    requires n <= |ss|
    ensures forall x :: x in DecayPrefix(ss, n, dt) ==>
      exists j :: 0 <= j < n && ss[j].remainingTime - dt > 0.0 && x == Decremented(ss[j], dt)
    ensures forall j :: 0 <= j < n && ss[j].remainingTime - dt > 0.0 ==>
      Decremented(ss[j], dt) in DecayPrefix(ss, n, dt)
    decreases n
  {
    if n > 0 {
      DecayPrefixMembers(ss, n - 1, dt);
    }
  }

  /** A tick keeps the one-entry-per-NPC property of the table. */
  lemma {:induction false} DecayPrefixDistinct(ss: seq<Service>, n: nat, dt: real)
    requires n <= |ss| && Distinct(ss)
    ensures Distinct(DecayPrefix(ss, n, dt))
    decreases n
  {
    if n > 0 {
      DecayPrefixDistinct(ss, n - 1, dt);
      var rest := DecayPrefix(ss, n - 1, dt);
      if ss[n - 1].remainingTime - dt > 0.0 {
        DecayPrefixMembers(ss, n - 1, dt);
        forall a | 0 <= a < |rest|
          ensures rest[a].npc.uuid != ss[n - 1].npc.uuid
        {
          assert rest[a] in rest;
          var j :| 0 <= j < n - 1 && ss[j].remainingTime - dt > 0.0 && rest[a] == Decremented(ss[j], dt);
        }
        var all := DecayPrefix(ss, n, dt);
        forall a, b | 0 <= a < b < |all|
          ensures all[a].npc.uuid != all[b].npc.uuid
        {
          if b == |rest| {
            assert all[a] == rest[a];
          } else {
            assert all[a] == rest[a] && all[b] == rest[b];
          }
        }
      }
    }
  }

  /** Map.delete leaves a sub-table without the key, and keeps keys distinct. */
  lemma {:induction false} RemoveKeyFacts(ss: seq<Service>, uuid: string)
    ensures forall x :: x in RemoveKey(ss, uuid) ==> x in ss && x.npc.uuid != uuid
    ensures Distinct(ss) ==> Distinct(RemoveKey(ss, uuid))
    decreases |ss|
  {
    if ss != [] {
      var tail := ss[1..];
      RemoveKeyFacts(tail, uuid);
      var rest := RemoveKey(tail, uuid);
      var head := if ss[0].npc.uuid == uuid then [] else [ss[0]];
      assert RemoveKey(ss, uuid) == head + rest;
      if Distinct(ss) {
        assert Distinct(tail) by {
          forall a, b | 0 <= a < b < |tail|
            ensures tail[a].npc.uuid != tail[b].npc.uuid
          {
            assert tail[a] == ss[a + 1] && tail[b] == ss[b + 1];
          }
        }
        var all := head + rest;
        forall a, b | 0 <= a < b < |all|
          ensures all[a].npc.uuid != all[b].npc.uuid
        {
          if head != [] && a == 0 {
            assert all[b] == rest[b - 1] && all[b] in tail;
            var m :| 0 <= m < |tail| && tail[m] == all[b];
            assert tail[m] == ss[m + 1];
          } else {
            assert all[a] == rest[a - |head|] && all[b] == rest[b - |head|];
          }
        }
      }
    }
  }

  class GameManager {
    var score: int
    var currentTime: real
    var isPlaying: bool
    var activeServices: seq<Service>
    var spawnTimer: real
    var hasSpawnCallback: bool

    function State(): Game
      reads this
    {
      Game(score, currentTime, isPlaying, activeServices, spawnTimer, hasSpawnCallback)
    }

    /** The Map's own guarantee: one entry per uuid. */
    predicate Valid()
      reads this
    {
      Distinct(activeServices)
    }

    constructor ()
      ensures State() == Unstarted && Valid()
    {
      score := 0;
      currentTime := 0.0;
      isPlaying := false;
      activeServices := [];
      spawnTimer := 0.0;
      hasSpawnCallback := false;
    }

    /** setSpawnCallback; `present` says whether the callback passed is a function (truthy). */
    method SetSpawnCallback(present: bool)
      modifies this
      ensures State() == old(State()).(hasSpawnCallback := present)
    {
      hasSpawnCallback := present;
    }

    method StartLevel(rand: real)
      requires IsRandom(rand)
      modifies this
      ensures State() == LevelStarted(old(State()), rand) && Valid()
    {
      score := 0;
      currentTime := TotalTime;
      isPlaying := true;
      activeServices := [];
      ResetSpawnTimer(rand);
    }

    method ResetSpawnTimer(rand: real)
      requires IsRandom(rand)
      modifies this
      ensures State() == old(State()).(spawnTimer := SpawnDelay(rand))
    {
      spawnTimer := rand * (GameConfig.SpawnIntervalMax - GameConfig.SpawnIntervalMin) + GameConfig.SpawnIntervalMin;
    }

    /** triggerSpawn: the event key passed to the spawn callback, none when no callback is set. */
    method TriggerSpawn(rand: real) returns (key: Option<string>)
      requires IsRandom(rand)
      ensures key.Some? <==> hasSpawnCallback
      ensures key.Some? ==> key.value in GameConfig.EventTypes && key.value == SpawnKey(rand)
    {
      key := None;
      if hasSpawnCallback {
        var keys := GameConfig.EventKeys;
        var randomKey := keys[(rand * |keys| as real).Floor];
        key := Some(randomKey);
      }
    }

    method Update(dt: real, spawnRand: real, resetRand: real) returns (ended: Option<bool>, spawned: Option<string>)
      requires IsRandom(spawnRand) && IsRandom(resetRand) && Valid()
      modifies this
      ensures Outcome(State(), ended, spawned) == Tick(old(State()), dt, spawnRand, resetRand)
      ensures Valid()
    {
      ended, spawned := None, None;
      if !isPlaying {
        return;
      }
      currentTime := currentTime - dt;
      if currentTime <= 0.0 {
        EndLevel(false);
        ended := Some(false);
        return;
      }
      spawnTimer := spawnTimer - dt;
      if spawnTimer <= 0.0 {
        spawned := TriggerSpawn(spawnRand);
        ResetSpawnTimer(resetRand);
      }
      AdvanceServices(dt);
    }

    /** The service-progress step of update: the Map.forEach over activeServices. */
    method AdvanceServices(dt: real)
      requires Valid()
      modifies this
      ensures State() == old(State()).(services := Decay(old(activeServices), dt),
                                       score := old(score) + GameConfig.ScorePerEvent * Completed(old(activeServices), dt))
      ensures Valid()
    {
      ghost var entries := activeServices;
      ghost var start := State();
      ghost var i := 0;
      var k := 0;
      while k < |activeServices|
        invariant 0 <= i <= |entries|
        invariant k == |DecayPrefix(entries, i, dt)|
        invariant State() == Visited(start, entries, i, dt)
        decreases |entries| - i
      {
        k := VisitService(dt, k, start, entries, i);
        i := i + 1;
      }
      VisitedAll(start, entries, i, dt);
      DecayPrefixDistinct(entries, |entries|, dt);
    }

    /**
     * One call of the Map.forEach callback in update: the entry at position k loses dt
     * and, when it is done, is completed (deleted and scored).
     */
    method VisitService(dt: real, k: nat, ghost start: Game, ghost entries: seq<Service>, ghost i: nat)
        returns (k': nat)
      requires Distinct(entries) && i < |entries| && k == |DecayPrefix(entries, i, dt)|
      requires State() == Visited(start, entries, i, dt)
      modifies this
      ensures k' == |DecayPrefix(entries, i + 1, dt)|
      ensures State() == Visited(start, entries, i + 1, dt)
    {
      IterationStep(entries, i, dt);
      var service := activeServices[k];
      service := service.(remainingTime := service.remainingTime - dt);
      activeServices := activeServices[k := service];
      if service.remainingTime <= 0.0 {
        CompleteService(service.npc.uuid);
        k' := k;
      } else {
        k' := k + 1;
      }
    }

    /**
     * handleService. The worker's cooldown is not consulted. `thrown` reports the
     * TypeError calculateServiceTime raises for an inherited event name.
     */
    method HandleService(npc: Npc, workerAttr: GameConfig.Attribute) returns (thrown: bool)
      requires Valid()
      modifies this
      ensures State() == ServiceHandled(old(State()), npc, workerAttr) && Valid()
      ensures thrown <==> ServiceThrows(old(State()), npc, workerAttr)
    {
      thrown := false;
      if !isPlaying {
        return;
      }
      var j := 0;
      while j < |activeServices| && activeServices[j].npc.uuid != npc.uuid
        invariant 0 <= j <= |activeServices|
        invariant forall m :: 0 <= m < j ==> activeServices[m].npc.uuid != npc.uuid
      {
        j := j + 1;
      }
      if j < |activeServices| {
        return;
      }
      var ms := GameConfig.CalculateServiceTime(workerAttr, npc.event);
      if ms.None? {
        thrown := true;
        return;
      }
      var duration := ms.value / 1000.0;
      activeServices := activeServices + [Service(npc, duration, duration)];
    }

    /** completeService: the entry goes and SCORE_PER_EVENT is awarded. */
    method CompleteService(npcUuid: string)
      modifies this
      ensures State() == ServiceCompleted(old(State()), npcUuid)
      ensures old(Valid()) ==> Valid()
    {
      RemoveKeyFacts(activeServices, npcUuid);
      activeServices := RemoveKey(activeServices, npcUuid);
      score := score + GameConfig.ScorePerEvent;
    }

    /** endLevel(isWin): stops play; isWin is only shown to the player. */
    method EndLevel(isWin: bool)
      modifies this
      ensures State() == old(State()).(isPlaying := false)
    {
      isPlaying := false;
    }
  }
}
