/**
 * The LevelManager session engine of src/systems/LevelManager.js: score, countdown,
 * the idle/playing/finished status, the verdict at expiry and the per-worker
 * cooldown table.
 *
 * The observable state of a LevelManager is the value `Level`; the pure functions
 * below give each operation's effect on it, the class methods are proved to have
 * exactly that effect, and the lemmas state what the operations promise.
 */
module LevelSession {
  import opened Wrappers

  /** levelStatus: 'idle', 'playing' or 'finished'. */
  datatype Status = Idle | Playing | Finished

  /** The result checkWinCondition reports (VICTORY / DEFEAT). */
  datatype Verdict = Victory | Defeat

  /** An entry of the workers table: `{ id, cooldown, maxCooldown }`, cooldowns in seconds. */
  datatype Worker = Worker(id: string, cooldown: real, maxCooldown: real)

  /** The fields init reads from a level of the configuration, already converted to numbers. */
  datatype LevelConfig = LevelConfig(timeLimit: real, targetCount: int)

  /** The fields init reads from a worker of the configuration. */
  datatype WorkerConfig = WorkerConfig(id: string, cooldown: real)

  /** Everything a LevelManager holds. */
  datatype Level = Level(score: int, timeRemaining: real, targetCount: int, status: Status, workers: seq<Worker>)

  /** The state the constructor builds. */
  const Unstarted: Level := Level(0, 0.0, 0, Idle, [])

  /** The state init builds: one worker per configuration entry, in order, none cooling down. */
  function InitialLevel(levelConfig: LevelConfig, workerConfigs: seq<WorkerConfig>): Level
  {
    Level(0, levelConfig.timeLimit, levelConfig.targetCount, Playing,
          seq(|workerConfigs|, i requires 0 <= i < |workerConfigs| =>
                Worker(workerConfigs[i].id, 0.0, workerConfigs[i].cooldown)))
  }

  /** checkWinCondition's comparison. */
  function VerdictFor(score: int, targetCount: int): Verdict
  {
    if score >= targetCount then Victory else Defeat
  }

  /** One cooldown after a tick of `dt` seconds: only a positive cooldown moves, and it stops at 0. */
  function DecayCooldown(cooldown: real, dt: real): real
  {
    if cooldown > 0.0 then
      if cooldown - dt < 0.0 then 0.0 else cooldown - dt
    else
      cooldown
  }

  function DecayWorker(w: Worker, dt: real): Worker
  {
    w.(cooldown := DecayCooldown(w.cooldown, dt))
  }

  /** The cooldown step of update, applied to every worker in table order. */
  function DecayWorkers(ws: seq<Worker>, dt: real): seq<Worker>
  {
    seq(|ws|, i requires 0 <= i < |ws| => DecayWorker(ws[i], dt))
  }

  /** The countdown step of update: the level finishes, with a verdict, on the tick that crosses 0. */
  function Countdown(s: Level, dt: real): (Level, Option<Verdict>)
  {
    if s.timeRemaining > 0.0 then
      if s.timeRemaining - dt <= 0.0 then
        (s.(timeRemaining := 0.0, status := Finished), Some(VerdictFor(s.score, s.targetCount)))
      else
        (s.(timeRemaining := s.timeRemaining - dt), None)
    else
      (s, None)
  }

  /** update(dt): the new state and the verdict it reports, if any. */
  function Tick(s: Level, dt: real): (Level, Option<Verdict>)
  {
    if s.status != Playing then
      (s, None)
    else
      var counted := Countdown(s, dt);
      (counted.0.(workers := DecayWorkers(s.workers, dt)), counted.1)
  }

  /** incrementScore: one point, and only while playing. */
  function Increment(s: Level): Level
  {
    if s.status == Playing then s.(score := s.score + 1) else s
  }

  /** The index of the first worker with id `id` (Array.prototype.find). */
  function FindWorker(ws: seq<Worker>, id: string): (r: Option<nat>)
    ensures r.Some? ==> r.value < |ws| && ws[r.value].id == id
    ensures r.Some? ==> forall j :: 0 <= j < r.value ==> ws[j].id != id
    ensures r.None? ==> forall j :: 0 <= j < |ws| ==> ws[j].id != id
  {
    if ws == [] then None
    else if ws[0].id == id then Some(0)
    else
      match FindWorker(ws[1..], id)
      case None => None
      case Some(k) => Some(k + 1)
  }

  /** getWorkerStatus on a table. */
  function WorkerStatus(ws: seq<Worker>, id: string): Option<Worker>
  {
    match FindWorker(ws, id)
    case None => None
    case Some(i) => Some(ws[i])
  }

  /** startWorkerCooldown on a table: the first worker with that id restarts at its maximum. */
  function StartCooldown(ws: seq<Worker>, id: string): seq<Worker>
  {
    match FindWorker(ws, id)
    case None => ws
    case Some(i) => ws[i := ws[i].(cooldown := ws[i].maxCooldown)]
  }

  /** What a well-formed cooldown table keeps: every cooldown between 0 and its maximum. */
  predicate WorkersValid(ws: seq<Worker>)
  {
    forall i :: 0 <= i < |ws| ==> 0.0 <= ws[i].cooldown <= ws[i].maxCooldown
  }

  /** The session invariant: the score is a count, the countdown is never negative, cooldowns are in range. */
  predicate Inv(s: Level)
  {
    s.score >= 0 && s.timeRemaining >= 0.0 && WorkersValid(s.workers)
  }

  class LevelManager {
    var score: int
    var timeRemaining: real
    var targetCount: int
    var levelStatus: Status
    var workers: seq<Worker>

    function State(): Level
      reads this
    {
      Level(score, timeRemaining, targetCount, levelStatus, workers)
    }

    constructor ()
      ensures State() == Unstarted
    {
      score := 0;
      timeRemaining := 0.0;
      targetCount := 0;
      levelStatus := Idle;
      workers := [];
    }

    method Init(levelConfig: LevelConfig, workerConfigs: seq<WorkerConfig>)
      modifies this
      ensures State() == InitialLevel(levelConfig, workerConfigs)
    {
      score := 0;
      timeRemaining := levelConfig.timeLimit;
      targetCount := levelConfig.targetCount;
      levelStatus := Playing;
      workers := seq(|workerConfigs|, i requires 0 <= i < |workerConfigs| =>
                       Worker(workerConfigs[i].id, 0.0, workerConfigs[i].cooldown));
    }

    /** update(dt); `verdict` is what checkWinCondition reports on the tick that ends the level. */
    method Update(dt: real) returns (verdict: Option<Verdict>)
      modifies this
      ensures (State(), verdict) == Tick(old(State()), dt)
    {
      verdict := None;
      if levelStatus != Playing {
        return;
      }
      if timeRemaining > 0.0 {
        timeRemaining := timeRemaining - dt;
        if timeRemaining <= 0.0 {
          timeRemaining := 0.0;
          var v := CheckWinCondition();
          verdict := Some(v);
        }
      }
      ghost var counted := State();
      ghost var before := workers;
      var i := 0;
      while i < |workers|
        invariant State().(workers := before) == counted
        invariant 0 <= i <= |workers| == |before|
        invariant forall j :: 0 <= j < i ==> workers[j] == DecayWorker(before[j], dt)
        invariant forall j :: i <= j < |workers| ==> workers[j] == before[j]
      {
        var w := workers[i];
        if w.cooldown > 0.0 {
          var c := w.cooldown - dt;
          if c < 0.0 {
            c := 0.0;
          }
          workers := workers[i := w.(cooldown := c)];
        }
        i := i + 1;
      }
      assert workers == DecayWorkers(before, dt);
    }

    method IncrementScore()
      modifies this
      ensures State() == Increment(old(State()))
    {
      if levelStatus != Playing {
        return;
      }
      score := score + 1;
    }

    method StartWorkerCooldown(workerId: string)
      modifies this
      ensures State() == old(State()).(workers := StartCooldown(old(workers), workerId))
    {
      var i := 0;
      while i < |workers| && workers[i].id != workerId
        invariant 0 <= i <= |workers|
        invariant forall j :: 0 <= j < i ==> workers[j].id != workerId
      {
        i := i + 1;
      }
      if i < |workers| {
        workers := workers[i := workers[i].(cooldown := workers[i].maxCooldown)];
      }
    }

    /** getWorkerStatus: the first worker with that id, or none. */
    function GetWorkerStatus(workerId: string): (w: Option<Worker>)
      reads this
      ensures w.Some? <==> exists i :: 0 <= i < |workers| && workers[i].id == workerId
      ensures w.Some? ==> w.value.id == workerId && w.value in workers
    {
      WorkerStatus(workers, workerId)
    }

    /** checkWinCondition: ends the level and reports victory iff the target was reached. */
    method CheckWinCondition() returns (v: Verdict)
      modifies this
      ensures State() == old(State()).(status := Finished)
      ensures v == Victory <==> score >= targetCount
    {
      levelStatus := Finished;
      v := if score >= targetCount then Victory else Defeat;
    }
  }

  // ---------------------------------------------------------------------------
  // Properties of one operation

  /** init resets the score, starts playing, copies the limits and builds the table in configuration order. */
  lemma InitialLevelShape(levelConfig: LevelConfig, workerConfigs: seq<WorkerConfig>)
    ensures var s := InitialLevel(levelConfig, workerConfigs);
      && s.score == 0 && s.status == Playing
      && s.timeRemaining == levelConfig.timeLimit && s.targetCount == levelConfig.targetCount
      && |s.workers| == |workerConfigs|
      && forall i :: 0 <= i < |workerConfigs| ==>
           s.workers[i].id == workerConfigs[i].id && s.workers[i].cooldown == 0.0
           && s.workers[i].maxCooldown == workerConfigs[i].cooldown
    ensures (forall i :: 0 <= i < |workerConfigs| ==> workerConfigs[i].cooldown >= 0.0) && levelConfig.timeLimit >= 0.0
            ==> Inv(InitialLevel(levelConfig, workerConfigs))
  {
  }

  /** update does nothing unless the level is being played. */
  lemma TickIdleOrFinishedIsNoop(s: Level, dt: real)
    requires s.status != Playing
    ensures Tick(s, dt) == (s, None)
  {
  }

  /**
   * While playing, the level finishes on exactly the tick where a positive countdown
   * reaches 0 or below; the countdown is then clamped to 0 and the verdict is victory
   * iff the score reached the target. The score never changes in update.
   */
  lemma TickFinishesIffCountdownCrosses(s: Level, dt: real)
    requires s.status == Playing
    ensures var (t, v) := Tick(s, dt);
      && t.score == s.score && t.targetCount == s.targetCount
      && (t.status == Finished <==> s.timeRemaining > 0.0 && s.timeRemaining - dt <= 0.0)
      && (t.status != Finished ==> t.status == Playing && v.None?)
      && (t.status == Finished ==> t.timeRemaining == 0.0 && v.Some?)
      && (v == Some(Victory) <==> t.status == Finished && s.score >= s.targetCount)
      && (v == Some(Defeat) <==> t.status == Finished && s.score < s.targetCount)
  {
  }

  /** A level whose countdown is already at or below 0 never finishes: the countdown step is skipped. */
  lemma TickExpiredCountdownNeverFinishes(s: Level, dt: real)
    requires s.status == Playing && s.timeRemaining <= 0.0
    ensures Tick(s, dt).0.status == Playing
    ensures Tick(s, dt).0.timeRemaining == s.timeRemaining
    ensures Tick(s, dt).1 == None
  {
  }

  /** The countdown is never left negative by update. */
  lemma TickKeepsCountdownNonNegative(s: Level, dt: real)
    requires s.timeRemaining >= 0.0
    ensures Tick(s, dt).0.timeRemaining >= 0.0
  {
  }

  /** Cooldowns decay on every playing tick, the finishing one included, and never move otherwise. */
  lemma TickDecaysEveryWorker(s: Level, dt: real)
    ensures |Tick(s, dt).0.workers| == |s.workers|
    ensures forall i :: 0 <= i < |s.workers| ==>
      Tick(s, dt).0.workers[i] ==
        if s.status == Playing then s.workers[i].(cooldown := DecayCooldown(s.workers[i].cooldown, dt))
        else s.workers[i]
  {
  }

  /** With a non-negative step a cooldown never grows, never drops below 0, and drops by dt while that stays positive. */
  lemma DecayCooldownBounds(c: real, dt: real)
    requires dt >= 0.0 && c >= 0.0
    ensures 0.0 <= DecayCooldown(c, dt) <= c
    ensures DecayCooldown(c, dt) == (if c - dt >= 0.0 then c - dt else 0.0)
  {
  }

  /** update keeps every cooldown in [0, maxCooldown] when dt >= 0. */
  lemma TickKeepsWorkersValid(s: Level, dt: real)
    requires dt >= 0.0 && WorkersValid(s.workers)
    ensures WorkersValid(Tick(s, dt).0.workers)
  {
    var t := Tick(s, dt).0;
    forall i | 0 <= i < |t.workers|
      ensures 0.0 <= t.workers[i].cooldown <= t.workers[i].maxCooldown
    {
      DecayCooldownBounds(s.workers[i].cooldown, dt);
    }
  }

  /**
   * startWorkerCooldown restarts exactly the first worker with the given id at its
   * maximum and leaves every other entry as it was; an unknown id changes nothing.
   */
  lemma StartCooldownEffect(ws: seq<Worker>, id: string)
    ensures |StartCooldown(ws, id)| == |ws|
    ensures forall i :: 0 <= i < |ws| ==>
      StartCooldown(ws, id)[i] ==
        if ws[i].id == id && (forall j :: 0 <= j < i ==> ws[j].id != id)
        then ws[i].(cooldown := ws[i].maxCooldown) else ws[i]
    ensures (forall i :: 0 <= i < |ws| ==> ws[i].id != id) ==> StartCooldown(ws, id) == ws
  {
  }

  /** startWorkerCooldown keeps the table well formed. */
  lemma StartCooldownKeepsWorkersValid(ws: seq<Worker>, id: string)
    requires WorkersValid(ws)
    ensures WorkersValid(StartCooldown(ws, id))
  {
  }

  /** getWorkerStatus returns the first entry with the id, or none when no entry has it. */
  lemma WorkerStatusIsFirstMatch(ws: seq<Worker>, id: string)
    ensures WorkerStatus(ws, id).None? <==> forall j :: 0 <= j < |ws| ==> ws[j].id != id
    ensures forall i :: 0 <= i < |ws| && ws[i].id == id && (forall j :: 0 <= j < i ==> ws[j].id != id)
                ==> WorkerStatus(ws, id) == Some(ws[i])
  {
    forall i | 0 <= i < |ws| && ws[i].id == id && (forall j :: 0 <= j < i ==> ws[j].id != id)
      ensures WorkerStatus(ws, id) == Some(ws[i])
    {
    }
  }

  /** incrementScore adds exactly one point while playing and is ignored otherwise. */
  lemma IncrementAddsOneWhilePlaying(s: Level)
    ensures Increment(s).score == s.score + (if s.status == Playing then 1 else 0)
    ensures Increment(s).(score := s.score) == s
  {
  }

  /** Every operation keeps the session invariant (update needs dt >= 0). */
  lemma OperationsKeepInv(s: Level, dt: real, id: string)
    requires Inv(s)
    ensures dt >= 0.0 ==> Inv(Tick(s, dt).0)
    ensures Inv(Increment(s))
    ensures Inv(s.(workers := StartCooldown(s.workers, id)))
  {
    if dt >= 0.0 {
      TickKeepsWorkersValid(s, dt);
    }
    StartCooldownKeepsWorkersValid(s.workers, id);
  }

  /** The status only ever moves from Playing to Finished in update, and never in the other operations. */
  lemma StatusOnlyAdvances(s: Level, dt: real, id: string)
    ensures Tick(s, dt).0.status == s.status || (s.status == Playing && Tick(s, dt).0.status == Finished)
    ensures Increment(s).status == s.status
    ensures s.(workers := StartCooldown(s.workers, id)).status == s.status
  {
  }

  // ---------------------------------------------------------------------------
  // Properties of many ticks

  function Sum(dts: seq<real>): real
  {
    if dts == [] then 0.0 else dts[0] + Sum(dts[1..])
  }

  predicate AllNonNegative(dts: seq<real>)
  {
    forall i :: 0 <= i < |dts| ==> dts[i] >= 0.0
  }

  /** The state after calling update once per step of `dts`. */
  function Run(s: Level, dts: seq<real>): Level
    decreases |dts|
  {
    if dts == [] then s else Run(Tick(s, dts[0]).0, dts[1..])
  }

  /** The verdicts reported along the way, in order. */
  function Verdicts(s: Level, dts: seq<real>): seq<Verdict>
    decreases |dts|
  {
    if dts == [] then []
    else
      var (t, v) := Tick(s, dts[0]);
      (if v.Some? then [v.value] else []) + Verdicts(t, dts[1..])
  }

  lemma {:induction false} RunAfterFinishIsNoop(s: Level, dts: seq<real>)
    requires s.status != Playing
    ensures Run(s, dts) == s && Verdicts(s, dts) == []
    decreases |dts|
  {
    if dts != [] {
      RunAfterFinishIsNoop(s, dts[1..]);
    }
  }

  /**
   * However the elapsed time is cut into non-negative steps, a level started with a
   * positive time limit finishes exactly when the steps add up to the limit: the
   * countdown is then exactly 0, and exactly one verdict has been reported, the one
   * for the score at the start (update never changes the score).
   */
  lemma {:induction false} RunFinishesOnceAtLimit(s: Level, dts: seq<real>)
    requires s.status == Playing && s.timeRemaining > 0.0 && AllNonNegative(dts)
    ensures Sum(dts) >= s.timeRemaining ==>
      Run(s, dts).status == Finished && Run(s, dts).timeRemaining == 0.0
      && Verdicts(s, dts) == [VerdictFor(s.score, s.targetCount)]
    ensures Sum(dts) < s.timeRemaining ==>
      Run(s, dts).status == Playing && Run(s, dts).timeRemaining == s.timeRemaining - Sum(dts)
      && Verdicts(s, dts) == []
    ensures Run(s, dts).score == s.score
    decreases |dts|
  {
    if dts != [] {
      var d := dts[0];
      var (t, v) := Tick(s, d);
      assert AllNonNegative(dts[1..]) by {
        forall i | 0 <= i < |dts[1..]| ensures dts[1..][i] >= 0.0 { assert dts[1..][i] == dts[i + 1]; }
      }
      if s.timeRemaining - d <= 0.0 {
        RunAfterFinishIsNoop(t, dts[1..]);
        SumNonNegative(dts[1..]);
      } else {
        RunFinishesOnceAtLimit(t, dts[1..]);
      }
    }
  }

  lemma {:induction false} SumNonNegative(dts: seq<real>)
    requires AllNonNegative(dts)
    ensures Sum(dts) >= 0.0
    decreases |dts|
  {
    if dts != [] {
      assert AllNonNegative(dts[1..]) by {
        forall i | 0 <= i < |dts[1..]| ensures dts[1..][i] >= 0.0 { assert dts[1..][i] == dts[i + 1]; }
      }
      SumNonNegative(dts[1..]);
    }
  }

  /** A cooldown after a series of ticks. */
  function DecayRun(c: real, dts: seq<real>): real
    decreases |dts|
  {
    if dts == [] then c else DecayRun(DecayCooldown(c, dts[0]), dts[1..])
  }

  /**
   * A started cooldown counts down by the elapsed time and reaches exactly 0 once
   * the non-negative steps add up to its length; it never goes negative.
   */
  lemma {:induction false} CooldownReachesZero(c: real, dts: seq<real>)
    requires c >= 0.0 && AllNonNegative(dts)
    ensures DecayRun(c, dts) == if Sum(dts) >= c then 0.0 else c - Sum(dts)
    decreases |dts|
  {
    if dts != [] {
      assert AllNonNegative(dts[1..]) by {
        forall i | 0 <= i < |dts[1..]| ensures dts[1..][i] >= 0.0 { assert dts[1..][i] == dts[i + 1]; }
      }
      var c' := DecayCooldown(c, dts[0]);
      if c == 0.0 {
        CooldownReachesZero(0.0, dts[1..]);
        SumNonNegative(dts[1..]);
      } else {
        CooldownReachesZero(c', dts[1..]);
        SumNonNegative(dts[1..]);
      }
    }
  }
}
