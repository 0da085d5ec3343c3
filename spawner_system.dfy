/**
 * The elder spawner of src/systems/SpawnerSystem.js: a timer that, once it
 * reaches the spawn rate, restarts from zero and creates one elder at a random
 * spot of the 20 x 20 floor. The three Math.random() draws of a spawn and the
 * id string built from the third are inputs (`Draw`); the Three.js mesh is
 * reduced to its position and userData.
 */
module Spawner {
  import opened Wrappers

  /** The random inputs one spawnElder consumes: two draws for x and z, and the derived id. */
  datatype Draw = Draw(xRand: real, zRand: real, id: string)

  /** An elder: its position and the userData the drag system's ray cast looks for. */
  datatype Elder = Elder(x: real, y: real, z: real, kind: string, id: string)

  /** Everything a SpawnerSystem holds apart from the scene. */
  datatype Spawning = Spawning(spawnRate: real, timer: real, elders: seq<Elder>)

  const DefaultSpawnRate: real := 5.0
  const ElderTag: string := "elder"

  predicate DrawOk(d: Draw)
  {
    0.0 <= d.xRand < 1.0 && 0.0 <= d.zRand < 1.0
  }

  /** levelConfig.spawnRate || 5.0: a missing or zero rate falls back to the default. */
  function SpawnRateOrDefault(configured: Option<real>): (rate: real)
    ensures configured.None? ==> rate == DefaultSpawnRate
    ensures configured.Some? && configured.value == 0.0 ==> rate == DefaultSpawnRate
    ensures configured.Some? && configured.value != 0.0 ==> rate == configured.value
  {
    if configured.Some? && configured.value != 0.0 then configured.value else DefaultSpawnRate
  }

  /** Maps a draw in [0, 1) onto the floor coordinate (r - 0.5) * 20. */
  function FloorCoordinate(r: real): real
  {
    (r - 0.5) * 20.0
  }

  /** The elder spawnElder creates from a draw. */
  function NewElder(d: Draw): Elder
  {
    Elder(FloorCoordinate(d.xRand), 0.5, FloorCoordinate(d.zRand), ElderTag, d.id)
  }

  function Initial(configured: Option<real>): Spawning
  {
    Spawning(SpawnRateOrDefault(configured), 0.0, [])
  }

  /** update(dt): `d` is consumed only if this tick spawns. */
  function Step(s: Spawning, dt: real, d: Draw): Spawning
  {
    if s.timer + dt >= s.spawnRate then s.(timer := 0.0, elders := s.elders + [NewElder(d)])
    else s.(timer := s.timer + dt)
  }

  class SpawnerSystem {
    var spawnRate: real
    var timer: real
    var elders: seq<Elder>

    function State(): Spawning
      reads this
    {
      Spawning(spawnRate, timer, elders)
    }

    /** `configured` is levelConfig.spawnRate, None when absent. */
    constructor (configured: Option<real>)
      ensures State() == Initial(configured)
    {
      spawnRate := if configured.Some? && configured.value != 0.0 then configured.value else DefaultSpawnRate;
      timer := 0.0;
      elders := [];
    }

    method Update(dt: real, d: Draw)
      modifies this
      ensures State() == Step(old(State()), dt, d)
    {
      timer := timer + dt;
      if timer >= spawnRate {
        timer := 0.0;
        SpawnElder(d);
      }
    }

    method SpawnElder(d: Draw)
      modifies this
      ensures State() == old(State()).(elders := old(elders) + [NewElder(d)])
    {
      var x := (d.xRand - 0.5) * 20.0;
      var z := (d.zRand - 0.5) * 20.0;
      var elder := Elder(x, 0.5, z, ElderTag, d.id);
      elders := elders + [elder];
    }
  }

  // ---------------------------------------------------------------------------
  // Properties

  /** Every elder stands on the floor inside [-10, 10) x [-10, 10), tagged for the ray cast. */
  lemma NewElderPlacement(d: Draw)
    requires DrawOk(d)
    ensures var e := NewElder(d);
      -10.0 <= e.x < 10.0 && -10.0 <= e.z < 10.0 && e.y == 0.5 && e.kind == ElderTag && e.id == d.id
  {
  }

  /**
   * A tick spawns exactly when the accumulated time reaches the rate; then the timer
   * restarts at zero and one elder is appended, otherwise the timer just accumulates.
   */
  lemma StepFiresIff(s: Spawning, dt: real, d: Draw)
    ensures var t := Step(s, dt, d);
      && t.spawnRate == s.spawnRate
      && (|t.elders| == |s.elders| + 1 <==> s.timer + dt >= s.spawnRate)
      && (s.timer + dt >= s.spawnRate ==> t.timer == 0.0 && t.elders[|s.elders|] == NewElder(d))
      && (s.timer + dt < s.spawnRate ==> t.timer == s.timer + dt && t.elders == s.elders)
      && t.elders[..|s.elders|] == s.elders
  {
  }

  /** For a positive rate and non-negative ticks, the timer stays in [0, spawnRate). */
  predicate TimerInRange(s: Spawning)
  {
    s.spawnRate > 0.0 && 0.0 <= s.timer < s.spawnRate
  }

  lemma StepKeepsTimerInRange(s: Spawning, dt: real, d: Draw)
    requires TimerInRange(s) && dt >= 0.0
    ensures TimerInRange(Step(s, dt, d))
  {
  }

  /** A positive configured rate, or the fallback, gives a fresh spawner in range. */
  lemma InitialTimerInRange(configured: Option<real>)
    requires configured.None? || configured.value >= 0.0
    ensures TimerInRange(Initial(configured))
  {
  }

  /** A negative configured rate is kept (it is truthy), and then every tick spawns. */
  lemma NegativeRateSpawnsEveryTick(rate: real, dt: real, d: Draw)
    requires rate < 0.0 && dt >= 0.0
    ensures |Step(Initial(Some(rate)), dt, d).elders| == 1
  {
  }

  /** A run of update calls, one draw per tick. */
  function Run(s: Spawning, ticks: seq<(real, Draw)>): Spawning
    decreases |ticks|
  {
    if ticks == [] then s else Run(Step(s, ticks[0].0, ticks[0].1), ticks[1..])
  }

  /**
   * Over any run: the earlier elders are kept in order, at most one elder is added
   * per tick, every added elder is tagged, and the timer range is kept.
   */
  lemma {:induction false} RunKeepsEldersAndRange(s: Spawning, ticks: seq<(real, Draw)>)
    ensures var t := Run(s, ticks);
      && |s.elders| <= |t.elders| <= |s.elders| + |ticks|
      && t.elders[..|s.elders|] == s.elders
      && (forall j :: |s.elders| <= j < |t.elders| ==> t.elders[j].kind == ElderTag)
      && (TimerInRange(s) && (forall i :: 0 <= i < |ticks| ==> ticks[i].0 >= 0.0) ==> TimerInRange(t))
    decreases |ticks|
  {
    if ticks != [] {
      var next := Step(s, ticks[0].0, ticks[0].1);
      StepFiresIff(s, ticks[0].0, ticks[0].1);
      RunKeepsEldersAndRange(next, ticks[1..]);
      var t := Run(s, ticks);
      assert t == Run(next, ticks[1..]);
      assert t.elders[..|next.elders|] == next.elders;
      assert t.elders[..|s.elders|] == next.elders[..|s.elders|];
      if TimerInRange(s) && (forall i :: 0 <= i < |ticks| ==> ticks[i].0 >= 0.0) {
        StepKeepsTimerInRange(s, ticks[0].0, ticks[0].1);
        assert forall i :: 0 <= i < |ticks[1..]| ==> ticks[1..][i] == ticks[i + 1];
      }
    }
  }
}
