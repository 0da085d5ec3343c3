/**
 * The frame driver of src/core/GameLoop.js. The browser's clock
 * (performance.now) and frame scheduler (requestAnimationFrame) are inputs: a
 * start passes the clock reading it takes, and each frame passes the timestamp
 * the browser hands to the callback and the id of the frame it requests next.
 * The registered systems are values; a frame returns the update(dt) calls it
 * makes, in order, instead of making them.
 */
module FrameLoop {
  import opened Wrappers

  /** A non-zero (so truthy) id as returned by requestAnimationFrame. */
  type FrameId = x: int | x > 0 witness 1

  /** A registered system, identified by `id`; whether it has an update method is checked on entry. */
  datatype SystemRef = SystemRef(id: string, hasUpdate: bool)

  /** One call system.update(dt) made by a frame. */
  datatype UpdateCall = UpdateCall(system: SystemRef, dt: real)

  /** Everything a GameLoop holds. Times are milliseconds. */
  datatype LoopState = LoopState(systems: seq<SystemRef>, lastTime: real, isRunning: bool,
                                 animationId: Option<FrameId>)

  const Constructed: LoopState := LoopState([], 0.0, false, None)

  /** The cap on a frame's dt in seconds. */
  const MaxDt: real := 0.1

  /** The dt a frame passes on: the elapsed seconds, capped from above only. */
  function SafeDt(currentTime: real, lastTime: real): (dt: real)
  {
    var elapsed := (currentTime - lastTime) / 1000.0;
    if elapsed < MaxDt then elapsed else MaxDt
  }

  /** addSystem: only a present object with an update method is registered. */
  function Added(s: LoopState, candidate: Option<SystemRef>): LoopState
  {
    if candidate.Some? && candidate.value.hasUpdate then s.(systems := s.systems + [candidate.value]) else s
  }

  /** The update calls of one frame: every system once, in registration order, with the same dt. */
  function FrameCalls(systems: seq<SystemRef>, dt: real): seq<UpdateCall>
  {
    seq(|systems|, j requires 0 <= j < |systems| => UpdateCall(systems[j], dt))
  }

  /** loop(currentTime): the new state and the calls made. */
  function Frame(s: LoopState, currentTime: real, next: FrameId): (LoopState, seq<UpdateCall>)
  {
    if !s.isRunning then (s, [])
    else (s.(lastTime := currentTime, animationId := Some(next)),
          FrameCalls(s.systems, SafeDt(currentTime, s.lastTime)))
  }

  /** start: `now` is the clock reading taken by start, `loopNow` the one the first loop() takes. */
  function Started(s: LoopState, now: real, loopNow: real, next: FrameId): (LoopState, seq<UpdateCall>)
  {
    if s.isRunning then (s, [])
    else Frame(s.(isRunning := true, lastTime := now), loopNow, next)
  }

  /** stop: the new state and the frame request cancelled, if any. */
  function Stopped(s: LoopState): (LoopState, Option<FrameId>)
  {
    (s.(isRunning := false, animationId := None), s.animationId)
  }

  class GameLoop {
    var systems: seq<SystemRef>
    var lastTime: real
    var isRunning: bool
    var animationId: Option<FrameId>

    function State(): LoopState
      reads this
    {
      LoopState(systems, lastTime, isRunning, animationId)
    }

    constructor ()
      ensures State() == Constructed
    {
      systems := [];
      lastTime := 0.0;
      isRunning := false;
      animationId := None;
    }

    /** addSystem; `rejected` stands for the console.error report. */
    method AddSystem(candidate: Option<SystemRef>) returns (rejected: bool)
      modifies this
      ensures State() == Added(old(State()), candidate)
      ensures rejected <==> !(candidate.Some? && candidate.value.hasUpdate)
    {
      if candidate.Some? && candidate.value.hasUpdate {
        systems := systems + [candidate.value];
        rejected := false;
      } else {
        rejected := true;
      }
    }

    method Start(now: real, loopNow: real, next: FrameId) returns (calls: seq<UpdateCall>)
      modifies this
      ensures (State(), calls) == Started(old(State()), now, loopNow, next)
    {
      calls := [];
      if isRunning {
        return;
      }
      isRunning := true;
      lastTime := now;
      calls := Loop(loopNow, next);
    }

    method Stop() returns (cancelled: Option<FrameId>)
      modifies this
      ensures (State(), cancelled) == Stopped(old(State()))
    {
      isRunning := false;
      cancelled := None;
      if animationId.Some? {
        cancelled := animationId;
        animationId := None;
      }
    }

    /** loop(currentTime): `next` is the id requestAnimationFrame returns for the following frame. */
    method Loop(currentTime: real, next: FrameId) returns (calls: seq<UpdateCall>)
      modifies this
      ensures (State(), calls) == Frame(old(State()), currentTime, next)
    {
      calls := [];
      if !isRunning {
        return;
      }
      var dt := (currentTime - lastTime) / 1000.0;
      lastTime := currentTime;
      var safeDt := if dt < MaxDt then dt else MaxDt;
      for i := 0 to |systems|
        invariant State() == old(State()).(lastTime := currentTime)
        invariant |calls| == i
        invariant forall j :: 0 <= j < i ==> calls[j] == UpdateCall(systems[j], safeDt)
      {
        calls := calls + [UpdateCall(systems[i], safeDt)];
      }
      assert calls == FrameCalls(systems, safeDt);
      animationId := Some(next);
    }
  }

  // ---------------------------------------------------------------------------
  // Properties

  /** dt never exceeds 0.1 s, and equals the elapsed time whenever that is below the cap. */
  lemma SafeDtIsCappedMin(currentTime: real, lastTime: real)
    ensures SafeDt(currentTime, lastTime) <= MaxDt
    ensures SafeDt(currentTime, lastTime) <= (currentTime - lastTime) / 1000.0
    ensures SafeDt(currentTime, lastTime) == MaxDt || SafeDt(currentTime, lastTime) == (currentTime - lastTime) / 1000.0
  {
  }

  /** Time is not clamped from below: a timestamp earlier than lastTime yields a negative dt. */
  lemma SafeDtCanBeNegative()
    ensures SafeDt(0.0, 1000.0) == -1.0
  {
  }

  /** A frame makes its calls exactly to the registered systems, in order, all with the frame's dt. */
  lemma FrameCallsEverySystemOnce(s: LoopState, currentTime: real, next: FrameId)
    requires s.isRunning
    ensures var calls := Frame(s, currentTime, next).1;
      && |calls| == |s.systems|
      && forall j :: 0 <= j < |calls| ==>
           calls[j].system == s.systems[j] && calls[j].dt == SafeDt(currentTime, s.lastTime) && calls[j].dt <= MaxDt
  {
  }

  /** Only systems that have an update method are ever registered. */
  lemma {:induction false} AddedSystemsHaveUpdate(s: LoopState, candidates: seq<Option<SystemRef>>)
    requires forall j :: 0 <= j < |s.systems| ==> s.systems[j].hasUpdate
    ensures var t := AddAll(s, candidates);
      forall j :: 0 <= j < |t.systems| ==> t.systems[j].hasUpdate
    ensures |AddAll(s, candidates).systems| <= |s.systems| + |candidates|
    decreases |candidates|
  {
    if candidates != [] {
      var t := Added(s, candidates[0]);
      assert forall j :: 0 <= j < |t.systems| ==> t.systems[j].hasUpdate;
      AddedSystemsHaveUpdate(t, candidates[1..]);
    }
  }

  function AddAll(s: LoopState, candidates: seq<Option<SystemRef>>): LoopState
    decreases |candidates|
  {
    if candidates == [] then s else AddAll(Added(s, candidates[0]), candidates[1..])
  }

  /** A stopped loop makes no calls and changes nothing, whatever the timestamp. */
  lemma FrameAfterStopIsInert(s: LoopState, currentTime: real, next: FrameId)
    ensures var stopped := Stopped(s).0;
      Frame(stopped, currentTime, next) == (stopped, []) && stopped.animationId == None
  {
  }

  /** Stopping twice cancels at most one frame request. */
  lemma StopIsIdempotent(s: LoopState)
    ensures Stopped(Stopped(s).0).0 == Stopped(s).0 && Stopped(Stopped(s).0).1 == None
  {
  }

  /** start on a running loop changes nothing. */
  lemma StartWhileRunningIsNoop(s: LoopState, now: real, loopNow: real, next: FrameId)
    requires s.isRunning
    ensures Started(s, now, loopNow, next) == (s, [])
  {
  }

  /**
   * A restart does not fast-forward: the first frame after start measures from the
   * clock reading of start, however long the loop had been stopped.
   */
  lemma RestartMeasuresFromStart(s: LoopState, stopAt: real, now: real, loopNow: real, next: FrameId)
    requires s.isRunning
    ensures var restarted := Started(Stopped(s.(lastTime := stopAt)).0, now, loopNow, next);
      && restarted.0.isRunning && restarted.0.lastTime == loopNow && restarted.0.animationId == Some(next)
      && restarted.1 == FrameCalls(s.systems, SafeDt(loopNow, now))
  {
  }
}
