/**
 * The pick-and-drop gate of src/systems/DragSystem.js. A pointer-down picks the
 * selected worker unless that worker is cooling down; a pointer-up ends the drag
 * and serves the first elder among the ray-cast hits, which scores a point and
 * starts the worker's cooldown on the LevelManager.
 *
 * The ray casts are inputs: a pointer event passes the floor point under the
 * pointer (`target`), a drop passes the hit list in distance order. The scene
 * and the ghost mesh are reduced to the fields the gate reads and writes.
 */
module Drag {
  import opened Wrappers
  import opened LevelSession

  /** A point of the scene. */
  datatype Vec3 = Vec3(x: real, y: real, z: real)

  const Origin: Vec3 := Vec3(0.0, 0.0, 0.0)

  /** An intersection: the object hit and its userData.type, none when it has none. */
  datatype Hit = Hit(objectId: string, kind: Option<string>)

  /** The ghost mesh once created: whether it is shown and where. */
  datatype Ghost = Ghost(visible: bool, position: Vec3)

  /** Everything a DragSystem holds apart from the LevelManager it drives. */
  datatype Gate = Gate(isDragging: bool, draggedWorkerId: Option<string>, ghostMesh: Option<Ghost>)

  const AtRest: Gate := Gate(false, None, None)

  /** The worker every pick drags. */
  const SelectedWorker: string := "Worker-A"

  const ElderKind: string := "elder"

  /** The cooldown test of onPointerDown: the worker is known and still cooling down. */
  predicate CoolingDown(lvl: Level, workerId: string)
  {
    var status := WorkerStatus(lvl.workers, workerId);
    status.Some? && status.value.cooldown > 0.0
  }

  /** onPointerDown: the new gate, or the old one when the pick is rejected. */
  function Picked(g: Gate, lvl: Level, selected: string, target: Vec3): Gate
  {
    if CoolingDown(lvl, selected) then g
    else Gate(true, Some(selected), Some(Ghost(true, target)))
  }

  /** onPointerMove: the ghost follows the pointer while dragging. */
  function Moved(g: Gate, target: Vec3): Gate
  {
    if g.isDragging && g.ghostMesh.Some? then g.(ghostMesh := Some(g.ghostMesh.value.(position := target))) else g
  }

  /** The position of the first hit tagged as an elder. */
  function FirstElder(hits: seq<Hit>): (r: Option<nat>)
    ensures r.Some? ==> r.value < |hits| && hits[r.value].kind == Some(ElderKind)
    ensures r.Some? ==> forall j :: 0 <= j < r.value ==> hits[j].kind != Some(ElderKind)
    ensures r.None? <==> forall j :: 0 <= j < |hits| ==> hits[j].kind != Some(ElderKind)
  {
    if hits == [] then None
    else if hits[0].kind == Some(ElderKind) then Some(0)
    else
      match FirstElder(hits[1..])
      case None => None
      case Some(k) => Some(k + 1)
  }

  /** serveElder on the LevelManager: incrementScore, then startWorkerCooldown(draggedWorkerId). */
  function Served(lvl: Level, draggedWorkerId: Option<string>): Level
  {
    var scored := Increment(lvl);
    // A null id matches no worker, so the cooldown table is then unchanged.
    if draggedWorkerId.Some? then scored.(workers := StartCooldown(scored.workers, draggedWorkerId.value))
    else scored
  }

  /** onPointerUp: the new gate and level, and the elder served if any. */
  function Dropped(g: Gate, lvl: Level, hits: seq<Hit>): (Gate, Level, Option<Hit>)
  {
    if !g.isDragging then (g, lvl, None)
    else
      var released := g.(isDragging := false,
                         ghostMesh := if g.ghostMesh.Some? then Some(g.ghostMesh.value.(visible := false)) else g.ghostMesh);
      match FirstElder(hits)
      case None => (released, lvl, None)
      case Some(k) => (released, Served(lvl, g.draggedWorkerId), Some(hits[k]))
  }

  /** What the gate keeps: a drag always carries the selected worker and a shown ghost. */
  predicate GateValid(g: Gate, selected: string)
  {
    && (g.isDragging ==> g.draggedWorkerId == Some(selected) && g.ghostMesh.Some?)
    && (g.ghostMesh.Some? ==> (g.ghostMesh.value.visible <==> g.isDragging))
  }

  class DragSystem {
    const levelManager: LevelManager
    const currentSelectedWorkerId: string
    var isDragging: bool
    var draggedWorkerId: Option<string>
    var ghostMesh: Option<Ghost>

    function State(): Gate
      reads this
    {
      Gate(isDragging, draggedWorkerId, ghostMesh)
    }

    predicate Valid()
      reads this
    {
      GateValid(State(), currentSelectedWorkerId)
    }

    constructor (levelManager: LevelManager)
      ensures this.levelManager == levelManager && currentSelectedWorkerId == SelectedWorker
      ensures State() == AtRest && Valid()
    {
      this.levelManager := levelManager;
      currentSelectedWorkerId := SelectedWorker;
      isDragging := false;
      draggedWorkerId := None;
      ghostMesh := None;
    }

    /** update(dt) does nothing: the system is driven by pointer events. */
    method Update(dt: real)
    {
    }

    /** onPointerDown; `rejected` stands for the cooldown message. */
    method OnPointerDown(target: Vec3) returns (rejected: bool)
      requires Valid()
      modifies this
      ensures rejected <==> CoolingDown(levelManager.State(), currentSelectedWorkerId)
      ensures State() == Picked(old(State()), levelManager.State(), currentSelectedWorkerId, target)
      ensures Valid()
    {
      var workerStatus := levelManager.GetWorkerStatus(currentSelectedWorkerId);
      if workerStatus.Some? && workerStatus.value.cooldown > 0.0 {
        return true;
      }
      rejected := false;
      isDragging := true;
      draggedWorkerId := Some(currentSelectedWorkerId);
      if ghostMesh.None? {
        ghostMesh := Some(Ghost(false, Origin));
      }
      ghostMesh := Some(ghostMesh.value.(visible := true));
      UpdateGhostPosition(target);
    }

    method OnPointerMove(target: Vec3)
      requires Valid()
      modifies this
      ensures State() == Moved(old(State()), target) && Valid()
    {
      if !isDragging {
        return;
      }
      UpdateGhostPosition(target);
    }

    /** The ghost moves to the floor point under the pointer. */
    method UpdateGhostPosition(target: Vec3)
      requires ghostMesh.Some?
      modifies this
      ensures State() == old(State()).(ghostMesh := Some(old(ghostMesh).value.(position := target)))
    {
      ghostMesh := Some(ghostMesh.value.(position := target));
    }

    /** onPointerUp; `served` is the elder handed to serveElder, if any. */
    method OnPointerUp(hits: seq<Hit>) returns (served: Option<Hit>)
      requires Valid()
      modifies this, levelManager
      ensures (State(), levelManager.State(), served) == Dropped(old(State()), old(levelManager.State()), hits)
      ensures Valid()
    {
      served := None;
      if !isDragging {
        return;
      }
      isDragging := false;
      ghostMesh := Some(ghostMesh.value.(visible := false));
      var i := 0;
      while i < |hits|
        invariant 0 <= i <= |hits|
        invariant forall j :: 0 <= j < i ==> hits[j].kind != Some(ElderKind)
        invariant levelManager.State() == old(levelManager.State())
        invariant State() == old(State()).(isDragging := false, ghostMesh := Some(old(ghostMesh).value.(visible := false)))
      {
        var hit := hits[i];
        if hit.kind == Some(ElderKind) {
          assert FirstElder(hits) == Some(i);
          ServeElder();
          return Some(hit);
        }
        i := i + 1;
      }
    }

    method ServeElder()
      modifies levelManager
      ensures levelManager.State() == Served(old(levelManager.State()), draggedWorkerId)
    {
      levelManager.IncrementScore();
      if draggedWorkerId.Some? {
        levelManager.StartWorkerCooldown(draggedWorkerId.value);
      }
    }
  }

  // ---------------------------------------------------------------------------
  // Properties

  /**
   * A pick is rejected, leaving the gate as it was, exactly when the selected worker
   * is known and cooling down; otherwise it starts a drag of that worker with the
   * ghost shown under the pointer. An unknown worker is never rejected.
   */
  lemma PickGate(g: Gate, lvl: Level, selected: string, target: Vec3)
    ensures var p := Picked(g, lvl, selected, target);
      && (CoolingDown(lvl, selected) ==> p == g)
      && (!CoolingDown(lvl, selected) ==> p == Gate(true, Some(selected), Some(Ghost(true, target))))
      && (CoolingDown(lvl, selected) <==>
            exists i :: 0 <= i < |lvl.workers| && lvl.workers[i].id == selected && lvl.workers[i].cooldown > 0.0
                     && forall j :: 0 <= j < i ==> lvl.workers[j].id != selected)
      && ((forall j :: 0 <= j < |lvl.workers| ==> lvl.workers[j].id != selected) ==> p.isDragging)
  {
    WorkerStatusIsFirstMatch(lvl.workers, selected);
  }

  /** Without a drag in progress, moving and releasing the pointer change nothing. */
  lemma IdleGateIgnoresMoveAndDrop(g: Gate, lvl: Level, target: Vec3, hits: seq<Hit>)
    requires !g.isDragging
    ensures Moved(g, target) == g && Dropped(g, lvl, hits) == (g, lvl, None)
  {
  }

  /**
   * A release during a drag always ends it and hides the ghost; with no elder among
   * the hits the level is untouched, otherwise exactly the first elder is served.
   */
  lemma {:induction false} DropOutcome(g: Gate, lvl: Level, hits: seq<Hit>)
    requires g.isDragging && g.ghostMesh.Some?
    ensures var (g2, lvl2, served) := Dropped(g, lvl, hits);
      && !g2.isDragging && g2.ghostMesh.Some? && !g2.ghostMesh.value.visible
      && ((forall j :: 0 <= j < |hits| ==> hits[j].kind != Some(ElderKind)) ==> lvl2 == lvl && served == None)
      && (forall k :: 0 <= k < |hits| && hits[k].kind == Some(ElderKind)
                        && (forall j :: 0 <= j < k ==> hits[j].kind != Some(ElderKind))
            ==> served == Some(hits[k]) && lvl2 == Served(lvl, g.draggedWorkerId))
  {
    forall k | 0 <= k < |hits| && hits[k].kind == Some(ElderKind)
                && (forall j :: 0 <= j < k ==> hits[j].kind != Some(ElderKind))
      ensures FirstElder(hits) == Some(k)
    {
      var r := FirstElder(hits);
      assert r.Some?;
      assert !(r.value < k) && !(k < r.value);
    }
  }

  /**
   * Serving scores one point while the level is on and puts the dragged worker's
   * cooldown at its maximum; no other worker and nothing else changes.
   */
  lemma ServedEffect(lvl: Level, workerId: string)
    ensures var s := Served(lvl, Some(workerId));
      && s.score == lvl.score + (if lvl.status == Playing then 1 else 0)
      && s.(score := lvl.score, workers := lvl.workers) == lvl
      && s.workers == StartCooldown(lvl.workers, workerId)
  {
  }

  /**
   * The cooldown the gate enforces: right after serving with a worker whose maximum
   * cooldown is positive, picking that worker again is rejected.
   */
  lemma ServeThenPickIsRejected(lvl: Level, workerId: string, i: nat, target: Vec3, g: Gate)
    requires i < |lvl.workers| && lvl.workers[i].id == workerId && lvl.workers[i].maxCooldown > 0.0
    requires forall j :: 0 <= j < i ==> lvl.workers[j].id != workerId
    ensures CoolingDown(Served(lvl, Some(workerId)), workerId)
    ensures Picked(g, Served(lvl, Some(workerId)), workerId, target) == g
  {
    var ws := lvl.workers;
    var f := FindWorker(ws, workerId);
    assert f.Some?;
    var after := StartCooldown(ws, workerId);
    assert after == ws[f.value := ws[f.value].(cooldown := ws[f.value].maxCooldown)];
    WorkerStatusIsFirstMatch(after, workerId);
    forall j | 0 <= j < f.value
      ensures after[j].id != workerId
    {
    }
    assert WorkerStatus(after, workerId) == Some(after[f.value]);
    assert Increment(lvl).workers == ws;
  }

  /** Every handler keeps the gate valid. */
  lemma HandlersKeepGateValid(g: Gate, lvl: Level, selected: string, target: Vec3, hits: seq<Hit>)
    requires GateValid(g, selected)
    ensures GateValid(Picked(g, lvl, selected, target), selected)
    ensures GateValid(Moved(g, target), selected)
    ensures GateValid(Dropped(g, lvl, hits).0, selected)
  {
  }
}
