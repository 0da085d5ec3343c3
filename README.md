# OldManGame session engines in Dafny

This project models and proves properties of the game logic of OldManGame, a casual browser game. Events ("E-01" … "E-05") appear on a board, and the player drags social workers onto elderly NPCs to serve them. How well a worker's attribute matches the event decides the service time. A score and a countdown decide the level. The project models:

- **GameConfig** (`game_config.dfy`): the event catalogue, the numeric game rules and `calculateServiceTime`.
- **LevelSession** (`level_manager.dfy`): the `LevelManager` class. It covers score, countdown, the idle → playing → finished status, the verdict at expiry and the per-worker cooldown table.
- **GameSession** and **GameSessionFacts** (`game_manager.dfy`, `game_manager_facts.dfy`): the `GameManager` class. It covers the level countdown, the randomised spawn cadence, and the `activeServices` map of NPC uuid to service. Services count down each tick and award `SCORE_PER_EVENT` on completion.
- **FrameLoop** (`game_loop.dfy`): the `GameLoop` class. It covers system registration, start and stop, the capped `dt` and the per-frame update calls.
- **Spawner** (`spawner_system.dfy`): the `SpawnerSystem` class. Its timer spawns one elder each time it reaches the spawn rate.
- **Drag** (`drag_system.dfy`): the `DragSystem` class. It runs the pick / move / drop gate, which checks the worker's cooldown on pick and serves the first elder hit on drop.
- **ConfigLoader** and **ConfigLoaderFacts** (`config_loader.dfy`, `config_loader_facts.dfy`): `parseConfig`, the line-by-line reader of the markdown configuration tables.
- **ViteConfig** (`vite_config.dfy`): the build plugin's `transform(code, id)`. It has its own copy of the table reader, and that copy is proved to compute exactly what `parseConfig` computes.
- **JsText** (`js_text.dfy`): the JavaScript string operations the readers use. These are `split`, `trim`, `includes`, `startsWith`, `toLowerCase`, the `/\((.*?)\)/` match and the `parseFloat`/`isFinite` test.
- **Wrappers** (`wrappers.dfy`): `Option`.

Each class in the source has a class here. It holds the fields the game logic reads and writes, and its methods change them (`modifies this`). The fields that are abstracted or absent are listed under "## Left out". Each class also has a value datatype of its state and a `State()` function that reads the fields into it. Every method is proved to move `State()` exactly as a pure transition function of module level prescribes (for example `LevelSession.Tick` or `GameSession.Tick`). The game's promises are then proved as lemmas about those functions. Loops in the source stay loops:

- the cooldown `forEach`;
- the `activeServices` `forEach`, which deletes while iterating;
- the `for` loop over registered systems;
- the hit loop with its early return;
- the line loop and cell loop of both table readers.

Each of these loops carries the invariants that tie it to its function.

Inputs the engine takes from its environment become parameters:

- `Math.random()` becomes a `rand` value in `[0, 1)`.
- `performance.now()` becomes a clock reading, and the timestamp passed to a frame becomes a parameter.
- The id that `requestAnimationFrame` returns becomes a parameter.
- The ray-cast results become a hit list and a floor point.
- The random numbers of a spawn and the elder's generated id become a `Draw`.

Times are `real` numbers: seconds for the game timers, milliseconds where the source uses them.

## Model

| member | source | states |
|---|---|---|
| GameConfig.CalculateServiceTime | src/core/GameConfig.js:72-90 | The call fails (None) exactly for an id that the EventTypes lookup finds on Object.prototype, where reading requiredAttr.includes throws. Otherwise the duration is either the reduced 2500 ms or the base 5000 ms, so it is positive and at most the base. |
| GameConfig.ServiceTimeMatchesIff | src/core/GameConfig.js:73-89 | The result is 2500 exactly when the attribute is in the event's requiredAttr. It is 5000 exactly when it is not and the call does not throw. |
| GameConfig.UnknownEventUsesBase | src/core/GameConfig.js:73-77 | An id that is neither in the catalogue nor an inherited Object.prototype name gives the base time. |
| GameConfig.InheritedNamesThrow | src/core/GameConfig.js:73-81 | Every inherited name ("toString", "constructor", "__proto__", …) passes the `!event` guard and makes the call throw; no catalogue id is such a name. |
| GameConfig.SelfTestVectors | src/core/GameConfig.js:95-97 | Strong vs E-01 gives 2500, Talkative vs E-01 gives 5000, and Smart vs E-05 gives 2500. |
| GameConfig.CatalogueWellFormed | src/core/GameConfig.js:15-51 | Every entry's id equals its key and it requires at least one attribute. The key list holds exactly the catalogue keys, without repeats. |
| GameConfig.EmergencyMatchesStrongAndSmart | src/core/GameConfig.js:44-50 | E-05 is a perfect match for Strong and Smart and not for Talkative. |
| LevelSession.LevelManager.constructor | src/systems/LevelManager.js:11-20 | A new manager has score 0, no time, target 0, status idle and no workers. |
| LevelSession.LevelManager.Init | src/systems/LevelManager.js:27-39 | init sets the state to InitialLevel of its configuration. |
| LevelSession.InitialLevelShape | src/systems/LevelManager.js:27-39 | init gives score 0 and status playing, and copies the time limit and target. It builds one worker per configuration entry, in order, each with cooldown 0 and that entry's maximum. The session invariant holds when the configuration values are non-negative. |
| LevelSession.LevelManager.Update | src/systems/LevelManager.js:52-74 | update moves the state and reports the verdict exactly as Tick does. The in-place forEach over workers is a loop with its invariants. |
| LevelSession.TickIdleOrFinishedIsNoop | src/systems/LevelManager.js:53 | update changes nothing and reports nothing unless the level is playing. |
| LevelSession.TickFinishesIffCountdownCrosses | src/systems/LevelManager.js:56-61 | While playing, the level finishes exactly on the tick where a positive countdown reaches 0 or below. The countdown is then clamped to 0 and a verdict is reported: victory iff score ≥ target, defeat otherwise. Score and target do not change. |
| LevelSession.TickExpiredCountdownNeverFinishes | src/systems/LevelManager.js:56 | A playing level whose countdown is already ≤ 0 stays playing, keeps its countdown and reports no verdict. |
| LevelSession.TickKeepsCountdownNonNegative | src/systems/LevelManager.js:56-61 | update never leaves a non-negative countdown negative. |
| LevelSession.TickDecaysEveryWorker | src/systems/LevelManager.js:64-73 | On every playing tick, the finishing one included, each worker's cooldown decays. On other ticks no worker changes. The table keeps its length and order. |
| LevelSession.DecayCooldownBounds | src/systems/LevelManager.js:66-71 | With dt ≥ 0 a cooldown decreases by dt and is clamped at 0. It never increases. |
| LevelSession.TickKeepsWorkersValid | src/systems/LevelManager.js:64-73 | With dt ≥ 0, every cooldown stays within [0, maxCooldown]. |
| LevelSession.CooldownReachesZero | src/systems/LevelManager.js:65-73 | Over any run of non-negative ticks, a cooldown equals its start minus the elapsed time. It is exactly 0 once the ticks add up to it. |
| LevelSession.LevelManager.IncrementScore | src/systems/LevelManager.js:79-86 | incrementScore has exactly Increment's effect. |
| LevelSession.IncrementAddsOneWhilePlaying | src/systems/LevelManager.js:79-81 | The score grows by one while playing and is unchanged otherwise. Nothing else changes. |
| LevelSession.FindWorker | src/systems/LevelManager.js:93 | Array find: the index of the first worker with the id, or none when no worker has it. |
| LevelSession.LevelManager.StartWorkerCooldown | src/systems/LevelManager.js:92-98 | Only the workers table changes, and it becomes StartCooldown of the old table. |
| LevelSession.StartCooldownEffect | src/systems/LevelManager.js:92-98 | Exactly the first worker with the id restarts at its maxCooldown. Every other entry is kept, and an unknown id changes nothing. |
| LevelSession.StartCooldownKeepsWorkersValid | src/systems/LevelManager.js:92-98 | Starting a cooldown keeps every cooldown within [0, maxCooldown]. |
| LevelSession.LevelManager.GetWorkerStatus | src/systems/LevelManager.js:103-105 | A worker is returned iff one with the id exists, and the returned one has that id. |
| LevelSession.WorkerStatusIsFirstMatch | src/systems/LevelManager.js:103-105 | The result is none iff no worker has the id. Otherwise it is the first worker with the id. |
| LevelSession.LevelManager.CheckWinCondition | src/systems/LevelManager.js:110-118 | The status becomes finished, and the verdict is victory iff score ≥ targetCount. |
| LevelSession.OperationsKeepInv | src/systems/LevelManager.js:52-98 | The invariant holds across every operation: the score is non-negative, the countdown is non-negative and every cooldown is in range. update needs dt ≥ 0 for this. |
| LevelSession.StatusOnlyAdvances | src/systems/LevelManager.js:52-98 | The status only moves from playing to finished, and only in update. |
| LevelSession.RunAfterFinishIsNoop | src/systems/LevelManager.js:53 | A finished or idle level stays as it is, with no verdicts, over any run of updates. |
| LevelSession.RunFinishesOnceAtLimit | src/systems/LevelManager.js:52-62 | However the time is cut into non-negative ticks, the level finishes exactly when the ticks add up to the time limit, with the countdown at 0. Exactly one verdict is reported, the one for the score. Before that the countdown is the limit minus the elapsed time. |
| GameSession.GameManager.constructor | src/core/GameManager.js:10-21 | A new manager is unstarted and its service table has distinct keys. |
| GameSession.GameManager.SetSpawnCallback | src/core/GameManager.js:26-28 | Only whether a callback is set changes. |
| GameSession.SpawnDelay | src/core/GameManager.js:47-52 | A random draw gives a delay in [SPAWN_INTERVAL_MIN, SPAWN_INTERVAL_MAX) = [3, 7). |
| GameSession.GameManager.ResetSpawnTimer | src/core/GameManager.js:47-52 | Only the spawn timer changes, and it becomes SpawnDelay of the draw. |
| GameSession.GameManager.StartLevel | src/core/GameManager.js:33-45 | startLevel sets the state to LevelStarted, and the service table has distinct keys. |
| GameSession.SpawnKey | src/core/GameManager.js:94-95 | The picked key is a catalogue event. |
| GameSession.GameManager.TriggerSpawn | src/core/GameManager.js:91-99 | A key is emitted iff a callback is set. It is the catalogue key the draw selects. |
| GameSession.GameManager.Update | src/core/GameManager.js:58-89 | update moves the state, the end-of-level call and the spawned key exactly as Tick does, and keeps one entry per NPC uuid. |
| GameSession.GameManager.AdvanceServices | src/core/GameManager.js:79-88 | The forEach over the table deletes completed entries as it goes. The table becomes Decay of the old one, and the score grows by 100 per completed service. Keys stay distinct. |
| GameSession.GameManager.VisitService | src/core/GameManager.js:79-88 | One forEach callback: the visited prefix grows by one entry, which is either decremented or completed. |
| GameSession.IterationStep | src/core/GameManager.js:79-88 | Decrementing an entry in place, then deleting it by key if it is done, gives the next visited prefix. |
| GameSession.RemoveKeyOfEntry | src/core/GameManager.js:136 | Map.delete of the only entry filed under a key leaves exactly the other entries, in order. |
| GameSession.GameManager.HandleService | src/core/GameManager.js:110-133 | handleService sets the state to ServiceHandled, and keys stay distinct. It reports a throw exactly when the level is playing, the NPC is not yet served, and calculateServiceTime throws for its event. |
| GameSession.GameManager.CompleteService | src/core/GameManager.js:135-140 | The entry is removed and SCORE_PER_EVENT is added. One entry per uuid is kept. |
| GameSession.GameManager.EndLevel | src/core/GameManager.js:156-161 | endLevel only stops play. |
| GameSessionFacts.TickNotPlayingIsNoop | src/core/GameManager.js:59 | update is a no-op when no level is being played. |
| GameSessionFacts.TimeoutIsAlwaysLoss | src/core/GameManager.js:62-66 | The level ends iff currentTime − dt ≤ 0. That end is always a loss. It spawns nothing, advances no service and does not clamp currentTime. |
| GameSessionFacts.HighScoreStillLoses | src/core/GameManager.js:63-64 | A score of 1000000 still ends as a loss, with currentTime at −1. |
| GameSessionFacts.TimeoutEndsOnce | src/core/GameManager.js:59-66 | After the timeout tick every further update is a no-op, so the level ends once. |
| GameSessionFacts.SpawnCadence | src/core/GameManager.js:70-74 | A key is emitted iff the spawn timer reaches ≤ 0 and a callback is set, at most one per tick, and it names a catalogue event. After firing, the timer lies in [3, 7). Otherwise it just counts down. |
| GameSessionFacts.SpawnDelayCoversInterval | src/core/GameManager.js:51 | Every delay in [3, 7) is produced by some draw. |
| GameSessionFacts.SpawnKeyReachesEveryEvent | src/core/GameManager.js:94-95 | Every catalogue key is picked by some draw. |
| GameSessionFacts.DecayMembers | src/core/GameManager.js:79-88 | The surviving entries are exactly those whose remaining time stays above 0, each reduced by dt. |
| GameSession.DecayPrefixMembers | src/core/GameManager.js:79-88 | The same, for every prefix of the table. |
| GameSession.DecayPrefixDistinct | src/core/GameManager.js:79-88 | A tick keeps one entry per NPC uuid. |
| GameSessionFacts.DecayAccountsForEveryService | src/core/GameManager.js:79-88 | Every entry either survives or completes. |
| GameSessionFacts.TickScoresEachCompletion | src/core/GameManager.js:79-88 | On a tick that does not end the level, the score grows by 100 for each entry that left the table. |
| GameSessionFacts.ServiceHandledSpec | src/core/GameManager.js:110-127 | The call throws exactly when the level is playing, the NPC is not yet served and its event is an inherited name. If the level is not playing, the NPC is already being served, or the call throws, the state is unchanged. Otherwise one entry is appended with remaining = total = d. Here d = 2.5 iff the attribute matches and d = 5 iff it does not. |
| GameSessionFacts.InheritedEventThrows | src/core/GameManager.js:117-118 | An NPC whose event is "toString" makes handleService throw, leaving the state unchanged. |
| GameSessionFacts.CapNotEnforced | src/core/GameManager.js:110-127 | A new NPC with a non-inherited event is accepted even when MAX_ACTIVE_NPCS services are already running. |
| GameSessionFacts.BackToBackServes | src/core/GameManager.js:110-127 | No cooldown is consulted: two different NPCs are accepted one right after the other. |
| GameSession.RemoveKeyFacts | src/core/GameManager.js:136 | Map.delete keeps only old entries without the key, and keeps keys distinct. |
| GameSessionFacts.UnstartedInv | src/core/GameManager.js:10-21 | The constructed state satisfies the session invariant. |
| GameSessionFacts.LevelStartedInv | src/core/GameManager.js:33-41 | startLevel gives score 0, an empty table and a playing level, and satisfies the invariant. |
| GameSessionFacts.ServiceHandledInv | src/core/GameManager.js:110-127 | handleService keeps the invariant. |
| GameSessionFacts.ServiceCompletedInv | src/core/GameManager.js:135-139 | completeService keeps the invariant, and the key is gone afterwards. |
| GameSessionFacts.TickInv | src/core/GameManager.js:58-89 | update with dt ≥ 0 keeps the invariant. |
| GameSessionFacts.ApplyInv | src/core/GameManager.js:26-161 | Every public operation keeps the invariant, with update called with dt ≥ 0 and every Math.random() draw in [0, 1). |
| GameSessionFacts.RunKeepsInv | src/core/GameManager.js:26-161 | Any sequence of calls whose updates all have dt ≥ 0 (update, handleService, completeService, startLevel, endLevel, setSpawnCallback, resetSpawnTimer) keeps the invariant: the score is a non-negative multiple of 100, there is at most one service per NPC, and each remaining time is within (0, total], with total 2.5 or 5. |
| GameSessionFacts.RunFromUnstarted | src/core/GameManager.js:9-164 | From a fresh manager, the invariant holds after any sequence of calls whose updates all have dt ≥ 0. |
| FrameLoop.GameLoop.constructor | src/core/GameLoop.js:11-19 | A new loop has no systems, lastTime 0, is not running and has no frame request. |
| FrameLoop.GameLoop.AddSystem | src/core/GameLoop.js:25-31 | addSystem sets the state to Added, and it reports a rejection iff the candidate is missing or has no update. |
| FrameLoop.AddedSystemsHaveUpdate | src/core/GameLoop.js:25-31 | Over any sequence of addSystem calls, only systems with an update method are registered, at most one per call. |
| FrameLoop.GameLoop.Start | src/core/GameLoop.js:36-42 | start sets the state and makes the calls as Started does, and the first loop runs at once. |
| FrameLoop.StartWhileRunningIsNoop | src/core/GameLoop.js:37 | start on a running loop changes nothing and calls nothing. |
| FrameLoop.GameLoop.Stop | src/core/GameLoop.js:47-53 | The loop stops and the pending frame request, if any, is the one cancelled. |
| FrameLoop.StopIsIdempotent | src/core/GameLoop.js:47-53 | A second stop changes nothing and cancels nothing. |
| FrameLoop.FrameAfterStopIsInert | src/core/GameLoop.js:47-59 | After stop, a frame changes nothing and calls nothing. |
| FrameLoop.GameLoop.Loop | src/core/GameLoop.js:58-74 | The frame sets the state and makes the calls as Frame does; the for loop over the systems carries invariants. |
| FrameLoop.SafeDtIsCappedMin | src/core/GameLoop.js:62-66 | dt = min(elapsed seconds, 0.1), so it is never above 0.1. |
| FrameLoop.SafeDtCanBeNegative | src/core/GameLoop.js:62-66 | dt is not clamped from below: a timestamp 1 s before lastTime gives dt = −1. |
| FrameLoop.FrameCallsEverySystemOnce | src/core/GameLoop.js:69-71 | A running frame calls every registered system exactly once, in registration order, with the same capped dt. |
| FrameLoop.RestartMeasuresFromStart | src/core/GameLoop.js:36-63 | After stop and start, the first frame measures from start's clock reading, not from the time before the pause. |
| Spawner.SpawnRateOrDefault | src/systems/SpawnerSystem.js:11 | A missing or zero rate falls back to 5.0. Any other rate is kept. |
| Spawner.SpawnerSystem.constructor | src/systems/SpawnerSystem.js:8-14 | A new spawner has the configured-or-default rate, timer 0 and no elders. |
| Spawner.SpawnerSystem.Update | src/systems/SpawnerSystem.js:16-22 | update has exactly Step's effect. |
| Spawner.SpawnerSystem.SpawnElder | src/systems/SpawnerSystem.js:24-42 | Exactly one elder, NewElder of the draw, is appended. |
| Spawner.NewElderPlacement | src/systems/SpawnerSystem.js:30-36 | An elder stands at y = 0.5, inside [−10, 10) × [−10, 10), tagged 'elder' and carrying the drawn id. |
| Spawner.StepFiresIff | src/systems/SpawnerSystem.js:16-22 | A tick appends one elder iff timer + dt ≥ rate. The timer then restarts at 0 and the excess is discarded; otherwise it accumulates. Earlier elders are kept. |
| Spawner.StepKeepsTimerInRange | src/systems/SpawnerSystem.js:16-22 | For a positive rate and dt ≥ 0, 0 ≤ timer < rate is kept. |
| Spawner.InitialTimerInRange | src/systems/SpawnerSystem.js:11-12 | A fresh spawner with a non-negative or missing rate starts in range. |
| Spawner.NegativeRateSpawnsEveryTick | src/systems/SpawnerSystem.js:11-21 | A negative rate is truthy, so it is kept, and then every tick spawns. |
| Spawner.RunKeepsEldersAndRange | src/systems/SpawnerSystem.js:16-39 | Over any run, earlier elders are kept in order and at most one elder is added per tick, and each added elder is tagged. For a positive rate and ticks with dt ≥ 0, the timer range holds too. |
| Drag.DragSystem.constructor | src/systems/DragSystem.js:13-32 | A new gate is at rest, holds its LevelManager and selects 'Worker-A'. |
| Drag.DragSystem.OnPointerDown | src/systems/DragSystem.js:38-60 | The pick is rejected iff the selected worker is known and cooling down. The gate becomes Picked, and it stays valid. |
| Drag.PickGate | src/systems/DragSystem.js:38-48 | A rejected pick leaves the gate unchanged. Otherwise a drag of the selected worker starts with the ghost shown at the pointer. Rejection happens iff the first worker with the id has cooldown > 0, so an unknown worker is never rejected. |
| Drag.DragSystem.OnPointerMove | src/systems/DragSystem.js:62-65 | The gate becomes Moved. |
| Drag.DragSystem.UpdateGhostPosition | src/systems/DragSystem.js:93-103 | Only the ghost's position changes, to the floor point. |
| Drag.IdleGateIgnoresMoveAndDrop | src/systems/DragSystem.js:62-68 | Without a drag, move and up change nothing. |
| Drag.FirstElder | src/systems/DragSystem.js:79-85 | The position of the first hit tagged 'elder'. It is none iff no hit is an elder. |
| Drag.DragSystem.OnPointerUp | src/systems/DragSystem.js:67-86 | Gate, LevelManager state and served elder become exactly those of Dropped. The hit loop returns early with invariants. |
| Drag.DropOutcome | src/systems/DragSystem.js:67-86 | A release during a drag always ends it and hides the ghost. With no elder hit the level is untouched. Otherwise exactly the first elder is served. |
| Drag.DragSystem.ServeElder | src/systems/DragSystem.js:105-114 | The LevelManager becomes Served: incrementScore, then startWorkerCooldown of the dragged worker. |
| Drag.ServedEffect | src/systems/DragSystem.js:105-114 | Serving adds one point while playing and restarts the dragged worker's cooldown at its maximum. Nothing else changes. |
| Drag.ServeThenPickIsRejected | src/systems/DragSystem.js:38-114 | Right after serving with a worker whose maximum cooldown is positive, picking that worker again is rejected. |
| Drag.HandlersKeepGateValid | src/systems/DragSystem.js:38-86 | Down, move and up keep the gate valid: a drag carries the selected worker, and the ghost is shown iff dragging. |
| JsText.Split | src/core/ConfigLoader.js:10 | split on one character gives at least one piece, and no piece contains the separator. |
| JsText.JoinSplit | src/core/ConfigLoader.js:10 | Joining the pieces of a split restores the string. |
| JsText.SplitJoin | src/core/ConfigLoader.js:43 | Splitting a join of separator-free pieces gives back those pieces. |
| JsText.IndexOf | src/core/ConfigLoader.js:10 | The first occurrence of a character, or none iff it does not occur. |
| JsText.TrimStartSpec | src/core/ConfigLoader.js:22 | The leading part trim drops is whitespace. What it keeps is a suffix that does not start with whitespace. |
| JsText.TrimEndSpec | src/core/ConfigLoader.js:22 | The trailing part trim drops is whitespace. What it keeps is a prefix that does not end with whitespace. |
| JsText.TrimSpec | src/core/ConfigLoader.js:22 | trim keeps one contiguous stretch with only JavaScript whitespace around it, neither starting nor ending with whitespace. |
| JsText.TrimIdempotent | src/core/ConfigLoader.js:43 | Trimming twice is trimming once. |
| JsText.IncludesIff | src/core/ConfigLoader.js:25 | includes holds iff the substring occurs at some position. |
| JsText.IncludesExtend | vite.config.js:12-14 | An occurrence survives appending text. |
| JsText.ToLower | vite.config.js:10 | toLowerCase maps every character, keeping the length. |
| JsText.ForwardSlashes | vite.config.js:10 | Every backslash becomes '/'. Nothing else changes. |
| JsText.CloseFrom | src/core/ConfigLoader.js:48 | The result is the ')' at c exactly when c is the nearest ')' from k and no line terminator comes before it (CloseAt). Otherwise it is None. |
| JsText.ParenGroupFromSpec | src/core/ConfigLoader.js:48 | The search from p gives None exactly when /\((.*?)\)/ matches at no position from p on. Otherwise it gives the group of the leftmost match: the text between that '(' and the nearest ')' after it, holding neither ')' nor a line terminator. |
| JsText.ParenGroupSpec | src/core/ConfigLoader.js:48 | header.match gives null exactly when the regular expression matches nowhere; otherwise its group is that of the leftmost match. |
| JsText.NoOpenNoGroup | src/core/ConfigLoader.js:48 | With no '(' from a position onwards, there is no match from there. |
| JsText.IntegerLiteral | src/core/ConfigLoader.js:59-60 | "12" reads as 12. |
| JsText.SignedFractionLiteral | src/core/ConfigLoader.js:59-60 | "-0.5" reads as −0.5. |
| JsText.ExponentLiteral | src/core/ConfigLoader.js:59-60 | "1e3" reads as 1000. |
| JsText.UnitSuffixIsText | src/core/ConfigLoader.js:59-60 | "12px" is not a finite number. |
| JsText.MantissaLeadingChar | src/core/ConfigLoader.js:59-60 | A cell that starts with neither a digit nor '.' has no mantissa. |
| JsText.LeadingLetterIsText | src/core/ConfigLoader.js:59-60 | A cell starting with anything but a digit, '.' or a sign is not a finite decimal. |
| JsText.InfinityIsText | src/core/ConfigLoader.js:59-60 | "Infinity" and "NaN" are not finite decimals. |
| JsText.HexLiteral | src/core/ConfigLoader.js:59-60 | "0x1F" is a finite non-decimal literal. "0x" is not. |
| ConfigLoader.TrimAll | src/core/ConfigLoader.js:43 | map(s => s.trim()) trims every piece, keeping the count. |
| ConfigLoader.NonEmpty | src/core/ConfigLoader.js:43 | filter(s => s !== '') keeps exactly the non-empty pieces, each as many times as it occurs: a string is in the result iff it is a non-empty piece, and the multiset of the result is that of the input without "". |
| ConfigLoader.NonEmptyConcat | src/core/ConfigLoader.js:43 | The filter keeps order: it distributes over concatenation, and a lone piece is kept iff it is non-empty. |
| ConfigLoader.HeaderNames | src/core/ConfigLoader.js:47-50 | Each header is the HeaderName of its cell, position by position. |
| ConfigLoader.ParseConfig | src/core/ConfigLoader.js:9-77 | parseConfig returns ParseText of the document. Its line loop keeps the loop state equal to ParsePrefix of the lines read. |
| ConfigLoader.ParseLine | src/core/ConfigLoader.js:24-72 | The body of the line loop, run on the trimmed line, has exactly StepLine's effect on currentSection, headers and config. |
| ConfigLoader.RowOf | src/core/ConfigLoader.js:56-62 | The forEach over the cells builds exactly RowData. |
| ConfigLoaderFacts.MarkerLineSwitchesSection | src/core/ConfigLoader.js:25-37 | A marker line only switches the section. Headers and config survive. The markers are tested in a fixed order, levels, workers, events, global, wherever each sits in the line, and the first one found wins: global only when none of the other three is present. |
| ConfigLoaderFacts.IgnoredLine | src/core/ConfigLoader.js:40-41 | A line before any section, a non-table line, or a line holding '---' changes nothing. |
| ConfigLoaderFacts.HeaderLineSetsHeaders | src/core/ConfigLoader.js:46-52 | A table line with '(' and ')' replaces the headers and nothing else. |
| ConfigLoaderFacts.RowBeforeHeadersDropped | src/core/ConfigLoader.js:55 | A data line before any header is dropped. |
| ConfigLoaderFacts.DataLineAddsRow | src/core/ConfigLoader.js:55-70 | A data line after the headers adds its row object to the current section. |
| ConfigLoaderFacts.TrimKeepsAbsent | src/core/ConfigLoader.js:43 | trim introduces no character. |
| ConfigLoaderFacts.CellsAreTrimmedPieces | src/core/ConfigLoader.js:43 | Every cell is non-empty, holds no '\|' and is already trimmed. The cells are exactly the non-empty trimmed pieces of the line, each as many times as it occurs among them. |
| ConfigLoaderFacts.HeaderNameSpec | src/core/ConfigLoader.js:47-50 | When /\((.*?)\)/ matches somewhere in the cell, the header is the group of the leftmost match. When it matches nowhere, in particular when the cell has no '(', the header is the whole cell. |
| ConfigLoaderFacts.HeaderNameExample | src/core/ConfigLoader.js:47-50 | "ID (id)" gives the key "id". |
| ConfigLoaderFacts.RowDataPrefixKeys | src/core/ConfigLoader.js:57-62 | After the first n cells, the row has a key exactly for the truthy headers of those cells. |
| ConfigLoaderFacts.RowDataPrefixValues | src/core/ConfigLoader.js:57-62 | Each key holds the coerced value of the last of the first n cells stored under it. |
| ConfigLoaderFacts.RowDataSpec | src/core/ConfigLoader.js:56-62 | A row's keys are exactly the truthy headers of the present cells, so cells past the header count are dropped. Each key holds the last such cell's coerced value, and every key is a non-empty header. |
| ConfigLoaderFacts.AddRowEffect | src/core/ConfigLoader.js:64-70 | A list-section row is appended to that list only. A global row sets global[key] = value when key is truthy and value is present, and is otherwise ignored. |
| ConfigLoaderFacts.LaterGlobalRowWins | src/core/ConfigLoader.js:64-66 | Of two global rows with the same key, the later value stays. |
| ConfigLoaderFacts.StepLineGrows | src/core/ConfigLoader.js:24-72 | One line appends at most to the lists' ends and removes no global key. |
| ConfigLoaderFacts.ParsePrefixStepExtends | src/core/ConfigLoader.js:21-73 | Reading one more line extends the lists as prefixes and keeps every global key. |
| ConfigLoaderFacts.ParsePrefixGrows | src/core/ConfigLoader.js:21-73 | Between any two points of the pass the lists only grow at their end, so rows stay in file order, and no global key is lost. |
| ConfigLoaderFacts.NothingBeforeFirstSection | src/core/ConfigLoader.js:18-40 | Lines before the first section marker leave the loop's state as it started. |
| ConfigLoaderFacts.EmptyDocument | src/core/ConfigLoader.js:9-77 | The empty document gives the empty configuration. |
| ConfigLoaderFacts.CoerceExamples | src/core/ConfigLoader.js:59-60 | "12" becomes the number 12, and "12px" stays text. |
| ConfigLoaderFacts.CoerceHex | src/core/ConfigLoader.js:59-60 | "0x1F" becomes the number 0: it is finite for isFinite, but parseFloat reads only its leading 0. |
| ConfigLoaderFacts.CoerceInfinity | src/core/ConfigLoader.js:59-60 | "Infinity" stays text. |
| ViteConfig.NormalizeId | vite.config.js:10 | Each character of the id is lower-cased, after '\\' becomes '/'. The length is kept. |
| ViteConfig.Transform | vite.config.js:8-80 | The result is nothing unless the normalised id contains docs/gameconfig.md. Otherwise it is a module exporting exactly parseConfig's result for the same text. |
| ViteConfig.TransformTable | vite.config.js:18-77 | The plugin's copy of the line loop computes ParseText, the same function parseConfig is proved to compute. |
| ViteConfig.TransformLine | vite.config.js:30-76 | The plugin's copy of the loop body has exactly StepLine's effect, the same as ParseLine. |
| ViteConfig.TransformRow | vite.config.js:60-66 | The plugin's copy of the forEach builds exactly RowData. |
| ViteConfig.NormalizeIdempotent | vite.config.js:10-14 | Normalising twice changes nothing more, and a normalised id matches iff the original does. |
| ViteConfig.MatchIgnoresCaseAndSeparators | vite.config.js:10 | Ids that differ only in letter case or separator style match alike. |
| ViteConfig.NormalizeConcat | vite.config.js:10 | Normalisation works character by character, so it distributes over concatenation. |
| ViteConfig.QuerySuffixStillMatches | vite.config.js:12-14 | A matching id with any suffix appended, such as ?import, still matches. |
| ViteConfig.MatchesIff | vite.config.js:14 | An id matches iff docs/gameconfig.md occurs somewhere in its normalised form. |
| ViteConfig.WindowsPathMatches | vite.config.js:10-14 | "\\Docs\\GameConfig.md" is accepted. |

## Left out

- src/Main.js, src/ui/BubbleSystem.js and the other UI files: these are Three.js scene setup, DOM and presentation. GameManager's `gameLevelUI` and `bubbleSystem` calls are dropped, including the `setTimeout` removal in completeService and the `updateHUDTimer` text. src/ui/Game Level.js is not part of this model, and `bubbleSystem` is referenced without an import.
- `console.*` and `alert`: output only. Where they report an outcome, it becomes a result instead: the verdict, the `ended` flag, the rejected pick or system, the cancelled frame.
- Three.js objects: the raycaster, meshes, geometry and material, the scene's add and remove, and the `window` listeners. The pointer-to-NDC maths of `updatePointer` is floating point and library-bound. A drop passes its hit list and a move passes its floor point instead, so `event` itself is not modelled.
- `Math.random`, `performance.now`, `requestAnimationFrame` and `cancelAnimationFrame` are parameters or results. The elder id `Math.random().toString(36).substr(2, 9)` is an input string.
- Drag.DragSystem.Update: `update(dt)` is empty in the source. It is kept as an empty method with no contract.
- FrameLoop: `loop` returns the `update(dt)` calls instead of making them, so a system's own update and any re-entrant call back into the loop are not modelled. `requestAnimationFrame(this.loop)` only records the frame id it returns.
- The IEEE-754 rounding of timers: timers are exact `real`s. This also means `(currentTime - lastTime) / 1000` and `Math.random() * 4 + 3` are exact.
- LevelSession.LevelManager.Init: `Number(levelConfig.timeLimit)`, `Number(levelConfig.targetCount)` and each `Number(config.cooldown)` are taken as already numeric: timeLimit and cooldown are `real`, and targetCount is an `int`. A missing or non-numeric value would be `NaN` in the source. A worker id is a string here, while a coerced configuration cell can make it a number in JavaScript.
- GameSession.GameManager.StartLevel: `levelId` is only logged, so it is not a parameter.
- GameSessionFacts.TickInv, GameSessionFacts.ApplyInv, GameSessionFacts.RunKeepsInv, GameSessionFacts.RunFromUnstarted: require dt ≥ 0 on every update. The source does not check dt, and a negative dt could grow a service's remaining time past its total.
- LevelSession.OperationsKeepInv: the invariant is proved for update only when dt ≥ 0, for the same reason.
- Spawner.StepKeepsTimerInRange, Spawner.RunKeepsEldersAndRange: the timer range is stated only for a positive rate and dt ≥ 0. Spawner.NegativeRateSpawnsEveryTick shows what a negative rate does.
- ConfigLoader.AddRow: the global table is keyed by the cell value itself. In JavaScript, `config.global[rowData.key]` converts the key to a property name, so the number 1 and the text "1" would share an entry. Names such as `__proto__` also behave specially there. The same holds for the header keys of row objects (`rowData[headers[index]]`), which are plain map keys here.
- JsText.FiniteDecimal: a number cell's value is the exact decimal, not the nearest double. A literal too large for a double (1e400) is treated as finite here, while JavaScript makes it Infinity and keeps the cell as text.
- JsText.LowerChar: toLowerCase is modelled for ASCII letters only; other characters are kept.
- ViteConfig.Transform: the emitted text `export default ${JSON.stringify(config)};` is represented by the value `ExportDefault(config)`. The JSON text itself is not produced.
- The `?raw` import and the module-level `parseConfig(rawConfig)` in src/core/ConfigLoader.js, and vite.config.js's `defineConfig` and server settings: these are build wiring, and the document itself is an input.
- Abstracted fields:
  - GameManager's `totalTime` is never reassigned by the source, so it is the module constant `GameSession.TotalTime`.
  - `onSpawnRequest` is the bool `hasSpawnCallback`. The callback itself runs synchronously inside `update` (src/core/GameManager.js:92-97). Its effects are not modelled; `update` returns the key it would be called with.
  - `SpawnerSystem.scene` is absent, and so are DragSystem's `camera`, `scene`, `raycaster` and `pointer`.
- GameConfig.Attribute: `workerAttr` is one of the three WorkerAttributes values. The source accepts any string there. Any other string matches no requiredAttr, so it would get the base time.
- GameConfig.PrototypeMembers: the names inherited from a standard Object.prototype. A property added to Object.prototype at run time is not modelled.
- Where the documented design and the code differ, the model follows the code:
  - The design checks cooldowns in the service request; GameManager's `handleService` ignores them (GameSessionFacts.BackToBackServes).
  - The design enforces a concurrent-NPC cap; `MAX_ACTIVE_NPCS` is never used (GameSessionFacts.CapNotEnforced).
  - The design says dt ≥ 0; GameLoop does not clamp dt from below (FrameLoop.SafeDtCanBeNegative).
