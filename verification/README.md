# Letter tracing: tracer state machine and level progression

This project models the two game scripts of a Unity letter-tracing game in
Dafny. It proves properties of that model.

**The tracer (`TracingBrushManager`).** One tracer belongs to one letter or
shape and owns its strokes (`TracingPath`s). Each stroke is a row of
checkpoints. The player drags from the current checkpoint and releases on the
next one, in strict index order. Only the current checkpoint and the one
after it are enabled. Ink dots are spawned along the drag, inside the
stroke's draw area, no closer together than the brush spacing. A release on
any other spot discards the ink and keeps the progress. Reaching a stroke's
last checkpoint does five things:
- shows the stroke's fill;
- disables the stroke's checkpoints;
- clears the ink;
- signals the level;
- opens the next stroke.

If the next stroke has at most one checkpoint, or there is none, the letter's
fill (`parentFill` of path 0) is shown instead. `ResetTracing` returns the
tracer to its start.

**The level controller (`TracingLevelManager`).** It holds one panel of
tracers per level and shows exactly the panel of the current level. It counts
the completed strokes against the level's total, which is the sum of its
tracers' stroke counts. Once the count reaches the total it enables Next.
Next and Skip move forward with no upper bound. Back moves backward and never
goes below level 0. The controller also keeps a pause toggle and a music
toggle.

**Modules.**
- `Scene`: `Handle`, an optional reference to a scene object together with
  the one flag the scripts change on it. That flag is the active flag of a
  GameObject, the `interactable` flag of a Button, or the `mute` flag of an
  AudioSource.
- `TracingPaths`: `TracingPath` as a value. Its checkpoints' active flags are
  `enabled: seq<bool>`. The module also has pure functions for what Start,
  an advance, a finished stroke and a reset do to a tracer's paths, with
  lemmas about them.
- `TracingBrush`: class `TracingBrushManager`. Its `Update` is split into
  `PointerDown`, `Drag` and `PointerUp`. `PointerUp` and `Update` are proved
  against the functions of `TracingPaths`; `PointerDown` and `Drag` state
  their effect on the tracer's fields directly.
- `TracingLevel`: class `TracingLevelManager`. Its invariant `Consistent`
  ties `strokesCompleted` and `totalStrokesInLevel` to the tracers of the
  current panel. It holds from `Start` onward through every handler.
- `Sums`: the sum of a sequence of naturals, with the lemmas the level
  counts need.

**Behaviours of the code that the model keeps, with the members that state
them:**
- A path with exactly one checkpoint can never be completed. A release acts
  only when a checkpoint follows the current one. Stated by `ReleaseFor`,
  which `PointerUp` and `Update` follow.
- When the next stroke has at most one checkpoint, the letter's fill is shown
  although strokes remain. Stated by `FinishOfMeaning`.
- `Start` leaves a one-checkpoint path 0 with no checkpoint enabled, while
  `ResetTracing` enables its checkpoint 0. Stated by `StartVersusReset`.
- Level completion is tested with `>=`. Under the invariant, the count never
  exceeds the total, so this is the same as `==`. Stated by `LevelProgress`
  and `NextMeansLevelDone`.
- `OnNextLevel` has no upper cap, so Skip can move `currentLevel` two or more
  past the last panel. A Back from there indexes past the panel array. The
  model reports this as `faulted`; see `OnBackLevel`.

**Inputs that replace engine calls.** A frame's input is a `Frame` argument:
- the button-down, held and up edges;
- the pointer position, with integer coordinates;
- the checkpoint found by the physics hit test, as `Option<CheckpointId>`;
- whether the draw area contains the position.

A level is given by its panel's tracers as an explicit sequence. This stands
for `GetComponentsInChildren`. The tracer's `completed` result takes the
place of its direct call to `OnStrokeCompleted`: the level's
`OnTracerUpdate` runs one tracer frame and consumes that result.

## Model

| member | source | states |
|---|---|---|
| TracingPaths.TracingPath.EnableCheckpoint | Assets/Scripts/TracingBrushManager.cs:195-199 | sets exactly checkpoint `index`'s flag; any other checkpoint keeps its flag; an index out of range (negative or past the end) leaves the path unchanged |
| TracingPaths.TracingPath.WithAll | Assets/Scripts/TracingBrushManager.cs:189-193 | every checkpoint's flag equals `enable`; checkpoints, draw area and fills are unchanged |
| TracingPaths.TracingPath.EnableCheckpoints | Assets/Scripts/TracingBrushManager.cs:189-193 | the loop over the checkpoints leaves every flag set to `enable` and nothing else changed |
| TracingPaths.TracingPath.WindowShift | Assets/Scripts/TracingBrushManager.cs:77-85 | if exactly {i, i+1} are enabled, disabling i and enabling i+1 and i+2 leaves exactly {i+1, i+2} enabled |
| TracingPaths.TracingPath.WindowOpen | Assets/Scripts/TracingBrushManager.cs:104-108 | opening a path with all checkpoints disabled and two or more of them leaves exactly {0, 1} enabled |
| TracingPaths.StartOf | Assets/Scripts/TracingBrushManager.cs:21-30 | Start keeps every path's checkpoints, draw area and fill objects; only flags change |
| TracingPaths.StartOfMeaning | Assets/Scripts/TracingBrushManager.cs:21-30 | after Start, fills are untouched and checkpoint j of path k is enabled iff k = 0, j < 2 and path 0 has more than one checkpoint; this is the lookahead at stroke 0, checkpoint 0 |
| TracingPaths.StartVersusReset | Assets/Scripts/TracingBrushManager.cs:26-30 | Start and ResetTracing enable the same checkpoints, except on a one-checkpoint path 0, whose checkpoint only ResetTracing enables (lines 157-165) |
| TracingPaths.AdvanceOf | Assets/Scripts/TracingBrushManager.cs:77-85 | an advance changes only flags |
| TracingPaths.AdvanceLookahead | Assets/Scripts/TracingBrushManager.cs:77-85 | an advance from checkpoint i moves the lookahead window to i+1; every other path stays disabled |
| TracingPaths.FinishOf | Assets/Scripts/TracingBrushManager.cs:86-115 | finishing a stroke changes only flags |
| TracingPaths.FinishOfMeaning | Assets/Scripts/TracingBrushManager.cs:86-115 | the finished stroke is all disabled with its fill shown; the next stroke is opened iff it has more than one checkpoint; otherwise (also when there is no next stroke) path 0's parent fill is shown; no other flag changes |
| TracingPaths.FinishLookahead | Assets/Scripts/TracingBrushManager.cs:99-108 | if only the finished stroke had checkpoints enabled, the lookahead afterwards is at stroke s+1, checkpoint 0 |
| TracingPaths.FinishIgnoresFlags | Assets/Scripts/TracingBrushManager.cs:77-93 | the result of finishing does not depend on the finished stroke's flags, so disabling checkpoint i first (line 77) makes no difference |
| TracingPaths.ResetOf | Assets/Scripts/TracingBrushManager.cs:144-167 | a reset changes only flags |
| TracingPaths.ResetOfMeaning | Assets/Scripts/TracingBrushManager.cs:144-167 | after a reset no fill is shown and exactly checkpoints 0 and 1 of path 0 (those that exist) are enabled; this is the lookahead at stroke 0, checkpoint 0 |
| TracingPaths.ResetPathsUnique | Assets/Scripts/TracingBrushManager.cs:144-167 | two path lists of the same shape that are both in the reset state are equal |
| TracingPaths.ResetOfShapeOnly | Assets/Scripts/TracingBrushManager.cs:144-167 | a reset depends only on the paths' shape (checkpoints, draw area and fills), not on their flags |
| TracingPaths.ResetOfIdempotent | Assets/Scripts/TracingBrushManager.cs:135-168 | resetting paths already in the reset state changes nothing; resetting twice equals resetting once |
| TracingBrush.TracingBrushManager.constructor | Assets/Scripts/TracingBrushManager.cs:5-13 | the inspector's paths, spacing and brush parent, with both indices 0, not tracing, `lastPos` zero and no dots; the tracer invariant holds and its shape is that of its paths |
| TracingBrush.BeyondSpacing | Assets/Scripts/TracingBrushManager.cs:59 | a dot is spawned only at a position other than the last one, and with zero spacing at every other position |
| TracingBrush.SqDist | Assets/Scripts/TracingBrushManager.cs:59 | the squared distance is zero exactly when the two positions coincide |
| TracingBrush.ReleaseFor | Assets/Scripts/TracingBrushManager.cs:70-122 | a release is ignored iff no checkpoint follows the current one; it advances iff it hits checkpoint i+1 and another follows it; it completes iff it hits checkpoint i+1 and that is the last; any other release is a retry |
| TracingBrush.TracingBrushManager.Start | Assets/Scripts/TracingBrushManager.cs:17-31 | the paths become StartOf of the paths before; from indices 0/0 the lookahead holds |
| TracingBrush.TracingBrushManager.GetStrokeCount | Assets/Scripts/TracingBrushManager.cs:129-132 | the stroke count is the number of paths and never less than the current stroke index |
| TracingBrush.TracingBrushManager.ClearBrushDots | Assets/Scripts/TracingBrushManager.cs:170-177 | all dots are destroyed when there is a brush parent; without one, nothing is destroyed |
| TracingBrush.TracingBrushManager.PointerDown | Assets/Scripts/TracingBrushManager.cs:43-52 | tracing starts, with `lastPos` at the position, iff the path is non-empty and the hit is this stroke's current checkpoint; otherwise nothing changes |
| TracingBrush.TracingBrushManager.Drag | Assets/Scripts/TracingBrushManager.cs:55-65 | exactly one dot is appended and `lastPos` moves to the position iff the path has a draw area, the area contains the position and the position is farther than the spacing from `lastPos`; otherwise dots and `lastPos` are unchanged |
| TracingBrush.TracingBrushManager.PointerUp | Assets/Scripts/TracingBrushManager.cs:67-126 | per ReleaseFor: Ignored changes only the tracing flags; Retry clears the dots and keeps both indices; Advance moves the checkpoint index up by one, as AdvanceOf; Complete moves to the next stroke at checkpoint 0, as FinishOf, and is the only outcome that signals completion; tracing always stops with `lastPos` at zero; the invariant and the lookahead are kept |
| TracingBrush.TracingBrushManager.ReachNext | Assets/Scripts/TracingBrushManager.cs:77-115 | reaching checkpoint i+1 completes iff it is the path's last; otherwise the state is AdvanceOf, and on completion it is FinishOf with the dots cleared; the lookahead is kept |
| TracingBrush.TracingBrushManager.FinishStroke | Assets/Scripts/TracingBrushManager.cs:86-115 | the stroke index goes up by one, the checkpoint index becomes 0, the dots are cleared and the paths become FinishOf; the lookahead holds afterwards when only this stroke had checkpoints enabled |
| TracingBrush.TracingBrushManager.Update | Assets/Scripts/TracingBrushManager.cs:33-127 | once every stroke is done nothing changes; otherwise the new state is the frame's press, drag and release in turn: a press on the current checkpoint of a non-empty path starts tracing at the position; a held pointer while tracing, inside the draw area and beyond the spacing from the last position, adds one dot there and moves the last position; a release while tracing ends tracing with `lastPos` zero and acts per ReleaseFor as PointerUp does (Retry clears the dots, Advance and Complete move the indices and paths); only Complete signals, and then the stroke index goes up by one; the invariant, the paths' shape and the lookahead are kept; all of this is the twostate predicate Stepped, which the level's frame handling passes on |
| TracingBrush.TracingBrushManager.PressAndDrag | Assets/Scripts/TracingBrushManager.cs:43-65 | after the press and drag of a frame the tracer traces iff it was tracing or the press hit the current checkpoint of a non-empty path; exactly one dot is added, at the position, iff the pointer is held while tracing, inside the draw area and beyond the spacing from the press position or the last position; `lastPos` is the position of the dot, the press position or unchanged accordingly |
| TracingBrush.TracingBrushManager.ResetTracing | Assets/Scripts/TracingBrushManager.cs:135-168 | the reset state (indices 0/0, not tracing, `lastPos` zero, dots cleared, paths as ResetOf), which satisfies the lookahead; the paths are the reset of the paths the tracer was built with, whatever frames came before; applied to a tracer already in the reset state it changes neither the paths nor the dots |
| TracingBrush.TracingBrushManager.RestorePaths | Assets/Scripts/TracingBrushManager.cs:144-167 | the loop that hides the fills and disables the checkpoints, followed by the opening of path 0, yields ResetOf of the paths before |
| TracingLevel.TracingLevelManager.constructor | Assets/Scripts/TracingLevelManager.cs:9-31 | the inspector's panels and references, not paused, music on, level 0 with no strokes counted; every tracer of every panel is in its own invariant |
| TracingLevel.TracingLevelManager.Start | Assets/Scripts/TracingLevelManager.cs:33-54 | the completion panel, both popups and the pause panel are hidden and both buttons disabled, each only if present (a missing one stays missing); level 0 is entered when a panel exists: its counts are initialised and each of its tracers is as ResetTracing leaves it from the dots it had, so a tracer without a brush parent keeps its dots; the level invariant holds from here on; with no panel both counts are kept |
| TracingLevel.TracingLevelManager.EnterFirstLevel | Assets/Scripts/TracingLevelManager.cs:47-53 | with every panel hidden and both buttons off, the first level is entered when there is one, each of its tracers as ResetTracing leaves it from the dots it had, leaving the buttons off; the level invariant holds at level 0; with no panel both counts are kept |
| TracingLevel.TracingLevelManager.HidePanels | Assets/Scripts/TracingLevelManager.cs:36-37 | every panel is inactive |
| TracingLevel.TracingLevelManager.HideOverlays | Assets/Scripts/TracingLevelManager.cs:39-45 | the completion panel, both popups and the pause panel are hidden and both buttons disabled, each only if present |
| TracingLevel.TracingLevelManager.ShowLevel | Assets/Scripts/TracingLevelManager.cs:98-100 | entering level l shows its panel and changes no other panel's flag, leaves each of its tracers as ResetTracing does from the dots it had and initialises the counts; Next is disabled and Back enabled iff l > 0, each only if present; the level invariant holds |
| TracingLevel.TracingLevelManager.EnterLevel | Assets/Scripts/TracingLevelManager.cs:99-100 | after the reset and InitLevel every tracer of the panel is as ResetTracing leaves it: its paths the reset of its shape, its dots cleared from those it had (kept without a brush parent), at its start with the lookahead, no stroke is done and the total is the sum of the stroke counts; Next is disabled and Back enabled iff l > 0, each only if present |
| TracingLevel.TracingLevelManager.InitLevel | Assets/Scripts/TracingLevelManager.cs:56-70 | `strokesCompleted` is 0 and `totalStrokesInLevel` is the sum of the panel's stroke counts; Next is disabled and Back enabled iff the level is not the first |
| TracingLevel.TracingLevelManager.ResetPanelTracing | Assets/Scripts/TracingLevelManager.cs:195-204 | every tracer of the panel is as its ResetTracing leaves it: its paths are the reset of its shape, its dots are cleared from those it had, and it is at its start with the lookahead |
| TracingLevel.ResetEach | Assets/Scripts/TracingLevelManager.cs:198-203 | the loop calls ResetTracing on each tracer of the panel once; each ends valid and as ResetTracing leaves it |
| TracingLevel.TracingLevelManager.OnStrokeCompleted | Assets/Scripts/TracingLevelManager.cs:73-87 | `strokesCompleted` goes up by exactly one; the stroke popup is shown; the level popup is shown and Next enabled iff the count has reached the total; otherwise both are unchanged |
| TracingLevel.TracingLevelManager.OnTracerUpdate | Assets/Scripts/TracingBrushManager.cs:95-97 | one frame of one tracer of the current level; the count goes up by one exactly when that tracer signals a completion, and that tracer's stroke index goes up by the same one, so after k signals since the level was entered the count is k; the tracer's paths keep their shape; the level invariant and the tracer's lookahead are kept; the tracer's new state and `completed` are exactly those its Update gives for the frame (Stepped): tracing starts on a press on its current checkpoint, a drag spawns a dot, and a completion is signalled exactly on a Complete release; on a completion the stroke popup is shown and, once the count reaches the total, the level popup and Next, each only if present; without one neither popup nor Next changes, so a present Next stays present |
| TracingLevel.TracingLevelManager.CountStroke | Assets/Scripts/TracingLevelManager.cs:73-87 | with the count one behind the panel's stroke indices after a completion, counting it (OnStrokeCompleted) restores the level invariant; without a completion the count stays; on a completion the stroke popup is shown and, once the count reaches the total, the level popup and Next, each only if present; without one neither popup nor Next changes |
| TracingLevel.TracingLevelManager.StepTracer | Assets/Scripts/TracingBrushManager.cs:95-100 | the sum of the panel's stroke indices goes up by one exactly on a completion, as does the tracer's own stroke index; the sum of its stroke counts is unchanged and the tracer's paths keep their shape; the tracer's new state and `completed` are exactly those its Update gives for the frame (Stepped): tracing starts on a press on its current checkpoint, a drag spawns a dot, and a completion is signalled exactly on a Complete release |
| TracingLevel.TracingLevelManager.OnNextLevel | Assets/Scripts/TracingLevelManager.cs:89-111 | the level goes up by exactly one, with no cap; Next is disabled and Back enabled iff the new level is a panel, each only if present; a level in range is entered, each of its tracers as ResetTracing leaves it from the dots it had, only its panel is shown and the completion panel is unchanged; past the last level the completion panel is shown and no panel stays on; the level invariant is kept; past the last level both counts are kept |
| TracingLevel.TracingLevelManager.ShowNext | Assets/Scripts/TracingLevelManager.cs:96-110 | once the level has moved on with no panel shown: a panel is entered, each of its tracers as ResetTracing leaves it from the dots it had, or past the last one the completion panel is shown and both buttons disabled; the level invariant holds; past the last level both counts are kept |
| TracingLevel.TracingLevelManager.ShowComplete | Assets/Scripts/TracingLevelManager.cs:105-109 | past the last level the completion panel is shown and both buttons disabled, each only if present, and the level invariant holds |
| TracingLevel.TracingLevelManager.OnSkipLevel | Assets/Scripts/TracingLevelManager.cs:114-118 | the same effect as OnNextLevel, including the counts kept past the last level |
| TracingLevel.TracingLevelManager.OnBackLevel | Assets/Scripts/TracingLevelManager.cs:120-143 | at level 0 nothing changes; otherwise the level goes down by exactly one; a panel is entered, each of its tracers as ResetTracing leaves it from the dots it had, with Next disabled and Back enabled iff the level is above 0, each only if present; it faults exactly when the old level is more than one past the last panel, and then the counts and buttons are kept; the level invariant is kept |
| TracingLevel.TracingLevelManager.ShowPrevious | Assets/Scripts/TracingLevelManager.cs:133-137 | once the level has moved back with no panel shown: a panel is entered, each of its tracers as ResetTracing leaves it from the dots it had, or the level is not a panel and it faults with the counts and buttons kept; the level invariant holds |
| TracingLevel.TracingLevelManager.HideShownPanel | Assets/Scripts/TracingLevelManager.cs:91-92 | the shown panel is hidden, so no panel is active |
| TracingLevel.TracingLevelManager.DoneWithinTotal | Assets/Scripts/TracingLevelManager.cs:81 | within a level the strokes counted never exceed the level's total, so the `>=` test is reached only by equality |
| TracingLevel.TracingLevelManager.NextMeansLevelDone | Assets/Scripts/TracingLevelManager.cs:81-86 | within a level, Next is interactable iff a stroke has been done and every tracer of the level has completed all its strokes |
| TracingLevel.TracingLevelManager.OnPauseGame | Assets/Scripts/TracingLevelManager.cs:168-174 | paused, time frozen, the pause panel shown if present; the result does not depend on the state before, so pausing twice equals pausing once |
| TracingLevel.TracingLevelManager.OnResumeGame | Assets/Scripts/TracingLevelManager.cs:176-182 | not paused, time running, the pause panel hidden if present; the pause flags agree with each other and with the panel |
| TracingLevel.TracingLevelManager.OnToggleMusic | Assets/Scripts/TracingLevelManager.cs:184-192 | without a music source nothing changes; otherwise the music flag flips and the source is muted exactly when music is off, so two toggles restore the flag |
| TracingLevel.AtStartSum | Assets/Scripts/TracingLevelManager.cs:58 | a panel whose tracers are all at their start has done no stroke |
| TracingLevel.LevelProgress | Assets/Scripts/TracingLevelManager.cs:81 | the strokes done in a panel never exceed its total, and equal it iff every tracer has completed every stroke |
| Scene.Handle.Set | Assets/Scripts/TracingLevelManager.cs:39-45 | setting the flag keeps a missing object missing, and gives an existing object the flag value |
| Scene.Handle.SetOverrides | Assets/Scripts/TracingLevelManager.cs:170 | the second of two settings wins; in particular showing an object twice equals showing it once |
| Sums.SumPrefix | Assets/Scripts/TracingLevelManager.cs:63-64 | each loop step adds the next tracer's stroke count to the running total |
| Sums.SumZero | Assets/Scripts/TracingLevelManager.cs:58 | a sequence of zeros sums to zero |
| Sums.SumIncrement | Assets/Scripts/TracingLevelManager.cs:75 | adding one to one entry adds one to the sum |
| Sums.SumBelow | Assets/Scripts/TracingLevelManager.cs:81 | a pointwise smaller sequence has a smaller or equal sum, and an equal sum only if the sequences are equal |

## Left out

- Engine queries (`Camera.main.ScreenToWorldPoint`, `Physics2D.OverlapPoint`, `Collider2D.OverlapPoint`, `FindObjectOfType`, `GetComponentsInChildren`) are not modelled; their results are inputs (the `Frame`, the panels' tracer sequences).
- `Instantiate` and `Destroy` are not modelled as objects; the brush dots are a sequence of positions.
- TracingBrush.BeyondSpacing: positions have integer coordinates and the float test `Vector3.Distance(a, b) > brushSpacing` is an exact squared-distance comparison with a natural spacing; rounding and a negative spacing are not modelled.
- The `z = 0` projection of the pointer position is implicit: positions are two-dimensional.
- The `ShowPopup` coroutine and its `WaitForSeconds` delay are not modelled; a popup is shown by `OnStrokeCompleted` and the timed hide is left out.
- `Time.timeScale` is the boolean `timeFrozen`; the float value is not modelled.
- `Debug.Log`, `OnBackToMainMenu` (scene loading) and `OnExitGame` (application exit) are not modelled.
- Null entries are not modelled: every path, checkpoint array, panel and tracer exists; only the optional inspector references (fills, popups, panels, buttons, music source, brush parent) may be missing. A missing `brushDotPrefab` is not modelled.
- A null `levelManager` is not modelled: the completion signal is always delivered, through `OnTracerUpdate`.
- Checkpoints shared between two slots of a path, or between tracers, are not modelled; every checkpoint has its own identity.
- `Physics2D.OverlapPoint` finds only active colliders, so a real hit is always an enabled checkpoint; the model's `Frame.hit` may also name a disabled checkpoint, which allows more inputs than the engine delivers.
- A fill object or a `brushParent` shared between paths or tracers is not modelled: `ClearBrushDots` destroys every child of `brushParent` (Assets/Scripts/TracingBrushManager.cs:174-175), whereas each tracer has its own `dots` and each path its own fill handles.
- TracingLevel.TracingLevelManager.constructor: `!timeFrozen` assumes `Time.timeScale` is 1 when the scene starts; that global keeps its value across a scene load, so a load made while paused is not modelled.
- Pointer input while the game is paused is not gated: the source does not gate `Update` on the pause flag either, and frame delivery with `timeScale` 0 is engine behaviour.
- The same tracer placed in two panels is allowed, but a tracer repeated within one panel is not.
- The engine's call of each tracer's own `Start` when its panel is first activated (Assets/Scripts/TracingBrushManager.cs:17-31, after Assets/Scripts/TracingLevelManager.cs:98-100) is not modelled: a level entered resets its tracers with `ResetTracing` only. The two differ only on a one-checkpoint path 0 (`StartVersusReset`).
- TracingBrush.TracingBrushManager.ResetTracing: requires the tracer invariant, which every tracer holds from its constructor on.
- TracingLevel.TracingLevelManager.Start: requires `currentLevel` to be 0 (its initial value), since `Start` runs once before any handler.
- TracingLevel.TracingLevelManager.OnNextLevel: requires the level invariant established by `Start`, as do `OnSkipLevel`, `OnBackLevel` and `OnTracerUpdate`; a handler called before `Start` is not modelled.
- `currentLevel` is an unbounded natural: the C# `int` that `OnNextLevel` and `OnSkipLevel` increment with no cap (Assets/Scripts/TracingLevelManager.cs:94) would wrap to a negative value after 2^31 - 1 steps, and that wrap-around is not modelled.
- TracingLevel.TracingLevelManager.OnBackLevel: at line 135 the source indexes past the panel array and throws, after decrementing `currentLevel`. The model stops at the same point and returns `faulted`; what the exception does after that is not modelled.
- The `else` branch of `OnBackLevel` (lines 139-142) cannot run, because `currentLevel` is at least 1 there; it is not modelled.
