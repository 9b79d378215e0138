/** TracingBrushManager (TracingBrushManager.cs): the stroke-tracing state
    machine of one letter or shape. */
module TracingBrush {

  import opened Wrappers
  import opened TracingPaths

  /** A position in drawing space, with integer coordinates. */
  datatype Vec = Vec(x: int, y: int)

  /** Vector3.zero. */
  const Origin := Vec(0, 0)

  /** Whether the press of a frame starts tracing on a current path of `n`
      checkpoints at stroke `stroke`, checkpoint `i`: the path is not empty and
      the press hits exactly its current checkpoint. */
  predicate PressStarts(n: nat, stroke: nat, i: nat, f: Frame) {
    f.down && n > 0 && f.hit == Some(CheckpointId(stroke, i))
  }

  /** Squared Euclidean distance. */
  function SqDist(a: Vec, b: Vec): (d: nat)
    ensures d == 0 <==> a == b
  {
    var dx, dy := a.x - b.x, a.y - b.y;
    assert dx != 0 ==> dx * dx > 0;
    assert dy != 0 ==> dy * dy > 0;
    dx * dx + dy * dy
  }

  /** `Vector3.Distance(a, b) > spacing`, for a spacing that is not negative:
      a position never lies beyond any spacing from itself, and with spacing 0
      every other position does. */
  function BeyondSpacing(a: Vec, b: Vec, spacing: nat): (r: bool)
    ensures r ==> a != b
    ensures spacing == 0 ==> (r <==> a != b)
  {
    SqDist(a, b) > spacing * spacing
  }

  /** Checkpoint `index` of path `stroke` of this tracer. */
  datatype CheckpointId = CheckpointId(stroke: nat, index: nat)

  /** The pointer input of one frame: the button-down, held and up edges, the
      pointer position, the checkpoint of this tracer that the physics hit
      test finds there (None when it finds no collider, a collider that is no
      checkpoint, or a checkpoint of another tracer) and whether the current
      path's draw area contains the position. */
  datatype Frame = Frame(down: bool, held: bool, up: bool, pos: Vec,
                         hit: Option<CheckpointId>, inDrawArea: bool)

  /** What a release does, decided by the state before it. */
  datatype Release =
    | Ignored    // the current checkpoint is the path's last (or the path is empty)
    | Retry      // the release missed the next checkpoint: the ink is discarded
    | Advance    // the next checkpoint was reached and another follows it
    | Complete   // the path's last checkpoint was reached

  /** The release outcome on a path of `n` checkpoints whose current stroke is
      `stroke` and current checkpoint `i`: only a hit on checkpoint i + 1 of
      this stroke counts, and it completes the stroke exactly when i + 1 is
      the path's last checkpoint. */
  function ReleaseFor(n: nat, stroke: nat, i: nat, hit: Option<CheckpointId>): (r: Release)
    ensures r == Ignored <==> n <= i + 1
    ensures r == Advance <==> i + 2 < n && hit == Some(CheckpointId(stroke, i + 1))
    ensures r == Complete <==> i + 2 == n && hit == Some(CheckpointId(stroke, i + 1))
  {
    if n <= i + 1 then Ignored
    else if hit != Some(CheckpointId(stroke, i + 1)) then Retry
    else if i + 2 < n then Advance
    else Complete
  }

  class TracingBrushManager {
    var paths: seq<TracingPath>
    /** The paths as the inspector gives them: their checkpoints, draw areas
        and fill objects, which no operation changes. */
    ghost const shape: seq<TracingPath>
    const brushSpacing: nat
    const hasBrushParent: bool   // brushParent != null
    var currentStrokeIndex: nat
    var currentCheckpointIndex: nat
    var lastPos: Vec
    var isTracing: bool
    /** Positions of the brush dots spawned and not yet destroyed. */
    var dots: seq<Vec>

    ghost predicate Valid()
      reads this
    {
      SameShapes(shape, paths) &&
      currentStrokeIndex <= |paths| &&
      (currentStrokeIndex == |paths| ==> currentCheckpointIndex == 0) &&
      (currentStrokeIndex < |paths| ==>
         currentCheckpointIndex == 0 || currentCheckpointIndex + 1 < paths[currentStrokeIndex].Count()) &&
      (isTracing ==> currentStrokeIndex < |paths|) &&
      (!isTracing ==> lastPos == Origin)
    }

    /** The two-checkpoint lookahead over this tracer's paths. */
    ghost predicate Lookahead()
      reads this
    {
      LookaheadOf(paths, currentStrokeIndex, currentCheckpointIndex)
    }

    /** The state ResetTracing leaves. */
    ghost predicate AtStart()
      reads this
    {
      currentStrokeIndex == 0 && currentCheckpointIndex == 0 && !isTracing && lastPos == Origin &&
      ResetPaths(paths) && (hasBrushParent ==> dots == [])
    }

    /** What ClearBrushDots leaves of the dots `d`: it destroys the children of
        brushParent, and finds nothing to destroy when there is no brushParent
        (the dots were then spawned at the scene root). */
    function Cleared(d: seq<Vec>): seq<Vec> {
      if hasBrushParent then [] else d
    }

    /** The field initialisers, and the inspector's paths and settings. */
    constructor (paths: seq<TracingPath>, brushSpacing: nat, hasBrushParent: bool)
      ensures Valid()
      ensures this.paths == paths && shape == paths && this.brushSpacing == brushSpacing && this.hasBrushParent == hasBrushParent
      ensures currentStrokeIndex == 0 && currentCheckpointIndex == 0 && !isTracing && lastPos == Origin && dots == []
    {
      this.paths := paths;
      shape := paths;
      this.brushSpacing := brushSpacing;
      this.hasBrushParent := hasBrushParent;
      currentStrokeIndex, currentCheckpointIndex := 0, 0;
      lastPos, isTracing, dots := Origin, false, [];
    }

    /** Disables every checkpoint, then enables checkpoints 0 and 1 of path 0
        when it has more than one. */
    method Start()
      requires Valid()
      modifies this`paths
      ensures Valid()
      ensures paths == StartOf(old(paths))
      ensures currentStrokeIndex == 0 && currentCheckpointIndex == 0 ==> Lookahead()
    {
      ghost var ps := paths;
      var k := 0;
      while k < |paths|
        invariant 0 <= k <= |paths| == |ps|
        invariant forall m :: 0 <= m < k ==> paths[m] == ps[m].WithAll(false)
        invariant forall m :: k <= m < |paths| ==> paths[m] == ps[m]
      {
        var q := paths[k].EnableCheckpoints(false);
        paths := paths[k := q];
        k := k + 1;
      }
      if |paths| > 0 && paths[0].Count() > 1 {
        paths := paths[0 := paths[0].EnableCheckpoint(0, true).EnableCheckpoint(1, true)];
      }
      StartOfMeaning(ps);
    }

    /** The number of strokes (paths) the tracer owns. */
    function GetStrokeCount(): (n: nat)
      reads this
      ensures n == |paths|
      ensures Valid() ==> currentStrokeIndex <= n
    {
      |paths|
    }

    /** Destroys the spawned brush dots. */
    method ClearBrushDots()
      modifies this`dots
      ensures dots == Cleared(old(dots))
    {
      if hasBrushParent {
        while dots != []
          decreases |dots|
        {
          dots := dots[1..];
        }
      }
    }

    /** Pointer pressed: tracing starts only on the current checkpoint of the
        current path. */
    method PointerDown(pos: Vec, hit: Option<CheckpointId>)
      requires Valid() && currentStrokeIndex < |paths|
      modifies this`isTracing, this`lastPos
      ensures Valid()
      ensures if paths[currentStrokeIndex].Count() > 0 && hit == Some(CheckpointId(currentStrokeIndex, currentCheckpointIndex))
              then isTracing && lastPos == pos
              else isTracing == old(isTracing) && lastPos == old(lastPos)
    {
      if hit.Some? && paths[currentStrokeIndex].Count() > 0 &&
         hit.value == CheckpointId(currentStrokeIndex, currentCheckpointIndex)
      {
        isTracing := true;
        lastPos := pos;
      }
    }

    /** Pointer held while tracing: a dot is spawned at the position when it
        lies inside the path's draw area and further than brushSpacing from the
        previous sample. */
    method Drag(pos: Vec, inDrawArea: bool)
      requires Valid() && currentStrokeIndex < |paths| && isTracing
      modifies this`dots, this`lastPos
      ensures Valid()
      ensures if paths[currentStrokeIndex].hasDrawArea && inDrawArea && BeyondSpacing(old(lastPos), pos, brushSpacing)
              then dots == old(dots) + [pos] && lastPos == pos
              else dots == old(dots) && lastPos == old(lastPos)
    {
      if paths[currentStrokeIndex].hasDrawArea && inDrawArea {
        if BeyondSpacing(lastPos, pos, brushSpacing) {
          dots := dots + [pos];
          lastPos := pos;
        }
      }
    }

    /** Pointer released while tracing: advances to the next checkpoint when
        the release hits it, completes the stroke when that checkpoint is the
        path's last, and otherwise discards the ink. Tracing always stops.
        `completed` is the stroke-completed signal for the level. */
    method PointerUp(hit: Option<CheckpointId>) returns (completed: bool)
      requires Valid() && currentStrokeIndex < |paths| && isTracing
      modifies this`paths, this`dots, this`currentStrokeIndex, this`currentCheckpointIndex,
               this`isTracing, this`lastPos
      ensures Valid() && SameShapes(old(paths), paths)
      ensures !isTracing && lastPos == Origin
      ensures completed <==> ReleaseFor(old(paths[currentStrokeIndex].Count()), old(currentStrokeIndex), old(currentCheckpointIndex), hit) == Complete
      ensures ReleaseFor(old(paths[currentStrokeIndex].Count()), old(currentStrokeIndex), old(currentCheckpointIndex), hit) == Ignored ==>
                paths == old(paths) && dots == old(dots) &&
                currentStrokeIndex == old(currentStrokeIndex) && currentCheckpointIndex == old(currentCheckpointIndex)
      ensures ReleaseFor(old(paths[currentStrokeIndex].Count()), old(currentStrokeIndex), old(currentCheckpointIndex), hit) == Retry ==>
                paths == old(paths) && dots == Cleared(old(dots)) &&
                currentStrokeIndex == old(currentStrokeIndex) && currentCheckpointIndex == old(currentCheckpointIndex)
      ensures ReleaseFor(old(paths[currentStrokeIndex].Count()), old(currentStrokeIndex), old(currentCheckpointIndex), hit) == Advance ==>
                dots == old(dots) &&
                currentStrokeIndex == old(currentStrokeIndex) && currentCheckpointIndex == old(currentCheckpointIndex) + 1 &&
                paths == AdvanceOf(old(paths), old(currentStrokeIndex), old(currentCheckpointIndex))
      ensures ReleaseFor(old(paths[currentStrokeIndex].Count()), old(currentStrokeIndex), old(currentCheckpointIndex), hit) == Complete ==>
                dots == Cleared(old(dots)) &&
                currentStrokeIndex == old(currentStrokeIndex) + 1 && currentCheckpointIndex == 0 &&
                paths == FinishOf(old(paths), old(currentStrokeIndex))
      ensures old(Lookahead()) ==> Lookahead()
    {
      completed := false;
      if paths[currentStrokeIndex].Count() > currentCheckpointIndex + 1 {
        if hit == Some(CheckpointId(currentStrokeIndex, currentCheckpointIndex + 1)) {
          completed := ReachNext();
        } else {
          ClearBrushDots();
        }
      }
      isTracing := false;
      lastPos := Origin;
    }

    /** The release reached the next checkpoint: the current one is disabled
        and the next becomes current; the window moves on when another
        checkpoint follows, and the stroke is finished otherwise. */
    method ReachNext() returns (completed: bool)
      requires Valid() && currentStrokeIndex < |paths|
      requires currentCheckpointIndex + 1 < paths[currentStrokeIndex].Count()
      modifies this`paths, this`dots, this`currentStrokeIndex, this`currentCheckpointIndex
      ensures completed <==> old(currentCheckpointIndex) + 2 == old(paths[currentStrokeIndex].Count())
      ensures !completed ==>
                dots == old(dots) &&
                currentStrokeIndex == old(currentStrokeIndex) && currentCheckpointIndex == old(currentCheckpointIndex) + 1 &&
                paths == AdvanceOf(old(paths), old(currentStrokeIndex), old(currentCheckpointIndex))
      ensures completed ==>
                dots == Cleared(old(dots)) &&
                currentStrokeIndex == old(currentStrokeIndex) + 1 && currentCheckpointIndex == 0 &&
                paths == FinishOf(old(paths), old(currentStrokeIndex))
      ensures old(Lookahead()) ==> Lookahead()
    {
      var s, i := currentStrokeIndex, currentCheckpointIndex;
      ghost var ps := paths;
      paths := paths[s := paths[s].EnableCheckpoint(i, false)];
      currentCheckpointIndex := i + 1;
      if currentCheckpointIndex < paths[s].Count() - 1 {
        paths := paths[s := paths[s].EnableCheckpoint(i + 1, true).EnableCheckpoint(i + 2, true)];
        if old(Lookahead()) {
          AdvanceLookahead(ps, s, i);
        }
        completed := false;
      } else {
        FinishIgnoresFlags(ps, s, paths[s].enabled);
        FinishStroke();
        completed := true;
      }
    }

    /** The stroke is finished (its last checkpoint was just reached): show
        its fill, destroy the dots, disable its checkpoints, move to the next
        stroke and open it, or show the letter's fill when there is no next
        stroke of two or more checkpoints. */
    method FinishStroke()
      requires currentStrokeIndex < |paths| && currentCheckpointIndex + 1 == paths[currentStrokeIndex].Count()
      modifies this`paths, this`dots, this`currentStrokeIndex, this`currentCheckpointIndex
      ensures currentStrokeIndex == old(currentStrokeIndex) + 1 && currentCheckpointIndex == 0
      ensures dots == Cleared(old(dots))
      ensures paths == FinishOf(old(paths), old(currentStrokeIndex))
      ensures (forall k :: 0 <= k < |old(paths)| && k != old(currentStrokeIndex) ==> old(paths[k]).AllDisabled()) ==>
                Lookahead()
    {
      var s := currentStrokeIndex;
      ghost var ps := paths;
      ghost var done := ps[s].WithAll(false).(strokeFill := ps[s].strokeFill.Set(true));
      paths := paths[s := paths[s].(strokeFill := paths[s].strokeFill.Set(true))];
      ClearBrushDots();
      var q := paths[s].EnableCheckpoints(false);
      assert q == done;
      paths := paths[s := q];
      assert paths == ps[s := done];
      currentStrokeIndex := s + 1;
      currentCheckpointIndex := 0;
      if s + 1 < |paths| && paths[s + 1].Count() > 1 {
        paths := paths[s + 1 := paths[s + 1].EnableCheckpoint(0, true).EnableCheckpoint(1, true)];
      } else {
        paths := paths[0 := paths[0].(parentFill := paths[0].parentFill.Set(true))];
      }
      if forall k :: 0 <= k < |ps| && k != s ==> ps[k].AllDisabled() {
        FinishLookahead(ps, s);
      }
    }

    /** Frame f presses on the current checkpoint of the current path. */
    ghost predicate Presses(f: Frame)
      reads this
    {
      currentStrokeIndex < |paths| &&
      PressStarts(paths[currentStrokeIndex].Count(), currentStrokeIndex, currentCheckpointIndex, f)
    }

    /** Tracing after the press step of frame f. */
    ghost predicate TracesAfterPress(f: Frame)
      reads this
    {
      isTracing || Presses(f)
    }

    /** The last sample after the press step of frame f. */
    ghost function FromAfterPress(f: Frame): Vec
      reads this
    {
      if Presses(f) then f.pos else lastPos
    }

    /** The drag step of frame f spawns a dot. */
    ghost predicate Draws(f: Frame)
      reads this
    {
      f.held && TracesAfterPress(f) && currentStrokeIndex < |paths| &&
      paths[currentStrokeIndex].hasDrawArea && f.inDrawArea &&
      BeyondSpacing(FromAfterPress(f), f.pos, brushSpacing)
    }

    /** The dots after the drag step of frame f. */
    ghost function DotsAfterDrag(f: Frame): seq<Vec>
      reads this
    {
      if Draws(f) then dots + [f.pos] else dots
    }

    /** The release step of frame f runs. */
    ghost predicate Releases(f: Frame)
      reads this
    {
      f.up && TracesAfterPress(f)
    }

    /** The outcome of the release step of frame f. */
    ghost function Outcome(f: Frame): Release
      reads this
    {
      if currentStrokeIndex < |paths|
      then ReleaseFor(paths[currentStrokeIndex].Count(), currentStrokeIndex, currentCheckpointIndex, f.hit)
      else Ignored
    }

    /** What one frame f did, from the state before it (`old`) to this one,
        with `completed` the frame's signal: nothing once every stroke is
        done; otherwise the press, the drag and the release steps in that
        order, each on its own edge. A press on the current checkpoint starts
        tracing from its position; a drag while tracing spawns a dot as Drag
        does, from that position; without a release the paths and indices
        stay; a release acts on paths, dots and indices as PointerUp does, on
        the dots the drag left, and only a Complete signals. */
    twostate predicate Stepped(f: Frame, completed: bool)
      reads this
    {
      (old(currentStrokeIndex) >= |old(paths)| ==> !completed && unchanged(this)) &&
      currentStrokeIndex == old(currentStrokeIndex) + (if completed then 1 else 0) &&
      (old(currentStrokeIndex) < |old(paths)| && !old(Releases(f)) ==>
         !completed && paths == old(paths) &&
         currentStrokeIndex == old(currentStrokeIndex) && currentCheckpointIndex == old(currentCheckpointIndex) &&
         isTracing == old(TracesAfterPress(f)) && dots == old(DotsAfterDrag(f)) &&
         lastPos == (if old(Draws(f)) then f.pos else old(FromAfterPress(f)))) &&
      (old(currentStrokeIndex) < |old(paths)| && old(Releases(f)) ==>
         !isTracing && lastPos == Origin && (completed <==> old(Outcome(f)) == Complete) &&
         (old(Outcome(f)) == Ignored ==>
            paths == old(paths) && dots == old(DotsAfterDrag(f)) &&
            currentStrokeIndex == old(currentStrokeIndex) && currentCheckpointIndex == old(currentCheckpointIndex)) &&
         (old(Outcome(f)) == Retry ==>
            paths == old(paths) && dots == Cleared(old(DotsAfterDrag(f))) &&
            currentStrokeIndex == old(currentStrokeIndex) && currentCheckpointIndex == old(currentCheckpointIndex)) &&
         (old(Outcome(f)) == Advance ==>
            paths == AdvanceOf(old(paths), old(currentStrokeIndex), old(currentCheckpointIndex)) &&
            dots == old(DotsAfterDrag(f)) &&
            currentStrokeIndex == old(currentStrokeIndex) && currentCheckpointIndex == old(currentCheckpointIndex) + 1) &&
         (old(Outcome(f)) == Complete ==>
            paths == FinishOf(old(paths), old(currentStrokeIndex)) && dots == Cleared(old(DotsAfterDrag(f))) &&
            currentStrokeIndex == old(currentStrokeIndex) + 1 && currentCheckpointIndex == 0))
    }

    /** One frame, as Stepped describes it. */
    method Update(f: Frame) returns (completed: bool)
      requires Valid()
      modifies this
      ensures Valid() && SameShapes(old(paths), paths)
      ensures old(Lookahead()) ==> Lookahead()
      ensures Stepped(f, completed)
    {
      completed := false;
      if currentStrokeIndex >= |paths| {
        return;
      }
      ghost var outcome := Outcome(f);
      PressAndDrag(f);
      if f.up && isTracing {
        assert outcome == Outcome(f);
        completed := PointerUp(f.hit);
      }
    }

    /** The press and drag steps of frame f: tracing starts on a press on the
        current checkpoint, and a drag while tracing spawns a dot as Drag
        does; paths and indices stay. */
    method PressAndDrag(f: Frame)
      requires Valid() && currentStrokeIndex < |paths|
      modifies this`isTracing, this`lastPos, this`dots
      ensures Valid()
      ensures isTracing == old(TracesAfterPress(f)) && dots == old(DotsAfterDrag(f))
      ensures lastPos == if old(Draws(f)) then f.pos else old(FromAfterPress(f))
    {
      if f.down {
        PointerDown(f.pos, f.hit);
      }
      if f.held && isTracing {
        Drag(f.pos, f.inDrawArea);
      }
    }

    /** Back to the start of the letter: indices 0, not tracing, no dots, no
        fill shown, and only checkpoints 0 and 1 of path 0 enabled (just 0 if
        it has one checkpoint, none if it has none). */
    method ResetTracing()
      requires Valid()
      modifies this
      ensures Valid() && AtStart() && Lookahead()
      ensures paths == ResetOf(old(paths)) && dots == Cleared(old(dots))
      ensures paths == ResetOf(shape)
      ensures old(AtStart()) ==> paths == old(paths) && dots == old(dots)
    {
      isTracing := false;
      lastPos := Origin;
      currentStrokeIndex := 0;
      currentCheckpointIndex := 0;
      ClearBrushDots();
      ghost var ps := paths;
      RestorePaths();
      ResetOfMeaning(ps);
      ResetOfIdempotent(ps);
      ResetOfShapeOnly(shape, ps);
    }

    /** The path part of ResetTracing: every fill hidden and every checkpoint
        disabled, then the opening window of path 0 enabled. */
    method RestorePaths()
      modifies this`paths
      ensures paths == ResetOf(old(paths))
    {
      ghost var ps := paths;
      var k := 0;
      while k < |paths|
        invariant 0 <= k <= |paths| == |ps|
        invariant forall m :: 0 <= m < k ==> paths[m] == ps[m].Hidden()
        invariant forall m :: k <= m < |paths| ==> paths[m] == ps[m]
      {
        var p := paths[k].(strokeFill := paths[k].strokeFill.Set(false), parentFill := paths[k].parentFill.Set(false));
        p := p.EnableCheckpoints(false);
        paths := paths[k := p];
        k := k + 1;
      }
      if |paths| > 0 {
        if paths[0].Count() > 1 {
          paths := paths[0 := paths[0].EnableCheckpoint(0, true).EnableCheckpoint(1, true)];
        } else if paths[0].Count() == 1 {
          paths := paths[0 := paths[0].EnableCheckpoint(0, true)];
        }
      }
    }
  }
}
