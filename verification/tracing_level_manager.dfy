/** TracingLevelManager (TracingLevelManager.cs): walks the player through the
    letters, one panel of tracers per letter, counts finished strokes and
    gates the Next button on them. */
module TracingLevel {

  import opened Scene
  import opened Sums
  import opened TracingPaths
  import opened TracingBrush

  /** The stroke index of each tracer: how many of its strokes are done. */
  ghost function StrokeIndices(ts: seq<TracingBrushManager>): seq<nat>
    reads ts
  {
    seq(|ts|, k reads ts requires 0 <= k < |ts| => ts[k].currentStrokeIndex)
  }

  /** The brush dots of each tracer. */
  ghost function Dots(ts: seq<TracingBrushManager>): (ds: seq<seq<Vec>>)
    reads ts
    ensures |ds| == |ts| && forall k :: 0 <= k < |ts| ==> ds[k] == ts[k].dots
  {
    seq(|ts|, k reads ts requires 0 <= k < |ts| => ts[k].dots)
  }

  /** Every tracer of a panel is as ResetTracing leaves it, given the dots
      `ds` it had before. */
  ghost predicate PanelReset(ts: seq<TracingBrushManager>, ds: seq<seq<Vec>>)
    reads ts
  {
    |ds| == |ts| && forall k :: 0 <= k < |ts| ==> IsReset(ts[k], ds[k])
  }

  /** Tracer t is as ResetTracing leaves it, given the dots `d` it had
      before: valid, at its start with the lookahead, its paths the reset of
      its shape and its dots cleared. */
  ghost predicate IsReset(t: TracingBrushManager, d: seq<Vec>)
    reads t
  {
    t.Valid() && t.AtStart() && t.Lookahead() && t.paths == ResetOf(t.shape) && t.dots == t.Cleared(d)
  }

  /** Every tracer of a panel is at its start, with the lookahead. */
  ghost predicate AllAtStart(ts: seq<TracingBrushManager>)
    reads ts
  {
    forall k :: 0 <= k < |ts| ==> ts[k].AtStart() && ts[k].Lookahead()
  }

  /** The stroke count of each tracer. */
  ghost function StrokeCounts(ts: seq<TracingBrushManager>): seq<nat>
    reads ts
  {
    seq(|ts|, k reads ts requires 0 <= k < |ts| => ts[k].GetStrokeCount())
  }

  class TracingLevelManager {
    /** tracingPanels: each panel given by the tracers it holds, in the order
        GetComponentsInChildren returns them. */
    const panels: seq<seq<TracingBrushManager>>
    /** The active flag of each panel. */
    var panelActive: seq<bool>
    var levelCompletePanel: Handle
    var strokePopup: Handle
    var levelPopup: Handle
    var nextButton: Handle       // interactable
    var backButton: Handle       // interactable
    var pauseMenuPanel: Handle
    var isPaused: bool
    var timeFrozen: bool         // Time.timeScale == 0
    var musicSource: Handle      // mute
    var isMusicOn: bool
    var currentLevel: nat
    var strokesCompleted: nat
    var totalStrokesInLevel: nat

    /** Every tracer of every panel. */
    ghost const tracers: set<TracingBrushManager>

    /** Structural invariant: one flag per panel, no tracer twice in a panel,
        every tracer in its own invariant. */
    ghost predicate Valid()
      reads tracers
    {
      (forall i, k, l :: 0 <= i < |panels| && 0 <= k < l < |panels[i]| ==> panels[i][k] != panels[i][l]) &&
      (forall i, k :: 0 <= i < |panels| && 0 <= k < |panels[i]| ==> panels[i][k] in tracers) &&
      (forall i, k :: 0 <= i < |panels| && 0 <= k < |panels[i]| ==> panels[i][k].Valid())
    }

    /** What holds from Start onward: exactly the panel of the current level
        is shown (none past the last level); within a level the completed
        count is the sum of its tracers' stroke indices and the total the sum
        of their stroke counts; Next is interactable once at least one stroke
        is done and the count has reached the total; Back iff the level is
        not the first; past the last level neither. */
    ghost predicate Consistent()
      reads this, tracers
      requires Valid()
    {
      |panelActive| == |panels| &&
      (forall i :: 0 <= i < |panels| ==> (panelActive[i] <==> i == currentLevel)) &&
      (currentLevel < |panels| ==>
         strokesCompleted == Sum(StrokeIndices(panels[currentLevel])) &&
         totalStrokesInLevel == Sum(StrokeCounts(panels[currentLevel])) &&
         (nextButton.Present? ==> nextButton.on == (0 < strokesCompleted && totalStrokesInLevel <= strokesCompleted)) &&
         (backButton.Present? ==> backButton.on == (0 < currentLevel))) &&
      (currentLevel >= |panels| ==> !nextButton.IsOn() && !backButton.IsOn())
    }

    /** Level l has just been entered: its counts are initialised and each
        of its tracers is as ResetTracing leaves it, given the dots `ds` the
        tracers had before. */
    ghost predicate Entered(l: nat, ds: seq<seq<Vec>>)
      reads this, tracers
      requires Valid() && l < |panels|
    {
      strokesCompleted == 0 && totalStrokesInLevel == Sum(StrokeCounts(panels[l])) &&
      Sum(StrokeIndices(panels[l])) == 0 &&
      PanelReset(panels[l], ds)
    }

    /** The field initialisers, and the inspector's panels and references. */
    constructor (panels: seq<seq<TracingBrushManager>>, panelActive: seq<bool>,
                 levelCompletePanel: Handle, strokePopup: Handle, levelPopup: Handle,
                 nextButton: Handle, backButton: Handle, pauseMenuPanel: Handle, musicSource: Handle)
      requires |panelActive| == |panels|
      requires forall i, k, l :: 0 <= i < |panels| && 0 <= k < l < |panels[i]| ==> panels[i][k] != panels[i][l]
      requires forall i, k :: 0 <= i < |panels| && 0 <= k < |panels[i]| ==> panels[i][k].Valid()
      ensures Valid()
      ensures this.panels == panels && this.panelActive == panelActive
      ensures this.levelCompletePanel == levelCompletePanel && this.strokePopup == strokePopup &&
              this.levelPopup == levelPopup && this.nextButton == nextButton && this.backButton == backButton &&
              this.pauseMenuPanel == pauseMenuPanel && this.musicSource == musicSource
      ensures !isPaused && !timeFrozen && isMusicOn
      ensures currentLevel == 0 && strokesCompleted == 0 && totalStrokesInLevel == 0
    {
      this.panels := panels;
      this.panelActive := panelActive;
      this.levelCompletePanel := levelCompletePanel;
      this.strokePopup := strokePopup;
      this.levelPopup := levelPopup;
      this.nextButton := nextButton;
      this.backButton := backButton;
      this.pauseMenuPanel := pauseMenuPanel;
      this.musicSource := musicSource;
      tracers := set i, k | 0 <= i < |panels| && 0 <= k < |panels[i]| :: panels[i][k];
      isPaused, timeFrozen, isMusicOn := false, false, true;
      currentLevel, strokesCompleted, totalStrokesInLevel := 0, 0, 0;
    }

    /** Resets every tracer of panel l: each one's paths become the reset of
        its shape (the reset of its paths before, by ResetOfShapeOnly) and its
        dots are cleared. */
    method ResetPanelTracing(l: nat)
      requires Valid() && l < |panels|
      modifies panels[l]
      ensures Valid() && PanelReset(panels[l], old(Dots(panels[l])))
      ensures panelActive == old(panelActive) && currentLevel == old(currentLevel)
    {
      ResetEach(panels[l]);
    }

    /** Starts level l: no stroke done yet, the total is the sum of the
        stroke counts of the panel's tracers, Next disabled, Back enabled iff
        l is not the first level. */
    method InitLevel(l: nat)
      requires l < |panels|
      modifies this`strokesCompleted, this`totalStrokesInLevel, this`nextButton, this`backButton
      ensures strokesCompleted == 0 && totalStrokesInLevel == Sum(StrokeCounts(panels[l]))
      ensures nextButton == old(nextButton).Set(false) && backButton == old(backButton).Set(l > 0)
    {
      strokesCompleted := 0;
      totalStrokesInLevel := 0;
      var ts := panels[l];
      var k := 0;
      while k < |ts|
        invariant 0 <= k <= |ts|
        invariant totalStrokesInLevel == Sum(StrokeCounts(ts)[..k])
        modifies this`totalStrokesInLevel
      {
        SumPrefix(StrokeCounts(ts), k);
        totalStrokesInLevel := totalStrokesInLevel + ts[k].GetStrokeCount();
        k := k + 1;
      }
      assert StrokeCounts(ts)[..k] == StrokeCounts(ts);
      nextButton := nextButton.Set(false);
      backButton := backButton.Set(l > 0);
    }
  
    /** Hides every panel, popup and the pause menu, disables both buttons,
        and enters the first level when there is one. */
    method Start()
      requires Valid() && |panelActive| == |panels| && currentLevel == 0
      modifies this`panelActive, this`levelCompletePanel, this`strokePopup, this`levelPopup, this`pauseMenuPanel,
               this`nextButton, this`backButton, this`strokesCompleted, this`totalStrokesInLevel
      modifies if 0 < |panels| then panels[0] else []
      ensures Valid() && currentLevel == 0 && Consistent()
      ensures levelCompletePanel == old(levelCompletePanel).Set(false) && pauseMenuPanel == old(pauseMenuPanel).Set(false)
      ensures strokePopup == old(strokePopup).Set(false) && levelPopup == old(levelPopup).Set(false)
      ensures nextButton == old(nextButton).Set(false) && backButton == old(backButton).Set(false)
      ensures 0 < |panels| ==> Entered(0, old(Dots(panels[0])))
      ensures |panels| == 0 ==> strokesCompleted == old(strokesCompleted) && totalStrokesInLevel == old(totalStrokesInLevel)
    {
      ghost var ds := if 0 < |panels| then Dots(panels[0]) else [];
      HidePanels();
      HideOverlays();
      assert 0 < |panels| ==> ds == Dots(panels[0]);
      ghost var handles := [levelCompletePanel, strokePopup, levelPopup, pauseMenuPanel, nextButton, backButton];
      EnterFirstLevel();
      assert handles == [levelCompletePanel, strokePopup, levelPopup, pauseMenuPanel, nextButton, backButton];
    }

    /** The last step of Start: with every panel hidden and both buttons off,
        the first level is entered when there is one. */
    method EnterFirstLevel()
      requires Valid() && currentLevel == 0
      requires |panelActive| == |panels| && forall i :: 0 <= i < |panels| ==> !panelActive[i]
      requires !nextButton.IsOn() && !backButton.IsOn()
      modifies this`panelActive, this`nextButton, this`backButton, this`strokesCompleted, this`totalStrokesInLevel
      modifies if 0 < |panels| then panels[0] else []
      ensures Valid() && currentLevel == 0 && Consistent()
      ensures nextButton == old(nextButton) && backButton == old(backButton)
      ensures 0 < |panels| ==> Entered(0, old(Dots(panels[0])))
      ensures |panels| == 0 ==> strokesCompleted == old(strokesCompleted) && totalStrokesInLevel == old(totalStrokesInLevel)
    {
      if 0 < |panels| {
        ShowLevel(0);
      } else {
        PastLastIsConsistent();
      }
    }

    /** Deactivates every panel. */
    method HidePanels()
      requires |panelActive| == |panels|
      modifies this`panelActive
      ensures |panelActive| == |panels| && forall i :: 0 <= i < |panels| ==> !panelActive[i]
    {
      var i := 0;
      while i < |panels|
        invariant 0 <= i <= |panels| == |panelActive|
        invariant forall m :: 0 <= m < i ==> !panelActive[m]
      {
        panelActive := panelActive[i := false];
        i := i + 1;
      }
    }

    /** Hides the completion panel, both popups and the pause menu, and
        disables both buttons. */
    method HideOverlays()
      modifies this`levelCompletePanel, this`strokePopup, this`levelPopup, this`pauseMenuPanel,
               this`nextButton, this`backButton
      ensures levelCompletePanel == old(levelCompletePanel).Set(false)
      ensures strokePopup == old(strokePopup).Set(false) && levelPopup == old(levelPopup).Set(false)
      ensures pauseMenuPanel == old(pauseMenuPanel).Set(false)
      ensures nextButton == old(nextButton).Set(false) && backButton == old(backButton).Set(false)
    {
      levelCompletePanel := levelCompletePanel.Set(false);
      strokePopup := strokePopup.Set(false);
      levelPopup := levelPopup.Set(false);
      pauseMenuPanel := pauseMenuPanel.Set(false);
      nextButton := nextButton.Set(false);
      backButton := backButton.Set(false);
    }

    /** Shows panel l, resets its tracers and initialises the level: the
        steps Start, OnNextLevel and OnBackLevel share. With every other
        panel hidden the manager is then consistent. */
    method ShowLevel(l: nat)
      requires Valid() && l < |panels| && currentLevel == l
      requires |panelActive| == |panels| && forall i :: 0 <= i < |panels| && i != l ==> !panelActive[i]
      modifies this`panelActive, this`strokesCompleted, this`totalStrokesInLevel, this`nextButton, this`backButton,
               panels[l]
      ensures Valid() && Entered(l, old(Dots(panels[l]))) && Consistent()
      ensures panelActive == old(panelActive)[l := true] && currentLevel == l
      ensures nextButton == old(nextButton).Set(false) && backButton == old(backButton).Set(l > 0)
    {
      panelActive := panelActive[l := true];
      EnterLevel(l);
      InLevelIsConsistent();
    }

    /** Resets the tracers of panel l and initialises the level's counts and
        buttons. */
    method EnterLevel(l: nat)
      requires Valid() && l < |panels|
      modifies this`strokesCompleted, this`totalStrokesInLevel, this`nextButton, this`backButton, panels[l]
      ensures Valid() && Entered(l, old(Dots(panels[l])))
      ensures panelActive == old(panelActive) && currentLevel == old(currentLevel)
      ensures nextButton == old(nextButton).Set(false) && backButton == old(backButton).Set(l > 0)
    {
      ghost var ds := Dots(panels[l]);
      ResetPanelTracing(l);
      InitLevel(l);
      AtStartSum(panels[l]);
      assert PanelReset(panels[l], ds);
    }

    /** One stroke finished in the current level: the stroke popup is shown,
        and once the count reaches the total the level popup is shown and Next
        becomes interactable. */
    method OnStrokeCompleted()
      modifies this`strokesCompleted, this`strokePopup, this`levelPopup, this`nextButton
      ensures strokesCompleted == old(strokesCompleted) + 1
      ensures strokePopup == old(strokePopup).Set(true)
      ensures if strokesCompleted >= totalStrokesInLevel
              then levelPopup == old(levelPopup).Set(true) && nextButton == old(nextButton).Set(true)
              else levelPopup == old(levelPopup) && nextButton == old(nextButton)
    {
      strokesCompleted := strokesCompleted + 1;
      strokePopup := strokePopup.Set(true);
      if strokesCompleted >= totalStrokesInLevel {
        levelPopup := levelPopup.Set(true);
        nextButton := nextButton.Set(true);
      }
    }

    /** A frame of tracer k of the shown panel l: the tracer steps as its
        Update does (Stepped), and a stroke it completes is reported to the
        level (OnStrokeCompleted). */
    method OnTracerUpdate(l: nat, k: nat, f: Frame) returns (completed: bool)
      requires Valid() && Consistent() && l < |panels| && panelActive[l] && k < |panels[l]|
      modifies this`strokesCompleted, this`strokePopup, this`levelPopup, this`nextButton, panels[l][k]
      ensures Valid() && Consistent()
      ensures strokesCompleted == old(strokesCompleted) + (if completed then 1 else 0)
      ensures completed ==>
                strokePopup == old(strokePopup).Set(true) &&
                if strokesCompleted >= totalStrokesInLevel
                then levelPopup == old(levelPopup).Set(true) && nextButton == old(nextButton).Set(true)
                else levelPopup == old(levelPopup) && nextButton == old(nextButton)
      ensures !completed ==>
                strokePopup == old(strokePopup) && levelPopup == old(levelPopup) && nextButton == old(nextButton)
      ensures panels[l][k].Stepped(f, completed)
      ensures SameShapes(old(panels[l][k].paths), panels[l][k].paths)
      ensures old(panels[l][k].Lookahead()) ==> panels[l][k].Lookahead()
    {
      assert l == currentLevel;
      completed := StepTracer(l, k, f);
      CountStroke(completed);
    }

    /** Reports to the level the stroke a tracer of the shown panel may have
        just completed: with the count one behind the panel's stroke indices
        when it did, the manager is consistent again afterwards. */
    method CountStroke(completed: bool)
      requires Valid() && currentLevel < |panels|
      requires |panelActive| == |panels| && forall i :: 0 <= i < |panels| ==> (panelActive[i] <==> i == currentLevel)
      requires strokesCompleted + (if completed then 1 else 0) == Sum(StrokeIndices(panels[currentLevel]))
      requires totalStrokesInLevel == Sum(StrokeCounts(panels[currentLevel]))
      requires nextButton.Present? ==> nextButton.on == (0 < strokesCompleted && totalStrokesInLevel <= strokesCompleted)
      requires backButton.Present? ==> backButton.on == (0 < currentLevel)
      modifies this`strokesCompleted, this`strokePopup, this`levelPopup, this`nextButton
      ensures Valid() && Consistent()
      ensures strokesCompleted == old(strokesCompleted) + (if completed then 1 else 0)
      ensures completed ==>
                strokePopup == old(strokePopup).Set(true) &&
                if strokesCompleted >= totalStrokesInLevel
                then levelPopup == old(levelPopup).Set(true) && nextButton == old(nextButton).Set(true)
                else levelPopup == old(levelPopup) && nextButton == old(nextButton)
      ensures !completed ==>
                strokePopup == old(strokePopup) && levelPopup == old(levelPopup) && nextButton == old(nextButton)
    {
      if completed {
        OnStrokeCompleted();
      }
      InLevelIsConsistent();
    }

    /** The tracer's own frame, as its Update does it (Stepped): the strokes
        done in its panel grow by the completed flag, and the panel's total
        stays. */
    method StepTracer(l: nat, k: nat, f: Frame) returns (completed: bool)
      requires Valid() && l < |panels| && k < |panels[l]|
      modifies panels[l][k]
      ensures Valid()
      ensures Sum(StrokeIndices(panels[l])) == old(Sum(StrokeIndices(panels[l]))) + (if completed then 1 else 0)
      ensures Sum(StrokeCounts(panels[l])) == old(Sum(StrokeCounts(panels[l])))
      ensures panels[l][k].Stepped(f, completed)
      ensures SameShapes(old(panels[l][k].paths), panels[l][k].paths)
      ensures old(panels[l][k].Lookahead()) ==> panels[l][k].Lookahead()
    {
      var ts := panels[l];
      var t := ts[k];
      ghost var before, counts := StrokeIndices(ts), StrokeCounts(ts);
      completed := t.Update(f);
      assert forall m :: 0 <= m < |ts| && m != k ==> ts[m] != t;
      assert StrokeCounts(ts) == counts;
      if completed {
        assert StrokeIndices(ts) == before[k := before[k] + 1];
        SumIncrement(before, k);
      } else {
        assert StrokeIndices(ts) == before;
      }
    }

    /** Next: hides the shown panel, moves to the following level and enters
        it, or, past the last level, shows the completion panel and disables
        both buttons. There is no upper bound on the level. */
    method OnNextLevel()
      requires Valid() && Consistent()
      modifies this`panelActive, this`currentLevel, this`levelCompletePanel,
               this`strokesCompleted, this`totalStrokesInLevel, this`nextButton, this`backButton
      modifies if currentLevel + 1 < |panels| then panels[currentLevel + 1] else []
      ensures Valid() && Consistent()
      ensures currentLevel == old(currentLevel) + 1
      ensures nextButton == old(nextButton).Set(false) && backButton == old(backButton).Set(currentLevel < |panels|)
      ensures currentLevel < |panels| ==>
                var l := currentLevel; Entered(l, old(Dots(panels[l]))) && levelCompletePanel == old(levelCompletePanel)
      ensures currentLevel >= |panels| ==> levelCompletePanel == old(levelCompletePanel).Set(true)
      ensures currentLevel >= |panels| ==> strokesCompleted == old(strokesCompleted) && totalStrokesInLevel == old(totalStrokesInLevel)
    {
      var next := currentLevel + 1;
      ghost var ds := if next < |panels| then Dots(panels[next]) else [];
      HideShownPanel();
      currentLevel := next;
      assert next < |panels| ==> ds == Dots(panels[next]);
      ShowNext(next);
    }

    /** The rest of Next once the level has moved on and no panel is shown:
        enters the level, or, past the last one, shows the completion panel
        and disables both buttons. */
    method ShowNext(l: nat)
      requires Valid() && 0 < l && currentLevel == l
      requires |panelActive| == |panels| && forall i :: 0 <= i < |panels| ==> !panelActive[i]
      modifies this`panelActive, this`levelCompletePanel,
               this`strokesCompleted, this`totalStrokesInLevel, this`nextButton, this`backButton
      modifies if l < |panels| then panels[l] else []
      ensures Valid() && currentLevel == l && Consistent()
      ensures nextButton == old(nextButton).Set(false) && backButton == old(backButton).Set(l < |panels|)
      ensures l < |panels| ==> Entered(l, old(Dots(panels[l]))) && levelCompletePanel == old(levelCompletePanel)
      ensures l >= |panels| ==> levelCompletePanel == old(levelCompletePanel).Set(true)
      ensures l >= |panels| ==> strokesCompleted == old(strokesCompleted) && totalStrokesInLevel == old(totalStrokesInLevel)
    {
      if l < |panels| {
        ghost var lcp := levelCompletePanel;
        ShowLevel(l);
        assert levelCompletePanel == lcp;
      } else {
        ShowComplete();
      }
    }

    /** Past the last level, with no panel shown: the completion panel is
        shown and both buttons are disabled. */
    method ShowComplete()
      requires Valid() && currentLevel >= |panels|
      requires |panelActive| == |panels| && forall i :: 0 <= i < |panels| ==> !panelActive[i]
      modifies this`levelCompletePanel, this`nextButton, this`backButton
      ensures Valid() && Consistent()
      ensures levelCompletePanel == old(levelCompletePanel).Set(true)
      ensures nextButton == old(nextButton).Set(false) && backButton == old(backButton).Set(false)
    {
      levelCompletePanel := levelCompletePanel.Set(true);
      nextButton := nextButton.Set(false);
      backButton := backButton.Set(false);
      PastLastIsConsistent();
    }

    /** Skip: the same as Next, whether or not the level is done. */
    method OnSkipLevel()
      requires Valid() && Consistent()
      modifies this`panelActive, this`currentLevel, this`levelCompletePanel,
               this`strokesCompleted, this`totalStrokesInLevel, this`nextButton, this`backButton
      modifies if currentLevel + 1 < |panels| then panels[currentLevel + 1] else []
      ensures Valid() && Consistent()
      ensures currentLevel == old(currentLevel) + 1
      ensures nextButton == old(nextButton).Set(false) && backButton == old(backButton).Set(currentLevel < |panels|)
      ensures currentLevel < |panels| ==>
                var l := currentLevel; Entered(l, old(Dots(panels[l]))) && levelCompletePanel == old(levelCompletePanel)
      ensures currentLevel >= |panels| ==> levelCompletePanel == old(levelCompletePanel).Set(true)
      ensures currentLevel >= |panels| ==> strokesCompleted == old(strokesCompleted) && totalStrokesInLevel == old(totalStrokesInLevel)
    {
      OnNextLevel();
    }

    /** Back: nothing at the first level; otherwise hides the shown panel and
        enters the previous level. The completion panel is left as it is.
        From two or more levels past the last one, the previous index is not
        a panel and the lookup fails after the level was decremented:
        `faulted` reports that, and nothing else changes. */
    method OnBackLevel() returns (faulted: bool)
      requires Valid() && Consistent()
      modifies this`panelActive, this`currentLevel,
               this`strokesCompleted, this`totalStrokesInLevel, this`nextButton, this`backButton
      modifies if 0 < currentLevel <= |panels| then panels[currentLevel - 1] else []
      ensures Valid() && Consistent()
      ensures faulted <==> old(currentLevel) > |panels|
      ensures old(currentLevel) == 0 ==> unchanged(this)
      ensures old(currentLevel) > 0 ==> currentLevel == old(currentLevel) - 1
      ensures faulted ==>
                strokesCompleted == old(strokesCompleted) && totalStrokesInLevel == old(totalStrokesInLevel) &&
                nextButton == old(nextButton) && backButton == old(backButton)
      ensures 0 < old(currentLevel) <= |panels| ==>
                (var l := currentLevel; Entered(l, old(Dots(panels[l])))) &&
                nextButton == old(nextButton).Set(false) && backButton == old(backButton).Set(currentLevel > 0)
    {
      faulted := false;
      if 0 < currentLevel {
        ghost var ds := if currentLevel <= |panels| then Dots(panels[currentLevel - 1]) else [];
        HideShownPanel();
        currentLevel := currentLevel - 1;
        assert currentLevel < |panels| ==> ds == Dots(panels[currentLevel]);
        faulted := ShowPrevious();
      }
    }

    /** The rest of Back once the level has moved back and no panel is shown:
        enters the level, or faults when it is not a panel, leaving the
        counts and buttons as they were. */
    method ShowPrevious() returns (faulted: bool)
      requires Valid()
      requires |panelActive| == |panels| && forall i :: 0 <= i < |panels| ==> !panelActive[i]
      requires currentLevel >= |panels| ==> !nextButton.IsOn() && !backButton.IsOn()
      modifies this`panelActive, this`strokesCompleted, this`totalStrokesInLevel, this`nextButton, this`backButton
      modifies if currentLevel < |panels| then panels[currentLevel] else []
      ensures Valid() && currentLevel == old(currentLevel) && Consistent()
      ensures faulted <==> currentLevel >= |panels|
      ensures faulted ==>
                strokesCompleted == old(strokesCompleted) && totalStrokesInLevel == old(totalStrokesInLevel) &&
                nextButton == old(nextButton) && backButton == old(backButton)
      ensures !faulted ==>
                (var l := currentLevel; Entered(l, old(Dots(panels[l])))) &&
                nextButton == old(nextButton).Set(false) && backButton == old(backButton).Set(currentLevel > 0)
    {
      if currentLevel < |panels| {
        ShowLevel(currentLevel);
        faulted := false;
      } else {
        faulted := true;
        PastLastIsConsistent();
      }
    }

    /** Within a level, with only its panel shown, the counts matching its
        tracers and the buttons set from them, the manager is consistent. */
    lemma InLevelIsConsistent()
      requires Valid() && currentLevel < |panels|
      requires |panelActive| == |panels| && forall i :: 0 <= i < |panels| ==> (panelActive[i] <==> i == currentLevel)
      requires strokesCompleted == Sum(StrokeIndices(panels[currentLevel]))
      requires totalStrokesInLevel == Sum(StrokeCounts(panels[currentLevel]))
      requires nextButton.Present? ==> nextButton.on == (0 < strokesCompleted && totalStrokesInLevel <= strokesCompleted)
      requires backButton.Present? ==> backButton.on == (0 < currentLevel)
      ensures Consistent()
    {
    }

    /** Hides the panel of the current level, if there is one: no panel is
        shown afterwards. */
    method HideShownPanel()
      requires Valid() && Consistent()
      modifies this`panelActive
      ensures Valid()
      ensures |panelActive| == |panels| && forall i :: 0 <= i < |panels| ==> !panelActive[i]
    {
      if currentLevel < |panels| {
        panelActive := panelActive[currentLevel := false];
      }
    }

    /** Past the last level, with no panel shown and neither button on, the
        manager is consistent. */
    lemma PastLastIsConsistent()
      requires Valid() && currentLevel >= |panels|
      requires |panelActive| == |panels| && forall i :: 0 <= i < |panels| ==> !panelActive[i]
      requires !nextButton.IsOn() && !backButton.IsOn()
      ensures Consistent()
    {
    }

    /** The pause menu, the frozen clock and the paused flag agree. */
    ghost predicate PauseInSync()
      reads this
    {
      isPaused == timeFrozen && (pauseMenuPanel.Present? ==> pauseMenuPanel.on == isPaused)
    }

    method OnPauseGame()
      modifies this`pauseMenuPanel, this`timeFrozen, this`isPaused
      ensures isPaused && timeFrozen && pauseMenuPanel == old(pauseMenuPanel).Set(true)
      ensures PauseInSync()
    {
      pauseMenuPanel := pauseMenuPanel.Set(true);
      timeFrozen := true;
      isPaused := true;
    }

    method OnResumeGame()
      modifies this`pauseMenuPanel, this`timeFrozen, this`isPaused
      ensures !isPaused && !timeFrozen && pauseMenuPanel == old(pauseMenuPanel).Set(false)
      ensures PauseInSync()
    {
      pauseMenuPanel := pauseMenuPanel.Set(false);
      timeFrozen := false;
      isPaused := false;
    }

    /** The music source is muted exactly when the music is off. */
    ghost predicate MusicInSync()
      reads this
    {
      musicSource.Present? ==> musicSource.on == !isMusicOn
    }

    /** Flips the music flag and mutes the source accordingly; without a
        music source nothing happens. */
    method OnToggleMusic()
      modifies this`isMusicOn, this`musicSource
      ensures old(musicSource).Absent? ==> isMusicOn == old(isMusicOn) && musicSource == old(musicSource)
      ensures old(musicSource).Present? ==> isMusicOn == !old(isMusicOn) && musicSource.Present?
      ensures MusicInSync()
    {
      if musicSource.Absent? {
        return;
      }
      isMusicOn := !isMusicOn;
      musicSource := musicSource.Set(!isMusicOn);
    }

    /** Within a level the strokes counted never exceed the level's total. */
    lemma DoneWithinTotal()
      requires Valid() && Consistent() && currentLevel < |panels|
      ensures strokesCompleted <= totalStrokesInLevel
    {
      LevelProgress(panels[currentLevel]);
    }

    /** Next is interactable within a level exactly when a stroke has been
        done and every tracer of the level has completed all its strokes. */
    lemma NextMeansLevelDone()
      requires Valid() && Consistent() && currentLevel < |panels| && nextButton.Present?
      ensures nextButton.on <==>
                0 < strokesCompleted &&
                forall k :: 0 <= k < |panels[currentLevel]| ==>
                  panels[currentLevel][k].currentStrokeIndex == panels[currentLevel][k].GetStrokeCount()
    {
      LevelProgress(panels[currentLevel]);
    }
  }

  /** Calls ResetTracing on each tracer of a panel in turn. */
  method ResetEach(ts: seq<TracingBrushManager>)
    requires forall m, n :: 0 <= m < n < |ts| ==> ts[m] != ts[n]
    requires forall m :: 0 <= m < |ts| ==> ts[m].Valid()
    modifies ts
    ensures forall t :: t in ts ==> t.Valid()
    ensures PanelReset(ts, old(Dots(ts)))
  {
    ghost var ds := Dots(ts);
    var k := 0;
    while k < |ts|
      invariant 0 <= k <= |ts|
      invariant forall m :: 0 <= m < k ==> IsReset(ts[m], ds[m])
      invariant forall m :: k <= m < |ts| ==> ts[m].Valid() && unchanged(ts[m])
    {
      assert forall m :: 0 <= m < |ts| && m != k ==> ts[m] != ts[k];
      ts[k].ResetTracing();
      k := k + 1;
    }
  }

  /** A panel whose tracers are all at their start has no stroke done. */
  lemma AtStartSum(ts: seq<TracingBrushManager>)
    requires AllAtStart(ts)
    ensures Sum(StrokeIndices(ts)) == 0
  {
    SumZero(StrokeIndices(ts));
  }

  /** The strokes done in a panel never exceed its total, and reach it exactly
      when every tracer has completed every stroke. */
  lemma LevelProgress(ts: seq<TracingBrushManager>)
    requires forall k :: 0 <= k < |ts| ==> ts[k].Valid()
    ensures Sum(StrokeIndices(ts)) <= Sum(StrokeCounts(ts))
    ensures Sum(StrokeIndices(ts)) == Sum(StrokeCounts(ts)) <==>
              forall k :: 0 <= k < |ts| ==> ts[k].currentStrokeIndex == ts[k].GetStrokeCount()
  {
    var a, b := StrokeIndices(ts), StrokeCounts(ts);
    SumBelow(a, b);
    if a == b {
      forall k | 0 <= k < |ts|
        ensures ts[k].currentStrokeIndex == ts[k].GetStrokeCount()
      {
        assert a[k] == b[k];
      }
    }
  }
}
