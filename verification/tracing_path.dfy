/** A TracingPath (TracingBrushManager.cs): one stroke of a letter or shape,
    and what the tracer does to the flags of a tracer's paths. */
module TracingPaths {

  import opened Scene

  /** The checkpoints of a path are identified by their index; `enabled[k]` is
      the active flag of `checkpoints[k]`, so `|enabled|` is
      `checkpoints.Length`. The path's own fields are never reassigned: what
      changes are the active flags of the objects it points at. */
  datatype TracingPath = TracingPath(
    enabled: seq<bool>,
    hasDrawArea: bool,     // drawArea != null
    strokeFill: Handle,    // shown when this stroke is finished
    parentFill: Handle)    // on path 0: shown when the whole letter is finished
  {

    function Count(): nat {
      |enabled|
    }

    /** Exactly checkpoints i and i + 1 are enabled: the current target and
        the one after it. */
    predicate WindowAt(i: nat) {
      forall k :: 0 <= k < |enabled| ==> (enabled[k] <==> k == i || k == i + 1)
    }

    predicate AllDisabled() {
      forall k :: 0 <= k < |enabled| ==> !enabled[k]
    }

    /** What of the path the scripts never change: its checkpoints, its draw
        area and its fill objects. */
    function Shape(): Outline {
      Outline(|enabled|, hasDrawArea, strokeFill.Present?, parentFill.Present?)
    }

    /** Same checkpoints, same draw area, same fill objects; only flags may differ. */
    predicate SameShape(q: TracingPath) {
      q.Shape() == Shape()
    }

    /** Sets the active flag of checkpoint `index`; an index out of range, or
        negative, changes nothing. */
    function EnableCheckpoint(index: int, enable: bool): (q: TracingPath)
      ensures q == this.(enabled := q.enabled) && |q.enabled| == |enabled|
      ensures forall k :: 0 <= k < |enabled| ==> q.enabled[k] == (if k == index then enable else enabled[k])
      ensures !(0 <= index < |enabled|) ==> q == this
    {
      if 0 <= index < |enabled| then this.(enabled := enabled[index := enable]) else this
    }

    /** The path with every checkpoint's flag set to `enable`. */
    function WithAll(enable: bool): (q: TracingPath)
      ensures q == this.(enabled := q.enabled) && |q.enabled| == |enabled|
      ensures forall k :: 0 <= k < |enabled| ==> q.enabled[k] == enable
    {
      this.(enabled := seq(|enabled|, _ => enable))
    }

    /** Sets the active flag of every checkpoint of the path. */
    method EnableCheckpoints(enable: bool) returns (q: TracingPath)
      ensures q == WithAll(enable)
    {
      q := this;
      var k := 0;
      while k < |enabled|
        invariant 0 <= k <= |enabled|
        invariant q == this.(enabled := q.enabled) && |q.enabled| == |enabled|
        invariant forall j :: 0 <= j < k ==> q.enabled[j] == enable
      {
        q := q.EnableCheckpoint(k, enable);
        k := k + 1;
      }
      assert q.enabled == WithAll(enable).enabled;
    }

    /** Checkpoints 0 and 1 enabled (those of them that exist). */
    function Opened(): TracingPath {
      EnableCheckpoint(0, true).EnableCheckpoint(1, true)
    }

    /** Every checkpoint disabled and both fills hidden. */
    function Hidden(): TracingPath {
      WithAll(false).(strokeFill := strokeFill.Set(false), parentFill := parentFill.Set(false))
    }

    /** Advancing from checkpoint i (disable i, enable i + 1 and i + 2) moves
        the two-checkpoint window from i to i + 1. */
    lemma WindowShift(i: nat)
      requires WindowAt(i) && i + 2 < Count()
      ensures EnableCheckpoint(i, false).EnableCheckpoint(i + 1, true).EnableCheckpoint(i + 2, true).WindowAt(i + 1)
    {
    }

    /** Opening a path whose checkpoints are all disabled puts the window at
        checkpoint 0. */
    lemma WindowOpen()
      requires AllDisabled() && Count() > 1
      ensures Opened().WindowAt(0)
    {
    }
  }

  /** The shape of a path: how many checkpoints, whether it has a draw area,
      a stroke fill and a parent fill. */
  datatype Outline = Outline(count: nat, hasDrawArea: bool, hasStrokeFill: bool, hasParentFill: bool)

  /** The shapes of a sequence of paths. */
  function Shapes(ps: seq<TracingPath>): seq<Outline> {
    seq(|ps|, k requires 0 <= k < |ps| => ps[k].Shape())
  }

  /** Two path sequences that differ at most in flags. */
  predicate SameShapes(a: seq<TracingPath>, b: seq<TracingPath>) {
    Shapes(a) == Shapes(b)
  }

  /** The two-checkpoint lookahead of a tracer on stroke s at checkpoint i:
      every other path has all its checkpoints disabled, and on a current
      path of two or more checkpoints exactly i and i + 1 are enabled. */
  predicate LookaheadOf(ps: seq<TracingPath>, s: nat, i: nat) {
    (forall k :: 0 <= k < |ps| && k != s ==> ps[k].AllDisabled()) &&
    (s < |ps| && ps[s].Count() > 1 ==> ps[s].WindowAt(i))
  }

  // ---------------------------------------------------------------- Start

  /** The paths after the tracer's Start: every checkpoint disabled, then
      checkpoints 0 and 1 of path 0 enabled when it has more than one. */
  function StartOf(ps: seq<TracingPath>): (qs: seq<TracingPath>)
    ensures SameShapes(ps, qs)
  {
    var off := seq(|ps|, k requires 0 <= k < |ps| => ps[k].WithAll(false));
    if |ps| > 0 && ps[0].Count() > 1 then off[0 := off[0].Opened()] else off
  }

  lemma StartOfMeaning(ps: seq<TracingPath>)
    ensures forall k :: 0 <= k < |ps| ==>
              StartOf(ps)[k].strokeFill == ps[k].strokeFill && StartOf(ps)[k].parentFill == ps[k].parentFill
    ensures forall k, j :: 0 <= k < |ps| && 0 <= j < ps[k].Count() ==>
              StartOf(ps)[k].enabled[j] == (k == 0 && j < 2 && ps[0].Count() > 1)
    ensures LookaheadOf(StartOf(ps), 0, 0)
  {
    var qs := StartOf(ps);
    forall k | 0 <= k < |ps|
      ensures qs[k].SameShape(ps[k])
      ensures forall j :: 0 <= j < ps[k].Count() ==> qs[k].enabled[j] == (k == 0 && j < 2 && ps[0].Count() > 1)
    {
    }
  }

  /** Start and ResetTracing enable the same checkpoints except on a path 0
      of exactly one checkpoint, which only ResetTracing enables. */
  lemma StartVersusReset(ps: seq<TracingPath>)
    ensures |ps| > 0 && ps[0].Count() == 1 ==> !StartOf(ps)[0].enabled[0] && ResetOf(ps)[0].enabled[0]
    ensures !(|ps| > 0 && ps[0].Count() == 1) ==>
              forall k :: 0 <= k < |ps| ==> StartOf(ps)[k].enabled == ResetOf(ps)[k].enabled
  {
    StartOfMeaning(ps);
    ResetOfMeaning(ps);
    var a, b := StartOf(ps), ResetOf(ps);
    if !(|ps| > 0 && ps[0].Count() == 1) {
      forall k | 0 <= k < |ps|
        ensures a[k].enabled == b[k].enabled
      {
        assert a[k].SameShape(ps[k]) && b[k].SameShape(ps[k]);
      }
    }
  }

  // ---------------------------------------------------------------- Advance

  /** The paths after checkpoint i + 1 of stroke s is reached with another
      checkpoint after it: i disabled, i + 1 and i + 2 enabled. */
  function AdvanceOf(ps: seq<TracingPath>, s: nat, i: nat): (qs: seq<TracingPath>)
    requires s < |ps|
    ensures SameShapes(ps, qs)
  {
    ps[s := ps[s].EnableCheckpoint(i, false).EnableCheckpoint(i + 1, true).EnableCheckpoint(i + 2, true)]
  }

  lemma AdvanceLookahead(ps: seq<TracingPath>, s: nat, i: nat)
    requires s < |ps| && i + 2 < ps[s].Count() && LookaheadOf(ps, s, i)
    ensures LookaheadOf(AdvanceOf(ps, s, i), s, i + 1)
  {
    ps[s].WindowShift(i);
  }

  // ---------------------------------------------------------------- Finish

  /** The paths after stroke s is finished: its checkpoints all disabled and
      its stroke fill shown; then the next stroke opened when it has two or
      more checkpoints, and otherwise path 0's parent fill shown. */
  function FinishOf(ps: seq<TracingPath>, s: nat): (qs: seq<TracingPath>)
    requires s < |ps|
    ensures SameShapes(ps, qs)
  {
    var qs := ps[s := ps[s].WithAll(false).(strokeFill := ps[s].strokeFill.Set(true))];
    if s + 1 < |qs| && qs[s + 1].Count() > 1 then qs[s + 1 := qs[s + 1].Opened()]
    else qs[0 := qs[0].(parentFill := qs[0].parentFill.Set(true))]
  }

  /** What finishing stroke s means for each path. */
  lemma FinishOfMeaning(ps: seq<TracingPath>, s: nat)
    requires s < |ps|
    ensures var qs, opens := FinishOf(ps, s), s + 1 < |ps| && ps[s + 1].Count() > 1;
      qs[s].AllDisabled() && qs[s].strokeFill == ps[s].strokeFill.Set(true) &&
      (forall k :: 0 <= k < |ps| && k != s && k != s + 1 ==> qs[k].enabled == ps[k].enabled) &&
      (forall k :: 0 <= k < |ps| && k != s ==> qs[k].strokeFill == ps[k].strokeFill) &&
      (s + 1 < |ps| ==> qs[s + 1].enabled == if opens then ps[s + 1].Opened().enabled else ps[s + 1].enabled) &&
      (forall k :: 0 < k < |ps| ==> qs[k].parentFill == ps[k].parentFill) &&
      qs[0].parentFill == if opens then ps[0].parentFill else ps[0].parentFill.Set(true)
  {
  }

  /** Finishing keeps the lookahead: if every path but s had its checkpoints
      disabled, the window of the next stroke is at its checkpoint 0. */
  lemma FinishLookahead(ps: seq<TracingPath>, s: nat)
    requires s < |ps|
    requires forall k :: 0 <= k < |ps| && k != s ==> ps[k].AllDisabled()
    ensures LookaheadOf(FinishOf(ps, s), s + 1, 0)
  {
    FinishOfMeaning(ps, s);
    if s + 1 < |ps| && ps[s + 1].Count() > 1 {
      ps[s + 1].WindowOpen();
    }
  }

  /** Finishing does not depend on the flags the finished stroke had. */
  lemma FinishIgnoresFlags(ps: seq<TracingPath>, s: nat, e: seq<bool>)
    requires s < |ps| && |e| == ps[s].Count()
    ensures FinishOf(ps[s := ps[s].(enabled := e)], s) == FinishOf(ps, s)
  {
    assert ps[s].(enabled := e).WithAll(false) == ps[s].WithAll(false);
  }

  // ---------------------------------------------------------------- Reset

  /** The paths as a reset leaves them: no fill shown, and of all checkpoints
      only checkpoints 0 and 1 of path 0 (those of them that exist) enabled. */
  predicate ResetPaths(ps: seq<TracingPath>) {
    forall k :: 0 <= k < |ps| ==>
      !ps[k].strokeFill.IsOn() && !ps[k].parentFill.IsOn() &&
      forall j :: 0 <= j < |ps[k].enabled| ==> ps[k].enabled[j] == (k == 0 && j < 2)
  }

  /** The paths after ResetTracing: every path hidden, then path 0 opened. */
  function ResetOf(ps: seq<TracingPath>): (qs: seq<TracingPath>)
    ensures SameShapes(ps, qs)
  {
    var hs := seq(|ps|, k requires 0 <= k < |ps| => ps[k].Hidden());
    if |hs| > 0 then hs[0 := hs[0].Opened()] else hs
  }

  lemma ResetOfMeaning(ps: seq<TracingPath>)
    ensures ResetPaths(ResetOf(ps)) && LookaheadOf(ResetOf(ps), 0, 0)
  {
    var qs := ResetOf(ps);
    forall k | 0 <= k < |ps|
      ensures qs[k].SameShape(ps[k])
      ensures forall j :: 0 <= j < |qs[k].enabled| ==> qs[k].enabled[j] == (k == 0 && j < 2)
    {
    }
  }

  /** The reset state is determined by the shape alone. */
  lemma ResetPathsUnique(a: seq<TracingPath>, b: seq<TracingPath>)
    requires SameShapes(a, b) && ResetPaths(a) && ResetPaths(b)
    ensures a == b
  {
    forall k | 0 <= k < |a|
      ensures a[k] == b[k]
    {
      assert Shapes(a)[k] == Shapes(b)[k];
      assert a[k].enabled == b[k].enabled;
    }
  }

  /** The reset paths depend on the shape alone, not on the flags before. */
  lemma ResetOfShapeOnly(a: seq<TracingPath>, b: seq<TracingPath>)
    requires SameShapes(a, b)
    ensures ResetOf(a) == ResetOf(b)
  {
    ResetOfMeaning(a);
    ResetOfMeaning(b);
    var ra, rb := ResetOf(a), ResetOf(b);
    forall k | 0 <= k < |a|
      ensures ra[k].SameShape(rb[k])
    {
      assert Shapes(ra)[k] == Shapes(a)[k] == Shapes(b)[k] == Shapes(rb)[k];
    }
    ResetPathsUnique(ra, rb);
  }

  /** Resetting paths that are already reset changes nothing; in particular
      resetting twice is resetting once. */
  lemma ResetOfIdempotent(ps: seq<TracingPath>)
    ensures ResetPaths(ps) ==> ResetOf(ps) == ps
    ensures ResetOf(ResetOf(ps)) == ResetOf(ps)
  {
    ResetOfMeaning(ps);
    ResetOfMeaning(ResetOf(ps));
    if ResetPaths(ps) {
      ResetPathsUnique(ps, ResetOf(ps));
    }
    ResetPathsUnique(ResetOf(ps), ResetOf(ResetOf(ps)));
  }
}
