/**
  The index completeness protocol: the gap query of the blockchain indexer, the
  `range` helper that expands its rows, and the coordinator's periodic sweep that
  either schedules the reported heights or moves the verified-height watermark.
 */
module GapQuery {
  import opened Results

  /** One row of the gap query: the heights `from..to`, both ends included. */
  datatype Row = Row(from: nat, to: nat)

  /** `range(start, end)` with the default step. A zero `end` counts as omitted, and a
      negative array size is a RangeError. */
  function Range(start: int, end: int): (r: Result<seq<int>>)
    ensures r.Ok? <==> (if end == 0 then 0 <= start else start <= end)
    ensures r.Ok? && end != 0 ==> forall h :: h in r.value <==> start <= h < end
    ensures r.Ok? && end == 0 ==> forall h :: h in r.value <==> 0 <= h < start
    ensures r.Ok? ==> forall i, j :: 0 <= i < j < |r.value| ==> r.value[i] < r.value[j]
  {
    var lo, hi := if end == 0 then 0 else start, if end == 0 then start else end;
    if hi < lo then
      Err("RangeError: Invalid array length")
    else
      var heights := seq(hi - lo, i => lo + i);
      assert forall h :: lo <= h < hi ==> h in heights by {
        forall h | lo <= h < hi ensures h in heights { assert heights[h - lo] == h; }
      }
      Ok(heights)
  }

  /** The indexed heights that the count query sees. */
  function InRange(indexed: set<nat>, from: nat, to: nat): (s: set<nat>) {
    set h | h in indexed && from <= h <= to
  }

  /** `COALESCE(MAX(b0.height), from)` over the indexed heights below `b`. The maximum is
      taken over the whole table, so it can lie below `from`. */
  function Anchor(indexed: set<nat>, from: nat, b: nat): (a: nat)
    ensures (a in indexed && a < b) || (a == from && forall k :: 0 <= k < b ==> k !in indexed)
    ensures forall k :: a < k < b ==> k !in indexed
  {
    if b == 0 then from
    else if b - 1 in indexed then b - 1
    else Anchor(indexed, from, b - 1)
  }

  /** The WHERE clause: `b` is indexed, its predecessor is not, and `from < b < to`. */
  predicate GapEnd(indexed: set<nat>, from: nat, to: nat, b: nat) {
    b in indexed && from < b < to && b - 1 !in indexed
  }

  /** The rows of the gap query whose right neighbour is at `b` or above. */
  function GapRows(indexed: set<nat>, from: nat, to: nat, b: nat): (rows: seq<Row>)
    requires from < b
    ensures forall r :: r in rows <==>
              exists e :: b <= e && GapEnd(indexed, from, to, e) && r == Row(Anchor(indexed, from, e), e - 1)
    decreases (to - b)
  {
    if to <= b then []
    else
      var rest := GapRows(indexed, from, to, b + 1);
      if GapEnd(indexed, from, to, b) then [Row(Anchor(indexed, from, b), b - 1)] + rest else rest
  }

  /** `findMissingBlocksInRange`. */
  function FindMissingBlocksInRange(indexed: set<nat>, from: nat, to: nat): (rows: seq<Row>) {
    var indexedBlockCount := |InRange(indexed, from, to)|;
    if indexedBlockCount < 3 then [Row(from, to)]
    else if indexedBlockCount != to - from + 1 then GapRows(indexed, from, to, from + 1)
    else []
  }

  /** Expands every row with `range(from, to + 1)` and flattens the lists. */
  function Expand(rows: seq<Row>): (r: Result<seq<int>>)
    ensures r.Ok? <==> forall row :: row in rows ==> row.from <= row.to + 1
    ensures r.Ok? ==> forall h :: h in r.value <==> exists row :: row in rows && row.from <= h <= row.to
  {
    if rows == [] then Ok([])
    else
      var first := Range(rows[0].from, rows[0].to + 1);
      var rest := Expand(rows[1..]);
      if first.Err? then first
      else if rest.Err? then rest
      else Ok(first.value + rest.value)
  }

  /** `getMissingBlocks`. */
  function GetMissingBlocks(indexed: set<nat>, from: nat, to: nat): (r: Result<seq<int>>) {
    Expand(FindMissingBlocksInRange(indexed, from, to))
  }

  /** What the indexer reports, stated over the set of indexed heights alone. */
  ghost predicate Reported(indexed: set<nat>, from: nat, to: nat, h: nat) {
    if |InRange(indexed, from, to)| < 3 then from <= h <= to
    else exists b :: GapEnd(indexed, from, to, b) && Anchor(indexed, from, b) <= h < b
  }

  lemma {:induction false} CountIsFull(indexed: set<nat>, from: nat, to: nat)
    requires from <= to
    ensures |InRange(indexed, from, to)| <= to - from + 1
    ensures |InRange(indexed, from, to)| == to - from + 1 <==> forall h :: from <= h <= to ==> h in indexed
    decreases (to - from)
  {
    if from == to {
      assert InRange(indexed, from, to) == if from in indexed then {from} else {};
    } else {
      CountIsFull(indexed, from, to - 1);
      var shorter := InRange(indexed, from, to - 1);
      assert InRange(indexed, from, to) == if to in indexed then shorter + {to} else shorter;
    }
  }

  /** The computed list is exactly the reported set; it fails only on an inverted window. */
  lemma MissingBlocksAreReported(indexed: set<nat>, from: nat, to: nat)
    ensures GetMissingBlocks(indexed, from, to).Ok? <==> from <= to + 1
    ensures from <= to + 1 ==>
              forall h: nat :: h in GetMissingBlocks(indexed, from, to).value <==> Reported(indexed, from, to, h)
    ensures from <= to + 1 ==> forall h :: h in GetMissingBlocks(indexed, from, to).value ==> h >= 0
  {
    var n := |InRange(indexed, from, to)|;
    var rows := FindMissingBlocksInRange(indexed, from, to);
    if to < from {
      assert InRange(indexed, from, to) == {};
      assert Row(from, to) in rows;
    } else if n < 3 {
      assert Row(from, to) in rows;
    } else if n == to - from + 1 {
      CountIsFull(indexed, from, to);
    } else {
      forall h: nat
        ensures (exists row :: row in rows && row.from <= h <= row.to) <==> Reported(indexed, from, to, h)
      {
        if Reported(indexed, from, to, h) {
          var b: nat :| GapEnd(indexed, from, to, b) && Anchor(indexed, from, b) <= h < b;
          assert Row(Anchor(indexed, from, b), b - 1) in rows;
        }
      }
    }
  }

  predicate Ascending(rows: seq<Row>) {
    forall i, j :: 0 <= i < j < |rows| ==> rows[i].to < rows[j].from
  }

  lemma {:induction false} GapRowsAscend(indexed: set<nat>, from: nat, to: nat, b: nat)
    requires from < b
    ensures Ascending(GapRows(indexed, from, to, b))
    decreases (to - b)
  {
    if b < to {
      GapRowsAscend(indexed, from, to, b + 1);
      var rest := GapRows(indexed, from, to, b + 1);
      if GapEnd(indexed, from, to, b) {
        forall j | 0 <= j < |rest|
          ensures b <= rest[j].from
        {
          assert rest[j] in rest;
          var e: nat :| b + 1 <= e && GapEnd(indexed, from, to, e) && rest[j] == Row(Anchor(indexed, from, e), e - 1);
        }
      }
    }
  }

  lemma {:induction false} ExpandAscends(rows: seq<Row>)
    requires Ascending(rows) && Expand(rows).Ok?
    ensures var hs := Expand(rows).value; forall i, j :: 0 <= i < j < |hs| ==> hs[i] < hs[j]
    decreases |rows|
  {
    if rows == [] {
    } else {
      var first, rest := Range(rows[0].from, rows[0].to + 1), Expand(rows[1..]);
      ExpandAscends(rows[1..]);
      forall i, j | 0 <= i < |first.value| && 0 <= j < |rest.value|
        ensures first.value[i] < rest.value[j]
      {
        assert first.value[i] in first.value && rest.value[j] in rest.value;
        var row :| row in rows[1..] && row.from <= rest.value[j] <= row.to;
      }
    }
  }

  /** No height is listed twice: the reported list ascends strictly. */
  lemma MissingBlocksAscend(indexed: set<nat>, from: nat, to: nat)
    requires GetMissingBlocks(indexed, from, to).Ok?
    ensures var hs := GetMissingBlocks(indexed, from, to).value; forall i, j :: 0 <= i < j < |hs| ==> hs[i] < hs[j]
  {
    GapRowsAscend(indexed, from, to, from + 1);
    ExpandAscends(FindMissingBlocksInRange(indexed, from, to));
  }

  /** Completeness, both directions: a missing height of the window is reported exactly when
      the window holds fewer than three indexed heights or some indexed height lies
      strictly between it and `to`. */
  lemma MissingIsReportedIff(indexed: set<nat>, from: nat, to: nat, h: nat)
    requires from <= h <= to && h !in indexed
    ensures Reported(indexed, from, to, h) <==>
            |InRange(indexed, from, to)| < 3 || exists x :: x in indexed && h < x < to
  {
    if x :| x in indexed && h < x < to {
      var b := FirstAtOrAbove(indexed, h, x);
      assert GapEnd(indexed, from, to, b);
    }
  }

  lemma FirstAtOrAbove(indexed: set<nat>, h: nat, x: nat) returns (b: nat)
    requires h <= x && x in indexed
    ensures h <= b <= x && b in indexed && forall k :: h <= k < b ==> k !in indexed
  {
    b := h;
    while b !in indexed
      invariant h <= b <= x && forall k :: h <= k < b ==> k !in indexed
      decreases x - b
    {
      b := b + 1;
    }
  }

  /** `h` is the left edge of a gap that ends just below the indexed height `b`. */
  predicate LeftEdge(indexed: set<nat>, h: nat, b: nat) {
    h in indexed && b in indexed && h + 1 < b && forall k :: h < k < b ==> k !in indexed
  }

  /** Soundness, exactly: with three or more indexed heights, an indexed height is reported
      if and only if it is the left edge of a gap whose right edge lies inside the window. */
  lemma IndexedIsReportedIff(indexed: set<nat>, from: nat, to: nat, h: nat)
    requires |InRange(indexed, from, to)| >= 3 && h in indexed
    ensures Reported(indexed, from, to, h) <==> exists b :: from < b < to && LeftEdge(indexed, h, b)
  {
    if b: nat :| from < b < to && LeftEdge(indexed, h, b) {
      LeftEdgeIsAnchor(indexed, from, h, b);
      assert GapEnd(indexed, from, to, b);
    }
    if Reported(indexed, from, to, h) {
      var b: nat :| GapEnd(indexed, from, to, b) && Anchor(indexed, from, b) <= h < b;
      assert LeftEdge(indexed, h, b);
    }
  }

  lemma LeftEdgeIsAnchor(indexed: set<nat>, from: nat, h: nat, b: nat)
    requires LeftEdge(indexed, h, b)
    ensures Anchor(indexed, from, b) == h && b - 1 !in indexed
  {
  }

  /** The index after every reported height has been indexed. */
  ghost function Repaired(indexed: set<nat>, from: nat, to: nat): (s: set<nat>) {
    indexed + set h: nat | h <= to && Reported(indexed, from, to, h)
  }

  /** Repair reaches a fixpoint on exactly the windows of three heights or more. */
  lemma RepairFixpointIff(indexed: set<nat>, from: nat, to: nat)
    requires from <= to
    ensures (forall h :: !Reported(Repaired(indexed, from, to), from, to, h)) <==> to - from >= 2
  {
    var repaired := Repaired(indexed, from, to);
    CountIsFull(repaired, from, to);
    if to - from < 2 {
      assert Reported(repaired, from, to, from);
    } else if |InRange(indexed, from, to)| < 3 {
      assert forall h :: from <= h <= to ==> Reported(indexed, from, to, h);
    } else {
      RepairClosesGaps(indexed, from, to);
      assert InRange(indexed, from, to) <= InRange(repaired, from, to);
      CardinalityMonotone(InRange(indexed, from, to), InRange(repaired, from, to));
    }
  }

  lemma RepairClosesGaps(indexed: set<nat>, from: nat, to: nat)
    requires |InRange(indexed, from, to)| >= 3
    ensures forall b :: !GapEnd(Repaired(indexed, from, to), from, to, b)
  {
    var repaired := Repaired(indexed, from, to);
    forall b | b in repaired && from < b < to
      ensures b - 1 in repaired
    {
      if b in indexed {
        if b - 1 !in indexed {
          assert GapEnd(indexed, from, to, b);
          assert Reported(indexed, from, to, b - 1);
        }
      } else {
        var e: nat :| GapEnd(indexed, from, to, e) && Anchor(indexed, from, e) <= b < e;
        assert Anchor(indexed, from, e) <= b - 1;
        assert Reported(indexed, from, to, b - 1);
      }
    }
  }

  lemma {:induction false} CardinalityMonotone(a: set<nat>, b: set<nat>)
    requires a <= b
    ensures |a| <= |b|
  {
    if a == {} {
    } else {
      var x :| x in a;
      CardinalityMonotone(a - {x}, b - {x});
    }
  }
}

/** The coordinator's sweep and the safety of its watermark over all runs. */
module IndexCompleteness {
  import opened Results
  import opened GapQuery

  /** `indexed` is the blocks table, `verified` the stored watermark, `current` the node's
      height and `queue` the scheduled block-indexing jobs. */
  datatype State = State(indexed: set<nat>, verified: Option<nat>, current: nat, queue: seq<int>)

  /** `getIndexVerifiedHeight() || genesisHeight`: a stored zero falls back too. */
  function LowerRange(genesis: nat, verified: Option<nat>): (h: nat) {
    if verified.Some? && verified.value != 0 then verified.value else genesis
  }

  /** One sweep as a state transformer. An inverted window throws and changes nothing. */
  function Sweep(genesis: nat, s: State): (s': State) {
    match GetMissingBlocks(s.indexed, LowerRange(genesis, s.verified), s.current)
    case Err(_) => s
    case Ok(missing) =>
      if missing == [] then s.(verified := Some(s.current)) else s.(queue := s.queue + missing)
  }

  /** What one sweep does, said of the indexed heights: the reported heights, each once and in
      ascending order, join the queue, and the watermark moves to `current` exactly when there is
      none. A window that is inverted by more than one changes nothing. */
  ghost predicate SweepDone(genesis: nat, s: State, s': State) {
    var from := if s.verified.Some? && s.verified.value > 0 then s.verified.value else genesis;
    s'.indexed == s.indexed && s'.current == s.current &&
    if s.current + 1 < from then s' == s
    else
      s.queue <= s'.queue && Lists(s'.queue[|s.queue|..], s.indexed, from, s.current) &&
      s'.verified == if exists h :: Reported(s.indexed, from, s.current, h) then s.verified else Some(s.current)
  }

  /** `heights` are the reported ones, ascending. */
  ghost predicate Lists(heights: seq<int>, indexed: set<nat>, from: nat, to: nat) {
    (forall i, j :: 0 <= i < j < |heights| ==> heights[i] < heights[j]) &&
    (forall i :: 0 <= i < |heights| ==> heights[i] >= 0) &&
    forall h: nat :: h in heights <==> Reported(indexed, from, to, h)
  }

  lemma MissingBlocksAreListed(indexed: set<nat>, from: nat, to: nat)
    requires from <= to + 1
    ensures var missing := GetMissingBlocks(indexed, from, to);
            missing.Ok? && Lists(missing.value, indexed, from, to) &&
            (missing.value == [] <==> forall h: nat :: !Reported(indexed, from, to, h))
  {
    MissingBlocksAreReported(indexed, from, to);
    MissingBlocksAscend(indexed, from, to);
    var missing := GetMissingBlocks(indexed, from, to).value;
    assert forall i :: 0 <= i < |missing| ==> missing[i] in missing;
    if missing != [] {
      assert Reported(indexed, from, to, missing[0]);
    }
  }

  lemma SweepQueuesReported(genesis: nat, s: State)
    ensures SweepDone(genesis, s, Sweep(genesis, s))
  {
    var from := LowerRange(genesis, s.verified);
    if from <= s.current + 1 {
      MissingBlocksAreListed(s.indexed, from, s.current);
      var missing := GetMissingBlocks(s.indexed, from, s.current).value;
      assert (s.queue + missing)[|s.queue|..] == missing;
      assert missing == [] ==> s.queue[|s.queue|..] == missing;
    } else {
      MissingBlocksAreReported(s.indexed, from, s.current);
    }
  }

  /** The scheduler service: its queue and its stored watermark. */
  class Coordinator {
    var verified: Option<nat>
    var queue: seq<int>

    /** `scheduleBlocksIndexing`. */
    method ScheduleBlocksIndexing(heights: seq<int>)
      modifies this`queue
      ensures queue == old(queue) + heights
    {
      for i := 0 to |heights|
        invariant queue == old(queue) + heights[..i]
      {
        queue := queue + [heights[i]];
        assert heights[..i + 1] == heights[..i] + [heights[i]];
      }
      assert heights[..|heights|] == heights;
    }

    /** `scheduleMissingBlocksIndexing`, where the indexer answers from `indexed`. */
    method ScheduleMissingBlocksIndexing(genesis: nat, current: nat, indexed: set<nat>)
      modifies this
      ensures State(indexed, verified, current, queue)
           == Sweep(genesis, old(State(indexed, verified, current, queue)))
      ensures SweepDone(genesis, old(State(indexed, verified, current, queue)),
                        State(indexed, verified, current, queue))
    {
      SweepQueuesReported(genesis, State(indexed, verified, current, queue));
      var missing := GetMissingBlocks(indexed, LowerRange(genesis, verified), current);
      if missing.Ok? {
        if missing.value == [] {
          verified := Some(current);
        } else {
          ScheduleBlocksIndexing(missing.value);
        }
      }
    }
  }

  datatype Step =
    | IndexBlock(height: nat)
    | RemoveBlock(height: nat)
    | NewHeight(current: nat)
    | RunSweep

  function Next(genesis: nat, s: State, step: Step): (s': State) {
    match step
    case IndexBlock(h) => s.(indexed := s.indexed + {h})
    case RemoveBlock(h) => s.(indexed := s.indexed - {h})
    case NewHeight(c) => s.(current := c)
    case RunSweep => Sweep(genesis, s)
  }

  /** The chain never lies below its genesis block, and neither does the watermark. */
  predicate AboveGenesis(genesis: nat, s: State) {
    s.current >= genesis && (s.verified.Some? ==> s.verified.value >= genesis)
  }

  /** What the watermark claims: every height from genesis up to it is indexed. */
  ghost predicate Safe(genesis: nat, s: State) {
    s.verified.Some? ==> forall h :: genesis <= h < s.verified.value ==> h in s.indexed
  }

  predicate Advances(genesis: nat, s: State) {
    GetMissingBlocks(s.indexed, LowerRange(genesis, s.verified), s.current) == Ok([])
  }

  /** The guard each step has to meet, checkable before it: a removed block lies at or above
      the watermark, and the height before `current` is indexed when a sweep moves it. */
  predicate Guarded(genesis: nat, s: State, step: Step) {
    match step
    case IndexBlock(_) => true
    case RemoveBlock(h) => h !in s.indexed || h < genesis || (s.verified.Some? ==> s.verified.value <= h)
    case NewHeight(_) => true
    case RunSweep =>
      Advances(genesis, s) && LowerRange(genesis, s.verified) <= s.current ==> s.current - 1 in s.indexed
  }

  lemma NarrowWindowIsReported(indexed: set<nat>, from: nat, to: nat)
    requires from <= to < from + 2
    ensures Reported(indexed, from, to, from)
  {
    CountIsFull(indexed, from, to);
  }

  /** The watermark only moves over windows of three heights or more, or one step back. */
  lemma AdvanceWindow(genesis: nat, s: State)
    requires Advances(genesis, s)
    ensures LowerRange(genesis, s.verified) + 2 <= s.current || LowerRange(genesis, s.verified) == s.current + 1
  {
    var from, to := LowerRange(genesis, s.verified), s.current;
    MissingBlocksAreReported(s.indexed, from, to);
    if from <= to < from + 2 {
      NarrowWindowIsReported(s.indexed, from, to);
    }
  }

  /** After a sweep that reports nothing, the swept heights below `current` are all indexed
      exactly when the last of them is. */
  lemma SilentSweepCoversIff(indexed: set<nat>, from: nat, to: nat)
    requires from < to && GetMissingBlocks(indexed, from, to) == Ok([])
    ensures (forall h :: from <= h < to ==> h in indexed) <==> to - 1 in indexed
  {
    MissingBlocksAreReported(indexed, from, to);
    assert !Reported(indexed, from, to, from) && !Reported(indexed, from, to, to - 1);
    if to - 1 in indexed {
      forall h | from <= h < to
        ensures h in indexed
      {
        if h !in indexed {
          MissingIsReportedIff(indexed, from, to, h);
        }
      }
    }
  }

  /** One step keeps the watermark's claim if and only if its guard holds. */
  lemma StepSafeIff(genesis: nat, s: State, step: Step)
    requires AboveGenesis(genesis, s) && Safe(genesis, s)
    ensures Safe(genesis, Next(genesis, s, step)) <==> Guarded(genesis, s, step)
  {
    match step
    case RunSweep =>
      if Advances(genesis, s) {
        AdvanceWindow(genesis, s);
        var from := LowerRange(genesis, s.verified);
        if from <= s.current {
          SilentSweepCoversIff(s.indexed, from, s.current);
        }
      }
    case _ =>
  }

  predicate HeightsAboveGenesis(genesis: nat, steps: seq<Step>) {
    forall i :: 0 <= i < |steps| && steps[i].NewHeight? ==> steps[i].current >= genesis
  }

  ghost predicate AlwaysSafe(genesis: nat, s: State, steps: seq<Step>)
    decreases |steps|
  {
    Safe(genesis, s) && (steps != [] ==> AlwaysSafe(genesis, Next(genesis, s, steps[0]), steps[1..]))
  }

  predicate AlwaysGuarded(genesis: nat, s: State, steps: seq<Step>)
    decreases |steps|
  {
    steps != [] ==> Guarded(genesis, s, steps[0]) && AlwaysGuarded(genesis, Next(genesis, s, steps[0]), steps[1..])
  }

  /** Watermark safety over all runs, exactly: every state of a run from a safe state is safe
      if and only if every step of the run met its guard. */
  lemma {:induction false} WatermarkSafeIff(genesis: nat, s: State, steps: seq<Step>)
    requires AboveGenesis(genesis, s) && Safe(genesis, s) && HeightsAboveGenesis(genesis, steps)
    ensures AlwaysSafe(genesis, s, steps) <==> AlwaysGuarded(genesis, s, steps)
    decreases |steps|
  {
    if steps == [] {
    } else {
      StepSafeIff(genesis, s, steps[0]);
      var s' := Next(genesis, s, steps[0]);
      if Safe(genesis, s') {
        WatermarkSafeIff(genesis, s', steps[1..]);
      } else {
        assert !AlwaysSafe(genesis, s', steps[1..]);
      }
    }
  }

  /** Progress: when a sweep has queued heights and all of them have been indexed, the next sweep
      moves the watermark to the current height if and only if the window spans three heights or
      more; a narrower window is queued again. */
  lemma IndexedQueueAdvancesIff(genesis: nat, s: State)
    requires LowerRange(genesis, s.verified) <= s.current && !Advances(genesis, s)
    ensures var added := Sweep(genesis, s).queue[|s.queue|..];
            var repaired := Sweep(genesis, s).(indexed := s.indexed + set h: nat | h in added);
            added != [] &&
            (Advances(genesis, repaired) <==> LowerRange(genesis, s.verified) + 2 <= s.current) &&
            (Advances(genesis, repaired) ==> Sweep(genesis, repaired) == repaired.(verified := Some(s.current)))
  {
    var from, to := LowerRange(genesis, s.verified), s.current;
    SweepQueuesReported(genesis, s);
    MissingBlocksAreReported(s.indexed, from, to);
    var missing := GetMissingBlocks(s.indexed, from, to).value;
    var added := Sweep(genesis, s).queue[|s.queue|..];
    assert added == missing;
    assert s.indexed + (set h: nat | h in added) == Repaired(s.indexed, from, to);
    RepairFixpointIff(s.indexed, from, to);
    MissingBlocksAreReported(Repaired(s.indexed, from, to), from, to);
    var again := GetMissingBlocks(Repaired(s.indexed, from, to), from, to).value;
    if again != [] {
      HasElement(again);
    }
  }

  lemma HasElement(heights: seq<int>)
    requires heights != []
    ensures heights[0] in heights
  {
  }

  /** The unguarded case happens: a trailing gap is not reported, and the watermark passes it. */
  lemma TrailingGapIsMissed()
    ensures var s := State({0, 1, 2}, None, 10, []);
            Sweep(0, s) == s.(verified := Some(10)) && Safe(0, s) && !Safe(0, Sweep(0, s))
  {
    var indexed: set<nat> := {0, 1, 2};
    assert InRange(indexed, 0, 10) == indexed;
    MissingBlocksAreReported(indexed, 0, 10);
    var missing := GetMissingBlocks(indexed, 0, 10).value;
    assert forall b :: !GapEnd(indexed, 0, 10, b);
    if missing != [] {
      HasElement(missing);
    }
    assert 5 !in indexed;
  }
}
