/** The implementation timeline: a Gantt row per project phase over a
    32-week axis, positioned by percentages, with eight four-week headers.
    Percentages are exact rationals here. */
module Timeline {
  import opened Types

  const TotalWeeks: int := 32

  /** Weeks before the phase starts, counting from week 1. */
  function StartOffset(p: ProjectPhase): int {
    p.startWeek - 1
  }

  /** Weeks covered, both ends included: the offset and the duration add up
      to the last week. */
  function Duration(p: ProjectPhase): (d: int)
    ensures StartOffset(p) + d == p.endWeek
  {
    p.endWeek - p.startWeek + 1
  }

  function WidthPct(p: ProjectPhase): real {
    Duration(p) as real / TotalWeeks as real * 100.0
  }

  function LeftPct(p: ProjectPhase): real {
    StartOffset(p) as real / TotalWeeks as real * 100.0
  }

  /** The bar ends at the last week's share of the axis. */
  lemma BarEnd(p: ProjectPhase)
    ensures LeftPct(p) + WidthPct(p) == p.endWeek as real / TotalWeeks as real * 100.0
  {
  }

  /** The bar is a non-empty interval within the axis exactly when the phase
      starts on or after week 1, ends by week 32 and does not end before it
      starts. */
  lemma BarWithinAxis(p: ProjectPhase)
    ensures (0.0 <= LeftPct(p) && LeftPct(p) + WidthPct(p) <= 100.0 && WidthPct(p) > 0.0)
      <==> 1 <= p.startWeek <= p.endWeek <= TotalWeeks
  {
    BarEnd(p);
  }

  /** Header `i` of the eight: its first and last week. */
  function Bucket(i: nat): (r: (int, int))
    requires i < 8
  {
    (i * 4 + 1, (i + 1) * 4)
  }

  /** Week `w` is under header `i`. */
  predicate InBucket(w: int, i: nat)
    requires i < 8
  {
    Bucket(i).0 <= w <= Bucket(i).1
  }

  /** The headers are four weeks each, follow one another without gap or
      overlap, and together span weeks 1 to 32: every week of the axis falls
      under exactly one of them. */
  lemma BucketsPartition()
    ensures forall i :: 0 <= i < 8 ==> Bucket(i).1 - Bucket(i).0 + 1 == 4
    ensures forall i :: 0 <= i < 7 ==> Bucket(i + 1).0 == Bucket(i).1 + 1
    ensures Bucket(0).0 == 1 && Bucket(7).1 == TotalWeeks
    ensures forall w, i :: 1 <= w <= TotalWeeks && 0 <= i < 8 ==> (InBucket(w, i) <==> i == (w - 1) / 4)
  {
    forall w, i | 1 <= w <= TotalWeeks && 0 <= i < 8
      ensures InBucket(w, i) <==> i == (w - 1) / 4
    {
      if InBucket(w, i) {
        assert i * 4 <= w - 1 < i * 4 + 4;
      }
    }
  }

  datatype BarColor = Blue | Emerald | Purple | Orange | Slate

  /** Phases 2 to 5 have their own colour, in that order emerald, purple,
      orange and slate; every other id is blue. */
  const PhaseColors: map<int, BarColor> := map[2 := Emerald, 3 := Purple, 4 := Orange, 5 := Slate]

  /** The colour as the row computes it: blue, overridden by each matching
      id test in turn. */
  function ColorOf(id: int): (c: BarColor)
    ensures c == if id in PhaseColors then PhaseColors[id] else Blue
  {
    var c := Blue;
    var c := if id == 2 then Emerald else c;
    var c := if id == 3 then Purple else c;
    var c := if id == 4 then Orange else c;
    if id == 5 then Slate else c
  }

  // ---------------------------------------------------------------------
  // A schedule of phases

  /** Week `w` falls within phase `p`, both ends included. */
  predicate Covers(p: ProjectPhase, w: int) {
    p.startWeek <= w <= p.endWeek
  }

  /** The phases follow one another over the whole axis: the first starts in
      week 1, each starts the week after the previous one ends, none ends
      before it starts, and the last ends in the final week. */
  predicate Tiles(ps: seq<ProjectPhase>) {
    && |ps| > 0 && ps[0].startWeek == 1 && ps[|ps| - 1].endWeek == TotalWeeks
    && (forall i :: 0 <= i < |ps| ==> ps[i].startWeek <= ps[i].endWeek)
    && (forall i :: 0 < i < |ps| ==> ps[i].startWeek == ps[i - 1].endWeek + 1)
  }

  /** In a tiling, a later phase starts after an earlier one ends. */
  lemma {:induction false} TilesOrdered(ps: seq<ProjectPhase>, i: nat, j: nat)
    requires Tiles(ps) && i < j < |ps|
    ensures ps[i].endWeek < ps[j].startWeek
    decreases j - i
  {
    if i + 1 < j {
      TilesOrdered(ps, i + 1, j);
    }
  }

  lemma {:induction false} TilesCoverFrom(ps: seq<ProjectPhase>, w: int, k: nat)
    requires Tiles(ps) && k < |ps| && ps[k].startWeek <= w <= TotalWeeks
    ensures exists i :: k <= i < |ps| && Covers(ps[i], w)
    decreases |ps| - k
  {
    if w > ps[k].endWeek {
      TilesCoverFrom(ps, w, k + 1);
    }
  }

  /** Every week of the axis falls within exactly one phase of a tiling. */
  lemma TilesPartition(ps: seq<ProjectPhase>, w: int)
    requires Tiles(ps) && 1 <= w <= TotalWeeks
    ensures exists i :: 0 <= i < |ps| && Covers(ps[i], w)
    ensures forall i, j :: 0 <= i < |ps| && 0 <= j < |ps| && Covers(ps[i], w) && Covers(ps[j], w) ==> i == j
  {
    TilesCoverFrom(ps, w, 0);
    forall i, j | 0 <= i < |ps| && 0 <= j < |ps| && Covers(ps[i], w) && Covers(ps[j], w)
      ensures i == j
    {
      if i < j {
        TilesOrdered(ps, i, j);
      } else if j < i {
        TilesOrdered(ps, j, i);
      }
    }
  }

  /** Each phase of a tiling draws a non-empty bar inside the axis. */
  lemma TilesWithinAxis(ps: seq<ProjectPhase>, i: nat)
    requires Tiles(ps) && i < |ps|
    ensures 0.0 <= LeftPct(ps[i]) && LeftPct(ps[i]) + WidthPct(ps[i]) <= 100.0 && WidthPct(ps[i]) > 0.0
  {
    if i + 1 < |ps| {
      TilesOrdered(ps, i, |ps| - 1);
    }
    if 0 < i {
      TilesOrdered(ps, 0, i);
    }
    BarWithinAxis(ps[i]);
  }

  /** The sum of the phases' budgets. */
  function TotalBudget(ps: seq<ProjectPhase>): int {
    if |ps| == 0 then 0 else ps[0].budget + TotalBudget(ps[1..])
  }
}
