/**
 * The shape shared by the two point systems (Comforter and Heroica): a
 * constant table of levels, each a closed range of points, searched from the
 * front with `find` / `findIndex`, and a percentage of the way to the next
 * level.  Points are integers; the last level has no upper end
 * (`Number.POSITIVE_INFINITY` in the source).
 */
module LevelTable {
  import opened Wrappers

  /** The upper end of a level: a number, or positive infinity. */
  datatype Bound = AtMost(n: int) | Unbounded

  /** A level; the styling strings of the source are not part of the model. */
  datatype Level = Level(name: string, minPoints: int, maxPoints: Bound, icon: string)

  /** `points >= level.minPoints && points <= level.maxPoints`. */
  predicate InLevel(l: Level, points: int) {
    l.minPoints <= points && (l.maxPoints.Unbounded? || points <= l.maxPoints.n)
  }

  /**
   * The table covers the non-negative integers without gaps or overlaps:
   * it starts at 0, each level ends one below where the next starts, every
   * level is non-empty, and only the last one is unbounded.
   */
  predicate Tiles(table: seq<Level>) {
    && |table| > 0
    && table[0].minPoints == 0
    && table[|table| - 1].maxPoints.Unbounded?
    && (forall i :: 0 <= i < |table| - 1 ==>
          table[i].maxPoints == AtMost(table[i + 1].minPoints - 1)
          && table[i].minPoints <= table[i].maxPoints.n)
  }

  /** `table.findIndex(level => InLevel(level, points))`: the first match, or -1. */
  function FindIndex(table: seq<Level>, points: int): (r: int)
    ensures -1 <= r < |table|
    ensures r >= 0 ==> InLevel(table[r], points)
    ensures r >= 0 ==> forall j :: 0 <= j < r ==> !InLevel(table[j], points)
    ensures r == -1 <==> forall j :: 0 <= j < |table| ==> !InLevel(table[j], points)
  {
    if table == [] then -1
    else if InLevel(table[0], points) then 0
    else
      var k := FindIndex(table[1..], points);
      if k == -1 then -1 else k + 1
  }

  /** In a tiling table the starting points strictly increase. */
  lemma {:induction false} MinPointsIncrease(table: seq<Level>, i: int, j: int)
    requires Tiles(table) && 0 <= i < j < |table|
    ensures table[i].minPoints < table[j].minPoints
    ensures table[i].maxPoints.AtMost? && table[i].maxPoints.n < table[j].minPoints
    decreases j - i
  {
    if j > i + 1 {
      MinPointsIncrease(table, i + 1, j);
    }
  }

  /** In a tiling table every non-negative score lies in exactly one level. */
  lemma {:induction false} TilesCover(table: seq<Level>, points: int)
    requires Tiles(table) && points >= 0
    ensures FindIndex(table, points) >= 0
    ensures forall j :: 0 <= j < |table| && InLevel(table[j], points) ==> j == FindIndex(table, points)
  {
    // the last level that starts at or below the score contains it
    var k := 0;
    while k + 1 < |table| && table[k + 1].minPoints <= points
      invariant 0 <= k < |table| && table[k].minPoints <= points
    {
      k := k + 1;
    }
    assert InLevel(table[k], points);
    var r := FindIndex(table, points);
    forall j | 0 <= j < |table| && InLevel(table[j], points) ensures j == r {
      if j < r {
        MinPointsIncrease(table, j, r);
      } else if r < j {
        MinPointsIncrease(table, r, j);
      }
    }
  }

  /** A score below zero lies in no level of a tiling table. */
  lemma BelowZeroInNoLevel(table: seq<Level>, points: int)
    requires Tiles(table) && points < 0
    ensures FindIndex(table, points) == -1
  {
    forall j | 0 <= j < |table| ensures !InLevel(table[j], points) {
      if j > 0 { MinPointsIncrease(table, 0, j); }
    }
  }

  /** `find(...) || table[0]`: the containing level, or the first level when none contains the score. */
  function LevelOf(table: seq<Level>, points: int): Level
    requires |table| > 0
  {
    var k := FindIndex(table, points);
    if k >= 0 then table[k] else table[0]
  }

  /**
   * `getNextLevel`: the entry after the `findIndex` result, or null when that
   * result is the last index.  A result of -1 yields the first level.
   */
  function NextLevel(table: seq<Level>, points: int): Option<Level>
    requires |table| > 0
  {
    var k := FindIndex(table, points);
    if k < |table| - 1 then Some(table[k + 1]) else None
  }

  /** A percentage: a real number, or the negative infinity JavaScript produces when dividing a negative number by zero. */
  datatype Percent = Value(v: real) | NegativeInfinity

  /**
   * `getProgressToNextLevel` for a tiling table: 100 at the top level,
   * otherwise `min((points - cur.min) / (next.min - cur.min) * 100, 100)`.
   * The divisor is zero only for negative scores, where current and next
   * are both the first level and the numerator is negative.
   */
  function Progress(table: seq<Level>, points: int): Percent
    requires Tiles(table)
  {
    match NextLevel(table, points)
    case None => Value(100.0)
    case Some(next) =>
      var cur := LevelOf(table, points);
      var divisor := next.minPoints - cur.minPoints;
      if divisor == 0 then NegativeInfinity
      else
        var progress := ((points - cur.minPoints) as real / divisor as real) * 100.0;
        Value(if progress < 100.0 then progress else 100.0)
  }

  /** The containing level of a non-negative score, and the fallback for negative ones. */
  lemma LevelOfSpec(table: seq<Level>, points: int)
    requires Tiles(table)
    ensures points >= 0 ==> InLevel(LevelOf(table, points), points)
    ensures points >= 0 ==> forall j :: 0 <= j < |table| && InLevel(table[j], points) ==> LevelOf(table, points) == table[j]
    ensures points < 0 ==> LevelOf(table, points) == table[0]
  {
    if points >= 0 { TilesCover(table, points); } else { BelowZeroInNoLevel(table, points); }
  }

  /**
   * The next level follows the current one directly: it starts one above
   * where the current level ends; there is none exactly from the start of
   * the last level on; a negative score gets the first level.
   */
  lemma NextLevelSpec(table: seq<Level>, points: int)
    requires Tiles(table)
    ensures NextLevel(table, points).None? <==> points >= table[|table| - 1].minPoints
    ensures points >= 0 && NextLevel(table, points).Some? ==>
      var cur := LevelOf(table, points);
      cur.maxPoints.AtMost? && NextLevel(table, points).value.minPoints == cur.maxPoints.n + 1
      && points < NextLevel(table, points).value.minPoints
    ensures points < 0 ==> NextLevel(table, points) == Some(table[0])
  {
    var last := |table| - 1;
    if points >= 0 {
      TilesCover(table, points);
      var k := FindIndex(table, points);
      if points >= table[last].minPoints {
        assert InLevel(table[last], points);
      } else if k == last {
        assert false;
      }
    } else {
      BelowZeroInNoLevel(table, points);
      if last > 0 { MinPointsIncrease(table, 0, last); }
    }
  }

  /**
   * The percentage is 100 at the top level; below it, it is the share of the
   * current level's span already covered, times 100: 0 at the level's start
   * and strictly below 100 inside it.  Negative scores give negative infinity.
   */
  lemma ProgressSpec(table: seq<Level>, points: int)
    requires Tiles(table)
    ensures points >= table[|table| - 1].minPoints ==> Progress(table, points) == Value(100.0)
    ensures 0 <= points < table[|table| - 1].minPoints ==>
      var cur := LevelOf(table, points);
      var next := NextLevel(table, points).value;
      && next.minPoints > cur.minPoints
      && Progress(table, points) == Value((points - cur.minPoints) as real * 100.0 / (next.minPoints - cur.minPoints) as real)
      && 0.0 <= Progress(table, points).v < 100.0
      && (points == cur.minPoints ==> Progress(table, points).v == 0.0)
    ensures points < 0 ==> Progress(table, points) == NegativeInfinity
    ensures Progress(table, points).Value? ==> Progress(table, points).v <= 100.0
  {
    NextLevelSpec(table, points);
    LevelOfSpec(table, points);
    if 0 <= points < table[|table| - 1].minPoints {
      var cur := LevelOf(table, points);
      var next := NextLevel(table, points).value;
      var num := (points - cur.minPoints) as real;
      var den := (next.minPoints - cur.minPoints) as real;
      assert 0.0 <= num < den;
      DivBelowOne(num, den);
    }
  }

  lemma DivBelowOne(a: real, b: real)
    requires 0.0 <= a < b
    ensures 0.0 <= a / b < 1.0
    ensures (a / b) * 100.0 == a * 100.0 / b
  {
    var q := a / b;
    assert q * b == a;
    assert (1.0 - q) * b == b - a;
    var r := a * 100.0 / b;
    assert r * b == a * 100.0;
    assert (r - q * 100.0) * b == 0.0;
  }
}
