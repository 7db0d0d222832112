/** The Comforter point system: nine levels from "Yeni Başlayan" to "Büyük Comforter". */
module ComforterSystem {
  import opened Wrappers
  import opened LevelTable

  /** `COMFORTER_LEVELS`: name, point range and icon of each level, lowest first. */
  const COMFORTER_LEVELS: seq<Level> := [
    Level("Yeni Başlayan", 0, AtMost(24), "🌱"),
    Level("Yol Arkadaşı", 25, AtMost(49), "🤝"),
    Level("Destekçi", 50, AtMost(99), "💚"),
    Level("Yıldız Yardımcı", 100, AtMost(199), "⭐"),
    Level("Kurtarıcı", 200, AtMost(399), "🦸"),
    Level("Bilge Rehber", 400, AtMost(799), "🧙‍♂️"),
    Level("Usta Comforter", 800, AtMost(1599), "🔥"),
    Level("Efsane Comforter", 1600, AtMost(3199), "💎"),
    Level("Büyük Comforter", 3200, Unbounded, "👑")
  ]

  /** The nine ranges start at 0, follow each other without gap or overlap, and the last is unbounded. */
  lemma ComforterLevelsTile()
    ensures Tiles(COMFORTER_LEVELS)
  {
  }

  /**
   * `getComforterLevel`: the one level whose range holds a non-negative score;
   * a negative score falls back to the first level.
   */
  function GetComforterLevel(points: int): (r: Level)
    ensures r in COMFORTER_LEVELS
    ensures points >= 0 ==> InLevel(r, points)
    ensures points >= 0 ==> forall j :: 0 <= j < |COMFORTER_LEVELS| && InLevel(COMFORTER_LEVELS[j], points) ==> COMFORTER_LEVELS[j] == r
    ensures points < 0 ==> r == COMFORTER_LEVELS[0] && r.name == "Yeni Başlayan"
  {
    ComforterLevelsTile();
    LevelOfSpec(COMFORTER_LEVELS, points);
    LevelOf(COMFORTER_LEVELS, points)
  }

  /**
   * `getNextLevel`: the level right after the current one, null exactly from
   * 3200 points on, and the first level for a negative score.
   */
  function GetNextLevel(points: int): (r: Option<Level>)
    ensures r.None? <==> points >= 3200
    ensures points >= 0 && r.Some? ==>
      GetComforterLevel(points).maxPoints.AtMost? && r.value.minPoints == GetComforterLevel(points).maxPoints.n + 1
    ensures points < 0 ==> r == Some(COMFORTER_LEVELS[0])
  {
    ComforterLevelsTile();
    NextLevelSpec(COMFORTER_LEVELS, points);
    NextLevel(COMFORTER_LEVELS, points)
  }

  /**
   * `getProgressToNextLevel`: 100 from 3200 points on; below that the share
   * of the current level already covered, 0 at its start and under 100 inside
   * it; never above 100; negative infinity for a negative score.
   */
  function GetProgressToNextLevel(points: int): (r: Percent)
    ensures points >= 3200 ==> r == Value(100.0)
    ensures r.Value? ==> r.v <= 100.0
    ensures points < 0 ==> r == NegativeInfinity
  {
    ComforterLevelsTile();
    ComforterTop();
    ProgressSpec(COMFORTER_LEVELS, points);
    Progress(COMFORTER_LEVELS, points)
  }

  /**
   * Inside a level the progress is the share of the level covered so far:
   * 0 at its start and strictly below 100.
   */
  lemma ProgressWithinLevel(points: int)
    requires 0 <= points < 3200
    ensures
      var cur := GetComforterLevel(points);
      var next := GetNextLevel(points).value;
      var r := GetProgressToNextLevel(points);
      && r == Value((points - cur.minPoints) as real * 100.0 / (next.minPoints - cur.minPoints) as real)
      && 0.0 <= r.v < 100.0
      && (points == cur.minPoints ==> r.v == 0.0)
  {
    ComforterLevelsTile();
    ComforterTop();
    assert GetComforterLevel(points) == LevelOf(COMFORTER_LEVELS, points);
    assert GetNextLevel(points) == NextLevel(COMFORTER_LEVELS, points);
    ProgressSpec(COMFORTER_LEVELS, points);
  }

  /** The last level starts at 3200 points. */
  lemma ComforterTop()
    ensures COMFORTER_LEVELS[|COMFORTER_LEVELS| - 1].minPoints == 3200
  {
  }
}
