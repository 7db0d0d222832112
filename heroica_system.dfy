/** The Heroica point system: eight levels from "Yeni Başlayan" to "Heroica". */
module HeroicaSystem {
  import opened Wrappers
  import opened LevelTable

  /** `HEROICA_LEVELS`: name, point range and icon of each level, lowest first. */
  const HEROICA_LEVELS: seq<Level> := [
    Level("Yeni Başlayan", 0, AtMost(24), "🌱"),
    Level("Destekçi", 25, AtMost(49), "💙"),
    Level("Yardımcı", 50, AtMost(99), "🤝"),
    Level("Rehber", 100, AtMost(199), "🌟"),
    Level("Uzman", 200, AtMost(399), "⭐"),
    Level("Usta", 400, AtMost(799), "🔥"),
    Level("Efsane", 800, AtMost(1599), "💎"),
    Level("Heroica", 1600, Unbounded, "👑")
  ]

  /** The eight ranges start at 0, follow each other without gap or overlap, and the last is unbounded. */
  lemma HeroicaLevelsTile()
    ensures Tiles(HEROICA_LEVELS)
  {
  }

  /**
   * `getHeroicaLevel`: the one level whose range holds a non-negative score;
   * a negative score falls back to the first level.
   */
  function GetHeroicaLevel(points: int): (r: Level)
    ensures r in HEROICA_LEVELS
    ensures points >= 0 ==> InLevel(r, points)
    ensures points >= 0 ==> forall j :: 0 <= j < |HEROICA_LEVELS| && InLevel(HEROICA_LEVELS[j], points) ==> HEROICA_LEVELS[j] == r
    ensures points < 0 ==> r == HEROICA_LEVELS[0] && r.name == "Yeni Başlayan"
  {
    HeroicaLevelsTile();
    LevelOfSpec(HEROICA_LEVELS, points);
    LevelOf(HEROICA_LEVELS, points)
  }

  /**
   * `getNextLevel`: the level right after the current one, null exactly from
   * 1600 points on, and the first level for a negative score.
   */
  function GetNextLevel(points: int): (r: Option<Level>)
    ensures r.None? <==> points >= 1600
    ensures points >= 0 && r.Some? ==>
      GetHeroicaLevel(points).maxPoints.AtMost? && r.value.minPoints == GetHeroicaLevel(points).maxPoints.n + 1
    ensures points < 0 ==> r == Some(HEROICA_LEVELS[0])
  {
    HeroicaLevelsTile();
    NextLevelSpec(HEROICA_LEVELS, points);
    NextLevel(HEROICA_LEVELS, points)
  }

  /**
   * `getProgressToNextLevel`: 100 from 1600 points on; below that the share
   * of the current level already covered, 0 at its start and under 100 inside
   * it; never above 100; negative infinity for a negative score.
   */
  function GetProgressToNextLevel(points: int): (r: Percent)
    ensures points >= 1600 ==> r == Value(100.0)
    ensures r.Value? ==> r.v <= 100.0
    ensures points < 0 ==> r == NegativeInfinity
  {
    HeroicaLevelsTile();
    HeroicaTop();
    ProgressSpec(HEROICA_LEVELS, points);
    Progress(HEROICA_LEVELS, points)
  }

  /**
   * Inside a level the progress is the share of the level covered so far:
   * 0 at its start and strictly below 100.
   */
  lemma ProgressWithinLevel(points: int)
    requires 0 <= points < 1600
    ensures
      var cur := GetHeroicaLevel(points);
      var next := GetNextLevel(points).value;
      var r := GetProgressToNextLevel(points);
      && r == Value((points - cur.minPoints) as real * 100.0 / (next.minPoints - cur.minPoints) as real)
      && 0.0 <= r.v < 100.0
      && (points == cur.minPoints ==> r.v == 0.0)
  {
    HeroicaLevelsTile();
    HeroicaTop();
    assert GetHeroicaLevel(points) == LevelOf(HEROICA_LEVELS, points);
    assert GetNextLevel(points) == NextLevel(HEROICA_LEVELS, points);
    ProgressSpec(HEROICA_LEVELS, points);
  }

  /** The last level starts at 1600 points. */
  lemma HeroicaTop()
    ensures HEROICA_LEVELS[|HEROICA_LEVELS| - 1].minPoints == 1600
  {
  }
}
