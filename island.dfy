/**
 * The island of src/islands/island.ts: its landing line, read from the collision
 * shape and moved into world coordinates, and its spawn point.
 *
 * Phaser's Vector2.add and scale change the vector they are called on. The
 * constructor calls them on the first landing point, so the stored landing line
 * starts at the midpoint of the translated line, and the spawn point adds the
 * sprite offset to that midpoint, which already holds it. This module follows the
 * code as written.
 */
module Islands {
  import opened Wrappers
  import opened Geometry
  import opened PolygonBody

  /** The sprite's top-left corner: (x − width·originX, y − height·originY). */
  function SpriteOffset(x: real, y: real, width: real, height: real, originX: real, originY: real): Vec
  {
    Vec(x - width * originX, y - height * originY)
  }

  /** The landing line moved from shape to world coordinates. */
  function TranslatedLine(line: (Vec, Vec), offset: Vec): (Vec, Vec)
  {
    (Add(line.0, offset), Add(line.1, offset))
  }

  /** The landing line that the constructor leaves behind. */
  function StoredLandingLine(line: (Vec, Vec), offset: Vec): (Vec, Vec)
  {
    var t := TranslatedLine(line, offset);
    (Scale(Add(t.0, t.1), 0.5), t.1)
  }

  /** The spawn point the constructor stores. */
  function StoredSpawnPoint(line: (Vec, Vec), offset: Vec): Vec
  {
    Add(StoredLandingLine(line, offset).0, offset)
  }

  /**
   * The stored line is the second half of the translated line: it runs from the
   * translated midpoint to the translated second point, which is unchanged.
   */
  lemma StoredLineIsSecondHalf(line: (Vec, Vec), offset: Vec)
    ensures var t := TranslatedLine(line, offset);
      StoredLandingLine(line, offset) == (Midpoint(t.0, t.1), t.1)
  {
  }

  /** Each translated point is the shape point plus the sprite offset. */
  lemma TranslationIsOffset(line: (Vec, Vec), offset: Vec)
    ensures Sub(TranslatedLine(line, offset).0, line.0) == offset
    ensures Sub(TranslatedLine(line, offset).1, line.1) == offset
  {
  }

  /** The spawn point is the midpoint of the shape's line plus twice the sprite offset. */
  lemma SpawnPointHasOffsetTwice(line: (Vec, Vec), offset: Vec)
    ensures StoredSpawnPoint(line, offset) == Add(Midpoint(line.0, line.1), Scale(offset, 2.0))
  {
  }

  /**
   * The midpoint of the stored line, where rockets are snapped, is the point three
   * quarters of the way along the translated line.
   */
  lemma SnapPointIsThreeQuarters(line: (Vec, Vec), offset: Vec)
    ensures var s, t := StoredLandingLine(line, offset), TranslatedLine(line, offset);
      Midpoint(s.0, s.1) == PointAt(t.0, t.1, 0.75)
  {
  }

  class Island {
    const landingLine: (Vec, Vec)
    const spawnPoint: Vec

    /**
     * The constructor after getLandingLine succeeded on the island's shape: the
     * line is translated, then its first point is overwritten in place by the
     * sum of both points, halved.
     */
    constructor (line: (Vec, Vec), offset: Vec)
      ensures landingLine == StoredLandingLine(line, offset)
      ensures spawnPoint == StoredSpawnPoint(line, offset)
    {
      var translated := TranslatedLine(line, offset);
      var first := translated.0;
      first := Add(first, translated.1);
      first := Scale(first, 0.5);
      landingLine := (first, translated.1);
      spawnPoint := Add(first, offset);
    }
  }

  /**
   * Building an island from its collision shape and sprite geometry; the errors
   * of getLandingLine propagate as the source's exceptions do.
   */
  method NewIsland(json: Option<CollisionJson>, x: real, y: real, width: real, height: real,
                   originX: real, originY: real)
      returns (r: Result<Island, LandingLineError>)
    ensures r.Failure? <==> GetLandingLine(json).Failure?
    ensures r.Failure? ==> r.error == GetLandingLine(json).error
    ensures r.Success? ==> fresh(r.value)
    ensures r.Success? ==>
      var offset := SpriteOffset(x, y, width, height, originX, originY);
      && r.value.landingLine == StoredLandingLine(GetLandingLine(json).value, offset)
      && r.value.spawnPoint == StoredSpawnPoint(GetLandingLine(json).value, offset)
  {
    var line := GetLandingLine(json);
    if line.Failure? {
      return Failure(line.error);
    }
    var island := new Island(line.value, SpriteOffset(x, y, width, height, originX, originY));
    return Success(island);
  }
}
