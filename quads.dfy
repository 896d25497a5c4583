/** The quad-tree types the field type consumes. The grid matcher, the shape
    parser and the mostly-within transform are not part of this model: they
    are inputs, gathered in `Env`. */
module Quads {
  import opened Wrappers

  /** A parsed shape; its geometry belongs to the shape parser. */
  type Shape

  /** The grid's world rectangle, its maximum depth and how many levels past
      the best fit the matcher descends. */
  datatype SpatialGrid = SpatialGrid(minX: int, maxX: int, minY: int, maxY: int, maxLevels: nat, resolution: nat)

  /** The grid every field type is given: note that the minimum y is written
      `-90-180`, that is -270. */
  const DefaultGrid: SpatialGrid := SpatialGrid(-180, 180, -90 - 180, 90, 16, 5)

  /** The default world rectangle is 360 by 360; the matcher is set to
      descend at most 5 levels past the best fit, within the 16 levels. */
  lemma DefaultGridIsSquare()
    ensures DefaultGrid.maxX - DefaultGrid.minX == DefaultGrid.maxY - DefaultGrid.minY == 360
    ensures DefaultGrid.minY == -270
    ensures DefaultGrid.resolution <= DefaultGrid.maxLevels
  {
  }

  /** The cells matched at one level, split into partially overlapping and
      fully covered ones. */
  datatype LevelMatchInfo = LevelMatchInfo(level: int, intersects: seq<string>, covers: seq<string>)

  /** A grid match: its token list, its levels and its best-fit level. */
  datatype MatchInfo = MatchInfo(tokens: seq<string>, levels: seq<LevelMatchInfo>, bboxLevel: int)

  /** The collaborators the field type calls:
      - `parseShape`: `Shape.parse`, failing with the parser's message;
      - `read`: `SpatialGrid.read`, the grid match of a shape;
      - `mostlyWithin`: `MatchInfo.getMostlyWithinQueryTokens`;
      - `quadCells`: the tokens a `QuadCellsTokenizer` reads from a raw literal;
      - `maxClauseCount`: Lucene's global limit on clauses per boolean query. */
  datatype Env = Env(
    parseShape: string -> Result<Shape, string>,
    read: (SpatialGrid, Shape) -> MatchInfo,
    mostlyWithin: seq<string> -> MatchInfo,
    quadCells: string -> seq<string>,
    maxClauseCount: nat)
}
