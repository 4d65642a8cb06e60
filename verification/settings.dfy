/**
  The constants the game reads from its settings file: the grid size `FIELDS`,
  the start cell `START_POS`, the `DIRECTIONS` table and the four collision
  limits. Their values are not fixed here; the game is modelled for every
  choice that satisfies `Config.WellFormed`.
 */
module Settings {
  import opened Geometry

  /** The keys of the `DIRECTIONS` table. */
  datatype Heading = Left | Up | Right | Down

  /** The named opposite of each heading, as the input handler pairs them. */
  function Opposite(h: Heading): Heading {
    match h
    case Left => Right
    case Right => Left
    case Up => Down
    case Down => Up
  }

  datatype Config = Config(
    fields: Pos,      // FIELDS: (columns, rows) of the grid
    startPos: Pos,    // START_POS: the initial head cell
    left: Pos,        // DIRECTIONS["left"]
    right: Pos,       // DIRECTIONS["right"]
    up: Pos,          // DIRECTIONS["up"]
    down: Pos,        // DIRECTIONS["down"]
    leftLimit: int,   // LEFT_LIMIT
    rightLimit: int,  // RIGHT_LIMIT
    topLimit: int,    // TOP_LIMIT
    bottomLimit: int  // BOTTOM_LIMIT
  ) {

    /**
      What the game assumes of its settings: a non-empty grid, and a direction
      table holding the four unit vectors, `right` and `up` on different
      axes, with each entry's named opposite being its reverse.
     */
    predicate WellFormed() {
      && HasCells()
      && IsUnit(right) && IsUnit(up)
      && left == Neg(right) && down == Neg(up)
      && (right.x == 0) != (up.x == 0)
    }

    /** The grid has at least one column and one row, so a cell can be drawn at random. */
    predicate HasCells() {
      fields.x > 0 && fields.y > 0
    }

    /** `DIRECTIONS[h]`. */
    function Vector(h: Heading): Pos {
      match h
      case Left => left
      case Up => up
      case Right => right
      case Down => down
    }

    /** The values of the `DIRECTIONS` table. */
    function Directions(): set<Pos> {
      {left, up, right, down}
    }

    /** A cell of the grid: column in [0, FIELDS[0]), row in [0, FIELDS[1]). */
    predicate InField(p: Pos) {
      0 <= p.x < fields.x && 0 <= p.y < fields.y
    }

    /** A head cell that the game-over check lets through (the half-open limit box). */
    predicate WithinLimits(p: Pos) {
      leftLimit <= p.x < rightLimit && topLimit <= p.y < bottomLimit
    }

    /** The collision limits coincide with the grid: [0, columns) x [0, rows). */
    predicate LimitsMatchField() {
      leftLimit == 0 && rightLimit == fields.x && topLimit == 0 && bottomLimit == fields.y
    }
  }

  /** A unit vector differs from its reverse. */
  lemma UnitDiffersFromReverse(d: Pos)
    requires IsUnit(d)
    ensures d != Neg(d) && IsUnit(Neg(d))
  {
  }

  /** Unit vectors on different axes differ, and so do their reverses. */
  lemma UnitsOnDifferentAxesDiffer(r: Pos, u: Pos)
    requires IsUnit(r) && IsUnit(u) && (r.x == 0) != (u.x == 0)
    ensures r != u && r != Neg(u) && Neg(r) != u && Neg(r) != Neg(u)
  {
  }

  /** Two unit vectors on the same axis are equal or reverse to each other. */
  lemma UnitsOnSameAxis(d: Pos, r: Pos)
    requires IsUnit(d) && IsUnit(r) && (d.x == 0) == (r.x == 0)
    ensures d == r || d == Neg(r)
  {
    if d.x == 0 {
      if d.y == r.y { assert d == r; } else { assert d == Neg(r); }
    } else {
      if d.x == r.x { assert d == r; } else { assert d == Neg(r); }
    }
  }

  /**
    Under the assumptions the four entries of the direction table are
    pairwise distinct unit vectors.
   */
  lemma DirectionsDistinct(c: Config)
    requires c.WellFormed()
    ensures c.left != c.up && c.left != c.down && c.left != c.right
    ensures c.right != c.up && c.right != c.down && c.up != c.down
    ensures IsUnit(c.left) && IsUnit(c.down)
  {
    UnitDiffersFromReverse(c.right);
    UnitDiffersFromReverse(c.up);
    UnitsOnDifferentAxesDiffer(c.right, c.up);
  }

  /** Every heading names an entry of the table. */
  lemma VectorInTable(c: Config, h: Heading)
    ensures c.Vector(h) in c.Directions()
  {
  }

  /** Each entry's named opposite in the table is its reverse. */
  lemma OppositeIsReverse(c: Config, h: Heading)
    requires c.WellFormed()
    ensures c.Vector(Opposite(h)) == Neg(c.Vector(h))
  {
  }

  /** Under the assumptions the direction table holds exactly the four unit vectors. */
  lemma DirectionsAreTheUnitVectors(c: Config, d: Pos)
    requires c.WellFormed()
    ensures d in c.Directions() <==> IsUnit(d)
  {
    DirectionsDistinct(c);
    if IsUnit(d) {
      if (d.x == 0) == (c.right.x == 0) {
        UnitsOnSameAxis(d, c.right);
      } else {
        UnitsOnSameAxis(d, c.up);
      }
    }
  }
}
