/** Integer grid cells and displacements, the (column, row) tuples the game works on. */
module Geometry {

  /** A grid cell, or a displacement between two cells; `x` is the column and `y` the row. */
  datatype Pos = Pos(x: int, y: int)

  /** Componentwise sum: the cell reached from `p` by moving `d`. */
  function Add(p: Pos, d: Pos): Pos {
    Pos(p.x + d.x, p.y + d.y)
  }

  /** Componentwise difference: the displacement that leads from `q` to `p`. */
  function Sub(p: Pos, q: Pos): Pos {
    Pos(p.x - q.x, p.y - q.y)
  }

  /** The reverse of a displacement. */
  function Neg(d: Pos): Pos {
    Pos(-d.x, -d.y)
  }

  function Abs(n: int): nat {
    if n < 0 then -n else n
  }

  /** One of the four axis-aligned unit vectors: a step to an edge-adjacent cell. */
  predicate IsUnit(d: Pos) {
    Abs(d.x) + Abs(d.y) == 1
  }

  /** Moving by `d` and measuring the displacement back gives `d`. */
  lemma SubAdd(p: Pos, d: Pos)
    ensures Sub(Add(p, d), p) == d
  {
  }

  /** Being the reverse of each other is symmetric. */
  lemma NegSymmetric(a: Pos, b: Pos)
    ensures a == Neg(b) <==> b == Neg(a)
  {
    if a == Neg(b) {
      assert b == Pos(-a.x, -a.y);
    }
    if b == Neg(a) {
      assert a == Pos(-b.x, -b.y);
    }
  }
}
