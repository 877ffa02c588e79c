/**
 * Board geometry of the Go engine: stone colours, board points, the
 * neighbour rings a point offers and the row-major ordering on points.
 */
module Geometry {
  /** Side length of the (square) board. */
  const Size: int := 9

  datatype Color = Black | White

  /** `operator~` on colours: the other player. */
  function Opponent(c: Color): (r: Color)
    ensures r != c
  {
    if c == Black then White else Black
  }

  /** A board point (row, column); off-board points are representable too. */
  datatype Pos = Pos(row: int, col: int)

  function Abs(x: int): nat { if x < 0 then -x else x }

  /** `Pos + (dr, dc)`. */
  function Offset(p: Pos, d: (int, int)): Pos { Pos(p.row + d.0, p.col + d.1) }

  /** Orthogonally adjacent: one step along a row or a column. */
  predicate Adjacent(p: Pos, q: Pos) {
    Abs(p.row - q.row) + Abs(p.col - q.col) == 1
  }

  /** Diagonally adjacent. */
  predicate Diagonal(p: Pos, q: Pos) {
    Abs(p.row - q.row) == 1 && Abs(p.col - q.col) == 1
  }

  /** Within the square of the given radius around `p`, `p` itself excluded. */
  predicate InRing(p: Pos, q: Pos, radius: nat) {
    q != p && Abs(p.row - q.row) <= radius && Abs(p.col - q.col) <= radius
  }

  /** `Board::is_pos_valid`: the point lies on the 9x9 board. */
  predicate IsPosValid(p: Pos) {
    0 <= p.row < Size && 0 <= p.col < Size
  }

  /** The four orthogonal neighbours, in the order left, right, up, down. */
  function Neighbors(p: Pos): (r: seq<Pos>)
    ensures |r| == 4
    ensures forall q :: q in r <==> Adjacent(p, q)
  {
    [Pos(p.row, p.col - 1), Pos(p.row, p.col + 1), Pos(p.row - 1, p.col), Pos(p.row + 1, p.col)]
  }

  /** The four diagonal neighbours. */
  function Corners(p: Pos): (r: seq<Pos>)
    ensures |r| == 4
    ensures forall q :: q in r <==> Diagonal(p, q)
  {
    [Pos(p.row - 1, p.col - 1), Pos(p.row - 1, p.col + 1), Pos(p.row + 1, p.col - 1), Pos(p.row + 1, p.col + 1)]
  }

  /** The offset table `l1`: the ring of radius 1, row-major. */
  const L1: seq<(int, int)> :=
    [(-1, -1), (-1, 0), (-1, 1), (0, -1), (0, 1), (1, -1), (1, 0), (1, 1)]

  /** The offset table `l2`: the square of radius 2 without its centre, row-major. */
  const L2: seq<(int, int)> :=
    [(-2, -2), (-2, -1), (-2, 0), (-2, 1), (-2, 2),
     (-1, -2), (-1, -1), (-1, 0), (-1, 1), (-1, 2),
     (0, -2), (0, -1), (0, 1), (0, 2),
     (1, -2), (1, -1), (1, 0), (1, 1), (1, 2),
     (2, -2), (2, -1), (2, 0), (2, 1), (2, 2)]

  /** The offsets of `L1` are exactly the non-zero steps of at most one in each direction. */
  lemma L1IsRing(d: (int, int))
    ensures d in L1 <==> d != (0, 0) && Abs(d.0) <= 1 && Abs(d.1) <= 1
  {
  }

  /** The offsets of `L2` are exactly the non-zero steps of at most two in each direction. */
  lemma L2IsRing(d: (int, int))
    ensures d in L2 <==> d != (0, 0) && Abs(d.0) <= 2 && Abs(d.1) <= 2
  {
    if d != (0, 0) && Abs(d.0) <= 2 && Abs(d.1) <= 2 {
      var k := (d.0 + 2) * 5 + (d.1 + 2);
      var i := if k > 12 then k - 1 else k;
      if d.0 == -2 { assert L2[i] == d; }
      else if d.0 == -1 { assert L2[i] == d; }
      else if d.0 == 0 { assert L2[i] == d; }
      else if d.0 == 1 { assert L2[i] == d; }
      else { assert L2[i] == d; }
    }
  }

  /** `locality()`: the eight points around `p`. */
  function Locality(p: Pos): (r: seq<Pos>)
    ensures |r| == 8
    ensures forall q :: q in r <==> InRing(p, q, 1)
  {
    var r := seq(8, i requires 0 <= i < 8 => Offset(p, L1[i]));
    forall q ensures q in r <==> InRing(p, q, 1) {
      L1IsRing((q.row - p.row, q.col - p.col));
      if InRing(p, q, 1) {
        var i :| 0 <= i < 8 && L1[i] == (q.row - p.row, q.col - p.col);
        assert r[i] == q;
      }
    }
    r
  }

  /** `locality2()`: the 24 points of the 5x5 square around `p`, `p` excluded. */
  function Locality2(p: Pos): (r: seq<Pos>)
    ensures |r| == 24
    ensures forall q :: q in r <==> InRing(p, q, 2)
  {
    var r := seq(24, i requires 0 <= i < 24 => Offset(p, L2[i]));
    forall q ensures q in r <==> InRing(p, q, 2) {
      L2IsRing((q.row - p.row, q.col - p.col));
      if InRing(p, q, 2) {
        var i :| 0 <= i < 24 && L2[i] == (q.row - p.row, q.col - p.col);
        assert r[i] == q;
      }
    }
    r
  }

  /** The ring of radius 1 is made of the orthogonal and the diagonal neighbours. */
  lemma LocalityIsNeighborsAndCorners(p: Pos)
    ensures forall q :: q in Locality(p) <==> q in Neighbors(p) || q in Corners(p)
  {
  }

  /** Adjacency is symmetric: `q` neighbours `p` exactly when `p` neighbours `q`. */
  lemma NeighborsSymmetric(p: Pos, q: Pos)
    ensures q in Neighbors(p) <==> p in Neighbors(q)
  {
  }

  /** `operator<=>`: lexicographic on (row, column). */
  predicate Less(a: Pos, b: Pos) {
    a.row < b.row || (a.row == b.row && a.col < b.col)
  }

  /** The ordering used as the set key is a strict total order. */
  lemma LessIsStrictTotalOrder(a: Pos, b: Pos, c: Pos)
    ensures !Less(a, a)
    ensures Less(a, b) && Less(b, c) ==> Less(a, c)
    ensures a == b || Less(a, b) || Less(b, a)
  {
  }
}
