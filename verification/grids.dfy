/**
 The grid of the lake-counting program: cells, the bounds check, the eight
 neighbour directions, and 8-connectivity of water cells.
 */
module Grids {

  /** A cell is a (row, column) pair; row `x` ranges over `n`, column `y` over `m`. */
  type Cell = (int, int)

  /** The input as `main` prepares it: `n` rows, each holding at least `m` characters. */
  datatype Grid = Grid(rows: seq<string>, m: nat, n: nat)

  predicate WellFormed(g: Grid) {
    |g.rows| == g.n && forall i :: 0 <= i < |g.rows| ==> |g.rows[i]| >= g.m
  }

  /** Every cell of an `n` by `m` grid. */
  function AllCells(m: nat, n: nat): set<Cell> {
    set x, y | 0 <= x < n && 0 <= y < m :: (x, y)
  }

  /** The bounds check of the flood fill. */
  function IsValid(x: int, y: int, m: int, n: int): (r: bool)
    ensures m >= 0 && n >= 0 ==> (r <==> (x, y) in AllCells(m, n))
  {
    x >= 0 && x < n && y >= 0 && y < m
  }

  /** A cell inside the grid that holds water ('.'). */
  predicate IsWater(g: Grid, c: Cell)
    requires WellFormed(g)
  {
    IsValid(c.0, c.1, g.m, g.n) && g.rows[c.0][c.1] == '.'
  }

  /** All water cells of the grid: the '.' characters among the first `m` of each row. */
  function WaterCells(g: Grid): (w: set<Cell>)
    requires WellFormed(g)
    ensures w <= AllCells(g.m, g.n)
    ensures forall c :: c in w <==> IsWater(g, c)
  {
    set c | c in AllCells(g.m, g.n) && IsWater(g, c)
  }

  /** The eight directions in the order the flood fill explores them. */
  const Directions: seq<(int, int)> :=
    [(-1, -1), (-1, 0), (-1, 1),
     (0, -1),           (0, 1),
     (1, -1),  (1, 0),  (1, 1)]

  function Neighbour(c: Cell, k: int): Cell
    requires 0 <= k < |Directions|
  {
    (c.0 + Directions[k].0, c.1 + Directions[k].1)
  }

  /** `b` is one step from `a` in one of the eight directions. */
  ghost predicate Adjacent(a: Cell, b: Cell) {
    exists k :: 0 <= k < |Directions| && Neighbour(a, k) == b
  }

  /** A non-empty walk through water cells, each step to one of the eight neighbours. */
  ghost predicate IsPath(g: Grid, p: seq<Cell>)
    requires WellFormed(g)
  {
    && |p| > 0
    && (forall i :: 0 <= i < |p| ==> IsWater(g, p[i]))
    && (forall i :: 0 <= i < |p| - 1 ==> Adjacent(p[i], p[i + 1]))
  }

  /** `b` can be reached from `a` through 8-connected water cells. */
  ghost predicate Connected(g: Grid, a: Cell, b: Cell)
    requires WellFormed(g)
  {
    exists p :: IsPath(g, p) && p[0] == a && p[|p| - 1] == b
  }

  /** Every water neighbour of `c` is in `v`. */
  ghost predicate NeighboursIn(g: Grid, c: Cell, v: set<Cell>)
    requires WellFormed(g)
  {
    forall k :: 0 <= k < |Directions| && IsWater(g, Neighbour(c, k)) ==> Neighbour(c, k) in v
  }

  /** No water cell lies next to `v` without being in `v`. */
  ghost predicate Closed(g: Grid, v: set<Cell>)
    requires WellFormed(g)
  {
    forall c :: c in v ==> NeighboursIn(g, c, v)
  }

  /** The lake of a water cell: every water cell 8-connected to it. */
  ghost function Lake(g: Grid, c: Cell): set<Cell>
    requires WellFormed(g)
  {
    set d | d in WaterCells(g) && Connected(g, c, d)
  }

  /** The distinct lakes that meet `v`. */
  ghost function LakesMeeting(g: Grid, v: set<Cell>): set<set<Cell>>
    requires WellFormed(g)
  {
    set c | c in v :: Lake(g, c)
  }

  /** The number of 8-connected components of water cells. */
  ghost function LakeCount(g: Grid): nat
    requires WellFormed(g)
  {
    |LakesMeeting(g, WaterCells(g))|
  }

  // ---------------------------------------------------------------------
  // Directions

  /** Each direction is a non-zero unit move, no two are equal, and direction `7 - k` undoes direction `k`. */
  lemma DirectionsAreKingMoves(k: int)
    requires 0 <= k < |Directions|
    ensures Directions[k] != (0, 0)
    ensures -1 <= Directions[k].0 <= 1 && -1 <= Directions[k].1 <= 1
    ensures forall j :: 0 <= j < |Directions| && j != k ==> Directions[j] != Directions[k]
    ensures Directions[7 - k] == (-Directions[k].0, -Directions[k].1)
  {

  }

  /** Adjacency is exactly the king's move: a different cell at most one row and one column away. */
  lemma AdjacentIsKingMove(a: Cell, b: Cell)
    ensures Adjacent(a, b) <==> a != b && -1 <= b.0 - a.0 <= 1 && -1 <= b.1 - a.1 <= 1
  {
    if Adjacent(a, b) {
      var k :| 0 <= k < |Directions| && Neighbour(a, k) == b;
      DirectionsAreKingMoves(k);
    }
    if a != b && -1 <= b.0 - a.0 <= 1 && -1 <= b.1 - a.1 <= 1 {
      var dx, dy := b.0 - a.0, b.1 - a.1;
      var k :=
        if dx == -1 then (if dy == -1 then 0 else if dy == 0 then 1 else 2)
        else if dx == 0 then (if dy == -1 then 3 else 4)
        else (if dy == -1 then 5 else if dy == 0 then 6 else 7);
      assert Neighbour(a, k) == b;
    }
  }

  lemma AdjacentSymmetric(a: Cell, b: Cell)
    requires Adjacent(a, b)
    ensures Adjacent(b, a)
  {
    var k :| 0 <= k < |Directions| && Neighbour(a, k) == b;
    DirectionsAreKingMoves(k);
    assert Neighbour(b, 7 - k) == a;
  }

  // ---------------------------------------------------------------------
  // Connectivity is an equivalence on water cells

  lemma ConnectedRefl(g: Grid, a: Cell)
    requires WellFormed(g) && IsWater(g, a)
    ensures Connected(g, a, a)
  {
    assert IsPath(g, [a]);
  }

  lemma ConnectedStep(g: Grid, a: Cell, b: Cell, c: Cell)
    requires WellFormed(g)
    requires Connected(g, a, b) && IsWater(g, c) && Adjacent(b, c)
    ensures Connected(g, a, c)
  {
    var p :| IsPath(g, p) && p[0] == a && p[|p| - 1] == b;
    var q := p + [c];
    assert forall i :: 0 <= i < |q| - 1 ==> q[i] == p[i];
    assert IsPath(g, q);
  }

  lemma ConnectedPrepend(g: Grid, a: Cell, b: Cell, c: Cell)
    requires WellFormed(g)
    requires IsWater(g, a) && Adjacent(a, b) && Connected(g, b, c)
    ensures Connected(g, a, c)
  {
    var p :| IsPath(g, p) && p[0] == b && p[|p| - 1] == c;
    var q := [a] + p;
    assert forall i :: 1 <= i < |q| ==> q[i] == p[i - 1];
    assert IsPath(g, q);
  }

  lemma {:induction false} PathReversed(g: Grid, p: seq<Cell>)
    requires WellFormed(g) && IsPath(g, p)
    ensures Connected(g, p[|p| - 1], p[0])
    decreases |p|
  {
    if |p| == 1 {
      ConnectedRefl(g, p[0]);
    } else {
      var p' := p[..|p| - 1];
      assert IsPath(g, p') by {
        assert forall i :: 0 <= i < |p'| ==> p'[i] == p[i];
      }
      PathReversed(g, p');
      AdjacentSymmetric(p[|p| - 2], p[|p| - 1]);
      ConnectedPrepend(g, p[|p| - 1], p'[|p'| - 1], p[0]);
    }
  }

  lemma ConnectedSymmetric(g: Grid, a: Cell, b: Cell)
    requires WellFormed(g) && Connected(g, a, b)
    ensures Connected(g, b, a)
  {
    var p :| IsPath(g, p) && p[0] == a && p[|p| - 1] == b;
    PathReversed(g, p);
  }

  lemma ConnectedTransitive(g: Grid, a: Cell, b: Cell, c: Cell)
    requires WellFormed(g) && Connected(g, a, b) && Connected(g, b, c)
    ensures Connected(g, a, c)
  {
    var p :| IsPath(g, p) && p[0] == a && p[|p| - 1] == b;
    var q :| IsPath(g, q) && q[0] == b && q[|q| - 1] == c;
    PathJoin(g, p, q);
  }

  /** Two walks where the second starts at the end of the first join into one walk. */
  lemma PathJoin(g: Grid, p: seq<Cell>, q: seq<Cell>)
    requires WellFormed(g) && IsPath(g, p) && IsPath(g, q) && p[|p| - 1] == q[0]
    ensures IsPath(g, p + q[1..])
    ensures (p + q[1..])[0] == p[0] && (p + q[1..])[|p + q[1..]| - 1] == q[|q| - 1]
  {
    var r := p + q[1..];
    assert forall i :: 0 <= i < |p| ==> r[i] == p[i];
    assert forall i :: |p| <= i < |r| ==> r[i] == q[i - |p| + 1];
    forall i | 0 <= i < |r| - 1
      ensures Adjacent(r[i], r[i + 1])
    {
      if i < |p| - 1 {
        assert r[i] == p[i] && r[i + 1] == p[i + 1];
      } else {
        assert r[i] == q[i - |p| + 1] && r[i + 1] == q[i - |p| + 2];
      }
    }
  }

  // ---------------------------------------------------------------------
  // Closed sets and lakes

  /** A walk that starts in a closed set never leaves it. */
  lemma {:induction false} PathStaysInClosed(g: Grid, v: set<Cell>, p: seq<Cell>)
    requires WellFormed(g) && Closed(g, v)
    requires IsPath(g, p) && p[0] in v
    ensures forall i :: 0 <= i < |p| ==> p[i] in v
    decreases |p|
  {
    if |p| > 1 {
      var p' := p[..|p| - 1];
      assert IsPath(g, p') by {
        assert forall i :: 0 <= i < |p'| ==> p'[i] == p[i];
      }
      PathStaysInClosed(g, v, p');
      assert p[|p| - 2] == p'[|p'| - 1];
      assert Adjacent(p[|p| - 2], p[|p| - 1]);
      var k :| 0 <= k < |Directions| && Neighbour(p[|p| - 2], k) == p[|p| - 1];
      assert NeighboursIn(g, p[|p| - 2], v);
    }
  }

  /** A closed set holding a cell holds everything connected to it. */
  lemma ClosedHoldsConnected(g: Grid, v: set<Cell>, a: Cell, b: Cell)
    requires WellFormed(g) && Closed(g, v)
    requires a in v && Connected(g, a, b)
    ensures b in v
  {
    var p :| IsPath(g, p) && p[0] == a && p[|p| - 1] == b;
    PathStaysInClosed(g, v, p);
  }

  /** Two connected water cells lie in the same lake. */
  lemma SameLake(g: Grid, a: Cell, b: Cell)
    requires WellFormed(g) && Connected(g, a, b)
    ensures Lake(g, a) == Lake(g, b)
  {
    ConnectedSymmetric(g, a, b);
    forall d | d in Lake(g, a)
      ensures d in Lake(g, b)
    {
      ConnectedTransitive(g, b, a, d);
    }
    forall d | d in Lake(g, b)
      ensures d in Lake(g, a)
    {
      ConnectedTransitive(g, a, b, d);
    }
  }

  /**
   Adding the whole lake of an unvisited water cell to a closed set of water
   cells adds exactly one new lake to the lakes that the set meets.
   */
  lemma AddLake(g: Grid, v: set<Cell>, s: Cell)
    requires WellFormed(g) && Closed(g, v) && v <= WaterCells(g)
    requires IsWater(g, s) && s !in v
    ensures s in Lake(g, s)
    ensures Lake(g, s) !in LakesMeeting(g, v)
    ensures LakesMeeting(g, v + Lake(g, s)) == LakesMeeting(g, v) + {Lake(g, s)}
    ensures |LakesMeeting(g, v + Lake(g, s))| == |LakesMeeting(g, v)| + 1
  {
    ConnectedRefl(g, s);
    var lake := Lake(g, s);
    if lake in LakesMeeting(g, v) {
      var c :| c in v && Lake(g, c) == lake;
      assert s in Lake(g, c);
      ClosedHoldsConnected(g, v, c, s);
      assert false;
    }
    forall c | c in lake
      ensures Lake(g, c) == lake
    {
      SameLake(g, s, c);
    }
    assert s in lake;
  }

  // ---------------------------------------------------------------------
  // Cardinalities

  lemma SubsetCard<T>(a: set<T>, b: set<T>)
    requires a <= b
    ensures |a| <= |b|
  {
    assert b == a + (b - a);
  }

  function RowCells(m: nat, x: int): set<Cell> {
    set y | 0 <= y < m :: (x, y)
  }

  lemma {:induction false} RowCellsCard(m: nat, x: int)
    ensures |RowCells(m, x)| == m
  {
    if m > 0 {
      RowCellsCard(m - 1, x);
      assert RowCells(m, x) == RowCells(m - 1, x) + {(x, m - 1)};
    }
  }

  /** An `n` by `m` grid has `m * n` cells. */
  lemma {:induction false} AllCellsCard(m: nat, n: nat)
    ensures |AllCells(m, n)| == m * n
  {
    if n > 0 {
      AllCellsCard(m, n - 1);
      RowCellsCard(m, n - 1);
      AllCellsSplit(m, n - 1);
      assert m * n == m * (n - 1) + m;
    }
  }

  /** The cells of `n + 1` rows are those of the first `n` rows and, disjoint from them, row `n`. */
  lemma AllCellsSplit(m: nat, n: nat)
    ensures AllCells(m, n + 1) == AllCells(m, n) + RowCells(m, n)
    ensures AllCells(m, n) !! RowCells(m, n)
  {

  }
}
