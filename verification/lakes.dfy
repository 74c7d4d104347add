/**
 Lake counting: an explicit-stack depth-first flood fill over 8-connected
 water cells, and the scan that starts one flood fill per unvisited water
 cell. The `visited` matrix is the set of cells whose flag is true.
 */
module Lakes {
  import opened Grids

  /**
   What holds of a flood fill from `start` over `visited` between steps:
   `marked` holds `visited` and the start, every cell on `stack` is marked,
   every newly marked cell but the start is water (and connected to a water
   start), and every newly marked cell that is neither on the stack nor in
   `pending` already has all its water neighbours marked.
   */
  ghost predicate FillState(g: Grid, visited: set<Cell>, start: Cell,
                            marked: set<Cell>, stack: seq<Cell>, pending: set<Cell>)
    requires WellFormed(g)
  {
    && visited + {start} <= marked <= AllCells(g.m, g.n)
    && (forall i :: 0 <= i < |stack| ==> stack[i] in marked)
    && (forall c :: c in marked && c !in visited && c != start ==> IsWater(g, c))
    && (forall c :: c in marked && c !in visited && c !in stack && c !in pending ==>
          NeighboursIn(g, c, marked))
    && (IsWater(g, start) ==>
          forall c :: c in marked && c !in visited ==> Connected(g, start, c))
    && (IsWater(g, start) ==>
          forall i :: 0 <= i < |stack| ==> Connected(g, start, stack[i]))
  }

  /** Marking and pushing an unmarked water neighbour of `current` keeps the fill state. */
  lemma PushKeepsFillState(g: Grid, visited: set<Cell>, start: Cell, current: Cell,
                           marked: set<Cell>, stack: seq<Cell>, next: Cell)
    requires WellFormed(g)
    requires FillState(g, visited, start, marked, stack, {current})
    requires IsWater(g, start) ==> Connected(g, start, current)
    requires IsWater(g, next) && next !in marked && Adjacent(current, next)
    ensures FillState(g, visited, start, marked + {next}, stack + [next], {current})
  {
    var marked', stack' := marked + {next}, stack + [next];
    assert forall i :: 0 <= i < |stack| ==> stack'[i] == stack[i];
    assert stack'[|stack|] == next;
    assert next !in visited;
    if IsWater(g, start) {
      ConnectedStep(g, start, current, next);
    }
    forall c | c in marked' && c !in visited && c !in stack' && c != current
      ensures NeighboursIn(g, c, marked')
    {
      assert c in marked && c !in stack;
    }
  }

  /** Once every water neighbour of `current` is marked, it no longer needs exempting. */
  lemma ExploredKeepsFillState(g: Grid, visited: set<Cell>, start: Cell, current: Cell,
                               marked: set<Cell>, stack: seq<Cell>)
    requires WellFormed(g)
    requires FillState(g, visited, start, marked, stack, {current})
    requires NeighboursIn(g, current, marked)
    ensures FillState(g, visited, start, marked, stack, {})
  {
  }

  /** The fill state right after the start is marked and pushed. */
  lemma StartFillState(g: Grid, visited: set<Cell>, start: Cell)
    requires WellFormed(g)
    requires visited <= AllCells(g.m, g.n) && start in AllCells(g.m, g.n)
    ensures FillState(g, visited, start, visited + {start}, [start], {})
  {

  }

  /** Popping the top of the stack exempts it until it has been explored. */
  lemma PopKeepsFillState(g: Grid, visited: set<Cell>, start: Cell,
                          marked: set<Cell>, stack: seq<Cell>)
    requires WellFormed(g)
    requires FillState(g, visited, start, marked, stack, {}) && |stack| > 0
    ensures stack[|stack| - 1] in marked
    ensures IsWater(g, start) ==> Connected(g, start, stack[|stack| - 1])
    ensures FillState(g, visited, start, marked, stack[..|stack| - 1], {stack[|stack| - 1]})
  {

  }

  /** With the stack empty, the fill has marked a set closed under water neighbours. */
  lemma FinishedFill(g: Grid, visited: set<Cell>, start: Cell, marked: set<Cell>)
    requires WellFormed(g)
    requires FillState(g, visited, start, marked, [], {})
    ensures forall c :: c in marked && c !in visited ==> NeighboursIn(g, c, marked)
    ensures Closed(g, visited) ==> Closed(g, marked)
    ensures IsWater(g, start) && Closed(g, visited) ==>
              forall c :: Connected(g, start, c) ==> c in marked
  {
    if Closed(g, visited) {
      assert Closed(g, marked);
      if IsWater(g, start) {
        forall c | Connected(g, start, c)
          ensures c in marked
        {
          ClosedHoldsConnected(g, marked, start, c);
        }
      }
    }
  }

  lemma GrowthCard(a: set<Cell>, b: set<Cell>, all: set<Cell>)
    requires a <= b <= all
    ensures |b| == |a| + |b - a|
    ensures |all - a| == |all - b| + |b - a|
  {

  }

  /**
   One pass over the eight directions from the popped cell `current`: every
   neighbour that is in bounds, water and unmarked is marked and pushed.
   */
  method Explore(g: Grid, ghost visited: set<Cell>, ghost start: Cell, current: Cell,
                 marked0: set<Cell>, stack0: seq<Cell>)
      returns (marked: set<Cell>, stack: seq<Cell>)
    requires WellFormed(g)
    requires current in marked0
    requires IsWater(g, start) ==> Connected(g, start, current)
    requires FillState(g, visited, start, marked0, stack0, {current})
    ensures FillState(g, visited, start, marked, stack, {})
    ensures NeighboursIn(g, current, marked)
    ensures marked0 <= marked
    ensures |stack| >= |stack0|
    ensures |marked| == |marked0| + |stack| - |stack0|
  {
    marked, stack := marked0, stack0;
    var k := 0;
    while k < |Directions|
      invariant 0 <= k <= |Directions|
      invariant marked0 <= marked
      invariant FillState(g, visited, start, marked, stack, {current})
      invariant forall j :: 0 <= j < k && IsWater(g, Neighbour(current, j)) ==>
                  Neighbour(current, j) in marked
      invariant |stack| >= |stack0|
      invariant |marked| == |marked0| + |stack| - |stack0|
    {
      var next := Neighbour(current, k);
      if IsValid(next.0, next.1, g.m, g.n) && g.rows[next.0][next.1] == '.' && next !in marked {
        assert IsWater(g, next) && Adjacent(current, next);
        PushKeepsFillState(g, visited, start, current, marked, stack, next);
        marked := marked + {next};
        stack := stack + [next];
      }
      k := k + 1;
    }
    ExploredKeepsFillState(g, visited, start, current, marked, stack);
  }

  /**
   Flood fill from `(x, y)`: marks the start, then repeatedly pops a cell and
   marks and pushes each of its eight neighbours that is in bounds, water and
   not yet marked. `pushes` counts the pushes after the first one.
   */
  method FloodFill(g: Grid, visited: set<Cell>, x: int, y: int)
      returns (marked: set<Cell>, ghost pushes: nat)
    requires WellFormed(g)
    requires visited <= AllCells(g.m, g.n)
    requires IsValid(x, y, g.m, g.n)
    ensures visited <= marked <= AllCells(g.m, g.n)
    ensures (x, y) in marked
    ensures forall c :: c in marked && c !in visited && c != (x, y) ==> IsWater(g, c)
    ensures forall c :: c in marked && c !in visited ==> NeighboursIn(g, c, marked)
    ensures Closed(g, visited) ==> Closed(g, marked)
    ensures IsWater(g, (x, y)) ==>
              forall c :: c in marked && c !in visited ==> Connected(g, (x, y), c)
    ensures IsWater(g, (x, y)) && Closed(g, visited) ==>
              forall c :: Connected(g, (x, y), c) ==> c in marked
    ensures |marked| == |visited + {(x, y)}| + pushes
    ensures pushes < g.m * g.n
  {
    var start := (x, y);
    ghost var all := AllCells(g.m, g.n);
    var stack := [start];
    marked := visited + {start};
    pushes := 0;
    StartFillState(g, visited, start);
    while |stack| > 0
      invariant FillState(g, visited, start, marked, stack, {})
      invariant |marked| == |visited + {start}| + pushes
      decreases |all - marked|, |stack|
    {
      PopKeepsFillState(g, visited, start, marked, stack);
      var current := stack[|stack| - 1];
      ghost var marked0 := marked;
      var rest := stack[..|stack| - 1];
      marked, stack := Explore(g, visited, start, current, marked, rest);
      pushes := pushes + (|stack| - |rest|);
      GrowthCard(marked0, marked, all);
    }
    FinishedFill(g, visited, start, marked);
    SubsetCard(marked, all);
    AllCellsCard(g.m, g.n);
  }

  lemma FillIsLake(g: Grid, before: set<Cell>, s: Cell, after: set<Cell>)
    requires WellFormed(g)
    requires before <= after
    requires forall c :: c in after && c !in before ==> Connected(g, s, c)
    requires forall c :: Connected(g, s, c) ==> c in after
    ensures after == before + Lake(g, s)
  {

  }

  /**
   A completed flood fill from an unvisited water cell `s` of a closed set of
   water cells adds exactly the lake of `s`, which is one lake more.
   */
  lemma FillAddsLake(g: Grid, before: set<Cell>, s: Cell, after: set<Cell>)
    requires WellFormed(g)
    requires before <= WaterCells(g) && Closed(g, before)
    requires IsWater(g, s) && s !in before
    requires before <= after && s in after
    requires forall c :: c in after && c !in before ==> Connected(g, s, c)
    requires forall c :: Connected(g, s, c) ==> c in after
    ensures after == before + Lake(g, s)
    ensures after <= WaterCells(g)
    ensures |LakesMeeting(g, after)| == |LakesMeeting(g, before)| + 1
    ensures |after| >= |before| + 1
  {
    FillIsLake(g, before, s, after);
    assert Lake(g, s) <= WaterCells(g);
    AddLake(g, before, s);
    assert |before + {s}| == |before| + 1;
    SubsetCard(before + {s}, after);
  }

  /** The scan's step at cell `(i, j)`: a flood fill and one more lake if it is unvisited water. */
  method Visit(g: Grid, i: int, j: int, visited0: set<Cell>, lakes0: int)
      returns (visited: set<Cell>, lakes: int)
    requires WellFormed(g) && 0 <= i < g.n && 0 <= j < g.m
    requires visited0 <= WaterCells(g) && Closed(g, visited0)
    requires lakes0 == |LakesMeeting(g, visited0)| <= |visited0|
    ensures visited0 <= visited <= WaterCells(g) && Closed(g, visited)
    ensures IsWater(g, (i, j)) ==> (i, j) in visited
    ensures lakes == |LakesMeeting(g, visited)| <= |visited|
  {
    visited, lakes := visited0, lakes0;
    if g.rows[i][j] == '.' && (i, j) !in visited {
      ghost var pushes;
      visited, pushes := FloodFill(g, visited0, i, j);
      FillAddsLake(g, visited0, (i, j), visited);
      lakes := lakes + 1;
    }
  }

  /**
   The inner loop of the scan over row `i`: a flood fill and one more lake for
   every water cell of the row that is still unvisited when it is reached.
   */
  method ScanRow(g: Grid, i: int, visited0: set<Cell>, lakes0: int)
      returns (visited: set<Cell>, lakes: int)
    requires WellFormed(g) && 0 <= i < g.n
    requires visited0 <= WaterCells(g) && Closed(g, visited0)
    requires forall c :: c in WaterCells(g) && c.0 < i ==> c in visited0
    requires lakes0 == |LakesMeeting(g, visited0)| <= |visited0|
    ensures visited <= WaterCells(g) && Closed(g, visited)
    ensures forall c :: c in WaterCells(g) && c.0 <= i ==> c in visited
    ensures lakes == |LakesMeeting(g, visited)| <= |visited|
  {
    visited, lakes := visited0, lakes0;
    var j := 0;
    while j < g.m
      invariant 0 <= j <= g.m
      invariant visited <= WaterCells(g) && Closed(g, visited)
      invariant forall c :: c in WaterCells(g) && (c.0 < i || (c.0 == i && c.1 < j)) ==> c in visited
      invariant lakes == |LakesMeeting(g, visited)| <= |visited|
    {
      visited, lakes := Visit(g, i, j, visited, lakes);
      j := j + 1;
    }
  }

  /**
   Counts the lakes: scans the cells row by row and starts a flood fill at
   each water cell not yet visited. Also returns the final visited set.
   */
  method CountLakes(g: Grid) returns (lakes: int, visited: set<Cell>)
    requires WellFormed(g)
    ensures visited == WaterCells(g)
    ensures 0 <= lakes <= |WaterCells(g)|
    ensures WaterCells(g) == {} ==> lakes == 0
    ensures lakes == LakeCount(g)
  {
    visited := {};
    lakes := 0;
    var i := 0;
    while i < g.n
      invariant 0 <= i <= g.n
      invariant visited <= WaterCells(g) && Closed(g, visited)
      invariant forall c :: c in WaterCells(g) && c.0 < i ==> c in visited
      invariant lakes == |LakesMeeting(g, visited)| <= |visited|
    {
      visited, lakes := ScanRow(g, i, visited, lakes);
      i := i + 1;
    }
    assert visited == WaterCells(g);
    SubsetCard(visited, WaterCells(g));
  }
}
