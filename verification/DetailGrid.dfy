/**
 * `component_uv_detail_grid` of scripts/geneforge_blender_worker.py: average the
 * detail samples that fall into each cell of a square grid, then flood the
 * empty cells breadth first from all occupied cells at once.
 */
module DetailGrid {
  import opened Arithmetic
  import opened Common

  /** The source's grid is 64 by 64; nothing but the rounding of coordinates depends on it. */
  const SIDE: Side := 64

  type Side = n: nat | 0 < n witness 1

  datatype Sample = Sample(u: real, v: real, detail: real, uvless: bool)

  // ---------------------------------------------------------------------
  // The grid
  // ---------------------------------------------------------------------

  datatype Cell = Cell(x: int, y: int)

  predicate InGrid(side: Side, c: Cell) { 0 <= c.x < side && 0 <= c.y < side }

  /** Row-major position, and its inverse. */
  function Index(side: Side, c: Cell): (i: nat)
    requires InGrid(side, c)
    ensures i < side * side && i % side == c.x && i / side == c.y
  {
    Bounded(side, c.y, side, c.x);
    LastBlock(side, c.y, c.y * side + c.x);
    c.y * side + c.x
  }

  function CellAt(side: Side, i: nat): (c: Cell)
    requires i < side * side
    ensures InGrid(side, c) && Index(side, c) == i
  {
    Quotient(i, side, side);
    Cell(i % side, i / side)
  }

  function AllCells(side: Side): (cells: set<Cell>)
    ensures forall c :: c in cells <==> InGrid(side, c)
  {
    set x, y | 0 <= x < side && 0 <= y < side :: Cell(x, y)
  }

  function Abs(n: int): nat { if n < 0 then -n else n }

  /** Manhattan distance. */
  function Dist(a: Cell, b: Cell): nat { Abs(a.x - b.x) + Abs(a.y - b.y) }

  predicate Adjacent(side: Side, a: Cell, b: Cell) { InGrid(side, a) && InGrid(side, b) && Dist(a, b) == 1 }

  /** The neighbour that is one step closer to `goal`. */
  function Toward(side: Side, c: Cell, goal: Cell): (n: Cell)
    requires InGrid(side, c) && InGrid(side, goal) && c != goal
    ensures Adjacent(side, n, c) && Dist(n, goal) + 1 == Dist(c, goal)
  {
    if c.x < goal.x then Cell(c.x + 1, c.y)
    else if c.x > goal.x then Cell(c.x - 1, c.y)
    else if c.y < goal.y then Cell(c.x, c.y + 1)
    else Cell(c.x, c.y - 1)
  }

  /** The candidates in the order of the source: above, left, right, below. */
  function Around(c: Cell, k: nat): Cell
    requires k < 4
  {
    if k == 0 then Cell(c.x, c.y - 1) else if k == 1 then Cell(c.x - 1, c.y)
    else if k == 2 then Cell(c.x + 1, c.y) else Cell(c.x, c.y + 1)
  }

  // ---------------------------------------------------------------------
  // Averaging
  // ---------------------------------------------------------------------

  /** Python's `round`: to the nearest integer, halves to the even one. */
  function Round(x: real): (n: int)
    ensures -0.5 <= n as real - x <= 0.5
    ensures n as real - x == 0.5 || x - n as real == 0.5 ==> n % 2 == 0
  {
    var below := x.Floor;
    var rest := x - below as real;
    if rest < 0.5 then below
    else if rest > 0.5 then below + 1
    else if below % 2 == 0 then below else below + 1
  }

  function Clamp(side: Side, n: int): (c: int)
    ensures 0 <= c < side
  {
    if n < 0 then 0 else if n >= side then side - 1 else n
  }

  /** The number of the nearest line of a ruler from 0 to `side - 1`. */
  function NearestLine(side: Side, x: real): (c: int)
    ensures 0 <= c < side
    ensures 0.0 <= x <= (side - 1) as real ==> -0.5 <= c as real - x <= 0.5
    ensures (x <= 0.0 ==> c == 0) && (x >= (side - 1) as real ==> c == side - 1)
  {
    Clamp(side, Round(x))
  }

  lemma Stretched(u: real, n: real)
    requires n >= 0.0
    ensures (0.0 <= u <= 1.0 ==> 0.0 <= u * n <= n) && (u < 0.0 ==> u * n <= 0.0) && (u > 1.0 ==> u * n >= n)
  {
  }

  /** A coordinate of the unit square on a grid stretched over it. */
  function Stretch(side: Side, u: real): (x: real)
    ensures 0.0 <= u <= 1.0 ==> 0.0 <= x <= (side - 1) as real
    ensures (u < 0.0 ==> x <= 0.0) && (u > 1.0 ==> x >= (side - 1) as real)
  {
    Stretched(u, (side - 1) as real);
    u * (side - 1) as real
  }

  function CellOf(side: Side, s: Sample): (c: Cell)
    ensures InGrid(side, c)
  {
    Cell(NearestLine(side, Stretch(side, s.u)), NearestLine(side, Stretch(side, s.v)))
  }

  /** `c` is within half a step of `x`, or at the border that a coordinate outside 0..1 goes to. */
  predicate Nearby(side: Side, u: real, x: real, c: int) {
    && (0.0 <= u <= 1.0 ==> -0.5 <= c as real - x <= 0.5)
    && (u < 0.0 ==> c == 0) && (u > 1.0 ==> c == side - 1)
  }

  lemma AxisIsNearest(side: Side, u: real)
    ensures Nearby(side, u, u * (side - 1) as real, NearestLine(side, Stretch(side, u)))
  {
    var x := Stretch(side, u);
    assert Nearby(side, u, x, NearestLine(side, x));
  }

  /** The cell of a sample is the one whose centre is nearest, on a grid stretched over the unit square. */
  lemma CellIsNearest(side: Side, s: Sample)
    ensures Nearby(side, s.u, s.u * (side - 1) as real, CellOf(side, s).x)
    ensures Nearby(side, s.v, s.v * (side - 1) as real, CellOf(side, s).y)
  {
    AxisIsNearest(side, s.u);
    AxisIsNearest(side, s.v);
  }

  /** What the averaging loop makes of one sample. */
  datatype Hit = Hit(cell: Cell, detail: real, uvless: bool)

  function Hits(side: Side, samples: seq<Sample>): (hits: seq<Hit>)
    ensures |hits| == |samples|
    ensures OnGrid(side, hits)
    ensures forall i :: 0 <= i < |hits| ==> hits[i] == Hit(CellOf(side, samples[i]), samples[i].detail, samples[i].uvless)
  {
    seq(|samples|, i requires 0 <= i < |samples| => Hit(CellOf(side, samples[i]), samples[i].detail, samples[i].uvless))
  }

  predicate OnGrid(side: Side, hits: seq<Hit>) {
    forall i :: 0 <= i < |hits| ==> InGrid(side, hits[i].cell)
  }

  predicate AnyUvless(hits: seq<Hit>) {
    exists i :: 0 <= i < |hits| && hits[i].uvless
  }

  function SumIn(hits: seq<Hit>, c: Cell): real {
    if hits == [] then 0.0
    else SumIn(hits[..|hits| - 1], c)
         + if hits[|hits| - 1].cell == c then hits[|hits| - 1].detail else 0.0
  }

  function CountIn(hits: seq<Hit>, c: Cell): nat {
    if hits == [] then 0
    else CountIn(hits[..|hits| - 1], c) + if hits[|hits| - 1].cell == c then 1 else 0
  }

  predicate Occupied(side: Side, hits: seq<Hit>, c: Cell) { InGrid(side, c) && CountIn(hits, c) > 0 }

  function Mean(hits: seq<Hit>, c: Cell): real
    requires CountIn(hits, c) > 0
  {
    SumIn(hits, c) / CountIn(hits, c) as real
  }

  lemma {:induction false} OccupiedMeansHit(hits: seq<Hit>, c: Cell)
    ensures CountIn(hits, c) > 0 <==> exists i :: 0 <= i < |hits| && hits[i].cell == c
  {
    if hits != [] {
      var n := |hits| - 1;
      OccupiedMeansHit(hits[..n], c);
      if CountIn(hits[..n], c) > 0 {
        var i :| 0 <= i < n && hits[..n][i].cell == c;
        assert hits[i].cell == c;
      }
      if i :| 0 <= i < |hits| && hits[i].cell == c {
        assert i < n ==> hits[..n][i].cell == c;
      }
    }
  }

  // ---------------------------------------------------------------------
  // The flood
  // ---------------------------------------------------------------------

  /** `source` is an occupied cell at minimum distance from `c`. */
  ghost predicate Nearest(side: Side, hits: seq<Hit>, c: Cell, source: Cell) {
    Occupied(side, hits, source) && forall o :: Occupied(side, hits, o) ==> Dist(c, source) <= Dist(c, o)
  }

  /** Assigned cells carry the mean of a nearest occupied cell, and every occupied cell is assigned. */
  ghost predicate Coloured(side: Side, hits: seq<Hit>, values: map<Cell, real>, source: map<Cell, Cell>) {
    && values.Keys == source.Keys
    && (forall c {:trigger c in values} :: c in values ==>
          InGrid(side, c) && Nearest(side, hits, c, source[c]) && values[c] == Mean(hits, source[c]))
    && (forall c {:trigger c in values} :: Occupied(side, hits, c) ==> c in values)
  }

  function Layer(source: map<Cell, Cell>, c: Cell): nat
    requires c in source
  {
    Dist(c, source[c])
  }

  /** The queue holds distinct assigned cells in layers that never drop and span at most one step. */
  ghost predicate Queued(source: map<Cell, Cell>, queue: seq<Cell>) {
    && (forall i :: 0 <= i < |queue| ==> queue[i] in source)
    && (forall i, j :: 0 <= i < j < |queue| ==>
          Layer(source, queue[i]) <= Layer(source, queue[j]) <= Layer(source, queue[i]) + 1)
  }

  /** Every assigned cell outside the queue has been expanded: its neighbours are assigned. */
  ghost predicate Expanded(side: Side, values: map<Cell, real>, queue: seq<Cell>) {
    forall c, n {:trigger Adjacent(side, c, n)} :: c in values && c !in queue && Adjacent(side, c, n) ==> n in values
  }

  /** Everything the flood keeps while `queue` is still to be expanded. */
  ghost predicate Flooding(side: Side, hits: seq<Hit>, values: map<Cell, real>, source: map<Cell, Cell>, queue: seq<Cell>) {
    Coloured(side, hits, values, source) && Queued(source, queue) && Expanded(side, values, queue)
  }

  /**
   * The heart of the breadth-first argument: a cell nearer to some occupied cell than the front of
   * the queue is to its own has already been assigned and expanded.
   */
  lemma {:induction false} NearerCellsDone(side: Side, hits: seq<Hit>, values: map<Cell, real>, source: map<Cell, Cell>,
                                           queue: seq<Cell>, bound: nat, c: Cell, goal: Cell)
    requires Flooding(side, hits, values, source, queue) && InGrid(side, c) && Occupied(side, hits, goal)
    requires forall i :: 0 <= i < |queue| ==> bound <= Layer(source, queue[i])
    requires queue == [] || Dist(c, goal) < bound
    ensures c in values && c !in queue
    decreases Dist(c, goal)
  {
    assert goal in values;
    if c != goal {
      var next := Toward(side, c, goal);
      NearerCellsDone(side, hits, values, source, queue, bound, next, goal);
    }
  }

  /** A cell that is not yet assigned is further from every occupied cell than the front is from its own. */
  lemma NotNearer(side: Side, hits: seq<Hit>, values: map<Cell, real>, source: map<Cell, Cell>, queue: seq<Cell>, n: Cell, o: Cell)
    requires Flooding(side, hits, values, source, queue) && queue != []
    requires InGrid(side, n) && n !in values && Occupied(side, hits, o)
    ensures Layer(source, queue[0]) < Dist(n, o)
  {
    var m := Toward(side, n, o);
    if Dist(m, o) < Layer(source, queue[0]) {
      NearerCellsDone(side, hits, values, source, queue, Layer(source, queue[0]), m, o);
    }
  }

  lemma StepDistance(side: Side, a: Cell, b: Cell, c: Cell)
    requires Adjacent(side, a, b)
    ensures Dist(b, c) <= Dist(a, c) + 1
  {
  }

  /** An unassigned neighbour of the front cell is one layer further out, by the front cell's source. */
  lemma NeighbourIsNext(side: Side, hits: seq<Hit>, values: map<Cell, real>, source: map<Cell, Cell>, queue: seq<Cell>, n: Cell)
    requires Flooding(side, hits, values, source, queue) && queue != []
    requires Adjacent(side, queue[0], n) && n !in values
    ensures Nearest(side, hits, n, source[queue[0]]) && Dist(n, source[queue[0]]) == Layer(source, queue[0]) + 1
  {
    var front := queue[0];
    assert front in values;
    StepDistance(side, front, n, source[front]);
    forall o | Occupied(side, hits, o)
      ensures Layer(source, queue[0]) + 1 <= Dist(n, o)
    {
      NotNearer(side, hits, values, source, queue, n, o);
    }
  }

  /** The front cell's unassigned neighbour takes its value and joins the queue. */
  lemma NeighbourJoins(side: Side, hits: seq<Hit>, values: map<Cell, real>, source: map<Cell, Cell>, queue: seq<Cell>, n: Cell)
    requires Flooding(side, hits, values, source, queue) && queue != []
    requires Adjacent(side, queue[0], n) && n !in values
    ensures Flooding(side, hits, values[n := values[queue[0]]], source[n := source[queue[0]]], queue + [n])
  {
    NeighbourIsNext(side, hits, values, source, queue, n);
    var after, origin, longer := values[n := values[queue[0]]], source[n := source[queue[0]]], queue + [n];
    forall i, j | 0 <= i < j < |longer|
      ensures Layer(origin, longer[i]) <= Layer(origin, longer[j]) <= Layer(origin, longer[i]) + 1
    {
      assert i > 0 ==> Layer(source, queue[0]) <= Layer(source, queue[i]) <= Layer(source, queue[0]) + 1;
    }
  }

  /** The first `k` neighbours of `c` are assigned. */
  predicate Visited(side: Side, values: map<Cell, real>, c: Cell, k: nat)
    requires k <= 4
  {
    forall j: nat {:trigger Around(c, j)} :: j < k && InGrid(side, Around(c, j)) ==> Around(c, j) in values
  }

  lemma VisitedFurther(side: Side, values: map<Cell, real>, after: map<Cell, real>, c: Cell, k: nat)
    requires k < 4 && Visited(side, values, c, k) && values.Keys <= after.Keys
    requires InGrid(side, Around(c, k)) ==> Around(c, k) in after
    ensures Visited(side, after, c, k + 1)
  {
    forall j: nat | j < k + 1 && InGrid(side, Around(c, j))
      ensures Around(c, j) in after
    {
      assert j < k ==> Around(c, j) in values;
    }
  }

  lemma NeighbourTaken(side: Side, hits: seq<Hit>, values: map<Cell, real>, source: map<Cell, Cell>, front: Cell, queue: seq<Cell>, k: nat)
    requires Flooding(side, hits, values, source, [front] + queue) && k < 4 && Visited(side, values, front, k)
    requires InGrid(side, Around(front, k)) && Around(front, k) !in values
    ensures front in values && front in source
    ensures var n := Around(front, k);
            && Flooding(side, hits, values[n := values[front]], source[n := source[front]], [front] + (queue + [n]))
            && Visited(side, values[n := values[front]], front, k + 1)
  {
    var n, whole := Around(front, k), [front] + queue;
    assert whole[0] == front && whole[0] in source && front in values;
    assert whole + [n] == [front] + (queue + [n]);
    NeighbourJoins(side, hits, values, source, whole, n);
    VisitedFurther(side, values, values[n := values[front]], front, k);
  }

  /** How many cells are still unassigned. */
  ghost function Left(side: Side, values: map<Cell, real>): nat { |AllCells(side) - values.Keys| }

  lemma FewerLeft(side: Side, before: map<Cell, real>, after: map<Cell, real>)
    requires before.Keys <= after.Keys && forall c :: c in after.Keys ==> InGrid(side, c)
    ensures before.Keys == after.Keys || Left(side, after) < Left(side, before)
  {
    var left, more := AllCells(side) - after.Keys, AllCells(side) - before.Keys;
    if c :| c in after.Keys && c !in before.Keys {
      ProperSubset(left, more, c);
    }
  }

  lemma ProperSubset(a: set<Cell>, b: set<Cell>, c: Cell)
    requires a <= b && c in b && c !in a
    ensures |a| < |b|
  {
    assert b == a + (b - a);
    assert c in b - a;
  }

  /** Visit the four neighbours of the front cell, which is logically still in the queue. */
  method ExpandFront(side: Side, hits: seq<Hit>, values: map<Cell, real>, ghost source: map<Cell, Cell>, front: Cell, rest: seq<Cell>)
    returns (after: map<Cell, real>, ghost origin: map<Cell, Cell>, queue: seq<Cell>)
    requires Flooding(side, hits, values, source, [front] + rest)
    ensures Flooding(side, hits, after, origin, queue)
    ensures Left(side, after) < Left(side, values) || (Left(side, after) == Left(side, values) && queue == rest)
  {
    after, origin, queue := values, source, rest;
    for k := 0 to 4
      invariant Flooding(side, hits, after, origin, [front] + queue) && Visited(side, after, front, k)
      invariant values.Keys <= after.Keys && (after.Keys == values.Keys ==> queue == rest)
    {
      var next := Around(front, k);
      if InGrid(side, next) && next !in after {
        NeighbourTaken(side, hits, after, origin, front, queue, k);
        after, origin := after[next := after[front]], origin[next := origin[front]];
        queue := queue + [next];
      } else {
        VisitedFurther(side, after, after, front, k);
      }
    }
    FewerLeft(side, values, after);
    FrontIsExpanded(side, after, origin, front, queue);
  }

  lemma FrontIsExpanded(side: Side, values: map<Cell, real>, source: map<Cell, Cell>, front: Cell, queue: seq<Cell>)
    requires Queued(source, [front] + queue) && Expanded(side, values, [front] + queue)
    requires Visited(side, values, front, 4)
    ensures Queued(source, queue) && Expanded(side, values, queue)
  {
    var whole := [front] + queue;
    assert forall i :: 0 <= i < |queue| ==> queue[i] == whole[i + 1];
    forall c, n | c in values && c !in queue && Adjacent(side, c, n)
      ensures n in values
    {
      if c == front {
        var j: nat := if n.y < c.y then 0 else if n.x < c.x then 1 else if n.x > c.x then 2 else 3;
        assert Around(front, j) == n;
      }
    }
  }

  /** The value is the mean detail of some occupied cell at minimum Manhattan distance. */
  ghost predicate HasNearestMean(side: Side, hits: seq<Hit>, value: real, c: Cell) {
    exists s :: Nearest(side, hits, c, s) && value == Mean(hits, s)
  }

  ghost predicate Filled(side: Side, hits: seq<Hit>, values: map<Cell, real>) {
    forall c {:trigger c in values} :: InGrid(side, c) ==> c in values && HasNearestMean(side, hits, values[c], c)
  }

  /** The loop over the queue: in the end every cell has the mean of a nearest occupied cell. */
  method Flood(side: Side, hits: seq<Hit>, seeded: map<Cell, real>, ghost source: map<Cell, Cell>, occupied: seq<Cell>)
    returns (values: map<Cell, real>)
    requires hits != [] && OnGrid(side, hits) && Flooding(side, hits, seeded, source, occupied)
    ensures Filled(side, hits, values)
  {
    values := seeded;
    var queue := occupied;
    ghost var origin := source;
    while queue != []
      invariant Flooding(side, hits, values, origin, queue)
      decreases Left(side, values), |queue|
    {
      var front, rest := queue[0], queue[1..];
      HeadAndTail(queue);
      values, origin, queue := ExpandFront(side, hits, values, origin, front, rest);
    }
    FloodFills(side, hits, values, origin);
  }

  lemma FloodFills(side: Side, hits: seq<Hit>, values: map<Cell, real>, source: map<Cell, Cell>)
    requires hits != [] && OnGrid(side, hits) && Flooding(side, hits, values, source, [])
    ensures Filled(side, hits, values)
  {
    forall c | InGrid(side, c)
      ensures c in values && HasNearestMean(side, hits, values[c], c)
    {
      FloodedCell(side, hits, values, source, c);
    }
  }

  /** With an empty queue the flood has reached every cell. */
  lemma FloodedCell(side: Side, hits: seq<Hit>, values: map<Cell, real>, source: map<Cell, Cell>, c: Cell)
    requires hits != [] && OnGrid(side, hits) && Flooding(side, hits, values, source, []) && InGrid(side, c)
    ensures c in values && HasNearestMean(side, hits, values[c], c)
  {
    var goal := hits[0].cell;
    OccupiedMeansHit(hits, goal);
    NearerCellsDone(side, hits, values, source, [], 0, c, goal);
    assert Nearest(side, hits, c, source[c]);
  }

  // ---------------------------------------------------------------------
  // The whole function
  // ---------------------------------------------------------------------

  lemma OneMoreHit(side: Side, hits: seq<Hit>, i: nat, c: Cell)
    requires i < |hits| && OnGrid(side, hits) && InGrid(side, c)
    ensures var same := Index(side, hits[i].cell) == Index(side, c);
            && SumIn(hits[..i + 1], c) == (if same then SumIn(hits[..i], c) + hits[i].detail else SumIn(hits[..i], c))
            && CountIn(hits[..i + 1], c) == (if same then CountIn(hits[..i], c) + 1 else CountIn(hits[..i], c))
  {
    var longer := hits[..i + 1];
    assert longer[..i] == hits[..i] && longer[i] == hits[i];
  }

  /** Per-cell sums and counts in row-major order. */
  ghost predicate Tallied(side: Side, hits: seq<Hit>, sums: seq<real>, counts: seq<nat>) {
    && |sums| == |counts| == side * side
    && forall c {:trigger Index(side, c)} :: InGrid(side, c) ==> sums[Index(side, c)] == SumIn(hits, c) && counts[Index(side, c)] == CountIn(hits, c)
  }

  lemma TallyOne(side: Side, hits: seq<Hit>, i: nat, sums: seq<real>, counts: seq<nat>)
    requires i < |hits| && OnGrid(side, hits) && Tallied(side, hits[..i], sums, counts)
    ensures var index := Index(side, hits[i].cell);
            Tallied(side, hits[..i + 1], sums[index := sums[index] + hits[i].detail], counts[index := counts[index] + 1])
  {
    var index := Index(side, hits[i].cell);
    var sums', counts' := sums[index := sums[index] + hits[i].detail], counts[index := counts[index] + 1];
    forall c | InGrid(side, c)
      ensures sums'[Index(side, c)] == SumIn(hits[..i + 1], c) && counts'[Index(side, c)] == CountIn(hits[..i + 1], c)
    {
      OneMoreHit(side, hits, i, c);
    }
  }

  /** The accumulation loop: sums and counts per cell; it stops at fallback-only geometry. */
  method Accumulate(side: Side, hits: seq<Hit>) returns (ok: bool, sums: array<real>, counts: array<nat>)
    requires OnGrid(side, hits)
    ensures ok <==> !AnyUvless(hits)
    ensures ok ==> Tallied(side, hits, sums[..], counts[..])
  {
    sums := new real[side * side](i => 0.0);
    counts := new nat[side * side](i => 0);
    for i := 0 to |hits|
      invariant !AnyUvless(hits[..i])
      invariant Tallied(side, hits[..i], sums[..], counts[..])
    {
      if hits[i].uvless {
        return false, sums, counts;
      }
      TallyOne(side, hits, i, sums[..], counts[..]);
      var index := Index(side, hits[i].cell);
      ghost var beforeSums, beforeCounts := sums[..], counts[..];
      sums[index] := sums[index] + hits[i].detail;
      counts[index] := counts[index] + 1;
      assert sums[..] == beforeSums[index := beforeSums[index] + hits[i].detail];
      assert counts[..] == beforeCounts[index := beforeCounts[index] + 1];
    }
    assert hits[..|hits|] == hits;
    ok := true;
  }

  /** The occupied cells take their means and form the first queue. */
  method SeedFlood(side: Side, hits: seq<Hit>, sums: array<real>, counts: array<nat>)
    returns (values: map<Cell, real>, queue: seq<Cell>, ghost source: map<Cell, Cell>)
    requires Tallied(side, hits, sums[..], counts[..])
    ensures Flooding(side, hits, values, source, queue)
    ensures forall c :: c in queue <==> Occupied(side, hits, c)
  {
    values, queue := map[], [];
    for i := 0 to side * side
      invariant Seeded(side, hits, values, queue, i)
    {
      var c := CellAt(side, i);
      SeedOne(side, hits, values, queue, i, sums[..], counts[..]);
      if counts[i] > 0 {
        values := values[c := sums[i] / counts[i] as real];
        queue := queue + [c];
      }
    }
    source := map c | c in values :: c;
    SeedsFlood(side, hits, values, source, queue);
  }

  /** The occupied ones of the first `i` cells have their means and are queued. */
  ghost predicate Seeded(side: Side, hits: seq<Hit>, values: map<Cell, real>, queue: seq<Cell>, i: nat) {
    && (forall c {:trigger c in values} :: c in values <==> Occupied(side, hits, c) && Index(side, c) < i)
    && (forall c {:trigger c in values} :: c in values ==> values[c] == Mean(hits, c))
    && (forall c {:trigger c in queue} :: c in queue <==> c in values)
  }

  lemma SeedOne(side: Side, hits: seq<Hit>, values: map<Cell, real>, queue: seq<Cell>, i: nat, sums: seq<real>, counts: seq<nat>)
    requires i < side * side && Tallied(side, hits, sums, counts) && Seeded(side, hits, values, queue, i)
    ensures var c := CellAt(side, i);
            if counts[i] > 0
            then Seeded(side, hits, values[c := sums[i] / counts[i] as real], queue + [c], i + 1)
            else Seeded(side, hits, values, queue, i + 1)
  {
    var c := CellAt(side, i);
    assert Index(side, c) == i;
    assert Occupied(side, hits, c) <==> counts[i] > 0;
    assert counts[i] > 0 ==> Mean(hits, c) == sums[i] / counts[i] as real;
  }

  lemma SeedsFlood(side: Side, hits: seq<Hit>, values: map<Cell, real>, source: map<Cell, Cell>, queue: seq<Cell>)
    requires Seeded(side, hits, values, queue, side * side) && source.Keys == values.Keys && forall c :: c in source ==> source[c] == c
    ensures Flooding(side, hits, values, source, queue)
    ensures forall c :: c in queue <==> Occupied(side, hits, c)
  {
    assert forall i :: 0 <= i < |queue| ==> queue[i] in queue;
  }

  /** A full grid in row-major order. */
  ghost predicate IsDetailGrid(side: Side, hits: seq<Hit>, grid: seq<real>) {
    |grid| == side * side && forall c {:trigger Index(side, c)} :: InGrid(side, c) ==> HasNearestMean(side, hits, grid[Index(side, c)], c)
  }

  /** The values of a filled grid as one row-major list. */
  function RowMajor(side: Side, ghost hits: seq<Hit>, values: map<Cell, real>): (grid: seq<real>)
    requires Filled(side, hits, values)
    ensures IsDetailGrid(side, hits, grid)
  {
    var grid := seq(side * side, i requires 0 <= i < side * side && CellAt(side, i) in values => values[CellAt(side, i)]);
    assert forall c {:trigger Index(side, c)} :: InGrid(side, c) ==> CellAt(side, Index(side, c)) == c && c in values;
    grid
  }

  method GridOfHits(side: Side, hits: seq<Hit>) returns (grid: Option<seq<real>>)
    requires OnGrid(side, hits)
    ensures grid.Some? <==> hits != [] && !AnyUvless(hits)
    ensures grid.Some? ==> IsDetailGrid(side, hits, grid.value)
  {
    var ok, sums, counts := Accumulate(side, hits);
    if !ok {
      return None;
    }
    var seeded, queue, source := SeedFlood(side, hits, sums, counts);
    if hits != [] {
      OccupiedMeansHit(hits, hits[0].cell);
      assert hits[0].cell in queue;
    }
    if queue == [] {
      return None;
    }
    assert hits != [] by {
      assert queue[0] in queue;
    }
    var values := Flood(side, hits, seeded, source, queue);
    grid := Some(RowMajor(side, hits, values));
  }

  /** `component_uv_detail_grid`; `None` where it raises. */
  method ComponentDetailGrid(samples: seq<Sample>) returns (grid: Option<seq<real>>)
    ensures grid.Some? <==> samples != [] && forall i :: 0 <= i < |samples| ==> !samples[i].uvless
    ensures grid.Some? ==> IsDetailGrid(SIDE, Hits(SIDE, samples), grid.value)
  {
    grid := GridOfHits(SIDE, Hits(SIDE, samples));
  }
}
