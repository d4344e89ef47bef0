/**
 * The layout check of scripts/llm_care_scenarios.py with the validation of
 * scripts/care_frontier_sampler.py: a scenario map is accepted when the learner
 * can walk to the food.
 */
module MapLayout {
  import opened Common
  import opened Reachability

  datatype Cell = Cell(x: int, z: int)

  predicate Inside(rows: seq<string>, c: Cell) {
    0 <= c.z < |rows| && 0 <= c.x < |rows[c.z]|
  }

  function AllCells(rows: seq<string>): set<Cell> {
    set z, x | 0 <= z < |rows| && 0 <= x < |rows[z]| :: Cell(x, z)
  }

  /** The cells that carry a symbol. */
  function Marked(rows: seq<string>, symbol: char): set<Cell> {
    set c | c in AllCells(rows) && rows[c.z][c.x] == symbol
  }

  predicate Open(rows: seq<string>, c: Cell) {
    Inside(rows, c) && rows[c.z][c.x] != '#'
  }

  predicate OnlyWalls(row: string) {
    forall k :: 0 <= k < |row| ==> row[k] == '#'
  }

  /** `validate_layout`. */
  predicate ValidLayout(rows: seq<string>) {
    && 3 <= |rows| <= 17
    && (forall z {:trigger rows[z]} :: 0 <= z < |rows| ==> 3 <= |rows[z]| <= 17 && |rows[z]| == |rows[0]|)
    && (forall c :: c in AllCells(rows) ==> rows[c.z][c.x] in "#L.F")
    && |Marked(rows, 'L')| == 1 && |Marked(rows, 'F')| == 1
    && OnlyWalls(rows[0]) && OnlyWalls(rows[|rows| - 1])
    && (forall z {:trigger rows[z]} :: 0 <= z < |rows| ==> rows[z][0] == '#' && rows[z][|rows[z]| - 1] == '#')
  }

  /** The four cardinal neighbours, in the order they are tried. */
  function Cardinal(c: Cell): (cells: seq<Cell>)
    ensures |cells| == 4
  {
    [Cell(c.x + 1, c.z), Cell(c.x - 1, c.z), Cell(c.x, c.z + 1), Cell(c.x, c.z - 1)]
  }

  function Neighbours(rows: seq<string>): Cell -> set<Cell> {
    c => set n | n in Cardinal(c) && Open(rows, n)
  }

  /** Cell `b` can be walked to from `a` over cardinally adjacent cells that are not walls. */
  ghost predicate Walkable(rows: seq<string>, a: Cell, b: Cell) {
    Reaches(Neighbours(rows), a, b)
  }

  /** The queue lists the seen cells once each, and every one can be walked to. */
  ghost predicate Queue(rows: seq<string>, start: Cell, todo: seq<Cell>, seen: set<Cell>) {
    && start in seen && |todo| == |seen| && seen <= AllCells(rows)
    && (forall c {:trigger c in seen} :: c in seen <==> c in todo)
    && (forall c {:trigger c in seen} :: c in seen ==> Walkable(rows, start, c))
  }

  lemma QueueGrows(rows: seq<string>, start: Cell, todo: seq<Cell>, seen: set<Cell>, c: Cell, n: Cell)
    requires Queue(rows, start, todo, seen) && c in seen && n !in seen
    requires n in Neighbours(rows)(c)
    ensures Queue(rows, start, todo + [n], seen + {n})
  {
    ReachesFurther(Neighbours(rows), start, c, n);
  }

  /** Every attempt made: the open neighbours are seen. */
  lemma AllTried(rows: seq<string>, c: Cell, seen: set<Cell>)
    requires forall j {:trigger Cardinal(c)[j]} :: 0 <= j < 4 && Open(rows, Cardinal(c)[j]) ==> Cardinal(c)[j] in seen
    ensures Neighbours(rows)(c) <= seen
  {
  }

  /** One attempt at one neighbour. */
  method Attempt(rows: seq<string>, start: Cell, c: Cell, n: Cell, before: seq<Cell>, known: set<Cell>)
    returns (todo: seq<Cell>, seen: set<Cell>)
    requires Queue(rows, start, before, known) && c in known && n in Cardinal(c)
    ensures Queue(rows, start, todo, seen) && before <= todo && known <= seen
    ensures Open(rows, n) ==> n in seen
  {
    todo, seen := before, known;
    if Open(rows, n) && n !in seen {
      QueueGrows(rows, start, todo, seen, c, n);
      todo, seen := todo + [n], seen + {n};
    }
  }

  /** The four attempts at one queue entry. */
  method Expand(rows: seq<string>, start: Cell, c: Cell, before: seq<Cell>, known: set<Cell>)
    returns (todo: seq<Cell>, seen: set<Cell>)
    requires Queue(rows, start, before, known) && c in known
    ensures Queue(rows, start, todo, seen) && before <= todo && known <= seen
    ensures Neighbours(rows)(c) <= seen
  {
    todo, seen := before, known;
    for k := 0 to 4
      invariant Queue(rows, start, todo, seen) && before <= todo && known <= seen
      invariant forall j {:trigger Cardinal(c)[j]} :: 0 <= j < k && Open(rows, Cardinal(c)[j]) ==> Cardinal(c)[j] in seen
    {
      todo, seen := Attempt(rows, start, c, Cardinal(c)[k], todo, seen);
    }
    AllTried(rows, c, seen);
  }

  /** The growing queue ends, and what it has seen is exactly what can be walked to. */
  method Seen(rows: seq<string>, start: Cell) returns (seen: set<Cell>)
    requires start in AllCells(rows)
    ensures forall c :: c in seen <==> Walkable(rows, start, c)
  {
    seen := {start};
    var todo := [start];
    ReachesSelf(Neighbours(rows), start);
    var i := 0;
    while i < |todo|
      invariant 0 <= i <= |todo| && Queue(rows, start, todo, seen)
      invariant forall k :: 0 <= k < i ==> Neighbours(rows)(todo[k]) <= seen
      decreases |AllCells(rows)| - i
    {
      Smaller(seen, AllCells(rows));
      todo, seen := Expand(rows, start, todo[i], todo, seen);
      i := i + 1;
    }
    forall a, b | a in seen && b in Neighbours(rows)(a)
      ensures b in seen
    {
      var k :| 0 <= k < |todo| && todo[k] == a;
      assert Neighbours(rows)(todo[k]) <= seen;
    }
    forall c | Walkable(rows, start, c)
      ensures c in seen
    {
      ClosedKeepsReach(Neighbours(rows), seen, start, c);
    }
  }

  lemma {:induction false} Smaller(s: set<Cell>, t: set<Cell>)
    requires s <= t
    ensures |s| <= |t|
  {
    if s != {} {
      var x :| x in s;
      Smaller(s - {x}, t - {x});
    }
  }

  /** The layout is valid, and the food can be walked to from the learner. */
  ghost predicate Playable(rows: seq<string>) {
    && ValidLayout(rows)
    && exists learner, food :: learner in Marked(rows, 'L') && food in Marked(rows, 'F') && Walkable(rows, learner, food)
  }

  /** `map_layout`: None where it raises. */
  method CheckLayout(rows: seq<string>) returns (r: Option<seq<string>>)
    ensures r.Some? <==> Playable(rows)
    ensures r.Some? ==> r.value == rows
  {
    if !ValidLayout(rows) {
      return None;
    }
    var start :| start in Marked(rows, 'L');
    var target :| target in Marked(rows, 'F');
    var seen := Seen(rows, start);
    forall learner, food | learner in Marked(rows, 'L') && food in Marked(rows, 'F')
      ensures learner == start && food == target
    {
      OnlyOne(Marked(rows, 'L'), learner, start);
      OnlyOne(Marked(rows, 'F'), food, target);
    }
    return if target !in seen then None else Some(rows);
  }

  lemma OnlyOne(s: set<Cell>, a: Cell, b: Cell)
    requires |s| == 1 && a in s && b in s
    ensures a == b
  {
    if a != b {
      Smaller({a, b}, s);
    }
  }

  /** The way back is as good as the way there: swapping learner and food never changes the verdict. */
  lemma WalksGoBothWays(rows: seq<string>, a: Cell, b: Cell)
    requires Open(rows, a) && Walkable(rows, a, b)
    ensures Walkable(rows, b, a)
  {
    var path :| Walk(Neighbours(rows), path) && path[0] == a && path[|path| - 1] == b;
    Backwards(rows, path);
  }

  lemma {:induction false} Backwards(rows: seq<string>, path: seq<Cell>)
    requires Walk(Neighbours(rows), path) && Open(rows, path[0])
    ensures Walkable(rows, path[|path| - 1], path[0])
  {
    if |path| == 1 {
      ReachesSelf(Neighbours(rows), path[0]);
    } else {
      var rest := path[1..];
      assert path[1] in Neighbours(rows)(path[0]);
      forall k | 0 < k < |rest|
        ensures rest[k] in Neighbours(rows)(rest[k - 1])
      {
        assert path[k + 1] in Neighbours(rows)(path[k]);
      }
      Backwards(rows, rest);
      var (p, q) := (path[0], path[1]);
      assert p == Cell(q.x + 1, q.z) || p == Cell(q.x - 1, q.z) || p == Cell(q.x, q.z + 1) || p == Cell(q.x, q.z - 1);
      assert Cardinal(q)[0] == Cell(q.x + 1, q.z) && Cardinal(q)[1] == Cell(q.x - 1, q.z);
      assert Cardinal(q)[2] == Cell(q.x, q.z + 1) && Cardinal(q)[3] == Cell(q.x, q.z - 1);
      ReachesFurther(Neighbours(rows), path[|path| - 1], q, p);
    }
  }
}
