/**
 * `components` of scripts/derive_conifer_leader.py: the connected components of
 * a triangle mesh whose coincident vertices count as one, by union-find with
 * path halving.
 */
module MeshComponents {
  type Point = (real, real, real)
  type Triangle = (nat, nat, nat)

  // ---------------------------------------------------------------------
  // The specification: vertices joined by triangles and coincidence
  // ---------------------------------------------------------------------

  predicate Corner(t: Triangle, i: nat) { i == t.0 || i == t.1 || i == t.2 }

  predicate Indexed(n: nat, triangles: seq<Triangle>) {
    forall k :: 0 <= k < |triangles| ==> triangles[k].0 < n && triangles[k].1 < n && triangles[k].2 < n
  }

  /** Two vertices at one position, or two corners of one triangle. */
  predicate Touch(positions: seq<Point>, triangles: seq<Triangle>, i: nat, j: nat)
    requires i < |positions| && j < |positions|
  {
    positions[i] == positions[j] || exists k :: 0 <= k < |triangles| && Corner(triangles[k], i) && Corner(triangles[k], j)
  }

  predicate Walk(positions: seq<Point>, triangles: seq<Triangle>, path: seq<nat>) {
    && path != [] && (forall k :: 0 <= k < |path| ==> path[k] < |positions|)
    && forall k :: 0 <= k < |path| - 1 ==> Touch(positions, triangles, path[k], path[k + 1])
  }

  ghost predicate Connected(positions: seq<Point>, triangles: seq<Triangle>, i: nat, j: nat) {
    exists path :: Walk(positions, triangles, path) && path[0] == i && path[|path| - 1] == j
  }

  lemma TouchConnects(positions: seq<Point>, triangles: seq<Triangle>, i: nat, j: nat)
    requires i < |positions| && j < |positions| && Touch(positions, triangles, i, j)
    ensures Connected(positions, triangles, i, j)
  {
    assert Walk(positions, triangles, [i, j]);
  }

  lemma ConnectedComposes(positions: seq<Point>, triangles: seq<Triangle>, i: nat, j: nat, k: nat)
    requires Connected(positions, triangles, i, j) && Connected(positions, triangles, j, k)
    ensures Connected(positions, triangles, i, k)
  {
    var p :| Walk(positions, triangles, p) && p[0] == i && p[|p| - 1] == j;
    var q :| Walk(positions, triangles, q) && q[0] == j && q[|q| - 1] == k;
    var r := p + q[1..];
    forall m | 0 <= m < |r| - 1
      ensures Touch(positions, triangles, r[m], r[m + 1])
    {
      if m >= |p| - 1 {
        assert r[m] == q[m - (|p| - 1)] && r[m + 1] == q[m + 1 - (|p| - 1)];
      }
    }
    assert Walk(positions, triangles, r);
  }

  /** A labelling that never changes across a touch is constant on connected vertices. */
  lemma {:induction false} LabelsFollowWalks(positions: seq<Point>, triangles: seq<Triangle>, mark: seq<nat>, path: seq<nat>)
    requires |mark| == |positions| && Walk(positions, triangles, path)
    requires forall i, j :: 0 <= i < |mark| && 0 <= j < |mark| && Touch(positions, triangles, i, j) ==> mark[i] == mark[j]
    ensures mark[path[0]] == mark[path[|path| - 1]]
  {
    if |path| > 1 {
      assert Touch(positions, triangles, path[0], path[0 + 1]);
      var rest := path[1..];
      forall k | 0 <= k < |rest| - 1
        ensures Touch(positions, triangles, rest[k], rest[k + 1])
      {
        assert Touch(positions, triangles, path[k + 1], path[k + 1 + 1]);
      }
      LabelsFollowWalks(positions, triangles, mark, rest);
    }
  }

  // ---------------------------------------------------------------------
  // The parent forest
  // ---------------------------------------------------------------------

  /** `depth` decreases along every parent link, so the links are acyclic and end in roots. */
  ghost predicate Forest(parent: seq<nat>, depth: seq<nat>) {
    && |depth| == |parent|
    && (forall x :: 0 <= x < |parent| ==> parent[x] < |parent|)
    && (forall x :: 0 <= x < |parent| && parent[x] != x ==> depth[parent[x]] < depth[x])
  }

  ghost function Root(parent: seq<nat>, depth: seq<nat>, x: nat): (r: nat)
    requires Forest(parent, depth) && x < |parent|
    ensures r < |parent| && parent[r] == r
    decreases depth[x]
  {
    if parent[x] == x then x else Root(parent, depth, parent[x])
  }

  /** Halving a path step keeps the forest and every root. */
  lemma {:induction false} HalvingKeepsRoot(parent: seq<nat>, depth: seq<nat>, x: nat, y: nat)
    requires Forest(parent, depth) && x < |parent| && y < |parent|
    ensures var halved := parent[x := parent[parent[x]]];
            Forest(halved, depth) && Root(halved, depth, y) == Root(parent, depth, y)
    decreases depth[y]
  {
    var halved := parent[x := parent[parent[x]]];
    if halved[y] != y {
      HalvingKeepsRoot(parent, depth, x, halved[y]);
    }
  }

  /** Linking root `v` below root `u` moves exactly the tree of `v`. */
  lemma {:induction false} LinkingMovesTree(parent: seq<nat>, depth: seq<nat>, u: nat, v: nat, deeper: seq<nat>, y: nat)
    requires Forest(parent, depth) && u < |parent| && v < |parent| && u != v && parent[u] == u && parent[v] == v
    requires deeper == Deepened(parent, depth, u, v) && y < |parent|
    ensures var linked := parent[v := u];
            && Forest(linked, deeper)
            && Root(linked, deeper, y) == if Root(parent, depth, y) == v then u else Root(parent, depth, y)
    decreases depth[y]
  {
    var linked := parent[v := u];
    assert Forest(linked, deeper) by {
      forall x | 0 <= x < |linked| && linked[x] != x
        ensures deeper[linked[x]] < deeper[x]
      {
        assert x != v ==> Root(parent, depth, parent[x]) == Root(parent, depth, x);
      }
    }
    if y != v && parent[y] != y {
      LinkingMovesTree(parent, depth, u, v, deeper, parent[y]);
    }
  }

  ghost function Deepened(parent: seq<nat>, depth: seq<nat>, u: nat, v: nat): seq<nat>
    requires Forest(parent, depth) && u < |parent|
  {
    seq(|parent|, y requires 0 <= y < |parent| =>
      if Root(parent, depth, y) == v then depth[y] + depth[u] + 1 else depth[y])
  }

  ghost predicate SameRoots(parent: seq<nat>, depth: seq<nat>, before: seq<nat>, beforeDepth: seq<nat>)
    requires Forest(parent, depth) && Forest(before, beforeDepth) && |parent| == |before|
  {
    forall y :: 0 <= y < |parent| ==> Root(parent, depth, y) == Root(before, beforeDepth, y)
  }

  /** `find`: walk to the root, halving the path on the way. */
  method Find(parent: array<nat>, start: nat, ghost depth: seq<nat>) returns (root: nat)
    requires Forest(parent[..], depth) && start < parent.Length
    modifies parent
    ensures Forest(parent[..], depth) && SameRoots(parent[..], depth, old(parent[..]), depth)
    ensures root < parent.Length && root == Root(old(parent[..]), depth, start)
    ensures parent[root] == root
  {
    var x: nat := start;
    while parent[x] != x
      invariant x < parent.Length
      invariant Forest(parent[..], depth) && SameRoots(parent[..], depth, old(parent[..]), depth)
      invariant Root(parent[..], depth, x) == Root(old(parent[..]), depth, start)
      decreases depth[x]
    {
      ghost var before := parent[..];
      parent[x] := parent[parent[x]];
      assert parent[..] == before[x := before[before[x]]];
      forall y | 0 <= y < parent.Length
        ensures Forest(parent[..], depth) && Root(parent[..], depth, y) == Root(before, depth, y)
      {
        HalvingKeepsRoot(before, depth, x, y);
      }
      x := parent[x];
    }
    root := x;
  }

  // ---------------------------------------------------------------------
  // np.unique
  // ---------------------------------------------------------------------

  predicate Less(p: Point, q: Point) {
    p.0 < q.0 || (p.0 == q.0 && (p.1 < q.1 || (p.1 == q.1 && p.2 < q.2)))
  }

  function InsertPoint(p: Point, rows: seq<Point>): seq<Point> {
    if rows == [] || Less(p, rows[0]) then [p] + rows
    else if p == rows[0] then rows
    else [rows[0]] + InsertPoint(p, rows[1..])
  }

  /** The distinct rows in ascending order. */
  function UniqueRows(positions: seq<Point>): seq<Point> {
    if positions == [] then [] else InsertPoint(positions[0], UniqueRows(positions[1..]))
  }

  function IndexOf(p: Point, rows: seq<Point>): (i: nat)
    requires p in rows
    ensures i < |rows| && rows[i] == p
  {
    if rows[0] == p then 0 else 1 + IndexOf(p, rows[1..])
  }

  lemma {:induction false} InsertedRows(p: Point, rows: seq<Point>, q: Point)
    ensures q in InsertPoint(p, rows) <==> q == p || q in rows
  {
    if rows != [] && !Less(p, rows[0]) && p != rows[0] {
      InsertedRows(p, rows[1..], q);
      assert rows == [rows[0]] + rows[1..];
    }
  }

  lemma {:induction false} UniqueRowsCover(positions: seq<Point>, i: nat)
    requires i < |positions|
    ensures positions[i] in UniqueRows(positions)
  {
    InsertedRows(positions[0], UniqueRows(positions[1..]), positions[i]);
    if i > 0 {
      UniqueRowsCover(positions[1..], i - 1);
    }
  }

  /** `return_inverse`: which distinct row each vertex is. */
  function Inverse(positions: seq<Point>): (inverse: seq<nat>)
    ensures |inverse| == |positions|
    ensures forall i :: 0 <= i < |positions| ==> inverse[i] < |UniqueRows(positions)|
    ensures forall i :: 0 <= i < |positions| ==> UniqueRows(positions)[inverse[i]] == positions[i]
    ensures forall i, j :: 0 <= i < |positions| && 0 <= j < |positions| ==>
              (inverse[i] == inverse[j] <==> positions[i] == positions[j])
  {
    var rows := UniqueRows(positions);
    seq(|positions|, i requires 0 <= i < |positions| => UniqueRowsCover(positions, i); IndexOf(positions[i], rows))
  }

  // ---------------------------------------------------------------------
  // Components
  // ---------------------------------------------------------------------

  /** The root of every vertex: the labelling that the parent forest stands for. */
  ghost function MarksOf(inverse: seq<nat>, parent: seq<nat>, depth: seq<nat>): seq<nat>
    requires Forest(parent, depth) && forall i :: 0 <= i < |inverse| ==> inverse[i] < |parent|
  {
    seq(|inverse|, i requires 0 <= i < |inverse| => Root(parent, depth, inverse[i]))
  }

  /** Label `from` becomes `to`. */
  function Recoloured(marks: seq<nat>, from: nat, to: nat): seq<nat> {
    seq(|marks|, i requires 0 <= i < |marks| => if marks[i] == from then to else marks[i])
  }

  /** Vertices with one label are connected. */
  ghost predicate Sound(positions: seq<Point>, triangles: seq<Triangle>, marks: seq<nat>)
    requires |marks| == |positions|
  {
    forall i, j :: 0 <= i < |marks| && 0 <= j < |marks| && marks[i] == marks[j] ==> Connected(positions, triangles, i, j)
  }

  /** Coincident vertices have one label, and so have the corners of each of the first `k` triangles. */
  predicate Joined(positions: seq<Point>, triangles: seq<Triangle>, marks: seq<nat>, k: nat)
    requires |marks| == |positions| && Indexed(|positions|, triangles) && k <= |triangles|
  {
    && (forall i, j :: 0 <= i < |marks| && 0 <= j < |marks| && positions[i] == positions[j] ==> marks[i] == marks[j])
    && (forall m :: 0 <= m < k ==> marks[triangles[m].0] == marks[triangles[m].1] == marks[triangles[m].2])
  }

  /** One edge of the union loop: the tree of `b`'s root is hung below `a`'s root. */
  method Union(inverse: seq<nat>, parent: array<nat>, a: nat, b: nat, ghost depth: seq<nat>)
    returns (ghost deeper: seq<nat>)
    requires forall i :: 0 <= i < |inverse| ==> inverse[i] < parent.Length
    requires a < |inverse| && b < |inverse| && Forest(parent[..], depth)
    modifies parent
    ensures Forest(parent[..], deeper)
    ensures var marks := MarksOf(inverse, old(parent[..]), depth);
            MarksOf(inverse, parent[..], deeper) == Recoloured(marks, marks[b], marks[a])
  {
    ghost var first := parent[..];
    ghost var marks := MarksOf(inverse, first, depth);
    var u: nat := Find(parent, inverse[a], depth);
    var v: nat := Find(parent, inverse[b], depth);
    deeper := depth;
    if u != v {
      ghost var before := parent[..];
      deeper := Deepened(before, depth, u, v);
      parent[v] := u;
      assert parent[..] == before[v := u];
      forall y | 0 <= y < parent.Length
        ensures Forest(parent[..], deeper)
        ensures Root(parent[..], deeper, y) == if Root(first, depth, y) == v then u else Root(first, depth, y)
      {
        LinkingMovesTree(before, depth, u, v, deeper, y);
      }
    }
    assert MarksOf(inverse, parent[..], deeper) == Recoloured(marks, v, u);
  }

  /** Merging the labels of two touching vertices keeps the labelling sound. */
  lemma RecolouringIsSound(positions: seq<Point>, triangles: seq<Triangle>, marks: seq<nat>, a: nat, b: nat)
    requires |marks| == |positions| && Sound(positions, triangles, marks)
    requires a < |positions| && b < |positions| && Touch(positions, triangles, a, b)
    ensures Sound(positions, triangles, Recoloured(marks, marks[b], marks[a]))
  {
    var after := Recoloured(marks, marks[b], marks[a]);
    forall i, j | 0 <= i < |marks| && 0 <= j < |marks| && after[i] == after[j]
      ensures Connected(positions, triangles, i, j)
    {
      TouchConnects(positions, triangles, a, b);
      TouchConnects(positions, triangles, b, a);
      if marks[i] == marks[j] {
      } else if marks[i] == marks[b] {
        ConnectedComposes(positions, triangles, i, b, a);
        ConnectedComposes(positions, triangles, i, a, j);
      } else {
        ConnectedComposes(positions, triangles, i, a, b);
        ConnectedComposes(positions, triangles, i, b, j);
      }
    }
  }

  /** The two unions of one triangle give its corners one label. */
  lemma TriangleJoined(positions: seq<Point>, triangles: seq<Triangle>, marks: seq<nat>, k: nat)
    requires |marks| == |positions| && Indexed(|positions|, triangles) && k < |triangles|
    requires Sound(positions, triangles, marks) && Joined(positions, triangles, marks, k)
    ensures var (a, b, c) := triangles[k];
            var once := Recoloured(marks, marks[b], marks[a]);
            var twice := Recoloured(once, once[c], once[b]);
            Sound(positions, triangles, twice) && Joined(positions, triangles, twice, k + 1)
  {
    var (a, b, c) := triangles[k];
    assert Corner(triangles[k], a) && Corner(triangles[k], b) && Corner(triangles[k], c);
    RecolouringIsSound(positions, triangles, marks, a, b);
    RecolouringIsSound(positions, triangles, Recoloured(marks, marks[b], marks[a]), b, c);
  }

  function InsertMark(m: nat, sorted: seq<nat>): seq<nat> {
    if sorted == [] || m < sorted[0] then [m] + sorted
    else if m == sorted[0] then sorted
    else [sorted[0]] + InsertMark(m, sorted[1..])
  }

  /** The distinct labels in ascending order. */
  function UniqueMarks(marks: seq<nat>): seq<nat> {
    if marks == [] then [] else InsertMark(marks[0], UniqueMarks(marks[1..]))
  }

  predicate Ascending(s: seq<nat>) { forall i, j :: 0 <= i < j < |s| ==> s[i] < s[j] }

  lemma {:induction false} InsertedMarks(m: nat, sorted: seq<nat>)
    requires Ascending(sorted)
    ensures Ascending(InsertMark(m, sorted))
    ensures forall x :: x in InsertMark(m, sorted) <==> x == m || x in sorted
  {
    if sorted != [] && m > sorted[0] {
      InsertedMarks(m, sorted[1..]);
      assert sorted == [sorted[0]] + sorted[1..];
    }
  }

  lemma {:induction false} UniqueMarksExact(marks: seq<nat>)
    ensures Ascending(UniqueMarks(marks))
    ensures forall x :: x in UniqueMarks(marks) <==> x in marks
  {
    if marks != [] {
      UniqueMarksExact(marks[1..]);
      InsertedMarks(marks[0], UniqueMarks(marks[1..]));
      assert marks == [marks[0]] + marks[1..];
    }
  }

  /** `np.where(marks == m)`: the indices of one label. */
  function Where(marks: seq<nat>, m: nat): seq<nat> {
    if marks == [] then []
    else
      var n := |marks| - 1;
      Where(marks[..n], m) + if marks[n] == m then [n] else []
  }

  lemma {:induction false} WhereExact(marks: seq<nat>, m: nat)
    ensures Ascending(Where(marks, m))
    ensures forall i :: i in Where(marks, m) <==> 0 <= i < |marks| && marks[i] == m
  {
    if marks != [] {
      var n := |marks| - 1;
      var earlier := Where(marks[..n], m);
      WhereExact(marks[..n], m);
      forall k | 0 <= k < |earlier|
        ensures earlier[k] < n
      {
        assert earlier[k] in earlier;
      }
    }
  }

  function Groups(marks: seq<nat>): seq<seq<nat>> {
    var distinct := UniqueMarks(marks);
    seq(|distinct|, g requires 0 <= g < |distinct| => Where(marks, distinct[g]))
  }

  predicate Grouped(i: nat, groups: seq<seq<nat>>) { exists g :: 0 <= g < |groups| && i in groups[g] }

  /** The groups partition the vertices into exactly the connected components. */
  ghost predicate AreComponents(positions: seq<Point>, triangles: seq<Triangle>, groups: seq<seq<nat>>) {
    && (forall g :: 0 <= g < |groups| ==> groups[g] != [] && Ascending(groups[g]))
    && (forall g, i :: 0 <= g < |groups| && i in groups[g] ==> i < |positions|)
    && (forall i: nat :: i < |positions| ==> Grouped(i, groups))
    && (forall g, h, i, j :: 0 <= g < |groups| && 0 <= h < |groups| && i in groups[g] && j in groups[h] ==>
          (g == h <==> Connected(positions, triangles, i, j)))
  }

  /** A labelling that is equal exactly on connected vertices groups them into components. */
  lemma GroupsAreComponents(positions: seq<Point>, triangles: seq<Triangle>, marks: seq<nat>)
    requires |marks| == |positions|
    requires forall i, j :: 0 <= i < |marks| && 0 <= j < |marks| ==>
               (marks[i] == marks[j] <==> Connected(positions, triangles, i, j))
    ensures AreComponents(positions, triangles, Groups(marks))
  {
    var groups, distinct := Groups(marks), UniqueMarks(marks);
    UniqueMarksExact(marks);
    forall g | 0 <= g < |groups|
      ensures groups[g] != [] && Ascending(groups[g])
      ensures forall i :: i in groups[g] <==> 0 <= i < |marks| && marks[i] == distinct[g]
    {
      WhereExact(marks, distinct[g]);
      assert distinct[g] in marks;
      var i :| 0 <= i < |marks| && marks[i] == distinct[g];
      assert i in groups[g];
    }
    forall i: nat | i < |positions|
      ensures Grouped(i, groups)
    {
      assert marks[i] in distinct;
      var g :| 0 <= g < |distinct| && distinct[g] == marks[i];
      assert i in groups[g];
    }
    forall g, h, i, j | 0 <= g < |groups| && 0 <= h < |groups| && i in groups[g] && j in groups[h]
      ensures g == h <==> Connected(positions, triangles, i, j)
    {
      assert marks[i] == distinct[g] && marks[j] == distinct[h];
    }
  }

  /** When all triangles are joined, equal labels are exactly connection. */
  lemma LabelsAreConnection(positions: seq<Point>, triangles: seq<Triangle>, marks: seq<nat>)
    requires Indexed(|positions|, triangles) && |marks| == |positions|
    requires Sound(positions, triangles, marks) && Joined(positions, triangles, marks, |triangles|)
    ensures forall i, j :: 0 <= i < |marks| && 0 <= j < |marks| ==>
              (marks[i] == marks[j] <==> Connected(positions, triangles, i, j))
  {
    forall i, j | 0 <= i < |marks| && 0 <= j < |marks| && Touch(positions, triangles, i, j)
      ensures marks[i] == marks[j]
    {
      if positions[i] != positions[j] {
        var k :| 0 <= k < |triangles| && Corner(triangles[k], i) && Corner(triangles[k], j);
      }
    }
    forall i, j | 0 <= i < |marks| && 0 <= j < |marks|
      ensures marks[i] == marks[j] <==> Connected(positions, triangles, i, j)
    {
      if Connected(positions, triangles, i, j) {
        var path :| Walk(positions, triangles, path) && path[0] == i && path[|path| - 1] == j;
        LabelsFollowWalks(positions, triangles, marks, path);
      }
    }
  }

  /** Before any triangle is joined, exactly the coincident vertices share a label. */
  lemma IdentityIsSound(positions: seq<Point>, triangles: seq<Triangle>, marks: seq<nat>)
    requires Indexed(|positions|, triangles) && marks == Inverse(positions)
    ensures Sound(positions, triangles, marks) && Joined(positions, triangles, marks, 0)
  {
    forall i, j | 0 <= i < |positions| && 0 <= j < |positions| && marks[i] == marks[j]
      ensures Connected(positions, triangles, i, j)
    {
      TouchConnects(positions, triangles, i, j);
    }
  }

  /** The union loop over all triangles. */
  method JoinAll(positions: seq<Point>, triangles: seq<Triangle>, inverse: seq<nat>, parent: array<nat>)
    returns (ghost depth: seq<nat>)
    requires Indexed(|positions|, triangles) && inverse == Inverse(positions)
    requires parent.Length == |UniqueRows(positions)| && forall x :: 0 <= x < parent.Length ==> parent[x] == x
    modifies parent
    ensures Forest(parent[..], depth)
    ensures Sound(positions, triangles, MarksOf(inverse, parent[..], depth))
    ensures Joined(positions, triangles, MarksOf(inverse, parent[..], depth), |triangles|)
  {
    depth := seq(parent.Length, i => 0);
    ghost var marks := MarksOf(inverse, parent[..], depth);
    assert marks == inverse;
    IdentityIsSound(positions, triangles, marks);
    for k := 0 to |triangles|
      invariant Forest(parent[..], depth) && marks == MarksOf(inverse, parent[..], depth)
      invariant Sound(positions, triangles, marks) && Joined(positions, triangles, marks, k)
    {
      var (a, b, c) := triangles[k];
      TriangleJoined(positions, triangles, marks, k);
      depth := Union(inverse, parent, a, b, depth);
      depth := Union(inverse, parent, b, c, depth);
      marks := MarksOf(inverse, parent[..], depth);
    }
  }

  /** The root of every distinct row, each found with path halving. */
  method AllRoots(parent: array<nat>, ghost depth: seq<nat>) returns (roots: seq<nat>)
    requires Forest(parent[..], depth)
    modifies parent
    ensures Forest(old(parent[..]), depth) && |roots| == parent.Length
    ensures forall y :: 0 <= y < |roots| ==> roots[y] == Root(old(parent[..]), depth, y)
  {
    roots := [];
    for x := 0 to parent.Length
      invariant |roots| == x
      invariant Forest(parent[..], depth) && SameRoots(parent[..], depth, old(parent[..]), depth)
      invariant forall y :: 0 <= y < x ==> roots[y] == Root(old(parent[..]), depth, y)
    {
      var root := Find(parent, x, depth);
      roots := roots + [root];
    }
  }

  method Components(positions: seq<Point>, triangles: seq<Triangle>) returns (groups: seq<seq<nat>>)
    requires Indexed(|positions|, triangles)
    ensures AreComponents(positions, triangles, groups)
  {
    var inverse := Inverse(positions);
    var parent := new nat[|UniqueRows(positions)|](i => i);
    ghost var depth := JoinAll(positions, triangles, inverse, parent);
    ghost var joined := MarksOf(inverse, parent[..], depth);
    var roots := AllRoots(parent, depth);
    var marks := seq(|positions|, i requires 0 <= i < |positions| => roots[inverse[i]]);
    assert marks == joined;
    LabelsAreConnection(positions, triangles, marks);
    GroupsAreComponents(positions, triangles, marks);
    groups := Groups(marks);
  }
}
