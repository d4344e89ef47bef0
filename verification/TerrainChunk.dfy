/**
 * One terrain chunk with its skirt, inside `build` of scripts/build_island_terrain.py: a grid of
 * w by h vertices, its perimeter walked once around, and a lower copy of the perimeter joined to it.
 * Vertices are first described by their place and numbered afterwards, so that the geometry is
 * settled without arithmetic on vertex numbers.
 */
module TerrainChunk {
  import opened Arithmetic
  import opened Common

  // ---------------------------------------------------------------------
  // The perimeter
  // ---------------------------------------------------------------------

  datatype Vertex = Top(x: int, z: int) | Low(k: int)

  function RingLength(w: int, h: int): int { 2 * w + 2 * h - 4 }

  /** The `k`-th perimeter vertex: top row, right column, bottom row backwards, left column upwards. */
  function Ring(w: int, h: int, k: int): Vertex {
    if k < w then Top(k, 0)
    else if k < w + h - 1 then Top(w - 1, k - w + 1)
    else if k < 2 * w + h - 2 then Top(2 * w + h - 3 - k, h - 1)
    else Top(0, 2 * w + 2 * h - 4 - k)
  }

  function RingIndex(w: int, h: int, x: int, z: int): int {
    if z == 0 then x
    else if x == w - 1 then w + z - 1
    else if z == h - 1 then 2 * w + h - 3 - x
    else 2 * w + 2 * h - 4 - z
  }

  predicate OnGrid(w: int, h: int, v: Vertex) {
    v.Top? && 0 <= v.x < w && 0 <= v.z < h
  }

  predicate OnBoundary(w: int, h: int, v: Vertex) {
    OnGrid(w, h, v) && (v.x == 0 || v.x == w - 1 || v.z == 0 || v.z == h - 1)
  }

  /** `(k + 1) % len(edge)`. */
  function Succ(w: int, h: int, k: int): int {
    if k + 1 == RingLength(w, h) then 0 else k + 1
  }

  function Pred(w: int, h: int, k: int): int {
    if k == 0 then RingLength(w, h) - 1 else k - 1
  }

  predicate Cardinal(a: Vertex, b: Vertex) {
    && a.Top? && b.Top?
    && ((a.x == b.x && (a.z == b.z + 1 || b.z == a.z + 1)) || (a.z == b.z && (a.x == b.x + 1 || b.x == a.x + 1)))
  }

  /** The perimeter visits each boundary vertex exactly once, and steps to a neighbour every time. */
  lemma RingVisitsOnce(w: int, h: int, k: int)
    requires w >= 2 && h >= 2 && 0 <= k < RingLength(w, h)
    ensures OnBoundary(w, h, Ring(w, h, k))
    ensures RingIndex(w, h, Ring(w, h, k).x, Ring(w, h, k).z) == k
    ensures Cardinal(Ring(w, h, k), Ring(w, h, Succ(w, h, k)))
  {
  }

  lemma RingVisitsAll(w: int, h: int, v: Vertex)
    requires w >= 2 && h >= 2 && OnBoundary(w, h, v)
    ensures 0 <= RingIndex(w, h, v.x, v.z) < RingLength(w, h) && Ring(w, h, RingIndex(w, h, v.x, v.z)) == v
  {
  }

  // ---------------------------------------------------------------------
  // Directed edges
  // ---------------------------------------------------------------------

  /** A side of a triangle: which grid cell or which perimeter step, and which of its six sides. */
  datatype Side = CellSide(x: int, z: int, s: int) | SkirtSide(k: int, s: int)

  predicate Valid(w: int, h: int, o: Side) {
    match o
    case CellSide(x, z, s) => 0 <= x < w - 1 && 0 <= z < h - 1 && 0 <= s < 6
    case SkirtSide(k, s) => 0 <= k < RingLength(w, h) && 0 <= s < 6
  }

  /** The corners of a triangle: two per cell, (a, c, b) and (a, d, c), and two per perimeter step. */
  function Corner(w: int, h: int, o: Side, turn: int): Vertex {
    match o
    case CellSide(x, z, s) =>
      var (a, b, c, d) := (Top(x, z), Top(x + 1, z), Top(x + 1, z + 1), Top(x, z + 1));
      if s < 3 then (if turn == 0 then a else if turn == 1 then c else b)
      else (if turn == 0 then a else if turn == 1 then d else c)
    case SkirtSide(k, s) =>
      var n := Succ(w, h, k);
      if s < 3 then (if turn == 0 then Ring(w, h, k) else if turn == 1 then Ring(w, h, n) else Low(n))
      else (if turn == 0 then Ring(w, h, k) else if turn == 1 then Low(n) else Low(k))
  }

  function From(w: int, h: int, o: Side): Vertex {
    Corner(w, h, o, if o.s < 3 then o.s else o.s - 3)
  }

  function To(w: int, h: int, o: Side): Vertex {
    Corner(w, h, o, if o.s == 2 || o.s == 5 then 0 else if o.s < 3 then o.s + 1 else o.s - 2)
  }

  /** Which side a directed edge must be. */
  function SideOf(w: int, h: int, a: Vertex, b: Vertex): Side {
    match (a, b)
    case (Top(x, z), Top(u, v)) =>
      if u == x + 1 && v == z + 1 then CellSide(x, z, 0)
      else if u == x - 1 && v == z - 1 then CellSide(u, v, 5)
      else if v == z - 1 then (if x == 0 then SkirtSide(RingIndex(w, h, x, z), 0) else CellSide(x - 1, v, 1))
      else if u == x - 1 then (if z == h - 1 then SkirtSide(RingIndex(w, h, x, z), 0) else CellSide(u, z, 2))
      else if v == z + 1 then (if x == w - 1 then SkirtSide(RingIndex(w, h, x, z), 0) else CellSide(x, z, 3))
      else (if z == 0 then SkirtSide(RingIndex(w, h, x, z), 0) else CellSide(x, z - 1, 4))
    case (Top(x, z), Low(k)) => SkirtSide(Pred(w, h, k), if Ring(w, h, k) == a then 1 else 3)
    case (Low(k), Top(_, _)) => if Ring(w, h, k) == b then SkirtSide(k, 5) else SkirtSide(Pred(w, h, k), 2)
    case (Low(_), Low(k)) => SkirtSide(k, 4)
  }

  /** Each directed edge occurs at most once: the edge determines the triangle and the side. */
  lemma EdgeDeterminesSide(w: int, h: int, o: Side)
    requires w >= 2 && h >= 2 && Valid(w, h, o)
    ensures SideOf(w, h, From(w, h, o), To(w, h, o)) == o
  {
    if o.SkirtSide? {
      RingVisitsOnce(w, h, o.k);
      RingVisitsOnce(w, h, Succ(w, h, o.k));
      assert Pred(w, h, Succ(w, h, o.k)) == o.k;
    }
  }

  /** The sides along the lower ring. */
  predicate LowerRing(o: Side) {
    o.SkirtSide? && o.s == 4
  }

  /** The directed edge at this side, and its reverse at the side that edge must be. */
  predicate Reversed(w: int, h: int, o: Side) {
    var r := SideOf(w, h, To(w, h, o), From(w, h, o));
    Valid(w, h, r) && From(w, h, r) == To(w, h, o) && To(w, h, r) == From(w, h, o)
  }

  /** Every other directed edge has its reverse. */
  lemma EdgeHasReverse(w: int, h: int, o: Side)
    requires w >= 2 && h >= 2 && Valid(w, h, o) && !LowerRing(o)
    ensures Reversed(w, h, o)
  {
    if o.CellSide? {
      CellReverse(w, h, o);
    } else if o.s == 0 {
      RimReverse(w, h, o.k);
    } else {
      SkirtReverse(w, h, o.k, o.s);
    }
  }

  lemma SkirtReverse(w: int, h: int, k: int, s: int)
    requires w >= 2 && h >= 2 && 0 <= k < RingLength(w, h) && s in {1, 2, 3, 5}
    ensures Reversed(w, h, SkirtSide(k, s))
  {
    RingVisitsOnce(w, h, k);
    RingVisitsOnce(w, h, Succ(w, h, k));
    assert Pred(w, h, Succ(w, h, k)) == k && Succ(w, h, Pred(w, h, k)) == k;
  }

  /** The rim of the surface runs against the perimeter. */
  lemma RimReverse(w: int, h: int, k: int)
    requires w >= 2 && h >= 2 && 0 <= k < RingLength(w, h)
    ensures Reversed(w, h, SkirtSide(k, 0))
  {
  }

  lemma CellReverse(w: int, h: int, o: Side)
    requires w >= 2 && h >= 2 && Valid(w, h, o) && o.CellSide?
    ensures Reversed(w, h, o)
  {
    var a, b := From(w, h, o), To(w, h, o);
    if OnBoundary(w, h, b) {
      RingVisitsAll(w, h, b);
    }
  }

  /** And an edge of the lower ring has none. */
  lemma LowerRingIsOpen(w: int, h: int, o: Side, other: Side)
    requires w >= 2 && h >= 2 && Valid(w, h, o) && Valid(w, h, other)
    ensures From(w, h, o).Low? && To(w, h, o).Low? <==> LowerRing(o)
    ensures LowerRing(o) ==> !(From(w, h, other) == To(w, h, o) && To(w, h, other) == From(w, h, o))
  {
  }

  // ---------------------------------------------------------------------
  // Vertex numbers and the list of faces
  // ---------------------------------------------------------------------

  /** Grid vertices row by row, then the lower ring. */
  function Index(w: int, h: int, v: Vertex): int {
    match v
    case Top(x, z) => z * w + x
    case Low(k) => w * h + k
  }

  predicate Exists(w: int, h: int, v: Vertex) {
    OnGrid(w, h, v) || (v.Low? && 0 <= v.k < RingLength(w, h))
  }

  lemma IndexIsOneToOne(w: int, h: int, a: Vertex, b: Vertex)
    requires w >= 2 && h >= 2 && Exists(w, h, a) && Exists(w, h, b) && Index(w, h, a) == Index(w, h, b)
    ensures a == b
  {
    if a.Top? {
      Bounded(w, a.z, h, a.x);
    }
    if b.Top? {
      Bounded(w, b.z, h, b.x);
    }
    if a.Top? && b.Top? {
      Radix(w, a.z, a.x, b.z, b.x);
    }
  }

  lemma IndexTellsLevel(w: int, h: int, v: Vertex)
    requires w >= 2 && h >= 2 && Exists(w, h, v)
    ensures Index(w, h, v) >= w * h <==> v.Low?
  {
    if v.Top? {
      Bounded(w, v.z, h, v.x);
    }
  }

  lemma CornersExist(w: int, h: int, o: Side)
    requires w >= 2 && h >= 2 && Valid(w, h, o)
    ensures forall turn :: Exists(w, h, Corner(w, h, o, turn))
  {
    if o.SkirtSide? {
      RingVisitsOnce(w, h, o.k);
      RingVisitsOnce(w, h, Succ(w, h, o.k));
    }
  }

  datatype Face = Face(a: int, b: int, c: int)

  function At(f: Face, turn: int): int {
    if turn == 0 then f.a else if turn == 1 then f.b else f.c
  }

  function FaceOf(w: int, h: int, o: Side): Face {
    Face(Index(w, h, Corner(w, h, o, 0)), Index(w, h, Corner(w, h, o, 1)), Index(w, h, Corner(w, h, o, 2)))
  }

  function SurfaceCount(w: int, h: int): int { 2 * ((h - 1) * (w - 1)) }

  function FaceCount(w: int, h: int): int { SurfaceCount(w, h) + 2 * RingLength(w, h) }

  /** Where the triangle with this side stands in the list. */
  function FaceNumber(w: int, h: int, o: Side): int {
    match o
    case CellSide(x, z, s) => 2 * (z * (w - 1) + x) + s / 3
    case SkirtSide(k, s) => SurfaceCount(w, h) + 2 * k + s / 3
  }

  /** The first side of the `i`-th triangle. */
  function FirstSide(w: int, h: int, i: int): Side
    requires w >= 2
  {
    if i < SurfaceCount(w, h) then
      var cell := i / 2;
      CellSide(cell % (w - 1), cell / (w - 1), 3 * (i % 2))
    else
      var j := i - SurfaceCount(w, h);
      SkirtSide(j / 2, 3 * (j % 2))
  }

  function SideAt(w: int, h: int, i: int, turn: int): Side
    requires w >= 2
  {
    match FirstSide(w, h, i)
    case CellSide(x, z, s) => CellSide(x, z, s + turn)
    case SkirtSide(k, s) => SkirtSide(k, s + turn)
  }

  /** The list's places and the sides correspond one to one. */
  lemma SideAtIsValid(w: int, h: int, i: int, turn: int)
    requires w >= 2 && h >= 2 && 0 <= i < FaceCount(w, h) && 0 <= turn < 3
    ensures Valid(w, h, SideAt(w, h, i, turn))
    ensures FaceNumber(w, h, SideAt(w, h, i, turn)) == i && SideAt(w, h, i, turn).s % 3 == turn
  {
    if i < SurfaceCount(w, h) {
      Quotient(i / 2, w - 1, h - 1);
    }
  }

  lemma EverySideIsListed(w: int, h: int, o: Side)
    requires w >= 2 && h >= 2 && Valid(w, h, o)
    ensures 0 <= FaceNumber(w, h, o) < FaceCount(w, h) && SideAt(w, h, FaceNumber(w, h, o), o.s % 3) == o
  {
    if o.CellSide? {
      Bounded(w - 1, o.z, h - 1, o.x);
      LastBlock(w - 1, o.z, o.z * (w - 1) + o.x);
      HalfOf(o.z * (w - 1) + o.x, o.s / 3);
    } else {
      HalfOf(o.k, o.s / 3);
    }
  }

  lemma HalfOf(q: int, r: int)
    requires 0 <= r < 2
    ensures (2 * q + r) / 2 == q && (2 * q + r) % 2 == r
  {
  }

  /** The faces of the chunk. */
  predicate Built(w: int, h: int, faces: seq<Face>)
    requires w >= 2
  {
    && |faces| == FaceCount(w, h)
    && forall i {:trigger faces[i]} :: 0 <= i < |faces| ==> faces[i] == FaceOf(w, h, FirstSide(w, h, i))
  }

  /** A directed edge of the list: its ends are the vertex numbers of the side's ends. */
  lemma EdgeEnds(w: int, h: int, faces: seq<Face>, i: int, turn: int)
    requires w >= 2 && h >= 2 && Built(w, h, faces) && 0 <= i < |faces| && 0 <= turn < 3
    ensures var o := SideAt(w, h, i, turn);
            && Valid(w, h, o) && Exists(w, h, From(w, h, o)) && Exists(w, h, To(w, h, o))
            && At(faces[i], turn) == Index(w, h, From(w, h, o))
            && At(faces[i], (turn + 1) % 3) == Index(w, h, To(w, h, o))
  {
    SideAtIsValid(w, h, i, turn);
    SideAtIsValid(w, h, i, 0);
    CornersExist(w, h, SideAt(w, h, i, turn));
    assert turn == 0 || turn == 1 || turn == 2;
  }

  predicate IsEdge(faces: seq<Face>, i: int, turn: int, from: int, to: int) {
    0 <= i < |faces| && 0 <= turn < 3 && At(faces[i], turn) == from && At(faces[i], (turn + 1) % 3) == to
  }

  /** Surface and skirt are consistently oriented: no directed edge occurs twice. */
  lemma DirectedEdgesAreUnique(w: int, h: int, faces: seq<Face>, i: int, s: int, j: int, t: int, from: int, to: int)
    requires w >= 2 && h >= 2 && Built(w, h, faces)
    requires IsEdge(faces, i, s, from, to) && IsEdge(faces, j, t, from, to)
    ensures i == j && s == t
  {
    EdgeEnds(w, h, faces, i, s);
    EdgeEnds(w, h, faces, j, t);
    var o, p := SideAt(w, h, i, s), SideAt(w, h, j, t);
    IndexIsOneToOne(w, h, From(w, h, o), From(w, h, p));
    IndexIsOneToOne(w, h, To(w, h, o), To(w, h, p));
    EdgeDeterminesSide(w, h, o);
    EdgeDeterminesSide(w, h, p);
    SideAtIsValid(w, h, i, s);
    SideAtIsValid(w, h, j, t);
  }

  /** A directed edge has its reverse in the list exactly when it is not on the lower ring. */
  lemma OnlyTheLowerRingIsOpen(w: int, h: int, faces: seq<Face>, i: int, s: int, from: int, to: int)
    requires w >= 2 && h >= 2 && Built(w, h, faces) && IsEdge(faces, i, s, from, to)
    ensures (exists j, t :: IsEdge(faces, j, t, to, from)) <==> !(from >= w * h && to >= w * h)
    ensures from >= w * h && to >= w * h ==> 0 <= to - w * h < RingLength(w, h) && from == w * h + Succ(w, h, to - w * h)
  {
    EdgeEnds(w, h, faces, i, s);
    var o := SideAt(w, h, i, s);
    IndexTellsLevel(w, h, From(w, h, o));
    IndexTellsLevel(w, h, To(w, h, o));
    LowerRingIsOpen(w, h, o, o);
    if LowerRing(o) {
      forall j, t | IsEdge(faces, j, t, to, from)
        ensures false
      {
        EdgeEnds(w, h, faces, j, t);
        var p := SideAt(w, h, j, t);
        IndexIsOneToOne(w, h, From(w, h, p), To(w, h, o));
        IndexIsOneToOne(w, h, To(w, h, p), From(w, h, o));
        LowerRingIsOpen(w, h, o, p);
      }
    } else {
      EdgeHasReverse(w, h, o);
      var r := SideOf(w, h, To(w, h, o), From(w, h, o));
      EverySideIsListed(w, h, r);
      EdgeEnds(w, h, faces, FaceNumber(w, h, r), r.s % 3);
      assert IsEdge(faces, FaceNumber(w, h, r), r.s % 3, to, from);
    }
  }

  /** The open edges are the lower ring, once around, against the perimeter. */
  lemma TheLowerRingIsThere(w: int, h: int, faces: seq<Face>, k: int)
    requires w >= 2 && h >= 2 && Built(w, h, faces) && 0 <= k < RingLength(w, h)
    ensures IsEdge(faces, SurfaceCount(w, h) + 2 * k + 1, 1, w * h + Succ(w, h, k), w * h + k)
  {
    var o := SkirtSide(k, 4);
    EverySideIsListed(w, h, o);
    EdgeEnds(w, h, faces, FaceNumber(w, h, o), 1);
  }

  // ---------------------------------------------------------------------
  // The loops
  // ---------------------------------------------------------------------

  /** `[z*w+x ...]` along the four stretches of the perimeter. */
  function Edge(w: int, h: int): (edge: seq<int>)
    requires w >= 2 && h >= 2
    ensures |edge| == RingLength(w, h)
  {
    seq(w, k requires 0 <= k < w => k)
    + seq(h - 1, k requires 0 <= k < h - 1 => (k + 1) * w + w - 1)
    + seq(w - 1, k requires 0 <= k < w - 1 => (h - 1) * w + w - 2 - k)
    + seq(h - 2, k requires 0 <= k < h - 2 => (h - 2 - k) * w)
  }

  /** The list of indices is the walk around the perimeter. */
  lemma EdgeIsRing(w: int, h: int, k: int)
    requires w >= 2 && h >= 2 && 0 <= k < RingLength(w, h)
    ensures Edge(w, h)[k] == Index(w, h, Ring(w, h, k))
  {
    if w <= k < w + h - 1 {
      assert Edge(w, h)[k] == (k - w + 1) * w + w - 1;
    } else if w + h - 1 <= k < 2 * w + h - 2 {
      assert Edge(w, h)[k] == (h - 1) * w + w - 2 - (k - (w + h - 1));
    } else if 2 * w + h - 2 <= k {
      assert Edge(w, h)[k] == (h - 2 - (k - (2 * w + h - 2))) * w;
    }
  }

  /** `z*w+x` and the numbers derived from it are the corners of the cell's two triangles. */
  lemma CellFaces(w: int, h: int, x: int, z: int)
    requires w >= 2 && h >= 2 && 0 <= x < w - 1 && 0 <= z < h - 1
    ensures var q, a := z * (w - 1) + x, z * w + x;
            && 0 <= 2 * q && 2 * q + 1 < SurfaceCount(w, h)
            && FaceOf(w, h, FirstSide(w, h, 2 * q)) == Face(a, a + w + 1, a + 1)
            && FaceOf(w, h, FirstSide(w, h, 2 * q + 1)) == Face(a, a + w, a + w + 1)
  {
    EverySideIsListed(w, h, CellSide(x, z, 0));
    EverySideIsListed(w, h, CellSide(x, z, 3));
    Bounded(w - 1, z, h - 1, x);
    assert (z + 1) * w == z * w + w;
  }

  /** `edge` and `lower` list the perimeter and its lower copy. */
  predicate Rings(w: int, h: int, edge: seq<int>, lower: seq<int>) {
    && |edge| == |lower| == RingLength(w, h)
    && forall k {:trigger edge[k]} {:trigger lower[k]} :: 0 <= k < |edge| ==>
         edge[k] == Index(w, h, Ring(w, h, k)) && lower[k] == Index(w, h, Low(k))
  }

  lemma Around(k: int, n: int)
    requires 0 <= k < n
    ensures (k + 1) % n == if k + 1 == n then 0 else k + 1
  {
  }

  lemma SkirtFaces(w: int, h: int, edge: seq<int>, lower: seq<int>, k: int)
    requires w >= 2 && h >= 2 && Rings(w, h, edge, lower) && 0 <= k < |edge|
    ensures var i, n := SurfaceCount(w, h) + 2 * k, (k + 1) % |edge|;
            && FaceOf(w, h, FirstSide(w, h, i)) == Face(edge[k], edge[n], lower[n])
            && FaceOf(w, h, FirstSide(w, h, i + 1)) == Face(edge[k], lower[n], lower[k])
  {
    EverySideIsListed(w, h, SkirtSide(k, 0));
    EverySideIsListed(w, h, SkirtSide(k, 3));
    Around(k, |edge|);
  }

  /** The first faces of the list. */
  predicate BuiltTo(w: int, h: int, faces: seq<Face>)
    requires w >= 2
  {
    forall i {:trigger faces[i]} :: 0 <= i < |faces| ==> faces[i] == FaceOf(w, h, FirstSide(w, h, i))
  }

  lemma TwoMore(w: int, h: int, faces: seq<Face>, f: Face, g: Face)
    requires w >= 2 && BuiltTo(w, h, faces)
    requires FaceOf(w, h, FirstSide(w, h, |faces|)) == f && FaceOf(w, h, FirstSide(w, h, |faces| + 1)) == g
    ensures BuiltTo(w, h, faces + [f, g])
  {
  }

  /** One row of cells. */
  method SurfaceRow(w: int, h: int, z: int, before: seq<Face>) returns (faces: seq<Face>)
    requires w >= 2 && h >= 2 && 0 <= z < h - 1
    requires |before| == 2 * (z * (w - 1)) && BuiltTo(w, h, before)
    ensures |faces| == 2 * (z * (w - 1) + (w - 1)) && BuiltTo(w, h, faces)
  {
    faces := before;
    ghost var row := z * (w - 1);
    for x := 0 to w - 1
      invariant |faces| == 2 * (row + x) && BuiltTo(w, h, faces)
    {
      var a := z * w + x;
      var b, d := a + 1, a + w;
      var c := d + 1;
      CellFaces(w, h, x, z);
      TwoMore(w, h, faces, Face(a, c, b), Face(a, d, c));
      faces := faces + [Face(a, c, b), Face(a, d, c)];
    }
  }

  method Surface(w: int, h: int) returns (faces: seq<Face>)
    requires w >= 2 && h >= 2
    ensures |faces| == SurfaceCount(w, h) && BuiltTo(w, h, faces)
  {
    faces := [];
    for z := 0 to h - 1
      invariant |faces| == 2 * (z * (w - 1)) && BuiltTo(w, h, faces)
    {
      faces := SurfaceRow(w, h, z, faces);
      assert (z + 1) * (w - 1) == z * (w - 1) + (w - 1);
    }
  }

  /** The lower copies of the perimeter vertices, numbered from the end of the grid. */
  method Lower(count: int, vertices: int) returns (lower: seq<int>)
    requires count >= 0
    ensures |lower| == count && forall i :: 0 <= i < count ==> lower[i] == vertices + i
  {
    lower := [];
    for k := 0 to count
      invariant |lower| == k && forall i :: 0 <= i < k ==> lower[i] == vertices + i
    {
      lower := lower + [vertices + k];
    }
  }

  method Skirt(w: int, h: int, edge: seq<int>, lower: seq<int>, surface: seq<Face>) returns (faces: seq<Face>)
    requires w >= 2 && h >= 2 && Rings(w, h, edge, lower)
    requires |surface| == SurfaceCount(w, h) && BuiltTo(w, h, surface)
    ensures Built(w, h, faces)
  {
    faces := surface;
    ghost var first := |surface|;
    for k := 0 to |edge|
      invariant |faces| == first + 2 * k && BuiltTo(w, h, faces)
    {
      var a, n := edge[k], (k + 1) % |edge|;
      SkirtFaces(w, h, edge, lower, k);
      TwoMore(w, h, faces, Face(a, edge[n], lower[n]), Face(a, lower[n], lower[k]));
      faces := faces + [Face(a, edge[n], lower[n]), Face(a, lower[n], lower[k])];
    }
  }

  /** The chunk: its surface, the perimeter, the lower vertices, and the skirt. */
  method BuildChunk(w: int, h: int) returns (edge: seq<int>, lower: seq<int>, faces: seq<Face>)
    requires w >= 2 && h >= 2
    ensures Rings(w, h, edge, lower) && Built(w, h, faces)
  {
    var surface := Surface(w, h);
    edge := Edge(w, h);
    lower := Lower(|edge|, w * h);
    forall k | 0 <= k < |edge|
      ensures edge[k] == Index(w, h, Ring(w, h, k))
    {
      EdgeIsRing(w, h, k);
    }
    faces := Skirt(w, h, edge, lower, surface);
  }

  /** The number of samples `range(from, min(from + 32, end) + 1, step)` takes. */
  function Samples(from: int, end: int, step: int): int
    requires step > 0
  {
    ((if from + 32 < end then from + 32 else end) - from) / step + 1
  }

  /**
   * Every chunk of a grid whose size is a multiple of four is at least two by two, and at every level of
   * detail its last sample is the first one of the next chunk, or the border of the grid.
   */
  lemma ChunksMeet(i: int, n: int, step: int)
    requires n % 4 == 0 && i % 32 == 0 && 0 <= i < n && step in {1, 2, 4}
    ensures Samples(i, n, step) >= 2
    ensures i + (Samples(i, n, step) - 1) * step == if i + 32 < n then i + 32 else n
  {
    var span := (if i + 32 < n then i + 32 else n) - i;
    StepsFit(span, step);
    assert Samples(i, n, step) == span / step + 1;
  }

  lemma StepsFit(span: int, step: int)
    requires span > 0 && span % 4 == 0 && step in {1, 2, 4}
    ensures span / step >= 1 && span / step * step == span
  {
    if step == 1 {
      assert span / 1 * 1 == span;
    } else if step == 2 {
      assert span / 2 * 2 == span;
    } else {
      assert span / 4 * 4 == span;
    }
  }
}
