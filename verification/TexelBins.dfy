/** The binned triangle search of scripts/build_geneforge_creature_parts.py. */
module TexelBins {
  // Triangles are put into the texels their bounding boxes cover, and a texel looks for its triangle in
  // its own bin only, by the `barycentric_weights` of scripts/geneforge_blender_worker.py. Numbers are
  // exact reals.

  import opened Common

  datatype UV = UV(u: real, v: real)
  datatype Triangle = Triangle(face: nat, group: int, a: UV, b: UV, c: UV)
  datatype Weights = Weights(a: real, b: real, c: real)

  const DEGENERATE: real := 0.000000000001  // 1e-12
  const TOLERANCE: real := 0.000000001      // 1e-9

  function Min(x: real, y: real): real { if x < y then x else y }
  function Max(x: real, y: real): real { if x > y then x else y }

  // ---------------------------------------------------------------------
  // Barycentric weights
  // ---------------------------------------------------------------------

  function Denominator(t: Triangle): real {
    (t.b.v - t.c.v) * (t.a.u - t.c.u) + (t.c.u - t.b.u) * (t.a.v - t.c.v)
  }

  function Degenerate(t: Triangle): bool {
    -DEGENERATE <= Denominator(t) <= DEGENERATE
  }

  function RawWeights(p: UV, t: Triangle): Weights
    requires Denominator(t) != 0.0
  {
    var first := ((t.b.v - t.c.v) * (p.u - t.c.u) + (t.c.u - t.b.u) * (p.v - t.c.v)) / Denominator(t);
    var second := ((t.c.v - t.a.v) * (p.u - t.c.u) + (t.a.u - t.c.u) * (p.v - t.c.v)) / Denominator(t);
    Weights(first, second, 1.0 - first - second)
  }

  function Least(w: Weights): real {
    Min(w.a, Min(w.b, w.c))
  }

  /** `barycentric_weights`: None for a degenerate triangle or a point clearly outside. */
  function Barycentric(p: UV, t: Triangle): Option<Weights> {
    if Degenerate(t) then None
    else
      var w := RawWeights(p, t);
      if Least(w) < -TOLERANCE then None else Some(w)
  }

  function Combine(w: Weights, x: real, y: real, z: real): real {
    w.a * x + w.b * y + w.c * z
  }

  /** The identity behind the weights, before the division. */
  lemma Cramer(A: real, A': real, B: real, B': real, X: real, Y: real)
    ensures (B' * X - B * Y) * A + (A * Y - A' * X) * B == (B' * A - B * A') * X
    ensures (B' * X - B * Y) * A' + (A * Y - A' * X) * B' == (B' * A - B * A') * Y
  {
    assert (B' * X - B * Y) * A == B' * X * A - B * Y * A;
    assert (A * Y - A' * X) * B == A * Y * B - A' * X * B;
    assert (B' * X - B * Y) * A' == B' * X * A' - B * Y * A';
    assert (A * Y - A' * X) * B' == A * Y * B' - A' * X * B';
    assert (B' * A - B * A') * X == B' * A * X - B * A' * X;
    assert (B' * A - B * A') * Y == B' * A * Y - B * A' * Y;
  }

  lemma Divided(m: real, n: real, d: real, x: real, y: real, z: real)
    requires d != 0.0 && m * x + n * y == d * z
    ensures (m / d) * x + (n / d) * y == z
  {
    assert (m / d) * x == (m * x) / d;
    assert (n / d) * y == (n * y) / d;
    assert (m * x) / d + (n * y) / d == (m * x + n * y) / d;
  }

  /** The weights reconstruct the point. */
  lemma WeightsReconstruct(p: UV, t: Triangle)
    requires Denominator(t) != 0.0
    ensures var w := RawWeights(p, t);
            Combine(w, t.a.u, t.b.u, t.c.u) == p.u && Combine(w, t.a.v, t.b.v, t.c.v) == p.v
  {
    var A, A', B, B' := t.a.u - t.c.u, t.a.v - t.c.v, t.b.u - t.c.u, t.b.v - t.c.v;
    var X, Y, d := p.u - t.c.u, p.v - t.c.v, Denominator(t);
    var m, n := B' * X - B * Y, A * Y - A' * X;
    var w := RawWeights(p, t);
    assert d == B' * A - B * A' by {
      assert (t.c.u - t.b.u) * A' == -(B * A');
    }
    assert w.a == m / d && w.b == n / d by {
      assert (t.c.u - t.b.u) * Y == -(B * Y);
      assert (t.c.v - t.a.v) * X == -(A' * X);
    }
    Cramer(A, A', B, B', X, Y);
    Divided(m, n, d, A, B, X);
    Divided(m, n, d, A', B', Y);
    FromDifferences(w, t.a.u, t.b.u, t.c.u, X);
    FromDifferences(w, t.a.v, t.b.v, t.c.v, Y);
  }

  lemma FromDifferences(w: Weights, x: real, y: real, z: real, difference: real)
    requires w.c == 1.0 - w.a - w.b && w.a * (x - z) + w.b * (y - z) == difference
    ensures Combine(w, x, y, z) == difference + z
  {
    assert w.a * (x - z) == w.a * x - w.a * z;
    assert w.b * (y - z) == w.b * y - w.b * z;
    assert w.c * z == z - w.a * z - w.b * z;
  }

  lemma Product(x: real, y: real)
    requires x >= 0.0 && y >= 0.0
    ensures x * y >= 0.0
  {
  }

  /** A convex combination lies between the extremes. */
  lemma Convex(w: Weights, x: real, y: real, z: real)
    requires w.a >= 0.0 && w.b >= 0.0 && w.c >= 0.0 && w.a + w.b + w.c == 1.0
    ensures Min(x, Min(y, z)) <= Combine(w, x, y, z) <= Max(x, Max(y, z))
  {
    var low, high := Min(x, Min(y, z)), Max(x, Max(y, z));
    Product(w.a, x - low);
    Product(w.b, y - low);
    Product(w.c, z - low);
    Product(w.a, high - x);
    Product(w.b, high - y);
    Product(w.c, high - z);
    Spread(w, low);
    Spread(w, high);
    assert w.a * (x - low) == w.a * x - w.a * low && w.a * (high - x) == w.a * high - w.a * x;
    assert w.b * (y - low) == w.b * y - w.b * low && w.b * (high - y) == w.b * high - w.b * y;
    assert w.c * (z - low) == w.c * z - w.c * low && w.c * (high - z) == w.c * high - w.c * z;
  }

  lemma Spread(w: Weights, m: real)
    requires w.a + w.b + w.c == 1.0
    ensures w.a * m + w.b * m + w.c * m == m
  {
    assert w.a * m + w.b * m + w.c * m == (w.a + w.b + w.c) * m;
  }

  // ---------------------------------------------------------------------
  // Boxes
  // ---------------------------------------------------------------------

  function Ceiling(x: real): int {
    -((-x).Floor)
  }

  /** The texel range of one coordinate of a triangle: from `First` to `Last`. */
  function First(low: real, size: nat): int {
    var c := Ceiling(low * size as real - 0.5 - TOLERANCE);
    if c < 0 then 0 else c
  }

  function Last(high: real, size: nat): int {
    var f := (high * size as real - 0.5 + TOLERANCE).Floor;
    if f > size - 1 then size - 1 else f
  }

  /** The texels whose bins hold the triangle. */
  predicate Covers(t: Triangle, x: int, y: int, width: nat, height: nat) {
    && First(Min(t.a.u, Min(t.b.u, t.c.u)), width) <= x <= Last(Max(t.a.u, Max(t.b.u, t.c.u)), width)
    && First(Min(t.a.v, Min(t.b.v, t.c.v)), height) <= y <= Last(Max(t.a.v, Max(t.b.v, t.c.v)), height)
  }

  function Centre(x: int, y: int, width: nat, height: nat): UV
    requires width > 0 && height > 0
  {
    UV((x as real + 0.5) / width as real, (y as real + 0.5) / height as real)
  }

  lemma Rounded(low: real, high: real, size: nat, k: int)
    requires 0 <= k < size
    requires low * size as real - 0.5 - TOLERANCE <= k as real <= high * size as real - 0.5 + TOLERANCE
    ensures First(low, size) <= k <= Last(high, size)
  {
  }

  /** A coordinate between the extremes falls into the range. */
  lemma InRange(low: real, high: real, size: nat, k: int)
    requires 0 <= k < size && low <= (k as real + 0.5) / size as real <= high
    ensures First(low, size) <= k <= Last(high, size)
  {
    var n, c := size as real, (k as real + 0.5) / size as real;
    assert c * n == k as real + 0.5;
    Product(c - low, n);
    Product(high - c, n);
    assert (c - low) * n == c * n - low * n && (high - c) * n == high * n - c * n;
    Rounded(low, high, size, k);
  }

  /** A triangle that contains the texel's centre, weights all non-negative, is in the texel's bin. */
  lemma ContainedIsBinned(t: Triangle, x: int, y: int, width: nat, height: nat)
    requires 0 <= x < width && 0 <= y < height
    requires var w := Barycentric(Centre(x, y, width, height), t); w.Some? && Least(w.value) >= 0.0
    ensures Covers(t, x, y, width, height)
  {
    var p := Centre(x, y, width, height);
    var w := RawWeights(p, t);
    WeightsReconstruct(p, t);
    Convex(w, t.a.u, t.b.u, t.c.u);
    Convex(w, t.a.v, t.b.v, t.c.v);
    InRange(Min(t.a.u, Min(t.b.u, t.c.u)), Max(t.a.u, Max(t.b.u, t.c.u)), width, x);
    InRange(Min(t.a.v, Min(t.b.v, t.c.v)), Max(t.a.v, Max(t.b.v, t.c.v)), height, y);
  }

  // ---------------------------------------------------------------------
  // Filling the bins
  // ---------------------------------------------------------------------

  datatype Bin = Bin(group: int, x: int, y: int)

  /** `exact_bins.get(bin, ())`. */
  function Entry(bins: map<Bin, seq<Triangle>>, bin: Bin): seq<Triangle> {
    if bin in bins then bins[bin] else []
  }

  predicate Belongs(t: Triangle, bin: Bin, width: nat, height: nat) {
    t.group == bin.group && Covers(t, bin.x, bin.y, width, height)
  }

  /** The triangles whose boxes cover a bin, in order. */
  function Boxed(triangles: seq<Triangle>, bin: Bin, width: nat, height: nat): (boxed: seq<Triangle>)
    ensures forall t :: t in boxed <==> t in triangles && Belongs(t, bin, width, height)
  {
    if triangles == [] then []
    else
      var init, last := triangles[..|triangles| - 1], triangles[|triangles| - 1];
      assert triangles == init + [last];
      var rest := Boxed(init, bin, width, height);
      if Belongs(last, bin, width, height) then rest + [last] else rest
  }

  /** `before` with `t` appended to the bins of a rectangle of texels. */
  ghost predicate AddedTo(before: map<Bin, seq<Triangle>>, after: map<Bin, seq<Triangle>>, t: Triangle, x0: int, x1: int, y0: int, y1: int) {
    forall bin {:trigger Entry(after, bin)} ::
      Entry(after, bin) == Entry(before, bin) +
        if bin.group == t.group && x0 <= bin.x < x1 && y0 <= bin.y < y1 then [t] else []
  }

  lemma OneMoreBin(before: map<Bin, seq<Triangle>>, now: map<Bin, seq<Triangle>>, t: Triangle, x0: int, x: int, y: int)
    requires AddedTo(before, now, t, x0, x, y, y + 1) && x0 <= x
    ensures var bin := Bin(t.group, x, y);
            AddedTo(before, now[bin := Entry(now, bin) + [t]], t, x0, x + 1, y, y + 1)
  {
    var bin := Bin(t.group, x, y);
    var after := now[bin := Entry(now, bin) + [t]];
    forall other
      ensures Entry(after, other) == Entry(before, other) +
                if other.group == t.group && x0 <= other.x < x + 1 && y <= other.y < y + 1 then [t] else []
    {
      assert Entry(now, other) == Entry(before, other) +
               if other.group == t.group && x0 <= other.x < x && y <= other.y < y + 1 then [t] else [];
    }
  }

  lemma OneMoreRow(before: map<Bin, seq<Triangle>>, now: map<Bin, seq<Triangle>>, after: map<Bin, seq<Triangle>>,
                   t: Triangle, x0: int, x1: int, y0: int, y: int)
    requires y0 <= y && AddedTo(before, now, t, x0, x1, y0, y) && AddedTo(now, after, t, x0, x1, y, y + 1)
    ensures AddedTo(before, after, t, x0, x1, y0, y + 1)
  {
    forall bin
      ensures Entry(after, bin) == Entry(before, bin) +
                if bin.group == t.group && x0 <= bin.x < x1 && y0 <= bin.y < y + 1 then [t] else []
    {
      assert Entry(now, bin) == Entry(before, bin) +
               if bin.group == t.group && x0 <= bin.x < x1 && y0 <= bin.y < y then [t] else [];
    }
  }

  method AddRow(before: map<Bin, seq<Triangle>>, t: Triangle, x0: int, x1: int, y: int) returns (bins: map<Bin, seq<Triangle>>)
    ensures AddedTo(before, bins, t, x0, x1, y, y + 1)
  {
    bins := before;
    var x := x0;
    while x < x1
      invariant x0 <= x && (x <= x1 || x == x0) && AddedTo(before, bins, t, x0, x, y, y + 1)
    {
      OneMoreBin(before, bins, t, x0, x, y);
      var bin := Bin(t.group, x, y);
      bins := bins[bin := Entry(bins, bin) + [t]];
      x := x + 1;
    }
  }

  /** One triangle goes into every bin its box covers. */
  method AddTriangle(before: map<Bin, seq<Triangle>>, t: Triangle, width: nat, height: nat) returns (bins: map<Bin, seq<Triangle>>)
    ensures forall bin {:trigger Entry(bins, bin)} ::
              Entry(bins, bin) == Entry(before, bin) + if Belongs(t, bin, width, height) then [t] else []
  {
    var x0 := First(Min(t.a.u, Min(t.b.u, t.c.u)), width);
    var x1 := Last(Max(t.a.u, Max(t.b.u, t.c.u)), width) + 1;
    var y0 := First(Min(t.a.v, Min(t.b.v, t.c.v)), height);
    var y1 := Last(Max(t.a.v, Max(t.b.v, t.c.v)), height) + 1;
    bins := before;
    var y := y0;
    while y < y1
      invariant y0 <= y && (y <= y1 || y == y0) && AddedTo(before, bins, t, x0, x1, y0, y)
    {
      ghost var now := bins;
      bins := AddRow(bins, t, x0, x1, y);
      OneMoreRow(before, now, bins, t, x0, x1, y0, y);
      y := y + 1;
    }
  }

  method FillBins(triangles: seq<Triangle>, width: nat, height: nat) returns (bins: map<Bin, seq<Triangle>>)
    ensures forall bin {:trigger Entry(bins, bin)} :: Entry(bins, bin) == Boxed(triangles, bin, width, height)
  {
    bins := map[];
    for i := 0 to |triangles|
      invariant forall bin {:trigger Entry(bins, bin)} :: Entry(bins, bin) == Boxed(triangles[..i], bin, width, height)
    {
      ghost var now := bins;
      bins := AddTriangle(bins, triangles[i], width, height);
      assert triangles[..i + 1][..i] == triangles[..i];
      forall bin
        ensures Entry(bins, bin) == Boxed(triangles[..i + 1], bin, width, height)
      {
        assert Entry(now, bin) == Boxed(triangles[..i], bin, width, height);
      }
    }
    assert triangles[..|triangles|] == triangles;
  }

  // ---------------------------------------------------------------------
  // Choosing
  // ---------------------------------------------------------------------

  /** The order of `(-min(weights), face)`. */
  predicate Better(a: Triangle, b: Triangle, p: UV)
    requires Barycentric(p, a).Some? && Barycentric(p, b).Some?
  {
    var x, y := Least(Barycentric(p, a).value), Least(Barycentric(p, b).value);
    x > y || (x == y && a.face <= b.face)
  }

  /** The first of the list under that order, among those that have weights. */
  predicate IsBest(list: seq<Triangle>, p: UV, best: Triangle) {
    && best in list && Barycentric(p, best).Some?
    && forall t :: t in list && Barycentric(p, t).Some? ==> Better(best, t, p)
  }

  predicate NoneFits(list: seq<Triangle>, p: UV) {
    forall t :: t in list ==> Barycentric(p, t).None?
  }

  /** The loop over candidates and the `min` of what it collects. */
  method Best(list: seq<Triangle>, p: UV) returns (r: Option<Triangle>)
    ensures r.None? <==> NoneFits(list, p)
    ensures r.Some? ==> IsBest(list, p, r.value)
  {
    r := None;
    for i := 0 to |list|
      invariant r.None? <==> NoneFits(list[..i], p)
      invariant r.Some? ==> IsBest(list[..i], p, r.value)
    {
      var t := list[i];
      TakeOneMore(list, i);
      if Barycentric(p, t).Some? && (r.None? || !Better(r.value, t, p)) {
        r := Some(t);
      }
    }
    assert list[..|list|] == list;
  }

  /** Every triangle of the texel's groups. */
  function SameGroup(triangles: seq<Triangle>, groups: set<int>): (list: seq<Triangle>)
    ensures forall t :: t in list <==> t in triangles && t.group in groups
  {
    if triangles == [] then []
    else
      assert triangles == triangles[..|triangles| - 1] + [triangles[|triangles| - 1]];
      var rest, last := SameGroup(triangles[..|triangles| - 1], groups), triangles[|triangles| - 1];
      if last.group in groups then rest + [last] else rest
  }

  /** The bins of the texel's groups, one after another. */
  method Binned(bins: map<Bin, seq<Triangle>>, groups: seq<int>, x: int, y: int, ghost triangles: seq<Triangle>, ghost width: nat, ghost height: nat)
    returns (list: seq<Triangle>)
    requires forall bin {:trigger Entry(bins, bin)} :: Entry(bins, bin) == Boxed(triangles, bin, width, height)
    ensures forall t :: t in list <==> t in triangles && t.group in groups && Covers(t, x, y, width, height)
  {
    list := [];
    for i := 0 to |groups|
      invariant forall t :: t in list <==> t in triangles && t.group in groups[..i] && Covers(t, x, y, width, height)
    {
      TakeOneMore(groups, i);
      list := list + Entry(bins, Bin(groups[i], x, y));
    }
    assert groups[..|groups|] == groups;
  }

  // ---------------------------------------------------------------------
  // The bin against all triangles
  // ---------------------------------------------------------------------

  /** Faces are numbered as they are read, so a face number names one triangle. */
  predicate FacesAreUnique(triangles: seq<Triangle>) {
    forall s, t :: s in triangles && t in triangles && s.face == t.face ==> s == t
  }

  /** Distinct faces leave no choice: the order has one first triangle. */
  lemma BestIsUnique(list: seq<Triangle>, p: UV, a: Triangle, b: Triangle)
    requires IsBest(list, p, a) && IsBest(list, p, b) && FacesAreUnique(list)
    ensures a == b
  {
  }

  predicate Contains(t: Triangle, p: UV) {
    Barycentric(p, t).Some? && Least(Barycentric(p, t).value) >= 0.0
  }

  /** The triangles that a texel finds in its bins. */
  function Covering(list: seq<Triangle>, x: int, y: int, width: nat, height: nat): (found: seq<Triangle>)
    ensures forall t :: t in found <==> t in list && Covers(t, x, y, width, height)
  {
    if list == [] then []
    else
      assert list == [list[0]] + list[1..];
      var rest := Covering(list[1..], x, y, width, height);
      if Covers(list[0], x, y, width, height) then [list[0]] + rest else rest
  }

  /** Binning loses nothing when any triangle contains the texel's centre. */
  lemma BinnedIsBruteForce(all: seq<Triangle>, x: int, y: int, width: nat, height: nat, inside: Triangle)
    requires 0 <= x < width && 0 <= y < height
    requires inside in all && Contains(inside, Centre(x, y, width, height))
    ensures SearchesAgree(all, x, y, width, height)
  {
    var p := Centre(x, y, width, height);
    forall t | t in all && Contains(t, p)
      ensures t in Covering(all, x, y, width, height)
    {
      ContainedIsBinned(t, x, y, width, height);
    }
    forall best
      ensures IsBest(Covering(all, x, y, width, height), p, best) <==> IsBest(all, p, best)
    {
      if IsBest(Covering(all, x, y, width, height), p, best) || IsBest(all, p, best) {
        assert Better(best, inside, p);
      }
    }
  }

  /** The search in the bin and the search over the whole list choose alike. */
  ghost predicate SearchesAgree(list: seq<Triangle>, x: int, y: int, width: nat, height: nat)
    requires width > 0 && height > 0
  {
    var p := Centre(x, y, width, height);
    forall best :: IsBest(Covering(list, x, y, width, height), p, best) <==> IsBest(list, p, best)
  }

  predicate Part(list: seq<Triangle>, all: seq<Triangle>) {
    forall t :: t in list ==> t in all
  }

  /** Every triangle with weights at the texel's centre is in the texel's bin. */
  predicate WeighedAreBinned(all: seq<Triangle>, x: int, y: int, width: nat, height: nat)
    requires width > 0 && height > 0
  {
    forall t :: t in all && Barycentric(Centre(x, y, width, height), t).Some? ==> Covers(t, x, y, width, height)
  }

  /**
   * Without a containing triangle the searches may differ. Whatever part of the triangles a texel's
   * groups select, they choose alike if and only if the bin holds every triangle that has weights.
   */
  lemma AgreeExactly(all: seq<Triangle>, x: int, y: int, width: nat, height: nat)
    requires width > 0 && height > 0
    ensures (forall list :: Part(list, all) ==> SearchesAgree(list, x, y, width, height))
            <==> WeighedAreBinned(all, x, y, width, height)
  {
    var p := Centre(x, y, width, height);
    if WeighedAreBinned(all, x, y, width, height) {
      forall list | Part(list, all)
        ensures SearchesAgree(list, x, y, width, height)
      {
        BinnedAgree(list, x, y, width, height);
      }
    } else {
      var t :| t in all && Barycentric(p, t).Some? && !Covers(t, x, y, width, height);
      assert Part([t], all) && IsBest([t], p, t);
      assert t !in Covering([t], x, y, width, height);
      assert !SearchesAgree([t], x, y, width, height);
    }
  }

  lemma BinnedAgree(list: seq<Triangle>, x: int, y: int, width: nat, height: nat)
    requires width > 0 && height > 0 && WeighedAreBinned(list, x, y, width, height)
    ensures SearchesAgree(list, x, y, width, height)
  {
  }

  /** The box of the triangle is at most `extent` texels wide and high. */
  predicate SpansAtMost(t: Triangle, extent: real, width: nat, height: nat) {
    && (Max(t.a.u, Max(t.b.u, t.c.u)) - Min(t.a.u, Min(t.b.u, t.c.u))) * width as real <= extent
    && (Max(t.a.v, Max(t.b.v, t.c.v)) - Min(t.a.v, Min(t.b.v, t.c.v))) * height as real <= extent
  }

  /** Weights that are barely negative leave the range of the corners by twice that part of its extent. */
  lemma NearlyConvex(w: Weights, x: real, y: real, z: real, slack: real)
    requires w.a >= -slack && w.b >= -slack && w.c >= -slack && w.a + w.b + w.c == 1.0 && slack >= 0.0
    ensures var low, high := Min(x, Min(y, z)), Max(x, Max(y, z));
            low - 2.0 * slack * (high - low) <= Combine(w, x, y, z) <= high + 2.0 * slack * (high - low)
  {
    var low, high := Min(x, Min(y, z)), Max(x, Max(y, z));
    AboveLow(w, x - low, y - low, z - low, high - low, slack);
    AboveLow(w, high - x, high - y, high - z, high - low, slack);
    Shifted(w, x, y, z, low);
    Shifted(w, x, y, z, high);
    assert Combine(w, high - x, high - y, high - z) == -Combine(w, x - high, y - high, z - high) by {
      Negated(w, x - high, y - high, z - high);
    }
  }

  lemma Negated(w: Weights, x: real, y: real, z: real)
    ensures Combine(w, -x, -y, -z) == -Combine(w, x, y, z)
  {
    assert w.a * -x == -(w.a * x) && w.b * -y == -(w.b * y) && w.c * -z == -(w.c * z);
  }

  lemma Shifted(w: Weights, x: real, y: real, z: real, m: real)
    requires w.a + w.b + w.c == 1.0
    ensures Combine(w, x - m, y - m, z - m) == Combine(w, x, y, z) - m
  {
    Spread(w, m);
    assert w.a * (x - m) == w.a * x - w.a * m;
    assert w.b * (y - m) == w.b * y - w.b * m;
    assert w.c * (z - m) == w.c * z - w.c * m;
  }

  /** Of three distances from the same border one is zero, and each weight takes at most `slack` of the others. */
  lemma AboveLow(w: Weights, x: real, y: real, z: real, extent: real, slack: real)
    requires w.a >= -slack && w.b >= -slack && w.c >= -slack && slack >= 0.0
    requires 0.0 <= x <= extent && 0.0 <= y <= extent && 0.0 <= z <= extent
    requires x == 0.0 || y == 0.0 || z == 0.0
    ensures Combine(w, x, y, z) >= -(2.0 * slack * extent)
  {
    AtLeast(w.a, x, extent, slack);
    AtLeast(w.b, y, extent, slack);
    AtLeast(w.c, z, extent, slack);
    assert 2.0 * slack * extent == 2.0 * (slack * extent);
  }

  lemma AtLeast(w: real, x: real, extent: real, slack: real)
    requires w >= -slack && slack >= 0.0 && 0.0 <= x <= extent
    ensures w * x >= -(slack * extent) && (x == 0.0 ==> w * x == 0.0)
  {
    Product(w + slack, x);
    Product(slack, extent - x);
    assert (w + slack) * x == w * x + slack * x && slack * (extent - x) == slack * extent - slack * x;
  }

  lemma ScaledBound(x: real, y: real, s: real, e: real, n: real)
    requires n > 0.0 && x >= y - s * e
    ensures x * n >= y * n - s * (e * n)
  {
    Product(x - y + s * e, n);
    assert (x - y + s * e) * n == x * n - y * n + (s * e) * n;
    assert (s * e) * n == s * (e * n);
  }

  /** As `InRange`, for a point outside by no more than the weights of a small triangle allow. */
  lemma NearlyInRange(low: real, high: real, size: nat, k: int)
    requires 0 <= k < size && (high - low) * size as real <= 0.5
    requires var c := (k as real + 0.5) / size as real;
             low - 2.0 * TOLERANCE * (high - low) <= c <= high + 2.0 * TOLERANCE * (high - low)
    ensures First(low, size) <= k <= Last(high, size)
  {
    var n, c := size as real, (k as real + 0.5) / size as real;
    Scaled(k as real + 0.5, n);
    ScaledBound(c, low, 2.0 * TOLERANCE, high - low, n);
    ScaledBound(high, c, 2.0 * TOLERANCE, high - low, n);
    Rounded(low, high, size, k);
  }

  lemma SmallAxis(w: Weights, x: real, y: real, z: real, size: nat, k: int)
    requires Least(w) >= -TOLERANCE && w.a + w.b + w.c == 1.0 && 0 <= k < size
    requires Combine(w, x, y, z) == (k as real + 0.5) / size as real
    requires (Max(x, Max(y, z)) - Min(x, Min(y, z))) * size as real <= 0.5
    ensures First(Min(x, Min(y, z)), size) <= k <= Last(Max(x, Max(y, z)), size)
  {
    NearlyConvex(w, x, y, z, TOLERANCE);
    NearlyInRange(Min(x, Min(y, z)), Max(x, Max(y, z)), size, k);
  }

  lemma SmallCovers(w: Weights, t: Triangle, x: int, y: int, width: nat, height: nat)
    requires 0 <= x < width && 0 <= y < height && SpansAtMost(t, 0.5, width, height)
    requires Least(w) >= -TOLERANCE && w.a + w.b + w.c == 1.0
    requires Combine(w, t.a.u, t.b.u, t.c.u) == (x as real + 0.5) / width as real
    requires Combine(w, t.a.v, t.b.v, t.c.v) == (y as real + 0.5) / height as real
    ensures Covers(t, x, y, width, height)
  {
    SmallAxis(w, t.a.u, t.b.u, t.c.u, width, x);
    SmallAxis(w, t.a.v, t.b.v, t.c.v, height, y);
  }

  /** Half a texel is small enough: weights that are only tolerated still put the triangle into the bin. */
  lemma SmallIsBinned(t: Triangle, x: int, y: int, width: nat, height: nat)
    requires 0 <= x < width && 0 <= y < height && SpansAtMost(t, 0.5, width, height)
    requires Barycentric(Centre(x, y, width, height), t).Some?
    ensures Covers(t, x, y, width, height)
  {
    var p := Centre(x, y, width, height);
    WeightsReconstruct(p, t);
    SmallCovers(RawWeights(p, t), t, x, y, width, height);
  }

  /** A triangle `wide` by `high` that overshoots the point as far as its weights may. */
  function Overshooting(p: UV, wide: real, high: real): Triangle {
    var low := p.u + 2.0 * TOLERANCE * wide;
    Triangle(0, 0, UV(low, p.v), UV(low + wide, p.v + high / 2.0), UV(low + wide, p.v - high / 2.0))
  }

  lemma OvershootingWeights(p: UV, wide: real, high: real)
    requires wide > 0.0 && high > 0.0 && wide * high > DEGENERATE
    ensures Barycentric(p, Overshooting(p, wide, high)) == Some(Weights(1.0 + 2.0 * TOLERANCE, -TOLERANCE, -TOLERANCE))
  {
    var k, t := 1.0 + 2.0 * TOLERANCE, Overshooting(p, wide, high);
    var da, dc := t.a.u - t.c.u, p.u - t.c.u;
    assert da == -wide && dc == -(k * wide);
    assert t.b.v - t.c.v == high && t.c.u - t.b.u == 0.0 && t.c.v - t.a.v == -(high / 2.0) && p.v - t.c.v == high / 2.0;
    Areas(wide, high, k);
    var d := -(wide * high);
    var m, n := k * d, -TOLERANCE * d;
    RawWeightsAre(p, t, d, m, n);
    Ratio(k, d);
    Ratio(-TOLERANCE, d);
    assert m / d == k && n / d == -TOLERANCE;
    assert RawWeights(p, t) == Weights(k, -TOLERANCE, -TOLERANCE);
  }

  lemma RawWeightsAre(p: UV, t: Triangle, d: real, m: real, n: real)
    requires d != 0.0 && Denominator(t) == d
    requires (t.b.v - t.c.v) * (p.u - t.c.u) + (t.c.u - t.b.u) * (p.v - t.c.v) == m
    requires (t.c.v - t.a.v) * (p.u - t.c.u) + (t.a.u - t.c.u) * (p.v - t.c.v) == n
    ensures RawWeights(p, t) == Weights(m / d, n / d, 1.0 - m / d - n / d)
  {
  }

  lemma Areas(wide: real, high: real, k: real)
    ensures high * -wide == -(wide * high) && high * -(k * wide) == k * -(wide * high)
    ensures (-(high / 2.0)) * -(k * wide) + -wide * (high / 2.0) == (1.0 - k) / 2.0 * -(wide * high)
  {
    assert high * (k * wide) == k * (wide * high);
    assert (-(high / 2.0)) * -(k * wide) == k * (wide * high) / 2.0;
    assert -wide * (high / 2.0) == -(wide * high) / 2.0;
    assert (1.0 - k) / 2.0 * -(wide * high) == k * (wide * high) / 2.0 - (wide * high) / 2.0;
  }

  lemma Ratio(k: real, d: real)
    requires d != 0.0
    ensures k * d / d == k
  {
  }

  lemma Scaled(e: real, n: real)
    requires n > 0.0
    ensures e / n * n == e && (e > 0.0 ==> e / n > 0.0)
  {
  }

  lemma Cancelled(x: real, y: real, n: real)
    requires n > 0.0 && x * n > y * n
    ensures x > y
  {
    if x <= y {
      Product(y - x, n);
    }
  }

  lemma OvershootingArea(e: real, width: real, height: real)
    requires e > 0.0 && width > 0.0 && height > 0.0 && e * e > DEGENERATE * (width * height)
    ensures (e / width) * (e / height) > DEGENERATE
  {
    var wide, high := e / width, e / height;
    Scaled(e, width);
    Scaled(e, height);
    assert (wide * width) * (high * height) == (wide * high) * (width * height);
    Product(width, height);
    assert width * height > 0.0;
    Cancelled(wide * high, DEGENERATE, width * height);
  }

  lemma OvershootingSpan(p: UV, wide: real, high: real)
    requires wide > 0.0 && high > 0.0
    ensures var t := Overshooting(p, wide, high);
            && Min(t.a.u, Min(t.b.u, t.c.u)) == p.u + 2.0 * TOLERANCE * wide
            && Max(t.a.u, Max(t.b.u, t.c.u)) - Min(t.a.u, Min(t.b.u, t.c.u)) == wide
            && Max(t.a.v, Max(t.b.v, t.c.v)) - Min(t.a.v, Min(t.b.v, t.c.v)) == high
  {
  }

  lemma Overshoots(c: real, wide: real, n: real, e: real, x: int)
    requires c * n == x as real + 0.5 && wide * n == e && e > 0.5
    ensures (c + 2.0 * TOLERANCE * wide) * n - 0.5 - TOLERANCE > x as real
  {
    assert (c + 2.0 * TOLERANCE * wide) * n == c * n + 2.0 * TOLERANCE * (wide * n);
  }

  lemma OvershootingMisses(p: UV, wide: real, high: real, e: real, x: int, y: int, width: nat, height: nat)
    requires width > 0 && height > 0 && wide > 0.0 && high > 0.0 && e > 0.5
    requires p.u * width as real == x as real + 0.5 && wide * width as real == e && high * height as real == e
    ensures SpansAtMost(Overshooting(p, wide, high), e, width, height)
    ensures !Covers(Overshooting(p, wide, high), x, y, width, height)
  {
    OvershootingSpan(p, wide, high);
    Overshoots(p.u, wide, width as real, e, x);
  }

  /** Larger triangles can have tolerated weights at a texel whose bin does not hold them. */
  lemma LargerIsMissed(e: real, x: int, y: int, width: nat, height: nat)
    requires 0 <= x < width && 0 <= y < height
    requires e > 0.5 && e * e > DEGENERATE * (width as real * height as real)
    ensures var p := Centre(x, y, width, height);
            var t := Overshooting(p, e / width as real, e / height as real);
            SpansAtMost(t, e, width, height) && Barycentric(p, t).Some? && !Covers(t, x, y, width, height)
  {
    var p, wide, high := Centre(x, y, width, height), e / width as real, e / height as real;
    Scaled(e, width as real);
    Scaled(e, height as real);
    Scaled(x as real + 0.5, width as real);
    OvershootingArea(e, width as real, height as real);
    OvershootingWeights(p, wide, high);
    OvershootingMisses(p, wide, high, e, x, y, width, height);
  }

  /** For images that can hold such triangles, half a texel is exactly the size up to which none is missed. */
  lemma HalfATexel(e: real, x: int, y: int, width: nat, height: nat)
    requires 0 <= x < width && 0 <= y < height
    requires e > 0.0 && e * e > DEGENERATE * (width as real * height as real)
    ensures (forall t :: SpansAtMost(t, e, width, height) && Barycentric(Centre(x, y, width, height), t).Some?
                         ==> Covers(t, x, y, width, height))
            <==> e <= 0.5
  {
    if e <= 0.5 {
      forall t | SpansAtMost(t, e, width, height) && Barycentric(Centre(x, y, width, height), t).Some?
        ensures Covers(t, x, y, width, height)
      {
        SmallIsBinned(t, x, y, width, height);
      }
    } else {
      LargerIsMissed(e, x, y, width, height);
    }
  }

  datatype Choice = Inside(best: Triangle) | Nearest(triangle: Triangle) | NoCandidate

  /** The order of `(distance, face)`. */
  predicate IsNearest(list: seq<Triangle>, distance: Triangle -> real, nearest: Triangle) {
    && nearest in list
    && forall t :: t in list ==> distance(nearest) < distance(t) || (distance(nearest) == distance(t) && nearest.face <= t.face)
  }

  method NearestOf(list: seq<Triangle>, distance: Triangle -> real) returns (nearest: Triangle)
    requires list != []
    ensures IsNearest(list, distance, nearest)
  {
    nearest := list[0];
    for i := 1 to |list|
      invariant IsNearest(list[..i], distance, nearest)
    {
      TakeOneMore(list, i);
      var t := list[i];
      if distance(t) < distance(nearest) || (distance(t) == distance(nearest) && t.face < nearest.face) {
        nearest := t;
      }
    }
    assert list[..|list|] == list;
  }

  /**
   * One occupied texel. When some non-degenerate triangle of its groups contains the centre, the choice
   * is the one a search over all of them would make: largest least weight, then lowest face.
   */
  method ChooseTriangle(triangles: seq<Triangle>, bins: map<Bin, seq<Triangle>>, groups: seq<int>, x: nat, y: nat,
                        width: nat, height: nat, distance: Triangle -> real) returns (r: Choice)
    requires x < width && y < height
    requires forall bin {:trigger Entry(bins, bin)} :: Entry(bins, bin) == Boxed(triangles, bin, width, height)
    ensures var all := SameGroup(triangles, set g | g in groups);
            var found, p := Covering(all, x, y, width, height), Centre(x, y, width, height);
            && (r.NoCandidate? <==> all == [])
            && (r.Inside? <==> !NoneFits(found, p))
            && (r.Inside? ==> IsBest(found, p, r.best))
            && (r.Nearest? ==> IsNearest(all, distance, r.triangle))
            // The binned search is brute force whenever the centre is contained or all triangles are small.
            && ((exists t :: t in all && Contains(t, p)) ==> r.Inside? && IsBest(all, p, r.best))
            && ((forall t :: t in all ==> SpansAtMost(t, 0.5, width, height)) ==>
                  (r.Inside? <==> !NoneFits(all, p)) && (r.Inside? ==> IsBest(all, p, r.best)))
            && (FacesAreUnique(triangles) && r.Inside? ==> forall t :: IsBest(found, p, t) <==> t == r.best)
  {
    var all := SameGroup(triangles, set g | g in groups);
    if all == [] {
      return NoCandidate;
    }
    var p := Centre(x, y, width, height);
    var binned := Binned(bins, groups, x, y, triangles, width, height);
    ghost var found := Covering(all, x, y, width, height);
    assert forall t :: t in binned <==> t in found;
    forall t | t in all && SpansAtMost(t, 0.5, width, height) && Barycentric(p, t).Some?
      ensures t in found
    {
      SmallIsBinned(t, x, y, width, height);
    }
    if inside :| inside in all && Contains(inside, p) {
      BinnedIsBruteForce(all, x, y, width, height, inside);
      ContainedIsBinned(inside, x, y, width, height);
    }
    var best := Best(binned, p);
    if best.Some? {
      assert IsBest(found, p, best.value);
      forall t | FacesAreUnique(triangles) && IsBest(found, p, t)
        ensures t == best.value
      {
        BestIsUnique(found, p, t, best.value);
      }
      return Inside(best.value);
    }
    var nearest := NearestOf(all, distance);
    return Nearest(nearest);
  }

  const NEAR_MISS := Triangle(0, 0, UV(0.1250000005, 0.0), UV(0.1250000005, 1.0), UV(1.1250000005, 0.5))
  const WORSE_FIT := Triangle(1, 0, UV(0.1250000002, 0.0), UV(0.1250000002, 1.0), UV(0.3750000002, 0.5))

  /** The triangle that the search over all prefers is not in the bin; a worse one is. */
  predicate Misses(miss: Triangle, worse: Triangle, x: nat, y: nat, width: nat, height: nat)
    requires x < width && y < height
  {
    var p := Centre(x, y, width, height);
    && miss.group == worse.group && miss.face != worse.face
    && !Covers(miss, x, y, width, height) && Covers(worse, x, y, width, height)
    && Barycentric(p, miss).Some? && Barycentric(p, worse).Some? && Better(miss, worse, p)
  }

  /** At texel (0, 0) of a 4 by 1 image both have tolerated weights; the better one is not in the bin. */
  lemma NearMissIsNotBinned()
    ensures Misses(NEAR_MISS, WORSE_FIT, 0, 0, 4, 1)
  {
    var p := Centre(0, 0, 4, 1);
    assert p == UV(0.125, 0.5);
    assert Denominator(NEAR_MISS) == -1.0;
    assert RawWeights(p, NEAR_MISS) == Weights(0.50000000025, 0.50000000025, -0.0000000005);
    assert Denominator(WORSE_FIT) == -0.25;
    assert RawWeights(p, WORSE_FIT) == Weights(0.5000000004, 0.5000000004, -0.0000000008);
  }

  /**
   * Two runs in which the search in the bin comes out differently from the search over all: alone the
   * missed triangle is chosen by distance only, and beside a worse fit it loses to it.
   */
  method SearchesDiffer(miss: Triangle, worse: Triangle, x: nat, y: nat, width: nat, height: nat, distance: Triangle -> real)
    returns (alone: Choice, beside: Choice)
    requires x < width && y < height && Misses(miss, worse, x, y, width, height)
    ensures alone == Nearest(miss) && IsBest([miss], Centre(x, y, width, height), miss)
    ensures beside == Inside(worse) && IsBest([miss, worse], Centre(x, y, width, height), miss)
    ensures !IsBest([miss, worse], Centre(x, y, width, height), worse)
  {
    var bins := FillBins([miss], width, height);
    alone := ChooseTriangle([miss], bins, [miss.group], x, y, width, height, distance);
    bins := FillBins([miss, worse], width, height);
    beside := ChooseTriangle([miss, worse], bins, [miss.group], x, y, width, height, distance);
  }
}
