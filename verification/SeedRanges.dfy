/**
 * Inclusive seed intervals of scripts/grab_food_seed_reservations.py: parsing,
 * merging into canonical form, and the binary search over that form.
 */
module SeedRanges {
  import opened Common

  const MAX_SEED: int := 0xFFFF_FFFF_FFFF_FFFF
  const MAX_ENTRIES: nat := 100_000

  datatype Range = Range(first: int, last: int)

  predicate IsSeed(value: int) { 1 <= value <= MAX_SEED }

  /** `s` lies in one of the intervals. */
  predicate In(s: int, ranges: seq<Range>) {
    exists i :: 0 <= i < |ranges| && ranges[i].first <= s <= ranges[i].last
  }

  /** Nonempty intervals in ascending order with at least one seed between any two neighbours. */
  predicate Canonical(ranges: seq<Range>) {
    && (forall i :: 0 <= i < |ranges| ==> ranges[i].first <= ranges[i].last)
    && (forall i, j :: 0 <= i < j < |ranges| ==> ranges[i].last + 1 < ranges[j].first)
  }

  predicate Bounded(ranges: seq<Range>) {
    forall i :: 0 <= i < |ranges| ==> IsSeed(ranges[i].first) && IsSeed(ranges[i].last)
  }

  /** An inclusive pair as the JSON documents hold it. */
  predicate IsPair(pair: seq<int>) {
    |pair| == 2 && IsSeed(pair[0]) && IsSeed(pair[1]) && pair[0] <= pair[1]
  }

  predicate AllPairs(value: seq<seq<int>>) {
    forall i {:trigger value[i]} :: 0 <= i < |value| ==> IsPair(value[i])
  }

  predicate Admitted(value: seq<seq<int>>) { |value| <= MAX_ENTRIES && AllPairs(value) }

  predicate InPairs(s: int, value: seq<seq<int>>) {
    exists i :: 0 <= i < |value| && |value[i]| == 2 && value[i][0] <= s <= value[i][1]
  }

  function Parsed(value: seq<seq<int>>): (r: seq<Range>)
    requires AllPairs(value)
    ensures |r| == |value|
    ensures forall i :: 0 <= i < |value| ==> r[i] == Range(value[i][0], value[i][1])
  {
    if value == [] then [] else Parsed(value[..|value| - 1]) + [Range(value[|value| - 1][0], value[|value| - 1][1])]
  }

  function Pairs(ranges: seq<Range>): (r: seq<seq<int>>)
    ensures |r| == |ranges| && forall i :: 0 <= i < |r| ==> r[i] == [ranges[i].first, ranges[i].last]
  {
    seq(|ranges|, i requires 0 <= i < |ranges| => [ranges[i].first, ranges[i].last])
  }

  // ---------------------------------------------------------------------
  // Sorting and merging
  // ---------------------------------------------------------------------

  predicate Before(a: Range, b: Range) {
    a.first < b.first || (a.first == b.first && a.last <= b.last)
  }

  predicate Sorted(ranges: seq<Range>) {
    forall i, j :: 0 <= i < j < |ranges| ==> Before(ranges[i], ranges[j])
  }

  function Insert(r: Range, ranges: seq<Range>): seq<Range> {
    if ranges == [] || Before(r, ranges[0]) then [r] + ranges
    else [ranges[0]] + Insert(r, ranges[1..])
  }

  function SortRanges(ranges: seq<Range>): seq<Range> {
    if ranges == [] then [] else Insert(ranges[0], SortRanges(ranges[1..]))
  }

  lemma {:induction false} InsertSorts(r: Range, ranges: seq<Range>)
    requires Sorted(ranges)
    ensures Sorted(Insert(r, ranges)) && multiset(Insert(r, ranges)) == multiset(ranges) + multiset{r}
  {
    if ranges == [] || Before(r, ranges[0]) {
    } else {
      InsertSorts(r, ranges[1..]);
      var tail := Insert(r, ranges[1..]);
      assert ranges == [ranges[0]] + ranges[1..];
      forall k | 0 <= k < |tail|
        ensures Before(ranges[0], tail[k])
      {
        assert tail[k] in multiset(tail);
        assert tail[k] == r || tail[k] in ranges[1..];
      }
    }
  }

  lemma {:induction false} SortingSorts(ranges: seq<Range>)
    ensures Sorted(SortRanges(ranges)) && multiset(SortRanges(ranges)) == multiset(ranges)
  {
    if ranges != [] {
      SortingSorts(ranges[1..]);
      InsertSorts(ranges[0], SortRanges(ranges[1..]));
      assert ranges == [ranges[0]] + ranges[1..];
    }
  }

  function Max(a: int, b: int): int { if a < b then b else a }

  /** One step of the merging loop: extend the last merged interval or start a new one. */
  function Absorb(merged: seq<Range>, r: Range): seq<Range> {
    if merged != [] && r.first <= merged[|merged| - 1].last + 1 then
      merged[..|merged| - 1]
      + [Range(merged[|merged| - 1].first, Max(merged[|merged| - 1].last, r.last))]
    else merged + [r]
  }

  function MergeFrom(merged: seq<Range>, rest: seq<Range>): seq<Range>
    decreases |rest|
  {
    if rest == [] then merged else MergeFrom(Absorb(merged, rest[0]), rest[1..])
  }

  /** `_ranges`: the canonical form of a list of pairs, `None` where it raises. */
  function RangesOf(value: seq<seq<int>>): Option<seq<Range>> {
    if Admitted(value) then Some(MergeFrom([], SortRanges(Parsed(value)))) else None
  }

  lemma AbsorbIsCanonical(merged: seq<Range>, r: Range)
    requires Canonical(merged) && r.first <= r.last
    requires merged != [] ==> merged[|merged| - 1].first <= r.first
    ensures Canonical(Absorb(merged, r))
    ensures Absorb(merged, r)[|Absorb(merged, r)| - 1].first <= r.first
    ensures Bounded(merged) && IsSeed(r.first) && IsSeed(r.last) ==> Bounded(Absorb(merged, r))
  {
  }

  lemma AbsorbCovers(merged: seq<Range>, r: Range, s: int)
    requires Canonical(merged) && r.first <= r.last
    requires merged != [] ==> merged[|merged| - 1].first <= r.first
    ensures In(s, Absorb(merged, r)) <==> In(s, merged) || r.first <= s <= r.last
  {
    var out := Absorb(merged, r);
    var n := |merged|;
    if In(s, merged) {
      var i :| 0 <= i < n && merged[i].first <= s <= merged[i].last;
      assert out[i].first <= s <= out[i].last;
    }
    InsideIsIn(out, |out| - 1, s);
    if In(s, out) {
      var i :| 0 <= i < |out| && out[i].first <= s <= out[i].last;
      assert i < |out| - 1 ==> merged[i] == out[i];
      if n > 0 {
        InsideIsIn(merged, n - 1, s);
      }
    }
  }

  lemma HeadOrTail(s: int, rest: seq<Range>)
    requires rest != []
    ensures In(s, rest) <==> rest[0].first <= s <= rest[0].last || In(s, rest[1..])
  {
    if In(s, rest) {
      var i :| 0 <= i < |rest| && rest[i].first <= s <= rest[i].last;
      assert i > 0 ==> rest[1..][i - 1] == rest[i];
    }
    if In(s, rest[1..]) {
      var i :| 0 <= i < |rest[1..]| && rest[1..][i].first <= s <= rest[1..][i].last;
      assert rest[i + 1].first <= s <= rest[i + 1].last;
    }
  }

  lemma {:induction false} MergeIsCanonical(merged: seq<Range>, rest: seq<Range>)
    requires Canonical(merged) && Sorted(rest)
    requires forall i :: 0 <= i < |rest| ==> rest[i].first <= rest[i].last
    requires merged != [] && rest != [] ==> merged[|merged| - 1].first <= rest[0].first
    ensures Canonical(MergeFrom(merged, rest))
    ensures Bounded(merged) && Bounded(rest) ==> Bounded(MergeFrom(merged, rest))
    decreases |rest|
  {
    if rest != [] {
      AbsorbIsCanonical(merged, rest[0]);
      assert forall j :: 1 <= j < |rest| ==> Before(rest[0], rest[j]);
      MergeIsCanonical(Absorb(merged, rest[0]), rest[1..]);
    }
  }

  lemma {:induction false} MergeCovers(merged: seq<Range>, rest: seq<Range>, s: int)
    requires Canonical(merged) && Sorted(rest)
    requires forall i :: 0 <= i < |rest| ==> rest[i].first <= rest[i].last
    requires merged != [] && rest != [] ==> merged[|merged| - 1].first <= rest[0].first
    ensures In(s, MergeFrom(merged, rest)) <==> In(s, merged) || In(s, rest)
    decreases |rest|
  {
    if rest != [] {
      AbsorbIsCanonical(merged, rest[0]);
      AbsorbCovers(merged, rest[0], s);
      assert forall j :: 1 <= j < |rest| ==> Before(rest[0], rest[j]);
      MergeCovers(Absorb(merged, rest[0]), rest[1..], s);
      HeadOrTail(s, rest);
    }
  }

  /** The same intervals in another order cover the same seeds. */
  lemma Reordered(a: seq<Range>, b: seq<Range>)
    requires multiset(a) == multiset(b)
    ensures forall r :: r in a <==> r in b
    ensures forall s :: In(s, a) <==> In(s, b)
    ensures Bounded(a) ==> Bounded(b)
  {
    forall r
      ensures r in a <==> r in b
    {
      assert r in a <==> r in multiset(a);
      assert r in b <==> r in multiset(b);
    }
    forall s
      ensures In(s, a) <==> In(s, b)
    {
      InReordered(s, a, b);
      InReordered(s, b, a);
    }
    forall i | 0 <= i < |b| && Bounded(a)
      ensures IsSeed(b[i].first) && IsSeed(b[i].last)
    {
      assert b[i] in a;
    }
  }

  lemma InReordered(s: int, a: seq<Range>, b: seq<Range>)
    requires forall r :: r in a ==> r in b
    ensures In(s, a) ==> In(s, b)
  {
    if In(s, a) {
      var i :| 0 <= i < |a| && a[i].first <= s <= a[i].last;
      assert a[i] in b;
    }
  }

  lemma InParsed(s: int, value: seq<seq<int>>)
    requires AllPairs(value)
    ensures In(s, Parsed(value)) <==> InPairs(s, value)
  {
    var parsed := Parsed(value);
    if In(s, parsed) {
      var i :| 0 <= i < |parsed| && parsed[i].first <= s <= parsed[i].last;
      assert value[i][0] <= s <= value[i][1];
    }
    if InPairs(s, value) {
      var j :| 0 <= j < |value| && |value[j]| == 2 && value[j][0] <= s <= value[j][1];
      assert parsed[j].first <= s <= parsed[j].last;
    }
  }

  /** Merging is canonical and keeps exactly the seeds of the pairs. */
  lemma RangesOfCovers(value: seq<seq<int>>)
    requires Admitted(value)
    ensures Canonical(RangesOf(value).value) && Bounded(RangesOf(value).value)
    ensures forall s :: In(s, RangesOf(value).value) <==> InPairs(s, value)
  {
    var parsed := Parsed(value);
    var sorted := SortRanges(parsed);
    SortingSorts(parsed);
    Reordered(parsed, sorted);
    forall i | 0 <= i < |sorted|
      ensures sorted[i].first <= sorted[i].last
    {
      assert sorted[i] in parsed;
    }
    forall i | 0 <= i < |parsed|
      ensures IsSeed(parsed[i].first) && IsSeed(parsed[i].last)
    {
      assert IsPair(value[i]);
    }
    MergeIsCanonical([], sorted);
    forall s
      ensures In(s, RangesOf(value).value) <==> InPairs(s, value)
    {
      MergeCovers([], sorted, s);
      InParsed(s, value);
    }
  }

  lemma FirstRange(a: seq<Range>, b: seq<Range>)
    requires Canonical(a) && Canonical(b) && a != [] && b != []
    requires forall s :: In(s, a) <==> In(s, b)
    ensures a[0] == b[0]
  {
    assert a[0].first <= a[0].first <= a[0].last && b[0].first <= b[0].first <= b[0].last;
    assert In(a[0].first, a) && In(b[0].first, b);
    var i :| 0 <= i < |b| && b[i].first <= a[0].first <= b[i].last;
    var j :| 0 <= j < |a| && a[j].first <= b[0].first <= a[j].last;
    assert a[0].first == b[0].first;
    GapAfter(a, 0);
    GapAfter(b, 0);
    InsideIsIn(a, 0, b[0].last + 1);
    InsideIsIn(b, 0, a[0].last + 1);
  }

  lemma InsideIsIn(a: seq<Range>, i: nat, s: int)
    requires i < |a|
    ensures a[i].first <= s <= a[i].last ==> In(s, a)
  {
  }

  lemma GapAfter(a: seq<Range>, i: nat)
    requires Canonical(a) && i < |a|
    ensures !In(a[i].last + 1, a)
  {
    forall k | 0 <= k < |a|
      ensures !(a[k].first <= a[i].last + 1 <= a[k].last)
    {
      assert k < i ==> a[k].last + 1 < a[i].first <= a[i].last;
    }
  }

  /** One set of seeds has one canonical form. */
  lemma {:induction false} CanonicalFormIsUnique(a: seq<Range>, b: seq<Range>)
    requires Canonical(a) && Canonical(b)
    requires forall s :: In(s, a) <==> In(s, b)
    ensures a == b
  {
    if a == [] || b == [] {
      if a != [] {
        assert a[0].first <= a[0].first <= a[0].last;
        assert In(a[0].first, a);
      }
      if b != [] {
        assert b[0].first <= b[0].first <= b[0].last;
        assert In(b[0].first, b);
      }
    } else {
      FirstRange(a, b);
      forall s
        ensures In(s, a[1..]) <==> In(s, b[1..])
      {
        TailRange(s, a);
        TailRange(s, b);
      }
      CanonicalFormIsUnique(a[1..], b[1..]);
      assert a == [a[0]] + a[1..] && b == [b[0]] + b[1..];
    }
  }

  lemma TailRange(s: int, a: seq<Range>)
    requires Canonical(a) && a != []
    ensures In(s, a[1..]) <==> In(s, a) && a[0].last < s
  {
    if In(s, a[1..]) {
      var i :| 0 <= i < |a[1..]| && a[1..][i].first <= s <= a[1..][i].last;
      assert a[i + 1].first <= s <= a[i + 1].last;
    }
    if In(s, a) && a[0].last < s {
      var i :| 0 <= i < |a| && a[i].first <= s <= a[i].last;
      assert a[1..][i - 1].first <= s <= a[1..][i - 1].last;
    }
  }

  /** A canonical list is a fixed point of merging. */
  lemma MergingIsIdempotent(ranges: seq<Range>)
    requires Canonical(ranges) && Bounded(ranges) && |ranges| <= MAX_ENTRIES
    ensures RangesOf(Pairs(ranges)) == Some(ranges)
  {
    var value := Pairs(ranges);
    RangesOfCovers(value);
    forall s
      ensures In(s, RangesOf(value).value) <==> In(s, ranges)
    {
      if InPairs(s, value) {
        var i :| 0 <= i < |value| && |value[i]| == 2 && value[i][0] <= s <= value[i][1];
        assert ranges[i].first <= s <= ranges[i].last;
      }
      if In(s, ranges) {
        var i :| 0 <= i < |ranges| && ranges[i].first <= s <= ranges[i].last;
        assert value[i][0] <= s <= value[i][1];
      }
    }
    CanonicalFormIsUnique(RangesOf(value).value, ranges);
  }

  /** `_ranges` as it runs: a parsing loop, the library sort, and a loop that mutates the last interval. */
  method Ranges(value: seq<seq<int>>) returns (r: Option<seq<Range>>)
    ensures r == RangesOf(value)
    ensures r.Some? ==> Canonical(r.value) && forall s :: In(s, r.value) <==> InPairs(s, value)
  {
    if |value| > MAX_ENTRIES {
      return None;
    }
    var ranges: seq<Range> := [];
    for i := 0 to |value|
      invariant AllPairs(value[..i])
      invariant ranges == Parsed(value[..i])
    {
      var pair := value[i];
      if |pair| != 2 || !IsSeed(pair[0]) || !IsSeed(pair[1]) || pair[0] > pair[1] {
        assert !IsPair(value[i]);
        return None;
      }
      ranges := ranges + [Range(pair[0], pair[1])];
      assert value[..i + 1][..i] == value[..i];
    }
    assert value[..|value|] == value;
    var sorted := SortRanges(ranges);
    var merged: seq<Range> := [];
    for i := 0 to |sorted|
      invariant MergeFrom(merged, sorted[i..]) == MergeFrom([], sorted)
    {
      ghost var before := merged;
      if |merged| > 0 && sorted[i].first <= merged[|merged| - 1].last + 1 {
        merged := merged[|merged| - 1 := Range(merged[|merged| - 1].first,
                                              Max(merged[|merged| - 1].last, sorted[i].last))];
      } else {
        merged := merged + [sorted[i]];
      }
      assert merged == Absorb(before, sorted[i]);
      assert sorted[i..][1..] == sorted[i + 1..];
    }
    RangesOfCovers(value);
    return Some(merged);
  }

  // ---------------------------------------------------------------------
  // Binary search
  // ---------------------------------------------------------------------

  /** `bisect.bisect_right` between two indices. */
  function Bisect(ranges: seq<Range>, key: Range, lo: nat, hi: nat): (r: nat)
    requires lo <= hi <= |ranges|
    ensures lo <= r <= hi
    decreases hi - lo
  {
    if lo == hi then lo
    else
      var mid := (lo + hi) / 2;
      if Before(ranges[mid], key) then Bisect(ranges, key, mid + 1, hi) else Bisect(ranges, key, lo, mid)
  }

  predicate Contains(ranges: seq<Range>, seed: int) {
    var index := Bisect(ranges, Range(seed, MAX_SEED), 0, |ranges|) as int - 1;
    index >= 0 && ranges[index].first <= seed <= ranges[index].last
  }

  lemma {:induction false} BisectSplits(ranges: seq<Range>, key: Range, lo: nat, hi: nat)
    requires lo <= hi <= |ranges| && Sorted(ranges)
    requires forall i :: 0 <= i < lo ==> Before(ranges[i], key)
    requires forall i :: hi <= i < |ranges| ==> !Before(ranges[i], key)
    ensures var r := Bisect(ranges, key, lo, hi);
            && (forall i :: 0 <= i < r ==> Before(ranges[i], key))
            && (forall i :: r <= i < |ranges| ==> !Before(ranges[i], key))
    decreases hi - lo
  {
    if lo < hi {
      var mid := (lo + hi) / 2;
      if Before(ranges[mid], key) {
        assert forall i :: 0 <= i < mid ==> Before(ranges[i], ranges[mid]);
        BisectSplits(ranges, key, mid + 1, hi);
      } else {
        assert forall i :: mid < i < |ranges| ==> Before(ranges[mid], ranges[i]);
        BisectSplits(ranges, key, lo, mid);
      }
    }
  }

  /** On a canonical list binary search is membership. */
  lemma ContainsIsMembership(ranges: seq<Range>, seed: int)
    requires Canonical(ranges) && Bounded(ranges)
    ensures Contains(ranges, seed) <==> In(seed, ranges)
  {
    assert Sorted(ranges) by {
      forall i, j | 0 <= i < j < |ranges|
        ensures Before(ranges[i], ranges[j])
      {
        assert ranges[i].first <= ranges[i].last && ranges[i].last + 1 < ranges[j].first;
      }
    }
    var key := Range(seed, MAX_SEED);
    BisectSplits(ranges, key, 0, |ranges|);
    var r := Bisect(ranges, key, 0, |ranges|);
    if In(seed, ranges) {
      var i :| 0 <= i < |ranges| && ranges[i].first <= seed <= ranges[i].last;
      assert Before(ranges[i], key);
      assert i < r;
      assert Before(ranges[r - 1], key) && ranges[r - 1].first <= seed;
    }
  }

  // ---------------------------------------------------------------------
  // Inclusion
  // ---------------------------------------------------------------------

  /** Every interval of `inner` lies inside one interval of `outer`. */
  predicate Within(inner: seq<Range>, outer: seq<Range>) {
    forall i :: 0 <= i < |inner| ==> InsideOne(inner[i], outer)
  }

  predicate InsideOne(r: Range, outer: seq<Range>) {
    exists j :: 0 <= j < |outer| && outer[j].first <= r.first <= r.last <= outer[j].last
  }

  /** For canonical lists the interval-by-interval check is set inclusion. */
  lemma WithinIsInclusion(inner: seq<Range>, outer: seq<Range>)
    requires Canonical(inner) && Canonical(outer)
    ensures Within(inner, outer) <==> forall s :: In(s, inner) ==> In(s, outer)
  {
    if Within(inner, outer) {
      forall s | In(s, inner)
        ensures In(s, outer)
      {
        var i :| 0 <= i < |inner| && inner[i].first <= s <= inner[i].last;
        assert InsideOne(inner[i], outer);
        var j :| 0 <= j < |outer| && outer[j].first <= inner[i].first <= inner[i].last <= outer[j].last;
        assert outer[j].first <= s <= outer[j].last;
      }
    }
    if forall s :: In(s, inner) ==> In(s, outer) {
      forall i | 0 <= i < |inner|
        ensures InsideOne(inner[i], outer)
      {
        assert inner[i].first <= inner[i].first <= inner[i].last;
        assert In(inner[i].first, inner);
        var j :| 0 <= j < |outer| && outer[j].first <= inner[i].first <= outer[j].last;
        GapAfter(outer, j);
        InsideIsIn(inner, i, outer[j].last + 1);
      }
    }
  }
}
