/**
 * The lane-local seed ledger of scripts/grab_food_seed_reservations.py: an
 * allocation is admitted against the source's history, the ledger's merged
 * intervals and every earlier allocation receipt, and is then committed.
 */
module SeedReservations {
  import opened Common
  import opened SeedRanges

  const LEDGER_KIND := "grab-food-seed-ledger"
  const HISTORY_KIND := "grab-food-seed-history"
  const SOURCE_FILES: set<string> :=
    {"cycle.json", "trained.alife-foundation", "actor-checkpoint.json", "value-checkpoint.json"}
  const PROVENANCE: set<string> := {"output", "history_path", "history_sha256", "reserved_utc"}

  /** An allocation receipt: the pair it trained on, its assessment seed, its source and its provenance. */
  datatype Receipt = Receipt(
    range: seq<int>, assessment: int, sources: map<string, string>, provenance: map<string, string>)

  datatype History = History(
    kind: string, complete: bool, evidence: string, sources: map<string, string>,
    ranges: seq<seq<int>>, assessments: seq<int>)

  datatype Ledger = Ledger(kind: string, ranges: seq<seq<int>>, assessments: seq<int>, allocations: seq<Receipt>)

  datatype Request = Request(sources: map<string, string>, sourceSeed: int, first: int, count: int, assessment: int) {
    function Last(): int { first + count - 1 }
  }

  ghost predicate FourDigests(sources: map<string, string>) {
    sources.Keys == SOURCE_FILES && forall k :: k in sources ==> IsHex64(sources[k])
  }

  /** The characters `str.strip` drops: those of Unicode that count as white space. */
  predicate IsSpace(c: char) {
    var n := c as int;
    || 0x09 <= n <= 0x0d || 0x1c <= n <= 0x20 || n == 0x85 || n == 0xa0 || n == 0x1680
    || 0x2000 <= n <= 0x200a || n == 0x2028 || n == 0x2029 || n == 0x202f || n == 0x205f || n == 0x3000
  }

  ghost predicate Blank(s: string) {
    forall i :: 0 <= i < |s| ==> IsSpace(s[i])
  }

  ghost predicate SeedList(seeds: seq<int>) {
    |seeds| <= MAX_ENTRIES && forall i :: 0 <= i < |seeds| ==> IsSeed(seeds[i])
  }

  ghost predicate ReceiptAdmitted(a: Receipt) {
    && IsPair(a.range) && IsSeed(a.assessment) && FourDigests(a.sources)
    && forall k :: k in PROVENANCE ==> k in a.provenance && a.provenance[k] != ""
  }

  ghost predicate AllAdmitted(allocations: seq<Receipt>) {
    forall i {:trigger allocations[i]} :: 0 <= i < |allocations| ==> ReceiptAdmitted(allocations[i])
  }

  const EMPTY := Ledger(LEDGER_KIND, [], [], [])

  /** `prior_ranges` after the receipts: each surviving receipt contributes its own interval. */
  ghost function WithReceipts(prior: seq<Range>, allocations: seq<Receipt>): (r: seq<Range>)
    requires AllAdmitted(allocations)
    decreases |allocations|
  {
    if allocations == [] then prior
    else WithReceipts(prior, allocations[..|allocations| - 1])
         + [Range(allocations[|allocations| - 1].range[0], allocations[|allocations| - 1].range[1])]
  }

  function InsertSeed(s: int, sorted: seq<int>): seq<int> {
    if sorted == [] || s < sorted[0] then [s] + sorted
    else if s == sorted[0] then sorted
    else [sorted[0]] + InsertSeed(s, sorted[1..])
  }

  /** `sorted(set(seeds))`. */
  function SortedSet(seeds: seq<int>): seq<int> {
    if seeds == [] then [] else InsertSeed(seeds[0], SortedSet(seeds[1..]))
  }

  lemma {:induction false} InsertSeedAdds(s: int, sorted: seq<int>, x: int)
    ensures x in InsertSeed(s, sorted) <==> x == s || x in sorted
  {
    if sorted != [] && s > sorted[0] {
      InsertSeedAdds(s, sorted[1..], x);
      assert sorted == [sorted[0]] + sorted[1..];
    }
  }

  lemma {:induction false} SortedSetMembers(seeds: seq<int>, x: int)
    ensures x in SortedSet(seeds) <==> x in seeds
  {
    if seeds != [] {
      SortedSetMembers(seeds[1..], x);
      InsertSeedAdds(seeds[0], SortedSet(seeds[1..]), x);
      assert seeds == [seeds[0]] + seeds[1..];
    }
  }

  predicate Ascending(seeds: seq<int>) {
    forall i, j :: 0 <= i < j < |seeds| ==> seeds[i] < seeds[j]
  }

  lemma {:induction false} InsertSeedAscends(s: int, sorted: seq<int>)
    requires Ascending(sorted)
    ensures Ascending(InsertSeed(s, sorted))
  {
    if sorted != [] && s > sorted[0] {
      InsertSeedAscends(s, sorted[1..]);
      var rest := InsertSeed(s, sorted[1..]);
      forall i | 0 <= i < |rest|
        ensures sorted[0] < rest[i]
      {
        InsertSeedAdds(s, sorted[1..], rest[i]);
      }
    }
  }

  lemma {:induction false} SortedSetAscends(seeds: seq<int>)
    ensures Ascending(SortedSet(seeds))
  {
    if seeds != [] {
      SortedSetAscends(seeds[1..]);
      InsertSeedAscends(seeds[0], SortedSet(seeds[1..]));
    }
  }

  function AssessmentsOf(allocations: seq<Receipt>): (r: seq<int>)
    ensures |r| == |allocations| && forall i :: 0 <= i < |r| ==> r[i] == allocations[i].assessment
  {
    seq(|allocations|, i requires 0 <= i < |allocations| => allocations[i].assessment)
  }

  // ---------------------------------------------------------------------
  // The checks, as they run
  // ---------------------------------------------------------------------

  /** `not text.strip()`. */
  method IsBlank(s: string) returns (blank: bool)
    ensures blank <==> Blank(s)
  {
    for i := 0 to |s|
      invariant forall k :: 0 <= k < i ==> IsSpace(s[k])
    {
      if !IsSpace(s[i]) {
        return false;
      }
    }
    return true;
  }

  /** `_hashes`: exactly the four files, each with a digest of 64 hexadecimal digits. */
  method CheckDigests(sources: map<string, string>) returns (ok: bool)
    ensures ok <==> FourDigests(sources)
  {
    if sources.Keys != SOURCE_FILES {
      return false;
    }
    var todo := sources.Keys;
    while todo != {}
      invariant todo <= sources.Keys && forall k :: k in sources && k !in todo ==> IsHex64(sources[k])
      decreases todo
    {
      var k :| k in todo;
      if !IsHex64(sources[k]) {
        return false;
      }
      todo := todo - {k};
    }
    return true;
  }

  /** `_list` and `_seed` over a list of seeds. */
  method CheckSeeds(seeds: seq<int>) returns (ok: bool)
    ensures ok <==> SeedList(seeds)
  {
    if |seeds| > MAX_ENTRIES {
      return false;
    }
    for i := 0 to |seeds|
      invariant forall k :: 0 <= k < i ==> IsSeed(seeds[k])
    {
      if seeds[i] < 1 || seeds[i] > MAX_SEED {
        return false;
      }
    }
    return true;
  }

  /** The checks on one receipt, after its interval has been read. */
  method CheckReceipt(a: Receipt) returns (ok: bool)
    requires IsPair(a.range)
    ensures ok <==> ReceiptAdmitted(a)
  {
    if a.assessment < 1 || a.assessment > MAX_SEED {
      return false;
    }
    ok := CheckDigests(a.sources);
    if !ok {
      return;
    }
    var todo := PROVENANCE;
    while todo != {}
      invariant todo <= PROVENANCE && forall k :: k in PROVENANCE && k !in todo ==> k in a.provenance && a.provenance[k] != ""
      decreases todo
    {
      var k :| k in todo;
      if k !in a.provenance || a.provenance[k] == "" {
        return false;
      }
      todo := todo - {k};
    }
  }

  // ---------------------------------------------------------------------
  // prepare()
  // ---------------------------------------------------------------------

  ghost predicate RequestAdmitted(q: Request) {
    && IsSeed(q.first) && IsSeed(q.assessment) && IsSeed(q.sourceSeed)
    && 1 <= q.count <= MAX_ENTRIES && q.Last() <= MAX_SEED
  }

  ghost predicate HistoryAdmitted(h: History, q: Request) {
    && h.kind == HISTORY_KIND && h.complete && !Blank(h.evidence)
    && FourDigests(h.sources) && FourDigests(q.sources) && h.sources == q.sources
    && Admitted(h.ranges) && SeedList(h.assessments)
    && Contains(RangesOf(h.ranges).value, q.sourceSeed)
  }

  ghost predicate LedgerAdmitted(l: Ledger) {
    && l.kind == LEDGER_KIND && Admitted(l.ranges) && SeedList(l.assessments)
    && |l.allocations| < MAX_ENTRIES
    && AllAdmitted(l.allocations)
  }

  /** All intervals known before this request, not yet merged. */
  ghost function Known(h: History, l: Ledger): seq<Range>
    requires Admitted(h.ranges) && LedgerAdmitted(l)
  {
    RangesOf(h.ranges).value + WithReceipts(RangesOf(l.ranges).value, l.allocations)
  }

  function Assessed(h: History, l: Ledger, q: Request): seq<int> {
    h.assessments + l.assessments + AssessmentsOf(l.allocations) + [q.assessment]
  }

  /** The three collision tests, on the merged intervals `training`. */
  predicate Free(training: seq<Range>, assessed: seq<int>, q: Request) {
    && (forall i :: 0 <= i < |training| ==> !(q.first <= training[i].last && training[i].first <= q.Last()))
    && (forall i :: 0 <= i < |assessed| ==> !(q.first <= assessed[i] <= q.Last()))
    && (forall i :: 0 <= i < |assessed| ==> !Contains(training, assessed[i]))
  }

  /** The two halves of `prepare`: what is read, and what is decided on the merged intervals. */
  ghost predicate Readable(h: History, l: Ledger, q: Request) {
    RequestAdmitted(q) && HistoryAdmitted(h, q) && LedgerAdmitted(l)
  }

  function Decided(training: Option<seq<Range>>, assessed: seq<int>, l: Ledger, q: Request): Option<Ledger> {
    if training.None? || !Free(training.value, assessed, q) then None
    else
      var reserved := RangesOf(Pairs(training.value) + [[q.first, q.Last()]]);
      if reserved.None? then None
      else Some(Ledger(LEDGER_KIND, Pairs(reserved.value), SortedSet(assessed), l.allocations))
  }

  /** `prepare`: the ledger to commit, `None` where it raises. */
  ghost function Prepared(h: History, stored: Option<Ledger>, q: Request): Option<Ledger> {
    var l := stored.GetOr(EMPTY);
    if !Readable(h, l, q) then None
    else Decided(RangesOf(Pairs(Known(h, l))), Assessed(h, l, q), l, q)
  }

  /** A seed that history, the ledger's intervals or any receipt has already reserved. */
  predicate Reserved(s: int, h: History, l: Ledger) {
    InPairs(s, h.ranges) || InLedger(s, l)
  }

  predicate InLedger(s: int, l: Ledger) {
    InPairs(s, l.ranges) || InReceipts(s, l.allocations)
  }

  predicate InReceipts(s: int, allocations: seq<Receipt>) {
    exists i :: 0 <= i < |allocations| && InReceipt(s, allocations[i])
  }

  predicate InReceipt(s: int, a: Receipt) {
    |a.range| == 2 && a.range[0] <= s <= a.range[1]
  }

  lemma InPairsOf(s: int, ranges: seq<Range>)
    ensures InPairs(s, Pairs(ranges)) <==> In(s, ranges)
  {
    var value := Pairs(ranges);
    if InPairs(s, value) {
      var i :| 0 <= i < |value| && |value[i]| == 2 && value[i][0] <= s <= value[i][1];
      assert ranges[i].first <= s <= ranges[i].last;
    }
    if In(s, ranges) {
      var i :| 0 <= i < |ranges| && ranges[i].first <= s <= ranges[i].last;
      assert value[i][0] <= s <= value[i][1];
    }
  }

  lemma InConcat(s: int, a: seq<Range>, b: seq<Range>)
    ensures In(s, a + b) <==> In(s, a) || In(s, b)
  {
    var c := a + b;
    if In(s, a) {
      var i :| 0 <= i < |a| && a[i].first <= s <= a[i].last;
      assert c[i].first <= s <= c[i].last;
    }
    if In(s, b) {
      var i :| 0 <= i < |b| && b[i].first <= s <= b[i].last;
      assert c[|a| + i].first <= s <= c[|a| + i].last;
    }
    if In(s, c) {
      var i :| 0 <= i < |c| && c[i].first <= s <= c[i].last;
      if i < |a| {
        assert a[i].first <= s <= a[i].last;
      } else {
        assert b[i - |a|].first <= s <= b[i - |a|].last;
      }
    }
  }

  lemma {:induction false} ReceiptsCover(s: int, prior: seq<Range>, allocations: seq<Receipt>)
    requires AllAdmitted(allocations)
    ensures In(s, WithReceipts(prior, allocations)) <==>
            In(s, prior) || InReceipts(s, allocations)
    decreases |allocations|
  {
    if allocations != [] {
      var n := |allocations| - 1;
      ReceiptsCover(s, prior, allocations[..n]);
      var one := [Range(allocations[n].range[0], allocations[n].range[1])];
      InConcat(s, WithReceipts(prior, allocations[..n]), one);
      InsideIsIn(one, 0, s);
      LastReceipt(s, allocations);
    }
  }

  lemma LastReceipt(s: int, allocations: seq<Receipt>)
    requires allocations != []
    ensures var n := |allocations| - 1;
            InReceipts(s, allocations) <==> InReceipts(s, allocations[..n]) || InReceipt(s, allocations[n])
  {
    var head := allocations[..|allocations| - 1];
    if InReceipts(s, head) {
      var i :| 0 <= i < |head| && InReceipt(s, head[i]);
      assert InReceipt(s, allocations[i]);
    }
    if InReceipts(s, allocations) {
      var i :| 0 <= i < |allocations| && InReceipt(s, allocations[i]);
      assert i < |head| ==> InReceipt(s, head[i]);
    }
  }

  /** What one admission knows: the merged intervals hold exactly the seeds reserved before. */
  lemma KnownIsReserved(h: History, l: Ledger, s: int)
    requires Admitted(h.ranges) && LedgerAdmitted(l)
    ensures In(s, Known(h, l)) <==> Reserved(s, h, l)
  {
    RangesOfCovers(h.ranges);
    RangesOfCovers(l.ranges);
    ReceiptsCover(s, RangesOf(l.ranges).value, l.allocations);
    InConcat(s, RangesOf(h.ranges).value, WithReceipts(RangesOf(l.ranges).value, l.allocations));
  }

  lemma InPairsAppend(s: int, value: seq<seq<int>>, pair: seq<int>)
    ensures InPairs(s, value + [pair]) <==> InPairs(s, value) || (|pair| == 2 && pair[0] <= s <= pair[1])
  {
    var longer := value + [pair];
    if InPairs(s, value) {
      var i :| 0 <= i < |value| && |value[i]| == 2 && value[i][0] <= s <= value[i][1];
      assert |longer[i]| == 2 && longer[i][0] <= s <= longer[i][1];
    }
    if |pair| == 2 && pair[0] <= s <= pair[1] {
      assert longer[|value|] == pair;
    }
  }

  /**
   * One accepted admission: the new interval was free, the prepared ledger reserves exactly what was
   * known plus the new interval, and none of its training seeds is one of its assessment seeds.
   */
  lemma PreparedReserves(h: History, stored: Option<Ledger>, q: Request, s: int)
    requires Prepared(h, stored, q).Some?
    ensures var l := stored.GetOr(EMPTY);
            var p := Prepared(h, stored, q).value;
            && (InPairs(s, p.ranges) <==> Reserved(s, h, l) || q.first <= s <= q.Last())
            && (q.first <= s <= q.Last() ==> !Reserved(s, h, l))
            && (s in p.assessments <==>
                  s in h.assessments || s in l.assessments || s in AssessmentsOf(l.allocations) || s == q.assessment)
            && (s in p.assessments ==> !InPairs(s, p.ranges))
            && p.allocations == l.allocations
  {
    var l := stored.GetOr(EMPTY);
    var known := Known(h, l);
    var training := RangesOf(Pairs(known)).value;
    var assessed := Assessed(h, l, q);
    var reserved := RangesOf(Pairs(training) + [[q.first, q.Last()]]).value;
    RangesOfCovers(Pairs(known));
    RangesOfCovers(Pairs(training) + [[q.first, q.Last()]]);
    KnownIsReserved(h, l, s);
    InPairsOf(s, known);
    InPairsOf(s, training);
    InPairsOf(s, reserved);
    InPairsAppend(s, Pairs(training), [q.first, q.Last()]);
    assert InPairs(s, Pairs(reserved)) <==> In(s, training) || q.first <= s <= q.Last();
    assert In(s, training) <==> Reserved(s, h, l);
    SortedSetMembers(assessed, s);
    if s in assessed {
      var i :| 0 <= i < |assessed| && assessed[i] == s;
      ContainsIsMembership(training, s);
    }
    assert q.first <= s <= q.Last() ==> !In(s, training);
  }

  // ---------------------------------------------------------------------
  // What is admitted, in terms of the seeds
  // ---------------------------------------------------------------------

  /** A seed that history, ledger, a receipt or the request assesses. */
  predicate Assesses(s: int, h: History, l: Ledger, q: Request) {
    || s in h.assessments || s in l.assessments || s == q.assessment
    || exists i {:trigger l.allocations[i]} :: 0 <= i < |l.allocations| && l.allocations[i].assessment == s
  }

  ghost predicate MergedReserved(ranges: seq<Range>, h: History, l: Ledger) {
    Canonical(ranges) && forall s :: In(s, ranges) <==> Reserved(s, h, l)
  }

  /** No seed is trained twice, and none is both trained and assessed. */
  ghost predicate NoCollision(h: History, l: Ledger, q: Request) {
    && (forall s :: q.first <= s < q.first + q.count ==> !Reserved(s, h, l) && !Assesses(s, h, l, q))
    && (forall s :: Assesses(s, h, l, q) ==> !Reserved(s, h, l))
  }

  lemma {:induction false} ReceiptsAreBounded(prior: seq<Range>, allocations: seq<Receipt>)
    requires AllAdmitted(allocations) && AllPairs(Pairs(prior))
    ensures |WithReceipts(prior, allocations)| == |prior| + |allocations|
    ensures AllPairs(Pairs(WithReceipts(prior, allocations)))
    decreases |allocations|
  {
    if allocations != [] {
      var n := |allocations| - 1;
      ReceiptsAreBounded(prior, allocations[..n]);
      var before, after := WithReceipts(prior, allocations[..n]), WithReceipts(prior, allocations);
      assert ReceiptAdmitted(allocations[n]);
      forall i | 0 <= i < |after|
        ensures IsPair(Pairs(after)[i])
      {
        assert i < |before| ==> IsPair(Pairs(before)[i]);
      }
    }
  }

  lemma MergedArePairs(value: seq<seq<int>>)
    requires Admitted(value)
    ensures AllPairs(Pairs(RangesOf(value).value))
  {
    RangesOfCovers(value);
  }

  lemma KnownArePairs(h: History, l: Ledger)
    requires Admitted(h.ranges) && LedgerAdmitted(l)
    ensures AllPairs(Pairs(Known(h, l)))
    ensures |Known(h, l)| == |RangesOf(h.ranges).value| + |RangesOf(l.ranges).value| + |l.allocations|
  {
    MergedArePairs(h.ranges);
    MergedArePairs(l.ranges);
    ReceiptsAreBounded(RangesOf(l.ranges).value, l.allocations);
    var a, b := RangesOf(h.ranges).value, WithReceipts(RangesOf(l.ranges).value, l.allocations);
    forall i | 0 <= i < |a + b|
      ensures IsPair(Pairs(a + b)[i])
    {
      assert if i < |a| then IsPair(Pairs(a)[i]) else IsPair(Pairs(b)[i - |a|]);
    }
  }

  /** The merged lists of history and ledger and the receipts are together within the bound on entries. */
  ghost predicate EntriesFit(h: History, l: Ledger)
    requires Admitted(h.ranges) && Admitted(l.ranges)
  {
    |RangesOf(h.ranges).value| + |RangesOf(l.ranges).value| + |l.allocations| <= MAX_ENTRIES
  }

  /** The merged form of everything reserved has room for one more entry. */
  ghost predicate MergedFits(h: History, l: Ledger) {
    forall merged :: MergedReserved(merged, h, l) ==> |merged| < MAX_ENTRIES
  }

  lemma MergedExactly(h: History, l: Ledger, training: seq<Range>)
    requires MergedReserved(training, h, l)
    ensures MergedFits(h, l) <==> |training| < MAX_ENTRIES
  {
    forall merged | MergedReserved(merged, h, l)
      ensures merged == training
    {
      CanonicalFormIsUnique(merged, training);
    }
  }

  lemma TrainingIsReserved(h: History, l: Ledger)
    requires Admitted(h.ranges) && LedgerAdmitted(l) && Admitted(Pairs(Known(h, l)))
    ensures var training := RangesOf(Pairs(Known(h, l))).value; MergedReserved(training, h, l) && Bounded(training)
  {
    var training := RangesOf(Pairs(Known(h, l))).value;
    RangesOfCovers(Pairs(Known(h, l)));
    forall s
      ensures In(s, training) <==> Reserved(s, h, l)
    {
      InPairsOf(s, Known(h, l));
      KnownIsReserved(h, l, s);
    }
  }

  /** The three tests on merged intervals are the absence of collisions. */
  lemma FreeExactly(h: History, l: Ledger, q: Request, training: seq<Range>)
    requires q.count >= 1 && MergedReserved(training, h, l) && Bounded(training)
    ensures Free(training, Assessed(h, l, q), q) <==> NoCollision(h, l, q)
  {
    var assessed := Assessed(h, l, q);
    AssessedExactly(h, l, q);
    if Free(training, assessed, q) {
      forall s | q.first <= s < q.first + q.count
        ensures !Reserved(s, h, l) && !Assesses(s, h, l, q)
      {
        assert !In(s, training);
        assert s !in assessed;
      }
      forall s | Assesses(s, h, l, q)
        ensures !Reserved(s, h, l)
      {
        var i :| 0 <= i < |assessed| && assessed[i] == s;
        ContainsIsMembership(training, s);
      }
    }
    if NoCollision(h, l, q) {
      forall i | 0 <= i < |training|
        ensures !(q.first <= training[i].last && training[i].first <= q.Last())
      {
        if q.first <= training[i].last && training[i].first <= q.Last() {
          var s := if q.first <= training[i].first then training[i].first else q.first;
          assert In(s, training);
        }
      }
      forall i | 0 <= i < |assessed|
        ensures !(q.first <= assessed[i] <= q.Last()) && !Contains(training, assessed[i])
      {
        assert Assesses(assessed[i], h, l, q);
        ContainsIsMembership(training, assessed[i]);
      }
    }
  }

  lemma AssessedExactly(h: History, l: Ledger, q: Request)
    ensures forall s :: s in Assessed(h, l, q) <==> Assesses(s, h, l, q)
  {
    forall s
      ensures s in Assessed(h, l, q) <==> Assesses(s, h, l, q)
    {
      var own := AssessmentsOf(l.allocations);
      assert s in Assessed(h, l, q) <==> s in h.assessments || s in l.assessments || s in own || s == q.assessment;
      if s in own {
        var i :| 0 <= i < |own| && own[i] == s;
        assert l.allocations[i].assessment == s;
      }
      if i :| 0 <= i < |l.allocations| && l.allocations[i].assessment == s {
        assert own[i] == s;
      }
    }
  }

  /**
   * Which requests are admitted: well-formed ones, against a complete history of the admitted source that
   * holds the source seed and a valid ledger, when the merged lists stay within the bound on entries and no
   * seed collides with another use.
   */
  ghost predicate Admissible(h: History, l: Ledger, q: Request) {
    && RequestAdmitted(q) && LedgerAdmitted(l)
    && h.kind == HISTORY_KIND && h.complete && !Blank(h.evidence)
    && FourDigests(h.sources) && h.sources == q.sources
    && Admitted(h.ranges) && SeedList(h.assessments) && InPairs(q.sourceSeed, h.ranges)
    && EntriesFit(h, l) && MergedFits(h, l) && NoCollision(h, l, q)
  }

  lemma DecidedExactly(h: History, l: Ledger, q: Request, training: seq<Range>)
    requires RequestAdmitted(q) && MergedReserved(training, h, l) && Bounded(training)
    ensures Decided(Some(training), Assessed(h, l, q), l, q).Some? <==> MergedFits(h, l) && NoCollision(h, l, q)
  {
    MergedExactly(h, l, training);
    FreeExactly(h, l, q, training);
    OneMorePair(training, q);
  }

  lemma MergedOrNot(h: History, l: Ledger)
    requires Admitted(h.ranges) && LedgerAdmitted(l)
    ensures RangesOf(Pairs(Known(h, l))).Some? <==> EntriesFit(h, l)
    ensures RangesOf(Pairs(Known(h, l))).Some? ==>
              && MergedReserved(RangesOf(Pairs(Known(h, l))).value, h, l) && Bounded(RangesOf(Pairs(Known(h, l))).value)
  {
    KnownArePairs(h, l);
    if |Known(h, l)| <= MAX_ENTRIES {
      TrainingIsReserved(h, l);
    }
  }

  lemma ReadableExactly(h: History, l: Ledger, q: Request)
    ensures Readable(h, l, q) <==>
            && RequestAdmitted(q) && LedgerAdmitted(l)
            && h.kind == HISTORY_KIND && h.complete && !Blank(h.evidence)
            && FourDigests(h.sources) && h.sources == q.sources
            && Admitted(h.ranges) && SeedList(h.assessments) && InPairs(q.sourceSeed, h.ranges)
  {
    if Admitted(h.ranges) {
      RangesOfCovers(h.ranges);
      ContainsIsMembership(RangesOf(h.ranges).value, q.sourceSeed);
    }
  }

  lemma PreparedExactly(h: History, stored: Option<Ledger>, q: Request)
    ensures Prepared(h, stored, q).Some? <==> Admissible(h, stored.GetOr(EMPTY), q)
  {
    var l := stored.GetOr(EMPTY);
    ReadableExactly(h, l, q);
    if Readable(h, l, q) {
      MergedOrNot(h, l);
      var training := RangesOf(Pairs(Known(h, l)));
      if training.Some? {
        DecidedExactly(h, l, q, training.value);
      }
    }
  }

  lemma OneMorePair(training: seq<Range>, q: Request)
    requires RequestAdmitted(q) && Bounded(training) && Canonical(training)
    ensures RangesOf(Pairs(training) + [[q.first, q.Last()]]).Some? <==> |training| < MAX_ENTRIES
  {
    var value := Pairs(training) + [[q.first, q.Last()]];
    assert forall i {:trigger value[i]} :: 0 <= i < |value| ==> IsPair(value[i]);
  }

  /** A prepared ledger is in its one canonical form. */
  lemma PreparedIsCanonical(h: History, stored: Option<Ledger>, q: Request)
    requires Prepared(h, stored, q).Some?
    ensures var p := Prepared(h, stored, q).value;
            && p.kind == LEDGER_KIND && Ascending(p.assessments)
            && exists merged :: Canonical(merged) && p.ranges == Pairs(merged)
  {
    var l := stored.GetOr(EMPTY);
    var training := RangesOf(Pairs(Known(h, l))).value;
    RangesOfCovers(Pairs(training) + [[q.first, q.Last()]]);
    SortedSetAscends(Assessed(h, l, q));
  }

  lemma SingleRange(pair: seq<int>)
    ensures RangesOf([pair]).Some? <==> IsPair(pair)
    ensures IsPair(pair) ==> RangesOf([pair]) == Some([Range(pair[0], pair[1])])
  {
    assert AllPairs([pair]) <==> IsPair([pair][0]);
    if IsPair(pair) {
      var one := [Range(pair[0], pair[1])];
      assert Pairs(one)[0] == pair;
      assert Pairs(one) == [pair];
      MergingIsIdempotent(one);
    }
  }

  lemma OneMoreAdmitted(allocations: seq<Receipt>, i: nat)
    requires i < |allocations| && AllAdmitted(allocations[..i])
    ensures AllAdmitted(allocations[..i + 1]) <==> ReceiptAdmitted(allocations[i])
  {
    var shorter, longer := allocations[..i], allocations[..i + 1];
    assert longer[i] == allocations[i];
    if ReceiptAdmitted(allocations[i]) {
      forall k | 0 <= k < |longer|
        ensures ReceiptAdmitted(longer[k])
      {
        assert k < i ==> longer[k] == shorter[k];
      }
    }
  }

  lemma OneMoreReceipt(prior: seq<Range>, allocations: seq<Receipt>, i: nat)
    requires i < |allocations| && AllAdmitted(allocations[..i]) && AllAdmitted(allocations[..i + 1])
    requires ReceiptAdmitted(allocations[i])
    ensures WithReceipts(prior, allocations[..i + 1])
            == WithReceipts(prior, allocations[..i]) + [Range(allocations[i].range[0], allocations[i].range[1])]
    ensures AssessmentsOf(allocations[..i + 1]) == AssessmentsOf(allocations[..i]) + [allocations[i].assessment]
  {
    var longer := allocations[..i + 1];
    assert longer[i] == allocations[i] && longer[..i] == allocations[..i];
  }

  /** The loop over the surviving receipts: each one is an exclusion, an invalid one stops admission. */
  method GatherReceipts(prior: seq<Range>, allocations: seq<Receipt>) returns (r: Option<(seq<Range>, seq<int>)>)
    ensures r.Some? <==> AllAdmitted(allocations)
    ensures r.Some? ==> r.value == (WithReceipts(prior, allocations), AssessmentsOf(allocations))
  {
    var ranges, assessments := prior, [];
    for i := 0 to |allocations|
      invariant AllAdmitted(allocations[..i])
      invariant ranges == WithReceipts(prior, allocations[..i])
      invariant assessments == AssessmentsOf(allocations[..i])
    {
      var a := allocations[i];
      var own := Ranges([a.range]);
      SingleRange(a.range);
      OneMoreAdmitted(allocations, i);
      if own.None? {
        assert !ReceiptAdmitted(allocations[i]);
        return None;
      }
      var ok := CheckReceipt(a);
      if !ok {
        assert !ReceiptAdmitted(allocations[i]);
        return None;
      }
      OneMoreReceipt(prior, allocations, i);
      ranges := ranges + own.value;
      assessments := assessments + [a.assessment];
    }
    assert allocations[..|allocations|] == allocations;
    return Some((ranges, assessments));
  }

  /** The checks on the history: its merged training ranges, or None. */
  method ReadHistory(h: History, q: Request) returns (r: Option<seq<Range>>)
    ensures r.Some? <==> HistoryAdmitted(h, q)
    ensures r.Some? ==> r == RangesOf(h.ranges)
  {
    var blank := IsBlank(h.evidence);
    if h.kind != HISTORY_KIND || !h.complete || blank {
      return None;
    }
    var own := CheckDigests(h.sources);
    var given := CheckDigests(q.sources);
    if !own || !given || h.sources != q.sources {
      return None;
    }
    var training := Ranges(h.ranges);
    var seeds := CheckSeeds(h.assessments);
    if training.None? || !seeds || !Contains(training.value, q.sourceSeed) {
      return None;
    }
    return training;
  }

  /** The checks on the surviving ledger: its intervals with those of the receipts, and their assessment seeds. */
  method ReadLedger(l: Ledger) returns (r: Option<(seq<Range>, seq<int>)>)
    ensures r.Some? <==> LedgerAdmitted(l)
    ensures r.Some? ==> r.value == (WithReceipts(RangesOf(l.ranges).value, l.allocations), AssessmentsOf(l.allocations))
  {
    if l.kind != LEDGER_KIND {
      return None;
    }
    var prior := Ranges(l.ranges);
    var seeds := CheckSeeds(l.assessments);
    if prior.None? || !seeds || |l.allocations| >= MAX_ENTRIES {
      return None;
    }
    r := GatherReceipts(prior.value, l.allocations);
  }

  /**
   * `prepare`: it raises exactly for the requests that are not admissible; otherwise the ledger to commit
   * is the specified one.
   */
  method Prepare(h: History, stored: Option<Ledger>, q: Request) returns (r: Option<Ledger>)
    ensures r.Some? <==> Admissible(h, stored.GetOr(EMPTY), q)
    ensures r == Prepared(h, stored, q)
  {
    PreparedExactly(h, stored, q);
    r := Allocate(h, stored, q);
  }

  /** The steps of `prepare`: history, ledger, then the merged intervals and the three tests. */
  method Allocate(h: History, stored: Option<Ledger>, q: Request) returns (r: Option<Ledger>)
    ensures r == Prepared(h, stored, q)
  {
    if !IsSeed(q.first) || !IsSeed(q.assessment) || !IsSeed(q.sourceSeed)
       || !(1 <= q.count <= MAX_ENTRIES) || q.first + q.count - 1 > MAX_SEED {
      return None;
    }
    var training := ReadHistory(h, q);
    if training.None? {
      return None;
    }
    var ledger := if stored.Some? then stored.value else EMPTY;
    var gathered := ReadLedger(ledger);
    if gathered.None? {
      return None;
    }
    var (priorRanges, own) := gathered.value;
    var assessments := h.assessments + ledger.assessments + own + [q.assessment];
    var merged := Ranges(Pairs(training.value + priorRanges));
    if merged.None? || !Free(merged.value, assessments, q) {
      return None;
    }
    var reserved := Ranges(Pairs(merged.value) + [[q.first, q.Last()]]);
    if reserved.None? {
      return None;
    }
    return Some(Ledger(LEDGER_KIND, Pairs(reserved.value), SortedSet(assessments), ledger.allocations));
  }

  // ---------------------------------------------------------------------
  // Runs
  // ---------------------------------------------------------------------

  /**
   * What can happen to a lane's ledger: an allocation is prepared and, when admitted, committed with
   * a receipt for what was asked; or the top-level lists are lost or replaced by anything.
   */
  datatype Event =
    | Reserve(history: History, request: Request, provenance: map<string, string>)
    | Lose(ranges: seq<seq<int>>, assessments: seq<int>)

  function Committed(p: Ledger, q: Request, provenance: map<string, string>): Ledger {
    p.(allocations := p.allocations + [Receipt([q.first, q.Last()], q.assessment, q.sources, provenance)])
  }

  ghost function Step(stored: Option<Ledger>, e: Event): Option<Ledger> {
    match e
    case Reserve(h, q, provenance) =>
      var p := Prepared(h, stored, q);
      if p.Some? then Some(Committed(p.value, q, provenance)) else stored
    case Lose(ranges, assessments) =>
      if stored.Some? then Some(stored.value.(ranges := ranges, assessments := assessments)) else None
  }

  ghost function RunEvents(stored: Option<Ledger>, events: seq<Event>): Option<Ledger>
    decreases |events|
  {
    if events == [] then stored else RunEvents(Step(stored, events[0]), events[1..])
  }

  ghost predicate ApartReceipts(a: Receipt, b: Receipt) {
    forall s :: !(InReceipt(s, a) && InReceipt(s, b))
  }

  ghost predicate CollisionFree(a: Receipt, b: Receipt) {
    ApartReceipts(a, b) && !InReceipt(b.assessment, a) && !InReceipt(a.assessment, b)
  }

  /** All allocations train on disjoint seeds, and none trains on any assessment seed, its own included. */
  ghost predicate AllApart(allocations: seq<Receipt>) {
    && (forall i, j :: 0 <= i < j < |allocations| ==> ApartReceipts(allocations[i], allocations[j]))
    && (forall i, j :: 0 <= i < |allocations| && 0 <= j < |allocations| ==>
          !InReceipt(allocations[i].assessment, allocations[j]))
  }

  /** A receipt committed for an admitted request collides with no earlier receipt. */
  lemma NewReceiptApart(h: History, stored: Option<Ledger>, q: Request, added: Receipt, i: nat)
    requires Prepared(h, stored, q).Some? && i < |stored.GetOr(EMPTY).allocations|
    requires added.range == [q.first, q.Last()] && added.assessment == q.assessment
    ensures var a := stored.GetOr(EMPTY).allocations[i];
            CollisionFree(a, added)
  {
    var l := stored.GetOr(EMPTY);
    var a := l.allocations[i];
    forall s
      ensures !(InReceipt(s, a) && InReceipt(s, added))
      ensures s == q.assessment ==> !InReceipt(s, a)
    {
      PreparedReserves(h, stored, q, s);
      assert InReceipt(s, a) ==> InReceipts(s, l.allocations);
    }
    assert AssessmentsOf(l.allocations)[i] == a.assessment;
    PreparedReserves(h, stored, q, a.assessment);
  }

  lemma AppendApart(prior: seq<Receipt>, added: Receipt)
    requires AllApart(prior) && !InReceipt(added.assessment, added)
    requires forall i :: 0 <= i < |prior| ==> CollisionFree(prior[i], added)
    ensures AllApart(prior + [added])
  {
  }

  lemma StepKeepsApart(stored: Option<Ledger>, e: Event)
    requires stored.Some? ==> AllApart(stored.value.allocations)
    ensures var l := Step(stored, e);
            && (l.Some? ==> AllApart(l.value.allocations))
            && (stored.Some? ==> l.Some? && stored.value.allocations <= l.value.allocations)
  {
    if e.Reserve? && Prepared(e.history, stored, e.request).Some? {
      var q := e.request;
      var prior := stored.GetOr(EMPTY).allocations;
      var added := Receipt([q.first, q.Last()], q.assessment, q.sources, e.provenance);
      assert Step(stored, e).value.allocations == prior + [added];
      PreparedReserves(e.history, stored, q, q.assessment);
      forall i | 0 <= i < |prior|
        ensures CollisionFree(prior[i], added)
      {
        NewReceiptApart(e.history, stored, q, added, i);
      }
      AppendApart(prior, added);
    }
  }

  /**
   * Whatever histories are presented and however often the top-level lists are lost: over every run
   * the committed allocations never collide, and no receipt is ever dropped.
   */
  lemma {:induction false} RunsNeverCollide(stored: Option<Ledger>, events: seq<Event>)
    requires stored.Some? ==> AllApart(stored.value.allocations)
    ensures var l := RunEvents(stored, events);
            && (l.Some? ==> AllApart(l.value.allocations))
            && (stored.Some? ==> l.Some? && stored.value.allocations <= l.value.allocations)
    decreases |events|
  {
    if events != [] {
      StepKeepsApart(stored, events[0]);
      RunsNeverCollide(Step(stored, events[0]), events[1..]);
    }
  }

  /** Without losses reservations never shrink: training seeds and assessment seeds only accumulate. */
  lemma {:induction false} ReservationsGrow(stored: Option<Ledger>, events: seq<Event>, s: int)
    requires forall i :: 0 <= i < |events| ==> events[i].Reserve?
    requires stored.Some?
    ensures var l := RunEvents(stored, events);
            && l.Some?
            && (InLedger(s, stored.value) ==> InLedger(s, l.value))
            && (s in stored.value.assessments ==> s in l.value.assessments)
    decreases |events|
  {
    if events != [] {
      var e := events[0];
      if Prepared(e.history, stored, e.request).Some? {
        PreparedReserves(e.history, stored, e.request, s);
      }
      ReservationsGrow(Step(stored, e), events[1..], s);
    }
  }
}
