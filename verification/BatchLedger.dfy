/**
 * The batch ledger protocol of scripts/care_scenario_batches.py: numbered stage
 * directories, claimed exclusively by mkdir, hold hash-chained records. Any
 * number of processes interleave their file steps, and any of them may die.
 */
module BatchLedger {
  import opened Common
  import opened BatchSeeds
  import opened TaskSelection

  // ---------------------------------------------------------------------
  // Records and the ledger directory
  // ---------------------------------------------------------------------

  /** SHA-256 of an encoded record or founder claim, as an injective function. */
  datatype Hash = OfRecord(record: Record) | OfFounder(founder: Founder)

  datatype Founder = Founder(runRoot: string, evaluator: string, plan: Plan)

  datatype Payload =
    | PlanMade(plan: Plan)
    | Prepared(batch: nat, difficulty: int)
    | Proposed(batch: nat)
    | Dispatched(batch: nat, founder: Hash)
    | Assessed(batch: nat, before: int, after: int, trials: nat, successes: nat)

  datatype Record = Record(previous: Option<Hash>, payload: Payload)

  /** A file created exclusively: still being written, or whole. */
  datatype File<+T> = Torn | Whole(value: T)

  datatype Stage = Stage(record: Option<File<Record>>, complete: Option<File<Hash>>)

  /** The ledger's root directory: stage directories by index, and the founder claim. */
  datatype Root = Root(stages: map<nat, Stage>, founder: Option<File<Founder>>)

  /** The kind and batch that the record at position `i` after the plan must have. */
  ghost predicate StageFits(payload: Payload, i: nat)
    requires i > 0
  {
    FitsTurn(payload, (i - 1) % 4, (i - 1) / 4)
  }

  ghost predicate FitsTurn(payload: Payload, turn: nat, batch: nat) {
    && (match turn
        case 0 => payload.Prepared?
        case 1 => payload.Proposed?
        case 2 => payload.Dispatched?
        case _ => payload.Assessed?)
    && payload.batch == batch
  }

  ghost predicate ChainedAt(records: seq<Record>, i: nat)
    requires i < |records|
  {
    records[i].previous == if i == 0 then None else Some(OfRecord(records[i - 1]))
  }

  ghost predicate Chained(records: seq<Record>) {
    forall i: nat {:trigger records[i]} :: i < |records| ==> ChainedAt(records, i)
  }

  /** The founder claim is whole and belongs to this plan. */
  ghost predicate FounderFits(founder: Option<File<Founder>>, plan: Plan) {
    founder.Some? ==> founder.value.Whole? && founder.value.value.plan == plan
  }

  ghost predicate DispatchFits(payload: Payload, founder: Option<File<Founder>>) {
    payload.Dispatched? ==> founder.Some? && founder.value.Whole? && payload.founder == OfFounder(founder.value.value)
  }

  /** A plan followed by a prefix of prepared/proposed/dispatched/assessed rounds, chained by hash. */
  ghost predicate Rounds(records: seq<Record>) {
    && 1 <= |records| && Chained(records)
    && records[0].payload.PlanMade? && ValidPlan(records[0].payload.plan)
    && (forall i {:trigger records[i]} :: 0 < i < |records| ==> StageFits(records[i].payload, i))
    && |records| <= 1 + 4 * records[0].payload.plan.batches
  }

  ghost predicate DispatchesFit(records: seq<Record>, founder: Option<File<Founder>>) {
    forall i {:trigger records[i]} :: 0 <= i < |records| ==> DispatchFits(records[i].payload, founder)
  }

  /** Every check of `load` on the records it read and the founder claim. */
  ghost predicate WellShaped(records: seq<Record>, founder: Option<File<Founder>>) {
    && Rounds(records) && |records| <= 257
    && DispatchesFit(records, founder) && FounderFits(founder, records[0].payload.plan)
  }

  predicate Sealed(stage: Stage) {
    && stage.record.Some? && stage.record.value.Whole?
    && stage.complete == Some(Whole(OfRecord(stage.record.value.value)))
  }

  /** Stage `i` is complete with record `r`. */
  predicate SealedWith(root: Root, i: nat, r: Record) {
    i in root.stages && Sealed(root.stages[i]) && root.stages[i].record.value.value == r
  }

  /** The first stages are complete with these records, in order. */
  ghost predicate SealedTo(root: Root, records: seq<Record>) {
    forall i: nat {:trigger records[i]} :: i < |records| ==> SealedWith(root, i, records[i])
  }

  lemma SealedFurther(root: Root, records: seq<Record>, next: Record)
    requires SealedTo(root, records) && SealedWith(root, |records|, next)
    ensures SealedTo(root, records + [next])
  {
  }

  /** `records` are exactly the contents of the stages, all complete. */
  ghost predicate Holds(root: Root, records: seq<Record>) {
    root.stages.Keys == Below(|records|) && SealedTo(root, records)
  }

  /** What `load` accepts. */
  ghost predicate Loads(root: Root, records: seq<Record>) {
    Holds(root, records) && WellShaped(records, root.founder)
  }

  /** As many keys as the bound, all below it: the keys are the numbers below it. */
  lemma Pigeonhole(keys: set<nat>, n: nat)
    requires |keys| == n && keys <= Below(n)
    ensures keys == Below(n)
  {
    BelowCount(n);
    var rest := Below(n) - keys;
    assert Below(n) == keys + rest;
    assert |Below(n)| == |keys| + |rest|;
    assert rest == {};
  }

  function LastHash(records: seq<Record>): Option<Hash> {
    if records == [] then None else Some(OfRecord(records[|records| - 1]))
  }

  lemma ChainedFurther(records: seq<Record>, next: Record)
    requires Chained(records)
    requires next.previous == LastHash(records)
    ensures Chained(records + [next])
  {
    var more := records + [next];
    forall i: nat | i < |more|
      ensures ChainedAt(more, i)
    {
      if i < |records| {
        assert ChainedAt(records, i);
        assert more[i] == records[i];
        assert i > 0 ==> more[i - 1] == records[i - 1];
      }
    }
  }

  /** The loop of `load`: every stage complete, each record naming the one before. */
  method ReadStages(root: Root, count: nat) returns (r: Option<seq<Record>>)
    requires root.stages.Keys == Below(count)
    ensures r.Some? ==> Holds(root, r.value) && Chained(r.value)
    ensures r.None? ==> forall other :: Holds(root, other) ==> !Chained(other)
  {
    var records: seq<Record>, previous := [], None;
    for i := 0 to count
      invariant |records| == i && Chained(records) && previous == LastHash(records)
      invariant SealedTo(root, records)
    {
      var stage := root.stages[i];
      if !Sealed(stage) || stage.record.value.value.previous != previous {
        NothingChains(root, records);
        return None;
      }
      var record := stage.record.value.value;
      ChainedFurther(records, record);
      SealedFurther(root, records, record);
      records, previous := records + [record], Some(OfRecord(record));
    }
    return Some(records);
  }

  /** The stages up to the first broken one decide: no reading of this root is chained. */
  lemma NothingChains(root: Root, records: seq<Record>)
    requires |records| in root.stages
    requires SealedTo(root, records)
    requires var stage := root.stages[|records|];
             Sealed(stage) ==> stage.record.value.value.previous != LastHash(records)
    ensures forall other :: Holds(root, other) ==> !Chained(other)
  {
    var i := |records|;
    forall other | Holds(root, other)
      ensures !ChainedAt(other, i) && i < |other|
    {
      assert i in Below(|other|);
      assert SealedWith(root, i, other[i]);
      if i > 0 {
        assert SealedWith(root, i - 1, other[i - 1]) && SealedWith(root, i - 1, records[i - 1]);
      }
    }
    forall other | Holds(root, other)
      ensures !Chained(other)
    {
      assert other[i] == other[i] && !ChainedAt(other, i);
    }
  }

  /** The founder claim, when there is one, is whole and belongs to this plan. */
  method CheckFounder(founder: Option<File<Founder>>, plan: Plan) returns (ok: bool)
    ensures ok <==> FounderFits(founder, plan)
  {
    match founder {
      case None => return true;
      case Some(Torn) => return false;
      case Some(Whole(f)) => return f.plan == plan;
    }
  }

  /** One pass of the last loop of `load`: the only permitted kind and batch, and the founder of a dispatch. */
  method CheckStage(payload: Payload, i: nat, founder: Option<File<Founder>>) returns (ok: bool)
    requires i > 0
    ensures ok <==> StageFits(payload, i) && DispatchFits(payload, founder)
  {
    var turn, batch := (i - 1) % 4, (i - 1) / 4;
    match payload {
      case PlanMade(_) => return false;
      case Prepared(b, _) => return turn == 0 && b == batch;
      case Proposed(b) => return turn == 1 && b == batch;
      case Dispatched(b, claim) =>
        if turn != 2 || b != batch || founder.None? || founder.value.Torn? {
          return false;
        }
        return claim == OfFounder(founder.value.value);
      case Assessed(b, _, _, _, _) => return turn == 3 && b == batch;
    }
  }

  /** Every check of `load` after the stages have been read. */
  method CheckRecords(records: seq<Record>, founder: Option<File<Founder>>) returns (ok: bool)
    requires 1 <= |records| <= 257 && Chained(records)
    ensures ok <==> WellShaped(records, founder)
  {
    if !records[0].payload.PlanMade? {
      return false;
    }
    var plan := records[0].payload.plan;
    ok := ValidatePlan(plan);
    if !ok {
      return false;
    }
    ok := CheckFounder(founder, plan);
    if !ok {
      return false;
    }
    for i := 1 to |records|
      invariant forall k {:trigger records[k]} :: 0 < k < i ==> StageFits(records[k].payload, k) && DispatchFits(records[k].payload, founder)
    {
      ok := CheckStage(records[i].payload, i, founder);
      if !ok {
        assert !StageFits(records[i].payload, i) || !DispatchFits(records[i].payload, founder);
        return false;
      }
    }
    return |records| <= 1 + 4 * plan.batches;
  }

  lemma HoldsOnce(root: Root, a: seq<Record>, b: seq<Record>)
    requires Holds(root, a) && Holds(root, b)
    ensures a == b
  {
    BelowCount(|a|);
    BelowCount(|b|);
    forall i: nat | i < |a|
      ensures a[i] == b[i]
    {
      assert SealedWith(root, i, a[i]) && SealedWith(root, i, b[i]);
    }
  }

  /** `load`: the directory listing, then every stage in order, then the shape of the whole. */
  method Load(root: Root) returns (r: Option<seq<Record>>)
    ensures r.Some? ==> Loads(root, r.value)
    ensures r.None? ==> forall records :: !Loads(root, records)
    // Every dispatch names the founder claim that is there.
    ensures r.Some? ==> forall i, batch, claim :: 0 <= i < |r.value| && r.value[i].payload == Dispatched(batch, claim) ==>
              exists founder :: root.founder == Some(Whole(founder)) && claim == OfFounder(founder) && founder.plan == r.value[0].payload.plan
  {
    var count := |root.stages|;
    if !(1 <= count <= 257) || exists i :: i in root.stages.Keys && i >= count {
      forall records
        ensures !Loads(root, records)
      {
        BelowCount(|records|);
      }
      return None;
    }
    Pigeonhole(root.stages.Keys, count);
    var records := ReadStages(root, count);
    var ok := false;
    if records.Some? {
      BelowCount(|records.value|);
      ok := CheckRecords(records.value, root.founder);
    }
    if !ok {
      forall other
        ensures !Loads(root, other)
      {
        if records.Some? && Holds(root, other) {
          HoldsOnce(root, other, records.value);
        }
      }
      return None;
    }
    return records;
  }

  // ---------------------------------------------------------------------
  // What each operation may append
  // ---------------------------------------------------------------------

  /**
   * What the operation that follows `records` writes: `initialize` on an empty ledger, then `prepare`,
   * `propose`, `claim_dispatch` and `assess` in turn.
   */
  ghost predicate Next(records: seq<Record>, next: Payload, founder: Option<File<Founder>>) {
    var n := |records|;
    if n == 0 then next.PlanMade? && ValidPlan(next.plan)
    else
      && records[0].payload.PlanMade?
      && var plan := records[0].payload.plan;
         match records[n - 1].payload
         case PlanMade(_) => next == Prepared((n - 1) / 4, plan.initialDifficulty) && next.batch < plan.batches
         case Assessed(_, _, after, _, _) => next == Prepared((n - 1) / 4, after) && next.batch < plan.batches
         case Prepared(batch, _) => next == Proposed(batch)
         case Proposed(batch) => next.Dispatched? && next.batch == batch && DispatchFits(next, founder)
         case Dispatched(batch, _) =>
           && n >= 3 && records[n - 3].payload.Prepared?
           && next.Assessed? && next.batch == batch && next.before == records[n - 3].payload.difficulty
           && AdjustDifficulty(next.before, next.successes, next.trials, plan.levels - 1) == Some(next.after)
  }

  /** What the operations check before they claim a stage; `propose` and `assess` claim before anything else. */
  ghost predicate Claimable(records: seq<Record>, founder: Option<File<Founder>>) {
    records == [] ||
    match records[|records| - 1].payload
    case PlanMade(plan) => (|records| - 1) / 4 < plan.batches
    case Assessed(_, _, _, _, _) => records[0].payload.PlanMade? && (|records| - 1) / 4 < records[0].payload.plan.batches
    case Proposed(_) => founder.Some? && founder.value.Whole?
    case _ => true
  }

  /** The difficulty a batch starts from and the one its assessment leads to. */
  ghost predicate DifficultyAt(records: seq<Record>, i: nat)
    requires Rounds(records) && i < |records|
  {
    match records[i].payload
    case Prepared(_, d) =>
      if i == 1 then d == records[0].payload.plan.initialDifficulty
      else i > 1 && records[i - 1].payload.Assessed? && d == records[i - 1].payload.after
    case Assessed(_, before, after, trials, successes) =>
      && i >= 3 && records[i - 3].payload.Prepared? && before == records[i - 3].payload.difficulty
      && AdjustDifficulty(before, successes, trials, records[0].payload.plan.levels - 1) == Some(after)
    case _ => true
  }

  ghost predicate Difficulties(records: seq<Record>)
    requires Rounds(records)
  {
    forall i: nat {:trigger records[i]} :: i < |records| ==> DifficultyAt(records, i)
  }

  /** The records of a run so far. */
  ghost predicate Lawful(records: seq<Record>, founder: Option<File<Founder>>) {
    records != [] ==> Rounds(records) && Difficulties(records) && DispatchesFit(records, founder)
  }

  lemma RoundsPrefix(records: seq<Record>, n: nat)
    requires Rounds(records) && 1 <= n <= |records|
    ensures Rounds(records[..n])
  {
    var front := records[..n];
    forall i: nat | i < n
      ensures ChainedAt(front, i)
    {
      assert front[i] == records[i] && ChainedAt(records, i);
    }
    forall i | 0 < i < n
      ensures StageFits(front[i].payload, i)
    {
      assert front[i] == records[i] && StageFits(records[i].payload, i);
    }
  }

  lemma PrefixIsLawful(records: seq<Record>, founder: Option<File<Founder>>, n: nat)
    requires Lawful(records, founder) && n <= |records|
    ensures Lawful(records[..n], founder)
  {
    if n > 0 {
      var front := records[..n];
      RoundsPrefix(records, n);
      forall i: nat | i < n
        ensures DifficultyAt(front, i)
      {
        assert front[i] == records[i] && DifficultyAt(records, i);
        SameDifficulty(records, front, i);
      }
    }
  }

  lemma FirstIsLawful(plan: Plan, founder: Option<File<Founder>>)
    requires ValidPlan(plan)
    ensures Lawful([Record(None, PlanMade(plan))], founder)
  {
    var records := [Record(None, PlanMade(plan))];
    assert ChainedAt(records, 0);
    assert Rounds(records);
    assert DifficultyAt(records, 0);
  }

  lemma RoundsFurther(records: seq<Record>, next: Record, founder: Option<File<Founder>>)
    requires records != [] && Rounds(records) && Next(records, next.payload, founder) && next.previous == LastHash(records)
    ensures Rounds(records + [next])
  {
    var more := records + [next];
    ChainedFurther(records, next);
    NextFits(records, next.payload, founder);
    forall i | 0 < i < |more|
      ensures StageFits(more[i].payload, i)
    {
      if i < |records| {
        assert more[i] == records[i];
      }
    }
  }

  /** A record's difficulty is judged by earlier records alone. */
  lemma SameDifficulty(records: seq<Record>, more: seq<Record>, i: nat)
    requires Rounds(records) && Rounds(more) && i < |records| && i < |more| && DifficultyAt(records, i)
    requires forall j {:trigger more[j]} :: 0 <= j <= i ==> more[j] == records[j]
    ensures DifficultyAt(more, i)
  {
    assert more[i] == records[i] && more[0] == records[0];
    assert i > 0 ==> more[i - 1] == records[i - 1];
    assert i >= 3 ==> more[i - 3] == records[i - 3];
  }

  lemma DifficultiesFurther(records: seq<Record>, next: Record, founder: Option<File<Founder>>)
    requires records != [] && Rounds(records) && Next(records, next.payload, founder) && Rounds(records + [next])
    requires Difficulties(records)
    ensures Difficulties(records + [next])
  {
    var more := records + [next];
    forall i: nat | i < |more|
      ensures DifficultyAt(more, i)
    {
      if i < |records| {
        assert more[i] == records[i];
        SameDifficulty(records, more, i);
      } else {
        NextDifficulty(records, next, founder);
      }
    }
  }

  /** Each operation keeps the shape: the only permitted kind, the right batch, the right difficulty. */
  lemma NextIsLawful(records: seq<Record>, next: Payload, founder: Option<File<Founder>>)
    requires Lawful(records, founder) && Next(records, next, founder)
    ensures Lawful(records + [Record(LastHash(records), next)], founder)
  {
    var record := Record(LastHash(records), next);
    if records == [] {
      FirstIsLawful(next.plan, founder);
      assert records + [record] == [record];
    } else {
      RoundsFurther(records, record, founder);
      DifficultiesFurther(records, record, founder);
    }
  }

  lemma NextFits(records: seq<Record>, next: Payload, founder: Option<File<Founder>>)
    requires records != [] && Rounds(records) && Next(records, next, founder)
    ensures StageFits(next, |records|)
    ensures |records| + 1 <= 1 + 4 * records[0].payload.plan.batches
  {
    var n, last := |records|, records[|records| - 1].payload;
    var turn, batch := (n - 1) % 4, (n - 1) / 4;
    Turn(n, records[0].payload.plan.batches);
    if n > 1 {
      assert StageFits(last, n - 1);
      TurnFollows(last, next, (n - 2) % 4, (n - 2) / 4, turn, batch);
    }
  }

  /** What `Next` says of the kind and the batch, given the turn of the last record. */
  lemma TurnFollows(last: Payload, next: Payload, turn: nat, batch: nat, turn': nat, batch': nat)
    requires FitsTurn(last, turn, batch) && turn < 4
    requires if turn == 3 then turn' == 0 else turn' == turn + 1 && batch' == batch
    requires match last
             case PlanMade(_) => false
             case Assessed(_, _, _, _, _) => next.Prepared? && next.batch == batch'
             case Prepared(b, _) => next == Proposed(b)
             case Proposed(b) => next.Dispatched? && next.batch == b
             case Dispatched(b, _) => next.Assessed? && next.batch == b
    ensures FitsTurn(next, turn', batch')
  {
  }

  /** The place in the round and the batch, from one stage to the next. */
  lemma Turn(n: nat, batches: int)
    requires 1 <= n <= 1 + 4 * batches
    ensures n > 1 && (n - 2) % 4 == 3 ==> (n - 1) % 4 == 0
    ensures n > 1 && (n - 2) % 4 != 3 ==> (n - 1) % 4 == (n - 2) % 4 + 1 && (n - 1) / 4 == (n - 2) / 4
    ensures (n - 1) % 4 != 0 || (n - 1) / 4 < batches ==> n + 1 <= 1 + 4 * batches
  {
  }

  lemma NextDifficulty(records: seq<Record>, next: Record, founder: Option<File<Founder>>)
    requires records != [] && Rounds(records) && Next(records, next.payload, founder) && Rounds(records + [next])
    ensures DifficultyAt(records + [next], |records|)
  {
    var n, more := |records|, records + [next];
    assert more[n] == next && more[n - 1] == records[n - 1];
    if n > 1 {
      assert StageFits(records[n - 1].payload, n - 1);
    }
  }
}
