/**
 * The assessment plan of scripts/care_scenario_batches.py and the seeds it reserves: one contiguous
 * interval, cut into blocks per batch, family and role. A seed's place is a batch, a family, a role and
 * an offset; seeds and places correspond one to one, and that is all the bank's global checks need. The
 * families are numbered in the order of their generated names.
 */
module BatchSeeds {
  import opened Arithmetic
  import opened Common

  const MAX_SEED: int := 0xFFFF_FFFF_FFFF_FFFF
  const MAX_DISCOVERY_PER_BATCH: int := 64

  datatype Plan = Plan(
    batches: int, familyCount: int, levels: int, initialDifficulty: int, decisionBudget: int, slots: int,
    trials: int, pool: int, holdouts: int, seedStart: int, samplerSeed: int, excluded: seq<int>, evaluator: string)

  function Width(p: Plan): int { p.pool + p.holdouts + p.trials }

  /** One past the last reserved seed. */
  function End(p: Plan): int { p.seedStart + p.batches * p.familyCount * Width(p) }

  ghost predicate Bounds(p: Plan) {
    && 1 <= p.batches <= 64 && 1 <= p.familyCount <= 16 && 1 <= p.levels <= 8 && 1 <= p.decisionBudget <= 128
    && 1 <= p.slots <= 32 && 3 <= p.trials <= 32 && 1 <= p.pool <= 32 && 1 <= p.holdouts <= 32
    && 1 <= p.seedStart <= MAX_SEED && 0 <= p.samplerSeed <= MAX_SEED
  }

  /** `validate_plan`: accepted without raising. */
  ghost predicate ValidPlan(p: Plan) {
    && Bounds(p)
    && p.familyCount * p.trials <= MAX_DISCOVERY_PER_BATCH
    && p.levels <= p.familyCount && 0 <= p.initialDifficulty < p.levels
    && p.slots <= p.familyCount * p.pool
    && 1 <= |p.excluded| <= 4096
    && (forall i :: 0 <= i < |p.excluded| ==> 1 <= p.excluded[i] <= MAX_SEED)
    && (forall i, j :: 0 <= i < j < |p.excluded| ==> p.excluded[i] != p.excluded[j])
    && End(p) <= MAX_SEED + 1
    && (forall i :: 0 <= i < |p.excluded| ==> !(p.seedStart <= p.excluded[i] < End(p)))
    && IsHex64(p.evaluator)
  }

  /** `integer`: a number within its bounds. */
  datatype Field = Field(value: int, low: int, high: int)

  /** The loop over the plan's bounded fields. */
  method CheckBounds(p: Plan) returns (ok: bool)
    ensures ok <==> Bounds(p)
  {
    var fields := [Field(p.batches, 1, 64), Field(p.familyCount, 1, 16), Field(p.levels, 1, 8), Field(p.decisionBudget, 1, 128),
                   Field(p.slots, 1, 32), Field(p.trials, 3, 32), Field(p.pool, 1, 32), Field(p.holdouts, 1, 32),
                   Field(p.seedStart, 1, MAX_SEED), Field(p.samplerSeed, 0, MAX_SEED)];
    for i := 0 to |fields|
      invariant forall k {:trigger fields[k]} :: 0 <= k < i ==> fields[k].low <= fields[k].value <= fields[k].high
    {
      if fields[i].value < fields[i].low || fields[i].value > fields[i].high {
        return false;
      }
    }
    assert fields[0].low <= fields[0].value && fields[1].low <= fields[1].value && fields[2].low <= fields[2].value;
    assert fields[3].low <= fields[3].value && fields[4].low <= fields[4].value && fields[5].low <= fields[5].value;
    assert fields[6].low <= fields[6].value && fields[7].low <= fields[7].value && fields[8].low <= fields[8].value;
    assert fields[9].low <= fields[9].value;
    return true;
  }

  /** The exclusions: bounded, legal, without repetition (the set of them is as large), none in the reserved interval. */
  method CheckExclusions(excluded: seq<int>, start: int, end: int) returns (ok: bool)
    ensures ok <==>
            && 1 <= |excluded| <= 4096
            && (forall i :: 0 <= i < |excluded| ==> 1 <= excluded[i] <= MAX_SEED && !(start <= excluded[i] < end))
            && (forall i, j :: 0 <= i < j < |excluded| ==> excluded[i] != excluded[j])
  {
    if |excluded| < 1 || |excluded| > 4096 {
      return false;
    }
    var seen: set<int> := {};
    for i := 0 to |excluded|
      invariant forall k :: 0 <= k < i ==> 1 <= excluded[k] <= MAX_SEED && !(start <= excluded[k] < end)
      invariant forall j, k :: 0 <= j < k < i ==> excluded[j] != excluded[k]
      invariant forall s :: s in seen <==> exists k :: 0 <= k < i && excluded[k] == s
    {
      var s := excluded[i];
      if s < 1 || s > MAX_SEED || s in seen || (start <= s && s < end) {
        return false;
      }
      seen := seen + {s};
    }
    return true;
  }

  /** `validate_plan`. */
  method ValidatePlan(p: Plan) returns (ok: bool)
    ensures ok <==> ValidPlan(p)
  {
    ok := CheckBounds(p);
    if !ok || p.familyCount * p.trials > MAX_DISCOVERY_PER_BATCH {
      return false;
    }
    if p.levels > p.familyCount || p.initialDifficulty < 0 || p.initialDifficulty > p.levels - 1 {
      return false;
    }
    if p.slots > p.familyCount * p.pool {
      return false;
    }
    var count := p.batches * p.familyCount * (p.trials + p.pool + p.holdouts);
    var end := p.seedStart + count;
    assert end == End(p);
    ok := CheckExclusions(p.excluded, p.seedStart, end);
    return ok && end <= MAX_SEED + 1 && IsHex64(p.evaluator);
  }

  // ---------------------------------------------------------------------
  // Blocks
  // ---------------------------------------------------------------------

  datatype Role = Pool | Holdout | Discovery

  /** A reserved seed's place: which batch, which family, which role, which one of them. */
  datatype Place = Place(batch: int, family: int, role: Role, offset: int)

  function RoleSize(p: Plan, r: Role): int {
    match r
    case Pool => p.pool
    case Holdout => p.holdouts
    case Discovery => p.trials
  }

  /** Within a family's block pool seeds come first, holdouts next, discovery seeds last. */
  function RoleStart(p: Plan, r: Role): int {
    match r
    case Pool => 0
    case Holdout => p.pool
    case Discovery => p.pool + p.holdouts
  }

  predicate Planned(p: Plan, at: Place) {
    0 <= at.batch < p.batches && 0 <= at.family < p.familyCount && 0 <= at.offset < RoleSize(p, at.role)
  }

  function BlockStart(p: Plan, batch: int, family: int): int {
    p.seedStart + (batch * p.familyCount + family) * Width(p)
  }

  function SeedAt(p: Plan, at: Place): int {
    BlockStart(p, at.batch, at.family) + RoleStart(p, at.role) + at.offset
  }

  /** Every planned seed is inside the reserved interval, a legal seed, and not excluded. */
  lemma PlannedSeedsAreReserved(p: Plan, at: Place)
    requires ValidPlan(p) && Planned(p, at)
    ensures p.seedStart <= SeedAt(p, at) < End(p)
    ensures 1 <= SeedAt(p, at) <= MAX_SEED && SeedAt(p, at) !in p.excluded
  {
    var row := at.batch * p.familyCount + at.family;
    Bounded(p.familyCount, at.batch, p.batches, at.family);
    Bounded(Width(p), row, p.batches * p.familyCount, RoleStart(p, at.role) + at.offset);
  }

  /** No two places share a seed: batches, families and roles never overlap. */
  lemma SeedsAreDistinct(p: Plan, a: Place, b: Place)
    requires ValidPlan(p) && Planned(p, a) && Planned(p, b) && SeedAt(p, a) == SeedAt(p, b)
    ensures a == b
  {
    Radix(Width(p), a.batch * p.familyCount + a.family, RoleStart(p, a.role) + a.offset,
          b.batch * p.familyCount + b.family, RoleStart(p, b.role) + b.offset);
    Radix(p.familyCount, a.batch, a.family, b.batch, b.family);
  }

  /** The place of a reserved seed. */
  function PlaceOf(p: Plan, seed: int): Place
    requires Bounds(p) && p.seedStart <= seed < End(p)
  {
    var n := seed - p.seedStart;
    var row, k := n / Width(p), n % Width(p);
    var (role, offset) := if k < p.pool then (Pool, k)
                          else if k < p.pool + p.holdouts then (Holdout, k - p.pool)
                          else (Discovery, k - p.pool - p.holdouts);
    Place(row / p.familyCount, row % p.familyCount, role, offset)
  }

  /** The blocks leave no gap: every reserved seed has a place, so the blocks tile the interval. */
  lemma EverySeedHasAPlace(p: Plan, seed: int)
    requires ValidPlan(p) && p.seedStart <= seed < End(p)
    ensures Planned(p, PlaceOf(p, seed)) && SeedAt(p, PlaceOf(p, seed)) == seed
  {
    var n := seed - p.seedStart;
    var row := n / Width(p);
    Quotient(n, Width(p), p.batches * p.familyCount);
    Quotient(row, p.familyCount, p.batches);
  }

  // ---------------------------------------------------------------------
  // inputs()
  // ---------------------------------------------------------------------

  datatype Task = Task(family: int, seed: int)

  /** The seeds of one block and role, in order. */
  function RoleSeeds(p: Plan, batch: int, family: int, r: Role): (seeds: seq<int>)
    requires Bounds(p)
    ensures |seeds| == RoleSize(p, r)
    ensures forall k :: 0 <= k < |seeds| ==> seeds[k] == SeedAt(p, Place(batch, family, r, k))
  {
    seq(RoleSize(p, r), k requires 0 <= k < RoleSize(p, r) => SeedAt(p, Place(batch, family, r, k)))
  }

  /** The seeds of one family as tasks. */
  function Tagged(family: int, seeds: seq<int>): (tasks: seq<Task>)
    ensures |tasks| == |seeds|
    ensures forall k :: 0 <= k < |tasks| ==> tasks[k] == Task(family, seeds[k])
  {
    seq(|seeds|, k requires 0 <= k < |seeds| => Task(family, seeds[k]))
  }

  /** The tasks of one role of a batch, for the families in the given order. */
  function BatchTasks(p: Plan, batch: int, r: Role, order: seq<int>): seq<Task>
    requires Bounds(p)
  {
    if order == [] then []
    else
      BatchTasks(p, batch, r, order[..|order| - 1])
      + Tagged(order[|order| - 1], RoleSeeds(p, batch, order[|order| - 1], r))
  }

  /** The families in the order of their generated names. */
  function Names(n: nat): (order: seq<int>)
    ensures |order| == n && forall k :: 0 <= k < n ==> order[k] == k
  {
    seq(n, k => k)
  }

  /** A seed ledger of the host: the seeds of one role for the first families. */
  ghost predicate Allotted(p: Plan, batch: int, r: Role, families: nat, ledger: map<int, seq<int>>)
    requires Bounds(p)
  {
    && (forall f :: f in ledger <==> 0 <= f < families)
    && forall f :: f in ledger ==> ledger[f] == RoleSeeds(p, batch, f, r)
  }

  /** `range(start, start + count)`. */
  function Range(start: int, count: int): (seeds: seq<int>)
    requires 0 <= count
  {
    seq(count, k requires 0 <= k < count => start + k)
  }

  /** `inputs`: one cursor walks the batch's interval, family by family and role by role. */
  method Inputs(p: Plan, batch: int)
    returns (pool: map<int, seq<int>>, holdouts: map<int, seq<int>>, discovery: seq<Task>)
    requires ValidPlan(p) && 0 <= batch < p.batches
    ensures Allotted(p, batch, Pool, p.familyCount, pool) && Allotted(p, batch, Holdout, p.familyCount, holdouts)
    ensures discovery == BatchTasks(p, batch, Discovery, Names(p.familyCount))
  {
    pool, holdouts, discovery := map[], map[], [];
    var cursor := p.seedStart + batch * p.familyCount * Width(p);
    assert cursor == BlockStart(p, batch, 0);
    for family := 0 to p.familyCount
      invariant cursor == BlockStart(p, batch, family)
      invariant Allotted(p, batch, Pool, family, pool) && Allotted(p, batch, Holdout, family, holdouts)
      invariant discovery == BatchTasks(p, batch, Discovery, Names(family))
    {
      assert Range(cursor, p.pool) == RoleSeeds(p, batch, family, Pool);
      pool := pool[family := Range(cursor, p.pool)];
      cursor := cursor + p.pool;
      assert Range(cursor, p.holdouts) == RoleSeeds(p, batch, family, Holdout);
      holdouts := holdouts[family := Range(cursor, p.holdouts)];
      cursor := cursor + p.holdouts;
      assert Range(cursor, p.trials) == RoleSeeds(p, batch, family, Discovery);
      discovery := discovery + Tagged(family, Range(cursor, p.trials));
      assert Names(family + 1)[..family] == Names(family);
      cursor := cursor + p.trials;
      NextBlock(p, batch, family);
    }
  }

  lemma NextBlock(p: Plan, batch: int, family: int)
    ensures BlockStart(p, batch, family + 1) == BlockStart(p, batch, family) + Width(p)
  {
    var row := batch * p.familyCount + family;
    assert (row + 1) * Width(p) == row * Width(p) + Width(p);
  }

  // ---------------------------------------------------------------------
  // The bank compiled from them
  // ---------------------------------------------------------------------

  /** The task checks of `validate_bank`: bounded lists, known families, legal and globally distinct seeds. */
  predicate TasksAdmitted(families: int, slots: int, pool: seq<Task>, holdouts: seq<Task>) {
    && 1 <= |pool| <= 1024 && 1 <= |holdouts| <= 1024
    && (forall i :: 0 <= i < |pool + holdouts| ==>
          0 <= (pool + holdouts)[i].family < families && 1 <= (pool + holdouts)[i].seed <= MAX_SEED)
    && (forall i, j :: 0 <= i < j < |pool + holdouts| ==> (pool + holdouts)[i].seed != (pool + holdouts)[j].seed)
    && |pool| >= slots
  }

  /** The loop over pool and holdouts with its set of seeds already met. */
  method CheckTasks(families: int, slots: int, pool: seq<Task>, holdouts: seq<Task>) returns (ok: bool)
    ensures ok <==> TasksAdmitted(families, slots, pool, holdouts)
  {
    var rows := pool + holdouts;
    if !(1 <= |pool| <= 1024) || !(1 <= |holdouts| <= 1024) {
      return false;
    }
    var seen: set<int> := {};
    for i := 0 to |rows|
      invariant forall k :: 0 <= k < i ==> 0 <= rows[k].family < families && 1 <= rows[k].seed <= MAX_SEED
      invariant forall j, k :: 0 <= j < k < i ==> rows[j].seed != rows[k].seed
      invariant forall s :: s in seen <==> exists k :: 0 <= k < i && rows[k].seed == s
    {
      if !(0 <= rows[i].family < families) || !(1 <= rows[i].seed <= MAX_SEED) || rows[i].seed in seen {
        return false;
      }
      seen := seen + {rows[i].seed};
    }
    return |pool| >= slots;
  }

  /** The recipe may list the generated families in any order, but each of them once. */
  predicate IsOrder(p: Plan, order: seq<int>) {
    && |order| == p.familyCount && (forall k :: 0 <= k < |order| ==> 0 <= order[k] < p.familyCount)
    && (forall j, k :: 0 <= j < k < |order| ==> order[j] != order[k])
  }

  /** The place of task number `i` of one role: family by family, in order. */
  function RolePlace(p: Plan, batch: int, r: Role, order: seq<int>, i: int): Place
    requires Bounds(p) && 0 <= i / RoleSize(p, r) < |order|
  {
    Place(batch, order[i / RoleSize(p, r)], r, i % RoleSize(p, r))
  }

  lemma {:induction false} BatchTaskCount(p: Plan, batch: int, r: Role, order: seq<int>)
    requires ValidPlan(p)
    ensures |BatchTasks(p, batch, r, order)| == |order| * RoleSize(p, r)
  {
    if order != [] {
      BatchTaskCount(p, batch, r, order[..|order| - 1]);
      assert (|order| - 1) * RoleSize(p, r) + RoleSize(p, r) == |order| * RoleSize(p, r);
    }
  }

  /** Which place the `i`-th task of a role comes from. */
  lemma {:induction false} BatchTaskAt(p: Plan, batch: int, r: Role, order: seq<int>, i: nat)
    requires ValidPlan(p) && i < |BatchTasks(p, batch, r, order)|
    ensures 0 <= i / RoleSize(p, r) < |order| && 0 <= i % RoleSize(p, r) < RoleSize(p, r)
    ensures var at := RolePlace(p, batch, r, order, i);
            BatchTasks(p, batch, r, order)[i] == Task(at.family, SeedAt(p, at))
    decreases |order|
  {
    var w, n := RoleSize(p, r), |order| - 1;
    BatchTaskCount(p, batch, r, order);
    Quotient(i, w, |order|);
    BatchTaskCount(p, batch, r, order[..n]);
    if i < n * w {
      BatchTaskAt(p, batch, r, order[..n], i);
    } else {
      LastBlock(w, n, i);
    }
  }

  /** Equal seeds of one role come from one position of the list. */
  lemma RoleSeedsAreDistinct(p: Plan, batch: int, r: Role, order: seq<int>, i: nat, j: nat)
    requires ValidPlan(p) && 0 <= batch < p.batches && IsOrder(p, order)
    requires i < |BatchTasks(p, batch, r, order)| && j < |BatchTasks(p, batch, r, order)|
    requires BatchTasks(p, batch, r, order)[i].seed == BatchTasks(p, batch, r, order)[j].seed
    ensures i == j
  {
    BatchTaskAt(p, batch, r, order, i);
    BatchTaskAt(p, batch, r, order, j);
    SeedsAreDistinct(p, RolePlace(p, batch, r, order, i), RolePlace(p, batch, r, order, j));
    SameDigits(RoleSize(p, r), i, j);
  }

  /** Seeds of different roles never meet, in whatever orders the families are listed. */
  lemma RolesAreApart(p: Plan, batch: int, r: Role, order: seq<int>, i: nat, r': Role, order': seq<int>, j: nat)
    requires ValidPlan(p) && 0 <= batch < p.batches && IsOrder(p, order) && IsOrder(p, order') && r != r'
    requires i < |BatchTasks(p, batch, r, order)| && j < |BatchTasks(p, batch, r', order')|
    ensures BatchTasks(p, batch, r, order)[i].seed != BatchTasks(p, batch, r', order')[j].seed
  {
    BatchTaskAt(p, batch, r, order, i);
    BatchTaskAt(p, batch, r', order', j);
    var a, b := RolePlace(p, batch, r, order, i), RolePlace(p, batch, r', order', j);
    if SeedAt(p, a) == SeedAt(p, b) {
      SeedsAreDistinct(p, a, b);
    }
  }

  lemma RoleIsLegal(p: Plan, batch: int, r: Role, order: seq<int>, i: nat)
    requires ValidPlan(p) && 0 <= batch < p.batches && IsOrder(p, order) && i < |BatchTasks(p, batch, r, order)|
    ensures var task := BatchTasks(p, batch, r, order)[i];
            0 <= task.family < p.familyCount && 1 <= task.seed <= MAX_SEED
  {
    BatchTaskAt(p, batch, r, order, i);
    PlannedSeedsAreReserved(p, RolePlace(p, batch, r, order, i));
  }

  lemma Sizes(families: int, each: int)
    requires 1 <= families <= 16 && 1 <= each <= 32
    ensures 1 <= families * each <= 1024
  {
    Scaled(1, families, each);
    Scaled(families, 16, each);
  }

  /**
   * A bank compiled from a valid plan's inputs, in any order of its families, never fails the global
   * seed checks or the pool size check.
   */
  lemma InputsAreAdmitted(p: Plan, batch: int, order: seq<int>)
    requires ValidPlan(p) && 0 <= batch < p.batches && IsOrder(p, order)
    ensures TasksAdmitted(p.familyCount, p.slots, BatchTasks(p, batch, Pool, order), BatchTasks(p, batch, Holdout, order))
  {
    var pool, holdouts := BatchTasks(p, batch, Pool, order), BatchTasks(p, batch, Holdout, order);
    BatchTaskCount(p, batch, Pool, order);
    BatchTaskCount(p, batch, Holdout, order);
    Sizes(p.familyCount, p.pool);
    Sizes(p.familyCount, p.holdouts);
    var rows := pool + holdouts;
    forall i | 0 <= i < |rows|
      ensures 0 <= rows[i].family < p.familyCount && 1 <= rows[i].seed <= MAX_SEED
    {
      if i < |pool| {
        RoleIsLegal(p, batch, Pool, order, i);
      } else {
        RoleIsLegal(p, batch, Holdout, order, i - |pool|);
      }
    }
    forall i, j | 0 <= i < j < |rows|
      ensures rows[i].seed != rows[j].seed
    {
      RowsAreDistinct(p, batch, order, i, j);
    }
  }

  lemma RowsAreDistinct(p: Plan, batch: int, order: seq<int>, i: nat, j: nat)
    requires ValidPlan(p) && 0 <= batch < p.batches && IsOrder(p, order)
    requires i < j < |BatchTasks(p, batch, Pool, order)| + |BatchTasks(p, batch, Holdout, order)|
    ensures var rows := BatchTasks(p, batch, Pool, order) + BatchTasks(p, batch, Holdout, order);
            rows[i].seed != rows[j].seed
  {
    var pool, holdouts := BatchTasks(p, batch, Pool, order), BatchTasks(p, batch, Holdout, order);
    var n := |pool|;
    if j < n {
      if pool[i].seed == pool[j].seed {
        RoleSeedsAreDistinct(p, batch, Pool, order, i, j);
      }
    } else if i < n {
      RolesAreApart(p, batch, Pool, order, i, Holdout, order, j - n);
    } else if holdouts[i - n].seed == holdouts[j - n].seed {
      RoleSeedsAreDistinct(p, batch, Holdout, order, i - n, j - n);
    }
  }

  // ---------------------------------------------------------------------
  // compile_recipe
  // ---------------------------------------------------------------------

  /** The tasks of a ledger, for the families in the given order. */
  function Listed(order: seq<int>, ledger: map<int, seq<int>>): seq<Task>
    requires forall f :: f in order ==> f in ledger
  {
    if order == [] then []
    else Listed(order[..|order| - 1], ledger) + Tagged(order[|order| - 1], ledger[order[|order| - 1]])
  }

  lemma {:induction false} ListedAsPlanned(p: Plan, batch: int, r: Role, order: seq<int>, ledger: map<int, seq<int>>)
    requires Bounds(p) && Allotted(p, batch, r, p.familyCount, ledger) && forall f :: f in order ==> f in ledger
    ensures Listed(order, ledger) == BatchTasks(p, batch, r, order)
  {
    if order != [] {
      ListedAsPlanned(p, batch, r, order[..|order| - 1], ledger);
    }
  }

  predicate CoversExactly(order: seq<int>, ledger: map<int, seq<int>>) {
    && ledger.Keys == (set f | f in order)
    && forall f :: f in order ==> f in ledger && ledger[f] != []
  }

  /** The ledger loop of `compile_recipe`: exactly the recipe's families, each with some seeds. */
  method CompileLedger(order: seq<int>, ledger: map<int, seq<int>>) returns (target: Option<seq<Task>>)
    ensures target.Some? <==> CoversExactly(order, ledger)
    ensures target.Some? ==> target.value == Listed(order, ledger)
  {
    if ledger.Keys != set f | f in order {
      return None;
    }
    var tasks := [];
    for k := 0 to |order|
      invariant tasks == Listed(order[..k], ledger)
      invariant forall i :: 0 <= i < k ==> ledger[order[i]] != []
    {
      assert order[k] in ledger.Keys;
      if ledger[order[k]] == [] {
        ghost var f := order[k];
        assert f in order && f in ledger && ledger[f] == [];
        return None;
      }
      assert order[..k + 1][..k] == order[..k];
      tasks := tasks + Tagged(order[k], ledger[order[k]]);
    }
    assert order[..|order|] == order;
    return Some(tasks);
  }

  lemma {:induction false} OrderHasAll(n: nat, order: seq<int>)
    requires |order| == n && (forall k :: 0 <= k < n ==> 0 <= order[k] < n)
    requires forall j, k :: 0 <= j < k < n ==> order[j] != order[k]
    ensures forall f :: 0 <= f < n ==> f in order
  {
    var all, met := Below(n), set f: nat | f < n && f in order;
    BelowCount(n);
    OrderCounts(order, n);
    assert met <= all;
    var rest := all - met;
    assert all == met + rest;
    assert |all| == |met| + |rest|;
    assert rest == {};
    forall f | 0 <= f < n
      ensures f in order
    {
      assert f in all;
      assert f in met;
    }
  }

  lemma {:induction false} OrderCounts(order: seq<int>, n: nat)
    requires forall k :: 0 <= k < |order| ==> 0 <= order[k] < n
    requires forall j, k :: 0 <= j < k < |order| ==> order[j] != order[k]
    ensures |set f: nat | f < n && f in order| == |order|
  {
    var met := set f: nat | f < n && f in order;
    if order == [] {
      assert met == {};
    } else {
      var init, last := order[..|order| - 1], order[|order| - 1];
      OrderCounts(init, n);
      var before := set f: nat | f < n && f in init;
      assert met == before + {last as nat};
      assert last as nat !in before;
    }
  }

  lemma AllottedCovers(p: Plan, batch: int, r: Role, order: seq<int>, ledger: map<int, seq<int>>)
    requires ValidPlan(p) && IsOrder(p, order) && Allotted(p, batch, r, p.familyCount, ledger)
    ensures CoversExactly(order, ledger) && Listed(order, ledger) == BatchTasks(p, batch, r, order)
  {
    OrderHasAll(p.familyCount, order);
    assert forall f :: f in order <==> 0 <= f < p.familyCount;
    assert ledger.Keys == set f | f in order;
    forall f | f in order
      ensures f in ledger && ledger[f] != []
    {
      assert |ledger[f]| == RoleSize(p, r) > 0;
    }
    ListedAsPlanned(p, batch, r, order, ledger);
  }

  ghost predicate Apart(a: seq<Task>, b: seq<Task>) {
    forall i, j :: 0 <= i < |a| && 0 <= j < |b| ==> a[i].seed != b[j].seed
  }

  /** No discovery seed, in the plan's order of families, is a seed of another role in any order. */
  lemma DiscoveryIsApart(p: Plan, batch: int, r: Role, order: seq<int>)
    requires ValidPlan(p) && 0 <= batch < p.batches && IsOrder(p, order) && r != Discovery
    ensures Apart(BatchTasks(p, batch, Discovery, Names(p.familyCount)), BatchTasks(p, batch, r, order))
  {
    var discovery, rows := BatchTasks(p, batch, Discovery, Names(p.familyCount)), BatchTasks(p, batch, r, order);
    forall i, j | 0 <= i < |discovery| && 0 <= j < |rows|
      ensures discovery[i].seed != rows[j].seed
    {
      RolesAreApart(p, batch, Discovery, Names(p.familyCount), i, r, order, j);
    }
  }

  /**
   * The inputs of a batch, compiled with the families in any order the recipe has them: neither the
   * ledger checks nor the seed and pool-size checks of the bank can fail, and no discovery seed is in it.
   */
  method CompileBatch(p: Plan, batch: int, order: seq<int>)
    returns (pool: seq<Task>, holdouts: seq<Task>, discovery: seq<Task>)
    requires ValidPlan(p) && 0 <= batch < p.batches && IsOrder(p, order)
    ensures pool == BatchTasks(p, batch, Pool, order) && holdouts == BatchTasks(p, batch, Holdout, order)
    ensures TasksAdmitted(p.familyCount, p.slots, pool, holdouts)
    ensures |discovery| == p.familyCount * p.trials
    ensures Apart(discovery, pool) && Apart(discovery, holdouts)
  {
    var pools, held;
    pools, held, discovery := Inputs(p, batch);
    AllottedCovers(p, batch, Pool, order, pools);
    AllottedCovers(p, batch, Holdout, order, held);
    var compiled := CompileLedger(order, pools);
    var kept := CompileLedger(order, held);
    pool, holdouts := compiled.value, kept.value;
    InputsAreAdmitted(p, batch, order);
    var ok := CheckTasks(p.familyCount, p.slots, pool, holdouts);
    assert ok;
    BatchTaskCount(p, batch, Discovery, Names(p.familyCount));
    DiscoveryIsApart(p, batch, Pool, order);
    DiscoveryIsApart(p, batch, Holdout, order);
  }
}
