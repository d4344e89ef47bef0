/**
 * Task selection, scripts/care_frontier_sampler.py: the difficulty ladder, the
 * round-robin baseline and the randomised adaptive list. Families are numbered
 * in the order of their sorted names.
 */
module TaskSelection {
  import opened Common
  import opened BatchSeeds

  // ---------------------------------------------------------------------
  // The difficulty ladder
  // ---------------------------------------------------------------------

  /** `adjust_difficulty`: None where it raises. The float thresholds .75 and .25 are exact ratios. */
  function AdjustDifficulty(current: int, successes: int, trials: int, maximum: int): (r: Option<int>)
    ensures r.Some? <==> 0 <= current <= maximum && 0 <= successes <= trials
    ensures r.Some? ==> 0 <= r.value <= maximum && current - 1 <= r.value <= current + 1
    ensures r.Some? ==> (r.value > current <==> trials >= 3 && 4 * successes >= 3 * trials && current < maximum)
    ensures r.Some? ==> (r.value < current <==> trials >= 3 && 4 * successes <= trials && current > 0)
  {
    if !(0 <= current <= maximum) || !(0 <= successes <= trials) then None
    else if trials < 3 then Some(current)
    else if 4 * successes >= 3 * trials then Some(if maximum < current + 1 then maximum else current + 1)
    else if 4 * successes <= trials then Some(if 0 > current - 1 then 0 else current - 1)
    else Some(current)
  }

  /** Doing better on the same trials never leads to an easier batch. */
  lemma MoreSuccessIsNeverEasier(current: int, fewer: int, more: int, trials: int, maximum: int)
    requires 0 <= current <= maximum && 0 <= fewer <= more <= trials
    ensures AdjustDifficulty(current, fewer, trials, maximum).value <= AdjustDifficulty(current, more, trials, maximum).value
  {
    if trials >= 3 && 4 * fewer >= 3 * trials {
      assert 4 * more >= 3 * trials;
    }
  }

  // ---------------------------------------------------------------------
  // Lists of tasks
  // ---------------------------------------------------------------------

  /** The tasks of one family, in order. */
  function Of(tasks: seq<Task>, family: int): seq<Task> {
    if tasks == [] then []
    else
      var rest := Of(tasks[..|tasks| - 1], family);
      var last := tasks[|tasks| - 1];
      if last.family == family then rest + [last] else rest
  }

  lemma OfMore(tasks: seq<Task>, t: Task, family: int)
    ensures Of(tasks + [t], family) == if t.family == family then Of(tasks, family) + [t] else Of(tasks, family)
  {
    assert (tasks + [t])[..|tasks|] == tasks;
  }

  lemma {:induction false} OfIsThatFamily(tasks: seq<Task>, family: int)
    ensures forall t :: t in Of(tasks, family) <==> t in tasks && t.family == family
    ensures multiset(Of(tasks, family)) <= multiset(tasks)
  {
    if tasks != [] {
      var init := tasks[..|tasks| - 1];
      OfIsThatFamily(init, family);
      assert tasks == init + [tasks[|tasks| - 1]];
    }
  }

  lemma {:induction false} OfCounts(tasks: seq<Task>, family: int, t: Task)
    ensures multiset(Of(tasks, family))[t] == if t.family == family then multiset(tasks)[t] else 0
  {
    if tasks != [] {
      var init := tasks[..|tasks| - 1];
      OfCounts(init, family, t);
      assert tasks == init + [tasks[|tasks| - 1]];
    }
  }

  /** How many of the tasks belong to the first `families` families. */
  function CountFirst(tasks: seq<Task>, families: nat): nat {
    if families == 0 then 0 else CountFirst(tasks, families - 1) + |Of(tasks, families - 1)|
  }

  lemma {:induction false} CountMore(tasks: seq<Task>, t: Task, families: nat)
    ensures CountFirst(tasks + [t], families) == CountFirst(tasks, families) + if 0 <= t.family < families then 1 else 0
  {
    if families > 0 {
      CountMore(tasks, t, families - 1);
      OfMore(tasks, t, families - 1);
    }
  }

  predicate Known(tasks: seq<Task>, families: nat) {
    forall i {:trigger tasks[i]} :: 0 <= i < |tasks| ==> 0 <= tasks[i].family < families
  }

  lemma {:induction false} CountAll(tasks: seq<Task>, families: nat)
    requires Known(tasks, families)
    ensures CountFirst(tasks, families) == |tasks|
  {
    if tasks == [] {
      CountNone(families);
    } else {
      var init, last := tasks[..|tasks| - 1], tasks[|tasks| - 1];
      assert tasks == init + [last];
      CountAll(init, families);
      CountMore(init, last, families);
    }
  }

  lemma {:induction false} CountNone(families: nat)
    ensures CountFirst([], families) == 0
  {
    if families > 0 {
      CountNone(families - 1);
    }
  }

  lemma {:induction false} SameCounts(a: seq<Task>, b: seq<Task>, families: nat)
    requires forall f :: 0 <= f < families ==> |Of(a, f)| == |Of(b, f)|
    ensures CountFirst(a, families) == CountFirst(b, families)
  {
    if families > 0 {
      SameCounts(a, b, families - 1);
    }
  }

  // ---------------------------------------------------------------------
  // The baseline
  // ---------------------------------------------------------------------

  function Min(a: int, b: int): int { if a < b then a else b }

  /** Each family contributes the front of its own queue. */
  ghost predicate TakesFronts(pool: seq<Task>, picks: seq<Task>) {
    forall f {:trigger Of(picks, f)} :: |Of(picks, f)| <= |Of(pool, f)| && Of(picks, f) == Of(pool, f)[..|Of(picks, f)|]
  }

  /** Every family has had `round` picks, or all it has, and some may have had one more. */
  ghost predicate WithinRound(pool: seq<Task>, picks: seq<Task>, round: nat) {
    forall f {:trigger Of(picks, f)} ::
      Min(round, |Of(pool, f)|) <= |Of(picks, f)| <= Min(round + 1, |Of(pool, f)|)
  }

  /** No family is two picks ahead of another that still has tasks to give. */
  ghost predicate Balanced(pool: seq<Task>, picks: seq<Task>) {
    forall f, g :: |Of(picks, f)| <= |Of(picks, g)| + 1 || Of(picks, g) == Of(pool, g)
  }

  lemma WithinRoundBalances(pool: seq<Task>, picks: seq<Task>, round: nat)
    requires WithinRound(pool, picks, round) && TakesFronts(pool, picks)
    ensures Balanced(pool, picks)
  {
  }

  /** Which round pick `i` belongs to: how often its family has been picked before. */
  function RoundOf(picks: seq<Task>, i: nat): nat
    requires i < |picks|
  {
    |Of(picks[..i], picks[i].family)|
  }

  predicate Earlier(round: nat, family: int, round': nat, family': int) {
    round < round' || (round == round' && family < family')
  }

  /** The picks go round by round, and within a round in the order of the families. */
  ghost predicate InRounds(picks: seq<Task>) {
    forall i: nat, j: nat {:trigger picks[i], picks[j]} :: i < j < |picks| ==>
      Earlier(RoundOf(picks, i), picks[i].family, RoundOf(picks, j), picks[j].family)
  }

  /** All picks so far come before this turn. */
  ghost predicate Before(picks: seq<Task>, round: nat, family: int) {
    forall i: nat {:trigger picks[i]} :: i < |picks| ==> Earlier(RoundOf(picks, i), picks[i].family, round, family)
  }

  lemma PickedInTurn(picks: seq<Task>, t: Task)
    requires InRounds(picks) && Before(picks, |Of(picks, t.family)|, t.family)
    ensures InRounds(picks + [t]) && Before(picks + [t], |Of(picks, t.family)|, t.family + 1)
  {
    var more := picks + [t];
    forall i: nat | i < |more|
      ensures RoundOf(more, i) == if i < |picks| then RoundOf(picks, i) else |Of(picks, t.family)|
    {
      assert more[..i] == picks[..i];
      assert i == |picks| ==> picks[..i] == picks;
    }
  }

  lemma LaterTurn(picks: seq<Task>, round: nat, family: int, round': nat, family': int)
    requires Before(picks, round, family)
    requires round < round' || (round == round' && family <= family')
    ensures Before(picks, round', family')
  {
  }

  /** Fronts of the queues, drawn without repetition: no task is picked more often than the pool holds it. */
  lemma FrontsAreFromThePool(pool: seq<Task>, picks: seq<Task>)
    requires TakesFronts(pool, picks)
    ensures multiset(picks) <= multiset(pool)
  {
    forall t: Task
      ensures multiset(picks)[t] <= multiset(pool)[t]
    {
      var f := t.family;
      OfCounts(picks, f, t);
      OfCounts(pool, f, t);
      var front, rest := Of(pool, f)[..|Of(picks, f)|], Of(pool, f)[|Of(picks, f)|..];
      assert Of(pool, f) == front + rest;
    }
  }

  /** Taking the next task of one family's queue. */
  lemma TakeNext(pool: seq<Task>, picks: seq<Task>, f: int)
    requires TakesFronts(pool, picks) && |Of(picks, f)| < |Of(pool, f)|
    ensures TakesFronts(pool, picks + [Of(pool, f)[|Of(picks, f)|]])
    ensures Of(pool, f)[|Of(picks, f)|].family == f
    ensures forall g :: |Of(picks + [Of(pool, f)[|Of(picks, f)|]], g)| == |Of(picks, g)| + if g == f then 1 else 0
  {
    var t := Of(pool, f)[|Of(picks, f)|];
    OfIsThatFamily(pool, f);
    assert t in Of(pool, f);
    forall g
      ensures Of(picks + [t], g) == if g == f then Of(picks, f) + [t] else Of(picks, g)
    {
      OfMore(picks, t, g);
    }
    TakeOneMore(Of(pool, f), |Of(picks, f)|);
  }

  /** A round that has reached family `name`: the earlier families have had their pick, the others not. */
  ghost predicate Reached(pool: seq<Task>, picks: seq<Task>, round: nat, name: int) {
    forall f {:trigger Of(picks, f)} ::
      |Of(picks, f)| == Min(if f < name then round + 1 else round, |Of(pool, f)|)
  }

  /** The queues hold what is left after the picks. */
  ghost predicate Queued(pool: seq<Task>, picks: seq<Task>, queues: seq<seq<Task>>) {
    forall f {:trigger queues[f]} :: 0 <= f < |queues| ==>
      |Of(picks, f)| <= |Of(pool, f)| && queues[f] == Of(pool, f)[|Of(picks, f)|..]
  }

  lemma QueuesMove(pool: seq<Task>, picks: seq<Task>, queues: seq<seq<Task>>, name: int, t: Task)
    requires TakesFronts(pool, picks) && Queued(pool, picks, queues)
    requires 0 <= name < |queues| && queues[name] != [] && t == queues[name][0]
    ensures t == Of(pool, name)[|Of(picks, name)|] && |Of(picks, name)| < |Of(pool, name)|
    ensures Queued(pool, picks + [t], queues[name := queues[name][1..]])
  {
    TakeNext(pool, picks, name);
  }

  /** If every family is spent, the picks are as many as the pool. */
  lemma SpentPool(pool: seq<Task>, picks: seq<Task>, families: nat)
    requires Known(pool, families) && Known(picks, families)
    requires forall f :: |Of(picks, f)| == |Of(pool, f)|
    ensures |picks| == |pool|
  {
    CountAll(pool, families);
    CountAll(picks, families);
    SameCounts(picks, pool, families);
  }

  lemma {:induction false} OfIsShorter(tasks: seq<Task>, family: int)
    ensures |Of(tasks, family)| <= |tasks|
  {
    if tasks != [] {
      OfIsShorter(tasks[..|tasks| - 1], family);
    }
  }

  lemma OnlyKnownFamilies(tasks: seq<Task>, families: nat)
    requires Known(tasks, families)
    ensures forall f :: !(0 <= f < families) ==> Of(tasks, f) == []
  {
    forall f | Of(tasks, f) != []
      ensures 0 <= f < families
    {
      OfIsThatFamily(tasks, f);
      assert Of(tasks, f)[0] in Of(tasks, f);
    }
  }

  lemma EmptyStart(pool: seq<Task>, families: nat)
    requires Known(pool, families)
    ensures TakesFronts(pool, []) && WithinRound(pool, [], 0) && Reached(pool, [], 0, 0)
  {
    OnlyKnownFamilies(pool, families);
  }

  /** Before the last round there is still something to pick. */
  lemma RoundsEnd(pool: seq<Task>, picks: seq<Task>, families: nat, round: nat)
    requires Known(pool, families) && Known(picks, families) && Reached(pool, picks, round, 0) && |picks| < |pool|
    ensures round < |pool|
  {
    OnlyKnownFamilies(pool, families);
    if round >= |pool| {
      forall f
        ensures |Of(picks, f)| == |Of(pool, f)|
      {
        OfIsShorter(pool, f);
      }
      SpentPool(pool, picks, families);
    }
  }

  /** What holds when a round has come to family `name`. */
  ghost predicate AtTurn(pool: seq<Task>, families: nat, slots: nat, picks: seq<Task>, queues: seq<seq<Task>>, round: nat, name: int) {
    && |picks| <= slots && |queues| == families && Known(picks, families)
    && TakesFronts(pool, picks) && Queued(pool, picks, queues) && WithinRound(pool, picks, round)
    && (|picks| < slots ==> Reached(pool, picks, round, name))
    && InRounds(picks) && Before(picks, round, name)
  }

  lemma TakesTurn(pool: seq<Task>, families: nat, slots: nat, picks: seq<Task>, queues: seq<seq<Task>>, round: nat, name: nat)
    requires AtTurn(pool, families, slots, picks, queues, round, name)
    requires name < families && queues[name] != [] && |picks| < slots
    ensures AtTurn(pool, families, slots, picks + [queues[name][0]], queues[name := queues[name][1..]], round, name + 1)
  {
    var t := queues[name][0];
    QueuesMove(pool, picks, queues, name, t);
    TakeNext(pool, picks, name);
    PickedInTurn(picks, t);
    TurnCounts(pool, picks, t, round, name);
  }

  lemma TurnCounts(pool: seq<Task>, picks: seq<Task>, t: Task, round: nat, name: int)
    requires WithinRound(pool, picks, round) && Reached(pool, picks, round, name) && |Of(picks, name)| < |Of(pool, name)|
    requires forall g :: |Of(picks + [t], g)| == |Of(picks, g)| + if g == name then 1 else 0
    ensures WithinRound(pool, picks + [t], round) && Reached(pool, picks + [t], round, name + 1)
    ensures |Of(picks, name)| == round
  {
    assert |Of(picks, name)| == Min(round, |Of(pool, name)|);
  }

  lemma SkipsTurn(pool: seq<Task>, families: nat, slots: nat, picks: seq<Task>, queues: seq<seq<Task>>, round: nat, name: nat)
    requires AtTurn(pool, families, slots, picks, queues, round, name)
    requires name < families && (queues[name] == [] || |picks| >= slots)
    ensures AtTurn(pool, families, slots, picks, queues, round, name + 1)
  {
    LaterTurn(picks, round, name, round, name + 1);
  }

  /** One pass of the inner loop over the sorted family names. */
  method OneRound(pool: seq<Task>, families: nat, slots: nat, before: seq<Task>, waiting: seq<seq<Task>>, ghost round: nat)
    returns (picks: seq<Task>, queues: seq<seq<Task>>)
    requires Known(pool, families) && Known(before, families) && |before| < slots && |waiting| == families
    requires TakesFronts(pool, before) && Queued(pool, before, waiting) && Reached(pool, before, round, 0)
    requires InRounds(before) && Before(before, round, 0)
    ensures |picks| <= slots && |queues| == families && Known(picks, families)
    ensures TakesFronts(pool, picks) && Queued(pool, picks, queues) && WithinRound(pool, picks, round)
    ensures |picks| < slots ==> Reached(pool, picks, round + 1, 0)
    ensures InRounds(picks) && Before(picks, round + 1, 0)
  {
    OnlyKnownFamilies(pool, families);
    picks, queues := before, waiting;
    for name := 0 to families
      invariant AtTurn(pool, families, slots, picks, queues, round, name)
    {
      if queues[name] != [] && |picks| < slots {
        TakesTurn(pool, families, slots, picks, queues, round, name);
        picks := picks + [queues[name][0]];
        queues := queues[name := queues[name][1..]];
      } else {
        SkipsTurn(pool, families, slots, picks, queues, round, name);
      }
    }
    LaterTurn(picks, round, families, round + 1, 0);
    OnlyKnownFamilies(picks, families);
  }

  /** The predeclared baseline: rounds over the sorted families until every slot is filled. */
  method Baseline(pool: seq<Task>, families: nat, slots: nat) returns (picks: seq<Task>)
    requires Known(pool, families) && slots <= |pool|
    ensures |picks| == slots && TakesFronts(pool, picks) && Balanced(pool, picks) && InRounds(picks)
    ensures multiset(picks) <= multiset(pool)
  {
    var queues := seq(families, f requires 0 <= f < families => Of(pool, f));
    picks := [];
    EmptyStart(pool, families);
    ghost var round, last := 0, 0;
    while |picks| < slots
      invariant |picks| <= slots && TakesFronts(pool, picks) && Known(picks, families)
      invariant |queues| == families && Queued(pool, picks, queues)
      invariant WithinRound(pool, picks, last)
      invariant |picks| < slots ==> Reached(pool, picks, round, 0)
      invariant InRounds(picks) && Before(picks, round, 0)
      decreases |pool| - round
    {
      RoundsEnd(pool, picks, families, round);
      picks, queues := OneRound(pool, families, slots, picks, queues, round);
      last, round := round, round + 1;
    }
    WithinRoundBalances(pool, picks, last);
    FrontsAreFromThePool(pool, picks);
  }

  // ---------------------------------------------------------------------
  // The adaptive list
  // ---------------------------------------------------------------------

  /** A family's discovery evidence. */
  datatype Evidence = Evidence(trials: nat, successes: nat, survived: nat)

  /** A success is a survived trial. */
  predicate Plausible(e: Evidence) {
    e.successes <= e.survived <= e.trials
  }

  predicate Frontier(e: Evidence) {
    e.trials >= 3 && 0 < e.successes < e.trials
  }

  /** The sampling weight `4 * rate * (1 - rate) * survival` of a frontier family; others weigh nothing. */
  function Weight(e: Evidence): real {
    if Frontier(e) then
      var n := e.trials as real;
      var rate := e.successes as real / n;
      4.0 * rate * (1.0 - rate) * (e.survived as real / n)
    else 0.0
  }

  lemma Positive(a: real, b: real)
    requires a > 0.0 && b > 0.0
    ensures a * b > 0.0
  {
  }

  lemma Share(a: int, n: int)
    requires 0 < n
    ensures 0 < a ==> a as real / n as real > 0.0
    ensures a < n ==> a as real / n as real < 1.0
  {
  }

  /** Exactly the frontier families can be drawn: their weights are all positive. */
  lemma FrontierWeighs(e: Evidence)
    requires Plausible(e)
    ensures Weight(e) > 0.0 <==> Frontier(e)
  {
    if Frontier(e) {
      var n := e.trials as real;
      var rate, survival := e.successes as real / n, e.survived as real / n;
      Share(e.successes, e.trials);
      Share(e.survived, e.trials);
      Positive(4.0 * rate, 1.0 - rate);
      Positive(4.0 * rate * (1.0 - rate), survival);
    }
  }

  datatype Family = Family(difficulty: int, evidence: Evidence)

  predicate Retained(t: Task, families: seq<Family>, target: int)
    requires 0 <= t.family < |families|
  {
    families[t.family].difficulty < target && families[t.family].evidence.successes > 0
  }

  predicate Candidate(t: Task, families: seq<Family>, target: int)
    requires 0 <= t.family < |families|
  {
    Weight(families[t.family].evidence) > 0.0 && families[t.family].difficulty == target
  }

  /** The retention order: easier first, then by seed. */
  predicate NotAfter(a: Task, b: Task, families: seq<Family>)
    requires 0 <= a.family < |families| && 0 <= b.family < |families|
  {
    var x, y := families[a.family].difficulty, families[b.family].difficulty;
    x < y || (x == y && a.seed <= b.seed)
  }

  predicate InOrder(tasks: seq<Task>, families: seq<Family>)
    requires Known(tasks, |families|)
  {
    forall i, j :: 0 <= i < j < |tasks| ==> NotAfter(tasks[i], tasks[j], families)
  }

  /** `retention.sort(...)`. */
  function Sorted(tasks: seq<Task>, families: seq<Family>): (s: seq<Task>)
    requires Known(tasks, |families|)
    ensures multiset(s) == multiset(tasks) && |s| == |tasks| && Known(s, |families|)
  {
    if tasks == [] then []
    else
      assert tasks == [tasks[0]] + tasks[1..];
      Inserted(tasks[0], Sorted(tasks[1..], families), families)
  }

  function Inserted(t: Task, tasks: seq<Task>, families: seq<Family>): (s: seq<Task>)
    requires Known(tasks, |families|) && 0 <= t.family < |families|
    ensures multiset(s) == multiset(tasks) + multiset{t} && |s| == |tasks| + 1 && Known(s, |families|)
  {
    if tasks == [] || NotAfter(t, tasks[0], families) then [t] + tasks
    else
      assert tasks == [tasks[0]] + tasks[1..];
      [tasks[0]] + Inserted(t, tasks[1..], families)
  }

  lemma {:induction false} InsertedKeepsOrder(t: Task, tasks: seq<Task>, families: seq<Family>)
    requires Known(tasks, |families|) && 0 <= t.family < |families| && InOrder(tasks, families)
    ensures InOrder(Inserted(t, tasks, families), families)
  {
    if tasks != [] && !NotAfter(t, tasks[0], families) {
      var rest := Inserted(t, tasks[1..], families);
      InsertedKeepsOrder(t, tasks[1..], families);
      forall j | 0 <= j < |rest|
        ensures NotAfter(tasks[0], rest[j], families)
      {
        assert rest[j] in multiset(rest);
        assert rest[j] == t || rest[j] in tasks[1..];
      }
    }
  }

  lemma {:induction false} SortedIsInOrder(tasks: seq<Task>, families: seq<Family>)
    requires Known(tasks, |families|)
    ensures InOrder(Sorted(tasks, families), families)
  {
    if tasks != [] {
      SortedIsInOrder(tasks[1..], families);
      InsertedKeepsOrder(tasks[0], Sorted(tasks[1..], families), families);
    }
  }

  function RetentionPool(pool: seq<Task>, families: seq<Family>, target: int): (r: seq<Task>)
    requires Known(pool, |families|)
    ensures multiset(r) <= multiset(pool) && Known(r, |families|)
    ensures forall i {:trigger r[i]} :: 0 <= i < |r| ==> Retained(r[i], families, target)
    ensures forall t :: t in pool && Retained(t, families, target) ==> t in r
  {
    if pool == [] then []
    else
      assert pool == [pool[0]] + pool[1..];
      var rest := RetentionPool(pool[1..], families, target);
      if Retained(pool[0], families, target) then [pool[0]] + rest else rest
  }

  /**
   * The tasks open to the draws. The source also drops those already in the retention dose;
   * `PoolsAreApart` shows there are none.
   */
  function Candidates(pool: seq<Task>, families: seq<Family>, target: int): (r: seq<Task>)
    requires Known(pool, |families|)
    ensures multiset(r) <= multiset(pool) && Known(r, |families|)
    ensures forall i {:trigger r[i]} :: 0 <= i < |r| ==> Candidate(r[i], families, target)
    ensures forall t :: t in pool && Candidate(t, families, target) ==> t in r
  {
    if pool == [] then []
    else
      assert pool == [pool[0]] + pool[1..];
      var rest := Candidates(pool[1..], families, target);
      if Candidate(pool[0], families, target) then [pool[0]] + rest else rest
  }

  /** Retention and candidates are at different difficulties, so they never compete for a task. */
  lemma {:induction false} PoolsAreApart(pool: seq<Task>, families: seq<Family>, target: int)
    requires Known(pool, |families|)
    ensures multiset(RetentionPool(pool, families, target)) + multiset(Candidates(pool, families, target)) <= multiset(pool)
  {
    if pool != [] {
      assert pool == [pool[0]] + pool[1..];
      PoolsAreApart(pool[1..], families, target);
    }
  }

  /** The kept retention dose: the easiest quarter of the slots, in retention order. */
  function Dose(pool: seq<Task>, families: seq<Family>, target: int, slots: nat): seq<Task>
    requires Known(pool, |families|)
  {
    var sorted := Sorted(RetentionPool(pool, families, target), families);
    sorted[..Min(slots / 4, |sorted|)]
  }

  /** The front of an ordered list is ordered, and nothing behind it comes before anything in it. */
  lemma FrontComesFirst(sorted: seq<Task>, families: seq<Family>, n: nat)
    requires Known(sorted, |families|) && InOrder(sorted, families) && n <= |sorted|
    ensures Known(sorted[..n], |families|) && Known(sorted[n..], |families|) && InOrder(sorted[..n], families)
    ensures forall i, j :: 0 <= i < n && 0 <= j < |sorted| - n ==> NotAfter(sorted[..n][i], sorted[n..][j], families)
  {
    assert forall j {:trigger sorted[n..][j]} :: 0 <= j < |sorted| - n ==> sorted[n..][j] == sorted[n + j];
  }

  lemma QuarterOf(slots: nat, n: nat)
    ensures var q := Min(slots / 4, n); 4 * q <= slots && q <= n && (4 * q + 4 <= slots ==> q == n)
  {
  }

  /** A quarter of the slots, rounded down, or all there is; nothing left out comes before anything kept. */
  lemma DoseIsTheEasiestQuarter(pool: seq<Task>, families: seq<Family>, target: int, slots: nat) returns (rest: seq<Task>)
    requires Known(pool, |families|)
    ensures var dose, retained := Dose(pool, families, target, slots), RetentionPool(pool, families, target);
            && 4 * |dose| <= slots && |dose| <= |retained| && (4 * |dose| + 4 <= slots ==> |dose| == |retained|)
            && Known(dose, |families|) && Known(rest, |families|) && InOrder(dose, families)
            && multiset(dose) + multiset(rest) == multiset(retained)
            && forall i, j :: 0 <= i < |dose| && 0 <= j < |rest| ==> NotAfter(dose[i], rest[j], families)
  {
    var retained := RetentionPool(pool, families, target);
    var sorted := Sorted(retained, families);
    var n := Min(slots / 4, |sorted|);
    SortedIsInOrder(retained, families);
    QuarterOf(slots, |sorted|);
    FrontComesFirst(sorted, families, n);
    TwoParts(sorted, n);
    rest := sorted[n..];
  }

  /**
   * The weighted draws. `random.choices` and `random.choice` may return any candidate, and it is
   * removed before the next draw.
   */
  method Draw(dose: seq<Task>, candidates: seq<Task>, slots: nat) returns (adaptive: seq<Task>)
    requires |dose| <= slots
    ensures |adaptive| == Min(slots, |dose| + |candidates|)
    ensures dose <= adaptive && multiset(adaptive[|dose|..]) <= multiset(candidates)
  {
    adaptive := dose;
    var waiting := candidates;
    ghost var drawn: seq<Task> := [];
    while waiting != [] && |adaptive| < slots
      invariant adaptive == dose + drawn && |adaptive| <= slots
      invariant multiset(drawn) + multiset(waiting) == multiset(candidates)
      invariant |drawn| + |waiting| == |candidates|
      decreases |waiting|
    {
      var k :| 0 <= k < |waiting|;
      var chosen := waiting[k];
      assert waiting == waiting[..k] + [chosen] + waiting[k + 1..];
      adaptive := adaptive + [chosen];
      waiting := waiting[..k] + waiting[k + 1..];
      drawn := drawn + [chosen];
    }
    assert adaptive[|dose|..] == drawn;
  }

  datatype Selection = Selection(ready: bool, adaptive: seq<Task>)

  /**
   * The adaptive list. Whether it is ready does not depend on the draws; when it is, it has exactly
   * the requested slots, the retention dose comes first, and the rest are frontier tasks at the target.
   */
  method Adaptive(pool: seq<Task>, families: seq<Family>, target: int, slots: nat) returns (s: Selection)
    requires Known(pool, |families|)
    ensures s.ready <==> |Dose(pool, families, target, slots)| + |Candidates(pool, families, target)| >= slots
    ensures !s.ready ==> s.adaptive == []
    ensures s.ready ==>
              && |s.adaptive| == slots && Dose(pool, families, target, slots) <= s.adaptive
              && multiset(s.adaptive[|Dose(pool, families, target, slots)|..]) <= multiset(Candidates(pool, families, target))
    ensures multiset(s.adaptive) <= multiset(pool)
  {
    var dose := Dose(pool, families, target, slots);
    var candidates := Candidates(pool, families, target);
    var adaptive := Draw(dose, candidates, slots);
    DrawnFromThePool(pool, families, target, slots, adaptive);
    if |adaptive| == slots {
      return Selection(true, adaptive);
    }
    return Selection(false, []);
  }

  lemma DrawnFromThePool(pool: seq<Task>, families: seq<Family>, target: int, slots: nat, adaptive: seq<Task>)
    requires Known(pool, |families|) && Dose(pool, families, target, slots) <= adaptive
    requires multiset(adaptive[|Dose(pool, families, target, slots)|..]) <= multiset(Candidates(pool, families, target))
    ensures multiset(adaptive) <= multiset(pool)
  {
    var dose := Dose(pool, families, target, slots);
    var sorted := Sorted(RetentionPool(pool, families, target), families);
    assert dose == sorted[..|dose|];
    PoolsAreApart(pool, families, target);
    FrontAndDraws(sorted, Candidates(pool, families, target), pool, adaptive, |dose|);
  }

  /** A front of one part of the pool, followed by draws from the other part. */
  lemma FrontAndDraws(sorted: seq<Task>, candidates: seq<Task>, pool: seq<Task>, list: seq<Task>, n: nat)
    requires n <= |sorted| && n <= |list| && list[..n] == sorted[..n]
    requires multiset(list[n..]) <= multiset(candidates)
    requires multiset(sorted) + multiset(candidates) <= multiset(pool)
    ensures multiset(list) <= multiset(pool)
  {
    TwoParts(sorted, n);
    TwoParts(list, n);
    WithinBoth(multiset(sorted[..n]), multiset(list[n..]), multiset(sorted), multiset(candidates), multiset(pool));
  }

  lemma TwoParts(s: seq<Task>, n: nat)
    requires n <= |s|
    ensures multiset(s) == multiset(s[..n]) + multiset(s[n..])
  {
    assert s == s[..n] + s[n..];
  }

  lemma WithinBoth(a: multiset<Task>, b: multiset<Task>, x: multiset<Task>, y: multiset<Task>, whole: multiset<Task>)
    requires a <= x && b <= y && x + y <= whole
    ensures a + b <= whole
  {
  }

  // ---------------------------------------------------------------------
  // Distinct tasks, no holdouts
  // ---------------------------------------------------------------------

  predicate DistinctSeeds(tasks: seq<Task>) {
    forall i, j :: 0 <= i < j < |tasks| ==> tasks[i].seed != tasks[j].seed
  }

  /** A list drawn from an admitted bank's pool repeats no seed and holds no holdout. */
  lemma PicksAreDistinctAndHeldOut(families: int, slots: int, pool: seq<Task>, holdouts: seq<Task>, picks: seq<Task>)
    requires TasksAdmitted(families, slots, pool, holdouts) && multiset(picks) <= multiset(pool)
    ensures DistinctSeeds(picks)
    ensures forall i, j :: 0 <= i < |picks| && 0 <= j < |holdouts| ==> picks[i].seed != holdouts[j].seed
  {
    var rows := pool + holdouts;
    assert forall a {:trigger pool[a]} :: 0 <= a < |pool| ==> rows[a] == pool[a];
    assert DistinctSeeds(pool);
    forall i, j | 0 <= i < j < |picks|
      ensures picks[i].seed != picks[j].seed
    {
      PicksDiffer(pool, picks, i, j);
    }
    forall i, j | 0 <= i < |picks| && 0 <= j < |holdouts|
      ensures picks[i].seed != holdouts[j].seed
    {
      assert picks[i] in multiset(picks);
      var k :| 0 <= k < |pool| && pool[k] == picks[i];
      assert rows[k] == picks[i] && rows[|pool| + j] == holdouts[j];
    }
  }

  lemma {:induction false} OnceEach(pool: seq<Task>, x: Task)
    requires DistinctSeeds(pool)
    ensures multiset(pool)[x] <= 1
  {
    if pool != [] {
      var init := pool[..|pool| - 1];
      OnceEach(init, x);
      assert pool == init + [pool[|pool| - 1]];
      if x in init {
        var k :| 0 <= k < |init| && init[k] == x;
        assert pool[k].seed != pool[|pool| - 1].seed;
      }
    }
  }

  lemma Repeated(picks: seq<Task>, i: nat, j: nat)
    requires i < j < |picks| && picks[i] == picks[j]
    ensures multiset(picks)[picks[i]] >= 2
  {
    var front, rest := picks[..j], picks[j + 1..];
    assert picks == front + [picks[j]] + rest;
    assert front[i] in multiset(front);
  }

  lemma PicksDiffer(pool: seq<Task>, picks: seq<Task>, i: nat, j: nat)
    requires multiset(picks) <= multiset(pool) && i < j < |picks| && DistinctSeeds(pool)
    ensures picks[i].seed != picks[j].seed
  {
    var x, y := picks[i], picks[j];
    assert x in multiset(picks) && y in multiset(picks);
    var a :| 0 <= a < |pool| && pool[a] == x;
    var b :| 0 <= b < |pool| && pool[b] == y;
    OnceEach(pool, x);
    if x == y {
      Repeated(picks, i, j);
      assert false;
    }
  }

  // ---------------------------------------------------------------------
  // Discovery evidence
  // ---------------------------------------------------------------------

  /** A scored assessment. `recipe` is its family key, `source` the frozen checkpoints and policy it ran. */
  datatype Observation = Observation(recipe: string, seed: int, decisions: int, temperature: real, source: string,
                                     nourished: bool, survived: bool)

  /** One family of the bank: its key, which `validate_bank` keeps unique, and its difficulty. */
  datatype Recipe = Recipe(key: string, difficulty: int)

  predicate UniqueKeys(recipes: seq<Recipe>) {
    forall i, j :: 0 <= i < j < |recipes| ==> recipes[i].key != recipes[j].key
  }

  predicate IsRecipe(recipes: seq<Recipe>, key: string) {
    exists f :: 0 <= f < |recipes| && recipes[f].key == key
  }

  /** One row is of a known recipe, of a seed the bank does not use, and of the declared dose. */
  predicate RowFits(row: Observation, recipes: seq<Recipe>, taken: set<int>, budget: int) {
    && IsRecipe(recipes, row.recipe) && row.seed !in taken && row.decisions == budget && row.temperature == 1.0
  }

  /** The discovery rows `select` accepts: no seed twice, and all of one frozen source. */
  predicate RowsAdmitted(rows: seq<Observation>, recipes: seq<Recipe>, taken: set<int>, budget: int) {
    && (forall i {:trigger rows[i]} :: 0 <= i < |rows| ==> RowFits(rows[i], recipes, taken, budget))
    && (forall i, j :: 0 <= i < j < |rows| ==> rows[i].seed != rows[j].seed && rows[i].source == rows[j].source)
  }

  function Counted(e: Evidence, row: Observation): Evidence {
    Evidence(e.trials + 1, e.successes + (if row.nourished && row.survived then 1 else 0),
             e.survived + (if row.survived then 1 else 0))
  }

  /** Trials, successes and survivals among the rows of one recipe. */
  function EvidenceOf(rows: seq<Observation>, key: string): (e: Evidence)
    ensures Plausible(e)
  {
    if rows == [] then Evidence(0, 0, 0)
    else
      var rest, last := EvidenceOf(rows[..|rows| - 1], key), rows[|rows| - 1];
      if last.recipe == key then Counted(rest, last) else rest
  }

  // The rows themselves, by their positions.

  function RowsOf(rows: seq<Observation>, key: string): set<nat> {
    set i: nat | i < |rows| && rows[i].recipe == key
  }

  function SurvivalsOf(rows: seq<Observation>, key: string): set<nat> {
    set i: nat | i < |rows| && rows[i].recipe == key && rows[i].survived
  }

  function SuccessesOf(rows: seq<Observation>, key: string): set<nat> {
    set i: nat | i < |rows| && rows[i].recipe == key && rows[i].nourished && rows[i].survived
  }

  lemma OneMoreMember(before: set<nat>, after: set<nat>, n: nat, added: bool)
    requires forall i :: i in before ==> i < n
    requires forall i :: i in after <==> i in before || (added && i == n)
    ensures |after| == |before| + if added then 1 else 0
  {
    assert after == before + if added then {n} else {};
  }

  lemma OneMoreRow(rows: seq<Observation>, key: string)
    requires rows != []
    ensures var n := |rows| - 1;
            |RowsOf(rows, key)| == |RowsOf(rows[..n], key)| + if rows[n].recipe == key then 1 else 0
  {
    var n := |rows| - 1;
    OneMoreMember(RowsOf(rows[..n], key), RowsOf(rows, key), n, rows[n].recipe == key);
  }

  lemma OneMoreSurvival(rows: seq<Observation>, key: string)
    requires rows != []
    ensures var n := |rows| - 1;
            |SurvivalsOf(rows, key)| == |SurvivalsOf(rows[..n], key)| + if rows[n].recipe == key && rows[n].survived then 1 else 0
  {
    var n := |rows| - 1;
    OneMoreMember(SurvivalsOf(rows[..n], key), SurvivalsOf(rows, key), n, rows[n].recipe == key && rows[n].survived);
  }

  lemma OneMoreSuccess(rows: seq<Observation>, key: string)
    requires rows != []
    ensures var n := |rows| - 1;
            |SuccessesOf(rows, key)|
            == |SuccessesOf(rows[..n], key)| + if rows[n].recipe == key && rows[n].nourished && rows[n].survived then 1 else 0
  {
    var n := |rows| - 1;
    OneMoreMember(SuccessesOf(rows[..n], key), SuccessesOf(rows, key), n,
                  rows[n].recipe == key && rows[n].nourished && rows[n].survived);
  }

  /** A family's evidence counts its rows, the survivals among them, and the nourished survivals. */
  lemma {:induction false} EvidenceCounts(rows: seq<Observation>, key: string)
    ensures var e := EvidenceOf(rows, key);
            e.trials == |RowsOf(rows, key)| && e.survived == |SurvivalsOf(rows, key)| && e.successes == |SuccessesOf(rows, key)|
  {
    if rows == [] {
      assert RowsOf(rows, key) == {} && SurvivalsOf(rows, key) == {} && SuccessesOf(rows, key) == {};
    } else {
      EvidenceCounts(rows[..|rows| - 1], key);
      OneMoreRow(rows, key);
      OneMoreSurvival(rows, key);
      OneMoreSuccess(rows, key);
    }
  }

  function FamiliesOf(recipes: seq<Recipe>, rows: seq<Observation>): (families: seq<Family>)
    ensures |families| == |recipes| && AllPlausible(families)
    ensures forall f {:trigger families[f]} :: 0 <= f < |recipes| ==>
              families[f] == Family(recipes[f].difficulty, EvidenceOf(rows, recipes[f].key))
  {
    seq(|recipes|, f requires 0 <= f < |recipes| => Family(recipes[f].difficulty, EvidenceOf(rows, recipes[f].key)))
  }

  /** Every admitted row counts as a trial of exactly one family. */
  lemma {:induction false} NothingIsLost(recipes: seq<Recipe>, rows: seq<Observation>, taken: set<int>, budget: int)
    requires UniqueKeys(recipes) && RowsAdmitted(rows, recipes, taken, budget)
    ensures Trials(FamiliesOf(recipes, rows)) == |rows|
  {
    if rows == [] {
      NoTrials(FamiliesOf(recipes, rows));
    } else {
      var init, last := rows[..|rows| - 1], rows[|rows| - 1];
      NothingIsLost(recipes, init, taken, budget);
      assert RowFits(rows[|rows| - 1], recipes, taken, budget);
      var f :| 0 <= f < |recipes| && recipes[f].key == last.recipe;
      OneMoreTrial(FamiliesOf(recipes, init), FamiliesOf(recipes, rows), f);
    }
  }

  function Trials(families: seq<Family>): nat {
    if families == [] then 0
    else Trials(families[..|families| - 1]) + families[|families| - 1].evidence.trials
  }

  lemma {:induction false} NoTrials(families: seq<Family>)
    requires forall f {:trigger families[f]} :: 0 <= f < |families| ==> families[f].evidence.trials == 0
    ensures Trials(families) == 0
  {
    if families != [] {
      NoTrials(families[..|families| - 1]);
    }
  }

  lemma {:induction false} OneMoreTrial(before: seq<Family>, after: seq<Family>, f: nat)
    requires |before| == |after| && f < |before|
    requires forall g {:trigger after[g]} :: 0 <= g < |before| ==>
               after[g].evidence.trials == before[g].evidence.trials + if g == f then 1 else 0
    ensures Trials(after) == Trials(before) + 1
  {
    var n := |before| - 1;
    if f < n {
      OneMoreTrial(before[..n], after[..n], f);
    } else {
      SameTrials(before[..n], after[..n]);
    }
  }

  lemma {:induction false} SameTrials(before: seq<Family>, after: seq<Family>)
    requires |before| == |after|
    requires forall g {:trigger after[g]} :: 0 <= g < |before| ==> after[g].evidence.trials == before[g].evidence.trials
    ensures Trials(after) == Trials(before)
  {
    if before != [] {
      SameTrials(before[..|before| - 1], after[..|after| - 1]);
    }
  }

  /** The family a key belongs to. */
  method FamilyOf(recipes: seq<Recipe>, key: string) returns (f: Option<nat>)
    ensures f.None? <==> !IsRecipe(recipes, key)
    ensures f.Some? ==> f.value < |recipes| && recipes[f.value].key == key
  {
    for i := 0 to |recipes|
      invariant forall k :: 0 <= k < i ==> recipes[k].key != key
    {
      if recipes[i].key == key {
        return Some(i);
      }
    }
    return None;
  }

  /** The loop over the observations: it raises on the first row that does not fit, and groups the others. */
  method Gather(rows: seq<Observation>, recipes: seq<Recipe>, taken: set<int>, budget: int) returns (r: Option<seq<Family>>)
    requires UniqueKeys(recipes)
    ensures r.Some? <==> RowsAdmitted(rows, recipes, taken, budget)
    ensures r.Some? ==> r.value == FamiliesOf(recipes, rows)
  {
    var seen: set<int>, identity: Option<string> := {}, None;
    var grouped := FamiliesOf(recipes, []);
    for i := 0 to |rows|
      invariant RowsAdmitted(rows[..i], recipes, taken, budget) && Met(rows[..i], seen, identity)
      invariant grouped == FamiliesOf(recipes, rows[..i])
    {
      var row := rows[i];
      var f := FamilyOf(recipes, row.recipe);
      if f.None? || row.seed in seen || row.seed in taken || row.decisions != budget || row.temperature != 1.0
         || (identity.Some? && identity.value != row.source) {
        NotAdmitted(rows, recipes, taken, budget, i, seen, identity);
        return None;
      }
      AdmittedFurther(rows, recipes, taken, budget, i, seen, identity);
      MetFurther(rows, i, seen, identity);
      GroupedFurther(recipes, rows, i, f.value);
      identity, seen := Some(row.source), seen + {row.seed};
      grouped := grouped[f.value := grouped[f.value].(evidence := Counted(grouped[f.value].evidence, row))];
    }
    assert rows[..|rows|] == rows;
    return Some(grouped);
  }

  /** The seeds met and the source they share. */
  ghost predicate Met(rows: seq<Observation>, seen: set<int>, identity: Option<string>) {
    && (forall seed :: seed in seen <==> exists k :: 0 <= k < |rows| && rows[k].seed == seed)
    && (identity.None? <==> rows == [])
    && (forall k {:trigger rows[k]} :: 0 <= k < |rows| ==> identity == Some(rows[k].source))
  }

  lemma MetFurther(rows: seq<Observation>, i: nat, seen: set<int>, identity: Option<string>)
    requires i < |rows| && Met(rows[..i], seen, identity) && (identity.Some? ==> identity.value == rows[i].source)
    ensures Met(rows[..i + 1], seen + {rows[i].seed}, Some(rows[i].source))
  {
    var before, after := rows[..i], rows[..i + 1];
    forall seed
      ensures seed in seen + {rows[i].seed} <==> exists k :: 0 <= k < |after| && after[k].seed == seed
    {
      if seed == rows[i].seed {
        assert after[i].seed == seed;
      } else if seed in seen {
        var k :| 0 <= k < |before| && before[k].seed == seed;
        assert after[k].seed == seed;
      }
    }
    forall k {:trigger after[k]} | 0 <= k < |after|
      ensures after[k].source == rows[i].source
    {
      assert k < i ==> after[k] == before[k];
    }
  }

  lemma AdmittedFurther(rows: seq<Observation>, recipes: seq<Recipe>, taken: set<int>, budget: int, i: nat,
                        seen: set<int>, identity: Option<string>)
    requires i < |rows| && RowsAdmitted(rows[..i], recipes, taken, budget) && Met(rows[..i], seen, identity)
    requires RowFits(rows[i], recipes, taken, budget) && rows[i].seed !in seen
    requires identity.Some? ==> identity.value == rows[i].source
    ensures RowsAdmitted(rows[..i + 1], recipes, taken, budget)
  {
    var before, after := rows[..i], rows[..i + 1];
    forall j, k | 0 <= j < k < |after|
      ensures after[j].seed != after[k].seed && after[j].source == after[k].source
    {
      assert after[j] == before[j];
      assert k < i ==> after[k] == before[k];
    }
  }

  lemma NotAdmitted(rows: seq<Observation>, recipes: seq<Recipe>, taken: set<int>, budget: int, i: nat,
                    seen: set<int>, identity: Option<string>)
    requires i < |rows| && Met(rows[..i], seen, identity)
    requires || !RowFits(rows[i], recipes, taken, budget) || rows[i].seed in seen
             || (identity.Some? && identity.value != rows[i].source)
    ensures !RowsAdmitted(rows, recipes, taken, budget)
  {
    var before := rows[..i];
    if rows[i].seed in seen {
      var k :| 0 <= k < |before| && before[k].seed == rows[i].seed;
      assert rows[k].seed == rows[i].seed;
    } else if identity.Some? && identity.value != rows[i].source {
      assert before[0] == rows[0] && rows[0].source != rows[i].source;
    }
  }

  lemma GroupedFurther(recipes: seq<Recipe>, rows: seq<Observation>, i: nat, f: nat)
    requires UniqueKeys(recipes) && i < |rows| && f < |recipes| && recipes[f].key == rows[i].recipe
    ensures var before := FamiliesOf(recipes, rows[..i]);
            FamiliesOf(recipes, rows[..i + 1]) == before[f := before[f].(evidence := Counted(before[f].evidence, rows[i]))]
  {
    var longer := rows[..i + 1];
    assert longer[..i] == rows[..i] && longer[i] == rows[i];
    var before, after := FamiliesOf(recipes, rows[..i]), FamiliesOf(recipes, longer);
    forall g | 0 <= g < |recipes|
      ensures after[g] == before[f := before[f].(evidence := Counted(before[f].evidence, rows[i]))][g]
    {
      assert EvidenceOf(longer, recipes[g].key)
          == if rows[i].recipe == recipes[g].key then Counted(EvidenceOf(rows[..i], recipes[g].key), rows[i])
             else EvidenceOf(rows[..i], recipes[g].key);
    }
  }

  // ---------------------------------------------------------------------
  // select()
  // ---------------------------------------------------------------------

  predicate AllPlausible(families: seq<Family>) {
    forall i {:trigger families[i]} :: 0 <= i < |families| ==> Plausible(families[i].evidence)
  }

  /** Trials and successes over the families at one difficulty. */
  function Tally(families: seq<Family>, difficulty: int): (t: (nat, nat))
    requires AllPlausible(families)
    ensures t.1 <= t.0
  {
    if families == [] then (0, 0)
    else
      assert forall i {:trigger families[1..][i]} :: 0 <= i < |families| - 1 ==> families[1..][i] == families[i + 1];
      assert Plausible(families[0].evidence);
      var rest := Tally(families[1..], difficulty);
      var e := families[0].evidence;
      if families[0].difficulty == difficulty then (rest.0 + e.trials, rest.1 + e.successes) else rest
  }

  /** The recipe of a row is one of this difficulty. */
  predicate OfDifficulty(recipes: seq<Recipe>, key: string, difficulty: int) {
    exists f :: 0 <= f < |recipes| && recipes[f].key == key && recipes[f].difficulty == difficulty
  }

  /** The rows of the families at one difficulty: the batch that decides the next one. */
  function BatchRows(rows: seq<Observation>, recipes: seq<Recipe>, difficulty: int): set<nat> {
    set i: nat | i < |rows| && OfDifficulty(recipes, rows[i].recipe, difficulty)
  }

  function BatchSuccesses(rows: seq<Observation>, recipes: seq<Recipe>, difficulty: int): set<nat> {
    set i: nat | i < |rows| && OfDifficulty(recipes, rows[i].recipe, difficulty) && rows[i].nourished && rows[i].survived
  }

  lemma Disjoint(whole: set<nat>, a: set<nat>, b: set<nat>)
    requires a !! b && forall i :: i in whole <==> i in a || i in b
    ensures |whole| == |a| + |b|
  {
    assert whole == a + b;
  }

  lemma FirstRecipe(recipes: seq<Recipe>, key: string, difficulty: int)
    requires recipes != [] && UniqueKeys(recipes)
    ensures OfDifficulty(recipes, key, difficulty) <==>
            (recipes[0].key == key && recipes[0].difficulty == difficulty) || OfDifficulty(recipes[1..], key, difficulty)
    ensures recipes[0].key == key ==> !OfDifficulty(recipes[1..], key, difficulty)
  {
    var rest := recipes[1..];
    if f :| 0 <= f < |rest| && rest[f].key == key && rest[f].difficulty == difficulty {
      assert recipes[f + 1] == rest[f];
    }
    if f :| 0 <= f < |recipes| && recipes[f].key == key && recipes[f].difficulty == difficulty {
      assert f > 0 ==> rest[f - 1] == recipes[f];
    }
  }

  lemma Same(a: set<nat>, b: set<nat>)
    requires forall i :: i in a <==> i in b
    ensures |a| == |b|
  {
    assert a == b;
  }

  lemma BatchSplits(recipes: seq<Recipe>, rows: seq<Observation>, difficulty: int)
    requires recipes != [] && UniqueKeys(recipes)
    ensures |BatchRows(rows, recipes, difficulty)|
            == |BatchRows(rows, recipes[1..], difficulty)|
               + if recipes[0].difficulty == difficulty then |RowsOf(rows, recipes[0].key)| else 0
  {
    var whole, rest, own := BatchRows(rows, recipes, difficulty), BatchRows(rows, recipes[1..], difficulty), RowsOf(rows, recipes[0].key);
    forall i: nat | i < |rows| {
      FirstRecipe(recipes, rows[i].recipe, difficulty);
    }
    if recipes[0].difficulty == difficulty {
      Disjoint(whole, own, rest);
    } else {
      Same(whole, rest);
    }
  }

  lemma SuccessesSplit(recipes: seq<Recipe>, rows: seq<Observation>, difficulty: int)
    requires recipes != [] && UniqueKeys(recipes)
    ensures |BatchSuccesses(rows, recipes, difficulty)|
            == |BatchSuccesses(rows, recipes[1..], difficulty)|
               + if recipes[0].difficulty == difficulty then |SuccessesOf(rows, recipes[0].key)| else 0
  {
    var whole, rest := BatchSuccesses(rows, recipes, difficulty), BatchSuccesses(rows, recipes[1..], difficulty);
    var own := SuccessesOf(rows, recipes[0].key);
    forall i: nat | i < |rows| {
      FirstRecipe(recipes, rows[i].recipe, difficulty);
    }
    if recipes[0].difficulty == difficulty {
      Disjoint(whole, own, rest);
    } else {
      Same(whole, rest);
    }
  }

  /** The tally of the families is the count of the rows: those of this difficulty, and the successes among them. */
  lemma {:induction false} TallyCounts(recipes: seq<Recipe>, rows: seq<Observation>, difficulty: int)
    requires UniqueKeys(recipes)
    ensures Tally(FamiliesOf(recipes, rows), difficulty)
            == (|BatchRows(rows, recipes, difficulty)|, |BatchSuccesses(rows, recipes, difficulty)|)
  {
    if recipes == [] {
      assert BatchRows(rows, recipes, difficulty) == {} && BatchSuccesses(rows, recipes, difficulty) == {};
    } else {
      TallyCounts(recipes[1..], rows, difficulty);
      assert FamiliesOf(recipes, rows)[1..] == FamiliesOf(recipes[1..], rows);
      EvidenceCounts(rows, recipes[0].key);
      BatchSplits(recipes, rows, difficulty);
      SuccessesSplit(recipes, rows, difficulty);
    }
  }

  /** Families with the difficulties of their recipes and the evidence of their rows. */
  ghost predicate Evidenced(families: seq<Family>, recipes: seq<Recipe>, rows: seq<Observation>) {
    && |families| == |recipes|
    && forall f {:trigger families[f]} :: 0 <= f < |families| ==>
         && families[f].difficulty == recipes[f].difficulty
         && families[f].evidence.trials == |RowsOf(rows, recipes[f].key)|
         && families[f].evidence.survived == |SurvivalsOf(rows, recipes[f].key)|
         && families[f].evidence.successes == |SuccessesOf(rows, recipes[f].key)|
  }

  lemma FamiliesAreEvidenced(recipes: seq<Recipe>, rows: seq<Observation>)
    ensures Evidenced(FamiliesOf(recipes, rows), recipes, rows)
  {
    forall f | 0 <= f < |recipes| {
      EvidenceCounts(rows, recipes[f].key);
    }
  }

  ghost predicate InUse(recipes: seq<Recipe>, d: int) {
    exists i :: 0 <= i < |recipes| && recipes[i].difficulty == d
  }

  /** The ladder has a rung at every difficulty from 0 to the hardest, and the current one is among them. */
  ghost predicate Ladder(recipes: seq<Recipe>, current: int) {
    && InUse(recipes, current)
    && (forall d: int {:trigger InUse(recipes, d)} :: InUse(recipes, d) ==> 0 <= d)
    && (forall d: nat, e: int {:trigger InUse(recipes, d), InUse(recipes, e)} :: InUse(recipes, e) && d <= e ==> InUse(recipes, d))
  }

  /** `max(f["difficulty"] ...)`. */
  method Hardest(recipes: seq<Recipe>) returns (maximum: int)
    requires recipes != []
    ensures InUse(recipes, maximum) && forall d {:trigger InUse(recipes, d)} :: InUse(recipes, d) ==> d <= maximum
  {
    maximum := recipes[0].difficulty;
    for i := 1 to |recipes|
      invariant exists k :: 0 <= k < i && recipes[k].difficulty == maximum
      invariant forall k :: 0 <= k < i ==> recipes[k].difficulty <= maximum
    {
      if recipes[i].difficulty > maximum {
        maximum := recipes[i].difficulty;
      }
    }
  }

  /** The ladder check of `validate_bank`: the levels in use are `range(max + 1)`, and the current one is among them. */
  method CheckLadder(recipes: seq<Recipe>, current: int) returns (ok: bool)
    requires recipes != []
    ensures ok <==> Ladder(recipes, current)
  {
    var maximum := Hardest(recipes);
    var levels := set f | f in recipes :: f.difficulty;
    forall d
      ensures d in levels <==> InUse(recipes, d)
    {
    }
    ok := levels == (set d {:trigger d in levels} | 0 <= d <= maximum) && current in levels;
    if ok {
      forall d: nat, e: int | InUse(recipes, e) && d <= e
        ensures InUse(recipes, d)
      {
        assert e in levels && d in levels;
      }
    } else if Ladder(recipes, current) {
      forall d
        ensures d in levels <==> 0 <= d <= maximum
      {
        assert InUse(recipes, maximum);
      }
    }
  }

  /** The seeds of pool and holdouts. */
  function Taken(pool: seq<Task>, holdouts: seq<Task>): (taken: set<int>)
    ensures forall t :: t in pool || t in holdouts ==> t.seed in taken
    ensures forall seed :: seed in taken ==> exists t :: (t in pool || t in holdouts) && t.seed == seed
  {
    (set t | t in pool :: t.seed) + (set t | t in holdouts :: t.seed)
  }

  /** An easier task of a family that was seen to succeed. */
  ghost predicate EasyAndSolved(t: Task, recipes: seq<Recipe>, rows: seq<Observation>, target: int) {
    && 0 <= t.family < |recipes| && recipes[t.family].difficulty < target
    && SuccessesOf(rows, recipes[t.family].key) != {}
  }

  /** A task at the target of a family with at least three trials, some of them successes and some not. */
  ghost predicate AtTheFrontier(t: Task, recipes: seq<Recipe>, rows: seq<Observation>, target: int) {
    && 0 <= t.family < |recipes| && recipes[t.family].difficulty == target
    && |RowsOf(rows, recipes[t.family].key)| >= 3
    && 0 < |SuccessesOf(rows, recipes[t.family].key)| < |RowsOf(rows, recipes[t.family].key)|
  }

  ghost function SolvedTasks(pool: seq<Task>, recipes: seq<Recipe>, rows: seq<Observation>, target: int): set<Task> {
    set t | t in pool && EasyAndSolved(t, recipes, rows, target)
  }

  ghost function FrontierTasks(pool: seq<Task>, recipes: seq<Recipe>, rows: seq<Observation>, target: int): set<Task> {
    set t | t in pool && AtTheFrontier(t, recipes, rows, target)
  }

  /** Easier first, then the smaller seed. */
  ghost predicate Sooner(a: Task, b: Task, recipes: seq<Recipe>)
    requires 0 <= a.family < |recipes| && 0 <= b.family < |recipes|
  {
    || recipes[a.family].difficulty < recipes[b.family].difficulty
    || (recipes[a.family].difficulty == recipes[b.family].difficulty && a.seed < b.seed)
  }

  /**
   * A list of a dose and draws: up to a quarter of the slots go to the easiest solved tasks, in order, and
   * the rest to frontier tasks. It is ready if and only if there are enough of both.
   */
  ghost predicate AdaptiveFits(pool: seq<Task>, recipes: seq<Recipe>, rows: seq<Observation>, target: int, slots: nat,
                               ready: bool, list: seq<Task>)
  {
    var solved, frontier := SolvedTasks(pool, recipes, rows, target), FrontierTasks(pool, recipes, rows, target);
    var dose := if slots / 4 < |solved| then slots / 4 else |solved|;
    && (ready <==> dose + |frontier| >= slots)
    && |list| == (if ready then slots else 0)
    && (ready ==>
          && (forall i {:trigger list[i]} :: 0 <= i < slots ==> if i < dose then list[i] in solved else list[i] in frontier)
          && (forall i, j :: 0 <= i < j < dose ==> Sooner(list[i], list[j], recipes))
          && (forall i, u :: 0 <= i < dose && u in solved && u !in list[..dose] ==> Sooner(list[i], u, recipes)))
  }

  lemma {:induction false} DistinctCount(tasks: seq<Task>, members: set<Task>)
    requires DistinctSeeds(tasks) && forall t :: t in tasks <==> t in members
    ensures |tasks| == |members|
  {
    if tasks == [] {
      assert members == {};
    } else {
      var init, last := tasks[..|tasks| - 1], tasks[|tasks| - 1];
      assert tasks == init + [last];
      forall t
        ensures t in init <==> t in members - {last}
      {
        if t in init {
          var k :| 0 <= k < |init| && init[k] == t;
          assert tasks[k].seed != last.seed;
        }
      }
      DistinctCount(init, members - {last});
    }
  }

  /** The families as the code sees them say the same as the rows. */
  lemma KindsAgree(t: Task, recipes: seq<Recipe>, rows: seq<Observation>, families: seq<Family>, target: int)
    requires Evidenced(families, recipes, rows) && AllPlausible(families) && 0 <= t.family < |recipes|
    ensures Retained(t, families, target) <==> EasyAndSolved(t, recipes, rows, target)
    ensures Candidate(t, families, target) <==> AtTheFrontier(t, recipes, rows, target)
  {
    assert families[t.family].evidence.successes == |SuccessesOf(rows, recipes[t.family].key)|;
    FrontierWeighs(families[t.family].evidence);
  }

  lemma SubPoolIsDistinct(pool: seq<Task>, part: seq<Task>)
    requires DistinctSeeds(pool) && multiset(part) <= multiset(pool)
    ensures DistinctSeeds(part)
  {
    forall i, j | 0 <= i < j < |part|
      ensures part[i].seed != part[j].seed
    {
      PicksDiffer(pool, part, i, j);
    }
  }

  lemma RetainedAreSolved(pool: seq<Task>, recipes: seq<Recipe>, rows: seq<Observation>, families: seq<Family>, target: int)
    requires Known(pool, |families|) && DistinctSeeds(pool) && Evidenced(families, recipes, rows) && AllPlausible(families)
    ensures var retained, solved := RetentionPool(pool, families, target), SolvedTasks(pool, recipes, rows, target);
            DistinctSeeds(retained) && |retained| == |solved| && forall t :: t in retained <==> t in solved
  {
    var retained := RetentionPool(pool, families, target);
    SubPoolIsDistinct(pool, retained);
    forall t
      ensures t in retained <==> t in pool && EasyAndSolved(t, recipes, rows, target)
    {
      if t in retained {
        assert t in multiset(retained);
        var i :| 0 <= i < |retained| && retained[i] == t;
        KindsAgree(t, recipes, rows, families, target);
      }
      if t in pool && EasyAndSolved(t, recipes, rows, target) {
        KindsAgree(t, recipes, rows, families, target);
      }
    }
    DistinctCount(retained, SolvedTasks(pool, recipes, rows, target));
  }

  lemma CandidatesAreFrontier(pool: seq<Task>, recipes: seq<Recipe>, rows: seq<Observation>, families: seq<Family>, target: int)
    requires Known(pool, |families|) && DistinctSeeds(pool) && Evidenced(families, recipes, rows) && AllPlausible(families)
    ensures var candidates, frontier := Candidates(pool, families, target), FrontierTasks(pool, recipes, rows, target);
            |candidates| == |frontier| && forall t :: t in candidates <==> t in frontier
  {
    var candidates := Candidates(pool, families, target);
    SubPoolIsDistinct(pool, candidates);
    forall t
      ensures t in candidates <==> t in pool && AtTheFrontier(t, recipes, rows, target)
    {
      if t in candidates {
        assert t in multiset(candidates);
        var i :| 0 <= i < |candidates| && candidates[i] == t;
        KindsAgree(t, recipes, rows, families, target);
      }
      if t in pool && AtTheFrontier(t, recipes, rows, target) {
        KindsAgree(t, recipes, rows, families, target);
      }
    }
    DistinctCount(candidates, FrontierTasks(pool, recipes, rows, target));
  }

  ghost predicate SoonerFirst(tasks: seq<Task>, recipes: seq<Recipe>) {
    Known(tasks, |recipes|) && forall i, j :: 0 <= i < j < |tasks| ==> Sooner(tasks[i], tasks[j], recipes)
  }

  lemma SortedAreSooner(sorted: seq<Task>, recipes: seq<Recipe>, families: seq<Family>)
    requires |families| == |recipes| && forall f {:trigger families[f]} :: 0 <= f < |families| ==> families[f].difficulty == recipes[f].difficulty
    requires Known(sorted, |families|) && InOrder(sorted, families) && DistinctSeeds(sorted)
    ensures SoonerFirst(sorted, recipes)
  {
    forall i, j | 0 <= i < j < |sorted|
      ensures Sooner(sorted[i], sorted[j], recipes)
    {
      assert NotAfter(sorted[i], sorted[j], families) && sorted[i].seed != sorted[j].seed;
    }
  }

  lemma FrontIsSooner(sorted: seq<Task>, recipes: seq<Recipe>, n: nat, i: nat, u: Task)
    requires SoonerFirst(sorted, recipes) && i < n <= |sorted| && u in sorted && u !in sorted[..n]
    ensures 0 <= u.family < |recipes| && Sooner(sorted[i], u, recipes)
  {
    var j :| 0 <= j < |sorted| && sorted[j] == u;
    assert forall k :: 0 <= k < n ==> sorted[..n][k] == sorted[k] && sorted[k] in sorted[..n];
    assert j >= n;
  }

  lemma SameMembers(a: seq<Task>, b: seq<Task>)
    requires multiset(a) == multiset(b)
    ensures forall t :: t in a <==> t in b
  {
    forall t
      ensures t in a <==> t in b
    {
      assert t in multiset(a) <==> t in multiset(b);
    }
  }

  /** The dose is the front of the solved tasks in their order. */
  lemma DoseComesFirst(pool: seq<Task>, recipes: seq<Recipe>, rows: seq<Observation>, families: seq<Family>, target: int, slots: nat)
    requires Known(pool, |families|) && DistinctSeeds(pool) && Evidenced(families, recipes, rows) && AllPlausible(families)
    ensures var dose, retained := Dose(pool, families, target, slots), RetentionPool(pool, families, target);
            && |dose| == (if slots / 4 < |retained| then slots / 4 else |retained|) && SoonerFirst(dose, recipes)
            && (forall i {:trigger dose[i]} :: 0 <= i < |dose| ==> dose[i] in retained)
            && (forall i, u :: 0 <= i < |dose| && u in retained && u !in dose ==>
                  0 <= u.family < |recipes| && Sooner(dose[i], u, recipes))
  {
    var retained := RetentionPool(pool, families, target);
    var sorted := Sorted(retained, families);
    var dose := Dose(pool, families, target, slots);
    SortedIsInOrder(retained, families);
    SubPoolIsDistinct(pool, sorted);
    SortedAreSooner(sorted, recipes, families);
    SameMembers(sorted, retained);
    FrontOfSorted(sorted, retained, recipes, |dose|);
  }

  lemma FrontOfSorted(sorted: seq<Task>, retained: seq<Task>, recipes: seq<Recipe>, n: nat)
    requires SoonerFirst(sorted, recipes) && n <= |sorted| && forall t :: t in sorted <==> t in retained
    ensures SoonerFirst(sorted[..n], recipes)
    ensures forall i {:trigger sorted[..n][i]} :: 0 <= i < n ==> sorted[..n][i] in retained
    ensures forall i, u :: 0 <= i < n && u in retained && u !in sorted[..n] ==>
              0 <= u.family < |recipes| && Sooner(sorted[..n][i], u, recipes)
  {
    forall i, u | 0 <= i < n && u in retained && u !in sorted[..n]
      ensures 0 <= u.family < |recipes| && Sooner(sorted[..n][i], u, recipes)
    {
      FrontIsSooner(sorted, recipes, n, i, u);
    }
    forall i | 0 <= i < n
      ensures sorted[..n][i] in retained
    {
      assert sorted[i] in sorted;
    }
  }

  /** A list that starts with the dose and goes on with candidates. */
  lemma DoseThenDraws(dose: seq<Task>, candidates: seq<Task>, list: seq<Task>, i: nat)
    requires dose <= list && multiset(list[|dose|..]) <= multiset(candidates) && i < |list|
    ensures if i < |dose| then list[i] == dose[i] else list[i] in candidates
  {
    var rest := list[|dose|..];
    if i >= |dose| {
      assert rest[i - |dose|] == list[i];
      assert list[i] in multiset(rest);
    }
  }

  lemma AdaptiveIsFit(pool: seq<Task>, recipes: seq<Recipe>, rows: seq<Observation>, families: seq<Family>, target: int, slots: nat,
                      s: Selection)
    requires Known(pool, |families|) && DistinctSeeds(pool) && Evidenced(families, recipes, rows) && AllPlausible(families)
    requires s.ready <==> |Dose(pool, families, target, slots)| + |Candidates(pool, families, target)| >= slots
    requires !s.ready ==> s.adaptive == []
    requires s.ready ==>
               && |s.adaptive| == slots && Dose(pool, families, target, slots) <= s.adaptive
               && multiset(s.adaptive[|Dose(pool, families, target, slots)|..]) <= multiset(Candidates(pool, families, target))
    ensures AdaptiveFits(pool, recipes, rows, target, slots, s.ready, s.adaptive)
  {
    RetainedAreSolved(pool, recipes, rows, families, target);
    CandidatesAreFrontier(pool, recipes, rows, families, target);
    DoseComesFirst(pool, recipes, rows, families, target, slots);
    ListIsFit(pool, recipes, rows, target, slots, Dose(pool, families, target, slots), RetentionPool(pool, families, target),
              Candidates(pool, families, target), s);
  }

  lemma ListIsFit(pool: seq<Task>, recipes: seq<Recipe>, rows: seq<Observation>, target: int, slots: nat,
                  dose: seq<Task>, retained: seq<Task>, candidates: seq<Task>, s: Selection)
    requires var solved := SolvedTasks(pool, recipes, rows, target); |retained| == |solved| && forall t :: t in retained <==> t in solved
    requires var frontier := FrontierTasks(pool, recipes, rows, target);
             |candidates| == |frontier| && forall t :: t in candidates <==> t in frontier
    requires |dose| == (if slots / 4 < |retained| then slots / 4 else |retained|) && SoonerFirst(dose, recipes)
    requires forall i {:trigger dose[i]} :: 0 <= i < |dose| ==> dose[i] in retained
    requires forall i, u :: 0 <= i < |dose| && u in retained && u !in dose ==>
               0 <= u.family < |recipes| && Sooner(dose[i], u, recipes)
    requires s.ready <==> |dose| + |candidates| >= slots
    requires if s.ready then |s.adaptive| == slots && dose <= s.adaptive && multiset(s.adaptive[|dose|..]) <= multiset(candidates)
             else s.adaptive == []
    ensures AdaptiveFits(pool, recipes, rows, target, slots, s.ready, s.adaptive)
  {
    if s.ready {
      assert s.adaptive[..|dose|] == dose;
      forall i | 0 <= i < slots
        ensures if i < |dose| then s.adaptive[i] == dose[i] && s.adaptive[i] in retained else s.adaptive[i] in candidates
      {
        DoseThenDraws(dose, candidates, s.adaptive, i);
      }
    }
  }

  datatype Selected = Selected(families: seq<Family>, target: int, baseline: seq<Task>, adaptive: Selection)

  /** The lists of a selection: slots filled, nothing twice, nothing that is held out. */
  ghost predicate Sound(pool: seq<Task>, holdouts: seq<Task>, slots: nat, s: Selected) {
    && |s.baseline| == slots && Balanced(pool, s.baseline) && TakesFronts(pool, s.baseline) && InRounds(s.baseline)
    && (s.adaptive.ready ==> |s.adaptive.adaptive| == slots)
    && DistinctSeeds(s.baseline) && DistinctSeeds(s.adaptive.adaptive)
    && multiset(s.baseline) <= multiset(pool) && multiset(s.adaptive.adaptive) <= multiset(pool)
    && (forall t :: t in s.baseline || t in s.adaptive.adaptive ==> forall h :: h in holdouts ==> h.seed != t.seed)
  }

  /** The step on the ladder that the evidence of a batch gives; the hardest difficulty in use bounds it. */
  ghost predicate IsStep(recipes: seq<Recipe>, current: int, trials: nat, successes: nat, target: int) {
    exists maximum {:trigger InUse(recipes, maximum)} ::
      && InUse(recipes, maximum) && (forall d {:trigger InUse(recipes, d)} :: InUse(recipes, d) ==> d <= maximum)
      && AdjustDifficulty(current, successes, trials, maximum) == Some(target)
  }

  method Target(recipes: seq<Recipe>, current: int, trials: nat, successes: nat) returns (target: int)
    requires Ladder(recipes, current) && successes <= trials
    ensures IsStep(recipes, current, trials, successes, target)
    ensures InUse(recipes, target) && current - 1 <= target <= current + 1
  {
    var maximum := Hardest(recipes);
    assert 0 <= current <= maximum;
    target := AdjustDifficulty(current, successes, trials, maximum).value;
    assert InUse(recipes, maximum) && 0 <= target <= maximum;
    assert InUse(recipes, target);
  }

  /** The lists once the evidence has been gathered. */
  method Choose(pool: seq<Task>, holdouts: seq<Task>, families: seq<Family>, target: int, slots: nat) returns (s: Selected)
    requires TasksAdmitted(|families|, slots, pool, holdouts) && Known(pool, |families|)
    ensures s.families == families && s.target == target && Sound(pool, holdouts, slots, s)
    ensures s.adaptive.ready <==> |Dose(pool, families, target, slots)| + |Candidates(pool, families, target)| >= slots
    ensures !s.adaptive.ready ==> s.adaptive.adaptive == []
    ensures s.adaptive.ready ==>
              && Dose(pool, families, target, slots) <= s.adaptive.adaptive
              && multiset(s.adaptive.adaptive[|Dose(pool, families, target, slots)|..]) <= multiset(Candidates(pool, families, target))
  {
    var baseline := Baseline(pool, |families|, slots);
    var adaptive := Adaptive(pool, families, target, slots);
    PicksAreDistinctAndHeldOut(|families|, slots, pool, holdouts, baseline);
    PicksAreDistinctAndHeldOut(|families|, slots, pool, holdouts, adaptive.adaptive);
    return Selected(families, target, baseline, adaptive);
  }

  lemma AdmittedPool(families: int, slots: int, pool: seq<Task>, holdouts: seq<Task>)
    requires TasksAdmitted(families, slots, pool, holdouts) && 0 <= families
    ensures Known(pool, families) && DistinctSeeds(pool)
  {
    var rows := pool + holdouts;
    assert forall a {:trigger pool[a]} :: 0 <= a < |pool| ==> rows[a] == pool[a];
  }

  /** The batch evidence, as `select` adds it up, gives the step that the rows call for. */
  method NextTarget(recipes: seq<Recipe>, rows: seq<Observation>, families: seq<Family>, current: int) returns (target: int)
    requires UniqueKeys(recipes) && Ladder(recipes, current) && families == FamiliesOf(recipes, rows)
    ensures InUse(recipes, target) && current - 1 <= target <= current + 1
    ensures IsStep(recipes, current, |BatchRows(rows, recipes, current)|, |BatchSuccesses(rows, recipes, current)|, target)
  {
    TallyCounts(recipes, rows, current);
    var (trials, successes) := Tally(families, current);
    target := Target(recipes, current, trials, successes);
  }

  /** The lists for a target are what the rows call for. */
  method ListsFor(pool: seq<Task>, holdouts: seq<Task>, recipes: seq<Recipe>, rows: seq<Observation>, families: seq<Family>,
                  target: int, slots: nat)
    returns (s: Selected)
    requires TasksAdmitted(|recipes|, slots, pool, holdouts) && families == FamiliesOf(recipes, rows)
    ensures s.families == families && s.target == target && Evidenced(families, recipes, rows) && Sound(pool, holdouts, slots, s)
    ensures AdaptiveFits(pool, recipes, rows, target, slots, s.adaptive.ready, s.adaptive.adaptive)
  {
    FamiliesAreEvidenced(recipes, rows);
    AdmittedPool(|recipes|, slots, pool, holdouts);
    s := Choose(pool, holdouts, families, target, slots);
    AdaptiveIsFit(pool, recipes, rows, families, target, slots, s.adaptive);
  }

  /**
   * `select` on an admitted bank. It raises exactly on observations that are too few, too many, of an
   * unknown recipe, of a seed used twice or by the bank, of another dose or of more than one source.
   * Otherwise every row counts for one family, the target is at most one step away on the ladder, and
   * the lists are sound whatever the random choices.
   */
  method Select(pool: seq<Task>, holdouts: seq<Task>, recipes: seq<Recipe>, current: int, slots: nat,
                budget: int, rows: seq<Observation>)
    returns (r: Option<Selected>)
    requires TasksAdmitted(|recipes|, slots, pool, holdouts) && UniqueKeys(recipes) && Ladder(recipes, current)
    ensures r.Some? <==> 1 <= |rows| <= 1024 && RowsAdmitted(rows, recipes, Taken(pool, holdouts), budget)
    ensures r.Some? ==>
              && Evidenced(r.value.families, recipes, rows) && Trials(r.value.families) == |rows|
              && InUse(recipes, r.value.target) && current - 1 <= r.value.target <= current + 1
              && IsStep(recipes, current, |BatchRows(rows, recipes, current)|, |BatchSuccesses(rows, recipes, current)|,
                        r.value.target)
              && Sound(pool, holdouts, slots, r.value)
              && AdaptiveFits(pool, recipes, rows, r.value.target, slots, r.value.adaptive.ready, r.value.adaptive.adaptive)
  {
    if !(1 <= |rows| <= 1024) {
      return None;
    }
    var gathered := Gather(rows, recipes, Taken(pool, holdouts), budget);
    if gathered.None? {
      return None;
    }
    NothingIsLost(recipes, rows, Taken(pool, holdouts), budget);
    var target := NextTarget(recipes, rows, gathered.value, current);
    var s := ListsFor(pool, holdouts, recipes, rows, gathered.value, target, slots);
    return Some(s);
  }
}
