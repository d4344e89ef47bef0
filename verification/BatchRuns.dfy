/**
 * Runs of the batch ledger: any number of processes, their file steps
 * interleaved in any order, and any of them stopping anywhere by raising or dying.
 */
module BatchRuns {
  import opened Common
  import opened BatchSeeds
  import opened TaskSelection
  import opened BatchLedger

  // ---------------------------------------------------------------------
  // Processes, the world and its steps
  // ---------------------------------------------------------------------

  /** How far the owner of a claimed stage has come in `finish`. */
  datatype Progress =
    | Claimed
    | Recording(record: Record)
    | Recorded(record: Record)
    | Sealing(record: Record)

  datatype Process =
    | Idle
    | Listed(count: nat)                                  // in `load`, after listing the root
    | Ready(records: seq<Record>)                         // `load` has returned (or the root is new)
    | Owner(records: seq<Record>, progress: Progress)     // has made stage number |records|
    | FounderOwner(claim: Founder)                        // has created the founder claim, still empty

  /** The directory, the processes, and two logs: stages made, and batches whose dispatch stage was sealed. */
  datatype World = World(made: bool, root: Root, processes: map<nat, Process>, claims: seq<nat>, dispatches: seq<nat>)
  {
    function At(p: nat): Process {
      if p in processes then processes[p] else Idle
    }

    function With(p: nat, process: Process): World {
      this.(processes := processes[p := process])
    }

    function WithStage(i: nat, stage: Stage): World {
      this.(root := root.(stages := root.stages[i := stage]))
    }
  }

  const START: World := World(false, Root(map[], None), map[], [], [])

  datatype Event =
    | MakeRoot(p: nat)
    | List(p: nat)
    | Read(p: nat)
    | Claim(p: nat)
    | BeginRecord(p: nat, payload: Payload)
    | EndRecord(p: nat)
    | BeginSeal(p: nat)
    | EndSeal(p: nat)
    | BeginFounder(p: nat, runRoot: string)
    | EndFounder(p: nat)
    | Stop(p: nat)

  /** The files of a claimed stage whose owner has come this far. */
  function OpenStage(progress: Progress): Stage {
    match progress
    case Claimed => Stage(None, None)
    case Recording(_) => Stage(Some(Torn), None)
    case Recorded(r) => Stage(Some(Whole(r)), None)
    case Sealing(r) => Stage(Some(Whole(r)), Some(Torn))
  }

  function SealedStage(r: Record): Stage {
    Stage(Some(Whole(r)), Some(Whole(OfRecord(r))))
  }

  /** A stage's files; a missing stage has none. */
  function StageAt(root: Root, i: nat): Stage {
    if i in root.stages then root.stages[i] else Stage(None, None)
  }

  predicate AllSealed(root: Root, count: nat) {
    forall i: nat {:trigger StageAt(root, i)} :: i < count ==> Sealed(StageAt(root, i))
  }

  function Contents(root: Root, count: nat): (records: seq<Record>)
    requires AllSealed(root, count)
    ensures |records| == count
    ensures forall i: nat {:trigger records[i]} :: i < count ==> StageAt(root, i) == SealedStage(records[i])
  {
    seq(count, i requires 0 <= i < count => StageAt(root, i).record.value.value)
  }

  /** The listing checks of `load`. */
  ghost predicate Listable(w: World) {
    w.made && 1 <= |w.root.stages| <= 257 && w.root.stages.Keys == Below(|w.root.stages|)
  }

  /** The reading checks of `load`, some time after its listing. */
  ghost predicate Readable(root: Root, count: nat) {
    AllSealed(root, count) && WellShaped(Contents(root, count), root.founder)
  }

  /** `claim`: make the stage directory, which fails if anyone has made it before. */
  function ClaimStage(w: World, p: nat, records: seq<Record>): World {
    if |records| in w.root.stages then w.With(p, Idle)
    else w.WithStage(|records|, OpenStage(Claimed)).(claims := w.claims + [|records|]).With(p, Owner(records, Claimed))
  }

  /** The owner's next file step in `finish`. */
  function Advance(w: World, p: nat, records: seq<Record>, progress: Progress): World {
    w.WithStage(|records|, OpenStage(progress)).With(p, Owner(records, progress))
  }

  /** The seal is whole: the stage is complete, and a dispatch is handed over. */
  function SealStage(w: World, p: nat, records: seq<Record>, record: Record): World {
    w.WithStage(|records|, SealedStage(record)).With(p, Idle).(
      dispatches := if record.payload.Dispatched? then w.dispatches + [record.payload.batch] else w.dispatches)
  }

  predicate FounderAllowed(records: seq<Record>) {
    && records != [] && records[0].payload.PlanMade?
    && forall i {:trigger records[i]} :: 0 <= i < |records| ==> !records[i].payload.Dispatched? && !records[i].payload.Assessed?
  }

  /** Create the founder claim exclusively; a second attempt fails. */
  function BurnFounder(w: World, p: nat, records: seq<Record>, runRoot: string): World
    requires FounderAllowed(records)
  {
    var plan := records[0].payload.plan;
    if w.root.founder.Some? then w.With(p, Idle)
    else w.(root := w.root.(founder := Some(Torn))).With(p, FounderOwner(Founder(runRoot, plan.evaluator, plan)))
  }

  /** One step of one process. A step that is not its next one changes nothing. */
  ghost function Step(w: World, e: Event): World {
    var now := w.At(e.p);
    match e
    case MakeRoot(p) => if now.Idle? && !w.made then w.(made := true).With(p, Ready([])) else w
    case List(p) => if now.Idle? && Listable(w) then w.With(p, Listed(|w.root.stages|)) else w
    case Read(p) =>
      if now.Listed? then
        if Readable(w.root, now.count) then w.With(p, Ready(Contents(w.root, now.count))) else w.With(p, Idle)
      else w
    case Claim(p) =>
      if now.Ready? && Claimable(now.records, w.root.founder) then ClaimStage(w, p, now.records) else w
    case BeginRecord(p, payload) =>
      if now.Owner? && now.progress.Claimed? && Next(now.records, payload, w.root.founder)
      then Advance(w, p, now.records, Recording(Record(LastHash(now.records), payload))) else w
    case EndRecord(p) =>
      if now.Owner? && now.progress.Recording? then Advance(w, p, now.records, Recorded(now.progress.record)) else w
    case BeginSeal(p) =>
      if now.Owner? && now.progress.Recorded? then Advance(w, p, now.records, Sealing(now.progress.record)) else w
    case EndSeal(p) =>
      if now.Owner? && now.progress.Sealing? then SealStage(w, p, now.records, now.progress.record) else w
    case BeginFounder(p, runRoot) =>
      if now.Ready? && FounderAllowed(now.records) then BurnFounder(w, p, now.records, runRoot) else w
    case EndFounder(p) =>
      if now.FounderOwner? then w.(root := w.root.(founder := Some(Whole(now.claim)))).With(p, Idle) else w
    case Stop(p) => w.With(p, Idle)
  }

  ghost function Run(w: World, events: seq<Event>): World {
    if events == [] then w else Step(Run(w, events[..|events| - 1]), events[|events| - 1])
  }

  // ---------------------------------------------------------------------
  // The invariant
  // ---------------------------------------------------------------------

  /** Stages have been made in order, and all but perhaps the last are complete, holding `history`. */
  ghost predicate StagesFit(root: Root, claims: seq<nat>, history: seq<Record>) {
    && root.stages.Keys == Below(|claims|)
    && (forall i {:trigger claims[i]} :: 0 <= i < |claims| ==> claims[i] == i)
    && |history| <= |claims| <= |history| + 1
    && (forall i: nat {:trigger history[i]} :: i < |history| ==> StageAt(root, i) == SealedStage(history[i]))
    && (|claims| > |history| ==> !Sealed(StageAt(root, |history|)))
  }

  /** The ledger has begun with this plan. */
  predicate Plans(history: seq<Record>, plan: Plan) {
    history != [] && history[0].payload == PlanMade(plan)
  }

  predicate FounderKnown(founder: Option<File<Founder>>, history: seq<Record>) {
    founder.Some? && founder.value.Whole? ==> Plans(history, founder.value.value.plan)
  }

  /** Batches have been handed over in order, once each. */
  predicate DispatchesKnown(dispatches: seq<nat>, history: seq<Record>) {
    && |dispatches| == |history| / 4
    && forall i {:trigger dispatches[i]} :: 0 <= i < |dispatches| ==> dispatches[i] == i
  }

  /** What an owner has written so far is the one record allowed next. */
  ghost predicate Writes(records: seq<Record>, progress: Progress, founder: Option<File<Founder>>) {
    progress.Claimed? || (progress.record.previous == LastHash(records) && Next(records, progress.record.payload, founder))
  }

  ghost predicate ProcessFits(root: Root, stages: nat, history: seq<Record>, process: Process) {
    match process
    case Idle => true
    case Listed(count) => 1 <= count <= stages
    case Ready(records) => records <= history
    case Owner(records, progress) =>
      && records == history && stages == |history| + 1
      && StageAt(root, |history|) == OpenStage(progress) && Writes(records, progress, root.founder)
    case FounderOwner(claim) => root.founder == Some(Torn) && Plans(history, claim.plan)
  }

  /** At most one process owns the unfinished stage, and at most one the unfinished founder claim. */
  ghost predicate Rivals(a: Process, b: Process) {
    (a.Owner? && b.Owner?) || (a.FounderOwner? && b.FounderOwner?)
  }

  ghost predicate ProcessesFit(w: World, history: seq<Record>) {
    && (forall p: nat {:trigger w.At(p)} :: ProcessFits(w.root, |w.claims|, history, w.At(p)))
    && (forall p: nat, q: nat {:trigger w.At(p), w.At(q)} :: Rivals(w.At(p), w.At(q)) ==> p == q)
    && (!w.made ==> forall p: nat {:trigger w.At(p)} :: w.At(p).Idle?)
  }

  ghost predicate OrderlyWith(w: World, history: seq<Record>) {
    && StagesFit(w.root, w.claims, history) && Lawful(history, w.root.founder)
    && FounderKnown(w.root.founder, history) && DispatchesKnown(w.dispatches, history)
    && ProcessesFit(w, history)
    && (!w.made ==> w.claims == [])
  }

  ghost predicate Orderly(w: World) {
    exists history :: OrderlyWith(w, history)
  }

  lemma StartIsOrderly()
    ensures OrderlyWith(START, [])
  {
  }

  // ---------------------------------------------------------------------
  // Every step keeps it
  // ---------------------------------------------------------------------

  /** A process moves on without touching the directory, and without becoming an owner. */
  lemma Moves(w: World, history: seq<Record>, p: nat, process: Process)
    requires OrderlyWith(w, history) && ProcessFits(w.root, |w.claims|, history, process)
    requires process.Idle? || (w.made && !process.Owner? && !process.FounderOwner?)
    ensures OrderlyWith(w.With(p, process), history)
  {
    var after := w.With(p, process);
    assert forall q: nat :: after.At(q) == if q == p then process else w.At(q);
  }

  lemma MakeRootKeeps(w: World, history: seq<Record>, p: nat)
    requires OrderlyWith(w, history) && !w.made
    ensures OrderlyWith(w.(made := true).With(p, Ready([])), history)
  {
    var after := w.(made := true).With(p, Ready([]));
    assert forall q: nat :: after.At(q) == if q == p then Ready([]) else w.At(q);
  }

  /** What `load` reads back is a prefix of the history. */
  lemma ReadsHistory(root: Root, claims: seq<nat>, history: seq<Record>, count: nat)
    requires StagesFit(root, claims, history) && count <= |claims| && AllSealed(root, count)
    ensures count <= |history| && Contents(root, count) == history[..count]
  {
    var next := StageAt(root, |history|);
    assert count > |history| ==> Sealed(next);
    var records := Contents(root, count);
    forall i: nat | i < count
      ensures records[i] == history[i]
    {
      assert StageAt(root, i) == SealedStage(records[i]);
    }
  }

  lemma ClaimKeeps(w: World, history: seq<Record>, p: nat, records: seq<Record>)
    requires OrderlyWith(w, history) && w.made && w.At(p) == Ready(records)
    ensures OrderlyWith(ClaimStage(w, p, records), history)
  {
    var after := ClaimStage(w, p, records);
    if |records| in w.root.stages {
      Moves(w, history, p, Idle);
    } else {
      assert records <= history;
      assert |records| !in Below(|w.claims|);
      assert records == history && |w.claims| == |history|;
      assert forall q: nat :: after.At(q) == if q == p then Owner(history, Claimed) else w.At(q);
      forall q: nat
        ensures !w.At(q).Owner?
      {
        assert ProcessFits(w.root, |w.claims|, history, w.At(q));
      }
      ClaimedStages(w.root, w.claims, history);
    }
  }

  lemma ClaimedStages(root: Root, claims: seq<nat>, history: seq<Record>)
    requires StagesFit(root, claims, history) && |claims| == |history|
    ensures StagesFit(root.(stages := root.stages[|history| := OpenStage(Claimed)]), claims + [|history|], history)
  {
    var after := root.(stages := root.stages[|history| := OpenStage(Claimed)]);
    assert after.stages.Keys == Below(|claims|) + {|claims|};
    assert Below(|claims| + 1) == Below(|claims|) + {|claims|};
    assert forall i: nat :: i < |history| ==> StageAt(after, i) == StageAt(root, i);
  }

  lemma AdvancedStages(root: Root, claims: seq<nat>, history: seq<Record>, progress: Progress)
    requires StagesFit(root, claims, history) && |claims| == |history| + 1
    ensures StagesFit(root.(stages := root.stages[|history| := OpenStage(progress)]), claims, history)
  {
    var after := root.(stages := root.stages[|history| := OpenStage(progress)]);
    assert |history| in Below(|claims|);
    assert after.stages.Keys == root.stages.Keys;
    assert forall i: nat :: i < |history| ==> StageAt(after, i) == StageAt(root, i);
    assert StageAt(after, |history|) == OpenStage(progress);
  }

  lemma AdvancedProcesses(w: World, history: seq<Record>, p: nat, progress: Progress)
    requires ProcessesFit(w, history) && w.made && w.At(p).Owner? && Writes(history, progress, w.root.founder)
    ensures ProcessesFit(Advance(w, p, history, progress), history)
  {
    var after := Advance(w, p, history, progress);
    assert ProcessFits(w.root, |w.claims|, history, w.At(p));
    assert forall q: nat :: after.At(q) == if q == p then Owner(history, progress) else w.At(q);
    assert StageAt(after.root, |history|) == OpenStage(progress);
    forall q: nat
      ensures ProcessFits(after.root, |after.claims|, history, after.At(q))
    {
      assert ProcessFits(w.root, |w.claims|, history, w.At(q));
      assert Rivals(w.At(p), w.At(q)) ==> p == q;
    }
  }

  lemma AdvanceKeeps(w: World, history: seq<Record>, p: nat, progress: Progress)
    requires OrderlyWith(w, history) && w.made && w.At(p).Owner? && Writes(history, progress, w.root.founder)
    ensures OrderlyWith(Advance(w, p, history, progress), history)
  {
    assert ProcessFits(w.root, |w.claims|, history, w.At(p));
    AdvancedStages(w.root, w.claims, history, progress);
    AdvancedProcesses(w, history, p, progress);
  }

  lemma SealKeeps(w: World, history: seq<Record>, p: nat, record: Record)
    requires OrderlyWith(w, history) && w.made && w.At(p) == Owner(history, Sealing(record))
    ensures OrderlyWith(SealStage(w, p, history, record), history + [record])
  {
    var after, more := SealStage(w, p, history, record), history + [record];
    assert ProcessFits(w.root, |w.claims|, history, w.At(p));
    assert record == Record(LastHash(history), record.payload);
    NextIsLawful(history, record.payload, w.root.founder);
    SealedStages(w.root, w.claims, history, record);
    SealedProcesses(w, history, p, record);
    HandedOver(w.dispatches, history, record, w.root.founder);
  }

  lemma SealedStages(root: Root, claims: seq<nat>, history: seq<Record>, record: Record)
    requires StagesFit(root, claims, history) && |claims| == |history| + 1
    ensures StagesFit(root.(stages := root.stages[|history| := SealedStage(record)]), claims, history + [record])
  {
    var after := root.(stages := root.stages[|history| := SealedStage(record)]);
    assert |history| in Below(|claims|);
    assert after.stages.Keys == root.stages.Keys;
    forall i: nat | i < |history + [record]|
      ensures StageAt(after, i) == SealedStage((history + [record])[i])
    {
      if i < |history| {
        assert StageAt(root, i) == SealedStage(history[i]);
      }
    }
  }

  lemma SealedProcesses(w: World, history: seq<Record>, p: nat, record: Record)
    requires ProcessesFit(w, history) && w.made && w.At(p) == Owner(history, Sealing(record))
    ensures ProcessesFit(SealStage(w, p, history, record), history + [record])
  {
    var after, more := SealStage(w, p, history, record), history + [record];
    assert forall q: nat :: after.At(q) == if q == p then Idle else w.At(q);
    assert history <= more;
    forall q: nat
      ensures ProcessFits(after.root, |after.claims|, more, after.At(q))
    {
      assert ProcessFits(w.root, |w.claims|, history, w.At(q));
      assert Rivals(w.At(p), w.At(q)) ==> p == q;
      assert w.At(q).Ready? ==> w.At(q).records <= more;
    }
  }

  lemma Quarter(n: nat)
    requires n > 0
    ensures if (n - 1) % 4 == 2 then (n + 1) / 4 == n / 4 + 1 && (n - 1) / 4 == n / 4 else (n + 1) / 4 == n / 4
  {
  }

  /** The dispatch log grows exactly at every fourth record, by the next batch. */
  lemma HandedOver(dispatches: seq<nat>, history: seq<Record>, record: Record, founder: Option<File<Founder>>)
    requires DispatchesKnown(dispatches, history)
    requires Lawful(history + [record], founder)
    ensures DispatchesKnown(if record.payload.Dispatched? then dispatches + [record.payload.batch] else dispatches,
                            history + [record])
  {
    var n, more := |history|, history + [record];
    assert more[n] == record;
    if n > 0 {
      Quarter(n);
      assert FitsTurn(record.payload, (n - 1) % 4, (n - 1) / 4) by {
        assert StageFits(more[n].payload, n);
      }
    }
  }

  /** While the founder claim is not whole nothing is dispatched, so completing or creating it disturbs no record. */
  lemma NothingDispatched(history: seq<Record>, before: Option<File<Founder>>, founder: Option<File<Founder>>)
    requires Lawful(history, before) && before in {None, Some(Torn)}
    ensures Lawful(history, founder)
  {
  }

  lemma WritesStay(history: seq<Record>, progress: Progress, before: Option<File<Founder>>, founder: Option<File<Founder>>)
    requires Writes(history, progress, before) && before in {None, Some(Torn)}
    ensures Writes(history, progress, founder)
  {
  }

  /** The founder claim is created by `p`, or completed by its owner `p`. */
  predicate FounderStep(before: Option<File<Founder>>, was: Process, founder: File<Founder>, process: Process) {
    || (before == None && founder == Torn && process.FounderOwner?)
    || (before == Some(Torn) && was.FounderOwner? && founder == Whole(was.claim) && process == Idle)
  }

  lemma FounderProcesses(w: World, history: seq<Record>, p: nat, founder: File<Founder>, process: Process)
    requires ProcessesFit(w, history) && w.made && FounderStep(w.root.founder, w.At(p), founder, process)
    requires process.FounderOwner? ==> Plans(history, process.claim.plan)
    ensures ProcessesFit(w.(root := w.root.(founder := Some(founder))).With(p, process), history)
  {
    var after := w.(root := w.root.(founder := Some(founder))).With(p, process);
    assert forall q: nat :: after.At(q) == if q == p then process else w.At(q);
    forall q: nat
      ensures ProcessFits(after.root, |after.claims|, history, after.At(q))
      ensures q != p ==> !w.At(q).FounderOwner?
    {
      assert ProcessFits(w.root, |w.claims|, history, w.At(q));
      assert Rivals(w.At(p), w.At(q)) ==> p == q;
      if q != p && w.At(q).Owner? {
        WritesStay(w.At(q).records, w.At(q).progress, w.root.founder, after.root.founder);
        assert StageAt(after.root, |history|) == StageAt(w.root, |history|);
      }
    }
  }

  lemma SameStages(root: Root, founder: Option<File<Founder>>, claims: seq<nat>, history: seq<Record>)
    requires StagesFit(root, claims, history)
    ensures StagesFit(root.(founder := founder), claims, history)
  {
    assert forall i: nat :: StageAt(root.(founder := founder), i) == StageAt(root, i);
  }

  lemma FounderKeeps(w: World, history: seq<Record>, p: nat, founder: File<Founder>, process: Process)
    requires OrderlyWith(w, history) && w.made && FounderStep(w.root.founder, w.At(p), founder, process)
    requires process.FounderOwner? ==> Plans(history, process.claim.plan)
    ensures OrderlyWith(w.(root := w.root.(founder := Some(founder))).With(p, process), history)
  {
    FounderProcesses(w, history, p, founder, process);
    NothingDispatched(history, w.root.founder, Some(founder));
    SameStages(w.root, Some(founder), w.claims, history);
    assert ProcessFits(w.root, |w.claims|, history, w.At(p));
  }

  lemma BurnKeeps(w: World, history: seq<Record>, p: nat, records: seq<Record>, runRoot: string)
    requires OrderlyWith(w, history) && w.made && w.At(p) == Ready(records) && FounderAllowed(records)
    ensures OrderlyWith(BurnFounder(w, p, records, runRoot), history)
  {
    assert ProcessFits(w.root, |w.claims|, history, w.At(p));
    assert records[0] == history[0];
    if w.root.founder.Some? {
      Moves(w, history, p, Idle);
    } else {
      var plan := records[0].payload.plan;
      FounderKeeps(w, history, p, Torn, FounderOwner(Founder(runRoot, plan.evaluator, plan)));
    }
  }

  /** The history after a step: one record longer when a seal is completed. */
  function HistoryAfter(w: World, history: seq<Record>, e: Event): seq<Record> {
    if e.EndSeal? && w.At(e.p).Owner? && w.At(e.p).progress.Sealing? then history + [w.At(e.p).progress.record] else history
  }

  lemma LoadingKeeps(w: World, history: seq<Record>, e: Event)
    requires OrderlyWith(w, history) && (e.MakeRoot? || e.List? || e.Read? || e.Stop?)
    ensures OrderlyWith(Step(w, e), history)
  {
    var p, now := e.p, w.At(e.p);
    assert ProcessFits(w.root, |w.claims|, history, now);
    if e.MakeRoot? && now.Idle? && !w.made {
      MakeRootKeeps(w, history, p);
    } else if e.List? && now.Idle? && Listable(w) {
      BelowCount(|w.claims|);
      Moves(w, history, p, Listed(|w.root.stages|));
    } else if e.Read? && now.Listed? && Readable(w.root, now.count) {
      ReadsHistory(w.root, w.claims, history, now.count);
      Moves(w, history, p, Ready(Contents(w.root, now.count)));
    } else {
      Moves(w, history, p, Idle);
    }
  }

  lemma OwningKeeps(w: World, history: seq<Record>, e: Event)
    requires OrderlyWith(w, history) && w.At(e.p).Owner?
    ensures OrderlyWith(Step(w, e), HistoryAfter(w, history, e))
  {
    var p, now := e.p, w.At(e.p);
    assert ProcessFits(w.root, |w.claims|, history, now);
    if e.BeginRecord? && Next(now.records, e.payload, w.root.founder) {
      AdvanceKeeps(w, history, p, Recording(Record(LastHash(now.records), e.payload)));
    } else if e.EndRecord? && now.progress.Recording? {
      AdvanceKeeps(w, history, p, Recorded(now.progress.record));
    } else if e.BeginSeal? && now.progress.Recorded? {
      AdvanceKeeps(w, history, p, Sealing(now.progress.record));
    } else if e.EndSeal? && now.progress.Sealing? {
      SealKeeps(w, history, p, now.progress.record);
    } else {
      Moves(w, history, p, Idle);
    }
  }

  lemma StepKeeps(w: World, history: seq<Record>, e: Event)
    requires OrderlyWith(w, history)
    ensures OrderlyWith(Step(w, e), HistoryAfter(w, history, e))
  {
    var p, now := e.p, w.At(e.p);
    assert !now.Idle? ==> w.made;
    if e.MakeRoot? || e.List? || e.Read? || e.Stop? {
      LoadingKeeps(w, history, e);
    } else if now.Owner? {
      OwningKeeps(w, history, e);
    } else if e.Claim? && now.Ready? {
      ClaimKeeps(w, history, p, now.records);
    } else if e.BeginFounder? && now.Ready? && FounderAllowed(now.records) {
      BurnKeeps(w, history, p, now.records, e.runRoot);
    } else if e.EndFounder? && now.FounderOwner? {
      assert ProcessFits(w.root, |w.claims|, history, now);
      FounderKeeps(w, history, p, Whole(now.claim), Idle);
    }
  }

  // ---------------------------------------------------------------------
  // Theorems over whole runs
  // ---------------------------------------------------------------------

  /** Whatever the interleaving and wherever processes stop, the ledger stays orderly. */
  lemma {:induction false} EveryRunIsOrderly(events: seq<Event>)
    ensures Orderly(Run(START, events))
  {
    if events == [] {
      StartIsOrderly();
    } else {
      var before := events[..|events| - 1];
      EveryRunIsOrderly(before);
      var history :| OrderlyWith(Run(START, before), history);
      StepKeeps(Run(START, before), history, events[|events| - 1]);
    }
  }

  /** Complete stages are never changed: the history only grows. */
  lemma {:induction false} HistoryOnlyGrows(w: World, history: seq<Record>, events: seq<Event>) returns (later: seq<Record>)
    requires OrderlyWith(w, history)
    ensures OrderlyWith(Run(w, events), later) && history <= later
  {
    if events == [] {
      later := history;
    } else {
      var before, e := events[..|events| - 1], events[|events| - 1];
      var mid := HistoryOnlyGrows(w, history, before);
      StepKeeps(Run(w, before), mid, e);
      later := HistoryAfter(Run(w, before), mid, e);
    }
  }

  /** No stage is ever made twice, and no batch is ever dispatched twice. */
  lemma ClaimedAndDispatchedOnce(events: seq<Event>)
    ensures var w := Run(START, events);
            && (forall i, j :: 0 <= i < j < |w.claims| ==> w.claims[i] != w.claims[j])
            && (forall i, j :: 0 <= i < j < |w.dispatches| ==> w.dispatches[i] != w.dispatches[j])
  {
    EveryRunIsOrderly(events);
  }

  /**
   * Whatever a process gets from `load` in any run is a chained plan with a prefix of its rounds, in
   * which each batch starts from the difficulty the one before it ended with.
   */
  lemma LoadedLedgersAreRounds(events: seq<Event>, p: nat)
    requires Run(START, events).At(p).Ready? && Run(START, events).At(p).records != []
    ensures var records := Run(START, events).At(p).records; Rounds(records) && Difficulties(records)
  {
    var w := Run(START, events);
    EveryRunIsOrderly(events);
    var history :| OrderlyWith(w, history);
    var records := w.At(p).records;
    assert ProcessFits(w.root, |w.claims|, history, w.At(p));
    PrefixIsLawful(history, w.root.founder, |records|);
    assert history[..|records|] == records;
  }

  /** The difficulty of batch `b`, as prepared. */
  function DifficultyOf(records: seq<Record>, b: nat): int
    requires 4 * b + 1 < |records|
  {
    match records[4 * b + 1].payload
    case Prepared(_, difficulty) => difficulty
    case _ => -1
  }

  lemma Fours(b: nat)
    ensures (4 * b) % 4 == 0
    ensures b > 0 ==> (4 * b - 1) % 4 == 3 && 4 * b - 3 == 4 * (b - 1) + 1
  {
  }

  lemma KindsOfRound(records: seq<Record>, b: nat)
    requires Rounds(records) && 4 * b + 1 < |records|
    ensures records[4 * b + 1].payload.Prepared?
    ensures b > 0 ==> records[4 * b].payload.Assessed?
  {
    Fours(b);
    assert StageFits(records[4 * b + 1].payload, 4 * b + 1);
    if b > 0 {
      assert StageFits(records[4 * b].payload, 4 * b);
    }
  }

  /** Over a whole run of batches the difficulty stays on the ladder and moves at most one step per batch. */
  lemma {:induction false} DifficultyStaysOnTheLadder(records: seq<Record>, b: nat)
    requires Rounds(records) && Difficulties(records) && 4 * b + 1 < |records|
    ensures 0 <= DifficultyOf(records, b) < records[0].payload.plan.levels
    ensures b > 0 ==> -1 <= DifficultyOf(records, b) - DifficultyOf(records, b - 1) <= 1
  {
    var i := 4 * b + 1;
    KindsOfRound(records, b);
    assert DifficultyAt(records, i);
    if b > 0 {
      Fours(b);
      DifficultyStaysOnTheLadder(records, b - 1);
      assert DifficultyAt(records, i - 1);
    }
  }

  // ---------------------------------------------------------------------
  // Abandoned stages
  // ---------------------------------------------------------------------

  /** The last stage is incomplete and whoever made it has stopped. */
  ghost predicate Abandoned(w: World) {
    && w.made && w.claims != [] && !Sealed(StageAt(w.root, |w.claims| - 1))
    && forall p: nat {:trigger w.At(p)} :: !w.At(p).Owner?
  }

  /** This process is not past a `load`: it is outside, or inside one that has seen the incomplete stage. */
  predicate Outside(w: World, p: nat) {
    w.At(p).Idle? || (w.At(p).Listed? && w.At(p).count == |w.claims|)
  }

  /** The directory's stages, the logs and the absence of owners are as before, and nobody new got past a `load`. */
  ghost predicate NothingDone(w: World, after: World) {
    && Abandoned(after) && after.root.stages == w.root.stages
    && after.claims == w.claims && after.dispatches == w.dispatches
    && forall p: nat {:trigger after.At(p)} :: Outside(w, p) ==> Outside(after, p)
  }

  lemma OthersStay(w: World, root: Root, p: nat, process: Process)
    requires Abandoned(w) && root.stages == w.root.stages && !process.Owner?
    requires Outside(w, p) ==> process.Idle? || (process.Listed? && process.count == |w.claims|)
    ensures NothingDone(w, w.(root := root).With(p, process))
  {
    var after := w.(root := root).With(p, process);
    forall q: nat
      ensures after.At(q) == (if q == p then process else w.At(q)) && (Outside(w, q) ==> Outside(after, q))
    {
      assert !w.At(q).Owner?;
    }
    assert StageAt(after.root, |w.claims| - 1) == StageAt(w.root, |w.claims| - 1);
  }

  /** An incomplete last stage is one beyond the history. */
  lemma OneBeyond(root: Root, claims: seq<nat>, history: seq<Record>)
    requires StagesFit(root, claims, history) && claims != [] && !Sealed(StageAt(root, |claims| - 1))
    ensures |claims| == |history| + 1
  {
    var last := |claims| - 1;
    assert last < |history| ==> StageAt(root, last) == SealedStage(history[last]);
  }

  /** A process that loaded before the stage was made finds its directory there. */
  lemma ClaimIsTaken(w: World, history: seq<Record>, p: nat)
    requires StagesFit(w.root, w.claims, history) && ProcessesFit(w, history) && Abandoned(w) && w.At(p).Ready?
    ensures |w.At(p).records| in w.root.stages
  {
    OneBeyond(w.root, w.claims, history);
    var now := w.At(p);
    assert ProcessFits(w.root, |w.claims|, history, now);
    assert |now.records| <= |history|;
    assert |now.records| in Below(|w.claims|);
  }

  /** A `load` that listed the incomplete stage fails on it. */
  lemma AbandonedRead(w: World, p: nat)
    requires Abandoned(w) && w.At(p).Listed?
    ensures NothingDone(w, Step(w, Read(p)))
  {
    var now := w.At(p);
    if Readable(w.root, now.count) {
      var last := StageAt(w.root, |w.claims| - 1);
      assert now.count == |w.claims| ==> Sealed(last);
      OthersStay(w, w.root, p, Ready(Contents(w.root, now.count)));
    } else {
      OthersStay(w, w.root, p, Idle);
    }
  }

  lemma AbandonedFounder(w: World, e: Event)
    requires Abandoned(w) && (e.BeginFounder? || e.EndFounder?)
    ensures NothingDone(w, Step(w, e))
  {
    var p, now := e.p, w.At(e.p);
    OthersStay(w, w.root, p, now);
    OthersStay(w, w.root, p, Idle);
    if e.BeginFounder? && now.Ready? && FounderAllowed(now.records) {
      var plan := now.records[0].payload.plan;
      OthersStay(w, w.root.(founder := Some(Torn)), p, FounderOwner(Founder(e.runRoot, plan.evaluator, plan)));
    } else if e.EndFounder? && now.FounderOwner? {
      OthersStay(w, w.root.(founder := Some(Whole(now.claim))), p, Idle);
    }
  }

  lemma AbandonedClaim(w: World, p: nat)
    requires Orderly(w) && Abandoned(w)
    ensures NothingDone(w, Step(w, Claim(p)))
  {
    var history :| OrderlyWith(w, history);
    OthersStay(w, w.root, p, w.At(p));
    OthersStay(w, w.root, p, Idle);
    if w.At(p).Ready? {
      ClaimIsTaken(w, history, p);
    }
  }

  lemma AbandonedStep(w: World, e: Event)
    requires Orderly(w) && Abandoned(w)
    ensures NothingDone(w, Step(w, e))
  {
    var p, now := e.p, w.At(e.p);
    if e.Claim? {
      AbandonedClaim(w, p);
    } else if e.Read? && now.Listed? {
      AbandonedRead(w, p);
    } else if e.BeginFounder? || e.EndFounder? {
      AbandonedFounder(w, e);
    } else {
      assert !now.Owner?;
      StageCount(w);
      OthersStay(w, w.root, p, now);
      OthersStay(w, w.root, p, Idle);
      OthersStay(w, w.root, p, if now.Idle? then Listed(|w.claims|) else now);
    }
  }

  lemma StageCount(w: World)
    requires Orderly(w)
    ensures |w.root.stages| == |w.claims|
  {
    BelowCount(|w.claims|);
  }

  /**
   * Once a stage is abandoned incomplete the ledger is finished: no stage is made, written or sealed
   * again, nothing is dispatched, and no `load` begun from then on ever succeeds.
   */
  lemma {:induction false} AbandonedForever(w: World, events: seq<Event>)
    requires Orderly(w) && Abandoned(w)
    ensures var later := Run(w, events);
            && Orderly(later) && Abandoned(later) && later.root.stages == w.root.stages
            && later.claims == w.claims && later.dispatches == w.dispatches
            && forall p: nat :: Outside(w, p) ==> Outside(later, p)
  {
    if events != [] {
      var before, e := events[..|events| - 1], events[|events| - 1];
      AbandonedForever(w, before);
      var mid := Run(w, before);
      AbandonedStep(mid, e);
      var history :| OrderlyWith(mid, history);
      StepKeeps(mid, history, e);
    }
  }

  // ---------------------------------------------------------------------
  // What load accepts
  // ---------------------------------------------------------------------

  /**
   * In every reachable state `load` succeeds exactly when a stage exists, the last one is complete, and
   * the founder claim is not half-written; it then returns the whole history.
   */
  lemma LoadsExactlyWhenQuiet(w: World)
    requires Orderly(w)
    ensures (exists records :: Loads(w.root, records)) <==>
            w.claims != [] && Sealed(StageAt(w.root, |w.claims| - 1)) && w.root.founder != Some(Torn)
    ensures forall records, history :: Loads(w.root, records) && OrderlyWith(w, history) ==> records == history
  {
    var history :| OrderlyWith(w, history);
    forall records | Loads(w.root, records)
      ensures |records| == |w.claims| && w.claims != [] && Sealed(StageAt(w.root, |w.claims| - 1))
      ensures w.root.founder != Some(Torn)
    {
      BelowCount(|records|);
      BelowCount(|w.claims|);
      assert SealedWith(w.root, |records| - 1, records[|records| - 1]);
    }
    if w.claims != [] && Sealed(StageAt(w.root, |w.claims| - 1)) && w.root.founder != Some(Torn) {
      HistoryLoads(w, history);
    }
    forall records, other | Loads(w.root, records) && OrderlyWith(w, other)
      ensures records == other
    {
      SameHistory(w, records, other);
    }
  }

  lemma HistoryLoads(w: World, history: seq<Record>)
    requires OrderlyWith(w, history) && w.claims != [] && Sealed(StageAt(w.root, |w.claims| - 1))
    requires w.root.founder != Some(Torn)
    ensures Loads(w.root, history)
  {
    HistoryHolds(w.root, w.claims, history);
  }

  lemma HistoryHolds(root: Root, claims: seq<nat>, history: seq<Record>)
    requires StagesFit(root, claims, history) && claims != [] && Sealed(StageAt(root, |claims| - 1))
    ensures |history| == |claims| && Holds(root, history)
  {
    forall i: nat | i < |history|
      ensures SealedWith(root, i, history[i])
    {
      assert i in Below(|claims|);
      assert StageAt(root, i) == SealedStage(history[i]);
    }
  }

  lemma SameHistory(w: World, records: seq<Record>, history: seq<Record>)
    requires Loads(w.root, records) && OrderlyWith(w, history)
    ensures records == history
  {
    BelowCount(|records|);
    BelowCount(|w.claims|);
    assert SealedWith(w.root, |records| - 1, records[|records| - 1]);
    HistoryHolds(w.root, w.claims, history);
    HoldsOnce(w.root, records, history);
  }

  /** Listing and then reading, with nothing in between, is `load` on that one state. */
  lemma ListThenReadIsLoad(w: World, records: seq<Record>)
    requires w.made
    ensures Loads(w.root, records) <==>
            Listable(w) && Readable(w.root, |w.root.stages|) && Contents(w.root, |w.root.stages|) == records
  {
    var count := |w.root.stages|;
    BelowCount(|records|);
    if Loads(w.root, records) {
      forall i: nat | i < count
        ensures Sealed(StageAt(w.root, i)) && StageAt(w.root, i).record.value.value == records[i]
      {
        assert SealedWith(w.root, i, records[i]);
      }
      assert Contents(w.root, count) == records;
    }
    if Listable(w) && Readable(w.root, count) && Contents(w.root, count) == records {
      forall i: nat | i < |records|
        ensures SealedWith(w.root, i, records[i])
      {
        assert i in Below(count);
        assert StageAt(w.root, i) == SealedStage(records[i]);
      }
    }
  }

  // ---------------------------------------------------------------------
  // A ledger that has not been abandoned can be finished
  // ---------------------------------------------------------------------

  /** The last stage is complete, the founder claim is not half-written, and this process is outside. */
  ghost predicate Quiet(w: World, history: seq<Record>, p: nat) {
    && OrderlyWith(w, history) && w.made && history != [] && |w.claims| == |history|
    && w.root.founder != Some(Torn) && w.At(p).Idle?
  }

  lemma LadderAtTheEnd(records: seq<Record>)
    requires Rounds(records) && Difficulties(records) && records[|records| - 1].payload.Dispatched?
    ensures |records| >= 3 && records[|records| - 3].payload.Prepared?
    ensures 0 <= records[|records| - 3].payload.difficulty < records[0].payload.plan.levels
  {
    var i := |records| - 1;
    assert StageFits(records[i].payload, i);
    var b := (i - 1) / 4;
    assert i == 4 * b + 3;
    KindsOfRound(records, b);
    DifficultyStaysOnTheLadder(records, b);
  }

  lemma SomeNext(records: seq<Record>, founder: Option<File<Founder>>) returns (next: Payload)
    requires records != [] && Lawful(records, founder) && Claimable(records, founder)
    ensures Next(records, next, founder)
  {
    var n, plan := |records|, records[0].payload.plan;
    match records[n - 1].payload {
      case PlanMade(_) => next := Prepared((n - 1) / 4, plan.initialDifficulty);
      case Assessed(_, _, after, _, _) => next := Prepared((n - 1) / 4, after);
      case Prepared(batch, _) => next := Proposed(batch);
      case Proposed(batch) => next := Dispatched(batch, OfFounder(founder.value.value));
      case Dispatched(batch, _) =>
        next := SomeAssessment(records, founder);
    }
  }

  lemma SomeAssessment(records: seq<Record>, founder: Option<File<Founder>>) returns (next: Payload)
    requires Rounds(records) && Difficulties(records) && records[|records| - 1].payload.Dispatched?
    ensures Next(records, next, founder)
  {
    LadderAtTheEnd(records);
    var before := records[|records| - 3].payload.difficulty;
    var after := AdjustDifficulty(before, 0, 0, records[0].payload.plan.levels - 1);
    next := Assessed(records[|records| - 1].payload.batch, before, after.value, 0, 0);
  }

  /**
   * An operation claims a stage exactly when it leaves something to write: the batches are not exhausted,
   * and a dispatch has its founder.
   */
  lemma SomethingIsNext(records: seq<Record>, founder: Option<File<Founder>>)
    requires records != [] && Lawful(records, founder)
    ensures Claimable(records, founder) <==> exists next :: Next(records, next, founder)
    ensures Claimable(records, founder) <==>
            |records| < 1 + 4 * records[0].payload.plan.batches &&
            (records[|records| - 1].payload.Proposed? ==> founder.Some? && founder.value.Whole?)
  {
    LastTurn(records);
    if Claimable(records, founder) {
      var next := SomeNext(records, founder);
    }
    forall next | Next(records, next, founder)
      ensures Claimable(records, founder)
    {
      assert records[|records| - 1].payload.Proposed? ==> DispatchFits(next, founder);
    }
  }

  /** Only a plan or an assessment can be the end of the last round. */
  lemma LastTurn(records: seq<Record>)
    requires Rounds(records)
    ensures var n, last, batches := |records|, records[|records| - 1].payload, records[0].payload.plan.batches;
            && (last.PlanMade? <==> n == 1)
            && (last.PlanMade? || last.Assessed? ==> ((n - 1) / 4 < batches <==> n < 1 + 4 * batches))
            && (!last.PlanMade? && !last.Assessed? ==> n < 1 + 4 * batches)
  {
    var n, last, batches := |records|, records[|records| - 1].payload, records[0].payload.plan.batches;
    if n > 1 {
      assert StageFits(last, n - 1);
      Turn(n, batches);
      WholeRounds(n - 1, (n - 1) / 4, (n - 1) % 4, batches);
    }
  }

  lemma WholeRounds(i: nat, b: nat, turn: nat, batches: int)
    requires i == 4 * b + turn && turn < 4 && i <= 4 * batches
    ensures turn == 0 ==> (b < batches <==> i < 4 * batches)
    ensures turn != 0 ==> i < 4 * batches
  {
  }

  lemma {:induction false} RunsCompose(w: World, a: seq<Event>, b: seq<Event>)
    ensures Run(w, a + b) == Run(Run(w, a), b)
  {
    if b == [] {
      assert a + b == a;
    } else {
      var front := b[..|b| - 1];
      assert (a + b)[..|a + b| - 1] == a + front;
      RunsCompose(w, a, front);
    }
  }

  lemma {:induction false} RunsOneMore(w: World, a: seq<Event>, e: Event)
    ensures Run(w, a + [e]) == Step(Run(w, a), e)
  {
    assert (a + [e])[..|a + [e]| - 1] == a;
  }

  lemma LastIsSealed(root: Root, claims: seq<nat>, history: seq<Record>)
    requires StagesFit(root, claims, history) && history != [] && |claims| == |history|
    ensures Sealed(StageAt(root, |claims| - 1))
  {
    assert StageAt(root, |history| - 1) == SealedStage(history[|history| - 1]);
  }

  lemma QuietLoads(w: World, history: seq<Record>, p: nat)
    requires Quiet(w, history, p)
    ensures Listable(w) && Readable(w.root, |w.root.stages|) && Contents(w.root, |w.root.stages|) == history
  {
    LastIsSealed(w.root, w.claims, history);
    HistoryLoads(w, history);
    ListThenReadIsLoad(w, history);
  }

  /** In a quiet world a process reads the whole history. */
  lemma ReadsAll(w: World, history: seq<Record>, p: nat) returns (after: World)
    requires Quiet(w, history, p)
    ensures after == Run(w, [List(p), Read(p)])
    ensures OrderlyWith(after, history) && after.At(p) == Ready(history)
    ensures after.made && after.root == w.root && after.claims == w.claims
  {
    QuietLoads(w, history, p);
    var listed := Step(w, List(p));
    LoadingKeeps(w, history, List(p));
    assert listed == w.With(p, Listed(|w.root.stages|));
    after := Step(listed, Read(p));
    LoadingKeeps(listed, history, Read(p));
    TwoSteps(w, List(p), Read(p));
  }

  /** The owner's file steps, in order. */
  function Writing(p: nat, payload: Payload): seq<Event> {
    [Claim(p), BeginRecord(p, payload), EndRecord(p), BeginSeal(p), EndSeal(p)]
  }

  /** The process owns the next stage and has come this far. */
  ghost predicate Owning(w: World, history: seq<Record>, p: nat, progress: Progress) {
    && OrderlyWith(w, history) && w.made && w.At(p) == Owner(history, progress) && |w.claims| == |history| + 1
  }

  lemma Claims(w: World, history: seq<Record>, p: nat)
    requires OrderlyWith(w, history) && w.made && w.At(p) == Ready(history) && |w.claims| == |history|
    requires Claimable(history, w.root.founder)
    ensures Owning(Step(w, Claim(p)), history, p, Claimed) && Step(w, Claim(p)).root.founder == w.root.founder
  {
    assert |history| !in w.root.stages by {
      assert |history| !in Below(|w.claims|);
    }
    StepKeeps(w, history, Claim(p));
  }

  lemma Advances(w: World, history: seq<Record>, p: nat, before: Progress, e: Event, progress: Progress)
    requires Owning(w, history, p, before) && e.p == p && !e.EndSeal?
    requires Step(w, e) == Advance(w, p, history, progress)
    ensures Owning(Step(w, e), history, p, progress) && Step(w, e).root.founder == w.root.founder
  {
    StepKeeps(w, history, e);
  }

  lemma Seals(w: World, history: seq<Record>, p: nat, record: Record)
    requires Owning(w, history, p, Sealing(record)) && w.root.founder != Some(Torn)
    ensures Quiet(Step(w, EndSeal(p)), history + [record], p) && Step(w, EndSeal(p)).root.founder == w.root.founder
  {
    SealStep(w, history, p, record);
    SealKeeps(w, history, p, record);
  }

  lemma SealStep(w: World, history: seq<Record>, p: nat, record: Record)
    requires w.At(p) == Owner(history, Sealing(record))
    ensures var after := SealStage(w, p, history, record);
            && Step(w, EndSeal(p)) == after && after.At(p) == Idle
            && after.made == w.made && after.claims == w.claims && after.root.founder == w.root.founder
  {
  }

  /** From the claim to the seal. */
  lemma WritesRecord(w: World, history: seq<Record>, p: nat, payload: Payload)
    requires Owning(w, history, p, Claimed) && w.root.founder != Some(Torn) && Next(history, payload, w.root.founder)
    ensures var after := Step(Step(Step(Step(w, BeginRecord(p, payload)), EndRecord(p)), BeginSeal(p)), EndSeal(p));
            && Quiet(after, history + [Record(LastHash(history), payload)], p) && after.root.founder == w.root.founder
  {
    var record := Record(LastHash(history), payload);
    Advances(w, history, p, Claimed, BeginRecord(p, payload), Recording(record));
    var recording := Step(w, BeginRecord(p, payload));
    Advances(recording, history, p, Recording(record), EndRecord(p), Recorded(record));
    var recorded := Step(recording, EndRecord(p));
    Advances(recorded, history, p, Recorded(record), BeginSeal(p), Sealing(record));
    Seals(Step(recorded, BeginSeal(p)), history, p, record);
  }

  lemma WritesOne(w: World, history: seq<Record>, p: nat, payload: Payload) returns (after: World)
    requires OrderlyWith(w, history) && w.made && history != [] && |w.claims| == |history|
    requires w.At(p) == Ready(history) && w.root.founder != Some(Torn) && Next(history, payload, w.root.founder)
    ensures after == Run(w, Writing(p, payload)) && after.root.founder == w.root.founder
    ensures Quiet(after, history + [Record(LastHash(history), payload)], p)
  {
    SomethingIsNext(history, w.root.founder);
    Claims(w, history, p);
    WritesRecord(Step(w, Claim(p)), history, p, payload);
    FiveSteps(w, Claim(p), BeginRecord(p, payload), EndRecord(p), BeginSeal(p), EndSeal(p));
    after := Run(w, Writing(p, payload));
  }

  lemma FiveSteps(w: World, a: Event, b: Event, c: Event, d: Event, e: Event)
    ensures Run(w, [a, b, c, d, e]) == Step(Step(Step(Step(Step(w, a), b), c), d), e)
  {
    var mid := Run(w, [a, b]);
    TwoSteps(w, a, b);
    TwoSteps(mid, c, d);
    RunsCompose(w, [a, b], [c, d]);
    assert [a, b] + [c, d] == [a, b, c, d];
    RunsOneMore(w, [a, b, c, d], e);
    assert [a, b, c, d] + [e] == [a, b, c, d, e];
  }

  /** A process that finds the ledger quiet adds any record that may come next. */
  lemma OneProcessGoesOn(w: World, history: seq<Record>, p: nat, payload: Payload)
    requires Quiet(w, history, p) && Next(history, payload, w.root.founder)
    ensures var after := Run(w, [List(p), Read(p)] + Writing(p, payload));
            && Quiet(after, history + [Record(LastHash(history), payload)], p)
            && after.root.founder == w.root.founder
  {
    var ready := ReadsAll(w, history, p);
    var after := WritesOne(ready, history, p, payload);
    RunsCompose(w, [List(p), Read(p)], Writing(p, payload));
  }

  lemma AssessedAfterDispatch(history: seq<Record>, i: nat)
    requires Rounds(history) && 0 < i < |history| && !history[i - 1].payload.Dispatched?
    ensures !history[i].payload.Assessed?
  {
    assert StageFits(history[i].payload, i);
    if i > 1 {
      assert StageFits(history[i - 1].payload, i - 1);
      Turn(i, i);
    }
  }

  /** Without a founder nothing has been dispatched, so the founder may still be claimed. */
  lemma FounderMayBeClaimed(history: seq<Record>, founder: Option<File<Founder>>)
    requires history != [] && Lawful(history, founder) && founder.None?
    ensures FounderAllowed(history)
  {
    forall i | 0 <= i < |history|
      ensures !history[i].payload.Dispatched?
    {
      assert DispatchFits(history[i].payload, founder);
    }
    forall i | 0 <= i < |history|
      ensures !history[i].payload.Assessed?
    {
      if i > 0 {
        AssessedAfterDispatch(history, i);
      }
    }
  }

  /** The founder claim is created and written. */
  lemma FounderSteps(w: World, history: seq<Record>, p: nat, runRoot: string)
    requires OrderlyWith(w, history) && w.made && history != [] && w.root.founder.None?
    requires w.At(p) == Ready(history) && |w.claims| == |history|
    ensures var after, plan := Step(Step(w, BeginFounder(p, runRoot)), EndFounder(p)), history[0].payload.plan;
            && Quiet(after, history, p) && after.root.founder == Some(Whole(Founder(runRoot, plan.evaluator, plan)))
  {
    FounderMayBeClaimed(history, w.root.founder);
    var claim := Founder(runRoot, history[0].payload.plan.evaluator, history[0].payload.plan);
    BurnKeeps(w, history, p, history, runRoot);
    var begun := BurnFounder(w, p, history, runRoot);
    BurnStep(w, history, p, runRoot);
    FounderKeeps(begun, history, p, Whole(claim), Idle);
  }

  lemma BurnStep(w: World, history: seq<Record>, p: nat, runRoot: string)
    requires w.At(p) == Ready(history) && FounderAllowed(history) && w.root.founder.None?
    ensures var plan, begun := history[0].payload.plan, BurnFounder(w, p, history, runRoot);
            var claim := Founder(runRoot, plan.evaluator, plan);
            && Step(w, BeginFounder(p, runRoot)) == begun && begun.At(p) == FounderOwner(claim)
            && begun.claims == w.claims && begun.made == w.made && begun.root == w.root.(founder := Some(Torn))
            && Step(begun, EndFounder(p)) == begun.(root := begun.root.(founder := Some(Whole(claim)))).With(p, Idle)
  {
  }

  lemma FounderIsClaimed(w: World, history: seq<Record>, p: nat, runRoot: string)
    requires Quiet(w, history, p) && w.root.founder.None?
    ensures var after := Run(w, [List(p), Read(p)] + [BeginFounder(p, runRoot), EndFounder(p)]);
            var plan := history[0].payload.plan;
            && Quiet(after, history, p) && after.root.founder == Some(Whole(Founder(runRoot, plan.evaluator, plan)))
  {
    var ready := ReadsAll(w, history, p);
    FounderSteps(ready, history, p, runRoot);
    TwoSteps(ready, BeginFounder(p, runRoot), EndFounder(p));
    RunsCompose(w, [List(p), Read(p)], [BeginFounder(p, runRoot), EndFounder(p)]);
  }

  lemma TwoSteps(w: World, a: Event, b: Event)
    ensures Run(w, [a, b]) == Step(Step(w, a), b)
  {
    RunsOneMore(w, [], a);
    RunsOneMore(w, [a], b);
    assert [] + [a] == [a];
    assert [a] + [b] == [a, b];
  }

  /** One operation: the founder claim if it is missing, or else the next stage. */
  lemma GoOn(w: World, history: seq<Record>, p: nat) returns (events: seq<Event>, next: seq<Record>)
    requires Quiet(w, history, p) && |history| < 1 + 4 * history[0].payload.plan.batches
    ensures Quiet(Run(w, events), next, p) && Run(w, events).root.founder.Some? && history <= next
    ensures |next| == |history| + if w.root.founder.None? then 0 else 1
  {
    next := history;
    if w.root.founder.None? {
      events := [List(p), Read(p)] + [BeginFounder(p, ""), EndFounder(p)];
      FounderIsClaimed(w, history, p, "");
    } else {
      SomethingIsNext(history, w.root.founder);
      var payload :| Next(history, payload, w.root.founder);
      events := [List(p), Read(p)] + Writing(p, payload);
      next := history + [Record(LastHash(history), payload)];
      OneProcessGoesOn(w, history, p, payload);
    }
  }

  /** A ledger that has not been abandoned can always be brought to the end of its plan, by one process. */
  lemma {:induction false} QuietLedgersCanFinish(w: World, history: seq<Record>, p: nat) returns (events: seq<Event>, all: seq<Record>)
    requires Quiet(w, history, p)
    ensures Quiet(Run(w, events), all, p) && history <= all && |all| == 1 + 4 * history[0].payload.plan.batches
    decreases 1 + 4 * history[0].payload.plan.batches - |history|, w.root.founder.None?
  {
    if |history| == 1 + 4 * history[0].payload.plan.batches {
      return [], history;
    }
    var first, next := GoOn(w, history, p);
    var rest;
    rest, all := QuietLedgersCanFinish(Run(w, first), next, p);
    events := first + rest;
    RunsCompose(w, first, rest);
  }
}
