/**
 * The mixed-care ledger of scripts/mixed_care_ledger.py: a small manifest, replaced
 * atomically, over an immutable archive of hash-linked segments that are only ever added.
 */
module LedgerArchive {
  import opened Common
  import opened SeedRanges

  const MAX_DOCUMENT_BYTES: nat := 64 * 1024 * 1024
  const LEDGER := "mixed-care-seed-ledger"

  type Bytes = string
  type Hash = string

  datatype Attempt = Attempt(status: string, fields: map<string, string>)

  /** One allocation: its attempts and every other field. */
  datatype Run = Run(attempts: seq<Attempt>, fields: map<string, string>)

  /** The ledger without its runs. */
  datatype Meta = Meta(schema: int, kind: string, excluded: seq<seq<int>>, assessments: seq<int>,
                       fields: map<string, string>)

  datatype Doc =
    | Legacy(meta: Meta, runs: seq<Run>)
    | Manifest(origin: string, head: Option<Hash>, archived: int, backup: Option<Hash>, base: Meta, current: seq<Run>)
    | Segment(index: int, previous: Option<Hash>, run: Run)
    | Other

  /** The archive holds segments, and the exact original of a migrated ledger, under their hashes. */
  datatype Name = SegmentFile(hash: Hash) | LegacyFile(hash: Hash)

  datatype Disk = Disk(ledger: Option<Bytes>, folder: bool, files: map<Name, Bytes>)

  /** JSON and SHA-256 as abstract functions. `json` is the canonical text of one allocation. */
  datatype Codec = Codec(
    encode: Doc -> Bytes, decode: Bytes -> Option<Doc>,
    sha: Bytes -> Hash, isDigest: Hash -> bool, json: Run -> Bytes)

  /**
   * Reading inverts writing, hashes are injective and well formed, and the text of an allocation is
   * one JSON object: it opens with a brace and no other object's text begins with it.
   */
  ghost predicate Lawful(c: Codec) {
    ReadsBack(c) && Injective(c) && SelfDelimiting(c)
  }

  ghost predicate ReadsBack(c: Codec) {
    && (forall d: Doc :: c.decode(c.encode(d)) == Some(d))
    && (forall a: Bytes :: c.isDigest(c.sha(a)))
  }

  ghost predicate Injective(c: Codec) {
    forall a: Bytes, b: Bytes :: c.sha(a) == c.sha(b) ==> a == b
  }

  ghost predicate SelfDelimiting(c: Codec) {
    && (forall r: Run :: |c.json(r)| > 0 && c.json(r)[0] == '{')
    && (forall r: Run, q: Run :: c.json(r) <= c.json(q) ==> r == q)
  }

  // ---------------------------------------------------------------------
  // The canonical prefix hash
  // ---------------------------------------------------------------------

  function Elements(c: Codec, runs: seq<Run>): Bytes {
    if runs == [] then ""
    else if |runs| == 1 then c.json(runs[0])
    else c.json(runs[0]) + (", " + Elements(c, runs[1..]))
  }

  /** `json.dumps(runs)` with its default list punctuation. */
  function CanonicalText(c: Codec, runs: seq<Run>): Bytes { "[" + Elements(c, runs) + "]" }

  function CanonicalHash(c: Codec, runs: seq<Run>): Hash { c.sha(CanonicalText(c, runs)) }

  lemma {:induction false} ElementsAppend(c: Codec, runs: seq<Run>, r: Run)
    ensures Elements(c, runs + [r]) == if runs == [] then c.json(r) else Elements(c, runs) + ", " + c.json(r)
  {
    if |runs| > 0 {
      ElementsAppend(c, runs[1..], r);
      assert (runs + [r])[1..] == runs[1..] + [r];
      if |runs| == 1 {
      } else {
        assert Elements(c, runs + [r])
            == c.json(runs[0]) + (", " + (Elements(c, runs[1..]) + ", " + c.json(r)));
      }
    }
  }

  /** One update of the hasher. */
  lemma FedFurther(c: Codec, runs: seq<Run>, index: nat)
    requires index < |runs|
    ensures var fed := "[" + Elements(c, runs[..index]);
            (if index > 0 then fed + ", " else fed) + c.json(runs[index]) == "[" + Elements(c, runs[..index + 1])
  {
    TakeOneMore(runs, index);
    ElementsAppend(c, runs[..index], runs[index]);
    var elements, text := Elements(c, runs[..index]), c.json(runs[index]);
    assert ("[" + elements) + ", " + text == "[" + (elements + ", " + text);
  }

  /** The streaming hasher: one allocation's text at a time gives the hash of the whole text. */
  method StreamHash(c: Codec, runs: seq<Run>, count: nat) returns (h: Hash)
    requires count <= |runs|
    ensures h == CanonicalHash(c, runs[..count])
  {
    var fed := "[";
    for index := 0 to count
      invariant fed == "[" + Elements(c, runs[..index])
    {
      if index > 0 {
        fed := fed + ", ";
      }
      FedFurther(c, runs, index);
      fed := fed + c.json(runs[index]);
    }
    h := c.sha(fed + "]");
  }

  lemma PrefixOfBoth(a: Bytes, s: Bytes, b: Bytes, t: Bytes)
    requires a + s == b + t
    ensures a <= b || b <= a
  {
    if |a| <= |b| {
      assert a == (a + s)[..|a|] == (b + t)[..|a|] == b[..|a|];
    } else {
      assert b == (b + t)[..|b|] == (a + s)[..|b|] == a[..|b|];
    }
  }

  lemma OpensWith(c: Codec, a: seq<Run>, s: Bytes)
    requires SelfDelimiting(c)
    ensures var text := Elements(c, a) + ("]" + s);
            |text| > 0 && text[0] == if a == [] then ']' else '{'
  {
    if a != [] {
      assert Elements(c, a)[0] == c.json(a[0])[0];
    }
  }

  /** What follows the first allocation's text. */
  function Rest(c: Codec, runs: seq<Run>, s: Bytes): Bytes
    requires runs != []
  {
    if |runs| == 1 then "]" + s else ", " + (Elements(c, runs[1..]) + ("]" + s))
  }

  lemma FirstElement(c: Codec, runs: seq<Run>, s: Bytes)
    requires runs != []
    ensures Elements(c, runs) + ("]" + s) == c.json(runs[0]) + Rest(c, runs, s)
  {
  }

  /** Equal texts begin with the same allocation, and go on alike. */
  lemma SameFirst(c: Codec, a: Run, u: Bytes, b: Run, v: Bytes)
    requires SelfDelimiting(c) && c.json(a) + u == c.json(b) + v
    ensures a == b && u == v
  {
    PrefixOfBoth(c.json(a), u, c.json(b), v);
    assert u == (c.json(a) + u)[|c.json(a)|..];
    assert v == (c.json(b) + v)[|c.json(b)|..];
  }

  /** Two lists with the same text, up to the closing bracket and beyond, are the same list. */
  lemma {:induction false} TextDetermines(c: Codec, a: seq<Run>, s: Bytes, b: seq<Run>, t: Bytes)
    requires SelfDelimiting(c)
    requires Elements(c, a) + ("]" + s) == Elements(c, b) + ("]" + t)
    ensures a == b
    decreases |a|
  {
    OpensWith(c, a, s);
    OpensWith(c, b, t);
    if a != [] && b != [] {
      FirstElement(c, a, s);
      FirstElement(c, b, t);
      var u, v := Rest(c, a, s), Rest(c, b, t);
      SameFirst(c, a[0], u, b[0], v);
      assert u[0] == v[0];
      if |a| > 1 && |b| > 1 {
        assert u[2..] == Elements(c, a[1..]) + ("]" + s) && v[2..] == Elements(c, b[1..]) + ("]" + t);
        TextDetermines(c, a[1..], s, b[1..], t);
      }
      assert a == [a[0]] + a[1..] && b == [b[0]] + b[1..];
    }
  }

  /** The prefix hash identifies the prefix: equal hashes, equal histories. */
  lemma HashIdentifiesHistory(c: Codec, a: seq<Run>, b: seq<Run>)
    requires Lawful(c)
    ensures CanonicalHash(c, a) == CanonicalHash(c, b) ==> a == b
  {
    if CanonicalHash(c, a) == CanonicalHash(c, b) {
      assert CanonicalText(c, a)[1..] == Elements(c, a) + ("]" + "");
      assert CanonicalText(c, b)[1..] == Elements(c, b) + ("]" + "");
      TextDetermines(c, a, "", b, "");
    }
  }

  // ---------------------------------------------------------------------
  // Append-only histories
  // ---------------------------------------------------------------------

  predicate Sealed(a: Attempt) { a.status == "accepted" || a.status == "abandoned" }

  ghost predicate SealedRun(r: Run) {
    |r.attempts| <= MAX_ENTRIES && forall i :: 0 <= i < |r.attempts| ==> Sealed(r.attempts[i])
  }

  method CheckSealed(r: Run) returns (ok: bool)
    ensures ok <==> SealedRun(r)
  {
    if |r.attempts| > MAX_ENTRIES {
      return false;
    }
    for i := 0 to |r.attempts|
      invariant forall k :: 0 <= k < i ==> Sealed(r.attempts[k])
    {
      if r.attempts[i].status !in {"accepted", "abandoned"} {
        return false;
      }
    }
    return true;
  }

  /** A pending attempt keeps its identity and may resolve; any other attempt never changes. */
  ghost predicate AttemptExtends(before: Attempt, after: Attempt) {
    if before.status == "pending" then
      && (after.status == "pending" || Sealed(after))
      && forall k :: k in before.fields ==> k in after.fields && after.fields[k] == before.fields[k]
    else before == after
  }

  ghost predicate RunExtends(before: Run, after: Run) {
    && before.fields == after.fields && |before.attempts| <= |after.attempts|
    && forall i :: 0 <= i < |before.attempts| ==> AttemptExtends(before.attempts[i], after.attempts[i])
  }

  ghost predicate MetaExtends(before: Meta, after: Meta) {
    && before.schema == after.schema && before.kind == after.kind && before.fields == after.fields
    && RangesOf(before.excluded).Some? && RangesOf(after.excluded).Some?
    && Within(RangesOf(before.excluded).value, RangesOf(after.excluded).value)
    && forall s :: s in before.assessments ==> s in after.assessments
  }

  /** All runs but the last are unchanged, the last is extended, and runs may be added. */
  ghost predicate RunsExtend(before: seq<Run>, after: seq<Run>) {
    && |before| <= |after|
    && (forall i :: 0 <= i < |before| - 1 ==> after[i] == before[i])
    && (before != [] ==> RunExtends(before[|before| - 1], after[|before| - 1]))
  }

  lemma RunExtendsComposes(a: Run, b: Run, d: Run)
    requires RunExtends(a, b) && RunExtends(b, d)
    ensures RunExtends(a, d)
  {
    forall i | 0 <= i < |a.attempts|
      ensures AttemptExtends(a.attempts[i], d.attempts[i])
    {
      assert AttemptExtends(a.attempts[i], b.attempts[i]) && AttemptExtends(b.attempts[i], d.attempts[i]);
    }
  }

  lemma RunExtendsItself(a: Run)
    ensures RunExtends(a, a)
  {
  }

  /** The runs of `first` are all still there in `last`, and what was sealed has not changed. */
  ghost predicate RunsKept(first: seq<Run>, last: seq<Run>) {
    && |first| <= |last|
    && (forall i :: 0 <= i < |first| - 1 ==> last[i] == first[i])
    && (forall i :: 0 <= i < |first| ==> RunExtends(first[i], last[i]))
  }

  lemma RunsKeptFurther(first: seq<Run>, middle: seq<Run>, last: seq<Run>)
    requires RunsKept(first, middle) && RunsExtend(middle, last)
    ensures RunsKept(first, last)
  {
    forall i | 0 <= i < |first|
      ensures RunExtends(first[i], last[i])
    {
      if i == |middle| - 1 {
        RunExtendsComposes(first[i], middle[i], last[i]);
      }
    }
  }

  lemma SealedNeverChanges(first: seq<Run>, last: seq<Run>, i: nat, k: nat)
    requires RunsKept(first, last) && i < |first| && k < |first[i].attempts| && Sealed(first[i].attempts[k])
    ensures k < |last[i].attempts| && last[i].attempts[k] == first[i].attempts[k]
  {
    assert AttemptExtends(first[i].attempts[k], last[i].attempts[k]);
  }

  /** The interval-inside-interval check is inclusion of the excluded seeds. */
  lemma ExclusionsGrow(before: Meta, after: Meta)
    requires Admitted(before.excluded) && Admitted(after.excluded)
    ensures Within(RangesOf(before.excluded).value, RangesOf(after.excluded).value) <==>
            forall s :: InPairs(s, before.excluded) ==> InPairs(s, after.excluded)
  {
    RangesOfCovers(before.excluded);
    RangesOfCovers(after.excluded);
    WithinIsInclusion(RangesOf(before.excluded).value, RangesOf(after.excluded).value);
  }

  // ---------------------------------------------------------------------
  // Reading
  // ---------------------------------------------------------------------

  predicate Fits(data: Bytes) { |data| <= MAX_DOCUMENT_BYTES }

  /** What a read recovers: the logical ledger and where it came from. */
  datatype Loaded = Loaded(meta: Meta, runs: seq<Run>, archived: nat, head: Option<Hash>,
                           backup: Option<Hash>, legacy: bool, document: Hash, origin: string)

  /** One ledger and the next: the same, or changed in permitted ways only. */
  ghost predicate LedgerExtends(before: Loaded, after: Loaded) {
    RunsExtend(before.runs, after.runs) && (before.meta == after.meta || MetaExtends(before.meta, after.meta))
  }

  lemma ExtendsItself(l: Loaded)
    ensures LedgerExtends(l, l)
  {
    if l.runs != [] {
      RunExtendsItself(l.runs[|l.runs| - 1]);
    }
  }

  /** Everything of `first` is still there in `last`: runs, sealed attempts, identities and excluded seeds. */
  ghost predicate LedgerKept(first: Loaded, last: Loaded) {
    && RunsKept(first.runs, last.runs)
    && (forall s :: InPairs(s, first.meta.excluded) ==> InPairs(s, last.meta.excluded))
    && (forall s :: s in first.meta.assessments ==> s in last.meta.assessments)
  }

  lemma KeptFurther(first: Loaded, middle: Loaded, last: Loaded)
    requires LedgerKept(first, middle) && LedgerExtends(middle, last)
    ensures LedgerKept(first, last)
  {
    RunsKeptFurther(first.runs, middle.runs, last.runs);
    if MetaExtends(middle.meta, last.meta) {
      ExclusionsGrow(middle.meta, last.meta);
    }
  }

  ghost predicate EachExtends(ledgers: seq<Loaded>) {
    forall i {:trigger ledgers[i]} :: 0 < i < |ledgers| ==> LedgerExtends(ledgers[i - 1], ledgers[i])
  }

  /** In any sequence of ledgers that each extend the one before, every later one keeps every earlier one. */
  lemma {:induction false} HistoriesOnlyGrow(ledgers: seq<Loaded>, i: nat, j: nat)
    requires EachExtends(ledgers) && i <= j < |ledgers|
    ensures LedgerKept(ledgers[i], ledgers[j])
    decreases j
  {
    if i == j {
      forall k | 0 <= k < |ledgers[i].runs| {
        RunExtendsItself(ledgers[i].runs[k]);
      }
    } else {
      HistoriesOnlyGrow(ledgers, i, j - 1);
      assert LedgerExtends(ledgers[j - 1], ledgers[j]);
      KeptFurther(ledgers[i], ledgers[j - 1], ledgers[j]);
    }
  }

  /** The ledgers that have been on disk, in order, up to the present one. */
  ghost predicate Chronicle(history: seq<Loaded>, present: Option<Loaded>) {
    && EachExtends(history) && (present.Some? <==> history != [])
    && (history != [] ==> Some(history[|history| - 1]) == present)
  }

  ghost function Recorded(history: seq<Loaded>, present: Option<Loaded>): seq<Loaded> {
    if present.Some? then history + [present.value] else history
  }

  lemma RecordedFurther(history: seq<Loaded>, before: Option<Loaded>, now: Option<Loaded>)
    requires Chronicle(history, before)
    requires before.Some? ==> now.Some? && LedgerExtends(before.value, now.value)
    ensures Chronicle(Recorded(history, now), now) && history <= Recorded(history, now)
  {
  }

  ghost predicate IsSegment(c: Codec, files: map<Name, Bytes>, head: Hash, index: int) {
    && c.isDigest(head) && SegmentFile(head) in files
    && var data := files[SegmentFile(head)];
       && Fits(data) && c.sha(data) == head
       && c.decode(data).Some? && c.decode(data).value.Segment?
       && c.decode(data).value.index == index && SealedRun(c.decode(data).value.run)
  }

  /** The archived runs behind `head`, oldest first; `None` unless there are exactly `count` of them. */
  ghost function Chain(c: Codec, files: map<Name, Bytes>, head: Option<Hash>, count: nat): Option<seq<Run>>
    decreases count
  {
    if head.None? then if count == 0 then Some([]) else None
    else if count == 0 || !IsSegment(c, files, head.value, count - 1) then None
    else
      var segment := c.decode(files[SegmentFile(head.value)]).value;
      var earlier := Chain(c, files, segment.previous, count - 1);
      if earlier.Some? then Some(earlier.value + [segment.run]) else None
  }

  ghost predicate ManifestAdmitted(c: Codec, m: Doc, path: string, snapshot: bool) {
    && m.Manifest? && (snapshot || m.origin == path)
    && 0 <= m.archived <= MAX_ENTRIES
    && (if m.head.None? then m.archived == 0 else c.isDigest(m.head.value) && m.archived > 0)
    && (m.backup.Some? ==> c.isDigest(m.backup.value))
    && m.base.schema == 1 && m.base.kind == LEDGER
    && |m.current| <= 1 && m.archived + |m.current| <= MAX_ENTRIES
  }

  ghost predicate BackupIntact(c: Codec, files: map<Name, Bytes>, backup: Option<Hash>) {
    backup.Some? ==>
      && LegacyFile(backup.value) in files
      && Fits(files[LegacyFile(backup.value)]) && c.sha(files[LegacyFile(backup.value)]) == backup.value
  }

  /** `manifest`: the checks in the order of the source. */
  method CheckManifest(c: Codec, m: Doc, path: string, snapshot: bool) returns (ok: bool)
    ensures ok <==> ManifestAdmitted(c, m, path, snapshot)
  {
    if !m.Manifest? || (!snapshot && m.origin != path) {
      return false;
    }
    if m.archived < 0 || m.archived > MAX_ENTRIES {
      return false;
    }
    if !((m.head.None? && m.archived == 0) || (m.head.Some? && c.isDigest(m.head.value) && m.archived > 0)) {
      return false;
    }
    if m.backup.Some? && !c.isDigest(m.backup.value) {
      return false;
    }
    if m.base.schema != 1 || m.base.kind != LEDGER {
      return false;
    }
    return |m.current| < 2 && m.archived + |m.current| <= MAX_ENTRIES;
  }

  method CheckBackup(c: Codec, files: map<Name, Bytes>, backup: Option<Hash>) returns (ok: bool)
    ensures ok <==> BackupIntact(c, files, backup)
  {
    if backup.None? {
      return true;
    }
    if LegacyFile(backup.value) !in files {
      return false;
    }
    var data := files[LegacyFile(backup.value)];
    return Fits(data) && c.sha(data) == backup.value;
  }

  /** `read`: the ledger that the bytes `data` and the archive stand for, `None` where it raises. */
  ghost function ReadBytes(c: Codec, data: Bytes, files: map<Name, Bytes>, path: string, snapshot: bool): Option<Loaded> {
    if !Fits(data) || c.decode(data).None? then None
    else
      var doc := c.decode(data).value;
      if doc.Legacy? then
        if doc.meta.schema == 1 && doc.meta.kind == LEDGER
        then Some(Loaded(doc.meta, doc.runs, 0, None, None, true, c.sha(data), path))
        else None
      else if ManifestAdmitted(c, doc, path, snapshot) && BackupIntact(c, files, doc.backup) then
        var archived := Chain(c, files, doc.head, doc.archived);
        if archived.Some? then
          Some(Loaded(doc.base, archived.value + doc.current, doc.archived, doc.head, doc.backup,
                      false, c.sha(data), doc.origin))
        else None
      else None
  }

  ghost function Read(c: Codec, disk: Disk, path: string): Option<Loaded> {
    if disk.ledger.Some? then ReadBytes(c, disk.ledger.value, disk.files, path, false) else None
  }

  lemma {:induction false} ChainLength(c: Codec, files: map<Name, Bytes>, head: Option<Hash>, count: nat)
    requires Chain(c, files, head, count).Some?
    ensures |Chain(c, files, head, count).value| == count
    decreases count
  {
    if head.Some? {
      ChainLength(c, files, c.decode(files[SegmentFile(head.value)]).value.previous, count - 1);
    }
  }

  /** Adding files never changes what an intact chain holds. */
  lemma {:induction false} ChainSurvives(c: Codec, files: map<Name, Bytes>, more: map<Name, Bytes>,
                                         head: Option<Hash>, count: nat)
    requires Chain(c, files, head, count).Some?
    requires forall n :: n in files ==> n in more && more[n] == files[n]
    ensures Chain(c, more, head, count) == Chain(c, files, head, count)
    decreases count
  {
    if head.Some? {
      ChainSurvives(c, files, more, c.decode(files[SegmentFile(head.value)]).value.previous, count - 1);
    }
  }

  lemma ReadSurvives(c: Codec, data: Bytes, files: map<Name, Bytes>, more: map<Name, Bytes>, path: string)
    requires ReadBytes(c, data, files, path, false).Some?
    requires forall n :: n in files ==> n in more && more[n] == files[n]
    ensures ReadBytes(c, data, more, path, false) == ReadBytes(c, data, files, path, false)
  {
    var doc := c.decode(data).value;
    if doc.Manifest? {
      ChainSurvives(c, files, more, doc.head, doc.archived);
    }
  }

  ghost function Continued(earlier: Option<seq<Run>>, later: seq<Run>): Option<seq<Run>> {
    if earlier.Some? then Some(earlier.value + later) else None
  }

  /** The walk of `archive_documents`: newest first, with the cycle guard, collecting every run. */
  method Walk(c: Codec, files: map<Name, Bytes>, newest: Option<Hash>, count: nat) returns (r: Option<seq<Run>>)
    ensures r == Chain(c, files, newest, count)
  {
    var head, index: int := newest, count - 1;
    var seen: set<Hash> := {};
    var runs: seq<Run> := [];
    ghost var whole := Chain(c, files, newest, count);
    assert whole.Some? ==> whole.value + [] == whole.value;
    while head.Some?
      invariant -1 <= index < count
      invariant Chain(c, files, newest, count) == Continued(Chain(c, files, head, index + 1), runs)
      // A hash already met names a segment with a larger index, so the cycle guard refuses nothing else.
      invariant forall h :: h in seen ==> exists k :: index < k < count && IsSegment(c, files, h, k)
      decreases index + 1
    {
      if !c.isDigest(head.value) || head.value in seen || index < 0 {
        return None;
      }
      if SegmentFile(head.value) !in files {
        return None;
      }
      var data := files[SegmentFile(head.value)];
      if !Fits(data) || c.sha(data) != head.value || c.decode(data).None? {
        return None;
      }
      var document := c.decode(data).value;
      if !document.Segment? || document.index != index {
        return None;
      }
      var sealed := CheckSealed(document.run);
      if !sealed {
        return None;
      }
      assert IsSegment(c, files, head.value, index);
      seen := seen + {head.value};
      ghost var earlier := Chain(c, files, document.previous, index);
      assert earlier.Some? ==> earlier.value + [document.run] + runs == earlier.value + ([document.run] + runs);
      runs := [document.run] + runs;
      head, index := document.previous, index - 1;
    }
    assert [] + runs == runs;
    return if index == -1 then Some(runs) else None;
  }

  // ---------------------------------------------------------------------
  // The state in memory
  // ---------------------------------------------------------------------

  function Protected(archived: nat, runs: seq<Run>): nat {
    if |runs| > archived + 1 then |runs| - 1 else archived
  }

  /** What `append_only` is meant to allow: the protected prefix stands, the current run is extended. */
  ghost predicate HistoryKept(before: seq<Run>, protected: nat, after: seq<Run>)
    requires protected <= |before|
  {
    && protected <= |after| && after[..protected] == before[..protected]
    && (protected < |before| ==>
          && protected < |after| && |after[protected].attempts| <= MAX_ENTRIES
          && RunExtends(before[protected], after[protected]))
  }

  lemma KeptHistoriesExtend(before: seq<Run>, archived: nat, after: seq<Run>)
    requires archived <= |before| && HistoryKept(before, Protected(archived, before), after)
    ensures RunsExtend(before, after)
  {
    var p := Protected(archived, before);
    forall i | 0 <= i < p
      ensures after[i] == before[i]
    {
      assert after[i] == after[..p][i] == before[..p][i];
    }
    if p == |before| && p > 0 {
      RunExtendsItself(before[p - 1]);
    }
  }

  /**
   * The current run of a bound history is its last one, unless all of it is archived: the checks allow
   * exactly the histories that extend it and keep all others, and may add runs.
   */
  lemma KeptExactly(before: seq<Run>, archived: nat, after: seq<Run>)
    requires archived <= |before|
    ensures archived < |before| ==>
              (HistoryKept(before, Protected(archived, before), after) <==>
               RunsExtend(before, after) && |after[|before| - 1].attempts| <= MAX_ENTRIES)
    ensures archived == |before| ==> (HistoryKept(before, Protected(archived, before), after) <==> before <= after)
  {
    if HistoryKept(before, Protected(archived, before), after) {
      KeptHistoriesExtend(before, archived, after);
    }
    if archived < |before| && RunsExtend(before, after) {
      assert after[..|before| - 1] == before[..|before| - 1];
    }
  }

  class State {
    var meta: Meta
    var runs: seq<Run>
    var origin: Option<string>
    var document: Option<Hash>
    var archived: nat
    var head: Option<Hash>
    var backup: Option<Hash>
    var legacy: bool
    var prefixHash: Hash
    var protectedPrefix: nat
    var currentBefore: Option<Run>
    var metaBefore: Option<Meta>
    const c: Codec
    ghost var boundMeta: Meta
    ghost var boundRuns: seq<Run>

    /** The cached hash and copies are those of the history they were last bound to. */
    ghost predicate Coherent()
      reads this
    {
      && archived <= |boundRuns| && protectedPrefix == Protected(archived, boundRuns) <= |boundRuns|
      && prefixHash == CanonicalHash(c, boundRuns[..protectedPrefix])
      && currentBefore == (if |boundRuns| > protectedPrefix then Some(boundRuns[protectedPrefix]) else None)
      && (if metaBefore.Some? then metaBefore.value == boundMeta else boundRuns == [])
    }

    /** A new, empty ledger that has never been written. */
    constructor Empty(codec: Codec)
      ensures Coherent() && c == codec && runs == [] && document.None? && boundRuns == []
      ensures archived == 0 && head.None? && backup.None? && !legacy && origin.None? && metaBefore.None?
    {
      meta, runs, origin, document := Meta(1, LEDGER, [], [], map[]), [], None, None;
      archived, head, backup, legacy := 0, None, None, false;
      protectedPrefix, currentBefore, metaBefore := 0, None, None;
      c := codec;
      boundRuns, boundMeta := [], Meta(1, LEDGER, [], [], map[]);
      prefixHash := codec.sha("[]");
      new;
      assert CanonicalText(c, []) == "[]";
      assert boundRuns[..0] == [];
    }

    /** The state `read` builds from what it recovered. */
    constructor Admit(codec: Codec, l: Loaded)
      requires l.archived <= |l.runs|
      ensures Coherent() && c == codec && boundRuns == runs == l.runs && boundMeta == meta == l.meta
      ensures archived == l.archived && head == l.head && backup == l.backup && legacy == l.legacy
      ensures origin == Some(l.origin) && document == Some(l.document) && metaBefore.Some?
    {
      meta, runs, origin, document := l.meta, l.runs, Some(l.origin), Some(l.document);
      archived, head, backup, legacy := l.archived, l.head, l.backup, l.legacy;
      protectedPrefix, currentBefore, metaBefore := 0, None, None;
      c, prefixHash := codec, "";
      new;
      BindHistory(false);
    }

    /** Hash the protected prefix again, unless a write has just verified it and the boundary is the same. */
    method BindHistory(reuse: bool)
      requires archived <= |runs|
      requires reuse ==> protectedPrefix <= |runs| && prefixHash == CanonicalHash(c, runs[..protectedPrefix])
      modifies this`prefixHash, this`protectedPrefix, this`currentBefore, this`metaBefore, this`boundRuns, this`boundMeta
      ensures Coherent() && boundRuns == runs && boundMeta == meta && metaBefore.Some?
    {
      var protected := Protected(archived, runs);
      if !reuse || protected != protectedPrefix {
        prefixHash := StreamHash(c, runs, protected);
      }
      protectedPrefix := protected;
      currentBefore := if |runs| > protectedPrefix then Some(runs[protectedPrefix]) else None;
      metaBefore := Some(meta);
      boundRuns, boundMeta := runs, meta;
    }

    /** After the manifest has been replaced: the state becomes what a read would now build. */
    method Commit(path: string, plan: Plan, hash: Hash)
      requires plan.count == Count(runs)
      requires protectedPrefix <= |runs| && prefixHash == CanonicalHash(c, runs[..protectedPrefix])
      modifies this
      ensures Coherent() && boundRuns == runs == old(runs) && boundMeta == meta == old(meta) && metaBefore.Some?
      ensures origin == Some(path) && document == Some(hash)
      ensures archived == plan.count && head == plan.head && backup == plan.backup && !legacy
    {
      origin, document := Some(path), Some(hash);
      archived, head, backup, legacy := plan.count, plan.head, plan.backup, false;
      BindHistory(true);
    }

    method AttemptsKept(before: seq<Attempt>, after: seq<Attempt>) returns (ok: bool)
      ensures ok <==> && |after| <= MAX_ENTRIES && |before| <= |after|
                      && forall i :: 0 <= i < |before| ==> AttemptExtends(before[i], after[i])
    {
      if |after| > MAX_ENTRIES || |after| < |before| {
        return false;
      }
      for i := 0 to |before|
        invariant forall k :: 0 <= k < i ==> AttemptExtends(before[k], after[k])
      {
        if before[i].status == "pending" {
          if after[i].status !in {"pending", "accepted", "abandoned"}
             || exists k :: k in before[i].fields && (k !in after[i].fields || after[i].fields[k] != before[i].fields[k]) {
            assert !AttemptExtends(before[i], after[i]);
            return false;
          }
        } else if before[i] != after[i] {
          assert !AttemptExtends(before[i], after[i]);
          return false;
        }
      }
      return true;
    }

    /** `append_only`: from the cached hash and copies alone, exactly the permitted changes. */
    method AppendOnly() returns (ok: bool)
      requires Coherent() && Lawful(c)
      ensures ok <==> && HistoryKept(boundRuns, protectedPrefix, runs)
                      && (metaBefore.Some? ==> MetaExtends(boundMeta, meta))
      ensures ok ==> prefixHash == CanonicalHash(c, runs[..protectedPrefix])
    {
      if |runs| < protectedPrefix {
        return false;
      }
      var hash := StreamHash(c, runs, protectedPrefix);
      HashIdentifiesHistory(c, runs[..protectedPrefix], boundRuns[..protectedPrefix]);
      if hash != prefixHash {
        return false;
      }
      if currentBefore.Some? {
        if |runs| <= protectedPrefix || currentBefore.value.fields != runs[protectedPrefix].fields {
          return false;
        }
        ok := AttemptsKept(currentBefore.value.attempts, runs[protectedPrefix].attempts);
        if !ok {
          return;
        }
      }
      if metaBefore.Some? {
        if metaBefore.value.(excluded := meta.excluded, assessments := meta.assessments) != meta {
          return false;
        }
        var ranges := Ranges(meta.excluded);
        var earlier := Ranges(metaBefore.value.excluded);
        if ranges.None? || earlier.None? || !Within(earlier.value, ranges.value) {
          return false;
        }
        if exists s :: s in metaBefore.value.assessments && s !in meta.assessments {
          return false;
        }
      }
      return true;
    }
  }

  // ---------------------------------------------------------------------
  // Writing
  // ---------------------------------------------------------------------

  ghost function SegmentBytes(c: Codec, index: nat, previous: Option<Hash>, run: Run): Bytes {
    c.encode(Segment(index, previous, run))
  }

  /** The segment of one run has been published on top of `previous`. */
  ghost predicate Linked(c: Codec, files: map<Name, Bytes>, previous: Option<Hash>, index: nat, run: Run) {
    var data := SegmentBytes(c, index, previous, run);
    && Fits(data) && SealedRun(run)
    && SegmentFile(c.sha(data)) in files && files[SegmentFile(c.sha(data))] == data
  }

  /** `heads[i]` leads to the first `start + i` runs: each head is the hash of the segment of its last run. */
  ghost predicate HeadsOf(c: Codec, heads: seq<Option<Hash>>, start: nat, runs: seq<Run>) {
    && 1 <= |heads| && start + |heads| - 1 <= |runs|
    && forall i :: 0 <= i < |heads| - 1 ==>
         heads[i + 1] == Some(c.sha(SegmentBytes(c, start + i, heads[i], runs[start + i])))
  }

  ghost predicate Published(c: Codec, files: map<Name, Bytes>, heads: seq<Option<Hash>>, start: nat, runs: seq<Run>)
    requires HeadsOf(c, heads, start, runs)
  {
    forall i :: 0 <= i < |heads| - 1 ==> Linked(c, files, heads[i], start + i, runs[start + i])
  }

  lemma LinkAdds(c: Codec, files: map<Name, Bytes>, previous: Option<Hash>, index: nat, earlier: seq<Run>, run: Run)
    requires ReadsBack(c) && Linked(c, files, previous, index, run)
    requires Chain(c, files, previous, index) == Some(earlier)
    ensures Chain(c, files, Some(c.sha(SegmentBytes(c, index, previous, run))), index + 1) == Some(earlier + [run])
  {
    var data := SegmentBytes(c, index, previous, run);
    assert c.decode(data) == Some(Segment(index, previous, run));
    assert c.isDigest(c.sha(data));
    assert IsSegment(c, files, c.sha(data), index);
  }

  /** Once the new segments are on disk every new head leads to exactly the runs before it. */
  lemma {:induction false} ChainGrows(c: Codec, files: map<Name, Bytes>, heads: seq<Option<Hash>>, start: nat,
                                      runs: seq<Run>, k: nat)
    requires ReadsBack(c) && HeadsOf(c, heads, start, runs) && k < |heads|
    requires Chain(c, files, heads[0], start) == Some(runs[..start])
    requires Published(c, files, heads, start, runs)
    ensures Chain(c, files, heads[k], start + k) == Some(runs[..start + k])
    decreases k
  {
    if k > 0 {
      ChainGrows(c, files, heads, start, runs, k - 1);
      assert Linked(c, files, heads[k - 1], start + (k - 1), runs[start + (k - 1)]);
      assert heads[k - 1 + 1] == Some(c.sha(SegmentBytes(c, start + (k - 1), heads[k - 1], runs[start + (k - 1)])));
      LinkAdds(c, files, heads[k - 1], start + (k - 1), runs[..start + (k - 1)], runs[start + (k - 1)]);
      TakeOneMore(runs, start + (k - 1));
    }
  }

  /** What a successful read has established about the archive. */
  lemma AdmittedParts(c: Codec, data: Bytes, files: map<Name, Bytes>, path: string)
    requires ReadBytes(c, data, files, path, false).Some?
    ensures var l := ReadBytes(c, data, files, path, false).value;
            && l.archived <= |l.runs| && l.archived <= MAX_ENTRIES
            && Chain(c, files, l.head, l.archived) == Some(l.runs[..l.archived])
            && (if l.head.Some? then c.isDigest(l.head.value) && l.archived > 0 else l.archived == 0)
            && BackupIntact(c, files, l.backup) && (l.backup.Some? ==> c.isDigest(l.backup.value))
            && (l.legacy ==> l.archived == 0 && l.head.None? && l.backup.None?)
  {
    var l := ReadBytes(c, data, files, path, false).value;
    var doc := c.decode(data).value;
    if doc.Manifest? {
      ChainLength(c, files, doc.head, doc.archived);
      assert l.runs[..l.archived] == Chain(c, files, doc.head, doc.archived).value;
    }
  }

  /** The manifest `write` encodes reads back as the state it was written from. */
  lemma WrittenReads(c: Codec, files: map<Name, Bytes>, path: string, head: Option<Hash>, count: nat,
                     backup: Option<Hash>, meta: Meta, runs: seq<Run>)
    requires ReadsBack(c) && meta.schema == 1 && meta.kind == LEDGER
    requires |runs| <= MAX_ENTRIES && count == Count(runs)
    requires Chain(c, files, head, count) == Some(runs[..count])
    requires if head.Some? then c.isDigest(head.value) && count > 0 else count == 0
    requires BackupIntact(c, files, backup) && (backup.Some? ==> c.isDigest(backup.value))
    requires Fits(c.encode(Manifest(path, head, count, backup, meta, runs[count..])))
    ensures var data := c.encode(Manifest(path, head, count, backup, meta, runs[count..]));
            ReadBytes(c, data, files, path, false)
            == Some(Loaded(meta, runs, count, head, backup, false, c.sha(data), path))
  {
    var doc := Manifest(path, head, count, backup, meta, runs[count..]);
    assert c.decode(c.encode(doc)) == Some(doc);
    assert runs[..count] + runs[count..] == runs;
  }

  /** With its segments and its backup on disk, the manifest of a write reads back as the whole state. */
  lemma PublishedReads(c: Codec, before: map<Name, Bytes>, files: map<Name, Bytes>, path: string, start: nat,
                       meta: Meta, runs: seq<Run>, plan: Plan, heads: seq<Option<Hash>>)
    requires ReadsBack(c) && HeadsOf(c, heads, start, runs) && Planned(c, path, start, meta, runs, plan, heads)
    requires forall n :: n in before ==> n in files && files[n] == before[n]
    requires Chain(c, before, heads[0], start) == Some(runs[..start])
    requires if heads[0].Some? then c.isDigest(heads[0].value) && start > 0 else start == 0
    requires Published(c, files, heads, start, runs)
    requires BackupIntact(c, files, plan.backup) && (plan.backup.Some? ==> c.isDigest(plan.backup.value))
    ensures ReadBytes(c, plan.data, files, path, false)
            == Some(Loaded(meta, runs, plan.count, plan.head, plan.backup, false, c.sha(plan.data), path))
  {
    ChainSurvives(c, before, files, heads[0], start);
    ChainGrows(c, files, heads, start, runs, plan.count - start);
    if plan.count > start {
      var k := plan.count - start - 1;
      assert heads[k + 1] == Some(c.sha(SegmentBytes(c, start + k, heads[k], runs[start + k])));
    }
    WrittenReads(c, files, path, plan.head, plan.count, plan.backup, meta, runs);
  }

  /** All runs but the last are archived. */
  function Count(runs: seq<Run>): nat { if |runs| > 0 then |runs| - 1 else 0 }

  /** The head over the first `n` runs, once the runs from `start` on are archived on top of `head`. */
  ghost function HeadAt(c: Codec, head: Option<Hash>, start: nat, runs: seq<Run>, n: nat): Option<Hash>
    requires start <= n <= |runs|
  {
    if n == start then head
    else Some(c.sha(SegmentBytes(c, n - 1, HeadAt(c, head, start, runs, n - 1), runs[n - 1])))
  }

  lemma {:induction false} HeadsAreHeadAt(c: Codec, heads: seq<Option<Hash>>, start: nat, runs: seq<Run>, k: nat)
    requires HeadsOf(c, heads, start, runs) && k < |heads|
    ensures heads[k] == HeadAt(c, heads[0], start, runs, start + k)
  {
    if k > 0 {
      HeadsAreHeadAt(c, heads, start, runs, k - 1);
      assert heads[k - 1 + 1] == Some(c.sha(SegmentBytes(c, start + (k - 1), heads[k - 1], runs[start + (k - 1)])));
    }
  }

  /** The segment that archives run `i`. */
  ghost function NewSegment(c: Codec, head: Option<Hash>, start: nat, runs: seq<Run>, i: nat): Bytes
    requires start <= i < |runs|
  {
    SegmentBytes(c, i, HeadAt(c, head, start, runs, i), runs[i])
  }

  /** A run that must be archived still holds an attempt that is neither accepted nor abandoned. */
  ghost predicate Uncertain(start: nat, runs: seq<Run>) {
    exists i :: start <= i < |runs| - 1 && !SealedRun(runs[i])
  }

  /** A new segment, or the manifest over all of them, exceeds the document bound. */
  ghost predicate TooLarge(c: Codec, path: string, head: Option<Hash>, start: nat, meta: Meta, runs: seq<Run>, backup: Option<Hash>)
    requires start <= Count(runs)
  {
    || (exists i: nat :: start <= i < |runs| - 1 && |NewSegment(c, head, start, runs, i)| > MAX_DOCUMENT_BYTES)
    || |c.encode(Manifest(path, HeadAt(c, head, start, runs, Count(runs)), Count(runs), backup, meta, runs[Count(runs)..]))|
       > MAX_DOCUMENT_BYTES
  }

  /** A file under the name of a new segment holds something else. */
  ghost predicate Taken(c: Codec, files: map<Name, Bytes>, head: Option<Hash>, start: nat, runs: seq<Run>) {
    exists i: nat :: start <= i < |runs| - 1 &&
      var data := NewSegment(c, head, start, runs, i);
      SegmentFile(c.sha(data)) in files && files[SegmentFile(c.sha(data))] != data
  }

  lemma SegmentTooLarge(c: Codec, path: string, head: Option<Hash>, start: nat, meta: Meta, runs: seq<Run>, backup: Option<Hash>, i: nat)
    requires start <= i < |runs| - 1 && |NewSegment(c, head, start, runs, i)| > MAX_DOCUMENT_BYTES
    ensures TooLarge(c, path, head, start, meta, runs, backup)
  {
  }

  /** What the construction of the documents stopped at, in terms of the runs. */
  lemma StoppedBy(c: Codec, path: string, start: nat, meta: Meta, runs: seq<Run>, backup: Option<Hash>, heads: seq<Option<Hash>>)
    requires HeadsOf(c, heads, start, runs) && start <= Count(runs)
    ensures Oversize(c, path, start, meta, runs, backup, heads) ==> TooLarge(c, path, heads[0], start, meta, runs, backup)
  {
    HeadsAreHeadAt(c, heads, start, runs, |heads| - 1);
    var n := start + |heads| - 1;
    if Oversize(c, path, start, meta, runs, backup, heads) {
      if n < Count(runs) {
        SegmentTooLarge(c, path, heads[0], start, meta, runs, backup, n);
      } else {
        assert HeadAt(c, heads[0], start, runs, Count(runs)) == heads[|heads| - 1];
      }
    }
  }

  lemma PlannedDocument(c: Codec, start: nat, runs: seq<Run>, documents: seq<Bytes>, heads: seq<Option<Hash>>, i: nat)
    requires HeadsOf(c, heads, start, runs) && SegmentsOf(c, start, runs, documents, heads) && i < |documents|
    ensures documents[i] == NewSegment(c, heads[0], start, runs, start + i)
    ensures Fits(documents[i]) && SealedRun(runs[start + i])
  {
    HeadsAreHeadAt(c, heads, start, runs, i);
  }

  lemma SegmentsFit(c: Codec, start: nat, runs: seq<Run>, documents: seq<Bytes>, heads: seq<Option<Hash>>)
    requires HeadsOf(c, heads, start, runs) && SegmentsOf(c, start, runs, documents, heads)
    requires start <= Count(runs) && |documents| == Count(runs) - start
    ensures !Uncertain(start, runs)
    ensures forall i: nat {:trigger NewSegment(c, heads[0], start, runs, i)} :: start <= i < |runs| - 1 ==>
              |NewSegment(c, heads[0], start, runs, i)| <= MAX_DOCUMENT_BYTES
  {
    forall i: nat | start <= i < |runs| - 1
      ensures SealedRun(runs[i]) && |NewSegment(c, heads[0], start, runs, i)| <= MAX_DOCUMENT_BYTES
    {
      PlannedDocument(c, start, runs, documents, heads, i - start);
    }
  }

  /** A complete plan: every run to archive is certain, and every document fits. */
  lemma PlanFits(c: Codec, path: string, start: nat, meta: Meta, runs: seq<Run>, plan: Plan, heads: seq<Option<Hash>>)
    requires HeadsOf(c, heads, start, runs) && Planned(c, path, start, meta, runs, plan, heads)
    ensures !Uncertain(start, runs) && !TooLarge(c, path, heads[0], start, meta, runs, plan.backup)
  {
    SegmentsFit(c, start, runs, plan.documents, heads);
    HeadsAreHeadAt(c, heads, start, runs, |heads| - 1);
  }

  /** The document after the last head does not fit. */
  ghost predicate Oversize(c: Codec, path: string, start: nat, meta: Meta, runs: seq<Run>, backup: Option<Hash>,
                           heads: seq<Option<Hash>>)
  {
    && HeadsOf(c, heads, start, runs)
    && var n := start + |heads| - 1;
       if n < Count(runs) then !Fits(SegmentBytes(c, n, heads[|heads| - 1], runs[n]))
       else n == Count(runs)
            && !Fits(c.encode(Manifest(path, heads[|heads| - 1], n, backup, meta, runs[n..])))
  }

  /** The documents of `plan` are the segments behind `heads` and a manifest over the last of them. */
  ghost predicate Planned(c: Codec, path: string, start: nat, meta: Meta, runs: seq<Run>, plan: Plan, heads: seq<Option<Hash>>)
    requires HeadsOf(c, heads, start, runs)
  {
    && meta.schema == 1 && meta.kind == LEDGER && |runs| <= MAX_ENTRIES
    && start <= plan.count == (Count(runs))
    && |heads| == plan.count - start + 1 && plan.head == heads[|heads| - 1]
    && plan.data == c.encode(Manifest(path, plan.head, plan.count, plan.backup, meta, runs[plan.count..]))
    && Fits(plan.data)
    && SegmentsOf(c, start, runs, plan.documents, heads)
  }

  ghost predicate SegmentsOf(c: Codec, start: nat, runs: seq<Run>, documents: seq<Bytes>, heads: seq<Option<Hash>>)
    requires HeadsOf(c, heads, start, runs)
  {
    && |documents| == |heads| - 1
    && forall i :: 0 <= i < |documents| ==>
         && documents[i] == SegmentBytes(c, start + i, heads[i], runs[start + i])
         && Fits(documents[i]) && SealedRun(runs[start + i])
  }

  lemma OneMoreSegment(c: Codec, start: nat, runs: seq<Run>, documents: seq<Bytes>, heads: seq<Option<Hash>>)
    requires HeadsOf(c, heads, start, runs) && SegmentsOf(c, start, runs, documents, heads)
    requires start + |documents| < |runs| && SealedRun(runs[start + |documents|])
    requires Fits(SegmentBytes(c, start + |documents|, heads[|heads| - 1], runs[start + |documents|]))
    ensures var data := SegmentBytes(c, start + |documents|, heads[|heads| - 1], runs[start + |documents|]);
            var longer := heads + [Some(c.sha(data))];
            HeadsOf(c, longer, start, runs) && SegmentsOf(c, start, runs, documents + [data], longer)
  {
    var data := SegmentBytes(c, start + |documents|, heads[|heads| - 1], runs[start + |documents|]);
    var longer := heads + [Some(c.sha(data))];
    var more := documents + [data];
    assert forall i :: 0 <= i < |heads| ==> longer[i] == heads[i];
    forall i | 0 <= i < |more|
      ensures more[i] == SegmentBytes(c, start + i, longer[i], runs[start + i]) && Fits(more[i]) && SealedRun(runs[start + i])
    {
      assert i < |documents| ==> more[i] == documents[i];
    }
  }

  /** The segments, the new head and the manifest of one write. */
  datatype Plan = Plan(documents: seq<Bytes>, head: Option<Hash>, count: nat, backup: Option<Hash>, data: Bytes)

  class Archive {
    var disk: Disk
    const path: string
    const c: Codec

    constructor (codec: Codec, where: string, d: Disk)
      ensures disk == d && path == where && c == codec
    {
      disk, path, c := d, where, codec;
    }

    /** The state is what was read from this very document, or it is new. */
    ghost predicate Holds(s: State)
      reads this, s
    {
      && s.Coherent() && s.c == c
      && (if s.document.None?
          then s.archived == 0 && s.head.None? && s.backup.None? && !s.legacy && s.boundRuns == [] && s.metaBefore.None?
          else
            && s.metaBefore.Some? && s.origin.Some?
            && (s.origin == Some(path) ==>
                  forall data: Bytes {:trigger c.sha(data)} :: c.sha(data) == s.document.value ==>
                    ReadBytes(c, data, disk.files, path, false)
                    == Some(Loaded(s.boundMeta, s.boundRuns, s.archived, s.head, s.backup,
                                   s.legacy, s.document.value, path))))
    }

    method Open() returns (s: State?)
      requires Lawful(c)
      ensures s == null <==> Read(c, disk, path).None?
      ensures s != null ==> fresh(s) && Holds(s) && s.origin == Some(path)
      ensures s != null ==> s.runs == s.boundRuns && s.meta == s.boundMeta
      ensures s != null ==> Some(Loaded(s.meta, s.runs, s.archived, s.head, s.backup, s.legacy, s.document.GetOr(""), path))
                            == Read(c, disk, path)
    {
      if disk.ledger.None? || !Fits(disk.ledger.value) || c.decode(disk.ledger.value).None? {
        return null;
      }
      var doc := c.decode(disk.ledger.value).value;
      var digest := c.sha(disk.ledger.value);
      if doc.Legacy? {
        if doc.meta.schema != 1 || doc.meta.kind != LEDGER {
          return null;
        }
        s := new State.Admit(c, Loaded(doc.meta, doc.runs, 0, None, None, true, digest, path));
        return;
      }
      var admitted := CheckManifest(c, doc, path, false);
      if !admitted {
        return null;
      }
      admitted := CheckBackup(c, disk.files, doc.backup);
      if !admitted {
        return null;
      }
      var archived := Walk(c, disk.files, doc.head, doc.archived);
      if archived.None? {
        return null;
      }
      ChainLength(c, disk.files, doc.head, doc.archived);
      s := new State.Admit(c, Loaded(doc.base, archived.value + doc.current, doc.archived, doc.head, doc.backup,
                                     false, digest, doc.origin));
    }

    /** A segment that was not there before is the one its name calls for. */
    ghost predicate NewHold(before: map<Name, Bytes>, after: map<Name, Bytes>) {
      forall data: Bytes {:trigger c.sha(data)} ::
        SegmentFile(c.sha(data)) in after && SegmentFile(c.sha(data)) !in before ==> after[SegmentFile(c.sha(data))] == data
    }

    /** Publish a file under its content's hash: never replaced, only found to be the same. */
    method Immutable(name: Name, data: Bytes, risky: bool) returns (r: Outcome)
      requires Injective(c) && Fits(data)
      modifies this`disk
      ensures !risky ==> r != Crashed
      ensures disk == old(disk).(files := disk.files)
      ensures forall n :: n in old(disk).files ==> n in disk.files && disk.files[n] == old(disk).files[n]
      ensures r == Done ==> name in disk.files && disk.files[name] == data
      ensures r == Refused <==> name in old(disk).files && old(disk).files[name] != data
      ensures disk.files == old(disk).files || disk.files == old(disk).files[name := data]
    {
      if name in disk.files {
        if !Fits(disk.files[name]) || c.sha(disk.files[name]) != c.sha(data) {
          return Refused;
        }
        return Done;
      }
      var up := Survives(risky);
      if !up {
        return Crashed;
      }
      disk := disk.(files := disk.files[name := data]);
      up := Survives(risky);
      return if up then Done else Crashed;
    }

    /**
     * Build the segments for the runs that stop being current. `None` when one still holds a pending
     * attempt or is too large; nothing has been written yet.
     */
    method BuildSegments(s: State, count: nat) returns (documents: Option<seq<Bytes>>, head: Option<Hash>,
                                                        ghost heads: seq<Option<Hash>>)
      requires s.archived <= count <= |s.runs|
      ensures HeadsOf(c, heads, s.archived, s.runs) && heads[0] == s.head
      ensures documents.Some? ==>
                && |heads| == count - s.archived + 1 && head == heads[|heads| - 1]
                && SegmentsOf(c, s.archived, s.runs, documents.value, heads)
      ensures documents.None? ==>
                var n := s.archived + |heads| - 1;
                && n < count
                && (!SealedRun(s.runs[n]) || !Fits(SegmentBytes(c, n, heads[|heads| - 1], s.runs[n])))
    {
      head, heads := s.head, [s.head];
      var built: seq<Bytes> := [];
      for index := s.archived to count
        invariant HeadsOf(c, heads, s.archived, s.runs) && heads[0] == s.head
        invariant |heads| == index - s.archived + 1 && head == heads[|heads| - 1]
        invariant SegmentsOf(c, s.archived, s.runs, built, heads)
      {
        var sealed := CheckSealed(s.runs[index]);
        if !sealed {
          return None, head, heads;
        }
        var data := c.encode(Segment(index, head, s.runs[index]));
        if !Fits(data) {
          return None, head, heads;
        }
        OneMoreSegment(c, s.archived, s.runs, built, heads);
        head := Some(c.sha(data));
        heads := heads + [head];
        built := built + [data];
      }
      documents := Some(built);
    }

    lemma NewHoldFurther(before: map<Name, Bytes>, now: map<Name, Bytes>, document: Bytes)
      requires Injective(c) && NewHold(before, now)
      ensures NewHold(before, now[SegmentFile(c.sha(document)) := document])
    {
    }

    /** What occupies a place now was already there, unless it is the very document. */
    lemma OccupiedBefore(before: map<Name, Bytes>, now: map<Name, Bytes>, document: Bytes)
      requires NewHold(before, now) && Occupied(now, document) && forall n :: n in before ==> n in now && now[n] == before[n]
      ensures Occupied(before, document)
    {
    }

    /** A file under this content's hash holds something else. */
    ghost predicate Occupied(files: map<Name, Bytes>, data: Bytes) {
      SegmentFile(c.sha(data)) in files && files[SegmentFile(c.sha(data))] != data
    }

    ghost predicate AnyOccupied(files: map<Name, Bytes>, documents: seq<Bytes>) {
      exists k :: 0 <= k < |documents| && Occupied(files, documents[k])
    }

    /** Publish every new segment under its own hash. */
    method PublishSegments(start: nat, runs: seq<Run>, documents: seq<Bytes>, ghost heads: seq<Option<Hash>>,
                           risky: bool)
      returns (r: Outcome)
      requires Injective(c) && HeadsOf(c, heads, start, runs) && SegmentsOf(c, start, runs, documents, heads)
      modifies this`disk
      ensures !risky ==> r != Crashed
      ensures disk == old(disk).(files := disk.files)
      ensures forall n :: n in old(disk).files ==> n in disk.files && disk.files[n] == old(disk).files[n]
      ensures r == Done ==> Published(c, disk.files, heads, start, runs)
      ensures r == Refused ==> AnyOccupied(old(disk).files, documents)
    {
      for k := 0 to |documents|
        invariant disk == old(disk).(files := disk.files)
        invariant forall n :: n in old(disk).files ==> n in disk.files && disk.files[n] == old(disk).files[n]
        invariant forall i :: 0 <= i < k ==> Linked(c, disk.files, heads[i], start + i, runs[start + i])
        invariant NewHold(old(disk).files, disk.files)
      {
        ghost var now := disk.files;
        NewHoldFurther(old(disk).files, now, documents[k]);
        r := Immutable(SegmentFile(c.sha(documents[k])), documents[k], risky);
        if r == Refused {
          OccupiedBefore(old(disk).files, now, documents[k]);
        }
        if r != Done {
          return;
        }
      }
      return Done;
    }

    /** The document on disk is the one the state was read from, or there is none yet. */
    ghost predicate Current(s: State)
      reads this, s
    {
      if s.document.None? then disk.ledger.None?
      else disk.ledger.Some? && c.sha(disk.ledger.value) == s.document.value && Fits(disk.ledger.value)
           && s.origin == Some(path)
    }

    /** The state belongs to this document and only makes permitted changes to it. */
    ghost predicate Permitted(s: State)
      requires s.Coherent()
      reads this, s
    {
      && s.meta.schema == 1 && s.meta.kind == LEDGER && (s.origin.Some? ==> s.origin == Some(path)) && Current(s)
      && |s.runs| <= MAX_ENTRIES && s.archived <= Count(s.runs)
      && HistoryKept(s.boundRuns, s.protectedPrefix, s.runs)
      && (s.metaBefore.Some? ==> MetaExtends(s.boundMeta, s.meta))
    }

    /** The checks of `write` that precede any encoding. */
    method Check(s: State) returns (ok: bool)
      requires Holds(s) && Lawful(c)
      ensures ok <==> Permitted(s)
      ensures ok ==> s.prefixHash == CanonicalHash(c, s.runs[..s.protectedPrefix])
    {
      if s.meta.schema != 1 || s.meta.kind != LEDGER || (s.origin.Some? && s.origin != Some(path)) {
        return false;
      }
      var before := disk.ledger;
      if before.Some? && !Fits(before.value) {
        return false;
      }
      if before.None? != s.document.None? || (before.Some? && c.sha(before.value) != s.document.value) {
        return false;
      }
      if |s.runs| > MAX_ENTRIES {
        return false;
      }
      ok := s.AppendOnly();
      ok := ok && s.archived <= Count(s.runs);
    }

    lemma PermittedExtends(s: State)
      requires s.Coherent() && Permitted(s)
      ensures RunsExtend(s.boundRuns, s.runs) && s.protectedPrefix <= |s.runs|
      ensures s.runs[..s.archived] == s.boundRuns[..s.archived]
    {
      KeptHistoriesExtend(s.boundRuns, s.archived, s.runs);
      assert s.runs[..s.archived] == s.runs[..s.protectedPrefix][..s.archived];
      assert s.boundRuns[..s.archived] == s.boundRuns[..s.protectedPrefix][..s.archived];
    }

    /** The documents to publish; every size check precedes publication. */
    method MakePlan(s: State) returns (plan: Option<Plan>, ghost heads: seq<Option<Hash>>)
      requires s.meta.schema == 1 && s.meta.kind == LEDGER && |s.runs| <= MAX_ENTRIES && s.archived <= Count(s.runs)
      ensures HeadsOf(c, heads, s.archived, s.runs) && heads[0] == s.head
      ensures plan.Some? ==>
                && Planned(c, path, s.archived, s.meta, s.runs, plan.value, heads)
                && plan.value.backup == (if s.legacy then s.document else s.backup)
      // Nothing is refused here but uncertain runs and oversize documents.
      ensures plan.None? ==>
                || (exists i :: s.archived <= i < Count(s.runs) && !SealedRun(s.runs[i]))
                || Oversize(c, path, s.archived, s.meta, s.runs, if s.legacy then s.document else s.backup, heads)
    {
      var count, documents, head := Count(s.runs), None, None;
      documents, head, heads := BuildSegments(s, count);
      if documents.None? {
        return None, heads;
      }
      var backup := if s.legacy then s.document else s.backup;
      var data := c.encode(Manifest(path, head, count, backup, s.meta, s.runs[count..]));
      if !Fits(data) {
        return None, heads;
      }
      return Some(Plan(documents.value, head, count, backup, data)), heads;
    }

    /** The place of the migrated original holds something else. */
    static ghost predicate BackupTaken(d: Disk, legacy: bool, document: Option<Hash>) {
      && legacy && document.Some? && LegacyFile(document.value) in d.files
      && Some(d.files[LegacyFile(document.value)]) != d.ledger
    }

    /**
     * Why a write must refuse: the state is not permitted, a run to archive is uncertain, a document is too
     * large, or a file with the name of one of its documents is not that document.
     */
    ghost predicate Blocked(s: State)
      requires s.Coherent()
      reads this, s
    {
      || !Permitted(s) || Uncertain(s.archived, s.runs)
      || TooLarge(c, path, s.head, s.archived, s.meta, s.runs, if s.legacy then s.document else s.backup)
      || Taken(c, disk.files, s.head, s.archived, s.runs) || BackupTaken(disk, s.legacy, s.document)
    }

    /** Create the folder, keep a migrated original, publish the segments; the ledger is not touched. */
    method PublishFiles(s: State, plan: Plan, ghost heads: seq<Option<Hash>>, risky: bool) returns (r: Outcome)
      requires Lawful(c) && Current(s) && (s.legacy ==> s.document.Some?)
      requires HeadsOf(c, heads, s.archived, s.runs) && SegmentsOf(c, s.archived, s.runs, plan.documents, heads)
      requires plan.backup == (if s.legacy then s.document else s.backup)
      requires !s.legacy ==> BackupIntact(c, disk.files, s.backup)
      modifies this`disk
      ensures !risky ==> r != Crashed
      ensures disk.ledger == old(disk).ledger
      ensures forall n :: n in old(disk).files ==> n in disk.files && disk.files[n] == old(disk).files[n]
      ensures r == Done ==>
                disk.folder && Published(c, disk.files, heads, s.archived, s.runs) && BackupIntact(c, disk.files, plan.backup)
      ensures r == Done && s.legacy ==> LegacyFile(s.document.value) in disk.files
                                        && Some(disk.files[LegacyFile(s.document.value)]) == disk.ledger
      ensures r == Refused ==>
                AnyOccupied(old(disk).files, plan.documents) || BackupTaken(old(disk), s.legacy, s.document)
    {
      if !disk.folder {
        disk := disk.(folder := true);
        var up := Survives(risky);
        if !up {
          return Crashed;
        }
      }
      if s.legacy {
        r := Immutable(LegacyFile(plan.backup.value), disk.ledger.value, risky);
        if r != Done {
          return;
        }
      }
      ghost var now := disk.files;
      r := PublishSegments(s.archived, s.runs, plan.documents, heads, risky);
      if r == Refused {
        ghost var k :| 0 <= k < |plan.documents| && Occupied(now, plan.documents[k]);
        OccupiedBefore(old(disk).files, now, plan.documents[k]);
      }
    }

    lemma OccupiedIsTaken(files: map<Name, Bytes>, plan: Plan, heads: seq<Option<Hash>>, start: nat, runs: seq<Run>, meta: Meta)
      requires HeadsOf(c, heads, start, runs) && Planned(c, path, start, meta, runs, plan, heads)
      ensures AnyOccupied(files, plan.documents) <==> Taken(c, files, heads[0], start, runs)
    {
      if k :| 0 <= k < |plan.documents| && Occupied(files, plan.documents[k]) {
        PlannedDocument(c, start, runs, plan.documents, heads, k);
      }
      if Taken(c, files, heads[0], start, runs) {
        var i: nat :| start <= i < |runs| - 1
                      && var data := NewSegment(c, heads[0], start, runs, i);
                         SegmentFile(c.sha(data)) in files && files[SegmentFile(c.sha(data))] != data;
        PlannedDocument(c, start, runs, plan.documents, heads, i - start);
        assert Occupied(files, plan.documents[i - start]);
      }
    }

    /** Once all segments are published, none of their places had been taken. */
    lemma PublishedWasFree(before: map<Name, Bytes>, after: map<Name, Bytes>, plan: Plan, heads: seq<Option<Hash>>,
                           start: nat, runs: seq<Run>, meta: Meta)
      requires HeadsOf(c, heads, start, runs) && Planned(c, path, start, meta, runs, plan, heads)
      requires Published(c, after, heads, start, runs) && forall n :: n in before ==> n in after && after[n] == before[n]
      ensures !AnyOccupied(before, plan.documents)
    {
      forall k | 0 <= k < |plan.documents|
        ensures !Occupied(before, plan.documents[k])
      {
        assert Linked(c, after, heads[k], start + k, runs[start + k]);
      }
    }

    /** What the document a state was read from has established about the archive. */
    lemma HeldParts(s: State)
      requires Holds(s) && Current(s) && ReadsBack(c)
      ensures Chain(c, disk.files, s.head, s.archived) == Some(s.boundRuns[..s.archived])
      ensures if s.head.Some? then c.isDigest(s.head.value) && s.archived > 0 else s.archived == 0
      ensures if s.legacy then s.document.Some? && c.isDigest(s.document.value)
              else BackupIntact(c, disk.files, s.backup) && (s.backup.Some? ==> c.isDigest(s.backup.value))
    {
      if disk.ledger.Some? {
        AdmittedParts(c, disk.ledger.value, disk.files, path);
        assert c.isDigest(c.sha(disk.ledger.value));
      }
    }

    /** The document the state was read from is what is on disk. */
    lemma HeldLedger(s: State)
      requires Holds(s)
      ensures Current(s) && disk.ledger.Some? ==>
                && Read(c, disk, path).Some? && s.metaBefore.Some?
                && Read(c, disk, path).value.runs == s.boundRuns && Read(c, disk, path).value.meta == s.boundMeta
    {
      if Current(s) && disk.ledger.Some? {
        assert c.sha(disk.ledger.value) == s.document.value;
      }
    }

    /** Everything that is checked or built before the first file is touched. */
    method PlanWrite(s: State) returns (plan: Option<Plan>, ghost heads: seq<Option<Hash>>)
      requires Holds(s) && Lawful(c)
      ensures plan.None? ==> Blocked(s)
      ensures plan.Some? ==>
                && Permitted(s) && s.prefixHash == CanonicalHash(c, s.runs[..s.protectedPrefix])
                && HeadsOf(c, heads, s.archived, s.runs) && heads[0] == s.head
                && Planned(c, path, s.archived, s.meta, s.runs, plan.value, heads)
                && plan.value.backup == (if s.legacy then s.document else s.backup)
                && (Blocked(s) <==> AnyOccupied(disk.files, plan.value.documents) || BackupTaken(disk, s.legacy, s.document))
    {
      heads := [];
      var ok := Check(s);
      if !ok {
        return None, heads;
      }
      plan, heads := MakePlan(s);
      ghost var backup := if s.legacy then s.document else s.backup;
      if plan.None? {
        StoppedBy(c, path, s.archived, s.meta, s.runs, backup, heads);
      } else {
        PlanFits(c, path, s.archived, s.meta, s.runs, plan.value, heads);
        OccupiedIsTaken(disk.files, plan.value, heads, s.archived, s.runs, s.meta);
      }
    }

    /** The first half of `write`: everything up to the manifest, which is not touched. */
    method Stage(s: State, risky: bool) returns (r: Outcome, plan: Plan)
      requires Holds(s) && Lawful(c)
      modifies this`disk
      ensures !risky ==> r != Crashed
      ensures disk.ledger == old(disk).ledger
      ensures forall n :: n in old(disk).files ==> n in disk.files && disk.files[n] == old(disk).files[n]
      ensures Read(c, old(disk), path).Some? ==> Read(c, disk, path) == Read(c, old(disk), path)
      ensures r == Refused ==> old(Blocked(s))
      ensures r == Done ==> !old(Blocked(s)) && disk.folder
      ensures r == Done ==>
                && Permitted(s) && s.prefixHash == CanonicalHash(c, s.runs[..s.protectedPrefix])
                && plan.count == Count(s.runs)
                && ReadBytes(c, plan.data, disk.files, path, false)
                   == Some(Loaded(s.meta, s.runs, plan.count, plan.head, plan.backup, false, c.sha(plan.data), path))
    {
      var made, heads := PlanWrite(s);
      if made.None? {
        return Refused, Plan([], None, 0, None, "");
      }
      plan := made.value;
      HeldParts(s);
      PermittedExtends(s);
      ghost var files := disk.files;
      r := PublishFiles(s, plan, heads, risky);
      Unchanged(disk.ledger, files, disk.files);
      if r == Done {
        PublishedWasFree(files, disk.files, plan, heads, s.archived, s.runs, s.meta);
        PublishedReads(c, files, disk.files, path, s.archived, s.meta, s.runs, plan, heads);
      }
    }

    /** The ledger a successful write makes durable. */
    ghost function Written(s: State): Loaded
      reads this, s
    {
      Loaded(s.meta, s.runs, Count(s.runs), s.head, s.backup, false, s.document.GetOr(""), path)
    }

    /**
     * `write`. Either the ledger on disk becomes exactly the state, or it reads as it did before;
     * a crash between the file writes leaves one of the two, never a mixture.
     */
    method Write(s: State, risky: bool) returns (r: Outcome)
      requires Holds(s) && Lawful(c)
      modifies this`disk, s
      ensures !risky ==> r != Crashed
      ensures s.runs == old(s.runs) && s.meta == old(s.meta)
      // Uninterrupted, it refuses if and only if it must.
      ensures r == Refused ==> old(Blocked(s))
      ensures r == Done ==> !old(Blocked(s)) && disk.folder
      ensures r == Done ==>
                && Read(c, disk, path) == Some(Written(s))
                && Holds(s) && s.document.Some? && s.origin == Some(path) && s.boundRuns == s.runs && s.boundMeta == s.meta
                && RunsExtend(old(s.boundRuns), s.runs)
                && (old(s.metaBefore).Some? ==> MetaExtends(old(s.boundMeta), s.meta))
      ensures r != Done ==> unchanged(s) && Holds(s)
      // Whatever other writers did meanwhile: an outdated state is refused, and what was on disk is extended.
      ensures r == Done ==> old(Current(s))
      ensures r == Done && old(disk).ledger.Some? ==>
                && Read(c, old(disk), path).Some?
                && RunsExtend(Read(c, old(disk), path).value.runs, s.runs)
                && MetaExtends(Read(c, old(disk), path).value.meta, s.meta)
      ensures Read(c, old(disk), path).Some? ==>
                && Read(c, disk, path).Some?
                && LedgerExtends(Read(c, old(disk), path).value, Read(c, disk, path).value)
      ensures forall n :: n in old(disk).files ==> n in disk.files && disk.files[n] == old(disk).files[n]
      ensures r == Refused ==> disk.ledger == old(disk).ledger
      ensures r != Done ==>
                || (disk.ledger == old(disk).ledger
                    && (Read(c, old(disk), path).Some? ==> Read(c, disk, path) == Read(c, old(disk), path)))
                || (r == Crashed && Read(c, disk, path).Some?
                    && Read(c, disk, path).value.runs == s.runs && Read(c, disk, path).value.meta == s.meta)
    {
      var plan;
      label Start:
      if Read(c, disk, path).Some? {
        ExtendsItself(Read(c, disk, path).value);
      }
      HeldLedger(s);
      r, plan := Stage(s, risky);
      StillHolds@Start(s);
      if r != Done {
        return;
      }
      PermittedExtends(s);
      disk := disk.(ledger := Some(plan.data));
      var up := Survives(risky);
      if !up {
        return Crashed;
      }
      s.Commit(path, plan, c.sha(plan.data));
      return Done;
    }

    /** A state that has been left alone still stands for its document. */
    twostate lemma StillHolds(s: State)
      requires old(Holds(s)) && unchanged(s)
      requires forall n :: n in old(disk).files ==> n in disk.files && disk.files[n] == old(disk).files[n]
      ensures Holds(s)
    {
      if s.document.Some? && s.origin == Some(path) {
        forall data: Bytes | c.sha(data) == s.document.value
          ensures ReadBytes(c, data, disk.files, path, false) == ReadBytes(c, data, old(disk).files, path, false)
        {
          ReadSurvives(c, data, old(disk).files, disk.files, path);
        }
      }
    }

    /** A new writer: it reads the ledger on disk, or starts an empty one. */
    method Join(open: set<State>) returns (more: set<State>)
      requires Lawful(c) && (forall t :: t in open ==> Holds(t))
      ensures forall t :: t in more ==> Holds(t) && (t in open || fresh(t))
    {
      more := open;
      var read: bool := *;
      if read {
        var s := Open();
        if s != null {
          more := more + {s};
        }
      } else {
        var s := new State.Empty(c);
        more := more + {s};
      }
    }

    /** One writer changes its state in any way and writes it; a crash ends that writer. */
    method Revise(s: State, open: set<State>) returns (left: set<State>)
      requires Lawful(c) && s in open && (forall t :: t in open ==> Holds(t))
      modifies this`disk, s
      ensures left <= open && (forall t :: t in left ==> Holds(t))
      ensures Read(c, old(disk), path).Some? ==>
                && Read(c, disk, path).Some?
                && LedgerExtends(Read(c, old(disk), path).value, Read(c, disk, path).value)
    {
      s.runs, s.meta := *, *;
      label Edited:
      var r := Write(s, true);
      forall t | t in open && t != s
        ensures Holds(t)
      {
        StillHolds@Edited(t);
      }
      left := if r == Crashed then open - {s} else open;
    }

    /**
     * Any number of writers, each working from what it read at some time and changing it in any way. In
     * the sequence of all ledgers that were ever on disk each one keeps everything of the ones before.
     */
    method Sessions(steps: nat) returns (ghost history: seq<Loaded>)
      requires Lawful(c)
      modifies this`disk
      ensures Read(c, old(disk), path).Some? ==> history != [] && Some(history[0]) == Read(c, old(disk), path)
      ensures Chronicle(history, Read(c, disk, path))
      ensures forall i, j :: 0 <= i <= j < |history| ==> LedgerKept(history[i], history[j])
    {
      history := Recorded([], Read(c, disk, path));
      ghost var first := history;
      var open: set<State> := {};
      for step := 0 to steps
        invariant forall t :: t in open ==> Holds(t) && fresh(t)
        invariant Chronicle(history, Read(c, disk, path)) && first <= history
      {
        var joins: bool := *;
        if joins || open == {} {
          open := Join(open);
        } else {
          var s :| s in open;
          ghost var before := Read(c, disk, path);
          open := Revise(s, open);
          RecordedFurther(history, before, Read(c, disk, path));
          history := Recorded(history, Read(c, disk, path));
        }
      }
      forall i, j | 0 <= i <= j < |history|
        ensures LedgerKept(history[i], history[j])
      {
        HistoriesOnlyGrow(history, i, j);
      }
    }

    /** Files have only been added, so the ledger on disk still reads as it did. */
    lemma Unchanged(ledger: Option<Bytes>, files: map<Name, Bytes>, more: map<Name, Bytes>)
      requires forall n :: n in files ==> n in more && more[n] == files[n]
      ensures ledger.Some? && ReadBytes(c, ledger.value, files, path, false).Some? ==>
                ReadBytes(c, ledger.value, more, path, false) == ReadBytes(c, ledger.value, files, path, false)
    {
      if ledger.Some? && ReadBytes(c, ledger.value, files, path, false).Some? {
        ReadSurvives(c, ledger.value, files, more, path);
      }
    }
  }
}
