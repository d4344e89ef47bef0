/** The single-checkpoint store of scripts/current_checkpoint_store.py. */
module CheckpointStore {
  // One durable checkpoint is replaced through four transient files. The file system is a record of
  // the files of the store's directory. Every file step is atomic or leaves a prefix of what was being
  // written, and the process may die after any of them.

  import opened Common

  const MAX_BYTES: nat := 256 * 1024 * 1024
  const MAX_METADATA_BYTES: nat := 1024 * 1024

  type Bytes = seq<bv8>

  /** SHA-256 seen as an injective function: a digest determines the bytes it was taken from. */
  datatype Digest = Sha256(preimage: Bytes)

  /** The publication intent: the digest replaced (if any) and the digest that replaces it. */
  datatype Intent = Intent(before: Option<Digest>, after: Digest)

  /** A metadata file: its size and the well-formed intent it decodes to, if it is one. */
  datatype Note = Note(size: nat, intent: Option<Intent>)

  /** What run.json says. `workerActive` is a recorded writer that has neither stopped nor died. */
  datatype RunState = RunState(
    importing: bool, candidate: Option<Digest>, workerActive: bool, reconciled: Option<Digest>)

  /** The owned temporary run: an unreadable or foreign run.json is `None`. */
  datatype Run = Run(state: Option<RunState>, candidate: Option<Bytes>)

  datatype Files = Files(
    current: Option<Bytes>, next: Option<Bytes>, previous: Option<Bytes>,
    intent: Option<Note>, intentNext: Option<Note>, run: Option<Run>, strangers: set<string>)

  predicate Regular(file: Bytes) { |file| <= MAX_BYTES }

  function DigestOf(file: Option<Bytes>): Option<Digest> {
    if file.Some? then Some(Sha256(file.value)) else None
  }

  /** The sizes of the two texts `json.dumps` can produce for an intent. */
  function IntentNote(before: Option<Digest>, after: Digest): Note {
    Note(if before.Some? then 168 else 106, Some(Intent(before, after)))
  }

  /** Nothing in flight: only `current`, the run directory and the lock remain. */
  predicate Settled(f: Files) {
    f.next.None? && f.previous.None? && f.intent.None? && f.intentNext.None?
  }

  /** An intent file only ever appears by renaming INTENT_NEXT, so the two never coexist. */
  predicate Consistent(f: Files) {
    f.intent.Some? ==> f.intentNext.None?
  }

  function RunStateOf(f: Files): Option<RunState> {
    if f.run.Some? && f.run.value.state.Some? && !f.run.value.state.value.workerActive
    then f.run.value.state
    else None
  }

  /** The complete, admitted candidate an interrupted first import can restart from. */
  function ImportCandidate(f: Files, admit: Bytes -> bool): Option<Bytes> {
    var state := RunStateOf(f);
    if state.Some? && state.value.importing && state.value.candidate.Some?
       && f.run.value.candidate.Some?
       && admit(f.run.value.candidate.value)
       && Regular(f.run.value.candidate.value)
       && Sha256(f.run.value.candidate.value) == state.value.candidate.value
    then f.run.value.candidate
    else None
  }

  /**
   * A run whose import can be taken up again: no recorded writer is active, it is an import, and the
   * candidate on disk is admitted and has the very digest that was recorded for it.
   */
  ghost predicate Resumable(run: Run, admit: Bytes -> bool) {
    exists state: RunState, candidate: Bytes ::
      && run == Run(Some(state), Some(candidate))
      && !state.workerActive && state.importing && state.candidate == Some(Sha256(candidate))
      && admit(candidate) && |candidate| <= MAX_BYTES
  }

  /** A run that may be deleted: no recorded writer is active and `current` is what it was reconciled to. */
  ghost predicate Removable(run: Run, current: Bytes) {
    exists state: RunState ::
      run.state == Some(state) && !state.workerActive && state.reconciled == Some(Sha256(current))
  }

  /** The first-import recovery path is entered. */
  predicate ImportPending(f: Files) {
    f.intent.None? && f.previous.None? && f.current.None? && f.next.Some?
  }

  predicate SmallNote(n: Option<Note>) { n.Some? ==> n.value.size <= MAX_BYTES }

  predicate SmallFile(b: Option<Bytes>) { b.Some? ==> Regular(b.value) }

  // ---------------------------------------------------------------------
  // What recovery must come to, as a function of the files it finds
  // ---------------------------------------------------------------------

  /** The files after one complete recovery, or `None` when recovery refuses. */
  function Recovered(f: Files, admit: Bytes -> bool): Option<Files> {
    if f.intent.Some? then RolledForward(f, f.intent.value, admit)
    else if f.previous.Some? then None
    else if ImportPending(f) then
      var candidate := ImportCandidate(f, admit);
      if candidate.Some? && SmallFile(f.next) && SmallNote(f.intentNext)
      then Some(f.(current := candidate, next := None, intentNext := None))
      else None
    else if (f.current.Some? ==> admit(f.current.value)) && SmallFile(f.next) && SmallNote(f.intentNext)
    then Some(f.(next := None, intentNext := None))
    else None
  }

  /** The committed half: the intent names the only checkpoint that may become current. */
  function RolledForward(f: Files, note: Note, admit: Bytes -> bool): Option<Files> {
    if note.size > MAX_METADATA_BYTES || note.intent.None?
       || !SmallFile(f.current) || !SmallFile(f.next) || !SmallFile(f.previous)
    then None
    else
      var Intent(before, after) := note.intent.value;
      if DigestOf(f.current) == Some(after) then
        if f.next.None? && admit(f.current.value)
           && (f.previous.Some? ==> before.Some? && DigestOf(f.previous) == before)
        then Some(f.(previous := None, intent := None))
        else None
      else if DigestOf(f.next) == Some(after) && admit(f.next.value)
              && (if before.None? then f.current.None? && f.previous.None?
                  else if DigestOf(f.current) == before then admit(f.current.value)
                  else f.current.None? && DigestOf(f.previous) == before && admit(f.previous.value))
      then Some(f.(current := f.next, next := None, previous := None, intent := None))
      else None
  }

  /** An interrupted import is recovered exactly when its run is resumable, and then it publishes that candidate. */
  lemma ImportRecovers(f: Files, admit: Bytes -> bool)
    requires ImportPending(f)
    ensures Recovered(f, admit).Some? <==>
            f.run.Some? && Resumable(f.run.value, admit) && SmallFile(f.next) && SmallNote(f.intentNext)
    ensures Recovered(f, admit).Some? ==> Recovered(f, admit).value.current == f.run.value.candidate
  {
    if f.run.Some? && f.run.value.state.Some? && f.run.value.candidate.Some? {
      assert f.run.value == Run(Some(f.run.value.state.value), Some(f.run.value.candidate.value));
    }
  }

  /** Every successful recovery ends settled, on an admitted checkpoint that was complete on disk. */
  lemma RecoveryEndsSettled(f: Files, admit: Bytes -> bool)
    requires Recovered(f, admit).Some? && Consistent(f)
    ensures var g := Recovered(f, admit).value;
            && Settled(g) && g.run == f.run && g.strangers == f.strangers
            && (g.current.Some? ==>
                  && admit(g.current.value)
                  && (g.current == f.current || g.current == f.next
                      || (f.run.Some? && g.current == f.run.value.candidate)))
            && (f.current.Some? ==> g.current.Some?)
            && Recovered(g, admit) == Some(g)
  {
  }

  /**
   * A publication of `after` over `before` that was cut short, with all files it may have left behind:
   * partial NEXT and INTENT_NEXT before the intent rename, a partial or missing PREVIOUS after it, and
   * nothing once the intent is unlinked.
   */
  predicate CutShort(f: Files, before: Bytes, after: Bytes, committed: bool) {
    if !committed then
      f.intent.None? && f.previous.None? && f.current == Some(before)
      && SmallFile(f.next) && SmallNote(f.intentNext)
    else
      && before != after
      && (|| (&& f.intent == Some(IntentNote(Some(Sha256(before)), Sha256(after))) && f.intentNext.None?
              && (|| (f.current == Some(before) && f.next == Some(after) && SmallFile(f.previous))
                  || (f.current == Some(after) && f.next.None? && (f.previous == None || f.previous == Some(before)))))
          || (Settled(f) && f.current == Some(after)))
  }

  /** The intent rename alone decides which checkpoint survives. */
  lemma IntentDecides(f: Files, before: Bytes, after: Bytes, committed: bool, admit: Bytes -> bool)
    requires CutShort(f, before, after, committed)
    requires admit(before) && admit(after) && Regular(before) && Regular(after)
    ensures Recovered(f, admit) ==
            Some(f.(current := Some(if committed then after else before),
                    next := None, previous := None, intent := None, intentNext := None))
    ensures f.current == Some(before) || f.current == Some(after)
  {
  }

  /** `f` is settled `g` plus whatever an uncommitted publication may have left behind. */
  predicate Unpublished(g: Files, f: Files) {
    && f == g.(next := f.next, intentNext := f.intentNext)
    && SmallFile(f.next) && SmallNote(f.intentNext)
    && (f.next.None? ==> f.intentNext.None?)
  }

  /**
   * Uncommitted leftovers. Over an existing current they are always swept away. Over an empty
   * store they are swept only when the copy had not begun; otherwise recovery succeeds exactly
   * when an owned import run still holds the complete candidate.
   */
  lemma UncommittedLeftovers(g: Files, f: Files, admit: Bytes -> bool)
    requires Settled(g) && Unpublished(g, f)
    requires g.current.Some? ==> admit(g.current.value)
    ensures g.current.Some? || f.next.None? ==> Recovered(f, admit) == Some(g)
    ensures g.current.None? && f.next.Some? ==>
              && (Recovered(f, admit).Some? <==> ImportCandidate(g, admit).Some?)
              && (Recovered(f, admit).Some? ==>
                    Recovered(f, admit).value == g.(current := ImportCandidate(g, admit)))
  {
  }

  /**
   * The window of the first-import path: the partial NEXT is unlinked and the copy is not begun again.
   * INTENT_NEXT may still be there or already be unlinked.
   */
  predicate InImportWindow(f: Files, now: Files) {
    ImportPending(f) && now.next.None? && now == f.(next := None, intentNext := now.intentNext)
  }

  /**
   * In the window, and whichever of its disks it is, recovery settles on the empty store and not on the
   * import, although the complete candidate is still in the run directory.
   */
  lemma ImportWindow(f: Files, now: Files, admit: Bytes -> bool)
    requires InImportWindow(f, now) && Recovered(f, admit).Some? && SmallNote(now.intentNext)
    ensures var g := Recovered(f, admit).value;
            && g.current == f.run.value.candidate && g.current.Some?
            && Recovered(now, admit) == Some(g.(current := None))
            && Recovered(now, admit) != Recovered(f, admit)
  {
  }

  /**
   * How a crashed recovery relates to the disk it started from: a later recovery comes to the same
   * files, or this disk is in the first-import window. An interrupted import stays one, and an empty
   * store stays empty.
   */
  predicate SameFate(f: Files, now: Files, admit: Bytes -> bool) {
    && (|| Recovered(now, admit) == Recovered(f, admit)
        || (Recovered(f, admit).Some? && InImportWindow(f, now) && SmallNote(now.intentNext)))
    && (ImportPending(now) ==>
          && ImportPending(f)
          && now.(next := None, intentNext := None) == f.(next := None, intentNext := None))
    && (f.intent.None? && f.previous.None? && f.current.None? && f.next.None? ==>
          now == f || now == f.(intentNext := None))
  }

  /** One crash during an import falls either where nothing is decided otherwise, or right into the window. */
  predicate ExactWindow(f: Files, now: Files, admit: Bytes -> bool) {
    Recovered(now, admit) != Recovered(f, admit) ==>
      ImportPending(f) && (now == f.(next := None) || now == f.(next := None, intentNext := None))
  }

  /** Any number of crashed recoveries still leaves one of the two fates of the first disk. */
  lemma FatesCompose(a: Files, b: Files, c: Files, admit: Bytes -> bool)
    requires SameFate(a, b, admit) && SameFate(b, c, admit)
    ensures SameFate(a, c, admit)
  {
  }

  /** A candidate that the settled store `g` accepts in place of `expected`. */
  predicate Publishable(g: Files, candidate: Bytes, expected: Option<Digest>, admit: Bytes -> bool) {
    && SmallFile(g.current) && DigestOf(g.current) == expected
    && admit(candidate) && Regular(candidate)
  }

  // ---------------------------------------------------------------------
  // The store itself
  // ---------------------------------------------------------------------

  class Store {
    var disk: Files
    var locked: bool
    const admit: Bytes -> bool

    constructor (files: Files, validate: Bytes -> bool)
      ensures disk == files && admit == validate && !locked
    {
      disk, admit, locked := files, validate, false;
    }

    /** Take the writer lock (if it is free), refuse a directory with unknown entries, recover. */
    method Enter(lockFree: bool, risky: bool) returns (r: Outcome)
      modifies this
      ensures !risky ==> r != Crashed
      ensures r == Done ==> locked && Recovered(old(disk), admit) == Some(disk)
      ensures r != Done ==> !locked
      // Another writer's lock, or an entry that does not belong here: nothing is touched.
      ensures !lockFree || old(disk).strangers != {} ==> r == Refused && disk == old(disk)
      ensures !risky ==> (r == Done <==> lockFree && old(disk).strangers == {} && Recovered(old(disk), admit).Some?)
      ensures Consistent(old(disk)) ==> Consistent(disk)
      ensures disk.run == old(disk).run && disk.strangers == old(disk).strangers
      ensures r == Refused && old(Consistent(disk)) ==>
                || disk == old(disk)
                || (Recovered(old(disk), admit).None? && Recovered(disk, admit).None?
                    && disk == old(disk).(next := None))
      ensures r == Refused ==> !lockFree || old(disk).strangers != {} || Recovered(old(disk), admit).None?
      ensures r == Crashed && Consistent(old(disk)) ==>
                SameFate(old(disk), disk, admit) && ExactWindow(old(disk), disk, admit)
      ensures r == Crashed && old(disk).current.Some? ==>
                || disk.current == old(disk).current
                || (Recovered(old(disk), admit).Some? && disk.current == Recovered(old(disk), admit).value.current)
    {
      locked := false;
      if !lockFree || disk.strangers != {} {
        return Refused;
      }
      locked := true;
      r := Recover(risky);
      if r != Done {
        locked := false;
      }
    }

    method Recover(risky: bool) returns (r: Outcome)
      modifies this`disk
      decreases if ImportPending(disk) then 4 else 1
      ensures !risky ==> r != Crashed
      ensures !locked ==> r == Refused && disk == old(disk)
      ensures r == Done ==> Recovered(old(disk), admit) == Some(disk)
      ensures r == Refused && locked ==>
                && Recovered(old(disk), admit).None? && Recovered(disk, admit).None?
                && (disk == old(disk) || disk == old(disk).(next := None))
      ensures r == Crashed && Consistent(old(disk)) ==>
                SameFate(old(disk), disk, admit) && ExactWindow(old(disk), disk, admit)
      ensures r == Crashed && Settled(old(disk)) ==> disk == old(disk)
      ensures r == Crashed && old(disk).intent.Some? ==>
                forall b, a :: CutShort(old(disk), b, a, true) && Regular(b) ==> CutShort(disk, b, a, true)
      // No crash point exposes a missing or partial current.
      ensures r == Crashed && old(disk).current.Some? ==>
                || disk.current == old(disk).current
                || (Recovered(old(disk), admit).Some? && disk.current == Recovered(old(disk), admit).value.current)
      ensures Consistent(old(disk)) ==> Consistent(disk)
      ensures disk.run == old(disk).run && disk.strangers == old(disk).strangers
    {
      if !locked {
        return Refused;
      }
      var up := Survives(risky);
      if !up {
        return Crashed;
      }
      if disk.intent.Some? {
        r := RollForward(risky);
        return;
      }
      if disk.previous.Some? {
        return Refused;
      }
      if disk.current.Some? {
        if !admit(disk.current.value) {
          return Refused;
        }
      } else if disk.next.Some? {
        r := ResumeImport(risky);
        return;
      }
      if disk.next.Some? {
        if !Regular(disk.next.value) {
          return Refused;
        }
        disk := disk.(next := None);
        up := Survives(risky);
        if !up {
          return Crashed;
        }
      }
      if disk.intentNext.Some? {
        if disk.intentNext.value.size > MAX_BYTES {
          return Refused;
        }
        disk := disk.(intentNext := None);
        up := Survives(risky);
        if !up {
          return Crashed;
        }
      }
      return Done;
    }

    /** The branch of `recover` for an interrupted first import: publish the retained candidate again. */
    method ResumeImport(risky: bool) returns (r: Outcome)
      requires locked && ImportPending(disk)
      modifies this`disk
      decreases 3
      ensures !risky ==> r != Crashed
      ensures r == Done ==> Recovered(old(disk), admit) == Some(disk)
      ensures r == Done ==>
                && old(disk).run.Some? && Resumable(old(disk).run.value, admit)
                && disk.current == old(disk).run.value.candidate
      ensures r == Refused ==>
                && Recovered(old(disk), admit).None? && Recovered(disk, admit).None?
                && (disk == old(disk) || disk == old(disk).(next := None))
      ensures r == Crashed && Consistent(old(disk)) ==>
                SameFate(old(disk), disk, admit) && ExactWindow(old(disk), disk, admit)
      ensures Consistent(disk)
      ensures disk.run == old(disk).run && disk.strangers == old(disk).strangers
    {
      ImportRecovers(disk, admit);
      var state := RunStateOf(disk);
      if state.None? || !state.value.importing || state.value.candidate.None? {
        return Refused;
      }
      if disk.run.value.candidate.None? || !admit(disk.run.value.candidate.value) {
        return Refused;
      }
      var candidate := disk.run.value.candidate.value;
      if !Regular(candidate) || Sha256(candidate) != state.value.candidate.value {
        return Refused;
      }
      if !Regular(disk.next.value) {
        return Refused;
      }
      disk := disk.(next := None);
      var up := Survives(risky);
      if !up {
        return Crashed;
      }
      if disk.intentNext.Some? {
        if disk.intentNext.value.size > MAX_BYTES {
          return Refused;
        }
        disk := disk.(intentNext := None);
        up := Survives(risky);
        if !up {
          return Crashed;
        }
      }
      ghost var committed;
      r, committed := Publish(candidate, None, risky);
    }

    /** The branch of `recover` for a committed publication. */
    method RollForward(risky: bool) returns (r: Outcome)
      requires locked && disk.intent.Some?
      modifies this`disk
      ensures !risky ==> r != Crashed
      ensures r == Done ==> Recovered(old(disk), admit) == Some(disk)
      ensures r == Refused ==> disk == old(disk) && Recovered(disk, admit).None?
      ensures r == Crashed && Consistent(old(disk)) ==>
                Recovered(disk, admit) == Recovered(old(disk), admit) && !ImportPending(disk)
      ensures r == Crashed ==> forall b, a :: CutShort(old(disk), b, a, true) && Regular(b) ==> CutShort(disk, b, a, true)
      ensures r == Crashed && old(disk).current.Some? ==>
                || disk.current == old(disk).current
                || (Recovered(old(disk), admit).Some? && disk.current == Recovered(old(disk), admit).value.current)
      ensures Consistent(old(disk)) ==> Consistent(disk)
      ensures disk.run == old(disk).run && disk.strangers == old(disk).strangers
    {
      var note := disk.intent.value;
      if note.size > MAX_METADATA_BYTES || note.intent.None? {
        return Refused;
      }
      var before, after := note.intent.value.before, note.intent.value.after;
      if !SmallFile(disk.current) || !SmallFile(disk.next) || !SmallFile(disk.previous) {
        return Refused;
      }
      var up: bool;
      if DigestOf(disk.current) != Some(after) {
        if DigestOf(disk.next) != Some(after) || !admit(disk.next.value) {
          return Refused;
        }
        if before.Some? {
          if DigestOf(disk.current) == before {
            if !admit(disk.current.value) {
              return Refused;
            }
            if DigestOf(disk.previous) != before {
              up := PreservePrior(risky);
              if !up {
                return Crashed;
              }
            }
          } else if disk.current.Some? || DigestOf(disk.previous) != before || !admit(disk.previous.value) {
            return Refused;
          }
        } else if disk.current.Some? || disk.previous.Some? {
          return Refused;
        }
        disk := disk.(current := disk.next, next := None);
        up := Survives(risky);
        if !up {
          return Crashed;
        }
      } else if disk.next.Some? {
        return Refused;
      }
      if !admit(disk.current.value) {
        return Refused;
      }
      if disk.previous.Some? {
        if before.None? || DigestOf(disk.previous) != before {
          return Refused;
        }
        disk := disk.(previous := None);
        up := Survives(risky);
        if !up {
          return Crashed;
        }
      }
      disk := disk.(intent := None);
      up := Survives(risky);
      if !up {
        return Crashed;
      }
      return Done;
    }

    /** Rebuild the transient copy of the current checkpoint: unlink a partial one, create, copy, sync. */
    method PreservePrior(risky: bool) returns (up: bool)
      requires disk.current.Some? && disk.previous != disk.current
      modifies this`disk
      ensures !risky ==> up
      ensures disk == old(disk).(previous := disk.previous)
      ensures up ==> disk.previous == disk.current
      ensures !up ==> || disk.previous == old(disk).previous || disk.previous.None?
                      || disk.previous.value <= disk.current.value
    {
      if disk.previous.Some? {
        disk := disk.(previous := None);
        up := Survives(risky);
        if !up {
          return false;
        }
      }
      var torn :| 0 <= torn <= |disk.current.value|;
      disk := disk.(previous := Some(disk.current.value[..torn]));
      up := Survives(risky);
      if !up {
        return false;
      }
      disk := disk.(previous := disk.current);
      up := Survives(risky);
    }

    /** The file steps of a publication up to the intent rename, which `committed` records. */
    method StageIntent(candidate: Bytes, risky: bool) returns (r: Outcome, ghost committed: bool)
      requires disk.next.None? && disk.intent.None? && Regular(candidate)
      modifies this`disk
      ensures !risky ==> r != Crashed
      ensures r == Done ==> committed
      ensures r == Refused ==> !committed && old(disk).intentNext.Some?
      ensures committed ==>
                && old(disk).intentNext.None?
                && disk == old(disk).(next := Some(candidate),
                                      intent := Some(IntentNote(DigestOf(old(disk).current), Sha256(candidate))))
      ensures !committed ==> disk == old(disk).(next := disk.next, intentNext := disk.intentNext)
      ensures r == Crashed && !committed && old(disk).intentNext.None? ==> Unpublished(old(disk), disk) && disk.next.Some?
    {
      var torn :| 0 <= torn <= |candidate|;
      disk := disk.(next := Some(candidate[..torn]));
      var up := Survives(risky);
      if !up {
        return Crashed, false;
      }
      disk := disk.(next := Some(candidate));
      up := Survives(risky);
      if !up {
        return Crashed, false;
      }
      if disk.intentNext.Some? {
        return Refused, false;
      }
      var note := IntentNote(DigestOf(disk.current), Sha256(candidate));
      var written :| 0 <= written < note.size;
      disk := disk.(intentNext := Some(Note(written, None)));
      up := Survives(risky);
      if !up {
        return Crashed, false;
      }
      disk := disk.(intentNext := Some(note));
      up := Survives(risky);
      if !up {
        return Crashed, false;
      }
      disk := disk.(intentNext := None, intent := Some(note));
      up := Survives(risky);
      return if up then Done else Crashed, true;
    }

    /**
     * Replace `expected` by `candidate`. `committed` records whether the intent rename happened:
     * from then on every recovery publishes the candidate, before it none does.
     */
    method Publish(candidate: Bytes, expected: Option<Digest>, risky: bool) returns (r: Outcome, ghost committed: bool)
      modifies this`disk
      decreases if ImportPending(disk) then 5 else 2
      ensures !risky ==> r != Crashed
      ensures !locked ==> r == Refused && disk == old(disk)
      ensures r == Done ==>
                && Recovered(old(disk), admit).Some?
                && Publishable(Recovered(old(disk), admit).value, candidate, expected, admit)
                && disk == Recovered(old(disk), admit).value.(current := Some(candidate))
      ensures r == Refused && locked && Consistent(old(disk)) ==>
                if Recovered(old(disk), admit).None?
                then disk == old(disk) || disk == old(disk).(next := None)
                else && !Publishable(Recovered(old(disk), admit).value, candidate, expected, admit)
                     && Recovered(old(disk), admit) == Some(disk)
      ensures committed ==>
                && Recovered(old(disk), admit).Some?
                && Publishable(Recovered(old(disk), admit).value, candidate, expected, admit)
      ensures r == Crashed && committed && Consistent(old(disk)) ==>
                Recovered(disk, admit) == Some(Recovered(old(disk), admit).value.(current := Some(candidate)))
                && !ImportPending(disk)
      ensures r == Crashed && !committed && Consistent(old(disk)) ==>
                || (SameFate(old(disk), disk, admit) && ExactWindow(old(disk), disk, admit))
                || (Recovered(old(disk), admit).Some? && Unpublished(Recovered(old(disk), admit).value, disk))
      // Over a settled store every crash point is one of the disks `CutShort` describes.
      ensures r == Crashed && Settled(old(disk)) && old(disk).current.Some? && Regular(old(disk).current.value) ==>
                CutShort(disk, old(disk).current.value, candidate, committed)
      ensures r == Crashed && old(disk).current.Some? && Consistent(old(disk)) ==>
                || disk.current == old(disk).current || disk.current == Some(candidate)
                || (Recovered(old(disk), admit).Some? && disk.current == Recovered(old(disk), admit).value.current)
      ensures Consistent(old(disk)) ==> Consistent(disk)
      ensures disk.run == old(disk).run && disk.strangers == old(disk).strangers
    {
      committed := false;
      if !locked {
        return Refused, false;
      }
      r := Recover(risky);
      if r != Done {
        return;
      }
      ghost var g := disk;
      if !SmallFile(disk.current) || DigestOf(disk.current) != expected {
        return Refused, false;
      }
      if !admit(candidate) || !Regular(candidate) {
        return Refused, false;
      }
      var after := Sha256(candidate);
      if DigestOf(disk.current) == Some(after) {
        return Done, false;
      }
      r, committed := StageIntent(candidate, risky);
      if committed {
        assert Recovered(disk, admit) == Some(g.(current := Some(candidate)));
      }
      if r != Done {
        return;
      }
      r := Recover(risky);
    }

    /** Delete the reconciled temporary run. `rmtree` is not atomic: a crash leaves part of it. */
    method RemoveRun(expected: Digest, risky: bool) returns (r: Outcome)
      modifies this`disk
      ensures !risky ==> r != Crashed
      ensures disk == old(disk).(run := disk.run)
      ensures r == Done ==> disk.run.None?
      ensures r == Refused ==> disk == old(disk)
      ensures r == Refused <==>
                !(&& locked && old(disk).current.Some? && Sha256(old(disk).current.value) == expected
                  && |old(disk).current.value| <= MAX_BYTES && admit(old(disk).current.value)
                  && old(disk).run.Some? && Removable(old(disk).run.value, old(disk).current.value))
    {
      if !locked || DigestOf(disk.current) != Some(expected) || !SmallFile(disk.current)
         || !admit(disk.current.value) {
        return Refused;
      }
      var state := RunStateOf(disk);
      if state.None? || state.value.reconciled != Some(expected) {
        return Refused;
      }
      var first: bool := *;
      disk := disk.(run := Some(if first then disk.run.value.(state := None) else disk.run.value.(candidate := None)));
      var up := Survives(risky);
      if !up {
        return Crashed;
      }
      disk := disk.(run := Some(Run(None, None)));
      up := Survives(risky);
      if !up {
        return Crashed;
      }
      disk := disk.(run := None);
      up := Survives(risky);
      return if up then Done else Crashed;
    }

    /** Restart `crashes` times, dying inside recovery each time, then once without interruption. */
    method Reopen(crashes: nat) returns (r: Outcome)
      requires Consistent(disk) && disk.strangers == {}
      modifies this
      ensures r != Crashed
      ensures r == Done ==> locked
      ensures r == Done && !ImportPending(old(disk)) ==> Recovered(old(disk), admit) == Some(disk)
      ensures r == Done && ImportPending(old(disk)) ==>
                && Recovered(old(disk), admit).Some?
                && (Some(disk) == Recovered(old(disk), admit)
                    || disk == old(disk).(next := None, intentNext := None))
      ensures Recovered(old(disk), admit).Some? ==> r == Done
    {
      ghost var start := disk;
      var attempt := 0;
      while attempt < crashes
        invariant Consistent(disk) && disk.strangers == {}
        invariant Recovered(start, admit).Some? ==> SameFate(start, disk, admit)
        invariant Recovered(start, admit).Some? <==> Recovered(disk, admit).Some?
      {
        ghost var now := disk;
        r := Enter(true, true);
        attempt := attempt + 1;
      }
      r := Enter(true, false);
    }

    /**
     * The whole story of one replacement: publish over a settled, admitted current, die anywhere,
     * die again in any number of recoveries, and recover once. The store is settled on exactly the
     * old checkpoint or exactly the new one, and the intent rename decides which.
     */
    method PublishThroughCrashes(candidate: Bytes, crashes: nat) returns (r: Outcome, ghost committed: bool)
      requires locked && Settled(disk) && disk.strangers == {}
      requires disk.current.Some? && admit(disk.current.value) && Regular(disk.current.value)
      modifies this
      ensures committed ==> admit(candidate) && Regular(candidate) && disk == old(disk).(current := Some(candidate))
      ensures !committed && r != Done ==> disk == old(disk)
      ensures r == Done ==> disk == old(disk).(current := Some(candidate))
      ensures Settled(disk)
    {
      r, committed := Publish(candidate, DigestOf(disk.current), true);
      if r == Crashed {
        ghost var before := old(disk).current.value;
        IntentDecides(disk, before, if committed then candidate else before, committed, admit);
        var again := Reopen(crashes);
      }
    }
  }
}
