/** The two-resource promotion of scripts/build_geneforge_creature_parts.py. */
module PairTransaction {
  // A staging tree and a recipe file are replaced together under a marker file, and recovery decides by
  // digests alone which generation to keep. Renames are atomic; removing a tree is not, and leaves any
  // part of it. The process may die after any file step, and any step of a promotion may raise.

  import opened Common

  type Bytes = seq<bv8>
  type Tree = map<string, Bytes>

  /** SHA-256 of a file, and the length-prefixed digest of a whole tree, as injective functions. */
  datatype Digest = Sha256(preimage: Bytes)
  datatype TreeDigest = TreeSha256(preimage: Tree)

  const RECEIPT := "build_receipt.json"

  datatype Phase = Prepared | StagingBackedUp | StagingPromoted | RecipePromoted | Unknown

  /** The digests of one generation: the recipe it declares, its recipe file, its receipt, its tree. */
  datatype Generation = Generation(recipe: string, recipeFile: Digest, receiptFile: Digest, tree: TreeDigest)

  datatype Marker = Marker(phase: Phase, prior: Generation, fresher: Generation)

  datatype MarkerFile = Unreadable | Readable(marker: Marker)

  datatype Disk = Disk(
    staging: Option<Tree>, temporary: Option<Tree>, backup: Option<Tree>,
    output: Option<Bytes>, recipeTemporary: Option<Bytes>, recipeBackup: Option<Bytes>,
    marker: Option<MarkerFile>)

  /** `_pair_recipe_digest`: the recipe digest a JSON document declares, `None` where reading it raises. */
  type Declares = Bytes -> Option<string>

  predicate TreeMatches(tree: Option<Tree>, g: Generation, declares: Declares) {
    && tree.Some? && RECEIPT in tree.value
    && Sha256(tree.value[RECEIPT]) == g.receiptFile
    && declares(tree.value[RECEIPT]) == Some(g.recipe)
    && TreeSha256(tree.value) == g.tree
  }

  /** The receipt has the recorded digest but cannot be read: the check raises instead of answering. */
  predicate TreeRaises(tree: Option<Tree>, g: Generation, declares: Declares) {
    && tree.Some? && RECEIPT in tree.value
    && Sha256(tree.value[RECEIPT]) == g.receiptFile
    && declares(tree.value[RECEIPT]).None?
  }

  predicate RecipeMatches(file: Option<Bytes>, g: Generation, declares: Declares) {
    && file.Some? && Sha256(file.value) == g.recipeFile && declares(file.value) == Some(g.recipe)
  }

  predicate RecipeRaises(file: Option<Bytes>, g: Generation, declares: Declares) {
    && file.Some? && Sha256(file.value) == g.recipeFile && declares(file.value).None?
  }

  predicate LivePair(d: Disk, g: Generation, declares: Declares) {
    TreeMatches(d.staging, g, declares) && RecipeMatches(d.output, g, declares)
  }

  /** A verified copy of each half of generation `g` exists in its live or its backup place. */
  predicate PairKept(d: Disk, g: Generation, declares: Declares) {
    && (TreeMatches(d.staging, g, declares) || TreeMatches(d.backup, g, declares))
    && (RecipeMatches(d.output, g, declares) || RecipeMatches(d.recipeBackup, g, declares))
  }

  predicate Cleared(d: Disk) {
    d.temporary.None? && d.backup.None? && d.recipeTemporary.None? && d.recipeBackup.None? && d.marker.None?
  }

  function Clear(d: Disk): Disk {
    d.(temporary := None, backup := None, recipeTemporary := None, recipeBackup := None, marker := None)
  }

  predicate AnyRaises(d: Disk, m: Marker, declares: Declares) {
    || TreeRaises(d.staging, m.fresher, declares) || RecipeRaises(d.output, m.fresher, declares)
    || TreeRaises(d.staging, m.prior, declares) || RecipeRaises(d.output, m.prior, declares)
    || (&& !LivePair(d, m.fresher, declares) && !LivePair(d, m.prior, declares)
        && (TreeRaises(d.backup, m.prior, declares) || RecipeRaises(d.recipeBackup, m.prior, declares)))
  }

  /** What recovery must come to: keep a complete live pair, else roll both halves back; then clear. */
  function Restored(d: Disk, declares: Declares): Option<Disk> {
    if d.marker.None? then Some(d)
    else if d.marker.value.Unreadable? || d.marker.value.marker.phase == Unknown then None
    else
      var m := d.marker.value.marker;
      if AnyRaises(d, m, declares) then None
      else if LivePair(d, m.fresher, declares) || LivePair(d, m.prior, declares) then Some(Clear(d))
      else if PairKept(d, m.prior, declares) then
        Some(Clear(d.(staging := if TreeMatches(d.staging, m.prior, declares) then d.staging else d.backup,
                      output := if RecipeMatches(d.output, m.prior, declares) then d.output else d.recipeBackup)))
      else None
  }

  /** No document with a recorded digest is unreadable: promotion reads them all before the marker. */
  predicate Declared(m: Marker, declares: Declares) {
    && declares(m.prior.receiptFile.preimage) == Some(m.prior.recipe)
    && declares(m.prior.recipeFile.preimage) == Some(m.prior.recipe)
    && declares(m.fresher.receiptFile.preimage) == Some(m.fresher.recipe)
    && declares(m.fresher.recipeFile.preimage) == Some(m.fresher.recipe)
  }

  /** A transaction is open, and it can still be completed or undone as a whole. */
  predicate Open(d: Disk, declares: Declares) {
    && d.marker.Some? && d.marker.value.Readable? && d.marker.value.marker.phase != Unknown
    && var m := d.marker.value.marker;
       && Declared(m, declares)
       && (LivePair(d, m.fresher, declares) || PairKept(d, m.prior, declares))
  }

  predicate Part(part: Tree, tree: Tree) {
    part.Keys <= tree.Keys && forall k :: k in part ==> part[k] == tree[k]
  }

  /** As `Open`, and in the order promotion works in: the recipe turns over only after the whole tree. */
  predicate Orderly(d: Disk, declares: Declares) {
    && Open(d, declares)
    && var m := d.marker.value.marker;
       || LivePair(d, m.fresher, declares)
       || (&& RecipeMatches(d.output, m.prior, declares)
           && (|| d.staging.None? || TreeMatches(d.staging, m.prior, declares)
               || Part(d.staging.value, m.fresher.tree.preimage)))
  }

  /** The generation an open transaction will come to. */
  function Fate(d: Disk, declares: Declares): Generation
    requires Open(d, declares)
  {
    var m := d.marker.value.marker;
    if LivePair(d, m.fresher, declares) then m.fresher else m.prior
  }

  /** An open transaction always resolves, both halves to one generation, with nothing left over. */
  lemma OpenResolves(d: Disk, declares: Declares)
    requires Open(d, declares)
    ensures var r := Restored(d, declares);
            r.Some? && Cleared(r.value) && LivePair(r.value, Fate(d, declares), declares)
  {
  }

  /** Recovery never reads which phase the marker recorded. */
  lemma PhaseIsIrrelevant(d: Disk, m: Marker, p: Phase, declares: Declares)
    requires d.marker == Some(Readable(m)) && m.phase != Unknown && p != Unknown
    ensures Restored(d.(marker := Some(Readable(m.(phase := p)))), declares) == Restored(d, declares)
  {
    var e := d.(marker := Some(Readable(m.(phase := p))));
    assert AnyRaises(e, m.(phase := p), declares) == AnyRaises(d, m, declares);
  }

  /** A recorded digest names one tree and one recipe: matching is being that very generation. */
  lemma MatchingIsIdentity(t: Option<Tree>, f: Option<Bytes>, g: Generation, declares: Declares)
    ensures TreeMatches(t, g, declares) ==> t == Some(g.tree.preimage)
    ensures RecipeMatches(f, g, declares) ==> f == Some(g.recipeFile.preimage)
  {
  }

  /** The digests of one generation belong together, and its documents can be read. */
  predicate Genuine(g: Generation, declares: Declares) {
    && RECEIPT in g.tree.preimage && g.receiptFile == Sha256(g.tree.preimage[RECEIPT])
    && declares(g.receiptFile.preimage) == Some(g.recipe) && declares(g.recipeFile.preimage) == Some(g.recipe)
  }

  /**
   * When recovery succeeds, on the contents of the places alone: the fresher pair is live, or each half of
   * the prior one is in its live or its backup place. Otherwise it refuses.
   */
  lemma RecoversExactly(d: Disk, m: Marker, declares: Declares)
    requires d.marker == Some(Readable(m)) && m.phase != Unknown && Genuine(m.prior, declares) && Genuine(m.fresher, declares)
    ensures Restored(d, declares).Some? <==>
            var priorTree, priorRecipe := Some(m.prior.tree.preimage), Some(m.prior.recipeFile.preimage);
            || (d.staging == Some(m.fresher.tree.preimage) && d.output == Some(m.fresher.recipeFile.preimage))
            || ((d.staging == priorTree || d.backup == priorTree) && (d.output == priorRecipe || d.recipeBackup == priorRecipe))
  {
    Identity(d.staging, m.fresher, declares);
    Identity(d.staging, m.prior, declares);
    Identity(d.backup, m.prior, declares);
    RecipeIdentity(d.output, m.fresher, declares);
    RecipeIdentity(d.output, m.prior, declares);
    RecipeIdentity(d.recipeBackup, m.prior, declares);
  }

  lemma Identity(t: Option<Tree>, g: Generation, declares: Declares)
    requires Genuine(g, declares)
    ensures TreeMatches(t, g, declares) <==> t == Some(g.tree.preimage)
    ensures !TreeRaises(t, g, declares)
  {
  }

  lemma RecipeIdentity(f: Option<Bytes>, g: Generation, declares: Declares)
    requires Genuine(g, declares)
    ensures RecipeMatches(f, g, declares) <==> f == Some(g.recipeFile.preimage)
    ensures !RecipeRaises(f, g, declares)
  {
  }

  /** The two ways a transaction may end: nothing promoted, or both halves; no operand and no marker left. */
  function PriorPair(d: Disk): Disk { Clear(d) }

  function FresherPair(d: Disk): Disk { Clear(d.(staging := d.temporary, output := d.recipeTemporary)) }

  class Workspace {
    var disk: Disk
    const declares: Declares

    constructor (d: Disk, f: Declares)
      ensures disk == d && declares == f
    {
      disk, declares := d, f;
    }

    /** Part of a tree, as a crash inside its removal leaves it. */
    method PartOf(tree: Tree) returns (part: Tree)
      ensures Part(part, tree)
    {
      var kept: set<string> := *;
      part := map k | k in tree && k in kept :: tree[k];
    }

    /** `os.replace` of a tree: the target must be free, or an empty directory. */
    method RenameBackup()
      requires disk.backup.Some? && (disk.staging.None? || disk.staging.value == map[])
      modifies this`disk
      ensures disk == old(disk).(staging := old(disk).backup, backup := None)
    {
      disk := disk.(staging := disk.backup, backup := None);
    }

    method Recover(risky: bool) returns (r: Outcome)
      modifies this`disk
      ensures !risky ==> r != Crashed
      ensures r == Done ==> Restored(old(disk), declares) == Some(disk)
      ensures r == Refused ==> Restored(old(disk), declares).None?
      ensures old(disk).marker.None? ==> r == Done
      // A crash leaves the transaction open on the same generations, or already resolved.
      ensures r == Crashed && Open(old(disk), declares) ==>
                || Restored(old(disk), declares) == Some(disk)
                || (Open(disk, declares) && disk.marker == old(disk).marker)
      // In the order promotion works in, a crash does not even change what the next recovery comes to.
      ensures r == Crashed && Orderly(old(disk), declares) ==>
                && Restored(disk, declares) == Restored(old(disk), declares)
                && (disk.marker.Some? ==> Orderly(disk, declares))
    {
      if disk.marker.None? {
        return Done;
      }
      var up := Survives(risky);
      if !up {
        return Crashed;
      }
      if disk.marker.value.Unreadable? || disk.marker.value.marker.phase == Unknown {
        return Refused;
      }
      var m := disk.marker.value.marker;
      if TreeRaises(disk.staging, m.fresher, declares) || RecipeRaises(disk.output, m.fresher, declares)
         || TreeRaises(disk.staging, m.prior, declares) || RecipeRaises(disk.output, m.prior, declares) {
        return Refused;
      }
      var freshStaging := TreeMatches(disk.staging, m.fresher, declares);
      var freshRecipe := RecipeMatches(disk.output, m.fresher, declares);
      var priorStaging := TreeMatches(disk.staging, m.prior, declares);
      var priorRecipe := RecipeMatches(disk.output, m.prior, declares);
      if !(freshStaging && freshRecipe) && !(priorStaging && priorRecipe) {
        r := RollBack(m, risky);
        if r != Done {
          return;
        }
      }
      r := ClearOperands(risky);
    }

    /** Put the backups back, the tree first. */
    method RollBack(m: Marker, risky: bool) returns (r: Outcome)
      requires disk.marker == Some(Readable(m)) && m.phase != Unknown
      requires !LivePair(disk, m.fresher, declares) && !LivePair(disk, m.prior, declares)
      requires !TreeRaises(disk.staging, m.fresher, declares) && !RecipeRaises(disk.output, m.fresher, declares)
      requires !TreeRaises(disk.staging, m.prior, declares) && !RecipeRaises(disk.output, m.prior, declares)
      modifies this`disk
      ensures !risky ==> r != Crashed
      ensures r == Done ==>
                && LivePair(disk, m.prior, declares)
                && Restored(old(disk), declares) == Some(Clear(disk)) && disk.marker == old(disk).marker
      ensures r == Refused ==> Restored(old(disk), declares).None?
      ensures r == Crashed && Open(old(disk), declares) ==> Open(disk, declares) && disk.marker == old(disk).marker
      ensures r == Crashed && Orderly(old(disk), declares) ==>
                Restored(disk, declares) == Restored(old(disk), declares) && Orderly(disk, declares)
    {
      if TreeRaises(disk.backup, m.prior, declares) || RecipeRaises(disk.recipeBackup, m.prior, declares) {
        return Refused;
      }
      var backupMatches := TreeMatches(disk.backup, m.prior, declares);
      var recipeBackupMatches := RecipeMatches(disk.recipeBackup, m.prior, declares);
      var priorRecipe := RecipeMatches(disk.output, m.prior, declares);
      var up: bool;
      if !TreeMatches(disk.staging, m.prior, declares) {
        if !backupMatches {
          return Refused;
        }
        if disk.staging.Some? {
          var part := PartOf(disk.staging.value);
          disk := disk.(staging := Some(part));
          up := Survives(risky);
          if !up {
            return Crashed;
          }
          disk := disk.(staging := None);
          up := Survives(risky);
          if !up {
            return Crashed;
          }
        }
        RenameBackup();
        up := Survives(risky);
        if !up {
          return Crashed;
        }
      }
      if !priorRecipe {
        if !recipeBackupMatches {
          return Refused;
        }
        disk := disk.(output := disk.recipeBackup, recipeBackup := None);
        up := Survives(risky);
        if !up {
          return Crashed;
        }
      }
      if !TreeMatches(disk.staging, m.prior, declares) || !RecipeMatches(disk.output, m.prior, declares) {
        return Refused;
      }
      return Done;
    }

    /** Remove the four operands in the order of the source, and the marker last. */
    method ClearOperands(risky: bool) returns (r: Outcome)
      requires disk.marker.Some?
      modifies this`disk
      ensures r != Refused
      ensures !risky ==> r != Crashed
      ensures r == Done ==> disk == Clear(old(disk))
      ensures disk.staging == old(disk).staging && disk.output == old(disk).output
      ensures disk.marker == old(disk).marker || disk == Clear(old(disk))
    {
      var up: bool;
      if disk.temporary.Some? {
        var part := PartOf(disk.temporary.value);
        disk := disk.(temporary := Some(part));
        up := Survives(risky);
        if !up {
          return Crashed;
        }
        disk := disk.(temporary := None);
        up := Survives(risky);
        if !up {
          return Crashed;
        }
      }
      if disk.backup.Some? {
        var part := PartOf(disk.backup.value);
        disk := disk.(backup := Some(part));
        up := Survives(risky);
        if !up {
          return Crashed;
        }
        disk := disk.(backup := None);
        up := Survives(risky);
        if !up {
          return Crashed;
        }
      }
      disk := disk.(recipeTemporary := None);
      up := Survives(risky);
      if !up {
        return Crashed;
      }
      disk := disk.(recipeBackup := None);
      up := Survives(risky);
      if !up {
        return Crashed;
      }
      disk := disk.(marker := None);
      up := Survives(risky);
      return if up then Done else Crashed;
    }

    /** The staging tree can be renamed into the backup place. */
    static predicate BackupFree(d: Disk) { d.backup.None? || d.backup.value == map[] }

    /** The generations a promotion would record for the operands it finds; `None` where reading them raises. */
    function Planned(d: Disk): (m: Option<Marker>)
      ensures m.Some? ==> Declared(m.value, declares) && LivePair(d, m.value.prior, declares)
      ensures m.Some? ==> Genuine(m.value.prior, declares) && Genuine(m.value.fresher, declares)
      ensures m.Some? ==> LivePair(d.(staging := d.temporary, output := d.recipeTemporary), m.value.fresher, declares)
    {
      if d.staging.Some? && RECEIPT in d.staging.value && d.temporary.Some? && RECEIPT in d.temporary.value
         && d.output.Some? && d.recipeTemporary.Some?
         && declares(d.output.value).Some? && declares(d.recipeTemporary.value).Some?
         && declares(d.staging.value[RECEIPT]) == declares(d.output.value)
         && declares(d.temporary.value[RECEIPT]) == declares(d.recipeTemporary.value)
      then Some(Marker(Prepared,
        Generation(declares(d.output.value).value, Sha256(d.output.value),
                   Sha256(d.staging.value[RECEIPT]), TreeSha256(d.staging.value)),
        Generation(declares(d.recipeTemporary.value).value, Sha256(d.recipeTemporary.value),
                   Sha256(d.temporary.value[RECEIPT]), TreeSha256(d.temporary.value))))
      else None
    }

    /** One step that may raise (an observer, a full disk) or be the last thing the process does. */
    method Attempt(risky: bool, faulty: bool) returns (r: Outcome)
      ensures !risky ==> r != Crashed
      ensures !faulty ==> r != Refused
      ensures !risky && !faulty ==> r == Done
    {
      var up := Survives(risky);
      var raised := Survives(faulty);
      return if !up then Crashed else if !raised then Refused else Done;
    }

    /**
     * How far the recorded phase may lag: it is written after the step it names, and the next step only
     * after that.
     */
    ghost predicate PhaseFits(d: Disk, committed: bool) {
      d.marker.Some? && d.marker.value.Readable? &&
      var phase := d.marker.value.marker.phase;
      if committed then phase == StagingPromoted || phase == RecipePromoted
      else if d.temporary.None? then phase == StagingBackedUp || phase == StagingPromoted
      else if d.staging.None? then phase == Prepared || phase == StagingBackedUp
      else phase == Prepared
    }

    /** A new phase text for the same transaction, replaced atomically. */
    method WritePhase(m: Marker, phase: Phase, risky: bool, faulty: bool) returns (r: Outcome)
      modifies this`disk
      ensures !risky ==> r != Crashed
      ensures disk == old(disk) || disk == old(disk).(marker := Some(Readable(m.(phase := phase))))
      ensures r == Done ==> disk.marker == Some(Readable(m.(phase := phase)))
      ensures !risky && !faulty ==> r == Done
    {
      r := Attempt(risky, faulty);
      if r == Done {
        disk := disk.(marker := Some(Readable(m.(phase := phase))));
        r := Attempt(risky, faulty);
      }
    }

    /**
     * The two sides of the recipe rename: after it recovery always keeps the new pair; before it, with the
     * tree already turned over, recovery keeps the new pair if and only if the two recipes are the same bytes.
     */
    lemma RecipeRenameDecides(d: Disk, m: Marker, phase: Phase)
      requires Planned(d) == Some(m) && d.recipeBackup == d.output && phase != Unknown
      ensures var before := d.(backup := d.staging, staging := d.temporary, temporary := None,
                               marker := Some(Readable(m.(phase := phase))));
              var after := before.(output := d.recipeTemporary, recipeTemporary := None);
              && Restored(after, declares) == Some(FresherPair(d))
              && (d.output != d.recipeTemporary ==> Restored(before, declares) == Some(PriorPair(d)))
              && (Restored(before, declares) == Some(FresherPair(d)) <==> d.output == d.recipeTemporary)
    {
    }

    /**
     * The body of the promotion's try block: four marker phases around three renames. `Refused` is a
     * step or observer that raised. `committed` records whether the recipe rename happened, `marked`
     * whether the marker was ever written.
     */
    method PromoteSteps(plan: Marker, risky: bool, faulty: bool)
      returns (r: Outcome, ghost committed: bool, ghost marked: bool)
      requires Planned(disk) == Some(plan) && disk.recipeBackup == disk.output && disk.marker.None?
      modifies this`disk
      ensures !risky ==> r != Crashed
      ensures r == Done ==> disk == FresherPair(old(disk))
      ensures !risky && !faulty && BackupFree(old(disk)) ==> r == Done
      ensures r != Done && disk.marker.None? ==> disk == if committed then FresherPair(old(disk)) else old(disk)
      ensures r != Done && disk.marker.Some? ==> PhaseFits(disk, committed)
      ensures (marked <==> committed || disk.marker.Some?) && (r == Done ==> committed)
      ensures r != Done && disk.marker.Some? ==>
                && Orderly(disk, declares)
                && disk.marker.value.marker.prior == plan.prior && disk.marker.value.marker.fresher == plan.fresher
                && (!committed ==> PairKept(disk, plan.prior, declares))
                && (|| Restored(disk, declares) == Some(PriorPair(old(disk)))
                    || Restored(disk, declares) == Some(FresherPair(old(disk))))
                && (old(disk).output != old(disk).recipeTemporary ==>
                      Restored(disk, declares) == Some(if committed then FresherPair(old(disk)) else PriorPair(old(disk))))
    {
      committed, marked := false, false;
      r := WritePhase(plan, Prepared, risky, faulty);
      marked := disk.marker.Some?;
      if r != Done {
        return;
      }
      if disk.backup.Some? && disk.backup.value != map[] {
        return Refused, false, true;  // a rename onto a directory that is not empty
      }
      disk := disk.(backup := disk.staging, staging := None);
      r := WritePhase(plan, StagingBackedUp, risky, faulty);
      if r != Done {
        return;
      }
      disk := disk.(staging := disk.temporary, temporary := None);
      r := WritePhase(plan, StagingPromoted, risky, faulty);
      if r != Done {
        return;
      }
      disk := disk.(output := disk.recipeTemporary, recipeTemporary := None);
      committed := true;
      r := WritePhase(plan, RecipePromoted, risky, faulty);
      if r != Done {
        return;
      }
      r := Recover(risky);
    }

    /** Promote the prepared pair; when a step raises, recover at once and raise again (`Refused`). */
    method Promote(risky: bool, faulty: bool) returns (r: Outcome, ghost committed: bool, ghost marked: bool)
      requires disk.marker.None?  // every caller has just recovered
      modifies this`disk
      ensures !risky ==> r != Crashed
      ensures r == Done ==> Planned(old(disk)).Some? && disk == FresherPair(old(disk))
      // Without a crash or a fault it succeeds whenever the operands can be read and the backup place is free.
      ensures !risky && !faulty && Planned(old(disk)).Some? && BackupFree(old(disk)) ==> r == Done
      // Before the marker nothing but the recipe backup has been touched.
      ensures !marked ==> r != Done && disk == old(disk).(recipeBackup := disk.recipeBackup)
      ensures marked && disk.marker.None? ==> disk == PriorPair(old(disk)) || disk == FresherPair(old(disk))
      ensures marked && disk.marker.None? && old(disk).output != old(disk).recipeTemporary ==>
                disk == if committed then FresherPair(old(disk)) else PriorPair(old(disk))
      ensures r == Refused ==> disk.marker.None?
      ensures r == Crashed && disk.marker.Some? ==>
                && Orderly(disk, declares)
                && (|| Restored(disk, declares) == Some(PriorPair(old(disk)))
                    || Restored(disk, declares) == Some(FresherPair(old(disk))))
      ensures r == Crashed && disk.marker.Some? && old(disk).output != old(disk).recipeTemporary ==>
                Restored(disk, declares) == Some(if committed then FresherPair(old(disk)) else PriorPair(old(disk)))
    {
      committed, marked := false, false;
      if disk.staging.None? || disk.temporary.None? || disk.output.None? || disk.recipeTemporary.None? {
        return Refused, false, false;
      }
      var torn :| 0 <= torn <= |disk.output.value|;
      disk := disk.(recipeBackup := Some(disk.output.value[..torn]));
      r := Attempt(risky, faulty);
      if r != Done {
        return;
      }
      disk := disk.(recipeBackup := disk.output);
      r := Attempt(risky, faulty);
      if r != Done {
        return;
      }
      var plan := Planned(disk);
      if plan.None? {
        return Refused, false, false;
      }
      r, committed, marked := PromoteSteps(plan.value, risky, faulty);
      if r == Refused && disk.marker.Some? {
        OpenResolves(disk, declares);
        r := Recover(risky);
        if r == Done {
          r := Outcome.Refused;
        }
      }
    }

    /**
     * The whole story of one promotion: promote, die or raise anywhere, die again in any number of
     * recoveries, and recover once. Both halves are the old generation or both are the new one, and
     * once the marker had been written nothing is left over.
     */
    method PromoteThroughCrashes(crashes: nat) returns (r: Outcome, ghost committed: bool, ghost marked: bool)
      requires disk.marker.None?
      modifies this`disk
      ensures !marked ==> r != Done && disk == old(disk).(recipeBackup := disk.recipeBackup)
      ensures marked ==> Cleared(disk) && (disk == PriorPair(old(disk)) || disk == FresherPair(old(disk)))
      ensures marked && old(disk).output != old(disk).recipeTemporary ==>
                disk == if committed then FresherPair(old(disk)) else PriorPair(old(disk))
      ensures r == Done ==> disk == FresherPair(old(disk))
    {
      r, committed, marked := Promote(true, true);
      if r == Crashed {
        ghost var crashed := disk;
        var attempt := 0;
        while attempt < crashes
          invariant disk.marker.Some? ==> Orderly(disk, declares)
          invariant Restored(disk, declares) == Restored(crashed, declares)
        {
          if disk.marker.Some? {
            OpenResolves(disk, declares);
          }
          var again := Recover(true);
          attempt := attempt + 1;
        }
        if disk.marker.Some? {
          OpenResolves(disk, declares);
        }
        var last := Recover(false);
      }
    }
  }
}
