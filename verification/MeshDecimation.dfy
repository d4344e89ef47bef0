/** The choice after decimation, `decimate_asset` of scripts/geneforge_blender_worker.py. */
module MeshDecimation {
  // Per semantic component the decimated triangles are kept or, where they are worse, the source
  // triangles; then the mesh put together from them is checked as a whole.

  import opened Common
  import opened Reachability
  import opened MeshTopology
  import opened MeshParts

  function KeyOf(t: Triangle): Key {
    Key(t.group, t.a.component)
  }

  predicate AllUniform(triangles: seq<Triangle>) {
    forall i {:trigger triangles[i]} :: 0 <= i < |triangles| ==> Uniform(triangles[i])
  }

  /** `[triangle for triangle in triangles if ...]` for one component. */
  function Picked(triangles: seq<Triangle>, k: Key): (part: seq<Triangle>)
    ensures AllUniform(triangles) ==> AllUniform(part)
    ensures forall t :: t in part ==> KeyOf(t) == k
  {
    if triangles == [] then []
    else
      var rest, last := Picked(triangles[..|triangles| - 1], k), triangles[|triangles| - 1];
      if KeyOf(last) == k then rest + [last] else rest
  }

  lemma {:induction false} PickedFaces(triangles: seq<Triangle>, k: Key)
    ensures FacesOf(Picked(triangles, k)) == Part(FacesOf(triangles), k)
  {
    if triangles != [] {
      var init, last := triangles[..|triangles| - 1], triangles[|triangles| - 1];
      PickedFaces(init, k);
      assert FacesOf(triangles) == FacesOf(init) + [FaceOf(last)];
      PartMore(FacesOf(init), FaceOf(last), k);
      assert FacesOf(Picked(init, k) + [last]) == FacesOf(Picked(init, k)) + [FaceOf(last)];
    }
  }

  // ---------------------------------------------------------------------
  // The sorted list of components
  // ---------------------------------------------------------------------

  predicate KeyBefore(a: Key, b: Key) {
    a.group < b.group || (a.group == b.group && a.component < b.component)
  }

  predicate Ascending(keys: seq<Key>) {
    forall i, j :: 0 <= i < j < |keys| ==> KeyBefore(keys[i], keys[j])
  }

  function Inserted(k: Key, keys: seq<Key>): (more: seq<Key>)
    requires Ascending(keys)
    ensures Ascending(more) && forall x :: x in more <==> x in keys || x == k
  {
    if keys == [] then [k]
    else if keys[0] == k then keys
    else if KeyBefore(k, keys[0]) then [k] + keys
    else
      var rest := Inserted(k, keys[1..]);
      assert forall i {:trigger rest[i]} :: 0 <= i < |rest| ==> rest[i] in keys[1..] || rest[i] == k;
      [keys[0]] + rest
  }

  /** `sorted({(group, component) ...})`. */
  function SortedKeys(triangles: seq<Triangle>): (keys: seq<Key>)
    ensures Ascending(keys) && Distinct(keys)
    ensures forall k :: k in keys <==> exists t :: t in triangles && KeyOf(t) == k
  {
    if triangles == [] then []
    else
      assert triangles == triangles[..|triangles| - 1] + [triangles[|triangles| - 1]];
      Inserted(KeyOf(triangles[|triangles| - 1]), SortedKeys(triangles[..|triangles| - 1]))
  }

  // ---------------------------------------------------------------------
  // The choice
  // ---------------------------------------------------------------------

  /** The decimated part is missing or worse than the source part. */
  ghost predicate FallsBack(source: seq<Face>, candidate: seq<Face>, id: int) {
    || candidate == []
    || PiecesOf(candidate, id) < 1
    || PiecesOf(candidate, id) > PiecesOf(source, id)
    || |NonManifoldEdges(candidate)| != 0
    || |BoundaryEdges(candidate)| > |BoundaryEdges(source)|
  }

  ghost predicate Fallback(source: seq<Triangle>, output: seq<Triangle>, k: Key) {
    FallsBack(FacesOf(Picked(source, k)), FacesOf(Picked(output, k)), k.component)
  }

  ghost function Choice(source: seq<Triangle>, output: seq<Triangle>, k: Key): seq<Triangle> {
    if Fallback(source, output, k) then Picked(source, k) else Picked(output, k)
  }

  /** The repaired mesh: the choices, component by component. */
  ghost function Joined(source: seq<Triangle>, output: seq<Triangle>, keys: seq<Key>): seq<Triangle> {
    if keys == [] then []
    else Joined(source, output, keys[..|keys| - 1]) + Choice(source, output, keys[|keys| - 1])
  }

  /** The comparison of the two parts' metrics. */
  method UseSource(source: seq<Triangle>, candidate: seq<Triangle>, id: int) returns (back: bool)
    requires AllUniform(source) && AllUniform(candidate) && source != []
    ensures back <==> FallsBack(FacesOf(source), FacesOf(candidate), id)
  {
    back := candidate == [];
    if !back {
      var s := Measure(source);
      var c := Measure(candidate);
      var sourceIslands := Count(s.metrics.pieceCounts, id);
      var candidateIslands := Count(c.metrics.pieceCounts, id);
      back := candidateIslands < 1 || candidateIslands > sourceIslands || c.metrics.nonManifold != 0
              || c.metrics.boundary > s.metrics.boundary;
    }
  }

  /** The loop over components that builds `repaired_output`. */
  method Repair(source: seq<Triangle>, output: seq<Triangle>) returns (repaired: seq<Triangle>)
    requires AllUniform(source) && AllUniform(output)
    ensures repaired == Joined(source, output, SortedKeys(source)) && AllUniform(repaired)
  {
    var keys := SortedKeys(source);
    repaired := [];
    for i := 0 to |keys|
      invariant repaired == Joined(source, output, keys[..i]) && AllUniform(repaired)
    {
      var mine, theirs := Picked(source, keys[i]), Picked(output, keys[i]);
      assert keys[i] in keys;
      PickedOnce(source, keys[i]);
      var back := UseSource(mine, theirs, keys[i].component);
      JoinedMore(source, output, keys, i);
      repaired := repaired + if back then mine else theirs;
    }
    assert keys[..|keys|] == keys;
  }

  lemma JoinedMore(source: seq<Triangle>, output: seq<Triangle>, keys: seq<Key>, i: nat)
    requires i < |keys|
    ensures Joined(source, output, keys[..i + 1]) == Joined(source, output, keys[..i]) + Choice(source, output, keys[i])
  {
    assert keys[..i + 1][..i] == keys[..i];
  }

  lemma {:induction false} PickedOnce(triangles: seq<Triangle>, k: Key)
    ensures Picked(triangles, k) != [] <==> exists t :: t in triangles && KeyOf(t) == k
  {
    if triangles != [] {
      var init, last := triangles[..|triangles| - 1], triangles[|triangles| - 1];
      assert triangles == init + [last];
      PickedOnce(init, k);
      assert last in triangles;
    }
  }

  // ---------------------------------------------------------------------
  // The parts of the repaired mesh
  // ---------------------------------------------------------------------

  lemma {:induction false} PartOfBoth(a: seq<Face>, b: seq<Face>, k: Key)
    ensures Part(a + b, k) == Part(a, k) + Part(b, k)
  {
    if b == [] {
      assert a + b == a;
    } else {
      var init, last := b[..|b| - 1], b[|b| - 1];
      assert a + b == (a + init) + [last];
      PartOfBoth(a, init, k);
      PartMore(a + init, last, k);
    }
  }

  lemma {:induction false} PartOfOne(faces: seq<Face>, own: Key, k: Key)
    requires forall i :: 0 <= i < |faces| ==> faces[i].key == own
    ensures Part(faces, k) == if k == own then faces else []
  {
    if faces != [] {
      PartOfOne(faces[..|faces| - 1], own, k);
    }
  }

  lemma ChoiceKey(source: seq<Triangle>, output: seq<Triangle>, k: Key)
    ensures forall i :: 0 <= i < |FacesOf(Choice(source, output, k))| ==> FacesOf(Choice(source, output, k))[i].key == k
  {
    var choice := Choice(source, output, k);
    forall i | 0 <= i < |choice|
      ensures KeyOf(choice[i]) == k
    {
      assert choice[i] in choice;
    }
  }

  lemma FacesOfBoth(a: seq<Triangle>, b: seq<Triangle>)
    ensures FacesOf(a + b) == FacesOf(a) + FacesOf(b)
  {
  }

  lemma PartAppended(before: seq<Face>, own: seq<Face>, last: Key, k: Key)
    requires forall i :: 0 <= i < |own| ==> own[i].key == last
    ensures k == last && Part(before, k) == [] ==> Part(before + own, k) == own
    ensures k != last ==> Part(before + own, k) == Part(before, k)
  {
    PartOfBoth(before, own, k);
    PartOfOne(own, last, k);
    assert Part(before, k) + [] == Part(before, k);
  }

  lemma FacesOfJoined(source: seq<Triangle>, output: seq<Triangle>, keys: seq<Key>)
    requires keys != []
    ensures FacesOf(Joined(source, output, keys)) ==
            FacesOf(Joined(source, output, keys[..|keys| - 1])) + FacesOf(Choice(source, output, keys[|keys| - 1]))
  {
    FacesOfBoth(Joined(source, output, keys[..|keys| - 1]), Choice(source, output, keys[|keys| - 1]));
  }

  lemma LastKey(keys: seq<Key>, k: Key)
    requires Distinct(keys) && keys != []
    ensures var init, last := keys[..|keys| - 1], keys[|keys| - 1];
            Distinct(init) && last !in init && (k in keys <==> k in init || k == last)
  {
    assert keys == keys[..|keys| - 1] + [keys[|keys| - 1]];
  }

  /** The repaired mesh has, for each component, exactly the faces chosen for it. */
  lemma {:induction false} PartOfJoined(source: seq<Triangle>, output: seq<Triangle>, keys: seq<Key>, k: Key)
    requires Distinct(keys)
    ensures Part(FacesOf(Joined(source, output, keys)), k) == if k in keys then FacesOf(Choice(source, output, k)) else []
  {
    if keys != [] {
      var last := keys[|keys| - 1];
      var before, own := FacesOf(Joined(source, output, keys[..|keys| - 1])), FacesOf(Choice(source, output, last));
      LastKey(keys, k);
      PartOfJoined(source, output, keys[..|keys| - 1], k);
      FacesOfJoined(source, output, keys);
      ChoiceKey(source, output, last);
      PartAppended(before, own, last, k);
    }
  }

  lemma JoinedIsCovered(source: seq<Triangle>, output: seq<Triangle>, keys: seq<Key>)
    requires Distinct(keys)
    ensures Covers(keys, FacesOf(Joined(source, output, keys)))
  {
    var faces := FacesOf(Joined(source, output, keys));
    forall i | 0 <= i < |faces|
      ensures faces[i].key in keys
    {
      PartOfJoined(source, output, keys, faces[i].key);
      PlacesExact(faces, faces[i].key);
      assert i in Places(faces, faces[i].key);
    }
  }

  /** A part has pieces exactly when it has faces, and all of them carry its component's identity. */
  lemma PiecesOfOneKey(faces: seq<Face>, k: Key)
    requires forall i :: 0 <= i < |faces| ==> faces[i].key == k
    ensures PiecesOf(faces, k.component) == |Leaders(Adjacency(faces))|
    ensures faces != [] ==> |Leaders(Adjacency(faces))| > 0
  {
    assert LeadersOf(Adjacency(faces), Ids(faces), k.component) == Leaders(Adjacency(faces));
    if faces != [] {
      assert Leads(Adjacency(faces), 0);
      assert 0 in Leaders(Adjacency(faces));
    }
  }

  /** What the choice guarantees for one component. */
  lemma ChoiceIsNoWorse(source: seq<Triangle>, output: seq<Triangle>, k: Key)
    requires k in SortedKeys(source)
    ensures var s, c := FacesOf(Picked(source, k)), FacesOf(Choice(source, output, k));
            && c != [] && 1 <= |Leaders(Adjacency(c))| <= |Leaders(Adjacency(s))|
            && |BoundaryEdges(c)| <= |BoundaryEdges(s)|
            && (|NonManifoldEdges(c)| > 0 <==> Fallback(source, output, k) && |NonManifoldEdges(s)| > 0)
  {
    var s, c := FacesOf(Picked(source, k)), FacesOf(Choice(source, output, k));
    PickedOnce(source, k);
    ChoiceKey(source, output, k);
    PickedFaces(source, k);
    PiecesOfOneKey(c, k);
    PiecesOfOneKey(s, k);
  }

  // ---------------------------------------------------------------------
  // The checks on the whole mesh
  // ---------------------------------------------------------------------

  ghost predicate FallsBackToNonManifold(source: seq<Triangle>, output: seq<Triangle>) {
    exists i :: 0 <= i < |SortedKeys(source)| && Spoils(source, output, SortedKeys(source)[i])
  }

  /** The choice for this component is its source part, and that part is not manifold. */
  ghost predicate Spoils(source: seq<Triangle>, output: seq<Triangle>, k: Key) {
    Fallback(source, output, k) && |NonManifoldEdges(FacesOf(Picked(source, k)))| > 0
  }

  lemma Covered(source: seq<Triangle>, output: seq<Triangle>)
    ensures Covers(SortedKeys(source), FacesOf(source))
    ensures Covers(SortedKeys(source), FacesOf(Joined(source, output, SortedKeys(source))))
  {
    forall i | 0 <= i < |source|
      ensures FacesOf(source)[i].key in SortedKeys(source)
    {
      assert source[i] in source && KeyOf(source[i]) == FacesOf(source)[i].key;
    }
    JoinedIsCovered(source, output, SortedKeys(source));
  }

  /** Component by component the repaired mesh is no worse, so the sums over the mesh are no worse. */
  lemma EdgesPass(source: seq<Triangle>, output: seq<Triangle>)
    ensures var s, r := FacesOf(source), FacesOf(Joined(source, output, SortedKeys(source)));
            && |BoundaryEdges(r)| <= |BoundaryEdges(s)|
            && (|NonManifoldEdges(r)| > 0 <==> FallsBackToNonManifold(source, output))
  {
    var keys := SortedKeys(source);
    var s, r := FacesOf(source), FacesOf(Joined(source, output, keys));
    Covered(source, output);
    EdgesAddUp(s, keys);
    EdgesAddUp(r, keys);
    forall i | 0 <= i < |keys|
      ensures BoundaryIn(r)(keys[i]) <= BoundaryIn(s)(keys[i])
      ensures NonManifoldIn(r)(keys[i]) > 0 <==> Spoils(source, output, keys[i])
    {
      PartOfJoined(source, output, keys, keys[i]);
      PickedFaces(source, keys[i]);
      ChoiceIsNoWorse(source, output, keys[i]);
    }
    SmallerSum(BoundaryIn(r), BoundaryIn(s), keys);
    PositiveSum(NonManifoldIn(r), keys);
  }

  lemma PiecesPass(source: seq<Triangle>, output: seq<Triangle>, id: int)
    ensures var s, r := FacesOf(source), FacesOf(Joined(source, output, SortedKeys(source)));
            && PiecesOf(r, id) <= PiecesOf(s, id)
            && (PiecesOf(r, id) > 0 <==> PiecesOf(s, id) > 0)
  {
    var keys := SortedKeys(source);
    var s, r := FacesOf(source), FacesOf(Joined(source, output, keys));
    Covered(source, output);
    PiecesAddUp(s, keys, id);
    PiecesAddUp(r, keys, id);
    forall i | 0 <= i < |keys|
      ensures PiecesIn(r, id)(keys[i]) <= PiecesIn(s, id)(keys[i])
      ensures PiecesIn(r, id)(keys[i]) > 0 <==> PiecesIn(s, id)(keys[i]) > 0
    {
      PartOfJoined(source, output, keys, keys[i]);
      PickedFaces(source, keys[i]);
      ChoiceIsNoWorse(source, output, keys[i]);
    }
    SmallerSum(PiecesIn(r, id), PiecesIn(s, id), keys);
    PositiveSum(PiecesIn(r, id), keys);
    PositiveSum(PiecesIn(s, id), keys);
  }

  /** An identity has triangles exactly when it has pieces. */
  lemma TrianglesHavePieces(faces: seq<Face>, id: int)
    ensures TrianglesOf(faces, id) > 0 <==> PiecesOf(faces, id) > 0
  {
    TrianglesExist(faces, id);
    var leaders := LeadersOf(Adjacency(faces), Ids(faces), id);
    if PiecesOf(faces, id) > 0 {
      var i :| i in leaders;
      assert faces[i].key.component == id;
    }
    if i: nat :| i < |faces| && faces[i].key.component == id {
      var first := SomeLeader(faces, i);
      assert first in leaders;
    }
  }

  lemma {:induction false} TrianglesExist(faces: seq<Face>, id: int)
    ensures TrianglesOf(faces, id) > 0 <==> exists i :: 0 <= i < |faces| && faces[i].key.component == id
  {
    if faces != [] {
      var init := faces[..|faces| - 1];
      TrianglesExist(init, id);
      assert forall i :: 0 <= i < |init| ==> init[i] == faces[i];
    }
  }

  /** Every face is in a piece with a leader of the same identity. */
  lemma {:induction false} SomeLeader(faces: seq<Face>, i: nat) returns (first: nat)
    requires i < |faces|
    ensures first in Leaders(Adjacency(faces)) && faces[first].key == faces[i].key
  {
    if Leads(Adjacency(faces), i) {
      first := i;
    } else {
      var j: nat :| j < i && Connected(Adjacency(faces), j, i);
      ConnectedFacesShareTheirKey(faces, j, i);
      first := SomeLeader(faces, j);
    }
  }

  datatype Verdict = Accepted | NotReduced | NonManifold | ComponentsChanged | IslandsMultiplied | BoundaryOpened

  /** An identity lost or gained. */
  ghost predicate Differs(r: seq<Face>, s: seq<Face>, id: int) {
    (TrianglesOf(r, id) > 0) != (TrianglesOf(s, id) > 0)
  }

  /** An identity with no piece, or with more than in the source. */
  ghost predicate Multiplied(r: seq<Face>, s: seq<Face>, id: int) {
    TrianglesOf(r, id) > 0 && !(1 <= PiecesOf(r, id) <= PiecesOf(s, id))
  }

  /** The five checks, in order. */
  method Judge(source: seq<Triangle>, repaired: seq<Triangle>) returns (v: Verdict)
    requires AllUniform(source) && AllUniform(repaired) && source != [] && repaired != []
    ensures var s, r := FacesOf(source), FacesOf(repaired);
            v == if |repaired| >= |source| then NotReduced
                 else if |NonManifoldEdges(r)| > 0 then NonManifold
                 else if exists id :: Differs(r, s, id) then ComponentsChanged
                 else if exists id :: Multiplied(r, s, id) then IslandsMultiplied
                 else if |BoundaryEdges(r)| > |BoundaryEdges(s)| then BoundaryOpened
                 else Accepted
  {
    var rt := Measure(repaired);
    var st := Measure(source);
    var r, s := rt.metrics, st.metrics;
    SameIdentities(FacesOf(repaired), r, FacesOf(source), s);
    IslandsOf(FacesOf(repaired), r, FacesOf(source), s);
    if r.triangles >= |source| {
      return NotReduced;
    }
    if r.nonManifold != 0 {
      return NonManifold;
    }
    if r.triangleCounts.Keys != s.triangleCounts.Keys {
      return ComponentsChanged;
    }
    if exists id :: id in r.triangleCounts && !(1 <= Count(r.pieceCounts, id) <= Count(s.pieceCounts, id)) {
      return IslandsMultiplied;
    }
    if r.boundary > s.boundary {
      return BoundaryOpened;
    }
    return Accepted;
  }

  lemma SameIdentities(rf: seq<Face>, r: Metrics, sf: seq<Face>, s: Metrics)
    requires Measures(rf, r) && Measures(sf, s)
    ensures r.triangleCounts.Keys != s.triangleCounts.Keys <==> exists id :: Differs(rf, sf, id)
  {
    forall id
      ensures Differs(rf, sf, id) <==> (id in r.triangleCounts) != (id in s.triangleCounts)
    {
      TalliedKey(rf, r.triangleCounts, id);
      TalliedKey(sf, s.triangleCounts, id);
    }
    DifferentKeys(r.triangleCounts, s.triangleCounts);
  }

  lemma TalliedKey(faces: seq<Face>, counts: map<int, nat>, id: int)
    requires Tallies(counts, faces)
    ensures id in counts <==> TrianglesOf(faces, id) > 0
  {
  }

  lemma DifferentKeys(a: map<int, nat>, b: map<int, nat>)
    ensures a.Keys != b.Keys <==> exists id :: (id in a) != (id in b)
  {
    if forall id :: (id in a) == (id in b) {
      forall id
        ensures id in a.Keys <==> id in b.Keys
      {
        assert (id in a) == (id in b);
      }
      assert a.Keys == b.Keys;
    } else {
      var id :| (id in a) != (id in b);
      assert id in a.Keys <==> id !in b.Keys;
    }
  }

  lemma IslandsOf(rf: seq<Face>, r: Metrics, sf: seq<Face>, s: Metrics)
    requires Measures(rf, r) && Measures(sf, s)
    ensures (exists id :: id in r.triangleCounts && !(1 <= Count(r.pieceCounts, id) <= Count(s.pieceCounts, id)))
            <==> exists id :: Multiplied(rf, sf, id)
  {
    forall id
      ensures Multiplied(rf, sf, id) <==> id in r.triangleCounts && !(1 <= Count(r.pieceCounts, id) <= Count(s.pieceCounts, id))
    {
      TalliedKey(rf, r.triangleCounts, id);
      assert Count(r.pieceCounts, id) == PiecesOf(rf, id) && Count(s.pieceCounts, id) == PiecesOf(sf, id);
    }
  }

  /**
   * From the decimated triangles to the verdict. Whatever the decimator returned, the component,
   * island and boundary checks pass; the mesh is refused exactly when it did not shrink, or when some
   * component fell back to source triangles that were not manifold themselves.
   */
  method Decimate(source: seq<Triangle>, output: seq<Triangle>) returns (v: Verdict, repaired: seq<Triangle>)
    requires AllUniform(source) && AllUniform(output) && source != []
    ensures repaired == Joined(source, output, SortedKeys(source))
    ensures v == if |repaired| >= |source| then NotReduced
                 else if FallsBackToNonManifold(source, output) then NonManifold
                 else Accepted
  {
    repaired := Repair(source, output);
    RepairedIsNotEmpty(source, output);
    EdgesPass(source, output);
    forall id
      ensures !Differs(FacesOf(repaired), FacesOf(source), id) && !Multiplied(FacesOf(repaired), FacesOf(source), id)
    {
      PiecesPass(source, output, id);
      TrianglesHavePieces(FacesOf(repaired), id);
      TrianglesHavePieces(FacesOf(source), id);
    }
    v := Judge(source, repaired);
  }

  lemma RepairedIsNotEmpty(source: seq<Triangle>, output: seq<Triangle>)
    requires source != []
    ensures Joined(source, output, SortedKeys(source)) != []
  {
    var keys := SortedKeys(source);
    assert source[0] in source && KeyOf(source[0]) in keys;
    var last := keys[|keys| - 1];
    assert last in keys;
    ChoiceIsNoWorse(source, output, last);
  }
}
