/**
 * A mesh is the disjoint union of its semantic components: every number that
 * `topology_metrics` reports is the sum of that number over the components.
 */
module MeshParts {
  import opened Common
  import opened Reachability
  import opened MeshTopology

  /** The faces of one component, in order. */
  function Part(faces: seq<Face>, k: Key): (part: seq<Face>)
    ensures |part| <= |faces| && forall i :: 0 <= i < |part| ==> part[i].key == k
  {
    if faces == [] then []
    else
      var rest, last := Part(faces[..|faces| - 1], k), faces[|faces| - 1];
      if last.key == k then rest + [last] else rest
  }

  /** Where they are. */
  function Places(faces: seq<Face>, k: Key): seq<nat> {
    if faces == [] then []
    else
      var rest := Places(faces[..|faces| - 1], k);
      if faces[|faces| - 1].key == k then rest + [|faces| - 1] else rest
  }

  predicate Rising(s: seq<nat>) {
    forall i, j :: 0 <= i < j < |s| ==> s[i] < s[j]
  }

  lemma {:induction false} PlacesExact(faces: seq<Face>, k: Key)
    ensures |Places(faces, k)| == |Part(faces, k)| && Rising(Places(faces, k))
    ensures forall a :: 0 <= a < |Part(faces, k)| ==> Places(faces, k)[a] < |faces| && Part(faces, k)[a] == faces[Places(faces, k)[a]]
    ensures forall i: nat :: i in Places(faces, k) <==> i < |faces| && faces[i].key == k
  {
    if faces != [] {
      var init := faces[..|faces| - 1];
      PlacesExact(init, k);
      assert forall i :: 0 <= i < |init| ==> init[i] == faces[i];
      assert forall a :: 0 <= a < |Places(init, k)| ==> Places(init, k)[a] in Places(init, k);
    }
  }

  /** The part after one more face. */
  lemma PartMore(faces: seq<Face>, f: Face, k: Key)
    ensures Part(faces + [f], k) == if f.key == k then Part(faces, k) + [f] else Part(faces, k)
  {
    assert (faces + [f])[..|faces|] == faces;
  }

  // ---------------------------------------------------------------------
  // Edges
  // ---------------------------------------------------------------------

  lemma UsesMore(faces: seq<Face>, f: Face, e: Edge)
    ensures Uses(faces + [f], e) == Uses(faces, e) + OnFace(f, e)
  {
    OneMoreFace(faces, f);
    UsersOfFace(Slots(faces), f, |faces|, e);
  }

  /** An edge carries its component, so only that component's faces use it. */
  lemma {:induction false} UsesOfPart(faces: seq<Face>, k: Key, e: Edge)
    ensures Uses(Part(faces, k), e) == if e.key == k then Uses(faces, e) else 0
  {
    if faces == [] {
    } else {
      var init, last := faces[..|faces| - 1], faces[|faces| - 1];
      assert faces == init + [last];
      UsesOfPart(init, k, e);
      UsesMore(init, last, e);
      UsesMore(Part(init, k), last, e);
    }
  }

  lemma UsedIsEdge(faces: seq<Face>, e: Edge)
    ensures e in EdgesOf(faces) <==> Uses(faces, e) > 0
  {
    UsersExact(faces, e);
  }

  lemma EdgesOfPart(faces: seq<Face>, k: Key)
    ensures BoundaryEdges(Part(faces, k)) == set e | e in BoundaryEdges(faces) && e.key == k
    ensures NonManifoldEdges(Part(faces, k)) == set e | e in NonManifoldEdges(faces) && e.key == k
  {
    var part := Part(faces, k);
    forall e
      ensures e in BoundaryEdges(part) <==> e in BoundaryEdges(faces) && e.key == k
      ensures e in NonManifoldEdges(part) <==> e in NonManifoldEdges(faces) && e.key == k
    {
      UsesOfPart(faces, k, e);
      UsedIsEdge(faces, e);
      UsedIsEdge(part, e);
    }
  }

  // ---------------------------------------------------------------------
  // Pieces
  // ---------------------------------------------------------------------

  lemma AdjacentInPart(faces: seq<Face>, k: Key, a: nat, b: nat)
    requires a < |Part(faces, k)| && b < |Part(faces, k)|
    requires |Places(faces, k)| == |Part(faces, k)| && Places(faces, k)[a] < |faces| && Places(faces, k)[b] < |faces|
    ensures Adjacent(Part(faces, k), a, b) <==> Adjacent(faces, Places(faces, k)[a], Places(faces, k)[b])
  {
    PlacesExact(faces, k);
  }

  /** `small` is the part of `large` at these places, and no edge of `large` leaves it. */
  ghost predicate Embeds(small: seq<set<nat>>, large: seq<set<nat>>, places: seq<nat>) {
    && (forall a: nat, b: nat {:trigger b in Along(small)(a)} :: a < |places| && b in Along(small)(a) ==>
          b < |places| && places[b] in Along(large)(places[a]))
    && (forall a: nat, j: nat {:trigger j in Along(large)(places[a])} :: a < |places| && j in Along(large)(places[a]) ==>
          exists b: nat :: b < |places| && places[b] == j && b in Along(small)(a))
  }

  lemma PartEmbeds(faces: seq<Face>, k: Key)
    ensures Embeds(Adjacency(Part(faces, k)), Adjacency(faces), Places(faces, k))
  {
    PlacesExact(faces, k);
    var places := Places(faces, k);
    forall a: nat, b: nat | a < |places| && b in Along(Adjacency(Part(faces, k)))(a)
      ensures b < |places| && places[b] in Along(Adjacency(faces))(places[a])
    {
      AdjacentInPart(faces, k, a, b);
    }
    forall a: nat, j: nat | a < |places| && j in Along(Adjacency(faces))(places[a])
      ensures exists b: nat :: b < |places| && places[b] == j && b in Along(Adjacency(Part(faces, k)))(a)
    {
      var b := StepIn(faces, k, a, j);
    }
  }

  lemma StepIn(faces: seq<Face>, k: Key, a: nat, j: nat) returns (b: nat)
    requires a < |Part(faces, k)| && |Places(faces, k)| == |Part(faces, k)|
    requires j in Along(Adjacency(faces))(Places(faces, k)[a])
    ensures b < |Part(faces, k)| && Places(faces, k)[b] == j
    ensures b in Along(Adjacency(Part(faces, k)))(a)
  {
    PlacesExact(faces, k);
    var i := Places(faces, k)[a];
    assert i in Places(faces, k);
    assert Adjacent(faces, i, j);
    assert j in Places(faces, k);
    b :| b < |Places(faces, k)| && Places(faces, k)[b] == j;
    AdjacentInPart(faces, k, a, b);
  }

  lemma {:induction false} WalkOut(small: seq<set<nat>>, large: seq<set<nat>>, places: seq<nat>, path: seq<nat>)
    requires Embeds(small, large, places) && Walk(Along(small), path) && path[0] < |places|
    ensures path[|path| - 1] < |places| && Connected(large, places[path[0]], places[path[|path| - 1]])
  {
    if |path| == 1 {
      ReachesSelf(Along(large), places[path[0]]);
    } else {
      var init := path[..|path| - 1];
      assert forall m :: 0 <= m < |init| ==> init[m] == path[m];
      WalkOut(small, large, places, init);
      var a, b := path[|path| - 2], path[|path| - 1];
      assert b in Along(small)(a);
      ReachesFurther(Along(large), places[path[0]], places[a], places[b]);
    }
  }

  lemma {:induction false} WalkIn(small: seq<set<nat>>, large: seq<set<nat>>, places: seq<nat>, a: nat, path: seq<nat>)
    returns (b: nat)
    requires Embeds(small, large, places) && Walk(Along(large), path) && a < |places| && path[0] == places[a]
    ensures b < |places| && places[b] == path[|path| - 1] && Connected(small, a, b)
  {
    if |path| == 1 {
      b := a;
      ReachesSelf(Along(small), a);
    } else {
      var init := path[..|path| - 1];
      assert forall m :: 0 <= m < |init| ==> init[m] == path[m];
      var before := WalkIn(small, large, places, a, init);
      assert path[|path| - 1] in Along(large)(places[before]);
      b :| b < |places| && places[b] == path[|path| - 1] && b in Along(small)(before);
      ReachesFurther(Along(small), a, before, b);
    }
  }

  /** Two faces of a component are connected within it exactly when they are connected in the mesh. */
  lemma ConnectedInPart(faces: seq<Face>, k: Key, a: nat, b: nat)
    requires a < |Part(faces, k)| && b < |Part(faces, k)| && |Places(faces, k)| == |Part(faces, k)|
    ensures Connected(Adjacency(Part(faces, k)), a, b) <==> Connected(Adjacency(faces), Places(faces, k)[a], Places(faces, k)[b])
  {
    PartEmbeds(faces, k);
    PlacesExact(faces, k);
    var small, large, places := Adjacency(Part(faces, k)), Adjacency(faces), Places(faces, k);
    if Connected(small, a, b) {
      var path :| Walk(Along(small), path) && path[0] == a && path[|path| - 1] == b;
      WalkOut(small, large, places, path);
    }
    if Connected(large, places[a], places[b]) {
      var path :| Walk(Along(large), path) && path[0] == places[a] && path[|path| - 1] == places[b];
      var c := WalkIn(small, large, places, a, path);
      assert c == b;
    }
  }

  lemma LeadsInPart(faces: seq<Face>, k: Key, a: nat)
    requires a < |Part(faces, k)| && |Places(faces, k)| == |Part(faces, k)|
    ensures Leads(Adjacency(Part(faces, k)), a) <==> Leads(Adjacency(faces), Places(faces, k)[a])
  {
    PlacesExact(faces, k);
    var i := Places(faces, k)[a];
    assert i in Places(faces, k);
    if Leads(Adjacency(faces), i) {
      forall b: nat | b < a
        ensures !Connected(Adjacency(Part(faces, k)), b, a)
      {
        ConnectedInPart(faces, k, b, a);
        assert Places(faces, k)[b] < i;
      }
    }
    if Leads(Adjacency(Part(faces, k)), a) {
      forall j: nat | j < i
        ensures !Connected(Adjacency(faces), j, i)
      {
        if Connected(Adjacency(faces), j, i) {
          ConnectedFacesShareTheirKey(faces, j, i);
          assert j in Places(faces, k);
          var b: nat :| b < |Places(faces, k)| && Places(faces, k)[b] == j;
          assert b < a;
          ConnectedInPart(faces, k, b, a);
        }
      }
    }
  }

  /** A component's own count of pieces is the number of pieces of the mesh that lie in it. */
  lemma PiecesOfPart(faces: seq<Face>, k: Key)
    ensures |Leaders(Adjacency(Part(faces, k)))| == |set i | i in Leaders(Adjacency(faces)) && faces[i].key == k|
  {
    PlacesExact(faces, k);
    var places, inside := Places(faces, k), Leaders(Adjacency(Part(faces, k)));
    var image := set a | a in inside :: places[a];
    forall i: nat
      ensures i in image <==> i in Leaders(Adjacency(faces)) && faces[i].key == k
    {
      if i in image {
        var a :| a in inside && places[a] == i;
        assert i in places;
        LeadsInPart(faces, k, a);
      }
      if i in Leaders(Adjacency(faces)) && faces[i].key == k {
        assert i in places;
        var a: nat :| a < |places| && places[a] == i;
        LeadsInPart(faces, k, a);
        assert a in inside;
      }
    }
    assert image == set i | i in Leaders(Adjacency(faces)) && faces[i].key == k;
    ImageCount(places, inside);
    assert image == Image(places, inside);
  }

  function Image(places: seq<nat>, s: set<nat>): set<nat>
    requires forall a :: a in s ==> a < |places|
  {
    set a | a in s :: places[a]
  }

  lemma {:induction false} ImageCount(places: seq<nat>, s: set<nat>)
    requires Rising(places) && forall a :: a in s ==> a < |places|
    ensures |Image(places, s)| == |s|
  {
    if s == {} {
      assert Image(places, s) == {};
    } else {
      var x :| x in s;
      var rest := s - {x};
      ImageCount(places, rest);
      assert Image(places, s) == Image(places, rest) + {places[x]};
      assert places[x] !in Image(places, rest);
    }
  }

  // ---------------------------------------------------------------------
  // Sums over components
  // ---------------------------------------------------------------------

  predicate Distinct(keys: seq<Key>) {
    forall i, j :: 0 <= i < j < |keys| ==> keys[i] != keys[j]
  }

  /** The sum of a number over the components. */
  ghost function Sum(count: Key -> nat, keys: seq<Key>): nat {
    if keys == [] then 0 else Sum(count, keys[..|keys| - 1]) + count(keys[|keys| - 1])
  }

  ghost function Share<T>(s: set<T>, keyOf: T -> Key, k: Key): set<T> {
    set x | x in s && keyOf(x) == k
  }

  ghost function ShareCount<T>(s: set<T>, keyOf: T -> Key): Key -> nat {
    k => |Share(s, keyOf, k)|
  }

  /** A set splits into its shares. */
  lemma {:induction false} SetIsSumOfShares<T>(s: set<T>, keyOf: T -> Key, keys: seq<Key>)
    requires Distinct(keys) && forall x :: x in s ==> keyOf(x) in keys
    ensures |s| == Sum(ShareCount(s, keyOf), keys)
  {
    if keys == [] {
      assert s == {};
    } else {
      var init, last := keys[..|keys| - 1], keys[|keys| - 1];
      var rest := s - Share(s, keyOf, last);
      RestShares(s, keyOf, init, last);
      SetIsSumOfShares(rest, keyOf, init);
      SameSum(ShareCount(rest, keyOf), ShareCount(s, keyOf), init);
      assert s == Share(s, keyOf, last) + rest;
      assert |s| == |Share(s, keyOf, last)| + |rest|;
    }
  }

  lemma RestShares<T>(s: set<T>, keyOf: T -> Key, init: seq<Key>, last: Key)
    requires Distinct(init + [last])
    requires forall x :: x in s ==> keyOf(x) in init + [last]
    ensures var rest := s - Share(s, keyOf, last);
            && (forall x :: x in rest ==> keyOf(x) in init)
            && Distinct(init)
            && forall i :: 0 <= i < |init| ==> ShareCount(rest, keyOf)(init[i]) == ShareCount(s, keyOf)(init[i])
  {
    var rest, keys := s - Share(s, keyOf, last), init + [last];
    assert forall i :: 0 <= i < |init| ==> keys[i] == init[i] && init[i] != keys[|init|];
    forall i | 0 <= i < |init|
      ensures Share(rest, keyOf, init[i]) == Share(s, keyOf, init[i])
    {
    }
  }

  lemma {:induction false} SameSum(f: Key -> nat, g: Key -> nat, keys: seq<Key>)
    requires forall i :: 0 <= i < |keys| ==> f(keys[i]) == g(keys[i])
    ensures Sum(f, keys) == Sum(g, keys)
  {
    if keys != [] {
      SameSum(f, g, keys[..|keys| - 1]);
    }
  }

  lemma {:induction false} SmallerSum(f: Key -> nat, g: Key -> nat, keys: seq<Key>)
    requires forall i :: 0 <= i < |keys| ==> f(keys[i]) <= g(keys[i])
    ensures Sum(f, keys) <= Sum(g, keys)
  {
    if keys != [] {
      SmallerSum(f, g, keys[..|keys| - 1]);
    }
  }

  lemma {:induction false} PositiveSum(f: Key -> nat, keys: seq<Key>)
    ensures Sum(f, keys) > 0 <==> exists i :: 0 <= i < |keys| && f(keys[i]) > 0
  {
    if keys != [] {
      var init := keys[..|keys| - 1];
      PositiveSum(f, init);
      if Sum(f, init) > 0 {
        var i :| 0 <= i < |init| && f(init[i]) > 0;
        assert f(keys[i]) > 0;
      }
      if i :| 0 <= i < |keys| && f(keys[i]) > 0 {
        assert i < |init| ==> f(init[i]) > 0;
      }
    }
  }

  // ---------------------------------------------------------------------
  // The numbers of a mesh
  // ---------------------------------------------------------------------

  ghost function BoundaryIn(faces: seq<Face>): Key -> nat {
    k => |BoundaryEdges(Part(faces, k))|
  }

  ghost function NonManifoldIn(faces: seq<Face>): Key -> nat {
    k => |NonManifoldEdges(Part(faces, k))|
  }

  /** The pieces of a component that carry the identity: all of them or none. */
  ghost function PiecesIn(faces: seq<Face>, id: int): Key -> nat {
    (k: Key) => if k.component == id then |Leaders(Adjacency(Part(faces, k)))| else 0
  }

  predicate Covers(keys: seq<Key>, faces: seq<Face>) {
    Distinct(keys) && forall i {:trigger faces[i]} :: 0 <= i < |faces| ==> faces[i].key in keys
  }

  /** Boundary and non-manifold edges add up over the components. */
  lemma EdgesAddUp(faces: seq<Face>, keys: seq<Key>)
    requires Covers(keys, faces)
    ensures |BoundaryEdges(faces)| == Sum(BoundaryIn(faces), keys)
    ensures |NonManifoldEdges(faces)| == Sum(NonManifoldIn(faces), keys)
  {
    var keyOf := (e: Edge) => e.key;
    var boundary, many := BoundaryEdges(faces), NonManifoldEdges(faces);
    SetIsSumOfShares(boundary, keyOf, keys);
    SetIsSumOfShares(many, keyOf, keys);
    forall k
      ensures ShareCount(boundary, keyOf)(k) == BoundaryIn(faces)(k)
      ensures ShareCount(many, keyOf)(k) == NonManifoldIn(faces)(k)
    {
      EdgesOfPart(faces, k);
      assert Share(boundary, keyOf, k) == BoundaryEdges(Part(faces, k));
      assert Share(many, keyOf, k) == NonManifoldEdges(Part(faces, k));
    }
    SameSum(ShareCount(boundary, keyOf), BoundaryIn(faces), keys);
    SameSum(ShareCount(many, keyOf), NonManifoldIn(faces), keys);
  }

  /** So do the connected pieces of each identity, and with them all pieces. */
  lemma PiecesAddUp(faces: seq<Face>, keys: seq<Key>, id: int)
    requires Covers(keys, faces)
    ensures PiecesOf(faces, id) == Sum(PiecesIn(faces, id), keys)
  {
    var none := Key(0, 0);
    var keyOf := (i: nat) => if i < |faces| then faces[i].key else none;
    var leaders := LeadersOf(Adjacency(faces), Ids(faces), id);
    SetIsSumOfShares(leaders, keyOf, keys);
    forall k
      ensures ShareCount(leaders, keyOf)(k) == PiecesIn(faces, id)(k)
    {
      PiecesOfPart(faces, k);
      var all := set i | i in Leaders(Adjacency(faces)) && faces[i].key == k;
      assert Share(leaders, keyOf, k) == if k.component == id then all else {};
    }
    SameSum(ShareCount(leaders, keyOf), PiecesIn(faces, id), keys);
  }
}
