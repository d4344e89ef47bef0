/** `topology_metrics` of scripts/geneforge_blender_worker.py. */
module MeshTopology {
  // Edge multiplicities and connected components of the faces of a mesh whose triangles belong to
  // semantic components. Positions are fixed-point, already rounded to nine decimals.

  import opened Common
  import opened Reachability

  // ---------------------------------------------------------------------
  // Faces and edges
  // ---------------------------------------------------------------------

  datatype Point = Point(x: int, y: int, z: int)

  predicate Before(p: Point, q: Point) {
    p.x < q.x || (p.x == q.x && (p.y < q.y || (p.y == q.y && p.z < q.z)))
  }

  /** A semantic group and a stable component identity within it. */
  datatype Key = Key(group: int, component: int)

  datatype Edge = Edge(key: Key, low: Point, high: Point)

  datatype Face = Face(key: Key, a: Point, b: Point, c: Point)

  /** `tuple(sorted(...))` of two keyed positions. */
  function EdgeOf(key: Key, p: Point, q: Point): Edge {
    if Before(q, p) then Edge(key, q, p) else Edge(key, p, q)
  }

  /** The three sides, in the order they are visited. */
  function Sides(f: Face): (sides: seq<Edge>)
    ensures |sides| == 3
    ensures forall e :: e in sides ==> e.key == f.key
  {
    [EdgeOf(f.key, f.a, f.b), EdgeOf(f.key, f.b, f.c), EdgeOf(f.key, f.c, f.a)]
  }

  /** One side of one face. */
  datatype Slot = Slot(edge: Edge, face: nat)

  function FaceSlots(f: Face, i: nat): seq<Slot> {
    [Slot(Sides(f)[0], i), Slot(Sides(f)[1], i), Slot(Sides(f)[2], i)]
  }

  function Slots(faces: seq<Face>): seq<Slot> {
    if faces == [] then []
    else Slots(faces[..|faces| - 1]) + FaceSlots(faces[|faces| - 1], |faces| - 1)
  }

  /** The faces that use an edge, once per side. */
  function Users(slots: seq<Slot>, e: Edge): seq<nat> {
    if slots == [] then []
    else
      var rest := Users(slots[..|slots| - 1], e);
      var last := slots[|slots| - 1];
      if last.edge == e then rest + [last.face] else rest
  }

  /** How many sides lie on an edge, with multiplicity. */
  function Uses(faces: seq<Face>, e: Edge): nat {
    |Users(Slots(faces), e)|
  }

  function EdgesOf(faces: seq<Face>): set<Edge> {
    set i, e | 0 <= i < |faces| && e in Sides(faces[i]) :: e
  }

  function BoundaryEdges(faces: seq<Face>): set<Edge> {
    set e | e in EdgesOf(faces) && Uses(faces, e) == 1
  }

  function NonManifoldEdges(faces: seq<Face>): set<Edge> {
    set e | e in EdgesOf(faces) && Uses(faces, e) > 2
  }

  lemma UsersMore(slots: seq<Slot>, s: Slot, e: Edge)
    ensures Users(slots + [s], e) == if s.edge == e then Users(slots, e) + [s.face] else Users(slots, e)
  {
    assert (slots + [s])[..|slots|] == slots;
  }

  lemma UsersOfFace(slots: seq<Slot>, f: Face, i: nat, e: Edge)
    ensures |Users(slots + FaceSlots(f, i), e)| == |Users(slots, e)| + OnFace(f, e)
    ensures forall j :: j in Users(slots + FaceSlots(f, i), e) <==> j in Users(slots, e) || (j == i && e in Sides(f))
  {
    var s := FaceSlots(f, i);
    UsersMore(slots, s[0], e);
    UsersMore(slots + [s[0]], s[1], e);
    UsersMore(slots + [s[0]] + [s[1]], s[2], e);
    assert slots + s == slots + [s[0]] + [s[1]] + [s[2]];
  }

  /** How many sides of one face lie on an edge. */
  function OnFace(f: Face, e: Edge): (n: nat)
    ensures n > 0 <==> e in Sides(f)
  {
    var s := Sides(f);
    (if s[0] == e then 1 else 0) + (if s[1] == e then 1 else 0) + (if s[2] == e then 1 else 0)
  }

  lemma {:induction false} UsersExact(faces: seq<Face>, e: Edge)
    ensures forall j: nat :: j in Users(Slots(faces), e) <==> j < |faces| && e in Sides(faces[j])
    ensures Uses(faces, e) > 0 <==> e in EdgesOf(faces)
  {
    if faces != [] {
      var init, n := faces[..|faces| - 1], |faces| - 1;
      UsersExact(init, e);
      UsersOfFace(Slots(init), faces[n], n, e);
      assert forall j: nat :: j < n ==> init[j] == faces[j];
      assert Uses(faces, e) == Uses(init, e) + OnFace(faces[n], e);
      if e in EdgesOf(faces) {
        var i :| 0 <= i < |faces| && e in Sides(faces[i]);
        assert i < n ==> e in EdgesOf(init);
      }
      if e in EdgesOf(init) {
        var i :| 0 <= i < n && e in Sides(init[i]);
        assert e in Sides(faces[i]);
      }
    } else {
      assert Users(Slots(faces), e) == [];
    }
  }

  // ---------------------------------------------------------------------
  // Adjacency
  // ---------------------------------------------------------------------

  /** Two different faces with an edge in common. */
  predicate Adjacent(faces: seq<Face>, i: nat, j: nat)
    requires i < |faces| && j < |faces|
  {
    i != j && exists e :: e in Sides(faces[i]) && e in Sides(faces[j])
  }

  function Adjacency(faces: seq<Face>): (adjacency: seq<set<nat>>)
    ensures |adjacency| == |faces|
    ensures forall i: nat, j: nat {:trigger j in adjacency[i]} :: i < |faces| ==> (j in adjacency[i] <==> j < |faces| && Adjacent(faces, i, j))
  {
    seq(|faces|, i requires 0 <= i < |faces| => set j: nat | j < |faces| && Adjacent(faces, i, j))
  }

  function Along(adjacency: seq<set<nat>>): nat -> set<nat> {
    (i: nat) => if i < |adjacency| then adjacency[i] else {}
  }

  /** Faces in one connected piece of the mesh. */
  ghost predicate Connected(adjacency: seq<set<nat>>, i: nat, j: nat) {
    Reaches(Along(adjacency), i, j)
  }

  /** A symmetric graph on the positions of the list. */
  ghost predicate Graph(adjacency: seq<set<nat>>) {
    && (forall i: nat, j: nat {:trigger j in adjacency[i]} :: i < |adjacency| && j in adjacency[i] ==> j < |adjacency|)
    && Symmetric(Along(adjacency))
  }

  /** The first face of each piece: the pieces are counted by these. */
  ghost function Leaders(adjacency: seq<set<nat>>): set<nat> {
    set i: nat | i < |adjacency| && Leads(adjacency, i)
  }

  ghost predicate Leads(adjacency: seq<set<nat>>, i: nat) {
    forall j: nat {:trigger Connected(adjacency, j, i)} :: j < i ==> !Connected(adjacency, j, i)
  }

  lemma AdjacencyIsGraph(faces: seq<Face>)
    ensures Graph(Adjacency(faces))
  {
    var adjacency := Adjacency(faces);
    forall i: nat, j: nat | j in Along(adjacency)(i)
      ensures i in Along(adjacency)(j)
    {
      assert Adjacent(faces, i, j);
      assert Adjacent(faces, j, i);
      assert i in adjacency[j];
    }
  }

  /** Geometrically connected faces never cross component identities, so that error cannot occur. */
  lemma {:induction false} WalksKeepTheKey(faces: seq<Face>, path: seq<nat>)
    requires Walk(Along(Adjacency(faces)), path) && path[0] < |faces|
    ensures path[|path| - 1] < |faces| && faces[path[|path| - 1]].key == faces[path[0]].key
  {
    if |path| > 1 {
      var init := path[..|path| - 1];
      assert forall k :: 0 <= k < |init| ==> init[k] == path[k];
      WalksKeepTheKey(faces, init);
      var i, j := path[|path| - 2], path[|path| - 1];
      assert j in Adjacency(faces)[i];
      assert Adjacent(faces, i, j);
    }
  }

  lemma ConnectedFacesShareTheirKey(faces: seq<Face>, i: nat, j: nat)
    requires i < |faces| && Connected(Adjacency(faces), i, j)
    ensures j < |faces| && faces[j].key == faces[i].key
  {
    var path :| Walk(Along(Adjacency(faces)), path) && path[0] == i && path[|path| - 1] == j;
    WalksKeepTheKey(faces, path);
  }

  // ---------------------------------------------------------------------
  // The search
  // ---------------------------------------------------------------------

  /** The faces not yet seen: no edge leads from them to a face already seen. */
  ghost predicate Untouched(adjacency: seq<set<nat>>, unseen: set<nat>) {
    && (forall i :: i in unseen ==> i < |adjacency|)
    && Closed(Along(adjacency), unseen)
  }

  /** `for neighbor in adjacency[current]`, in any order. */
  method Visit(neighbours: set<nat>, waiting: seq<nat>, before: set<nat>) returns (pending: seq<nat>, unseen: set<nat>)
    ensures unseen == before - neighbours && waiting <= pending
    ensures forall i :: i in pending <==> i in waiting || (i in neighbours && i in before)
    ensures unseen == before ==> pending == waiting
  {
    pending, unseen := waiting, before;
    var todo := neighbours;
    while todo != {}
      invariant todo <= neighbours && unseen == before - (neighbours - todo) && waiting <= pending
      invariant forall i :: i in pending <==> i in waiting || (i in neighbours - todo && i in before)
      invariant unseen == before ==> pending == waiting
      decreases todo
    {
      var neighbour :| neighbour in todo;
      if neighbour in unseen {
        unseen := unseen - {neighbour};
        pending := pending + [neighbour];
      }
      todo := todo - {neighbour};
    }
  }

  /** What the search from `first` has found: `done` with all their neighbours, `pending` without. */
  ghost predicate Searching(adjacency: seq<set<nat>>, first: nat, before: set<nat>, done: seq<nat>, pending: seq<nat>, unseen: set<nat>) {
    && unseen <= before && first in before && first !in unseen
    && (forall i {:trigger i in done} :: i in done ==>
          i in before && i !in unseen && Connected(adjacency, first, i) && Along(adjacency)(i) !! unseen)
    && (forall i {:trigger i in pending} :: i in pending ==> i in before && i !in unseen && Connected(adjacency, first, i))
    && (forall i {:trigger i in before} :: i in before && i !in unseen ==> i in done || i in pending)
  }

  lemma SearchStarts(adjacency: seq<set<nat>>, first: nat, before: set<nat>)
    requires first in before
    ensures Searching(adjacency, first, before, [], [first], before - {first})
  {
    ReachesSelf(Along(adjacency), first);
  }

  lemma SearchGoesOn(adjacency: seq<set<nat>>, first: nat, before: set<nat>, done: seq<nat>, rest: seq<nat>, current: nat,
                     unseen: set<nat>, pending: seq<nat>, left: set<nat>)
    requires Untouched(adjacency, before) && Searching(adjacency, first, before, done, rest + [current], unseen)
    requires left == unseen - Along(adjacency)(current)
    requires forall i :: i in pending <==> i in rest || (i in Along(adjacency)(current) && i in unseen)
    ensures Searching(adjacency, first, before, done + [current], pending, left)
  {
    assert current in rest + [current];
    assert Connected(adjacency, first, current);
    forall i | i in pending
      ensures i in before && i !in left && Connected(adjacency, first, i)
    {
      if i in rest {
        assert i in rest + [current];
      } else {
        ReachesFurther(Along(adjacency), first, current, i);
      }
    }
    forall i | i in before && i !in left
      ensures i in done + [current] || i in pending
    {
      assert i !in unseen ==> i in done || i in rest + [current];
    }
  }

  /** A finished search has found exactly the piece of its first face, and leaves whole pieces. */
  lemma SearchEnds(adjacency: seq<set<nat>>, first: nat, before: set<nat>, done: seq<nat>, unseen: set<nat>)
    requires Graph(adjacency) && Untouched(adjacency, before) && Searching(adjacency, first, before, done, [], unseen)
    ensures forall i :: i in done <==> Connected(adjacency, first, i)
    ensures forall i :: i in unseen <==> i in before && !Connected(adjacency, first, i)
    ensures Untouched(adjacency, unseen)
  {
    var found := before - unseen;
    forall a, b | a in found && b in Along(adjacency)(a)
      ensures b in found
    {
      assert a in done;
      assert b in before;
    }
    forall i | Connected(adjacency, first, i)
      ensures i in found
    {
      ClosedKeepsReach(Along(adjacency), found, first, i);
    }
    forall a, b | a in unseen && b in Along(adjacency)(a)
      ensures b in unseen
    {
      assert b in before && a in Along(adjacency)(b);
      assert b in found ==> b in done;
    }
  }

  /** The inner loop: everything connected to `first`. */
  method Search(adjacency: seq<set<nat>>, first: nat, before: set<nat>) returns (connected: seq<nat>, unseen: set<nat>)
    requires Graph(adjacency) && Untouched(adjacency, before) && first in before
    ensures forall i :: i in connected <==> Connected(adjacency, first, i)
    ensures forall i :: i in unseen <==> i in before && !Connected(adjacency, first, i)
    ensures Untouched(adjacency, unseen)
  {
    unseen := before - {first};
    var pending: seq<nat> := [first];
    connected := [];
    SearchStarts(adjacency, first, before);
    while pending != []
      invariant Searching(adjacency, first, before, connected, pending, unseen)
      decreases unseen, |pending|
    {
      var last := |pending| - 1;
      var current, rest := pending[last], pending[..last];
      assert pending == rest + [current];
      assert current in pending && current in before && current < |adjacency|;
      ghost var was := unseen;
      pending, unseen := Visit(adjacency[current], rest, unseen);
      SearchGoesOn(adjacency, first, before, connected, rest, current, was, pending, unseen);
      connected := connected + [current];
    }
    SearchEnds(adjacency, first, before, connected, unseen);
  }

  // ---------------------------------------------------------------------
  // Counting the pieces
  // ---------------------------------------------------------------------

  ghost function LeadersOf(adjacency: seq<set<nat>>, ids: seq<int>, id: int): set<nat>
    requires |ids| == |adjacency|
  {
    set i | i in Leaders(adjacency) && ids[i] == id
  }

  /** `counts.get(id, 0)`. */
  function Count(counts: map<int, nat>, id: int): nat {
    if id in counts then counts[id] else 0
  }

  method Least(s: set<nat>) returns (first: nat)
    requires s != {}
    ensures first in s && forall i :: i in s ==> first <= i
  {
    first :| first in s;
    var rest := s - {first};
    while rest != {}
      invariant first in s && rest <= s
      invariant forall i :: i in s && i !in rest ==> first <= i
      decreases rest
    {
      var i :| i in rest;
      if i < first {
        first := i;
      }
      rest := rest - {i};
    }
  }

  ghost predicate SamePieceSameId(adjacency: seq<set<nat>>, ids: seq<int>)
    requires |ids| == |adjacency|
  {
    forall i: nat, j: nat {:trigger Connected(adjacency, i, j)} ::
      i < |ids| && j < |ids| && Connected(adjacency, i, j) ==> ids[i] == ids[j]
  }

  /** Leaders already counted: those outside `unseen`. */
  ghost predicate Counted(adjacency: seq<set<nat>>, ids: seq<int>, unseen: set<nat>, pieces: nat, counts: map<int, nat>)
    requires |ids| == |adjacency|
  {
    && pieces == |Leaders(adjacency) - unseen|
    && (forall id {:trigger id in counts} :: id in counts <==> LeadersOf(adjacency, ids, id) - unseen != {})
    && (forall id {:trigger Count(counts, id)} :: Count(counts, id) == |LeadersOf(adjacency, ids, id) - unseen|)
  }

  /** The first unseen face leads its piece, and the piece has no other leader. */
  lemma PieceHasOneLeader(adjacency: seq<set<nat>>, first: nat, before: set<nat>, unseen: set<nat>)
    requires Graph(adjacency) && Untouched(adjacency, before) && first in before
    requires forall i :: i in before ==> first <= i
    requires forall i :: i in unseen <==> i in before && !Connected(adjacency, first, i)
    ensures first in Leaders(adjacency) && first !in unseen
    ensures Leaders(adjacency) - unseen == (Leaders(adjacency) - before) + {first}
  {
    ReachesSelf(Along(adjacency), first);
    forall j: nat | j < first
      ensures !Connected(adjacency, j, first)
    {
      if Connected(adjacency, j, first) {
        ReachesBack(Along(adjacency), j, first);
        ClosedKeepsReach(Along(adjacency), before, first, j);
      }
    }
    forall i | i in Leaders(adjacency) && i in before && i !in unseen
      ensures i == first
    {
      assert Connected(adjacency, first, i);
    }
  }

  lemma NothingCounted(adjacency: seq<set<nat>>, ids: seq<int>)
    requires Graph(adjacency) && |ids| == |adjacency|
    ensures Untouched(adjacency, Below(|adjacency|)) && Counted(adjacency, ids, Below(|adjacency|), 0, map[])
  {
    var all := Below(|adjacency|);
    assert Leaders(adjacency) - all == {};
    forall id
      ensures LeadersOf(adjacency, ids, id) - all == {}
    {
    }
  }

  lemma LeaderMoves(adjacency: seq<set<nat>>, ids: seq<int>, first: nat, before: set<nat>, unseen: set<nat>, id: int)
    requires |ids| == |adjacency| && first < |ids| && first in before && first in Leaders(adjacency)
    requires Leaders(adjacency) - unseen == (Leaders(adjacency) - before) + {first}
    ensures var was, now := LeadersOf(adjacency, ids, id) - before, LeadersOf(adjacency, ids, id) - unseen;
            if id == ids[first] then now == was + {first} && |now| == |was| + 1 && now != {} else now == was
  {
    var was, now := LeadersOf(adjacency, ids, id) - before, LeadersOf(adjacency, ids, id) - unseen;
    forall i
      ensures i in now <==> i in was || (i == first && id == ids[first])
    {
      assert i in Leaders(adjacency) - unseen <==> i in (Leaders(adjacency) - before) + {first};
    }
    assert now == if id == ids[first] then was + {first} else was;
    assert first in now <==> id == ids[first];
  }

  lemma OneMoreCounted(adjacency: seq<set<nat>>, ids: seq<int>, first: nat, before: set<nat>, unseen: set<nat>,
                       pieces: nat, counts: map<int, nat>)
    requires |ids| == |adjacency| && first < |ids| && first in before && Counted(adjacency, ids, before, pieces, counts)
    requires first in Leaders(adjacency)
    requires Leaders(adjacency) - unseen == (Leaders(adjacency) - before) + {first}
    ensures Counted(adjacency, ids, unseen, pieces + 1, counts[ids[first] := Count(counts, ids[first]) + 1])
  {
    var more := counts[ids[first] := Count(counts, ids[first]) + 1];
    forall id
      ensures id in more <==> LeadersOf(adjacency, ids, id) - unseen != {}
      ensures Count(more, id) == |LeadersOf(adjacency, ids, id) - unseen|
    {
      LeaderMoves(adjacency, ids, first, before, unseen, id);
      assert Count(counts, id) == |LeadersOf(adjacency, ids, id) - before|;
      assert id in counts <==> LeadersOf(adjacency, ids, id) - before != {};
    }
  }

  /** The outer loop: None when a piece crosses component identities. */
  method Pieces(adjacency: seq<set<nat>>, ids: seq<int>) returns (r: Option<(nat, map<int, nat>)>)
    requires Graph(adjacency) && |ids| == |adjacency|
    ensures r.Some? <==> SamePieceSameId(adjacency, ids)
    ensures r.Some? ==> Counted(adjacency, ids, {}, r.value.0, r.value.1)
  {
    var unseen := Below(|adjacency|);
    NothingCounted(adjacency, ids);
    var pieces, counts: map<int, nat> := 0, map[];
    while unseen != {}
      invariant Untouched(adjacency, unseen) && Counted(adjacency, ids, unseen, pieces, counts)
      invariant forall i: nat, j: nat {:trigger Connected(adjacency, i, j)} ::
        i < |ids| && j < |ids| && i !in unseen && Connected(adjacency, i, j) ==> ids[i] == ids[j]
      decreases unseen
    {
      var first := Least(unseen);
      ghost var before := unseen;
      var connected;
      connected, unseen := Search(adjacency, first, unseen);
      PieceHasOneLeader(adjacency, first, before, unseen);
      PieceIsClosed(adjacency, first, before);
      var declared := set i | i in connected :: ids[i];
      SameIdIsOne(adjacency, ids, first, connected, declared);
      if |declared| != 1 {
        return None;
      }
      OneId(adjacency, ids, first, before, unseen, connected, declared);
      OneMoreCounted(adjacency, ids, first, before, unseen, pieces, counts);
      pieces, counts := pieces + 1, counts[ids[first] := Count(counts, ids[first]) + 1];
    }
    return Some((pieces, counts));
  }

  lemma PieceIsClosed(adjacency: seq<set<nat>>, first: nat, before: set<nat>)
    requires Untouched(adjacency, before) && first in before
    ensures forall i: nat :: Connected(adjacency, first, i) ==> i < |adjacency|
  {
    forall i: nat | Connected(adjacency, first, i)
      ensures i < |adjacency|
    {
      ClosedKeepsReach(Along(adjacency), before, first, i);
    }
  }

  lemma {:induction false} SameIdIsOne(adjacency: seq<set<nat>>, ids: seq<int>, first: nat, connected: seq<nat>, declared: set<int>)
    requires |ids| == |adjacency| && first < |ids|
    requires forall i :: i in connected <==> Connected(adjacency, first, i)
    requires forall i :: i in connected ==> i < |ids|
    requires declared == set i | i in connected :: ids[i]
    ensures SamePieceSameId(adjacency, ids) ==> |declared| == 1
  {
    ReachesSelf(Along(adjacency), first);
    assert first in connected && ids[first] in declared;
    if SamePieceSameId(adjacency, ids) {
      forall i | i in connected
        ensures ids[i] == ids[first]
      {
        assert Connected(adjacency, first, i);
      }
      assert declared == {ids[first]};
    }
  }

  lemma OneId(adjacency: seq<set<nat>>, ids: seq<int>, first: nat, before: set<nat>, unseen: set<nat>, connected: seq<nat>,
              declared: set<int>)
    requires Graph(adjacency) && |ids| == |adjacency| && first < |ids|
    requires forall i :: i in connected <==> Connected(adjacency, first, i)
    requires forall i :: i in connected ==> i < |ids|
    requires forall i :: i in unseen <==> i in before && !Connected(adjacency, first, i)
    requires declared == set i | i in connected :: ids[i]
    requires |declared| == 1
    ensures forall i: nat, j: nat {:trigger Connected(adjacency, i, j)} ::
      i < |ids| && j < |ids| && i in before && i !in unseen && Connected(adjacency, i, j) ==> ids[i] == ids[j]
  {
    forall i: nat, j: nat | i < |ids| && j < |ids| && i in before && i !in unseen && Connected(adjacency, i, j)
      ensures ids[i] == ids[j]
    {
      ReachesOn(Along(adjacency), first, i, j);
      assert i in connected && j in connected;
      assert ids[i] in declared && ids[j] in declared;
      Single(declared, ids[i], ids[j]);
    }
  }

  lemma Single(s: set<int>, a: int, b: int)
    requires |s| == 1 && a in s && b in s
    ensures a == b
  {
    var rest := s - {a};
    assert |rest| == 0;
    assert b !in rest;
  }

  // ---------------------------------------------------------------------
  // Reading the triangles
  // ---------------------------------------------------------------------

  datatype Corner = Corner(point: Point, component: int)

  datatype Triangle = Triangle(group: int, a: Corner, b: Corner, c: Corner)

  predicate Uniform(t: Triangle) {
    t.a.component == t.b.component == t.c.component
  }

  function FaceOf(t: Triangle): Face {
    Face(Key(t.group, t.a.component), t.a.point, t.b.point, t.c.point)
  }

  function FacesOf(triangles: seq<Triangle>): (faces: seq<Face>)
    ensures |faces| == |triangles|
  {
    seq(|triangles|, i requires 0 <= i < |triangles| => FaceOf(triangles[i]))
  }

  function TrianglesOf(faces: seq<Face>, id: int): nat {
    if faces == [] then 0
    else TrianglesOf(faces[..|faces| - 1], id) + if faces[|faces| - 1].key.component == id then 1 else 0
  }

  /** `edge_faces`: the faces along each edge, in order. */
  ghost predicate Indexes(users: map<Edge, seq<nat>>, slots: seq<Slot>) {
    forall e {:trigger e in users} :: (e in users <==> Users(slots, e) != []) && (e in users ==> users[e] == Users(slots, e))
  }

  /** `edge_faces.setdefault(edge, []).append(face_index)`. */
  function Appended(users: map<Edge, seq<nat>>, s: Slot): map<Edge, seq<nat>> {
    users[s.edge := (if s.edge in users then users[s.edge] else []) + [s.face]]
  }

  lemma {:induction false} AppendedIndexes(users: map<Edge, seq<nat>>, slots: seq<Slot>, s: Slot)
    requires Indexes(users, slots)
    ensures Indexes(Appended(users, s), slots + [s])
  {
    forall e
      ensures (e in Appended(users, s) <==> Users(slots + [s], e) != [])
              && (e in Appended(users, s) ==> Appended(users, s)[e] == Users(slots + [s], e))
    {
      UsersMore(slots, s, e);
      assert e in users <==> Users(slots, e) != [];
    }
  }

  method AddFace(before: map<Edge, seq<nat>>, f: Face, i: nat, ghost slots: seq<Slot>) returns (users: map<Edge, seq<nat>>)
    requires Indexes(before, slots)
    ensures Indexes(users, slots + FaceSlots(f, i))
  {
    users := before;
    assert slots + FaceSlots(f, i)[..0] == slots;
    for side := 0 to 3
      invariant Indexes(users, slots + FaceSlots(f, i)[..side])
    {
      var s := Slot(Sides(f)[side], i);
      AppendedIndexes(users, slots + FaceSlots(f, i)[..side], s);
      users := Appended(users, s);
      TakeOneMore(FaceSlots(f, i), side);
      assert slots + FaceSlots(f, i)[..side + 1] == slots + FaceSlots(f, i)[..side] + [s];
    }
    assert FaceSlots(f, i)[..3] == FaceSlots(f, i);
  }

  ghost predicate Tallies(counts: map<int, nat>, faces: seq<Face>) {
    forall id {:trigger id in counts} ::
      Count(counts, id) == TrianglesOf(faces, id) && (id in counts <==> TrianglesOf(faces, id) > 0)
  }

  lemma {:induction false} NothingTallied()
    ensures Tallies(map[], [])
  {
    forall id
      ensures Count(map[], id) == TrianglesOf([], id) == 0
    {
    }
  }

  lemma {:induction false} OneMoreTriangle(faces: seq<Face>, f: Face, id: int)
    ensures TrianglesOf(faces + [f], id) == TrianglesOf(faces, id) + if id == f.key.component then 1 else 0
  {
    assert (faces + [f])[..|faces|] == faces;
  }

  lemma {:induction false} OneMoreTally(faces: seq<Face>, f: Face, counts: map<int, nat>)
    requires Tallies(counts, faces)
    ensures Tallies(counts[f.key.component := Count(counts, f.key.component) + 1], faces + [f])
  {
    var more := counts[f.key.component := Count(counts, f.key.component) + 1];
    forall id
      ensures Count(more, id) == TrianglesOf(faces + [f], id) && (id in more <==> TrianglesOf(faces + [f], id) > 0)
    {
      OneMoreTriangle(faces, f, id);
      assert id in counts <==> TrianglesOf(faces, id) > 0;
    }
  }

  lemma {:induction false} OneMoreFace(faces: seq<Face>, f: Face)
    ensures Slots(faces + [f]) == Slots(faces) + FaceSlots(f, |faces|)
  {
    assert (faces + [f])[..|faces|] == faces;
  }

  /** The first loop: faces, the faces along each edge, and the triangles of each component. */
  method Collect(triangles: seq<Triangle>)
    returns (ok: bool, faces: seq<Face>, users: map<Edge, seq<nat>>, counts: map<int, nat>)
    ensures ok <==> forall t :: t in triangles ==> Uniform(t)
    ensures ok ==> faces == FacesOf(triangles) && Indexes(users, Slots(faces)) && Tallies(counts, faces)
  {
    ok, faces, users, counts := true, [], map[], map[];
    NothingTallied();
    for i := 0 to |triangles|
      invariant forall k :: 0 <= k < i ==> Uniform(triangles[k])
      invariant faces == FacesOf(triangles)[..i]
      invariant Indexes(users, Slots(faces)) && Tallies(counts, faces)
    {
      if !Uniform(triangles[i]) {
        ok := false;
        return;
      }
      var f := FaceOf(triangles[i]);
      OneMoreFace(faces, f);
      OneMoreTally(faces, f, counts);
      TakeOneMore(FacesOf(triangles), i);
      users := AddFace(users, f, i, Slots(faces));
      faces, counts := faces + [f], counts[f.key.component := Count(counts, f.key.component) + 1];
    }
  }

  /** One pass of the adjacency loop: the faces along one edge become neighbours of each other. */
  method Link(before: seq<set<nat>>, linked: seq<nat>) returns (adjacency: seq<set<nat>>)
    requires forall i :: i in linked ==> i < |before|
    ensures |adjacency| == |before|
    ensures forall i: nat, j: nat {:trigger j in adjacency[i]} :: i < |before| ==>
              (j in adjacency[i] <==> j in before[i] || (i in linked && j in linked && i != j))
  {
    adjacency := before;
    for k := 0 to |linked|
      invariant |adjacency| == |before|
      invariant forall i: nat, j: nat {:trigger j in adjacency[i]} :: i < |before| ==>
                  (j in adjacency[i] <==> j in before[i] || (i in linked[..k] && j in linked && i != j))
    {
      var face := linked[k];
      assert face in linked;
      adjacency := adjacency[face := adjacency[face] + set other | other in linked && other != face];
      TakeOneMore(linked, k);
    }
    assert linked[..|linked|] == linked;
  }

  /** Two faces meet at one of these edges. */
  predicate Meet(users: map<Edge, seq<nat>>, edges: set<Edge>, i: nat, j: nat)
    requires edges <= users.Keys
  {
    i != j && exists e :: e in edges && i in users[e] && j in users[e]
  }

  method LinkAll(users: map<Edge, seq<nat>>, ghost faces: seq<Face>, n: nat) returns (adjacency: seq<set<nat>>)
    requires Indexes(users, Slots(faces)) && n == |faces|
    ensures adjacency == Adjacency(faces)
  {
    adjacency := seq(n, i => {});
    var todo := users.Keys;
    while todo != {}
      invariant todo <= users.Keys && |adjacency| == n
      invariant forall i: nat, j: nat {:trigger j in adjacency[i]} :: i < n ==>
                  (j in adjacency[i] <==> Meet(users, users.Keys - todo, i, j))
      decreases todo
    {
      var e :| e in todo;
      UsersExact(faces, e);
      ghost var was := todo;
      adjacency := Link(adjacency, users[e]);
      todo := todo - {e};
      MeetMore(users, was, e);
    }
    MeetIsAdjacent(users, faces);
    assert forall i :: 0 <= i < n ==> adjacency[i] == Adjacency(faces)[i];
  }

  lemma {:induction false} MeetMore(users: map<Edge, seq<nat>>, todo: set<Edge>, e: Edge)
    requires todo <= users.Keys && e in todo
    ensures forall i: nat, j: nat :: Meet(users, users.Keys - (todo - {e}), i, j) <==>
              Meet(users, users.Keys - todo, i, j) || (i in users[e] && j in users[e] && i != j)
  {
  }

  lemma {:induction false} MeetIsAdjacent(users: map<Edge, seq<nat>>, faces: seq<Face>)
    requires Indexes(users, Slots(faces))
    ensures forall i: nat, j: nat :: i < |faces| ==>
              (Meet(users, users.Keys - {}, i, j) <==> j < |faces| && Adjacent(faces, i, j))
  {
    forall i: nat, j: nat | i < |faces|
      ensures Meet(users, users.Keys - {}, i, j) <==> j < |faces| && Adjacent(faces, i, j)
    {
      if Meet(users, users.Keys - {}, i, j) {
        var e :| e in users && i in users[e] && j in users[e];
        UsersExact(faces, e);
      }
      if j < |faces| && Adjacent(faces, i, j) {
        var e :| e in Sides(faces[i]) && e in Sides(faces[j]);
        UsersExact(faces, e);
        assert i in Users(Slots(faces), e);
        assert e in users;
      }
    }
  }

  /** One generator sum: how many edges have a number of uses in the wanted range. */
  method CountUsed(users: map<Edge, seq<nat>>, least: nat, most: nat, ghost wanted: set<Edge>) returns (n: nat)
    requires wanted <= users.Keys
    requires forall e {:trigger e in wanted} :: e in users ==> (e in wanted <==> least <= |users[e]| <= most)
    ensures n == |wanted|
  {
    n := 0;
    var todo := users.Keys;
    ghost var counted: set<Edge> := {};
    while todo != {}
      invariant todo <= users.Keys && n == |counted|
      invariant forall e {:trigger e in counted} {:trigger e in todo} :: e in counted <==> e in wanted && e !in todo
      decreases todo
    {
      var e :| e in todo;
      if least <= |users[e]| <= most {
        assert e in wanted && e !in counted;
        n, counted := n + 1, counted + {e};
      } else {
        assert e !in wanted;
      }
      todo := todo - {e};
    }
    assert counted == wanted;
  }

  /** `sum(len(linked) == 1 ...)` and `sum(len(linked) > 2 ...)`. */
  method CountEdges(users: map<Edge, seq<nat>>, faces: seq<Face>) returns (boundary: nat, nonManifold: nat)
    requires Indexes(users, Slots(faces))
    ensures boundary == |BoundaryEdges(faces)| && nonManifold == |NonManifoldEdges(faces)|
  {
    UsedEdges(users, faces);
    boundary := CountUsed(users, 1, 1, BoundaryEdges(faces));
    nonManifold := CountUsed(users, 3, 3 * |faces|, NonManifoldEdges(faces));
  }

  lemma {:induction false} UsedEdges(users: map<Edge, seq<nat>>, faces: seq<Face>)
    requires Indexes(users, Slots(faces))
    ensures BoundaryEdges(faces) <= users.Keys && NonManifoldEdges(faces) <= users.Keys
    ensures forall e :: e in users ==> (e in BoundaryEdges(faces) <==> 1 <= |users[e]| <= 1)
    ensures forall e :: e in users ==> (e in NonManifoldEdges(faces) <==> 3 <= |users[e]| <= 3 * |faces|)
  {
    forall e
      ensures e in users <==> e in EdgesOf(faces)
      ensures e in users ==> |users[e]| == Uses(faces, e) <= 3 * |faces|
    {
      UsersExact(faces, e);
      UsesBounded(faces, e);
    }
  }

  lemma {:induction false} UsesBounded(faces: seq<Face>, e: Edge)
    ensures Uses(faces, e) <= 3 * |faces|
  {
    if faces != [] {
      var init, n := faces[..|faces| - 1], |faces| - 1;
      UsesBounded(init, e);
      UsersOfFace(Slots(init), faces[n], n, e);
    } else {
      assert Users(Slots(faces), e) == [];
    }
  }

  // ---------------------------------------------------------------------
  // topology_metrics()
  // ---------------------------------------------------------------------

  datatype Metrics = Metrics(triangles: nat, pieces: nat, boundary: nat, nonManifold: nat,
                             triangleCounts: map<int, nat>, pieceCounts: map<int, nat>)

  datatype Topology = Measured(metrics: Metrics) | TriangleCrosses | Empty | PieceCrosses

  function Ids(faces: seq<Face>): (ids: seq<int>)
    ensures |ids| == |faces|
  {
    seq(|faces|, i requires 0 <= i < |faces| => faces[i].key.component)
  }

  /** How many connected pieces carry a component identity. */
  ghost function PiecesOf(faces: seq<Face>, id: int): nat {
    |LeadersOf(Adjacency(faces), Ids(faces), id)|
  }

  /** What the numbers mean, in terms of the faces alone. */
  ghost predicate Measures(faces: seq<Face>, m: Metrics) {
    && m.triangles == |faces| && m.pieces == |Leaders(Adjacency(faces))|
    && m.boundary == |BoundaryEdges(faces)| && m.nonManifold == |NonManifoldEdges(faces)|
    && Tallies(m.triangleCounts, faces)
    && (forall id {:trigger Count(m.pieceCounts, id)} :: Count(m.pieceCounts, id) == PiecesOf(faces, id))
  }

  lemma PiecesKeepTheirId(faces: seq<Face>)
    ensures SamePieceSameId(Adjacency(faces), Ids(faces))
  {
    forall i: nat, j: nat | i < |faces| && j < |faces| && Connected(Adjacency(faces), i, j)
      ensures Ids(faces)[i] == Ids(faces)[j]
    {
      ConnectedFacesShareTheirKey(faces, i, j);
    }
  }

  // ---------------------------------------------------------------------
  // The same numbers, read off the triangles
  // ---------------------------------------------------------------------

  function Vertex(t: Triangle, s: nat): Corner
    requires s < 3
  {
    if s == 0 then t.a else if s == 1 then t.b else t.c
  }

  /** A side without direction: its group, its component and its two ends. */
  datatype Span = Span(group: int, component: int, ends: set<Point>)

  function SpanAt(t: Triangle, s: nat): Span
    requires s < 3
  {
    Span(t.group, t.a.component, {Vertex(t, s).point, Vertex(t, (s + 1) % 3).point})
  }

  /** Where a span occurs: the triangle and which of its sides. */
  function PlacesOn(triangles: seq<Triangle>, span: Span): set<(nat, nat)> {
    set i: nat, s: nat | i < |triangles| && s < 3 && SpanAt(triangles[i], s) == span :: (i, s)
  }

  function Spans(triangles: seq<Triangle>): set<Span> {
    set i: nat, s: nat | i < |triangles| && s < 3 :: SpanAt(triangles[i], s)
  }

  ghost predicate Touch(triangles: seq<Triangle>, i: nat, j: nat)
    requires i < |triangles| && j < |triangles|
  {
    i != j && exists s: nat, s': nat :: s < 3 && s' < 3 && SpanAt(triangles[i], s) == SpanAt(triangles[j], s')
  }

  ghost function TouchGraph(triangles: seq<Triangle>): seq<set<nat>> {
    seq(|triangles|, i requires 0 <= i < |triangles| => set j: nat | j < |triangles| && Touch(triangles, i, j))
  }

  /** The numbers reported for uniform triangles: touching is having a side in common, in either direction. */
  ghost predicate Reports(triangles: seq<Triangle>, m: Metrics) {
    && m.triangles == |triangles|
    && m.pieces == |Leaders(TouchGraph(triangles))|
    && m.boundary == |set span | span in Spans(triangles) && |PlacesOn(triangles, span)| == 1|
    && m.nonManifold == |set span | span in Spans(triangles) && |PlacesOn(triangles, span)| > 2|
    && (forall id {:trigger Count(m.triangleCounts, id)} ::
          Count(m.triangleCounts, id) == |set i: nat | i < |triangles| && triangles[i].a.component == id|)
    && (forall id {:trigger Count(m.pieceCounts, id)} ::
          Count(m.pieceCounts, id)
          == |set i: nat | i < |triangles| && Leads(TouchGraph(triangles), i) && triangles[i].a.component == id|)
  }

  lemma PairIsUnordered(p: Point, q: Point, p': Point, q': Point)
    ensures {p, q} == {p', q'} <==> (p == p' && q == q') || (p == q' && q == p')
  {
    if {p, q} == {p', q'} {
      assert p in {p', q'} && q in {p', q'} && p' in {p, q} && q' in {p, q};
    }
  }

  /** An edge is a key and two positions in either order. */
  lemma EdgeIsUnordered(k: Key, p: Point, q: Point, k': Key, p': Point, q': Point)
    ensures EdgeOf(k, p, q) == EdgeOf(k', p', q') <==> k == k' && ((p == p' && q == q') || (p == q' && q == p'))
  {
  }

  lemma SideIsSpan(t: Triangle, s: nat)
    requires s < 3
    ensures var sides := Sides(FaceOf(t));
            sides[s] == EdgeOf(Key(t.group, t.a.component), Vertex(t, s).point, Vertex(t, (s + 1) % 3).point)
  {
  }

  /** Two sides are one edge exactly when they are one span. */
  lemma SidesMeet(t: Triangle, s: nat, t': Triangle, s': nat)
    requires s < 3 && s' < 3
    ensures Sides(FaceOf(t))[s] == Sides(FaceOf(t'))[s'] <==> SpanAt(t, s) == SpanAt(t', s')
  {
    SideIsSpan(t, s);
    SideIsSpan(t', s');
    var p, q, p', q' := Vertex(t, s).point, Vertex(t, (s + 1) % 3).point, Vertex(t', s').point, Vertex(t', (s' + 1) % 3).point;
    EdgeIsUnordered(Key(t.group, t.a.component), p, q, Key(t'.group, t'.a.component), p', q');
    PairIsUnordered(p, q, p', q');
  }

  lemma TouchIsAdjacent(triangles: seq<Triangle>, i: nat, j: nat)
    requires i < |triangles| && j < |triangles|
    ensures Touch(triangles, i, j) <==> Adjacent(FacesOf(triangles), i, j)
  {
    var faces := FacesOf(triangles);
    assert faces[i] == FaceOf(triangles[i]) && faces[j] == FaceOf(triangles[j]);
    var f, g := Sides(faces[i]), Sides(faces[j]);
    if Touch(triangles, i, j) {
      var s: nat, s': nat :| s < 3 && s' < 3 && SpanAt(triangles[i], s) == SpanAt(triangles[j], s');
      SidesMeet(triangles[i], s, triangles[j], s');
      assert f[s] in f && f[s] in g;
      assert Adjacent(faces, i, j);
    }
    if Adjacent(faces, i, j) {
      var e :| e in Sides(faces[i]) && e in Sides(faces[j]);
      var s: nat :| s < 3 && f[s] == e;
      var s': nat :| s' < 3 && g[s'] == e;
      SidesMeet(triangles[i], s, triangles[j], s');
      assert SpanAt(triangles[i], s) == SpanAt(triangles[j], s');
      assert Touch(triangles, i, j);
    }
  }

  lemma TouchGraphIsAdjacency(triangles: seq<Triangle>)
    ensures TouchGraph(triangles) == Adjacency(FacesOf(triangles))
  {
    var graph, adjacency := TouchGraph(triangles), Adjacency(FacesOf(triangles));
    forall i | 0 <= i < |triangles|
      ensures graph[i] == adjacency[i]
    {
      forall j: nat
        ensures j in graph[i] <==> j in adjacency[i]
      {
        if j < |triangles| {
          TouchIsAdjacent(triangles, i, j);
        }
      }
    }
  }

  /** The places of a span on the last triangle. */
  function LastPlaces(t: Triangle, n: nat, span: Span): set<(nat, nat)> {
    (if SpanAt(t, 0) == span then {(n, 0)} else {})
    + (if SpanAt(t, 1) == span then {(n, 1)} else {})
    + (if SpanAt(t, 2) == span then {(n, 2)} else {})
  }

  lemma LastPlacesCount(t: Triangle, n: nat, t': Triangle, s': nat)
    requires s' < 3
    ensures |LastPlaces(t, n, SpanAt(t', s'))| == OnFace(FaceOf(t), Sides(FaceOf(t'))[s'])
  {
    SidesMeet(t, 0, t', s');
    SidesMeet(t, 1, t', s');
    SidesMeet(t, 2, t', s');
  }

  lemma MorePlaces(triangles: seq<Triangle>, span: Span)
    requires triangles != []
    ensures var n := |triangles| - 1;
            |PlacesOn(triangles, span)| == |PlacesOn(triangles[..n], span)| + |LastPlaces(triangles[n], n, span)|
  {
    var n := |triangles| - 1;
    var whole, init, last := PlacesOn(triangles, span), PlacesOn(triangles[..n], span), LastPlaces(triangles[n], n, span);
    assert whole == init + last;
    assert init !! last;
  }

  /** An edge is used as often as its span occurs. */
  lemma {:induction false} UsesArePlaces(triangles: seq<Triangle>, t: Triangle, s: nat)
    requires s < 3
    ensures Uses(FacesOf(triangles), Sides(FaceOf(t))[s]) == |PlacesOn(triangles, SpanAt(t, s))|
  {
    var faces, e := FacesOf(triangles), Sides(FaceOf(t))[s];
    if triangles == [] {
      assert PlacesOn(triangles, SpanAt(t, s)) == {};
      assert Users(Slots(faces), e) == [];
    } else {
      var n := |triangles| - 1;
      UsesArePlaces(triangles[..n], t, s);
      assert faces[..n] == FacesOf(triangles[..n]);
      UsersOfFace(Slots(faces[..n]), faces[n], n, e);
      MorePlaces(triangles, SpanAt(t, s));
      LastPlacesCount(triangles[n], n, t, s);
    }
  }

  function SpanOf(e: Edge): Span {
    Span(e.key.group, e.key.component, {e.low, e.high})
  }

  lemma {:induction false} ImageSize(edges: set<Edge>, spans: set<Span>)
    requires forall e :: e in edges ==> SpanOf(e) in spans
    requires forall span :: span in spans ==> exists e :: e in edges && SpanOf(e) == span
    requires forall e, e' :: e in edges && e' in edges && SpanOf(e) == SpanOf(e') ==> e == e'
    ensures |edges| == |spans|
    decreases edges
  {
    if edges == {} {
      if span :| span in spans {
        assert false;
      }
    } else {
      var e :| e in edges;
      forall span | span in spans - {SpanOf(e)}
        ensures exists e' :: e' in edges - {e} && SpanOf(e') == span
      {
        var e' :| e' in edges && SpanOf(e') == span;
        assert e' in edges - {e};
      }
      ImageSize(edges - {e}, spans - {SpanOf(e)});
    }
  }

  lemma EdgeHasASide(triangles: seq<Triangle>, e: Edge) returns (i: nat, s: nat)
    requires e in EdgesOf(FacesOf(triangles))
    ensures i < |triangles| && s < 3 && e == Sides(FaceOf(triangles[i]))[s] && SpanOf(e) == SpanAt(triangles[i], s)
    ensures Uses(FacesOf(triangles), e) == |PlacesOn(triangles, SpanOf(e))|
  {
    var faces := FacesOf(triangles);
    i :| 0 <= i < |faces| && e in Sides(faces[i]);
    s :| s < 3 && Sides(faces[i])[s] == e;
    SideIsSpan(triangles[i], s);
    PairIsUnordered(e.low, e.high, Vertex(triangles[i], s).point, Vertex(triangles[i], (s + 1) % 3).point);
    UsesArePlaces(triangles, triangles[i], s);
  }

  lemma SameSpanSameEdge(triangles: seq<Triangle>, e: Edge, e': Edge)
    requires e in EdgesOf(FacesOf(triangles)) && e' in EdgesOf(FacesOf(triangles)) && SpanOf(e) == SpanOf(e')
    ensures e == e'
  {
    var i, s := EdgeHasASide(triangles, e);
    var i', s' := EdgeHasASide(triangles, e');
    SidesMeet(triangles[i], s, triangles[i'], s');
  }

  /** Edges with a number of uses in a range are as many as spans with that many places. */
  lemma EdgesAreSpans(triangles: seq<Triangle>, edges: set<Edge>, spans: set<Span>, least: nat, most: nat)
    requires forall e :: e in edges <==> e in EdgesOf(FacesOf(triangles)) && least <= Uses(FacesOf(triangles), e) <= most
    requires forall span :: span in spans <==> span in Spans(triangles) && least <= |PlacesOn(triangles, span)| <= most
    ensures |edges| == |spans|
  {
    forall e | e in edges
      ensures SpanOf(e) in spans
    {
      var i, s := EdgeHasASide(triangles, e);
      assert SpanAt(triangles[i], s) in Spans(triangles);
    }
    forall span | span in spans
      ensures exists e :: e in edges && SpanOf(e) == span
    {
      var i: nat, s: nat :| i < |triangles| && s < 3 && SpanAt(triangles[i], s) == span;
      var e := Sides(FaceOf(triangles[i]))[s];
      assert e in Sides(FacesOf(triangles)[i]);
      UsesArePlaces(triangles, triangles[i], s);
      SideIsSpan(triangles[i], s);
      PairIsUnordered(e.low, e.high, Vertex(triangles[i], s).point, Vertex(triangles[i], (s + 1) % 3).point);
    }
    forall e, e' | e in edges && e' in edges && SpanOf(e) == SpanOf(e')
      ensures e == e'
    {
      SameSpanSameEdge(triangles, e, e');
    }
    ImageSize(edges, spans);
  }

  lemma BoundaryIsOncePlaced(triangles: seq<Triangle>)
    ensures |BoundaryEdges(FacesOf(triangles))| == |set span | span in Spans(triangles) && |PlacesOn(triangles, span)| == 1|
  {
    EdgesAreSpans(triangles, BoundaryEdges(FacesOf(triangles)),
                  set span | span in Spans(triangles) && |PlacesOn(triangles, span)| == 1, 1, 1);
  }

  lemma NonManifoldIsCrowded(triangles: seq<Triangle>)
    ensures |NonManifoldEdges(FacesOf(triangles))| == |set span | span in Spans(triangles) && |PlacesOn(triangles, span)| > 2|
  {
    var faces := FacesOf(triangles);
    forall e
      ensures Uses(faces, e) <= 3 * |faces|
    {
      UsesBounded(faces, e);
    }
    forall span | span in Spans(triangles)
      ensures |PlacesOn(triangles, span)| <= 3 * |faces|
    {
      var i: nat, s: nat :| i < |triangles| && s < 3 && SpanAt(triangles[i], s) == span;
      UsesArePlaces(triangles, triangles[i], s);
    }
    EdgesAreSpans(triangles, NonManifoldEdges(faces),
                  set span | span in Spans(triangles) && |PlacesOn(triangles, span)| > 2, 3, 3 * |faces|);
  }

  lemma {:induction false} TriangleCount(triangles: seq<Triangle>, id: int)
    ensures TrianglesOf(FacesOf(triangles), id) == |set i: nat | i < |triangles| && triangles[i].a.component == id|
  {
    var whole := set i: nat | i < |triangles| && triangles[i].a.component == id;
    if triangles == [] {
      assert whole == {};
    } else {
      var n := |triangles| - 1;
      var init := triangles[..n];
      TriangleCount(init, id);
      assert FacesOf(triangles)[..n] == FacesOf(init);
      var before := set i: nat | i < |init| && init[i].a.component == id;
      assert whole == before + if triangles[n].a.component == id then {n} else {};
    }
  }

  lemma PieceCount(triangles: seq<Triangle>, id: int)
    ensures PiecesOf(FacesOf(triangles), id)
            == |set i: nat | i < |triangles| && Leads(TouchGraph(triangles), i) && triangles[i].a.component == id|
  {
    TouchGraphIsAdjacency(triangles);
    assert LeadersOf(Adjacency(FacesOf(triangles)), Ids(FacesOf(triangles)), id)
        == set i: nat | i < |triangles| && Leads(TouchGraph(triangles), i) && triangles[i].a.component == id;
  }

  lemma MeasuresReports(triangles: seq<Triangle>, m: Metrics)
    requires Measures(FacesOf(triangles), m)
    ensures Reports(triangles, m)
  {
    TouchGraphIsAdjacency(triangles);
    BoundaryIsOncePlaced(triangles);
    NonManifoldIsCrowded(triangles);
    forall id
      ensures Count(m.triangleCounts, id) == |set i: nat | i < |triangles| && triangles[i].a.component == id|
    {
      TriangleCount(triangles, id);
      assert Count(m.triangleCounts, id) == TrianglesOf(FacesOf(triangles), id) by {
        assert id in m.triangleCounts || id !in m.triangleCounts;
      }
    }
    forall id
      ensures Count(m.pieceCounts, id)
              == |set i: nat | i < |triangles| && Leads(TouchGraph(triangles), i) && triangles[i].a.component == id|
    {
      PieceCount(triangles, id);
    }
  }

  /**
   * `topology_metrics`. Its two errors are exactly a triangle across components and an empty mesh: the
   * error for connected faces across components is never raised.
   */
  method Measure(triangles: seq<Triangle>) returns (r: Topology)
    ensures r.TriangleCrosses? <==>
            exists t :: t in triangles && (t.b.component != t.a.component || t.c.component != t.a.component)
    ensures r.Empty? <==> triangles == []
    ensures !r.PieceCrosses?
    ensures r.Measured? ==> Measures(FacesOf(triangles), r.metrics)
    ensures r.Measured? ==> Reports(triangles, r.metrics)
  {
    r := MeasureFaces(triangles);
    if r.Measured? {
      MeasuresReports(triangles, r.metrics);
    }
  }

  method MeasureFaces(triangles: seq<Triangle>) returns (r: Topology)
    ensures r.TriangleCrosses? <==> exists t :: t in triangles && !Uniform(t)
    ensures r.Empty? <==> triangles == []
    ensures !r.PieceCrosses?
    ensures r.Measured? ==> Measures(FacesOf(triangles), r.metrics)
  {
    var ok, faces, users, counts := Collect(triangles);
    if !ok {
      return TriangleCrosses;
    }
    if faces == [] {
      return Empty;
    }
    var adjacency := LinkAll(users, faces, |faces|);
    AdjacencyIsGraph(faces);
    PiecesKeepTheirId(faces);
    var pieces := Pieces(adjacency, Ids(faces));
    var boundary, nonManifold := CountEdges(users, faces);
    assert Leaders(adjacency) - {} == Leaders(adjacency);
    assert forall id :: LeadersOf(adjacency, Ids(faces), id) - {} == LeadersOf(adjacency, Ids(faces), id);
    return match pieces
      case Some((n, pieceCounts)) => Measured(Metrics(|faces|, n, boundary, nonManifold, counts, pieceCounts))
      case None => PieceCrosses;
  }
}
