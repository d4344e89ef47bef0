/**
 * Walks along a neighbour function, shared by the graph searches. A search is correct when the set it has
 * seen is closed under the neighbour function and contains only what can be reached: then it is exactly
 * what can be reached. Walks compose, and in a symmetric graph they can be walked back, which is what makes
 * the pieces of a mesh an equivalence.
 */
module Reachability {

  ghost predicate Walk<T(!new)>(next: T -> set<T>, path: seq<T>) {
    |path| > 0 && forall k {:trigger path[k]} :: 0 < k < |path| ==> path[k] in next(path[k - 1])
  }

  /** `b` can be reached from `a`. */
  ghost predicate Reaches<T(!new)>(next: T -> set<T>, a: T, b: T) {
    exists path :: Walk(next, path) && path[0] == a && path[|path| - 1] == b
  }

  ghost predicate Symmetric<T(!new)>(next: T -> set<T>) {
    forall a, b :: b in next(a) ==> a in next(b)
  }

  /** No neighbour of the set is outside it. */
  ghost predicate Closed<T(!new)>(next: T -> set<T>, s: set<T>) {
    forall a, b {:trigger b in next(a), a in s} :: a in s && b in next(a) ==> b in s
  }

  lemma ReachesSelf<T(!new)>(next: T -> set<T>, a: T)
    ensures Reaches(next, a, a)
  {
    assert Walk(next, [a]);
  }

  lemma ReachesFurther<T(!new)>(next: T -> set<T>, a: T, b: T, c: T)
    requires Reaches(next, a, b) && c in next(b)
    ensures Reaches(next, a, c)
  {
    var path :| Walk(next, path) && path[0] == a && path[|path| - 1] == b;
    var longer := path + [c];
    assert Walk(next, longer);
    assert longer[0] == a && longer[|longer| - 1] == c;
  }

  /** A closed set keeps everything reached from inside it. */
  lemma {:induction false} ClosedKeepsWalks<T(!new)>(next: T -> set<T>, s: set<T>, path: seq<T>)
    requires Closed(next, s) && Walk(next, path) && path[0] in s
    ensures path[|path| - 1] in s
  {
    if |path| > 1 {
      var init := path[..|path| - 1];
      assert forall k :: 0 <= k < |init| ==> init[k] == path[k];
      ClosedKeepsWalks(next, s, init);
      assert path[|path| - 1] in next(path[|path| - 2]);
    }
  }

  lemma ClosedKeepsReach<T(!new)>(next: T -> set<T>, s: set<T>, a: T, b: T)
    requires Closed(next, s) && a in s && Reaches(next, a, b)
    ensures b in s
  {
    var path :| Walk(next, path) && path[0] == a && path[|path| - 1] == b;
    ClosedKeepsWalks(next, s, path);
  }

  lemma {:induction false} WalkBack<T(!new)>(next: T -> set<T>, path: seq<T>)
    requires Symmetric(next) && Walk(next, path)
    ensures Reaches(next, path[|path| - 1], path[0])
  {
    if |path| == 1 {
      ReachesSelf(next, path[0]);
    } else {
      var rest := path[1..];
      assert forall k {:trigger rest[k]} :: 0 <= k < |rest| ==> rest[k] == path[k + 1];
      forall k | 0 < k < |rest|
        ensures rest[k] in next(rest[k - 1])
      {
        assert path[k + 1] in next(path[k]);
      }
      WalkBack(next, rest);
      assert path[1] in next(path[0]);
      ReachesFurther(next, path[|path| - 1], path[1], path[0]);
    }
  }

  lemma ReachesBack<T(!new)>(next: T -> set<T>, a: T, b: T)
    requires Symmetric(next) && Reaches(next, a, b)
    ensures Reaches(next, b, a)
  {
    var path :| Walk(next, path) && path[0] == a && path[|path| - 1] == b;
    WalkBack(next, path);
  }

  lemma {:induction false} ReachesAlong<T(!new)>(next: T -> set<T>, a: T, path: seq<T>)
    requires Walk(next, path) && Reaches(next, a, path[0])
    ensures Reaches(next, a, path[|path| - 1])
  {
    if |path| > 1 {
      var init := path[..|path| - 1];
      assert forall k :: 0 <= k < |init| ==> init[k] == path[k];
      ReachesAlong(next, a, init);
      ReachesFurther(next, a, path[|path| - 2], path[|path| - 1]);
    }
  }

  lemma ReachesOn<T(!new)>(next: T -> set<T>, a: T, b: T, c: T)
    requires Reaches(next, a, b) && Reaches(next, b, c)
    ensures Reaches(next, a, c)
  {
    var path :| Walk(next, path) && path[0] == b && path[|path| - 1] == c;
    ReachesAlong(next, a, path);
  }
}
