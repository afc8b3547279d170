/** Relations on a finite set: nothing gets to itself exactly when there is a rank that goes down along every step. */
module Acyclic {
  ghost predicate IsPath<T(!new)>(next: (T, T) -> bool, path: seq<T>) {
    |path| >= 2 && forall k :: 0 < k < |path| ==> next(path[k - 1], path[k])
  }

  ghost predicate Reaches<T(!new)>(next: (T, T) -> bool, a: T, b: T) {
    exists path :: IsPath(next, path) && path[0] == a && path[|path| - 1] == b
  }

  ghost predicate Cyclic<T(!new)>(next: (T, T) -> bool) {
    exists a :: Reaches(next, a, a)
  }

  ghost predicate IsWithin<T(!new)>(next: (T, T) -> bool, all: set<T>) {
    forall a, b :: next(a, b) ==> a in all && b in all
  }

  ghost predicate FallsAlong<T(!new)>(next: (T, T) -> bool, rank: T -> nat) {
    forall a, b :: next(a, b) ==> rank(b) < rank(a)
  }

  /** Along a path the rank goes down. */
  lemma {:induction false} PathFalls<T(!new)>(next: (T, T) -> bool, rank: T -> nat, path: seq<T>)
    requires FallsAlong(next, rank) && IsPath(next, path)
    ensures rank(path[|path| - 1]) < rank(path[0])
    decreases |path|
  {
    var n := |path| - 1;
    assert next(path[n - 1], path[n]);
    if n >= 2 {
      PathFalls(next, rank, path[..n]);
    }
  }

  lemma StepReaches<T(!new)>(next: (T, T) -> bool, a: T, b: T)
    requires next(a, b)
    ensures Reaches(next, a, b)
  {
    assert IsPath(next, [a, b]);
  }

  lemma ReachesOn<T(!new)>(next: (T, T) -> bool, a: T, b: T, c: T)
    requires Reaches(next, a, b) && next(b, c)
    ensures Reaches(next, a, c)
  {
    var path :| IsPath(next, path) && path[0] == a && path[|path| - 1] == b;
    var longer := path + [c];
    forall k | 0 < k < |longer| ensures next(longer[k - 1], longer[k]) {
      assert k < |path| ==> longer[k] == path[k];
    }
    assert IsPath(next, longer) && longer[0] == a && longer[|longer| - 1] == c;
  }

  /** What is reached from the next one, is reached. */
  lemma ReachesBefore<T(!new)>(next: (T, T) -> bool, a: T, b: T, c: T)
    requires next(a, b) && Reaches(next, b, c)
    ensures Reaches(next, a, c)
  {
    var path :| IsPath(next, path) && path[0] == b && path[|path| - 1] == c;
    var longer := [a] + path;
    forall k | 0 < k < |longer| ensures next(longer[k - 1], longer[k]) {
      assert longer[k] == path[k - 1] && (k > 1 ==> longer[k - 1] == path[k - 2]);
    }
    assert IsPath(next, longer) && longer[0] == a && longer[|longer| - 1] == c;
  }

  ghost function Reached<T(!new)>(next: (T, T) -> bool, all: set<T>, a: T): set<T> {
    set b | b in all && Reaches(next, a, b)
  }

  lemma ReachesLess<T(!new)>(next: (T, T) -> bool, all: set<T>, a: T, b: T)
    requires IsWithin(next, all) && !Cyclic(next) && next(a, b)
    ensures |Reached(next, all, b)| < |Reached(next, all, a)|
  {
    hide Reaches;
    StepReaches(next, a, b);
    var fewer, more := Reached(next, all, b), Reached(next, all, a);
    forall c | c in fewer ensures c in more {
      ReachesBefore(next, a, b, c);
    }
    assert b in more && b !in fewer;
    assert more == fewer + (more - fewer);
  }

  lemma RankExactly<T(!new)>(next: (T, T) -> bool, all: set<T>)
    requires IsWithin(next, all)
    ensures (exists rank :: FallsAlong(next, rank)) <==> !Cyclic(next)
  {
    if rank :| FallsAlong(next, rank) {
      if Cyclic(next) {
        var a :| Reaches(next, a, a);
        var path :| IsPath(next, path) && path[0] == a && path[|path| - 1] == a;
        PathFalls(next, rank, path);
      }
    }
    if !Cyclic(next) {
      var rank := a => |Reached(next, all, a)|;
      forall a, b | next(a, b) ensures rank(b) < rank(a) {
        ReachesLess(next, all, a, b);
      }
      assert FallsAlong(next, rank);
    }
  }
}
