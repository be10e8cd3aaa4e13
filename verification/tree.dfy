/** Addressing and traversing the hierarchy. A node is identified by its
    path: the sequence of child indices leading to it from the root, so
    its length is the node's depth. Both views walk the tree in declared
    child order and descend only into expanded nodes; `Walk` is that
    traversal, parameterised by the expansion test. */
module Tree {
  import opened Types

  type Path = seq<nat>

  /** `p` addresses a node of `t`: every step is an in-range child index. */
  predicate ValidPath(t: Node, p: Path)
    decreases |p|
  {
    |p| == 0 || (p[0] < |t.children| && ValidPath(t.children[p[0]], p[1..]))
  }

  /** The node of `t` at path `p`. */
  function At(t: Node, p: Path): Node
    requires ValidPath(t, p)
    decreases |p|
  {
    if |p| == 0 then t else At(t.children[p[0]], p[1..])
  }

  /** `a` is a proper ancestor path of `b`. */
  predicate StrictPrefix(a: Path, b: Path) {
    |a| < |b| && b[..|a|] == a
  }

  lemma {:induction false} AtAppend(t: Node, a: Path, r: Path)
    requires ValidPath(t, a)
    ensures ValidPath(t, a + r) <==> ValidPath(At(t, a), r)
    ensures ValidPath(t, a + r) ==> At(t, a + r) == At(At(t, a), r)
    decreases |a|
  {
    if |a| > 0 {
      assert (a + r)[0] == a[0];
      assert (a + r)[1..] == a[1..] + r;
      AtAppend(t.children[a[0]], a[1..], r);
    } else {
      assert a + r == r;
    }
  }

  /** Extending a valid path by one child index. */
  lemma AtSnoc(t: Node, p: Path, i: nat)
    requires ValidPath(t, p)
    ensures ValidPath(t, p + [i]) <==> i < |At(t, p).children|
    ensures ValidPath(t, p + [i]) ==> At(t, p + [i]) == At(t, p).children[i]
  {
    AtAppend(t, p, [i]);
  }

  /** Every ancestor path of a valid path is valid. */
  lemma {:induction false} ValidPrefix(t: Node, p: Path, k: nat)
    requires ValidPath(t, p) && k <= |p|
    ensures ValidPath(t, p[..k])
    decreases |p|
  {
    if k > 0 {
      assert p[..k][0] == p[0];
      assert p[..k][1..] == p[1..][..k - 1];
      ValidPrefix(t.children[p[0]], p[1..], k - 1);
    }
  }

  /** An ancestor of a valid path has at least one child. */
  lemma AncestorHasChildren(t: Node, p: Path, k: nat)
    requires ValidPath(t, p) && k < |p|
    ensures ValidPath(t, p[..k]) && |At(t, p[..k]).children| > 0
  {
    ValidPrefix(t, p, k + 1);
    ValidPrefix(t, p, k);
    assert p[..k + 1] == p[..k] + [p[k]];
    AtSnoc(t, p[..k], p[k]);
  }

  /** The paths of the subtree of `n`, which sits at `at`, in pre-order
      (parent first, then each child's subtree in declared order), entering
      the children of a node only when `isOpen` holds of its path. */
  function Walk(n: Node, at: Path, isOpen: Path -> bool): seq<Path>
    decreases n, 1
  {
    [at] + (if isOpen(at) then WalkFrom(n, at, isOpen, 0) else [])
  }

  /** The walks of the children of `n` from index `i` on. */
  function WalkFrom(n: Node, at: Path, isOpen: Path -> bool, i: nat): seq<Path>
    requires i <= |n.children|
    decreases n, 0, |n.children| - i
  {
    if i == |n.children| then []
    else Walk(n.children[i], at + [i], isOpen) + WalkFrom(n, at, isOpen, i + 1)
  }

  /** Every node, in pre-order: the traversal that never stops descending. */
  function Descendants(t: Node): seq<Path> {
    Walk(t, [], _ => true)
  }

  /** `q` lies in the subtree of `n` (rooted at `at`) and every node on the
      way from `at` down to `q`, `q` excluded, is open. */
  predicate Reached(n: Node, at: Path, isOpen: Path -> bool, q: Path) {
    && |at| <= |q| && q[..|at|] == at
    && ValidPath(n, q[|at|..])
    && forall k :: |at| <= k < |q| ==> isOpen(q[..k])
  }

  /** `q` is reached from the root when every proper ancestor of `q` is open. */
  predicate ReachedFromRoot(t: Node, isOpen: Path -> bool, q: Path) {
    ValidPath(t, q) && forall k :: 0 <= k < |q| ==> isOpen(q[..k])
  }

  lemma ReachedRoot(t: Node, isOpen: Path -> bool, q: Path)
    ensures Reached(t, [], isOpen, q) <==> ReachedFromRoot(t, isOpen, q)
  {
    assert q[0..] == q;
  }

  /** One step of `Reached`: below `at`, `q` is reached exactly when `at` is
      open and `q` is reached from the child on its way. */
  lemma ReachedStep(n: Node, at: Path, isOpen: Path -> bool, q: Path)
    requires |q| > |at| && q[..|at|] == at
    ensures Reached(n, at, isOpen, q) <==>
      (&& isOpen(at) && q[|at|] < |n.children|
       && Reached(n.children[q[|at|]], at + [q[|at|]], isOpen, q))
  {
    var j := q[|at|];
    assert q[..|at| + 1] == at + [j];
    assert q[|at|..][0] == j;
    assert q[|at|..][1..] == q[|at| + 1..];
    assert q[..|at|] == at;
    if Reached(n, at, isOpen, q) {
      assert isOpen(q[..|at|]);
    }
  }

  lemma {:induction false} WalkSpec(n: Node, at: Path, isOpen: Path -> bool, q: Path)
    ensures q in Walk(n, at, isOpen) <==> Reached(n, at, isOpen, q)
    decreases n, 1
  {
    if q == at {
      assert q[..|at|] == at && q[|at|..] == [];
    } else if |q| > |at| && q[..|at|] == at {
      if isOpen(at) {
        WalkFromSpec(n, at, isOpen, 0, q);
      }
      ReachedStep(n, at, isOpen, q);
    } else {
      if q in Walk(n, at, isOpen) {
        assert q in WalkFrom(n, at, isOpen, 0);
        WalkFromSpec(n, at, isOpen, 0, q);
      }
    }
  }

  lemma {:induction false} WalkFromSpec(n: Node, at: Path, isOpen: Path -> bool, i: nat, q: Path)
    requires i <= |n.children|
    ensures q in WalkFrom(n, at, isOpen, i) <==>
      (&& |q| > |at| && q[..|at|] == at && i <= q[|at|] < |n.children|
       && Reached(n.children[q[|at|]], at + [q[|at|]], isOpen, q))
    decreases n, 0, |n.children| - i
  {
    if i < |n.children| {
      WalkSpec(n.children[i], at + [i], isOpen, q);
      WalkFromSpec(n, at, isOpen, i + 1, q);
      if |q| >= |at| + 1 && q[..|at| + 1] == at + [i] {
        assert q[..|at|] == at && q[|at|] == i;
      }
      if |q| > |at| && q[..|at|] == at && q[|at|] == i {
        assert q[..|at| + 1] == at + [i];
      }
    }
  }

  /** The walk from the root lists exactly the valid paths whose proper
      ancestors are all open. */
  lemma WalkFromRoot(t: Node, isOpen: Path -> bool, q: Path)
    ensures q in Walk(t, [], isOpen) <==> ReachedFromRoot(t, isOpen, q)
  {
    WalkSpec(t, [], isOpen, q);
    ReachedRoot(t, isOpen, q);
  }

  /** Every valid path appears in the pre-order listing. */
  lemma DescendantsSpec(t: Node, q: Path)
    ensures q in Descendants(t) <==> ValidPath(t, q)
  {
    WalkFromRoot(t, _ => true, q);
  }

  /** Everything a walk lists is a valid path of the tree. */
  lemma WalkValid(t: Node, isOpen: Path -> bool)
    ensures forall q :: q in Walk(t, [], isOpen) ==> ValidPath(t, q)
  {
    forall q | q in Walk(t, [], isOpen) {
      WalkFromRoot(t, isOpen, q);
    }
  }

  // ---------------------------------------------------------------------
  // Order: a walk is the pre-order listing with the unreached paths removed.

  function Filter<T(!new)>(s: seq<T>, keep: T -> bool): (r: seq<T>)
    ensures |r| <= |s|
    ensures forall x :: x in r <==> x in s && keep(x)
  {
    if |s| == 0 then []
    else (if keep(s[0]) then [s[0]] else []) + Filter(s[1..], keep)
  }

  lemma {:induction false} FilterAppend<T(!new)>(a: seq<T>, b: seq<T>, keep: T -> bool)
    ensures Filter(a + b, keep) == Filter(a, keep) + Filter(b, keep)
  {
    if |a| > 0 {
      assert (a + b)[0] == a[0];
      assert (a + b)[1..] == a[1..] + b;
      FilterAppend(a[1..], b, keep);
    } else {
      assert a + b == b;
    }
  }

  /** Two tests that agree on every element of `s` filter it alike. */
  lemma {:induction false} FilterCongruent<T(!new)>(s: seq<T>, p: T -> bool, q: T -> bool)
    requires forall x :: x in s ==> (p(x) <==> q(x))
    ensures Filter(s, p) == Filter(s, q)
  {
    if |s| > 0 {
      assert s[0] in s;
      FilterCongruent(s[1..], p, q);
    }
  }

  lemma {:induction false} FilterAll<T(!new)>(s: seq<T>, keep: T -> bool)
    requires forall x :: x in s ==> keep(x)
    ensures Filter(s, keep) == s
  {
    if |s| > 0 {
      assert s[0] in s;
      FilterAll(s[1..], keep);
    }
  }

  lemma FilterNone<T(!new)>(s: seq<T>, keep: T -> bool)
    requires forall x :: x in s ==> !keep(x)
    ensures Filter(s, keep) == []
  {
  }

  /** A filter keeps each passing element as often as it occurs, and drops
      every other. */
  lemma {:induction false} FilterMultiset<T(!new)>(s: seq<T>, keep: T -> bool)
    ensures forall x :: multiset(Filter(s, keep))[x] == (if keep(x) then multiset(s)[x] else 0)
  {
    if |s| > 0 {
      FilterMultiset(s[1..], keep);
      assert s == [s[0]] + s[1..];
      assert multiset(s) == multiset{s[0]} + multiset(s[1..]);
    }
  }

  lemma {:induction false} WalkIsFiltered(n: Node, at: Path, isOpen: Path -> bool)
    ensures Walk(n, at, isOpen) ==
      Filter(Walk(n, at, _ => true), q => Reached(n, at, isOpen, q))
    decreases n, 1
  {
    var all := WalkFrom(n, at, _ => true, 0);
    var keep := (q: Path) => Reached(n, at, isOpen, q);
    assert Walk(n, at, _ => true) == [at] + all;
    FilterAppend([at], all, keep);
    assert at[..|at|] == at && at[|at|..] == [];
    assert Filter([at], keep) == [at];
    if isOpen(at) {
      WalkFromIsFiltered(n, at, isOpen, 0);
    } else {
      forall q | q in all
        ensures !keep(q)
      {
        WalkFromSpec(n, at, _ => true, 0, q);
        ReachedStep(n, at, isOpen, q);
      }
      FilterNone(all, keep);
    }
  }

  lemma {:induction false} WalkFromIsFiltered(n: Node, at: Path, isOpen: Path -> bool, i: nat)
    requires i <= |n.children| && isOpen(at)
    ensures WalkFrom(n, at, isOpen, i) ==
      Filter(WalkFrom(n, at, _ => true, i), q => Reached(n, at, isOpen, q))
    decreases n, 0, |n.children| - i
  {
    var keep := (q: Path) => Reached(n, at, isOpen, q);
    if i < |n.children| {
      var child := n.children[i];
      var head := Walk(child, at + [i], _ => true);
      var rest := WalkFrom(n, at, _ => true, i + 1);
      FilterAppend(head, rest, keep);
      WalkIsFiltered(child, at + [i], isOpen);
      WalkFromIsFiltered(n, at, isOpen, i + 1);
      var childKeep := (q: Path) => Reached(child, at + [i], isOpen, q);
      forall q | q in head
        ensures keep(q) <==> childKeep(q)
      {
        WalkSpec(child, at + [i], _ => true, q);
        assert q[..|at| + 1] == at + [i];
        assert q[..|at|] == at && q[|at|] == i;
        ReachedStep(n, at, isOpen, q);
      }
      FilterCongruent(head, keep, childKeep);
    }
  }

  /** The walk from the root is the pre-order listing of every node,
      restricted to the nodes whose proper ancestors are all open. */
  lemma WalkIsPreorderFiltered(t: Node, isOpen: Path -> bool)
    ensures Walk(t, [], isOpen) == Filter(Descendants(t), q => ReachedFromRoot(t, isOpen, q))
  {
    WalkIsFiltered(t, [], isOpen);
    forall q | q in Descendants(t)
      ensures Reached(t, [], isOpen, q) <==> ReachedFromRoot(t, isOpen, q)
    {
      ReachedRoot(t, isOpen, q);
    }
    FilterCongruent(Descendants(t), q => Reached(t, [], isOpen, q), q => ReachedFromRoot(t, isOpen, q));
  }

  // ---------------------------------------------------------------------
  // A walk lists each path once.

  predicate NoDuplicates<T(==)>(s: seq<T>) {
    forall i, j :: 0 <= i < j < |s| ==> s[i] != s[j]
  }

  lemma NoDuplicatesAppend<T>(a: seq<T>, b: seq<T>)
    requires NoDuplicates(a) && NoDuplicates(b)
    requires forall x :: x in a ==> x !in b
    ensures NoDuplicates(a + b)
  {
    forall i, j | 0 <= i < j < |a + b|
      ensures (a + b)[i] != (a + b)[j]
    {
      if j < |a| {
      } else if i >= |a| {
        assert (a + b)[i] == b[i - |a|] && (a + b)[j] == b[j - |a|];
      } else {
        assert (a + b)[i] == a[i] && (a + b)[j] == b[j - |a|];
        assert a[i] in a;
      }
    }
  }

  lemma {:induction false} WalkNoDuplicates(n: Node, at: Path, isOpen: Path -> bool)
    ensures NoDuplicates(Walk(n, at, isOpen))
    decreases n, 1
  {
    if isOpen(at) {
      var rest := WalkFrom(n, at, isOpen, 0);
      WalkFromNoDuplicates(n, at, isOpen, 0);
      forall x | x in [at] ensures x !in rest {
        if at in rest {
          WalkFromSpec(n, at, isOpen, 0, at);
        }
      }
      NoDuplicatesAppend([at], rest);
    }
  }

  lemma {:induction false} WalkFromNoDuplicates(n: Node, at: Path, isOpen: Path -> bool, i: nat)
    requires i <= |n.children|
    ensures NoDuplicates(WalkFrom(n, at, isOpen, i))
    decreases n, 0, |n.children| - i
  {
    if i < |n.children| {
      var head := Walk(n.children[i], at + [i], isOpen);
      var rest := WalkFrom(n, at, isOpen, i + 1);
      WalkNoDuplicates(n.children[i], at + [i], isOpen);
      WalkFromNoDuplicates(n, at, isOpen, i + 1);
      forall x | x in head ensures x !in rest {
        WalkSpec(n.children[i], at + [i], isOpen, x);
        WalkFromSpec(n, at, isOpen, i + 1, x);
        assert x[..|at| + 1] == at + [i];
        assert x[|at|] == i;
      }
      NoDuplicatesAppend(head, rest);
    }
  }

  // ---------------------------------------------------------------------
  // Reversal.

  /** `s` back to front, as `Array.prototype.reverse` leaves it. */
  function Reverse<T>(s: seq<T>): (r: seq<T>)
    ensures |r| == |s|
    ensures forall i :: 0 <= i < |s| ==> r[i] == s[|s| - 1 - i]
  {
    if |s| == 0 then [] else [s[|s| - 1]] + Reverse(s[..|s| - 1])
  }

  /** Reversal keeps the elements and keeps them distinct. */
  lemma ReverseSame<T>(s: seq<T>)
    ensures forall x :: x in Reverse(s) <==> x in s
    ensures NoDuplicates(s) ==> NoDuplicates(Reverse(s))
  {
    var r := Reverse(s);
    forall x | x in s ensures x in r {
      var i :| 0 <= i < |s| && s[i] == x;
      assert r[|s| - 1 - i] == x;
    }
  }

  lemma {:induction false} FilterNoDuplicates<T(!new)>(s: seq<T>, keep: T -> bool)
    requires NoDuplicates(s)
    ensures NoDuplicates(Filter(s, keep))
  {
    if |s| > 0 {
      assert NoDuplicates(s[1..]);
      FilterNoDuplicates(s[1..], keep);
      var head := if keep(s[0]) then [s[0]] else [];
      assert s[0] !in s[1..] by {
        forall j | 0 <= j < |s[1..]| ensures s[1..][j] != s[0] {
          assert s[1..][j] == s[j + 1];
        }
      }
      NoDuplicatesAppend(head, Filter(s[1..], keep));
    }
  }

  /** Splitting a test into two exclusive ones splits what it keeps. */
  lemma {:induction false} FilterSplit<T(!new)>(s: seq<T>, p: T -> bool, q: T -> bool, r: T -> bool)
    requires forall x :: r(x) <==> p(x) || q(x)
    requires forall x :: !(p(x) && q(x))
    ensures multiset(Filter(s, r)) == multiset(Filter(s, p)) + multiset(Filter(s, q))
  {
    if |s| > 0 {
      FilterSplit(s[1..], p, q, r);
    }
  }

  lemma MultisetCancel<T>(a: multiset<T>, b: multiset<T>, x: T)
    requires a + multiset{x} == b + multiset{x}
    ensures a == b
  {
    forall y ensures a[y] == b[y] {
      assert (a + multiset{x})[y] == (b + multiset{x})[y];
    }
  }

  // ---------------------------------------------------------------------
  // Breadth-first order.

  /** A bound on the length of every listed path. */
  function MaxDepth(ps: seq<Path>): (m: nat)
    ensures forall q :: q in ps ==> |q| <= m
  {
    if |ps| == 0 then 0
    else
      var m := MaxDepth(ps[1..]);
      if |ps[0]| > m then |ps[0]| else m
  }

  function DepthIs(d: nat): Path -> bool {
    q => |q| == d
  }

  function DepthWithin(d: nat, last: nat): Path -> bool {
    q => d <= |q| <= last
  }

  /** The listed paths of depth `d`, in listed order. */
  function Level(ps: seq<Path>, d: nat): seq<Path> {
    Filter(ps, DepthIs(d))
  }

  /** Levels `d` to `last`, one after another. */
  function Levels(ps: seq<Path>, d: nat, last: nat): seq<Path>
    decreases last + 1 - d
  {
    if d > last then [] else Level(ps, d) + Levels(ps, d + 1, last)
  }

  /** The listed paths level by level. On a pre-order listing each level is
      in left-to-right order, so this is the order in which a breadth-first
      traversal meets them. */
  function Breadth(ps: seq<Path>): seq<Path> {
    Levels(ps, 0, MaxDepth(ps))
  }

  lemma {:induction false} LevelsMembers(ps: seq<Path>, d: nat, last: nat)
    ensures forall q :: q in Levels(ps, d, last) <==> q in ps && d <= |q| <= last
    decreases last + 1 - d
  {
    if d <= last {
      LevelsMembers(ps, d + 1, last);
    }
  }

  lemma {:induction false} LevelsMultiset(ps: seq<Path>, d: nat, last: nat)
    ensures multiset(Levels(ps, d, last)) == multiset(Filter(ps, DepthWithin(d, last)))
    decreases last + 1 - d
  {
    if d > last {
      FilterNone(ps, DepthWithin(d, last));
    } else {
      LevelsMultiset(ps, d + 1, last);
      FilterSplit(ps, DepthIs(d), DepthWithin(d + 1, last), DepthWithin(d, last));
    }
  }

  lemma {:induction false} LevelsNoDuplicates(ps: seq<Path>, d: nat, last: nat)
    requires NoDuplicates(ps)
    ensures NoDuplicates(Levels(ps, d, last))
    decreases last + 1 - d
  {
    if d <= last {
      LevelsNoDuplicates(ps, d + 1, last);
      LevelsMembers(ps, d + 1, last);
      FilterNoDuplicates(ps, DepthIs(d));
      NoDuplicatesAppend(Level(ps, d), Levels(ps, d + 1, last));
    }
  }

  lemma {:induction false} LevelsSorted(ps: seq<Path>, d: nat, last: nat)
    ensures forall i, j :: 0 <= i < j < |Levels(ps, d, last)| ==>
      |Levels(ps, d, last)[i]| <= |Levels(ps, d, last)[j]|
    decreases last + 1 - d
  {
    if d <= last {
      var here, rest := Level(ps, d), Levels(ps, d + 1, last);
      LevelsSorted(ps, d + 1, last);
      LevelsMembers(ps, d + 1, last);
      var all := here + rest;
      forall i, j | 0 <= i < j < |all|
        ensures |all[i]| <= |all[j]|
      {
        if j < |here| {
          assert here[i] in here && here[j] in here;
        } else if i < |here| {
          assert here[i] in here && rest[j - |here|] in rest;
        }
      }
    }
  }

  /** Taking one depth out of the levels gives that level as listed. */
  lemma {:induction false} LevelsLevel(ps: seq<Path>, d: nat, last: nat, e: nat)
    requires d <= e <= last
    ensures Filter(Levels(ps, d, last), DepthIs(e)) == Level(ps, e)
    decreases last + 1 - d
  {
    var here, rest := Level(ps, d), Levels(ps, d + 1, last);
    FilterAppend(here, rest, DepthIs(e));
    LevelFilter(ps, d, e);
    if d == e {
      LevelsMembers(ps, d + 1, last);
      FilterNone(rest, DepthIs(e));
    } else {
      LevelsLevel(ps, d + 1, last, e);
    }
  }

  lemma LevelFilter(ps: seq<Path>, d: nat, e: nat)
    ensures Filter(Level(ps, d), DepthIs(e)) == if d == e then Level(ps, d) else []
  {
    forall x | x in Level(ps, d) ensures |x| == d {
      assert DepthIs(d)(x);
    }
    if d == e {
      FilterAll(Level(ps, d), DepthIs(e));
    } else {
      FilterNone(Level(ps, d), DepthIs(e));
    }
  }

  /** The breadth-first listing reorders the listing: the same paths, each as
      often, shallower paths first, and the paths of one depth in listed
      order. */
  lemma BreadthSpec(ps: seq<Path>)
    ensures forall q :: q in Breadth(ps) <==> q in ps
    ensures multiset(Breadth(ps)) == multiset(ps)
    ensures NoDuplicates(ps) ==> NoDuplicates(Breadth(ps))
    ensures forall i, j :: 0 <= i < j < |Breadth(ps)| ==> |Breadth(ps)[i]| <= |Breadth(ps)[j]|
  {
    var last := MaxDepth(ps);
    LevelsMembers(ps, 0, last);
    LevelsMultiset(ps, 0, last);
    if NoDuplicates(ps) {
      LevelsNoDuplicates(ps, 0, last);
    }
    LevelsSorted(ps, 0, last);
    FilterAll(ps, DepthWithin(0, last));
  }

  lemma BreadthLevel(ps: seq<Path>, d: nat)
    ensures Filter(Breadth(ps), DepthIs(d)) == Level(ps, d)
  {
    var last := MaxDepth(ps);
    if d <= last {
      LevelsLevel(ps, 0, last, d);
    } else {
      LevelsMembers(ps, 0, last);
      FilterNone(Breadth(ps), DepthIs(d));
      FilterNone(ps, DepthIs(d));
    }
  }
}
