/** The dependency indexer of the hierarchy explorer: a walk over every node
    that counts, per code, how often it is referenced from `dependencies`
    lists, a code-to-node lookup, and the per-node annotations
    (`dependentCount`, `isCritical`) derived from them. The tables are
    built the way the explorer builds them, one reference or node at a
    time; the lemmas relate them to direct definitions over the tree. */
module Indexer {
  import opened Types
  import opened Tree

  /** How often `c` occurs in `codes`. */
  function Count(c: string, codes: seq<string>): (r: nat)
    ensures r <= |codes|
    ensures r > 0 <==> c in codes
  {
    if |codes| == 0 then 0
    else (if codes[0] == c then 1 else 0) + Count(c, codes[1..])
  }

  lemma {:induction false} CountAppend(c: string, a: seq<string>, b: seq<string>)
    ensures Count(c, a + b) == Count(c, a) + Count(c, b)
  {
    if |a| == 0 {
      assert a + b == b;
    } else {
      assert (a + b)[0] == a[0];
      assert (a + b)[1..] == a[1..] + b;
      CountAppend(c, a[1..], b);
    }
  }

  /** Reference definition: the number of entries equal to `c` in the
      `dependencies` lists of all nodes of the subtree `n`, counting repeated
      entries and a node's reference to its own code like any other. */
  function Occurrences(c: string, n: Node): nat
    decreases n, 1
  {
    Count(c, n.dependencies) + OccurrencesFrom(c, n, 0)
  }

  function OccurrencesFrom(c: string, n: Node, i: nat): nat
    requires i <= |n.children|
    decreases n, 0, |n.children| - i
  {
    if i == |n.children| then 0
    else Occurrences(c, n.children[i]) + OccurrencesFrom(c, n, i + 1)
  }

  /** The `dependencies` of the node at `q`; nothing for a path that
      addresses no node. */
  function DepsAt(t: Node, q: Path): seq<string> {
    if ValidPath(t, q) then At(t, q).dependencies else []
  }

  /** The dependency entries of a subtree in pre-order: the node's own
      list, then each child's subtree in declared order. */
  function FlatDeps(n: Node): seq<string>
    decreases n, 1
  {
    n.dependencies + FlatDepsFrom(n, 0)
  }

  function FlatDepsFrom(n: Node, i: nat): seq<string>
    requires i <= |n.children|
    decreases n, 0, |n.children| - i
  {
    if i == |n.children| then [] else FlatDeps(n.children[i]) + FlatDepsFrom(n, i + 1)
  }

  /** Counting over the flattened entries counts the occurrences. */
  lemma {:induction false} OccurrencesFlat(c: string, n: Node)
    ensures Occurrences(c, n) == Count(c, FlatDeps(n))
    decreases n, 1
  {
    OccurrencesFlatFrom(c, n, 0);
    CountAppend(c, n.dependencies, FlatDepsFrom(n, 0));
  }

  lemma {:induction false} OccurrencesFlatFrom(c: string, n: Node, i: nat)
    requires i <= |n.children|
    ensures OccurrencesFrom(c, n, i) == Count(c, FlatDepsFrom(n, i))
    decreases n, 0, |n.children| - i
  {
    if i < |n.children| {
      OccurrencesFlat(c, n.children[i]);
      OccurrencesFlatFrom(c, n, i + 1);
      CountAppend(c, FlatDeps(n.children[i]), FlatDepsFrom(n, i + 1));
    }
  }

  /** The dependency lists of the nodes at `ps`, in order, one after another. */
  function DepsOf(t: Node, ps: seq<Path>): seq<string> {
    if |ps| == 0 then [] else DepsOf(t, ps[..|ps| - 1]) + DepsAt(t, ps[|ps| - 1])
  }

  lemma {:induction false} DepsOfAppend(t: Node, a: seq<Path>, b: seq<Path>)
    ensures DepsOf(t, a + b) == DepsOf(t, a) + DepsOf(t, b)
    decreases |b|
  {
    if |b| == 0 {
      assert a + b == a;
    } else {
      assert (a + b)[..|a + b| - 1] == a + b[..|b| - 1];
      assert (a + b)[|a + b| - 1] == b[|b| - 1];
      DepsOfAppend(t, a, b[..|b| - 1]);
    }
  }

  lemma DepsOfSingle(t: Node, q: Path)
    ensures DepsOf(t, [q]) == DepsAt(t, q)
  {
    assert [q][..0] == [];
  }

  /** Visiting every node of a subtree in walk order meets its entries in
      pre-order. */
  lemma {:induction false} DepsOfWalk(t: Node, n: Node, at: Path)
    requires ValidPath(t, at) && At(t, at) == n
    ensures DepsOf(t, Walk(n, at, _ => true)) == FlatDeps(n)
    decreases n, 1
  {
    DepsOfAppend(t, [at], WalkFrom(n, at, _ => true, 0));
    DepsOfSingle(t, at);
    DepsOfWalkFrom(t, n, at, 0);
  }

  lemma {:induction false} DepsOfWalkFrom(t: Node, n: Node, at: Path, i: nat)
    requires ValidPath(t, at) && At(t, at) == n && i <= |n.children|
    ensures DepsOf(t, WalkFrom(n, at, _ => true, i)) == FlatDepsFrom(n, i)
    decreases n, 0, |n.children| - i
  {
    if i < |n.children| {
      AtSnoc(t, at, i);
      DepsOfAppend(t, Walk(n.children[i], at + [i], _ => true), WalkFrom(n, at, _ => true, i + 1));
      DepsOfWalk(t, n.children[i], at + [i]);
      DepsOfWalkFrom(t, n, at, i + 1);
    }
  }

  /** Leaving out nodes that list no dependencies leaves the entries as
      they were. */
  lemma {:induction false} DepsOfFilter(t: Node, ps: seq<Path>, keep: Path -> bool)
    requires forall q :: q in ps && !keep(q) ==> DepsAt(t, q) == []
    ensures DepsOf(t, Filter(ps, keep)) == DepsOf(t, ps)
    decreases |ps|
  {
    if |ps| > 0 {
      var head := if keep(ps[0]) then [ps[0]] else [];
      assert ps == [ps[0]] + ps[1..];
      DepsOfFilter(t, ps[1..], keep);
      DepsOfAppend(t, [ps[0]], ps[1..]);
      DepsOfAppend(t, head, Filter(ps[1..], keep));
      DepsOfSingle(t, ps[0]);
      assert head == [] ==> DepsOf(t, head) == [];
    }
  }

  /** An entry of a listed node is among the listed entries. */
  lemma {:induction false} DepsOfMember(t: Node, ps: seq<Path>, q: Path, d: string)
    requires q in ps && d in DepsAt(t, q)
    ensures d in DepsOf(t, ps)
    decreases |ps|
  {
    if q != ps[|ps| - 1] {
      assert q in ps[..|ps| - 1];
      DepsOfMember(t, ps[..|ps| - 1], q, d);
    }
  }

  /** Visiting the same nodes back to front meets the same entries. */
  lemma {:induction false} DepsOfReverse(t: Node, ps: seq<Path>)
    ensures multiset(DepsOf(t, Reverse(ps))) == multiset(DepsOf(t, ps))
    decreases |ps|
  {
    if |ps| > 0 {
      var init, last := ps[..|ps| - 1], ps[|ps| - 1];
      assert Reverse(ps) == [last] + Reverse(init);
      DepsOfAppend(t, [last], Reverse(init));
      DepsOfSingle(t, last);
      DepsOfReverse(t, init);
    }
  }

  /** Visiting the same nodes in any order meets the same entries. */
  lemma {:induction false} DepsOfPermutation(t: Node, a: seq<Path>, b: seq<Path>)
    requires multiset(a) == multiset(b)
    ensures multiset(DepsOf(t, a)) == multiset(DepsOf(t, b))
    decreases |a|
  {
    if |a| > 0 {
      var init, last := a[..|a| - 1], a[|a| - 1];
      assert a == init + [last];
      assert last in multiset(b);
      var k :| 0 <= k < |b| && b[k] == last;
      var b1, b2 := b[..k], b[k + 1..];
      assert b == b1 + [last] + b2;
      MultisetCancel(multiset(init), multiset(b1 + b2), last);
      DepsOfPermutation(t, init, b1 + b2);
      DepsOfAppend(t, b1, b2);
      DepsOfAppend(t, b1 + [last], b2);
      DepsOfAppend(t, b1, [last]);
      DepsOfSingle(t, last);
    } else {
      assert b == [];
    }
  }

  // ---------------------------------------------------------------------
  // The reference-count table, built one reference at a time.

  /** `dependentsCount[code] || 0`: a missing entry reads as 0. */
  function Lookup(m: map<string, nat>, c: string): nat {
    if c in m then m[c] else 0
  }

  /** One reference to `d`: create the entry at 0 if missing, then add one. */
  function Bump(m: map<string, nat>, d: string): map<string, nat> {
    m[d := Lookup(m, d) + 1]
  }

  /** Visit the entries of one `dependencies` list in order. */
  function AddReferences(m: map<string, nat>, deps: seq<string>): map<string, nat> {
    if |deps| == 0 then m
    else Bump(AddReferences(m, deps[..|deps| - 1]), deps[|deps| - 1])
  }

  /** Visit the nodes at `ps` in order. */
  function CountIndex(t: Node, ps: seq<Path>): map<string, nat> {
    if |ps| == 0 then map[]
    else AddReferences(CountIndex(t, ps[..|ps| - 1]), DepsAt(t, ps[|ps| - 1]))
  }

  /** The table the explorer builds over every node of the document. */
  function DependentsIndex(t: Node): map<string, nat> {
    CountIndex(t, Descendants(t))
  }

  lemma {:induction false} AddReferencesSpec(m: map<string, nat>, deps: seq<string>, c: string)
    ensures Lookup(AddReferences(m, deps), c) == Lookup(m, c) + Count(c, deps)
    ensures c in AddReferences(m, deps) <==> c in m || c in deps
    decreases |deps|
  {
    if |deps| > 0 {
      var init := deps[..|deps| - 1];
      AddReferencesSpec(m, init, c);
      assert deps == init + [deps[|deps| - 1]];
      CountAppend(c, init, [deps[|deps| - 1]]);
    }
  }

  lemma {:induction false} CountIndexSpec(t: Node, ps: seq<Path>, c: string)
    ensures Lookup(CountIndex(t, ps), c) == Count(c, DepsOf(t, ps))
    decreases |ps|
  {
    if |ps| > 0 {
      var init := ps[..|ps| - 1];
      CountIndexSpec(t, init, c);
      AddReferencesSpec(CountIndex(t, init), DepsAt(t, ps[|ps| - 1]), c);
      CountAppend(c, DepsOf(t, init), DepsAt(t, ps[|ps| - 1]));
    }
  }

  lemma {:induction false} CountIndexKeys(t: Node, ps: seq<Path>, c: string)
    ensures c in CountIndex(t, ps) <==> c in DepsOf(t, ps)
    decreases |ps|
  {
    if |ps| > 0 {
      var init := ps[..|ps| - 1];
      CountIndexKeys(t, init, c);
      AddReferencesSpec(CountIndex(t, init), DepsAt(t, ps[|ps| - 1]), c);
    }
  }

  /** The count table holds, for every code, the number of references to it
      from the `dependencies` of all nodes, repeats and self-references
      included; a code has an entry exactly when it is referenced at all,
      whether or not any node carries it. */
  lemma DependentsIndexCounts(t: Node, c: string)
    ensures Lookup(DependentsIndex(t), c) == Occurrences(c, t)
    ensures c in DependentsIndex(t) <==> Occurrences(c, t) > 0
  {
    CountIndexSpec(t, Descendants(t), c);
    CountIndexKeys(t, Descendants(t), c);
    DepsOfWalk(t, t, []);
    OccurrencesFlat(c, t);
  }

  // ---------------------------------------------------------------------
  // Per-node annotations.

  datatype Annotation = Annotation(dependentCount: nat, isCritical: bool)

  /** The annotation of one node from the count table: nodes without a
      (non-empty) code get 0, and a node is critical from two dependents on. */
  function Annotate(index: map<string, nat>, n: Node): Annotation {
    var count := match CodeKey(n) case Some(c) => Lookup(index, c) case None => 0;
    Annotation(count, count >= 2)
  }

  function NodeAnnotation(t: Node, p: Path): Annotation
    requires ValidPath(t, p)
  {
    Annotate(DependentsIndex(t), At(t, p))
  }

  /** The dependent count of a node with a code is the number of references
      to that code anywhere in the document; a node without one has none;
      and the critical flag holds exactly when that number is at least 2. */
  lemma AnnotationSpec(t: Node, p: Path)
    requires ValidPath(t, p)
    ensures var a := NodeAnnotation(t, p);
      && (CodeKey(At(t, p)).Some? ==> a.dependentCount == Occurrences(CodeKey(At(t, p)).value, t))
      && (CodeKey(At(t, p)).None? ==> a.dependentCount == 0)
      && (a.isCritical <==> CodeKey(At(t, p)).Some? && Occurrences(CodeKey(At(t, p)).value, t) >= 2)
  {
    if CodeKey(At(t, p)).Some? {
      DependentsIndexCounts(t, CodeKey(At(t, p)).value);
    }
  }

  // ---------------------------------------------------------------------
  // The code-to-node lookup.

  /** The node at `q` is indexed under `c`. */
  predicate KeyedAt(t: Node, q: Path, c: string) {
    ValidPath(t, q) && CodeKey(At(t, q)) == Some(c)
  }

  /** Record each node at `ps` under its code, in order; a later node with
      the same code overwrites an earlier one. */
  function CodeIndex(t: Node, ps: seq<Path>): map<string, Path> {
    if |ps| == 0 then map[]
    else
      var m := CodeIndex(t, ps[..|ps| - 1]);
      var q := ps[|ps| - 1];
      if ValidPath(t, q) && CodeKey(At(t, q)).Some? then m[CodeKey(At(t, q)).value := q] else m
  }

  /** No two listed nodes share a code. */
  predicate UniqueKeys(t: Node, ps: seq<Path>) {
    forall q1, q2 ::
      (&& q1 in ps && q2 in ps && ValidPath(t, q1) && ValidPath(t, q2)
       && CodeKey(At(t, q1)).Some? && CodeKey(At(t, q1)) == CodeKey(At(t, q2)))
      ==> q1 == q2
  }

  /** The lookup has an entry for exactly the codes carried by listed nodes,
      each entry names a listed node carrying that code, and when codes are
      unique it names the only such node. */
  lemma {:induction false} CodeIndexSpec(t: Node, ps: seq<Path>, c: string)
    ensures c in CodeIndex(t, ps) <==> exists q :: q in ps && KeyedAt(t, q, c)
    ensures c in CodeIndex(t, ps) ==> CodeIndex(t, ps)[c] in ps && KeyedAt(t, CodeIndex(t, ps)[c], c)
    ensures UniqueKeys(t, ps) ==> forall q :: q in ps && KeyedAt(t, q, c) ==> c in CodeIndex(t, ps) && CodeIndex(t, ps)[c] == q
    decreases |ps|
  {
    if |ps| > 0 {
      var init := ps[..|ps| - 1];
      var last := ps[|ps| - 1];
      assert ps == init + [last];
      CodeIndexSpec(t, init, c);
      if UniqueKeys(t, ps) {
        assert UniqueKeys(t, init) by {
          forall q1, q2 | q1 in init && q2 in init
            ensures q1 in ps && q2 in ps
          {
          }
        }
      }
      if c in CodeIndex(t, ps) {
        if !KeyedAt(t, last, c) {
          var q :| q in init && KeyedAt(t, q, c);
          assert q in ps;
        }
      }
      if exists q :: q in ps && KeyedAt(t, q, c) {
        var q :| q in ps && KeyedAt(t, q, c);
        if q != last {
          assert q in init;
        }
      }
    }
  }

  /** Of several listed nodes carrying `c`, the lookup names the last. */
  lemma {:induction false} CodeIndexLast(t: Node, ps: seq<Path>, c: string, k: nat)
    requires k < |ps| && KeyedAt(t, ps[k], c)
    requires forall j :: k < j < |ps| ==> !KeyedAt(t, ps[j], c)
    ensures c in CodeIndex(t, ps) && CodeIndex(t, ps)[c] == ps[k]
    decreases |ps|
  {
    if k < |ps| - 1 {
      var init := ps[..|ps| - 1];
      assert !KeyedAt(t, ps[|ps| - 1], c);
      CodeIndexLast(t, init, c, k);
    }
  }
}
