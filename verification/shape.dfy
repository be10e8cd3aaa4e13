/** The shape of a platform hierarchy as the document lays it out: a platform
    root, domains, modules, and leaves (components, services and tables), with
    codes that nest level by level. Everything here holds for any hierarchy of
    that shape; the document is shown to have it elsewhere. */
module Shape {
  import opened Types
  import opened Tree
  import opened Indexer

  // ---------------------------------------------------------------------
  // Levels

  /** A component, service or table: a code, no children, no dependencies,
      and only the payload its kind can show. */
  predicate IsLeaf(n: Node) {
    && |n.children| == 0 && |n.dependencies| == 0 && n.code.Some?
    && (n.kind == Component || n.kind == Service || n.kind == Data)
    && (n.apiSpecs.Some? ==> n.kind == Service)
    && (n.dataSchema.Some? ==> n.kind == Data)
  }

  /** A module: a code it does not list among its own dependencies, no
      payload, and leaves below it. */
  predicate IsModule(m: Node) {
    && m.kind == Module && m.code.Some? && m.apiSpecs.None? && m.dataSchema.None?
    && m.code.value !in m.dependencies
    && forall i :: 0 <= i < |m.children| ==> IsLeaf(m.children[i])
  }

  /** A domain: a code, no dependencies, no payload, and modules below it. */
  predicate IsDomain(d: Node) {
    && d.kind == Domain && d.code.Some? && |d.dependencies| == 0
    && d.apiSpecs.None? && d.dataSchema.None?
    && forall i :: 0 <= i < |d.children| ==> IsModule(d.children[i])
  }

  /** The root: no dependencies, no payload, and domains below it. */
  predicate IsPlatform(t: Node) {
    && t.kind == Platform && |t.dependencies| == 0
    && t.apiSpecs.None? && t.dataSchema.None?
    && forall i :: 0 <= i < |t.children| ==> IsDomain(t.children[i])
  }

  /** What the shape says about the node at any path: the kind follows the
      depth, only modules list dependencies, payloads sit on the kinds that
      can show them, and no node depends on its own code. */
  lemma PlatformPaths(t: Node, q: Path)
    requires IsPlatform(t) && ValidPath(t, q)
    ensures |q| <= 3
    ensures |q| == 0 ==> At(t, q).kind == Platform
    ensures |q| == 1 ==> At(t, q).kind == Domain
    ensures |q| == 2 ==> At(t, q).kind == Module
    ensures |q| == 3 ==> At(t, q).kind in {Component, Service, Data}
    ensures |At(t, q).dependencies| > 0 ==> |q| == 2
    ensures At(t, q).apiSpecs.Some? ==> At(t, q).kind == Service
    ensures At(t, q).dataSchema.Some? ==> At(t, q).kind == Data
    ensures CodeKey(At(t, q)).Some? ==> CodeKey(At(t, q)).value !in At(t, q).dependencies
  {
    if |q| >= 1 {
      var d := t.children[q[0]];
      assert IsDomain(d);
      if |q| >= 2 {
        var m := d.children[q[1]];
        assert IsModule(m);
        assert At(t, q) == At(m, q[2..]) by {
          assert q[1..][1..] == q[2..];
        }
        if |q| >= 3 {
          var l := m.children[q[2]];
          assert IsLeaf(l);
          assert q[2..][1..] == q[3..];
          assert ValidPath(l, q[3..]) && At(m, q[2..]) == At(l, q[3..]);
        }
      }
    }
  }

  /** Domains sit at depth 1, modules at depth 2, and components, services
      and tables at depth 3. */
  predicate KindFollowsDepth(t: Node, q: Path)
    requires ValidPath(t, q)
  {
    var k := At(t, q).kind;
    && (|q| == 1 ==> k == Domain)
    && (|q| == 2 ==> k == Module)
    && (|q| == 3 ==> k == Component || k == Service || k == Data)
  }

  lemma PlatformKinds(t: Node, q: Path)
    requires IsPlatform(t) && ValidPath(t, q)
    ensures KindFollowsDepth(t, q)
  {
    PlatformPaths(t, q);
  }

  // ---------------------------------------------------------------------
  // Nested codes

  /** The code of a node, or "" when it has none. */
  function Key(n: Node): string {
    if n.code.Some? then n.code.value else ""
  }

  /** `b` continues `a`: `a` is a proper prefix of `b`. */
  predicate Extends(a: string, b: string) {
    |a| < |b| && b[..|a|] == a
  }

  /** Each child's code continues its parent's (any non-empty code continues
      the root's absent one). */
  predicate Nested(n: Node) {
    forall i :: 0 <= i < |n.children| ==>
      n.children[i].code.Some? && Extends(Key(n), n.children[i].code.value)
  }

  /** Sibling codes differ. */
  predicate SiblingsDistinct(n: Node) {
    forall i, j :: 0 <= i < j < |n.children| ==> n.children[i].code != n.children[j].code
  }

  /** A child that has children of its own has a code as long as each of its
      siblings' codes. */
  predicate Aligned(n: Node) {
    forall i, j :: 0 <= i < |n.children| && 0 <= j < |n.children| && |n.children[i].children| > 0 ==>
      |Key(n.children[i])| == |Key(n.children[j])|
  }

  /** Codes nest at every level below `n`. */
  predicate Layered(n: Node)
    decreases n
  {
    && Nested(n) && SiblingsDistinct(n) && Aligned(n)
    && forall i :: 0 <= i < |n.children| ==> Layered(n.children[i])
  }

  /** Nothing below a leaf, so nothing to nest. */
  lemma LeafLayered(n: Node)
    requires |n.children| == 0
    ensures Layered(n)
  {
  }

  /** A module nests when its own level does: below it are only leaves. */
  lemma ModuleLayered(m: Node)
    requires IsModule(m) && Nested(m) && SiblingsDistinct(m)
    ensures Layered(m)
  {
    forall i | 0 <= i < |m.children|
      ensures Layered(m.children[i])
    {
      assert IsLeaf(m.children[i]);
      LeafLayered(m.children[i]);
    }
  }

  /** All children's codes have length `w`. */
  predicate Width(n: Node, w: nat) {
    forall i :: 0 <= i < |n.children| ==> |Key(n.children[i])| == w
  }

  lemma WidthAligned(n: Node, w: nat)
    requires Width(n, w)
    ensures Aligned(n)
  {
  }

  /** Every code below `n` continues `n`'s code and the code of the child it
      descends from. */
  lemma {:induction false} LayeredDescends(n: Node, q: Path)
    requires Layered(n) && ValidPath(n, q) && |q| > 0
    ensures At(n, q).code.Some?
    ensures Extends(Key(n), Key(At(n, q)))
    ensures |q| > 1 ==> Extends(Key(n.children[q[0]]), Key(At(n, q)))
    decreases |q|
  {
    var c := n.children[q[0]];
    if |q| > 1 {
      LayeredDescends(c, q[1..]);
      var a, b, k := Key(n), Key(c), Key(At(n, q));
      assert k[..|a|] == k[..|b|][..|a|];
    }
  }

  /** In a layered hierarchy no two nodes share a code. */
  lemma {:induction false} LayeredUnique(n: Node, q1: Path, q2: Path)
    requires Layered(n) && ValidPath(n, q1) && ValidPath(n, q2)
    requires CodeKey(At(n, q1)).Some? && CodeKey(At(n, q1)) == CodeKey(At(n, q2))
    ensures q1 == q2
    decreases |q1|
  {
    if |q1| == 0 && |q2| > 0 {
      LayeredDescends(n, q2);
    } else if |q1| > 0 && |q2| == 0 {
      LayeredDescends(n, q1);
    } else if |q1| > 0 {
      var i, j := q1[0], q2[0];
      if i == j {
        LayeredUnique(n.children[i], q1[1..], q2[1..]);
        assert q1 == [i] + q1[1..] && q2 == [j] + q2[1..];
      } else {
        if |q1| > 1 {
          LayeredDescends(n, q1);
        }
        if |q2| > 1 {
          LayeredDescends(n, q2);
        }
      }
    }
  }

  /** Hence every list of nodes of a layered hierarchy has unique codes. */
  lemma LayeredUniqueKeys(t: Node, ps: seq<Path>)
    requires Layered(t)
    ensures UniqueKeys(t, ps)
  {
    forall q1, q2 | q1 in ps && q2 in ps && ValidPath(t, q1) && ValidPath(t, q2)
        && CodeKey(At(t, q1)).Some? && CodeKey(At(t, q1)) == CodeKey(At(t, q2))
      ensures q1 == q2
    {
      LayeredUnique(t, q1, q2);
    }
  }

  // ---------------------------------------------------------------------
  // Dependency entries by level

  /** A module's entries are its own: its leaves list none. */
  lemma ModuleFlatDeps(m: Node)
    requires IsModule(m)
    ensures FlatDeps(m) == m.dependencies
  {
    ModuleFlatDepsFrom(m, 0);
  }

  lemma {:induction false} ModuleFlatDepsFrom(m: Node, i: nat)
    requires IsModule(m) && i <= |m.children|
    ensures FlatDepsFrom(m, i) == []
    decreases |m.children| - i
  {
    if i < |m.children| {
      assert IsLeaf(m.children[i]);
      assert FlatDepsFrom(m.children[i], 0) == [];
      ModuleFlatDepsFrom(m, i + 1);
    }
  }
}
