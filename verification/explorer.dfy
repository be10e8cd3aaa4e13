/** The hierarchy explorer: a collapsible node-link view of the document with
    a dependency overlay and a detail panel for the selected node.

    A node of the laid-out tree either shows its children (`children` set)
    or keeps them stashed (`_children` set) or, as a leaf, has neither. The
    state records the set of nodes that show their children; the other two
    fields follow from it and from the document. */
module Explorer {
  import opened Types
  import opened Tree
  import opened Indexer

  datatype Explorer = Explorer(
    open: set<Path>,
    selected: Option<Path>,
    tab: Tab,
    showDependencies: bool)

  function IsOpen(s: Explorer): Path -> bool {
    p => p in s.open
  }

  /** Nodes of depth 0 and 1 keep their children in view; every deeper node
      stashes them. A node without children has nothing to show. */
  function InitialOpen(t: Node): set<Path> {
    (if |t.children| > 0 then {[]} else {})
    + (set i | 0 <= i < |t.children| && |t.children[i].children| > 0 :: [i])
  }

  /** The state after the explorer first lays out the document. */
  function Initial(t: Node): Explorer {
    Explorer(InitialOpen(t), None, Info, false)
  }

  lemma InitialOpenSpec(t: Node, p: Path)
    ensures p in InitialOpen(t) <==> ValidPath(t, p) && |p| <= 1 && |At(t, p).children| > 0
  {
    if |p| == 1 {
      assert p == [p[0]] && p[1..] == [];
      if p in InitialOpen(t) {
        var i :| 0 <= i < |t.children| && |t.children[i].children| > 0 && p == [i];
      }
    }
  }

  /** The nodes laid out: the root and every node whose proper ancestors all
      show their children, in pre-order. */
  function Visible(t: Node, s: Explorer): seq<Path> {
    Walk(t, [], IsOpen(s))
  }

  /** What every reachable state satisfies: only nodes with children show
      them, and a selected node exists and has its active tab on offer. */
  predicate WellFormed(t: Node, s: Explorer) {
    && (forall p :: p in s.open ==> ValidPath(t, p) && |At(t, p).children| > 0)
    && (s.selected.Some? ==>
          ValidPath(t, s.selected.value) && s.tab in AvailableTabs(At(t, s.selected.value)))
  }

  lemma InitialWellFormed(t: Node)
    ensures WellFormed(t, Initial(t))
  {
    forall p | p in InitialOpen(t)
      ensures ValidPath(t, p) && |At(t, p).children| > 0
    {
      InitialOpenSpec(t, p);
    }
  }

  /** Right after layout exactly the nodes of depth at most 2 are visible:
      depths 0 and 1 are expanded and everything deeper is collapsed. */
  lemma InitialVisible(t: Node, q: Path)
    ensures q in Visible(t, Initial(t)) <==> ValidPath(t, q) && |q| <= 2
  {
    WalkFromRoot(t, IsOpen(Initial(t)), q);
    if ValidPath(t, q) && |q| <= 2 {
      forall k | 0 <= k < |q|
        ensures q[..k] in InitialOpen(t)
      {
        AncestorHasChildren(t, q, k);
        InitialOpenSpec(t, q[..k]);
      }
    }
    if ValidPath(t, q) && |q| > 2 {
      InitialOpenSpec(t, q[..2]);
      assert !IsOpen(Initial(t))(q[..2]);
    }
  }

  // ---------------------------------------------------------------------
  // Detail tabs.

  predicate HasApi(n: Node) {
    n.apiSpecs.Some? && |n.apiSpecs.value| > 0
  }

  predicate HasSchema(n: Node) {
    n.dataSchema.Some?
  }

  /** The tab buttons the panel renders for a node. */
  function AvailableTabs(n: Node): set<Tab> {
    {Info} + (if HasApi(n) then {Api} else {}) + (if HasSchema(n) then {Schema} else {})
  }

  /** The tab a click selects: the schema when there is one, else the API
      when there is a non-empty one, else the info tab. It is always on
      offer, it is Info only when nothing else is, and the schema wins. */
  function AutoTab(n: Node): (tab: Tab)
    ensures tab in AvailableTabs(n)
    ensures tab == Info <==> AvailableTabs(n) == {Info}
    ensures Schema in AvailableTabs(n) ==> tab == Schema
  {
    if HasSchema(n) then Schema else if HasApi(n) then Api else Info
  }

  // ---------------------------------------------------------------------
  // Transitions.

  /** A click on a node selects it, picks its tab, and swaps `children` and
      `_children`: a node showing its children stashes them, any other node
      shows whatever it had stashed (a leaf has nothing to show). */
  function Click(t: Node, s: Explorer, p: Path): (s': Explorer)
    requires ValidPath(t, p)
    ensures s'.selected == Some(p) && s'.tab in AvailableTabs(At(t, p))
    ensures s'.showDependencies == s.showDependencies
    ensures forall q :: q != p ==> (q in s'.open <==> q in s.open)
    ensures p in s'.open <==> p !in s.open && |At(t, p).children| > 0
  {
    var open :=
      if p in s.open then s.open - {p}
      else if |At(t, p).children| > 0 then s.open + {p}
      else s.open;
    Explorer(open, Some(p), AutoTab(At(t, p)), s.showDependencies)
  }

  /** A tab button sets the active tab; buttons exist only for the tabs the
      selected node offers. */
  function ChooseTab(t: Node, s: Explorer, tab: Tab): (s': Explorer)
    requires s.selected.Some? && ValidPath(t, s.selected.value)
    requires tab in AvailableTabs(At(t, s.selected.value))
    ensures s'.tab == tab && s'.open == s.open && s'.selected == s.selected
  {
    s.(tab := tab)
  }

  /** The overlay button flips the switch. The layout effect depends on the
      switch, so it runs again: it rebuilds the tree from the document and
      collapses every node deeper than 1 afresh. The selection is React
      state outside the effect and survives. */
  function ToggleDependencies(t: Node, s: Explorer): Explorer {
    Explorer(InitialOpen(t), s.selected, s.tab, !s.showDependencies)
  }

  lemma ClickWellFormed(t: Node, s: Explorer, p: Path)
    requires WellFormed(t, s) && ValidPath(t, p)
    ensures WellFormed(t, Click(t, s, p))
  {
  }

  lemma ChooseTabWellFormed(t: Node, s: Explorer, tab: Tab)
    requires WellFormed(t, s) && s.selected.Some?
    requires tab in AvailableTabs(At(t, s.selected.value))
    ensures WellFormed(t, ChooseTab(t, s, tab))
  {
  }

  lemma ToggleDependenciesWellFormed(t: Node, s: Explorer)
    requires WellFormed(t, s)
    ensures WellFormed(t, ToggleDependencies(t, s))
  {
    InitialWellFormed(t);
  }

  /** Clicking the same node twice restores which nodes are expanded, hence
      the visible nodes; the node stays selected. */
  lemma ClickTwice(t: Node, s: Explorer, p: Path)
    requires WellFormed(t, s) && ValidPath(t, p)
    ensures Click(t, Click(t, s, p), p).open == s.open
    ensures Visible(t, Click(t, Click(t, s, p), p)) == Visible(t, s)
    ensures Click(t, Click(t, s, p), p).selected == Some(p)
  {
    var s2 := Click(t, Click(t, s, p), p);
    assert s2.open == s.open;
    assert IsOpen(s2) == IsOpen(s);
  }

  /** A click changes the visibility of nothing outside the clicked node's
      subtree, and the clicked node itself stays visible or hidden. */
  lemma ClickOnlyAffectsSubtree(t: Node, s: Explorer, p: Path, q: Path)
    requires ValidPath(t, p) && !StrictPrefix(p, q)
    ensures q in Visible(t, Click(t, s, p)) <==> q in Visible(t, s)
  {
    var s' := Click(t, s, p);
    WalkFromRoot(t, IsOpen(s), q);
    WalkFromRoot(t, IsOpen(s'), q);
    forall k | 0 <= k < |q|
      ensures q[..k] in s'.open <==> q[..k] in s.open
    {
    }
  }

  /** Collapsing a node hides its whole subtree below it. */
  lemma CollapseHidesSubtree(t: Node, s: Explorer, p: Path, q: Path)
    requires ValidPath(t, p) && p in s.open && StrictPrefix(p, q)
    ensures q !in Visible(t, Click(t, s, p))
  {
    var s' := Click(t, s, p);
    WalkFromRoot(t, IsOpen(s'), q);
    assert q[..|p|] == p;
    assert !IsOpen(s')(q[..|p|]);
  }

  /** Expanding a visible node with stashed children brings every child into
      view. */
  lemma ExpandShowsChildren(t: Node, s: Explorer, p: Path, i: nat)
    requires WellFormed(t, s) && ValidPath(t, p) && p in Visible(t, s) && p !in s.open
    requires i < |At(t, p).children|
    ensures p + [i] in Visible(t, Click(t, s, p))
  {
    var s' := Click(t, s, p);
    var q := p + [i];
    WalkFromRoot(t, IsOpen(s), p);
    WalkFromRoot(t, IsOpen(s'), q);
    AtSnoc(t, p, i);
    forall k | 0 <= k < |q|
      ensures q[..k] in s'.open
    {
      if k == |p| {
        assert q[..k] == p;
      } else {
        assert q[..k] == p[..k];
        assert q[..k] != p;
      }
    }
  }

  /** Toggling the overlay discards every expansion change: afterwards the
      visible nodes are again exactly those of depth at most 2. */
  lemma ToggleResetsExpansion(t: Node, s: Explorer, q: Path)
    ensures q in Visible(t, ToggleDependencies(t, s)) <==> ValidPath(t, q) && |q| <= 2
  {
    assert IsOpen(ToggleDependencies(t, s)) == IsOpen(Initial(t));
    InitialVisible(t, q);
  }

  /** Toggling the overlay twice gives back the state it started from exactly
      when nothing had been expanded or collapsed since the last layout. */
  lemma ToggleTwice(t: Node, s: Explorer)
    ensures ToggleDependencies(t, ToggleDependencies(t, s)) == s <==> s.open == InitialOpen(t)
  {
  }

  // ---------------------------------------------------------------------
  // Layout outputs.

  datatype Edge = Edge(source: Path, target: Path)

  function Parent(q: Path): Path
    requires |q| > 0
  {
    q[..|q| - 1]
  }

  /** The parent-child links d3 draws: one per visible node but the root,
      from its parent. Their order does not matter to what is drawn. */
  function Links(t: Node, s: Explorer): seq<Edge> {
    LinksOf(Visible(t, s))
  }

  function LinksOf(ps: seq<Path>): (r: seq<Edge>)
    ensures forall e :: e in r <==> e.target in ps && |e.target| > 0 && e.source == Parent(e.target)
  {
    if |ps| == 0 then []
    else (if |ps[0]| > 0 then [Edge(Parent(ps[0]), ps[0])] else []) + LinksOf(ps[1..])
  }

  /** The depth-axis coordinate of a laid-out node. */
  function NodeY(p: Path): int {
    |p| * 250
  }

  /** Links join visible nodes one level apart, one link per visible child:
      the child's depth coordinate is 250 beyond its parent's. */
  lemma LinksSpec(t: Node, s: Explorer, e: Edge)
    ensures e in Links(t, s) <==>
      e.target in Visible(t, s) && |e.target| > 0 && e.source == Parent(e.target)
    ensures e in Links(t, s) ==> e.source in Visible(t, s)
    ensures e in Links(t, s) ==> NodeY(e.target) == NodeY(e.source) + 250
  {
    if e in Links(t, s) {
      var q := e.target;
      WalkFromRoot(t, IsOpen(s), q);
      WalkFromRoot(t, IsOpen(s), e.source);
      ValidPrefix(t, q, |q| - 1);
      forall k | 0 <= k < |e.source|
        ensures e.source[..k] in s.open
      {
        assert e.source[..k] == q[..k];
      }
    }
  }

  /** The node entries of the dependency list of `source` that name a code
      in `lookup`, as edges, in list order. */
  function EdgesFor(source: Path, deps: seq<string>, lookup: map<string, Path>): seq<Edge> {
    if |deps| == 0 then []
    else
      (if deps[0] in lookup then [Edge(source, lookup[deps[0]])] else [])
      + EdgesFor(source, deps[1..], lookup)
  }

  function EdgesFrom(t: Node, sources: seq<Path>, lookup: map<string, Path>): seq<Edge> {
    if |sources| == 0 then []
    else EdgesFor(sources[0], DepsAt(t, sources[0]), lookup) + EdgesFrom(t, sources[1..], lookup)
  }

  /** The visible nodes as the layout lists them for drawing: breadth-first,
      then reversed. */
  function Drawn(t: Node, s: Explorer): seq<Path> {
    Reverse(Breadth(Visible(t, s)))
  }

  /** The drawing order lists every visible node once. */
  lemma DrawnSpec(t: Node, s: Explorer)
    ensures forall q :: q in Drawn(t, s) <==> q in Visible(t, s)
    ensures NoDuplicates(Drawn(t, s))
    ensures multiset(DepsOf(t, Drawn(t, s))) == multiset(DepsOf(t, Visible(t, s)))
  {
    var vis := Visible(t, s);
    WalkNoDuplicates(t, [], IsOpen(s));
    BreadthSpec(vis);
    ReverseSame(Breadth(vis));
    DepsOfReverse(t, Breadth(vis));
    DepsOfPermutation(t, Breadth(vis), vis);
  }

  /** The dependency overlay: nothing while it is off; otherwise, for every
      visible node and every entry of its `dependencies`, an edge to the
      visible node carrying that code, if there is one. Both the lookup and
      the edges follow the drawing order, the breadth-first listing
      reversed, and the lookup keeps the last node it meets; so of two
      visible nodes sharing a code the target is the one the breadth-first
      listing meets first: the shallowest, then the leftmost. */
  function DependencyEdges(t: Node, s: Explorer): (r: seq<Edge>)
    ensures !s.showDependencies ==> r == []
  {
    if !s.showDependencies then []
    else
      var drawn := Drawn(t, s);
      EdgesFrom(t, drawn, CodeIndex(t, drawn))
  }

  /** Of several visible nodes carrying the same code, the overlay's lookup
      names the one the breadth-first listing meets first: the shallowest,
      and of those the leftmost. */
  lemma DrawnLookupFirst(t: Node, s: Explorer, c: string, k: nat)
    requires k < |Breadth(Visible(t, s))| && KeyedAt(t, Breadth(Visible(t, s))[k], c)
    requires forall j :: 0 <= j < k ==> !KeyedAt(t, Breadth(Visible(t, s))[j], c)
    ensures c in CodeIndex(t, Drawn(t, s)) && CodeIndex(t, Drawn(t, s))[c] == Breadth(Visible(t, s))[k]
  {
    var bfs, drawn := Breadth(Visible(t, s)), Drawn(t, s);
    var n := |bfs|;
    forall j | n - 1 - k < j < n
      ensures !KeyedAt(t, drawn[j], c)
    {
      assert drawn[j] == bfs[n - 1 - j];
    }
    CodeIndexLast(t, drawn, c, n - 1 - k);
  }

  /** How many entries of `deps` the lookup sends to `target`. */
  function Resolving(deps: seq<string>, lookup: map<string, Path>, target: Path): nat {
    if |deps| == 0 then 0
    else
      (if deps[0] in lookup && lookup[deps[0]] == target then 1 else 0)
      + Resolving(deps[1..], lookup, target)
  }

  lemma {:induction false} EdgesForMultiplicity(source: Path, deps: seq<string>, lookup: map<string, Path>, e: Edge)
    ensures multiset(EdgesFor(source, deps, lookup))[e] ==
      if e.source == source then Resolving(deps, lookup, e.target) else 0
  {
    if |deps| > 0 {
      EdgesForMultiplicity(source, deps[1..], lookup, e);
    }
  }

  lemma {:induction false} EdgesFromMultiplicity(t: Node, sources: seq<Path>, lookup: map<string, Path>, e: Edge)
    requires NoDuplicates(sources)
    ensures multiset(EdgesFrom(t, sources, lookup))[e] ==
      if e.source in sources then Resolving(DepsAt(t, e.source), lookup, e.target) else 0
  {
    if |sources| > 0 {
      assert NoDuplicates(sources[1..]);
      EdgesForMultiplicity(sources[0], DepsAt(t, sources[0]), lookup, e);
      EdgesFromMultiplicity(t, sources[1..], lookup, e);
      assert sources == [sources[0]] + sources[1..];
      if e.source == sources[0] {
        assert e.source !in sources[1..];
      }
    }
  }

  /** When exactly the entry `c` resolves to `target`, the entries that
      resolve to it are the occurrences of `c`; when none does, there are
      none. */
  lemma {:induction false} ResolvingCount(deps: seq<string>, lookup: map<string, Path>, target: Path, c: string)
    requires forall d :: (d in lookup && lookup[d] == target) <==> d == c
    ensures Resolving(deps, lookup, target) == Count(c, deps)
  {
    if |deps| > 0 {
      ResolvingCount(deps[1..], lookup, target, c);
    }
  }

  lemma {:induction false} ResolvingNone(deps: seq<string>, lookup: map<string, Path>, target: Path)
    requires forall d :: !(d in lookup && lookup[d] == target)
    ensures Resolving(deps, lookup, target) == 0
  {
    if |deps| > 0 {
      ResolvingNone(deps[1..], lookup, target);
    }
  }

  /** Every dependency edge runs between two visible nodes, and its target
      carries a code that the source lists among its dependencies. */
  lemma DependencyEdgesSound(t: Node, s: Explorer, e: Edge)
    requires e in DependencyEdges(t, s)
    ensures s.showDependencies
    ensures e.source in Visible(t, s) && e.target in Visible(t, s)
    ensures ValidPath(t, e.source) && ValidPath(t, e.target)
    ensures CodeKey(At(t, e.target)).Some?
    ensures CodeKey(At(t, e.target)).value in At(t, e.source).dependencies
  {
    var vis, drawn := Visible(t, s), Drawn(t, s);
    var lookup := CodeIndex(t, drawn);
    DrawnSpec(t, s);
    EdgesFromMultiplicity(t, drawn, lookup, e);
    assert multiset(EdgesFrom(t, drawn, lookup))[e] > 0;
    WalkValid(t, IsOpen(s));
    ResolvingWitness(DepsAt(t, e.source), lookup, e.target);
    var d :| d in DepsAt(t, e.source) && d in lookup && lookup[d] == e.target;
    CodeIndexSpec(t, drawn, d);
  }

  lemma {:induction false} ResolvingWitness(deps: seq<string>, lookup: map<string, Path>, target: Path)
    requires Resolving(deps, lookup, target) > 0
    ensures exists d :: d in deps && d in lookup && lookup[d] == target
  {
    if deps[0] in lookup && lookup[deps[0]] == target {
      assert deps[0] in deps;
    } else {
      ResolvingWitness(deps[1..], lookup, target);
      var d :| d in deps[1..] && d in lookup && lookup[d] == target;
      assert d in deps;
    }
  }

  /** With the overlay on and codes unique among the visible nodes, the edge
      from `a` to `b` is drawn once per entry of `a`'s dependencies naming
      `b`'s code, when both are visible, and never otherwise: entries naming
      hidden or unknown codes are dropped and self-references are kept. */
  lemma DependencyEdgesExact(t: Node, s: Explorer, a: Path, b: Path)
    requires s.showDependencies && UniqueKeys(t, Visible(t, s))
    ensures multiset(DependencyEdges(t, s))[Edge(a, b)] ==
      if a in Visible(t, s) && b in Visible(t, s) && ValidPath(t, b) && CodeKey(At(t, b)).Some?
      then Count(CodeKey(At(t, b)).value, DepsAt(t, a))
      else 0
  {
    var vis, drawn := Visible(t, s), Drawn(t, s);
    var lookup := CodeIndex(t, drawn);
    DrawnSpec(t, s);
    assert UniqueKeys(t, drawn);
    EdgesFromMultiplicity(t, drawn, lookup, Edge(a, b));
    if a in vis {
      if b in vis && ValidPath(t, b) && CodeKey(At(t, b)).Some? {
        var c := CodeKey(At(t, b)).value;
        forall d ensures (d in lookup && lookup[d] == b) <==> d == c {
          CodeIndexSpec(t, drawn, d);
        }
        ResolvingCount(DepsAt(t, a), lookup, b, c);
      } else {
        forall d ensures !(d in lookup && lookup[d] == b) {
          CodeIndexSpec(t, drawn, d);
        }
        ResolvingNone(DepsAt(t, a), lookup, b);
      }
    }
  }
  /** Each entry yields at most one edge, and exactly one each when every
      entry resolves. */
  lemma {:induction false} EdgesForLength(source: Path, deps: seq<string>, lookup: map<string, Path>)
    ensures |EdgesFor(source, deps, lookup)| <= |deps|
    ensures |EdgesFor(source, deps, lookup)| == |deps| <==> forall d :: d in deps ==> d in lookup
  {
    if |deps| > 0 {
      EdgesForLength(source, deps[1..], lookup);
      assert deps == [deps[0]] + deps[1..];
    }
  }

  lemma {:induction false} EdgesFromLength(t: Node, sources: seq<Path>, lookup: map<string, Path>)
    ensures |EdgesFrom(t, sources, lookup)| <= |DepsOf(t, sources)|
    ensures |EdgesFrom(t, sources, lookup)| == |DepsOf(t, sources)| <==>
      forall d :: d in DepsOf(t, sources) ==> d in lookup
  {
    if |sources| > 0 {
      assert sources == [sources[0]] + sources[1..];
      DepsOfAppend(t, [sources[0]], sources[1..]);
      DepsOfSingle(t, sources[0]);
      EdgesForLength(sources[0], DepsAt(t, sources[0]), lookup);
      EdgesFromLength(t, sources[1..], lookup);
    }
  }

  /** With every node that lists dependencies on screen, the overlay draws
      one edge per dependency entry in the whole hierarchy exactly when every
      entry names the code of a visible node. */
  lemma DependencyEdgesCount(t: Node, s: Explorer)
    requires s.showDependencies
    requires forall q :: ValidPath(t, q) && |At(t, q).dependencies| > 0 ==> q in Visible(t, s)
    ensures |DependencyEdges(t, s)| <= |FlatDeps(t)|
    ensures |DependencyEdges(t, s)| == |FlatDeps(t)| <==>
      forall d :: d in FlatDeps(t) ==> exists q :: q in Visible(t, s) && KeyedAt(t, q, d)
  {
    var vis := Visible(t, s);
    var keep := q => ReachedFromRoot(t, IsOpen(s), q);
    WalkIsPreorderFiltered(t, IsOpen(s));
    forall q | q in Descendants(t) && !keep(q)
      ensures DepsAt(t, q) == []
    {
      DescendantsSpec(t, q);
    }
    DepsOfFilter(t, Descendants(t), keep);
    DepsOfWalk(t, t, []);
    var drawn := Drawn(t, s);
    var lookup := CodeIndex(t, drawn);
    DrawnSpec(t, s);
    assert |DepsOf(t, drawn)| == |DepsOf(t, vis)| by {
      assert |multiset(DepsOf(t, drawn))| == |multiset(DepsOf(t, vis))|;
    }
    forall d ensures d in DepsOf(t, drawn) <==> d in DepsOf(t, vis) {
      assert d in multiset(DepsOf(t, drawn)) <==> d in multiset(DepsOf(t, vis));
    }
    EdgesFromLength(t, drawn, lookup);
    forall d ensures d in lookup <==> exists q :: q in vis && KeyedAt(t, q, d) {
      CodeIndexSpec(t, drawn, d);
    }
  }


  // ---------------------------------------------------------------------
  // Node glyphs and the detail panel.

  /** d3's `children` field: the child list while the node shows it. */
  function ShownChildren(t: Node, s: Explorer, p: Path): Option<seq<Node>>
    requires ValidPath(t, p)
  {
    if p in s.open then Some(At(t, p).children) else None
  }

  /** d3's `_children` field: the child list while the node stashes it; a
      leaf stashes nothing. */
  function StashedChildren(t: Node, s: Explorer, p: Path): Option<seq<Node>>
    requires ValidPath(t, p)
  {
    if p !in s.open && |At(t, p).children| > 0 then Some(At(t, p).children) else None
  }

  datatype Glyph = Glyph(radius: nat, filled: bool, critical: bool, badge: Option<nat>, labelLeft: bool)

  /** How a node is drawn: a larger circle when critical, filled while it
      stashes children, a badge with the dependent count when it has
      dependents, and its label on the left when it has children at all. */
  function NodeGlyph(t: Node, s: Explorer, p: Path): Glyph
    requires ValidPath(t, p)
  {
    var a := NodeAnnotation(t, p);
    Glyph(
      if a.isCritical then 8 else 6,
      StashedChildren(t, s, p).Some?,
      a.isCritical,
      if a.dependentCount > 0 then Some(a.dependentCount) else None,
      ShownChildren(t, s, p).Some? || StashedChildren(t, s, p).Some?)
  }

  /** A visible node is drawn filled exactly when it has children and none of
      them is visible: the marker that separates a collapsed node from a
      leaf, whose label sits on the other side. */
  lemma GlyphMarksHiddenChildren(t: Node, s: Explorer, p: Path)
    requires WellFormed(t, s) && p in Visible(t, s)
    ensures ValidPath(t, p)
    ensures NodeGlyph(t, s, p).filled <==>
      |At(t, p).children| > 0 && forall i :: 0 <= i < |At(t, p).children| ==> p + [i] !in Visible(t, s)
    ensures NodeGlyph(t, s, p).labelLeft <==> |At(t, p).children| > 0
  {
    WalkFromRoot(t, IsOpen(s), p);
    var n := At(t, p);
    if |n.children| > 0 && p in s.open {
      var q := p + [0];
      AtSnoc(t, p, 0);
      WalkFromRoot(t, IsOpen(s), q);
      forall k | 0 <= k < |q|
        ensures q[..k] in s.open
      {
        if k == |p| {
          assert q[..k] == p;
        } else {
          assert q[..k] == p[..k];
        }
      }
    }
    if p !in s.open {
      forall i | 0 <= i < |n.children|
        ensures p + [i] !in Visible(t, s)
      {
        WalkFromRoot(t, IsOpen(s), p + [i]);
        assert (p + [i])[..|p|] == p;
      }
    }
  }

  datatype Details = Details(
    name: string,
    codeLabel: string,
    kind: NodeType,
    critical: bool,
    description: Option<string>,
    impact: Option<nat>,
    dependencies: seq<string>,
    depth: nat,
    childCount: nat,
    tabs: set<Tab>,
    active: Tab)

  /** `code || 'N/A'`. */
  function CodeLabel(n: Node): string {
    match CodeKey(n) case Some(c) => c case None => "N/A"
  }

  /** The detail panel of the selected node: its name, code (or N/A), type,
      description when non-empty, an impact note with the dependent count
      when there are dependents, its dependency list when non-empty, its
      depth and its number of children (`children || _children || []`),
      the tab buttons and the active tab. */
  function DetailPanel(t: Node, s: Explorer): Option<Details>
    requires s.selected.Some? ==> ValidPath(t, s.selected.value)
  {
    match s.selected
    case None => None
    case Some(p) =>
      var n := At(t, p);
      var a := NodeAnnotation(t, p);
      var shown := ShownChildren(t, s, p);
      var stashed := StashedChildren(t, s, p);
      Some(Details(
        n.name,
        CodeLabel(n),
        n.kind,
        a.isCritical,
        if n.description.Some? && n.description.value != "" then n.description else None,
        if a.dependentCount > 0 then Some(a.dependentCount) else None,
        n.dependencies,
        |p|,
        if shown.Some? then |shown.value| else if stashed.Some? then |stashed.value| else 0,
        AvailableTabs(n),
        s.tab))
  }

  /** The panel counts all children of the selected node, shown or stashed,
      whatever the expansion state; reports its dependents as the references
      to its code across the document; and, in a well-formed state, its
      active tab is one of its buttons. */
  lemma DetailPanelSpec(t: Node, s: Explorer)
    requires s.selected.Some? && ValidPath(t, s.selected.value)
    ensures var d := DetailPanel(t, s).value;
      var n := At(t, s.selected.value);
      && d.childCount == |n.children|
      && d.depth == |s.selected.value|
      && (d.impact.Some? <==> CodeKey(n).Some? && Occurrences(CodeKey(n).value, t) > 0)
      && (d.impact.Some? ==> d.impact.value == Occurrences(CodeKey(n).value, t))
      && (WellFormed(t, s) ==> d.active in d.tabs)
  {
    AnnotationSpec(t, s.selected.value);
  }
}
