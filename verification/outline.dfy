/** The collapsible outline: one row per mounted node, each with its own
    expanded flag, payload tables under expanded service and data rows, and
    dependency chips that highlight the node carrying the chip's code for
    two seconds.

    A row's flag lives in its component, which exists only while every
    ancestor row is expanded: collapsing a row unmounts its descendants and
    a later expansion mounts them afresh with the default flag. The state
    therefore records only the mounted rows whose flag differs from the
    default, and a collapse forgets those below the collapsed row. */
module Outline {
  import opened Types
  import opened Tree

  /** The highlight timer's length, in milliseconds. */
  const HighlightMillis: nat := 2000

  datatype Outline = Outline(
    flipped: set<Path>,
    highlight: Option<string>,
    pending: seq<nat>,
    now: nat)

  /** A freshly mounted row is expanded exactly on levels 0 and 1. */
  predicate DefaultExpanded(p: Path) {
    |p| < 2
  }

  predicate Expanded(s: Outline, p: Path) {
    DefaultExpanded(p) != (p in s.flipped)
  }

  /** The flag of every row, given the rows flipped away from the default. */
  function IsExpanded(flipped: set<Path>): Path -> bool {
    p => DefaultExpanded(p) != (p in flipped)
  }

  function Initial(): Outline {
    Outline({}, None, [], 0)
  }

  /** The rows rendered: the root and every node whose ancestor rows are all
      expanded, parents before children, children in declared order. */
  function Rows(t: Node, s: Outline): seq<Path> {
    Walk(t, [], IsExpanded(s.flipped))
  }

  /** A row is rendered exactly when it addresses a node and every proper
      ancestor row is expanded; the rows are the pre-order listing of the
      document restricted to those, each once. */
  lemma RowsSpec(t: Node, s: Outline, q: Path)
    ensures q in Rows(t, s) <==>
      ValidPath(t, q) && forall k :: 0 <= k < |q| ==> Expanded(s, q[..k])
    ensures Rows(t, s) == Filter(Descendants(t), p => ReachedFromRoot(t, IsExpanded(s.flipped), p))
    ensures NoDuplicates(Rows(t, s))
  {
    WalkFromRoot(t, IsExpanded(s.flipped), q);
    WalkIsPreorderFiltered(t, IsExpanded(s.flipped));
    WalkNoDuplicates(t, [], IsExpanded(s.flipped));
  }

  /** On first render the rows are the nodes of depth at most 2. */
  lemma InitialRows(t: Node, q: Path)
    ensures q in Rows(t, Initial()) <==> ValidPath(t, q) && |q| <= 2
  {
    RowsSpec(t, Initial(), q);
    if ValidPath(t, q) && |q| > 2 {
      assert !Expanded(Initial(), q[..2]);
    }
  }

  // ---------------------------------------------------------------------
  // Row contents.

  /** The chevron is drawn for a node with children, an API list (even an
      empty one) or a schema. */
  predicate HasChildren(n: Node) {
    |n.children| > 0 || n.apiSpecs.Some? || n.dataSchema.Some?
  }

  /** `highlightCode && node.code === highlightCode`. */
  predicate IsHighlighted(s: Outline, n: Node) {
    s.highlight.Some? && s.highlight.value != "" && n.code == s.highlight
  }

  datatype Row = Row(
    at: Path,
    indent: nat,
    chevron: Option<bool>,
    name: string,
    codeBadge: Option<string>,
    description: Option<string>,
    chips: seq<string>,
    highlighted: bool,
    apiTable: bool,
    schemaTable: bool)

  /** One rendered row: indentation 20 per level, a chevron showing the
      flag when the node can expand, the code badge when the code is
      non-empty, the description only on levels 0 to 2, one chip per
      dependency, and the payload tables below an expanded service or data
      row. */
  function RowOf(t: Node, s: Outline, p: Path): Row
    requires ValidPath(t, p)
  {
    var n := At(t, p);
    Row(
      p,
      |p| * 20,
      if HasChildren(n) then Some(Expanded(s, p)) else None,
      n.name,
      CodeKey(n),
      if n.description.Some? && n.description.value != "" && |p| < 3 then n.description else None,
      n.dependencies,
      IsHighlighted(s, n),
      Expanded(s, p) && n.kind == Service && n.apiSpecs.Some?,
      Expanded(s, p) && n.kind == Data && n.dataSchema.Some?)
  }

  /** A rendered row with children points its chevron down exactly when
      every child row is rendered below it, and right exactly when none is. */
  lemma ChevronShowsChildren(t: Node, s: Outline, p: Path)
    requires ValidPath(t, p) && p in Rows(t, s) && |At(t, p).children| > 0
    ensures RowOf(t, s, p).chevron == Some(true) <==>
      forall i :: 0 <= i < |At(t, p).children| ==> p + [i] in Rows(t, s)
    ensures RowOf(t, s, p).chevron == Some(false) <==>
      forall i :: 0 <= i < |At(t, p).children| ==> p + [i] !in Rows(t, s)
  {
    RowsSpec(t, s, p);
    forall i | 0 <= i < |At(t, p).children|
      ensures p + [i] in Rows(t, s) <==> Expanded(s, p)
    {
      var q := p + [i];
      AtSnoc(t, p, i);
      RowsSpec(t, s, q);
      assert q[..|p|] == p;
      forall k | 0 <= k < |p|
        ensures q[..k] == p[..k]
      {
      }
    }
    assert p + [0] in Rows(t, s) <==> Expanded(s, p);
  }

  function RowsOf(t: Node, s: Outline, ps: seq<Path>): (r: seq<Row>)
    requires forall q :: q in ps ==> ValidPath(t, q)
    ensures |r| == |ps|
    ensures forall i :: 0 <= i < |ps| ==> r[i] == RowOf(t, s, ps[i])
  {
    if |ps| == 0 then [] else [RowOf(t, s, ps[0])] + RowsOf(t, s, ps[1..])
  }

  /** The whole outline, row by row. */
  function Render(t: Node, s: Outline): seq<Row> {
    WalkValid(t, IsExpanded(s.flipped));
    RowsOf(t, s, Rows(t, s))
  }

  /** An API table appears for exactly the rendered, expanded service rows
      whose node has an API list, and a schema table for exactly the
      rendered, expanded data rows whose node has a schema. A row is
      highlighted exactly when a non-empty highlight code is set and is the
      node's code. */
  lemma RenderSpec(t: Node, s: Outline, p: Path)
    ensures (exists i :: 0 <= i < |Render(t, s)| && Render(t, s)[i].at == p && Render(t, s)[i].apiTable)
      <==> p in Rows(t, s) && ValidPath(t, p) && Expanded(s, p) && At(t, p).kind == Service && At(t, p).apiSpecs.Some?
    ensures (exists i :: 0 <= i < |Render(t, s)| && Render(t, s)[i].at == p && Render(t, s)[i].schemaTable)
      <==> p in Rows(t, s) && ValidPath(t, p) && Expanded(s, p) && At(t, p).kind == Data && At(t, p).dataSchema.Some?
    ensures forall i :: 0 <= i < |Render(t, s)| ==>
      && ValidPath(t, Render(t, s)[i].at)
      && (Render(t, s)[i].highlighted <==>
            exists c :: s.highlight == Some(c) && CodeKey(At(t, Render(t, s)[i].at)) == Some(c))
  {
    var rows := Rows(t, s);
    var r := Render(t, s);
    WalkValid(t, IsExpanded(s.flipped));
    if p in rows {
      var i :| 0 <= i < |rows| && rows[i] == p;
      assert r[i].at == p;
    }
  }

  // ---------------------------------------------------------------------
  // Transitions.

  /** A row is mounted when every ancestor row is expanded; only a mounted
      row can be clicked. */
  predicate RowMounted(s: Outline, p: Path) {
    forall k :: 0 <= k < |p| ==> Expanded(s, p[..k])
  }

  /** Only mounted rows hold a flag of their own: every row flipped away
      from the default is mounted. */
  predicate Mounted(s: Outline) {
    forall q, k :: q in s.flipped && 0 <= k < |q| ==> Expanded(s, q[..k])
  }

  /** A row click flips that row's flag. Collapsing a row also unmounts
      everything below it, so their flags return to the default; expanding
      a mounted row mounts its descendants afresh, each with the default
      flag. */
  function RowClick(s: Outline, p: Path): (s': Outline)
    ensures Expanded(s', p) == !Expanded(s, p)
    ensures forall q :: q != p && !StrictPrefix(p, q) ==> (q in s'.flipped <==> q in s.flipped)
    ensures Expanded(s, p) ==> forall q :: StrictPrefix(p, q) ==> Expanded(s', q) == DefaultExpanded(q)
    ensures Mounted(s) && RowMounted(s, p) ==> Mounted(s')
    ensures Mounted(s) && !Expanded(s, p) ==>
      forall q :: StrictPrefix(p, q) ==> Expanded(s', q) == DefaultExpanded(q)
    ensures s'.highlight == s.highlight && s'.pending == s.pending && s'.now == s.now
  {
    var toggled := if p in s.flipped then s.flipped - {p} else s.flipped + {p};
    var s' := if Expanded(s, p) then s.(flipped := set q | q in toggled && !StrictPrefix(p, q))
      else s.(flipped := toggled);
    ClickMounted(s, p, s');
    s'
  }

  /** The proof of RowClick's mounting clauses. */
  lemma ClickMounted(s: Outline, p: Path, s': Outline)
    requires s'.flipped == if Expanded(s, p)
      then set q | q in (if p in s.flipped then s.flipped - {p} else s.flipped + {p}) && !StrictPrefix(p, q)
      else if p in s.flipped then s.flipped - {p} else s.flipped + {p}
    ensures Mounted(s) && RowMounted(s, p) ==> Mounted(s')
    ensures Mounted(s) && !Expanded(s, p) ==>
      forall q :: StrictPrefix(p, q) ==> Expanded(s', q) == DefaultExpanded(q)
  {
    if Mounted(s) {
      forall q | StrictPrefix(p, q) && !Expanded(s, p)
        ensures q !in s.flipped
      {
        assert q[..|p|] == p;
      }
      if RowMounted(s, p) {
        forall q, k | q in s'.flipped && 0 <= k < |q|
          ensures Expanded(s', q[..k])
        {
          if q == p {
            assert Expanded(s, p[..k]);
          } else {
            assert q in s.flipped && Expanded(s, q[..k]);
            assert !StrictPrefix(p, q);
            assert |p| <= k ==> q[..|p|] == q[..k][..|p|];
          }
        }
      }
    }
  }

  /** A row click changes whether a row is rendered only for rows below the
      clicked one. */
  lemma RowClickOnlyAffectsSubtree(t: Node, s: Outline, p: Path, q: Path)
    requires !StrictPrefix(p, q)
    ensures q in Rows(t, RowClick(s, p)) <==> q in Rows(t, s)
  {
    var s' := RowClick(s, p);
    RowsSpec(t, s, q);
    RowsSpec(t, s', q);
    forall k | 0 <= k < |q|
      ensures Expanded(s', q[..k]) == Expanded(s, q[..k])
    {
      assert q[..k] != p;
    }
  }

  /** Collapsing a row stops rendering every row below it. */
  lemma CollapseHidesSubtree(t: Node, s: Outline, p: Path, q: Path)
    requires Expanded(s, p) && StrictPrefix(p, q)
    ensures q !in Rows(t, RowClick(s, p))
  {
    RowsSpec(t, RowClick(s, p), q);
    assert q[..|p|] == p;
  }

  /** Clicking a row twice gives back the state exactly when no row below it
      had its flag changed: otherwise the collapse forgot those changes. */
  lemma RowClickTwice(s: Outline, p: Path)
    ensures RowClick(RowClick(s, p), p) == s <==> forall q :: q in s.flipped ==> !StrictPrefix(p, q)
  {
    var s2 := RowClick(RowClick(s, p), p);
    if forall q :: q in s.flipped ==> !StrictPrefix(p, q) {
      assert s2.flipped == s.flipped;
    } else {
      var q :| q in s.flipped && StrictPrefix(p, q);
      assert q !in s2.flipped;
    }
  }

  /** A dependency chip's click does not reach its row: the flags stay, the
      highlight becomes the chip's code, and a timer is set to clear it two
      seconds later. Earlier timers keep running. */
  function ChipClick(s: Outline, c: string): (s': Outline)
    ensures s'.flipped == s.flipped && s'.highlight == Some(c) && s'.now == s.now
    ensures s'.pending == s.pending + [s.now + HighlightMillis]
  {
    s.(highlight := Some(c), pending := s.pending + [s.now + HighlightMillis])
  }

  lemma ChipClickKeepsRows(t: Node, s: Outline, c: string)
    ensures Rows(t, ChipClick(s, c)) == Rows(t, s)
  {
    assert IsExpanded(ChipClick(s, c).flipped) == IsExpanded(s.flipped);
  }

  /** Every reachable state keeps its flags on mounted rows: the first render
      has none, a click on a mounted row keeps that, and chips and timers
      leave the flags alone. */
  lemma MountedInvariant(s: Outline, p: Path, c: string, time: nat)
    requires Mounted(s) && RowMounted(s, p) && s.now <= time
    ensures Mounted(Initial())
    ensures Mounted(RowClick(s, p)) && Mounted(ChipClick(s, c)) && Mounted(Advance(s, time))
  {
  }

  /** The timers due by `deadline`. */
  function Due(pending: seq<nat>, deadline: nat): (r: seq<nat>)
    ensures forall d :: d in r <==> d in pending && d <= deadline
  {
    if |pending| == 0 then []
    else (if pending[0] <= deadline then [pending[0]] else []) + Due(pending[1..], deadline)
  }

  function NotDue(pending: seq<nat>, deadline: nat): (r: seq<nat>)
    ensures forall d :: d in r <==> d in pending && d > deadline
  {
    if |pending| == 0 then []
    else (if pending[0] > deadline then [pending[0]] else []) + NotDue(pending[1..], deadline)
  }

  /** Let time pass until `time`: every timer due by then fires, and each
      one clears the highlight, whoever set it. */
  function Advance(s: Outline, time: nat): (s': Outline)
    requires s.now <= time
    ensures s'.flipped == s.flipped && s'.now == time
    ensures forall d :: d in s'.pending <==> d in s.pending && d > time
    ensures s'.highlight == None <==> s.highlight == None || exists d :: d in s.pending && d <= time
    ensures s'.highlight != None ==> s'.highlight == s.highlight
  {
    var fired := Due(s.pending, time);
    var highlight := if |fired| > 0 then None else s.highlight;
    assert |fired| > 0 ==> fired[0] in fired;
    Outline(s.flipped, highlight, NotDue(s.pending, time), time)
  }

  /** A highlight stays at least until the earliest pending timer, and never
      past two seconds after it was set. */
  lemma HighlightLifetime(s: Outline, c: string, time: nat)
    requires s.now <= time
    ensures (forall d :: d in s.pending ==> d > time) && time < s.now + HighlightMillis
      ==> Advance(ChipClick(s, c), time).highlight == Some(c)
    ensures time >= s.now + HighlightMillis ==> Advance(ChipClick(s, c), time).highlight == None
  {
    var s1 := ChipClick(s, c);
    assert s1.pending[|s1.pending| - 1] == s.now + HighlightMillis;
    assert s.now + HighlightMillis in s1.pending;
    assert forall d :: d in s1.pending ==> d in s.pending || d == s.now + HighlightMillis;
  }

  /** The timer of an earlier click is not cancelled by a later one: a chip
      clicked 500 ms before the first timer runs out loses its highlight
      after 500 ms, not 2000. */
  lemma EarlierTimerClearsLaterHighlight(a: string, b: string)
    ensures var s := Advance(ChipClick(Advance(ChipClick(Initial(), a), 1500), b), 2000);
      s.highlight == None && s.pending == [3500]
  {
    var s1 := ChipClick(Initial(), a);
    assert s1.pending == [2000];
    var s2 := Advance(s1, 1500);
    assert NotDue([2000], 1500) == [2000] + NotDue([], 1500);
    assert s2.pending == [2000];
    var s3 := ChipClick(s2, b);
    assert s3.pending == [2000, 3500];
    assert 2000 in s3.pending;
    var s4 := Advance(s3, 2000);
    assert NotDue([3500], 2000) == [3500];
    assert s4.pending == [3500];
  }
}
