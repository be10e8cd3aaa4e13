/** What the platform document and its companion tables promise: unique
    codes, dependencies that resolve to modules, the dependent counts and
    critical set the explorer derives from them, the default dependency
    overlay, and the agreement of the domain, metric and phase tables with
    the hierarchy.

    The facts about the hierarchy are proved in two steps. `Summarised`
    collects what the proofs need to know about a tree: the document's
    shape, its fifteen dependency entries and where the six codes they
    name sit. The document is shown to satisfy it once, and every property
    is proved for any tree that does, then read off for the document. */
module DocumentFacts {
  import opened Types
  import opened Tree
  import opened Indexer
  import opened Explorer
  import opened Shape
  import opened DocumentShape
  import opened Document
  import opened Timeline

  // ---------------------------------------------------------------------
  // The document's summary

  /** The dependency entries of the whole document, in pre-order. */
  const DependencyEntries: seq<string> := [
    "CD.1.1", "CD.1.2", "CD.1.1", "CD.1.2",
    "CD.1.4", "OD.2.1", "CD.1.2",
    "CD.1.1", "CD.1.2", "OD.2.3",
    "CD.1.1", "CD.1.2", "OD.2.1", "OD.2.3",
    "IF.5.1"]

  /** Where the module each entry names sits: domain index, module index. */
  function Home(d: string): Path {
    if d == "CD.1.1" then [0, 0]
    else if d == "CD.1.2" then [0, 1]
    else if d == "CD.1.4" then [0, 3]
    else if d == "OD.2.1" then [1, 0]
    else if d == "OD.2.3" then [1, 2]
    else if d == "IF.5.1" then [4, 0]
    else []
  }

  /** A platform of domains, modules and leaves with nesting codes, whose
      dependency entries are the document's and whose named modules sit
      where the document puts them. */
  predicate Summarised(t: Node) {
    && IsPlatform(t) && Layered(t)
    && FlatDeps(t) == DependencyEntries
    && Homed(t)
  }

  /** The six codes the entries name sit at their homes. */
  predicate Homed(t: Node) {
    && KeyedAt(t, [0, 0], "CD.1.1") && KeyedAt(t, [0, 1], "CD.1.2") && KeyedAt(t, [0, 3], "CD.1.4")
    && KeyedAt(t, [1, 0], "OD.2.1") && KeyedAt(t, [1, 2], "OD.2.3") && KeyedAt(t, [4, 0], "IF.5.1")
  }

  lemma RootShape()
    ensures IsPlatform(PlatformHierarchy) && Nested(PlatformHierarchy) && Width(PlatformHierarchy, 2)
  {
    ClinicalDomainShape(); OperationalDomainShape(); AnalyticsDomainShape();
    IntegrationDomainShape(); InfrastructureDomainShape();
  }

  lemma RootCodes()
    ensures SiblingsDistinct(PlatformHierarchy)
  {
  }

  /** The document is a platform of domains, modules and leaves whose codes
      nest level by level. */
  lemma DocumentShaped()
    ensures IsPlatform(PlatformHierarchy) && Layered(PlatformHierarchy)
  {
    RootShape(); RootCodes(); WidthAligned(PlatformHierarchy, 2);
    ClinicalDomainLayered(); OperationalDomainLayered(); AnalyticsDomainLayered();
    IntegrationDomainLayered(); InfrastructureDomainLayered();
  }

  /** The document's dependency entries, collected domain by domain. */
  lemma DocumentDeps()
    ensures FlatDeps(PlatformHierarchy) == DependencyEntries
  {
    ClinicalDomainDeps(); OperationalDomainDeps(); AnalyticsDomainDeps();
    IntegrationDomainDeps(); InfrastructureDomainDeps();
    var t := PlatformHierarchy;
    assert FlatDepsFrom(t, 5) == [];
    assert FlatDepsFrom(t, 4) == ["IF.5.1"];
    assert FlatDepsFrom(t, 3) == ["CD.1.1", "CD.1.2", "OD.2.1", "OD.2.3", "IF.5.1"];
    assert FlatDepsFrom(t, 2) == ["CD.1.1", "CD.1.2", "OD.2.3"] + FlatDepsFrom(t, 3);
    assert FlatDepsFrom(t, 1) == ["CD.1.4", "OD.2.1", "CD.1.2"] + FlatDepsFrom(t, 2);
  }

  lemma DocumentHomes()
    ensures KeyedAt(PlatformHierarchy, [0, 0], "CD.1.1") && KeyedAt(PlatformHierarchy, [0, 1], "CD.1.2")
    ensures KeyedAt(PlatformHierarchy, [0, 3], "CD.1.4") && KeyedAt(PlatformHierarchy, [1, 0], "OD.2.1")
    ensures KeyedAt(PlatformHierarchy, [1, 2], "OD.2.3") && KeyedAt(PlatformHierarchy, [4, 0], "IF.5.1")
  {
  }

  lemma DocumentSummarised()
    ensures Summarised(PlatformHierarchy)
  {
    DocumentShaped(); DocumentDeps(); DocumentHomes();
  }

  // ---------------------------------------------------------------------
  // Entries and their homes

  /** Every entry names one of six module codes. */
  lemma EntryCodes(d: string)
    ensures d in DependencyEntries ==> d in {"CD.1.1", "CD.1.2", "CD.1.4", "OD.2.1", "OD.2.3", "IF.5.1"}
  {
  }

  /** The six codes differ: the CD and OD codes in their last character, the
      rest in their first. */
  lemma CodesDiffer()
    ensures "CD.1.1"[0] == 'C' && "CD.1.2"[0] == 'C' && "CD.1.4"[0] == 'C'
    ensures "OD.2.1"[0] == 'O' && "OD.2.3"[0] == 'O' && "IF.5.1"[0] == 'I'
    ensures "CD.1.1"[5] == '1' && "CD.1.2"[5] == '2' && "CD.1.4"[5] == '4'
    ensures "OD.2.1"[5] == '1' && "OD.2.3"[5] == '3'
  {
  }

  /** How often each code occurs among the entries. */
  function ExpectedCount(c: string): nat {
    if c == "CD.1.1" then 4
    else if c == "CD.1.2" then 5
    else if c == "OD.2.1" || c == "OD.2.3" then 2
    else if c == "CD.1.4" || c == "IF.5.1" then 1
    else 0
  }

  lemma {:induction false} CountMultiset(c: string, s: seq<string>)
    ensures Count(c, s) == multiset(s)[c]
  {
    if |s| > 0 {
      CountMultiset(c, s[1..]);
      assert s == [s[0]] + s[1..];
    }
  }

  lemma CountCD11() ensures multiset(DependencyEntries)["CD.1.1"] == 4 { CodesDiffer(); }
  lemma CountCD12() ensures multiset(DependencyEntries)["CD.1.2"] == 5 { CodesDiffer(); }
  lemma CountCD14() ensures multiset(DependencyEntries)["CD.1.4"] == 1 { CodesDiffer(); }
  lemma CountOD21() ensures multiset(DependencyEntries)["OD.2.1"] == 2 { CodesDiffer(); }
  lemma CountOD23() ensures multiset(DependencyEntries)["OD.2.3"] == 2 { CodesDiffer(); }
  lemma CountIF51() ensures multiset(DependencyEntries)["IF.5.1"] == 1 { CodesDiffer(); }

  lemma EntriesCount(c: string)
    ensures Count(c, DependencyEntries) == ExpectedCount(c)
  {
    var e := DependencyEntries;
    CodesDiffer();
    if c == "CD.1.1" {
      CountMultiset("CD.1.1", e); CountCD11();
    } else if c == "CD.1.2" {
      CountMultiset("CD.1.2", e); CountCD12();
    } else if c == "CD.1.4" {
      CountMultiset("CD.1.4", e); CountCD14();
    } else if c == "OD.2.1" {
      CountMultiset("OD.2.1", e); CountOD21();
    } else if c == "OD.2.3" {
      CountMultiset("OD.2.3", e); CountOD23();
    } else if c == "IF.5.1" {
      CountMultiset("IF.5.1", e); CountIF51();
    } else {
      EntryCodes(c);
    }
  }

  /** In a summarised tree each entry names exactly one node, and that node
      is the module at the entry's home. */
  lemma HomeOf(t: Node, d: string, p: Path)
    requires Summarised(t) && d in DependencyEntries
    ensures |Home(d)| == 2 && KeyedAt(t, Home(d), d)
    ensures KeyedAt(t, p, d) ==> p == Home(d)
  {
    EntryCodes(d);
    if KeyedAt(t, p, d) {
      LayeredUnique(t, p, Home(d));
    }
  }

  // ---------------------------------------------------------------------
  // Properties of every summarised tree

  /** Only modules list dependencies, and each entry names another module. */
  lemma ResolveOf(t: Node, q: Path, d: string)
    requires Summarised(t) && ValidPath(t, q) && d in At(t, q).dependencies
    ensures |q| == 2 && At(t, q).kind == Module
    ensures d in DependencyEntries
    ensures |Home(d)| == 2 && Home(d) != q && KeyedAt(t, Home(d), d) && At(t, Home(d)).kind == Module
  {
    PlatformPaths(t, q);
    DescendantsSpec(t, q);
    DepsOfMember(t, Descendants(t), q, d);
    DepsOfWalk(t, t, []);
    HomeOf(t, d, Home(d));
    PlatformPaths(t, Home(d));
  }

  /** The codes referenced at least twice. */
  const CriticalCodes: set<string> := {"CD.1.1", "CD.1.2", "OD.2.1", "OD.2.3"}

  lemma CriticalCount(c: string)
    ensures ExpectedCount(c) >= 2 <==> c in CriticalCodes
  {
    CodesDiffer();
  }

  /** Every node's dependent count is the number of entries naming its code
      (0 without one), and a node is critical exactly when its code is one
      of the four referenced at least twice. */
  lemma AnnotationsOf(t: Node, p: Path)
    requires FlatDeps(t) == DependencyEntries && ValidPath(t, p)
    ensures NodeAnnotation(t, p).dependentCount == (if CodeKey(At(t, p)).Some? then ExpectedCount(CodeKey(At(t, p)).value) else 0)
    ensures NodeAnnotation(t, p).isCritical <==> CodeKey(At(t, p)).Some? && CodeKey(At(t, p)).value in CriticalCodes
  {
    AnnotationSpec(t, p);
    var key := CodeKey(At(t, p));
    if key.Some? {
      OccurrencesFlat(key.value, t);
      EntriesCount(key.value);
      CriticalCount(key.value);
    }
  }

  /** With the overlay switched on from the default state every node that
      lists dependencies and every node they name is on screen, so the
      overlay draws all fifteen entries, each between two modules. */
  lemma DefaultOverlayOf(t: Node)
    requires Summarised(t)
    ensures var s := ToggleDependencies(t, Initial(t));
      && |DependencyEdges(t, s)| == |DependencyEntries|
      && forall e :: e in DependencyEdges(t, s) ==> |e.source| == 2 && |e.target| == 2
  {
    var s := ToggleDependencies(t, Initial(t));
    forall q | ValidPath(t, q) && |At(t, q).dependencies| > 0
      ensures q in Visible(t, s)
    {
      PlatformPaths(t, q);
      ToggleResetsExpansion(t, Initial(t), q);
    }
    DependencyEdgesCount(t, s);
    forall d | d in FlatDeps(t)
      ensures exists q :: q in Visible(t, s) && KeyedAt(t, q, d)
    {
      HomeOf(t, d, Home(d));
      ToggleResetsExpansion(t, Initial(t), Home(d));
    }
    forall e | e in DependencyEdges(t, s)
      ensures |e.source| == 2 && |e.target| == 2
    {
      DependencyEdgesSound(t, s, e);
      var d := CodeKey(At(t, e.target)).value;
      ResolveOf(t, e.source, d);
      HomeOf(t, d, e.target);
    }
  }

  // ---------------------------------------------------------------------
  // The document

  /** All codes in the document are distinct. */
  lemma UniqueCodes(q1: Path, q2: Path)
    requires ValidPath(PlatformHierarchy, q1) && ValidPath(PlatformHierarchy, q2)
    requires CodeKey(At(PlatformHierarchy, q1)).Some?
    requires CodeKey(At(PlatformHierarchy, q1)) == CodeKey(At(PlatformHierarchy, q2))
    ensures q1 == q2
  {
    DocumentShaped();
    LayeredUnique(PlatformHierarchy, q1, q2);
  }

  /** Every dependency entry sits on a module and names another module of
      the document: the one at the entry's home. */
  lemma DependenciesResolve(q: Path, d: string)
    requires ValidPath(PlatformHierarchy, q) && d in At(PlatformHierarchy, q).dependencies
    ensures |q| == 2 && At(PlatformHierarchy, q).kind == Module
    ensures |Home(d)| == 2 && Home(d) != q && KeyedAt(PlatformHierarchy, Home(d), d)
    ensures At(PlatformHierarchy, Home(d)).kind == Module
  {
    DocumentSummarised();
    ResolveOf(PlatformHierarchy, q, d);
    HomeOf(PlatformHierarchy, d, Home(d));
  }

  /** The document is three levels deep below the root. */
  lemma DocumentDepth(q: Path)
    requires ValidPath(PlatformHierarchy, q)
    ensures |q| <= 3
  {
    RootShape();
    PlatformPaths(PlatformHierarchy, q);
  }

  /** The kind of every node follows its depth: domains, then modules, then
      components, services and tables. */
  lemma DocumentKinds(q: Path)
    requires ValidPath(PlatformHierarchy, q)
    ensures KindFollowsDepth(PlatformHierarchy, q)
  {
    RootShape();
    PlatformKinds(PlatformHierarchy, q);
  }

  /** API specifications sit only on services and schemas only on tables. */
  lemma PayloadPlacement(q: Path)
    requires ValidPath(PlatformHierarchy, q)
    ensures At(PlatformHierarchy, q).apiSpecs.Some? ==> At(PlatformHierarchy, q).kind == Service
    ensures At(PlatformHierarchy, q).dataSchema.Some? ==> At(PlatformHierarchy, q).kind == Data
  {
    RootShape();
    PlatformPaths(PlatformHierarchy, q);
  }

  /** No node lists its own code among its dependencies. */
  lemma NoSelfReference(q: Path)
    requires ValidPath(PlatformHierarchy, q) && CodeKey(At(PlatformHierarchy, q)).Some?
    ensures CodeKey(At(PlatformHierarchy, q)).value !in At(PlatformHierarchy, q).dependencies
  {
    RootShape();
    PlatformPaths(PlatformHierarchy, q);
  }

  /** How often each code is referenced across the document. */
  lemma DependentCounts(c: string)
    ensures Occurrences(c, PlatformHierarchy) == ExpectedCount(c)
  {
    DocumentDeps();
    OccurrencesFlat(c, PlatformHierarchy);
    EntriesCount(c);
  }

  /** The explorer's annotation of every node of the document. */
  lemma DocumentAnnotations(p: Path)
    requires ValidPath(PlatformHierarchy, p)
    ensures var key := CodeKey(At(PlatformHierarchy, p));
      NodeAnnotation(PlatformHierarchy, p).dependentCount == (if key.Some? then ExpectedCount(key.value) else 0)
    ensures var key := CodeKey(At(PlatformHierarchy, p));
      NodeAnnotation(PlatformHierarchy, p).isCritical <==> key.Some? && key.value in CriticalCodes
  {
    DocumentDeps();
    AnnotationsOf(PlatformHierarchy, p);
  }

  /** Turning the overlay on from the default state draws fifteen edges,
      all between modules. */
  lemma DefaultOverlay()
    ensures var s := ToggleDependencies(PlatformHierarchy, Initial(PlatformHierarchy));
      && |DependencyEdges(PlatformHierarchy, s)| == 15
      && forall e :: e in DependencyEdges(PlatformHierarchy, s) ==> |e.source| == 2 && |e.target| == 2
  {
    DocumentSummarised();
    DefaultOverlayOf(PlatformHierarchy);
  }

  // ---------------------------------------------------------------------
  // The companion tables

  /** The sum of the domains' module counts. */
  function ModuleTotal(ds: seq<DomainInfo>): int {
    if |ds| == 0 then 0 else ds[0].modules + ModuleTotal(ds[1..])
  }

  /** The domain table lists the document's domains in order, by code, each
      with its number of modules. */
  lemma DomainTable()
    ensures |Domains| == |PlatformHierarchy.children|
    ensures forall i :: 0 <= i < |Domains| ==>
      && PlatformHierarchy.children[i].code == Some(Domains[i].id)
      && Domains[i].modules == |PlatformHierarchy.children[i].children|
  {
  }

  /** The domains' module counts add up to the "Modules" metric. */
  lemma ModulesMetric()
    ensures ModuleTotal(Domains) == 24
    ensures KeyMetrics[2].labelText == "Modules" && KeyMetrics[2].value == Text("24")
  {
  }

  /** The phases tile the 32-week axis, so every week belongs to exactly one
      phase and every bar lies inside the chart; their budgets add up to the
      one million of the "Total Budget" metric. */
  lemma PhaseSchedule()
    ensures Tiles(ProjectPhases)
    ensures TotalBudget(ProjectPhases) == 1000000
    ensures KeyMetrics[0].labelText == "Total Budget" && KeyMetrics[0].value == Text("$1,000,000")
  {
  }
}
