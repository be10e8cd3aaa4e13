# Platform hierarchy viewer, modelled in Dafny

The viewer shows the five-domain NGO healthcare platform document in several
ways, and this project models the logic behind them.

The document is a tree (`types.ts`, `data.ts`). The root platform holds domains, domains hold modules, and modules hold components, services and tables. Nodes carry codes such as `CD.1.1`. Modules list the codes they depend on.

The views modelled are:

- **Hierarchy explorer** (`components/HierarchyTree.tsx`):
  - a dependency indexer that counts, per code, how often it is referenced, and flags nodes referenced at least twice as critical;
  - a collapsible node-link tree: every node deeper than 1 starts collapsed, and one click both selects a node and folds or unfolds it;
  - an automatically chosen detail tab;
  - a dependency overlay whose switch rebuilds the tree.
- **Outline** (`components/FullStackTree.tsx`):
  - one row per mounted node, each with its own expanded flag;
  - payload tables under expanded service and table rows;
  - dependency chips that highlight a code for two seconds.
- **Glossary search**, **module list badges** and the **timeline** arithmetic.

Nodes are identified by their path of child indices from the root. The explorer's state is the set of nodes that show their children, plus the selection, the active tab and the overlay switch. Every transition is a pure function. The lemmas relate the views to definitions made independently of them over the tree (which nodes are reached, the pre-order and breadth-first listings, how often a code occurs), and relate transitions to each other.

## Modules

| file | module | contents |
|---|---|---|
| `types.dfy` | `Types` | the records of `types.ts` |
| `tree.dfy` | `Tree` | paths, pre-order and breadth-first listings, filtering |
| `indexer.dfy` | `Indexer` | the reference-count table, the code lookup, node annotations |
| `explorer.dfy` | `Explorer` | explorer state, transitions, links, dependency edges, detail panel |
| `outline.dfy` | `Outline` | outline rows, row and chip clicks, the highlight timer |
| `glossary.dfy` | `Glossary` | search match, category filter, category list |
| `modulelist.dfy` | `ModuleList` | code badge, child preview, "+N more" note |
| `timeline.dfy` | `Timeline` | bar offsets and widths, week headers, colours, phase schedules |
| `shape.dfy` | `Shape` | the platform/domain/module/leaf shape and nesting codes, for any tree |
| `document.dfy` | `Document` | the document and its phase, metric and domain tables |
| `documentshape.dfy` | `DocumentShape` | the document has that shape, module by module |
| `documentfacts.dfy` | `DocumentFacts` | unique codes, resolving dependencies, counts, default overlay, table agreement |

Five behaviours of the program that the model follows:

- one click on a node both selects it and toggles its children;
- depth-2 nodes start visible;
- the "Children" figure counts every child, shown or not;
- switching the overlay resets every expansion;
- a later highlight does not cancel the timer of an earlier one.

## Model

| member | source | states |
|---|---|---|
| Tree.DescendantsSpec | components/HierarchyTree.tsx:63 | the full listing of the tree contains exactly the valid paths |
| Tree.WalkFromRoot | components/HierarchyTree.tsx:112 | a path is listed exactly when it addresses a node and every proper ancestor shows its children |
| Tree.WalkIsPreorderFiltered | components/FullStackTree.tsx:183-191 | the listing of shown nodes is the pre-order listing of all nodes, restricted to the reached ones, in the same order |
| Tree.WalkNoDuplicates | components/HierarchyTree.tsx:112 | no node is listed twice |
| Tree.BreadthSpec | components/HierarchyTree.tsx:112 | the breadth-first listing holds the same nodes as the pre-order one, each as often, with shallower nodes first |
| Tree.BreadthLevel | components/HierarchyTree.tsx:112 | within one depth, the breadth-first listing keeps left-to-right order |
| Tree.Reverse | components/HierarchyTree.tsx:112 | the reversed listing holds the element at mirrored positions |
| Tree.ReverseSame | components/HierarchyTree.tsx:112 | reversing keeps the same elements and keeps them distinct |
| Tree.FilterMultiset | components/Glossary.tsx:12 | a filter keeps each passing element as often as it occurs in the input, and drops every other |
| Indexer.AddReferencesSpec | components/HierarchyTree.tsx:68-73 | visiting a dependency list raises each code's count by its occurrences there; a code gets an entry once referenced |
| Indexer.CountIndexSpec | components/HierarchyTree.tsx:67-74 | the count table built node by node holds each code's occurrences in the visited nodes' lists |
| Indexer.OccurrencesFlat | components/HierarchyTree.tsx:67-74 | counting over all entries in pre-order gives the code's occurrences over all nodes |
| Indexer.DependentsIndexCounts | components/HierarchyTree.tsx:60-74 | the table's count for every code is its number of references across the document, repeats and self-references included; only referenced codes have entries |
| Indexer.AnnotationSpec | components/HierarchyTree.tsx:76-79 | a coded node's dependent count is its code's references across the document; an uncoded node gets 0; critical exactly when that count is at least 2 |
| Indexer.CodeIndexSpec | components/HierarchyTree.tsx:60-65 | the code lookup has an entry exactly for the codes of listed nodes; each entry names a listed node with that code, and the only one when codes are unique |
| Indexer.CodeIndexLast | components/HierarchyTree.tsx:120-123 | of several listed nodes sharing a code, the lookup keeps the last |
| Indexer.DepsOfWalk | components/HierarchyTree.tsx:67-74 | visiting every node of a subtree meets its dependency entries in pre-order |
| Indexer.DepsOfPermutation | components/HierarchyTree.tsx:121-134 | visiting the same nodes in another order meets the same entries, each as often |
| Explorer.InitialOpenSpec | components/HierarchyTree.tsx:81-104 | after layout a node shows its children exactly when it is at depth 0 or 1 and has children |
| Explorer.InitialVisible | components/HierarchyTree.tsx:81-112 | after layout the visible nodes are exactly those of depth at most 2 |
| Explorer.AutoTab | components/HierarchyTree.tsx:280-286 | the tab a click picks is offered by the node; it is the schema whenever there is one, and Info only when nothing else is offered |
| Explorer.Click | components/HierarchyTree.tsx:277-296 | a click selects the node with an offered tab, flips whether it shows its children (a leaf stays closed) and changes nothing else |
| Explorer.ClickTwice | components/HierarchyTree.tsx:288-294 | two clicks on one node restore the expansion and the visible nodes; the node stays selected |
| Explorer.ClickOnlyAffectsSubtree | components/HierarchyTree.tsx:288-295 | a click changes the visibility only of nodes strictly below the clicked one |
| Explorer.CollapseHidesSubtree | components/HierarchyTree.tsx:288-290 | collapsing a node hides every node below it |
| Explorer.ExpandShowsChildren | components/HierarchyTree.tsx:291-293 | expanding a visible collapsed node makes each of its children visible |
| Explorer.ChooseTab | components/HierarchyTree.tsx:389-410 | a tab button sets the active tab and leaves expansion and selection alone |
| Explorer.ClickWellFormed | components/HierarchyTree.tsx:316-317 | a click keeps the state well formed: only nodes with children show them, and the active tab is offered by the selected node |
| Explorer.ChooseTabWellFormed | components/HierarchyTree.tsx:389-410 | choosing an offered tab keeps the state well formed |
| Explorer.ToggleDependenciesWellFormed | components/HierarchyTree.tsx:314 | switching the overlay keeps the state well formed |
| Explorer.ToggleResetsExpansion | components/HierarchyTree.tsx:94-104 | after the overlay switch the visible nodes are again exactly those of depth at most 2, whatever was expanded before |
| Explorer.ToggleTwice | components/HierarchyTree.tsx:328 | switching the overlay twice restores the state exactly when the expansion was the initial one |
| Explorer.LinksSpec | components/HierarchyTree.tsx:113-115 | links join exactly each visible non-root node to its parent, which is visible and 250 units closer on the depth axis |
| Explorer.DependencyEdges | components/HierarchyTree.tsx:117-119 | with the overlay off no dependency edge is drawn |
| Explorer.DrawnSpec | components/HierarchyTree.tsx:112 | the drawing order lists every visible node once and meets the same dependency entries |
| Explorer.DrawnLookupFirst | components/HierarchyTree.tsx:120-123 | of visible nodes sharing a code, the overlay targets the one the breadth-first listing meets first |
| Explorer.DependencyEdgesSound | components/HierarchyTree.tsx:125-134 | every dependency edge joins two visible nodes, and the target's code is among the source's dependencies |
| Explorer.DependencyEdgesExact | components/HierarchyTree.tsx:117-135 | with unique visible codes, the edge a→b is drawn once per entry of a naming b's code when both are visible, and otherwise never; self-references are kept |
| Explorer.DependencyEdgesCount | components/HierarchyTree.tsx:117-135 | with every node that lists dependencies visible, there is one edge per entry in the document exactly when every entry names a visible node's code; never more |
| Explorer.GlyphMarksHiddenChildren | components/HierarchyTree.tsx:177-187 | a visible node is drawn filled exactly when it has children and none is visible; its label sits left exactly when it has children |
| Explorer.DetailPanelSpec | components/HierarchyTree.tsx:423-452 | the panel counts all children, shown or stashed, gives the depth, and shows an impact note exactly when the code is referenced, with that count; the active tab is a button |
| Outline.RowsSpec | components/FullStackTree.tsx:183-191 | a row renders exactly when its node exists and every ancestor row is expanded, in pre-order, each once |
| Outline.InitialRows | components/FullStackTree.tsx:30 | on first render the rows are exactly the nodes of depth at most 2 |
| Outline.ChevronShowsChildren | components/FullStackTree.tsx:58-95 | a rendered row with children points its chevron down exactly when all its child rows are rendered below it, and right exactly when none is |
| Outline.RenderSpec | components/FullStackTree.tsx:95-148 | an API table exactly under rendered expanded service rows with an API list, a schema table exactly under rendered expanded table rows with a schema; a row is highlighted exactly when the highlight code is its code |
| Outline.RowClick | components/FullStackTree.tsx:30-95 | a row click flips only that row's flag; a collapse returns the flags of rows below to their default, and so does an expansion when only mounted rows hold flags; clicking a mounted row keeps that so |
| Outline.MountedInvariant | components/FullStackTree.tsx:30-95 | only mounted rows hold a flag of their own on the first render and after every click on a mounted row, chip click and timer |
| Outline.RowClickOnlyAffectsSubtree | components/FullStackTree.tsx:95 | a row click changes which rows render only below the clicked row |
| Outline.CollapseHidesSubtree | components/FullStackTree.tsx:95 | collapsing a row stops rendering every row below it |
| Outline.RowClickTwice | components/FullStackTree.tsx:30-95 | clicking a row twice restores the state exactly when no row below it had been flipped |
| Outline.ChipClick | components/FullStackTree.tsx:84 | a chip click leaves the flags alone, sets the highlight to the chip's code and schedules one clear two seconds later |
| Outline.ChipClickKeepsRows | components/FullStackTree.tsx:84 | a chip click leaves the rendered rows unchanged |
| Outline.Advance | components/FullStackTree.tsx:204 | when time passes, every timer due fires and clears the highlight, whoever set it; the others stay pending |
| Outline.HighlightLifetime | components/FullStackTree.tsx:199-205 | a highlight lasts until the earliest pending timer and never past two seconds |
| Outline.EarlierTimerClearsLaterHighlight | components/FullStackTree.tsx:201-205 | a chip clicked 1.5 s after another loses its highlight 0.5 s later, to the first chip's timer |
| Glossary.Lower | components/Glossary.tsx:13-14 | lower-casing keeps the length and maps each letter |
| Glossary.Contains | components/Glossary.tsx:13-14 | `includes` holds exactly when the text occurs at some offset, the empty text everywhere |
| Glossary.FilterTermsSpec | components/Glossary.tsx:12-17 | the result lists, in glossary order, exactly the terms whose name or definition contains the search case-insensitively and whose category is selected or "All" is, each as often as the glossary lists it |
| Glossary.EmptySearchListsAll | components/Glossary.tsx:13-15 | an empty search under "All" lists every term |
| Glossary.CategoryNarrows | components/Glossary.tsx:15 | selecting a category keeps a subsequence of the "All" result |
| Glossary.EmptyMessageSpec | components/Glossary.tsx:74 | the notice shows exactly when no term matches |
| Glossary.Dedup | components/Glossary.tsx:10 | the de-duplicated list holds each value of the input exactly once |
| Glossary.DedupOrder | components/Glossary.tsx:10 | the kept values are ordered by first occurrence |
| Glossary.CategoriesSpec | components/Glossary.tsx:10 | the options are "All" then each category in use once, by first appearance |
| Glossary.CategoriesRepeatAll | components/Glossary.tsx:10 | "All" is offered twice exactly when a term is filed under "All" |
| ModuleList.JoinSplit | components/ModuleList.tsx:36 | joining the pieces of a split gives back the code |
| ModuleList.SplitJoin | components/ModuleList.tsx:36 | splitting a join of separator-free pieces gives back the pieces |
| ModuleList.BadgeSpec | components/ModuleList.tsx:36 | the badge is the code's suffix after its last '.', free of '.', and the whole code when it has none |
| ModuleList.MoreNote | components/ModuleList.tsx:51-53 | the note appears exactly when children are left out, and preview plus note count every child |
| Timeline.BarEnd | components/ProjectTimeline.tsx:34-35 | the bar ends at the last week's share of the 32-week axis |
| Timeline.BarWithinAxis | components/ProjectTimeline.tsx:5-35 | the bar is non-empty and inside the axis exactly when 1 ≤ start ≤ end ≤ 32 |
| Timeline.BucketsPartition | components/ProjectTimeline.tsx:20-23 | the eight headers are four weeks each, contiguous, span weeks 1 to 32, and each week falls under exactly one |
| Timeline.ColorOf | components/ProjectTimeline.tsx:37-41 | the colour depends only on the id: 2 to 5 have their own, every other id is blue |
| Timeline.TilesPartition | components/ProjectTimeline.tsx:29-35 | in a contiguous schedule every week of the axis belongs to exactly one phase |
| Timeline.TilesWithinAxis | components/ProjectTimeline.tsx:29-35 | in a contiguous schedule every bar is non-empty and inside the axis |
| Shape.PlatformPaths | data.ts:4-858 | in a platform-shaped tree the kind follows the depth, only modules list dependencies, payloads sit on services and tables, and no node lists its own code |
| Shape.LayeredUnique | data.ts:4-858 | in a tree whose codes nest level by level no two nodes share a code |
| Shape.ModuleFlatDeps | data.ts:4-858 | a module's entries are its own list; its leaves list none |
| DocumentFacts.DocumentShaped | data.ts:4-858 | the document is platform-shaped with codes nesting level by level |
| DocumentFacts.DocumentDeps | data.ts:140-760 | the document's dependency entries, in pre-order, are the fifteen listed |
| DocumentFacts.UniqueCodes | data.ts:4-858 | no two nodes of the document share a code |
| DocumentFacts.DependenciesResolve | data.ts:140-760 | every dependency entry sits on a module and names exactly one other module of the document |
| DocumentFacts.NoSelfReference | data.ts:140-760 | no node of the document lists its own code |
| DocumentFacts.DocumentDepth | data.ts:4-858 | the document is three levels deep below the root |
| DocumentFacts.DocumentKinds | data.ts:4-858 | depth 1 holds domains, depth 2 modules, depth 3 components, services and tables |
| DocumentFacts.PayloadPlacement | data.ts:4-858 | API lists sit only on services and schemas only on tables |
| DocumentFacts.EntriesCount | data.ts:140-760 | CD.1.1 is referenced 4 times, CD.1.2 5, OD.2.1 and OD.2.3 twice, CD.1.4 and IF.5.1 once, every other code never |
| DocumentFacts.DependentCounts | data.ts:140-760 | those are the reference counts of each code over the document |
| DocumentFacts.CriticalCount | data.ts:140-760 | a code is referenced at least twice exactly when it is CD.1.1, CD.1.2, OD.2.1 or OD.2.3 |
| DocumentFacts.DocumentAnnotations | components/HierarchyTree.tsx:76-79 | every node of the document gets its code's count as dependent count and is critical exactly when its code is one of those four |
| DocumentFacts.HomeOf | data.ts:140-760 | in any tree with the document's summary, each entry names exactly one node, the module at the entry's home |
| DocumentFacts.ResolveOf | data.ts:140-760 | in such a tree only modules list dependencies, and each entry names another module |
| DocumentFacts.AnnotationsOf | components/HierarchyTree.tsx:76-79 | in any tree with the document's entries, dependent counts and critical flags follow the counts above |
| DocumentFacts.DefaultOverlayOf | components/HierarchyTree.tsx:117-135 | in any tree with the document's summary, switching the overlay on from the start draws one edge per entry, each between two modules |
| DocumentFacts.DefaultOverlay | components/HierarchyTree.tsx:117-135 | switching the overlay on from the start draws fifteen edges on the document, all between modules |
| DocumentFacts.DomainTable | data.ts:922-928 | the domain table lists the document's domains in order, by code, each with its number of modules |
| DocumentFacts.ModulesMetric | data.ts:913-928 | the domains' module counts add up to 24, the "Modules" metric |
| DocumentFacts.PhaseSchedule | data.ts:860-915 | the phases tile weeks 1 to 32 and their budgets add up to the 1,000,000 of the "Total Budget" metric |

## Left out

- d3 rendering: the SVG, transitions, zoom and pan, and tree-layout coordinates across siblings are library geometry in floating point. Only the depth coordinate (`depth * 250`) is modelled.
- The node-id keying of d3's data join and the JSON deep copy of the document: the model works on an immutable value, so the copy changes nothing.
- "Reset view" reloads the page. That is a fresh start, the same as `Explorer.Initial`.
- `scrollIntoView` on highlight, which only moves the viewport.
- Row keys (`code || name`) in the outline: rows are identified by path. So React's reuse of component state between siblings with equal keys is not modelled.
- The free-form `details` field of a node: no view reads it.
- An absent `children` or `dependencies` array is modelled as an empty one. Every modelled view treats the two alike. The exception is the module-count header at ModuleList.tsx:27, which prints nothing for an absent array and 0 for an empty one. The document gives every domain a non-empty array.
- Descriptive text of the document (descriptions, API summaries, parameters and responses, column types, constraints and notes) is not encoded. Names, types, codes, children, dependencies, API methods and paths, table and column names are.
- The glossary's term list: the filter and the category list are proved for every list of terms, not for the document's own terms.
- Glossary.Lower: lower-cases ASCII letters only. Full Unicode case mapping is left out.
- Timeline.BarEnd: percentages are exact rationals, not IEEE doubles.
- `toLocaleString` formatting of budgets and the metric cards' presentation.
- ModuleList.tsx:27 shows each domain's child count directly, so the header count is the number of children by construction. `DocumentFacts.DomainTable` relates those counts to the domain table.
- Routing, page layout, the dashboard charts and the DevOps guide are presentation with no logic of their own.
- Timers other than the highlight clear, and the clipboard.
- Codes are assumed not to name `Object.prototype` properties (`constructor`, `toString`, `__proto__`, …). The explorer's count table and code lookups are plain objects and misbehave on such keys: a count becomes NaN, and a lookup finds an inherited function. The model's maps do not, so Indexer.DependentsIndexCounts, Indexer.AnnotationSpec and Explorer.DependencyEdgesExact hold only for codes that are not such names. No code in the document is one.
