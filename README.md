# TheoryGrapht, modelled in Dafny

TheoryGrapht is a teaching tool for graph theory. A React front end lets
the user draw or type a weighted graph, converts it to an adjacency map
`{ vertex: [{ target, distance }] }` and posts it to a Java back end. The
back end runs one of seven algorithms and returns a list of edges, a
distance table or a pair of matrices. The front end then reads that
result back, highlights the edges step by step, draws trees and paths,
and colours the links of the force layout.

This project models that core and proves what each part promises:

- **The back end.** It covers the graph builders (`fromMap`, `loadJson`,
  `searchVertex`, `getNeighbors`) and breadth- and depth-first traversal.
  It covers Prim (lightest crossing edge), Kruskal (stable sort plus
  union–find with path compression) and Dijkstra (path, final distances,
  step table). It also covers Bellman–Ford (table and path) and
  Floyd–Warshall (matrices and path).
- **The front end.** It covers the adjacency conversions of the API
  service, the JSON editor and the toolbar, and their round trips. It
  covers reading back the result text (`Result.tsx`), the step-by-step
  highlight sequence and its timer state (`App.tsx`), the tree diagram,
  and the drawing decisions of both graph views (curved or straight,
  side factor, colours).

Java objects are modelled by vertex name. A `HashMap` becomes a Dafny
`map`. An ordered container (`LinkedHashMap`, JS `Set`, JS object)
becomes a sequence of keys in insertion order. For a JS object that is
exact only when no key is integer-like; "## Left out" says more. Java `int` is an unbounded `int`, with
`Integer.MAX_VALUE` kept as the literal sentinel `MaxValue`. Only the
Dijkstra run excludes sums past that value by a precondition; the other
algorithms add unbounded integers, and "## Left out" names them. Imperative loops are
methods proved against reference functions. Pure helpers are functions
with lemmas.

## Model

| member | source | states |
|---|---|---|
| GraphModel.Other | src/main/java/org/theorygrapht/util/GraphUtils.java:90 | the neighbour over an edge is its target when `v` is the source, otherwise its source |
| GraphModel.EdgesOfKey | src/main/java/org/theorygrapht/util/GraphUtils.java:110-115 | one edge `(key, target, distance)` per neighbour entry of a key, in list order |
| GraphModel.EdgesFromCount | src/main/java/org/theorygrapht/util/GraphUtils.java:109-116 | the edge loop makes exactly one edge per neighbour entry: no dedup and no mirroring |
| GraphModel.EdgesFromOrigin | src/main/java/org/theorygrapht/util/GraphUtils.java:109-116 | every edge comes from a neighbour entry of its source key |
| GraphModel.EdgesFromComplete | src/main/java/org/theorygrapht/util/GraphUtils.java:109-116 | every neighbour entry of a key yields its edge |
| GraphModel.IncidentMembers | src/main/java/org/theorygrapht/util/GraphUtils.java:119-123 | the reference incident list holds exactly the edges touching `v` |
| GraphModel.IncidenceOfSpec | src/main/java/org/theorygrapht/util/GraphUtils.java:119-123 | after the `computeIfAbsent(..).add(e)` loop, a vertex has a list iff it had one or some edge touches it, and its list is the old list followed by its incident edges in order |
| GraphModel.IncidenceOfClosed | src/main/java/org/theorygrapht/util/GraphUtils.java:119-123 | every endpoint named in an adjacency list has a list of its own |
| GraphModel.TotalWeightReverse | src/main/java/org/theorygrapht/service/Dijkstra.java:91 | reversing a path keeps its total weight |
| GraphUtils.FoldCase | src/main/java/org/theorygrapht/util/GraphUtils.java:80 | ASCII upper-case letters fold to lower case, every other character is kept |
| GraphUtils.Lookup | src/main/java/org/theorygrapht/util/GraphUtils.java:78-85 | the first vertex equal to the name up to case; the error "Vertex not found : name" exactly when no vertex matches |
| GraphUtils.SearchVertex | src/main/java/org/theorygrapht/util/GraphUtils.java:78-85 | the linear scan returns `Lookup` |
| GraphUtils.CollectEdges | src/main/java/org/theorygrapht/util/GraphUtils.java:109-116 | the nested edge loop yields `EdgesFrom` of the keys in key order |
| GraphUtils.AddIncidences | src/main/java/org/theorygrapht/util/GraphUtils.java:119-123 | the incidence loop builds `IncidenceOf` of the edges |
| GraphUtils.FromMap | src/main/java/org/theorygrapht/util/GraphUtils.java:96-126 | vertices are the keys; one edge per entry; a vertex has an adjacency entry iff some edge touches it, and it lists exactly its incident edges (a self-loop twice); the lists are closed |
| GraphUtils.WithTargets | src/main/java/org/theorygrapht/util/GraphUtils.java:35-42 | the vertex list keeps the keys first, stays distinct, and holds exactly the keys and the targets |
| GraphUtils.WithTargetsAppend | src/main/java/org/theorygrapht/util/GraphUtils.java:36-42 | adding targets list by list equals adding them all at once |
| GraphUtils.AddNewNames | src/main/java/org/theorygrapht/util/GraphUtils.java:37-41 | the inner loop appends each target not yet a vertex, in order |
| GraphUtils.LoadJsonVertices | src/main/java/org/theorygrapht/util/GraphUtils.java:30-42 | the two vertex loops compute `WithTargets` of the keys and all targets |
| GraphUtils.TargetNamesOfEdges | src/main/java/org/theorygrapht/util/GraphUtils.java:36-42 | the targets met key by key are the targets of the edges, in order |
| GraphUtils.LoadJsonTargets | src/main/java/org/theorygrapht/util/GraphUtils.java:35-42 | every target of the input becomes a vertex |
| GraphUtils.LoadJsonEndpoints | src/main/java/org/theorygrapht/util/GraphUtils.java:48-59 | both endpoints of every edge are vertices |
| GraphUtils.LoadJsonGraph | src/main/java/org/theorygrapht/util/GraphUtils.java:29-71 | distinct vertices, keys first; every target a vertex; one edge per entry; every vertex has a list, exactly its incident edges |
| GraphUtils.GetNeighbors | src/main/java/org/theorygrapht/util/GraphUtils.java:87-94 | the other endpoint of each incident edge, in list order; a `NullPointerException` exactly when the vertex has no adjacency entry |
| Walks.ChainedSnoc | src/main/java/org/theorygrapht/service/BellmanFord.java:138-147 | appending an edge that leaves the end of a walk extends the walk and adds its weight |
| Walks.ChainedAppend | src/main/java/org/theorygrapht/service/FloydWarshall.java:59-63 | two walks meeting at a vertex make one walk whose weight is the sum |
| Walks.ChainedMiddle | src/main/java/org/theorygrapht/service/FloydWarshall.java:59-63 | any inner stretch of a walk is a walk from where its first edge starts to where its last edge stops |
| Walks.WalkFloor | src/main/java/org/theorygrapht/service/BellmanFord.java:109-126 | under a feasible potential no walk weighs less than the potential difference of its ends |
| Walks.CycleNonNegative | src/main/java/org/theorygrapht/service/BellmanFord.java:109-126 | under a feasible potential every cycle weighs at least zero |
| Walks.FeasibleEverywhere | src/main/java/org/theorygrapht/service/BellmanFord.java:53 | a potential feasible on every edge is feasible from any start |
| Walks.WalkFloorFrom | src/main/java/org/theorygrapht/service/BellmanFord.java:53 | under a potential feasible from the start, no walk out of a reached vertex weighs less than the potential difference of its ends |
| Walks.ReachedCycleNonNegative | src/main/java/org/theorygrapht/service/BellmanFord.java:53 | under a potential feasible from the start, every cycle through a reached vertex weighs at least zero |
| Walks.UnreachedNegativeCycle | src/main/java/org/theorygrapht/service/BellmanFord.java:53 | a negative cycle the start cannot reach admits no potential on the whole graph, yet one feasible from the start exists |
| Walks.FirstEdge | src/main/java/org/theorygrapht/service/BellmanFord.java:140-145 | the first edge from `a` to `b` in array order; none exactly when no edge goes from `a` to `b` |
| Walks.FindEdge | src/main/java/org/theorygrapht/service/BellmanFord.java:140-145 | the inner `for` with its `break` returns `FirstEdge` |
| Traversal.Order | src/main/java/org/theorygrapht/service/BFS.java:34-48 | the discovery order has one more entry than the tree edges and starts at the start |
| Traversal.OrderTargets | src/main/java/org/theorygrapht/service/BFS.java:46-48 | the vertex discovered by tree edge `i` is that edge's target |
| Traversal.TreeDistinct | src/main/java/org/theorygrapht/service/BFS.java:45-48 | a tree built by the visited-set test discovers no vertex twice |
| Traversal.TreeEdgeShape | src/main/java/org/theorygrapht/service/BFS.java:40-48 | every tree edge leaves an earlier-discovered vertex and copies the weight of an incident edge to its other endpoint |
| Traversal.TreeReachable | src/main/java/org/theorygrapht/service/BFS.java:40-48 | every discovered vertex is reachable from the start |
| Traversal.ClosedHasReachable | src/main/java/org/theorygrapht/service/BFS.java:37-51 | a vertex set closed under steps contains everything reachable from its members |
| Traversal.TreeIsReachableSet | src/main/java/org/theorygrapht/service/BFS.java:37-51 | a closed traversal tree discovers exactly the reachable vertices |
| Traversal.FirstLead | src/main/java/org/theorygrapht/service/BFS.java:40-48 | the position found is the first entry of the list leading to the vertex, or the list's end when none does |
| Traversal.FirstLeadAt | src/main/java/org/theorygrapht/service/BFS.java:40-48 | a scan that reaches an entry having passed only entries leading elsewhere stands at the first entry leading to its target |
| BFS.Expand | src/main/java/org/theorygrapht/service/BFS.java:40-50 | the inner loop marks, enqueues and links every neighbour not yet visited, keeping the discovery state |
| BFS.Visit | src/main/java/org/theorygrapht/service/BFS.java:40-50 | one neighbour: if unvisited it is marked, enqueued and reached by a new tree edge; the discovery state is kept either way |
| BFS.Dequeue | src/main/java/org/theorygrapht/service/BFS.java:38 | polling the head starts its expansion with the queue loop's state |
| BFS.DequeuedHasList | src/main/java/org/theorygrapht/service/BFS.java:40 | only the start can be dequeued without an adjacency entry |
| BFS.Poll | src/main/java/org/theorygrapht/service/BFS.java:37-51 | one round keeps the queue state and either discovers a vertex or shortens the queue |
| BFS.MeasureDrops | src/main/java/org/theorygrapht/service/BFS.java:37-51 | the loop's measure (undiscovered vertices, then queue length) strictly drops each round |
| BFS.BfsFinish | src/main/java/org/theorygrapht/service/BFS.java:37-53 | an empty queue leaves a finished breadth-first tree: distinct discoveries, closed, first-in-first-out sources, exactly the reachable vertices, each vertex under its earliest discovered neighbour, children in list order over the first entry leading to them |
| BFS.Traverse | src/main/java/org/theorygrapht/service/BFS.java:30-53 | `NullPointerException` exactly when the start has no list and no default is used; otherwise a finished breadth-first tree (layer by layer: each vertex under its earliest discovered neighbour, children in list order), empty for a listless start |
| BFS.GetBfs | src/main/java/org/theorygrapht/service/BFS.java:26-54 | a lookup error is passed on; a found start without an adjacency entry raises `NullPointerException`; any other start yields its breadth-first tree, each vertex under its earliest discovered neighbour and children in list order |
| BFS.GetBfsDefault | src/main/java/org/theorygrapht/service/BFS.java:26-54 | with `getOrDefault`, every found start yields a breadth-first tree, each vertex under its earliest discovered neighbour and children in list order, empty for an isolated start |
| BFS.LayeredNew | src/main/java/org/theorygrapht/service/BFS.java:45-49 | a neighbour first reached over entry `j` is reached over the first entry leading to it, after its siblings found earlier in the list, and no vertex expanded earlier steps to it |
| BFS.CopiesNew | src/main/java/org/theorygrapht/service/BFS.java:48 | every tree edge copies the weight of the first entry leading to its target, the new one included |
| BFS.OrderedNew | src/main/java/org/theorygrapht/service/BFS.java:40-48 | a child found at list position `j` comes after the children of the same vertex found before it |
| BFS.EarliestNew | src/main/java/org/theorygrapht/service/BFS.java:37-48 | a target no expanded vertex reached has no step from any vertex dequeued before its parent |
| BFS.LayeredFinal | src/main/java/org/theorygrapht/service/BFS.java:37-51 | with every source at its discovery position, each vertex hangs under its earliest discovered neighbour |
| BFS.TreeFromState | src/main/java/org/theorygrapht/service/BFS.java:37-53 | the loop's facts at an empty queue make a breadth-first tree |
| BFS.DepthFirstTreeRejected | src/main/java/org/theorygrapht/service/BFS.java:37-51 | on the triangle A-B, A-C, B-C from A, the depth-first answer `A-B, B-C` is not a breadth-first tree |
| BFS.IsolatedStartAsWritten | src/main/java/org/theorygrapht/service/BFS.java:40 | `fromMap` of `{"A": []}` then a search from `A` raises `NullPointerException` |
| BFS.IsolatedStartCorrected | src/main/java/org/theorygrapht/service/BFS.java:40 | the same call with the default returns the empty tree |
| DFS.RootPath | src/main/java/org/theorygrapht/service/DFS.java:36-66 | the root path starts at the start and ends at the last discovered vertex |
| DFS.RootPathFacts | src/main/java/org/theorygrapht/service/DFS.java:36-66 | the root path holds discovered vertices only, each once |
| DFS.RootPathCut | src/main/java/org/theorygrapht/service/DFS.java:52-65 | a new tree edge cuts the root path back to its source and extends it by its target |
| DFS.ScanFrom | src/main/java/org/theorygrapht/service/DFS.java:47-62 | the scan stops at the first entry from `nextIndex` on whose neighbour is unvisited, or at the end of the list |
| DFS.Push | src/main/java/org/theorygrapht/service/DFS.java:51-60 | diving over an entry to an unvisited neighbour keeps the stack state |
| DFS.PushPath | src/main/java/org/theorygrapht/service/DFS.java:55-57 | the pushed vertex extends the root path and the discovery order |
| DFS.PushDeep | src/main/java/org/theorygrapht/service/DFS.java:46-59 | the edge taken is a dive: every root-path vertex beyond its source is finished and it copies the first entry leading to an undiscovered vertex |
| DFS.PoppedDone | src/main/java/org/theorygrapht/service/DFS.java:63-65 | the root-path vertices beyond the stack were popped, so all their neighbours are discovered |
| DFS.ScanOut | src/main/java/org/theorygrapht/service/DFS.java:43-59 | resuming at `nextIndex` and stopping at the first unvisited neighbour finds the first entry leading outside the discovered vertices |
| DFS.DeepestSnoc | src/main/java/org/theorygrapht/service/DFS.java:51-59 | a dive appended to a run of dives is a run of dives |
| DFS.Pop | src/main/java/org/theorygrapht/service/DFS.java:64-66 | popping a top whose remaining entries all lead to visited vertices keeps the state |
| DFS.DfsFinish | src/main/java/org/theorygrapht/service/DFS.java:40-69 | an empty stack leaves a depth-first tree: every edge leaves the root path from its deepest unfinished vertex over the first entry to an undiscovered one, distinct discoveries, closed, exactly the reachable vertices |
| DFS.Traverse | src/main/java/org/theorygrapht/service/DFS.java:31-69 | the stack loop, with `getOrDefault` lists, returns a depth-first tree: each edge the first way out of the deepest vertex not yet finished |
| DFS.GetDfs | src/main/java/org/theorygrapht/service/DFS.java:26-70 | a lookup error is passed on; otherwise the depth-first tree of the found start, each edge the first way out of the deepest vertex not yet finished |
| DFS.BreadthFirstTreeRejected | src/main/java/org/theorygrapht/service/DFS.java:39-66 | on the triangle A-B, A-C, B-C from A, the breadth-first answer `A-B, A-C` is not a depth-first tree |
| Prim.LightestSpec | src/main/java/org/theorygrapht/service/Prim.java:52-67 | the scan finds a crossing edge of least weight, and finds none exactly when no edge crosses |
| Prim.LightestEarliest | src/main/java/org/theorygrapht/service/Prim.java:61 | ties go to the earliest edge: every crossing edge before the chosen one is strictly heavier |
| Prim.GetClosestEdge | src/main/java/org/theorygrapht/service/Prim.java:52-67 | one pass returns `Lightest`: `null` iff no edge crosses, else a crossing edge no heavier than any other |
| Prim.PrimStepsReachable | src/main/java/org/theorygrapht/service/Prim.java:35-46 | every vertex the steps reach is reachable from the start along edges in their own orientation |
| Prim.NoCrossingClosed | src/main/java/org/theorygrapht/service/Prim.java:39-41 | with no crossing edge, the visited vertices contain everything reachable |
| Prim.TakeEdge | src/main/java/org/theorygrapht/service/Prim.java:42-45 | taking the lightest crossing edge adds exactly one new vertex and keeps the loop state |
| Prim.Disconnected | src/main/java/org/theorygrapht/service/Prim.java:39-41 | the exception is raised only when some vertex is unreachable from the start |
| Prim.Connected | src/main/java/org/theorygrapht/service/Prim.java:35-47 | when all vertices are visited the steps form the tree and every vertex is reachable |
| Prim.GetPrim | src/main/java/org/theorygrapht/service/Prim.java:24-48 | a lookup error is passed on; "This is a disconnected graph" exactly when some vertex is unreachable from the start; otherwise each edge is the lightest crossing edge of its step and every vertex is reached once |
| Kruskal.SortByWeightSpec | src/main/java/org/theorygrapht/service/Kruskal.java:20-21 | the sort orders by weight, keeps every edge (a permutation), and keeps equal weights in input order (stable) |
| Kruskal.Identity | src/main/java/org/theorygrapht/service/Kruskal.java:23-25 | every vertex starts as its own parent |
| Kruskal.RelabelClasses | src/main/java/org/theorygrapht/service/Kruskal.java:31-34 | merging two different components keeps the labels canonical and removes exactly one label |
| Kruskal.RunCount | src/main/java/org/theorygrapht/service/Kruskal.java:27-35 | accepted edges plus remaining components equal the number of vertices: no cycle is closed and at most \|V\| - 1 edges are taken |
| Kruskal.RunAccepted | src/main/java/org/theorygrapht/service/Kruskal.java:27-35 | the accepted edges come from the input and stay in non-decreasing weight |
| Kruskal.Find | src/main/java/org/theorygrapht/service/Kruskal.java:39-44 | `find` returns the root of `v` and compresses its path; the roots, and so the components, stay the same |
| Kruskal.Union | src/main/java/org/theorygrapht/service/Kruskal.java:33 | hanging one root under another keeps a forest whose components are merged |
| Kruskal.EdgeStep | src/main/java/org/theorygrapht/service/Kruskal.java:28-35 | an edge is accepted exactly when its roots differ, and the forest then realises the reference run |
| Kruskal.InitParent | src/main/java/org/theorygrapht/service/Kruskal.java:22-25 | the parent map is the identity on the vertices |
| Kruskal.ProcessEdges | src/main/java/org/theorygrapht/service/Kruskal.java:27-35 | the edge loop accepts exactly the edges the reference run accepts |
| Kruskal.GetKruskal | src/main/java/org/theorygrapht/service/Kruskal.java:19-37 | the result is the reference run over the stably sorted edges: sorted by weight, drawn from the graph, and \|mst\| + components = \|V\| |
| Dijkstra.MaxWeight | src/main/java/org/theorygrapht/service/Dijkstra.java:49 | a bound on every edge weight, never negative |
| Dijkstra.InitDist | src/main/java/org/theorygrapht/service/Dijkstra.java:31-35 | one entry per vertex: 0 at the start, `MAX_VALUE` elsewhere |
| Dijkstra.HasNearest | src/main/java/org/theorygrapht/service/Dijkstra.java:41 | a non-empty queue has a vertex of least distance to poll |
| Dijkstra.PollStep | src/main/java/org/theorygrapht/service/Dijkstra.java:40-41 | polling a nearest queued vertex starts its scan with the loop state |
| Dijkstra.KeepStep | src/main/java/org/theorygrapht/service/Dijkstra.java:43-50 | an edge that does not lower a neighbour leaves the state unchanged |
| Dijkstra.ImproveStep | src/main/java/org/theorygrapht/service/Dijkstra.java:49-55 | lowering a neighbour, recording the predecessor and re-queueing it keeps the state |
| Dijkstra.RelaxEdge | src/main/java/org/theorygrapht/service/Dijkstra.java:43-56 | the body of the edge loop moves the scan of `u` on by one edge |
| Dijkstra.ScanEdges | src/main/java/org/theorygrapht/service/Dijkstra.java:43-56 | after the edge loop the polled vertex is fully relaxed |
| Dijkstra.Finish | src/main/java/org/theorygrapht/service/Dijkstra.java:40-59 | when the queue is empty every edge is relaxed and `prev` forms a tree of tight edges back to the start |
| Dijkstra.ComputeDijkstra | src/main/java/org/theorygrapht/service/Dijkstra.java:26-60 | a lookup error is passed on; otherwise the final state: start at 0, every edge relaxed, predecessor tree |
| Dijkstra.WalkLowerBound | src/main/java/org/theorygrapht/service/Dijkstra.java:26-60 | no walk from the start weighs less than the final distance of its end, and its end is reached |
| Dijkstra.DistanceMeaning | src/main/java/org/theorygrapht/service/Dijkstra.java:26-60 | a distance is finite iff a walk connects the vertex to the start, and it is then the least walk weight |
| Dijkstra.Chain | src/main/java/org/theorygrapht/service/Dijkstra.java:79-89 | following `prev` from `v` ends at a vertex without a predecessor |
| Dijkstra.Pick | src/main/java/org/theorygrapht/service/Dijkstra.java:81-87 | the first edge joining the predecessor and the vertex, in either orientation (tight: one whose weight is the distance difference); none iff no edge fits |
| Dijkstra.FindEdge | src/main/java/org/theorygrapht/service/Dijkstra.java:81-87 | the inner `for` with its `break` returns `Pick` |
| Dijkstra.ChainReached | src/main/java/org/theorygrapht/service/Dijkstra.java:79-89 | the chain of a reached vertex stays among reached vertices and ends at the start |
| Dijkstra.StepsAlongChain | src/main/java/org/theorygrapht/service/Dijkstra.java:79-89 | each collected edge joins consecutive vertices of the chain |
| Dijkstra.StepsWeight | src/main/java/org/theorygrapht/service/Dijkstra.java:79-89 | with the tight choice, the collected weights add up to the distance |
| Dijkstra.PathWalks | src/main/java/org/theorygrapht/service/Dijkstra.java:79-91 | the reversed edges walk from the start to the vertex |
| Dijkstra.WalkBack | src/main/java/org/theorygrapht/service/Dijkstra.java:76-92 | the walk back, then `Collections.reverse`, returns the reversed steps |
| Dijkstra.GetDijkstraPath | src/main/java/org/theorygrapht/service/Dijkstra.java:70-93 | lookup errors for the start and then the end are passed on; otherwise the reversed steps of the end |
| Dijkstra.PathOutcome | src/main/java/org/theorygrapht/service/Dijkstra.java:70-93 | empty when the end is the start or unreachable; otherwise a walk from the start to the end, and with the tight choice one of least weight |
| Dijkstra.GetDijkstraAsWritten | src/main/java/org/theorygrapht/service/Dijkstra.java:70-93 | as written: lookup errors passed on; a walk from the start to a connected end, empty otherwise; its weight is not promised |
| Dijkstra.GetDijkstra | src/main/java/org/theorygrapht/service/Dijkstra.java:70-93 | as above, and the walk is a shortest one |
| Dijkstra.ParallelSteps | src/main/java/org/theorygrapht/service/Dijkstra.java:81-87 | on edges A→B of weight 5 then 1, the first-edge walk back from B is the edge of weight 5 and the tight one is the edge of weight 1 |
| Dijkstra.ParallelEdgesAsWritten | src/main/java/org/theorygrapht/service/Dijkstra.java:81-87 | `getDijkstra` from A to B on that graph returns the edge of weight 5 |
| Dijkstra.ParallelEdgesCorrected | src/main/java/org/theorygrapht/service/Dijkstra.java:81-87 | with the tight choice it returns the edge of weight 1 |
| Dijkstra.CopyByName | src/main/java/org/theorygrapht/service/Dijkstra.java:105-108 | the copy loop yields the same map |
| Dijkstra.FinalTable | src/main/java/org/theorygrapht/service/Dijkstra.java:102-110 | every vertex has an entry; the start is 0; `MAX_VALUE` exactly for vertices no walk reaches; every other entry is the weight of a walk from the start and no walk weighs less, so it is the shortest distance |
| Dijkstra.GetDijkstraFinalMatrix | src/main/java/org/theorygrapht/service/Dijkstra.java:102-110 | a lookup error is passed on; otherwise the distance table above: every entry the sentinel or the least weight of a walk from the start |
| DijkstraTable.RelaxViaSpec | src/main/java/org/theorygrapht/service/Dijkstra.java:150-160 | the relaxed distance is the least of the old one and `dist[u] + w` over the joining edges, and equals one of them |
| DijkstraTable.RowShape | src/main/java/org/theorygrapht/service/Dijkstra.java:141-163 | a row has the key "C" first, then each vertex once; each vertex cell is its `CellOf`; "C" shows `u` and its distance |
| DijkstraTable.CellMeaning | src/main/java/org/theorygrapht/service/Dijkstra.java:145-161 | an unvisited cell is "inf" when no joining edge brings the distance below `MAX_VALUE`, otherwise `(u, d)` with the relaxed distance |
| DijkstraTable.RelaxCell | src/main/java/org/theorygrapht/service/Dijkstra.java:150-160 | the inner edge loop sets the vertex to `RelaxVia` and changes nothing else |
| DijkstraTable.RowCell | src/main/java/org/theorygrapht/service/Dijkstra.java:145-162 | one vertex of the row: its cell appended and, if unvisited, its distance relaxed |
| DijkstraTable.BuildRow | src/main/java/org/theorygrapht/service/Dijkstra.java:141-163 | the vertex loop builds `RowOf` and the distances `AfterRow` |
| DijkstraTable.PushedSpec | src/main/java/org/theorygrapht/service/Dijkstra.java:166-171 | the edge loop queues exactly the unvisited neighbours of `u` |
| DijkstraTable.PushNeighbours | src/main/java/org/theorygrapht/service/Dijkstra.java:166-171 | the loop adds `Pushed` to the queue |
| DijkstraTable.SkipStep | src/main/java/org/theorygrapht/service/Dijkstra.java:138 | polling an already visited vertex only shrinks the queue |
| DijkstraTable.ChooseStep | src/main/java/org/theorygrapht/service/Dijkstra.java:137-171 | choosing a new vertex keeps the table's state with one more row |
| DijkstraTable.ChosenReach | src/main/java/org/theorygrapht/service/Dijkstra.java:136-172 | every chosen vertex is connected to the start |
| DijkstraTable.ChosenConnected | src/main/java/org/theorygrapht/service/Dijkstra.java:136-172 | with the queue empty, the chosen vertices are exactly those connected to the start |
| DijkstraTable.GetDijkstraTable | src/main/java/org/theorygrapht/service/Dijkstra.java:120-174 | a lookup error is passed on; otherwise one row per chosen vertex, the start first, each chosen once, exactly the vertices connected to the start, each row that vertex's row on the current distances |
| BellmanFord.Floor | src/main/java/org/theorygrapht/service/BellmanFord.java:53-54 | under a feasible potential every finite distance is at least the potential difference from the start, so distances cannot fall forever |
| BellmanFord.ImproveInv | src/main/java/org/theorygrapht/service/BellmanFord.java:53-55 | relaxing an improving edge keeps every finite distance backed by a walk from the start and every predecessor backed by an edge |
| BellmanFord.ImproveBelow | src/main/java/org/theorygrapht/service/BellmanFord.java:53-55 | relaxing an improving edge strictly lowers the termination measure (unreached vertices, then total excess over the floor) |
| BellmanFord.Shortest | src/main/java/org/theorygrapht/service/BellmanFord.java:37-62 | once every edge is relaxed, no walk from the start with in-range prefixes weighs less than its end's distance |
| BellmanFord.FinalDistances | src/main/java/org/theorygrapht/service/BellmanFord.java:37-62 | the final distances are the shortest walk weights: a finite one is the weight of a walk from the start, no in-range walk is lighter, and a vertex such a walk reaches is finite |
| BellmanFord.ChoiceDistance | src/main/java/org/theorygrapht/service/BellmanFord.java:42 | `choiceDist` is null exactly when the chosen vertex is at `MAX_VALUE`, otherwise its distance |
| BellmanFord.StatesShape | src/main/java/org/theorygrapht/service/BellmanFord.java:76-83 | the row is keyed by the vertices in array order, each holding its "(d, p)" text |
| BellmanFord.Snapshot | src/main/java/org/theorygrapht/service/BellmanFord.java:70-85 | `snapshot` builds the line of the given row, list, choice name and choice distance |
| BellmanFord.InitMaps | src/main/java/org/theorygrapht/service/BellmanFord.java:20-26 | every vertex at `MAX_VALUE` without predecessor, then the start at 0, with the queue holding the start |
| BellmanFord.InitFlags | src/main/java/org/theorygrapht/service/BellmanFord.java:31 | one flag per vertex, all false |
| BellmanFord.RelaxOutgoing | src/main/java/org/theorygrapht/service/BellmanFord.java:48-61 | the edge loop computes the reference relaxation of the edges leaving `t`, appending each lowered vertex not already queued, and keeps every flag equal to queue membership |
| BellmanFord.PopState | src/main/java/org/theorygrapht/service/BellmanFord.java:46-61 | a pop and its scan keep the loop state and never raise the measure |
| BellmanFord.TraceOk | src/main/java/org/theorygrapht/service/BellmanFord.java:37-62 | every state of a run satisfies the loop state |
| BellmanFord.PopHead | src/main/java/org/theorygrapht/service/BellmanFord.java:45-61 | popping the head and scanning its edges gives the reference pop, keeps the queue invariant and the flags, and lowers the measure or shortens the queue |
| BellmanFord.Advance | src/main/java/org/theorygrapht/service/BellmanFord.java:37-61 | one pass of the loop extends the trace by the popped state and the table by the line of the state before it, keeping the loop invariant |
| BellmanFord.TableStep | src/main/java/org/theorygrapht/service/BellmanFord.java:38-61 | one iteration writes the line of the current state, then pops and scans; the measure drops or the queue shortens |
| BellmanFord.GetBellmanFordTable | src/main/java/org/theorygrapht/service/BellmanFord.java:14-68 | a lookup error is passed on; otherwise, when no negative cycle is reachable from the start, one line per state of the run, the last with an empty queue and every edge relaxed |
| BellmanFord.TableFrom | src/main/java/org/theorygrapht/service/BellmanFord.java:20-65 | from an existing start with no negative cycle reachable from it, the lines are one per state of the run plus the final line, the run ends with an empty queue and every edge is relaxed |
| BellmanFordPath.Relax | src/main/java/org/theorygrapht/service/BellmanFord.java:157-167 | `relax` lowers `dist[k]` through `t`, records `t` and adds `k` to `L` exactly when `t` is finite and strictly shorter; otherwise nothing changes |
| BellmanFordPath.ScanWork | src/main/java/org/theorygrapht/service/BellmanFord.java:117-125 | the edge loop computes the reference scan of the edges leaving `t` |
| BellmanFordPath.RoundOk | src/main/java/org/theorygrapht/service/BellmanFord.java:112-125 | one round, with any vertex taken out of `L`, keeps the state and drops the measure or shrinks `L` |
| BellmanFordPath.RelaxAll | src/main/java/org/theorygrapht/service/BellmanFord.java:109-126 | with no negative cycle reachable from the start, when `L` is empty, whatever order the set yields, the maps are sound, every edge is relaxed and predecessors come before their vertices |
| BellmanFordPath.Round | src/main/java/org/theorygrapht/service/BellmanFord.java:110-124 | one pass of the loop removes some `t` from `L` and relaxes its outgoing edges, keeping the loop state; distances strictly improve or `L` shrinks |
| BellmanFordPath.BackStep | src/main/java/org/theorygrapht/service/BellmanFord.java:138-147 | the predecessor of a vertex is a finite vertex, stamped earlier in the run, and an edge enters the vertex from it, so the walk back ends |
| BellmanFordPath.WalkBack | src/main/java/org/theorygrapht/service/BellmanFord.java:135-150 | the inner `while` and the reverse give the walk along predecessors from the start to `v` |
| BellmanFordPath.Ends | src/main/java/org/theorygrapht/service/BellmanFord.java:131-133 | the walks are appended for exactly the vertices other than the start that have a predecessor, in vertex order |
| BellmanFordPath.Rebuild | src/main/java/org/theorygrapht/service/BellmanFord.java:129-151 | the result is the concatenation of those walks, each one from the start along predecessors |
| BellmanFordPath.GetBellmanFordPath | src/main/java/org/theorygrapht/service/BellmanFord.java:87-154 | a lookup error is passed on; otherwise, when no negative cycle is reachable from the start, the relaxation ends with every edge relaxed and the result is the concatenated predecessor walks |
| BellmanFordPath.PredChainUnique | src/main/java/org/theorygrapht/service/BellmanFord.java:138-147 | the walk along predecessors back to the start is unique: the result is fixed by the predecessor map |
| BellmanFordPath.ChainWeight | src/main/java/org/theorygrapht/service/BellmanFord.java:138-147 | without parallel edges of different weights, each predecessor walk weighs the final distance of its end |
| FloydWarshall.BlankRows | src/main/java/org/theorygrapht/service/FloydWarshall.java:34-39 | one row per name: 0 on the diagonal, `MAX_VALUE` elsewhere, no next hop |
| FloydWarshall.BlankMatrices | src/main/java/org/theorygrapht/service/FloydWarshall.java:33-42 | the blank matrices, with rows and columns for exactly the names |
| FloydWarshall.DirectEdges | src/main/java/org/theorygrapht/service/FloydWarshall.java:44-50 | the edge loop as written computes `DirectAll` |
| FloydWarshall.LighterEdges | src/main/java/org/theorygrapht/service/FloydWarshall.java:44-50 | the corrected edge loop computes `LighterAll` |
| FloydWarshall.LastEdgeWins | src/main/java/org/theorygrapht/service/FloydWarshall.java:48-49 | as written, the last edge of each pair sets its entry and next hop; pairs without an edge keep theirs |
| FloydWarshall.LighterLeast | src/main/java/org/theorygrapht/service/FloydWarshall.java:44-50 | with the lighter-edge test each entry is no more than its blank value and than every edge of its pair, and is either blank or the weight of such an edge with the target as next hop |
| FloydWarshall.StepUpdate | src/main/java/org/theorygrapht/service/FloydWarshall.java:59-62 | an entry changes only when both halves are finite and their sum is strictly shorter; it then takes that sum, and its next hop becomes the next hop towards `k` |
| FloydWarshall.RowThrough | src/main/java/org/theorygrapht/service/FloydWarshall.java:54-64 | the `j` loop updates row `i` in place as the reference `Cols` does |
| FloydWarshall.RoundThrough | src/main/java/org/theorygrapht/service/FloydWarshall.java:53-65 | the `i` loop computes the reference `Rows` |
| FloydWarshall.Closure | src/main/java/org/theorygrapht/service/FloydWarshall.java:52-66 | the `k` loop computes the reference `Rounds` |
| FloydWarshall.RoundExact | src/main/java/org/theorygrapht/service/FloydWarshall.java:52-66 | although entries are updated in place, a round through `k` equals the round computed from the matrices before it, when `dist[k][k]` is not negative |
| FloydWarshall.RoundsSound | src/main/java/org/theorygrapht/service/FloydWarshall.java:59-63 | every finite entry stays the weight of a walk between its pair |
| FloydWarshall.RoundsLower | src/main/java/org/theorygrapht/service/FloydWarshall.java:59-63 | entries never increase over the rounds |
| FloydWarshall.GetMatricesAsWritten | src/main/java/org/theorygrapht/service/FloydWarshall.java:23-69 | `getMatrices` as written: the rounds over the names applied to the last-edge-wins matrices |
| FloydWarshall.GetMatrices | src/main/java/org/theorygrapht/service/FloydWarshall.java:23-69 | corrected: the rounds applied to the lighter-edge matrices |
| FloydWarshall.FloydOptimal | src/main/java/org/theorygrapht/service/FloydWarshall.java:23-69 | with no negative cycle, every finite entry is the weight of a walk and no bounded walk between the pair weighs less |
| FloydPath.BaseHops | src/main/java/org/theorygrapht/service/FloydWarshall.java:44-50 | before the rounds every next hop is the target over an edge no heavier than the entry |
| FloydPath.HopsRound | src/main/java/org/theorygrapht/service/FloydWarshall.java:59-63 | a round keeps the hop property: a next hop leaves over an edge whose weight plus the rest from the hop is within the entry |
| FloydPath.MatricesHops | src/main/java/org/theorygrapht/service/FloydWarshall.java:23-69 | both versions of `getMatrices` leave matrices keyed by the names and with the hop property |
| FloydPath.FirstHop | src/main/java/org/theorygrapht/service/FloydWarshall.java:93-98 | the first edge that fits, none iff no edge fits; untight, the first edge from `a` to `h` |
| FloydPath.FindHop | src/main/java/org/theorygrapht/service/FloydWarshall.java:93-98 | the inner `for` with its `break` returns `FirstHop` |
| FloydPath.HopExists | src/main/java/org/theorygrapht/service/FloydWarshall.java:90-98 | while `current` is not the end, the hop is a vertex and a fitting edge to it exists |
| FloydPath.WalkStep | src/main/java/org/theorygrapht/service/FloydWarshall.java:93-100 | following a hop extends the walk and strictly shrinks what is left to the end |
| FloydPath.FollowHops | src/main/java/org/theorygrapht/service/FloydWarshall.java:89-101 | the `while` loop ends, and returns a walk from the start to the end made of first-fitting edges |
| FloydPath.WalkMatrices | src/main/java/org/theorygrapht/service/FloydWarshall.java:80-103 | a start with no row raises `NullPointerException`; a missing end or no hop gives the empty list; otherwise the walk of `FollowHops` |
| FloydPath.GetFloydWarshallAsWritten | src/main/java/org/theorygrapht/service/FloydWarshall.java:79-104 | as written: over the last-edge-wins matrices, the same outcomes, the walk taking the first forward edge of each hop |
| FloydPath.GetFloydWarshall | src/main/java/org/theorygrapht/service/FloydWarshall.java:79-104 | corrected: the walk goes from the start to the end and weighs no more than any bounded walk between them; empty only when none exists |
| FloydPath.ZeroFeasible | src/main/java/org/theorygrapht/service/FloydWarshall.java:52-66 | with positive weights the zero potential is feasible, so there is no negative cycle |
| FloydPath.WalkOptimal | src/main/java/org/theorygrapht/service/FloydWarshall.java:79-104 | over the corrected matrices, a non-empty walk joins the pair, an empty one means no bounded walk exists, and none is lighter |
| FloydPath.OneEdgeWalks | src/main/java/org/theorygrapht/service/FloydWarshall.java:93-98 | when every edge goes from `a` to `b`, a walk between them is a single edge |
| FloydPath.HeavierLastAsWritten | src/main/java/org/theorygrapht/service/FloydWarshall.java:44-50 | `getMatrices` over `a -> b` of weight 1 then 5 leaves 5 between them |
| FloydPath.HeavierLastCorrected | src/main/java/org/theorygrapht/service/FloydWarshall.java:44-50 | with the lighter-edge test it leaves 1 |
| FloydPath.FirstForwardAsWritten | src/main/java/org/theorygrapht/service/FloydWarshall.java:93-98 | `getFloydWarshall` over `a -> b` of weight 5 then 1 returns the edge of weight 5 although the entry is 1 |
| FloydPath.FirstForwardCorrected | src/main/java/org/theorygrapht/service/FloydWarshall.java:93-98 | with the tight choice it returns the edge of weight 1 |
| FrontModel.EndValue | frontend/src/apiService.ts:39-40 | `typeof e === "object" ? e.id : e`: the id of a node or a bare id, absent exactly for `undefined` |
| FrontModel.NodeRef | frontend/src/components/GraphJsonEditor.tsx:50 | `nodeMap[name]` is the node of that id when one exists, otherwise `undefined` |
| ApiService.EntryWeight | frontend/src/apiService.ts:41 | the distance written is `l.weight` as it is, or `l.weight ?? 0` in the editor |
| ApiService.PushesSpec | frontend/src/apiService.ts:37-46 | the pushes succeed exactly when every key pushed onto is a node id; then the keys are the node ids and each list holds the reference entries of its links, in link order |
| ApiService.PushesErrSticky | frontend/src/apiService.ts:38-46 | after the first failing `push` the remaining links change nothing (the exception ends the call) |
| ApiService.BuildAdjacency | frontend/src/apiService.ts:35-48 | the `forEach` loops compute `AdjacencyOf` |
| ApiService.GraphToAdjacency | frontend/src/apiService.ts:35-48 | `graphToAdjacency` is `AdjacencyOf` with the weight copied as it is |
| ApiService.AdjacencyShape | frontend/src/apiService.ts:35-48 | the output keys are the distinct node ids, each holding exactly the entries its links put there; the call fails iff some link names a key that is no node |
| ApiService.NoLinks | frontend/src/apiService.ts:37 | without links every node gets an empty list |
| ApiService.EntriesSingle | frontend/src/apiService.ts:41-45 | one link puts its target in its source's list and, undirected, its source in its target's list |
| ApiService.AdjacencyTotal | frontend/src/apiService.ts:38-46 | there are `\|links\|` entries in directed mode and `2·\|links\|` in undirected mode |
| ApiService.SelfLoopTwice | frontend/src/apiService.ts:41-45 | an undirected self-loop appears twice in its node's own list |
| GraphJsonEditor.NodesLinksToAdjacency | frontend/src/components/GraphJsonEditor.tsx:13-32 | `nodesLinksToAdjacency` is `AdjacencyOf` with `l.weight ?? 0` |
| GraphJsonEditor.ZeroFilled | frontend/src/components/GraphJsonEditor.tsx:24 | each entry of the list with a missing distance written as 0, nothing else changed |
| GraphJsonEditor.EditorAdjacency | frontend/src/components/GraphJsonEditor.tsx:13-32 | the editor's adjacency is `graphToAdjacency`'s with every missing weight made 0: same failure, same keys, same targets in the same order |
| GraphJsonEditor.AdjacencyToNodesLinksUndirected | frontend/src/components/GraphJsonEditor.tsx:35-56 | the editor's undirected converter keeps the first entry of each sorted pair key |
| GraphJsonEditor.AdjacencyToNodesLinksDirected | frontend/src/components/GraphJsonEditor.tsx:58-74 | the editor's directed converter keeps every entry |
| GraphJsonEditor.DirectedKeepsAll | frontend/src/components/GraphJsonEditor.tsx:65-72 | one link per entry that passed the filters, repeats included, in entry order |
| GraphJsonEditor.Reload | frontend/src/components/GraphJsonEditor.tsx:87-102 | an unparsable text shows a non-empty message; a non-object shows "JSON invalide"; an object without keys shows "Aucun sommet dans le graphe"; otherwise the nodes are the keys and the links those of the mode's converter |
| Converters.LinksOf | frontend/src/components/GraphJsonEditor.tsx:50 | one link per kept entry, `{source: nodeMap[from], target: nodeMap[target], weight}` |
| Converters.Offer | frontend/src/components/GraphJsonEditor.tsx:48-52 | an entry is pushed, and its key recorded, exactly when its key is new |
| Converters.AddEntries | frontend/src/components/GraphJsonEditor.tsx:46-53 | the inner loop offers the entries of one list in order |
| Converters.ToNodesLinks | frontend/src/components/GraphJsonEditor.tsx:35-56 | the converters' nested loops compute `Convert`: the keys as nodes, the kept entries as links |
| Converters.KeptWithin | frontend/src/components/GraphJsonEditor.tsx:43-54 | kept entries are entries, never more of them; with no dedup every entry is kept |
| Converters.KeptKeys | frontend/src/components/GraphJsonEditor.tsx:48-52 | the kept entries cover every key seen, and no two of them share a key |
| Converters.KeptCovers | frontend/src/components/GraphJsonEditor.tsx:48-52 | every entry shares its key with a kept entry |
| Converters.KeptFirst | frontend/src/components/GraphJsonEditor.tsx:49-52 | the kept entries are exactly the first entries of their keys, so a link carries the weight of its first occurrence |
| Converters.SortedMergesReverse | frontend/src/components/GraphJsonEditor.tsx:48 | with the sorted key an entry and its reverse are never both kept |
| Converters.OrderedKeepsEachPair | frontend/src/components/Toolbar.tsx:58-67 | with the ordered key (identifiers without "_") every (from, target) pair is kept once, its reverse too |
| Converters.OrderedNoRepeat | frontend/src/components/Toolbar.tsx:58-67 | with the ordered key no two kept entries have the same source and target |
| Converters.CandidatesOrigin | frontend/src/components/GraphJsonEditor.tsx:43-47 | only array lists and entries with a non-empty `target` contribute, each with weight `distance ?? 0` |
| Converters.CandidatesComplete | frontend/src/components/GraphJsonEditor.tsx:43-47 | every entry with a non-empty target under an array list becomes a candidate |
| Converters.CandidatesCount | frontend/src/components/GraphJsonEditor.tsx:43-47 | there are never more candidates than entries |
| Converters.ConvertShape | frontend/src/components/GraphJsonEditor.tsx:35-56 | the nodes are the keys in order, every link comes from an entry, and links never outnumber entries |
| Toolbar.AdjacencyToNodesLinksUndirected | frontend/src/components/Toolbar.tsx:8-38 | the toolbar's undirected converter keeps the first entry of each sorted pair key |
| Toolbar.AdjacencyToNodesLinksDirected | frontend/src/components/Toolbar.tsx:41-71 | the toolbar's directed converter keeps the first entry of each ordered key |
| Toolbar.HandleAlgoClick | frontend/src/components/Toolbar.tsx:94-129 | the algorithm is selected with empty start and end; Bellman-Ford and Floyd-Warshall load their own graph through the directed converter in directed mode, every other algorithm the base graph through the undirected one |
| Toolbar.UndirectedOneLinkPerPair | frontend/src/components/Toolbar.tsx:25-34 | in undirected mode no two links join the same pair, in either direction |
| RoundTrip.JsonEntries | frontend/src/components/GraphJsonEditor.tsx:83 | printing and parsing a list keeps each entry, a missing field staying missing |
| RoundTrip.DedupDistinct | frontend/src/apiService.ts:37 | distinct node ids keep their order as object keys |
| RoundTrip.EntriesMembers | frontend/src/apiService.ts:38-46 | an entry of `v`'s list comes from a link leaving `v` (its target) or, undirected, entering `v` (its source), with that link's weight |
| RoundTrip.ToJsonShape | frontend/src/components/GraphJsonEditor.tsx:81-85 | the printed-and-parsed adjacency is a valid object keyed by the node ids whose lists hold the reference entries |
| RoundTrip.Written | frontend/src/components/GraphJsonEditor.tsx:81-85 | the editor's text for the links, parsed back, keyed by the ids |
| RoundTrip.DirectedList | frontend/src/components/GraphJsonEditor.tsx:65-72 | one directed list read back gives exactly the links leaving its key |
| RoundTrip.ByKeysPermutation | frontend/src/components/GraphJsonEditor.tsx:65-72 | grouping the links by source keeps every link once |
| RoundTrip.DirectedRoundTrip | frontend/src/components/GraphJsonEditor.tsx:81-98 | writing the links out and reading them back with the directed converter gives the same ids and the same multiset of links, a missing weight read back as 0 |
| RoundTrip.UndirectedCandidateOrigin | frontend/src/components/GraphJsonEditor.tsx:43-53 | every undirected entry read back is a link in one of its directions, with its weight |
| RoundTrip.UndirectedLinkKept | frontend/src/components/GraphJsonEditor.tsx:48-52 | each link's pair survives the sorted-key dedup with that link's weight |
| RoundTrip.UndirectedRoundTrip | frontend/src/components/GraphJsonEditor.tsx:81-98 | with "_"-free ids and no two links on the same pair, the undirected round trip gives the same ids and exactly the same pairs with their weights |
| Common.PairKeySymmetric | frontend/src/components/GraphJsonEditor.tsx:48 | the sorted key does not depend on the order of the pair |
| Common.PairKeyInjective | frontend/src/components/GraphJsonEditor.tsx:48 | without "_" in the identifiers the sorted key determines the unordered pair |
| Common.PairKeyCollision | frontend/src/components/GraphJsonEditor.tsx:48 | with "_" inside identifiers two pairs share a key: {"a_b", "c"} and {"a", "b_c"} |
| App.VilleCandidates | frontend/src/App.tsx:32 | every entry of a list is read, unfiltered, with its raw distance |
| App.AddVilles | frontend/src/App.tsx:32-43 | the inner loop pushes each entry whose key is new and records the key |
| App.AdjacencyToNodesLinks | frontend/src/App.tsx:22-46 | `adjacencyToNodesLinks` computes `AppConvert`: the keys as nodes, the first entry of each ordered (directed) or sorted (undirected) key as a link |
| App.AppCandidatesOrigin | frontend/src/App.tsx:31-32 | every candidate is an entry listed under its key |
| App.AppCandidatesComplete | frontend/src/App.tsx:31-32 | every entry of every key is a candidate |
| App.AppConvertLinks | frontend/src/App.tsx:22-46 | the nodes are the keys; every link comes from an entry with the entry's raw distance (no `?? 0`); every entry is represented by a link with its key |
| App.AppKeepsFirst | frontend/src/App.tsx:33-42 | no two links share a key, and each link is the first entry of its key |
| App.HandleSendGraph | frontend/src/App.tsx:66-96 | the adjacency is built first, always undirected, and its exception escapes; then a missing start (BFS, DFS, Prim) or a missing start or end (Dijkstra, Floyd-Warshall) shows the matching alert, an unknown algorithm returns silently, and otherwise the request for that algorithm is sent with the given names |
| App.Shown | frontend/src/App.tsx:105 | the filter keeps, in order, only edges whose source and target are truthy |
| App.Rows | frontend/src/App.tsx:107-111 | one row per kept edge: the endpoint names (`name \|\| value`) and `weight \|\| 0` |
| App.ShownAll | frontend/src/App.tsx:105 | when every edge has both endpoints, the filter keeps them all |
| App.PaintedKeys | frontend/src/App.tsx:114-121 | after the fired steps, exactly both orientation keys of each fired edge are coloured, all red |
| App.PaintedGrows | frontend/src/App.tsx:118-120 | painting one more edge keeps every earlier colour |
| App.Highlighter.constructor | frontend/src/App.tsx:51-54 | the highlight map, the listed edges and the steps start empty |
| App.Highlighter.Receive | frontend/src/App.tsx:98-122 | a non-array answer changes nothing; an array clears the highlight, shows the normalised list and schedules one step per kept edge in order |
| App.Highlighter.Fire | frontend/src/App.tsx:117-121 | a firing step colours both orientations of its edge red and keeps every earlier colour |
| App.HighlightAfter | frontend/src/App.tsx:114-121 | once steps 0..k have fired, both keys of each of those edges are red |
| App.TotalByWeights | frontend/src/components/Result.tsx:128 | the total under the edge list, the same sum as the panel of App.tsx:239-242, depends only on the weights and equals the back-end total weight |
| App.TotalOfAnswer | frontend/src/App.tsx:239-242 | the total shown for an answer made of back-end edges is their total weight, one row per edge |
| App.AlgoSelect | frontend/src/App.tsx:146-174 | a selection clears the highlight, the list and both chosen vertices, selects the algorithm, and draws its bundled graph: directed exactly for Bellman–Ford and Floyd–Warshall |
| App.LaunchCall | frontend/src/App.tsx:126-144 | no call without a selection or for an algorithm outside the switch; Kruskal with no vertex, BFS, DFS and Prim with the start, Dijkstra and Floyd–Warshall with both |
| App.Launch | frontend/src/App.tsx:126-144 | launching sends a request exactly for Kruskal or once the needed vertices are chosen, alerts otherwise, and the request names the selected algorithm and vertices |
| App.SelectThenLaunch | frontend/src/App.tsx:126-174 | right after a selection, an algorithm that needs a vertex is launched with an empty, falsy start |
| GraphView.ReverseOfReverse | frontend/src/components/Graph.tsx:157-161 | both links of a reciprocal pair have a reverse |
| GraphView.FirstCodeUnit | frontend/src/components/Graph.tsx:176-177 | `charCodeAt(0)`: none (NaN) exactly for an empty id, otherwise a UTF-16 code unit, the character itself in the basic plane |
| GraphView.Side | frontend/src/components/Graph.tsx:175-179 | the factor is 1 or -1, and 1 exactly when both ids are non-empty and their first code units add up to an even number |
| GraphView.SideSymmetric | frontend/src/components/Graph.tsx:175-179 | swapping the ends keeps the factor, so the two links of a reciprocal pair bend apart |
| GraphView.ShapeOf | frontend/src/components/Graph.tsx:163-187 | a link is curved exactly in directed mode with a reverse link, on the side of its factor |
| GraphView.UndirectedStraight | frontend/src/components/Graph.tsx:163 | in undirected mode every link is straight |
| GraphView.ReciprocalCurves | frontend/src/components/Graph.tsx:163-184 | in directed mode both links of a reciprocal pair curve, with the same factor |
| GraphView.Lookup | frontend/src/components/Graph.tsx:119 | a highlight lookup is a colour exactly when the map, the key and a non-empty value are there |
| GraphView.EitherKey | frontend/src/components/Graph.tsx:117-119 | the colour under either orientation key, the oriented one first |
| GraphView.Stroke | frontend/src/components/Graph.tsx:264-268 | the stroke is the colour of either key, grey when neither has one |
| GraphView.InitialLabelFill | frontend/src/components/Graph.tsx:116-122 | a label is created deep red for the highlight red, its colour otherwise, light grey without one |
| GraphView.LabelFill | frontend/src/components/Graph.tsx:247-251 | on every tick and highlight change the label takes the colour of either key without deepening |
| GraphView.OrientationFree | frontend/src/components/Graph.tsx:264-276 | when the two keys of an edge do not disagree, the colours do not depend on the link's orientation |
| GraphView.HighlightedRed | frontend/src/components/Graph.tsx:264-276 | once steps 0..k have fired, each of those edges is drawn red, in either orientation, with a red label |
| DirectedGraphView.DirectedShape | frontend/src/components/DirectedGraph.tsx:142-166 | a link is curved exactly when a reverse link exists, on the side of its factor |
| DirectedGraphView.SameAsDirectedMode | frontend/src/components/DirectedGraph.tsx:142-166 | the directed view draws each link as the graph view does in directed mode |
| DirectedGraphView.DirectedShapes | frontend/src/components/DirectedGraph.tsx:18 | no paths for an empty node list, otherwise one per link in link order |
| DirectedGraphView.ReciprocalCurve | frontend/src/components/DirectedGraph.tsx:142-164 | both links of a reciprocal pair curve with the same factor |
| DirectedGraphView.OrientedStroke | frontend/src/components/DirectedGraph.tsx:243 | the stroke reads only the link's own orientation key |
| DirectedGraphView.OrientedInitialLabelFill | frontend/src/components/DirectedGraph.tsx:108-110 | a label is created deep red for the highlight red, under the oriented key only |
| DirectedGraphView.OrientedLabelFill | frontend/src/components/DirectedGraph.tsx:222 | later label fills read the oriented key only |
| DirectedGraphView.OneOrientationOnly | frontend/src/components/DirectedGraph.tsx:243 | a colour written under one orientation only is seen by the graph view but not by the directed view on the reverse link |
| DirectedGraphView.EdgeKeyTurns | frontend/src/components/DirectedGraph.tsx:243 | between distinct "_"-free ends the two orientation keys differ |
| DirectedGraphView.HighlightedRedOriented | frontend/src/components/DirectedGraph.tsx:243-247 | since both orientations are painted, each fired edge is red in the directed view whichever way it is drawn |
| ResultView.Match | frontend/src/components/Result.tsx:23 | a match needs the text to start with "(" and end with ")", and its second group spans no line terminator |
| ResultView.CommaAt | frontend/src/components/Result.tsx:23 | the lazy first group ends at a comma, at or after the scan position |
| ResultView.CommaAtTail | frontend/src/components/Result.tsx:23 | after the comma the scan picks, the rest of the text matches `\s*(.*?)\)$` |
| ResultView.GroupTrims | frontend/src/components/Result.tsx:23 | the second group is the text before ")" without its leading white space, as `trimStart` gives it, and exists exactly when that holds no line terminator |
| ResultView.FirstComma | frontend/src/components/Result.tsx:23 | when the text after the first comma matches, the first group stops there |
| ResultView.ParseCell | frontend/src/components/Result.tsx:21-30 | an absent or empty value, or one that does not match, reads as no distance and no predecessor; "*" and "null" read as no predecessor |
| ResultView.MatchCell | frontend/src/components/Result.tsx:23 | a cell written by the back end matches with its distance and predecessor texts as the groups |
| ResultView.ParseGroups | frontend/src/components/Result.tsx:25-29 | groups without surrounding space are read as they stand: "∞" or "Infinity" as no distance, otherwise `Number` of the text |
| ResultView.ParseCellOfCell | frontend/src/components/Result.tsx:21-30 | round trip with `snapshot`: the cell of distance `d` and predecessor `p` reads back as `d` (none for `MAX_VALUE`) and `p` |
| ResultView.Rebuild | frontend/src/components/Result.tsx:34-49 | the backtracking of one vertex computes `PathOf` |
| ResultView.Backtrack | frontend/src/components/Result.tsx:37-48 | the `while` loop and the final push give the reference backwards sequence |
| ResultView.WalkChain | frontend/src/components/Result.tsx:41-46 | the loop pushes at most 1000 vertices, the first being the starting predecessor, each followed by its predecessor, never the start |
| ResultView.BackwardsChain | frontend/src/components/Result.tsx:37-47 | before the reversal: `v` first, each vertex followed by its predecessor, at most 1002 vertices, the start present exactly when the chain reached it and then last |
| ResultView.ReverseChain | frontend/src/components/Result.tsx:48 | reversing turns "followed by its predecessor" into "preceded by it" |
| ResultView.PathShape | frontend/src/components/Result.tsx:32-50 | an unreached vertex has cost null and no path; a reached one has a path ending at it, following predecessors, starting at the start exactly when the chain reached it |
| ResultView.StartName | frontend/src/components/Result.tsx:18 | the start is the first row's `choiceName`, else the first vertex of that row |
| ResultView.ShortestPaths | frontend/src/components/Result.tsx:32-51 | the `map` and `filter` compute the paths of the first row's vertices from the last row |
| ResultView.PathsCover | frontend/src/components/Result.tsx:32-51 | every vertex other than the start gets exactly its path, the start none |
| ResultView.TwoVertexPath | frontend/src/components/Result.tsx:32-51 | a last row with the start at 0 and `b` at `d` through it shows `b` at cost `d` via start → `b` |
| Text.NatToString | src/main/java/org/theorygrapht/service/BellmanFord.java:80 | the rendering of a natural number is a non-empty run of decimal digits |
| Text.IntToString | src/main/java/org/theorygrapht/service/BellmanFord.java:80 | `String.valueOf(int)` is a non-empty text |
| Text.DigitsValueOfNatToString | src/main/java/org/theorygrapht/service/BellmanFord.java:80 | the decimal digits of a number read back as the number |
| Text.ParseNumber | frontend/src/components/Result.tsx:27 | `Number` of an empty text is 0, of a run of digits its value, and a value is read only from an optionally signed run of digits |
| Text.ParseNumberIntToString | frontend/src/components/Result.tsx:27 | Java's rendering of an integer is read back by `Number` as that integer |
| Text.ParseNegative | frontend/src/components/Result.tsx:27 | `Number` reads a minus sign followed by digits as the negated value |
| Text.TrimStart | frontend/src/components/Result.tsx:25-26 | removes exactly the leading white space |
| Text.TrimEnd | frontend/src/components/Result.tsx:25-26 | removes exactly the trailing white space |
| Text.Trim | frontend/src/components/Result.tsx:25-26 | the trimmed text neither starts nor ends with white space |
| Text.TrimUnchanged | frontend/src/components/Result.tsx:25-26 | a text without surrounding white space is its own trim |
| Text.IntToStringUnspaced | src/main/java/org/theorygrapht/service/BellmanFord.java:80 | a rendered integer has no surrounding white space, no line terminator and no comma |
| LinkedMap.PutGet | src/main/java/org/theorygrapht/service/BellmanFord.java:82 | after `put` the key maps to the new value and every other key to its old one |
| LinkedMap.PutKeys | src/main/java/org/theorygrapht/service/BellmanFord.java:82 | `put` adds the key, keeps the keys distinct and keeps the first key first |
| LinkedMap.GetAbsent | src/main/java/org/theorygrapht/service/BellmanFord.java:76 | a key never put has no value |
| LinkedMap.PutNew | src/main/java/org/theorygrapht/service/Dijkstra.java:141-162 | putting a new key appends it |
| TreeDiagram.NodeOrder | frontend/src/components/TreeDiagram.tsx:19-25 | `nodesSet` holds every endpoint once, in insertion order |
| TreeDiagram.TargetSet | frontend/src/components/TreeDiagram.tsx:22 | `childrenSet` holds exactly the targets |
| TreeDiagram.TargetsOf | frontend/src/components/TreeDiagram.tsx:23-24 | the targets of the edges leaving a name, repeats included |
| TreeDiagram.ParentsSpec | frontend/src/components/TreeDiagram.tsx:19-25 | `parents` holds exactly the sources, each with its distinct targets in first-seen order |
| TreeDiagram.ParentsClosed | frontend/src/components/TreeDiagram.tsx:19-25 | the parents lead only to node names, and no child is listed twice |
| TreeDiagram.Collect | frontend/src/components/TreeDiagram.tsx:19-25 | the `forEach` computes `Parents`, `NodeOrder` and `TargetSet` |
| TreeDiagram.FirstNonTarget | frontend/src/components/TreeDiagram.tsx:29 | the first node that is no target, none iff every node is a target |
| TreeDiagram.SearchRoot | frontend/src/components/TreeDiagram.tsx:29 | the `for` loop with its `break` returns `FirstNonTarget` |
| TreeDiagram.RootName | frontend/src/components/TreeDiagram.tsx:27-31 | the declared root when it is a node, else the first node that is no target, else the first edge's source |
| TreeDiagram.ToNode | frontend/src/components/TreeDiagram.tsx:34-40 | a visited name gives a leaf and changes nothing; a new name is marked visited and its node has one child per entry of its list |
| TreeDiagram.Children | frontend/src/components/TreeDiagram.tsx:37-38 | children expand left to right, each seeing the names its elder siblings visited; the visited set only grows and there is one node per name |
| TreeDiagram.ToNodeNames | frontend/src/components/TreeDiagram.tsx:34-40 | a new name's children are named as the entries of its list, in the same order |
| TreeDiagram.ChildrenNames | frontend/src/components/TreeDiagram.tsx:37-38 | the `map` keeps the order of the names it expands: node i is named after entry i |
| TreeDiagram.BuildTree | frontend/src/components/TreeDiagram.tsx:12-45 | `null` exactly for an empty edge list, otherwise a tree rooted at `RootName` |
| TreeDiagram.TreeBuilder.constructor | frontend/src/components/TreeDiagram.tsx:33 | the shared `visited` Set starts empty |
| TreeDiagram.TreeBuilder.Expand | frontend/src/components/TreeDiagram.tsx:34-40 | `toNode` computes `ToNode` and leaves `visited` as it says |
| TreeDiagram.TreeBuilder.ExpandAll | frontend/src/components/TreeDiagram.tsx:37-38 | the `map` computes `Children` |
| TreeDiagram.Build | frontend/src/components/TreeDiagram.tsx:12-45 | `buildTree` computes `BuildTree` |
| TreeDiagram.ToNodeSize | frontend/src/components/TreeDiagram.tsx:34-40 | a subtree has one node plus one per (name, child) pair of the names it newly visited |
| TreeDiagram.TreeSize | frontend/src/components/TreeDiagram.tsx:12-45 | the tree has at most one node more than the distinct (source, target) pairs, however cyclic the edges |
| TreeDiagram.Example | frontend/src/components/TreeDiagram.tsx:12-45 | the edges (A,B), (A,C), (B,D) without a declared root draw A{B{D}, C} |

## Left out

- Rendering with d3: the force simulation, zoom and pan, SVG path strings, control points, label offsets and the tree layout. These are floating-point library calls. Only the integer and string decisions of `Graph.tsx` and `DirectedGraph.tsx` are modelled.
- Timers and React plumbing (`setTimeout`, `useState`, `useEffect`). The highlight sequence is a discrete series of steps (`App.Highlighter.Fire`), not wall-clock time. The 100 ms wait and the 400 ms spacing are left out.
- Network and parsing I/O: `fetchJson` and the `run*` calls of `apiService.ts`, `JSON.parse` and `JSON.stringify` in `GraphJsonEditor.tsx`, and the Jackson and class-path reading in `GraphUtils.loadJson` (lines 17-28 and 73-75). Parsed JSON is an input value, and a request is an `App.Request` value.
- The Toolbar's `catch` and `alert` path around `JSON.parse`, and the JSX lists and tables. They are display only.
- `VertexLauncher.tsx`, `GraphController.java`, `MainFlorian.java` and `MainYannis.java`. They are UI visibility and driver wiring, not part of this model.
- The plain data holders `Edge.java`, `Graph.java`, `FloydResult.java`, `BelmanFordTableLine.java` and `GraphInput.java`. They appear as datatypes (`GraphModel.Edge`, `GraphModel.Graph`, `FloydWarshall.FloydResult`, `BellmanFord.Line`).
- `Vertex.java` is not part of this model. Vertices are identified by name, and `fromMap` makes one vertex per name.
- Java `int` overflow. Weights are unbounded integers with `Integer.MAX_VALUE` as the literal sentinel `MaxValue`. `Dijkstra.ComputeDijkstra` and the methods built on it require `Dijkstra.Bounded`, under which no sum `dist[u] + w` passes `Integer.MAX_VALUE`. The members below add unbounded integers instead; on a graph whose sums pass `Integer.MAX_VALUE` Java wraps around to negative values and their contracts no longer describe it.
- FloydWarshall.GetMatrices: `dist[i][k] + dist[k][j]` is an unbounded sum, with no bound on the weights.
- FloydWarshall.GetMatricesAsWritten: the same unbounded sum as `GetMatrices`.
- FloydPath.GetFloydWarshall: built on `GetMatrices`; weights are bounded one by one (`PositiveWeights`) but their sums are not.
- DijkstraTable.GetDijkstraTable: `dist[u] + w` is an unbounded sum, with no bound on the weights.
- BellmanFord.GetBellmanFordTable: `dist[u] + w` is an unbounded sum, with no bound on the weights.
- BellmanFordPath.GetBellmanFordPath: the same unbounded sum as `GetBellmanFordTable`.
- Hash ordering. `HashMap`/`HashSet` iteration order and the `PriorityQueue` tie order are unspecified. Contracts hold for every order: the Dijkstra queue of `Dijkstra.ComputeDijkstra` breaks ties in any way, the path loop of Bellman–Ford takes any element of its set `L`, and results are stated up to that choice.
- DijkstraTable.GetDijkstraTable: the vertex `poll` returns is any queued vertex, not the nearest. The Java comparator reads the live `dist` map (Dijkstra.java:131), and lowering the distance of a vertex already in the queue (Dijkstra.java:155-156) leaves the heap out of order, so the order of the polled rows is not stated; the rows are not stated to come out nearest first.
- JavaScript object key order. The model keeps an object's keys in insertion order. JavaScript lists integer-like keys ("0", "1", "42") first, in ascending order, and only then the other keys in insertion order; so the ids `["2", "1"]` come back from the editor as `["1", "2"]`. A node id "__proto__" is also not modelled: `adj["__proto__"] = []` sets the prototype, and `JSON.stringify` then drops that node. Node lists the app builds itself come from `Object.keys` (App.tsx:26, Toolbar.tsx:11 and 44, GraphJsonEditor.tsx:38 and 61), so they are already in JavaScript's key order and the round trips below hold for them; ids typed by hand in another order, or a "__proto__" id, are not covered. The members this affects:
- RoundTrip.DedupDistinct: the ids are stated to keep their order as object keys, which holds only when no id is integer-like and none is "__proto__".
- RoundTrip.ToJsonShape: the printed-and-parsed keys are stated in the order of the ids, which JavaScript gives only when no id is integer-like; a "__proto__" id is not dropped as JavaScript drops it.
- RoundTrip.Written: as `ToJsonShape`; the keys come back in the order of the ids only when no id is integer-like and none is "__proto__".
- RoundTrip.DirectedRoundTrip: the ids come back in their own order, which JavaScript gives only when no id is integer-like (or they are already ascending first); a "__proto__" id is not modelled.
- RoundTrip.UndirectedRoundTrip: as `DirectedRoundTrip`, for the undirected converter.
- Termination on negative weights, which the code does not guard against. `Dijkstra.ComputeDijkstra` and the methods that call it require non-negative weights (`Bounded`). `BellmanFord.GetBellmanFordTable` and `BellmanFordPath.GetBellmanFordPath` require a potential feasible from the start (`Walks.FeasibleFrom`). It constrains only edges leaving vertices the start reaches, so a negative cycle the start cannot reach is allowed (`Walks.UnreachedNegativeCycle`). A reachable negative cycle rules one out (`Walks.ReachedCycleNonNegative`), and on such a cycle the Java loops never end.
- FloydPath.GetFloydWarshall: requires weights from 1 to `MaxValue`. That is stronger than "no negative cycle"; it is the bound under which the walk along `next` is shown to end.
- FloydPath.GetFloydWarshallAsWritten: same weight requirement as `GetFloydWarshall`.
- GraphUtils.FromMap: requires every neighbour target to be a key. Java would build an edge with a null endpoint and fail later; that path is not modelled.
- GraphUtils.FoldCase: folds ASCII letters only, an approximation of `equalsIgnoreCase`, which also folds other scripts.
- Text.ParseNumber: covers an optionally signed run of decimal digits and the empty text. Other JavaScript `Number` syntax (decimals, exponents, hexadecimal, surrounding words) reads as not a number.
- ResultView.Match: the regular expression of `Result.tsx` is modelled for that one pattern only, not as a general regex engine.
- BellmanFordPath.ChainWeight: requires parallel edges to have equal weights. The Java path takes the first matching edge, which may be heavier than the one that set the distance.
- Dijkstra.ComputeDijkstra, Prim.GetPrim, Kruskal.GetKruskal, DijkstraTable.GetDijkstraTable and FloydWarshall.GetMatrices: require every edge endpoint to be a listed vertex, and most also require distinct names. Graphs built by `fromMap` and `loadJson` meet both.
- Object identity of `Vertex` and `Edge`: equality is by name and by value, which also makes the "first matching edge" searches compare by value.

## Findings

| source | as written | input that shows it | evidently intended | confidence | as-written member | corrected member |
|---|---|---|---|---|---|---|
| src/main/java/org/theorygrapht/service/BFS.java:40 | `getAdjacencyList().get(current)` with no default; `fromMap` gives an isolated vertex no adjacency entry | `fromMap({"A": []})`, then `getBFS(graph, "A")` throws a `NullPointerException` | an empty tree, as `DFS.java:43` gives with `getOrDefault` | not executed | BFS.IsolatedStartAsWritten | BFS.IsolatedStartCorrected |
| src/main/java/org/theorygrapht/service/Dijkstra.java:81-87 | the walk back takes the first edge joining the predecessor and the vertex, whatever its weight | edges A→B of weight 5 then 1; `getDijkstra(g, "A", "B")` returns the edge of weight 5, although B is at distance 1 | the edge whose weight accounts for the distance | not executed | Dijkstra.ParallelEdgesAsWritten | Dijkstra.ParallelEdgesCorrected |
| src/main/java/org/theorygrapht/service/FloydWarshall.java:44-50 | each direct edge overwrites the entry, so the last parallel edge wins even when heavier | edges a→b of weight 1 then 5; `getMatrices` leaves 5 between a and b | the lightest direct edge | not executed | FloydPath.HeavierLastAsWritten | FloydPath.HeavierLastCorrected |
| src/main/java/org/theorygrapht/service/FloydWarshall.java:93-98 | each hop appends the first edge from `current` to `nxt`, whatever its weight | edges a→b of weight 5 then 1; `getFloydWarshall(g, a, b)` returns the edge of weight 5 | an edge whose weight fits the shortest distance | not executed | FloydPath.FirstForwardAsWritten | FloydPath.FirstForwardCorrected |

The as-written definitions stay in the model next to the corrected ones: `BFS.GetBfs`, `Dijkstra.GetDijkstraAsWritten`, `FloydWarshall.GetMatricesAsWritten` and `FloydPath.GetFloydWarshallAsWritten`. The properties listed above are proved about the corrected ones: `BFS.GetBfsDefault`, `Dijkstra.GetDijkstra`, `FloydWarshall.GetMatrices` and `FloydPath.GetFloydWarshall`.
