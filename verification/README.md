# Graph library core, modelled in Dafny

The repository is a C++ teaching library for undirected graphs with 1-based
vertex ids. It has three stored forms:

- `MatrizAdjacencia`: a 0/1 matrix.
- `ListaAdjacencia`: sorted neighbour lists.
- `ListaAdjacenciaPeso`: lists of `(neighbour, weight)` entries.

Each form has an adapter that presents it through the `IGrafo` or
`IGrafoPeso` interface with 0-based vertices. On top of these sit:

- breadth-first search (`BFS`) and depth-first search (`DFS`), which record
  visited marks, parents, levels and the visiting order;
- connected components (`ComponentesConexas`);
- BFS distances and the diameter sweep (`Distancias`);
- Dijkstra's algorithm in a linear-scan and a heap version, with path
  reconstruction (`Dijkstra`, `obterCaminho`);
- two priority strategies behind `IDijkstraStrategy`;
- degree and component statistics (`Estatisticas`);
- the researcher-name mapping (`Mapping`), loaded from an "id,name" file.

The model is a set of pure functions over immutable values:

- **Graphs.** A graph is the table of its 0-based neighbour lists (`Adjacency.Adj`).
  `GraphViews.Table` builds this table from a matrix view or a list view,
  exactly as the adapters' `getVizinhos` would.
- **Objects.** Each C++ object becomes a datatype of its fields. Each method
  becomes a function from the old state to the new one.
- **Loops.** Each loop becomes a recursive function with a termination measure.
- **Errors.** Exceptions and `-1` results are modelled as `Result` and
  `Option` values, or as the same `-1`.
- **Interfaces.** Dafny's traits are not used. Each interface (`IGrafo`,
  `IDijkstraStrategy`) is a datatype with one constructor per implementation,
  and each operation dispatches on the constructor.
- **Distances.** Dijkstra's `double` distances are the type `Dijkstra.Dist`:
  a real number or `Inf`. BFS distances keep the original `int` sentinel
  `INFINITO = 999999`.

The proofs establish the following:

- The builders store exactly the given edges, symmetrically. The matrix and
  list views agree.
- BFS builds a tree of shortest paths, visits exactly the reachable vertices,
  and stops at the target.
- DFS builds a tree of paths and visits exactly the reachable vertices. When
  the last visited vertex has an unseen neighbour, the next visited vertex is
  its first such neighbour.
- The components partition the vertices into reachability classes, ordered
  by size. `estaoConectados` is reachability.
- Distances are shortest path lengths. The diameter is the largest finite
  distance, reported at its first pair.
- Both Dijkstra versions compute the least walk costs and a predecessor tree
  whose paths achieve them. The two versions compute the same distances.
- The strategies' operations behave as described: what `extrairMinimo`
  returns, and when `vazio` holds.
- The statistics are bounded: the median lies between the minimum and the
  maximum, the degrees sum to twice the edge count, and "connected" means
  there is a path between every two vertices.
- Loading the mapping accepts a file exactly when every line is well-formed,
  the ids are distinct, and at least one line is non-empty. Any formatted list of distinct researchers loads
  back to itself. Name lookups ignore case and surrounding blanks.

The heap strategy's `vazio` only tests the queue. It can be false while
`extrairMinimo` finds only stale entries and returns -1
(`DijkstraStrategies.HeapEmptyOnlyQueue`). The comment in
`busca/dijkstra_heap_strategy.h` at line 47 names that case. The vector
strategy's `vazio` is true exactly when `extrairMinimo` would return -1
(`DijkstraStrategies.VectorEmptyIffNone`). So the two implementations are
not interchangeable in a loop that tests `vazio` before extracting. The
Dijkstra functions themselves use neither strategy.

## Model

| member | source | states |
|---|---|---|
| MatrixAdjacency.Zeros | representacao_leitura/matriz_adjacencia.cpp:6-10 | the constructor's n-by-n matrix holds 0 everywhere |
| MatrixAdjacency.Set1 | representacao_leitura/matriz_adjacencia.cpp:14-15 | one assignment of 1 changes exactly that cell and keeps the shape |
| MatrixAdjacency.Build | representacao_leitura/matriz_adjacencia.cpp:6-17 | the finished matrix is n by n and holds 1 at (i, j) exactly when some edge joins i+1 and j+1 in either direction |
| MatrixAdjacency.BuildStep | representacao_leitura/matriz_adjacencia.cpp:11-16 | one loop iteration extends "1 exactly at the joined pairs" from the edges read so far to one more edge |
| MatrixAdjacency.BuildSymmetric | representacao_leitura/matriz_adjacencia.cpp:14-15 | the matrix is symmetric, because both cells of every edge are set |
| MatrixAdjacency.BuildHasEdges | representacao_leitura/matriz_adjacencia.cpp:14-15 | every input edge is present in both directions |
| MatrixAdjacency.RepeatedEdgeNoChange | representacao_leitura/matriz_adjacencia.cpp:11-16 | a repeated edge leaves the matrix unchanged: parallel edges collapse |
| MatrixAdjacency.SelfLoopSetsDiagonal | representacao_leitura/matriz_adjacencia.cpp:14-15 | a self-loop (u, u) sets only the diagonal cell of u |
| ListAdjacency.AddEdgeContrib | representacao_leitura/lista_adjacencia.cpp:12-18 | one edge adds v to u's list and u to v's list, and nothing else; a self-loop adds u twice |
| ListAdjacency.Unsorted | representacao_leitura/lista_adjacencia.cpp:7-19 | before sorting, each list holds, as a multiset, exactly the other ends of the incident edges, repeats included |
| ListAdjacency.Build | representacao_leitura/lista_adjacencia.cpp:7-24 | each finished list is sorted ascending and keeps the same multiset of neighbours |
| ListAdjacency.BuildMembership | representacao_leitura/lista_adjacencia.cpp:12-18 | x occurs in u's list exactly when some edge joins u and x |
| ListAdjacency.BuildInRange | representacao_leitura/lista_adjacencia.cpp:12-18 | every stored neighbour is a vertex id in 1..n |
| ListAdjacency.BuildCountSymmetric | representacao_leitura/lista_adjacencia.cpp:12-18 | w appears in u's list as many times as u appears in w's |
| ListAdjacency.BuildTotalLength | representacao_leitura/lista_adjacencia.cpp:12-18 | the list lengths add up to twice the edge count |
| WeightedListAdjacency.AddEdge | representacao_leitura/lista_adjacencia_peso.cpp:17-18 | one weighted edge appends (v, w) to u's list and (u, w) to v's list and changes no other list |
| WeightedListAdjacency.Build | representacao_leitura/lista_adjacencia_peso.cpp:8-20 | each list is the incident entries in input order, with no sorting and no merging of repeats |
| WeightedListAdjacency.IncidentInRange | representacao_leitura/lista_adjacencia_peso.cpp:12-19 | every stored neighbour id is in 1..n |
| WeightedListAdjacency.IncidentSymmetric | representacao_leitura/lista_adjacencia_peso.cpp:17-18 | the entry (v, w) occurs in u's list as often as (u, w) occurs in v's |
| WeightedListAdjacency.BuildTotalLength | representacao_leitura/lista_adjacencia_peso.cpp:12-19 | the list lengths add up to twice the edge count |
| WeightedListAdjacency.AddEdgeTotal | representacao_leitura/lista_adjacencia_peso.cpp:17-18 | one edge adds exactly two entries in total |
| WeightedListAdjacency.SortedLists | representacao_leitura/lista_adjacencia_peso.cpp:22-28 | `getListaOrdenada` returns each list sorted by (id, weight), with the same entries |
| WeightedListAdjacency.SortedListsCanonical | representacao_leitura/lista_adjacencia_peso.cpp:22-28 | two edge inputs with the same incident entries per vertex give the same sorted lists, whatever their order |
| GraphViews.OnesFrom | representacao_leitura/matriz_adjacencia_adapter.h:28-32 | the matrix neighbours of a row are the columns holding 1, strictly increasing |
| GraphViews.Neighbors | representacao_leitura/grafo_interface.h:19-34 | `getVizinhos` of either adapter returns only 0-based vertex ids of the graph |
| GraphViews.Table | representacao_leitura/grafo_interface.h:19-34 | the table of a view has one entry per vertex, and each entry is exactly that vertex's `getVizinhos` |
| GraphViews.TableSymmetric | representacao_leitura/grafo_interface.h:19-34 | the table of an undirected view is symmetric |
| GraphViews.Contains | representacao_leitura/lista_adjacencia_adapter.h:44-49 | the linear search succeeds exactly when the value is in the list |
| GraphViews.HasEdge | representacao_leitura/lista_adjacencia_adapter.h:38-50 | `existeAresta` holds exactly when the destination is among the origin's neighbours, for both adapters |
| GraphViews.MatrixBuildView | representacao_leitura/matriz_adjacencia_adapter.h:23-35 | the matrix built from the edges, seen through its adapter, is well-formed and undirected, with w a neighbour of u exactly when an edge joins them |
| GraphViews.ListBuildView | representacao_leitura/lista_adjacencia_adapter.h:23-36 | the same for the list form: ids shift down by one, and neighbourhood is "joined by an edge" |
| GraphViews.ListBuildWellFormed | representacao_leitura/lista_adjacencia_adapter.h:31-33 | every shifted neighbour of the list view is a 0-based vertex |
| GraphViews.ListNeighborsMembership | representacao_leitura/lista_adjacencia_adapter.h:31-33 | w is a neighbour in the list view exactly when w+1 is stored |
| GraphViews.DedupFrom | representacao_leitura/lista_adjacencia_adapter.h:23-36 | dropping repeats, and the values already seen, keeps exactly the other values |
| GraphViews.MatrixListNeighbors | representacao_leitura/matriz_adjacencia_adapter.h:23-35 | for the same edges, the matrix neighbours of v are the list neighbours of v without repeats |
| WeightedView.NeighborsW | representacao_leitura/lista_adjacencia_peso_adapter.h:22-35 | `getVizinhosComPeso` keeps every entry and its order, and shifts each id down by one |
| WeightedView.FindEntry | representacao_leitura/lista_adjacencia_peso_adapter.h:43-48 | the search reports the weight of the first entry for the id; with no such entry it reports (false, 0.0) |
| WeightedView.GetEdgeMatchesNeighbors | representacao_leitura/lista_adjacencia_peso_adapter.h:37-49 | `getAresta` finds an edge exactly when the target is among `getVizinhosComPeso`, and the weight it returns belongs to one of those entries |
| WeightedView.ViewSymmetric | representacao_leitura/lista_adjacencia_peso_adapter.h:22-35 | through the adapter, (v, w) is a neighbour of u as often as (u, w) is a neighbour of v |
| WeightedView.BuildWellFormed | representacao_leitura/lista_adjacencia_peso.cpp:8-20 | every built entry names a vertex of the graph |
| Search.Reset | busca/bfs.cpp:201-206 | `reset` clears the marks and the visiting order, and sets every parent and level to -1 |
| Search.Mark | busca/bfs.cpp:117-129 | marking an unmarked vertex marks exactly one more vertex |
| Search.ResetAccessors | busca/bfs.cpp:208-240 | after `reset`, no vertex counts as visited, and `getPai` and `getNivel` return -1 |
| Search.OutOfRangeAccessors | busca/bfs.cpp:208-240 | for an id outside 1..n, `foiVisitado` is false and `getPai` and `getNivel` are -1 |
| Bfs.Run | busca/bfs.cpp:74-133 | the search fails exactly for a start outside 1..n, or for a target that is neither -1 nor in 1..n; a bad start takes precedence in the error; otherwise the state has n entries |
| BfsProof.BfsRoot | busca/bfs.cpp:94-98 | the start is visited first, at level 0, with no parent |
| BfsProof.BfsTree | busca/bfs.cpp:117-129 | every other visited vertex has a visited parent adjacent to it, one level above it; unvisited vertices have parent and level -1 |
| BfsProof.BfsOrder | busca/bfs.cpp:106-132 | the visiting order lists each visited vertex exactly once, and nothing else |
| BfsProof.BfsShortest | busca/bfs.cpp:106-132 | the level of a visited vertex is its shortest path length from the start |
| BfsProof.BfsComplete | busca/bfs.cpp:106-132 | with no target, the visited vertices are exactly those reachable from the start |
| BfsProof.BfsTarget | busca/bfs.cpp:100-129 | with a target, it is visited exactly when it is reachable, and then it is the last vertex in the order |
| BfsProof.BfsVariantsAgree | busca/bfs.cpp:13-133 | the matrix and list variants give identical results on the graph built from the same edges |
| Dfs.Enter | busca/dfs.cpp:36-48 | visiting a vertex marks it, records its parent, appends it to the order, and sets its level one above the parent's, or 0 at the root |
| Dfs.Pushes | busca/dfs.cpp:55-62 | only unmarked neighbours are pushed, each paired with its parent |
| Dfs.Run | busca/dfs.cpp:14-65 | the search fails exactly for a start outside 1..n; otherwise the order holds vertex ids |
| DfsProof.FirstUnseen | busca/dfs.cpp:55-62 | the index of the first neighbour not yet in the order |
| DfsProof.DfsRoot | busca/dfs.cpp:26-48 | the start is visited first, at level 0, with no parent |
| DfsProof.DfsTree | busca/dfs.cpp:36-48 | every other visited vertex has a visited parent adjacent to it, one level above it and earlier in the visit order, and a path from the start of that length |
| DfsProof.DfsOrder | busca/dfs.cpp:32-48 | the order lists each visited vertex exactly once, and nothing else |
| DfsProof.DfsComplete | busca/dfs.cpp:14-65 | the visited vertices are exactly those reachable from the start |
| DfsProof.DfsNext | busca/dfs.cpp:26-62 | the vertex after the k-th in the order is the k-th vertex's first neighbour not seen by then, if it has one, and its parent is the k-th vertex |
| DfsProof.RunDeep | busca/dfs.cpp:26-62 | when the search ends, every neighbour of the last visited vertex has been seen |
| Components.MakeComponent | analise/componentes.h:17-20 | a `Componente` keeps its id, its size is the list length, and its vertices are the same multiset sorted, so the least vertex comes first |
| Components.MarkAll | analise/componentes.cpp:27-30 | after the loop, a vertex is visited exactly when it was before or it is in the DFS order |
| Components.Seed | analise/componentes.cpp:19-34 | the seeding loop only appends to the list it is given |
| Components.SortComponents | analise/componentes.cpp:36-42 | the sorted list is a permutation, ordered by size descending, then by least vertex |
| Components.Renumber | analise/componentes.cpp:44-46 | the i-th component gets id i+1; its size and vertices are untouched |
| Components.ComponentOf | analise/componentes.cpp:93-106 | `getComponenteDoVertice` is -1 for an id outside 1..n or one found in no component; otherwise it is the id of the first component holding the vertex |
| Components.FirstId | analise/componentes.cpp:98-105 | the scan returns the id of the first component holding the vertex, or -1 |
| ComponentsProof.ComponentsPartition | analise/componentes.cpp:13-47 | each of 1..n lies in exactly one component; components are non-empty and sorted, and their sizes are their lengths |
| ComponentsProof.ComponentsAreClasses | analise/componentes.cpp:19-34 | a component holds exactly the vertices joined by a path to any of its members |
| ComponentsProof.ComponentsOrdered | analise/componentes.cpp:36-46 | ids are 1..k in list order, and sizes do not increase; ties are broken by the smaller least vertex; a non-empty graph has at least one component |
| ComponentsProof.ComponentOfFound | analise/componentes.cpp:93-106 | every vertex id in 1..n has a component, and the id returned names a component holding it |
| ComponentsProof.ConnectedIffLinked | analise/componentes.cpp:108-111 | `estaoConectados` holds exactly when both ids are vertices joined by a path |
| ComponentsProof.ConnectedRefl | analise/componentes.cpp:108-111 | every vertex is connected to itself, and an id outside 1..n is connected to nothing |
| Distances.BfsDistances | analise/distancias.cpp:46-73 | `bfs_distancias` returns one entry per vertex |
| Distances.DistancesViaBfs | analise/distancias.cpp:12-42 | the BFS-class distance helpers fail exactly for an origin outside 0..n-1, and otherwise return one entry per vertex |
| Distances.MaxElement | analise/distancias.cpp:84-89 | `max_element` with that comparator picks the first greatest finite entry; if all entries are infinite, it picks the last entry |
| Distances.MaxFrom | analise/distancias.cpp:84-89 | the scan keeps "first greatest finite entry so far" up to the end |
| DistancesProof.DistancesAgree | analise/distancias.cpp:12-73 | the queue-based `bfs_distancias` and the BFS-class helpers compute the same vector |
| DistancesProof.DistanceMeaning | analise/distancias.cpp:46-73 | a reachable vertex's entry is its shortest path length (below n); an unreachable one's is `INFINITO`; if n does not exceed `INFINITO`, the entry is `INFINITO` exactly when the vertex is unreachable |
| DistancesProof.DistanceBetweenMeaning | analise/distancias.cpp:102-116 | `calcularDistanciaEspecifica` and `getDistancia` return the shortest distance to a reachable target, `INFINITO` for an unreachable or invalid target, and 0 from a vertex to itself |
| DistancesProof.DiameterIsLargestEntry | analise/distancias.cpp:75-100 | the diameter is the largest finite entry over all pairs, reported at the first pair in (origin, target) order; if no entry is above 0, the diameter is 0 at the pair (1, 1) |
| DistancesProof.ComputeOverwritesUnset | analise/distancias.cpp:7-10 | the constructor's pair (-1, -1) never survives `calcularDistancias`: afterwards the pair is (1, 1) or two vertex ids |
| DistancesProof.DiameterIsLargestDistance | analise/distancias.cpp:75-100 | the diameter bounds every shortest distance and is below n; a positive diameter is the shortest distance between its pair |
| Dijkstra.InitialDist | busca/dijkstra.cpp:11-20 | at the start, the origin is at 0 and every other vertex is at infinity |
| Dijkstra.NoPreds | busca/dijkstra.cpp:14 | at the start, every predecessor is -1 |
| Dijkstra.Select | busca/dijkstra.cpp:24-29 | a round's choice is -1 exactly when every vertex is visited; otherwise it is an unvisited vertex with no unvisited vertex below it, and the smallest index among ties |
| Dijkstra.SelectFrom | busca/dijkstra.cpp:25-29 | the scan keeps "first least unvisited so far" up to the end |
| Dijkstra.RelaxV | busca/dijkstra.cpp:38-46 | relaxing the entries of u keeps the visited marks and the array sizes |
| Dijkstra.VLoop | busca/dijkstra.cpp:22-47 | the rounds keep the array sizes |
| Dijkstra.DijkstraVector | busca/dijkstra.cpp:7-50 | the result has one distance and one predecessor per vertex, and records the origin |
| Dijkstra.Chain | busca/dijkstra.cpp:134-140 | the collected predecessor chain holds vertex ids only, and has at most the fuel bound |
| Dijkstra.PathTo | busca/dijkstra.cpp:124-145 | `obterCaminho` is empty for a destination at infinity, and otherwise holds vertex ids only |
| HeapDijkstra.Push | busca/dijkstra.cpp:79-88 | a push keeps the queue ordered as the min-queue pops it, and adds exactly the new entry |
| HeapDijkstra.RelaxH | busca/dijkstra.cpp:79-88 | relaxing the entries of u keeps the state's shape |
| HeapDijkstra.HLoop | busca/dijkstra.cpp:52-92 | the loop keeps the queue invariant and ends with an empty queue |
| HeapDijkstra.HStart | busca/dijkstra.cpp:52-70 | the start state satisfies the queue invariant |
| HeapDijkstra.DijkstraHeap | busca/dijkstra.cpp:52-92 | the result has one distance and one predecessor per vertex, and records the origin |
| DijkstraProof.SoundMeaning | busca/dijkstra.cpp:7-92 | a sound distance vector holds at each finite vertex the least cost of a walk from the origin; it holds infinity exactly at the vertices no walk reaches |
| DijkstraProof.SoundUnique | busca/dijkstra.cpp:7-92 | at most one distance vector is sound for a graph and an origin |
| DijkstraProof.WalkBound | busca/dijkstra.cpp:38-46 | a sound distance is at most the cost of any walk to that vertex |
| DijkstraProof.PathToMeaning | busca/dijkstra.cpp:124-145 | following a predecessor tree, `obterCaminho` is empty exactly for a destination at infinity; otherwise it is a walk from the origin to the destination whose cost is the recorded distance |
| DijkstraProof.PathToOrigin | busca/dijkstra.cpp:134-138 | the path to the origin is the origin alone |
| VectorDijkstraProof.DijkstraVectorCorrect | busca/dijkstra.cpp:7-50 | with non-negative weights, `dijkstraVetor` returns sound distances and an acyclic predecessor tree whose edges achieve them |
| HeapDijkstraProof.DijkstraHeapCorrect | busca/dijkstra.cpp:52-92 | the same for `dijkstraHeap`, with stale queue entries skipped |
| DijkstraTheorems.VectorShortest | busca/dijkstra.cpp:7-50 | every finite distance of `dijkstraVetor` is the least walk cost, and infinity means no walk |
| DijkstraTheorems.HeapShortest | busca/dijkstra.cpp:52-92 | the same for `dijkstraHeap` |
| DijkstraTheorems.VectorPaths | busca/dijkstra.cpp:124-145 | `obterCaminho` on a `dijkstraVetor` result is a shortest walk, empty for unreachable destinations, and just the origin for the origin |
| DijkstraTheorems.HeapPaths | busca/dijkstra.cpp:124-145 | the same on a `dijkstraHeap` result |
| DijkstraTheorems.VariantsAgree | busca/dijkstra.cpp:7-92 | both versions compute the same distance vector |
| DijkstraStrategies.Initialize | busca/dijkstra_strategy.h:11-44 | `inicializar(n)` makes n infinite distances, with nothing visited or an empty queue; both variants then count as empty, and extraction returns -1 |
| DijkstraStrategies.InsertOrUpdate | busca/dijkstra_heap_strategy.h:30-33 | `inserirOuAtualizar` overwrites the distance; the vector keeps its marks, and the heap adds exactly one entry |
| DijkstraStrategies.MarkVisited | busca/dijkstra_vetor_strategy.h:58-60 | `marcarVisitado` marks the vertex in the vector, and changes nothing in the heap |
| DijkstraStrategies.ScanFrom | busca/dijkstra_vetor_strategy.h:34-39 | the scan keeps "first least finite unvisited so far" up to the end |
| DijkstraStrategies.NoneLeftFrom | busca/dijkstra_vetor_strategy.h:48-56 | the vector's `vazio` holds exactly when every vertex is visited or at infinity |
| DijkstraStrategies.PopLive | busca/dijkstra_heap_strategy.h:35-48 | popping stops at the first entry that carries its vertex's current distance and drops the entries before it; with none, the queue ends empty and every entry was stale |
| DijkstraStrategies.ExtractMin | busca/dijkstra_strategy.h:11-44 | `extrairMinimo` keeps the distances and returns -1 or a vertex |
| DijkstraStrategies.IsEmpty | busca/dijkstra_heap_strategy.h:50-52 | the heap's `vazio` tests only for an empty queue |
| DijkstraStrategies.VectorExtract | busca/dijkstra_vetor_strategy.h:29-46 | the vector returns the unvisited finite vertex of least distance, the smallest index among ties, and marks it; it returns -1 and changes nothing exactly when no unvisited vertex is finite |
| DijkstraStrategies.VectorEmptyIffNone | busca/dijkstra_vetor_strategy.h:29-56 | the vector's `vazio` holds exactly when `extrairMinimo` would return -1 |
| DijkstraStrategies.HeapExtract | busca/dijkstra_heap_strategy.h:35-48 | the heap returns a live entry's vertex whose distance is at most every entry left; it returns -1 only after emptying a queue of stale entries |
| DijkstraStrategies.HeapEmptyOnlyQueue | busca/dijkstra_heap_strategy.h:47-52 | a heap holding only a stale entry is not empty, yet extraction returns -1 |
| DijkstraStrategies.VisitedNeverReturned | busca/dijkstra_vetor_strategy.h:29-60 | in any sequence of operations on the vector, a visited vertex is never extracted again |
| DijkstraStrategies.VectorReturnsOnce | busca/dijkstra_vetor_strategy.h:29-60 | the vector never returns a vertex twice, nor one already passed to `marcarVisitado` |
| Statistics.NewStats | analise/estatisticas.cpp:8-21 | the constructor records n, and sets every counter to 0, "connected" to false and the diameter pair to (-1, -1) |
| Statistics.MinOf | analise/estatisticas.cpp:38-40 | the least value is one of the values and bounds all of them from below |
| Statistics.MaxOf | analise/estatisticas.cpp:38-40 | the greatest value is one of the values and bounds all of them from above |
| Statistics.SumBounds | analise/estatisticas.cpp:43-44 | a sum of values between lo and hi lies between count times lo and count times hi |
| Statistics.Median | analise/estatisticas.cpp:52-53 | the median of no values is 0 |
| Statistics.MedianMeaning | analise/estatisticas.cpp:52-65 | the median is the middle sorted value for an odd count, and the mean of the two middle values for an even count; it lies between the minimum and the maximum |
| Statistics.MedianOrderIndependent | analise/estatisticas.cpp:52-55 | the median depends only on the multiset of values, since a sorted copy is used |
| Statistics.Degrees | analise/estatisticas.cpp:23-32 | the degree of each of the first n vertices is the length of its list |
| Statistics.DegreeSum | analise/estatisticas.cpp:23-32 | the degrees of a list built from edges add up to twice the edge count |
| Statistics.DegreeStats | analise/estatisticas.cpp:34-48 | the degrees are kept; the minimum and maximum are degrees that bound all the others; the mean is the degree sum divided by n; the median is the median of the degrees; no other field changes |
| Statistics.DegreeStatsBounds | analise/estatisticas.cpp:34-48 | when n is the number of degrees, the mean and the median both lie between the minimum and the maximum degree |
| Statistics.Sizes | analise/estatisticas.cpp:80-82 | the size list holds each component's size, in component order |
| Statistics.AddComponentInfo | analise/estatisticas.cpp:74-90 | the component count is recorded; "connected" means exactly one component; the extremes are sizes that bound all the others, or are kept from before when there are no components; nothing else changes |
| StatisticsProof.SizesSum | analise/estatisticas.cpp:80-82 | the recorded sizes add up to the number of listed vertices |
| StatisticsProof.ComponentSummary | analise/estatisticas.cpp:74-90 | for the components of a non-empty graph, the sizes add up to n; the largest is the first component's size and the smallest the last's; "connected" holds exactly when every two vertices are joined by a path |
| StatisticsProof.SummaryConnected | analise/estatisticas.cpp:75-76 | for the components of a non-empty graph, "connected" (exactly one component) holds exactly when every two vertices are joined by a path |
| Text.FirstNonBlank | mapping.cpp:73 | `find_first_not_of(" \t\r\n")`: everything before the result is blank, and the result is non-blank or the end |
| Text.EndNonBlank | mapping.cpp:77 | `find_last_not_of`: everything from the result on is blank, and the character before the result is not |
| Text.Trim | mapping.cpp:72-79 | the result neither starts nor ends with a blank, and is no longer than the input |
| Text.TrimMeaning | mapping.cpp:72-79 | `trim` is "" exactly for all-blank text; otherwise it is a slice of the input with only blanks removed before and after |
| Text.TrimIdempotent | mapping.cpp:72-79 | trimming twice is trimming once |
| Text.TrimOfTrimmed | mapping.cpp:72-79 | trimming text that is already trimmed changes nothing |
| Text.Lower | mapping.cpp:18 | `tolower` in the "C" locale moves 'A'..'Z' up by 32 and leaves every other character alone |
| Text.ToLower | mapping.cpp:14-21 | `toLower` keeps the length |
| Text.ToLowerAt | mapping.cpp:14-21 | each character is lowered on its own |
| Text.ToLowerIdempotent | mapping.cpp:14-21 | lowering twice is lowering once |
| Text.Normalize | mapping.cpp:68-70 | `normalizar` is as long as the trimmed text |
| Text.NormalizeTrimmed | mapping.cpp:68-70 | a normalised name is trimmed |
| Text.NormalizeIdempotent | mapping.cpp:68-70 | normalising twice is normalising once |
| Text.NormalizeOfTrim | mapping.cpp:68-70 | trimming first does not change the normalised form |
| Text.Stoi | mapping.cpp:107-112 | `std::stoi` succeeds only with a value in the 32-bit `int` range |
| Text.Decimal | mapping.cpp:107-112 | the decimal text of a number is a non-empty run of digits |
| Text.DecimalValue | mapping.cpp:107-112 | reading the decimal text of n gives n back |
| Text.StoiDecimal | mapping.cpp:107-112 | `stoi` of the decimal text of n gives n when n fits in an `int`, and fails otherwise |
| Text.StoiIgnoresTail | mapping.cpp:107-112 | `stoi` reads the leading digits and ignores whatever non-digit text follows them |
| Text.StoiNoDigits | mapping.cpp:107-112 | text with no digit at all is refused |
| ResearcherMapping.FindComma | mapping.cpp:95-98 | `find(',')` returns the first comma, or reports that there is none |
| ResearcherMapping.ParseLine | mapping.cpp:95-121 | an accepted line gives a positive id, a non-empty trimmed name, and its non-empty normalised key |
| ResearcherMapping.ParseFields | mapping.cpp:100-121 | accepted fields keep the name as given, with a positive id and a non-empty key |
| ResearcherMapping.NoBadName | mapping.cpp:118-121 | the "invalid name" error can never occur, since a non-empty trimmed name never normalises to "" |
| ResearcherMapping.Classify | mapping.cpp:91-121 | only an empty line is skipped; any other line is accepted or refused exactly as the parser decides |
| ResearcherMapping.Outcomes | mapping.cpp:89-129 | each line is classified on its own |
| ResearcherMapping.CheckCount | mapping.cpp:153-158 | `validarComGrafo` accepts exactly when the graph's vertex count equals the number of researchers; otherwise it reports both numbers |
| ResearcherMapping.Construct | mapping.cpp:24-28 | the constructor succeeds exactly when loading succeeds and the count matches; a loading error is reported unchanged |
| ResearcherMapping.LoadFromMeaning | mapping.cpp:89-133 | the loop succeeds exactly when no line is refused, the ids are new, and at least one researcher exists; it then holds exactly the parsed records added in order |
| ResearcherMapping.LoadMeaning | mapping.cpp:81-134 | a file loads exactly when every non-empty line parses, the ids are distinct and some line is non-empty; there is then one researcher per non-empty line, and each id maps to its name |
| ResearcherMapping.LineErrorAt | mapping.cpp:95-121 | a line error names a real line number, and that line was refused for the fault reported |
| ResearcherMapping.DuplicateAt | mapping.cpp:126-128 | a duplicate-id error names a line whose id was already held |
| ResearcherMapping.NoResearchersMeaning | mapping.cpp:131-133 | "no researcher" is reported only for a file whose lines are all empty |
| ResearcherMapping.AddConsistent | mapping.cpp:123-128 | recording a new line keeps the two maps consistent: an id is listed under a key exactly when its name normalises to that key |
| ResearcherMapping.LookupsAgree | mapping.cpp:38-53 | `obterNomePorId` and `obterIdsPorNome` are inverse: an id's name lists that id, and a listed id names a matching name |
| ResearcherMapping.ParseFormatted | mapping.cpp:95-121 | a line written as "id,name", with a positive `int` id and a non-empty trimmed name, is read back as exactly that researcher |
| ResearcherMapping.LoadFormat | mapping.cpp:81-134 | a file written from distinct researchers loads successfully, with exactly those researchers |
| ResearcherMapping.IdsByName | mapping.cpp:38-45 | `obterIdsPorNome` finds the list stored under the normalised name, or raises "not found" naming the name as given |
| ResearcherMapping.IdByName | mapping.cpp:30-36 | `obterIdPorNome` succeeds exactly when the name has exactly one id; otherwise it reports "not found" or "several ids" |
| ResearcherMapping.NameById | mapping.cpp:47-53 | `obterNomePorId` finds the stored name, or raises "not found" naming the id |
| ResearcherMapping.ContainsName | mapping.cpp:55-58 | `contemNome` holds exactly when the name lookup would succeed |
| ResearcherMapping.ContainsId | mapping.cpp:60-62 | `contemId` holds exactly when the id lookup would succeed |
| ResearcherMapping.LookupIgnoresCase | mapping.cpp:38-58 | two names with the same normalised form are found alike, with the same ids |
| ResearcherMapping.LookupOfNormalized | mapping.cpp:55-58 | looking up a name, its trimmed form or its normalised form gives the same answer |

## Left out

- **Input and output.** Reading graph files is not modelled (`leitor_grafo.cpp`), nor are the demos, the menu, the benchmarks, printing and saving (`imprimir…`, `salvar…`). The builders take the edge list the reader would produce.
- **Opening the mapping files.** Opening the two files, and parsing the graph header, are not modelled. The loader takes the file's lines, and the count check takes the vertex count read from the header. A missing file and a bad header are not modelled.
- **Floating point.** Dijkstra's `double` distances are exact reals, with `Inf` for infinity. Rounding is not modelled, and neither are NaN or negative infinity. The median's `/ 2.0` is also a real division.
- **Integer overflow.** Sums are unbounded integers: the degree sum in `calcularEstatisticasGrau`, and the sum of the two middle values in `calcularMediana`. The original's 32-bit overflow is not modelled. `stoi`'s range is modelled.
- **Bfs.Run and Dfs.Run:** the object's `n` is taken to be the graph's vertex count. The original allows a different constructor argument, which then indexes out of bounds.
- **DfsProof.DfsNext:** states the step rule only when the last visited vertex has an unseen neighbour. The backtracking rule is not proved. In that case the stack makes the next vertex the first unseen neighbour of the deepest vertex on the tree path that has one, and that vertex becomes its parent.
- **DFS variants.** The matrix and list variants of DFS (and so of components) are not proved to agree. A list may hold repeated neighbours, so the two stacks differ, although the visited set is the same reachable set in both (`DfsProof.DfsComplete`).
- **ComponentsProof.ComponentsPartition:** this and the other component lemmas require a symmetric table. Every builder produces one (`GraphViews.TableSymmetric`). For a directed table the classes are not proved.
- **Origins.** `dijkstraVetor`, `dijkstraHeap` and `bfs_distancias` index the origin unchecked. The model requires it to be in 1..n.
- **HeapDijkstra.DijkstraHeap:** requires non-negative weights. The queue loop's termination is proved from them. With negative weights the original may re-settle vertices, and that behaviour is not modelled.
- **Dijkstra.PathTo:** the predecessor loop is bounded by n steps. The original loops while the chain continues. The two agree whenever the predecessors form a tree, which `DijkstraProof.PathToMeaning` shows for Dijkstra's results. A hand-made cyclic predecessor array would make the original loop forever.
- **DistancesProof.DistanceMeaning:** "`INFINITO` means unreachable" is stated only when n does not exceed `INFINITO` (999999). With more vertices, a real distance of 999999 would collide with the sentinel.
- **Statistics.DegreeStats:** requires at least one degree and n > 0. The original dereferences `minmax_element` of an empty range and divides by n.
- **Diameter helpers and whole-graph statistics.** `calcularEstatisticas_Lista` and `calcularDiametro_Lista` call `calcularDiametroApenas_Lista`, which has no body in the source, and so are not modelled. Neither are the sampled-diameter helpers declared without bodies.
- **Generic IGrafo entry points.** `executarBFS` and `encontrarComponentes` over `IGrafo` are declared without bodies. Their matrix and list versions are modelled.
- **getPais and getNiveis.** The raw arrays are fields of the search state. Only the checked accessors `getPai`, `getNivel` and `foiVisitado` are stated.
- **Text.Trim:** its own contract states only that the result is trimmed and no longer than the input. The full statement, "a slice with only blanks removed at the ends", is `Text.TrimMeaning`.
- **Text.Lower:** follows `tolower` in the "C" locale only. Other locales are not modelled.
- **Text.Stoi:** accepts a digit run followed by other text, as `std::stoi` does (so "12abc" reads as 12). The loader inherits this behaviour.
- **Components.SortComponents:** `std::sort` is not stable. The model sorts by the same comparator, and its result is the same because no two components share a least vertex.
