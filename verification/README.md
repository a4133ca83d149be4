# A verified model of docsiq's core

This project models, in Dafny, the stateful core of docsiq, a document index with semantic
search: the HNSW vector index, Louvain community detection, the relationship walks and
document versions of the store, the three concurrent protocols of the server (worker pool,
index cache, event log), and the two text formats with a printer and a parser (server-sent
events and note frontmatter). `dafny verify dfyconfig.toml` checks all of it.

## The parts

- `Collections`: options, duplicate-free sequences, sizes of sets.
- `HnswGraph`, `HnswSearch`, `HnswLayer`, `HnswState`, `HnswLinks`, `HnswExact`,
  `HnswIndex`, `HnswDangling`: the index. `HnswIndex.HNSW` is the object with its mutable node objects;
  its methods are proved against relations between states (`Inserted`, `Removed`,
  `Answered`), and the theorems about runs are stated over any chain of those relations.
- `Ranking`, `Cosine`, `LocalSearch`: what an exact answer is, the two similarity functions,
  loading the index from the store, and the two retrieval branches.
- `Sums`, `Modularity`, `Labelings`, `Louvain`, `Hierarchy`: community detection.
- `GraphWalk`, `DocVersions`: the store.
- `EventLog`, `SseStream`, `IndexCache`, `WorkQueue`, `WorkQueueProgress`: the server and its stream.
- `Frontmatter`: notes.

## How things are modelled

- A class whose methods update fields is a class here; every layer of the graph is also
  available as a value (a map from nodes to the nodes they list), which is what the theorems
  speak about. Links to removed nodes stay, as in the source, so layers cover every node ever
  added.
- The random level of a new node is an argument, any natural number. The distance is an
  arbitrary function of two vectors unless a statement names the cosine distance. The square
  root is any function whose value on a positive number is positive and has that number as
  its square.
- Floating-point numbers are reals.
- A search records visits by id, as in the source, so of two nodes with one id it sees the first.
  Live nodes have distinct ids; a removed node that is still listed may share its id with a
  replacement. Statements that need distinct ids say so, on sets of nodes of the layer.
- A heap is the set of its entries, with the contracts of push, top and pop; which of several
  equally distant entries is popped is left open, and so is the order in which a trimmed list
  is stored.
- Map iteration order, the random visiting order of Louvain and the order of SQL rows are
  left open where a result could depend on them: a loop takes any remaining element, and
  contracts promise only what holds for every choice. `RandPerm` promises a permutation,
  not an order.
- SQL tables are finite sets or maps of rows, a query is a filter over them, and UNIQUE on
  `file_hash` refuses an upsert when another row has the hash, retired rows included.
- The concurrent protocols are state machines. A step is one critical section or one channel
  operation, and a call takes as many steps as it has of them, and any number of participants interleave freely. `cond.Wait` releases the lock
  and is left only through a broadcast; a woken streamer looks at its condition again.
  `Invalidate` deletes the cache entry and forgets the flight in one step: between the two the
  cache mutex is held, and whoever joins the old flight in that moment could have joined it
  just before. The classes `JobProgressLog`, `Handlers`, `VectorIndexes` and `Pool` tie the bodies of the
  critical sections to the steps.
- JSON and YAML are pairs of functions with the round-trip property the statement names.
- The graph is modelled for any weights; the results on `Louvain` assume positive edges, which
  weights that are not negative give. The source replaces zero by one but does not reject
  negative weights.

## Where code and documentation differ

- internal/community/louvain.go:65-73 documents a gain with `k_i_in / 2m` and
  `sigma_tot * k_i / 2m^2`; lines 128 and 132 compute `k_i_in / 2m` and
  `sigma_tot * k_i / (2m)^2`. The statements are about the code, whose gain is half the change
  of modularity up to the self-loop term (`Modularity.ModularityOfMove`).
- internal/store/store.go:153 says that `canonical_id` is NULL on a first version and the first
  version's id later. `versionInfo` (internal/pipeline/pipeline.go:971-980) gives the first
  version a freshly minted identifier that is no row's id, and later versions copy it. Rows with
  a NULL column are covered too.
- internal/community/louvain.go:174-175 promises several levels. All super-nodes are named "",
  so there is always one (`Hierarchy.Levels`); the general statement about distinct names says
  what the hierarchy would be.
- internal/vectorindex/builder.go:12-15 speaks of the dominant model; the first one listed is
  taken, while the scan uses the query's model. `BranchesAgree` is about one model for both.
- internal/vectorindex/hnsw.go:162 says that Remove drops an id from the index. A search can
  still answer it (`HnswDangling.SearchAnswersRemovedId`), over a link that pruning had made
  one-sided. `HnswState.RemoveLeavesNoDanglingIff` says when a removal leaves such a link, and
  `HnswLinks.UnprunedRunsListOnlyLive` that runs without pruning never do. Without such links
  every hit is live at its true score (`HnswExact.LiveLinksAnswerLive`); with them,
  `HnswExact.AnswersLiveIffReachableLive` says when a search can still answer live nodes only.
- internal/vectorindex/hnsw.go:101 says that Add replaces the vector of an id. After pruning the
  replaced vector can keep being answered and hide the new one from every search
  (`HnswDangling.SearchAnswersReplacedVector`).
- internal/api/vector_indexes.go:111-113 promises a rebuild from the latest store state after
  Invalidate. That holds exactly when no build with an older read is yet to write back
  (`IndexCache.FreshAfterInvalidateIff`, with `IndexCache.StaleWriteBack` as an instance).
- The synthetic error text of a plain-text frame drops seven characters although `error:` has
  six (ui/src/hooks/api/useUploadProgress.ts:94); the model does the same.

## Model

| member | source | states |
|---|---|---|
| HnswSearch.GreedyStep | internal/vectorindex/hnsw.go:243-263 | goes from the start by moves to a nearest neighbour that is nearer than the node it leaves, and stops where no neighbour on the layer is nearer |
| HnswGraph.GreedyReaches | internal/vectorindex/hnsw.go:243-263 | such moves stay among reachable nodes and never lead farther from the query |
| HnswSearch.NearestOf | internal/vectorindex/hnsw.go:251-258 | one sweep over the list keeps a nearest node and reports whether it is nearer than before |
| HnswSearch.SearchLayer | internal/vectorindex/hnsw.go:267-309 | beam search: terminates and returns between 1 and ef distinct nodes reachable from the start, ascending by distance, the ef nearest of all it visited, with every neighbour of a returned node visited |
| HnswSearch.VisitAll | internal/vectorindex/hnsw.go:287-300 | visiting the neighbours of a candidate keeps both heaps on visited nodes, the results the ef nearest of them, and leaves no kept node unexpanded and unqueued |
| HnswSearch.Offer | internal/vectorindex/hnsw.go:292-299 | a node seen for the first time enters the heaps so that the results remain the ef nearest visited |
| HnswSearch.Drain | internal/vectorindex/hnsw.go:303-308 | popping the max-heap into the slice from its back yields the kept nodes in ascending distance, each once |
| HnswSearch.FirstExpansion | internal/vectorindex/hnsw.go:278-291 | the start is expanded first: its neighbours are all visited when ids tell them and the start apart |
| HnswLayer.BeamClosureById | internal/vectorindex/hnsw.go:267-309 | for every neighbour of a returned node a node with its id was visited, and that one is returned itself, or exactly ef nodes are returned and it is no nearer than any of them |
| HnswLayer.BeamClosure | internal/vectorindex/hnsw.go:267-309 | so wherever ids are distinct on a part of the layer that holds the start and is closed under links, the neighbour itself is returned, or the result is full and it is no nearer |
| HnswLayer.SharedIdHidesNeighbour | internal/vectorindex/hnsw.go:268-291 | a graph of two nodes with one id, where the listed neighbour stays out of a result that has room for it |
| HnswLayer.BeamExact | internal/vectorindex/hnsw.go:267-309 | when ef is at least the number of reachable nodes, the result holds at most one of them for each id and one for the id of every neighbour, and is exactly the reachable set if and only if ids tell its nodes apart |
| HnswLayer.CliqueVisited | internal/vectorindex/hnsw.go:267-309 | in a complete layer a search of any width visits every node |
| HnswIndex.Trim | internal/vectorindex/hnsw.go:337-345 | popping the max-heap down to max leaves max distinct entries, none farther from the node than any entry dropped |
| HnswIndex.HNSW.PruneNeighbors | internal/vectorindex/hnsw.go:327-347 | the list keeps its maxConn nearest entries; lists within the limit and other layers are untouched |
| HnswIndex.HNSW.LinkLayer | internal/vectorindex/hnsw.go:145-150 | the new node lists the selected candidates, each of them gets it appended and is pruned, every other list and layer is unchanged |
| HnswIndex.HNSW.Descend | internal/vectorindex/hnsw.go:134-138 | on every layer from the entry's down to the level above, the greedy descent goes on from where it ended on the layer before; the result is where it ends on the last of them |
| HnswState.WayEndsNearer | internal/vectorindex/hnsw.go:191-194 | the descent ends no farther from the query than the entry, at a node none of whose neighbours on the last layer it came through is nearer |
| HnswIndex.HNSW.JoinLayers | internal/vectorindex/hnsw.go:143-154 | every layer up to the lower of the two levels is searched and linked, the topmost from where the greedy descent ends, each one below from the best candidate of the layer above; layers above stay as they were |
| HnswIndex.HNSW.Attach | internal/vectorindex/hnsw.go:127-159 | the first node becomes the entry; later ones are linked layer by layer and replace the entry only with a greater level |
| HnswIndex.HNSW.Add | internal/vectorindex/hnsw.go:102-160 | errors exactly for an empty vector or a wrong length, then without any change; otherwise removes a node of the same id, inserts a fresh one, and keeps the structural invariant |
| HnswIndex.HNSW.RemoveNode | internal/vectorindex/hnsw.go:351-369 | detaches the node from those it lists on every layer, deletes it and promotes a highest survivor if it was the entry |
| HnswIndex.HNSW.PromoteEntry | internal/vectorindex/hnsw.go:360-368 | the entry is nil exactly when no node is left, and otherwise has the greatest level, in any iteration order |
| HnswIndex.HNSW.Remove | internal/vectorindex/hnsw.go:163-172 | a missing id changes nothing; otherwise the node is removed and the structural invariant kept |
| HnswIndex.HNSW.Search | internal/vectorindex/hnsw.go:175-208 | which inputs give an error or an empty answer; otherwise the first k of a beam search at least efSearch wide, from where the greedy descent through all upper layers ends, scored 1 minus distance |
| HnswExact.HitsDistinct | internal/vectorindex/hnsw.go:175-208 | no search answers an id twice |
| HnswLayer.SelectTakesNearest | internal/vectorindex/hnsw.go:314-323 | from the candidates of a search the nearest are selected, as many as fit |
| HnswIndex.HNSW.constructor | internal/vectorindex/hnsw.go:59-78 | defaults for non-positive parameters; an empty index satisfies the invariant |
| HnswState.InsertKeepsValid | internal/vectorindex/hnsw.go:102-160 | an insertion at any level keeps: entry nil iff empty and of greatest level, lists within maxConn, no duplicates, only nodes of at least the layer |
| HnswState.RemoveKeepsValid | internal/vectorindex/hnsw.go:351-369 | a removal keeps the same invariant |
| HnswState.RunValid | internal/vectorindex/hnsw.go:102-172 | the structural invariant holds after every run of Adds, Removes and replacements |
| HnswState.PruningInvariantOnAddRuns | internal/vectorindex/hnsw.go:143-154 | after any Add-only run: if y lists x on a layer and x does not list y, x's list is full and every node on it is at least as near to x as y is |
| HnswLayer.LinkedOneSided | internal/vectorindex/hnsw.go:327-347 | one insertion keeps that property of one-sided links on its layer |
| HnswState.AddRunsListOnlyLive | internal/vectorindex/hnsw.go:102-160 | Add-only runs list only live nodes |
| HnswLayer.RemoveRef | internal/vectorindex/hnsw.go:371-378 | removing from a list without duplicates removes exactly the target |
| HnswState.RemoveExact | internal/vectorindex/hnsw.go:351-378 | after a removal x still lists the removed node exactly when it did and was not listed by it; all other links are as before |
| HnswState.RemoveLeavesNoDanglingIff | internal/vectorindex/hnsw.go:351-378 | one removal leaves no link from a live to a removed node exactly when the removed node listed back everyone who listed it |
| HnswLinks.InsertKeepsMutual | internal/vectorindex/hnsw.go:143-154 | an insertion that finds no full list keeps the links among live nodes two-way on every layer |
| HnswLinks.RemoveKeepsMutual | internal/vectorindex/hnsw.go:351-378 | a removal keeps them two-way |
| HnswLinks.UnprunedRunsListOnlyLive | internal/vectorindex/hnsw.go:102-172 | runs of any length and size in which no insertion overflows a list leave no dangling link |
| HnswExact.LiveLinksAnswerLive | internal/vectorindex/hnsw.go:175-208 | where only live nodes are listed, every hit of every search is a live id with its true score, and the neighbours of the candidates are candidates or no nearer |
| HnswExact.AnswersLiveIffReachableLive | internal/vectorindex/hnsw.go:175-208 | hits are live with true scores when the nodes reachable from the start are live; asking for at least that many, with distinct ids, the answered nodes are live if and only if the reachable ones are |
| HnswDangling.NextNodePrunes | internal/vectorindex/hnsw.go:143-154 | one insertion into a full complete layer whose entry lies apart makes the entry's link to a node one-sided, for any m |
| HnswDangling.RemovalShadows | internal/vectorindex/hnsw.go:351-378 | removing that node leaves the entry's list, and the link to it, as they were |
| HnswDangling.InsertionKeepsShadow | internal/vectorindex/hnsw.go:143-154 | so does adding a node near the entry's list and far from the entry |
| HnswDangling.ShadowIsAnswered | internal/vectorindex/hnsw.go:175-208 | every search for the vector of a node the entry still lists answers its id and its own score, in the index or not |
| HnswDangling.ShadowHides | internal/vectorindex/hnsw.go:267-309 | and no search finds another node with that id |
| HnswDangling.RemovedIdIsReturned | internal/vectorindex/hnsw.go:175-208 | once such a node is removed, every search for its vector returns its id although it is no longer in the index |
| HnswDangling.SearchAnswersRemovedId | internal/vectorindex/hnsw.go:102-208 | a concrete trace for every m (the defaults 16, 200, 50 included): 2m + 2 Adds, one Remove, and Search answers the removed id with score 1 |
| HnswDangling.SearchAnswersReplacedVector | internal/vectorindex/hnsw.go:102-208 | with a replacement instead of the Remove, Search for the old vector answers the id at the old score 1 while its new vector scores 0.8, and no search finds the new node |
| HnswExact.InsertKeepsClique | internal/vectorindex/hnsw.go:143-154 | while a layer holds at most maxConn and efConstr live nodes, an insertion keeps it a complete graph |
| HnswExact.RemoveKeepsClique | internal/vectorindex/hnsw.go:351-378 | a removal keeps a complete layer complete |
| HnswExact.SmallAddRunsComplete | internal/vectorindex/hnsw.go:102-160 | after at most m0 + 1 Adds of fresh ids at any levels, layer 0 is a complete graph |
| HnswExact.SmallRunsComplete | internal/vectorindex/hnsw.go:102-172 | runs of Adds, Removes and replacements that never exceed m + 1 live nodes keep every layer a complete graph of live nodes |
| HnswExact.BeamIsTop | internal/vectorindex/hnsw.go:199-207 | the scores of the first k candidates are the k best scores of all visited nodes |
| HnswExact.SmallAddRunsExact | internal/vectorindex/hnsw.go:175-208 | after such an Add-only run Search returns the same scores as sorting all vectors and taking k |
| HnswExact.SmallRunsExact | internal/vectorindex/hnsw.go:175-208 | the same for mixed runs within m + 1 live nodes |
| HnswExact.CompleteSearchExact | internal/vectorindex/hnsw.go:175-208 | on a complete layer 0 of live nodes Search is exact and every hit names a live id with its true score |
| Ranking.DescendingUnique | internal/search/local.go:68 | sorting by descending score has one result: two descending arrangements of the same scores are equal |
| Ranking.TopFromPrefix | internal/search/local.go:68-72 | the best k can be taken from any descending part that no left-out score exceeds |
| Cosine.CosineDistance | internal/vectorindex/hnsw.go:84-97 | the loop computes one minus the normalised dot product, 1 for a zero vector |
| Cosine.CosineSimilarity | internal/store/store.go:261-275 | the loop computes the normalised dot product, 0 for unequal lengths or a zero vector |
| Cosine.SimilarityFromDistance | internal/vectorindex/hnsw.go:84-97 | one minus the index's distance is the store's similarity, and the distance is symmetric, zero vectors included |
| Cosine.NormZeroIff | internal/store/store.go:265-273 | only the zero vector has norm zero |
| Cosine.SimilarityZeroIff | internal/store/store.go:261-275 | the similarity is zero exactly when the dot product is, zero vectors included |
| Cosine.SimilarityBounded | internal/store/store.go:261-275 | a similarity lies between -1 and 1, by the Cauchy-Schwarz inequality |
| Cosine.CauchySchwarz | internal/store/store.go:266-270 | the square of the accumulated dot product is at most the product of the accumulated squares |
| Cosine.SimilarityToItself | internal/store/store.go:271-274 | a vector that is not zero has similarity 1 to itself |
| Cosine.SimilarityIgnoresLength | internal/store/store.go:271-274 | scaling a vector by a positive number changes no similarity |
| LocalSearch.BuildFromRows | internal/vectorindex/builder.go:46-53 | fails exactly when two non-empty vectors differ in length; otherwise the index holds exactly the non-empty vectors under their chunk ids, by one Add for each row in their order |
| LocalSearch.BuildFromStore | internal/vectorindex/builder.go:19-60 | the same for the rows of the first model; an empty index when there is no model |
| LocalSearch.SmallHistoryComplete | internal/vectorindex/builder.go:46-53 | an index loaded with at most 33 non-empty vectors has a complete layer 0 and holds exactly those rows |
| LocalSearch.CompleteRanksLikeScan | internal/search/local.go:41-52 | on such an index Search gives the k best cosine similarities of the rows, each hit naming a row with that similarity |
| LocalSearch.Scan | internal/search/local.go:53-77 | the brute-force branch returns the k best similarities, each result one of the rows, no row twice |
| LocalSearch.RetrieveChunks | internal/search/local.go:41-78 | a missing or empty index means the scan, which panics exactly for a negative topK; otherwise errors exactly for an empty query or a wrong length, and else returns, for an index of any size, exactly the chunks of the hits of a search, in order; the k best when layer 0 is complete |
| LocalSearch.ChunksOfMembers | internal/search/local.go:46-52 | the chunks of some hits are those, and only those, whose chunk is still in the store |
| LocalSearch.ChunksOfKnown | internal/search/local.go:46-52 | when all are, chunk i is that of hit i with its score |
| LocalSearch.BranchesAgree | internal/search/local.go:41-78 | for at most 33 vectors of the query's length, the index branch and the brute-force branch return the same scores |
| Louvain.Graph.constructor | internal/community/louvain.go:23-54 | for any weights the matrix is the sum of the resolved edges, symmetric, of total 2m with self-loops counted twice; unknown endpoints skipped, zero weights read as one; weights that are not negative give positive edges |
| Louvain.PositiveWeighs | internal/community/louvain.go:48-51 | positive edges give a non-negative matrix and total |
| Louvain.EdgeWeighs | internal/community/louvain.go:48-51 | adding a weight in both directions keeps the matrix the sum of the edges and its total twice the total weight |
| Louvain.NodeDegree | internal/community/louvain.go:164-170 | the loop sums the row |
| Louvain.NeighborComms | internal/community/louvain.go:116-121 | the map has exactly the communities of positive-weight neighbours, with the weight from the node into each |
| Louvain.BestComm | internal/community/louvain.go:126-138 | no neighbouring community has a greater gain than the one chosen, and it is left only for a positive gain, in any iteration order |
| Louvain.Visit | internal/community/louvain.go:110-146 | a node stays because no neighbouring community offers a positive gain, or moves to one of greatest gain; sigmaTot stays the sum of its members' degrees |
| Modularity.ModularityOfMove | internal/community/louvain.go:126-136 | moving node i changes modularity by 2 * gain + 2 * A[i][i] / 2m, gain as the code computes it |
| Modularity.PositiveGainRaisesModularity | internal/community/louvain.go:126-143 | for symmetric non-negative weights a positive gain implies a strict increase of modularity |
| Louvain.VisitImproves | internal/community/louvain.go:110-146 | every visit keeps labels in range and blocks inside connected components, and a move strictly raises modularity |
| Louvain.Pass | internal/community/louvain.go:107-147 | a pass visits every node exactly once, in any order, each on the labelling the visits before left; one that reports an improvement raised modularity, one that does not changed nothing and the labelling is a local optimum |
| Louvain.Climb | internal/community/louvain.go:105-148 | under any cap the loop ends in a local optimum or after exactly maxIter full passes, each of which raised modularity; a cap above n^n is never reached |
| Labelings.AtMostAll | internal/community/louvain.go:105-148 | at most n^n distinct labellings exist, the measure that ends the loop |
| Labelings.Renumber | internal/community/louvain.go:150-161 | the same blocks, with labels 0..k-1 in order of first occurrence |
| Labelings.CanonicalUnique | internal/community/louvain.go:150-161 | that labelling is determined by the blocks alone |
| Louvain.SameOptimum | internal/community/louvain.go:150-161 | renumbering keeps a local optimum one |
| Louvain.SameModularity | internal/community/louvain.go:150-161 | renumbering keeps modularity |
| Louvain.Louvain | internal/community/louvain.go:74-162 | the renumbered outcome of that loop, whatever the cap: canonical labels whose blocks lie inside connected components, modularity no lower than with singletons, a local optimum whenever the cap exceeds n^n |
| Hierarchy.SuperAdjacency | internal/community/louvain.go:197-211 | the super-matrix adds up exactly the edges that leave their community, in both directions |
| Hierarchy.SuperEdges | internal/community/louvain.go:213-220 | exactly one raw edge for each pair of communities with weight between them, and no other |
| Hierarchy.SuperGraphWeighs | internal/community/louvain.go:197-222 | with different names, the super-graph weighs between two nodes what all edges between their members weigh |
| Hierarchy.OneNameSeparates | internal/community/louvain.go:174-246 | when all nodes of a graph carry one name every edge becomes a self-loop and each node keeps a label of its own |
| Hierarchy.SuperEdgesLift | internal/community/louvain.go:202-222 | positive weight between two super-nodes comes from an edge between their members |
| Hierarchy.MergedStayJoined | internal/community/louvain.go:222-230 | merging communities along such edges stays inside the connected components of the original graph |
| Hierarchy.NextLevel | internal/community/louvain.go:190-230 | the next level coarsens the present one; one name for all super-nodes merges nothing; with different names the communities are merged as Louvain groups them on the graph they form |
| Hierarchy.NextStaysJoined | internal/community/louvain.go:190-230 | so merged communities stay inside connected components |
| Hierarchy.HierarchicalLouvain | internal/community/louvain.go:174-246 | the first level is Louvain's; each further one coarsens the previous into strictly fewer communities, so the loop ends by that measure, and stops only at the cap, at one community or where the next would not merge; with one name there is one level |
| Hierarchy.Levels | internal/community/louvain.go:194 | with the names the code builds (all empty) the result is always exactly one level, that of Louvain |
| GraphWalk.BallIsWalks | internal/store/store.go:842-927 | the bounded ball is exactly what walks of at most d relationships, in either direction, reach |
| GraphWalk.QueryChunk | internal/store/store.go:866-921 | querying the document list in chunks of any positive size adds precisely the in-scope rows of the frontier chunk |
| GraphWalk.Hop | internal/store/store.go:859-923 | a hop over the chunked frontier adds every in-scope row at it once and queues exactly the endpoints not visited before |
| GraphWalk.RelationshipsForEntityInDocs | internal/store/store.go:842-927 | without duplicates, precisely the in-scope relationships with an endpoint at distance below depth, for any positive chunk sizes; nothing for no documents |
| GraphWalk.RelationshipsForEntity | internal/store/store.go:785-829 | the unscoped relationships with an endpoint at distance below depth, each repeated once for every distinct endpoint distance below depth |
| GraphWalk.EndDistancesAtMostTwo | internal/store/store.go:785-829 | so none appears more than twice |
| GraphWalk.SphereUnique | internal/store/store.go:785-829 | an entity is at one distance only |
| GraphWalk.EntitiesForDocs | internal/store/store.go:649-696 | each entity at an end of an in-scope relationship once and no other, for any positive chunk size |
| GraphWalk.LocalIffWalkNonEmpty | internal/store/store.go:649-696 | an entity belongs to the documents exactly when the scoped walk from it returns anything |
| GraphWalk.WalkTouchesLocalEntities | internal/store/store.go:842-927 | every entity the scoped walk touches belongs to the documents |
| DocVersions.Store.GetDocumentByPath | internal/store/store.go:409-412 | the latest row of the path, or none exactly when there is none |
| DocVersions.Store.SupersedeDocument | internal/store/store.go:335-338 | clears the latest flag of that row and nothing else |
| DocVersions.Store.UpsertDocument | internal/store/store.go:303-332 | refused exactly when another row has the hash, then without change; otherwise writes the row, version 0 as 1 |
| DocVersions.Store.GetDocumentVersions | internal/store/store.go:341-358 | exactly the rows with that id or canonical id, once each, by ascending version |
| DocVersions.FoundIsLatest | internal/store/store.go:409-412 | in a valid table the row found is determined by the path |
| DocVersions.VersionsAreChain | internal/store/store.go:341-358 | asked by a stable identifier, version k + 1 of the chain stands at position k and nothing else is listed |
| DocVersions.InsertedVersion | internal/pipeline/pipeline.go:971-980 | the new row continues the chain of the retired row with the next version, or starts a chain of one; the table stays valid |
| DocVersions.IngestEffect | internal/pipeline/pipeline.go:278-324 | from the supersede on: indexed exactly when the file loads into chunks and no row has its hash, and only then does the path have a latest row afterwards |
| DocVersions.Pipeline.IndexFile | internal/pipeline/pipeline.go:230-324 | one call leads to exactly the table and outcome of the specification and keeps the table valid |
| DocVersions.IndexFileEffect | internal/pipeline/pipeline.go:230-324 | what each outcome leaves behind: no change, a refreshed mtime, no latest row, or a new latest row |
| DocVersions.IndexFileFrame | internal/pipeline/pipeline.go:230-324 | of the rows there were only the path's latest can change: it is retired, or its mtime refreshed when the content is as before; the row added carries the file's path, hash and mtime |
| DocVersions.UnchangedFileIsSkipped | internal/pipeline/pipeline.go:249-277 | indexing a just indexed file again skips it and changes nothing |
| DocVersions.TouchedFileIsRefreshed | internal/pipeline/pipeline.go:265-277 | a touched file with old content is skipped by its hash, and by its refreshed mtime the next time |
| DocVersions.IndexedIff | internal/pipeline/pipeline.go:230-324 | a new version appears if and only if the file can be read and loaded, its hash is new, and no mtime hit skips it |
| DocVersions.Pipeline.IndexRawDoc | internal/pipeline/pipeline.go:983-1023 | the same for pre-loaded pages |
| DocVersions.IndexRawDocEffect | internal/pipeline/pipeline.go:983-1023 | a page is indexed if and only if it loads into chunks and its hash is new; a path keeps a latest row only if indexed or skipped |
| DocVersions.IndexRawDocFrame | internal/pipeline/pipeline.go:983-1023 | only the path's latest row can change, by being retired; the row added carries path and hash |
| DocVersions.ForcedReindexLosesLatest | internal/pipeline/pipeline.go:278-324 | forcing unchanged content always ends in the hash clash and leaves the path without a latest row |
| DocVersions.NewChainAfterLoss | internal/pipeline/pipeline.go:971-980 | the next success on such a path starts a new chain at version 1 |
| DocVersions.RunValid | internal/pipeline/pipeline.go:230-324 | in every table of every run: unique hashes, at most one latest row per path, chains with versions 1..n of which only the highest can be latest |
| DocVersions.IndexedAtMostOnce | internal/store/store.go:150 | over every run no content is indexed twice, under any path, forced or not |
| EventLog.StepKeepsInv | internal/api/handlers.go:800-926 | every step of an appender, finisher, canceller or streamer keeps the invariant of logs and streams |
| EventLog.RunInv | internal/api/handlers.go:800-926 | it holds at every moment of every interleaving |
| EventLog.OutputIsPrefix | internal/api/handlers.go:893-920 | what a streamer has written is always a prefix of the log it attached to: no gap, no duplicate |
| EventLog.OneLogUntilCleared | internal/api/handlers.go:800-852 | from any use of a job until a terminal stream clears it, every append, finish and attach of the job concerns the one log it has |
| EventLog.LogHoldsWritten | internal/api/handlers.go:800-824 | every log holds exactly the events written to it, in order |
| EventLog.LogsHaveOwners | internal/api/handlers.go:826-841 | a log is only ever written for, and streamed to, the job it was made for |
| EventLog.JobLogHoldsAll | internal/api/handlers.go:800-841 | until a stream clears it, a job's log holds exactly the events written for the job, in order |
| EventLog.StreamIsJobPrefix | internal/api/handlers.go:874-920 | so a stream's output is a prefix of the events written for its job, in order |
| EventLog.EarlierEventsAreSent | internal/api/handlers.go:874-925 | and what was logged before a stream attached has been sent by the time it waits or ends by terminal |
| EventLog.TerminalStreamClears | internal/api/handlers.go:922-925 | a stream that ends by terminal drops its job's log |
| EventLog.TerminalDeliveredDone | internal/api/handlers.go:901-925 | a stream that ended by terminal has written a Done event |
| EventLog.NoLostWakeUp | internal/api/handlers.go:895-897 | a waiting streamer has written the whole log, the log is not done, and a cancelled request still has its broadcast to come |
| EventLog.StreamerNeverStuck | internal/api/handlers.go:893-926 | a streamer that neither waits nor has ended can always take a step |
| EventLog.CheckTakesAll | internal/api/handlers.go:894-902 | a streamer waits exactly when it has sent the whole log, the log is not done and the request not cancelled; otherwise it takes all that is left |
| EventLog.LogsGrow | internal/api/handlers.go:800-824 | logs only grow and stay done |
| EventLog.JobProgressLog.AppendEvent | internal/api/handlers.go:805-808 | the critical section realises the append step |
| EventLog.JobProgressLog.FinishEvent | internal/api/handlers.go:818-823 | the critical section marks the event and the log done |
| EventLog.JobProgressLog.Snapshot | internal/api/handlers.go:894-902 | the critical section decides waiting and takes batch, cursor and terminal exactly as the streamer's step does |
| EventLog.Handlers.GetOrCreateEventLog | internal/api/handlers.go:828-841 | the job's log if it has one, else a fresh empty one that becomes its log |
| EventLog.Handlers.AppendEvent | internal/api/handlers.go:800-809 | the event goes to the end of its job's log and no other log changes; nothing for an empty job id |
| EventLog.Handlers.FinishEvent | internal/api/handlers.go:813-824 | the same with the event and the log marked done |
| EventLog.Handlers.ClearEventLog | internal/api/handlers.go:845-852 | drops that job's log and nothing else |
| SseStream.ParseSseChunk | ui/src/hooks/api/useUploadProgress.ts:57-99 | the loop returns the events of the complete frames and the unfinished tail |
| SseStream.FramesAppend | ui/src/hooks/api/useUploadProgress.ts:63-67 | frames of a concatenation are those of the first part followed by those of its rest with the second |
| SseStream.FramesAreTheBuffer | ui/src/hooks/api/useUploadProgress.ts:63-67 | nothing is lost or made up: frames with their blank lines and then the tail are the buffer again, and none of them has a blank line in it |
| SseStream.ChunkingIrrelevant | ui/src/hooks/api/useUploadProgress.ts:185-190 | feeding a stream in arbitrary chunks and carrying the rest forward gives the events and the rest of parsing it whole |
| SseStream.WriteBatch | internal/api/handlers.go:908-919 | the server writes one frame for each event of the batch |
| SseStream.LinesOfJoin | ui/src/hooks/api/useUploadProgress.ts:70 | splitting at newlines undoes joining with them |
| SseStream.LineSays | ui/src/hooks/api/useUploadProgress.ts:71-75 | a line says data with or without a space after the colon; other fields and comments say nothing |
| SseStream.TrimIs | ui/src/hooks/api/useUploadProgress.ts:78 | trimming takes the white space at both ends and nothing else |
| SseStream.TextComesBack | ui/src/hooks/api/useUploadProgress.ts:68-97 | a text of any number of lines, sent as data lines between lines of other fields, is read as that text, trimmed; a blank one is no event |
| SseStream.FrameInFront | ui/src/hooks/api/useUploadProgress.ts:63-97 | a server frame in front of a stream adds exactly what its payload comes to |
| SseStream.LegacyFrame | ui/src/hooks/api/useUploadProgress.ts:86-96 | a frame of plain text adds one message: "done" ends the stream, "error: m" ends it with m, any other text does not |
| SseStream.StreamRoundTrip | ui/src/hooks/api/useUploadProgress.ts:57-99 | parsing the server's concatenated frames returns the events in order and leaves no rest |
| SseStream.DeliveredInOrder | ui/src/hooks/api/useUploadProgress.ts:185-190 | the same for any chunking of them |
| SseStream.ApplyUntilDone | ui/src/hooks/api/useUploadProgress.ts:191-198 | events are applied up to and including the first done one |
| SseStream.UpToDoneAppend | ui/src/hooks/api/useUploadProgress.ts:191-198 | stopping at the first done event commutes with concatenation |
| SseStream.ReadLoop | ui/src/hooks/api/useUploadProgress.ts:185-199 | the whole read loop applies the events of the whole stream up to the first done one, however it was chunked |
| IndexCache.BuiltAtMostOnce | internal/api/vector_indexes.go:54-98 | over every interleaving of ForProject calls without Invalidate, Set or failure a slug is built at most once |
| IndexCache.AnswersComeFromTheBuild | internal/api/vector_indexes.go:54-98 | and everyone who got an answer got the index that a build of the slug made |
| IndexCache.StaleOnlyFromEarlierRead | internal/api/vector_indexes.go:114-124 | after an Invalidate with no later Set, an older index is cached, or returned to a call that was open then or came later, only if its build had read an older store before the Invalidate |
| IndexCache.FreshAfterInvalidateIff | internal/api/vector_indexes.go:114-124 | whatever follows an Invalidate but a Set, every open or later call gets an index no older than it, if and only if no build of the slug that has read an older store is yet to write back |
| IndexCache.WriteBackIsServed | internal/api/vector_indexes.go:81-90 | from any state with such a build, Invalidate, the write-back and one call serve the older index |
| IndexCache.StaleWriteBack | internal/api/vector_indexes.go:81-90 | a ten-step run in which the condition fails and a call made after the Invalidate gets the old index |
| IndexCache.AnswersAreReal | internal/api/vector_indexes.go:54-124 | over every run, failures, Sets and Invalidates included: an answer was set or is the result of a build of its slug from a version the store has had, and nil is answered only when such a build failed |
| IndexCache.SetIsServed | internal/api/vector_indexes.go:102-109 | until the slug is set, invalidated or written back again, every call made after a Set gets the index set |
| IndexCache.CallsShareFlight | internal/api/vector_indexes.go:65-92 | until a flight closes or its slug is invalidated, every call of the slug that does not find an index joins it |
| IndexCache.CallNeverStuck | internal/api/vector_indexes.go:54-98 | in every reachable state an open call or its flight can take a step that brings it nearer to its return, at most seven in all, and no step of anyone sets it back |
| IndexCache.NobodyJoinsFinished | internal/api/vector_indexes.go:65-92 | no call joins a flight that is over: after a failed build the next call starts another |
| IndexCache.VectorIndexes.Get | internal/api/vector_indexes.go:58-63 | the locked lookup realises the lookup step |
| IndexCache.VectorIndexes.Put | internal/api/vector_indexes.go:102-109 | the locked assignment realises the Set step |
| IndexCache.VectorIndexes.Evict | internal/api/vector_indexes.go:114-124 | eviction and Forget realise the Invalidate step |
| WorkQueue.New | internal/workq/workq.go:54-75 | at least one worker and more slots than workers; sixteen extra slots by default |
| WorkQueue.StepKeepsInv | internal/workq/workq.go:79-151 | every step of a submitter, closer or worker keeps the invariant of locks, jobs and draining |
| WorkQueue.NeverSendsOnClosed | internal/workq/workq.go:79-125 | over every interleaving no Submit sends on the closed channel |
| WorkQueue.JobsConserved | internal/workq/workq.go:79-151 | accepted = queued + running + finished, and no job is started twice, panics included |
| WorkQueue.StartedInOrder | internal/workq/workq.go:140-151 | jobs start in the order in which they were accepted |
| WorkQueue.Bounded | internal/workq/workq.go:62-73 | never more than Workers + QueueDepth jobs queued, nor more than Workers running |
| WorkQueue.NothingAcceptedAfterClose | internal/workq/workq.go:79-125 | once the pool is closed nothing more is accepted |
| WorkQueue.CloseNilMeansDrained | internal/workq/workq.go:119-138 | Close returns nil only when every accepted job has finished |
| WorkQueue.RejectedCountsFull | internal/workq/workq.go:93-94 | the counter equals the number of ErrQueueFull results |
| WorkQueue.RefusedMetFullQueue | internal/workq/workq.go:89-95 | every refused Submit met, at its send, a queue of exactly Workers + QueueDepth jobs |
| WorkQueue.ErrClosedMetClosed | internal/workq/workq.go:84-88 | every ErrClosed was answered by a pool that was closed at the check |
| WorkQueueProgress.RunsAreBounded | internal/workq/workq.go:79-151 | every step but a new call uses up work: a run has at most seven steps for each call and one for each worker |
| WorkQueueProgress.RestMeansDone | internal/workq/workq.go:79-151 | no deadlock: when nothing but new calls and time-outs can happen, every call has returned, every accepted job has finished and a closed pool has no worker left |
| WorkQueue.Pool.Submit | internal/workq/workq.go:79-96 | the method runs exactly the steps of an undisturbed Submit |
| WorkQueue.Pool.GetStats | internal/workq/workq.go:108-113 | depth and rejections of the state |
| WorkQueue.Pool.CloseChannels | internal/workq/workq.go:120-125 | the two assignments realise the CloseFlag and CloseJobs steps of the call that holds the write lock |
| Frontmatter.TrimFMDelim | internal/notes/frontmatter.go:93-111 | the loop consumes `---`, blanks, an optional return and a newline, or returns its input |
| Frontmatter.FindClosingDelim | internal/notes/frontmatter.go:115-138 | the loop returns the start of the closing line the specification finds, or -1 |
| Frontmatter.ClosesAtIff | internal/notes/frontmatter.go:113-131 | a closing line is `---` at the start of a line with only blanks and returns after it |
| Frontmatter.ClosingIsFirst | internal/notes/frontmatter.go:115-138 | that is the first line start whose line right-trims to `---`, and there is none when it reports none |
| Frontmatter.ParseFrontmatter | internal/notes/frontmatter.go:24-62 | parsing is total and computes the specification on every input |
| Frontmatter.AfterDelimIff | internal/notes/frontmatter.go:93-111 | a delimiter line is consumed exactly where there is one: dashes, blanks, an optional return, a newline |
| Frontmatter.ParseBetween | internal/notes/frontmatter.go:24-62 | on any input with an opening and a first closing line: fails exactly for malformed text that is not blank, is the empty map for blank or null text, else the map it decodes to |
| Frontmatter.ParseWithout | internal/notes/frontmatter.go:30-42 | without an opening line, or a closing one after it, the whole input is the body |
| Frontmatter.EncodeFrontmatter | internal/notes/frontmatter.go:68-89 | the buffer holds delimiter, YAML, delimiter and body; the body alone for the empty map |
| Frontmatter.RoundTrip | internal/notes/frontmatter.go:24-89 | parsing an encoded non-empty map returns the map and the body less one leading newline |
| Frontmatter.BodyExactIff | internal/notes/frontmatter.go:48-51 | the body comes back unchanged if and only if it does not start with a newline |
| Frontmatter.EmptyMapRoundTripIff | internal/notes/frontmatter.go:68-71 | for the empty map exactly when the body does not itself parse as frontmatter |
| Frontmatter.ClosingAfterYaml | internal/notes/frontmatter.go:115-138 | the closing line is found right after the YAML if and only if no line of the YAML right-trims to `---` |
| Frontmatter.ClosingConsumedIff | internal/notes/frontmatter.go:46-51 | the closing line is removed from the body if and only if it ends in a newline and has no return except right before it |

## Left out

- LLM calls, prompts, embedding requests, chunking, document loaders, crawling and file walking: what they yield is a parameter.
- HTTP routing, headers, sessions, authentication, metrics, logging, configuration and the legacy plain-text stream: plumbing.
- SQL text, database failures other than the UNIQUE clash, the limit on query variables, full-text search and vector extensions: foreign code.
- Titles, document types, timestamps and the structured column of a document row: no branch depends on them.
- What follows the insert in indexFile and indexRawDoc (chunks, embeddings, claims): a failure there leaves the document row as modelled.
- Two concurrent calls indexing one path: the calls of a run are taken one after the other.
- Deleting and pruning documents: they would add one easy step to the runs.
- The graph-walk half of LocalSearch: `EntitiesForDocs` and the walks themselves are modelled, the assembly of their rows is not.
- YAML, JSON, `container/heap` and single-flight internals, and errors of the YAML encoder: contracts stand for them.
- Floating-point rounding, NaN and integer width; the distribution of random levels, and the infinite factor NewHNSW computes for m = 1.
- The read-write lock of the index: its methods run one at a time.
- Distances between vectors of different lengths: the index never computes one, so the metric's value there is arbitrary.
- Fairness of the scheduler: that steps which can be taken are taken; that they can be, and bring calls and jobs to their end, is proved.
- React hooks, the store's listeners and the user interface around the stream; bytes to text decoding.
- Louvain.Louvain: negative weights, which NewGraph accepts, are outside its results; a positive gain then need not raise modularity, as `A[i][i]` may be negative.
- LocalSearch.BranchesAgree: compares scores, as the order of equal scores is left open by both branches.
- WorkQueue.Pool.Submit: states the undisturbed call; the interleaved one is the subject of the step lemmas.
- IndexCache.BuiltAtMostOnce: a failing build is excluded, because every waiter then gets nil and the next call builds again.
