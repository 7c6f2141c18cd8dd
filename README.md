# Weighted PageRank, modelled in Dafny

This project models the Go package `pagerank` (file `pagerank.go`). That package ranks the nodes of a weighted directed graph with the weighted PageRank algorithm.

A `Graph` keeps two tables:

- `edges` maps a source to its targets and the accumulated weight of each edge.
- `nodes` maps an id to a record holding the node's current rank (`weight`) and the total weight of its outgoing edges (`outbound`).

The operations are:

- `Link` creates the endpoints of an edge when they are new, adds the weight to the source's `outbound`, and adds the weight to the edge.
- `Reset` empties both tables.
- `Rank` works in four phases:
  1. It divides each outgoing weight of a source with positive `outbound` by that `outbound`.
  2. It sets every rank to 1/N.
  3. It repeats the PageRank step while the total absolute change Δ exceeds ε. Δ starts at 1.
  4. It reports every node with its rank.

The step works as follows. Each node first records its rank and has it zeroed. The ranks of the dangling nodes (outbound zero) are summed and scaled by α. Then, source by source, each source sends α·rank·weight along each of its edges, and right after its own sends it receives its share: (1-α)/N plus its 1/N part of the scaled dangling mass.

The model has two files.

`sums.dfy` (module `Sums`) defines finite sums of reals over a set of keys. The sum picks an arbitrary key first, and the lemmas show that the pick does not matter. This is what lets a loop that visits a Go map in any order be proved against one sum.

`pagerank.dfy` (module `PageRank`) contains:

- the `Node` record;
- pure functions stating what each phase computes (`LinkNodes`, `LinkEdges`, `Normalized`, `Initialized`, `Step`, `Steps`, `Delta`);
- the lemmas about those functions;
- the class `Graph`, whose methods carry the source's loops as `while` loops, with the invariants that tie them to the functions.

Arithmetic is exact (`real`).

The two results that carry the most weight:

- `Link` keeps the store closed: every endpoint of an edge is a node. It also keeps it balanced: each `outbound` equals the total of its row.
- On a balanced store without negative outbound, normalisation makes every row sum to 1, or to 0 for a dangling node. Single normalised weights can still be negative or above 1 when Link was given negative weights. On such a store that is also non-empty, one step maps total mass m to α·m + 1 − α, so starting from mass 1, every step keeps mass 1, and `Graph.Rank` ends with mass 1. An empty store has mass 0 throughout.

On an empty graph the code divides 1 by zero nodes, producing +Inf. That value is never read. When ε < 1, one pass is taken and gives Δ = 0 (`EmptyGraphSettles`), so the loop ends when 0 ≤ ε, and nothing is reported. When ε < 0, the source loops forever. The code raises no error for an empty graph, and neither does the model. It reports `Ranked` with no ranks when 1 ≤ ε, or when 0 ≤ ε and the step bound is at least 1. Otherwise it reports `OutOfFuel`. `Inverse(0)` is 0.

## Model

| member | source | states |
|---|---|---|
| PageRank.LinkNodes | pagerank.go:31-46 | The node table after a link has exactly the old ids plus source and target. Source's outbound grows by exactly the weight. A new target starts with rank 0 and outbound 0. Every existing record other than source's is unchanged, and no rank changes. |
| PageRank.LinkEdges | pagerank.go:48-52 | The edge table gains the row of source (when it was missing) and the edge source→target. That edge's weight grows by exactly the weight. Every other edge and every other row is unchanged. |
| PageRank.RowTotalBump | pagerank.go:52 | Adding w at one key of a row (created at 0 when missing) adds exactly w to the row's total. |
| PageRank.LinkPreservesStore | pagerank.go:31-53 | Link keeps every endpoint of an edge a node. On a balanced store, it keeps each node's outbound equal to the total weight of its outgoing edges. |
| PageRank.LinkEdgesTwice | pagerank.go:48-52 | Linking the same pair twice leaves the same edge table as linking it once with the sum of the two weights. |
| PageRank.LinkNodesTwice | pagerank.go:31-46 | Linking the same pair twice leaves the same node table as linking it once with the sum of the two weights. |
| PageRank.ScaledTotal | pagerank.go:67-69 | Dividing every weight of a row by d divides the row's total by d. When d is the row's total, the new total is 1. |
| PageRank.NormalizedRows | pagerank.go:64-71 | After normalisation, the row of a node with positive outbound sums to 1 on a balanced store, and the row of any other node is untouched. Every endpoint stays a node. |
| PageRank.NormalizedIsStochastic | pagerank.go:64-71 | On a closed, balanced store without negative outbound, the normalised rows sum to 1, except for dangling nodes (outbound zero), whose rows sum to 0. |
| PageRank.InitializedMass | pagerank.go:73-75 | Setting every rank of a non-empty graph to 1/N puts total mass exactly 1 on it. |
| PageRank.FlowIntoAsSum | pagerank.go:93-97 | What target receives from a set of sources, taken in any order, is the sum over those sources of rank·α·weight. |
| PageRank.InflowIsTotal | pagerank.go:93-97 | A node's inflow in one step is the total of what every node sends to it. |
| PageRank.ReceivedAdd | pagerank.go:93-99 | One more pass of the outer loop adds the source's flow to each target, plus the share to the source itself. |
| PageRank.StepFromPhases | pagerank.go:78-99 | A table whose ranks are each node's inflow plus the common share, with unchanged outbounds, is the table after one step. |
| PageRank.OutflowTotal | pagerank.go:94-96 | The total a source sends along its edges in one step is α·rank·(total of its row). |
| PageRank.FlowConserved | pagerank.go:93-97 | Mass is conserved along edges: the total received along edges equals the total sent along them. |
| PageRank.OutflowOfStochastic | pagerank.go:81-97 | When dangling rows weigh nothing and the other rows sum to 1, the total sent is α times the mass not held by dangling nodes. |
| PageRank.InflowMass | pagerank.go:78-97 | On a closed, stochastic store, the total inflow of one step is α·(mass − dangling mass). |
| PageRank.StepMassParts | pagerank.go:93-99 | The mass after a step is the total inflow plus one share per node. |
| PageRank.SharesTotal | pagerank.go:91-98 | On a non-empty graph, the N shares add up to (1 − α) + α·(dangling mass). |
| PageRank.StepMass | pagerank.go:77-106 | On a closed, stochastic, non-empty store, one step maps total mass m to α·m + 1 − α, so mass 1 stays 1. |
| PageRank.DeltaZeroIffUnchanged | pagerank.go:101-105 | Δ (`Delta`, the total of `Changes`) is never negative. It is zero if and only if no rank changed. |
| PageRank.Changes | pagerank.go:103-105 | Defines each node's absolute rank change. Each change is never negative, and it is zero exactly when the node's rank did not change. |
| PageRank.Normalized | pagerank.go:64-71 | Defines the edge table after normalisation: a row whose source has positive outbound is divided by that outbound, and every other row is kept. It keeps every source and every target. |
| PageRank.Inverse | pagerank.go:62 | The share of one node among N: a positive number whose product with N is 1 when N > 0, and 0 when N = 0, where the source computes +Inf and never reads it. |
| PageRank.Initialized | pagerank.go:73-75 | Defines the node table with every rank set to the share. It keeps every id and every outbound. |
| PageRank.Dangling | pagerank.go:84-86 | Defines the dangling nodes: exactly the nodes whose outbound is zero. |
| PageRank.Step | pagerank.go:78-99 | Defines the table after one step: each new rank is α·Σₛ rank(s)·edge(s, t) + (1−α)/N + α·leak/N, where leak is the dangling mass (`Inflow`, `Share`, `Teleport`, `Leak`). It keeps every id and every outbound. |
| PageRank.StepsKeep | pagerank.go:77-106 | Any number of steps (`Steps`) keeps every id and every outbound. |
| PageRank.StepsMass | pagerank.go:77-106 | On a closed, non-empty store whose rows sum to 1 (0 for dangling nodes), mass 1 stays 1 after any number of steps. |
| PageRank.PassAdvance | pagerank.go:77-106 | One step after k steps is step k + 1, and its Δ is pass k + 1's Δ (`PassDelta`). |
| PageRank.EmptyGraphSettles | pagerank.go:61-106 | On an empty graph every pass has Δ = 0. |
| PageRank.Graph.constructor | pagerank.go:22-27 | A new graph has no node and no edge. It is closed and balanced. |
| PageRank.Graph.Link | pagerank.go:31-53 | The tables become LinkNodes/LinkEdges of the old ones. The store stays closed, and stays balanced when it was. |
| PageRank.Graph.AddNode | pagerank.go:32-37 | Creates the id with rank 0 and outbound 0 only when it is missing. An existing record is kept. |
| PageRank.Graph.AddEdgeWeight | pagerank.go:48-52 | Creates the row, then the edge at 0 when missing, and adds the weight to the edge. |
| PageRank.Graph.Reset | pagerank.go:114-117 | Both tables become empty. The store is closed and balanced again. |
| PageRank.Graph.Rank | pagerank.go:60-111 | The edges become the normalised edges, and the ids and outbounds are kept. The final table is exactly `steps` steps applied to the 1/N table. A first pass is taken only when 1 > ε, and every pass before the last changed the ranks by more than ε. `Ranked` means the last pass's Δ is at most ε, or that no pass was needed because 1 ≤ ε. It then reports exactly the final ranks. `OutOfFuel` means the step bound was reached while Δ was still above ε. On a balanced, non-negative, non-empty store the final mass is 1. |
| PageRank.Graph.Converge | pagerank.go:77-110 | The loop keeps the edges and outbounds. The final table is exactly `steps` steps applied to the starting table. Every pass before the last had Δ > ε, and a first pass was taken only when 1 > ε. It reports `Ranked` exactly when the last Δ (1 before any pass) is at most ε, with every node's final rank. Otherwise the step bound was reached and it reports `OutOfFuel`. Mass 1 on rows summing to 1 (0 for dangling nodes) is preserved. |
| PageRank.Graph.Advance | pagerank.go:78-105 | One more pass turns the table after k steps into the table after k + 1 steps, and returns that pass's Δ. Ids and outbounds are kept, and so is mass 1. |
| PageRank.Graph.Normalize | pagerank.go:64-71 | The loop over sources leaves exactly the normalised edge table and keeps the nodes. |
| PageRank.Graph.ScaleRow | pagerank.go:67-69 | The loop over one row divides every weight in it by the outbound. Every other row is unchanged. |
| PageRank.Graph.Initialize | pagerank.go:73-75 | Every node's rank becomes the share, with edges and outbounds unchanged. |
| PageRank.Graph.Iterate | pagerank.go:78-105 | One pass of the outer loop leaves exactly the table after one step. It returns exactly Δ between the old and the new ranks. |
| PageRank.Graph.Snapshot | pagerank.go:78-89 | Records every old rank, returns the sum of the ranks of the dangling nodes, and zeroes every rank. |
| PageRank.Graph.Spread | pagerank.go:93-99 | Starting from zero ranks, every node ends with its inflow plus the common share. |
| PageRank.Graph.SpreadFrom | pagerank.go:94-98 | One source sends along its edges and then receives its share. |
| PageRank.Graph.SendFrom | pagerank.go:94-96 | Adds α·rank(source)·weight to the rank of the target of every edge leaving source. No other rank changes. |
| PageRank.Graph.TotalChange | pagerank.go:101-105 | Returns exactly the sum over all nodes of the absolute change of the rank. |
| PageRank.Graph.Emit | pagerank.go:108-110 | Reports every node exactly once, with its current rank. |
| Sums.SumOverRemove | pagerank.go:81-86 | A sum over a set does not depend on which key is taken first, so a loop over a map in any order computes the same sum. |

## Left out

- Floating point: ranks and weights are exact reals. Rounding, overflow, NaN and infinities of `float64` are not modelled.
- Graph.Rank: the source loops until Δ ≤ ε and may never stop. The model takes a step bound and reports `OutOfFuel` when the bound is reached first. Convergence itself (that Δ eventually falls below ε for 0 < α < 1) is not proved.
- Graph.Rank: the callback is foreign code. The model returns the map of final ranks instead of calling it once per node, so the order of the calls is not modelled.
- Map iteration order: each loop over a Go map picks its next key with an unconstrained choice. The contracts hold for every order. Which order the Go runtime uses is not modelled.
- Pointer identity: the source keeps `*node` pointers and updates them in place. The model keeps node records as values in a map that is reassigned. No pointer is ever shared, so nothing aliases.
- Inverse: 1/0 (+Inf) for an empty graph is modelled as 0. The value is never read.
- Graph.Rank: mass 1 is promised only for a store that is balanced (each outbound equals its row's total) with no negative outbound on entry. A second Rank divides the already normalised edges by the unchanged outbound again, so the rows no longer sum to 1 and the mass result does not apply. Idempotence of repeated ranking is not claimed.
- Negative weights are allowed by Link. Every Link contract holds for them, and so do the mass results as long as no node's outbound is negative. The mass results exclude only stores where some node's outbound is negative.
- Mass after convergence in the O(N·ε) sense concerns floating point. Here mass is exactly 1 after every step.
