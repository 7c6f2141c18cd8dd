/**
 Weighted PageRank over a weighted directed graph.

 A Graph keeps two tables: edges (source -> target -> accumulated weight) and
 nodes (id -> current rank mass and total outgoing weight). Link grows them,
 Reset empties them, and Rank normalises the edges, sets every rank to 1/N and
 repeats the PageRank step until the total change is at most epsilon.

 Arithmetic is exact (`real`). The pure functions below say what each phase
 computes; the methods of Graph follow the source's loops and are proved to
 compute exactly those functions.
 */
module PageRank {
  import opened Sums

  /** A node's record: its current rank mass and the total weight of its outgoing edges. */
  datatype Node = Node(weight: real, outbound: real)

  /** What Rank reports: every node's final rank, or that the iteration bound ran out first. */
  datatype Outcome<T> = Ranked(ranks: map<T, real>) | OutOfFuel

  // ---------------------------------------------------------------------------
  // Views of the two tables
  // ---------------------------------------------------------------------------

  /** The outgoing edges of source; a source without an entry reads as having none. */
  function Row<T>(edges: map<T, map<T, real>>, source: T): map<T, real>
  {
    if source in edges then edges[source] else map[]
  }

  /** The weight of the edge source -> target, zero when there is no such edge. */
  function EdgeWeight<T>(edges: map<T, map<T, real>>, source: T, target: T): real
  {
    if source in edges && target in edges[source] then edges[source][target] else 0.0
  }

  /** The total weight leaving source. */
  ghost function RowSum<T>(edges: map<T, map<T, real>>, source: T): real
  {
    Total(Row(edges, source))
  }

  /** Every node's current rank. */
  function Weights<T>(nodes: map<T, Node>): map<T, real>
  {
    map k | k in nodes :: nodes[k].weight
  }

  /** The rank mass held by all nodes together. */
  ghost function Mass<T>(nodes: map<T, Node>): real
  {
    Total(Weights(nodes))
  }

  /** Every source of an edge, and every target, is a node. */
  ghost predicate Closed<T>(nodes: map<T, Node>, edges: map<T, map<T, real>>)
  {
    forall s | s in edges :: s in nodes && edges[s].Keys <= nodes.Keys
  }

  /** Every node's outbound is the total weight of its outgoing edges. */
  ghost predicate Balanced<T>(nodes: map<T, Node>, edges: map<T, map<T, real>>)
  {
    forall s {:trigger RowSum(edges, s)} | s in nodes :: nodes[s].outbound == RowSum(edges, s)
  }

  /** No node has a negative outbound (as when every linked weight is non-negative). */
  ghost predicate NonNegativeOutbound<T>(nodes: map<T, Node>)
  {
    forall s | s in nodes :: nodes[s].outbound >= 0.0
  }

  /**
   The row sums a normalised store has: the edges leaving a node with
   outbound zero (a dangling node) weigh nothing in total, and those leaving
   any other node sum to 1. Single weights may still be negative or above 1.
   */
  ghost predicate Stochastic<T>(nodes: map<T, Node>, edges: map<T, map<T, real>>)
  {
    forall s {:trigger RowSum(edges, s)} | s in nodes ::
      RowSum(edges, s) == if nodes[s].outbound == 0.0 then 0.0 else 1.0
  }

  // ---------------------------------------------------------------------------
  // Link
  // ---------------------------------------------------------------------------

  /** The node table after linking source to target with weight. */
  function LinkNodes<T>(nodes: map<T, Node>, source: T, target: T, weight: real): (r: map<T, Node>)
    ensures r.Keys == nodes.Keys + {source, target}
    ensures r[source].outbound == (if source in nodes then nodes[source].outbound else 0.0) + weight
    ensures target != source && target !in nodes ==> r[target] == Node(0.0, 0.0)
    ensures forall k | k in nodes :: r[k].weight == nodes[k].weight
    ensures forall k | k in nodes && k != source :: r[k] == nodes[k]
    ensures source !in nodes ==> r[source].weight == 0.0
  {
    var created := if source in nodes then nodes else nodes[source := Node(0.0, 0.0)];
    var bumped := created[source := created[source].(outbound := created[source].outbound + weight)];
    if target in bumped then bumped else bumped[target := Node(0.0, 0.0)]
  }

  /** The edge table after linking source to target with weight. */
  function LinkEdges<T>(edges: map<T, map<T, real>>, source: T, target: T, weight: real): (r: map<T, map<T, real>>)
    ensures r.Keys == edges.Keys + {source}
    ensures r[source].Keys == Row(edges, source).Keys + {target}
    ensures EdgeWeight(r, source, target) == EdgeWeight(edges, source, target) + weight
    ensures forall s, t | s in r && t in r[s] && (s, t) != (source, target) :: s in edges && t in edges[s] && r[s][t] == edges[s][t]
    ensures forall s | s in edges && s != source :: r[s] == edges[s]
  {
    var row := Row(edges, source);
    edges[source := row[target := EdgeWeight(edges, source, target) + weight]]
  }

  /** Adding weight at one key of a row adds weight to the row's total. */
  lemma RowTotalBump<T>(row: map<T, real>, target: T, weight: real, before: real)
    requires before == if target in row then row[target] else 0.0
    ensures Total(row[target := before + weight]) == Total(row) + weight
  {
    var bumped := row[target := before + weight];
    if target in row {
      assert bumped.Keys == row.Keys;
      SumOverRemove(row.Keys, bumped, target);
      SumOverRemove(row.Keys, row, target);
      SumOverAgree(row.Keys - {target}, bumped, row);
    } else {
      assert bumped.Keys == row.Keys + {target};
      SumOverAdd(row.Keys, bumped, target);
      SumOverAgree(row.Keys, bumped, row);
    }
  }

  /** Linking keeps every endpoint a node and keeps each outbound equal to its row's total. */
  lemma LinkPreservesStore<T>(nodes: map<T, Node>, edges: map<T, map<T, real>>, source: T, target: T, weight: real)
    requires Closed(nodes, edges)
    ensures Closed(LinkNodes(nodes, source, target, weight), LinkEdges(edges, source, target, weight))
    ensures Balanced(nodes, edges) ==>
              Balanced(LinkNodes(nodes, source, target, weight), LinkEdges(edges, source, target, weight))
  {
    var nodes' := LinkNodes(nodes, source, target, weight);
    var edges' := LinkEdges(edges, source, target, weight);
    if Balanced(nodes, edges) {
      forall s | s in nodes'
        ensures nodes'[s].outbound == RowSum(edges', s)
      {
        if s == source {
          assert (if source in nodes then nodes[source].outbound else 0.0) == RowSum(edges, source);
          RowTotalBump(Row(edges, source), target, weight, EdgeWeight(edges, source, target));
        } else {
          assert Row(edges', s) == Row(edges, s);
          assert nodes'[s].outbound == if s in nodes then nodes[s].outbound else 0.0;
          assert s !in nodes ==> s !in edges;
          assert nodes'[s].outbound == RowSum(edges, s);
        }
      }
    }
  }

  /** Linking the same pair twice adds both weights to the edge, as linking it once with their sum. */
  lemma LinkEdgesTwice<T>(edges: map<T, map<T, real>>, source: T, target: T, w1: real, w2: real)
    ensures LinkEdges(LinkEdges(edges, source, target, w1), source, target, w2) == LinkEdges(edges, source, target, w1 + w2)
  {
    var row := Row(edges, source);
    var before := EdgeWeight(edges, source, target);
    var once := LinkEdges(edges, source, target, w1);
    assert Row(once, source) == row[target := before + w1];
    assert row[target := before + w1][target := before + w1 + w2] == row[target := before + (w1 + w2)];
  }

  /** Linking the same pair twice adds both weights to the source's outbound, as linking it once with their sum. */
  lemma LinkNodesTwice<T>(nodes: map<T, Node>, source: T, target: T, w1: real, w2: real)
    ensures LinkNodes(LinkNodes(nodes, source, target, w1), source, target, w2) == LinkNodes(nodes, source, target, w1 + w2)
  {
    var twice := LinkNodes(LinkNodes(nodes, source, target, w1), source, target, w2);
    var summed := LinkNodes(nodes, source, target, w1 + w2);
    forall k | k in summed ensures k in twice && twice[k] == summed[k] {
      if k != source && k in nodes {
        assert twice[k] == nodes[k] == summed[k];
      }
    }
  }

  // ---------------------------------------------------------------------------
  // Rank, phase 1: normalisation
  // ---------------------------------------------------------------------------

  /** A row with every weight divided by total. */
  function Scaled<T>(row: map<T, real>, total: real): map<T, real>
    requires total != 0.0
  {
    map t | t in row :: row[t] / total
  }

  /** The edge table after normalisation: the rows of sources with positive outbound are divided by it. */
  function Normalized<T>(nodes: map<T, Node>, edges: map<T, map<T, real>>): (r: map<T, map<T, real>>)
    requires edges.Keys <= nodes.Keys
    ensures r.Keys == edges.Keys
    ensures forall s | s in r :: r[s].Keys == edges[s].Keys
  {
    map s | s in edges :: if nodes[s].outbound > 0.0 then Scaled(edges[s], nodes[s].outbound) else edges[s]
  }

  /**
   After normalisation the outgoing weights of each source with positive
   outbound sum to 1, and the rows of the other sources are untouched.
   */
  lemma NormalizedRows<T>(nodes: map<T, Node>, edges: map<T, map<T, real>>, s: T)
    requires Closed(nodes, edges) && Balanced(nodes, edges) && s in nodes
    ensures Closed(nodes, Normalized(nodes, edges))
    ensures nodes[s].outbound > 0.0 ==> RowSum(Normalized(nodes, edges), s) == 1.0
    ensures nodes[s].outbound <= 0.0 ==> Row(Normalized(nodes, edges), s) == Row(edges, s)
  {
    var o := nodes[s].outbound;
    if o > 0.0 {
      var row := Row(edges, s);
      assert RowSum(edges, s) == o;
      assert Row(Normalized(nodes, edges), s) == Scaled(row, o);
      assert Total(row) == o;
      ScaledTotal(row, o);
    }
  }

  /** Dividing every weight of a row by total divides the row's total by it. */
  lemma ScaledTotal<T>(row: map<T, real>, total: real)
    requires total != 0.0
    ensures Total(Scaled(row, total)) == Total(row) / total
    ensures Total(row) == total ==> Total(Scaled(row, total)) == 1.0
  {
    var scaled := Scaled(row, total);
    assert scaled.Keys == row.Keys;
    forall t | t in row.Keys ensures scaled[t] == (1.0 / total) * row[t] {
      DivisionIsScaling(row[t], total);
    }
    SumOverScale(row.Keys, row, scaled, 1.0 / total);
    DivisionIsScaling(Total(row), total);
    DivisionIsScaling(total, total);
  }

  /** Solver aid, not a property of the model: dividing by d is multiplying by 1/d. */
  lemma DivisionIsScaling(x: real, d: real)
    requires d != 0.0
    ensures x / d == (1.0 / d) * x
    ensures d / d == 1.0
  {
  }

  /** Normalising a balanced store without negative outbound makes every row sum to 1 (0 for a dangling node). */
  lemma NormalizedIsStochastic<T>(nodes: map<T, Node>, edges: map<T, map<T, real>>)
    requires Closed(nodes, edges) && Balanced(nodes, edges) && NonNegativeOutbound(nodes)
    ensures Closed(nodes, Normalized(nodes, edges))
    ensures Stochastic(nodes, Normalized(nodes, edges))
  {
    forall s | s in nodes
      ensures RowSum(Normalized(nodes, edges), s) == if nodes[s].outbound == 0.0 then 0.0 else 1.0
    {
      assert nodes[s].outbound == RowSum(edges, s);
      NormalizedRows(nodes, edges, s);
    }
    if nodes != map[] {
      var s :| s in nodes;
      NormalizedRows(nodes, edges, s);
    } else {
      assert edges == map[];
    }
  }

  // ---------------------------------------------------------------------------
  // Rank, phase 2: initialisation
  // ---------------------------------------------------------------------------

  /**
   1/n, the share of one node among n. The source divides 1 by the node count
   even when it is zero; that value is never read (there is no node to give
   it to), so it is 0 here.
   */
  function Inverse(n: nat): (r: real)
    ensures n > 0 ==> r > 0.0 && r * (n as real) == 1.0
    ensures n == 0 ==> r == 0.0
  {
    if n == 0 then 0.0 else 1.0 / (n as real)
  }

  /** The node table with every rank set to share. */
  function Initialized<T>(nodes: map<T, Node>, share: real): (r: map<T, Node>)
    ensures r.Keys == nodes.Keys
    ensures forall k | k in r :: r[k].outbound == nodes[k].outbound
  {
    map k | k in nodes :: nodes[k].(weight := share)
  }

  /** Starting every node at 1/N puts total mass 1 on a non-empty graph. */
  lemma InitializedMass<T>(nodes: map<T, Node>)
    requires |nodes| > 0
    ensures Mass(Initialized(nodes, Inverse(|nodes|))) == 1.0
  {
    var init := Initialized(nodes, Inverse(|nodes|));
    assert init.Keys == nodes.Keys;
    SumOverConstant(init.Keys, Weights(init), Inverse(|nodes|));
    assert |nodes.Keys| == |nodes|;
  }

  // ---------------------------------------------------------------------------
  // Rank, phase 3: one PageRank step
  // ---------------------------------------------------------------------------

  /** What source sends per unit of edge weight in one step: alpha times its previous rank. */
  function Rate<T>(prev: map<T, real>, alpha: real, source: T): real
    requires source in prev
  {
    alpha * prev[source]
  }

  /** What source sends to target in one step: its rate times the edge weight. */
  function Flow<T>(prev: map<T, real>, edges: map<T, map<T, real>>, alpha: real, source: T, target: T): real
    requires source in prev
  {
    Rate(prev, alpha, source) * EdgeWeight(edges, source, target)
  }

  /** The total that target receives in one step from the sources in sources. */
  ghost function FlowInto<T>(prev: map<T, real>, edges: map<T, map<T, real>>, alpha: real, sources: set<T>, target: T): real
    requires sources <= prev.Keys
    decreases sources
  {
    if sources == {} then 0.0
    else
      var s :| s in sources;
      Flow(prev, edges, alpha, s, target) + FlowInto(prev, edges, alpha, sources - {s}, target)
  }

  /** The total that target receives along edges in one step. */
  ghost function Inflow<T>(prev: map<T, real>, edges: map<T, map<T, real>>, alpha: real, target: T): real
  {
    FlowInto(prev, edges, alpha, prev.Keys, target)
  }

  /** What every source sends to target in one step. */
  function Inflows<T>(prev: map<T, real>, edges: map<T, map<T, real>>, alpha: real, target: T): (r: map<T, real>)
    ensures r.Keys == prev.Keys
  {
    map s | s in prev :: Flow(prev, edges, alpha, s, target)
  }

  /** The flow into target from sources is the sum, over sources, of what each one sends to target. */
  lemma {:induction false} FlowIntoAsSum<T>(prev: map<T, real>, edges: map<T, map<T, real>>, alpha: real, sources: set<T>, target: T)
    requires sources <= prev.Keys
    ensures FlowInto(prev, edges, alpha, sources, target) == SumOver(sources, Inflows(prev, edges, alpha, target))
    decreases sources
  {
    if sources != {} {
      var s :| s in sources && FlowInto(prev, edges, alpha, sources, target)
                               == Flow(prev, edges, alpha, s, target) + FlowInto(prev, edges, alpha, sources - {s}, target);
      FlowIntoAsSum(prev, edges, alpha, sources - {s}, target);
      SumOverRemove(sources, Inflows(prev, edges, alpha, target), s);
    }
  }

  /** Target's inflow is the total of what every source sends to it. */
  lemma InflowIsTotal<T>(prev: map<T, real>, edges: map<T, map<T, real>>, alpha: real, target: T)
    ensures Inflow(prev, edges, alpha, target) == Total(Inflows(prev, edges, alpha, target))
  {
    FlowIntoAsSum(prev, edges, alpha, prev.Keys, target);
  }

  /** The nodes with outbound zero, whose mass has no edge to follow. */
  function Dangling<T>(nodes: map<T, Node>): (r: set<T>)
    ensures r <= nodes.Keys
    ensures forall k | k in nodes :: k in r <==> nodes[k].outbound == 0.0
  {
    set k | k in nodes && nodes[k].outbound == 0.0
  }

  /** The rank mass held by dangling nodes (before the source scales it by alpha). */
  ghost function Leak<T>(nodes: map<T, Node>): real
  {
    Held(Weights(nodes), Dangling(nodes))
  }

  /**
   What every node receives besides its inflow: the teleportation mass
   (1 - alpha) / N plus an equal part of the dangling mass already scaled by alpha.
   */
  function Teleport(alpha: real, scaledLeak: real, inverse: real): real
  {
    (1.0 - alpha) * inverse + scaledLeak * inverse
  }

  /** The share of every node in one step from nodes. */
  ghost function Share<T>(nodes: map<T, Node>, alpha: real): real
  {
    Teleport(alpha, Leak(nodes) * alpha, Inverse(|nodes|))
  }

  /** The node table after one step: each node's new rank is its inflow plus the common share. */
  ghost function Step<T>(nodes: map<T, Node>, edges: map<T, map<T, real>>, alpha: real): (r: map<T, Node>)
    ensures r.Keys == nodes.Keys
    ensures forall t | t in r :: r[t].outbound == nodes[t].outbound
  {
    map t | t in nodes :: nodes[t].(weight := Inflow(Weights(nodes), edges, alpha, t) + Share(nodes, alpha))
  }

  /**
   What target has received once the sources in done have sent along their
   edges and have had their share added.
   */
  ghost function Received<T>(prev: map<T, real>, edges: map<T, map<T, real>>, alpha: real, share: real,
                             done: set<T>, target: T): real
    requires done <= prev.Keys
  {
    FlowInto(prev, edges, alpha, done, target) + if target in done then share else 0.0
  }

  /** Once source has sent and has had its share, target has received source's flow on top (and the share if it is source). */
  lemma ReceivedAdd<T>(prev: map<T, real>, edges: map<T, map<T, real>>, alpha: real, share: real,
                       done: set<T>, source: T, target: T)
    requires done <= prev.Keys && source in prev && source !in done
    ensures Received(prev, edges, alpha, share, done + {source}, target)
            == Received(prev, edges, alpha, share, done, target)
               + Flow(prev, edges, alpha, source, target) + (if target == source then share else 0.0)
  {
    var inflows := Inflows(prev, edges, alpha, target);
    FlowIntoAsSum(prev, edges, alpha, done, target);
    FlowIntoAsSum(prev, edges, alpha, done + {source}, target);
    SumOverAdd(done, inflows, source);
  }

  /** A table whose ranks are each node's inflow plus the common share is the table after one step. */
  lemma StepFromPhases<T>(nodes: map<T, Node>, next: map<T, Node>, edges: map<T, map<T, real>>, alpha: real, share: real)
    requires share == Share(nodes, alpha) && next.Keys == nodes.Keys
    requires forall t | t in next :: next[t].outbound == nodes[t].outbound
    requires forall t | t in next :: next[t].weight == Inflow(Weights(nodes), edges, alpha, t) + share
    ensures next == Step(nodes, edges, alpha)
  {
    forall t | t in next ensures next[t] == Step(nodes, edges, alpha)[t] {
      StepAt(nodes, edges, alpha, t);
    }
  }

  lemma StepAt<T>(nodes: map<T, Node>, edges: map<T, map<T, real>>, alpha: real, t: T)
    requires t in nodes
    ensures t in Step(nodes, edges, alpha)
    ensures Step(nodes, edges, alpha)[t] == Node(Inflow(Weights(nodes), edges, alpha, t) + Share(nodes, alpha), nodes[t].outbound)
  {
  }

  /** What source sends to every node in one step. */
  function Outflows<T>(prev: map<T, real>, edges: map<T, map<T, real>>, alpha: real, source: T): (r: map<T, real>)
    requires source in prev
    ensures r.Keys == prev.Keys
  {
    map t | t in prev :: Flow(prev, edges, alpha, source, t)
  }

  /** Every node's inflow in one step. */
  ghost function InflowTotals<T>(prev: map<T, real>, edges: map<T, map<T, real>>, alpha: real): (r: map<T, real>)
    ensures r.Keys == prev.Keys
  {
    map t | t in prev :: Inflow(prev, edges, alpha, t)
  }

  /** Every node's outflow in one step: alpha times its rank times its row's total. */
  ghost function OutflowTotals<T>(prev: map<T, real>, edges: map<T, map<T, real>>, alpha: real): (r: map<T, real>)
    ensures r.Keys == prev.Keys
  {
    map s | s in prev :: Rate(prev, alpha, s) * RowSum(edges, s)
  }

  /** The total mass source sends along its edges is alpha times its rank times its row's total. */
  lemma OutflowTotal<T>(prev: map<T, real>, edges: map<T, map<T, real>>, alpha: real, source: T)
    requires source in prev && Row(edges, source).Keys <= prev.Keys
    ensures Total(Outflows(prev, edges, alpha, source)) == Rate(prev, alpha, source) * RowSum(edges, source)
  {
    var row := Row(edges, source);
    var out := Outflows(prev, edges, alpha, source);
    var padded := map t | t in prev :: EdgeWeight(edges, source, t);
    SumOverScale(prev.Keys, padded, out, Rate(prev, alpha, source));
    SumOverPadded(prev.Keys, row.Keys, row, padded);
  }

  /** Mass is conserved along edges: the total received along edges is the total sent along them. */
  lemma FlowConserved<T>(prev: map<T, real>, edges: map<T, map<T, real>>, alpha: real)
    requires forall s | s in prev :: Row(edges, s).Keys <= prev.Keys
    ensures Total(InflowTotals(prev, edges, alpha)) == Total(OutflowTotals(prev, edges, alpha))
  {
    var keys := prev.Keys;
    var M := map s | s in prev :: Outflows(prev, edges, alpha, s);
    var Mt := map t | t in prev :: Inflows(prev, edges, alpha, t);
    var inflow := InflowTotals(prev, edges, alpha);
    var outflow := OutflowTotals(prev, edges, alpha);
    forall s | s in keys
      ensures keys <= M[s].Keys && outflow[s] == SumOver(keys, M[s])
    {
      assert M[s] == Outflows(prev, edges, alpha, s);
      OutflowColumn(prev, edges, alpha, s);
    }
    forall t | t in keys
      ensures keys <= Mt[t].Keys && inflow[t] == SumOver(keys, Mt[t])
    {
      assert Mt[t] == Inflows(prev, edges, alpha, t);
      InflowColumn(prev, edges, alpha, t);
    }
    SumOverInterchange(keys, keys, M, Mt, outflow, inflow);
  }

  /** The outflow of source, summed over every node it can send to. */
  lemma OutflowColumn<T>(prev: map<T, real>, edges: map<T, map<T, real>>, alpha: real, source: T)
    requires source in prev && Row(edges, source).Keys <= prev.Keys
    ensures OutflowTotals(prev, edges, alpha)[source] == SumOver(prev.Keys, Outflows(prev, edges, alpha, source))
  {
    OutflowTotal(prev, edges, alpha, source);
  }

  /** The inflow of target, summed over every node that can send to it. */
  lemma InflowColumn<T>(prev: map<T, real>, edges: map<T, map<T, real>>, alpha: real, target: T)
    requires target in prev
    ensures InflowTotals(prev, edges, alpha)[target] == SumOver(prev.Keys, Inflows(prev, edges, alpha, target))
  {
    InflowIsTotal(prev, edges, alpha, target);
  }

  /**
   When the rows of the dangling nodes weigh nothing and every other row
   sums to 1, a node sends alpha times its rank unless it is dangling, so the
   total sent is alpha times the mass not held by dangling nodes.
   */
  lemma OutflowOfStochastic<T>(prev: map<T, real>, edges: map<T, map<T, real>>, alpha: real, dangling: set<T>)
    requires dangling <= prev.Keys
    requires forall s {:trigger RowSum(edges, s)} | s in prev :: RowSum(edges, s) == if s in dangling then 0.0 else 1.0
    ensures Total(OutflowTotals(prev, edges, alpha)) == alpha * (Total(prev) - Held(prev, dangling))
  {
    var sent := OutflowIsSent(prev, edges, alpha, dangling);
    ScaleEqual(alpha, Total(sent), Total(prev) - Held(prev, dangling));
  }

  /**
   Under the same rows, the total sent is alpha times the total of sent, the
   ranks of the nodes that are not dangling.
   */
  lemma OutflowIsSent<T>(prev: map<T, real>, edges: map<T, map<T, real>>, alpha: real, dangling: set<T>)
    returns (sent: map<T, real>)
    requires dangling <= prev.Keys
    requires forall s {:trigger RowSum(edges, s)} | s in prev :: RowSum(edges, s) == if s in dangling then 0.0 else 1.0
    ensures Total(OutflowTotals(prev, edges, alpha)) == alpha * Total(sent)
    ensures Total(prev) == Held(prev, dangling) + Total(sent)
  {
    sent := Outside(prev, dangling);
    forall s | s in prev ensures OutflowTotals(prev, edges, alpha)[s] == alpha * sent[s] {
      SentAt(prev, edges, alpha, dangling, s);
    }
    TotalScale(sent, OutflowTotals(prev, edges, alpha), alpha);
    SplitTotal(prev, dangling);
  }

  /** Solver aid, not a property of the model: it keeps the product an atom for the caller. */
  lemma ScaleEqual(c: real, x: real, y: real)
    requires x == y
    ensures c * x == c * y
  {
  }

  /** What the keys in part hold in m. */
  ghost function Held<K>(m: map<K, real>, part: set<K>): real
    requires part <= m.Keys
  {
    SumOver(part, m)
  }

  /** The values of m at keys outside part, zero at keys in part. */
  function Outside<K>(m: map<K, real>, part: set<K>): (r: map<K, real>)
    ensures r.Keys == m.Keys
  {
    map k | k in m :: if k in part then 0.0 else m[k]
  }

  /** The total of m is what part holds plus what lies outside it. */
  lemma SplitTotal<K>(m: map<K, real>, part: set<K>)
    requires part <= m.Keys
    ensures Total(m) == Held(m, part) + Total(Outside(m, part))
  {
    var held := map k | k in m :: if k in part then m[k] else 0.0;
    var outside := Outside(m, part);
    SumOverLinear(m.Keys, outside, held, m);
    SumOverPadded(m.Keys, part, m, held);
  }

  /** A node whose row sums to 0 (dangling) or 1 sends alpha times its rank along it, or nothing. */
  lemma SentAt<T>(prev: map<T, real>, edges: map<T, map<T, real>>, alpha: real, dangling: set<T>, s: T)
    requires s in prev
    requires RowSum(edges, s) == if s in dangling then 0.0 else 1.0
    ensures OutflowTotals(prev, edges, alpha)[s] == alpha * Outside(prev, dangling)[s]
  {
    if s in dangling {
      assert Rate(prev, alpha, s) * RowSum(edges, s) == 0.0;
    }
  }

  /** The new mass is the total inflow plus one share for every node. */
  lemma StepMassParts<T>(nodes: map<T, Node>, edges: map<T, map<T, real>>, alpha: real)
    ensures Mass(Step(nodes, edges, alpha))
            == Total(InflowTotals(Weights(nodes), edges, alpha)) + (|nodes| as real) * Share(nodes, alpha)
  {
    var inflow := InflowTotals(Weights(nodes), edges, alpha);
    StepShifts(nodes, edges, alpha);
    TotalShifted(inflow, Weights(Step(nodes, edges, alpha)), Share(nodes, alpha));
    assert |inflow| == |inflow.Keys| == |nodes.Keys| == |nodes|;
  }

  /** Every new rank is the node's inflow plus the common share. */
  lemma StepShifts<T>(nodes: map<T, Node>, edges: map<T, map<T, real>>, alpha: real)
    ensures InflowTotals(Weights(nodes), edges, alpha).Keys == nodes.Keys
    ensures Weights(Step(nodes, edges, alpha)).Keys == nodes.Keys
    ensures forall t | t in InflowTotals(Weights(nodes), edges, alpha) ::
              Weights(Step(nodes, edges, alpha))[t] == InflowTotals(Weights(nodes), edges, alpha)[t] + Share(nodes, alpha)
  {
    var next := Step(nodes, edges, alpha);
    var inflow := InflowTotals(Weights(nodes), edges, alpha);
    assert Weights(nodes).Keys == nodes.Keys;
    forall t | t in inflow ensures Weights(next)[t] == inflow[t] + Share(nodes, alpha) {
      StepAt(nodes, edges, alpha, t);
    }
  }

  /** The shares of all N nodes add up to the teleportation mass 1 - alpha plus the scaled dangling mass. */
  lemma SharesTotal<T>(nodes: map<T, Node>, alpha: real)
    requires |nodes| > 0
    ensures (|nodes| as real) * Share(nodes, alpha) == 1.0 - alpha + alpha * Leak(nodes)
  {
    var n := |nodes| as real;
    assert n * Inverse(|nodes|) == 1.0;
  }

  /**
   One step maps total mass m to alpha * m + 1 - alpha when every row sums
   to 1 (0 for a dangling node); in particular it keeps total mass 1.
   */
  lemma StepMass<T>(nodes: map<T, Node>, edges: map<T, map<T, real>>, alpha: real)
    requires Closed(nodes, edges) && Stochastic(nodes, edges) && |nodes| > 0
    ensures Mass(Step(nodes, edges, alpha)) == alpha * Mass(nodes) + 1.0 - alpha
    ensures Mass(nodes) == 1.0 ==> Mass(Step(nodes, edges, alpha)) == 1.0
  {
    var inflow := InflowMass(nodes, edges, alpha);
    StepMassParts(nodes, edges, alpha);
    SharesTotal(nodes, alpha);
    MassBalance(Mass(Step(nodes, edges, alpha)), inflow, (|nodes| as real) * Share(nodes, alpha),
                alpha, Mass(nodes), Leak(nodes));
  }

  /** The total inflow of one step is alpha times the mass not held by dangling nodes. */
  lemma InflowMass<T>(nodes: map<T, Node>, edges: map<T, map<T, real>>, alpha: real) returns (inflow: real)
    requires Closed(nodes, edges) && Stochastic(nodes, edges)
    ensures inflow == Total(InflowTotals(Weights(nodes), edges, alpha))
    ensures inflow == alpha * Mass(nodes) - alpha * Leak(nodes)
  {
    inflow := StochasticInflow(nodes, edges, alpha);
    ScaleDifference(inflow, alpha, Total(Weights(nodes)), Held(Weights(nodes), Dangling(nodes)), Mass(nodes), Leak(nodes));
  }

  /** FlowMass for the ranks, rows and dangling nodes of a closed, stochastic store. */
  lemma StochasticInflow<T>(nodes: map<T, Node>, edges: map<T, map<T, real>>, alpha: real) returns (inflow: real)
    requires Closed(nodes, edges) && Stochastic(nodes, edges)
    ensures Dangling(nodes) <= Weights(nodes).Keys
    ensures inflow == Total(InflowTotals(Weights(nodes), edges, alpha))
    ensures inflow == alpha * (Total(Weights(nodes)) - Held(Weights(nodes), Dangling(nodes)))
  {
    StochasticRows(nodes, edges);
    inflow := FlowMass(Weights(nodes), edges, alpha, Dangling(nodes));
  }

  /** Solver aid, not a property of the model: distributes c over a difference of atoms. */
  lemma ScaleDifference(v: real, c: real, a: real, b: real, a': real, b': real)
    requires v == c * (a - b) && a == a' && b == b'
    ensures v == c * a' - c * b'
  {
  }

  /** Under the rows of OutflowOfStochastic, the total inflow is alpha times the mass outside dangling. */
  lemma FlowMass<T>(prev: map<T, real>, edges: map<T, map<T, real>>, alpha: real, dangling: set<T>) returns (inflow: real)
    requires dangling <= prev.Keys
    requires forall s | s in prev :: Row(edges, s).Keys <= prev.Keys
    requires forall s {:trigger RowSum(edges, s)} | s in prev :: RowSum(edges, s) == if s in dangling then 0.0 else 1.0
    ensures inflow == Total(InflowTotals(prev, edges, alpha))
    ensures inflow == alpha * (Total(prev) - Held(prev, dangling))
  {
    FlowConserved(prev, edges, alpha);
    OutflowOfStochastic(prev, edges, alpha, dangling);
    inflow := Total(InflowTotals(prev, edges, alpha));
  }

  /** The rows of a closed, stochastic store, stated over the ranks of its nodes. */
  lemma StochasticRows<T>(nodes: map<T, Node>, edges: map<T, map<T, real>>)
    requires Closed(nodes, edges) && Stochastic(nodes, edges)
    ensures Dangling(nodes) <= Weights(nodes).Keys
    ensures forall s | s in Weights(nodes) :: Row(edges, s).Keys <= Weights(nodes).Keys
    ensures forall s {:trigger RowSum(edges, s)} | s in Weights(nodes) ::
              RowSum(edges, s) == if s in Dangling(nodes) then 0.0 else 1.0
  {
  }

  /** Solver aid, not a property of the model: the arithmetic that puts the parts of one step's mass together. */
  lemma MassBalance(next: real, inflow: real, shares: real, alpha: real, mass: real, leak: real)
    requires next == inflow + shares
    requires inflow == alpha * mass - alpha * leak
    requires shares == 1.0 - alpha + alpha * leak
    ensures next == alpha * mass + 1.0 - alpha
  {
  }

  // ---------------------------------------------------------------------------
  // Rank, the convergence test
  // ---------------------------------------------------------------------------

  /** The absolute change of each node's rank. */
  function Changes<T>(prev: map<T, real>, cur: map<T, real>): (r: map<T, real>)
    ensures r.Keys == prev.Keys * cur.Keys
    ensures forall k | k in r :: r[k] >= 0.0 && (r[k] == 0.0 <==> prev[k] == cur[k])
  {
    map k | k in prev && k in cur :: if cur[k] >= prev[k] then cur[k] - prev[k] else prev[k] - cur[k]
  }

  /** The total absolute change of the ranks, the source's delta. */
  ghost function Delta<T>(prev: map<T, real>, cur: map<T, real>): real
  {
    Total(Changes(prev, cur))
  }

  /** Delta is never negative, and it is zero exactly when no rank changed. */
  lemma DeltaZeroIffUnchanged<T>(prev: map<T, real>, cur: map<T, real>)
    requires prev.Keys == cur.Keys
    ensures Delta(prev, cur) >= 0.0
    ensures Delta(prev, cur) == 0.0 <==> prev == cur
  {
    var changes := Changes(prev, cur);
    assert changes.Keys == prev.Keys;
    SumOverNonNegative(changes.Keys, changes);
    if Delta(prev, cur) == 0.0 {
      forall k | k in prev ensures prev[k] == cur[k] {
        assert changes[k] == 0.0;
      }
    }
  }

  /** The node table after k steps from start. */
  ghost function Steps<T>(start: map<T, Node>, edges: map<T, map<T, real>>, alpha: real, k: nat): map<T, Node>
    decreases k
  {
    if k == 0 then start else Step(Steps(start, edges, alpha, k - 1), edges, alpha)
  }

  /** The total change made by pass k (k >= 1) of the loop started from start. */
  ghost function PassDelta<T>(start: map<T, Node>, edges: map<T, map<T, real>>, alpha: real, k: nat): real
    requires k > 0
  {
    Delta(Weights(Steps(start, edges, alpha, k - 1)), Weights(Steps(start, edges, alpha, k)))
  }

  /** Any number of steps keeps the ids and every outbound. */
  lemma {:induction false} StepsKeep<T>(start: map<T, Node>, edges: map<T, map<T, real>>, alpha: real, k: nat)
    ensures Steps(start, edges, alpha, k).Keys == start.Keys
    ensures forall t | t in start :: Steps(start, edges, alpha, k)[t].outbound == start[t].outbound
    decreases k
  {
    if k > 0 {
      StepsKeep(start, edges, alpha, k - 1);
    }
  }

  /** Whether a store is closed and its rows sum to 1 depends only on its ids and outbounds. */
  lemma SameOutbounds<T>(nodes: map<T, Node>, other: map<T, Node>, edges: map<T, map<T, real>>)
    requires Closed(nodes, edges) && Stochastic(nodes, edges)
    requires other.Keys == nodes.Keys
    requires forall t | t in nodes :: other[t].outbound == nodes[t].outbound
    ensures Closed(other, edges) && Stochastic(other, edges) && |other| == |nodes|
  {
    forall s | s in other ensures RowSum(edges, s) == if other[s].outbound == 0.0 then 0.0 else 1.0 {
      assert s in nodes;
    }
    assert |other| == |other.Keys| == |nodes.Keys| == |nodes|;
  }

  /**
   From mass 1 on a closed store whose rows sum to 1 (0 for dangling nodes),
   the mass is still 1 after any number of steps.
   */
  lemma {:induction false} StepsMass<T>(start: map<T, Node>, edges: map<T, map<T, real>>, alpha: real, k: nat)
    requires Closed(start, edges) && Stochastic(start, edges) && |start| > 0 && Mass(start) == 1.0
    ensures Mass(Steps(start, edges, alpha, k)) == 1.0
    decreases k
  {
    if k > 0 {
      var prev := Steps(start, edges, alpha, k - 1);
      StepsMass(start, edges, alpha, k - 1);
      StepsKeep(start, edges, alpha, k - 1);
      SameOutbounds(start, prev, edges);
      StepMass(prev, edges, alpha);
    }
  }

  /** On an empty graph every pass changes nothing, so the loop ends after one pass unless epsilon is negative. */
  lemma EmptyGraphSettles<T>(edges: map<T, map<T, real>>, alpha: real, k: nat)
    requires k > 0
    ensures PassDelta(map[], edges, alpha, k) == 0.0
  {
    var empty: map<T, Node> := map[];
    StepsKeep(empty, edges, alpha, k - 1);
    StepsKeep(empty, edges, alpha, k);
    assert Changes(Weights(Steps(empty, edges, alpha, k - 1)), Weights(Steps(empty, edges, alpha, k))) == map[];
  }

  /** Every pass before pass k changed the ranks by more than epsilon, so the loop went on. */
  ghost predicate Unsettled<T>(start: map<T, Node>, edges: map<T, map<T, real>>, alpha: real, epsilon: real, k: nat)
  {
    forall j | 0 < j < k :: PassDelta(start, edges, alpha, j) > epsilon
  }

  /** A pass that changed the ranks by more than epsilon extends the run of unsettled passes. */
  lemma UnsettledExtend<T>(start: map<T, Node>, edges: map<T, map<T, real>>, alpha: real, epsilon: real, k: nat)
    requires Unsettled(start, edges, alpha, epsilon, k)
    requires k > 0 ==> PassDelta(start, edges, alpha, k) > epsilon
    ensures Unsettled(start, edges, alpha, epsilon, k + 1)
  {
  }

  /** One more pass from the table after k passes is the table after k + 1 passes, and its change is pass k + 1's. */
  lemma PassAdvance<T>(start: map<T, Node>, edges: map<T, map<T, real>>, alpha: real, k: nat, next: map<T, Node>)
    requires next == Step(Steps(start, edges, alpha, k), edges, alpha)
    ensures next == Steps(start, edges, alpha, k + 1)
    ensures Delta(Weights(Steps(start, edges, alpha, k)), Weights(next)) == PassDelta(start, edges, alpha, k + 1)
  {
  }

  // ---------------------------------------------------------------------------
  // The graph store
  // ---------------------------------------------------------------------------

  class Graph<T(==)> {
    var edges: map<T, map<T, real>>
    var nodes: map<T, Node>

    /** The store invariant every operation keeps: each endpoint of an edge is a node. */
    ghost predicate Valid()
      reads this
    {
      Closed(nodes, edges)
    }

    /** A new, empty graph. */
    constructor ()
      ensures Valid() && Balanced(nodes, edges)
      ensures edges == map[] && nodes == map[]
    {
      edges := map[];
      nodes := map[];
    }

    /**
     Creates a weighted edge from source to target, creating either node if
     it is new; linking an existing pair adds to its weight.
     */
    method Link(source: T, target: T, weight: real)
      requires Valid()
      modifies this
      ensures Valid()
      ensures nodes == LinkNodes(old(nodes), source, target, weight)
      ensures edges == LinkEdges(old(edges), source, target, weight)
      ensures old(Balanced(nodes, edges)) ==> Balanced(nodes, edges)
    {
      AddNode(source);
      nodes := nodes[source := nodes[source].(outbound := nodes[source].outbound + weight)];
      AddNode(target);
      AddEdgeWeight(source, target, weight);
      LinkPreservesStore(old(nodes), old(edges), source, target, weight);
    }

    /** Creates the node id with rank and outbound zero, unless it exists. */
    method AddNode(id: T)
      modifies this
      ensures edges == old(edges)
      ensures nodes == if id in old(nodes) then old(nodes) else old(nodes)[id := Node(0.0, 0.0)]
    {
      if id !in nodes {
        nodes := nodes[id := Node(0.0, 0.0)];
      }
    }

    /** Adds weight to the edge source -> target, creating the row and the edge at zero first. */
    method AddEdgeWeight(source: T, target: T, weight: real)
      modifies this
      ensures nodes == old(nodes)
      ensures edges == LinkEdges(old(edges), source, target, weight)
    {
      if source !in edges {
        edges := edges[source := map[]];
      }
      var current := if target in edges[source] then edges[source][target] else 0.0;
      var row := edges[source][target := current + weight];
      assert row == Row(old(edges), source)[target := EdgeWeight(old(edges), source, target) + weight];
      edges := edges[source := row];
      assert edges == old(edges)[source := row];
    }

    /** Discards every node and edge. */
    method Reset()
      modifies this
      ensures Valid() && Balanced(nodes, edges)
      ensures edges == map[] && nodes == map[]
    {
      edges := map[];
      nodes := map[];
    }

    /**
     Ranks every node: normalises the edges, starts every node at 1/N and
     repeats the PageRank step until the total change is at most epsilon.
     The source loops until then; here at most fuel steps are taken, and
     OutOfFuel says the bound was reached first. The ghost result steps is
     the number of passes taken; every pass but the last changed the ranks
     by more than epsilon.
     */
    method Rank(alpha: real, epsilon: real, fuel: nat) returns (outcome: Outcome<T>, ghost steps: nat)
      requires Valid()
      modifies this
      ensures Valid()
      ensures edges == Normalized(old(nodes), old(edges))
      ensures nodes.Keys == old(nodes).Keys
      ensures forall k | k in nodes :: nodes[k].outbound == old(nodes)[k].outbound
      ensures steps <= fuel
      ensures nodes == Steps(Initialized(old(nodes), Inverse(|old(nodes)|)), edges, alpha, steps)
      ensures steps > 0 ==> 1.0 > epsilon
      ensures forall j | 0 < j < steps :: PassDelta(Initialized(old(nodes), Inverse(|old(nodes)|)), edges, alpha, j) > epsilon
      ensures outcome.Ranked? ==> outcome.ranks == Weights(nodes)
      ensures outcome.Ranked? ==>
                if steps == 0 then 1.0 <= epsilon
                else PassDelta(Initialized(old(nodes), Inverse(|old(nodes)|)), edges, alpha, steps) <= epsilon
      ensures outcome.OutOfFuel? ==>
                steps == fuel && if steps == 0 then 1.0 > epsilon
                else PassDelta(Initialized(old(nodes), Inverse(|old(nodes)|)), edges, alpha, steps) > epsilon
      ensures old(Balanced(nodes, edges) && NonNegativeOutbound(nodes)) && |nodes| > 0 ==> Mass(nodes) == 1.0
    {
      ghost var conserving := Balanced(nodes, edges) && NonNegativeOutbound(nodes) && |nodes| > 0;
      if Balanced(nodes, edges) && NonNegativeOutbound(nodes) {
        NormalizedIsStochastic(nodes, edges);
      }
      var inverse := Inverse(|nodes|);
      Normalize();
      Initialize(inverse);
      assert |nodes| == |nodes.Keys| == |old(nodes).Keys| == |old(nodes)|;
      if conserving {
        InitializedMass(old(nodes));
      }
      outcome, steps := Converge(alpha, epsilon, fuel, inverse, conserving);
    }

    /**
     Phases 3 and 4: repeats the step from the initialised ranks while the
     total change exceeds epsilon (the change counts as 1 before the first
     step), taking at most fuel steps, then reports the ranks.
     */
    method Converge(alpha: real, epsilon: real, fuel: nat, inverse: real, ghost conserving: bool)
      returns (outcome: Outcome<T>, ghost steps: nat)
      requires Valid() && inverse == Inverse(|nodes|)
      requires conserving ==> Stochastic(nodes, edges) && Mass(nodes) == 1.0
      modifies this
      ensures Valid() && edges == old(edges) && nodes.Keys == old(nodes).Keys
      ensures forall k | k in nodes :: nodes[k].outbound == old(nodes)[k].outbound
      ensures steps <= fuel
      ensures nodes == Steps(old(nodes), edges, alpha, steps)
      ensures steps > 0 ==> 1.0 > epsilon
      ensures forall j | 0 < j < steps :: PassDelta(old(nodes), edges, alpha, j) > epsilon
      ensures outcome.Ranked? ==> outcome.ranks == Weights(nodes)
      ensures outcome.Ranked? ==>
                if steps == 0 then 1.0 <= epsilon else PassDelta(old(nodes), edges, alpha, steps) <= epsilon
      ensures outcome.OutOfFuel? ==>
                steps == fuel && if steps == 0 then 1.0 > epsilon else PassDelta(old(nodes), edges, alpha, steps) > epsilon
      ensures conserving ==> Mass(nodes) == 1.0
    {
      var delta := 1.0;
      var passes := 0;
      steps := 0;
      while delta > epsilon && passes < fuel
        invariant steps == passes && steps <= fuel
        invariant Valid() && edges == old(edges)
        invariant nodes.Keys == old(nodes).Keys && inverse == Inverse(|nodes|)
        invariant forall k | k in nodes :: nodes[k].outbound == old(nodes)[k].outbound
        invariant nodes == Steps(old(nodes), edges, alpha, steps)
        invariant steps == 0 ==> delta == 1.0
        invariant steps > 0 ==> 1.0 > epsilon && delta == PassDelta(old(nodes), edges, alpha, steps)
        invariant Unsettled(old(nodes), edges, alpha, epsilon, steps)
        invariant conserving ==> Stochastic(nodes, edges) && Mass(nodes) == 1.0
        decreases fuel - passes
      {
        UnsettledExtend(old(nodes), edges, alpha, epsilon, steps);
        delta := Advance(alpha, inverse, old(nodes), steps, conserving);
        passes, steps := passes + 1, steps + 1;
      }
      if delta > epsilon {
        return OutOfFuel, steps;
      }
      var ranks := Emit();
      outcome := Ranked(ranks);
    }

    /** One pass of the loop after k passes from start; returns the pass's change. */
    method Advance(alpha: real, inverse: real, ghost start: map<T, Node>, ghost k: nat, ghost conserving: bool)
      returns (delta: real)
      requires Valid() && inverse == Inverse(|nodes|)
      requires nodes == Steps(start, edges, alpha, k)
      requires conserving ==> Stochastic(nodes, edges) && Mass(nodes) == 1.0
      modifies this
      ensures Valid() && edges == old(edges) && nodes.Keys == old(nodes).Keys
      ensures forall s | s in nodes :: nodes[s].outbound == old(nodes)[s].outbound
      ensures nodes == Steps(start, edges, alpha, k + 1)
      ensures delta == PassDelta(start, edges, alpha, k + 1)
      ensures conserving ==> Stochastic(nodes, edges) && Mass(nodes) == 1.0
    {
      delta := Iterate(alpha, inverse);
      PassAdvance(start, edges, alpha, k, nodes);
      if conserving {
        StepMass(old(nodes), edges, alpha);
      }
    }

    /** Phase 1: divides every outgoing weight of a source with positive outbound by that outbound. */
    method Normalize()
      requires Valid()
      modifies this
      ensures nodes == old(nodes)
      ensures edges == Normalized(nodes, old(edges))
      ensures Valid()
    {
      var sources := edges.Keys;
      ghost var done: set<T> := {};
      while sources != {}
        invariant sources !! done && sources + done == old(edges).Keys
        invariant nodes == old(nodes) && edges.Keys == old(edges).Keys
        invariant forall s | s in done :: edges[s] == Normalized(nodes, old(edges))[s]
        invariant forall s | s in sources :: edges[s] == old(edges)[s]
        decreases sources
      {
        var source :| source in sources;
        var outbound := nodes[source].outbound;
        if outbound > 0.0 {
          ScaleRow(source, outbound);
        }
        sources := sources - {source};
        done := done + {source};
      }
    }

    /** Divides every weight in the row of source by outbound. */
    method ScaleRow(source: T, outbound: real)
      requires source in edges && outbound != 0.0
      modifies this
      ensures nodes == old(nodes)
      ensures edges == old(edges)[source := Scaled(old(edges)[source], outbound)]
    {
      var targets := edges[source].Keys;
      ghost var row := edges[source];
      ghost var scaled: set<T> := {};
      while targets != {}
        invariant targets !! scaled && targets + scaled == row.Keys
        invariant nodes == old(nodes) && source in edges
        invariant edges == old(edges)[source := edges[source]] && edges[source].Keys == row.Keys
        invariant forall t | t in scaled :: edges[source][t] == row[t] / outbound
        invariant forall t | t in targets :: edges[source][t] == row[t]
        decreases targets
      {
        var target :| target in targets;
        edges := edges[source := edges[source][target := edges[source][target] / outbound]];
        targets := targets - {target};
        scaled := scaled + {target};
      }
      assert edges[source] == Scaled(row, outbound);
    }

    /** Phase 2: sets every node's rank to share. */
    method Initialize(share: real)
      modifies this
      ensures edges == old(edges)
      ensures nodes == Initialized(old(nodes), share)
    {
      var keys := nodes.Keys;
      ghost var done: set<T> := {};
      while keys != {}
        invariant keys !! done && keys + done == old(nodes).Keys
        invariant edges == old(edges) && nodes.Keys == old(nodes).Keys
        invariant forall k | k in done :: nodes[k] == old(nodes)[k].(weight := share)
        invariant forall k | k in keys :: nodes[k] == old(nodes)[k]
        decreases keys
      {
        var key :| key in keys;
        nodes := nodes[key := nodes[key].(weight := share)];
        keys := keys - {key};
        done := done + {key};
      }
    }

    /** Phase 3: one pass of the loop; returns the total absolute change. */
    method Iterate(alpha: real, inverse: real) returns (delta: real)
      requires Valid() && inverse == Inverse(|nodes|)
      modifies this
      ensures Valid() && edges == old(edges)
      ensures nodes == Step(old(nodes), edges, alpha)
      ensures delta == Delta(Weights(old(nodes)), Weights(nodes))
    {
      var prev, leak := Snapshot();
      leak := leak * alpha;
      assert leak == Leak(old(nodes)) * alpha;
      assert Teleport(alpha, leak, inverse) == Share(old(nodes), alpha);
      Spread(prev, alpha, Teleport(alpha, leak, inverse));
      delta := TotalChange(prev);
      StepFromPhases(old(nodes), nodes, edges, alpha, Teleport(alpha, leak, inverse));
    }

    /**
     Records every node's rank, adds up the ranks of the dangling nodes, and
     zeroes every rank.
     */
    method Snapshot() returns (prev: map<T, real>, leak: real)
      modifies this
      ensures edges == old(edges)
      ensures prev == Weights(old(nodes))
      ensures leak == Leak(old(nodes))
      ensures nodes.Keys == old(nodes).Keys
      ensures forall k | k in nodes :: nodes[k] == old(nodes)[k].(weight := 0.0)
    {
      prev, leak := map[], 0.0;
      var keys := nodes.Keys;
      ghost var done: set<T> := {};
      ghost var dangling := Dangling(old(nodes));
      ghost var weights := Weights(old(nodes));
      while keys != {}
        invariant keys !! done && keys + done == old(nodes).Keys
        invariant edges == old(edges) && nodes.Keys == old(nodes).Keys
        invariant prev.Keys == done && forall k | k in done :: prev[k] == old(nodes)[k].weight
        invariant leak == SumOver(dangling * done, weights)
        invariant forall k | k in done :: nodes[k] == old(nodes)[k].(weight := 0.0)
        invariant forall k | k in keys :: nodes[k] == old(nodes)[k]
        decreases keys
      {
        var key :| key in keys;
        prev := prev[key := nodes[key].weight];
        if nodes[key].outbound == 0.0 {
          SumOverAdd(dangling * done, weights, key);
          assert dangling * (done + {key}) == dangling * done + {key};
          leak := leak + nodes[key].weight;
        } else {
          assert dangling * (done + {key}) == dangling * done;
        }
        nodes := nodes[key := nodes[key].(weight := 0.0)];
        keys := keys - {key};
        done := done + {key};
      }
      assert dangling * done == dangling;
    }

    /**
     Sends alpha * prev[source] * weight along every edge, and gives every
     node share, starting from ranks that are all zero.
     */
    method Spread(prev: map<T, real>, alpha: real, share: real)
      requires Valid() && prev.Keys == nodes.Keys
      requires forall k | k in nodes :: nodes[k].weight == 0.0
      modifies this
      ensures Valid() && edges == old(edges) && nodes.Keys == old(nodes).Keys
      ensures forall t | t in nodes :: nodes[t].outbound == old(nodes)[t].outbound
      ensures forall t | t in nodes :: nodes[t].weight == Inflow(prev, edges, alpha, t) + share
    {
      var sources := nodes.Keys;
      ghost var done: set<T> := {};
      while sources != {}
        invariant sources !! done && sources + done == prev.Keys
        invariant Valid() && edges == old(edges) && nodes.Keys == old(nodes).Keys
        invariant forall t | t in nodes :: nodes[t].outbound == old(nodes)[t].outbound
        invariant forall t | t in nodes :: nodes[t].weight == Received(prev, edges, alpha, share, done, t)
        decreases sources
      {
        var source :| source in sources;
        SpreadFrom(prev, alpha, share, source, done);
        sources := sources - {source};
        done := done + {source};
      }
    }

    /** One pass of the outer loop: source sends along its edges, then receives its share. */
    method SpreadFrom(prev: map<T, real>, alpha: real, share: real, source: T, ghost done: set<T>)
      requires Valid() && prev.Keys == nodes.Keys && done <= prev.Keys && source in prev && source !in done
      requires forall t | t in nodes :: nodes[t].weight == Received(prev, edges, alpha, share, done, t)
      modifies this
      ensures Valid() && edges == old(edges) && nodes.Keys == old(nodes).Keys
      ensures forall t | t in nodes :: nodes[t].outbound == old(nodes)[t].outbound
      ensures forall t | t in nodes :: nodes[t].weight == Received(prev, edges, alpha, share, done + {source}, t)
    {
      SendFrom(prev, alpha, source);
      ghost var sent := nodes;
      nodes := nodes[source := nodes[source].(weight := nodes[source].weight + share)];
      forall t | t in nodes
        ensures nodes[t].weight == Received(prev, edges, alpha, share, done + {source}, t)
      {
        assert nodes[t].weight == sent[t].weight + (if t == source then share else 0.0);
        ReceivedAdd(prev, edges, alpha, share, done, source, t);
      }
    }

    /** Adds alpha * prev[source] * weight to the rank of the target of every edge leaving source. */
    method SendFrom(prev: map<T, real>, alpha: real, source: T)
      requires Valid() && source in prev
      modifies this
      ensures Valid() && edges == old(edges) && nodes.Keys == old(nodes).Keys
      ensures forall t | t in nodes :: nodes[t].outbound == old(nodes)[t].outbound
      ensures forall t | t in nodes :: nodes[t].weight == old(nodes)[t].weight + Flow(prev, edges, alpha, source, t)
    {
      var row := Row(edges, source);
      var targets := row.Keys;
      ghost var reached: set<T> := {};
      while targets != {}
        invariant targets !! reached && targets + reached == row.Keys
        invariant edges == old(edges) && nodes.Keys == old(nodes).Keys
        invariant forall t | t in nodes :: nodes[t].outbound == old(nodes)[t].outbound
        invariant forall t | t in nodes ::
                    nodes[t].weight == old(nodes)[t].weight + if t in reached then Flow(prev, edges, alpha, source, t) else 0.0
        decreases targets
      {
        var target :| target in targets;
        nodes := nodes[target := nodes[target].(weight := nodes[target].weight + alpha * prev[source] * row[target])];
        targets := targets - {target};
        reached := reached + {target};
      }
    }

    /** The total absolute change of every node's rank from prev. */
    method TotalChange(prev: map<T, real>) returns (delta: real)
      requires prev.Keys == nodes.Keys
      ensures delta == Delta(prev, Weights(nodes))
    {
      delta := 0.0;
      var keys := nodes.Keys;
      ghost var done: set<T> := {};
      ghost var changes := Changes(prev, Weights(nodes));
      while keys != {}
        invariant keys !! done && keys + done == nodes.Keys
        invariant delta == SumOver(done, changes)
        decreases keys
      {
        var key :| key in keys;
        var change := nodes[key].weight - prev[key];
        SumOverAdd(done, changes, key);
        delta := delta + if change >= 0.0 then change else -change;
        keys := keys - {key};
        done := done + {key};
      }
      assert changes.Keys == done;
    }

    /** Phase 4: reports every node once with its rank. */
    method Emit() returns (ranks: map<T, real>)
      ensures ranks.Keys == nodes.Keys
      ensures forall k | k in nodes :: ranks[k] == nodes[k].weight
      ensures ranks == Weights(nodes)
    {
      ranks := map[];
      var keys := nodes.Keys;
      while keys != {}
        invariant keys <= nodes.Keys && ranks.Keys == nodes.Keys - keys
        invariant forall k | k in ranks :: ranks[k] == nodes[k].weight
        decreases keys
      {
        var key :| key in keys;
        ranks := ranks[key := nodes[key].weight];
        keys := keys - {key};
      }
    }
  }
}
