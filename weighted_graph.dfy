/**
 * The undirected weighted graph of analyse/textrank.go: an adjacency list
 * per vertex plus the vertices in order of first appearance, and the final
 * step of `rank`, which sorts the vertex names and lists one ranked segment
 * per vertex.
 */
module WeightedGraph {
  import opened Counting
  import opened Sorting
  import opened Segments

  /** A directed half of an undirected edge, stored under its `start`. */
  datatype Edge = Edge(start: string, end: string, weight: real)

  /** The value held by an `undirectWeightedGraph`: adjacency lists and vertex order. */
  datatype Graph = Graph(adj: map<string, seq<Edge>>, keys: seq<string>)

  /** The adjacency list of `n`, empty for a vertex the graph does not hold. */
  function Adj(g: Graph, n: string): seq<Edge>
  {
    if n in g.adj then g.adj[n] else []
  }

  /** One half of `addEdge`: append `e` to the list of `n`, registering `n` if new. */
  function Append(g: Graph, n: string, e: Edge): Graph
  {
    if n in g.adj then Graph(g.adj[n := g.adj[n] + [e]], g.keys)
    else Graph(g.adj[n := [e]], g.keys + [n])
  }

  /** `addEdge(s, e, w)` on a graph value: the edge from `s`, then the edge from `e`. */
  function WithEdge(g: Graph, s: string, e: string, w: real): (r: Graph)
    ensures r.adj.Keys == g.adj.Keys + {s, e}
    ensures g.keys <= r.keys
    ensures forall n :: n in g.adj && n != s && n != e ==> r.adj[n] == g.adj[n]
  {
    Append(Append(g, s, Edge(s, e, w)), e, Edge(e, s, w))
  }

  /**
   * The shape every graph keeps: `keys` lists each vertex of the map once,
   * every vertex has at least one edge, and every edge is stored under its
   * start.
   */
  ghost predicate ValidGraph(g: Graph)
  {
    && (forall n :: n in g.adj <==> n in g.keys)
    && Distinct(g.keys)
    && (forall n :: n in g.adj ==> |g.adj[n]| > 0)
    && (forall n, x :: n in g.adj && x in g.adj[n] ==> x.start == n)
  }

  /** Undirected: each edge `n -> m` of weight `w` is matched by as many `m -> n`. */
  ghost predicate Undirected(g: Graph)
  {
    forall n, m, w :: multiset(Adj(g, n))[Edge(n, m, w)] == multiset(Adj(g, m))[Edge(m, n, w)]
  }

  /** The empty graph of `newUndirectWeightedGraph` is well formed and undirected. */
  lemma EmptyGraphValid()
    ensures ValidGraph(Graph(map[], [])) && Undirected(Graph(map[], []))
  {
  }

  /** `addEdge` appends exactly its two half-edges, each to the list of its start. */
  lemma WithEdgeAdj(g: Graph, s: string, e: string, w: real, n: string)
    ensures Adj(WithEdge(g, s, e, w), n)
         == Adj(g, n) + (if n == s then [Edge(s, e, w)] else []) + (if n == e then [Edge(e, s, w)] else [])
  {
  }

  /** Counting form of `WithEdgeAdj`: each list gains its half-edges and nothing else. */
  lemma WithEdgeCounts(g: Graph, s: string, e: string, w: real, n: string, x: Edge)
    ensures multiset(Adj(WithEdge(g, s, e, w), n))[x]
         == multiset(Adj(g, n))[x]
            + (if n == s && x == Edge(s, e, w) then 1 else 0)
            + (if n == e && x == Edge(e, s, w) then 1 else 0)
  {
    WithEdgeAdj(g, s, e, w, n);
  }

  /**
   * `addEdge` registers `s` and then `e` at the end of `keys`, each only if
   * it is not yet a vertex (a self-loop registers one vertex).
   */
  lemma WithEdgeKeys(g: Graph, s: string, e: string, w: real)
    ensures WithEdge(g, s, e, w).keys
         == g.keys + (if s in g.adj then [] else [s]) + (if e in g.adj || e == s then [] else [e])
  {
  }

  /** `addEdge` registers no vertex twice. */
  lemma WithEdgeDistinct(g: Graph, s: string, e: string, w: real)
    requires ValidGraph(g)
    ensures Distinct(WithEdge(g, s, e, w).keys)
  {
    var h := WithEdge(g, s, e, w);
    WithEdgeKeys(g, s, e, w);
    var extra := (if s in g.adj then [] else [s]) + (if e in g.adj || e == s then [] else [e]);
    assert h.keys == g.keys + extra;
    forall i, j | 0 <= i < j < |h.keys| ensures h.keys[i] != h.keys[j] {
      if j >= |g.keys| {
        assert h.keys[j] in extra;
        assert h.keys[j] !in g.adj;
        if i < |g.keys| {
          assert h.keys[i] in g.keys;
        }
      }
    }
  }

  /** A self-loop `addEdge(s, s, w)` gives `s` two entries and at most one new key. */
  lemma SelfLoop(g: Graph, s: string, w: real)
    ensures Adj(WithEdge(g, s, s, w), s) == Adj(g, s) + [Edge(s, s, w), Edge(s, s, w)]
    ensures WithEdge(g, s, s, w).keys == g.keys + (if s in g.adj then [] else [s])
  {
    WithEdgeAdj(g, s, s, w, s);
    WithEdgeKeys(g, s, s, w);
  }

  /** `addEdge` keeps a graph well formed. */
  lemma WithEdgeValid(g: Graph, s: string, e: string, w: real)
    requires ValidGraph(g)
    ensures ValidGraph(WithEdge(g, s, e, w))
  {
    var h := WithEdge(g, s, e, w);
    WithEdgeKeys(g, s, e, w);
    WithEdgeDistinct(g, s, e, w);
    forall n | n in h.adj ensures |h.adj[n]| > 0 && forall x :: x in h.adj[n] ==> x.start == n {
      WithEdgeAdj(g, s, e, w, n);
      assert Adj(h, n) == h.adj[n];
    }
  }

  /** `addEdge` keeps a graph undirected: it adds both halves of the edge. */
  lemma WithEdgeUndirected(g: Graph, s: string, e: string, w: real)
    requires Undirected(g)
    ensures Undirected(WithEdge(g, s, e, w))
  {
    var h := WithEdge(g, s, e, w);
    forall n, m, v ensures multiset(Adj(h, n))[Edge(n, m, v)] == multiset(Adj(h, m))[Edge(m, n, v)] {
      WithEdgeCounts(g, s, e, w, n, Edge(n, m, v));
      WithEdgeCounts(g, s, e, w, m, Edge(m, n, v));
    }
  }

  /**
   * `undirectWeightedGraph`. Its numeric TextRank iteration is not modelled:
   * `Rank` takes the final score of each vertex as the function `score`.
   */
  class UndirectWeightedGraph {
    var graph: map<string, seq<Edge>>
    var keys: seq<string>

    function State(): Graph
      reads this
    {
      Graph(graph, keys)
    }

    ghost predicate Valid()
      reads this
    {
      ValidGraph(State()) && Undirected(State())
    }

    /** `newUndirectWeightedGraph`: no vertex, no edge. */
    constructor ()
      ensures Valid()
      ensures graph == map[] && keys == []
    {
      graph := map[];
      keys := [];
      EmptyGraphValid();
    }

    /**
     * `addEdge`: appends `start -> end` to the list of `start` and
     * `end -> start` to the list of `end`, registering each new vertex in
     * `keys`.
     */
    method AddEdge(start: string, end: string, weight: real)
      requires Valid()
      modifies this
      ensures State() == WithEdge(old(State()), start, end, weight)
      ensures Valid()
    {
      ghost var g := State();
      if start !in graph {
        keys := keys + [start];
        graph := graph[start := [Edge(start, end, weight)]];
      } else {
        graph := graph[start := graph[start] + [Edge(start, end, weight)]];
      }
      if end !in graph {
        keys := keys + [end];
        graph := graph[end := [Edge(end, start, weight)]];
      } else {
        graph := graph[end := graph[end] + [Edge(end, start, weight)]];
      }
      WithEdgeValid(g, start, end, weight);
      WithEdgeUndirected(g, start, end, weight);
    }

    /**
     * `rank`, less its numeric part: sorts `keys` in place unless already
     * sorted, then lists one segment per vertex, best first.
     */
    method Rank(score: string -> real) returns (result: seq<Segment>)
      requires Valid()
      modifies this
      ensures Valid()
      ensures graph == old(graph)
      ensures multiset(keys) == multiset(old(keys))
      ensures StrictlySortedBy(keys, StrLess)
      ensures TopRanked(result, SegmentsOf(graph.Keys, score))
      ensures forall x :: x in result <==> x in SegmentsOf(graph.Keys, score)
      ensures |result| == |graph.Keys|
      ensures TextsDistinct(result)
    {
      SortKeys();
      var ws := ScoreVertices(score);
      SortEnumeration(ws, graph.Keys, score);
      result := InsertionSort(ws, RanksAbove);
      TopRankedPrefix(result, SegmentsOf(graph.Keys, score), |result|);
      assert result[..|result|] == result;
      TopRankedTextsDistinct(result, graph.Keys, score);
    }

    /** The first step of `rank`: sort the vertex names, unless they already are. */
    method SortKeys()
      requires Valid()
      modifies this
      ensures Valid()
      ensures graph == old(graph)
      ensures multiset(keys) == multiset(old(keys))
      ensures StrictlySortedBy(keys, StrLess)
      ensures AdjacentSortedBy(old(keys), StrLess) ==> keys == old(keys)
    {
      StrLessIsStrictTotalOrder();
      if !AdjacentSortedBy(keys, StrLess) {
        ghost var before := keys;
        keys := InsertionSort(keys, StrLess);
        InsertionSortSorted(before, StrLess);
        DistinctHasSingletons(before);
        SingletonsAreDistinct(keys);
        forall n ensures n in keys <==> n in before {
          assert n in keys <==> n in multiset(keys);
          assert n in before <==> n in multiset(before);
        }
      } else {
        AdjacentSortedIsSorted(keys, StrLess);
      }
      SortedDistinctIsStrict(keys, StrLess);
    }

    /** The last loop of `rank`: one segment per vertex, in map iteration order. */
    method ScoreVertices(score: string -> real) returns (ws: seq<Segment>)
      ensures Enumerates(ws, graph.Keys, score)
    {
      ws := [];
      var todo := graph.Keys;
      ghost var done: set<string> := {};
      EnumerateStart(graph.Keys, score);
      while todo != {}
        invariant Enumerating(ws, done, todo, graph.Keys, score)
      {
        var n :| n in todo;
        EnumerateNext(ws, done, todo, graph.Keys, score, n);
        ws := ws + [Segment(n, score(n))];
        done := done + {n};
        todo := todo - {n};
      }
      EnumerateEnd(ws, done, graph.Keys, score);
    }
  }
}
