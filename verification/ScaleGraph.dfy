/** The scale graph: a mutable, possibly cyclic graph of heap nodes with an index by value. */
module ScaleGraphs {
  import opened Collections
  import opened Reachability

  class ScaleNode {
    const value: Value
    var couldOverflow: bool
    var children: seq<ScaleNode>
    var parents: seq<ScaleNode>

    constructor (v: Value)
      ensures value == v && !couldOverflow && children == [] && parents == []
    {
      value, couldOverflow, children, parents := v, false, [], [];
    }
  }

  /** The links of the node for v are its edges, each listed once, in both directions. */
  ghost predicate Linked(nodes: set<ScaleNode>, es: Edges, v: Value, children: seq<ScaleNode>,
                         parents: seq<ScaleNode>)
  {
    && (forall c :: c in children ==> c in nodes && (v, c.value) in es)
    && (forall c :: c in nodes && (v, c.value) in es ==> c in children)
    && (forall q :: q in parents ==> q in nodes && (q.value, v) in es)
    && (forall q :: q in nodes && (q.value, v) in es ==> q in parents)
    && Distinct(children) && Distinct(parents)
  }

  /** One new edge, entered in both of its nodes, keeps the links of every node n. */
  lemma LinkKeepsLinked(nodes: set<ScaleNode>, es: Edges, f: ScaleNode, t: ScaleNode, n: ScaleNode,
                        children: seq<ScaleNode>, parents: seq<ScaleNode>)
    requires f in nodes && t in nodes && n in nodes && (f.value, t.value) !in es
    requires forall m, k :: m in nodes && k in nodes && m.value == k.value ==> m == k
    requires Linked(nodes, es, n.value, children, parents)
    ensures Linked(nodes, es + {(f.value, t.value)}, n.value,
                   children + if n == f then [t] else [], parents + if n == t then [f] else [])
  {
  }

  /** A scale graph as a value: its vertices and its edges. */
  datatype GraphState = GraphState(vs: set<Value>, es: Edges)

  class ScaleGraph {
    var graph: map<Value, ScaleNode>
    var scaleVars: seq<ScaleNode>

    ghost var edges: Edges  // what children and parents both represent
    ghost var Repr: set<ScaleNode>

    /** The index is keyed by the nodes' own values, and stays inside the representation. */
    ghost predicate Indexed()
      reads this
    {
      && (forall v :: v in graph ==> graph[v] in Repr && graph[v].value == v)
      && (forall n :: n in Repr ==> n.value in graph && graph[n.value] == n)
      && (forall n :: n in scaleVars ==> n in Repr)
      && Distinct(scaleVars)
      && (forall a, b :: (a, b) in edges ==> a in graph && b in graph)
    }

    ghost predicate Adjacent(n: ScaleNode)
      reads this, n
    {
      Linked(Repr, edges, n.value, n.children, n.parents)
    }

    ghost predicate Valid()
      reads this, Repr
    {
      Indexed() && forall n :: n in Repr ==> Adjacent(n)
    }

    ghost function State(): GraphState
      reads this
    {
      GraphState(graph.Keys, edges)
    }

    /** The marked values the graph was built from. */
    ghost function Roots(): set<Value>
      reads this
    {
      set n | n in scaleVars :: n.value
    }

    ghost predicate Unflagged()
      reads this, Repr
    {
      forall n :: n in Repr ==> !n.couldOverflow
    }

    /** Since the old state, vertices were only added, the marked nodes are the same, and no flag changed. */
    twostate predicate Grew()
      reads this, Repr
    {
      && old(Repr) <= Repr && (forall n :: n in Repr && n !in old(Repr) ==> fresh(n))
      && scaleVars == old(scaleVars) && old(graph.Keys) <= graph.Keys
      && (forall n :: n in old(Repr) ==> n.couldOverflow == old(n.couldOverflow))
      && (forall n :: n in Repr && n !in old(Repr) ==> !n.couldOverflow)
    }

    constructor ()
      ensures Valid() && fresh(Repr)
      ensures graph == map[] && edges == {} && scaleVars == []
    {
      graph, scaleVars, edges, Repr := map[], [], {}, {};
    }

    method AddVertex(val: Value, isRoot: bool, couldOverflow: bool := false)
      requires Valid()
      modifies this
      ensures Valid() && edges == old(edges)
      ensures val in old(graph) ==> graph == old(graph) && scaleVars == old(scaleVars) && Repr == old(Repr)
      ensures val !in old(graph) ==>
                && val in graph && fresh(graph[val]) && graph[val].couldOverflow == couldOverflow
                && graph == old(graph)[val := graph[val]] && Repr == old(Repr) + {graph[val]}
                && scaleVars == old(scaleVars) + if isRoot then [graph[val]] else []
    {
      if val !in graph {
        var v := new ScaleNode(val);
        v.couldOverflow := couldOverflow;
        if isRoot {
          scaleVars := scaleVars + [v];
        }
        graph := graph[val := v];
        Repr := Repr + {v};
        forall n | n in Repr ensures Adjacent(n) {
          assert n != v ==> old(Adjacent(n));
        }
      }
    }

    lemma ChildIsEdge(f: ScaleNode, t: ScaleNode)
      requires Valid() && f in Repr && t in Repr
      ensures t in f.children <==> (f.value, t.value) in edges
    {
    }

    method AddEdge(from: Value, to: Value)
      requires Valid()
      modifies this`edges, Repr
      ensures Valid()
      ensures edges == old(edges) + if from in graph && to in graph then {(from, to)} else {}
      ensures forall n :: n in Repr ==>
                n.children == old(n.children) + if edges != old(edges) && n.value == from then [graph[to]] else []
      ensures forall n :: n in Repr ==>
                n.parents == old(n.parents) + if edges != old(edges) && n.value == to then [graph[from]] else []
      ensures forall n :: n in Repr ==> n.couldOverflow == old(n.couldOverflow)
    {
      hide Linked;
      if from in graph && to in graph {
        var f, t := graph[from], graph[to];
        ChildIsEdge(f, t);
        if t !in f.children {
          f.children := f.children + [t];
          t.parents := t.parents + [f];
          edges := edges + {(from, to)};
          assert edges != old(edges);
          forall n | n in Repr ensures Adjacent(n) {
            assert old(Adjacent(n));
            LinkKeepsLinked(Repr, old(edges), f, t, n, old(n.children), old(n.parents));
            assert n.children == old(n.children) + if n == f then [t] else [];
            assert n.parents == old(n.parents) + if n == t then [f] else [];
          }
        }
      }
    }

    method GetVertex(val: Value) returns (n: ScaleNode?)
      requires Valid()
      ensures n == null <==> val !in graph
      ensures n != null ==> n == graph[val]
    {
      if val in graph { n := graph[val]; } else { n := null; }
    }

    /** unsigned int: the size is truncated to 32 bits. */
    function GetSize(): nat
      reads this
    {
      |graph| % 0x1_0000_0000
    }
  }
}
