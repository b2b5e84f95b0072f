/** The in-place topological sort that tolerates cycles (main/sort.c). */
module TopoSort {
  import opened Arithmetic

  datatype Visit = Unvisited | Visiting | Visited

  /** `adj(u, v)`: v is a child of u. Nodes are named by their position in the input. */
  type Relation = (nat, nat) -> bool

  ghost predicate Path(adj: Relation, p: seq<nat>)
  {
    p != [] && (|p| == 1 || (Path(adj, p[..|p| - 1]) && adj(p[|p| - 2], p[|p| - 1])))
  }

  ghost predicate Reaches(adj: Relation, u: nat, v: nat)
  {
    exists p :: Path(adj, p) && p[0] == u && p[|p| - 1] == v
  }

  lemma {:induction false} ReachesSelf(adj: Relation, u: nat)
    ensures Reaches(adj, u, u)
  {
    assert Path(adj, [u]);
  }

  lemma {:induction false} ReachesChild(adj: Relation, u: nat, v: nat, w: nat)
    requires Reaches(adj, u, v) && adj(v, w)
    ensures Reaches(adj, u, w)
  {
    var p :| Path(adj, p) && p[0] == u && p[|p| - 1] == v;
    assert (p + [w])[..|p|] == p;
    assert Path(adj, p + [w]);
  }

  /** Row-major index into the adjacency matrix. */
  function Index(n: nat, i: nat, j: nat): (k: nat)
    requires i < n && j < n
    ensures k < n * n
  {
    assert i * n + j < (i + 1) * n <= n * n;
    i * n + j
  }

  lemma {:induction false} IndexUnique(n: nat, i: nat, j: nat, i': nat, j': nat)
    requires i < n && j < n && i' < n && j' < n && Index(n, i, j) == Index(n, i', j')
    ensures i == i' && j == j'
  {
    assert n * (i - i') == j' - j;
    SmallMultiple(n, i - i');
  }

  ghost predicate IsMatrix(matrix: seq<bool>, n: nat, adj: Relation)
  {
    |matrix| == n * n && forall i, j | 0 <= i < n && 0 <= j < n :: matrix[Index(n, i, j)] == adj(i, j)
  }

  /** build_adjacency_matrix. */
  method BuildMatrix<T>(nodes: array<T>, isChild: (T, T) -> bool) returns (matrix: array<bool>)
    ensures fresh(matrix)
    ensures IsMatrix(matrix[..], nodes.Length, Child(nodes[..], isChild))
  {
    var n := nodes.Length;
    matrix := new bool[n * n](_ => false);
    for i := 0 to n
      invariant forall a, b | 0 <= a < n && 0 <= b < n ::
                  matrix[Index(n, a, b)] == (a < i && Child(nodes[..], isChild)(a, b))
    {
      for j := 0 to n
        invariant forall a, b | 0 <= a < n && 0 <= b < n ::
                    matrix[Index(n, a, b)] == ((a < i || (a == i && b < j)) && Child(nodes[..], isChild)(a, b))
      {
        if i != j {
          forall a, b | 0 <= a < n && 0 <= b < n && (a, b) != (i, j)
            ensures Index(n, a, b) != Index(n, i, j)
          {
            if Index(n, a, b) == Index(n, i, j) {
              IndexUnique(n, a, b, i, j);
            }
          }
          matrix[Index(n, i, j)] := isChild(nodes[i], nodes[j]);
        }
      }
    }
  }

  function Child<T>(nodes: seq<T>, isChild: (T, T) -> bool): Relation
  {
    (i: nat, j: nat) => i < |nodes| && j < |nodes| && i != j && isChild(nodes[i], nodes[j])
  }

  ghost function Remaining(state: seq<Visit>): set<nat>
  {
    set v: nat | v < |state| && state[v] == Unvisited
  }

  /** The nodes finished so far: `out` lists the visited ones, each once. */
  ghost predicate Listed(state: seq<Visit>, out: seq<nat>)
  {
    && (forall k | 0 <= k < |out| :: out[k] < |state|)
    && (forall k, l | 0 <= k < l < |out| :: out[k] != out[l])
    && (forall v | 0 <= v < |state| :: v in out <==> state[v] == Visited)
  }

  /** Every child of a listed node is listed before it, unless it leads back to that node. */
  ghost predicate ChildrenFirst(adj: Relation, n: nat, out: seq<nat>)
  {
    forall k, v | 0 <= k < |out| && 0 <= v < n && adj(out[k], v) :: v in out[..k] || Reaches(adj, v, out[k])
  }

  ghost predicate Stores<T>(nodes: seq<T>, sorted: seq<T>, out: seq<nat>)
  {
    |out| <= |sorted| && forall k | 0 <= k < |out| :: out[k] < |nodes| && sorted[k] == nodes[out[k]]
  }

  /** What a run of the depth-first search keeps. */
  ghost predicate Progress<T>(adj: Relation, state: seq<Visit>, nodes: seq<T>, sorted: seq<T>, out: seq<nat>)
  {
    && |nodes| == |state| == |sorted|
    && Listed(state, out) && ChildrenFirst(adj, |state|, out) && Stores(nodes, sorted, out)
  }

  /** Nodes that were being visited, or were done, stay so. */
  ghost predicate Kept(before: seq<Visit>, after: seq<Visit>)
  {
    && |before| == |after|
    && (forall v | 0 <= v < |before| && before[v] != Unvisited :: after[v] == before[v])
    && (forall v | 0 <= v < |before| && before[v] == Unvisited :: after[v] != Visiting)
  }

  lemma {:induction false} DistinctFit(s: seq<nat>, n: nat)
    requires forall k | 0 <= k < |s| :: s[k] < n
    requires forall k, l | 0 <= k < l < |s| :: s[k] != s[l]
    ensures |s| <= n
  {
    if s != [] {
      assert s[0] < n;
      if k :| 0 <= k < |s| && s[k] == n - 1 {
        DistinctFit(s[..k] + s[k + 1..], n - 1);
      } else {
        DistinctFit(s, n - 1);
      }
    }
  }

  lemma {:induction false} Entering(adj: Relation, state: seq<Visit>, out: seq<nat>, node: nat)
    requires Listed(state, out) && ChildrenFirst(adj, |state|, out) && node < |state| && state[node] == Unvisited
    ensures Listed(state[node := Visiting], out)
    ensures Remaining(state[node := Visiting]) < Remaining(state)
  {
    assert node in Remaining(state);
  }

  /** A node whose children have all been seen can be appended to the list. */
  lemma {:induction false} Finishing(adj: Relation, state: seq<Visit>, out: seq<nat>, node: nat)
    requires Listed(state, out) && ChildrenFirst(adj, |state|, out) && node < |state| && state[node] == Visiting
    requires forall v | 0 <= v < |state| && adj(node, v) :: state[v] != Unvisited
    requires forall v | 0 <= v < |state| && state[v] == Visiting :: Reaches(adj, v, node)
    ensures |out| < |state|
    ensures Listed(state[node := Visited], out + [node]) && ChildrenFirst(adj, |state|, out + [node])
  {
    var out' := out + [node];
    forall k, v | 0 <= k < |out'| && 0 <= v < |state| && adj(out'[k], v)
      ensures v in out'[..k] || Reaches(adj, v, out'[k])
    {
      if k < |out| {
        assert out'[..k] == out[..k];
      } else {
        assert out'[..k] == out;
      }
    }
    DistinctFit(out', |state|);
  }

  lemma {:induction false} LessRemains(before: seq<Visit>, after: seq<Visit>)
    requires Kept(before, after)
    ensures Remaining(after) <= Remaining(before)
  {
  }

  /** The nodes being visited lead to every child of the current one. */
  lemma {:induction false} LeadToChild(adj: Relation, before: seq<Visit>, state: seq<Visit>, node: nat, child: nat)
    requires node < |before| && Kept(before[node := Visiting], state) && adj(node, child)
    requires forall v | 0 <= v < |before| && before[v] == Visiting :: Reaches(adj, v, node)
    ensures forall v | 0 <= v < |state| && state[v] == Visiting :: Reaches(adj, v, node) && Reaches(adj, v, child)
  {
    forall v | 0 <= v < |state| && state[v] == Visiting
      ensures Reaches(adj, v, node) && Reaches(adj, v, child)
    {
      ReachesSelf(adj, node);
      ReachesChild(adj, v, node, child);
    }
  }

  lemma {:induction false} LeadToNode(adj: Relation, before: seq<Visit>, state: seq<Visit>, node: nat)
    requires node < |before| && Kept(before[node := Visiting], state)
    requires forall v | 0 <= v < |before| && before[v] == Visiting :: Reaches(adj, v, node)
    ensures forall v | 0 <= v < |state| && state[v] == Visiting :: Reaches(adj, v, node)
  {
    ReachesSelf(adj, node);
  }

  /** The four arrays are distinct objects, as topo_sort allocates them. */
  predicate Separate<T>(state: array<Visit>, matrix: array<bool>, nodes: array<T>, sorted: array<T>)
  {
    && sorted != nodes && state as object != sorted && state as object != nodes
    && matrix as object != sorted && matrix as object != state
  }

  /** dfs_visit. `out` is the ghost list of the positions stored in `sorted[..order]`. */
  method DfsVisit<T>(node: nat, state: array<Visit>, matrix: array<bool>, nodes: array<T>, sorted: array<T>,
                     order: nat, ghost adj: Relation, ghost out: seq<nat>)
    returns (order': nat, ghost out': seq<nat>)
    requires Separate(state, matrix, nodes, sorted) && IsMatrix(matrix[..], state.Length, adj)
    requires Progress(adj, state[..], nodes[..], sorted[..], out) && order == |out|
    requires node < state.Length && state[node] == Unvisited
    requires forall v | 0 <= v < state.Length && state[v] == Visiting :: Reaches(adj, v, node)
    modifies state, sorted
    ensures Progress(adj, state[..], nodes[..], sorted[..], out') && order' == |out'|
    ensures Kept(old(state[..]), state[..]) && state[node] == Visited
    decreases Remaining(state[..])
  {
    var n := state.Length;
    ghost var before := state[..];
    Entering(adj, before, out, node);
    state[node] := Visiting;
    assert state[..] == before[node := Visiting];
    order', out' := order, out;
    for i := 0 to n
      invariant Progress(adj, state[..], nodes[..], sorted[..], out') && order' == |out'|
      invariant Kept(before[node := Visiting], state[..])
      invariant forall v | 0 <= v < i && adj(node, v) :: state[v] != Unvisited
    {
      if matrix[Index(n, node, i)] && state[i] == Unvisited {
        assert matrix[..][Index(n, node, i)];
        LeadToChild(adj, before, state[..], node, i);
        LessRemains(before[node := Visiting], state[..]);
        order', out' := DfsVisit(i, state, matrix, nodes, sorted, order', adj, out');
      }
    }
    LeadToNode(adj, before, state[..], node);
    Finishing(adj, state[..], out', node);
    ghost var after := state[..];
    state[node] := Visited;
    assert state[..] == after[node := Visited];
    sorted[order'] := nodes[node];
    order', out' := order' + 1, out' + [node];
  }

  ghost predicate IsPermutation(perm: seq<nat>, n: nat)
  {
    && |perm| == n && (forall i | 0 <= i < n :: perm[i] < n)
    && (forall i, j | 0 <= i < j < n :: perm[i] != perm[j])
  }

  /** A parent comes before its child, unless the child leads back to it. */
  ghost predicate TopologicalOrder(adj: Relation, perm: seq<nat>)
  {
    forall i, j | 0 <= i < |perm| && 0 <= j < |perm| && adj(perm[i], perm[j]) && !Reaches(adj, perm[j], perm[i]) ::
      i < j
  }

  function Reversed(out: seq<nat>): (r: seq<nat>)
    ensures |r| == |out| && forall i | 0 <= i < |r| :: r[i] == out[|out| - 1 - i]
  {
    seq(|out|, i requires 0 <= i < |out| => out[|out| - 1 - i])
  }

  lemma {:induction false} AllListed(adj: Relation, state: seq<Visit>, out: seq<nat>)
    requires Listed(state, out) && ChildrenFirst(adj, |state|, out)
    requires forall v | 0 <= v < |state| :: state[v] == Visited
    ensures IsPermutation(Reversed(out), |state|) && TopologicalOrder(adj, Reversed(out))
  {
    var n, perm := |state|, Reversed(out);
    DistinctFit(out, n);
    Covers(out, n);
    forall i, j | 0 <= i < n && 0 <= j < n && adj(perm[i], perm[j]) && !Reaches(adj, perm[j], perm[i])
      ensures i < j
    {
      var k := n - 1 - i;
      assert perm[i] == out[k] && perm[j] in out[..k];
    }
  }

  lemma {:induction false} Covers(s: seq<nat>, n: nat)
    requires forall v | 0 <= v < n :: v in s
    ensures n <= |s|
  {
    if 0 < n {
      assert n - 1 in s;
      var k :| 0 <= k < |s| && s[k] == n - 1;
      var rest := s[..k] + s[k + 1..];
      forall v | 0 <= v < n - 1
        ensures v in rest
      {
        assert v in s;
        var l :| 0 <= l < |s| && s[l] == v;
        assert v == if l < k then rest[l] else rest[l - 1];
      }
      Covers(rest, n - 1);
    }
  }

  /** topo_sort: the input is permuted so that every parent precedes those of its children that do not lead back
      to it, whether or not the relation has cycles. */
  method Sort<T>(nodes: array<T>, isChild: (T, T) -> bool) returns (ghost perm: seq<nat>)
    modifies nodes
    ensures IsPermutation(perm, nodes.Length)
    ensures forall i | 0 <= i < nodes.Length :: nodes[i] == old(nodes[perm[i]])
    ensures TopologicalOrder(Child(old(nodes[..]), isChild), perm)
  {
    var n := nodes.Length;
    ghost var adj := Child(nodes[..], isChild);
    var matrix := BuildMatrix(nodes, isChild);
    var state := new Visit[n](_ => Unvisited);
    var sorted := new T[n](i requires 0 <= i < nodes.Length reads nodes => nodes[i]);
    var order: nat := 0;
    ghost var out: seq<nat> := [];
    for node := 0 to n
      invariant Progress(adj, state[..], nodes[..], sorted[..], out) && order == |out|
      invariant nodes[..] == old(nodes[..]) && IsMatrix(matrix[..], n, adj)
      invariant forall v | 0 <= v < n :: state[v] != Visiting
      invariant forall v | 0 <= v < node :: state[v] == Visited
    {
      if state[node] == Unvisited {
        order, out := DfsVisit(node, state, matrix, nodes, sorted, order, adj, out);
      }
    }
    AllListed(adj, state[..], out);
    perm := Reversed(out);
    assert forall i | 0 <= i < n :: sorted[n - 1 - i] == nodes[perm[i]];
    CopyReversed(nodes, sorted);
  }

  /** The last loop of topo_sort. */
  method CopyReversed<T>(nodes: array<T>, sorted: array<T>)
    requires nodes != sorted && nodes.Length == sorted.Length
    modifies nodes
    ensures forall i | 0 <= i < nodes.Length :: nodes[i] == sorted[nodes.Length - 1 - i]
  {
    for i := 0 to nodes.Length
      invariant forall k | 0 <= k < i :: nodes[k] == sorted[nodes.Length - 1 - k]
    {
      nodes[i] := sorted[nodes.Length - 1 - i];
    }
  }
}
