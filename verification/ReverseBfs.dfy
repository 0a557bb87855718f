/** Shortest forward paths to one node by a backward search with parent pointers:
    `reverse_bfs` and the loops that follow it in lci-maps/examples/entry_check.rs. */
module ReverseBfs {
  import opened IndexSets

  /** The sentinels of an unreached node, the largest 32-bit and 64-bit values. */
  const UNREACHED: nat := 0xFFFF_FFFF
  const NO_NODE: nat := 0xFFFF_FFFF_FFFF_FFFF

  /** `rev[v]` lists the nodes with an edge to `v`. */
  type Graph = seq<seq<nat>>

  ghost predicate IsGraph(rev: Graph) {
    |rev| < UNREACHED && forall v :: 0 <= v < |rev| ==> forall u <- rev[v] :: u < |rev|
  }

  ghost predicate Edge(rev: Graph, u: nat, v: nat) {
    v < |rev| && u in rev[v]
  }

  /** A forward path of `k` edges from `u` to `target`. */
  ghost predicate Reaches(rev: Graph, u: nat, target: nat, k: nat)
    decreases k
  {
    if k == 0 then u == target else exists v: nat :: Edge(rev, u, v) && Reaches(rev, v, target, k - 1)
  }

  ghost predicate Shortest(rev: Graph, u: nat, target: nat, k: nat) {
    Reaches(rev, u, target, k) && forall j: nat :: Reaches(rev, u, target, j) ==> k <= j
  }

  // ---------------------------------------------------------------- the search state

  ghost predicate Reached(dist: seq<nat>, u: nat) {
    u < |dist| && dist[u] != UNREACHED
  }

  /** Distances are lengths of real paths and parent pointers are their first edges. */
  ghost predicate Grounded(rev: Graph, target: nat, dist: seq<nat>, next: seq<nat>) {
    && |dist| == |next| == |rev| && target < |rev| && dist[target] == 0
    && forall u: nat :: u < |rev| ==>
         if dist[u] == UNREACHED then next[u] == NO_NODE
         else if u == target then next[u] == NO_NODE && dist[u] == 0
         else next[u] < |rev| && Edge(rev, u, next[u]) && Reached(dist, next[u]) && dist[u] == dist[next[u]] + 1
  }

  ghost predicate Queued(dist: seq<nat>, queue: seq<nat>) {
    && (forall i :: 0 <= i < |queue| ==> Reached(dist, queue[i]))
    && (forall i, j :: 0 <= i < j < |queue| ==> queue[i] != queue[j] && dist[queue[i]] <= dist[queue[j]])
  }

  /** Finished nodes have passed their distance on. */
  ghost predicate Finished(rev: Graph, dist: seq<nat>, done: set<nat>) {
    forall v <- done :: v < |rev| && Reached(dist, v) &&
      forall u <- rev[v] :: Reached(dist, u) && dist[u] <= dist[v] + 1
  }

  /** Every reached node is finished or queued, and lies within one step of `level`. */
  ghost predicate Frontier(dist: seq<nat>, queue: seq<nat>, done: set<nat>, level: nat) {
    && (forall u: nat :: Reached(dist, u) ==> (u in done || u in queue) && dist[u] <= level + 1)
    && (forall u <- queue :: u !in done && (u < |dist| ==> level <= dist[u]))
  }

  /** Distances stay below the number of reached nodes, so they never meet the sentinel. */
  ghost predicate Small(dist: seq<nat>, reached: set<nat>) {
    && (forall u: nat :: u in reached <==> Reached(dist, u))
    && (forall u <- reached :: u < |dist| && dist[u] < |reached|)
    && |reached| <= |dist|
  }

  // ---------------------------------------------------------------- one push

  /** Node `u` is given its distance one step behind `v` and joins the queue. */
  lemma PushKeepsQueue(dist: seq<nat>, queue: seq<nat>, done: set<nat>, level: nat, u: nat)
    requires Queued(dist, queue) && Frontier(dist, queue, done, level)
    requires u < |dist| && dist[u] == UNREACHED && level + 1 < UNREACHED && u !in done
    ensures Queued(dist[u := level + 1], queue + [u]) && Frontier(dist[u := level + 1], queue + [u], done, level)
  {
  }

  lemma PushKeepsSmall(dist: seq<nat>, reached: set<nat>, u: nat, v: nat)
    requires Small(dist, reached) && u < |dist| && dist[u] == UNREACHED && v in reached && |dist| < UNREACHED
    ensures dist[v] + 1 < UNREACHED && Small(dist[u := dist[v] + 1], reached + {u})
  {
    var dist' := dist[u := dist[v] + 1];
    assert u !in reached;
    assert |reached + {u}| == |reached| + 1;
    assert dist[v] + 1 < UNREACHED;
    forall w: nat
      ensures w in reached + {u} <==> Reached(dist', w)
    {
      assert w != u ==> (Reached(dist, w) <==> Reached(dist', w));
    }
    assert reached + {u} <= Below(|dist|);
    SubsetSize(reached + {u}, Below(|dist|));
  }

  // ---------------------------------------------------------------- the search

  /** The search while node `v`, no longer queued, is being expanded. */
  ghost predicate Expanding(rev: Graph, target: nat, dist: seq<nat>, next: seq<nat>, queue: seq<nat>,
    done: set<nat>, v: nat, level: nat, reached: set<nat>)
  {
    && Grounded(rev, target, dist, next) && Queued(dist, queue) && Small(dist, reached)
    && Finished(rev, dist, done) && Frontier(dist, queue, done + {v}, level)
    && Reached(dist, v) && dist[v] == level
  }

  lemma {:induction false} PushKeeps(rev: Graph, target: nat, dist: seq<nat>, next: seq<nat>, queue: seq<nat>,
    done: set<nat>, v: nat, level: nat, reached: set<nat>, u: nat)
    requires IsGraph(rev) && Expanding(rev, target, dist, next, queue, done, v, level, reached)
    requires Edge(rev, u, v) && u < |dist| && dist[u] == UNREACHED
    ensures Expanding(rev, target, dist[u := level + 1], next[u := v], queue + [u], done, v, level, reached + {u})
    ensures level + 1 < UNREACHED
  {
    assert u !in done + {v};
    PushKeepsSmall(dist, reached, u, v);
    PushKeepsQueue(dist, queue, done + {v}, level, u);
  }

  /** The first `i` nodes with an edge to `v` have heard its distance. */
  ghost predicate Told(rev: Graph, dist: seq<nat>, v: nat, level: nat, i: nat)
    requires v < |rev| && i <= |rev[v]|
  {
    forall j :: 0 <= j < i ==> Reached(dist, rev[v][j]) && dist[rev[v][j]] <= level + 1
  }

  lemma PushKeepsTold(rev: Graph, dist: seq<nat>, v: nat, level: nat, i: nat)
    requires v < |rev| && i < |rev[v]| && Told(rev, dist, v, level, i) && level + 1 < UNREACHED
    requires rev[v][i] < |dist|
    ensures Told(rev, dist[rev[v][i] := level + 1], v, level, i + 1)
  {
  }

  lemma AllTold(rev: Graph, dist: seq<nat>, done: set<nat>, v: nat)
    requires v < |rev| && Reached(dist, v) && Finished(rev, dist, done) && Told(rev, dist, v, dist[v], |rev[v]|)
    ensures Finished(rev, dist, done + {v})
  {
  }

  /** Passes the distance of `v` on to the nodes with an edge to it. */
  method Expand(rev: Graph, target: nat, dist: array<nat>, next: array<nat>, queue0: seq<nat>, v: nat,
    ghost done: set<nat>, ghost level: nat, ghost reached0: set<nat>)
    returns (queue: seq<nat>, ghost reached: set<nat>)
    requires IsGraph(rev) && dist != next && v < |rev|
    requires Expanding(rev, target, dist[..], next[..], queue0, done, v, level, reached0)
    modifies dist, next
    ensures Expanding(rev, target, dist[..], next[..], queue, done, v, level, reached)
    ensures Finished(rev, dist[..], done + {v})
  {
    queue, reached := queue0, reached0;
    for i := 0 to |rev[v]|
      invariant Expanding(rev, target, dist[..], next[..], queue, done, v, level, reached)
      invariant Told(rev, dist[..], v, level, i)
    {
      var u := rev[v][i];
      assert u in rev[v];
      if dist[u] == UNREACHED {
        PushKeeps(rev, target, dist[..], next[..], queue, done, v, level, reached, u);
        PushKeepsTold(rev, dist[..], v, level, i);
        ghost var dist', next' := dist[..][u := level + 1], next[..][u := v];
        assert dist[v] == level;
        dist[u] := dist[v] + 1;
        next[u] := v;
        queue := queue + [u];
        reached := reached + {u};
        assert dist[..] == dist' && next[..] == next';
      } else {
        assert Reached(dist[..], u);
      }
    }
    AllTold(rev, dist[..], done, v);
  }

  /** Every node gets the length of its shortest forward path to `target`, or the sentinel exactly when it
      has none, and the next node on such a path. */
  method Search(rev: Graph, target: nat) returns (dist: array<nat>, next: array<nat>)
    requires IsGraph(rev) && target < |rev|
    ensures fresh(dist) && fresh(next) && dist != next
    ensures Grounded(rev, target, dist[..], next[..])
    ensures forall u: nat :: u < |rev| ==>
              if dist[..][u] == UNREACHED then forall k: nat :: !Reaches(rev, u, target, k)
              else Shortest(rev, u, target, dist[..][u])
  {
    var n := |rev|;
    dist := new nat[n](_ => UNREACHED);
    next := new nat[n](_ => NO_NODE);
    dist[target] := 0;
    var queue := [target];
    ghost var done: set<nat> := {};
    ghost var reached: set<nat> := {target};
    ghost var level: nat := 0;
    assert forall u: nat :: Reached(dist[..], u) <==> u == target;
    while queue != []
      invariant Grounded(rev, target, dist[..], next[..]) && Queued(dist[..], queue) && Small(dist[..], reached)
      invariant Finished(rev, dist[..], done) && Frontier(dist[..], queue, done, level)
      invariant done <= Below(n)
      decreases Below(n) - done
    {
      var v := queue[0];
      PopKeeps(dist[..], queue, done, level);
      level := dist[..][v];
      queue, reached := Expand(rev, target, dist, next, queue[1..], v, done, level, reached);
      assert v in Below(n) - done;
      done := done + {v};
    }
    assert forall u: nat :: Reached(dist[..], u) ==> u in done;
    SettledDistances(rev, target, dist[..], next[..], done);
  }

  lemma PopKeeps(dist: seq<nat>, queue: seq<nat>, done: set<nat>, level: nat)
    requires queue != [] && Queued(dist, queue) && Frontier(dist, queue, done, level)
    ensures Queued(dist, queue[1..]) && Reached(dist, queue[0])
    ensures queue[0] !in done && Frontier(dist, queue[1..], done + {queue[0]}, dist[queue[0]])
  {
  }

  // ---------------------------------------------------------------- what the search proves

  lemma {:induction false} DistanceIsAPath(rev: Graph, target: nat, dist: seq<nat>, next: seq<nat>, u: nat)
    requires Grounded(rev, target, dist, next) && Reached(dist, u)
    ensures Reaches(rev, u, target, dist[u])
    decreases dist[u]
  {
    if u != target {
      DistanceIsAPath(rev, target, dist, next, next[u]);
      assert Edge(rev, u, next[u]);
    }
  }

  /** With nothing queued, no path is shorter than the distance, and none leads to an unreached node. */
  lemma {:induction false} PathsAreCovered(rev: Graph, target: nat, dist: seq<nat>, done: set<nat>, u: nat, k: nat)
    requires |dist| == |rev| && target < |rev| && dist[target] == 0 && Finished(rev, dist, done)
    requires forall w: nat :: Reached(dist, w) ==> w in done
    requires Reaches(rev, u, target, k)
    ensures Reached(dist, u) && dist[u] <= k
    decreases k
  {
    if k > 0 {
      var v: nat :| Edge(rev, u, v) && Reaches(rev, v, target, k - 1);
      PathsAreCovered(rev, target, dist, done, v, k - 1);
      assert v in done;
    }
  }

  lemma SettledDistances(rev: Graph, target: nat, dist: seq<nat>, next: seq<nat>, done: set<nat>)
    requires Grounded(rev, target, dist, next) && Finished(rev, dist, done)
    requires forall w: nat :: Reached(dist, w) ==> w in done
    ensures forall u: nat :: u < |rev| ==>
              if dist[u] == UNREACHED then forall k: nat :: !Reaches(rev, u, target, k)
              else Shortest(rev, u, target, dist[u])
  {
    forall u: nat | u < |rev|
      ensures if dist[u] == UNREACHED then forall k: nat :: !Reaches(rev, u, target, k)
              else Shortest(rev, u, target, dist[u])
    {
      if Reached(dist, u) { DistanceIsAPath(rev, target, dist, next, u); }
      forall k: nat | Reaches(rev, u, target, k)
        ensures Reached(dist, u) && dist[u] <= k
      {
        PathsAreCovered(rev, target, dist, done, u, k);
      }
    }
  }

  /** The chain from a reached node follows real edges and ends at the target after exactly its distance. */
  method Chain(rev: Graph, target: nat, dist: seq<nat>, next: seq<nat>, h: nat) returns (chain: seq<nat>)
    requires IsGraph(rev) && Grounded(rev, target, dist, next) && Reached(dist, h)
    ensures |chain| == dist[h] + 1 && chain[0] == h && chain[|chain| - 1] == target
    ensures forall i :: 0 < i < |chain| ==> Edge(rev, chain[i - 1], chain[i])
  {
    chain := [h];
    var cur := h;
    while next[cur] != NO_NODE
      invariant Reached(dist, cur) && chain != [] && chain[0] == h && chain[|chain| - 1] == cur
      invariant |chain| + dist[cur] == dist[h] + 1
      invariant forall i :: 0 < i < |chain| ==> Edge(rev, chain[i - 1], chain[i])
      decreases dist[cur]
    {
      cur := next[cur];
      chain := chain + [cur];
    }
  }

  /** How many nodes reach the target within `d` steps. */
  method Closure(dist: seq<nat>, d: nat) returns (count: nat)
    ensures count == |set u: nat | u < |dist| && Reached(dist, u) && dist[u] <= d|
  {
    count := 0;
    ghost var seen: set<nat> := {};
    for i := 0 to |dist|
      invariant count == |seen|
      invariant forall u: nat :: u in seen <==> u < i && Reached(dist, u) && dist[u] <= d
    {
      if dist[i] != UNREACHED && dist[i] <= d {
        count := count + 1;
        seen := seen + {i};
      }
    }
    assert seen == set u: nat | u < |dist| && Reached(dist, u) && dist[u] <= d;
  }

  /** What `Closure` counts after a search: the nodes with a path of at most `d` edges. */
  lemma ClosureMeansPaths(rev: Graph, target: nat, dist: seq<nat>, d: nat, u: nat)
    requires |dist| == |rev| && u < |rev|
    requires if dist[u] == UNREACHED then forall k: nat :: !Reaches(rev, u, target, k)
             else Shortest(rev, u, target, dist[u])
    ensures (Reached(dist, u) && dist[u] <= d) <==> exists k: nat :: k <= d && Reaches(rev, u, target, k)
  {
    if Reached(dist, u) && dist[u] <= d { assert dist[u] <= d && Reaches(rev, u, target, dist[u]); }
  }
}
