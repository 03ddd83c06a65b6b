/**
  The query-planning helpers of the knowledge base: the order in which a
  dependency group's literals are computed, the split of a query's
  literals into negated, stored-only and computable ones, and inserting a
  statement into every knowledge graph.

  A dependency graph is a sequence of nodes; a node's position stands for
  its identity (the source compares node addresses), and its neighbours
  are positions in the same graph.
 */
module KnowledgeBase {
  import opened Wrappers
  import opened Terms
  import Reasoner

  /** A dependency node: the variable count of its literal and its
      neighbours. */
  datatype Node = Node(numVars: nat, neighbors: seq<nat>)

  type Graph = seq<Node>

  /** Every neighbour is a node of the graph. */
  predicate WellFormed(g: Graph) {
    forall v, j :: 0 <= v < |g| && 0 <= j < |g[v].neighbors| ==> g[v].neighbors[j] < |g|
  }

  predicate Edge(g: Graph, v: nat, u: nat) {
    v < |g| && u in g[v].neighbors
  }

  // ---------------------------------------------------------------------
  // The neighbour priority (`CompareNodes`)
  // ---------------------------------------------------------------------

  /** `a` leaves a neighbour queue before `b`: fewer variables first, then
      fewer neighbours, then the greater identity. */
  predicate Prefer(g: Graph, a: nat, b: nat)
    requires a < |g| && b < |g|
  {
    if g[a].numVars != g[b].numVars then g[a].numVars < g[b].numVars
    else if |g[a].neighbors| != |g[b].neighbors| then |g[a].neighbors| < |g[b].neighbors|
    else a > b
  }

  /** The priority is a strict total order on distinct nodes. */
  lemma {:induction false} PreferStrictTotal(g: Graph, a: nat, b: nat, c: nat)
    requires a < |g| && b < |g| && c < |g|
    ensures !Prefer(g, a, a)
    ensures a != b ==> (Prefer(g, a, b) <==> !Prefer(g, b, a))
    ensures Prefer(g, a, b) && Prefer(g, b, c) ==> Prefer(g, a, c)
  {
  }

  /** The top of a neighbour queue: the node preferred over all others in it. */
  function Best(g: Graph, rem: seq<nat>): (r: nat)
    requires |rem| > 0 && forall u :: u in rem ==> u < |g|
    ensures r in rem
    ensures forall u :: u in rem ==> u == r || Prefer(g, r, u)
  {
    if |rem| == 1 then rem[0]
    else
      assert forall u :: u in rem[1..] ==> u in rem;
      assert forall u :: u in rem ==> u == rem[0] || u in rem[1..];
      var b := Best(g, rem[1..]);
      assert b in rem && rem[0] in rem;
      if rem[0] == b || Prefer(g, rem[0], b) then
        PreferTransitive(g, rem[0], b, rem[1..]);
        rem[0]
      else
        PreferStrictTotal(g, rem[0], b, b);
        b
  }

  lemma {:induction false} PreferTransitive(g: Graph, a: nat, b: nat, rest: seq<nat>)
    requires a < |g| && b < |g| && (a == b || Prefer(g, a, b))
    requires forall u :: u in rest ==> u < |g| && (u == b || Prefer(g, b, u))
    ensures forall u :: u in rest ==> u == a || Prefer(g, a, u)
  {
    forall u | u in rest
      ensures u == a || Prefer(g, a, u)
    {
      PreferStrictTotal(g, a, b, u);
    }
  }

  /** The queue without one occurrence of `x`. */
  function RemoveOne(rem: seq<nat>, x: nat): (r: seq<nat>)
    requires x in rem
    ensures multiset(r) == multiset(rem) - multiset{x}
    ensures |r| == |rem| - 1
    ensures forall u :: u in r ==> u in rem
    ensures forall u :: u in rem && u != x ==> u in r
  {
    assert rem == [rem[0]] + rem[1..];
    if rem[0] == x then rem[1..]
    else [rem[0]] + RemoveOne(rem[1..], x)
  }

  /** The inner loop of `createComputationSequence`: pops neighbours, best
      first, until one is unvisited or the queue is empty. */
  function PopUnvisited(g: Graph, rem: seq<nat>, visited: set<nat>): (r: (seq<nat>, Option<nat>))
    requires forall u :: u in rem ==> u < |g|
    ensures forall u :: u in r.0 ==> u in rem
    ensures r.1.None? ==> r.0 == [] && forall u :: u in rem ==> u in visited
    ensures r.1.Some? ==> r.1.value in rem && r.1.value !in visited
    ensures r.1.Some? ==> forall u :: u in rem && u !in visited ==> u == r.1.value || Prefer(g, r.1.value, u)
    ensures forall u :: u in rem ==> u in r.0 || u in visited || r.1 == Some(u)
    decreases |rem|
  {
    if rem == [] then ([], None)
    else
      var t := Best(g, rem);
      var rest := RemoveOne(rem, t);
      if t !in visited then (rest, Some(t)) else PopUnvisited(g, rest, visited)
  }

  // ---------------------------------------------------------------------
  // Reachability
  // ---------------------------------------------------------------------

  ghost predicate Path(g: Graph, p: seq<nat>) {
    forall i :: 0 <= i < |p| - 1 ==> Edge(g, p[i], p[i + 1])
  }

  /** `v` can be reached from `s` through neighbour links. */
  ghost predicate Reachable(g: Graph, s: nat, v: nat) {
    exists p :: |p| > 0 && p[0] == s && p[|p| - 1] == v && Path(g, p)
  }

  lemma {:induction false} ReachableStart(g: Graph, s: nat)
    ensures Reachable(g, s, s)
  {
    assert Path(g, [s]);
  }

  lemma {:induction false} ReachableStep(g: Graph, s: nat, v: nat, u: nat)
    requires Reachable(g, s, v) && Edge(g, v, u)
    ensures Reachable(g, s, u)
  {
    var p :| |p| > 0 && p[0] == s && p[|p| - 1] == v && Path(g, p);
    var q := p + [u];
    assert Path(g, q) by {
      forall i | 0 <= i < |q| - 1
        ensures Edge(g, q[i], q[i + 1])
      {
        if i < |p| - 1 {
          assert q[i] == p[i] && q[i + 1] == p[i + 1];
        }
      }
    }
    assert q[0] == s && q[|q| - 1] == u;
  }

  /** A set that holds `s` and is closed under neighbour links holds every
      node reachable from `s`. */
  lemma {:induction false} ClosedHoldsReachable(g: Graph, s: nat, closed: set<nat>, p: seq<nat>)
    requires s in closed
    requires forall v, u :: v in closed && Edge(g, v, u) ==> u in closed
    requires |p| > 0 && p[0] == s && Path(g, p)
    ensures p[|p| - 1] in closed
    decreases |p|
  {
    if |p| > 1 {
      var q := p[..|p| - 1];
      assert Path(g, q) by {
        forall i | 0 <= i < |q| - 1
          ensures Edge(g, q[i], q[i + 1])
        {
          assert q[i] == p[i] && q[i + 1] == p[i + 1];
        }
      }
      ClosedHoldsReachable(g, s, closed, q);
      assert Edge(g, p[|p| - 2], p[|p| - 1]);
    }
  }

  // ---------------------------------------------------------------------
  // The computation sequence
  // ---------------------------------------------------------------------

  /** A node on the search stack with the neighbours not yet popped from its
      queue. */
  datatype Entry = Entry(node: nat, rem: seq<nat>)

  function Weight(stack: seq<Entry>): (r: nat)
    ensures stack != [] ==> r > Weight(stack[..|stack| - 1])
  {
    if stack == [] then 0 else Weight(stack[..|stack| - 1]) + |stack[|stack| - 1].rem| + 1
  }

  /** The identities below `n`. */
  function Below(n: nat): (r: set<nat>)
    ensures forall v: nat :: v in r <==> v < n
    ensures |r| == n
  {
    if n == 0 then {} else Below(n - 1) + {n - 1}
  }

  predicate Distinct(s: seq<nat>) {
    forall i, j :: 0 <= i < j < |s| ==> s[i] != s[j]
  }

  /** The sequence lists the visited nodes once each, starting with
      `first`. */
  ghost predicate Listed(first: nat, visited: set<nat>, sequence: seq<nat>) {
    && |sequence| > 0 && sequence[0] == first
    && (forall x :: x in visited <==> x in sequence)
    && Distinct(sequence)
  }

  /** Every visited node is a node of the graph reachable from `first`. */
  ghost predicate Reached(g: Graph, first: nat, visited: set<nat>) {
    forall x :: x in visited ==> x < |g| && Reachable(g, first, x)
  }

  /** Every node after the first neighbours an earlier one. */
  ghost predicate Linked(g: Graph, sequence: seq<nat>) {
    forall k :: 0 < k < |sequence| ==> exists j :: 0 <= j < k && Edge(g, sequence[j], sequence[k])
  }

  /** The stacked nodes are visited and distinct, and their queues hold
      neighbours only. */
  predicate Stacked(g: Graph, stack: seq<Entry>, visited: set<nat>) {
    && (forall i :: 0 <= i < |stack| ==> stack[i].node in visited)
    && (forall i, u :: 0 <= i < |stack| && u in stack[i].rem ==> Edge(g, stack[i].node, u))
    && (forall i, j :: 0 <= i < j < |stack| ==> stack[i].node != stack[j].node)
  }

  /** A visited node's neighbour is visited or still queued on its entry. */
  ghost predicate Pending(g: Graph, stack: seq<Entry>, visited: set<nat>) {
    forall v, u :: v in visited && Edge(g, v, u) ==>
      u in visited || exists i :: 0 <= i < |stack| && stack[i].node == v && u in stack[i].rem
  }

  /** The stack after the front entry's queue shrank to `rem`: the entry
      stays while `rem` is not empty and is dropped otherwise. */
  function Shrunk(stack: seq<Entry>, rem: seq<nat>): (r: seq<Entry>)
    requires |stack| > 0
    ensures |r| <= |stack| && forall i :: 0 <= i < |r| ==> r[i].node == stack[i].node
  {
    var below := stack[..|stack| - 1];
    if rem == [] then below else below + [Entry(stack[|stack| - 1].node, rem)]
  }

  lemma {:induction false} PopStacked(g: Graph, stack: seq<Entry>, visited: set<nat>, rem: seq<nat>)
    requires Stacked(g, stack, visited) && |stack| > 0
    requires forall u :: u in rem ==> u in stack[|stack| - 1].rem
    ensures Stacked(g, Shrunk(stack, rem), visited)
  {
    var next := Shrunk(stack, rem);
    forall i, u | 0 <= i < |next| && u in next[i].rem
      ensures Edge(g, next[i].node, u)
    {
      if i < |stack| - 1 {
        assert next[i] == stack[i];
      }
    }
  }

  /** Dropping popped neighbours keeps the pending ones queued, as long as
      every popped neighbour is visited. */
  lemma {:induction false} PopPending(g: Graph, stack: seq<Entry>, visited: set<nat>, rem: seq<nat>)
    requires Stacked(g, stack, visited) && Pending(g, stack, visited) && |stack| > 0
    requires forall u :: u in stack[|stack| - 1].rem ==> u in rem || u in visited
    ensures Pending(g, Shrunk(stack, rem), visited)
  {
    var top := |stack| - 1;
    var next := Shrunk(stack, rem);
    forall v, u | v in visited && Edge(g, v, u) && u !in visited
      ensures exists i :: 0 <= i < |next| && next[i].node == v && u in next[i].rem
    {
      var i :| 0 <= i < |stack| && stack[i].node == v && u in stack[i].rem;
      if i < top {
        assert next[i] == stack[i];
      } else {
        assert next[top] == Entry(stack[top].node, rem);
      }
    }
  }

  lemma {:induction false} PushListed(first: nat, visited: set<nat>, sequence: seq<nat>, t: nat)
    requires Listed(first, visited, sequence) && t !in visited
    ensures Listed(first, visited + {t}, sequence + [t])
  {
  }

  lemma {:induction false} PushReached(g: Graph, first: nat, visited: set<nat>, parent: nat, t: nat)
    requires Reached(g, first, visited)
    requires parent in visited && Edge(g, parent, t) && t < |g|
    ensures Reached(g, first, visited + {t})
  {
    ReachableStep(g, first, parent, t);
  }

  lemma {:induction false} PushLinked(g: Graph, sequence: seq<nat>, parent: nat, t: nat)
    requires Linked(g, sequence) && parent in sequence && Edge(g, parent, t)
    ensures Linked(g, sequence + [t])
  {
    var sequence' := sequence + [t];
    var j :| 0 <= j < |sequence| && sequence[j] == parent;
    assert Edge(g, sequence'[j], sequence'[|sequence|]);
    forall k | 0 < k < |sequence'|
      ensures exists j :: 0 <= j < k && Edge(g, sequence'[j], sequence'[k])
    {
      if k < |sequence| {
        var j2 :| 0 <= j2 < k && Edge(g, sequence[j2], sequence[k]);
        assert sequence'[j2] == sequence[j2] && sequence'[k] == sequence[k];
      }
    }
  }

  lemma {:induction false} PushStacked(g: Graph, stack: seq<Entry>, visited: set<nat>, t: nat)
    requires Stacked(g, stack, visited) && t < |g| && t !in visited
    ensures Stacked(g, stack + [Entry(t, g[t].neighbors)], visited + {t})
  {
    var stack' := stack + [Entry(t, g[t].neighbors)];
    forall i | 0 <= i < |stack|
      ensures stack'[i] == stack[i]
    {
    }
  }

  /** The front entry's queue shrank to `rem` by popping visited
      neighbours and `t`, which is now visited and on top of the stack with
      all its neighbours queued. */
  lemma {:induction false} PopPushPending(g: Graph, stack: seq<Entry>, visited: set<nat>, rem: seq<nat>, t: nat)
    requires Pending(g, stack, visited) && |stack| > 0 && t < |g|
    requires forall u :: u in stack[|stack| - 1].rem ==> u in rem || u in visited || u == t
    ensures Pending(g, Shrunk(stack, rem) + [Entry(t, g[t].neighbors)], visited + {t})
  {
    var top := |stack| - 1;
    var shrunk := Shrunk(stack, rem);
    var next := shrunk + [Entry(t, g[t].neighbors)];
    forall v, u | v in visited + {t} && Edge(g, v, u) && u !in visited + {t}
      ensures exists i :: 0 <= i < |next| && next[i].node == v && u in next[i].rem
    {
      if v == t {
        assert next[|shrunk|].node == v && u in next[|shrunk|].rem;
      } else {
        var i :| 0 <= i < |stack| && stack[i].node == v && u in stack[i].rem;
        if i < top {
          assert next[i] == stack[i];
        } else {
          assert next[top] == Entry(stack[top].node, rem);
        }
      }
    }
  }

  /** What the front entry contributes: a visited node whose queue holds
      nodes of the graph, none of them stacked unless visited. */
  lemma {:induction false} FrontFacts(g: Graph, stack: seq<Entry>, visited: set<nat>, front: Entry)
    requires WellFormed(g) && Stacked(g, stack, visited) && |stack| > 0 && front == stack[|stack| - 1]
    ensures front.node in visited
    ensures forall u :: u in front.rem ==> Edge(g, front.node, u) && u < |g|
    ensures forall t, i :: t !in visited && 0 <= i < |stack| ==> stack[i].node != t
  {
  }

  /** Every neighbour of `v` is already listed in `done`. */
  predicate Closed(g: Graph, v: nat, done: seq<nat>) {
    v < |g| && forall u :: u in g[v].neighbors ==> u in done
  }

  /**
    The walk's rule for the node listed after `done`: it is an unlisted
    neighbour of the latest listed node that still has one, and the
    priority prefers it over that node's other unlisted neighbours.
   */
  predicate Chosen(g: Graph, done: seq<nat>, t: nat) {
    exists j :: 0 <= j < |done| && ChosenFrom(g, done, j, t)
  }

  predicate ChosenFrom(g: Graph, done: seq<nat>, j: nat, t: nat)
    requires j < |done|
  {
    && done[j] < |g| && t < |g|
    && (forall j' :: j < j' < |done| ==> Closed(g, done[j'], done))
    && t in g[done[j]].neighbors && t !in done
    && (forall u :: u in g[done[j]].neighbors && u !in done ==> u < |g| && (u == t || Prefer(g, t, u)))
  }

  /** The rule leaves no choice: one node follows any listed prefix. */
  lemma {:induction false} ChosenUnique(g: Graph, done: seq<nat>, t1: nat, t2: nat)
    requires Chosen(g, done, t1) && Chosen(g, done, t2)
    ensures t1 == t2
  {
    var j1 :| 0 <= j1 < |done| && ChosenFrom(g, done, j1, t1);
    var j2 :| 0 <= j2 < |done| && ChosenFrom(g, done, j2, t2);
    if j1 == j2 {
      PreferStrictTotal(g, t1, t2, t2);
    }
  }

  /** Where the stack's nodes stand in the sequence: in stack order. */
  ghost predicate Positions(stack: seq<Entry>, pos: seq<int>, sequence: seq<nat>) {
    && |pos| == |stack|
    && (forall i :: 0 <= i < |stack| ==> 0 <= pos[i] < |sequence| && sequence[pos[i]] == stack[i].node)
    && (forall i, i' :: 0 <= i < i' < |stack| ==> pos[i] < pos[i'])
  }

  /** The neighbour popped from the front entry is the walk's choice. */
  lemma {:induction false} ChosenStep(g: Graph, first: nat, visited: set<nat>, sequence: seq<nat>, stack: seq<Entry>,
                                      pos: seq<int>, t: nat)
    requires WellFormed(g) && Listed(first, visited, sequence) && Stacked(g, stack, visited)
    requires Pending(g, stack, visited) && Positions(stack, pos, sequence) && |stack| > 0
    requires forall v :: v in visited ==> v < |g|
    requires t in stack[|stack| - 1].rem && t !in visited
    requires forall u :: u in stack[|stack| - 1].rem && u !in visited ==> u == t || Prefer(g, t, u)
    ensures Chosen(g, sequence, t)
  {
    var top := |stack| - 1;
    var front := stack[top];
    var j := pos[top];
    forall j' | j < j' < |sequence|
      ensures Closed(g, sequence[j'], sequence)
    {
      var v := sequence[j'];
      assert v in visited;
      forall i | 0 <= i < |stack|
        ensures pos[i] <= pos[top] && stack[i].node != v
      {
      }
      forall u | u in g[v].neighbors
        ensures u in sequence
      {
        assert Edge(g, v, u);
      }
    }
    assert Edge(g, front.node, t);
    forall u | u in g[front.node].neighbors && u !in sequence
      ensures u < |g| && (u == t || Prefer(g, t, u))
    {
      assert Edge(g, front.node, u);
      var i :| 0 <= i < |stack| && stack[i].node == front.node && u in stack[i].rem;
      assert i == top;
    }
    assert ChosenFrom(g, sequence, j, t);
  }

  /** Every node after the first was the rule's choice at its turn. */
  predicate AllChosen(g: Graph, s: seq<nat>)
    decreases |s|
  {
    |s| <= 1 || (AllChosen(g, s[..|s| - 1]) && Chosen(g, s[..|s| - 1], s[|s| - 1]))
  }

  lemma {:induction false} AllChosenPush(g: Graph, s: seq<nat>, t: nat)
    requires AllChosen(g, s) && Chosen(g, s, t)
    ensures AllChosen(g, s + [t])
  {
    assert (s + [t])[..|s|] == s;
  }

  /** The rule held at every turn of a walk that satisfies `AllChosen`. */
  lemma {:induction false} AllChosenAt(g: Graph, s: seq<nat>, k: nat)
    requires AllChosen(g, s) && 0 < k < |s|
    ensures Chosen(g, s[..k], s[k])
    decreases |s|
  {
    var s' := s[..|s| - 1];
    if k < |s| - 1 {
      AllChosenAt(g, s', k);
      assert s'[..k] == s[..k];
    }
  }

  /** The earliest node of the group with the fewest neighbours. */
  method PickFirst(g: Graph, group: seq<nat>) returns (first: nat)
    requires |group| > 0 && forall k :: 0 <= k < |group| ==> group[k] < |g|
    ensures exists fi :: 0 <= fi < |group| && group[fi] == first && forall k :: 0 <= k < fi ==> |g[group[k]].neighbors| > |g[first].neighbors|
    ensures forall k :: 0 <= k < |group| ==> |g[first].neighbors| <= |g[group[k]].neighbors|
  {
    var fi := 0;
    first := group[0];
    var i := 1;
    while i < |group|
      invariant 1 <= i <= |group| && 0 <= fi < i && group[fi] == first
      invariant forall k :: 0 <= k < fi ==> |g[group[k]].neighbors| > |g[first].neighbors|
      invariant forall k :: 0 <= k < i ==> |g[first].neighbors| <= |g[group[k]].neighbors|
    {
      if |g[group[i]].neighbors| < |g[first].neighbors| {
        fi := i;
        first := group[i];
      }
      i := i + 1;
    }
  }

  /** What holds between two steps of the walk from `first`. */
  ghost predicate Walking(g: Graph, first: nat, visited: set<nat>, sequence: seq<nat>, stack: seq<Entry>, pos: seq<int>) {
    && Listed(first, visited, sequence)
    && Reached(g, first, visited)
    && Linked(g, sequence)
    && Stacked(g, stack, visited)
    && Pending(g, stack, visited)
    && visited <= Below(|g|)
    && Positions(stack, pos, sequence)
    && AllChosen(g, sequence)
  }

  /** One step of the walk: pop the front entry's next unvisited
      neighbour and list it, or drop the entry when none is left. */
  method Advance(g: Graph, first: nat, visited: set<nat>, sequence: seq<nat>, stack: seq<Entry>, ghost pos: seq<int>)
    returns (visited': set<nat>, sequence': seq<nat>, stack': seq<Entry>, ghost pos': seq<int>)
    requires WellFormed(g) && Walking(g, first, visited, sequence, stack, pos) && stack != []
    ensures Walking(g, first, visited', sequence', stack', pos')
    ensures Below(|g|) - visited' < Below(|g|) - visited || (visited' == visited && Weight(stack') < Weight(stack))
  {
    var front := stack[|stack| - 1];
    FrontFacts(g, stack, visited, front);
    var (rem, next) := PopUnvisited(g, front.rem, visited);
    PopStacked(g, stack, visited, rem);
    PopPositions(stack, pos, sequence, rem);
    var shrunk := Shrunk(stack, rem);
    ghost var shrunkPos := if rem == [] then pos[..|pos| - 1] else pos;
    if next.None? {
      PopPending(g, stack, visited, rem);
      visited', sequence', stack', pos' := visited, sequence, shrunk, shrunkPos;
    } else {
      var t := next.value;
      ChosenStep(g, first, visited, sequence, stack, pos, t);
      AllChosenPush(g, sequence, t);
      PushPositions(shrunk, shrunkPos, sequence, t, g[t].neighbors);
      PushListed(first, visited, sequence, t);
      PushReached(g, first, visited, front.node, t);
      PushLinked(g, sequence, front.node, t);
      PushStacked(g, shrunk, visited, t);
      PopPushPending(g, stack, visited, rem, t);
      visited', sequence' := visited + {t}, sequence + [t];
      stack', pos' := shrunk + [Entry(t, g[t].neighbors)], shrunkPos + [|sequence|];
    }
  }

  /** `createComputationSequence`: a depth-first walk from the group's
      first node that visits neighbours in priority order and lists each
      node the first time it is reached. */
  method ComputationSequence(g: Graph, group: seq<nat>) returns (sequence: seq<nat>)
    requires WellFormed(g)
    requires |group| > 0 && forall k :: 0 <= k < |group| ==> group[k] < |g|
    ensures |sequence| > 0
    ensures exists fi :: 0 <= fi < |group| && group[fi] == sequence[0]
                         && forall k :: 0 <= k < fi ==> |g[group[k]].neighbors| > |g[sequence[0]].neighbors|
    ensures forall k :: 0 <= k < |group| ==> |g[sequence[0]].neighbors| <= |g[group[k]].neighbors|
    ensures Distinct(sequence)
    ensures forall k :: 0 < k < |sequence| ==> exists j :: 0 <= j < k && Edge(g, sequence[j], sequence[k])
    ensures forall v :: v in sequence <==> Reachable(g, sequence[0], v)
    ensures forall k :: 0 <= k < |sequence| ==> sequence[k] < |g|
    ensures AllChosen(g, sequence)
  {
    var first := PickFirst(g, group);
    var visited := {first};
    sequence := [first];
    var stack := [Entry(first, g[first].neighbors)];
    ghost var pos: seq<int> := [0];
    WalkStart(g, first);
    while stack != []
      invariant Walking(g, first, visited, sequence, stack, pos)
      decreases Below(|g|) - visited, Weight(stack)
    {
      visited, sequence, stack, pos := Advance(g, first, visited, sequence, stack, pos);
    }
    WalkDone(g, first, visited, sequence, pos);
  }

  lemma {:induction false} WalkStart(g: Graph, first: nat)
    requires WellFormed(g) && first < |g|
    ensures Walking(g, first, {first}, [first], [Entry(first, g[first].neighbors)], [0])
  {
    ReachableStart(g, first);
    var stack := [Entry(first, g[first].neighbors)];
    forall v, u | v in {first} && Edge(g, v, u) && u !in {first}
      ensures exists i :: 0 <= i < |stack| && stack[i].node == v && u in stack[i].rem
    {
      assert stack[0].node == v && u in stack[0].rem;
    }
  }

  /** With the stack empty, the visited nodes are closed under neighbour
      links, so they are all the nodes reachable from `first`. */
  lemma {:induction false} WalkDone(g: Graph, first: nat, visited: set<nat>, sequence: seq<nat>, pos: seq<int>)
    requires Walking(g, first, visited, sequence, [], pos)
    ensures |sequence| > 0 && sequence[0] == first && Distinct(sequence) && Linked(g, sequence)
    ensures forall v :: v in sequence <==> Reachable(g, first, v)
    ensures forall k :: 0 <= k < |sequence| ==> sequence[k] < |g|
  {
    assert forall v, u :: v in visited && Edge(g, v, u) ==> u in visited;
    forall k | 0 <= k < |sequence|
      ensures sequence[k] < |g|
    {
      assert sequence[k] in visited;
    }
    forall v | Reachable(g, first, v)
      ensures v in sequence
    {
      var p :| |p| > 0 && p[0] == first && p[|p| - 1] == v && Path(g, p);
      ClosedHoldsReachable(g, first, visited, p);
    }
  }

  lemma {:induction false} PopPositions(stack: seq<Entry>, pos: seq<int>, sequence: seq<nat>, rem: seq<nat>)
    requires Positions(stack, pos, sequence) && |stack| > 0
    ensures Positions(Shrunk(stack, rem), if rem == [] then pos[..|pos| - 1] else pos, sequence)
  {
  }

  lemma {:induction false} PushPositions(stack: seq<Entry>, pos: seq<int>, sequence: seq<nat>, t: nat, ns: seq<nat>)
    requires Positions(stack, pos, sequence)
    ensures Positions(stack + [Entry(t, ns)], pos + [|sequence|], sequence + [t])
  {
    var stack', pos', sequence' := stack + [Entry(t, ns)], pos + [|sequence|], sequence + [t];
    forall i | 0 <= i < |stack'|
      ensures pos'[i] < |sequence'| && sequence'[pos'[i]] == stack'[i].node
    {
      if i < |stack| {
        assert pos'[i] == pos[i] && stack'[i] == stack[i];
      }
    }
  }

  /** Two nodes linked to each other, and a third reached through the
      second: the walk starts at the node with the fewest neighbours. */
  method SequenceExample() returns (sequence: seq<nat>)
    ensures sequence == [2, 1, 0]
  {
    var g := SequenceGraph();
    sequence := ComputationSequence(g, [1, 2]);
    assert |g[sequence[0]].neighbors| <= |g[[1, 2][1]].neighbors|;
    SequenceReach(g);
    SequenceOrder(g, sequence);
  }

  function SequenceGraph(): (g: Graph)
    ensures WellFormed(g) && |g| == 3
  {
    [Node(0, [1]), Node(1, [0, 2]), Node(0, [1])]
  }

  lemma {:induction false} SequenceReach(g: Graph)
    requires g == SequenceGraph()
    ensures Reachable(g, 2, 1) && Reachable(g, 2, 0)
  {
    assert Path(g, [2, 1]);
    assert Path(g, [2, 1, 0]);
  }

  lemma {:induction false} SequenceOrder(g: Graph, s: seq<nat>)
    requires |g| == 3 && Distinct(s) && |s| > 0 && s[0] == 2 && 1 in s && 0 in s
    requires forall k :: 0 <= k < |s| ==> s[k] < |g|
    requires forall k :: 0 < k < |s| ==> exists j :: 0 <= j < k && Edge(g, s[j], s[k])
    requires g[2].neighbors == [1]
    ensures s == [2, 1, 0]
  {
    DistinctBelow(s, 3);
    assert |s| == 3;
    var j :| 0 <= j < 1 && Edge(g, s[j], s[1]);
  }

  /** Node 0 queues 3 before 2, but 2 carries fewer variables. */
  function PriorityGraph(): (g: Graph)
    ensures WellFormed(g) && |g| == 4
  {
    [Node(0, [1, 3, 2]), Node(5, [0]), Node(1, [0]), Node(3, [0])]
  }

  /** The walk from 1 lists 2 before 3. */
  method PriorityExample() returns (sequence: seq<nat>)
    ensures sequence == [1, 0, 2, 3]
  {
    var g := PriorityGraph();
    sequence := ComputationSequence(g, [1]);
    assert sequence[0] == 1;
    PriorityReach(g);
    PriorityOrder(g, sequence);
  }

  lemma {:induction false} PriorityReach(g: Graph)
    requires g == PriorityGraph()
    ensures Reachable(g, 1, 0) && Reachable(g, 1, 2) && Reachable(g, 1, 3)
  {
    assert Path(g, [1, 0]);
    assert Path(g, [1, 0, 2]);
    assert Path(g, [1, 0, 3]);
  }

  lemma {:induction false} PriorityOrder(g: Graph, s: seq<nat>)
    requires g == PriorityGraph() && AllChosen(g, s) && Distinct(s)
    requires |s| > 0 && s[0] == 1 && 0 in s && 2 in s && 3 in s
    requires forall k :: 0 <= k < |s| ==> s[k] < |g|
    ensures s == [1, 0, 2, 3]
  {
    DistinctBelow(s, 4);
    assert |s| == 4;
    AllChosenAt(g, s, 1);
    assert s[..1] == [1];
    assert s[1] == 0;
    AllChosenAt(g, s, 2);
    assert s[..2] == [1, 0];
    assert !Closed(g, 0, [1, 0]) by { assert 3 in g[0].neighbors; }
    assert !Prefer(g, 3, 2);
    assert s[2] == 2;
  }

  /** The elements of a sequence. */
  function Elements(s: seq<nat>): (r: set<nat>)
    ensures forall x :: x in r <==> x in s
    ensures Distinct(s) ==> |r| == |s|
  {
    if s == [] then {}
    else
      var rest := s[..|s| - 1];
      LastStep(s);
      Elements(rest) + {s[|s| - 1]}
  }

  lemma {:induction false} LastStep(s: seq<nat>)
    requires s != []
    ensures forall x :: x in s <==> x in s[..|s| - 1] || x == s[|s| - 1]
    ensures Distinct(s) ==> Distinct(s[..|s| - 1]) && s[|s| - 1] !in s[..|s| - 1]
  {
    assert s == s[..|s| - 1] + [s[|s| - 1]];
  }

  /** Distinct identities below `n` number at most `n`. */
  lemma {:induction false} DistinctBelow(s: seq<nat>, n: nat)
    requires Distinct(s) && forall k :: 0 <= k < |s| ==> s[k] < n
    ensures |s| <= n
  {
    var e := Elements(s);
    assert e <= Below(n);
    SubsetCard(e, Below(n));
  }

  lemma {:induction false} SubsetCard(a: set<nat>, b: set<nat>)
    requires a <= b
    ensures |a| <= |b|
    decreases a
  {
    if a != {} {
      var x :| x in a;
      SubsetCard(a - {x}, b - {x});
    }
  }

  // ---------------------------------------------------------------------
  // Splitting a query's literals
  // ---------------------------------------------------------------------

  /** A literal of a graph query: a predicate, possibly negated. */
  datatype Literal = Literal(atom: Term, negated: bool)

  /** The literals whose negation flag is `neg`, in query order. */
  function WithFlag(ls: seq<Literal>, neg: bool): (r: seq<Literal>)
    ensures forall l :: l in r <==> l in ls && l.negated == neg
  {
    if ls == [] then [] else WithFlag(ls[..|ls| - 1], neg) + (if ls[|ls| - 1].negated == neg then [ls[|ls| - 1]] else [])
  }

  /** The two halves together hold every literal as often as the query. */
  lemma {:induction false} FlagsPartition(ls: seq<Literal>)
    ensures multiset(WithFlag(ls, false)) + multiset(WithFlag(ls, true)) == multiset(ls)
    decreases |ls|
  {
    if ls != [] {
      FlagsPartition(ls[..|ls| - 1]);
      assert ls == ls[..|ls| - 1] + [ls[|ls| - 1]];
    }
  }

  /** The split at the start of `submitQuery`: negated and positive
      literals, each in query order. */
  method SplitLiterals(ls: seq<Literal>) returns (positive: seq<Literal>, negative: seq<Literal>)
    ensures positive == WithFlag(ls, false) && negative == WithFlag(ls, true)
    ensures multiset(positive) + multiset(negative) == multiset(ls)
  {
    positive, negative := [], [];
    var i := 0;
    while i < |ls|
      invariant 0 <= i <= |ls|
      invariant positive == WithFlag(ls[..i], false) && negative == WithFlag(ls[..i], true)
    {
      assert ls[..i + 1][..i] == ls[..i];
      if ls[i].negated {
        negative := negative + [ls[i]];
      } else {
        positive := positive + [ls[i]];
      }
      i := i + 1;
    }
    assert ls[..i] == ls;
    FlagsPartition(ls);
  }

  /** A literal with the reasoners that can evaluate it. */
  datatype Computable = Computable(literal: Literal, reasoners: seq<Reasoner.Instance>)

  /** The reasoners of the pool that can evaluate `l`, in pool order. */
  function Evaluators(pool: seq<Reasoner.Instance>, canEvaluate: (Reasoner.Instance, Literal) -> bool, l: Literal)
    : (r: seq<Reasoner.Instance>)
    ensures forall x :: x in r <==> x in pool && canEvaluate(x, l)
  {
    Reasoner.Select(pool, x => canEvaluate(x, l))
  }

  /** The positive literals no reasoner can evaluate, in order. */
  function StoredOnly(ls: seq<Literal>, pool: seq<Reasoner.Instance>, canEvaluate: (Reasoner.Instance, Literal) -> bool)
    : (r: seq<Literal>)
    ensures forall l :: l in r ==> l in ls && Evaluators(pool, canEvaluate, l) == []
  {
    if ls == [] then []
    else
      var l := ls[|ls| - 1];
      StoredOnly(ls[..|ls| - 1], pool, canEvaluate) + (if Evaluators(pool, canEvaluate, l) == [] then [l] else [])
  }

  /** The positive literals some reasoner can evaluate, with those
      reasoners, in order. */
  function WithEvaluators(ls: seq<Literal>, pool: seq<Reasoner.Instance>, canEvaluate: (Reasoner.Instance, Literal) -> bool)
    : (r: seq<Computable>)
    ensures forall c :: c in r ==> c.literal in ls && c.reasoners != [] && c.reasoners == Evaluators(pool, canEvaluate, c.literal)
  {
    if ls == [] then []
    else
      var l := ls[|ls| - 1];
      var rs := Evaluators(pool, canEvaluate, l);
      WithEvaluators(ls[..|ls| - 1], pool, canEvaluate) + (if rs != [] then [Computable(l, rs)] else [])
  }

  /** Both halves grow by at most the next literal. */
  lemma {:induction false} SplitStep(ls: seq<Literal>, i: nat, pool: seq<Reasoner.Instance>, canEvaluate: (Reasoner.Instance, Literal) -> bool)
    requires i < |ls|
    ensures var rs := Evaluators(pool, canEvaluate, ls[i]);
            StoredOnly(ls[..i + 1], pool, canEvaluate) == StoredOnly(ls[..i], pool, canEvaluate) + (if rs == [] then [ls[i]] else [])
    ensures var rs := Evaluators(pool, canEvaluate, ls[i]);
            WithEvaluators(ls[..i + 1], pool, canEvaluate) == WithEvaluators(ls[..i], pool, canEvaluate) + (if rs != [] then [Computable(ls[i], rs)] else [])
  {
    assert ls[..i + 1][..i] == ls[..i];
  }

  /** The split of the positive literals in `submitQuery`: those only the
      stored facts can answer, and those some pooled reasoner can compute. */
  method SplitPositive(ls: seq<Literal>, pool: seq<Reasoner.Instance>, canEvaluate: (Reasoner.Instance, Literal) -> bool)
    returns (edbOnly: seq<Literal>, computable: seq<Computable>)
    ensures edbOnly == StoredOnly(ls, pool, canEvaluate)
    ensures computable == WithEvaluators(ls, pool, canEvaluate)
    ensures |edbOnly| + |computable| == |ls|
  {
    edbOnly, computable := [], [];
    var i := 0;
    while i < |ls|
      invariant 0 <= i <= |ls|
      invariant edbOnly == StoredOnly(ls[..i], pool, canEvaluate)
      invariant computable == WithEvaluators(ls[..i], pool, canEvaluate)
      invariant |edbOnly| + |computable| == i
    {
      SplitStep(ls, i, pool, canEvaluate);
      var rs := Evaluators(pool, canEvaluate, ls[i]);
      if rs == [] {
        edbOnly := edbOnly + [ls[i]];
      } else {
        computable := computable + [Computable(ls[i], rs)];
      }
      i := i + 1;
    }
    assert ls[..i] == ls;
  }

  // ---------------------------------------------------------------------
  // Inserting into every knowledge graph
  // ---------------------------------------------------------------------

  /** `insert`: the statement goes to every knowledge graph, in pool order,
      whatever the earlier ones answered; the status is whether all
      succeeded. */
  method InsertAll<G>(graphs: seq<G>, insert: G -> bool) returns (status: bool, attempted: seq<G>)
    ensures attempted == graphs
    ensures status <==> forall k :: 0 <= k < |graphs| ==> insert(graphs[k])
  {
    status := true;
    attempted := [];
    var i := 0;
    while i < |graphs|
      invariant 0 <= i <= |graphs| && attempted == graphs[..i]
      invariant status <==> forall k :: 0 <= k < i ==> insert(graphs[k])
    {
      if !insert(graphs[i]) {
        status := false;
      }
      attempted := attempted + [graphs[i]];
      i := i + 1;
    }
  }
}
