/**
 * `graph_search` of Assignment1.py: one loop that runs as breadth-first
 * (`"bfs"`), depth-first (any other tag), iterative deepening (`"iddfs"`)
 * or A* (`"astar"`) search, chosen by the `mode` string.
 */
module GraphSearch {
  import opened Options
  import opened RiverState
  import opened SearchNode
  import opened Expansion
  import opened AStarHeuristic

  /** `max_depth`: the last depth bound iterative deepening tries. */
  const MaxDepth: nat := 500

  /**
   * A frontier entry.  Outside A* the frontier list holds bare nodes; in A*
   * it holds the heap triples `(hueristic(node), q_count, node)`.
   */
  datatype Item = Plain(node: Node) | Ranked(cost: int, serial: nat, node: Node)

  /** The four return shapes of `graph_search`. */
  datatype Outcome =
    | StartIsGoal(path: seq<State>)            // `return [init_state]`: no expansion count
    | Solved(path: seq<State>, expanded: nat)  // `return solution(child), expanded`
    | Exhausted(expanded: nat)                 // `return None, expanded`
    | DepthLimitReached                        // `return None` once iterative deepening passes `max_depth`

  /** Heap order of two A* entries: by cost, then by serial number. */
  predicate Before(a: Item, b: Item)
    requires a.Ranked? && b.Ranked?
  {
    a.cost < b.cost || (a.cost == b.cost && a.serial < b.serial)
  }

  predicate AllRanked(f: seq<Item>) {
    forall i :: 0 <= i < |f| ==> f[i].Ranked?
  }

  /** The position `heappop` takes from: an entry no other entry comes before. */
  function MinIndex(f: seq<Item>): (k: nat)
    requires |f| > 0 && AllRanked(f)
    ensures k < |f|
    ensures forall i :: 0 <= i < |f| ==> !Before(f[i], f[k])
  {
    if |f| == 1 then 0
    else
      var k := MinIndex(f[..|f| - 1]);
      assert forall i :: 0 <= i < |f| - 1 ==> f[..|f| - 1][i] == f[i];
      if Before(f[|f| - 1], f[k]) then |f| - 1 else k
  }

  /** The position the loop removes from: least entry for A*, the front for BFS, the back otherwise. */
  function PopIndex(f: seq<Item>, mode: string): (k: nat)
    requires |f| > 0 && (mode == "astar" ==> AllRanked(f))
    ensures k < |f|
    ensures mode == "astar" ==> forall i :: 0 <= i < |f| ==> !Before(f[i], f[k])
    ensures mode == "bfs" ==> k == 0
    ensures mode != "astar" && mode != "bfs" ==> k == |f| - 1
  {
    if mode == "astar" then MinIndex(f) else if mode == "bfs" then 0 else |f| - 1
  }

  /** `any(x for x in frontier if x.state == child.state)` (with `x[2]` for A* triples). */
  predicate InFrontier(f: seq<Item>, s: State) {
    exists i :: 0 <= i < |f| && f[i].node.state == s
  }

  /** The entry pushed for a child: the heap triple `(hueristic(child), q_count, child)` for A*, the bare node otherwise. */
  function Queued(mode: string, child: Node, qCount: nat): Item {
    if mode == "astar" then Ranked(Heuristic(child), qCount, child) else Plain(child)
  }

  /** `q_count` after a push: only A* counts its pushes. */
  function NextCount(mode: string, qCount: nat): nat {
    if mode == "astar" then qCount + 1 else qCount
  }

  /**
   * The two `continue`s of the child loop: the child's state is queued, or
   * its key is explored and is not re-opened (outside iterative deepening
   * always, during it unless the child is shallower than recorded).
   */
  predicate Skips(mode: string, f: seq<Item>, explored: map<StateKey, nat>, child: Node) {
    || InFrontier(f, child.state)
    || (child.Key() in explored && (mode != "iddfs" || child.depth >= explored[child.Key()]))
  }

  /** `explored` once a child has passed both tests: a re-opened key records the child's depth. */
  function Reopened(explored: map<StateKey, nat>, child: Node): map<StateKey, nat> {
    if child.Key() in explored then explored[child.Key() := child.depth] else explored
  }

  /** What the child loop carries from one child to the next: the goal child once found, the frontier, `explored`, `q_count`. */
  datatype Pending = Pending(found: Option<Node>, frontier: seq<Item>, explored: map<StateKey, nat>, qCount: nat)

  /** One pass of the child loop's body; once a goal child is found the loop has returned and nothing changes. */
  function Offer(mode: string, goal: State, child: Node, p: Pending): Pending {
    if p.found.Some? || Skips(mode, p.frontier, p.explored, child) then p
    else if child.state == goal then p.(found := Some(child), explored := Reopened(p.explored, child))
    else Pending(None, p.frontier + [Queued(mode, child, p.qCount)], Reopened(p.explored, child), NextCount(mode, p.qCount))
  }

  /** The whole child loop, over `children` in order. */
  function OfferAll(mode: string, goal: State, children: seq<Node>, p: Pending): Pending
    decreases |children|
  {
    if children == [] then p
    else Offer(mode, goal, children[|children| - 1], OfferAll(mode, goal, children[..|children| - 1], p))
  }

  /** `s` is queued or its key is explored. */
  ghost predicate Reached(f: seq<Item>, explored: map<StateKey, nat>, s: State) {
    InFrontier(f, s) || KeyOf(s) in explored
  }

  /**
   * The region the search has reached is closed: the start is reached, the
   * goal's key is not explored, and every valid successor of an explored
   * state is reached.
   */
  ghost predicate Closed(init: State, goal: State, f: seq<Item>, explored: map<StateKey, nat>) {
    && Reached(f, explored, init)
    && KeyOf(goal) !in explored
    && forall s, t :: KeyOf(s) in explored && t in ValidSuccessors(s) ==> Reached(f, explored, t)
  }

  // ---------------------------------------------------------------------
  // The invariant of the search loop.

  /** What every frontier entry satisfies. */
  ghost predicate ItemOk(it: Item, mode: string, init: State, goal: State, depth: nat, qCount: nat) {
    && (it.Ranked? <==> mode == "astar")
    && Rooted(it.node, init)
    && it.node.state != goal
    && (mode == "iddfs" ==> it.node.depth <= depth)
    && (it.Ranked? ==> it.cost == Heuristic(it.node) && it.serial < qCount)
  }

  /** No two frontier entries hold the same state. */
  ghost predicate Distinct(f: seq<Item>) {
    forall i, j :: 0 <= i < j < |f| ==> f[i].node.state != f[j].node.state
  }

  /** A* entries sit in the order they were pushed. */
  ghost predicate SerialsIncrease(f: seq<Item>) {
    forall i, j :: 0 <= i < j < |f| && f[i].Ranked? && f[j].Ranked? ==> f[i].serial < f[j].serial
  }

  /**
   * Outside iterative deepening no frontier key is explored; during it, an
   * explored frontier key is recorded at that entry's depth.
   */
  ghost predicate ExploredOk(f: seq<Item>, explored: map<StateKey, nat>, mode: string) {
    forall i :: 0 <= i < |f| && f[i].node.Key() in explored ==>
      mode == "iddfs" && explored[f[i].node.Key()] == f[i].node.depth
  }

  /** The tag of a pushed node: its key, and for iterative deepening its depth. */
  ghost function Tag(n: Node, mode: string): (StateKey, nat) {
    (n.Key(), if mode == "iddfs" then n.depth else 0)
  }

  function Bound(mode: string, depth: nat): nat {
    if mode == "iddfs" then depth else 0
  }

  /** Every tag a push can produce under the current depth bound. */
  ghost function TagSpace(init: State, bound: nat): set<(StateKey, nat)> {
    set s, j | s in Universe(init) && 0 <= j <= bound :: (KeyOf(s), j)
  }

  /** A pushed tag keeps being accounted for: still in the frontier, or explored, at a depth no greater than its own. */
  ghost predicate Covered(t: (StateKey, nat), f: seq<Item>, explored: map<StateKey, nat>, mode: string) {
    || (t.0 in explored && (mode == "iddfs" ==> explored[t.0] <= t.1))
    || exists i :: 0 <= i < |f| && f[i].node.Key() == t.0 && (mode == "iddfs" ==> f[i].node.depth <= t.1)
  }

  ghost predicate SearchInv(mode: string, init: State, goal: State, depth: nat, f: seq<Item>,
                            explored: map<StateKey, nat>, qCount: nat, pushed: set<(StateKey, nat)>) {
    && (forall i :: 0 <= i < |f| ==> ItemOk(f[i], mode, init, goal, depth, qCount))
    && Distinct(f)
    && SerialsIncrease(f)
    && ExploredOk(f, explored, mode)
    && (forall t :: t in pushed ==> Covered(t, f, explored, mode))
  }

  /** A* removals so far come in strictly increasing heap order, and everything still queued comes after them. */
  ghost predicate PopsOrdered(pops: seq<Item>, f: seq<Item>, qCount: nat) {
    && (forall i :: 0 <= i < |pops| ==> pops[i].Ranked? && pops[i].serial < qCount)
    && (forall i, j :: 0 <= i < j < |pops| ==> Before(pops[i], pops[j]))
    && (|pops| > 0 ==> forall i :: 0 <= i < |f| ==> f[i].Ranked? && Before(pops[|pops| - 1], f[i]))
  }

  lemma RemoveAt(f: seq<Item>, k: nat)
    requires k < |f|
    ensures var r := f[..k] + f[k + 1..];
            && |r| == |f| - 1
            && (forall i :: 0 <= i < |r| ==> r[i] == f[if i < k then i else i + 1])
  {
  }

  lemma PopItems(f: seq<Item>, mode: string, init: State, goal: State, depth: nat, qCount: nat, k: nat)
    requires forall i :: 0 <= i < |f| ==> ItemOk(f[i], mode, init, goal, depth, qCount)
    requires k < |f|
    ensures var r := f[..k] + f[k + 1..];
            forall i :: 0 <= i < |r| ==> ItemOk(r[i], mode, init, goal, depth, qCount)
  {
    RemoveAt(f, k);
  }

  lemma PopDistinct(f: seq<Item>, k: nat)
    requires Distinct(f) && SerialsIncrease(f) && k < |f|
    ensures Distinct(f[..k] + f[k + 1..]) && SerialsIncrease(f[..k] + f[k + 1..])
  {
    var r := f[..k] + f[k + 1..];
    RemoveAt(f, k);
    forall i, j | 0 <= i < j < |r|
      ensures r[i].node.state != r[j].node.state
      ensures r[i].Ranked? && r[j].Ranked? ==> r[i].serial < r[j].serial
    {
      assert r[i] == f[if i < k then i else i + 1];
      assert r[j] == f[if j < k then j else j + 1];
    }
  }

  lemma PopExplored(f: seq<Item>, explored: map<StateKey, nat>, mode: string, k: nat)
    requires Distinct(f) && ExploredOk(f, explored, mode) && k < |f|
    ensures ExploredOk(f[..k] + f[k + 1..], explored[f[k].node.Key() := f[k].node.depth], mode)
  {
    var n := f[k].node;
    var r := f[..k] + f[k + 1..];
    var e := explored[n.Key() := n.depth];
    RemoveAt(f, k);
    forall i | 0 <= i < |r| && r[i].node.Key() in e
      ensures mode == "iddfs" && e[r[i].node.Key()] == r[i].node.depth
    {
      var i0 := if i < k then i else i + 1;
      assert r[i] == f[i0] && i0 != k;
      KeyInjective(f[i0].node.state, n.state);
    }
  }

  lemma PopCovered(f: seq<Item>, explored: map<StateKey, nat>, mode: string, pushed: set<(StateKey, nat)>, k: nat)
    requires forall t :: t in pushed ==> Covered(t, f, explored, mode)
    requires ExploredOk(f, explored, mode) && k < |f|
    ensures forall t :: t in pushed ==>
              Covered(t, f[..k] + f[k + 1..], explored[f[k].node.Key() := f[k].node.depth], mode)
  {
    var n := f[k].node;
    var r := f[..k] + f[k + 1..];
    var e := explored[n.Key() := n.depth];
    RemoveAt(f, k);
    forall t | t in pushed
      ensures Covered(t, r, e, mode)
    {
      if t.0 in explored && (mode == "iddfs" ==> explored[t.0] <= t.1) {
        if t.0 == n.Key() {
          assert e[t.0] == n.depth == explored[t.0];
        }
      } else {
        var j :| 0 <= j < |f| && f[j].node.Key() == t.0 && (mode == "iddfs" ==> f[j].node.depth <= t.1);
        if j != k {
          var j' := if j < k then j else j - 1;
          assert r[j'] == f[j];
        }
      }
    }
  }

  /** Removing an entry and exploring its key keeps the invariant. */
  lemma PopKeeps(mode: string, init: State, goal: State, depth: nat, f: seq<Item>,
                 explored: map<StateKey, nat>, qCount: nat, pushed: set<(StateKey, nat)>, k: nat)
    requires SearchInv(mode, init, goal, depth, f, explored, qCount, pushed)
    requires k < |f|
    ensures SearchInv(mode, init, goal, depth, f[..k] + f[k + 1..],
                      explored[f[k].node.Key() := f[k].node.depth], qCount, pushed)
  {
    PopItems(f, mode, init, goal, depth, qCount, k);
    PopDistinct(f, k);
    PopExplored(f, explored, mode, k);
    PopCovered(f, explored, mode, pushed, k);
  }

  lemma PushItems(f: seq<Item>, it: Item, mode: string, init: State, goal: State, depth: nat, qCount: nat, q: nat)
    requires forall i :: 0 <= i < |f| ==> ItemOk(f[i], mode, init, goal, depth, qCount)
    requires qCount <= q && ItemOk(it, mode, init, goal, depth, q)
    ensures forall i :: 0 <= i < |f + [it]| ==> ItemOk((f + [it])[i], mode, init, goal, depth, q)
  {
    forall i | 0 <= i < |f + [it]|
      ensures ItemOk((f + [it])[i], mode, init, goal, depth, q)
    {
      if i < |f| {
        assert (f + [it])[i] == f[i] && ItemOk(f[i], mode, init, goal, depth, qCount);
      }
    }
  }

  lemma PushDistinct(f: seq<Item>, it: Item)
    requires Distinct(f) && !InFrontier(f, it.node.state)
    ensures Distinct(f + [it])
  {
    var r := f + [it];
    forall i, j | 0 <= i < j < |r|
      ensures r[i].node.state != r[j].node.state
    {
      assert r[i] == f[i];
      if j < |f| {
        assert r[j] == f[j];
      }
    }
  }

  lemma PushSerials(f: seq<Item>, it: Item, qCount: nat)
    requires SerialsIncrease(f) && forall i :: 0 <= i < |f| && f[i].Ranked? ==> f[i].serial < qCount
    requires it.Ranked? ==> it.serial == qCount
    ensures SerialsIncrease(f + [it])
  {
    var r := f + [it];
    forall i, j | 0 <= i < j < |r| && r[i].Ranked? && r[j].Ranked?
      ensures r[i].serial < r[j].serial
    {
      assert r[i] == f[i];
      if j < |f| {
        assert r[j] == f[j];
      }
    }
  }

  lemma PushExplored(f: seq<Item>, explored: map<StateKey, nat>, mode: string, c: Node, it: Item)
    requires ExploredOk(f, explored, mode) && !InFrontier(f, c.state) && it.node == c
    requires c.Key() in explored ==> mode == "iddfs"
    ensures ExploredOk(f + [it], if c.Key() in explored then explored[c.Key() := c.depth] else explored, mode)
  {
    var r := f + [it];
    var e := if c.Key() in explored then explored[c.Key() := c.depth] else explored;
    forall i | 0 <= i < |r| && r[i].node.Key() in e
      ensures mode == "iddfs" && e[r[i].node.Key()] == r[i].node.depth
    {
      if i < |f| {
        assert r[i] == f[i];
        KeyInjective(f[i].node.state, c.state);
      }
    }
  }

  lemma PushCovered(f: seq<Item>, explored: map<StateKey, nat>, mode: string, pushed: set<(StateKey, nat)>, c: Node, it: Item)
    requires forall t :: t in pushed ==> Covered(t, f, explored, mode)
    requires it.node == c
    requires c.Key() in explored ==> c.depth < explored[c.Key()]
    ensures var e := if c.Key() in explored then explored[c.Key() := c.depth] else explored;
            forall t :: t in pushed + {Tag(c, mode)} ==> Covered(t, f + [it], e, mode)
  {
    var r := f + [it];
    var e := if c.Key() in explored then explored[c.Key() := c.depth] else explored;
    var t := Tag(c, mode);
    forall u | u in pushed + {t}
      ensures Covered(u, r, e, mode)
    {
      if u == t {
        assert r[|f|].node.Key() == t.0;
      } else if u.0 in explored && (mode == "iddfs" ==> explored[u.0] <= u.1) {
      } else {
        var j :| 0 <= j < |f| && f[j].node.Key() == u.0 && (mode == "iddfs" ==> f[j].node.depth <= u.1);
        assert r[j] == f[j];
      }
    }
  }

  lemma TagFresh(f: seq<Item>, explored: map<StateKey, nat>, mode: string, pushed: set<(StateKey, nat)>, c: Node)
    requires forall t :: t in pushed ==> Covered(t, f, explored, mode)
    requires !InFrontier(f, c.state)
    requires c.Key() in explored ==> mode == "iddfs" && c.depth < explored[c.Key()]
    ensures Tag(c, mode) !in pushed
  {
    var t := Tag(c, mode);
    if t in pushed {
      if t.0 in explored && (mode == "iddfs" ==> explored[t.0] <= t.1) {
      } else {
        var j :| 0 <= j < |f| && f[j].node.Key() == t.0 && (mode == "iddfs" ==> f[j].node.depth <= t.1);
        KeyInjective(f[j].node.state, c.state);
        assert false;
      }
    }
  }

  /** Pushing a child that passed the frontier, explored and goal tests keeps the invariant, and its tag is new. */
  lemma PushKeeps(mode: string, init: State, goal: State, depth: nat, f: seq<Item>,
                  explored: map<StateKey, nat>, qCount: nat, pushed: set<(StateKey, nat)>,
                  node: Node, s: State)
    requires SearchInv(mode, init, goal, depth, f, explored, qCount, pushed)
    requires Rooted(node, init) && s in ValidSuccessors(node.state)
    requires mode == "iddfs" ==> node.depth < depth
    requires var c := ChildOf(node, s);
             && !InFrontier(f, s) && s != goal
             && (c.Key() in explored ==> mode == "iddfs" && c.depth < explored[c.Key()])
    ensures var c := ChildOf(node, s);
            var e := if c.Key() in explored then explored[c.Key() := c.depth] else explored;
            var it := if mode == "astar" then Ranked(Heuristic(c), qCount, c) else Plain(c);
            var q := if mode == "astar" then qCount + 1 else qCount;
            && SearchInv(mode, init, goal, depth, f + [it], e, q, pushed + {Tag(c, mode)})
            && Tag(c, mode) !in pushed
            && Tag(c, mode) in TagSpace(init, Bound(mode, depth))
  {
    var c := ChildOf(node, s);
    var it := if mode == "astar" then Ranked(Heuristic(c), qCount, c) else Plain(c);
    var q := if mode == "astar" then qCount + 1 else qCount;
    ChildRooted(node, s, init);
    assert ItemOk(it, mode, init, goal, depth, q);
    PushItems(f, it, mode, init, goal, depth, qCount, q);
    PushDistinct(f, it);
    assert forall i :: 0 <= i < |f| && f[i].Ranked? ==> f[i].serial < qCount by {
      forall i | 0 <= i < |f| && f[i].Ranked?
        ensures f[i].serial < qCount
      {
        assert ItemOk(f[i], mode, init, goal, depth, qCount);
      }
    }
    PushSerials(f, it, qCount);
    PushExplored(f, explored, mode, c, it);
    PushCovered(f, explored, mode, pushed, c, it);
    TagFresh(f, explored, mode, pushed, c);
    RootedInUniverse(c, init);
  }

  /** An A* removal of the least entry extends the increasing order. */
  lemma PopKeepsOrder(pops: seq<Item>, f: seq<Item>, qCount: nat, k: nat)
    requires PopsOrdered(pops, f, qCount) && |f| > 0 && AllRanked(f) && SerialsIncrease(f)
    requires forall i :: 0 <= i < |f| ==> f[i].serial < qCount
    requires k < |f| && forall i :: 0 <= i < |f| ==> !Before(f[i], f[k])
    ensures PopsOrdered(pops + [f[k]], f[..k] + f[k + 1..], qCount)
  {
    var r := f[..k] + f[k + 1..];
    var p := pops + [f[k]];
    RemoveAt(f, k);
    forall i | 0 <= i < |r|
      ensures r[i].Ranked? && Before(f[k], r[i])
    {
      var i0 := if i < k then i else i + 1;
      assert r[i] == f[i0];
      assert f[i0].serial != f[k].serial;
    }
    assert forall i, j :: 0 <= i < j < |p| ==> Before(p[i], p[j]) by {
      forall i, j | 0 <= i < j < |p|
        ensures Before(p[i], p[j])
      {
        if j == |pops| {
          assert p[i] == pops[i];
        }
      }
    }
  }

  /** An A* push of a child of the node just removed keeps the order. */
  lemma PushKeepsOrder(pops: seq<Item>, f: seq<Item>, qCount: nat, node: Node, s: State)
    requires PopsOrdered(pops, f, qCount) && |pops| > 0
    requires pops[|pops| - 1] == Ranked(Heuristic(node), pops[|pops| - 1].serial, node)
    requires HasBoat(node.state) && node.depth == Links(node.parent) && s in ValidSuccessors(node.state)
    ensures PopsOrdered(pops, f + [Ranked(Heuristic(ChildOf(node, s)), qCount, ChildOf(node, s))], qCount + 1)
  {
    HeuristicMonotone(node, s);
    var r := f + [Ranked(Heuristic(ChildOf(node, s)), qCount, ChildOf(node, s))];
    forall i | 0 <= i < |r|
      ensures r[i].Ranked? && Before(pops[|pops| - 1], r[i])
    {
      if i < |f| {
        assert r[i] == f[i];
      }
    }
  }

  /** Distinct states drawn from a finite set are no more than the set holds. */
  lemma {:induction false} DistinctNodesBound(ns: seq<Node>, states: set<State>)
    requires forall i :: 0 <= i < |ns| ==> ns[i].state in states
    requires forall i, j :: 0 <= i < j < |ns| ==> ns[i].state != ns[j].state
    ensures |ns| <= |states|
  {
    if ns != [] {
      var n := |ns| - 1;
      var x := ns[n].state;
      DistinctNodesBound(ns[..n], states - {x});
    }
  }

  /** The search expands no more nodes than there are states it can reach, once no state is expanded twice. */
  lemma ExpansionsBound(ns: seq<Node>, init: State)
    requires forall i :: 0 <= i < |ns| ==> Rooted(ns[i], init)
    requires forall i, j :: 0 <= i < j < |ns| ==> ns[i].state != ns[j].state
    ensures |ns| <= |Universe(init)|
  {
    forall i | 0 <= i < |ns|
      ensures ns[i].state in Universe(init)
    {
      RootedInUniverse(ns[i], init);
    }
    DistinctNodesBound(ns, Universe(init));
  }

  // ---------------------------------------------------------------------
  // The child loop and the closed region.

  lemma OfferReach(mode: string, goal: State, child: Node, p: Pending, s: State)
    requires Reached(p.frontier, p.explored, s)
    ensures var r := Offer(mode, goal, child, p); Reached(r.frontier, r.explored, s)
  {
    var r := Offer(mode, goal, child, p);
    if InFrontier(p.frontier, s) {
      var i :| 0 <= i < |p.frontier| && p.frontier[i].node.state == s;
      assert r.frontier[i] == p.frontier[i];
    }
  }

  /** The child loop loses no state: what was queued or explored before is queued or explored after. */
  lemma {:induction false} OfferAllReach(mode: string, goal: State, children: seq<Node>, p: Pending, s: State)
    requires Reached(p.frontier, p.explored, s)
    ensures var r := OfferAll(mode, goal, children, p); Reached(r.frontier, r.explored, s)
    decreases |children|
  {
    if children != [] {
      var n := |children| - 1;
      OfferAllReach(mode, goal, children[..n], p, s);
      OfferReach(mode, goal, children[n], OfferAll(mode, goal, children[..n], p), s);
    }
  }

  /** When the child loop finds no goal, every child's state ends up queued or explored. */
  lemma {:induction false} OfferAllCovers(mode: string, goal: State, children: seq<Node>, p: Pending)
    requires p.found.None?
    ensures var r := OfferAll(mode, goal, children, p);
            r.found.None? ==> forall j :: 0 <= j < |children| ==> Reached(r.frontier, r.explored, children[j].state)
    decreases |children|
  {
    if children != [] {
      var n := |children| - 1;
      var q := OfferAll(mode, goal, children[..n], p);
      var r := Offer(mode, goal, children[n], q);
      OfferAllCovers(mode, goal, children[..n], p);
      if r.found.None? {
        forall j | 0 <= j < |children|
          ensures Reached(r.frontier, r.explored, children[j].state)
        {
          if j < n {
            assert children[..n][j] == children[j];
            OfferReach(mode, goal, children[n], q, children[j].state);
          } else if !Skips(mode, q.frontier, q.explored, children[n]) {
            assert r.frontier[|q.frontier|].node == children[n];
          }
        }
      }
    }
  }

  /**
   * A goal the child loop returns is one of the children and holds the goal;
   * the loop only appends to the frontier, and only children that do not
   * hold the goal; outside iterative deepening it leaves `explored` alone.
   */
  lemma {:induction false} OfferAllFound(mode: string, goal: State, children: seq<Node>, p: Pending)
    requires p.found.None?
    ensures var r := OfferAll(mode, goal, children, p);
            && (r.found.Some? ==> r.found.value in children && r.found.value.state == goal)
            && |p.frontier| <= |r.frontier| && r.frontier[..|p.frontier|] == p.frontier
            && (forall j :: |p.frontier| <= j < |r.frontier| ==> r.frontier[j].node in children && r.frontier[j].node.state != goal)
            && (mode != "iddfs" ==> r.explored == p.explored)
            && p.qCount <= r.qCount
    decreases |children|
  {
    if children != [] {
      var n := |children| - 1;
      var q := OfferAll(mode, goal, children[..n], p);
      OfferAllFound(mode, goal, children[..n], p);
      assert forall c :: c in children[..n] ==> c in children;
      var r := Offer(mode, goal, children[n], q);
      if r != q && r.found.None? {
        assert r.frontier == q.frontier + [Queued(mode, children[n], q.qCount)];
        assert r.frontier[..|p.frontier|] == q.frontier[..|p.frontier|];
      }
    }
  }

  /** The loop returns at its first goal child: the children after it change nothing. */
  lemma {:induction false} OfferAllStops(mode: string, goal: State, children: seq<Node>, p: Pending, i: nat)
    requires i < |children| && OfferAll(mode, goal, children[..i + 1], p).found.Some?
    ensures OfferAll(mode, goal, children, p) == OfferAll(mode, goal, children[..i + 1], p)
    decreases |children|
  {
    if |children| == i + 1 {
      assert children[..i + 1] == children;
    } else {
      var n := |children| - 1;
      assert children[..n][..i + 1] == children[..i + 1];
      OfferAllStops(mode, goal, children[..n], p, i);
    }
  }

  /** Removing an entry and exploring its key loses no state. */
  lemma PopReach(f: seq<Item>, explored: map<StateKey, nat>, k: nat, s: State)
    requires k < |f| && Reached(f, explored, s)
    ensures Reached(f[..k] + f[k + 1..], explored[f[k].node.Key() := f[k].node.depth], s)
  {
    if KeyOf(s) !in explored {
      var i :| 0 <= i < |f| && f[i].node.state == s;
      if i < k {
        assert (f[..k] + f[k + 1..])[i] == f[i];
      } else if i > k {
        assert (f[..k] + f[k + 1..])[i - 1] == f[i];
      }
    }
  }

  /**
   * A turn outside iterative deepening keeps the region closed: it explores
   * the removed node's key, and the child loop reaches each of its
   * successors unless it returns the goal.
   */
  lemma TurnCloses(mode: string, init: State, goal: State, f: seq<Item>, explored: map<StateKey, nat>, qCount: nat, k: nat)
    requires mode != "iddfs" && Closed(init, goal, f, explored)
    requires k < |f| && f[k].node.state != goal
    ensures var n := f[k].node;
            var r := OfferAll(mode, goal, ChildrenOf(n),
                              Pending(None, f[..k] + f[k + 1..], explored[n.Key() := n.depth], qCount));
            r.found.None? ==> Closed(init, goal, r.frontier, r.explored)
  {
    var n := f[k].node;
    var e := explored[n.Key() := n.depth];
    var p := Pending(None, f[..k] + f[k + 1..], e, qCount);
    var r := OfferAll(mode, goal, ChildrenOf(n), p);
    OfferAllFound(mode, goal, ChildrenOf(n), p);
    OfferAllCovers(mode, goal, ChildrenOf(n), p);
    if r.found.None? {
      assert r.explored == e;
      forall s | Reached(f, explored, s)
        ensures Reached(r.frontier, r.explored, s)
      {
        PopReach(f, explored, k, s);
        OfferAllReach(mode, goal, ChildrenOf(n), p, s);
      }
      KeyInjective(goal, n.state);
      forall s, t | KeyOf(s) in e && t in ValidSuccessors(s)
        ensures Reached(r.frontier, r.explored, t)
      {
        KeyInjective(s, n.state);
        if s == n.state {
          var j :| 0 <= j < |ValidSuccessors(s)| && ValidSuccessors(s)[j] == t;
          ChildrenForAt(n, ValidSuccessors(s));
          assert ChildrenOf(n)[j].state == t;
        }
      }
    }
  }

  lemma {:induction false} ClosedReaches(init: State, goal: State, explored: map<StateKey, nat>, p: seq<State>)
    requires Closed(init, goal, [], explored)
    requires |p| >= 1 && p[0] == init && IsTripSequence(p)
    ensures KeyOf(p[|p| - 1]) in explored
    decreases |p|
  {
    if |p| > 1 {
      var q := p[..|p| - 1];
      assert IsTripSequence(q) by {
        forall i | 0 <= i < |q| - 1
          ensures q[i + 1] in ValidSuccessors(q[i])
        {
          assert q[i] == p[i] && q[i + 1] == p[i + 1];
        }
      }
      ClosedReaches(init, goal, explored, q);
      assert KeyOf(q[|q| - 1]) in explored && p[|p| - 1] in ValidSuccessors(q[|q| - 1]);
      assert Reached([], explored, p[|p| - 1]);
    }
  }

  /** An empty frontier around a closed region: no sequence of trips from the start reaches the goal. */
  lemma Unreachable(init: State, goal: State, explored: map<StateKey, nat>)
    requires Closed(init, goal, [], explored)
    ensures forall p :: |p| >= 1 && p[0] == init && IsTripSequence(p) ==> p[|p| - 1] != goal
  {
    forall p | |p| >= 1 && p[0] == init && IsTripSequence(p)
      ensures p[|p| - 1] != goal
    {
      ClosedReaches(init, goal, explored, p);
    }
  }

  // ---------------------------------------------------------------------
  // The search.

  /**
   * The body of the `for child in expand(node)` loop of `graph_search`: the
   * child is skipped when its state is queued, or when its key is explored
   * (outside iterative deepening, or at a depth no greater than the
   * child's); an iterative-deepening child found shallower than explored
   * records its depth; a child holding the goal ends the search (`found`);
   * any other child is queued, with a tag not pushed before.
   */
  method PushOne(mode: string, init: State, goal: State, depth: nat, node: Node, ghost s: State, child: Node,
                 frontier: seq<Item>, explored: map<StateKey, nat>, qCount: nat,
                 ghost pushed: set<(StateKey, nat)>, ghost pops: seq<Item>)
    returns (found: Option<Node>, frontier': seq<Item>, explored': map<StateKey, nat>, qCount': nat,
             ghost pushed': set<(StateKey, nat)>)
    requires SearchInv(mode, init, goal, depth, frontier, explored, qCount, pushed)
    requires Rooted(node, init) && (mode == "iddfs" ==> node.depth < depth)
    requires s in ValidSuccessors(node.state) && child == ChildOf(node, s)
    requires mode == "astar" && HasBoat(init) ==>
               && PopsOrdered(pops, frontier, qCount)
               && |pops| > 0 && pops[|pops| - 1] == Ranked(Heuristic(node), pops[|pops| - 1].serial, node)
    ensures Skips(mode, frontier, explored, child) ==>
              found.None? && frontier' == frontier && explored' == explored && qCount' == qCount && pushed' == pushed
    ensures !Skips(mode, frontier, explored, child) ==>
              && explored' == Reopened(explored, child)
              && (found.Some? <==> child.state == goal)
    ensures !Skips(mode, frontier, explored, child) && child.state != goal ==>
              && frontier' == frontier + [Queued(mode, child, qCount)]
              && qCount' == NextCount(mode, qCount)
              && pushed' == pushed + {Tag(child, mode)}
              && Tag(child, mode) !in pushed && Tag(child, mode) in TagSpace(init, Bound(mode, depth))
    ensures found.Some? ==>
              && found.value == child && Rooted(child, init) && child.depth == node.depth + 1
              && frontier' == frontier && qCount' == qCount
    ensures found.None? ==>
              && SearchInv(mode, init, goal, depth, frontier', explored', qCount', pushed')
              && (mode == "astar" && HasBoat(init) ==> PopsOrdered(pops, frontier', qCount'))
    ensures Pending(found, frontier', explored', qCount') == Offer(mode, goal, child, Pending(None, frontier, explored, qCount))
  {
    found, frontier', explored', qCount', pushed' := None, frontier, explored, qCount, pushed;
    if InFrontier(frontier, child.state) {
      return;
    }
    if child.Key() in explored {
      if mode != "iddfs" || child.depth >= explored[child.Key()] {
        return;
      } else {
        explored' := explored[child.Key() := child.depth];
      }
    }

    if child.state == goal {
      ChildRooted(node, s, init);
      found := Some(child);
      return;
    }

    PushKeeps(mode, init, goal, depth, frontier, explored, qCount, pushed, node, s);
    if mode == "astar" {
      if HasBoat(init) {
        RootedInUniverse(node, init);
        PushKeepsOrder(pops, frontier, qCount, node, s);
      }
      frontier' := frontier + [Ranked(Heuristic(child), qCount, child)];
      qCount' := qCount + 1;
    } else {
      frontier' := frontier + [Plain(child)];
    }
    pushed' := pushed + {Tag(child, mode)};
  }

  /**
   * The `for child in expand(node)` loop of `graph_search`, one `PushOne`
   * per child, in order, returning at the first goal child: its result is
   * `OfferAll` of the children.
   */
  method PushChildren(mode: string, init: State, goal: State, depth: nat, node: Node, children: seq<Node>,
                      frontier: seq<Item>, explored: map<StateKey, nat>, qCount: nat,
                      ghost pushed: set<(StateKey, nat)>, ghost pops: seq<Item>)
    returns (found: Option<Node>, frontier': seq<Item>, explored': map<StateKey, nat>, qCount': nat,
             ghost pushed': set<(StateKey, nat)>)
    requires SearchInv(mode, init, goal, depth, frontier, explored, qCount, pushed)
    requires Rooted(node, init) && (mode == "iddfs" ==> node.depth < depth)
    requires |children| == |ValidSuccessors(node.state)|
    requires forall i :: 0 <= i < |children| ==> children[i] == ChildOf(node, ValidSuccessors(node.state)[i])
    requires mode == "astar" && HasBoat(init) ==>
               && PopsOrdered(pops, frontier, qCount)
               && |pops| > 0 && pops[|pops| - 1] == Ranked(Heuristic(node), pops[|pops| - 1].serial, node)
    ensures Pending(found, frontier', explored', qCount') == OfferAll(mode, goal, children, Pending(None, frontier, explored, qCount))
    ensures found.Some? ==> Rooted(found.value, init) && found.value.depth == node.depth + 1
    ensures found.None? ==>
              && SearchInv(mode, init, goal, depth, frontier', explored', qCount', pushed')
              && (mode == "astar" && HasBoat(init) ==> PopsOrdered(pops, frontier', qCount'))
              && pushed <= pushed' && pushed' - pushed <= TagSpace(init, Bound(mode, depth))
              && (pushed' == pushed ==> |frontier'| == |frontier|)
  {
    found, frontier', explored', qCount', pushed' := None, frontier, explored, qCount, pushed;
    ghost var start := Pending(None, frontier, explored, qCount);
    for i := 0 to |children|
      invariant found.None?
      invariant Pending(None, frontier', explored', qCount') == OfferAll(mode, goal, children[..i], start)
      invariant SearchInv(mode, init, goal, depth, frontier', explored', qCount', pushed')
      invariant mode == "astar" && HasBoat(init) ==> PopsOrdered(pops, frontier', qCount')
      invariant pushed <= pushed' && pushed' - pushed <= TagSpace(init, Bound(mode, depth))
      invariant pushed' == pushed ==> |frontier'| == |frontier|
    {
      assert children[..i + 1][..i] == children[..i];
      found, frontier', explored', qCount', pushed' :=
        PushOne(mode, init, goal, depth, node, ValidSuccessors(node.state)[i], children[i],
                frontier', explored', qCount', pushed', pops);
      if found.Some? {
        OfferAllStops(mode, goal, children, start, i);
        return;
      }
    }
    assert children[..|children|] == children;
  }

  /** A push that adds tags drawn from `space` leaves fewer of `space` untried. */
  lemma TagsShrink(space: set<(StateKey, nat)>, pushed: set<(StateKey, nat)>, pushed': set<(StateKey, nat)>)
    requires pushed <= pushed' && pushed' - pushed <= space && pushed' != pushed
    ensures space - pushed' < space - pushed
  {
    var t :| t in pushed' && t !in pushed;
    assert t in space - pushed && t !in space - pushed';
  }

  /** What the search loop keeps about the nodes expanded and the entries removed so far. */
  ghost predicate HistoryOk(mode: string, init: State, explored: map<StateKey, nat>, expansions: seq<Node>, pops: seq<Item>) {
    && (forall i :: 0 <= i < |expansions| ==> Rooted(expansions[i], init))
    && (mode != "iddfs" ==>
          && (forall i :: 0 <= i < |expansions| ==> expansions[i].Key() in explored)
          && (forall i, j :: 0 <= i < j < |expansions| ==> expansions[i].state != expansions[j].state))
    && (mode == "astar" ==> forall i :: 0 <= i < |pops| ==> pops[i].Ranked? && pops[i].cost == Heuristic(pops[i].node))
  }

  /** Removing `node` from the frontier, exploring it and counting it as expanded keeps the history. */
  lemma ExpandKeepsHistory(mode: string, init: State, explored: map<StateKey, nat>, expansions: seq<Node>,
                           pops: seq<Item>, item: Item)
    requires HistoryOk(mode, init, explored, expansions, pops)
    requires Rooted(item.node, init)
    requires mode != "iddfs" ==> item.node.Key() !in explored
    requires mode == "astar" ==> item.Ranked? && item.cost == Heuristic(item.node)
    ensures HistoryOk(mode, init, explored[item.node.Key() := item.node.depth], expansions + [item.node], pops + [item])
  {
    var n := item.node;
    var es := expansions + [n];
    var e := explored[n.Key() := n.depth];
    if mode != "iddfs" {
      forall i, j | 0 <= i < j < |es|
        ensures es[i].state != es[j].state
      {
        assert es[i] == expansions[i];
        if j < |expansions| {
          assert es[j] == expansions[j];
        }
      }
    }
    var ps := pops + [item];
    assert forall i :: 0 <= i < |ps| - 1 ==> ps[i] == pops[i];
  }

  /** A removal that is not expanded also keeps the history. */
  lemma SkipKeepsHistory(mode: string, init: State, explored: map<StateKey, nat>, expansions: seq<Node>,
                         pops: seq<Item>, item: Item)
    requires HistoryOk(mode, init, explored, expansions, pops)
    requires mode == "iddfs"
    ensures HistoryOk(mode, init, explored[item.node.Key() := item.node.depth], expansions, pops + [item])
  {
  }

  /** Everything the search loop keeps from one iteration to the next. */
  ghost predicate LoopInv(mode: string, init: State, goal: State, root: Node, depth: nat,
                          frontier: seq<Item>, explored: map<StateKey, nat>, qCount: nat,
                          pushed: set<(StateKey, nat)>, expanded: nat, expansions: seq<Node>, pops: seq<Item>) {
    && init != goal && root == Node(init, None, 0)
    && depth <= MaxDepth && (mode != "iddfs" ==> depth == 0)
    && SearchInv(mode, init, goal, depth, frontier, explored, qCount, pushed)
    && expanded == |expansions|
    && HistoryOk(mode, init, explored, expansions, pops)
    && (mode == "astar" && HasBoat(init) ==> PopsOrdered(pops, frontier, qCount))
    && (mode != "iddfs" ==> Closed(init, goal, frontier, explored))
  }

  /** A frontier holding just the root, with nothing explored or pushed, starts (or restarts) the loop. */
  lemma StartInv(mode: string, init: State, goal: State, depth: nat, frontier: seq<Item>, qCount: nat,
                 expanded: nat, expansions: seq<Node>, pops: seq<Item>)
    requires init != goal && depth <= MaxDepth && (mode != "iddfs" ==> depth == 0)
    requires |frontier| == 1 && frontier[0].node == Node(init, None, 0)
    requires frontier[0].Ranked? <==> mode == "astar"
    requires frontier[0].Ranked? ==> frontier[0].cost == Heuristic(frontier[0].node) && frontier[0].serial < qCount
    requires expanded == |expansions| && HistoryOk(mode, init, map[], expansions, pops)
    requires mode == "astar" ==> pops == []
    ensures LoopInv(mode, init, goal, Node(init, None, 0), depth, frontier, map[], qCount, {}, expanded, expansions, pops)
  {
    assert ItemOk(frontier[0], mode, init, goal, depth, qCount);
    assert frontier[0].node.state == init;
  }

  /**
   * The removal at the top of the loop: `heappop` for A*, `pop(0)` for
   * breadth-first search, `pop()` otherwise, followed by
   * `explored[node.key] = node.depth`.
   */
  method TakeNext(mode: string, init: State, goal: State, depth: nat,
                  frontier: seq<Item>, explored: map<StateKey, nat>, qCount: nat,
                  ghost pushed: set<(StateKey, nat)>, ghost pops: seq<Item>)
    returns (item: Item, frontier': seq<Item>, explored': map<StateKey, nat>, ghost pops': seq<Item>)
    requires |frontier| > 0
    requires SearchInv(mode, init, goal, depth, frontier, explored, qCount, pushed)
    requires mode == "astar" && HasBoat(init) ==> PopsOrdered(pops, frontier, qCount)
    ensures mode == "astar" ==>
              item.Ranked? && AllRanked(frontier) && forall i :: 0 <= i < |frontier| ==> !Before(frontier[i], item)
    ensures var k := PopIndex(frontier, mode);
            item == frontier[k] && frontier' == frontier[..k] + frontier[k + 1..]
    ensures ItemOk(item, mode, init, goal, depth, qCount)
    ensures mode != "iddfs" ==> item.node.Key() !in explored
    ensures explored' == explored[item.node.Key() := item.node.depth]
    ensures pops' == pops + [item] && |frontier'| == |frontier| - 1
    ensures SearchInv(mode, init, goal, depth, frontier', explored', qCount, pushed)
    ensures mode == "astar" && HasBoat(init) ==> PopsOrdered(pops', frontier', qCount)
  {
    if mode == "astar" {
      assert AllRanked(frontier) by {
        forall i | 0 <= i < |frontier|
          ensures frontier[i].Ranked?
        {
          assert ItemOk(frontier[i], mode, init, goal, depth, qCount);
        }
      }
    }
    var k := PopIndex(frontier, mode);
    item := frontier[k];
    assert ItemOk(item, mode, init, goal, depth, qCount);
    if mode == "astar" && HasBoat(init) {
      PopKeepsOrder(pops, frontier, qCount, k);
    }
    PopKeeps(mode, init, goal, depth, frontier, explored, qCount, pushed, k);
    frontier' := frontier[..k] + frontier[k + 1..];
    explored' := explored[item.node.Key() := item.node.depth];
    pops' := pops + [item];
  }

  /**
   * What one turn of the loop does to a non-empty frontier, `explored` and
   * `q_count`: remove the next entry and record its key at its depth; then,
   * unless iterative deepening has reached its depth bound, run the child
   * loop over the removed node's children.
   */
  ghost function Turn(mode: string, goal: State, depth: nat, f: seq<Item>, explored: map<StateKey, nat>, qCount: nat): Pending
    requires |f| > 0 && (mode == "astar" ==> AllRanked(f))
  {
    var k := PopIndex(f, mode);
    var n := f[k].node;
    var p := Pending(None, f[..k] + f[k + 1..], explored[n.Key() := n.depth], qCount);
    if mode == "iddfs" && n.depth >= depth then p else OfferAll(mode, goal, ChildrenOf(n), p)
  }

  /** A* removals in order stay in order once the frontier is dropped. */
  lemma PopsOrderedDrop(pops: seq<Item>, f: seq<Item>, qCount: nat, qCount': nat)
    requires PopsOrdered(pops, f, qCount) && qCount <= qCount'
    ensures PopsOrdered(pops, [], qCount')
  {
  }

  /**
   * One turn of the `while True` loop on a non-empty frontier: take the next
   * entry, explore its key, skip it when iterative deepening has reached the
   * depth bound, otherwise count it as expanded and run the child loop
   * (`OfferAll`) over its children.
   */
  method Step(mode: string, init: State, goal: State, root: Node, depth: nat,
              frontier: seq<Item>, explored: map<StateKey, nat>, qCount: nat, expanded: nat,
              ghost pushed: set<(StateKey, nat)>, ghost expansions: seq<Node>, ghost pops: seq<Item>)
    returns (found: Option<Node>, frontier': seq<Item>, explored': map<StateKey, nat>, qCount': nat, expanded': nat,
             ghost pushed': set<(StateKey, nat)>, ghost expansions': seq<Node>, ghost pops': seq<Item>)
    requires |frontier| > 0
    requires LoopInv(mode, init, goal, root, depth, frontier, explored, qCount, pushed, expanded, expansions, pops)
    ensures mode == "astar" ==> AllRanked(frontier)
    ensures Pending(found, frontier', explored', qCount') == Turn(mode, goal, depth, frontier, explored, qCount)
    ensures var n := frontier[PopIndex(frontier, mode)].node;
            && pops' == pops + [frontier[PopIndex(frontier, mode)]]
            && if mode == "iddfs" && n.depth >= depth then expanded' == expanded && expansions' == expansions
               else expanded' == expanded + 1 && expansions' == expansions + [n]
    ensures mode != "iddfs" ==> expanded' >= 1
    ensures found.Some? ==>
              && found.value.state == goal && Rooted(found.value, init) && found.value.depth >= 1
              && (mode == "iddfs" ==> found.value.depth <= depth)
              && expanded' == |expansions'|
              && HistoryOk(mode, init, explored', expansions', pops')
              && (mode == "astar" && HasBoat(init) ==> PopsOrdered(pops', [], qCount'))
    ensures found.None? ==>
              && LoopInv(mode, init, goal, root, depth, frontier', explored', qCount', pushed', expanded', expansions', pops')
              && ((pushed' == pushed && |frontier'| < |frontier|) ||
                  TagSpace(init, Bound(mode, depth)) - pushed' < TagSpace(init, Bound(mode, depth)) - pushed)
  {
    var item;
    item, frontier', explored', pops' := TakeNext(mode, init, goal, depth, frontier, explored, qCount, pushed, pops);
    var node := item.node;
    found, qCount', expanded' := None, qCount, expanded;
    pushed', expansions' := pushed, expansions;

    if mode == "iddfs" && node.depth >= depth {
      SkipKeepsHistory(mode, init, explored, expansions, pops, item);
      return;
    }

    ExpandKeepsHistory(mode, init, explored, expansions, pops, item);
    expanded' := expanded' + 1;
    expansions' := expansions' + [node];

    ghost var explored1 := explored';
    found, frontier', explored', qCount', pushed' :=
      ExpandNode(mode, init, goal, depth, node, frontier', explored', qCount, pushed, pops', frontier, explored, PopIndex(frontier, mode));
    assert HistoryOk(mode, init, explored1, expansions', pops');
  }

  /**
   * The expanding half of a turn: `expand(node)` and the child loop over its
   * children, on the frontier and `explored` left by the removal of `node`
   * from `f0` at position `k`.
   */
  method ExpandNode(mode: string, init: State, goal: State, depth: nat, node: Node,
                    frontier: seq<Item>, explored: map<StateKey, nat>, qCount: nat,
                    ghost pushed: set<(StateKey, nat)>, ghost pops: seq<Item>,
                    ghost f0: seq<Item>, ghost e0: map<StateKey, nat>, ghost k: nat)
    returns (found: Option<Node>, frontier': seq<Item>, explored': map<StateKey, nat>, qCount': nat,
             ghost pushed': set<(StateKey, nat)>)
    requires k < |f0| && node == f0[k].node && node.state != goal
    requires frontier == f0[..k] + f0[k + 1..] && explored == e0[node.Key() := node.depth]
    requires mode != "iddfs" ==> Closed(init, goal, f0, e0)
    requires SearchInv(mode, init, goal, depth, frontier, explored, qCount, pushed)
    requires Rooted(node, init) && (mode == "iddfs" ==> node.depth < depth)
    requires mode == "astar" && HasBoat(init) ==>
               && PopsOrdered(pops, frontier, qCount)
               && |pops| > 0 && pops[|pops| - 1] == Ranked(Heuristic(node), pops[|pops| - 1].serial, node)
    ensures Pending(found, frontier', explored', qCount') == OfferAll(mode, goal, ChildrenOf(node), Pending(None, frontier, explored, qCount))
    ensures mode != "iddfs" ==> explored' == explored
    ensures found.Some? ==>
              && found.value.state == goal && Rooted(found.value, init) && found.value.depth == node.depth + 1
              && (mode == "astar" && HasBoat(init) ==> PopsOrdered(pops, [], qCount'))
    ensures found.None? ==>
              && SearchInv(mode, init, goal, depth, frontier', explored', qCount', pushed')
              && (mode == "astar" && HasBoat(init) ==> PopsOrdered(pops, frontier', qCount'))
              && (mode != "iddfs" ==> Closed(init, goal, frontier', explored'))
              && ((pushed' == pushed && |frontier'| == |frontier|) ||
                  TagSpace(init, Bound(mode, depth)) - pushed' < TagSpace(init, Bound(mode, depth)) - pushed)
  {
    var children := Expand(node);
    found, frontier', explored', qCount', pushed' :=
      PushChildren(mode, init, goal, depth, node, children, frontier, explored, qCount, pushed, pops);
    OfferAllFound(mode, goal, children, Pending(None, frontier, explored, qCount));
    if found.Some? && mode == "astar" && HasBoat(init) {
      PopsOrderedDrop(pops, frontier, qCount, qCount');
    }
    if found.None? {
      if mode != "iddfs" {
        TurnCloses(mode, init, goal, f0, e0, qCount, k);
      }
      if pushed' != pushed {
        TagsShrink(TagSpace(init, Bound(mode, depth)), pushed, pushed');
      }
    }
  }

  /**
   * `graph_search(init_state, goal_state, mode)`.  `expansions` lists the
   * nodes counted as expanded, `pops` every entry taken off the frontier,
   * both in order.
   */
  method Search(init: State, goal: State, mode: string)
    returns (outcome: Outcome, ghost expansions: seq<Node>, ghost pops: seq<Item>)
    ensures outcome.StartIsGoal? <==> init == goal
    ensures outcome.StartIsGoal? ==> outcome.path == [init] && expansions == []
    ensures outcome.DepthLimitReached? ==> mode == "iddfs"
    ensures outcome.Exhausted? ==> mode != "iddfs" && outcome.expanded == |expansions| && outcome.expanded >= 1
    ensures outcome.Exhausted? ==> forall p :: |p| >= 1 && p[0] == init && IsTripSequence(p) ==> p[|p| - 1] != goal
    ensures outcome.Solved? ==>
              && outcome.expanded == |expansions|
              && |outcome.path| >= 2
              && outcome.path[0] == init
              && outcome.path[|outcome.path| - 1] == goal
              && (forall i :: 0 <= i < |outcome.path| - 1 ==> outcome.path[i + 1] in ValidSuccessors(outcome.path[i]))
              && (mode == "iddfs" ==> |outcome.path| <= MaxDepth + 1)
    ensures forall i :: 0 <= i < |expansions| ==> Rooted(expansions[i], init)
    ensures mode != "iddfs" ==>
              && (forall i, j :: 0 <= i < j < |expansions| ==> expansions[i].state != expansions[j].state)
              && |expansions| <= |Universe(init)|
    ensures mode == "astar" ==> forall i :: 0 <= i < |pops| ==> pops[i].Ranked? && pops[i].cost == Heuristic(pops[i].node)
    ensures mode == "astar" && HasBoat(init) ==> forall i, j :: 0 <= i < j < |pops| ==> Before(pops[i], pops[j])
  {
    var expanded: nat := 0;
    var depth: nat := 0;
    var qCount: nat := 0;
    expansions, pops := [], [];

    if init == goal {
      outcome := StartIsGoal([init]);
      return;
    }
    var root := NewNode(init, None);
    var explored: map<StateKey, nat> := map[];

    var frontier: seq<Item> := [];
    if mode == "astar" {
      frontier := frontier + [Ranked(Heuristic(root), qCount, root)];
      qCount := qCount + 1;
    } else {
      frontier := frontier + [Plain(root)];
    }
    ghost var pushed: set<(StateKey, nat)> := {};
    StartInv(mode, init, goal, depth, frontier, qCount, expanded, expansions, pops);

    while true
      invariant LoopInv(mode, init, goal, root, depth, frontier, explored, qCount, pushed, expanded, expansions, pops)
      invariant mode != "iddfs" && frontier == [] ==> expanded >= 1
      decreases MaxDepth - depth, TagSpace(init, Bound(mode, depth)) - pushed, |frontier|
    {
      if |frontier| == 0 {
        if mode == "iddfs" {
          if depth >= MaxDepth {
            outcome := DepthLimitReached;
            return;
          }
          frontier := frontier + [Plain(root)];
          explored := map[];
          depth := depth + 1;
          pushed := {};
          StartInv(mode, init, goal, depth, frontier, qCount, expanded, expansions, pops);
          continue;
        } else {
          outcome := Exhausted(expanded);
          ExpansionsBound(expansions, init);
          Unreachable(init, goal, explored);
          return;
        }
      }

      var found;
      found, frontier, explored, qCount, expanded, pushed, expansions, pops :=
        Step(mode, init, goal, root, depth, frontier, explored, qCount, expanded, pushed, expansions, pops);
      if found.Some? {
        var path := Solution(found.value);
        PathShape(found.value, init);
        outcome := Solved(path, expanded);
        if mode != "iddfs" {
          ExpansionsBound(expansions, init);
        }
        return;
      }
    }
  }

  /**
   * Outside iterative deepening the search is complete: when some sequence
   * of trips leads from the start to a different goal, it returns a
   * solution.
   */
  method SearchFindsReachableGoal(init: State, goal: State, mode: string, ghost p: seq<State>)
    returns (outcome: Outcome)
    requires mode != "iddfs" && init != goal
    requires |p| >= 1 && p[0] == init && IsTripSequence(p) && p[|p| - 1] == goal
    ensures outcome.Solved? && |outcome.path| >= 2 && outcome.path[0] == init && outcome.path[|outcome.path| - 1] == goal
  {
    ghost var expansions, pops;
    outcome, expansions, pops := Search(init, goal, mode);
  }
}
