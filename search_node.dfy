/**
 * Search-tree nodes of Assignment1.py (`Node`, `solution`).  A node never
 * changes after it is built, so it is modelled as a value: its parent link is
 * the parent node itself.
 */
module SearchNode {
  import opened Options
  import opened RiverState

  /** `Node`: a state, the node it was expanded from (none for the root) and the depth the constructor counted. */
  datatype Node = Node(state: State, parent: Option<Node>, depth: nat) {
    /** `node.key`, i.e. `str(node.state)`. */
    function Key(): StateKey { KeyOf(state) }
  }

  /** The number of nodes on the parent chain that starts at `p`. */
  ghost function Links(p: Option<Node>): nat {
    match p
    case None => 0
    case Some(m) => 1 + Links(m.parent)
  }

  /** `Node(state, parent)`: the constructor walks the ancestor chain and counts its links. */
  method NewNode(state: State, parent: Option<Node>) returns (n: Node)
    ensures n.state == state && n.parent == parent
    ensures n.depth == Links(parent)
    ensures parent.Some? && parent.value.depth == Links(parent.value.parent) ==> n.depth == parent.value.depth + 1
  {
    var depth := 0;
    var ancestor := parent;
    while ancestor.Some?
      invariant depth + Links(ancestor) == Links(parent)
      decreases Links(ancestor)
    {
      depth := depth + 1;
      ancestor := ancestor.value.parent;
    }
    n := Node(state, parent, depth);
  }

  /** The states from the root down to `n`, one per node. */
  ghost function PathTo(n: Node): seq<State> {
    match n.parent
    case None => [n.state]
    case Some(p) => PathTo(p) + [n.state]
  }

  /** The path down to `n`'s parent (empty for the root). */
  ghost function PathAbove(n: Node): seq<State> {
    match n.parent
    case None => []
    case Some(p) => PathTo(p)
  }

  /**
   * `n` hangs off a root holding `init` through legal moves, and every
   * depth on the way is the count of parent links.
   */
  ghost predicate Rooted(n: Node, init: State) {
    && n.depth == Links(n.parent)
    && match n.parent
       case None => n.state == init
       case Some(p) => n.state in ValidSuccessors(p.state) && Rooted(p, init)
  }

  /** `solution`: walk the parent links, putting each state in front. */
  method Solution(node: Node) returns (sol: seq<State>)
    ensures sol == PathTo(node)
  {
    sol := [node.state];
    var cur := node;
    while cur.parent.Some?
      invariant PathTo(node) == PathAbove(cur) + sol
      decreases Links(cur.parent)
    {
      cur := cur.parent.value;
      sol := [cur.state] + sol;
    }
  }

  /**
   * For a rooted node the path has depth + 1 states, starts at the root's
   * state, ends at the node's own, and each state is a successor of the one
   * before it.
   */
  lemma {:induction false} PathShape(n: Node, init: State)
    requires Rooted(n, init)
    ensures |PathTo(n)| == n.depth + 1
    ensures PathTo(n)[0] == init
    ensures PathTo(n)[|PathTo(n)| - 1] == n.state
    ensures forall i :: 0 <= i < |PathTo(n)| - 1 ==> PathTo(n)[i + 1] in ValidSuccessors(PathTo(n)[i])
  {
    match n.parent
    case None =>
    case Some(p) =>
      PathShape(p, init);
      var q := PathTo(p);
      assert PathTo(n) == q + [n.state];
      forall i | 0 <= i < |PathTo(n)| - 1
        ensures PathTo(n)[i + 1] in ValidSuccessors(PathTo(n)[i])
      {
        if i < |q| - 1 {
          assert PathTo(n)[i] == q[i] && PathTo(n)[i + 1] == q[i + 1];
        } else {
          assert PathTo(n)[i] == q[|q| - 1] == p.state;
        }
      }
  }

  /** The path visits the ancestors' states: the entry before the last is the parent's state. */
  lemma ParentOnPath(n: Node)
    requires n.parent.Some?
    ensures |PathTo(n)| >= 2
    ensures PathTo(n)[|PathTo(n)| - 2] == n.parent.value.state
  {
    PathEndsAtState(n.parent.value);
  }

  /** Path of any node, rooted or not, ends at its own state. */
  lemma PathEndsAtState(n: Node)
    ensures |PathTo(n)| >= 1 && PathTo(n)[|PathTo(n)| - 1] == n.state
  {
  }

  /** Every node of the tree rooted at `init` holds a state of `init`'s universe. */
  lemma {:induction false} RootedInUniverse(n: Node, init: State)
    requires Rooted(n, init)
    ensures n.state in Universe(init)
    ensures n.parent.Some? ==> OneBoat(n.state)
    ensures n.state == init || (IsValid(n.state) && OneBoat(n.state) &&
                                TotalChickens(n.state) == TotalChickens(init) &&
                                TotalWolves(n.state) == TotalWolves(init))
  {
    match n.parent
    case None =>
      InUniverse(init, n.state);
    case Some(p) =>
      RootedInUniverse(p, init);
      SuccessorsSound(p.state, n.state);
      InUniverse(init, n.state);
  }

  /** The child `expand` builds from `n` for successor state `s`. */
  ghost function ChildOf(n: Node, s: State): Node {
    Node(s, Some(n), Links(Some(n)))
  }

  /** A child of a rooted node is rooted, one level deeper. */
  lemma ChildRooted(n: Node, s: State, init: State)
    requires Rooted(n, init) && s in ValidSuccessors(n.state)
    ensures Rooted(ChildOf(n, s), init)
    ensures ChildOf(n, s).depth == n.depth + 1
  {
  }
}
