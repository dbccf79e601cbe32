/** `expand` of Assignment1.py: the children of a node, in the code's fixed order of boat loads. */
module Expansion {
  import opened Options
  import opened RiverState
  import opened SearchNode

  /** One child of `n` per state of `ss`, in order. */
  ghost function ChildrenFor(n: Node, ss: seq<State>): (r: seq<Node>)
    ensures |r| == |ss|
  {
    if ss == [] then [] else [ChildOf(n, ss[0])] + ChildrenFor(n, ss[1..])
  }

  lemma {:induction false} ChildrenForAt(n: Node, ss: seq<State>)
    ensures forall i :: 0 <= i < |ss| ==> ChildrenFor(n, ss)[i] == ChildOf(n, ss[i])
  {
    if ss != [] {
      ChildrenForAt(n, ss[1..]);
    }
  }

  /** The children `expand` builds: one per valid successor, in order. */
  ghost function ChildrenOf(n: Node): (r: seq<Node>)
    ensures |r| == |ValidSuccessors(n.state)|
  {
    ChildrenFor(n, ValidSuccessors(n.state))
  }

  /**
   * Builds one child per valid candidate state, visiting the candidates
   * 1 chicken, 2 chickens, 1 wolf, 1 chicken and 1 wolf, 2 wolves.
   */
  method Expand(node: Node) returns (children: seq<Node>)
    ensures |children| == |ValidSuccessors(node.state)| <= 5
    ensures forall i :: 0 <= i < |children| ==> children[i] == ChildOf(node, ValidSuccessors(node.state)[i])
    ensures children == ChildrenOf(node)
    ensures forall i :: 0 <= i < |children| ==>
              children[i].parent == Some(node) && IsValid(children[i].state) &&
              (node.depth == Links(node.parent) ==> children[i].depth == node.depth + 1)
  {
    var states := Candidates(node.state);
    children := [];
    for i := 0 to |states|
      invariant |children| == |ValidOnly(states[..i])|
      invariant forall k :: 0 <= k < |children| ==> children[k] == ChildOf(node, ValidOnly(states[..i])[k])
    {
      assert states[..i + 1][..i] == states[..i];
      assert ValidOnly(states[..i + 1]) == ValidOnly(states[..i]) + (if IsValid(states[i]) then [states[i]] else []);
      if IsValid(states[i]) {
        var child := NewNode(states[i], Some(node));
        children := children + [child];
      }
    }
    assert states[..|states|] == states;
    SuccessorsAtMostFive(node.state);
    forall i | 0 <= i < |children|
      ensures IsValid(children[i].state)
    {
      SuccessorsSound(node.state, ValidSuccessors(node.state)[i]);
    }
    ChildrenForAt(node, ValidSuccessors(node.state));
    assert forall i :: 0 <= i < |children| ==> children[i] == ChildrenOf(node)[i];
  }
}
