/**
 * `hueristic` of Assignment1.py, the A* estimate.  It charges two moves per
 * animal still on the right bank and three moves less when the boat is
 * already there; the goal it is written for is an empty right bank.
 */
module AStarHeuristic {
  import opened Options
  import opened RiverState
  import opened SearchNode

  /** The part of the estimate that depends on the state only. */
  function Estimate(s: State): int {
    var cost := s.right.chickens * 2 + s.right.wolves * 2;
    if s.right.boat then cost - 3 else cost
  }

  /** `hueristic(node)`: depth so far plus the estimate for the node's state. */
  function Heuristic(n: Node): int {
    n.depth + Estimate(n.state)
  }

  /** One boat trip lowers the estimate by at most one, whichever of the five loads it carries. */
  lemma EstimateStep(s: State, i: nat)
    requires HasBoat(s) && i < |Loads|
    ensures Estimate(s) <= Estimate(MoveBoat(s, Loads[i].chickens, Loads[i].wolves)) + 1
  {
  }

  /** The same for every successor `expand` can produce. */
  lemma SuccessorEstimate(s: State, t: State)
    requires HasBoat(s) && t in ValidSuccessors(s)
    ensures Estimate(s) <= Estimate(t) + 1
  {
    SuccessorsComplete(s, t);
    var i :| 0 <= i < |Loads| && t == MoveBoat(s, Loads[i].chickens, Loads[i].wolves);
    EstimateStep(s, i);
  }

  /** The heuristic never decreases from a node to any of its children (it is consistent). */
  lemma HeuristicMonotone(n: Node, s: State)
    requires HasBoat(n.state) && n.depth == Links(n.parent) && s in ValidSuccessors(n.state)
    ensures Heuristic(n) <= Heuristic(ChildOf(n, s))
  {
    SuccessorEstimate(n.state, s);
  }

  /** The right bank holds no animal: the goal the heuristic is written for. */
  predicate RightBankEmpty(s: State) {
    s.right.chickens == 0 && s.right.wolves == 0
  }

  /**
   * Admissibility: from a state with a boat, every sequence of legal trips
   * that empties the right bank takes at least `Estimate` trips.
   */
  lemma {:induction false} EstimateAdmissible(p: seq<State>)
    requires |p| >= 1 && HasBoat(p[0]) && IsTripSequence(p) && RightBankEmpty(p[|p| - 1])
    ensures Estimate(p[0]) <= |p| - 1
  {
    if |p| > 1 {
      SuccessorEstimate(p[0], p[1]);
      SuccessorsSound(p[0], p[1]);
      var q := p[1..];
      assert IsTripSequence(q) by {
        forall i | 0 <= i < |q| - 1
          ensures q[i + 1] in ValidSuccessors(q[i])
        {
          assert q[i] == p[i + 1] && q[i + 1] == p[i + 2];
        }
      }
      EstimateAdmissible(q);
    }
  }

  /** So `hueristic(n)` never exceeds the depth so far plus the length of any way on to an empty right bank. */
  lemma HeuristicAdmissible(n: Node, p: seq<State>)
    requires |p| >= 1 && p[0] == n.state && HasBoat(n.state)
    requires IsTripSequence(p) && RightBankEmpty(p[|p| - 1])
    ensures Heuristic(n) <= n.depth + (|p| - 1)
  {
    EstimateAdmissible(p);
  }

  /**
   * Without a boat on either bank the bound fails: one chicken alone on the
   * right bank reaches an empty right bank in one trip, yet the estimate is 2.
   */
  lemma NoBoatNotAdmissible()
    ensures var s := State(Bank(0, 0, false), Bank(1, 0, false));
            var t := MoveBoat(s, 1, 0);
            t in ValidSuccessors(s) && RightBankEmpty(t) && Estimate(s) > 1
  {
    var s := State(Bank(0, 0, false), Bank(1, 0, false));
    var t := MoveBoat(s, 1, 0);
    assert Candidates(s)[0] == t;
    ValidOnlyMembers(Candidates(s), t);
  }
}
