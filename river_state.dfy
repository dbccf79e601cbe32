/** The optional value used throughout the model. */
module Options {
  datatype Option<+T> = None | Some(value: T)
}

/**
 * The puzzle state of Assignment1.py: two banks, each holding a number of
 * chickens, a number of wolves and a flag telling whether the boat is moored
 * there.  Counts are unbounded integers, as in Python; `move_boat` can drive
 * them below zero before `is_valid` rejects the state.
 */
module RiverState {

  datatype Bank = Bank(chickens: int, wolves: int, boat: bool)

  datatype State = State(left: Bank, right: Bank)

  /** The stand-in for `str(state)`: any injective function of the six fields will do. */
  type StateKey = seq<int>

  function BoolCode(b: bool): int { if b then 1 else 0 }

  function KeyOf(s: State): (k: StateKey)
    ensures |k| == 6
  {
    [s.left.chickens, s.left.wolves, BoolCode(s.left.boat),
     s.right.chickens, s.right.wolves, BoolCode(s.right.boat)]
  }

  /** Two states share a key exactly when they are equal. */
  lemma KeyInjective(s: State, t: State)
    ensures KeyOf(s) == KeyOf(t) <==> s == t
  {
    if KeyOf(s) == KeyOf(t) {
      assert KeyOf(s)[2] == KeyOf(t)[2] && KeyOf(s)[5] == KeyOf(t)[5];
      assert s.left == t.left && s.right == t.right;
    }
  }

  function TotalChickens(s: State): int { s.left.chickens + s.right.chickens }

  function TotalWolves(s: State): int { s.left.wolves + s.right.wolves }

  /** The boat is moored at exactly one bank. */
  predicate OneBoat(s: State) { s.left.boat != s.right.boat }

  /** The boat is moored at one bank at least (an input file may give neither). */
  predicate HasBoat(s: State) { s.left.boat || s.right.boat }

  /** `is_valid`: no negative count, and no bank where chickens are present but outnumbered. */
  predicate IsValid(s: State) {
    && s.left.chickens >= 0 && s.left.wolves >= 0
    && s.right.chickens >= 0 && s.right.wolves >= 0
    && !(s.left.chickens > 0 && s.left.chickens < s.left.wolves)
    && !(s.right.chickens > 0 && s.right.chickens < s.right.wolves)
  }

  /**
   * `move_boat`: the departure bank is the left one when the left flag is set,
   * the right one otherwise; it loses the boat and the load, the other bank
   * gains both.
   */
  function MoveBoat(s: State, chickens: int, wolves: int): (t: State)
    ensures OneBoat(t)
    ensures s.left.boat ==> t.right.boat && !t.left.boat
    ensures !s.left.boat ==> t.left.boat && !t.right.boat
    ensures TotalChickens(t) == TotalChickens(s) && TotalWolves(t) == TotalWolves(s)
    ensures var (from, to) := if s.left.boat then (s.left, s.right) else (s.right, s.left);
            var (from', to') := if s.left.boat then (t.left, t.right) else (t.right, t.left);
            from'.chickens == from.chickens - chickens && to'.chickens == to.chickens + chickens &&
            from'.wolves == from.wolves - wolves && to'.wolves == to.wolves + wolves
  {
    var from := if s.left.boat then s.left else s.right;
    var to := if s.left.boat then s.right else s.left;
    var from' := Bank(from.chickens - chickens, from.wolves - wolves, false);
    var to' := Bank(to.chickens + chickens, to.wolves + wolves, true);
    if s.left.boat then State(from', to') else State(to', from')
  }

  /** A boat load; the five loads the code tries, in its order. */
  datatype Load = Load(chickens: nat, wolves: nat)

  const Loads: seq<Load> := [Load(1, 0), Load(2, 0), Load(0, 1), Load(1, 1), Load(0, 2)]

  /** The five candidate states of `expand`, valid or not, in the code's order. */
  function Candidates(s: State): (r: seq<State>)
    ensures |r| == |Loads|
    ensures forall i :: 0 <= i < |r| ==> r[i] == MoveBoat(s, Loads[i].chickens, Loads[i].wolves)
  {
    [MoveBoat(s, 1, 0), MoveBoat(s, 2, 0), MoveBoat(s, 0, 1), MoveBoat(s, 1, 1), MoveBoat(s, 0, 2)]
  }

  /** The states of `ss` that satisfy `is_valid`, in their order. */
  function ValidOnly(ss: seq<State>): (r: seq<State>)
    ensures |r| <= |ss|
  {
    if ss == [] then []
    else
      var last := ss[|ss| - 1];
      ValidOnly(ss[..|ss| - 1]) + (if IsValid(last) then [last] else [])
  }

  /** A state survives the filter exactly when it is among the inputs and valid. */
  lemma {:induction false} ValidOnlyMembers(ss: seq<State>, t: State)
    ensures t in ValidOnly(ss) <==> t in ss && IsValid(t)
  {
    if ss != [] {
      var n := |ss| - 1;
      ValidOnlyMembers(ss[..n], t);
      assert ss == ss[..n] + [ss[n]];
    }
  }

  /** The states `expand` turns into children. */
  function ValidSuccessors(s: State): seq<State> {
    ValidOnly(Candidates(s))
  }

  /** `p` is a sequence of legal boat trips. */
  ghost predicate IsTripSequence(p: seq<State>) {
    forall i :: 0 <= i < |p| - 1 ==> p[i + 1] in ValidSuccessors(p[i])
  }

  /** `idx` picks out of `ss`, in increasing order, exactly the positions holding a valid state, and `r` is what it picks. */
  ghost predicate Selects(ss: seq<State>, r: seq<State>, idx: seq<nat>) {
    && |idx| == |r|
    && (forall k :: 0 <= k < |idx| ==> PicksAt(ss, r, idx, k))
    && (forall k, l :: 0 <= k < l < |idx| ==> idx[k] < idx[l])
    && (forall j :: 0 <= j < |ss| && IsValid(ss[j]) ==> j in idx)
  }

  ghost predicate PicksAt(ss: seq<State>, r: seq<State>, idx: seq<nat>, k: nat)
    requires k < |idx| && |idx| == |r|
  {
    idx[k] < |ss| && r[k] == ss[idx[k]]
  }

  /** The selection for `ss` extends the one for all but its last state, by that state's position when it is valid. */
  ghost function Extended(ss: seq<State>, prev: seq<nat>): seq<nat>
    requires ss != []
  {
    if IsValid(ss[|ss| - 1]) then prev + [|ss| - 1] else prev
  }

  lemma ExtendPicks(ss: seq<State>, prev: seq<nat>)
    requires ss != [] && Selects(ss[..|ss| - 1], ValidOnly(ss[..|ss| - 1]), prev)
    ensures |Extended(ss, prev)| == |ValidOnly(ss)|
    ensures forall k :: 0 <= k < |Extended(ss, prev)| ==> PicksAt(ss, ValidOnly(ss), Extended(ss, prev), k)
  {
    var n := |ss| - 1;
    var front := ss[..n];
    var r := ValidOnly(ss);
    var r0 := ValidOnly(front);
    var idx := Extended(ss, prev);
    assert r == r0 + (if IsValid(ss[n]) then [ss[n]] else []);
    forall k | 0 <= k < |idx|
      ensures PicksAt(ss, r, idx, k)
    {
      if k < |prev| {
        assert PicksAt(front, r0, prev, k);
        assert r[k] == r0[k] == front[prev[k]];
      }
    }
  }

  lemma ExtendIncreasing(ss: seq<State>, prev: seq<nat>)
    requires ss != [] && Selects(ss[..|ss| - 1], ValidOnly(ss[..|ss| - 1]), prev)
    ensures var idx := Extended(ss, prev);
            forall k, l :: 0 <= k < l < |idx| ==> idx[k] < idx[l]
  {
    var n := |ss| - 1;
    forall k | 0 <= k < |prev|
      ensures prev[k] < n
    {
      assert PicksAt(ss[..n], ValidOnly(ss[..n]), prev, k);
    }
  }

  lemma ExtendComplete(ss: seq<State>, prev: seq<nat>)
    requires ss != [] && Selects(ss[..|ss| - 1], ValidOnly(ss[..|ss| - 1]), prev)
    ensures forall j :: 0 <= j < |ss| && IsValid(ss[j]) ==> j in Extended(ss, prev)
  {
    var n := |ss| - 1;
    var idx := Extended(ss, prev);
    forall j | 0 <= j < |ss| && IsValid(ss[j])
      ensures j in idx
    {
      if j < n {
        assert ss[..n][j] == ss[j];
        assert j in prev;
      } else {
        assert idx[|prev|] == n;
      }
    }
  }

  /** Filtering keeps the order of the candidates and drops exactly the invalid ones. */
  lemma {:induction false} ValidOnlyKeepsOrder(ss: seq<State>) returns (idx: seq<nat>)
    ensures Selects(ss, ValidOnly(ss), idx)
  {
    if ss == [] {
      idx := [];
    } else {
      var prev := ValidOnlyKeepsOrder(ss[..|ss| - 1]);
      idx := Extended(ss, prev);
      ExtendPicks(ss, prev);
      ExtendIncreasing(ss, prev);
      ExtendComplete(ss, prev);
    }
  }

  /** Every successor is valid, has exactly one boat, took the boat away from the bank that held it, and conserves both species. */
  lemma SuccessorsSound(s: State, t: State)
    requires t in ValidSuccessors(s)
    ensures IsValid(t) && OneBoat(t)
    ensures s.left.boat ==> t.right.boat
    ensures !s.left.boat ==> t.left.boat
    ensures TotalChickens(t) == TotalChickens(s) && TotalWolves(t) == TotalWolves(s)
  {
    ValidOnlyMembers(Candidates(s), t);
    var i :| 0 <= i < |Candidates(s)| && Candidates(s)[i] == t;
  }

  /** A state is a successor exactly when some one of the five loads produces it and it is valid. */
  lemma SuccessorsComplete(s: State, t: State)
    ensures t in ValidSuccessors(s) <==>
            IsValid(t) && exists i :: 0 <= i < |Loads| && t == MoveBoat(s, Loads[i].chickens, Loads[i].wolves)
  {
    ValidOnlyMembers(Candidates(s), t);
    if IsValid(t) && exists i :: 0 <= i < |Loads| && t == MoveBoat(s, Loads[i].chickens, Loads[i].wolves) {
      var i :| 0 <= i < |Loads| && t == MoveBoat(s, Loads[i].chickens, Loads[i].wolves);
      assert Candidates(s)[i] == t;
    }
  }

  /** At most five successors. */
  lemma SuccessorsAtMostFive(s: State)
    ensures |ValidSuccessors(s)| <= 5
  {
  }

  /**
   * A finite set that holds every state that can ever enter the search tree
   * rooted at `init`: `init` itself, and every valid state with one boat and
   * `init`'s totals.  It may hold states no trip sequence reaches.
   */
  ghost function Universe(init: State): set<State> {
    var c := TotalChickens(init);
    var w := TotalWolves(init);
    {init} + set x, y, b: bool | 0 <= x <= c && 0 <= y <= w && IsValid(Arrangement(init, x, y, b)) :: Arrangement(init, x, y, b)
  }

  /** The state with `x` chickens, `y` wolves and boat flag `b` on the left and the rest of `init`'s animals on the right. */
  function Arrangement(init: State, x: int, y: int, b: bool): State {
    State(Bank(x, y, b), Bank(TotalChickens(init) - x, TotalWolves(init) - y, !b))
  }

  lemma InUniverse(init: State, s: State)
    requires s == init || (IsValid(s) && OneBoat(s) &&
                           TotalChickens(s) == TotalChickens(init) && TotalWolves(s) == TotalWolves(init))
    ensures s in Universe(init)
  {
    if s != init {
      assert s == Arrangement(init, s.left.chickens, s.left.wolves, s.left.boat);
    }
  }
}
