# River-crossing search and text preprocessing, in Dafny

This project models two programs of the CS331 assignments and proves properties of them.

**The river-crossing search** (`Assignment1.py`). A state is two river banks. Each bank holds a number of chickens, a number of wolves and a flag saying whether the boat is moored there. The search is a single `graph_search` loop that runs as breadth-first search (`bfs`), depth-first search (any other tag), iterative deepening (`iddfs`) or A* (`astar`).

- `expand` builds a node's children. It moves the boat with the five loads 1 chicken, 2 chickens, 1 wolf, 1 chicken and 1 wolf, 2 wolves, and keeps the results that satisfy `is_valid`.
- `Node` counts its depth by walking the ancestor chain.
- `solution` rebuilds the path by walking parent links.
- `hueristic` is the A* priority: depth plus twice the animals on the right bank, minus 3 when the boat is there.
- The frontier is a list. Breadth-first search pops from the front, the other non-A* modes pop from the back, and A* uses a heap of `(cost, q_count, node)` triples.
- `explored` maps a state's key to a depth.

**The text preprocessing** (`Programming_Assignment_3.py`).

- `parse_line` splits a line into its last word, the class label, and the cleaned words before it. Cleaning drops punctuation and digits and lowers the letters.
- `build_vocabulary` collects the sorted set of all words.
- `generate_features` turns each line into a record that maps every vocabulary word to `"1"` or `"0"`, plus the class label.
- `generate_UDPs` splits the records by class and counts, per word, the records in which the word occurs.

## Design

Files and modules:

| file | module | models |
|---|---|---|
| `river_state.dfy` | `Options`, `RiverState` | states, `move_boat`, `is_valid`, the five candidates |
| `search_node.dfy` | `SearchNode` | `Node`, `solution` |
| `expand.dfy` | `Expansion` | `expand` |
| `heuristic.dfy` | `AStarHeuristic` | `hueristic` |
| `graph_search.dfy` | `GraphSearch` | `graph_search` |
| `text_tokens.dfy` | `TextTokens` | `str.isspace`, `rstrip`, `split`, `translate`, `lower` over ASCII |
| `line_parser.dfy` | `LineParser` | `parse_line` |
| `vocabulary.dfy` | `Vocabulary` | `build_vocabulary` |
| `features.dfy` | `Features` | `generate_features` and the integer part of `generate_UDPs` |

**Nodes.** A node is never changed after it is built, so `Node` is a datatype. Its parent link is the parent node itself. `deepcopy` in `move_boat` is unnecessary with values.

**Keys.** `str(state)` becomes `KeyOf`, a six-integer key. `KeyInjective` proves that two states share a key exactly when they are equal, which is all the search relies on.

**The frontier.**

- The frontier is a `seq<Item>`. An item is a bare node (`Plain`) or an A* triple (`Ranked`, with the cost and the `q_count` serial).
- `heappush` appends. `heappop` removes an entry that no other entry is `Before` in `(cost, serial)` order.
- The heap's internal layout is not modelled. Serials are unique, so the entry `heappop` returns is exactly the one the model removes.

**The search loop.**

- `GraphSearch.Search` is the `while True` loop. Each turn is `Step`, which is built from:
  - `TakeNext`: the pop and `explored[node.key] = node.depth`;
  - the iterative-deepening skip;
  - `ExpandNode`: `Expand`, then `PushChildren`, one `PushOne` per child.
- The new state of each of these methods is stated through value-level functions:
  - `Offer` is what the loop body at lines 195-222 does with one child;
  - `OfferAll` applies `Offer` to the children in order;
  - `Turn` is a whole turn: the pop, then the skip or `OfferAll` over the node's children.
- Ghost outputs record every node counted as expanded (`expansions`) and every entry taken off the frontier (`pops`), in order.
- Outside iterative deepening the loop also keeps the explored region `Closed`. The start is in the frontier or explored, the goal's key is not explored, and every valid successor of an explored state is in the frontier or explored. With an empty frontier this means no sequence of trips reaches the goal (`Unreachable`).

**Termination.** The loop terminates because each turn decreases the measure `(500 - depth, untried tags, |frontier|)`.

- A tag is a key together with the depth for iterative deepening, or with 0 otherwise.
- Tags range over a finite set of states, `Universe`: the start together with every valid one-boat arrangement of the start's totals. Moves conserve both species, so every state of the search tree is in it (`RootedInUniverse`). `Universe` may hold states that no sequence of trips reaches.
- Within one round, a tag is never pushed twice.

**Results.** `Outcome` distinguishes the four return shapes of `graph_search`:

- `StartIsGoal`: the bare list of line 147;
- `Solved`: a path and an expansion count, line 215;
- `Exhausted`: `None` and a count, line 171;
- `DepthLimitReached`: the bare `None` of line 165.

Unlike the exhausted search at line 171, lines 147 and 165 return no expansion count, and the model keeps that difference. The `__main__` block (line 228) would in fact fail to unpack both of those shapes. That block is not modelled.

**Text.** Text is ASCII `string`. Whitespace is what `str.isspace` accepts in ASCII: space, `\t` to `\r`, and `\x1c` to `\x1f`. A line whose `rsplit` gives other than two parts makes the tuple unpacking at line 6 raise; there `ParseLine` returns `None`. `BuildVocabulary` and `GenerateFeatures` then also return `None`.

**Quirks kept.**

- The explored map is overwritten on every pop (line 184).
- Only children are goal-tested, apart from the first check (lines 146, 214).
- On an iterative-deepening restart, the root is pushed back and popped next (lines 166-168). The model pops it at the start of the next loop turn, which does the same work.
- A vocabulary word `"classlabel"` is overwritten by the label (line 33).
- `generate_features` on an empty file fails at `features[0]` (line 37).

## Model

| member | source | states |
|---|---|---|
| RiverState.KeyOf | Programming_Assignment_1/Assignment1/Assignment1.py:11 | the stand-in for `self.key = str(self.state)`: a six-component key listing both banks' counts and boat flags (that it tells states apart: `KeyInjective`) |
| RiverState.KeyInjective | Programming_Assignment_1/Assignment1/Assignment1.py:11 | two states have the same key exactly when they are the same state |
| RiverState.MoveBoat | Programming_Assignment_1/Assignment1/Assignment1.py:99-112 | the boat leaves the bank that has the left flag set (or the right one otherwise) and ends at the other; exactly one flag is set afterwards; the load leaves one bank and arrives at the other; total chickens and total wolves are unchanged |
| RiverState.IsValid | Programming_Assignment_1/Assignment1/Assignment1.py:115-124 | the definition of `is_valid`: all four counts are non-negative, and on each bank the chickens, when there are any, are not outnumbered by the wolves |
| RiverState.Candidates | Programming_Assignment_1/Assignment1/Assignment1.py:127-131 | there are five candidates, the i-th being the boat move with the i-th load of 1C, 2C, 1W, 1C+1W, 2W |
| RiverState.ValidOnly | Programming_Assignment_1/Assignment1/Assignment1.py:133-135 | the `is_valid` filter keeps no more states than it is given (what it keeps: `ValidOnlyMembers`, `ValidOnlyKeepsOrder`) |
| RiverState.ValidOnlyMembers | Programming_Assignment_1/Assignment1/Assignment1.py:133-135 | a state survives the `is_valid` filter exactly when it is a candidate and valid |
| RiverState.ValidOnlyKeepsOrder | Programming_Assignment_1/Assignment1/Assignment1.py:127-135 | the surviving states are the valid candidates at strictly increasing positions, so the candidate order is kept and no valid candidate is dropped |
| RiverState.SuccessorsSound | Programming_Assignment_1/Assignment1/Assignment1.py:99-124 | every successor is valid, has exactly one boat flag, took the boat from the bank that held it, and keeps both totals |
| RiverState.SuccessorsComplete | Programming_Assignment_1/Assignment1/Assignment1.py:115-135 | a state is a successor if and only if it is valid and one of the five loads produces it |
| RiverState.SuccessorsAtMostFive | Programming_Assignment_1/Assignment1/Assignment1.py:127-137 | a state has at most five successors |
| RiverState.ValidSuccessors | Programming_Assignment_1/Assignment1/Assignment1.py:127-135 | the definition of the states `expand` turns into children: the five candidates filtered by `is_valid`, in candidate order (what they are: `SuccessorsSound`, `SuccessorsComplete`, `ValidOnlyKeepsOrder`) |
| SearchNode.NewNode | Programming_Assignment_1/Assignment1/Assignment1.py:8-16 | the constructor's loop sets the depth to the number of parent links, one more than a correctly built parent's depth |
| SearchNode.Solution | Programming_Assignment_1/Assignment1/Assignment1.py:86-94 | the loop returns the states from the root down to the node |
| SearchNode.PathShape | Programming_Assignment_1/Assignment1/Assignment1.py:7-16 | for a node of the search tree the path has depth + 1 states, starts at the start state, ends at the node's state, and each state is a successor of the one before |
| SearchNode.ParentOnPath | Programming_Assignment_1/Assignment1/Assignment1.py:90-92 | the state just before a node's own on its path is its parent's state |
| SearchNode.RootedInUniverse | Programming_Assignment_1/Assignment1/Assignment1.py:97-137 | every node of the search tree holds the start state or a valid one-boat state with the start's totals, so the search space is finite |
| SearchNode.ChildRooted | Programming_Assignment_1/Assignment1/Assignment1.py:135 | a child built from a tree node and one of its successors is a tree node one level deeper |
| Expansion.Expand | Programming_Assignment_1/Assignment1/Assignment1.py:97-137 | the children are exactly the valid successors in candidate order (at most five), each with the expanded node as parent, a valid state and depth one more; the list is `ChildrenOf(node)` |
| Expansion.ChildrenFor | Programming_Assignment_1/Assignment1/Assignment1.py:133-135 | one child per given state, as many children as states (which child: `ChildrenForAt`) |
| Expansion.ChildrenOf | Programming_Assignment_1/Assignment1/Assignment1.py:133-135 | the children `expand` appends: one per valid successor of the node's state |
| Expansion.ChildrenForAt | Programming_Assignment_1/Assignment1/Assignment1.py:133-135 | the i-th child built from a list of states is the child of its i-th state |
| AStarHeuristic.Estimate | Programming_Assignment_1/Assignment1/Assignment1.py:79-82 | the definition of the bank term of `hueristic`: twice the chickens and wolves on the right bank, minus 3 when the boat is there |
| AStarHeuristic.Heuristic | Programming_Assignment_1/Assignment1/Assignment1.py:77-83 | the definition of `hueristic`: the node's depth plus `Estimate` of its state |
| AStarHeuristic.EstimateStep | Programming_Assignment_1/Assignment1/Assignment1.py:77-83 | from a state with a boat, any of the five loads lowers the bank term of the estimate by at most one |
| AStarHeuristic.SuccessorEstimate | Programming_Assignment_1/Assignment1/Assignment1.py:77-83 | the same for every successor `expand` can produce |
| AStarHeuristic.HeuristicMonotone | Programming_Assignment_1/Assignment1/Assignment1.py:77-83 | from a state with a boat, `hueristic` never decreases from a node to one of its children |
| AStarHeuristic.EstimateAdmissible | Programming_Assignment_1/Assignment1/Assignment1.py:64-76 | from a state with a boat, every sequence of legal trips that empties the right bank has at least as many trips as the bank term of the estimate |
| AStarHeuristic.HeuristicAdmissible | Programming_Assignment_1/Assignment1/Assignment1.py:64-83 | from a state with a boat, `hueristic(n)` is at most the depth so far plus the length of any continuation to an empty right bank |
| AStarHeuristic.NoBoatNotAdmissible | Programming_Assignment_1/Assignment1/Assignment1.py:64-76 | the docstring's "admissible for all states" fails for a state with no boat on either bank: one chicken on the right bank reaches the goal in one trip but is estimated at 2 |
| GraphSearch.MinIndex | Programming_Assignment_1/Assignment1/Assignment1.py:175 | the entry `heappop` takes has no entry before it in `(cost, q_count)` order |
| GraphSearch.PopIndex | Programming_Assignment_1/Assignment1/Assignment1.py:174-181 | A* removes a least entry, `bfs` the first, every other mode the last |
| GraphSearch.InFrontier | Programming_Assignment_1/Assignment1/Assignment1.py:197-202 | the definition of the frontier test `any(x for x in frontier if x.state == child.state)` (and `x[2].state` for A*): some entry holds a node with that state |
| GraphSearch.Offer | Programming_Assignment_1/Assignment1/Assignment1.py:195-222 | the definition of what the loop body does with one child: once a goal child is found, or when the child is skipped (its state queued, or its key explored outside iterative deepening or at no greater depth), nothing changes; otherwise a shallower iterative-deepening depth is recorded, and then the child is returned when it is the goal or queued with `q_count` otherwise |
| GraphSearch.OfferAll | Programming_Assignment_1/Assignment1/Assignment1.py:194-222 | the definition of the child loop: `Offer` applied to the children in order |
| GraphSearch.Turn | Programming_Assignment_1/Assignment1/Assignment1.py:173-222 | the definition of one turn: the pop and `explored[node.key] = node.depth`, then the iterative-deepening skip or `OfferAll` over the node's children |
| GraphSearch.PopKeeps | Programming_Assignment_1/Assignment1/Assignment1.py:175-184 | removing an entry and recording its key keeps the frontier invariant: states distinct, serials increasing along the frontier, no explored key outside iterative deepening, every pushed tag still accounted for |
| GraphSearch.PushKeeps | Programming_Assignment_1/Assignment1/Assignment1.py:195-222 | queuing a child that passed the frontier, explored and goal tests keeps the invariant, and its tag is new and within the finite tag space |
| GraphSearch.PopKeepsOrder | Programming_Assignment_1/Assignment1/Assignment1.py:174-175 | an A* removal of a least entry comes strictly after every earlier removal and before everything still queued |
| GraphSearch.PushKeepsOrder | Programming_Assignment_1/Assignment1/Assignment1.py:218-220 | a pushed A* child of a node whose state has a boat costs no less than its parent and has a fresh serial, so it comes after every removal so far |
| GraphSearch.ExpansionsBound | Programming_Assignment_1/Assignment1/Assignment1.py:184-222 | expansions of distinct tree nodes number no more than the states in `Universe`, the valid one-boat arrangements of the start's totals together with the start |
| GraphSearch.OfferReach | Programming_Assignment_1/Assignment1/Assignment1.py:195-222 | a state already queued or explored is still queued or explored after one child is offered |
| GraphSearch.OfferAllReach | Programming_Assignment_1/Assignment1/Assignment1.py:194-222 | the same after the whole child loop |
| GraphSearch.OfferAllCovers | Programming_Assignment_1/Assignment1/Assignment1.py:194-222 | when the child loop returns no goal, every child's state ends up queued or explored |
| GraphSearch.OfferAllFound | Programming_Assignment_1/Assignment1/Assignment1.py:194-222 | a returned child is one of the children and holds the goal; the old frontier is kept as a prefix and only non-goal children are appended; outside iterative deepening `explored` is untouched; `q_count` never decreases |
| GraphSearch.OfferAllStops | Programming_Assignment_1/Assignment1/Assignment1.py:214-215 | once a goal child is returned, the remaining children change nothing |
| GraphSearch.PopReach | Programming_Assignment_1/Assignment1/Assignment1.py:175-184 | a state queued or explored before a pop is queued or explored after it |
| GraphSearch.TurnCloses | Programming_Assignment_1/Assignment1/Assignment1.py:173-222 | outside iterative deepening, a turn that returns no goal keeps the explored region closed under valid successors |
| GraphSearch.ClosedReaches | Programming_Assignment_1/Assignment1/Assignment1.py:161-171 | with an empty frontier around a closed region, every state at the end of a trip sequence from the start is explored |
| GraphSearch.Unreachable | Programming_Assignment_1/Assignment1/Assignment1.py:161-171 | with an empty frontier around a closed region, no sequence of trips from the start ends at the goal |
| GraphSearch.PushOne | Programming_Assignment_1/Assignment1/Assignment1.py:195-222 | one child, the whole new state: a skipped child changes nothing; otherwise a shallower iterative-deepening depth is recorded, the child is returned exactly when it is the goal (rooted, one level deeper, frontier and `q_count` unchanged), and any other child is appended as `(hueristic(child), q_count, child)` for A* or as the bare node, with `q_count` advanced for A* only; the result equals `Offer` |
| GraphSearch.PushChildren | Programming_Assignment_1/Assignment1/Assignment1.py:194-222 | the new state equals `OfferAll` over the children; a returned child is rooted and one level deeper; otherwise the invariant and the A* order are kept, and the frontier is unchanged or the untried tags shrink |
| GraphSearch.ExpandKeepsHistory | Programming_Assignment_1/Assignment1/Assignment1.py:184-191 | counting a popped node as expanded keeps every expansion a tree node, and outside iterative deepening keeps expanded states distinct and explored |
| GraphSearch.SkipKeepsHistory | Programming_Assignment_1/Assignment1/Assignment1.py:187-188 | an iterative-deepening pop at the depth bound expands nothing and keeps the history |
| GraphSearch.StartInv | Programming_Assignment_1/Assignment1/Assignment1.py:152-168 | a frontier holding just the root, with `explored` empty, satisfies the loop invariant (including the closed region), both at the start and on an iterative-deepening restart |
| GraphSearch.TakeNext | Programming_Assignment_1/Assignment1/Assignment1.py:173-184 | the popped entry is the one at `PopIndex` (the A* minimum, the first for `bfs`, the last otherwise) and the new frontier is the old one without it; outside iterative deepening its key was not explored; `explored` records its depth; the invariant and the A* order are kept |
| GraphSearch.ExpandNode | Programming_Assignment_1/Assignment1/Assignment1.py:191-222 | the new state equals `OfferAll` over `expand(node)`; outside iterative deepening `explored` is untouched; a returned child is the goal, rooted and within the iterative-deepening bound; otherwise the invariant, the A* order and the closed region are kept and the termination measure decreases |
| GraphSearch.Step | Programming_Assignment_1/Assignment1/Assignment1.py:173-222 | one turn, the whole new state: it equals `Turn`; the popped entry is added to the removals and counted as expanded unless the iterative-deepening skip applies; either a goal child is found (rooted, within the iterative-deepening bound) or the loop invariant is kept and the termination measure decreases |
| GraphSearch.Search | Programming_Assignment_1/Assignment1/Assignment1.py:140-222 | the four outcomes and when each occurs; a solution path runs from the start to the goal by legal trips; an exhausted search means no sequence of trips reaches the goal; no state expanded twice outside iterative deepening; A* removals in increasing order (details below) |
| GraphSearch.SearchFindsReachableGoal | Programming_Assignment_1/Assignment1/Assignment1.py:140-222 | outside iterative deepening, when some sequence of trips leads from the start to a different goal, the search returns a solution from the start to the goal |
| TextTokens.IsSpace | Programming_Assignment_3/Programming_Assignment_3.py:5 | the whitespace `rstrip`, `rsplit(None, 1)` and `split()` separate on (lines 5 and 10), over ASCII: space, `\t` to `\r` and 0x1c to 0x1f; none of it is punctuation, a digit or a capital, so the deletions and `lower()` leave it in place |
| TextTokens.IsPunctuation | Programming_Assignment_3/Programming_Assignment_3.py:7 | `string.punctuation`, the 32 ASCII punctuation characters; none is a digit or a capital |
| TextTokens.IsDigit | Programming_Assignment_3/Programming_Assignment_3.py:8 | the ten characters of `"0123456789"`; none is a capital |
| TextTokens.RStrip | Programming_Assignment_3/Programming_Assignment_3.py:5 | the result is a prefix that does not end in whitespace, and only whitespace follows it |
| TextTokens.Split | Programming_Assignment_3/Programming_Assignment_3.py:10 | every token is a non-empty run of non-whitespace characters (the full characterization: `SplitWeave`, `WeaveSplits`) |
| TextTokens.SplitChars | Programming_Assignment_3/Programming_Assignment_3.py:10 | every character of a token is a character of the string |
| TextTokens.SplitWeave | Programming_Assignment_3/Programming_Assignment_3.py:10 | the string is its tokens, in order, woven between whitespace gaps, with a non-empty gap between any two tokens, so nothing but whitespace is dropped and every token is a maximal run |
| TextTokens.WeaveSplits | Programming_Assignment_3/Programming_Assignment_3.py:10 | conversely, non-empty whitespace-free words woven between whitespace gaps, non-empty between words, split back into exactly those words |
| TextTokens.Delete | Programming_Assignment_3/Programming_Assignment_3.py:7-8 | no longer than the input; every kept character is an input character that is not deleted (which ones are kept: `DeleteKeepsOrder`) |
| TextTokens.DeleteKeepsOrder | Programming_Assignment_3/Programming_Assignment_3.py:7-8 | the result is the input's characters at the strictly increasing positions of exactly the characters that are not deleted |
| TextTokens.DeleteMembers | Programming_Assignment_3/Programming_Assignment_3.py:7-8 | a character is in the result exactly when it is in the input and not deleted |
| TextTokens.LowerChar | Programming_Assignment_3/Programming_Assignment_3.py:9 | what `lower()` does to one ASCII character: the result is never a capital; a capital moves 32 code points down to its small letter; anything else is unchanged |
| TextTokens.Lower | Programming_Assignment_3/Programming_Assignment_3.py:9 | same length; each capital A-Z becomes its small letter and every other character stays |
| LineParser.RSplitOnce | Programming_Assignment_3/Programming_Assignment_3.py:5 | `rstrip().rsplit(None, 1)` gives at most two parts (how many, and which: `RSplitAgreesWithSplit`) |
| LineParser.RSplitAgreesWithSplit | Programming_Assignment_3/Programming_Assignment_3.py:5 | `rstrip().rsplit(None, 1)` gives min(2, number of words) parts; the words of the line are the words of the first part followed by the second part |
| LineParser.CategoryStart | Programming_Assignment_3/Programming_Assignment_3.py:5 | where `rsplit(None, 1)` cuts the stripped line: at its start or right after whitespace, with no whitespace from there to the end of the stripped text and only whitespace after that |
| LineParser.Clean | Programming_Assignment_3/Programming_Assignment_3.py:7-9 | the definition of the cleaning: delete punctuation, then digits, then lower the letters (what it leaves: `CleanChars`) |
| LineParser.ParseLine | Programming_Assignment_3/Programming_Assignment_3.py:4-11 | the definition of `parse_line`: `None` when `rsplit` gives other than two parts, otherwise the split of the cleaned first part and the second part (what it returns: the lemmas below) |
| LineParser.ParseLineFails | Programming_Assignment_3/Programming_Assignment_3.py:5-6 | `parse_line` fails exactly on lines of fewer than two words |
| LineParser.ParseLineCategory | Programming_Assignment_3/Programming_Assignment_3.py:5-6 | the category is the last word of the line, and the text before it holds the line's other words |
| LineParser.ParseLinePosition | Programming_Assignment_3/Programming_Assignment_3.py:5-6 | the category sits in the line right after whitespace, with only whitespace after it |
| LineParser.ParseLineWords | Programming_Assignment_3/Programming_Assignment_3.py:5-10 | the words are the `split()` of the cleaned text before the category, so they come only from that text |
| LineParser.CleanChars | Programming_Assignment_3/Programming_Assignment_3.py:7-9 | no cleaned character is punctuation, a digit or a capital |
| LineParser.ParsedWordsClean | Programming_Assignment_3/Programming_Assignment_3.py:7-10 | every word is non-empty and free of whitespace, punctuation, digits and capitals |
| Vocabulary.Less | Programming_Assignment_3/Programming_Assignment_3.py:20 | Python's `<` on `str`, which `sorted` uses: code points compared from the left; only a non-empty string has anything before it, and a proper prefix sorts before any extension of it |
| Vocabulary.LessIrreflexive | Programming_Assignment_3/Programming_Assignment_3.py:20 | no string sorts before itself |
| Vocabulary.LessTransitive | Programming_Assignment_3/Programming_Assignment_3.py:20 | the string order `sorted` uses is transitive |
| Vocabulary.LessTotal | Programming_Assignment_3/Programming_Assignment_3.py:20 | any two different strings are ordered |
| Vocabulary.Insert | Programming_Assignment_3/Programming_Assignment_3.py:20 | inserting into a strictly increasing list keeps it strictly increasing and adds exactly the new word |
| Vocabulary.SortedSet | Programming_Assignment_3/Programming_Assignment_3.py:20 | `sorted(set(ws))` is strictly increasing and holds exactly the words of `ws` |
| Vocabulary.IncreasingUnique | Programming_Assignment_3/Programming_Assignment_3.py:20 | two strictly increasing lists with the same words are equal, so the vocabulary is determined by its set of words |
| Vocabulary.BuildVocabulary | Programming_Assignment_3/Programming_Assignment_3.py:13-20 | fails exactly when some line fails to parse; otherwise strictly increasing and containing exactly the words of all lines |
| Features.BuildRecord | Programming_Assignment_3/Programming_Assignment_3.py:26-33 | the record's keys are the vocabulary and `"classlabel"`; each other word maps to `"1"` when the line has it and to `"0"` otherwise; the label maps to the category |
| Features.GenerateFeatures | Programming_Assignment_3/Programming_Assignment_3.py:22-41 | fails exactly when there are no lines or some line fails to parse; otherwise one record per line, in order, each describing its line |
| Features.PartitionCounts | Programming_Assignment_3/Programming_Assignment_3.py:47-50 | `num_true + num_false == len(features)`, and the two lists together hold each record as often as `features` does |
| Features.TrueRecords | Programming_Assignment_3/Programming_Assignment_3.py:47 | `[x for x in features if x["classlabel"] != "0"]`: no longer than `features`, and every kept record is one of them (exactly which, how often and in what order: the lemmas below) |
| Features.FalseRecords | Programming_Assignment_3/Programming_Assignment_3.py:48 | `[x for x in features if x["classlabel"] == "0"]`: no longer than `features`, and every kept record is one of them |
| Features.TrueMembers | Programming_Assignment_3/Programming_Assignment_3.py:47 | a record is a true record exactly when it is in `features` with a label other than `"0"` |
| Features.FalseMembers | Programming_Assignment_3/Programming_Assignment_3.py:48 | a record is a false record exactly when it is in `features` with the label `"0"` |
| Features.ClassMultiplicity | Programming_Assignment_3/Programming_Assignment_3.py:47-48 | each record is in the true list as often as `features` holds it when its label is not `"0"`, and in the false list as often when it is; never otherwise |
| Features.PartitionAppend | Programming_Assignment_3/Programming_Assignment_3.py:47-48 | both lists keep the order of `features`: splitting a concatenation concatenates the splits |
| Features.Matching | Programming_Assignment_3/Programming_Assignment_3.py:58-59 | no more records than given, and each counted record has the word set to `"1"` and is one of the records |
| Features.MatchingMembers | Programming_Assignment_3/Programming_Assignment_3.py:58-59 | a record is counted exactly when it is one of the records and has the word set to `"1"` |
| Features.MatchingMultiplicity | Programming_Assignment_3/Programming_Assignment_3.py:58-59 | each record with the word set to `"1"` is counted exactly as often as it occurs among the records; no other record is counted |
| Features.MatchingCount | Programming_Assignment_3/Programming_Assignment_3.py:57-60 | the number of counted records is the number of positions whose record has the word set to `"1"` |
| Features.CountMatching | Programming_Assignment_3/Programming_Assignment_3.py:57-60 | the loop's count is the number of matching records, that is the number of positions whose record has the word set to `"1"`, and no more than the number of records |
| Features.ClassCounts | Programming_Assignment_3/Programming_Assignment_3.py:47-70 | for one word: the class sizes are the sizes of the two lists and add up to the record count; each class's match count is the number of positions in that class's list whose record has the word, and at most the class size, so the smoothed numerators are never negative |

In detail, `GraphSearch.Search` states the following.

- It returns `StartIsGoal([init])` exactly when the start is the goal, with nothing expanded.
- `DepthLimitReached` happens only under iterative deepening.
- `Exhausted` happens only in the other modes, and it carries the number of nodes expanded, which is at least one. It is returned only when no sequence of legal trips leads from the start to the goal. Conversely, `SearchFindsReachableGoal` shows that outside iterative deepening a goal some trip sequence reaches is always solved.
- `Solved` carries that number and a path with at least two states. The path starts at the start state, ends at the goal, and moves by legal trips; under iterative deepening it has at most 501 states.
- Every expanded node is a tree node.
- Outside iterative deepening:
  - no state is expanded twice;
  - no more nodes are expanded than `Universe` has states.
- Under A*:
  - every removal carries `hueristic` of its node;
  - when the start state has a boat, the removals leave in strictly increasing `(cost, q_count)` order, so equal costs leave in insertion order.

## Findings

| source | as written | input that shows it | evidently intended | confidence | as-written member | corrected member |
|---|---|---|---|---|---|---|
| Programming_Assignment_1/Assignment1/Assignment1.py:64-76 | the docstring calls `hueristic` "an optimistic approximation for all states", hence admissible | a state with no boat on either bank and one chicken on the right: the goal is one trip away, but the bank term is 2 | admissibility for states with a boat on some bank; every state reachable from such a start has one | high; not executed | AStarHeuristic.NoBoatNotAdmissible | AStarHeuristic.EstimateAdmissible |

The model uses the corrected claim. `HeuristicAdmissible`, `HeuristicMonotone` and the A* order of `Search` all require a boat on the state they are applied to; for the A* order of `Search` that is the start state.

## Left out

- Input and output are not modelled. This covers `state_from_file` (lines 19-36), `print_solution` (lines 39-62) and the `__main__` block of `Assignment1.py` (lines 225-229). The model takes `State` values directly.
- The inverted boat flag in the printed solution belongs to the printer (lines 57, 61) and is not modelled.
- `Programming_Assignment_2/MinimaxPlayer.cpp` is not part of this model. Every decision it makes depends on board operations whose code is not available.
- File and CSV handling in `Programming_Assignment_3.py` is not modelled (lines 15, 24, 36-39, 100-121). Lines are given as a sequence of strings. The header and rows written at lines 37-39 are not modelled.
- Dictionary key order is not modelled: `Record` is a map.
- The floating-point work is not modelled. This covers the probabilities of `generate_UDPs` (lines 52-53, 61-70), `classify` (lines 74-86) and `get_accuracy` (lines 88-98). What is kept are the integer counts those probabilities are built from.
- Non-ASCII text is not modelled.
  - `TextTokens.IsSpace` does not treat the non-ASCII whitespace of `str.isspace` as whitespace.
  - `TextTokens.Lower` lowers only A-Z.
- `deepcopy`, the internals of `heapq`, and the exact text of `str(state)` are replaced by value semantics, removal of the least entry, and an injective key.
- Node identity and sharing are not modelled, because a node is a value. Nothing in the source mutates a node after construction.
- The minimality of breadth-first and A* paths is not proved, nor the equality of iterative-deepening and breadth-first path lengths.
- The 3-chicken, 3-wolf scenario and its 12-state solution are not proved; nothing is executed.
- GraphSearch.Search: the strictly increasing order of A* removals is proved only when the start state has a boat on some bank. Without one, the first trip can lower the estimate by more than one (see `AStarHeuristic.NoBoatNotAdmissible`).
- GraphSearch.Search: the per-turn invariants are stated on `TakeNext`, `PushOne` and `Step`, not in `Search`'s own `ensures`. These are: no two frontier entries share a state, and outside iterative deepening no frontier key is explored.
- GraphSearch.Search: `DepthLimitReached` is not shown to mean that no path of at most 500 trips exists. Iterative deepening keeps no closed region, because a shallower revisit reopens an explored key. Only the completeness of the other modes is proved.
- AStarHeuristic.HeuristicAdmissible: this is stated only for a start with a boat, and only for the goal the heuristic is written for (an empty right bank). The docstring's claim of admissibility for every state is false without a boat.
- Features.ClassCounts: only the integer counts are stated. The division into probabilities is left out as floating point.
