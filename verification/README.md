# OC_project7 knapsack solvers in Dafny

OC_project7 picks investment actions under a budget. Each action has a name, a cost and a
profit rate in percent. Its profit is `cost * rate / 100`. The problem is a 0/1 knapsack: each
action is bought at most once, the total cost must stay within the budget (500 by default),
and the total profit should be as large as possible. Five solvers each return the triple
(combination, total cost, total profit):

- `bruteforce.py` tries every non-empty combination with `itertools.combinations`, smallest
  size first. It keeps the first combination that is strictly more profitable.
- `tree_algo.py` runs a depth-first search of a binary decision tree, include child first. An
  inclusion is built only when the path cost still fits the budget.
- `tree.py` is the same search with a branch-and-bound prune. An inclusion is explored only
  when its path profit plus a fractional (Dantzig) estimate over the later actions beats the
  incumbent.
- `greedy_bruteforce.py` sorts by decreasing ratio with a hand-written quicksort, then walks
  the sorted list. It takes each action whose cost still fits.
- `optimized.py` runs the same greedy walk after Python's stable `sorted(..., reverse=True)`
  under an `__lt__` that compares ratios.

The model's modules follow the program:

| module (file) | models |
|---|---|
| `Catalog` (catalog.dfy) | the `Action` record, the result triple, totals, selections by position |
| `Optimum` (optimum.dfy) | `Opt`, the best 0/1 profit: the reference all solvers are measured against |
| `StableSort` (stable_sort.dfy) | a stable sort by decreasing rate (Python's `sorted(key=..., reverse=True)`) |
| `Fractional` (fractional.dfy) | `estimate_max_potential_profit` and its admissibility |
| `DecisionTree` (decision_tree.dfy) | `TreeNode`, `get_path`, `calculate_cost_profit` |
| `TreeWalk` (tree_walk.dfy) | the depth-first walk both tree searches reduce to |
| `TreeAlgo` (tree_algo.dfy), `Tree` (tree.dfy) | the two `tree_bruteforce` variants |
| `Combinations` (combinations.dfy) | the enumeration order of `itertools.combinations` |
| `Bruteforce` (bruteforce.dfy) | `bruteforce_best_investment` |
| `Greedy` (greedy.dfy) | the greedy selection loop both greedy files share |
| `GreedyBruteforce` (greedy_bruteforce.dfy) | `calculate_ratio`, `quicksort_actions`, `sort_actions_by_ratio`, `greedy_investment` |
| `Optimized` (optimized.dfy) | `Action.__lt__`, the greedy of `optimized.py` |

Amounts are Dafny `real`s. The Python objects that the source mutates (the tree's nodes, the
quicksort's list, the incumbent captured by `nonlocal`) become values that are passed in and
returned.

## Model

| member | source | states |
|---|---|---|
| Catalog.ProfitIsRatioTimesCost | optimized.py:10-11 | an action's profit is its ratio times its cost, and it is positive when cost and rate are positive |
| Catalog.TotalsConcat | bruteforce.py:71-75 | the cost and profit sums over a concatenation are the sums of the parts |
| Optimum.OptNonNeg | bruteforce.py:60-63 | the best profit is never negative, since the empty selection with profit 0 is always available |
| Optimum.OptMonotone | bruteforce.py:73 | a larger budget never lowers the best reachable profit |
| Optimum.OptPick | bruteforce.py:65-80 | some selection of increasing catalog positions fits the budget and earns exactly the optimum |
| Optimum.OptUpper | bruteforce.py:73-77 | with no negative cost, no set of distinct positions that fits the budget earns more than the optimum |
| Optimum.OptPermutation | optimized.py:76 | with no negative cost, reordering the catalog leaves the optimum unchanged, so a sorted copy has the same optimum |
| Optimum.OptSubMultiset | tree.py:99-104 | with no negative cost, any selection drawn from the catalog that fits the budget earns at most the optimum |
| StableSort.SortDescPermutation | tree.py:153-155 | the sorted copy holds exactly the actions of the input, with multiplicity |
| StableSort.SortDescSorted | tree.py:153-155 | the sorted copy is in non-increasing rate order |
| StableSort.SortDescStable | tree.py:153-155 | actions of equal rate keep their original relative order, as Python's stable sort guarantees |
| Fractional.FillAsWritten | tree.py:157-171 | the estimate loop, with its division by the cost, equals the ratio-times-budget form on every non-negative budget |
| Fractional.EstimateMaxPotentialProfit | tree.py:145-171 | the estimate is the ratio-form fractional fill of the undecided actions sorted by non-increasing rate |
| Fractional.FillLipschitz | tree.py:160-169 | d more budget adds at most d times the highest ratio to the estimate |
| Fractional.FillDominatesOpt | tree.py:145-171 | on positive actions sorted by rate, the fractional estimate is at least the best 0/1 profit |
| Fractional.EstimateAboveOpt | tree.py:145-171 | the estimate over actions[start_level:] is at least their 0/1 optimum within the remaining budget |
| Fractional.EstimateAdmissible | tree.py:116-122 | no distinct later actions that fit the remaining budget earn more than the estimate, so the prune never discards a better completion |
| DecisionTree.CalculateCostProfit | tree.py:67-72 | the totals are zero at the root; an inclusion child adds exactly its action's cost and profit to the totals of the path above it; an exclusion child adds nothing |
| DecisionTree.GetPath | tree.py:57-65 | the path holds at most one action per tree level |
| DecisionTree.IncludeTotals | tree.py:107-112 | an include child's path is its action followed by the parent's path, and its cost and profit grow by that action's |
| DecisionTree.ExcludeTotals | tree.py:127-129 | an exclude child has its parent's path, cost and profit |
| DecisionTree.PathIsReversedSelection | tree.py:57-65 | the path from a node is the reversed list of the actions chosen at the levels above it |
| DecisionTree.TotalsReverse | tree.py:67-72 | reversing a path changes neither its cost, its profit nor its multiset |
| DecisionTree.PathSubMultiset | tree.py:57-65 | a node's path draws each catalog action at most as often as it occurs in the levels above |
| TreeWalk.Walk | tree.py:92-134 | a visit never lowers the incumbent profit, counts at least one node, and keeps the incumbent combination unless the profit rises |
| TreeWalk.WalkValue | tree_algo.py:72-101 | without the estimate prune the incumbent ends as the better of the incumbent and the path profit plus the optimum of the undecided actions |
| TreeWalk.WalkReports | tree.py:99-104 | a reported incumbent is a reached path: profit equals its sum, its cost fits the budget, and it draws from the catalog |
| TreeWalk.WalkCountIrrelevant | tree_algo.py:69-75 | the node count is diagnostic: walks from the same incumbent with different counts leave the same incumbent and visit the same number of nodes |
| TreeWalk.WalkBoundSound | tree.py:115-125 | on positive actions the estimate prune never changes the incumbent and never visits more nodes |
| TreeAlgo.BuildTree | tree_algo.py:72-101 | a visit never lowers the incumbent profit, counts at least one node, and replaces the incumbent combination only with a strictly higher profit |
| TreeAlgo.VisitInclude | tree_algo.py:86-95 | visiting the include child never lowers the incumbent profit or the node count, and replaces the incumbent only with a strictly higher profit |
| TreeAlgo.BuildTreeIsWalk | tree_algo.py:72-101 | the tree search from a node is the walk from that node's path cost, profit and actions |
| TreeAlgo.TreeBruteforce | tree_algo.py:55-110 | the reported combination's totals are its sums, it fits the budget unless empty, is drawn from the catalog, the profit is never negative, and the result is ([], 0, 0) exactly when no leaf beats profit 0 |
| TreeAlgo.TreeBruteforceValue | tree_algo.py:55-110 | the reported profit is the best 0/1 profit, whatever the signs of costs and rates |
| TreeAlgo.TreeBruteforceOptimal | tree_algo.py:55-110 | with no negative cost, no selection drawn from the catalog that fits the budget earns more |
| Tree.BuildTree | tree.py:92-134 | a visit never lowers the incumbent profit, counts at least one node, and replaces the incumbent combination only with a strictly higher profit |
| Tree.VisitInclude | tree.py:107-125 | visiting the include child, or pruning it, never lowers the incumbent profit or the node count, and replaces the incumbent only with a strictly higher profit |
| Tree.BuildTreeIsWalk | tree.py:92-134 | the pruned search from a node is the bounded walk from that node's path |
| Tree.TreeBruteforce | tree.py:75-142 | the reported combination's totals are its sums, it fits the budget unless empty, is drawn from the catalog, the profit is never negative, and the result is ([], 0, 0) exactly when no leaf beats profit 0 |
| Tree.TreeBruteforceMatchesAlgo | tree.py:115-125 | on positive actions the pruned search returns the same triple as the unpruned one and visits no more nodes |
| Tree.NegativeRateDefeatsPrune | tree.py:115-125 | outside the loader's filter the prune is unsound: on 10 at 10% followed by 10 at -10% under 100, the optimum is 1 but the pruned search reports 0 |
| Tree.NegativeCostDefeatsPrune | tree.py:115-125 | the same with a negative cost: on 10 at 10% followed by -10 at 10% under 100, the optimum is 1 but the pruned search reports 0 |
| Tree.TreeBruteforceOptimal | tree.py:75-142 | on positive actions the reported profit is the optimum and no selection that fits earns more |
| Combinations.CombosShape | bruteforce.py:68 | every generated combination has the requested size and strictly increasing positions in range |
| Combinations.CombosComplete | bruteforce.py:68 | every increasing selection of the requested size is generated |
| Combinations.CombosLex | bruteforce.py:68 | combinations of one size come in strictly increasing lexicographic order |
| Combinations.CombosCount | bruteforce.py:68 | there are binomial(n, k) combinations of size k |
| Combinations.SizesOrdered | bruteforce.py:65-68 | sizes come in ascending order, and within a size lexicographically |
| Combinations.AllCombosComplete | bruteforce.py:65-68 | every non-empty increasing selection of positions is enumerated |
| Combinations.AllCombosCount | bruteforce.py:65-69 | the enumeration has 2^n - 1 entries |
| Bruteforce.Offer | bruteforce.py:71-80 | a combination replaces the incumbent exactly when it fits the budget and is strictly more profitable |
| Bruteforce.Scan | bruteforce.py:65-80 | the incumbent's profit never falls, and the final incumbent is the initial one or an offered combination |
| Bruteforce.ScanKeeps | bruteforce.py:77-80 | when the scan ends at the initial profit, the incumbent never changed: only a strictly larger profit replaces it |
| Bruteforce.ScanBest | bruteforce.py:65-80 | no offered combination that fits earns more than the final incumbent |
| Bruteforce.ScanWitness | bruteforce.py:77-80 | the final incumbent is the initial one or the first offered combination to reach its profit |
| Bruteforce.TriedStep | bruteforce.py:65-68 | the incumbent after sizes 1..m is the incumbent after sizes 1..m-1 with the combinations of size m offered to it |
| Bruteforce.BruteforceResult | bruteforce.py:50-82 | the totals are the combination's sums, it fits the budget unless empty, the profit is never negative, the result is ([], 0, 0) exactly when the profit is 0, and the combination is drawn from the catalog |
| Bruteforce.TrySize | bruteforce.py:65-80 | one pass of the outer loop offers the combinations of the next size and counts C(n, m) of them |
| Bruteforce.TryCombos | bruteforce.py:68-80 | the inner loop leaves the incumbent the fold prescribes and counts every combination |
| Bruteforce.BruteforceBestInvestment | bruteforce.py:50-82 | the loops compute the fold over the enumeration and count 2^n - 1 combinations |
| Bruteforce.BruteforceOptimal | bruteforce.py:50-82 | with no negative cost the reported profit is the best 0/1 profit |
| Bruteforce.BruteforceFirstBest | bruteforce.py:77-80 | the result is the empty triple or an enumerated combination that fits, and every earlier fitting combination earns strictly less |
| Bruteforce.EnumerationExhaustive | bruteforce.py:65-69 | every non-empty combination is tried once, in size-then-lexicographic order, 2^n - 1 in all |
| Greedy.GreedyScan | optimized.py:78-89 | the loop selects exactly what the budget-countdown definition takes, and the running totals are the selection's sums |
| Greedy.TakeSubsequence | greedy_bruteforce.py:124-128 | the selection is the actions at some increasing positions of the sorted list, in its order |
| Greedy.TakeSubMultiset | optimized.py:83-87 | what is taken is drawn from the sorted list |
| Greedy.TakeFits | optimized.py:84 | a non-empty selection fits the budget, whatever the signs of the costs |
| Greedy.TakeWithinOpt | optimized.py:83-87 | the greedy profit never exceeds the best 0/1 profit over the same list |
| Greedy.TakeMaximal | optimized.py:84 | with no negative cost, every action left behind costs more than the budget left over |
| GreedyBruteforce.CalculateRatio | greedy_bruteforce.py:35-37 | the ratio is the rate divided by 100 |
| GreedyBruteforce.RatioOrderIsRateOrder | greedy_bruteforce.py:35-37 | comparing ratios orders actions exactly as comparing rates does |
| GreedyBruteforce.Partition | greedy_bruteforce.py:61-78 | the pivot lands at the returned index inside the range, the range keeps its multiset, nothing outside moves, ratios before it are strictly higher and ratios after it are not |
| GreedyBruteforce.QuicksortActions | greedy_bruteforce.py:40-88 | the range ends sorted by non-increasing ratio with its multiset kept and nothing outside moved; the return value is None exactly when low >= high |
| GreedyBruteforce.SortActionsByRatio | greedy_bruteforce.py:91-101 | as written, the result is None exactly for lists of at most one action, and otherwise a sorted permutation |
| GreedyBruteforce.GreedyInvestmentAsWritten | greedy_bruteforce.py:104-130 | as written, the call fails exactly on lists of at most one action; otherwise the selection is the greedy pass over a ratio-sorted permutation, with consistent totals within the budget, drawn from the catalog, and with no negative cost at most the optimum |
| GreedyBruteforce.SortActionsByRatioFixed | greedy_bruteforce.py:91-101 | corrected: every list yields a sorted permutation |
| GreedyBruteforce.GreedyInvestment | greedy_bruteforce.py:104-130 | on the corrected sort: a sorted permutation, the greedy selection from it, consistent totals within the budget, drawn from the catalog, and with no negative cost at most the optimum |
| Optimized.LessIsRate | optimized.py:17-22 | `__lt__` orders actions exactly as their rates do, and equal rates compare as neither less |
| Optimized.SortedReverse | optimized.py:76 | the sorted copy is a permutation, no action is less than a later one, and equal-ratio actions keep their order |
| Optimized.GreedyInvestment | optimized.py:63-89 | the selection is the greedy walk over the sorted copy, with consistent totals within the budget, drawn from the catalog, and with no negative cost at most the optimum |
| Optimized.GreedyCanMissOptimum | optimized.py:63-89 | on 100 at 10%, 200 at 15% and 300 at 8% under 500, the greedy earns 40 while the optimum is 54 |

## Left out

- CSV loading (`load_actions_from_csv`), `main`, the prints, timing, `__str__` and `__repr__`. They are file I/O and formatting. The filter the loaders of `tree.py`, `bruteforce.py` and `optimized.py` apply (cost > 0 and rate > 0) appears as the `Positive` predicate where a property needs it. The loaders of `tree_algo.py` and `greedy_bruteforce.py` do not filter, so those solvers are modelled on any catalog.
- Floating point: costs, rates and sums are exact reals. The order in which Python adds floats and the rounding of `sum` are not modelled.
- `sys.setrecursionlimit` and Python's recursion depth: the recursion is unbounded in the model.
- The `print` at every visit in `tree.py` and the count printed by `tree_algo.py` and `bruteforce.py`: the counts are returned as `NodesExplored` and `totalCombinations`.
- The tree's `include_child` and `exclude_child` links: nothing reads them after they are set. A node keeps only its action and its parent.
- Selections of actions are compared as multisets of equal `Action` values. Two catalog rows with the same name, cost and rate cannot be told apart, just as they cannot in the reported triple.
- Tree.TreeBruteforceMatchesAlgo: stated only for catalogs with positive costs and rates, which is what the loader of `tree.py` (line 44) produces. With a negative rate, or a negative cost, the fractional estimate is not an upper bound and the prune may cut the best branch; `Tree.NegativeRateDefeatsPrune` and `Tree.NegativeCostDefeatsPrune` show such catalogs. Zero costs would not break the bound; they are excluded only because the loader drops them.
- Tree.TreeBruteforceOptimal: stated for positive catalogs for the same reason.
- Bruteforce.BruteforceOptimal, TreeAlgo.TreeBruteforceOptimal: need no negative cost. `Opt` takes an action only when it fits the budget left at that point. With a negative cost later in the list, a subset whose total fits can be missed, so the subset optimum `bruteforce.py` finds can exceed `Opt`.
- GreedyBruteforce.QuicksortActions: the quicksort is not stable, and its exact output order among equal ratios is not stated. Only sortedness and permutation are.

## Findings

| source | as written | input that shows it | evidently intended | confidence | as-written member | corrected member |
|---|---|---|---|---|---|---|
| greedy_bruteforce.py:53-58 | `quicksort_actions` returns `None` when `low >= high`. For a whole list of zero or one action that is the outermost call, so `sort_actions_by_ratio` returns `None` and `greedy_investment` fails with a TypeError when it iterates over it (line 124) | an empty list, or a list with a single action | the sorted copy for every list, as `sort_actions_by_ratio` promises, so `greedy_investment` returns ([], 0, 0) or the single action when it fits | high, not executed | GreedyBruteforce.GreedyInvestmentAsWritten | GreedyBruteforce.GreedyInvestment |
