# CS50 AI: heredity, tic-tac-toe and PageRank, modelled in Dafny

This project models three small, independent programs and proves properties of
each model.

- **Heredity** (`heredity.dfy`, `marginals.dfy`, `inference.dfy`) is the
  inference engine of `heredity/heredity.py`.
  - `PROBS` holds the gene prior, the trait table and the mutation rate.
  - Three lookup helpers read it.
  - `joint_probability` scores one hypothesis, meaning a gene count and a trait
    value for every person. It takes the product of one factor per person.
  - `main` enumerates every hypothesis consistent with the recorded traits. It
    adds each joint probability to a per-person accumulator (`update`) and then
    rescales the accumulator (`normalize`).
  - Probabilities are exact reals.
  - Two formulas follow the program as written:
    - `get_inheritance(1)` is half the mutation rate;
    - the zero-copy child term `1-pm * 1-pf` is `1 - pm - pf`.
  - As a result, a child's three gene terms add up to `1 - pm*pf`, and a joint
    probability can be negative (`NegativeJointExample`).
  - The engine's main theorem is `HeredityInference.Infer`. When the
    accumulator can be normalised, every person's entry equals the posterior:
    each bucket's share of the total mass of all consistent hypotheses.
- **Tic-tac-toe** (`tictactoe.dfy`) covers the rules and the minimax search of
  `tictactoe/tictactoe.py`.
  - Boards are values, so `result` never changes its argument.
  - Exceptions are `Outcome.Raised` values carrying the program's message.
  - `max_value` and `min_value` are proved against a ghost game value
    (`Value`/`Best`). Their recursion terminates on the number of empty cells.
- **PageRank** (`pagerank.dfy`) covers the transition model of
  `pagerank/pagerank.py` and the link clean-up at the end of `crawl`.

Shared pieces:
- `wrappers.dfy` defines `Option` (Python's None) and `Outcome` (a value or a
  raised exception).
- `folds.dfy` defines sums and products over finite key sets whose value does
  not depend on the order in which a loop visits the keys.

Loops over dictionaries and sets are written with `:|`, which picks any element
not yet visited. Each such loop is proved correct for every visiting order.
That includes the insertion order Python uses for `people` (the CSV rows) and
for `probabilities` (which follows `people`). It also includes the order of the
powerset lists: itertools lists the subsets by size, and within one size in the
order of `list(names)`, which depends on the iteration order of the set `names`.

## Model

| member | source | states |
|---|---|---|
| Heredity.GenePrior | heredity/heredity.py:7-12 | The unconditional gene probabilities 0.96, 0.03 and 0.01 each lie strictly between 0 and 1. |
| Heredity.TraitEmission | heredity/heredity.py:14-33 | The trait table for 2, 1 and 0 copies; every entry lies strictly between 0 and 1. |
| Heredity.GenePriorIsDistribution | heredity/heredity.py:7-12 | The prior over 0, 1 and 2 copies sums to 1. |
| Heredity.TraitEmissionIsDistribution | heredity/heredity.py:14-33 | For each gene count, the True and False trait entries sum to 1. |
| Heredity.GetGeneProb | heredity/heredity.py:184-197 | Count 1 iff the person is in one_gene; 2 iff only in two_genes; 0 iff in neither, so one_gene takes precedence. The second component is the count's prior. |
| Heredity.GetTraitProb | heredity/heredity.py:200-207 | The trait table entry at the given count for whether the person is in have_trait; strictly between 0 and 1. |
| Heredity.GetInheritance | heredity/heredity.py:210-218 | A total function of the gene count with values strictly between 0 and 1. |
| Heredity.InheritanceValues | heredity/heredity.py:210-218 | The values are mutation (0.01) for 0 copies, 0.5 * mutation (0.005, not 0.5) for 1 copy, and 1 - mutation (0.99) otherwise. |
| Heredity.ChildGeneProb | heredity/heredity.py:160-166 | A child's gene term from the parents' chances pm and pf, as written. For 0 copies it is 1 - pm - pf, which equals (1 - pm) * (1 - pf) only when pm * pf is 0. For 1 or 2 copies it lies in [0, 1] when pm and pf do. |
| Heredity.ChildGeneTermsTotal | heredity/heredity.py:160-166 | The zero-, one- and two-copy child terms, as written, add up to 1 - pm*pf rather than 1. |
| Heredity.PersonFactor | heredity/heredity.py:147-177 | One entry of the list prob. For a person without both parents it lies strictly between 0 and 1. For a child with one or two copies it lies in [0, 1]. For a child with no copy it is negative exactly when both parents carry two copies. |
| Heredity.RootFactor | heredity/heredity.py:172-177 | A person without both parents is scored prior(g) * trait(g, t), which lies in [0, 1]. |
| Heredity.ChildFactor | heredity/heredity.py:147-170 | A person with both parents is scored pm*pf, (1-pm)*pf + pm*(1-pf), or 1-pm-pf for 2, 1 or 0 copies, times the trait entry. pm and pf are the parents' inheritance chances. |
| Heredity.JointProbability | heredity/heredity.py:131-181 | The result is the product over all people of their factors, whatever order the dictionary visits them in. |
| Heredity.MultiplyOut | heredity/heredity.py:178-181 | Multiplying the list into final_joint, starting from 1, gives the product of the list. |
| Heredity.RootsJointInUnitInterval | heredity/heredity.py:145-181 | When nobody has both parents recorded, the joint probability lies in [0, 1]. |
| Heredity.SinglePersonJoint | heredity/heredity.py:172-181 | For a pedigree of one parentless person, the joint probability is prior(g) * trait(g, t). |
| Heredity.NegativeJointExample | heredity/heredity.py:161 | A no-copy child of two two-copy parents makes the joint probability negative. |
| HeredityMarginals.AddJoint | heredity/heredity.py:228-239 | One entry after update: p is added to exactly one gene bucket (1 if in one_gene, else 2 if in two_genes, else 0) and to one trait bucket. Every other weight is unchanged, so both totals grow by p. |
| HeredityMarginals.Normalized | heredity/heredity.py:247-255 | After rescaling, the gene weights sum to 1 and the trait weights sum to 1. Each new weight times the old total is the old weight, so proportions are kept. The totals must be nonzero. |
| HeredityMarginals.NormalizedCertainTrait | heredity/heredity.py:253-255 | A trait weight of 0 stays 0, and the other trait weight becomes 1. |
| HeredityMarginals.Probabilities.constructor | heredity/heredity.py:48-61 | Every person of the pedigree starts with all five weights 0. |
| HeredityMarginals.Probabilities.Update | heredity/heredity.py:221-239 | Same people; each entry becomes AddJoint of its old value. |
| HeredityMarginals.Probabilities.Normalize | heredity/heredity.py:242-255 | Requires nonzero totals (the source divides by them). Same people; each entry becomes Normalized of its old value. |
| HeredityInference.Powerset | heredity/heredity.py:119-128 | t is in powerset(s) iff t is a subset of s, so every subset appears and only subsets. |
| HeredityInference.PowersetSize | heredity/heredity.py:119-128 | A set of n names has 2^n subsets. |
| HeredityInference.FailsEvidence | heredity/heredity.py:68-74 | A trait set passes the filter iff it contains every person recorded with the trait and nobody recorded without it. |
| HeredityInference.SpaceMember | heredity/heredity.py:63-82 | The loops visit a hypothesis iff its trait set passes the filter, its one-copy set is a set of names, and its two-copy set is a set of the remaining names. |
| HeredityInference.MarginalStep | heredity/heredity.py:221-239 | Adding one hypothesis to the accumulated set acts on a person's entry as update does. |
| HeredityInference.TallyStep | heredity/heredity.py:81-82 | An update with a new hypothesis's joint probability turns the accumulator for a set V into the accumulator for V plus that hypothesis. |
| HeredityInference.MarginalTotals | heredity/heredity.py:221-239 | A person's gene total and trait total both equal the total mass of the hypotheses added. |
| HeredityInference.PosteriorOf | heredity/heredity.py:242-255 | A normalised entry's gene weights and trait weights each sum to 1. |
| HeredityInference.PosteriorGeneShare | heredity/heredity.py:48-85 | The normalised weight of g copies, times the total mass, is the mass of the hypotheses giving the person g copies. |
| HeredityInference.PosteriorTraitShare | heredity/heredity.py:48-85 | The normalised weight of showing (or not showing) the trait, times the total mass, is the mass of the hypotheses that say so. |
| HeredityInference.ObservedTraitPosterior | heredity/heredity.py:63-85 | A person whose trait is recorded gets posterior 1 for that value and 0 for the other. |
| HeredityInference.TraitPrior | heredity/heredity.py:7-33 | The chance that a person without parents shows the trait (t true) or not: the sum over g of prior(g) * trait(g, t). It lies strictly between 0 and 1. |
| HeredityInference.SinglePersonPosterior | heredity/heredity.py:48-85 | For one person with no parents and no recorded trait, the total mass is 1. The posterior of each gene count is its prior (0.96, 0.03, 0.01). The posterior of each trait value is TraitPrior of it. |
| HeredityInference.SinglePersonTraitValue | heredity/heredity.py:7-33 | With the table's numbers, TraitPrior is 0.0329 for showing the trait and 0.9671 for not showing it. |
| HeredityInference.AddRow | heredity/heredity.py:78-82 | For fixed trait and one-copy sets, the inner loop adds every two-copy subset of the remaining names. |
| HeredityInference.AddBlock | heredity/heredity.py:76-82 | For a fixed trait set, the two inner loops add every one-copy and two-copy choice. |
| HeredityInference.Infer | heredity/heredity.py:48-85 | Normalisation fails iff there are people and the total mass is 0. Otherwise every person gets the normalised sum of the consistent hypotheses' joint probabilities. |
| TicTacToe.InitialState | tictactoe/tictactoe.py:13-19 | A 3x3 board whose nine cells are EMPTY. |
| TicTacToe.InitialTurn | tictactoe/tictactoe.py:31-42 | On the empty board, player returns X. |
| TicTacToe.NextPlayer | tictactoe/tictactoe.py:31-46 | What player returns. None iff the game is over. X iff it is not over and the counts are equal. O iff it is not over and O has fewer. "Board is not properly implemented" iff it is not over and O has more. A side named to move always has an empty cell. |
| TicTacToe.Player | tictactoe/tictactoe.py:22-46 | None if the board is terminal; otherwise X when the counts are equal, O when O has fewer, and "Board is not properly implemented" raised otherwise. |
| TicTacToe.EmptyCells | tictactoe/tictactoe.py:54-59 | (i, j) is included iff it is on the board and board[i][j] is EMPTY. |
| TicTacToe.Actions | tictactoe/tictactoe.py:49-59 | The set built is exactly the set of empty cells. |
| TicTacToe.Place | tictactoe/tictactoe.py:70-75 | The new board equals the old one except at the action, which holds the mark. |
| TicTacToe.PlaceCount | tictactoe/tictactoe.py:70-75 | Writing a mark adds one to that mark's count and takes one from the count of what the cell held. |
| TicTacToe.Result | tictactoe/tictactoe.py:62-76 | Raises "Spot taken" unless the action is an empty cell; propagates player's exception; otherwise returns the board with that cell set to player(board). |
| TicTacToe.ValidWinner | tictactoe/tictactoe.py:105-108 | X and O are returned as they are, and None stays None. |
| TicTacToe.WinnerFrom | tictactoe/tictactoe.py:88-103 | The scan from line k onward, in the order rows, columns, then the two diagonals. A mark is returned only if one of the remaining lines holds three of it. |
| TicTacToe.Winner | tictactoe/tictactoe.py:79-103 | A mark is reported only if some line holds three of it, so the result is X, O or None. |
| TicTacToe.WinnerDecided | tictactoe/tictactoe.py:88-103 | If c has a line and every line of three equal cells is c's, the winner is c. |
| TicTacToe.EmptyTopRowHidesWin | tictactoe/tictactoe.py:88-90 | The first equal line decides, even when all three cells are EMPTY. An empty top row hides X's full middle row, so there is no winner and the game is not over. |
| TicTacToe.Terminal | tictactoe/tictactoe.py:110-125 | True iff the winner is X or O, or no cell is EMPTY. |
| TicTacToe.NonTerminalHasMoves | tictactoe/tictactoe.py:110-125 | A board that is not terminal has a nonempty set of actions. |
| TicTacToe.Utility | tictactoe/tictactoe.py:128-137 | 1 iff the winner is X, -1 iff the winner is O, 0 iff there is no winner. |
| TicTacToe.ChildStep | tictactoe/tictactoe.py:62-76 | A move uses up one empty cell and keeps the board playable (O never ahead of X). On such a board player returns the mark to place; on any other unfinished board it raises. |
| TicTacToe.ChildCount | tictactoe/tictactoe.py:62-76 | A move uses up exactly one empty cell, so the search terminates. This repeats ChildStep's first fact on its own, for the termination measure of Best. |
| TicTacToe.TurnsAlternate | tictactoe/tictactoe.py:41-44 | While X is level with O or one ahead, the next player after a move is the other mark. |
| TicTacToe.Value | tictactoe/tictactoe.py:152-180 | The minimax value lies in {-1, 0, 1}. |
| TicTacToe.Best | tictactoe/tictactoe.py:157-164 | The best value over a set of moves is the starting -2 or 2 when the set is empty, and otherwise lies in [-1, 1]. |
| TicTacToe.BestIsExtreme | tictactoe/tictactoe.py:159-163 | The best value over a set of moves is reached by one of them and is at least (for min_value, at most) the value of every one of them. |
| TicTacToe.ImmediateWin | tictactoe/tictactoe.py:152-180 | A side that can complete a line in one move has value 1 (X) or -1 (O). |
| TicTacToe.BestSoFarStep | tictactoe/tictactoe.py:159-163 | One turn of the loop keeps best_outcome and best_move the best of the moves seen so far. |
| TicTacToe.BestSoFarDone | tictactoe/tictactoe.py:164 | After all moves have been seen, best_move is set and best_outcome is the board's value. |
| TicTacToe.MaxValue | tictactoe/tictactoe.py:152-164 | On a terminal board: the utility and no move. On a playable board: the minimax value and a move in actions that reaches it. Otherwise the exception from result. |
| TicTacToe.MinValue | tictactoe/tictactoe.py:168-180 | Mirror of MaxValue for the minimising side. |
| TicTacToe.Minimax | tictactoe/tictactoe.py:140-150 | None on a terminal board. The player exception when O is ahead. Otherwise a move in actions whose resulting board has the minimax value of the current one for the side to move. |
| PageRank.TransitionModel | pagerank/pagerank.py:51-78 | Requires page in corpus. The keys are exactly the corpus's pages. With links, each linked page gets d / len(links) + (1-d)/N and each other page (1-d)/N. Without links, every page gets 1/N. |
| PageRank.TransitionSumsToOne | pagerank/pagerank.py:51-78 | When the page's links are pages of the corpus, the values sum to 1. |
| PageRank.UniformSum | pagerank/pagerank.py:74-76 | N values of 1/N sum to 1. |
| PageRank.LinkedSum | pagerank/pagerank.py:66-72 | The linked and unlinked shares sum to 1. |
| PageRank.TransitionInUnitInterval | pagerank/pagerank.py:60-78 | With 0 <= d <= 1, every value lies in [0, 1]. |
| PageRank.CleanLinks | pagerank/pagerank.py:39-46 | Same pages. A link is kept iff it was parsed from the page, is not the page itself, and is a page of the corpus. Hence there are no self links, and every kept link is a key. |

## Left out

- load_data (heredity/heredity.py:97-116): reads a CSV file, so it is I/O. The pedigree is an input map.
- The `sys.argv` checks and all printing (heredity/heredity.py:43-45, 87-94; pagerank/pagerank.py:10-21): I/O.
- crawl's directory listing, file reading and regular-expression link extraction (pagerank/pagerank.py:33-38): I/O and a library regex. The parsed link sets are the input of CleanLinks.
- sample_pagerank (pagerank/pagerank.py:81-115): depends on `random.choice` and `random.choices`.
- iterate_pagerank (pagerank/pagerank.py:118-155): a floating-point convergence loop with no termination measure.
- Floating-point rounding everywhere: probabilities are exact reals.
- HeredityInference.Powerset: the order of the list `itertools` produces is not modelled. That order is by size, and within one size it follows `list(names)`, so it depends on the iteration order of a set. The model is the set of subsets, and the loops are proved for every visiting order.
- HeredityInference.Infer: with exact reals, every person's gene total and trait total equal the total mass (MarginalTotals). So when one total is 0, all are 0, and normalize raises ZeroDivisionError at the first person it visits, before anyone is rescaled. The model reports this as ok being false. A partly rescaled table could arise only from floating-point rounding, which is not modelled.
- HeredityInference.AddRow and HeredityInference.AddBlock: main's nested loop is split into these two methods. Each is one loop of the nest.
- TicTacToe.Result: boards are values, so aliasing of the nested lists, and the deep copy that avoids it, are not modelled.
- TicTacToe.MaxValue and TicTacToe.MinValue: which of several equally good moves is returned depends on set order. The model only promises that it is one that reaches the value.
- TicTacToe.Minimax: the source's fall-through `None`, for a non-terminal board where player returns neither X nor O, cannot happen and has no branch.
- TicTacToe.ValidWinner: cells are X, O or EMPTY, so the function is the identity here. Other inputs cannot occur.
- TicTacToe.Winner: the scan over rows, then columns, then the two diagonals is written as one walk over eight lines in that order.
