# Tic-tac-toe search and PageRank, modelled in Dafny

This project models two small programs.

**Tic-tac-toe** (`tictactoe/tictactoe.py`) covers:

- the board;
- whose turn it is, read from the mark counts;
- the legal moves;
- making a move;
- the winner, the end of the game and its score;
- `max_value` and `min_value` with alpha-beta pruning;
- `minimax`, which picks a move whose reply value matches the board's own.

**PageRank** (`pagerank/pagerank.py`) covers:

- the random-surfer transition model;
- the sampling estimator, a Markov-chain walk that counts visits;
- the iterative estimator: a uniform start, an index of each page's parents, repeated in-place update sweeps, and a stop once no page moves by more than 0.001.

## Files

- `wrappers.dfy` (module `Wrappers`): `Option`.
- `board.dfy` (module `Board`): the game rules.
  - `Grid` is a 3×3 `seq<seq<Cell>>`.
  - The counter dictionary is the `Tally` datatype.
  - `actions` is a row-major sequence of positions.
  - The "Cell is already filled." exception of `result` is the `CellFilled` alternative of `Move`.
- `search.dfy` (module `Search`): the pruned search.
  - It is compared with a plain minimax reference, `MaxPlain`/`MinPlain`.
  - `-math.inf` and `math.inf` are the integers −2 and 2. Every comparison has a game value in {−1, 0, 1} on at least one side, and −2 and 2 lie on the same sides of those values as the infinities, so every comparison comes out the same.
- `corpus.dfy` (module `Corpora`): the link graph.
  - It has the page → links map and the order in which the dictionary yields its pages.
  - `Valid` holds what `crawl` guarantees: no self-links, and only links to pages of the corpus.
  - `Total` sums ranks over a list of pages.
- `sampling.dfy` (module `Sampling`): `transition_model` and `sample_pagerank`.
- `iteration.dfy` (module `Iteration`): `iterate_pagerank`.
  - `IteratePagerank` runs the parent index as the code builds it, duplicate parents included.
  - `IteratePagerankCorrected` runs the same loop on the corrected index, which lists each parent once.
  - `Gathered` is a reference for one page's update: p reads its own running value when it is one of its parents, and every other parent keeps its rank.

## Model

| member | source | states |
|---|---|---|
| Board.InitialState | tictactoe/tictactoe.py:12-18 | Every square of the 3×3 starting board is empty. |
| Board.InitialStateFacts | tictactoe/tictactoe.py:12-18 | The starting board is empty. It has nine empty squares and nine legal moves, X moves first, and the game is not over. |
| Board.CountFrom | tictactoe/tictactoe.py:21-27 | The counts of the squares from index k on add up to the number of such squares. |
| Board.Count | tictactoe/tictactoe.py:21-27 | The three counts of a board add up to 9. |
| Board.CountIsCardinality | tictactoe/tictactoe.py:21-27 | The count for each mark is the number of board positions holding that mark. |
| Board.PlaceCount | tictactoe/tictactoe.py:61-68 | Marking an empty square turns exactly one empty into one mark of that player and leaves the other mark's count alone. |
| Board.PlaceCountFrom | tictactoe/tictactoe.py:61-68 | The same as PlaceCount, for the tally of the squares from index k on. |
| Board.Player | tictactoe/tictactoe.py:31-42 | The player to move is always X or O. |
| Board.PlayerTurn | tictactoe/tictactoe.py:31-42 | O is to move exactly when X has more marks than O. The last mover is X under exactly the same condition. This includes the empty board, where X moves. |
| Board.Prev | tictactoe/tictactoe.py:76-79 | The mark `winner` looks for is X or O, never the player to move: the player who moved last. |
| Board.CellsFrom | tictactoe/tictactoe.py:50-53 | Lists, in row-major order and without repeats, exactly the squares from index k on that hold the given mark. Its length is that mark's count. |
| Board.Actions | tictactoe/tictactoe.py:45-54 | A position is a legal move exactly when it is on the board and its square is empty. There are as many moves as empty squares. |
| Board.ActionsAreEmptySquares | tictactoe/tictactoe.py:45-54 | The set of moves is the set of empty positions, and its size equals the number of moves and the empty count. |
| Board.Place | tictactoe/tictactoe.py:68 | Writes the mark on the chosen square and leaves every other square as it was. |
| Board.Result | tictactoe/tictactoe.py:57-69 | Fails exactly when the square is taken. Otherwise it puts the mover's mark there, leaves every other square unchanged, and moves one empty into the mover's count. |
| Board.WinnerFrom | tictactoe/tictactoe.py:81-104 | From round i on, finds mark m exactly when some remaining row or column is full of m, or a round is left and a diagonal is full. It only ever reports m. |
| Board.LinesAreRowsColumnsDiagonals | tictactoe/tictactoe.py:81-102 | The four checks of the loop pass in some round exactly when one of the eight winning lines is full of the mark. |
| Board.Winner | tictactoe/tictactoe.py:72-104 | The winner is the last mover when some winning line is full of that mover's mark, and no one otherwise. The player to move is never reported. |
| Board.Terminal | tictactoe/tictactoe.py:107-118 | The game is over exactly when the last mover holds a full line or no legal move is left. |
| Board.Utility | tictactoe/tictactoe.py:121-130 | The score is -1, 0 or 1. |
| Board.UtilityScoresLastMover | tictactoe/tictactoe.py:121-130 | The score is 1 exactly when X moved last and holds a line, -1 exactly when O did, and 0 when the last mover holds no line. |
| Search.Child | tictactoe/tictactoe.py:57-69 | A legal move leaves one empty square fewer. |
| Search.MaxValue | tictactoe/tictactoe.py:133-146 | The value found is -1, 0 or 1. |
| Search.MaxLoop | tictactoe/tictactoe.py:140-146 | The loop never lowers its running value. It returns a game value once it has looked at a move or started from one. |
| Search.MinValue | tictactoe/tictactoe.py:149-162 | The value found is -1, 0 or 1. |
| Search.MinLoop | tictactoe/tictactoe.py:156-162 | The loop never raises its running value. It returns a game value once it has looked at a move or started from one. |
| Search.MaxPlain | tictactoe/tictactoe.py:133-146 | The unpruned maximiser's value is -1, 0 or 1. |
| Search.BestMax | tictactoe/tictactoe.py:140-146 | The unpruned best reply over a list of moves is -infinity for no moves and a game value otherwise. |
| Search.MinPlain | tictactoe/tictactoe.py:149-162 | The unpruned minimiser's value is -1, 0 or 1. |
| Search.BestMin | tictactoe/tictactoe.py:156-162 | The unpruned best reply over a list of moves is +infinity for no moves and a game value otherwise. |
| Search.MaxStep | tictactoe/tictactoe.py:141-145 | One round of the max loop, with the cut-off at beta and the raised alpha, keeps the clamped value equal to the unpruned one. |
| Search.MinStep | tictactoe/tictactoe.py:157-161 | One round of the min loop, with the cut-off at alpha and the lowered beta, keeps the clamped value equal to the unpruned one. |
| Search.MaxLoopSound | tictactoe/tictactoe.py:140-146 | Inside any window alpha < beta, the pruned max loop and the unpruned best reply agree once both are clamped to the window. |
| Search.MinLoopSound | tictactoe/tictactoe.py:156-162 | Inside any window alpha < beta, the pruned min loop and the unpruned best reply agree once both are clamped to the window. |
| Search.MaxValueSound | tictactoe/tictactoe.py:133-146 | Inside any window, max_value clamped to the window equals the minimax value clamped to it. |
| Search.MinValueSound | tictactoe/tictactoe.py:149-162 | Inside any window, min_value clamped to the window equals the minimax value clamped to it. |
| Search.AlphaBetaIsMinimax | tictactoe/tictactoe.py:133-162 | With the window (-inf, inf), max_value and min_value return exactly the minimax values. |
| Search.BestMaxBound | tictactoe/tictactoe.py:172-176 | No legal move leads to a child worth more to X than the best reply. |
| Search.BestMaxAttained | tictactoe/tictactoe.py:172-176 | Some move in a non-empty list leads to a child worth exactly the best reply. |
| Search.BestMinBound | tictactoe/tictactoe.py:178-182 | No legal move leads to a child worth less to O than the best reply. |
| Search.BestMinAttained | tictactoe/tictactoe.py:178-182 | Some move in a non-empty list leads to a child worth exactly the best reply. |
| Search.FirstWith | tictactoe/tictactoe.py:174-182 | Returns a listed move whose reply has the target value, and nothing exactly when no listed move's reply has it. |
| Search.Minimax | tictactoe/tictactoe.py:165-182 | Returns nothing on a finished game and otherwise only a legal move. |
| Search.MinimaxIsOptimal | tictactoe/tictactoe.py:165-182 | On an unfinished board, returns a legal move that is optimal for the player to move. Its child has the board's minimax value, and no legal move does better. |
| Corpora.Fill | pagerank/pagerank.py:128-129 | Sets every listed page to the value and keeps every other entry. |
| Corpora.UniformTotal | pagerank/pagerank.py:67-68 | N pages at 1/N each total 1. |
| Sampling.AddShare | pagerank/pagerank.py:75-76 | Adds the share to exactly the listed pages that are link targets, and changes nothing else. |
| Sampling.UniformJump | pagerank/pagerank.py:66-69 | A page without links gives every page of the corpus the chance 1/N. |
| Sampling.DampedJump | pagerank/pagerank.py:71-77 | Every page gets (1-d)/N, plus d/L when it is one of the L pages linked to, and no other key is present. |
| Sampling.TransitionModel | pagerank/pagerank.py:52-78 | The distribution has a key for every page, and each value is the surfer's chance of moving there. |
| Sampling.DampedSumsToOne | pagerank/pagerank.py:71-77 | The damped distribution of a page with links totals 1. |
| Sampling.TransitionSumsToOne | pagerank/pagerank.py:52-78 | Every transition distribution totals 1 over the corpus, whatever the damping factor. |
| Sampling.ChanceIsPositive | pagerank/pagerank.py:62-77 | With 0 <= d < 1, the chance of moving to any page is positive. |
| Sampling.TransitionIsPositive | pagerank/pagerank.py:52-78 | With 0 <= d < 1, every page of the corpus has a positive entry, so one step can reach any page. |
| Sampling.Select | pagerank/pagerank.py:100-107 | A page the selection walk picks is one of the pages walked. |
| Sampling.SelectTotal | pagerank/pagerank.py:100-107 | The walk picks some page whenever the draw does not exceed the total mass. |
| Sampling.SelectInterval | pagerank/pagerank.py:100-107 | The k-th page is picked exactly when the draw falls in its cumulative interval, counting from the start for the first page. |
| Sampling.Next | pagerank/pagerank.py:98-107 | A page chosen for the next sample is a page of the corpus. |
| Sampling.Step | pagerank/pagerank.py:98-105 | One later sample keeps the visits so far. It adds one visit exactly when the chooser picks a page, and that visit and the new current page are the page it picked. Otherwise the walker is unchanged. |
| Sampling.Run | pagerank/pagerank.py:93-107 | After i samples the chain has between 1 and i counted visits, and the first visit is the start page. |
| Sampling.RunStays | pagerank/pagerank.py:93-107 | A chain that starts in a set its chooser never leaves stays in that set, and so do all its visits. |
| Sampling.RunCounts | pagerank/pagerank.py:93-107 | When every draw is at most 1 and the chooser always picks, each of the i samples is counted. |
| Sampling.SurferStays | pagerank/pagerank.py:98-107 | The random surfer only moves to corpus pages, and from a corpus page it always moves for a draw of at most 1. |
| Sampling.NextPicks | pagerank/pagerank.py:98-107 | From a corpus page, a draw of at most 1 always selects a page. |
| Sampling.Bump | pagerank/pagerank.py:103-104 | Counting a visit adds the visited page to the counter's keys. |
| Sampling.CountOneMore | pagerank/pagerank.py:103-104 | A counter that matches the visits still matches after it and the visits both take one more page. |
| Sampling.TracksStep | pagerank/pagerank.py:94-107 | One pass of the loop moves the current page and the counter in step with the chain, and leaves both alone when no page is picked. |
| Sampling.Walk | pagerank/pagerank.py:90-107 | The counter after the loop holds, for each visited page, its number of visits in the chain, and no other key. |
| Sampling.Normalise | pagerank/pagerank.py:109-112 | A counter that matches some visits becomes their frequencies: each visited page, and no other, gets its number of visits divided by n. |
| Sampling.CountsGiveFrequencies | pagerank/pagerank.py:109-110 | Normalising a matching counter gives each visited page its share of the n samples. |
| Sampling.SamplePagerank | pagerank/pagerank.py:81-112 | The estimate maps exactly the visited pages, each to its number of visits in the chain over n. With no samples it is the empty map. |
| Sampling.FrequenciesTotal | pagerank/pagerank.py:109-110 | The estimate summed over a list of pages is the share of samples that visited them. |
| Sampling.SampleSumsToOne | pagerank/pagerank.py:81-112 | When every draw is at most 1 and n > 0, the estimate totals 1 over the corpus. |
| Sampling.SampleOneDraw | pagerank/pagerank.py:93-112 | With one sample, the estimate gives the start page rank 1.0 and no other page a rank. |
| Iteration.InitialRanks | pagerank/pagerank.py:128-129 | Every page of the corpus, and no other key, starts at 1/N. |
| Iteration.InitialRanksSumToOne | pagerank/pagerank.py:128-129 | The starting ranks of a non-empty corpus total 1. |
| Iteration.AddLinkParent | pagerank/pagerank.py:133-135 | Lists q as a parent of p, adds nothing else, and never lists a parent twice. |
| Iteration.LinkInner | pagerank/pagerank.py:132-135 | After one page's links, exactly that page's targets list it as a parent, and no parent is listed twice. |
| Iteration.LinkPass | pagerank/pagerank.py:131-135 | The link pass keeps every entry, adds only corpus pages, and never lists a parent twice. |
| Iteration.LinkPassListed | pagerank/pagerank.py:131-135 | After the link pass, x is listed for k exactly when x links to k. |
| Iteration.AddDanglingParent | pagerank/pagerank.py:140-141 | Lists q as a parent of p and nothing else. Only the guarded version is sure never to list a parent twice. |
| Iteration.DanglingInner | pagerank/pagerank.py:139-141 | A page without links becomes a parent of every page, and the guarded version lists no parent twice. |
| Iteration.DanglingPass | pagerank/pagerank.py:137-144 | Every page gets an entry, only corpus pages are added, and the guarded pass lists no parent twice. |
| Iteration.DanglingPassListed | pagerank/pagerank.py:137-144 | After this pass, k lists x exactly when it did before, or x is one of the pages passed, has no links and k is a corpus page. |
| Iteration.ParentIndexListed | pagerank/pagerank.py:131-144 | Both passes together list q for p exactly when q links to p or q has no links. |
| Iteration.ParentIndexWith | pagerank/pagerank.py:131-144 | The index has exactly the corpus pages as keys, and lists q for p exactly when q links to p or has no links. The guarded version lists no parent twice. |
| Iteration.ParentIndexAsWritten | pagerank/pagerank.py:131-144 | The index as written has the right keys and the right parents as a set. |
| Iteration.ParentIndex | pagerank/pagerank.py:131-144 | The corrected index has the right keys and parents, and lists each parent once. |
| Iteration.ExampleLinkPass | pagerank/pagerank.py:131-135 | In the two-page example, the link pass gives "b" the parent "a" and nothing else. |
| Iteration.ExampleDanglingInner | pagerank/pagerank.py:139-141 | In the example, the page without links is added to both pages, twice for "a" as written. |
| Iteration.ExampleDanglingPass | pagerank/pagerank.py:137-144 | In the example, the dangling pass gives "a" the parents ["b", "b"] as written and ["b"] when guarded. |
| Iteration.DuplicateParent | pagerank/pagerank.py:139-141 | The index as written lists "b" twice for "a", and the corrected one lists it once. |
| Iteration.ExampleUpdate | pagerank/pagerank.py:139-157 | In the example, updating "a" with the index as written adds the share of "b" twice, and with the corrected index once. |
| Iteration.Out | pagerank/pagerank.py:153-156 | The divisor num_links of a parent is positive: N for a page without links, its number of links otherwise. |
| Iteration.Pass | pagerank/pagerank.py:153-157 | A parent holding rank x passes on d·x split equally over its num_links links: the share times num_links is d·x. |
| Iteration.Share | pagerank/pagerank.py:157 | The same for the parent's current rank in the map. |
| Iteration.Base | pagerank/pagerank.py:151 | Each page is reset to (1-d)/N, so the N pages together hold the 1-d of the random jump. |
| Iteration.Accumulate | pagerank/pagerank.py:152-157 | Adding the parents' shares only changes p's entry. |
| Iteration.Update | pagerank/pagerank.py:151-157 | Updating one page changes no other page's rank. |
| Iteration.SweepFrom | pagerank/pagerank.py:150-157 | The sweep gives every swept page an entry and leaves the ranks of other pages unchanged. |
| Iteration.Sweep | pagerank/pagerank.py:150-157 | A full sweep gives every corpus page a rank. |
| Iteration.ShareNonNegative | pagerank/pagerank.py:157 | With d >= 0 and non-negative ranks, every share is non-negative. |
| Iteration.AccumulateGrows | pagerank/pagerank.py:152-157 | Adding shares never lowers p's rank and keeps all ranks non-negative. |
| Iteration.InflowFrame | pagerank/pagerank.py:152-157 | The parents' total share depends only on the parents' own ranks. |
| Iteration.AccumulateInflow | pagerank/pagerank.py:152-157 | For a page that is not its own parent, accumulating adds exactly the sum of its parents' shares. |
| Iteration.UpdateFormula | pagerank/pagerank.py:151-157 | A page that is not its own parent gets (1-d)/N plus the sum of its parents' shares, read from the ranks as they stand when its turn comes. |
| Iteration.UpdateFloor | pagerank/pagerank.py:151-157 | For 0 <= d <= 1, an update puts the page at or above (1-d)/N and keeps all ranks non-negative. |
| Iteration.SweepFromFloor | pagerank/pagerank.py:150-157 | Every swept page ends at or above (1-d)/N, and no rank goes negative. |
| Iteration.SweepFloor | pagerank/pagerank.py:150-157 | After a full sweep, every page holds at least (1-d)/N and no rank is negative. |
| Iteration.SweepFromAt | pagerank/pagerank.py:150-157 | After sweeping a list of pages, a page listed once holds what its own update gave it, read from the ranks the pages before it left. The pages after it do not touch it. |
| Iteration.SweepAtTurn | pagerank/pagerank.py:150-157 | In a full sweep, the i-th page of the order ends with its update applied to the ranks the first i pages left. |
| Iteration.SweepFirst | pagerank/pagerank.py:150-157 | The first page of the order is updated from the ranks the sweep started with. |
| Iteration.SweepValue | pagerank/pagerank.py:150-157 | A page that is not its own parent ends a sweep at (1-d)/N plus its parents' shares, each read after the earlier pages were updated, so a parent earlier in the order counts at its new rank. |
| Iteration.AccumulateGathered | pagerank/pagerank.py:152-157 | Adding the parents' shares in place gives the reference value `Gathered`, whatever p was reset to. |
| Iteration.GatheredInflow | pagerank/pagerank.py:152-157 | When p is not among the parents, the reference value is the start plus the sum of the parents' shares. |
| Iteration.GatheredPrefix | pagerank/pagerank.py:152-157 | Parents listed before p's own entry just add their shares to p's running value. |
| Iteration.GatheredSelf | pagerank/pagerank.py:152-157 | With p listed once among its parents, between pre and post: p first reaches a, its start plus the shares of pre. It then adds d times a over its number of links, then the shares of post. |
| Iteration.AccumulateSelf | pagerank/pagerank.py:152-157 | The in-place accumulation gives the value GatheredSelf states. |
| Iteration.UpdateSelf | pagerank/pagerank.py:151-157 | A page listed once among its own parents first reaches a, which is (1-d)/N plus the shares of the parents before it. It then adds d times a over its number of links, then the shares of the parents after it. |
| Iteration.SweepValueSelf | pagerank/pagerank.py:150-157 | The same inside a full sweep, with every share read from the ranks the earlier pages left. |
| Iteration.LoneIndex | pagerank/pagerank.py:131-144 | For a single page without links, the index as written lists the page twice as its own parent, and the corrected index lists it once. |
| Iteration.LoneFacts | pagerank/pagerank.py:151-157 | For that corpus at d = 1/2, N is 1, the base is 1/2, and the page passes on half its rank. |
| Iteration.LoneUpdateAsWritten | pagerank/pagerank.py:139-157 | With the index as written, updating that page gives 1.125 from any ranks: it is reset to 1/2, then reads itself twice. |
| Iteration.LoneUpdateCorrected | pagerank/pagerank.py:151-157 | With the corrected index, the same update gives 0.75. |
| Iteration.LoneSweep | pagerank/pagerank.py:139-157 | One sweep of that corpus from rank 1 gives 1.125 with the index as written and 0.75 with the corrected one. |
| Iteration.LoneUpdate | pagerank/pagerank.py:139-157 | The two updates together: 1.125 as written and 0.75 corrected, from any ranks. |
| Iteration.LoneSweepValue | pagerank/pagerank.py:150-157 | A sweep of that corpus gives its page the same rank, whatever ranks it starts from. |
| Iteration.LoneLoop | pagerank/pagerank.py:146-167 | The loop on that corpus from rank 1: the first sweep moves the rank by more than 0.001, and the second repeats it and stops. |
| Iteration.LoneIterate | pagerank/pagerank.py:115-167 | iterate_pagerank on that corpus with d = 1/2 returns {a: 1.125} as written and {a: 0.75} corrected, so neither answer sums to 1. |
| Iteration.Abs | pagerank/pagerank.py:162 | The absolute value is non-negative and equals x or -x. |
| Iteration.AccuracyCheck | pagerank/pagerank.py:159-164 | Returns true exactly when no listed page moved by more than 0.001 in either direction, which is the loop's stopping test `Settled`. |
| Iteration.Loop | pagerank/pagerank.py:146-167 | A run that stops ends with a sweep of the ranks before it, and that sweep moved no page by more than the tolerance. |
| Iteration.LoopKeeps | pagerank/pagerank.py:146-167 | Any property of the start that each sweep preserves holds of the ranks the loop stops at and of the ranks one sweep before. |
| Iteration.LoopMoreFuel | pagerank/pagerank.py:146-167 | A larger bound gives the same converged answer. The bound only cuts off runs that had not stopped yet. |
| Iteration.IterateWith | pagerank/pagerank.py:115-167 | With either parent index, a converged answer has a rank for exactly the corpus pages. |
| Iteration.IteratePagerank | pagerank/pagerank.py:115-167 | The run on the parent index as the code builds it: a converged answer has a rank for exactly the corpus pages. |
| Iteration.IteratePagerankCorrected | pagerank/pagerank.py:115-167 | The same run on the corrected parent index: a converged answer has a rank for exactly the corpus pages. |
| Iteration.IteratePagerankConverged | pagerank/pagerank.py:146-167 | For 0 <= d <= 1 and either index, the answer is the loop's last sweep, taken from ranks it differs from by at most 0.001 per page, and every page holds at least (1-d)/N. |

## Left out

- Reading the corpus from HTML files (`crawl`), `main`, and the printing of the results. The model starts from the finished link map; `Valid` states what `crawl` guarantees about it.
- Randomness. The draws of `random.random()` are a parameter `draws` with one entry per sample. The first page, which the source takes from `random.choice`, is the parameter `start`. The draw the source makes for sample 0 is ignored there, and it is ignored here too.
- The constants DAMPING and SAMPLES are parameters (`d` and the length of `draws`).
- Floating point. Ranks and probabilities are exact reals, so every statement about sums holding exactly is about the real-number computation.
- Dictionary and set iteration order. The order in which the corpus dictionary yields its pages is `Corpus.order`. The set returned by `actions` is iterated in row-major order. `minimax` returns the first matching move in that order. The order in which `transition_model` walks the links of a page does not change its result, because each linked page gets the same share.
- Iteration.IteratePagerank: the `while True` loop is bounded by a `fuel` count, and a run that has not stopped within it gives `None`. `LoopMoreFuel` shows that the bound never changes an answer that was reached.
- Iteration.UpdateSelf: covers a page listed once among its own parents. A page that the index as written lists twice among its own parents is covered by the single-page lemma LoneUpdateAsWritten, not by a general formula; AccumulateGathered reduces every case to the reference `Gathered`.
- Iteration.IteratePagerankConverged: does not state that the converged ranks total 1. The source does not keep that total: the sweep updates ranks in place, and the accuracy check allows drift of 0.001. `LoneIterate` shows an answer of 1.125 with the index as written and 0.75 with the corrected one.
- Sampling.SamplePagerank: the first page is the parameter `start`, so on an empty corpus with at least one sample the model returns {start: 1.0}, where the source's `random.choice` raises IndexError. With no samples both give the empty map.
- Sampling.Next: gives `None` for a page outside the corpus, which the source never reaches. The chain starts inside the corpus and stays there (`SurferStays`, `RunStays`).
- A draw greater than the total of the distribution selects no page. The source then keeps the current page and counts nothing, and the model does the same. `SampleSumsToOne` therefore requires every draw to be at most 1, as `random.random()` guarantees.
- Board.Result: an action off the board is excluded by a precondition. Python's negative indexing is not modelled.
- The source's `-math.inf`/`math.inf` in the search are the integers −2 and 2. This does not change any comparison, because every game value lies in {−1, 0, 1}.

Two points of the code that the model keeps as they are:

- The sweep updates ranks in place. A page updated later reads the new ranks of the pages before it (`SweepValue`), and a page listed as its own parent reads its partly accumulated rank (`UpdateSelf`, `SweepValueSelf`).
- With n = 0 samples the estimate is an empty map, not an error.

## Findings

| source | as written | input that shows it | evidently intended | confidence | as-written member | corrected member |
|---|---|---|---|---|---|---|
| pagerank/pagerank.py:139-141 | For a page without links, line 140 gives every page that has no entry yet a list holding that page, and line 141 then appends it again without checking, so it is listed twice as a parent of each such page. The sweep then adds its share twice. | corpus {a: {b}, b: {}}, with b first in the dictionary order: the index lists b twice among a's parents. Corpus {a: {}} with d = 1/2 from rank 1: one sweep gives 1.125 instead of 0.75, and iterate_pagerank returns {a: 1.125} | each parent listed once, as the membership test of line 134 ensures for links | not executed | Iteration.ParentIndexAsWritten, Iteration.DuplicateParent, Iteration.ExampleUpdate, Iteration.LoneSweep, Iteration.IteratePagerank, Iteration.LoneIterate | Iteration.ParentIndex, Iteration.IteratePagerankCorrected |
