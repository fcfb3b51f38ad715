# game-theory-rs core, modelled in Dafny

This project models the integer and bookkeeping core of a small game-theory toolkit written in
Rust. The toolkit solves tic-tac-toe by memoised minimax, counts poker pre-flop matchups, labels
the 169 starting-hand classes, and runs counterfactual regret minimisation (CFR) over a tree of
action and terminal nodes. The modules are:

- `TicTacToe` (`tictactoe.dfy`): the board and its operations. A tile has a ternary digit and a
  board a ternary hash, and both come with their inverses. The module also has the eight symmetries
  of the square, the canonical `invariant_hash` (the least hash over all symmetric images), the
  empty tiles, the player to move, `act`, and `winner` over the eight lines.
- `TicTacToeSolver` (`tictactoe_solver.dfy`): the memo table `SolutionTable`. It is a class whose
  `valueTable: map<nat, int>` field `evaluate_recursive` fills in place. The module also has
  `get`, `solve` with its move-choosing fold, and `Minimax`, the game value that specifies them.
- `Utils` (`utils.rs`): `factorial`, `choose`, and the recursive k-subset enumerator
  `enumerate_combos`, checked against Pascal's rule and against positions in the input.
- `PreflopEquity`: the `RANKS`, `SUITS`, `CARDS` and `HANDS` tables, the lookups from strings,
  and the hand class of two cards. Also the counting loop of `build_matchup_probabilities` over a
  169×169 array, with no file output.
- `PushFold`: the `Display` of a hand, `get_index` and `index_to_str`, and the class
  `MatchupTable` with its counting loop over a 169×169 `array2`. Also the two families of
  information sets of the push/fold game.
- `Cfr` and `CfrTree`, with the helper module `Vectors`:
  - `Cfr` holds the computations of a CFR node as functions on values.
  - `CfrTree` holds the nodes as classes that update their fields and their children in place.
  - A child is the datatype `Child = Act(ActionNode) | Term(TerminalNode)`, in place of the `Node`
    trait object.
  - `f64` arrays are sequences of `real`.

`Wrappers` holds the `Option` type.

## Model

| member | source | states |
|---|---|---|
| TicTacToe.TileHash | src/tictactoe.rs:29-36 | a tile's digit is below 3 |
| TicTacToe.TileFromHash | src/tictactoe.rs:38-46 | decoding a digit succeeds exactly for the digits 0, 1 and 2 |
| TicTacToe.TileHashInverse | src/tictactoe.rs:29-46 | `from_hash(t.hash()) == Some(t)` for every tile |
| TicTacToe.TileFromHashInverse | src/tictactoe.rs:38-46 | every digit below 3 decodes to a tile whose digit it is |
| TicTacToe.HashIsHashSeq | src/tictactoe.rs:163-169 | the sum of 3^i · digit(tile i) is the base-3 number formed by the tiles, read from tile 0 up |
| TicTacToe.HashBound | src/tictactoe.rs:163-169 | every board hash is below 3^9 = 19683 |
| TicTacToe.Decode | src/tictactoe.rs:85-97 | decoding n base-3 digits gives n tiles |
| TicTacToe.DecodeHash | src/tictactoe.rs:85-97 | `from_hash(b.hash()) == b` for every board |
| TicTacToe.HashDecode | src/tictactoe.rs:85-97 | every hash below 3^9 is the hash of the board decoded from it |
| TicTacToe.HashInjective | src/tictactoe.rs:163-169 | two boards with the same hash are the same board |
| TicTacToe.FromHash | src/tictactoe.rs:85-97 | the scan over nine digits builds the board that `Decode` describes |
| TicTacToe.Symmetry | src/tictactoe.rs:100-160 | each of the eight index tables maps tiles to tiles |
| TicTacToe.RotateFourTimes | src/tictactoe.rs:175-184 | four quarter turns give back the board |
| TicTacToe.PermuteCompose | src/tictactoe.rs:100-160 | applying one symmetry after another equals applying a single symmetry of the eight |
| TicTacToe.PermuteInverse | src/tictactoe.rs:100-160 | every symmetry is undone by another of the eight |
| TicTacToe.SymmetryHashes | src/tictactoe.rs:100-157 | the hash list holds exactly eight hashes |
| TicTacToe.SymmetryHashesAreImages | src/tictactoe.rs:100-157 | entry k of the hash list is the hash of the board under symmetry k: the identity, three rotations, four reflections |
| TicTacToe.Min | src/tictactoe.rs:159 | the minimum is an element of the list and no larger than any element (also the `min()` of the child values at src/tictactoe.rs:328) |
| TicTacToe.CanonicalHashIsImage | src/tictactoe.rs:100-160 | the invariant hash is the hash of some symmetric image, and it is at most `b.hash()` |
| TicTacToe.CanonicalHashInvariant | src/tictactoe.rs:100-160 | each of the eight symmetries leaves the invariant hash unchanged |
| TicTacToe.CanonicalHashRotate | src/tictactoe.rs:404-418 | `invariant_hash(rotate(b)) == invariant_hash(b)` |
| TicTacToe.InvariantHash | src/tictactoe.rs:100-160 | the method's result is the least of the eight image hashes |
| TicTacToe.EmptiesOfProperties | src/tictactoe.rs:186-198 | the filtered indices strictly ascend, lie on the board, and are exactly the empty tiles; their number is the empty count |
| TicTacToe.Empties | src/tictactoe.rs:186-198 | `empty()` lists exactly the indices of the empty tiles, strictly ascending |
| TicTacToe.Turn | src/tictactoe.rs:200-206 | X moves exactly when the number of empty tiles is odd; the player to move is never `Empty` |
| TicTacToe.ActMarks | src/tictactoe.rs:208-212 | `act(i)` gives tile i to the player to move and leaves the other eight tiles alone |
| TicTacToe.ActEmpties | src/tictactoe.rs:208-212 | a move on an empty tile removes one empty tile and passes the turn |
| TicTacToe.ActEmptiesMembers | src/tictactoe.rs:208-212 | after a move on tile i, the empty tiles are the old ones without i |
| TicTacToe.WinnerFromSpec | src/tictactoe.rs:220-261 | scanning the lines from line n returns a player only if that player holds a line; it returns `Empty` only if no one does; a lone line holder is returned |
| TicTacToe.WinnerSpec | src/tictactoe.rs:214-262 | `winner` is `Empty` when more than 5 tiles are empty; otherwise a returned player holds a line, `Empty` means no line, and a player who alone holds a line is returned |
| TicTacToe.BothLinesFewEmpties | src/tictactoe.rs:214-262 | a board on which both players hold a line has at most 3 empty tiles |
| TicTacToe.ActSane | src/tictactoe.rs:208-212 | a move on an empty tile of a sane, undecided board keeps it sane, so no play reaches a board with two winners |
| TicTacToe.SymmetryLines | src/tictactoe.rs:214-262 | a symmetry maps winning lines to winning lines: a player holds a line on the image exactly when on the board |
| TicTacToe.SymmetryTally | src/tictactoe.rs:186-198 | a symmetry keeps the number of tiles of each kind |
| TicTacToe.SymmetryPreservesPlay | src/tictactoe.rs:294-296 | symmetric images have the same empty count, turn and sanity, and a sane board has the winner of its images, so memoising on the invariant hash is sound |
| TicTacToeSolver.Minimax | src/tictactoe.rs:292-335 | the game value (X wins 1, O wins -1, full board 0, else max or min of the children) lies in {-1, 0, 1} |
| TicTacToeSolver.Extremum | src/tictactoe.rs:326-330 | the max (X) or min (O) of the children's values lies in {-1, 0, 1} |
| TicTacToeSolver.ExtremumBest | src/tictactoe.rs:326-330 | the extremum is the value of one child and bounds all children's values from the mover's side |
| TicTacToeSolver.ChildValues | src/tictactoe.rs:320-324 | entry m is the value of the board after the m-th move |
| TicTacToeSolver.ActPermute | src/tictactoe.rs:208-212 | moving on an image of a board is the image of the corresponding move |
| TicTacToeSolver.MinimaxSymmetric | src/tictactoe.rs:294-296 | a sane board and each of its symmetric images have the same game value |
| TicTacToeSolver.CanonicalSound | src/tictactoe.rs:294-296 | two boards with the same invariant hash, one sane, are both sane with the same value |
| TicTacToeSolver.StoreSound | src/tictactoe.rs:332 | a board's value stored under its invariant hash is the value of every sane board with that hash |
| TicTacToeSolver.EntryMeaning | src/tictactoe.rs:294-296 | a cached entry gives the value of a sane board that hashes to its key |
| TicTacToeSolver.SeqMax | src/tictactoe.rs:327 | `max()` returns an element no smaller than any other |
| TicTacToeSolver.ExtremumOfValues | src/tictactoe.rs:326-330 | max/min over the evaluated children equals the extremum of their game values |
| TicTacToeSolver.SolvedValue | src/tictactoe.rs:320-330 | on an undecided sane board, max (X) or min (O) of the child values is the board's value |
| TicTacToeSolver.SolutionTable.Default | src/tictactoe.rs:269-275 | the table starts empty, which trivially agrees with the game values |
| TicTacToeSolver.SolutionTable.Build | src/tictactoe.rs:279-290 | after evaluation from the empty board the table is faithful and closed under moves; it holds the empty board's invariant hash, and it holds the keys of X X X / O O _ / _ _ _ and X _ X / O O _ / _ _ _, each with value 1, which the test at src/tictactoe.rs:451-481 unwraps |
| TicTacToeSolver.SolutionTable.EvaluateRecursive | src/tictactoe.rs:292-335 | the value is in {-1, 0, 1}; it is the game value of a sane board; it is stored under the invariant hash; old entries are kept unchanged; every entry stays faithful and the table stays closed under moves |
| TicTacToeSolver.SolutionTable.Store | src/tictactoe.rs:332 | the insert adds exactly one key; it keeps the table faithful, and closed under moves once every move from the board is stored |
| TicTacToeSolver.SolutionTable.EvaluateChildren | src/tictactoe.rs:320-324 | one value per empty tile, each in {-1, 0, 1} and the value of that move on an undecided sane board; old entries kept; the invariant hash of every move is stored afterwards |
| TicTacToeSolver.SolutionTable.Get | src/tictactoe.rs:337-339 | `get` returns a value exactly for stored keys, and that value is in {-1, 0, 1} and faithful |
| TicTacToeSolver.SolutionTable.Solve | src/tictactoe.rs:341-360 | on X's turn the result is 0; on O's turn it is an empty tile, the last one whose child value is least; with no empty tile it is 0 |
| TicTacToeSolver.FoldChoice | src/tictactoe.rs:341-360 | from the children's values, the fold's pick is 0 on X's turn and on a full board; on O's turn it is an empty tile, and on a sane undecided board its game value is least and every later tile's is larger |
| TicTacToeSolver.FoldKeepsSeed | src/tictactoe.rs:348-358 | on X's turn the seed (0, 2) above all values is never replaced |
| TicTacToeSolver.FoldLastMinimum | src/tictactoe.rs:348-358 | on O's turn the fold ends on the last candidate of least value |
| TicTacToeSolver.FoldSeedStays | src/tictactoe.rs:348-358 | on O's turn a seed below every value is kept |
| TicTacToeSolver.SiblingChild | src/tictactoe.rs:294-296 | two sane boards with one invariant hash have matching moves: each move from one has the invariant hash of a move from the other |
| TicTacToeSolver.StoreClosed | src/tictactoe.rs:332 | inserting a board whose moves are all stored keeps the table closed under moves |
| TicTacToeSolver.StoredPrefixExtend | src/tictactoe.rs:320-324 | evaluating the next move adds its invariant hash, so the hashes of the moves so far are all gathered |
| TicTacToeSolver.CoverMoves | src/tictactoe.rs:320-324 | hashes gathered for every empty tile cover every move of the board |
| TicTacToeSolver.ReachedMove | src/tictactoe.rs:320-324 | a closed table holding a sane undecided board holds each of its moves |
| TicTacToeSolver.OpeningLine | src/tictactoe.rs:451-481 | the line 0, 3, 2, 4 from the empty board passes only sane undecided boards and ends on X _ X / O O _ / _ _ _, whose move 1 gives X X X / O O _ / _ _ _ |
| TicTacToeSolver.TestBoardsReached | src/tictactoe.rs:451-481 | a closed table holding the empty board holds the keys of both test boards |
| TicTacToeSolver.TestBoardValues | src/tictactoe.rs:451-481 | a faithful table stores 1 under the keys of both test boards |
| TicTacToeSolver.WinningBoardUndecided | src/tictactoe.rs:470-481 | nobody holds a line on X _ X / O O _ / _ _ _ |
| TicTacToeSolver.WonBoard | src/tictactoe.rs:457-467 | X X X / O O _ / _ _ _ has value 1 |
| TicTacToeSolver.WinningBoard | src/tictactoe.rs:470-481 | X _ X / O O _ / _ _ _ has value 1 |
| Utils.RangeProduct | src/utils.rs:2 | a product over a range of positive numbers is positive |
| Utils.Factorial | src/utils.rs:1-3 | the factorial is at least 1 |
| Utils.FactorialRecurrence | src/utils.rs:1-3 | `factorial(0) == 1` and `factorial(x) == x * factorial(x - 1)` |
| Utils.ChooseIsBinomial | src/utils.rs:5-11 | both branches of `choose` give the binomial coefficient defined by Pascal's rule |
| Utils.ChooseFactorialFormula | src/utils.rs:5-11 | `choose(n, k) == n! / (k! (n - k)!)` for k ≤ n |
| Utils.ChooseSymmetric | src/utils.rs:5-11 | `choose(n, k) == choose(n, n - k)` |
| Utils.CombosCount | src/utils.rs:13-48 | the enumeration has `Binomial(|items|, k)` subsets for 1 ≤ k ≤ |items| + 1 |
| Utils.EnumerateCombosCount | src/utils.rs:55-67 | for 1 ≤ k ≤ |items| the enumeration has `choose(|items|, k)` subsets |
| Utils.CombosOfOne | src/utils.rs:15-24 | for k = 1 the result is the singletons of the items, in order |
| Utils.CombosAreSubsequences | src/utils.rs:26-45 | every subset has k elements and is an order-preserving subsequence of the items |
| Utils.IndexCombos | src/utils.rs:26-45 | over positions, every subset strictly ascends within the range, and the subsets come in lexicographic order |
| Utils.CombosPositions | src/utils.rs:13-48 | the j-th subset of the items is the items at the j-th subset of their positions |
| PreflopEquity.CardNamed | src/preflop_equity.rs:13-24 | `CARDS[i]` is rank i / 4 followed by suit i % 4 |
| PreflopEquity.CardsDistinct | src/preflop_equity.rs:19-24 | the 52 card names are distinct |
| PreflopEquity.HandNamed | src/preflop_equity.rs:26-40 | `HANDS[13 r + c]` is a pair for r = c, suited ranks c then r for r < c, offsuit ranks r then c for r > c |
| PreflopEquity.HandsDistinct | src/preflop_equity.rs:26-40 | the 169 hand names are distinct |
| PreflopEquity.TableIndex | src/preflop_equity.rs:42-52 | a table lookup finds nothing exactly for names not in the table, and otherwise a position holding the name, the last such |
| PreflopEquity.CardFromStrInverse | src/preflop_equity.rs:42-52 | `card_from_str(CARDS[i]) == Some(i)` |
| PreflopEquity.CardFromStrDomain | src/preflop_equity.rs:42-52 | `card_from_str(s)` is `None` exactly for strings not in `CARDS`, else below 52 |
| PreflopEquity.CardFromRankAndSuit | src/preflop_equity.rs:42-52 | a rank and a suit character name card 4 · rank + suit |
| PreflopEquity.PreflopHandFromStrInverse | src/preflop_equity.rs:70-80 | `preflop_hand_from_str(HANDS[h]) == Some(h)` |
| PreflopEquity.PreflopHandFromStrDomain | src/preflop_equity.rs:70-80 | `preflop_hand_from_str(s)` is `None` exactly for strings not in `HANDS`, else below 169 |
| PreflopEquity.PreflopHandFromCards | src/preflop_equity.rs:54-68 | the hand class of two cards is below 169 |
| PreflopEquity.PreflopHandFromCardsSymmetric | src/preflop_equity.rs:54-68 | the class does not depend on the order of the cards |
| PreflopEquity.PreflopHandFromCardsNamed | src/preflop_equity.rs:54-68 | `HANDS` at the class names the two cards: a pair, higher then lower rank with "s" when suited or "o" when not |
| PreflopEquity.CellOf | src/preflop_equity.rs:63-67 | pairs and suited cards land on row min, column max; offsuit cards on row max, column min |
| PreflopEquity.PreflopHandFromStrOfCards | src/preflop_equity.rs:54-80 | looking up the name of two cards gives back their class |
| PreflopEquity.PreflopHandFromCardsPair | src/preflop_equity.rs:63-64 | a pair of rank r lands on the diagonal cell 14 r |
| PreflopEquity.Splits | src/preflop_equity.rs:120-140 | the three splits of four cards name classes of the grid |
| PreflopEquity.TallyTotal | src/preflop_equity.rs:116-141 | counting subsets cs makes 6 · |cs| increments in all |
| PreflopEquity.TallySymmetric | src/preflop_equity.rs:116-141 | cell (i, j) and cell (j, i) are incremented equally often |
| PreflopEquity.TallyOutside | src/preflop_equity.rs:116-141 | no increment falls outside the 169 × 169 grid |
| PreflopEquity.Increment | src/preflop_equity.rs:126 | `matchups[a][b] += 1` raises that cell by one and no other |
| PreflopEquity.CountSplit | src/preflop_equity.rs:124-127 | a split raises (h1, h2) and (h2, h1), once each, or the diagonal cell twice |
| PreflopEquity.CountCombo | src/preflop_equity.rs:119-140 | one loop body adds exactly the hits of its three splits |
| PreflopEquity.CountMatchups | src/preflop_equity.rs:116-141 | after the loop each cell holds the number of times it was hit |
| PreflopEquity.CountedSymmetric | src/preflop_equity.rs:116-141 | the counted array is symmetric |
| PreflopEquity.DeckCombosAreHands | src/preflop_equity.rs:118 | the subsets of the deck are 4-card subsets, C(52, 4) of them |
| PreflopEquity.BuildMatchupProbabilities | src/preflop_equity.rs:115-141 | the matchup array is symmetric, each cell counting its hits, and the hits total 6 · C(52, 4) |
| PushFold.RankCharsAreRanks | src/push_fold.rs:39 | the rank characters are those of `RANKS` |
| PushFold.HandDisplaySymmetric | src/push_fold.rs:31-52 | `Hand(a, b)` and `Hand(b, a)` display identically |
| PushFold.HandDisplayExamples | src/push_fold.rs:280-284 | `Hand(1, 0)` displays "22" and `Hand(48, 0)` displays "A2s" |
| PushFold.GetIndex | src/push_fold.rs:80-93 | for two cards of the deck the index is below 169 |
| PushFold.GetIndexExamples | src/push_fold.rs:275-278 | `get_index(1, 0) == 0` and `get_index(51, 50) == 168` |
| PushFold.GetIndexSwap | src/push_fold.rs:80-93 | swapping the cards transposes the index; the index is symmetric exactly for pairs, which land on 14 r |
| PushFold.IndexToStrSuffix | src/push_fold.rs:55-79 | the name ends in 's' iff row > column and in 'o' iff row < column, and has length 2 iff on the diagonal |
| PushFold.IndexToStrIsTransposedHand | src/push_fold.rs:55-79 | `index_to_str(x)` is the `HANDS` name of the transposed cell |
| PushFold.IndexToStrInjective | src/push_fold.rs:55-79 | distinct indices have distinct names |
| PushFold.GetIndexNamesHand | src/push_fold.rs:80-93 | `index_to_str(get_index(c1, c2))` is the hand's display exactly when rank c1 ≥ rank c2 |
| PushFold.DisplayIsIndexName | src/push_fold.rs:286-296 | for i < j < 52, `Hand(i, j).to_string() == index_to_str(get_index(j, i))` |
| PushFold.HandIndex | src/push_fold.rs:80-93 | the higher-card-first index of two cards is below 169 |
| PushFold.HandIndexNamesHand | src/push_fold.rs:125-127 | the higher-card-first index always carries the hand's name and ignores card order |
| PushFold.AscendingIndexTransposed | src/push_fold.rs:125-127 | with the lower card first, `get_index` gives the transposed cell, which names the hand only for pairs |
| PushFold.AscendingIndexExample | src/push_fold.rs:125-127 | cards 0 and 4 (32s) get index 1, named "32o"; the intended index is 13, named "32s" |
| PushFold.CountPairProperties | src/push_fold.rs:102-105 | `count_matchup` adds exactly 2 to the sum, also when both indices are equal, and keeps a symmetric grid symmetric |
| PushFold.MatchupTable.Default | src/push_fold.rs:112-118 | all 169 × 169 counts start at zero |
| PushFold.MatchupTable.CountMatchup | src/push_fold.rs:102-105 | the counts become the old ones with (h1, h2) and (h2, h1) raised; sum + 2; symmetry kept |
| PushFold.MatchupTable.Sum | src/push_fold.rs:107-109 | `sum` is the total of all counts, row by row |
| PushFold.DealIndicesAsWritten | src/push_fold.rs:125-127 | the six indices the loop computes are in the grid |
| PushFold.DealIndicesAsWrittenTransposed | src/push_fold.rs:122-128 | on the ascending subsets the enumeration yields, every index the loop counts is the transpose of the hand's own |
| PushFold.DealIndices | src/push_fold.rs:125-127 | the three splits, indexed by the hand the cards form, are in the grid |
| PushFold.CountDealProperties | src/push_fold.rs:124-128 | counting the three splits of one subset, with either indexing, adds 6 to the sum and keeps a symmetric grid symmetric |
| PushFold.CountDealsProperties | src/push_fold.rs:122-129 | counting subsets cs, with either indexing, adds 6 · |cs| to the sum and keeps a symmetric grid symmetric |
| PushFold.CountDealAsWritten | src/push_fold.rs:124-128 | the loop body as written counts the three splits at `get_index` of the cards in the subset's order |
| PushFold.CountDeal | src/push_fold.rs:124-128 | the corrected loop body counts the three splits at the indices of the hands the cards form |
| PushFold.CountSubset | src/push_fold.rs:124-128 | one pass of the loop body, as written or corrected |
| PushFold.CountDealsStep | src/push_fold.rs:122-129 | counting one more subset extends the count of the subsets before it |
| PushFold.CountCombos | src/push_fold.rs:122-129 | the loop counts every subset in turn, as written or corrected |
| PushFold.CountedTable | src/push_fold.rs:121-129 | a fresh table that counted the subsets, with either indexing, is symmetric with sum 6 · |cs| |
| PushFold.TransposeInvolution | src/push_fold.rs:80-93 | transposing a cell twice gives it back |
| PushFold.CountPairRelabelled | src/push_fold.rs:102-105 | counting a pair at the transposed hands of another pair keeps one grid the relabelling of the other |
| PushFold.CountDealsRelabelled | src/push_fold.rs:122-129 | on ascending subsets, the table as written is the corrected table with every hand moved to its transposed cell |
| PushFold.ZeroRelabelled | src/push_fold.rs:112-118 | the zero grid of a fresh table is its own relabelling |
| PushFold.DeckCombosAscending | src/push_fold.rs:122 | the deck's 4-card subsets are C(52, 4) sets of four cards, each ascending |
| PushFold.BuildMatchupTable | src/push_fold.rs:121-129 | the table as written over the deck is symmetric and sums to 6 · C(52, 4), but it holds every hand's count in the corrected table's transposed cell |
| PushFold.BuildMatchupTableCorrected | src/push_fold.rs:121-129 | the corrected table over the deck is symmetric, sums to 6 · C(52, 4) and counts every split at the hands' own indices |
| PushFold.InfosetsP1Partition | src/push_fold.rs:173-175 | 169 blocks of 169 that list every state below 169² exactly once; state s is in block s / 169 |
| PushFold.InfosetsP2Partition | src/push_fold.rs:176-178 | the same partition, with state s in block s % 169 |
| Cfr.InfosetProbabilities | src/cfr.rs:56-63 | one mass per information set |
| Cfr.InfosetTotal | src/cfr.rs:56-63 | the masses add up to the reach summed over all listed states |
| Cfr.InfosetMass | src/cfr.rs:56-63 | when the information sets partition the states, the masses add up to the total reach |
| Cfr.InfosetProbabilitiesNonNegative | src/cfr.rs:56-63 | non-negative reach gives non-negative masses |
| Cfr.Guard | src/cfr.rs:82-85 | a guarded denominator is never zero |
| Cfr.InfosetEvs | src/cfr.rs:65-88 | one value per information set, always defined |
| Cfr.InfosetEvsMean | src/cfr.rs:65-88 | with values in [lo, hi] and non-negative reach, an infoset's value lies in [lo, hi] when its mass is positive and is 0 when its mass is 0 |
| Cfr.LastOwner | src/cfr.rs:39-52 | the owner of a state is the last information set listing it, or none if no set does |
| Cfr.ExpandedOf | src/cfr.rs:35-54 | the expanded strategy has a row per action and a column per state |
| Cfr.ExpandedColumn | src/cfr.rs:35-54 | with disjoint information sets, a state of infoset k gets column k of the strategy |
| Cfr.ExpandedUnlisted | src/cfr.rs:36-37 | a state in no information set gets a zero column |
| Cfr.ChildReachOf | src/cfr.rs:194-204 | one reach vector per child, each with one entry per state |
| Cfr.ChildReachColumn | src/cfr.rs:198-200 | the children's reach of state s is its reach times its expanded strategy column |
| Cfr.ChildReachConserved | src/cfr.rs:192-204 | when the owner's strategy column is a distribution, the children's reach of a state adds up to the parent's |
| Cfr.Clamp | src/cfr.rs:116-122 | one clamped entry per regret |
| Cfr.ClampedTotal | src/cfr.rs:124 | the total of the clamped regrets is never negative |
| Cfr.Uniform | src/cfr.rs:127-130 | the fallback column has one entry per action |
| Cfr.MatchColumn | src/cfr.rs:116-135 | one probability per action |
| Cfr.MatchColumnCases | src/cfr.rs:124-135 | a column with no positive regret becomes uniform 1 / n; otherwise it is (r⁺ + ε) / Σ(r⁺ + ε) |
| Cfr.UniformDistribution | src/cfr.rs:125-130 | the uniform column over n ≥ 1 actions is a distribution with positive entries |
| Cfr.NormalisedDistribution | src/cfr.rs:132-134 | (r⁺ + ε) normalised is a distribution with positive entries |
| Cfr.MatchColumnDistribution | src/cfr.rs:116-135 | every regret-matched column over at least one action is a distribution with positive entries |
| Cfr.RegretMatchOf | src/cfr.rs:109-139 | the matched matrix has the shape of the regrets |
| Cfr.RegretMatchDistribution | src/cfr.rs:109-139 | column k of `regret_match` is the matched column k of the regrets, and a distribution |
| Cfr.ActionEvsOf | src/cfr.rs:90-102 | a row per action and a column per information set |
| Cfr.RegretOf | src/cfr.rs:104-107 | a row per action and a column per information set |
| Cfr.RegretColumn | src/cfr.rs:104-107 | column k of the regret is the action values minus the node value, times the sign |
| Cfr.RegretExpectationZero | src/cfr.rs:104-107 | when the node value is the strategy's expectation of the action values, the strategy-weighted regret is zero |
| Cfr.RegretStep | src/cfr.rs:233-235 | the new regrets have the shape of the old |
| Cfr.AverageStep | src/cfr.rs:239-241 | the new average strategy has the shape of the old |
| Cfr.AverageColumn | src/cfr.rs:239-241 | an average column is the mix of the old average and the new strategy weighted by the accumulated and the current mass; with zero total weight it stays as it was |
| Cfr.AverageStepDistribution | src/cfr.rs:239-241 | averaging two distributions with non-negative masses gives a distribution |
| Cfr.EvOf | src/cfr.rs:213-227 | one value per state |
| Cfr.EvOfMean | src/cfr.rs:213-227 | when the children's reach of a state adds up to the node's, the new value lies between the children's payouts at a reached state and is 0 at an unreached one |
| CfrTree.ProbabilitiesOf | src/cfr.rs:175-177 | one reach vector per child |
| CfrTree.PayoutsOf | src/cfr.rs:179-181 | one payout vector per child |
| CfrTree.PayoutsOfStates | src/cfr.rs:179-181 | the `payouts()` of a node's children read off their states: one vector per child, over the node's states |
| CfrTree.ReachOfStates | src/cfr.rs:175-177 | the `state_probabilities()` of a node's children read off their states: one vector per child, over the node's states |
| CfrTree.ReachStep | src/cfr.rs:183-205 | `set_state_probabilities(p)` then `update_probabilities` on a subtree state: the subtree keeps every node's shapes and now holds the reach p |
| CfrTree.EvStep | src/cfr.rs:207-228 | `update_ev` on a subtree state keeps every node's shapes and its reach |
| CfrTree.StrategyStep | src/cfr.rs:230-250 | `update_strategy` on a subtree state keeps every node's shapes, its reach and its payouts |
| CfrTree.ReachStepReached | src/cfr.rs:187-205 | after the reach step every child, all the way down, holds its parent's reach times its expanded strategy row; strategy columns that were distributions stay so |
| CfrTree.EvStepComputed | src/cfr.rs:207-228 | after the value step every action node's values are its children's reach-weighted payouts over its guarded reach, all the way down; a propagated reach and distributions are kept |
| CfrTree.StrategyStepMixed | src/cfr.rs:230-250 | after the strategy step every strategy column of every action node with an action is a distribution; values that were computed stay computed |
| CfrTree.ReachStepIgnoresReach | src/cfr.rs:183-205 | the reach step does not depend on the reach a node held before, which `set_state_probabilities` overwrites |
| CfrTree.StepChildrenAgree | src/cfr.rs:230-250 | the children's half of the strategy step depends only on the children, so updating the node's own fields first does not change it |
| CfrTree.ChildSnapshot | src/cfr.rs:175-181 | a child's state is well formed over the node's states and has the child's reach and payouts; it is terminal exactly for a terminal child |
| CfrTree.TerminalNode.constructor | src/cfr.rs:275-280 | a terminal node holds its name, reach and payouts |
| CfrTree.TerminalNode.Strategy | src/cfr.rs:311-314 | a terminal node has no strategy |
| CfrTree.TerminalNode.AvgStrategy | src/cfr.rs:316-319 | a terminal node has no average strategy |
| CfrTree.TerminalNode.Children | src/cfr.rs:321-324 | a terminal node has no children |
| CfrTree.TerminalNode.SetStateProbabilities | src/cfr.rs:295-297 | the reach is replaced; name and payouts stay |
| CfrTree.TerminalNode.UpdateProbabilities | src/cfr.rs:299-301 | the node is left unchanged |
| CfrTree.TerminalNode.UpdateEv | src/cfr.rs:303-305 | the node is left unchanged |
| CfrTree.TerminalNode.UpdateStrategy | src/cfr.rs:307-309 | the node is left unchanged |
| CfrTree.ActionNode.constructor | src/cfr.rs:19-32 | an action node holds exactly the given fields; it is well formed and owns itself and its children's disjoint footprints |
| CfrTree.ActionNode.ChildShapes | src/cfr.rs:175-181 | every child's reach and payouts have one entry per state of the node |
| CfrTree.ActionNode.Snapshot | src/cfr.rs:19-32 | the node's fields and its children's, all the way down, form a well-formed action state |
| CfrTree.ActionNode.ChildSnapshots | src/cfr.rs:29 | one state per child, the child's own |
| CfrTree.ActionNode.ChildSnapshotsShow | src/cfr.rs:175-181 | the reach and payouts read off the children's states are what the children's `state_probabilities()` and `payouts()` return |
| CfrTree.ActionNode.Strategy | src/cfr.rs:252-254 | an action node returns its strategy |
| CfrTree.ActionNode.AvgStrategy | src/cfr.rs:256-258 | an action node returns its average strategy |
| CfrTree.ActionNode.Children | src/cfr.rs:260-262 | an action node returns its children |
| CfrTree.ActionNode.ExpandStrategy | src/cfr.rs:35-54 | the column-by-column assignment builds the expanded strategy, with the last owner's column for every listed state |
| CfrTree.ActionNode.ActionEvs | src/cfr.rs:90-102 | row a is the infoset values of child a's payouts weighted by child a's reach |
| CfrTree.ActionNode.CurrentRegret | src/cfr.rs:104-107 | the action values minus the node's infoset values, times the sign |
| CfrTree.ActionNode.SetStateProbabilities | src/cfr.rs:183-185 | only the reach changes; for a reach of the same length the node stays well formed and the children's states stay |
| CfrTree.ActionNode.SetTotalProbabilities | src/cfr.rs:188-190 | only the accumulated mass changes |
| CfrTree.ActionNode.SetRegrets | src/cfr.rs:233-235 | only the regrets change |
| CfrTree.ActionNode.UpdateProbabilities | src/cfr.rs:187-205 | the subtree's new state is the reach step of its old state with its own reach: the mass is set from the reach only when it sums to 0, and every child, all the way down, gets the parent's reach times its expanded strategy row; strategy columns that were distributions stay so |
| CfrTree.ActionNode.InitTotalProbabilities | src/cfr.rs:188-190 | the accumulated mass becomes the infoset masses of the reach exactly when it sums to 0; nothing else changes |
| CfrTree.ActionNode.ReceiveReach | src/cfr.rs:197-202 | a child action node that is handed a row and updates ends in the reach step of its old state with that row |
| CfrTree.ActionNode.PropagateReach | src/cfr.rs:194-204 | after the loop over the children, their states are the children of the reach step of the node's old state |
| CfrTree.ActionNode.PropagateTo | src/cfr.rs:197-202 | child a ends in the reach step of its old state with its row; the other children keep their states |
| CfrTree.ActionNode.PropagateToNode | src/cfr.rs:197-202 | the same step for a child that is an action node |
| CfrTree.ActionNode.UpdateEv | src/cfr.rs:207-228 | the subtree's new state is the value step of its old state: children first, then the node's values are the children's reach-weighted payouts over its guarded reach, all the way down; reach and strategies kept |
| CfrTree.ActionNode.SetEvs | src/cfr.rs:215-227 | only the node's own values change; the children's states stay |
| CfrTree.ActionNode.UpdateChildrenEv | src/cfr.rs:208-211 | the children's states become the children of the value step of the node's old state |
| CfrTree.ActionNode.UpdateEvAt | src/cfr.rs:210 | child a ends in the value step of its old state; every other child keeps its state |
| CfrTree.ActionNode.UpdateEvAtNode | src/cfr.rs:210 | the same step for a child that is an action node |
| CfrTree.ActionNode.UpdateStrategy | src/cfr.rs:230-250 | the subtree's new state is the strategy step of its old state; afterwards every strategy column below is a distribution, and computed values stay computed |
| CfrTree.ActionNode.UpdateOwnStrategy | src/cfr.rs:231-244 | the regrets become (R + r · m) · t / (t + 1) from the children's current payouts and reach; the strategy is their regret match; the average mixes old and new by mass; the mass grows by m; the count goes up by 1; the children are untouched |
| CfrTree.ActionNode.UpdateRegrets | src/cfr.rs:231-235 | only the regrets change, to (R + r · m) · t / (t + 1) |
| CfrTree.ActionNode.SetStrategies | src/cfr.rs:237-244 | the strategy, average, mass and count are replaced, nothing else |
| CfrTree.ActionNode.UpdateChildrenStrategy | src/cfr.rs:246-249 | the children's states become the children of the strategy step of the node's old state |
| CfrTree.ActionNode.UpdateStrategyAt | src/cfr.rs:248 | child a ends in the strategy step of its old state; every other child keeps its state |
| CfrTree.ActionNode.UpdateStrategyAtNode | src/cfr.rs:248 | the same step for a child that is an action node |
| CfrTree.ActionNode.RegretMatch | src/cfr.rs:109-139 | the column-by-column assignment builds the regret-matched matrix |
| CfrTree.UpdateTree | src/cfr.rs:362-391 | the test tree: a well-formed root over three states with three terminal children, one infoset per state, reach 1/3 each, zero accumulated mass and count 1 |
| CfrTree.IterationTotals | src/cfr.rs:394-400 | one iteration from that tree's state leaves accumulated mass 2/3 in every infoset and count 2 |
| CfrTree.UpdateTreeExample | src/cfr.rs:361-408 | after the test's iteration the tree is well formed with count 2 and mass 2/3 per infoset, the children hold the propagated reach, and every strategy column is a distribution |

## Left out

- The `main` functions: the stdin game loop of tic-tac-toe, argument parsing and printing, and the file output of the matchup tables. They are input and output.
- The equities: `build_matchup_equities`, the poker library's `exact_equity`, `HandRange` and `get_card_mask`, the equity matrix of `build_push_fold_tree`, and its payout arrays. That code is a foreign library or floating-point arithmetic over its results.
- The tree literal of `build_push_fold_tree` and the state probabilities it divides out of the counts. Only the counting and the information sets are modelled.
- `RANK_TO_CHAR` belongs to the poker library. It is taken to be "23456789TJQKA".
- `src/icm.rs` and `src/kuhn.rs`: floating-point place probabilities and a fixed tree with a driver loop.
- `Display` implementations other than the one for `Hand`, and node names, which only serve printing.
- IEEE-754 arithmetic. `f64` is `real`, so there is no rounding and no NaN. The exact `== 0.` tests are tests on reals.
- Cfr.AverageStep: in the source a column whose accumulated and current masses add up to zero divides by zero: 0/0 gives NaN, and with negative masses a non-zero numerator gives an infinity. The model keeps the old average whenever the two masses add up to zero.
- Integer widths. `u8`, `u32`, `u64`, `usize` and `i8` are `nat` or `int`, so `iter_count` and the `u64` counters cannot overflow. `factorial` overflows `usize` for large inputs, and the model is exact there.
- `rayon`'s `par_iter_mut` over independent children is a sequential loop.
- ndarray shape mismatches and out-of-range indices, which panic in the source, are preconditions. Cards are below 52.
- `OnceLock` lazy hash maps are the function `TableIndex` over the constant tables.
- CfrTree.ActionNode.PropagateReach computes every child's reach row before the loop. The source computes each in the loop body from the same unchanged values.
- CfrTree.UpdateTreeExample: the test at src/cfr.rs:361-408 only prints the node after its iteration. The model states the count, the accumulated mass and the three invariants after it, not the numeric values, regrets and strategies printed.
- TicTacToeSolver.SolutionTable.Build: does not state the root value 0 asserted at src/tictactoe.rs:456. That would need the verifier to unfold the whole game tree.
- TicTacToeSolver.SolutionTable.EvaluateRecursive: the value equals the game value only for sane boards. On a board where both players hold a line, `winner` depends on the order it checks lines in, and symmetric images may disagree. No play from the empty board reaches such a board (`ActSane`).
- Preflop and push/fold tables are written as concatenations of rows of the grid, not as 169 string literals.
- `choose` with k > n and `enumerate_combos` with k = 0 or k > |items| + 1 panic on a `usize` subtraction or a slice bound in the source. These cases are preconditions.
- Utils.EnumerateCombos: for k = |items| + 1 the source's `items.len() - k` underflows. A debug build panics there. A release build wraps back to an empty slice and returns no combinations. The model returns the empty result of the release build.

## Findings

| source | as written | input that shows it | evidently intended | confidence | as-written member | corrected member |
|---|---|---|---|---|---|---|
| src/push_fold.rs:125-127 | the counting loop calls `get_index(x[i], x[j])` with x[i] < x[j], because the subsets come out ascending. Every non-pair hand then lands in the transposed cell, so suited hands are counted under offsuit names and offsuit hands under suited ones. The equities at lines 131-162 use the `index_to_str` names, so counts and equities disagree | cards 0 and 4 (2 and 3 of one suit, "32s") give `get_index(0, 4) == 1`, which `index_to_str` names "32o" (PushFold.AscendingIndexExample); over the whole deck the table as written is the corrected one transposed (PushFold.CountDealsRelabelled) | the index of the hand with the higher card first, as the test at lines 286-296 uses it, so every count sits under the hand's own name | not executed | PushFold.BuildMatchupTable | PushFold.BuildMatchupTableCorrected |
