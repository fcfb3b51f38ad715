/**
 * The tic-tac-toe solver: the game value under optimal play (`Minimax`, the reference
 * definition), its invariance under the symmetries of the square, and the memo table that
 * `evaluate_recursive` fills keyed by the canonical hash.
 */
module TicTacToeSolver {
  import opened Wrappers
  import opened TicTacToe

  predicate AllEmpty(b: Board, es: seq<nat>)
  {
    forall j :: 0 <= j < |es| ==> es[j] < 9 && b[es[j]] == Empty
  }

  /**
   * The value of b with both players playing perfectly: 1 when X wins, -1 when O wins, 0 for a
   * full board without a winner; otherwise the best child value for the player to move, X
   * maximising and O minimising.
   */
  function Minimax(b: Board): (v: int)
    ensures -1 <= v <= 1
    decreases |Empties(b)|, 1
  {
    var w := Winner(b);
    if w == X then 1
    else if w == O then -1
    else if |Empties(b)| == 0 then 0
    else Extremum(b, Empties(b))
  }

  /** The best value, for the player to move on b, among the moves es. */
  function Extremum(b: Board, es: seq<nat>): (v: int)
    requires |es| > 0 && AllEmpty(b, es)
    ensures -1 <= v <= 1
    decreases |Empties(b)|, 0, |es|
  {
    ActEmpties(b, es[0]);
    var first := Minimax(Act(b, es[0]));
    if |es| == 1 then first
    else
      var rest := Extremum(b, es[1..]);
      if Turn(b) == X then (if first >= rest then first else rest)
      else (if first <= rest then first else rest)
  }

  /** Extremum is attained by one of the moves and is the best of them for the player to move. */
  lemma {:induction false} ExtremumBest(b: Board, es: seq<nat>) returns (j: nat)
    requires |es| > 0 && AllEmpty(b, es)
    ensures j < |es| && Extremum(b, es) == Minimax(Act(b, es[j]))
    ensures forall m :: 0 <= m < |es| && Turn(b) == X ==> Minimax(Act(b, es[m])) <= Extremum(b, es)
    ensures forall m :: 0 <= m < |es| && Turn(b) == O ==> Minimax(Act(b, es[m])) >= Extremum(b, es)
    decreases |es|
  {
    if |es| == 1 {
      j := 0;
    } else {
      var tail := es[1..];
      var jr := ExtremumBest(b, tail);
      assert forall m :: 1 <= m < |es| ==> es[m] == tail[m - 1];
      if Extremum(b, es) == Minimax(Act(b, es[0])) {
        j := 0;
      } else {
        j := jr + 1;
      }
    }
  }

  /** Sequences with the same elements have the same largest and least elements. */
  lemma SameElementsExtrema(vs: seq<int>, ws: seq<int>)
    requires |vs| > 0 && |ws| > 0
    requires forall x :: x in vs ==> x in ws
    requires forall x :: x in ws ==> x in vs
    ensures SeqMax(vs) == SeqMax(ws) && Min(vs) == Min(ws)
  {
  }

  /** The values of the moves es on b, in order. */
  function ChildValues(b: Board, es: seq<nat>): (vs: seq<int>)
    requires AllEmpty(b, es)
    ensures |vs| == |es| && forall m :: 0 <= m < |es| ==> vs[m] == Minimax(Act(b, es[m]))
  {
    seq(|es|, m requires 0 <= m < |es| => Minimax(Act(b, es[m])))
  }

  /** Moving on a symmetric image is the symmetric image of the corresponding move. */
  lemma ActPermute(b: Board, k: nat, i: nat)
    requires k < 8 && i < 9
    ensures Symmetry(k)[i] < 9
    ensures Act(Permute(b, Symmetry(k)), i) == Permute(Act(b, Symmetry(k)[i]), Symmetry(k))
  {
    var g := Symmetry(k);
    var c := Permute(b, g);
    SymmetryPreservesPlay(b, k);
    PermuteIndex(b, g);
    PermuteIndex(Act(b, g[i]), g);
    var lhs, rhs := Act(c, i), Permute(Act(b, g[i]), g);
    forall j | 0 <= j < 9 ensures lhs[j] == rhs[j] {
      if j != i {
        InverseAt(k, i);
        InverseAt(k, j);
      }
    }
  }

  /** The value of a sane board is the value of each of its eight symmetric images. */
  lemma {:induction false} MinimaxSymmetric(b: Board, k: nat)
    requires k < 8 && Sane(b)
    ensures Minimax(Permute(b, Symmetry(k))) == Minimax(b)
    decreases |Empties(b)|, 1
  {
    var g := Symmetry(k);
    var c := Permute(b, g);
    SymmetryPreservesPlay(b, k);
    if Winner(b) == Empty && |Empties(b)| > 0 {
      var eb, ec := Empties(b), Empties(c);
      var vb, vc := ChildValues(b, eb), ChildValues(c, ec);
      forall j | 0 <= j < |ec| ensures vc[j] in vb {
        ChildImage(b, k, ec[j]);
        var m :| 0 <= m < |eb| && eb[m] == g[ec[j]];
        assert vc[j] == vb[m];
      }
      forall m | 0 <= m < |eb| ensures vb[m] in vc {
        var i := ChildPreimage(b, k, eb[m]);
        var j :| 0 <= j < |ec| && ec[j] == i;
        assert vb[m] == vc[j];
      }
      SameElementsExtrema(vb, vc);
      ExtremumOfValues(b, eb, vb);
      ExtremumOfValues(c, ec, vc);
    }
  }

  /** A move on b has the value of the corresponding move on the image of b. */
  lemma {:induction false} ChildPreimage(b: Board, k: nat, x: nat) returns (i: nat)
    requires k < 8 && x < 9 && Sane(b) && Winner(b) == Empty && b[x] == Empty
    ensures i < 9 && Permute(b, Symmetry(k))[i] == Empty
    ensures Minimax(Act(Permute(b, Symmetry(k)), i)) == Minimax(Act(b, x))
    decreases |Empties(b)|, 0
  {
    var g := Symmetry(k);
    InverseAt(k, x);
    i := Symmetry(INVERSE[k])[x];
    PermuteIndex(b, g);
    ActPermute(b, k, i);
    ActEmpties(b, x);
    ActSane(b, x);
    MinimaxSymmetric(Act(b, x), k);
  }

  /** A move on the image of b has the value of the corresponding move on b. */
  lemma {:induction false} ChildImage(b: Board, k: nat, i: nat)
    requires k < 8 && i < 9 && Sane(b) && Winner(b) == Empty
    requires Permute(b, Symmetry(k))[i] == Empty
    ensures Symmetry(k)[i] < 9 && b[Symmetry(k)[i]] == Empty
    ensures Minimax(Act(Permute(b, Symmetry(k)), i)) == Minimax(Act(b, Symmetry(k)[i]))
    decreases |Empties(b)|, 0
  {
    var g := Symmetry(k);
    var x := g[i];
    PermuteIndex(b, g);
    ActPermute(b, k, i);
    ActEmpties(b, x);
    ActSane(b, x);
    MinimaxSymmetric(Act(b, x), k);
  }

  /**
   * Boards with the same canonical hash are symmetric images of each other, so a sane one
   * shares its sanity and its value with every other: the soundness of memoising on
   * `invariant_hash`.
   */
  lemma CanonicalSound(s: Board, t: Board)
    requires CanonicalHash(s) == CanonicalHash(t) && Sane(s)
    ensures Sane(t) && Minimax(s) == Minimax(t)
  {
    var ks := CanonicalHashIsImage(s);
    var kt := CanonicalHashIsImage(t);
    HashInjective(Permute(s, Symmetry(ks)), Permute(t, Symmetry(kt)));
    SymmetryPreservesPlay(s, ks);
    SymmetryPreservesPlay(t, kt);
    MinimaxSymmetric(s, ks);
    MinimaxSymmetric(t, kt);
  }

  /** What a table entry means: every sane board whose canonical hash is the key has the entry as its value. */
  ghost predicate Describes(key: nat, value: int)
  {
    forall b: Board :: CanonicalHash(b) == key && Sane(b) ==> value == Minimax(b)
  }

  /** Storing the value of a board under its canonical hash is a faithful entry. */
  lemma StoreSound(board: Board, value: int)
    requires Sane(board) ==> value == Minimax(board)
    ensures Describes(CanonicalHash(board), value)
  {
    forall b: Board | CanonicalHash(b) == CanonicalHash(board) && Sane(b)
      ensures value == Minimax(b)
    {
      CanonicalSound(b, board);
    }
  }

  /** A faithful entry under a canonical hash is the value of every sane board with that hash. */
  lemma EntryMeaning(key: nat, value: int, b: Board)
    requires Describes(key, value) && Sane(b) && CanonicalHash(b) == key
    ensures value == Minimax(b)
  {
  }

  /** The largest element (Rust's `Iterator::max`). */
  function SeqMax(s: seq<int>): (m: int)
    requires |s| > 0
    ensures m in s && forall x :: x in s ==> x <= m
  {
    if |s| == 1 then s[0]
    else
      var rest := SeqMax(s[1..]);
      assert forall x :: x in s ==> x == s[0] || x in s[1..];
      if s[0] >= rest then s[0] else rest
  }

  /** The max or min of the children's values is the extremum of the moves. */
  lemma ExtremumOfValues(b: Board, es: seq<nat>, vs: seq<int>)
    requires |es| > 0 && AllEmpty(b, es) && |vs| == |es|
    requires forall m :: 0 <= m < |es| ==> vs[m] == Minimax(Act(b, es[m]))
    ensures Turn(b) == X ==> SeqMax(vs) == Extremum(b, es)
    ensures Turn(b) == O ==> Min(vs) == Extremum(b, es)
  {
    var j := ExtremumBest(b, es);
    assert vs[j] in vs;
  }

  /** vs holds the values of the first |vs| moves of es. */
  ghost predicate Solved(b: Board, es: seq<nat>, vs: seq<int>)
    requires |vs| <= |es|
    decreases |vs|
  {
    |vs| == 0 ||
    (es[|vs| - 1] < 9 && vs[|vs| - 1] == Minimax(Act(b, es[|vs| - 1])) && Solved(b, es, vs[..|vs| - 1]))
  }

  lemma SolvedExtend(b: Board, es: seq<nat>, vs: seq<int>, v: int)
    requires |vs| < |es| && es[|vs|] < 9
    requires Solved(b, es, vs) && v == Minimax(Act(b, es[|vs|]))
    ensures Solved(b, es, vs + [v])
  {
    assert (vs + [v])[..|vs|] == vs;
  }

  lemma {:induction false} SolvedAll(b: Board, es: seq<nat>, vs: seq<int>)
    requires |vs| <= |es| && Solved(b, es, vs)
    ensures forall m :: 0 <= m < |vs| ==> es[m] < 9 && vs[m] == Minimax(Act(b, es[m]))
    decreases |vs|
  {
    if |vs| > 0 {
      var front := vs[..|vs| - 1];
      SolvedAll(b, es, front);
      assert forall m :: 0 <= m < |front| ==> vs[m] == front[m];
    }
  }

  /** On a sane board without a winner, the max or min of the children's values is its value. */
  lemma SolvedValue(b: Board, vs: seq<int>)
    requires |Empties(b)| > 0 && Winner(b) == Empty && |vs| == |Empties(b)| && Solved(b, Empties(b), vs)
    ensures (if Turn(b) == X then SeqMax(vs) else Min(vs)) == Minimax(b)
  {
    SolvedAll(b, Empties(b), vs);
    assert AllEmpty(b, Empties(b));
    ExtremumOfValues(b, Empties(b), vs);
  }

  /**
   * The table t holds, for every sane undecided board whose canonical hash it holds, the
   * canonical hash of every move from it: the search never stops short of a stored board's
   * children.
   */
  ghost predicate ClosedUnder(t: map<nat, int>)
  {
    forall b: Board, i: nat :: Closes(t, b, i)
  }

  /** If b is a sane undecided board held by t and tile i is empty, t holds the move there. */
  ghost predicate Closes(t: map<nat, int>, b: Board, i: nat)
  {
    Sane(b) && CanonicalHash(b) in t && Winner(b) == Empty && i < 9 && b[i] == Empty ==> CanonicalHash(Act(b, i)) in t
  }

  /**
   * Sane boards with one canonical hash are images of each other, so every move from one of
   * them has the canonical hash of a move from the other.
   */
  lemma SiblingChild(b: Board, c: Board, i: nat) returns (x: nat)
    requires CanonicalHash(b) == CanonicalHash(c) && Sane(b) && Winner(b) == Empty && i < 9 && b[i] == Empty
    ensures x < 9 && Sane(c) && Winner(c) == Empty && c[x] == Empty
    ensures CanonicalHash(Act(c, x)) == CanonicalHash(Act(b, i))
  {
    var kb := CanonicalHashIsImage(b);
    var kc := CanonicalHashIsImage(c);
    var gb, gc := Symmetry(kb), Symmetry(kc);
    HashInjective(Permute(b, gb), Permute(c, gc));
    CanonicalSound(b, c);
    SymmetryPreservesPlay(b, kb);
    SymmetryPreservesPlay(c, kc);
    InverseAt(kb, i);
    var j := Symmetry(INVERSE[kb])[i];
    x := gc[j];
    PermuteIndex(b, gb);
    PermuteIndex(c, gc);
    ActPermute(b, kb, j);
    ActPermute(c, kc, j);
    CanonicalHashInvariant(Act(b, i), kb);
    CanonicalHashInvariant(Act(c, x), kc);
  }

  /** The first board of the solution-table test: X holds the top row. */
  const WON_BOARD: Board := [X, X, X, O, O, Empty, Empty, Empty, Empty]

  /** The second board of the solution-table test: X to move, and tile 1 wins. */
  const WINNING_BOARD: Board := [X, Empty, X, O, O, Empty, Empty, Empty, Empty]

  /**
   * Both test boards are reached from the empty board by moves (X at 0, O at 3, X at 2, O at 4,
   * then X at 1) through sane undecided boards, so a closed table holding the empty board's
   * hash holds theirs.
   */
  lemma TestBoardsReached(t: map<nat, int>, b0: Board, winning: Board, won: Board)
    requires ClosedUnder(t) && b0 == EMPTY_BOARD && winning == WINNING_BOARD && won == WON_BOARD
    requires CanonicalHash(b0) in t
    ensures CanonicalHash(winning) in t && CanonicalHash(won) in t
  {
    var b1, b2, b3, b4 := OpeningLine(b0);
    var c1 := ReachedMove(t, b0, 0);
    var c2 := ReachedMove(t, b1, 3);
    var c3 := ReachedMove(t, b2, 2);
    var c4 := ReachedMove(t, b3, 4);
    var c5 := ReachedMove(t, b4, 1);
  }

  /** The boards of that line of play, each sane and undecided, with the move played on each empty. */
  lemma OpeningLine(b0: Board) returns (b1: Board, b2: Board, b3: Board, b4: Board)
    requires b0 == EMPTY_BOARD
    ensures Sane(b0) && Winner(b0) == Empty && b0[0] == Empty && b1 == Act(b0, 0)
    ensures Sane(b1) && Winner(b1) == Empty && b1[3] == Empty && b2 == Act(b1, 3)
    ensures Sane(b2) && Winner(b2) == Empty && b2[2] == Empty && b3 == Act(b2, 2)
    ensures Sane(b3) && Winner(b3) == Empty && b3[4] == Empty && b4 == Act(b3, 4)
    ensures Sane(b4) && Winner(b4) == Empty && b4[1] == Empty && b4 == WINNING_BOARD && Act(b4, 1) == WON_BOARD
  {
    EmptiesTally(b0);
    assert Tally(b0, Empty) == 9 && Turn(b0) == X;
    if HasLine(b0, X) {
      LineTally(b0, X);
    }
    b1 := Act(b0, 0);
    ActEmpties(b0, 0);
    ActSane(b0, 0);
    b2 := Act(b1, 3);
    ActEmpties(b1, 3);
    ActSane(b1, 3);
    b3 := Act(b2, 2);
    ActEmpties(b2, 2);
    ActSane(b2, 2);
    b4 := Act(b3, 4);
    ActEmpties(b3, 4);
    ActSane(b3, 4);
    assert Turn(b1) == O && Turn(b2) == X && Turn(b3) == O && Turn(b4) == X;
    assert b4 == WINNING_BOARD;
    WinningBoardUndecided();
  }

  /** A faithful table holding the two test boards stores the value 1 for both: X wins each. */
  lemma TestBoardValues(t: map<nat, int>, winning: Board, won: Board)
    requires forall key :: key in t ==> Describes(key, t[key])
    requires winning == WINNING_BOARD && won == WON_BOARD
    requires CanonicalHash(winning) in t && CanonicalHash(won) in t
    ensures t[CanonicalHash(winning)] == 1 && t[CanonicalHash(won)] == 1
  {
    assert Tally(won, O) == 2 && Tally(winning, O) == 2;
    if HasLine(won, O) {
      LineTally(won, O);
    }
    if HasLine(winning, O) {
      LineTally(winning, O);
    }
    WonBoard();
    WinningBoard();
    EntryMeaning(CanonicalHash(won), t[CanonicalHash(won)], won);
    EntryMeaning(CanonicalHash(winning), t[CanonicalHash(winning)], winning);
  }

  /** A closed table holding a sane undecided board holds each move from it. */
  lemma ReachedMove(t: map<nat, int>, b: Board, i: nat) returns (c: Board)
    requires ClosedUnder(t) && CanonicalHash(b) in t && Sane(b) && Winner(b) == Empty && i < 9 && b[i] == Empty
    ensures c == Act(b, i) && CanonicalHash(c) in t
  {
    assert Closes(t, b, i);
    c := Act(b, i);
  }

  /** Nobody has a line yet on the board before X's winning move. */
  lemma WinningBoardUndecided()
    ensures Winner(WINNING_BOARD) == Empty
  {
    var b := WINNING_BOARD;
    EmptiesTally(b);
    assert Winner(b) == Empty;
  }

  /** keys holds the canonical hash of the move on tile e of board. */
  ghost predicate MoveStored(keys: set<nat>, board: Board, e: nat)
  {
    e < 9 && CanonicalHash(Act(board, e)) in keys
  }

  /** keys holds the canonical hash of every move from board. */
  ghost predicate MovesIn(keys: set<nat>, board: Board)
  {
    forall i :: 0 <= i < 9 && board[i] == Empty ==> MoveStored(keys, board, i)
  }

  /** t holds the canonical hash of every move from board, when board is sane and undecided. */
  ghost predicate ChildrenIn(t: map<nat, int>, board: Board)
  {
    Sane(board) && Winner(board) == Empty ==> MovesIn(t.Keys, board)
  }

  /** keys holds the canonical hash of the moves on the first n tiles of es. */
  ghost predicate StoredPrefix(keys: set<nat>, board: Board, es: seq<nat>, n: nat)
  {
    forall m {:trigger MoveStored(keys, board, es[m])} :: 0 <= m < n && m < |es| ==> MoveStored(keys, board, es[m])
  }

  /** Adding the hash of the move on tile es[n] extends a stored prefix by one move. */
  lemma StoredPrefixExtend(keys: set<nat>, board: Board, es: seq<nat>, n: nat) returns (more: set<nat>)
    requires n < |es| && es[n] < 9 && StoredPrefix(keys, board, es, n)
    ensures more == keys + {CanonicalHash(Act(board, es[n]))}
    ensures StoredPrefix(more, board, es, n + 1)
  {
    more := keys + {CanonicalHash(Act(board, es[n]))};
    forall m | 0 <= m < n + 1 && m < |es|
      ensures MoveStored(more, board, es[m])
    {
      if m < n {
        assert MoveStored(keys, board, es[m]);
      }
    }
  }

  /** Keys gathered for every empty tile, in the order of the empty tiles, cover every move. */
  lemma CoverMoves(keys: set<nat>, t: map<nat, int>, board: Board, es: seq<nat>)
    requires es == Empties(board) && keys <= t.Keys
    requires StoredPrefix(keys, board, es, |es|)
    ensures MovesIn(t.Keys, board)
  {
    forall i | 0 <= i < 9 && board[i] == Empty
      ensures MoveStored(t.Keys, board, i)
    {
      var m :| 0 <= m < |es| && es[m] == i;
      assert MoveStored(keys, board, es[m]);
    }
  }

  /** Storing a board whose moves are all held keeps the table closed. */
  lemma StoreClosed(t: map<nat, int>, board: Board, value: int)
    requires ClosedUnder(t) && ChildrenIn(t, board)
    ensures ClosedUnder(t[CanonicalHash(board) := value])
  {
    var hash := CanonicalHash(board);
    var u := t[hash := value];
    forall b: Board, i: nat
      ensures Closes(u, b, i)
    {
      if Sane(b) && CanonicalHash(b) in u && Winner(b) == Empty && i < 9 && b[i] == Empty {
        if CanonicalHash(b) == hash {
          var x := SiblingChild(b, board, i);
          assert MoveStored(t.Keys, board, x);
        } else {
          assert Closes(t, b, i);
        }
      }
    }
  }

  class SolutionTable {
    var valueTable: map<nat, int>

    /**
     * Every stored value lies in {-1, 0, 1} and is the value of the sane boards its key stands
     * for; and the table is closed under moves from the sane undecided boards it holds.
     */
    ghost predicate Consistent()
      reads this
    {
      && (forall key :: key in valueTable ==> -1 <= valueTable[key] <= 1 && Describes(key, valueTable[key]))
      && ClosedUnder(valueTable)
    }

    /** `SolutionTable::default`: an empty table. */
    constructor Default()
      ensures valueTable == map[] && Consistent()
    {
      valueTable := map[];
    }

    /** `SolutionTable::build`: evaluate the whole game from the empty board. */
    constructor Build()
      ensures Consistent()
      ensures CanonicalHash(EMPTY_BOARD) in valueTable
      ensures CanonicalHash(WON_BOARD) in valueTable && valueTable[CanonicalHash(WON_BOARD)] == 1
      ensures CanonicalHash(WINNING_BOARD) in valueTable && valueTable[CanonicalHash(WINNING_BOARD)] == 1
    {
      valueTable := map[];
      new;
      var empty, won, winning := EMPTY_BOARD, WON_BOARD, WINNING_BOARD;
      var rootValue := EvaluateRecursive(empty);
      TestBoardsReached(valueTable, empty, winning, won);
      TestBoardValues(valueTable, winning, won);
    }

    /**
     * `SolutionTable::evaluate_recursive`: the memoised game value. A stored entry is returned
     * as it is; otherwise the value is computed (terminal boards directly, other boards from
     * their children) and stored under the canonical hash.
     */
    method EvaluateRecursive(board: Board) returns (value: int)
      requires Consistent()
      modifies this
      ensures Consistent()
      ensures -1 <= value <= 1
      ensures Sane(board) ==> value == Minimax(board)
      ensures CanonicalHash(board) in valueTable && valueTable[CanonicalHash(board)] == value
      ensures forall key :: key in old(valueTable) ==> key in valueTable && valueTable[key] == old(valueTable)[key]
      ensures old(valueTable).Keys <= valueTable.Keys
      decreases |Empties(board)|, 1
    {
      var hash := InvariantHash(board);
      if hash in valueTable {
        value := valueTable[hash];
        if Sane(board) {
          EntryMeaning(hash, value, board);
        }
        return;
      }
      var w := Winner(board);
      if w == X {
        value := 1;
        Store(board, hash, value);
        return;
      } else if w == O {
        value := -1;
        Store(board, hash, value);
        return;
      } else if |Empties(board)| == 0 {
        value := 0;
        Store(board, hash, value);
        return;
      }

      var childValues := EvaluateChildren(board);
      value := if Turn(board) == X then SeqMax(childValues) else Min(childValues);
      if Sane(board) {
        SolvedValue(board, childValues);
      }
      Store(board, hash, value);
    }

    /** The `insert` into the table: value becomes the entry under the canonical hash of board. */
    method Store(board: Board, hash: nat, value: int)
      requires Consistent() && hash == CanonicalHash(board)
      requires -1 <= value <= 1 && (Sane(board) ==> value == Minimax(board))
      requires ChildrenIn(valueTable, board)
      modifies this
      ensures valueTable == old(valueTable)[hash := value]
      ensures Consistent()
    {
      StoreSound(board, value);
      StoreClosed(valueTable, board, value);
      valueTable := valueTable[hash := value];
    }

    /** The loop of `evaluate_recursive` over the moves: the value of every child, in order. */
    method EvaluateChildren(board: Board) returns (childValues: seq<int>)
      requires Consistent()
      modifies this
      ensures Consistent()
      ensures |childValues| == |Empties(board)|
      ensures forall m :: 0 <= m < |childValues| ==> -1 <= childValues[m] <= 1
      ensures Sane(board) && Winner(board) == Empty ==> Solved(board, Empties(board), childValues)
      ensures forall key :: key in old(valueTable) ==> key in valueTable && valueTable[key] == old(valueTable)[key]
      ensures MovesIn(valueTable.Keys, board)
      decreases |Empties(board)|, 0
    {
      var es := Empties(board);
      var solving := Sane(board) && Winner(board) == Empty;
      childValues := [];
      ghost var keys: set<nat> := {};
      while |childValues| < |es|
        invariant |childValues| <= |es|
        invariant Consistent()
        invariant forall key :: key in old(valueTable) ==> key in valueTable && valueTable[key] == old(valueTable)[key]
        invariant forall m :: 0 <= m < |childValues| ==> -1 <= childValues[m] <= 1
        invariant solving ==> Solved(board, es, childValues)
        invariant keys <= valueTable.Keys
        invariant StoredPrefix(keys, board, es, |childValues|)
        decreases |es| - |childValues|
      {
        var e := es[|childValues|];
        ActEmpties(board, e);
        if solving {
          ActSane(board, e);
        }
        var v := EvaluateRecursive(Act(board, e));
        if solving {
          SolvedExtend(board, es, childValues, v);
        }
        keys := StoredPrefixExtend(keys, board, es, |childValues|);
        childValues := childValues + [v];
      }
      CoverMoves(keys, valueTable, board, es);
    }

    /** `SolutionTable::get`: the stored value for a canonical hash, if any. */
    function Get(invariantHash: nat): (r: Option<int>)
      reads this
      ensures r.Some? <==> invariantHash in valueTable
      ensures Consistent() && r.Some? ==> -1 <= r.value <= 1 && Describes(invariantHash, r.value)
    {
      if invariantHash in valueTable then Some(valueTable[invariantHash]) else None
    }

    /**
     * `SolutionTable::solve`: evaluate every move and fold over (move, value) pairs from the
     * seed (0, 2). On O's turn this picks the last move of least value; on X's turn the seed
     * is never replaced, so the answer is always 0.
     */
    method Solve(board: Board) returns (index: nat)
      requires Consistent()
      modifies this
      ensures Consistent()
      ensures Turn(board) == X ==> index == 0
      ensures Turn(board) == O && |Empties(board)| == 0 ==> index == 0
      ensures Turn(board) == O && |Empties(board)| > 0 ==> index in Empties(board)
      ensures Turn(board) == O && Sane(board) && Winner(board) == Empty ==>
        (forall e :: e in Empties(board) ==> Minimax(Act(board, index)) <= Minimax(Act(board, e))) &&
        (forall e :: e in Empties(board) && e > index ==> Minimax(Act(board, index)) < Minimax(Act(board, e)))
    {
      var candidates := Empties(board);
      var candidateValues := EvaluateChildren(board);
      var best := FoldMoves(Turn(board), candidates, candidateValues, (0, 2));
      index := best.0;
      FoldChoice(board, candidateValues);
    }
  }

  /** What the fold of `solve` picks from the values of every move of board. */
  lemma FoldChoice(board: Board, values: seq<int>)
    requires |values| == |Empties(board)|
    requires forall m :: 0 <= m < |values| ==> -1 <= values[m] <= 1
    requires Sane(board) && Winner(board) == Empty ==> Solved(board, Empties(board), values)
    ensures var index := FoldMoves(Turn(board), Empties(board), values, (0, 2)).0;
      && (Turn(board) == X ==> index == 0)
      && (Turn(board) == O && |Empties(board)| == 0 ==> index == 0)
      && (Turn(board) == O && |Empties(board)| > 0 ==> index in Empties(board))
      && (Turn(board) == O && Sane(board) && Winner(board) == Empty ==>
        (forall e :: e in Empties(board) ==> Minimax(Act(board, index)) <= Minimax(Act(board, e))) &&
        (forall e :: e in Empties(board) && e > index ==> Minimax(Act(board, index)) < Minimax(Act(board, e))))
  {
    var candidates := Empties(board);
    if Sane(board) && Winner(board) == Empty {
      SolvedAll(board, candidates, values);
    }
    var index := FoldMoves(Turn(board), candidates, values, (0, 2)).0;
    if Turn(board) == X {
      FoldKeepsSeed(candidates, values, (0, 2));
    } else if |candidates| > 0 {
      var jm := FoldLastMinimum(candidates, values, (0, 2));
      if Sane(board) && Winner(board) == Empty {
        forall e | e in Empties(board) ensures Minimax(Act(board, index)) <= Minimax(Act(board, e)) {
          var m :| 0 <= m < |candidates| && candidates[m] == e;
        }
        forall e | e in Empties(board) && e > index ensures Minimax(Act(board, index)) < Minimax(Act(board, e)) {
          var m :| 0 <= m < |candidates| && candidates[m] == e;
          assert m > jm;
        }
      }
    }
  }

  /**
   * The fold of `solve`: a pair (move, value) is kept when it beats the next pair for the
   * player to move (strictly larger for X, strictly smaller for O) and replaced otherwise.
   */
  function FoldMoves(turn: Tile, candidates: seq<nat>, values: seq<int>, acc: (nat, int)): (nat, int)
    requires |candidates| == |values|
    decreases |candidates|
  {
    if |candidates| == 0 then acc
    else
      var next := if (acc.1 > values[0] && turn == X) || (acc.1 < values[0] && turn == O)
        then acc else (candidates[0], values[0]);
      FoldMoves(turn, candidates[1..], values[1..], next)
  }

  /** On X's turn a seed larger than every value is never replaced. */
  lemma {:induction false} FoldKeepsSeed(candidates: seq<nat>, values: seq<int>, acc: (nat, int))
    requires |candidates| == |values|
    requires forall m :: 0 <= m < |values| ==> values[m] < acc.1
    ensures FoldMoves(X, candidates, values, acc) == acc
    decreases |candidates|
  {
    if |candidates| > 0 {
      FoldKeepsSeed(candidates[1..], values[1..], acc);
    }
  }

  /**
   * On O's turn, from a seed no smaller than some value, the fold ends on the last move of
   * least value.
   */
  lemma {:induction false} FoldLastMinimum(candidates: seq<nat>, values: seq<int>, acc: (nat, int))
    returns (j: nat)
    requires |candidates| == |values| > 0
    requires forall m :: 0 <= m < |values| ==> values[m] <= acc.1
    ensures j < |values| && FoldMoves(O, candidates, values, acc) == (candidates[j], values[j])
    ensures forall m :: 0 <= m < |values| ==> values[j] <= values[m]
    ensures forall m :: j < m < |values| ==> values[j] < values[m]
    decreases |candidates|
  {
    var next := (candidates[0], values[0]);
    if |candidates| == 1 {
      j := 0;
    } else {
      var cs, vs := candidates[1..], values[1..];
      if exists m :: 0 <= m < |vs| && vs[m] <= values[0] {
        var jr := FoldLastMinimumFrom(cs, vs, next);
        j := jr + 1;
      } else {
        FoldSeedStays(cs, vs, next);
        j := 0;
      }
    }
  }

  lemma {:induction false} FoldLastMinimumFrom(candidates: seq<nat>, values: seq<int>, acc: (nat, int))
    returns (j: nat)
    requires |candidates| == |values|
    requires exists m :: 0 <= m < |values| && values[m] <= acc.1
    ensures j < |values| && FoldMoves(O, candidates, values, acc) == (candidates[j], values[j])
    ensures values[j] <= acc.1
    ensures forall m :: 0 <= m < |values| ==> values[j] <= values[m]
    ensures forall m :: j < m < |values| ==> values[j] < values[m]
    decreases |candidates|
  {
    var next := if acc.1 < values[0] then acc else (candidates[0], values[0]);
    var cs, vs := candidates[1..], values[1..];
    if |candidates| == 1 {
      j := 0;
    } else if exists m :: 0 <= m < |vs| && vs[m] <= next.1 {
      var jr := FoldLastMinimumFrom(cs, vs, next);
      j := jr + 1;
    } else {
      FoldSeedStays(cs, vs, next);
      j := 0;
    }
  }

  /** On O's turn a seed smaller than every value is never replaced. */
  lemma {:induction false} FoldSeedStays(candidates: seq<nat>, values: seq<int>, acc: (nat, int))
    requires |candidates| == |values|
    requires forall m :: 0 <= m < |values| ==> acc.1 < values[m]
    ensures FoldMoves(O, candidates, values, acc) == acc
    decreases |candidates|
  {
    if |candidates| > 0 {
      FoldSeedStays(candidates[1..], values[1..], acc);
    }
  }

  /** The first board of the solution-table test: X holds the top row. */
  lemma WonBoard()
    ensures Minimax([X, X, X, O, O, Empty, Empty, Empty, Empty]) == 1
  {
    var a: Board := [X, X, X, O, O, Empty, Empty, Empty, Empty];
    EmptiesTally(a);
    assert LineWinner(a, 0) == X;
  }

  /** The second board of the solution-table test: X to move wins by taking tile 1. */
  lemma WinningBoard()
    ensures Minimax([X, Empty, X, O, O, Empty, Empty, Empty, Empty]) == 1
  {
    var b: Board := [X, Empty, X, O, O, Empty, Empty, Empty, Empty];
    var a: Board := [X, X, X, O, O, Empty, Empty, Empty, Empty];
    assert b[1 := X] == a;
    EmptiesTally(b);
    assert Winner(b) == Empty;
    assert Turn(b) == X;
    var es := Empties(b);
    assert 1 in es;
    var m :| 0 <= m < |es| && es[m] == 1;
    WonBoard();
    assert Minimax(Act(b, es[m])) == 1;
    var j := ExtremumBest(b, es);
  }
}
