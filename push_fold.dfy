/**
 * Hand labelling and matchup counting of `src/push_fold.rs`: the `Display` of a two-card
 * hand, the grid index of a hand and the name of a grid index, the symmetric matchup
 * counter, the counting loop over all 4-card subsets of the deck, and the two families
 * of information sets over the 169 * 169 states of the push/fold game.
 *
 * Here row i, column j of the 13 x 13 grid (index 13 i + j) is suited when i > j and
 * offsuit when i < j: the transpose of the hand table of PreflopEquity.
 */
module PushFold {
  import opened Utils
  import opened PreflopEquity

  /** The rank characters of the poker library, deuce to ace. */
  const RANK_TO_CHAR: seq<char> := "23456789TJQKA"

  lemma RankCharsAreRanks()
    ensures RANK_TO_CHAR == RANKS
  {
  }

  /** `impl Display for Hand`: the conventional name of two hole cards, higher rank first. */
  function HandDisplay(c1: nat, c2: nat): (s: string)
    requires c1 < 52 && c2 < 52
  {
    var r1 := c1 / 4;
    var r2 := c2 / 4;
    var s1 := c1 % 4;
    var s2 := c2 % 4;
    if r1 == r2 then [RANK_TO_CHAR[r1], RANK_TO_CHAR[r1]]
    else if s1 == s2 then
      (if r1 > r2 then [RANK_TO_CHAR[r1], RANK_TO_CHAR[r2], 's'] else [RANK_TO_CHAR[r2], RANK_TO_CHAR[r1], 's'])
    else if r1 > r2 then [RANK_TO_CHAR[r1], RANK_TO_CHAR[r2], 'o']
    else [RANK_TO_CHAR[r2], RANK_TO_CHAR[r1], 'o']
  }

  /** `Hand::index_to_str`: row above column is suited, row below column offsuit, the diagonal a pair. */
  function IndexToStr(x: nat): (s: string)
    requires x < 169
  {
    var i := x / 13;
    var j := x % 13;
    if i > j then [RANK_TO_CHAR[i], RANK_TO_CHAR[j], 's']
    else if i < j then [RANK_TO_CHAR[j], RANK_TO_CHAR[i], 'o']
    else [RANK_TO_CHAR[i], RANK_TO_CHAR[j]]
  }

  /** `Hand::get_index`: pairs and suited hands at row r1, column r2; offsuit hands transposed. */
  function GetIndex(c1: nat, c2: nat): (r: nat)
    ensures c1 < 52 && c2 < 52 ==> r < 169
  {
    var r1 := c1 / 4;
    var s1 := c1 % 4;
    var r2 := c2 / 4;
    var s2 := c2 % 4;
    if r1 == r2 || s1 == s2 then 13 * r1 + r2 else 13 * r2 + r1
  }

  /** Grid cell (i, j) moved to (j, i). */
  function Transpose(x: nat): nat
  {
    13 * (x % 13) + x / 13
  }

  lemma GetIndexExamples()
    ensures GetIndex(1, 0) == 0
    ensures GetIndex(51, 50) == 168
  {
  }

  lemma HandDisplayExamples()
    ensures HandDisplay(1, 0) == "22"
    ensures HandDisplay(48, 0) == "A2s"
  {
  }

  /** A hand displays the same whichever card comes first. */
  lemma HandDisplaySymmetric(c1: nat, c2: nat)
    requires c1 < 52 && c2 < 52
    ensures HandDisplay(c1, c2) == HandDisplay(c2, c1)
  {
  }

  /** Swapping the cards transposes the index: get_index is symmetric exactly on pairs, which land on 14 r. */
  lemma GetIndexSwap(c1: nat, c2: nat)
    requires c1 < 52 && c2 < 52
    ensures GetIndex(c2, c1) == Transpose(GetIndex(c1, c2))
    ensures GetIndex(c1, c2) == GetIndex(c2, c1) <==> c1 / 4 == c2 / 4
    ensures c1 / 4 == c2 / 4 ==> GetIndex(c1, c2) == 14 * (c1 / 4)
  {
    var r := GetIndex(c1, c2);
    if c1 / 4 == c2 / 4 || c1 % 4 == c2 % 4 {
      assert r / 13 == c1 / 4 && r % 13 == c2 / 4;
    } else {
      assert r / 13 == c2 / 4 && r % 13 == c1 / 4;
    }
  }

  lemma RankCharNotSuffix(r: nat)
    requires r < 13
    ensures RANK_TO_CHAR[r] != 's' && RANK_TO_CHAR[r] != 'o'
  {
    assert r == 0 || r == 1 || r == 2 || r == 3 || r == 4 || r == 5 || r == 6 || r == 7 || r == 8 || r == 9 || r == 10 || r == 11 || r == 12;
  }

  /**
   * The name of an index ends in 's' exactly above the diagonal, in 'o' exactly below it,
   * and has no suffix (two characters) exactly on it.
   */
  lemma IndexToStrSuffix(x: nat)
    requires x < 169
    ensures |IndexToStr(x)| == 2 <==> x / 13 == x % 13
    ensures IndexToStr(x)[|IndexToStr(x)| - 1] == 's' <==> x / 13 > x % 13
    ensures IndexToStr(x)[|IndexToStr(x)| - 1] == 'o' <==> x / 13 < x % 13
  {
    RankCharNotSuffix(x % 13);
  }

  /** index_to_str names the transposed cell of the PreflopEquity hand table. */
  lemma IndexToStrIsTransposedHand(x: nat)
    requires x < 169
    ensures Transpose(x) < 169 && IndexToStr(x) == HANDS[Transpose(x)]
  {
    var t := Transpose(x);
    assert t / 13 == x % 13 && t % 13 == x / 13;
    HandNamed(t);
  }

  /** Distinct indices have distinct names. */
  lemma IndexToStrInjective(x: nat, y: nat)
    requires x < 169 && y < 169 && IndexToStr(x) == IndexToStr(y)
    ensures x == y
  {
    RankCharsAreRanks();
    var n := IndexToStr(x);
    assert n[0] == IndexToStr(y)[0] && n[1] == IndexToStr(y)[1];
    if x / 13 == x % 13 {
      RanksDistinct(x / 13, y / 13);
    } else {
      assert n[2] == IndexToStr(y)[2];
      RanksDistinct(x / 13, y / 13);
      RanksDistinct(x % 13, y % 13);
    }
  }

  /**
   * get_index(c1, c2) carries the name of the hand exactly when the first card's rank is
   * not below the second's.
   */
  lemma GetIndexNamesHand(c1: nat, c2: nat)
    requires c1 < 52 && c2 < 52
    ensures IndexToStr(GetIndex(c1, c2)) == HandDisplay(c1, c2) <==> c1 / 4 >= c2 / 4
  {
    var r := GetIndex(c1, c2);
    if c1 / 4 == c2 / 4 || c1 % 4 == c2 % 4 {
      assert r / 13 == c1 / 4 && r % 13 == c2 / 4;
    } else {
      assert r / 13 == c2 / 4 && r % 13 == c1 / 4;
    }
  }

  /** The source's round-trip test: for cards i < j, Hand(i, j) is named by index get_index(j, i). */
  lemma DisplayIsIndexName(i: nat, j: nat)
    requires i < j < 52
    ensures HandDisplay(i, j) == IndexToStr(GetIndex(j, i))
  {
    GetIndexNamesHand(j, i);
    HandDisplaySymmetric(i, j);
  }

  /** The grid index of a hand, whichever card comes first: get_index with the higher card first. */
  function HandIndex(c1: nat, c2: nat): (r: nat)
    requires c1 < 52 && c2 < 52
    ensures r < 169
  {
    if c1 >= c2 then GetIndex(c1, c2) else GetIndex(c2, c1)
  }

  /** The index of a hand always carries its name, and does not depend on the order of the cards. */
  lemma HandIndexNamesHand(c1: nat, c2: nat)
    requires c1 < 52 && c2 < 52
    ensures IndexToStr(HandIndex(c1, c2)) == HandDisplay(c1, c2)
    ensures HandIndex(c1, c2) == HandIndex(c2, c1)
  {
    if c1 >= c2 {
      GetIndexNamesHand(c1, c2);
    } else {
      GetIndexNamesHand(c2, c1);
      HandDisplaySymmetric(c1, c2);
    }
  }

  /**
   * The counting loop of `build_push_fold_tree` as written: it takes get_index(x[i], x[j])
   * with x[i] < x[j], which puts every non-pair hand in the transposed cell, so suited
   * hands are counted under offsuit names and the other way round.
   */
  lemma AscendingIndexTransposed(c1: nat, c2: nat)
    requires c1 < c2 < 52
    ensures GetIndex(c1, c2) == Transpose(HandIndex(c1, c2))
    ensures IndexToStr(GetIndex(c1, c2)) == HandDisplay(c1, c2) <==> c1 / 4 == c2 / 4
  {
    GetIndexSwap(c2, c1);
    GetIndexNamesHand(c1, c2);
  }

  /** The 2 and 3 of spades: get_index(0, 4) is 1, named "32o", while the hand is "32s". */
  lemma AscendingIndexExample()
    ensures GetIndex(0, 4) == 1 && IndexToStr(1) == "32o" && HandDisplay(0, 4) == "32s"
    ensures HandIndex(0, 4) == 13 && IndexToStr(13) == "32s"
  {
  }

  // ---------------------------------------------------------------------------
  // The matchup counter

  /** A 169 x 169 grid of counts. */
  predicate Square(g: seq<seq<nat>>)
  {
    |g| == 169 && forall i :: 0 <= i < 169 ==> |g[i]| == 169
  }

  predicate Symmetric(g: seq<seq<nat>>)
    requires Square(g)
  {
    forall i, j :: 0 <= i < 169 && 0 <= j < 169 ==> g[i][j] == g[j][i]
  }

  /** g with one more count in cell (i, j). */
  function Bump(g: seq<seq<nat>>, i: nat, j: nat): (r: seq<seq<nat>>)
    requires Square(g) && i < 169 && j < 169
    ensures Square(r)
  {
    g[i := g[i][j := g[i][j] + 1]]
  }

  /** The effect of `count_matchup(a, b)` on the grid. */
  function CountPair(g: seq<seq<nat>>, a: nat, b: nat): (r: seq<seq<nat>>)
    requires Square(g) && a < 169 && b < 169
    ensures Square(r)
  {
    Bump(Bump(g, a, b), b, a)
  }

  function RowSum(r: seq<nat>): nat
  {
    if |r| == 0 then 0 else RowSum(r[..|r| - 1]) + r[|r| - 1]
  }

  /** The sum of all counts, row by row, as `sum` folds it. */
  function GridSum(g: seq<seq<nat>>): nat
  {
    if |g| == 0 then 0 else GridSum(g[..|g| - 1]) + RowSum(g[|g| - 1])
  }

  lemma {:induction false} RowSumBump(r: seq<nat>, j: nat)
    requires j < |r|
    ensures RowSum(r[j := r[j] + 1]) == RowSum(r) + 1
  {
    var s := r[j := r[j] + 1];
    if j == |r| - 1 {
      assert s[..|s| - 1] == r[..|r| - 1];
    } else {
      assert s[..|s| - 1] == r[..|r| - 1][j := r[j] + 1];
      RowSumBump(r[..|r| - 1], j);
    }
  }

  lemma {:induction false} GridSumUpdate(g: seq<seq<nat>>, i: nat, row: seq<nat>)
    requires i < |g|
    ensures GridSum(g[i := row]) + RowSum(g[i]) == GridSum(g) + RowSum(row)
  {
    var h := g[i := row];
    if i == |g| - 1 {
      assert h[..|h| - 1] == g[..|g| - 1];
    } else {
      assert h[..|h| - 1] == g[..|g| - 1][i := row];
      GridSumUpdate(g[..|g| - 1], i, row);
    }
  }

  /** One more count adds one to the sum. */
  lemma GridSumBump(g: seq<seq<nat>>, i: nat, j: nat)
    requires Square(g) && i < 169 && j < 169
    ensures GridSum(Bump(g, i, j)) == GridSum(g) + 1
  {
    GridSumUpdate(g, i, g[i][j := g[i][j] + 1]);
    RowSumBump(g[i], j);
  }

  /** count_matchup adds exactly two to the sum, also when both hands are the same, and keeps the grid symmetric. */
  lemma CountPairProperties(g: seq<seq<nat>>, a: nat, b: nat)
    requires Square(g) && a < 169 && b < 169
    ensures GridSum(CountPair(g, a, b)) == GridSum(g) + 2
    ensures Symmetric(g) ==> Symmetric(CountPair(g, a, b))
  {
    GridSumBump(g, a, b);
    GridSumBump(Bump(g, a, b), b, a);
  }

  /** `MatchupTable`: a 169 x 169 array of counts over the pairs of hand indices. */
  class MatchupTable {
    var counts: array2<nat>

    ghost predicate Valid()
      reads this
    {
      counts.Length0 == 169 && counts.Length1 == 169
    }

    /** The counts as a grid of values. */
    ghost function Cells(): (g: seq<seq<nat>>)
      requires Valid()
      reads this, counts
      ensures Square(g)
    {
      var m := counts;
      seq(169, i requires 0 <= i < 169 reads m => seq(169, j requires 0 <= j < 169 reads m => m[i, j]))
    }

    /** `MatchupTable::default`: all counts zero. */
    constructor Default()
      ensures Valid() && fresh(counts)
      ensures forall i, j :: 0 <= i < 169 && 0 <= j < 169 ==> counts[i, j] == 0
    {
      counts := new nat[169, 169]((i, j) => 0);
    }

    /** `count_matchup`: one more count for (h1, h2) and one more for (h2, h1). */
    method CountMatchup(h1: nat, h2: nat)
      requires Valid() && h1 < 169 && h2 < 169
      modifies counts
      ensures Valid()
      ensures Cells() == CountPair(old(Cells()), h1, h2)
      ensures GridSum(Cells()) == GridSum(old(Cells())) + 2
      ensures Symmetric(old(Cells())) ==> Symmetric(Cells())
    {
      ghost var before := Cells();
      counts[h1, h2] := counts[h1, h2] + 1;
      counts[h2, h1] := counts[h2, h1] + 1;
      ghost var after := CountPair(before, h1, h2);
      assert forall i :: 0 <= i < 169 ==> Cells()[i] == after[i];
      CountPairProperties(before, h1, h2);
    }

    /** `sum`: the total of all counts. */
    method Sum() returns (total: nat)
      requires Valid()
      ensures total == GridSum(Cells())
    {
      ghost var g := Cells();
      total := 0;
      for i := 0 to 169
        invariant total == GridSum(g[..i])
      {
        var rowTotal := 0;
        for j := 0 to 169
          invariant rowTotal == RowSum(g[i][..j])
        {
          assert g[i][..j + 1][..j] == g[i][..j];
          rowTotal := rowTotal + counts[i, j];
        }
        assert g[i][..169] == g[i];
        assert g[..i + 1][..i] == g[..i];
        total := total + rowTotal;
      }
      assert g[..169] == g;
    }
  }

  // ---------------------------------------------------------------------------
  // The counting loop of build_push_fold_tree

  /** All indices of the splits ps lie in the grid. */
  predicate InGrid(ps: seq<(nat, nat)>)
  {
    forall n :: 0 <= n < |ps| ==> ps[n].0 < 169 && ps[n].1 < 169
  }

  /** The three splits of four cards into two hands, as hand indices: (x0 x1 | x2 x3), (x0 x2 | x1 x3), (x0 x3 | x1 x2). */
  function DealIndices(x: seq<nat>): (r: seq<(nat, nat)>)
    requires FourCards(x)
    ensures |r| == 3 && InGrid(r)
  {
    [(HandIndex(x[0], x[1]), HandIndex(x[2], x[3])),
     (HandIndex(x[0], x[2]), HandIndex(x[1], x[3])),
     (HandIndex(x[0], x[3]), HandIndex(x[1], x[2]))]
  }

  /** The same splits as the source computes them, with get_index on the cards in the subset's order. */
  function DealIndicesAsWritten(x: seq<nat>): (r: seq<(nat, nat)>)
    requires FourCards(x)
    ensures |r| == 3 && InGrid(r)
  {
    [(GetIndex(x[0], x[1]), GetIndex(x[2], x[3])),
     (GetIndex(x[0], x[2]), GetIndex(x[1], x[3])),
     (GetIndex(x[0], x[3]), GetIndex(x[1], x[2]))]
  }

  /** On an ascending subset, as the enumeration yields them, the source counts every hand at its transposed index. */
  lemma DealIndicesAsWrittenTransposed(x: seq<nat>)
    requires FourCards(x) && x[0] < x[1] < x[2] < x[3]
    ensures forall n :: 0 <= n < 3 ==>
      DealIndicesAsWritten(x)[n].0 == Transpose(DealIndices(x)[n].0) &&
      DealIndicesAsWritten(x)[n].1 == Transpose(DealIndices(x)[n].1)
  {
    AscendingIndexTransposed(x[0], x[1]);
    AscendingIndexTransposed(x[2], x[3]);
    AscendingIndexTransposed(x[0], x[2]);
    AscendingIndexTransposed(x[1], x[3]);
    AscendingIndexTransposed(x[0], x[3]);
    AscendingIndexTransposed(x[1], x[2]);
  }

  /**
   * The three splits of x as a counting loop indexes them: with get_index on the cards in
   * the subset's order when `written`, as `build_push_fold_tree` does, else with the
   * corrected HandIndex.
   */
  function SplitIndices(x: seq<nat>, written: bool): (r: seq<(nat, nat)>)
    requires FourCards(x)
    ensures |r| == 3 && InGrid(r)
  {
    if written then DealIndicesAsWritten(x) else DealIndices(x)
  }

  /** count_matchup applied to the three splits of x in turn. */
  function CountDealGrid(g: seq<seq<nat>>, x: seq<nat>, written: bool): (r: seq<seq<nat>>)
    requires Square(g) && FourCards(x)
    ensures Square(r)
  {
    var ps := SplitIndices(x, written);
    CountPair(CountPair(CountPair(g, ps[0].0, ps[0].1), ps[1].0, ps[1].1), ps[2].0, ps[2].1)
  }

  /** The grid after counting the 4-card subsets cs, one after the other. */
  function CountDeals(g: seq<seq<nat>>, cs: seq<seq<nat>>, written: bool): (r: seq<seq<nat>>)
    requires Square(g) && AllFourCards(cs)
    ensures Square(r)
  {
    if |cs| == 0 then g else CountDealGrid(CountDeals(g, cs[..|cs| - 1], written), cs[|cs| - 1], written)
  }

  lemma CountDealProperties(g: seq<seq<nat>>, x: seq<nat>, written: bool)
    requires Square(g) && FourCards(x)
    ensures GridSum(CountDealGrid(g, x, written)) == GridSum(g) + 6
    ensures Symmetric(g) ==> Symmetric(CountDealGrid(g, x, written))
  {
    var ps := SplitIndices(x, written);
    var g1 := CountPair(g, ps[0].0, ps[0].1);
    var g2 := CountPair(g1, ps[1].0, ps[1].1);
    CountPairProperties(g, ps[0].0, ps[0].1);
    CountPairProperties(g1, ps[1].0, ps[1].1);
    CountPairProperties(g2, ps[2].0, ps[2].1);
  }

  /**
   * Counting the subsets cs, with either indexing, adds six per subset to the sum and keeps a
   * symmetric grid symmetric.
   */
  lemma {:induction false} CountDealsProperties(g: seq<seq<nat>>, cs: seq<seq<nat>>, written: bool)
    requires Square(g) && AllFourCards(cs)
    ensures GridSum(CountDeals(g, cs, written)) == GridSum(g) + 6 * |cs|
    ensures Symmetric(g) ==> Symmetric(CountDeals(g, cs, written))
  {
    if |cs| > 0 {
      CountDealsProperties(g, cs[..|cs| - 1], written);
      CountDealProperties(CountDeals(g, cs[..|cs| - 1], written), cs[|cs| - 1], written);
    }
  }

  /** Transposing twice gives back the cell. */
  lemma TransposeInvolution(x: nat)
    requires x < 169
    ensures Transpose(x) < 169 && Transpose(Transpose(x)) == x
  {
    var t := Transpose(x);
    assert t / 13 == x % 13 && t % 13 == x / 13;
  }

  /** Cell (i, j) of gc sits in gw at the transposed hands (Transpose(i), Transpose(j)). */
  predicate Relabelled(gw: seq<seq<nat>>, gc: seq<seq<nat>>)
    requires Square(gw) && Square(gc)
  {
    forall i, j :: 0 <= i < 169 && 0 <= j < 169 ==>
      Transpose(i) < 169 && Transpose(j) < 169 && gw[Transpose(i)][Transpose(j)] == gc[i][j]
  }

  /** Counting a pair at the transposed hands keeps two grids relabelled. */
  lemma CountPairRelabelled(gw: seq<seq<nat>>, gc: seq<seq<nat>>, a: nat, b: nat)
    requires Square(gw) && Square(gc) && a < 169 && b < 169 && Relabelled(gw, gc)
    ensures Transpose(a) < 169 && Transpose(b) < 169
    ensures Relabelled(CountPair(gw, Transpose(a), Transpose(b)), CountPair(gc, a, b))
  {
    TransposeInvolution(a);
    TransposeInvolution(b);
    var hw := CountPair(gw, Transpose(a), Transpose(b));
    var hc := CountPair(gc, a, b);
    forall i, j | 0 <= i < 169 && 0 <= j < 169
      ensures Transpose(i) < 169 && Transpose(j) < 169 && hw[Transpose(i)][Transpose(j)] == hc[i][j]
    {
      TransposeInvolution(i);
      TransposeInvolution(j);
    }
  }

  /**
   * On ascending subsets, the table as written is the corrected table with every hand moved
   * to its transposed cell: the counts are right, the cells they sit in are not.
   */
  lemma {:induction false} CountDealsRelabelled(gw: seq<seq<nat>>, gc: seq<seq<nat>>, cs: seq<seq<nat>>)
    requires Square(gw) && Square(gc) && Relabelled(gw, gc) && AllFourCards(cs)
    requires forall n :: 0 <= n < |cs| ==> Increasing(cs[n])
    ensures Relabelled(CountDeals(gw, cs, true), CountDeals(gc, cs, false))
  {
    if |cs| > 0 {
      var x := cs[|cs| - 1];
      CountDealsRelabelled(gw, gc, cs[..|cs| - 1]);
      assert x[0] < x[1] < x[2] < x[3] by {
        assert Increasing(x);
      }
      DealIndicesAsWrittenTransposed(x);
      var pw, pc := SplitIndices(x, true), SplitIndices(x, false);
      var w0, c0 := CountDeals(gw, cs[..|cs| - 1], true), CountDeals(gc, cs[..|cs| - 1], false);
      CountPairRelabelled(w0, c0, pc[0].0, pc[0].1);
      var w1, c1 := CountPair(w0, pw[0].0, pw[0].1), CountPair(c0, pc[0].0, pc[0].1);
      CountPairRelabelled(w1, c1, pc[1].0, pc[1].1);
      var w2, c2 := CountPair(w1, pw[1].0, pw[1].1), CountPair(c1, pc[1].0, pc[1].1);
      CountPairRelabelled(w2, c2, pc[2].0, pc[2].1);
    }
  }

  /** The loop body of `build_push_fold_tree` for one 4-card subset x, as written: get_index on the cards in the subset's order. */
  method CountDealAsWritten(table: MatchupTable, x: seq<nat>)
    requires table.Valid() && FourCards(x)
    modifies table.counts
    ensures table.Valid()
    ensures table.Cells() == CountDealGrid(old(table.Cells()), x, true)
  {
    table.CountMatchup(GetIndex(x[0], x[1]), GetIndex(x[2], x[3]));
    table.CountMatchup(GetIndex(x[0], x[2]), GetIndex(x[1], x[3]));
    table.CountMatchup(GetIndex(x[0], x[3]), GetIndex(x[1], x[2]));
  }

  /** The corrected loop body: every split counted at the hand's own index. */
  method CountDeal(table: MatchupTable, x: seq<nat>)
    requires table.Valid() && FourCards(x)
    modifies table.counts
    ensures table.Valid()
    ensures table.Cells() == CountDealGrid(old(table.Cells()), x, false)
  {
    table.CountMatchup(HandIndex(x[0], x[1]), HandIndex(x[2], x[3]));
    table.CountMatchup(HandIndex(x[0], x[2]), HandIndex(x[1], x[3]));
    table.CountMatchup(HandIndex(x[0], x[3]), HandIndex(x[1], x[2]));
  }

  /** Counting one more subset of cs extends the count of the subsets before it. */
  lemma CountDealsStep(g: seq<seq<nat>>, cs: seq<seq<nat>>, n: nat, written: bool)
    requires Square(g) && AllFourCards(cs) && n < |cs|
    ensures CountDeals(g, cs[..n + 1], written) == CountDealGrid(CountDeals(g, cs[..n], written), cs[n], written)
  {
    assert cs[..n + 1][..n] == cs[..n];
  }

  /** One pass of the loop body, with the indexing `written` selects. */
  method CountSubset(table: MatchupTable, x: seq<nat>, written: bool)
    requires table.Valid() && FourCards(x)
    modifies table.counts
    ensures table.Valid()
    ensures table.Cells() == CountDealGrid(old(table.Cells()), x, written)
  {
    if written {
      CountDealAsWritten(table, x);
    } else {
      CountDeal(table, x);
    }
  }

  /**
   * The loop of `build_push_fold_tree` over the subsets combos: as written when `written`,
   * else with the corrected index.
   */
  method CountCombos(table: MatchupTable, combos: seq<seq<nat>>, written: bool)
    requires table.Valid() && AllFourCards(combos)
    modifies table.counts
    ensures table.Valid()
    ensures table.Cells() == CountDeals(old(table.Cells()), combos, written)
  {
    ghost var start := table.Cells();
    var n := 0;
    while n < |combos|
      invariant 0 <= n <= |combos| && table.Valid()
      invariant table.Cells() == CountDeals(start, combos[..n], written)
    {
      CountSubset(table, combos[n], written);
      CountDealsStep(start, combos, n, written);
      n := n + 1;
    }
    assert combos[..n] == combos;
  }

  lemma {:induction false} RowSumZero(r: seq<nat>)
    requires forall j :: 0 <= j < |r| ==> r[j] == 0
    ensures RowSum(r) == 0
  {
    if |r| > 0 {
      RowSumZero(r[..|r| - 1]);
    }
  }

  lemma {:induction false} GridSumZero(g: seq<seq<nat>>)
    requires forall i, j :: 0 <= i < |g| && 0 <= j < |g[i]| ==> g[i][j] == 0
    ensures GridSum(g) == 0
  {
    if |g| > 0 {
      GridSumZero(g[..|g| - 1]);
      RowSumZero(g[|g| - 1]);
    }
  }

  /** The grid of a fresh table. */
  function ZeroGrid(): (g: seq<seq<nat>>)
    ensures Square(g)
  {
    seq(169, i requires 0 <= i < 169 => seq(169, j requires 0 <= j < 169 => 0))
  }

  /**
   * A fresh table that has counted the subsets combos, with either indexing: symmetric, with
   * counts summing to 6 |combos|.
   */
  method CountedTable(combos: seq<seq<nat>>, written: bool) returns (table: MatchupTable)
    requires AllFourCards(combos)
    ensures table.Valid() && fresh(table.counts)
    ensures table.Cells() == CountDeals(ZeroGrid(), combos, written)
    ensures Symmetric(table.Cells()) && GridSum(table.Cells()) == 6 * |combos|
  {
    table := new MatchupTable.Default();
    ghost var start := table.Cells();
    assert start == ZeroGrid() by {
      assert forall i :: 0 <= i < 169 ==> start[i] == ZeroGrid()[i];
    }
    CountCombos(table, combos, written);
    GridSumZero(start);
    CountDealsProperties(start, combos, written);
  }

  lemma ZeroRelabelled()
    ensures Relabelled(ZeroGrid(), ZeroGrid())
  {
    forall i | 0 <= i < 169
      ensures Transpose(i) < 169
    {
      TransposeInvolution(i);
    }
  }

  /** The 4-card subsets of the deck, in the order the enumeration yields them. */
  function DeckCombos(): seq<seq<nat>>
  {
    EnumerateCombos(Range(0, 52), 4)
  }

  /** Those subsets are C(52, 4) sets of four cards, each in ascending order. */
  lemma DeckCombosAscending()
    ensures AllFourCards(DeckCombos()) && |DeckCombos()| == Choose(52, 4)
    ensures forall n :: 0 <= n < |DeckCombos()| ==> Increasing(DeckCombos()[n])
  {
    var lo, hi, k := 0, 52, 4;
    IndexCombos(lo, hi, k);
    DeckCombosAreHands();
  }

  /**
   * The matchup table of `build_push_fold_tree` as written, over all 4-card subsets of the
   * deck: it is symmetric and its counts sum to six per subset, but each hand is counted in
   * the cell of the corrected table's transposed hand.
   */
  method BuildMatchupTable() returns (table: MatchupTable)
    ensures table.Valid() && fresh(table.counts)
    ensures AllFourCards(DeckCombos()) && table.Cells() == CountDeals(ZeroGrid(), DeckCombos(), true)
    ensures Symmetric(table.Cells())
    ensures GridSum(table.Cells()) == 6 * Choose(52, 4)
    ensures Relabelled(table.Cells(), CountDeals(ZeroGrid(), DeckCombos(), false))
  {
    var combos := EnumerateCombos(Range(0, 52), 4);
    DeckCombosAscending();
    table := CountedTable(combos, true);
    ZeroRelabelled();
    CountDealsRelabelled(ZeroGrid(), ZeroGrid(), combos);
  }

  /** The corrected matchup table: symmetric, summing to 6 · C(52, 4), every count under its hand's own index. */
  method BuildMatchupTableCorrected() returns (table: MatchupTable)
    ensures table.Valid() && fresh(table.counts)
    ensures AllFourCards(DeckCombos()) && table.Cells() == CountDeals(ZeroGrid(), DeckCombos(), false)
    ensures Symmetric(table.Cells())
    ensures GridSum(table.Cells()) == 6 * Choose(52, 4)
  {
    var combos := EnumerateCombos(Range(0, 52), 4);
    DeckCombosAscending();
    table := CountedTable(combos, false);
  }

  // ---------------------------------------------------------------------------
  // Information sets

  /** The states are the 169 * 169 cells (i, j), i the hand of the first player, flattened to 169 i + j. */
  const STATES: nat := 169 * 169

  /** The first player's information sets: block i holds the states where the first player holds hand i. */
  function InfosetsP1(): seq<seq<nat>>
  {
    seq(169, i requires 0 <= i < 169 => seq(169, j requires 0 <= j < 169 => i * 169 + j))
  }

  /** The second player's information sets: block i holds the states where the second player holds hand i. */
  function InfosetsP2(): seq<seq<nat>>
  {
    seq(169, i requires 0 <= i < 169 => seq(169, j requires 0 <= j < 169 => j * 169 + i))
  }

  /** The blocks list every state below n exactly once, and nothing else. */
  predicate Partitions(blocks: seq<seq<nat>>, n: nat)
  {
    (forall k, m :: 0 <= k < |blocks| && 0 <= m < |blocks[k]| ==> blocks[k][m] < n) &&
    (forall k1, m1, k2, m2 ::
      (0 <= k1 < |blocks| && 0 <= m1 < |blocks[k1]| && 0 <= k2 < |blocks| && 0 <= m2 < |blocks[k2]| &&
       blocks[k1][m1] == blocks[k2][m2]) ==> k1 == k2 && m1 == m2) &&
    (forall s :: 0 <= s < n ==> Listed(blocks, s))
  }

  predicate Listed(blocks: seq<seq<nat>>, s: nat)
  {
    exists k, m :: 0 <= k < |blocks| && 0 <= m < |blocks[k]| && blocks[k][m] == s
  }

  lemma InfosetsP1Partition()
    ensures |InfosetsP1()| == 169 && forall k :: 0 <= k < 169 ==> |InfosetsP1()[k]| == 169
    ensures Partitions(InfosetsP1(), STATES)
    ensures forall s :: 0 <= s < STATES ==> InfosetsP1()[s / 169][s % 169] == s
  {
    var b := InfosetsP1();
    forall s | 0 <= s < STATES ensures b[s / 169][s % 169] == s && Listed(b, s) {
      assert b[s / 169][s % 169] == s;
    }
  }

  lemma InfosetsP2Partition()
    ensures |InfosetsP2()| == 169 && forall k :: 0 <= k < 169 ==> |InfosetsP2()[k]| == 169
    ensures Partitions(InfosetsP2(), STATES)
    ensures forall s :: 0 <= s < STATES ==> InfosetsP2()[s % 169][s / 169] == s
  {
    var b := InfosetsP2();
    forall s | 0 <= s < STATES ensures b[s % 169][s / 169] == s && Listed(b, s) {
      assert b[s % 169][s / 169] == s;
    }
  }
}
