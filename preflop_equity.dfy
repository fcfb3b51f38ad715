/**
 * Preflop starting-hand classes of `src/preflop_equity.rs`: the card and hand name tables,
 * the map from two cards to one of the 13 x 13 hand classes, the name lookups, and the
 * counting loop that tallies, over all 4-card subsets of the deck, how often each ordered
 * pair of hand classes is dealt.
 *
 * Card c (0 <= c < 52) has rank c / 4 (0 = deuce, ..., 12 = ace) and suit c % 4.
 * Hand class h (0 <= h < 169) sits at row h / 13 and column h % 13 of the grid:
 * pairs on the diagonal, suited hands above it (row < column), offsuit hands below it.
 */
module PreflopEquity {
  import opened Wrappers
  import opened Utils

  const RANKS: seq<char> := "23456789TJQKA"

  const SUITS: seq<char> := "shdc"

  /** The 52 card names, rank-major, written here as one row of four per rank. */
  const CARDS: seq<string> :=
    ["2s", "2h", "2d", "2c"] + ["3s", "3h", "3d", "3c"] + ["4s", "4h", "4d", "4c"] + ["5s", "5h", "5d", "5c"] +
    ["6s", "6h", "6d", "6c"] + ["7s", "7h", "7d", "7c"] + ["8s", "8h", "8d", "8c"] + ["9s", "9h", "9d", "9c"] +
    ["Ts", "Th", "Td", "Tc"] + ["Js", "Jh", "Jd", "Jc"] + ["Qs", "Qh", "Qd", "Qc"] + ["Ks", "Kh", "Kd", "Kc"] +
    ["As", "Ah", "Ad", "Ac"]

  /** The 169 hand class names, one row of the 13 x 13 grid per line. */
  const HANDS: seq<string> :=
    ["22", "32s", "42s", "52s", "62s", "72s", "82s", "92s", "T2s", "J2s", "Q2s", "K2s", "A2s"] +
    ["32o", "33", "43s", "53s", "63s", "73s", "83s", "93s", "T3s", "J3s", "Q3s", "K3s", "A3s"] +
    ["42o", "43o", "44", "54s", "64s", "74s", "84s", "94s", "T4s", "J4s", "Q4s", "K4s", "A4s"] +
    ["52o", "53o", "54o", "55", "65s", "75s", "85s", "95s", "T5s", "J5s", "Q5s", "K5s", "A5s"] +
    ["62o", "63o", "64o", "65o", "66", "76s", "86s", "96s", "T6s", "J6s", "Q6s", "K6s", "A6s"] +
    ["72o", "73o", "74o", "75o", "76o", "77", "87s", "97s", "T7s", "J7s", "Q7s", "K7s", "A7s"] +
    ["82o", "83o", "84o", "85o", "86o", "87o", "88", "98s", "T8s", "J8s", "Q8s", "K8s", "A8s"] +
    ["92o", "93o", "94o", "95o", "96o", "97o", "98o", "99", "T9s", "J9s", "Q9s", "K9s", "A9s"] +
    ["T2o", "T3o", "T4o", "T5o", "T6o", "T7o", "T8o", "T9o", "TT", "JTs", "QTs", "KTs", "ATs"] +
    ["J2o", "J3o", "J4o", "J5o", "J6o", "J7o", "J8o", "J9o", "JTo", "JJ", "QJs", "KJs", "AJs"] +
    ["Q2o", "Q3o", "Q4o", "Q5o", "Q6o", "Q7o", "Q8o", "Q9o", "QTo", "QJo", "QQ", "KQs", "AQs"] +
    ["K2o", "K3o", "K4o", "K5o", "K6o", "K7o", "K8o", "K9o", "KTo", "KJo", "KQo", "KK", "AKs"] +
    ["A2o", "A3o", "A4o", "A5o", "A6o", "A7o", "A8o", "A9o", "ATo", "AJo", "AQo", "AKo", "AA"]

  predicate Distinct<T(==)>(s: seq<T>)
  {
    forall i, j :: 0 <= i < |s| && 0 <= j < |s| && i != j ==> s[i] != s[j]
  }

  // ---------------------------------------------------------------------------
  // The tables

  lemma RanksDistinct(p: nat, q: nat)
    requires p < 13 && q < 13 && RANKS[p] == RANKS[q]
    ensures p == q
  {
    assert p == 0 || p == 1 || p == 2 || p == 3 || p == 4 || p == 5 || p == 6 || p == 7 || p == 8 || p == 9 || p == 10 || p == 11 || p == 12;
  }

  lemma SuitsDistinct(p: nat, q: nat)
    requires p < 4 && q < 4 && SUITS[p] == SUITS[q]
    ensures p == q
  {
  }

  /** Card i is named by its rank character followed by its suit character. */
  lemma CardNamed(i: nat)
    requires i < 52
    ensures CARDS[i] == [RANKS[i / 4], SUITS[i % 4]]
  {
    assert i == 0 || i == 1 || i == 2 || i == 3 || i == 4 || i == 5 || i == 6 || i == 7 || i == 8 || i == 9 || i == 10 || i == 11 || i == 12 || i == 13 || i == 14 || i == 15 || i == 16 || i == 17 || i == 18 || i == 19 || i == 20 || i == 21 || i == 22 || i == 23 || i == 24 || i == 25 || i == 26 || i == 27 || i == 28 || i == 29 || i == 30 || i == 31 || i == 32 || i == 33 || i == 34 || i == 35 || i == 36 || i == 37 || i == 38 || i == 39 || i == 40 || i == 41 || i == 42 || i == 43 || i == 44 || i == 45 || i == 46 || i == 47 || i == 48 || i == 49 || i == 50 || i == 51;
  }

  lemma CardsDistinct()
    ensures |CARDS| == 52 && Distinct(CARDS)
  {
    forall i, j | 0 <= i < 52 && 0 <= j < 52 && CARDS[i] == CARDS[j] ensures i == j {
      CardNamed(i);
      CardNamed(j);
      assert CARDS[i][0] == RANKS[i / 4] && CARDS[j][0] == RANKS[j / 4];
      assert CARDS[i][1] == SUITS[i % 4] && CARDS[j][1] == SUITS[j % 4];
      RanksDistinct(i / 4, j / 4);
      SuitsDistinct(i % 4, j % 4);
    }
  }

  /**
   * The name of hand class h: a pair is its rank twice; above the diagonal the column rank,
   * the row rank and "s"; below it the row rank, the column rank and "o".
   */
  function HandName(h: nat): string
    requires h < 169
  {
    var row := h / 13;
    var col := h % 13;
    if row == col then [RANKS[row], RANKS[row]]
    else if row < col then [RANKS[col], RANKS[row], 's']
    else [RANKS[row], RANKS[col], 'o']
  }

  lemma HandNamedLow(h: nat)
    requires 0 <= h < 39
    ensures HANDS[h] == HandName(h)
  {
    assert h == 0 || h == 1 || h == 2 || h == 3 || h == 4 || h == 5 || h == 6 || h == 7 || h == 8 || h == 9 || h == 10 || h == 11 || h == 12 || h == 13 || h == 14 || h == 15 || h == 16 || h == 17 || h == 18 || h == 19 || h == 20 || h == 21 || h == 22 || h == 23 || h == 24 || h == 25 || h == 26 || h == 27 || h == 28 || h == 29 || h == 30 || h == 31 || h == 32 || h == 33 || h == 34 || h == 35 || h == 36 || h == 37 || h == 38;
  }

  lemma HandNamedMiddle(h: nat)
    requires 39 <= h < 78
    ensures HANDS[h] == HandName(h)
  {
    assert h == 39 || h == 40 || h == 41 || h == 42 || h == 43 || h == 44 || h == 45 || h == 46 || h == 47 || h == 48 || h == 49 || h == 50 || h == 51 || h == 52 || h == 53 || h == 54 || h == 55 || h == 56 || h == 57 || h == 58 || h == 59 || h == 60 || h == 61 || h == 62 || h == 63 || h == 64 || h == 65 || h == 66 || h == 67 || h == 68 || h == 69 || h == 70 || h == 71 || h == 72 || h == 73 || h == 74 || h == 75 || h == 76 || h == 77;
  }

  lemma HandNamedUpper(h: nat)
    requires 78 <= h < 117
    ensures HANDS[h] == HandName(h)
  {
    assert h == 78 || h == 79 || h == 80 || h == 81 || h == 82 || h == 83 || h == 84 || h == 85 || h == 86 || h == 87 || h == 88 || h == 89 || h == 90 || h == 91 || h == 92 || h == 93 || h == 94 || h == 95 || h == 96 || h == 97 || h == 98 || h == 99 || h == 100 || h == 101 || h == 102 || h == 103 || h == 104 || h == 105 || h == 106 || h == 107 || h == 108 || h == 109 || h == 110 || h == 111 || h == 112 || h == 113 || h == 114 || h == 115 || h == 116;
  }

  lemma HandNamedTop(h: nat)
    requires 117 <= h < 143
    ensures HANDS[h] == HandName(h)
  {
    assert h == 117 || h == 118 || h == 119 || h == 120 || h == 121 || h == 122 || h == 123 || h == 124 || h == 125 || h == 126 || h == 127 || h == 128 || h == 129 || h == 130 || h == 131 || h == 132 || h == 133 || h == 134 || h == 135 || h == 136 || h == 137 || h == 138 || h == 139 || h == 140 || h == 141 || h == 142;
  }

  lemma HandNamedLast(h: nat)
    requires 143 <= h < 169
    ensures HANDS[h] == HandName(h)
  {
    assert h == 143 || h == 144 || h == 145 || h == 146 || h == 147 || h == 148 || h == 149 || h == 150 || h == 151 || h == 152 || h == 153 || h == 154 || h == 155 || h == 156 || h == 157 || h == 158 || h == 159 || h == 160 || h == 161 || h == 162 || h == 163 || h == 164 || h == 165 || h == 166 || h == 167 || h == 168;
  }

  /** Entry h of the hand table is the name of grid cell (h / 13, h % 13). */
  lemma HandNamed(h: nat)
    requires h < 169
    ensures HANDS[h] == HandName(h)
  {
    if h < 39 {
      HandNamedLow(h);
    } else if h < 78 {
      HandNamedMiddle(h);
    } else if h < 117 {
      HandNamedUpper(h);
    } else if h < 143 {
      HandNamedTop(h);
    } else {
      HandNamedLast(h);
    }
  }

  lemma HandNameInjective(h: nat, g: nat)
    requires h < 169 && g < 169 && HandName(h) == HandName(g)
    ensures h == g
  {
    var n := HandName(h);
    assert n[0] == HandName(g)[0] && n[1] == HandName(g)[1];
    if h / 13 == h % 13 {
      RanksDistinct(h / 13, g / 13);
    } else {
      assert n[2] == HandName(g)[2];
      if h / 13 < h % 13 {
        RanksDistinct(h % 13, g % 13);
        RanksDistinct(h / 13, g / 13);
      } else {
        RanksDistinct(h / 13, g / 13);
        RanksDistinct(h % 13, g % 13);
      }
    }
  }

  lemma HandsDistinct()
    ensures |HANDS| == 169 && Distinct(HANDS)
  {
    forall i, j | 0 <= i < 169 && 0 <= j < 169 && HANDS[i] == HANDS[j] ensures i == j {
      HandNamed(i);
      HandNamed(j);
      HandNameInjective(i, j);
    }
  }

  // ---------------------------------------------------------------------------
  // Lookups

  /**
   * The value stored for key x by a map filled with (table[i], i) for i = 0, 1, ...,
   * later insertions overwriting earlier ones: the last position of x, if any.
   */
  function TableIndex<T(==)>(table: seq<T>, x: T): (r: Option<nat>)
    ensures r.None? <==> x !in table
    ensures r.Some? ==> r.value < |table| && table[r.value] == x
    ensures r.Some? ==> forall j :: r.value < j < |table| ==> table[j] != x
  {
    if |table| == 0 then None
    else if table[|table| - 1] == x then Some(|table| - 1)
    else TableIndex(table[..|table| - 1], x)
  }

  lemma TableIndexDistinct<T>(table: seq<T>, i: nat)
    requires Distinct(table) && i < |table|
    ensures TableIndex(table, table[i]) == Some(i)
  {
  }

  /** `card_from_str`: the number of a card name, None for any other string. */
  function CardFromStr(card: string): (r: Option<nat>)
  {
    TableIndex(CARDS, card)
  }

  /** Every name of the card table is read back as its own position. */
  lemma CardFromStrInverse(i: nat)
    requires i < 52
    ensures CardFromStr(CARDS[i]) == Some(i)
  {
    CardsDistinct();
    TableIndexDistinct(CARDS, i);
  }

  /** A string that is not a card name has no number; a card name has number below 52. */
  lemma CardFromStrDomain(card: string)
    ensures CardFromStr(card).None? <==> card !in CARDS
    ensures CardFromStr(card).Some? ==> CardFromStr(card).value < 52
  {
  }

  /** Rank character r and suit character s name card 4 r + s. */
  lemma CardFromRankAndSuit(r: nat, s: nat)
    requires r < 13 && s < 4
    ensures CardFromStr([RANKS[r], SUITS[s]]) == Some(4 * r + s)
  {
    CardNamed(4 * r + s);
    assert (4 * r + s) / 4 == r && (4 * r + s) % 4 == s;
    CardFromStrInverse(4 * r + s);
  }

  /** `preflop_hand_from_str`: the class of a hand name, None for any other string. */
  function PreflopHandFromStr(hand: string): (r: Option<nat>)
  {
    TableIndex(HANDS, hand)
  }

  lemma PreflopHandFromStrInverse(h: nat)
    requires h < 169
    ensures PreflopHandFromStr(HANDS[h]) == Some(h)
  {
    HandsDistinct();
    TableIndexDistinct(HANDS, h);
  }

  lemma PreflopHandFromStrDomain(hand: string)
    ensures PreflopHandFromStr(hand).None? <==> hand !in HANDS
    ensures PreflopHandFromStr(hand).Some? ==> PreflopHandFromStr(hand).value < 169
  {
  }

  // ---------------------------------------------------------------------------
  // Hand classes of two cards

  function Max(a: nat, b: nat): nat
  {
    if a >= b then a else b
  }

  function Min(a: nat, b: nat): nat
  {
    if a <= b then a else b
  }

  /**
   * `preflop_hand_from_cards`: a pair or a suited hand goes to row min rank, column max rank;
   * an offsuit hand to row max rank, column min rank. The source computes on `u8`; cards
   * are below 52, so the result stays below 169 and nothing overflows.
   */
  function PreflopHandFromCards(a: nat, b: nat): (r: nat)
    requires a < 52 && b < 52
    ensures r < 169
  {
    var rankA := a / 4;
    var suitA := a % 4;
    var rankB := b / 4;
    var suitB := b % 4;
    var maxRank := Max(rankA, rankB);
    var minRank := Min(rankA, rankB);
    if rankA == rankB || suitA == suitB then minRank * 13 + maxRank else maxRank * 13 + minRank
  }

  /** The conventional name of two hole cards: "AA", "AKs", "AKo", the higher rank first. */
  function HoleCardsName(a: nat, b: nat): string
    requires a < 52 && b < 52
  {
    var hi := RANKS[Max(a / 4, b / 4)];
    var lo := RANKS[Min(a / 4, b / 4)];
    if a / 4 == b / 4 then [hi, hi]
    else if a % 4 == b % 4 then [hi, lo, 's']
    else [hi, lo, 'o']
  }

  lemma PreflopHandFromCardsSymmetric(a: nat, b: nat)
    requires a < 52 && b < 52
    ensures PreflopHandFromCards(a, b) == PreflopHandFromCards(b, a)
  {
  }

  /** The hand table names the class of two cards by their conventional name. */
  lemma PreflopHandFromCardsNamed(a: nat, b: nat)
    requires a < 52 && b < 52
    ensures HANDS[PreflopHandFromCards(a, b)] == HoleCardsName(a, b)
  {
    var row, column := CellOf(a, b);
    HandNamed(row * 13 + column);
  }

  /** The grid cell two cards land in, named as the cards are. */
  lemma CellOf(a: nat, b: nat) returns (row: nat, column: nat)
    requires a < 52 && b < 52
    ensures row * 13 + column < 169 && PreflopHandFromCards(a, b) == row * 13 + column
    ensures HandName(row * 13 + column) == HoleCardsName(a, b)
  {
    var hi := Max(a / 4, b / 4);
    var lo := Min(a / 4, b / 4);
    if a / 4 == b / 4 || a % 4 == b % 4 {
      row, column := lo, hi;
    } else {
      row, column := hi, lo;
    }
    GridCell(row, column);
  }

  /** Cell (row, column) of the 13 x 13 grid is hand class row * 13 + column. */
  lemma GridCell(row: nat, column: nat)
    requires column < 13
    ensures (row * 13 + column) / 13 == row && (row * 13 + column) % 13 == column
  {
  }

  /** Hand classes and conventional names agree both ways. */
  lemma PreflopHandFromStrOfCards(a: nat, b: nat)
    requires a < 52 && b < 52
    ensures PreflopHandFromStr(HoleCardsName(a, b)) == Some(PreflopHandFromCards(a, b))
  {
    PreflopHandFromCardsNamed(a, b);
    PreflopHandFromStrInverse(PreflopHandFromCards(a, b));
  }

  /** A pair lands on the diagonal, at 14 times its rank. */
  lemma PreflopHandFromCardsPair(a: nat, b: nat)
    requires a < 52 && b < 52 && a / 4 == b / 4
    ensures PreflopHandFromCards(a, b) == 14 * (a / 4)
  {
  }

  // ---------------------------------------------------------------------------
  // Counting matchups

  /** A 4-card subset as the counting loop reads it: four cards of the deck. */
  predicate FourCards(x: seq<nat>)
  {
    |x| == 4 && forall k :: 0 <= k < 4 ==> x[k] < 52
  }

  predicate AllFourCards(cs: seq<seq<nat>>)
  {
    forall n :: 0 <= n < |cs| ==> FourCards(cs[n])
  }

  /** The single increment of cell (a, b), read at cell (i, j). */
  function Hit(a: nat, b: nat, i: nat, j: nat): nat
  {
    if a == i && b == j then 1 else 0
  }

  /** The three ways the loop splits four cards into two hands: (x0 x1 | x2 x3), (x0 x2 | x1 x3), (x0 x3 | x1 x2). */
  function Splits(x: seq<nat>): (r: seq<(nat, nat)>)
    requires FourCards(x)
    ensures |r| == 3 && InGrid(r)
  {
    [(PreflopHandFromCards(x[0], x[1]), PreflopHandFromCards(x[2], x[3])),
     (PreflopHandFromCards(x[0], x[2]), PreflopHandFromCards(x[1], x[3])),
     (PreflopHandFromCards(x[0], x[3]), PreflopHandFromCards(x[1], x[2]))]
  }

  /** Every split names two hand classes of the 169 x 169 grid. */
  predicate InGrid(ps: seq<(nat, nat)>)
  {
    forall n :: 0 <= n < |ps| ==> ps[n].0 < 169 && ps[n].1 < 169
  }

  /** Cell (i, j) after counting the splits ps, each in both orders (`[h1][h2] += 1; [h2][h1] += 1`). */
  function SplitHits(ps: seq<(nat, nat)>, i: nat, j: nat): nat
  {
    if |ps| == 0 then 0
    else
      var p := ps[|ps| - 1];
      SplitHits(ps[..|ps| - 1], i, j) + Hit(p.0, p.1, i, j) + Hit(p.1, p.0, i, j)
  }

  /** What one 4-card subset x adds to cell (i, j). */
  function ComboHits(x: seq<nat>, i: nat, j: nat): nat
    requires FourCards(x)
  {
    SplitHits(Splits(x), i, j)
  }

  /** The number of times cell (i, j) is incremented while the subsets cs are counted. */
  function Tally(cs: seq<seq<nat>>, i: nat, j: nat): nat
    requires AllFourCards(cs)
  {
    if |cs| == 0 then 0 else Tally(cs[..|cs| - 1], i, j) + ComboHits(cs[|cs| - 1], i, j)
  }

  function RowTally(cs: seq<seq<nat>>, i: nat, n: nat): nat
    requires AllFourCards(cs)
  {
    if n == 0 then 0 else RowTally(cs, i, n - 1) + Tally(cs, i, n - 1)
  }

  /** The sum of the cells in rows 0 .. n - 1 of the 169 x 169 tally. */
  function GridTally(cs: seq<seq<nat>>, n: nat): nat
    requires AllFourCards(cs)
  {
    if n == 0 then 0 else GridTally(cs, n - 1) + RowTally(cs, n - 1, 169)
  }

  function RowSplits(ps: seq<(nat, nat)>, i: nat, n: nat): nat
  {
    if n == 0 then 0 else RowSplits(ps, i, n - 1) + SplitHits(ps, i, n - 1)
  }

  function GridSplits(ps: seq<(nat, nat)>, n: nat): nat
  {
    if n == 0 then 0 else GridSplits(ps, n - 1) + RowSplits(ps, n - 1, 169)
  }

  /** Whether a is among 0 .. n - 1, as a count. */
  function Below(a: nat, n: nat): nat
  {
    if a < n then 1 else 0
  }

  /** The cells (a, b) of row i with b among columns 0 .. n - 1, as a count. */
  function RowHit(a: nat, b: nat, i: nat, n: nat): nat
  {
    if a == i && b < n then 1 else 0
  }

  lemma {:induction false} RowSplitsStep(ps: seq<(nat, nat)>, p: (nat, nat), i: nat, n: nat)
    ensures RowSplits(ps + [p], i, n) == RowSplits(ps, i, n) + RowHit(p.0, p.1, i, n) + RowHit(p.1, p.0, i, n)
  {
    assert (ps + [p])[..|ps|] == ps;
    if n > 0 {
      RowSplitsStep(ps, p, i, n - 1);
    }
  }

  lemma {:induction false} GridSplitsStep(ps: seq<(nat, nat)>, p: (nat, nat), n: nat)
    requires p.0 < 169 && p.1 < 169
    ensures GridSplits(ps + [p], n) == GridSplits(ps, n) + Below(p.0, n) + Below(p.1, n)
  {
    if n > 0 {
      GridSplitsStep(ps, p, n - 1);
      RowSplitsStep(ps, p, n - 1, 169);
    }
  }

  lemma {:induction false} RowSplitsEmpty(i: nat, n: nat)
    ensures RowSplits([], i, n) == 0
  {
    if n > 0 {
      RowSplitsEmpty(i, n - 1);
    }
  }

  lemma {:induction false} GridSplitsEmpty(n: nat)
    ensures GridSplits([], n) == 0
  {
    if n > 0 {
      GridSplitsEmpty(n - 1);
      RowSplitsEmpty(n - 1, 169);
    }
  }

  /** Counting splits inside the grid makes two increments per split in all. */
  lemma {:induction false} GridSplitsTotal(ps: seq<(nat, nat)>)
    requires InGrid(ps)
    ensures GridSplits(ps, 169) == 2 * |ps|
  {
    if |ps| == 0 {
      GridSplitsEmpty(169);
    } else {
      var init := ps[..|ps| - 1];
      GridSplitsTotal(init);
      GridSplitsStep(init, ps[|ps| - 1], 169);
      assert init + [ps[|ps| - 1]] == ps;
    }
  }

  lemma {:induction false} RowTallyStep(cs: seq<seq<nat>>, x: seq<nat>, i: nat, n: nat)
    requires AllFourCards(cs) && FourCards(x) && AllFourCards(cs + [x])
    ensures RowTally(cs + [x], i, n) == RowTally(cs, i, n) + RowSplits(Splits(x), i, n)
  {
    assert (cs + [x])[..|cs|] == cs;
    if n > 0 {
      RowTallyStep(cs, x, i, n - 1);
    }
  }

  lemma {:induction false} GridTallyStep(cs: seq<seq<nat>>, x: seq<nat>, n: nat)
    requires AllFourCards(cs) && FourCards(x) && AllFourCards(cs + [x])
    ensures GridTally(cs + [x], n) == GridTally(cs, n) + GridSplits(Splits(x), n)
  {
    if n > 0 {
      GridTallyStep(cs, x, n - 1);
      RowTallyStep(cs, x, n - 1, 169);
    }
  }

  lemma {:induction false} RowTallyEmpty(i: nat, n: nat)
    ensures RowTally([], i, n) == 0
  {
    if n > 0 {
      RowTallyEmpty(i, n - 1);
    }
  }

  lemma {:induction false} GridTallyEmpty(n: nat)
    ensures GridTally([], n) == 0
  {
    if n > 0 {
      GridTallyEmpty(n - 1);
      RowTallyEmpty(n - 1, 169);
    }
  }

  /** Counting the subsets cs makes six increments per subset in all, all inside the grid. */
  lemma {:induction false} TallyTotal(cs: seq<seq<nat>>)
    requires AllFourCards(cs)
    ensures GridTally(cs, 169) == 6 * |cs|
  {
    if |cs| == 0 {
      GridTallyEmpty(169);
    } else {
      var init := cs[..|cs| - 1];
      var x := cs[|cs| - 1];
      TallyTotal(init);
      assert init + [x] == cs;
      GridTallyStep(init, x, 169);
      GridSplitsTotal(Splits(x));
      assert init + [x] == cs;
    }
  }

  lemma {:induction false} SplitHitsSymmetric(ps: seq<(nat, nat)>, i: nat, j: nat)
    ensures SplitHits(ps, i, j) == SplitHits(ps, j, i)
  {
    if |ps| > 0 {
      SplitHitsSymmetric(ps[..|ps| - 1], i, j);
    }
  }

  /** The tally is symmetric: every split is counted in both orders. */
  lemma {:induction false} TallySymmetric(cs: seq<seq<nat>>, i: nat, j: nat)
    requires AllFourCards(cs)
    ensures Tally(cs, i, j) == Tally(cs, j, i)
  {
    if |cs| > 0 {
      TallySymmetric(cs[..|cs| - 1], i, j);
      SplitHitsSymmetric(Splits(cs[|cs| - 1]), i, j);
    }
  }

  lemma {:induction false} SplitHitsOutside(ps: seq<(nat, nat)>, i: nat, j: nat)
    requires InGrid(ps) && (i >= 169 || j >= 169)
    ensures SplitHits(ps, i, j) == 0
  {
    if |ps| > 0 {
      SplitHitsOutside(ps[..|ps| - 1], i, j);
    }
  }

  /** Only cells of the 169 x 169 grid are ever incremented. */
  lemma {:induction false} TallyOutside(cs: seq<seq<nat>>, i: nat, j: nat)
    requires AllFourCards(cs) && (i >= 169 || j >= 169)
    ensures Tally(cs, i, j) == 0
  {
    if |cs| > 0 {
      TallyOutside(cs[..|cs| - 1], i, j);
      SplitHitsOutside(Splits(cs[|cs| - 1]), i, j);
    }
  }

  /** Adds one to cell (a, b). */
  method Increment(m: array2<nat>, a: nat, b: nat)
    requires a < m.Length0 && b < m.Length1
    modifies m
    ensures forall i, j :: 0 <= i < m.Length0 && 0 <= j < m.Length1 ==> m[i, j] == old(m[i, j]) + Hit(a, b, i, j)
  {
    m[a, b] := m[a, b] + 1;
  }

  /** The two increments of one split: `matchups[h1][h2] += 1; matchups[h2][h1] += 1`. */
  method CountSplit(m: array2<nat>, a: nat, b: nat)
    requires a < m.Length0 && b < m.Length1 && b < m.Length0 && a < m.Length1
    modifies m
    ensures forall i, j :: 0 <= i < m.Length0 && 0 <= j < m.Length1 ==>
      m[i, j] == old(m[i, j]) + Hit(a, b, i, j) + Hit(b, a, i, j)
  {
    Increment(m, a, b);
    Increment(m, b, a);
  }

  /** The loop body of `build_matchup_probabilities` for one 4-card subset x. */
  method CountCombo(m: array2<nat>, x: seq<nat>)
    requires FourCards(x) && m.Length0 == 169 && m.Length1 == 169
    modifies m
    ensures forall i, j :: 0 <= i < 169 && 0 <= j < 169 ==> m[i, j] == old(m[i, j]) + ComboHits(x, i, j)
  {
    var ps := Splits(x);
    var first: seq<(nat, nat)> := [ps[0]];
    assert ps[..2] == [ps[0], ps[1]] && ps[..2][..1] == first && first[..0] == [];
    forall i, j ensures SplitHits(ps, i, j) ==
      Hit(ps[0].0, ps[0].1, i, j) + Hit(ps[0].1, ps[0].0, i, j) + Hit(ps[1].0, ps[1].1, i, j) +
      Hit(ps[1].1, ps[1].0, i, j) + Hit(ps[2].0, ps[2].1, i, j) + Hit(ps[2].1, ps[2].0, i, j)
    {
      assert SplitHits(ps, i, j) == SplitHits(ps[..2], i, j) + Hit(ps[2].0, ps[2].1, i, j) + Hit(ps[2].1, ps[2].0, i, j);
      assert SplitHits(ps[..2], i, j) == SplitHits(first, i, j) + Hit(ps[1].0, ps[1].1, i, j) + Hit(ps[1].1, ps[1].0, i, j);
      assert SplitHits(first, i, j) == Hit(ps[0].0, ps[0].1, i, j) + Hit(ps[0].1, ps[0].0, i, j);
    }
    CountSplit(m, ps[0].0, ps[0].1);
    CountSplit(m, ps[1].0, ps[1].1);
    CountSplit(m, ps[2].0, ps[2].1);
  }

  /** The counting loop over the given 4-card subsets, into a zeroed 169 x 169 matrix. */
  method CountMatchups(combos: seq<seq<nat>>) returns (matchups: array2<nat>)
    requires AllFourCards(combos)
    ensures fresh(matchups) && matchups.Length0 == 169 && matchups.Length1 == 169
    ensures forall i, j :: 0 <= i < 169 && 0 <= j < 169 ==> matchups[i, j] == Tally(combos, i, j)
  {
    matchups := new nat[169, 169]((i, j) => 0);
    var n := 0;
    while n < |combos|
      invariant 0 <= n <= |combos|
      invariant forall i, j :: 0 <= i < 169 && 0 <= j < 169 ==> matchups[i, j] == Tally(combos[..n], i, j)
    {
      CountCombo(matchups, combos[n]);
      assert combos[..n + 1][..n] == combos[..n];
      n := n + 1;
    }
    assert combos[..n] == combos;
  }

  lemma CountedSymmetric(m: array2<nat>, cs: seq<seq<nat>>)
    requires AllFourCards(cs) && m.Length0 == 169 && m.Length1 == 169
    requires forall i, j :: 0 <= i < 169 && 0 <= j < 169 ==> m[i, j] == Tally(cs, i, j)
    ensures forall i, j :: 0 <= i < 169 && 0 <= j < 169 ==> m[i, j] == m[j, i]
  {
    forall i, j | 0 <= i < 169 && 0 <= j < 169 ensures m[i, j] == m[j, i] {
      TallySymmetric(cs, i, j);
    }
  }

  /** All 4-card subsets of the 52-card deck yield four cards each. */
  lemma DeckCombosAreHands()
    ensures AllFourCards(EnumerateCombos(Range(0, 52), 4))
    ensures |EnumerateCombos(Range(0, 52), 4)| == Choose(52, 4)
  {
    IndexCombosBounds(0, 52, 4);
    EnumerateCombosCount(Range(0, 52), 4);
  }

  /**
   * `build_matchup_probabilities` without the file write: the matrix is symmetric, every cell
   * counts the splits dealing that ordered pair of hand classes, and the
   * grand total is six increments per 4-card subset of the deck.
   */
  method BuildMatchupProbabilities() returns (matchups: array2<nat>)
    ensures fresh(matchups) && matchups.Length0 == 169 && matchups.Length1 == 169
    ensures AllFourCards(EnumerateCombos(Range(0, 52), 4))
    ensures forall i, j :: 0 <= i < 169 && 0 <= j < 169 ==>
      matchups[i, j] == Tally(EnumerateCombos(Range(0, 52), 4), i, j)
    ensures forall i, j :: 0 <= i < 169 && 0 <= j < 169 ==> matchups[i, j] == matchups[j, i]
    ensures GridTally(EnumerateCombos(Range(0, 52), 4), 169) == 6 * Choose(52, 4)
  {
    var combos := EnumerateCombos(Range(0, 52), 4);
    DeckCombosAreHands();
    matchups := CountMatchups(combos);
    CountedSymmetric(matchups, combos);
    TallyTotal(combos);
  }
}
