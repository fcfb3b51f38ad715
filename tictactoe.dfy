/**
 * The tic-tac-toe board: tiles, the ternary board hash and its inverse, the eight
 * symmetries of the square and the canonical (symmetry invariant) hash, and the move
 * helpers `empty`, `turn`, `act` and `winner`.
 *
 * Tiles are numbered row by row:
 *     0 1 2
 *     3 4 5
 *     6 7 8
 */
module TicTacToe {
  import opened Wrappers

  datatype Tile = Empty | X | O

  /** The ternary digit of a tile. */
  function TileHash(t: Tile): (h: nat)
    ensures h < 3
  {
    match t
    case Empty => 0
    case X => 1
    case O => 2
  }

  /** The tile of a ternary digit; digits other than 0, 1, 2 have none. */
  function TileFromHash(h: nat): (r: Option<Tile>)
    ensures r.Some? <==> h < 3
  {
    if h == 0 then Some(Empty)
    else if h == 1 then Some(X)
    else if h == 2 then Some(O)
    else None
  }

  lemma TileHashInverse(t: Tile)
    ensures TileFromHash(TileHash(t)) == Some(t)
  {
  }

  lemma TileFromHashInverse(h: nat)
    requires h < 3
    ensures TileHash(TileFromHash(h).value) == h
  {
  }

  type Board = b: seq<Tile> | |b| == 9 witness [Empty, Empty, Empty, Empty, Empty, Empty, Empty, Empty, Empty]

  const EMPTY_BOARD: Board := [Empty, Empty, Empty, Empty, Empty, Empty, Empty, Empty, Empty]

  // ---------------------------------------------------------------------------
  // The ternary hash

  /** The board hash: tile i contributes its digit times 3^i. */
  function Hash(b: Board): (h: nat)
  {
    TileHash(b[0]) + 3 * TileHash(b[1]) + 9 * TileHash(b[2]) + 27 * TileHash(b[3]) +
    81 * TileHash(b[4]) + 243 * TileHash(b[5]) + 729 * TileHash(b[6]) +
    2187 * TileHash(b[7]) + 6561 * TileHash(b[8])
  }

  function Pow3(n: nat): (p: nat)
    ensures p >= 1
  {
    if n == 0 then 1 else 3 * Pow3(n - 1)
  }

  /** The same sum for any tile sequence, in Horner form. */
  function HashSeq(s: seq<Tile>): nat
  {
    if |s| == 0 then 0 else TileHash(s[0]) + 3 * HashSeq(s[1..])
  }

  lemma HashSeqStep(s: seq<Tile>, k: nat)
    requires k < |s|
    ensures HashSeq(s[k..]) == TileHash(s[k]) + 3 * HashSeq(s[k + 1..])
  {
    assert s[k..][1..] == s[k + 1..];
  }

  lemma HashIsHashSeq(b: Board)
    ensures Hash(b) == HashSeq(b)
  {
    HashSeqStep(b, 8);
    HashSeqStep(b, 7);
    HashSeqStep(b, 6);
    HashSeqStep(b, 5);
    HashSeqStep(b, 4);
    HashSeqStep(b, 3);
    HashSeqStep(b, 2);
    HashSeqStep(b, 1);
    HashSeqStep(b, 0);
    assert b[9..] == [] && b[0..] == b;
  }

  lemma HashSeqBound(s: seq<Tile>)
    ensures HashSeq(s) < Pow3(|s|)
  {
  }

  /** A board hash is a 9-digit ternary number. */
  lemma HashBound(b: Board)
    ensures Hash(b) < 19683
  {
  }

  /** The tiles of the first n ternary digits of h, least significant first. */
  function Decode(h: nat, n: nat): (r: seq<Tile>)
    ensures |r| == n
  {
    if n == 0 then [] else [TileFromHash(h % 3).value] + Decode(h / 3, n - 1)
  }

  lemma {:induction false} DecodeHashSeq(s: seq<Tile>)
    ensures Decode(HashSeq(s), |s|) == s
  {
    if |s| > 0 {
      var h := HashSeq(s);
      var t := TileHash(s[0]);
      assert h == t + 3 * HashSeq(s[1..]);
      assert h % 3 == t && h / 3 == HashSeq(s[1..]);
      DecodeHashSeq(s[1..]);
    }
  }

  lemma {:induction false} HashSeqDecode(h: nat, n: nat)
    requires h < Pow3(n)
    ensures HashSeq(Decode(h, n)) == h
  {
    if n > 0 {
      assert h / 3 < Pow3(n - 1);
      HashSeqDecode(h / 3, n - 1);
      TileFromHashInverse(h % 3);
      assert Decode(h, n)[1..] == Decode(h / 3, n - 1);
    }
  }

  /** Decoding the hash of a board gives the board back. */
  lemma DecodeHash(b: Board)
    ensures Decode(Hash(b), 9) == b
  {
    HashIsHashSeq(b);
    DecodeHashSeq(b);
  }

  /** Every 9-digit ternary number is the hash of the board it decodes to. */
  lemma HashDecode(h: nat)
    requires h < 19683
    ensures Hash(Decode(h, 9)) == h
  {
    HashIsHashSeq(Decode(h, 9));
    HashSeqDecode(h, 9);
  }

  /** Distinct boards have distinct hashes. */
  lemma HashInjective(a: Board, b: Board)
    requires Hash(a) == Hash(b)
    ensures a == b
  {
    DecodeHash(a);
    DecodeHash(b);
  }

  /** `Board::from_hash`: a scan that takes the hash modulo 3 and divides it by 3, nine times. */
  method FromHash(hash: nat) returns (board: Board)
    ensures board == Decode(hash, 9)
  {
    var a := hash;
    var tiles: seq<Tile> := [];
    var i, n := 0, 9;
    while i < n
      invariant 0 <= i <= n && |tiles| == i
      invariant tiles + Decode(a, n - i) == Decode(hash, n)
    {
      var result := TileFromHash(a % 3);
      assert Decode(a, n - i) == [result.value] + Decode(a / 3, n - i - 1);
      a := a / 3;
      tiles := tiles + [result.value];
      i := i + 1;
    }
    board := tiles;
  }

  // ---------------------------------------------------------------------------
  // Symmetries of the square

  predicate IsPermutationTable(p: seq<nat>)
  {
    |p| == 9 && forall i :: 0 <= i < 9 ==> p[i] < 9
  }

  /** The board whose tile i is tile p[i] of b. */
  function Permute(b: Board, p: seq<nat>): Board
    requires IsPermutationTable(p)
  {
    [b[p[0]], b[p[1]], b[p[2]], b[p[3]], b[p[4]], b[p[5]], b[p[6]], b[p[7]], b[p[8]]]
  }

  const IDENTITY: seq<nat> := [0, 1, 2, 3, 4, 5, 6, 7, 8]
  const ROTATION: seq<nat> := [2, 5, 8, 1, 4, 7, 0, 3, 6]
  const ROTATION_2: seq<nat> := [8, 7, 6, 5, 4, 3, 2, 1, 0]
  const ROTATION_3: seq<nat> := [6, 3, 0, 7, 4, 1, 8, 5, 2]
  const FLIP_VERTICAL: seq<nat> := [6, 7, 8, 3, 4, 5, 0, 1, 2]
  const FLIP_HORIZONTAL: seq<nat> := [2, 1, 0, 5, 4, 3, 8, 7, 6]
  const FLIP_ANTI_DIAGONAL: seq<nat> := [8, 5, 2, 7, 4, 1, 6, 3, 0]
  const FLIP_DIAGONAL: seq<nat> := [0, 3, 6, 1, 4, 7, 2, 5, 8]

  /** The eight symmetries, in the order the canonical hash lists their images. */
  const SYMMETRIES: seq<seq<nat>> :=
    [IDENTITY, ROTATION, ROTATION_2, ROTATION_3, FLIP_VERTICAL, FLIP_HORIZONTAL, FLIP_ANTI_DIAGONAL, FLIP_DIAGONAL]

  /** CAYLEY[k][m] is the symmetry that applies SYMMETRIES[m] after SYMMETRIES[k]. */
  const CAYLEY: seq<seq<nat>> := [
    [0, 1, 2, 3, 4, 5, 6, 7], [1, 2, 3, 0, 7, 6, 4, 5], [2, 3, 0, 1, 5, 4, 7, 6], [3, 0, 1, 2, 6, 7, 5, 4],
    [4, 6, 5, 7, 0, 2, 1, 3], [5, 7, 4, 6, 2, 0, 3, 1], [6, 5, 7, 4, 3, 1, 0, 2], [7, 4, 6, 5, 1, 3, 2, 0]]

  /** INVERSE[k] undoes SYMMETRIES[k]. */
  const INVERSE: seq<nat> := [0, 3, 2, 1, 4, 5, 6, 7]

  function Symmetry(k: nat): (p: seq<nat>)
    requires k < 8
    ensures IsPermutationTable(p)
  {
    SYMMETRIES[k]
  }

  /** `Board::rotate`: a quarter turn. */
  function Rotate(b: Board): Board
  {
    Permute(b, ROTATION)
  }

  lemma RotateFourTimes(b: Board)
    ensures Rotate(Rotate(Rotate(Rotate(b)))) == b
  {
  }

  /** The table of "permute by p, then by q". */
  function Compose(p: seq<nat>, q: seq<nat>): (r: seq<nat>)
    requires IsPermutationTable(p) && IsPermutationTable(q)
    ensures IsPermutationTable(r)
  {
    [p[q[0]], p[q[1]], p[q[2]], p[q[3]], p[q[4]], p[q[5]], p[q[6]], p[q[7]], p[q[8]]]
  }

  lemma PermuteTwice(b: Board, p: seq<nat>, q: seq<nat>)
    requires IsPermutationTable(p) && IsPermutationTable(q)
    ensures Permute(Permute(b, p), q) == Permute(b, Compose(p, q))
  {
  }

  lemma CayleyEntry(k: nat, m: nat)
    requires k < 8 && m < 8
    ensures CAYLEY[k][m] < 8 && Symmetry(CAYLEY[k][m]) == Compose(Symmetry(k), Symmetry(m))
  {
    if k == 0 {
      if m == 0 {
      } else if m == 1 {
      } else if m == 2 {
      } else if m == 3 {
      } else if m == 4 {
      } else if m == 5 {
      } else if m == 6 {
      } else {
      }
    } else if k == 1 {
      if m == 0 {
      } else if m == 1 {
      } else if m == 2 {
      } else if m == 3 {
      } else if m == 4 {
      } else if m == 5 {
      } else if m == 6 {
      } else {
      }
    } else if k == 2 {
      if m == 0 {
      } else if m == 1 {
      } else if m == 2 {
      } else if m == 3 {
      } else if m == 4 {
      } else if m == 5 {
      } else if m == 6 {
      } else {
      }
    } else if k == 3 {
      if m == 0 {
      } else if m == 1 {
      } else if m == 2 {
      } else if m == 3 {
      } else if m == 4 {
      } else if m == 5 {
      } else if m == 6 {
      } else {
      }
    } else if k == 4 {
      if m == 0 {
      } else if m == 1 {
      } else if m == 2 {
      } else if m == 3 {
      } else if m == 4 {
      } else if m == 5 {
      } else if m == 6 {
      } else {
      }
    } else if k == 5 {
      if m == 0 {
      } else if m == 1 {
      } else if m == 2 {
      } else if m == 3 {
      } else if m == 4 {
      } else if m == 5 {
      } else if m == 6 {
      } else {
      }
    } else if k == 6 {
      if m == 0 {
      } else if m == 1 {
      } else if m == 2 {
      } else if m == 3 {
      } else if m == 4 {
      } else if m == 5 {
      } else if m == 6 {
      } else {
      }
    } else {
      if m == 0 {
      } else if m == 1 {
      } else if m == 2 {
      } else if m == 3 {
      } else if m == 4 {
      } else if m == 5 {
      } else if m == 6 {
      } else {
      }
    }
  }

  /** The symmetries form a group: any two applied in turn are a third. */
  lemma PermuteCompose(b: Board, k: nat, m: nat)
    requires k < 8 && m < 8
    ensures CAYLEY[k][m] < 8 && Permute(Permute(b, Symmetry(k)), Symmetry(m)) == Permute(b, Symmetry(CAYLEY[k][m]))
  {
    CayleyEntry(k, m);
    PermuteTwice(b, Symmetry(k), Symmetry(m));
  }

  /** Each symmetry is undone by its inverse, in either order. */
  lemma InverseTables(k: nat)
    requires k < 8
    ensures INVERSE[k] < 8
    ensures forall i :: 0 <= i < 9 ==> Symmetry(k)[Symmetry(INVERSE[k])[i]] == i
    ensures forall i :: 0 <= i < 9 ==> Symmetry(INVERSE[k])[Symmetry(k)[i]] == i
  {
    if k == 0 {
    } else if k == 1 {
    } else if k == 2 {
    } else if k == 3 {
    } else if k == 4 {
    } else if k == 5 {
    } else if k == 6 {
    } else {
    }
  }

  lemma InverseAt(k: nat, i: nat)
    requires k < 8 && i < 9
    ensures INVERSE[k] < 8
    ensures Symmetry(k)[Symmetry(INVERSE[k])[i]] == i && Symmetry(INVERSE[k])[Symmetry(k)[i]] == i
  {
    InverseTables(k);
  }

  lemma PermuteInverse(b: Board, k: nat)
    requires k < 8
    ensures INVERSE[k] < 8 && Permute(Permute(b, Symmetry(k)), Symmetry(INVERSE[k])) == b
  {
    InverseTables(k);
  }

  /** The images of b under the eight symmetries, in the order `invariant_hash` lists them. */
  function SymmetryHashes(b: Board): (hs: seq<nat>)
    ensures |hs| == 8
  {
    [Hash(b), Hash(Rotate(b)), Hash(Rotate(Rotate(b))), Hash(Rotate(Rotate(Rotate(b)))),
     Hash(Permute(b, FLIP_VERTICAL)), Hash(Permute(b, FLIP_HORIZONTAL)),
     Hash(Permute(b, FLIP_ANTI_DIAGONAL)), Hash(Permute(b, FLIP_DIAGONAL))]
  }

  lemma SymmetryHashesAreImages(b: Board)
    ensures forall k :: 0 <= k < 8 ==> SymmetryHashes(b)[k] == Hash(Permute(b, Symmetry(k)))
  {
    assert Rotate(Rotate(b)) == Permute(b, ROTATION_2);
    assert Rotate(Rotate(Rotate(b))) == Permute(b, ROTATION_3);
    assert b == Permute(b, IDENTITY);
  }

  /** The least element of a non-empty sequence (Rust's `Iterator::min`). */
  function Min(s: seq<int>): (m: int)
    requires |s| > 0
    ensures m in s && forall x :: x in s ==> m <= x
  {
    if |s| == 1 then s[0]
    else
      var rest := Min(s[1..]);
      assert forall x :: x in s ==> x == s[0] || x in s[1..];
      if s[0] <= rest then s[0] else rest
  }

  lemma MinOfSubset(s: seq<int>, t: seq<int>)
    requires |s| > 0 && |t| > 0
    requires forall x :: x in s ==> x in t
    ensures Min(t) <= Min(s)
  {
  }

  /** The canonical hash: the least hash among the eight images of the board. */
  function CanonicalHash(b: Board): nat
  {
    Min(SymmetryHashes(b))
  }

  /** The canonical hash is the hash of one of the images, and at most the board's own hash. */
  lemma CanonicalHashIsImage(b: Board) returns (k: nat)
    ensures k < 8 && CanonicalHash(b) == Hash(Permute(b, Symmetry(k)))
    ensures CanonicalHash(b) <= Hash(b)
  {
    SymmetryHashesAreImages(b);
    var hs := SymmetryHashes(b);
    k :| 0 <= k < 8 && hs[k] == CanonicalHash(b);
  }

  lemma ImageHashes(b: Board, k: nat)
    requires k < 8
    ensures forall m :: 0 <= m < 8 ==>
      CAYLEY[k][m] < 8 && SymmetryHashes(Permute(b, Symmetry(k)))[m] == SymmetryHashes(b)[CAYLEY[k][m]]
  {
    var c := Permute(b, Symmetry(k));
    SymmetryHashesAreImages(b);
    SymmetryHashesAreImages(c);
    forall m | 0 <= m < 8
      ensures CAYLEY[k][m] < 8 && SymmetryHashes(c)[m] == SymmetryHashes(b)[CAYLEY[k][m]]
    {
      PermuteCompose(b, k, m);
    }
  }

  lemma ReindexedElements(s: seq<nat>, t: seq<nat>, f: seq<nat>)
    requires |s| == |f| && forall m :: 0 <= m < |s| ==> f[m] < |t| && s[m] == t[f[m]]
    ensures forall x :: x in s ==> x in t
  {
    forall x | x in s ensures x in t {
      var m :| 0 <= m < |s| && s[m] == x;
      assert t[f[m]] == x;
    }
  }

  lemma ImagesOfImage(b: Board, k: nat)
    requires k < 8
    ensures forall x :: x in SymmetryHashes(Permute(b, Symmetry(k))) ==> x in SymmetryHashes(b)
  {
    ImageHashes(b, k);
    ReindexedElements(SymmetryHashes(Permute(b, Symmetry(k))), SymmetryHashes(b), CAYLEY[k]);
  }

  /** The canonical hash is the same for a board and for each of its eight images. */
  lemma CanonicalHashInvariant(b: Board, k: nat)
    requires k < 8
    ensures CanonicalHash(Permute(b, Symmetry(k))) == CanonicalHash(b)
  {
    var c := Permute(b, Symmetry(k));
    ImagesOfImage(b, k);
    MinOfSubset(SymmetryHashes(c), SymmetryHashes(b));
    PermuteInverse(b, k);
    ImagesOfImage(c, INVERSE[k]);
    MinOfSubset(SymmetryHashes(b), SymmetryHashes(c));
  }

  /** In particular the canonical hash is invariant under a quarter turn. */
  lemma CanonicalHashRotate(b: Board)
    ensures CanonicalHash(Rotate(b)) == CanonicalHash(b)
  {
    assert Rotate(b) == Permute(b, Symmetry(1));
    CanonicalHashInvariant(b, 1);
  }

  /**
   * `Board::invariant_hash`: rotate a working copy three times collecting the hashes, put the
   * board's own hash in front, push the hashes of the four reflections, and take the minimum.
   */
  method InvariantHash(b: Board) returns (h: nat)
    ensures h == CanonicalHash(b)
    ensures h in SymmetryHashes(b) && forall x :: x in SymmetryHashes(b) ==> h <= x
  {
    var hashes: seq<nat> := [];
    var board := b;
    var rotatedHashes: seq<nat> := [];
    for j := 0 to 3
      invariant |rotatedHashes| == j
      invariant j == 0 ==> board == b
      invariant j == 1 ==> board == Rotate(b) && rotatedHashes == [Hash(Rotate(b))]
      invariant j == 2 ==> board == Rotate(Rotate(b)) && rotatedHashes == [Hash(Rotate(b)), Hash(Rotate(Rotate(b)))]
      invariant j == 3 ==> rotatedHashes == [Hash(Rotate(b)), Hash(Rotate(Rotate(b))), Hash(Rotate(Rotate(Rotate(b))))]
    {
      board := Rotate(board);
      rotatedHashes := rotatedHashes + [Hash(board)];
    }
    hashes := hashes + [Hash(b)];
    hashes := hashes + rotatedHashes;
    hashes := hashes + [Hash(Permute(b, FLIP_VERTICAL))];
    hashes := hashes + [Hash(Permute(b, FLIP_HORIZONTAL))];
    hashes := hashes + [Hash(Permute(b, FLIP_ANTI_DIAGONAL))];
    hashes := hashes + [Hash(Permute(b, FLIP_DIAGONAL))];
    assert hashes == SymmetryHashes(b);
    h := Min(hashes);
  }

  lemma PermuteIndex(b: Board, p: seq<nat>)
    requires IsPermutationTable(p)
    ensures forall i :: 0 <= i < 9 ==> Permute(b, p)[i] == b[p[i]]
  {
  }

  // ---------------------------------------------------------------------------
  // Moves

  /** The positions of the empty tiles of s, in ascending order. */
  function EmptiesOf(s: seq<Tile>): seq<nat>
  {
    if |s| == 0 then []
    else if s[|s| - 1] == Empty then EmptiesOf(s[..|s| - 1]) + [|s| - 1]
    else EmptiesOf(s[..|s| - 1])
  }

  /** The number of empty tiles of s. */
  function EmptyCount(s: seq<Tile>): nat
  {
    if |s| == 0 then 0 else EmptyCount(s[..|s| - 1]) + (if s[|s| - 1] == Empty then 1 else 0)
  }

  lemma {:induction false} EmptiesOfProperties(s: seq<Tile>)
    ensures forall a, c :: 0 <= a < c < |EmptiesOf(s)| ==> EmptiesOf(s)[a] < EmptiesOf(s)[c]
    ensures forall a :: 0 <= a < |EmptiesOf(s)| ==> EmptiesOf(s)[a] < |s|
    ensures forall j :: 0 <= j < |s| ==> (j in EmptiesOf(s) <==> s[j] == Empty)
    ensures |EmptiesOf(s)| == EmptyCount(s)
    decreases |s|
  {
    if |s| > 0 {
      var front := s[..|s| - 1];
      EmptiesOfProperties(front);
      assert forall j :: 0 <= j < |front| ==> front[j] == s[j];
      if s[|s| - 1] == Empty {
        var r := EmptiesOf(front) + [|s| - 1];
        assert EmptiesOf(s) == r;
        assert forall a :: 0 <= a < |EmptiesOf(front)| ==> r[a] == EmptiesOf(front)[a];
        assert forall j :: j in r <==> j == |s| - 1 || j in EmptiesOf(front);
      }
    }
  }

  /** Marking an empty tile lowers the count of empty tiles by one. */
  lemma {:induction false} EmptyCountMark(s: seq<Tile>, i: nat, t: Tile)
    requires i < |s| && s[i] == Empty && t != Empty
    ensures EmptyCount(s[i := t]) + 1 == EmptyCount(s)
    decreases |s|
  {
    var n := |s|;
    var u := s[i := t];
    if i == n - 1 {
      assert u[..n - 1] == s[..n - 1];
    } else {
      assert u[..n - 1] == s[..n - 1][i := t];
      EmptyCountMark(s[..n - 1], i, t);
    }
  }

  /** `Board::empty`: the indices of the empty tiles, in ascending order. */
  function Empties(b: Board): (r: seq<nat>)
    ensures forall a, c :: 0 <= a < c < |r| ==> r[a] < r[c]
    ensures forall a :: 0 <= a < |r| ==> r[a] < 9
    ensures forall j :: 0 <= j < 9 ==> (j in r <==> b[j] == Empty)
  {
    EmptiesOfProperties(b);
    EmptiesOf(b)
  }

  /** `Board::turn`: X moves when an odd number of tiles is empty. */
  function Turn(b: Board): (t: Tile)
    ensures t == X <==> |Empties(b)| % 2 == 1
    ensures t != Empty
  {
    if |Empties(b)| % 2 == 1 then X else O
  }

  /** `Board::act`: the player to move takes tile i. */
  function Act(b: Board, i: nat): Board
    requires i < 9
  {
    b[i := Turn(b)]
  }

  /** `act` gives tile i to the player to move and leaves the other eight tiles as they were. */
  lemma ActMarks(b: Board, i: nat)
    requires i < 9
    ensures Act(b, i)[i] == Turn(b) && Turn(b) != Empty
    ensures forall j :: 0 <= j < 9 && j != i ==> Act(b, i)[j] == b[j]
  {
  }

  /** 1 if tile i holds t, else 0. */
  function Mark(b: Board, i: nat, t: Tile): nat
    requires i < 9
  {
    if b[i] == t then 1 else 0
  }

  /** The number of tiles holding t. */
  function Tally(b: Board, t: Tile): nat
  {
    Mark(b, 0, t) + Mark(b, 1, t) + Mark(b, 2, t) + Mark(b, 3, t) + Mark(b, 4, t) +
    Mark(b, 5, t) + Mark(b, 6, t) + Mark(b, 7, t) + Mark(b, 8, t)
  }

  lemma EmptyCountStep(b: Board, k: nat)
    requires 1 <= k <= 9
    ensures EmptyCount(b[..k]) == EmptyCount(b[..k - 1]) + Mark(b, k - 1, Empty)
  {
    assert b[..k][..k - 1] == b[..k - 1];
  }

  lemma EmptiesTally(b: Board)
    ensures |Empties(b)| == Tally(b, Empty)
  {
    EmptiesOfProperties(b);
    assert b[..9] == b;
    EmptyCountStep(b, 9);
    EmptyCountStep(b, 8);
    EmptyCountStep(b, 7);
    EmptyCountStep(b, 6);
    EmptyCountStep(b, 5);
    EmptyCountStep(b, 4);
    EmptyCountStep(b, 3);
    EmptyCountStep(b, 2);
    EmptyCountStep(b, 1);
  }

  lemma EmptiesAfterMark(b: Board, i: nat, t: Tile)
    requires i < 9 && b[i] == Empty && t != Empty
    ensures |Empties(b[i := t])| + 1 == |Empties(b)|
  {
    EmptiesOfProperties(b);
    EmptiesOfProperties(b[i := t]);
    EmptyCountMark(b, i, t);
  }

  /** Taking an empty tile leaves one empty tile fewer and passes the turn. */
  lemma ActEmpties(b: Board, i: nat)
    requires i < 9 && b[i] == Empty
    ensures |Empties(Act(b, i))| == |Empties(b)| - 1
    ensures Turn(Act(b, i)) != Turn(b)
  {
    var n := |Empties(b)|;
    EmptiesAfterMark(b, i, Turn(b));
    ParityStep(n);
  }

  lemma ParityStep(n: nat)
    requires n >= 1
    ensures (n - 1) % 2 != n % 2
  {
  }

  /** The empties after a move are the empties before it but the tile taken. */
  lemma ActEmptiesMembers(b: Board, i: nat)
    requires i < 9 && b[i] == Empty
    ensures forall j :: 0 <= j < 9 ==> (j in Empties(Act(b, i)) <==> j in Empties(b) && j != i)
  {
  }

  // ---------------------------------------------------------------------------
  // Winning lines

  /** A position on the board. */
  type Cell = i: nat | i < 9

  /** The eight lines in the order `winner` checks them: rows, then columns, then diagonals. */
  const LINES: seq<(Cell, Cell, Cell)> :=
    [(0, 1, 2), (3, 4, 5), (6, 7, 8), (0, 3, 6), (1, 4, 7), (2, 5, 8), (0, 4, 8), (2, 4, 6)]

  predicate Full(b: Board, i: nat, j: nat, k: nat, t: Tile)
    requires i < 9 && j < 9 && k < 9
  {
    b[i] == t && b[j] == t && b[k] == t
  }

  /** t holds line number n of LINES. */
  predicate FullLine(b: Board, n: nat, t: Tile)
    requires n < |LINES|
  {
    Full(b, LINES[n].0, LINES[n].1, LINES[n].2, t)
  }

  /** t holds one of the lines numbered n and above. */
  predicate HasLineFrom(b: Board, t: Tile, n: nat)
    requires n <= |LINES|
    decreases |LINES| - n
  {
    n < |LINES| && (FullLine(b, n, t) || HasLineFrom(b, t, n + 1))
  }

  /** t holds one of the eight lines. */
  predicate HasLine(b: Board, t: Tile)
  {
    HasLineFrom(b, t, 0)
  }

  /** The eight lines written out, for proofs that look at every tile. */
  predicate HasLineExplicit(b: Board, t: Tile)
  {
    Full(b, 0, 1, 2, t) || Full(b, 3, 4, 5, t) || Full(b, 6, 7, 8, t) ||
    Full(b, 0, 3, 6, t) || Full(b, 1, 4, 7, t) || Full(b, 2, 5, 8, t) ||
    Full(b, 0, 4, 8, t) || Full(b, 2, 4, 6, t)
  }

  lemma HasLineExpand(b: Board, t: Tile)
    ensures HasLine(b, t) == HasLineExplicit(b, t)
  {
    assert HasLineFrom(b, t, 7) == Full(b, 2, 4, 6, t);
    assert HasLineFrom(b, t, 6) == (Full(b, 0, 4, 8, t) || HasLineFrom(b, t, 7));
    assert HasLineFrom(b, t, 5) == (Full(b, 2, 5, 8, t) || HasLineFrom(b, t, 6));
    assert HasLineFrom(b, t, 4) == (Full(b, 1, 4, 7, t) || HasLineFrom(b, t, 5));
    assert HasLineFrom(b, t, 3) == (Full(b, 0, 3, 6, t) || HasLineFrom(b, t, 4));
    assert HasLineFrom(b, t, 2) == (Full(b, 6, 7, 8, t) || HasLineFrom(b, t, 3));
    assert HasLineFrom(b, t, 1) == (Full(b, 3, 4, 5, t) || HasLineFrom(b, t, 2));
  }

  /** One `match` arm of `winner`: X or O when line n is theirs, Empty otherwise. */
  function LineWinner(b: Board, n: nat): Tile
    requires n < |LINES|
  {
    if FullLine(b, n, X) then X else if FullLine(b, n, O) then O else Empty
  }

  /** The owner of the first full line numbered n or above, Empty if there is none. */
  function WinnerFrom(b: Board, n: nat): Tile
    requires n <= |LINES|
    decreases |LINES| - n
  {
    if n == |LINES| then Empty
    else if LineWinner(b, n) != Empty then LineWinner(b, n)
    else WinnerFrom(b, n + 1)
  }

  /**
   * `Board::winner`: Empty while more than five tiles are empty; otherwise the owner of the
   * first full line in the order rows, columns, diagonals; Empty if there is none.
   */
  function Winner(b: Board): Tile
  {
    if |Empties(b)| > 5 then Empty else WinnerFrom(b, 0)
  }

  lemma {:induction false} WinnerFromSpec(b: Board, n: nat)
    requires n <= |LINES|
    decreases |LINES| - n
    ensures WinnerFrom(b, n) != Empty ==> HasLineFrom(b, WinnerFrom(b, n), n)
    ensures WinnerFrom(b, n) == Empty ==> !HasLineFrom(b, X, n) && !HasLineFrom(b, O, n)
    ensures HasLineFrom(b, X, n) && !HasLineFrom(b, O, n) ==> WinnerFrom(b, n) == X
    ensures HasLineFrom(b, O, n) && !HasLineFrom(b, X, n) ==> WinnerFrom(b, n) == O
  {
    if n < |LINES| {
      WinnerFromSpec(b, n + 1);
    }
  }

  /**
   * What `winner` reports: nothing while more than five tiles are empty; otherwise a player
   * only when that player holds a line, nobody only when neither does, and the one player
   * holding a line when only one does.
   */
  lemma WinnerSpec(b: Board)
    ensures |Empties(b)| > 5 ==> Winner(b) == Empty
    ensures |Empties(b)| <= 5 && Winner(b) != Empty ==> HasLine(b, Winner(b))
    ensures |Empties(b)| <= 5 && Winner(b) == Empty ==> !HasLine(b, X) && !HasLine(b, O)
    ensures |Empties(b)| <= 5 && HasLine(b, X) && !HasLine(b, O) ==> Winner(b) == X
    ensures |Empties(b)| <= 5 && HasLine(b, O) && !HasLine(b, X) ==> Winner(b) == O
  {
    WinnerFromSpec(b, 0);
  }

  /**
   * A board on which not both players hold a line. Only on such boards does `winner` not
   * depend on the order in which it checks the lines.
   */
  predicate Sane(b: Board)
  {
    !(HasLine(b, X) && HasLine(b, O))
  }

  lemma LineTally(b: Board, t: Tile)
    requires HasLine(b, t)
    ensures Tally(b, t) >= 3
  {
    HasLineExpand(b, t);
  }

  lemma MarksSum(b: Board, i: nat)
    requires i < 9
    ensures Mark(b, i, Empty) + Mark(b, i, X) + Mark(b, i, O) == 1
  {
  }

  lemma TalliesSum(b: Board)
    ensures Tally(b, Empty) + Tally(b, X) + Tally(b, O) == 9
  {
    MarksSum(b, 0);
    MarksSum(b, 1);
    MarksSum(b, 2);
    MarksSum(b, 3);
    MarksSum(b, 4);
    MarksSum(b, 5);
    MarksSum(b, 6);
    MarksSum(b, 7);
    MarksSum(b, 8);
  }

  /** Two lines take six tiles, so a board with lines for both players has at most three empties. */
  lemma BothLinesFewEmpties(b: Board)
    requires HasLine(b, X) && HasLine(b, O)
    ensures |Empties(b)| <= 3
  {
    LineTally(b, X);
    LineTally(b, O);
    TalliesSum(b);
    EmptiesTally(b);
  }

  /** Marking a tile for t gives no other player a new line. */
  lemma LineBeforeMark(b: Board, i: nat, t: Tile, u: Tile)
    requires i < 9 && u != t && HasLine(b[i := t], u)
    ensures HasLine(b, u)
  {
    HasLineExpand(b, u);
    HasLineExpand(b[i := t], u);
  }

  /** A move from a sane board that has no winner yet leads to a sane board. */
  lemma ActSane(b: Board, i: nat)
    requires i < 9 && b[i] == Empty && Sane(b) && Winner(b) == Empty
    ensures Sane(Act(b, i))
  {
    var t := Turn(b);
    var c := b[i := t];
    if HasLine(c, X) && HasLine(c, O) {
      BothLinesFewEmpties(c);
      EmptiesAfterMark(b, i, t);
      WinnerSpec(b);
      var other := if t == X then O else X;
      LineBeforeMark(b, i, t, other);
      assert false;
    }
  }

  // ---------------------------------------------------------------------------
  // Symmetric boards

  lemma {:induction false} SymmetryLines(b: Board, k: nat, t: Tile)
    requires k < 8
    ensures HasLine(Permute(b, Symmetry(k)), t) == HasLine(b, t)
  {
    HasLineExpand(b, t);
    HasLineExpand(Permute(b, Symmetry(k)), t);
    if k == 0 {
    } else if k == 1 {
    } else if k == 2 {
    } else if k == 3 {
    } else if k == 4 {
    } else if k == 5 {
    } else if k == 6 {
    } else {
    }
  }

  lemma MarkPermute(b: Board, p: seq<nat>, t: Tile)
    requires IsPermutationTable(p)
    ensures forall i :: 0 <= i < 9 ==> Mark(Permute(b, p), i, t) == Mark(b, p[i], t)
  {
    PermuteIndex(b, p);
  }

  lemma {:induction false} SymmetryTally(b: Board, k: nat, t: Tile)
    requires k < 8
    ensures Tally(Permute(b, Symmetry(k)), t) == Tally(b, t)
  {
    MarkPermute(b, Symmetry(k), t);
    if k == 0 {
    } else if k == 1 {
    } else if k == 2 {
    } else if k == 3 {
    } else if k == 4 {
    } else if k == 5 {
    } else if k == 6 {
    } else {
    }
  }

  /**
   * A symmetric image of a sane board is sane and has the same number of empty tiles, the same
   * player to move and the same winner: what makes it sound to share one memo entry.
   */
  lemma SymmetryPreservesPlay(b: Board, k: nat)
    requires k < 8
    ensures |Empties(Permute(b, Symmetry(k)))| == |Empties(b)|
    ensures Turn(Permute(b, Symmetry(k))) == Turn(b)
    ensures Sane(Permute(b, Symmetry(k))) == Sane(b)
    ensures Sane(b) ==> Winner(Permute(b, Symmetry(k))) == Winner(b)
  {
    var c := Permute(b, Symmetry(k));
    SymmetryTally(b, k, Empty);
    EmptiesTally(b);
    EmptiesTally(c);
    SymmetryLines(b, k, X);
    SymmetryLines(b, k, O);
    WinnerSpec(b);
    WinnerSpec(c);
  }
}
