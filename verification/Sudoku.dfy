/**
The Sudoku solver of Lab 9: a recursive search that writes its trial values into one shared
grid, never stops early, and reports every grid it reaches.  A board is also seen as the
sequence of its 81 cells in row-major order, the order in which the search visits them.
*/
module Sudoku {

  type Board = s: seq<int> | |s| == 81 witness seq(81, _ => 0)

  /** Two different cells in the same row, the same column or the same 3x3 box. */
  predicate Peers(j: nat, k: nat) {
    j != k && (j / 9 == k / 9 || j % 9 == k % 9 || (j / 27 == k / 27 && j % 9 / 3 == k % 9 / 3))
  }

  predicate NoConflict(b: Board, k: nat)
    requires k < 81
  {
    forall p: nat :: p < 81 && Peers(p, k) ==> b[p] != b[k]
  }

  // ---------------------------------------------------------------------------------------
  // The search as a function: the boards it reaches from cell k on, in order
  // ---------------------------------------------------------------------------------------

  function Search(b: Board, k: nat): seq<Board>
    requires k <= 81
    decreases 81 - k, 2, 0
  {
    if k == 81 then [b]
    else if b[k] == 0 then TryFrom(b, k, 1)
    else Search(b, k + 1)
  }

  /** What the search reaches from the blank cell k with the values i..9. */
  function TryFrom(b: Board, k: nat, i: nat): seq<Board>
    requires k < 81 && 1 <= i <= 10
    decreases 81 - k, 1, 10 - i
  {
    if i == 10 then []
    else TryValue(b, k, i) + TryFrom(b, k, i + 1)
  }

  function TryValue(b: Board, k: nat, i: int): seq<Board>
    requires k < 81
    decreases 81 - k, 0, 0
  {
    if NoConflict(b[k := i], k) then Search(b[k := i], k + 1) else []
  }

  // ---------------------------------------------------------------------------------------
  // What the search is for
  // ---------------------------------------------------------------------------------------

  /** s keeps the filled cells of b and fills every blank with a digit no peer holds. */
  ghost predicate Completes(b: Board, s: Board) {
    forall j: nat :: j < 81 ==> if b[j] != 0 then s[j] == b[j] else 1 <= s[j] <= 9 && NoConflict(s, j)
  }

  ghost predicate FilledBefore(b: Board, k: nat) {
    forall j: nat :: j < k && j < 81 ==> b[j] != 0
  }

  lemma FillOneCell(b: Board, k: nat, s: Board)
    requires k < 81 && b[k] == 0
    ensures Completes(b, s) <==>
            1 <= s[k] <= 9 && NoConflict(b[k := s[k]], k) && Completes(b[k := s[k]], s)
  {
    var b' := b[k := s[k]];
    if Completes(b, s) {
      assert NoConflict(s, k);
      forall p: nat | p < 81 && Peers(p, k)
        ensures b'[p] != b'[k]
      {
        assert s[p] != s[k];
      }
    }
    if 1 <= s[k] <= 9 && NoConflict(b', k) && Completes(b', s) {
      forall p: nat | p < 81 && Peers(p, k)
        ensures s[p] != s[k]
      {
        assert b'[p] != b'[k];
        assert Peers(k, p);
      }
      assert NoConflict(s, k);
    }
  }

  /** Soundness and completeness: the search reaches exactly the completions of the board. */
  lemma {:induction false} SearchIsExact(b: Board, k: nat, s: Board)
    requires k <= 81 && FilledBefore(b, k)
    ensures s in Search(b, k) <==> Completes(b, s)
    decreases 81 - k, 2, 0
  {
    if k == 81 {
      if Completes(b, s) {
        assert s == b;
      }
    } else if b[k] == 0 {
      TryFromIsExact(b, k, 1, s);
      FillOneCell(b, k, s);
    } else {
      SearchIsExact(b, k + 1, s);
    }
  }

  lemma {:induction false} TryFromIsExact(b: Board, k: nat, i: nat, s: Board)
    requires k < 81 && 1 <= i <= 10 && b[k] == 0 && FilledBefore(b, k)
    ensures s in TryFrom(b, k, i) <==>
            i <= s[k] <= 9 && NoConflict(b[k := s[k]], k) && Completes(b[k := s[k]], s)
    decreases 81 - k, 1, 10 - i
  {
    if i < 10 {
      var b' := b[k := i];
      SearchIsExact(b', k + 1, s);
      TryFromIsExact(b, k, i + 1, s);
      if s in TryValue(b, k, i) {
        assert s[k] == b'[k];
      }
    }
  }

  // ---------------------------------------------------------------------------------------
  // Order
  // ---------------------------------------------------------------------------------------

  ghost predicate DiffersAt(s: Board, t: Board, m: nat) {
    m < 81 && s[m] < t[m] && s[..m] == t[..m]
  }

  ghost predicate LexLess(s: Board, t: Board) {
    exists m: nat :: DiffersAt(s, t, m)
  }

  ghost predicate Increasing(boards: seq<Board>) {
    forall x: nat, y: nat :: x < y < |boards| ==> LexLess(boards[x], boards[y])
  }

  lemma SearchKeepsPrefix(b: Board, k: nat, s: Board)
    requires k <= 81 && FilledBefore(b, k) && s in Search(b, k)
    ensures s[..k] == b[..k]
  {
    SearchIsExact(b, k, s);
    assert forall j: nat :: j < k ==> s[j] == b[j];
  }

  /** The boards come out in strictly increasing lexicographic order, hence without repeats. */
  lemma {:induction false} SearchIsIncreasing(b: Board, k: nat)
    requires k <= 81 && FilledBefore(b, k)
    ensures Increasing(Search(b, k))
    decreases 81 - k, 2, 0
  {
    if k == 81 {
    } else if b[k] == 0 {
      TryFromIsIncreasing(b, k, 1);
    } else {
      SearchIsIncreasing(b, k + 1);
    }
  }

  lemma {:induction false} TryFromIsIncreasing(b: Board, k: nat, i: nat)
    requires k < 81 && 1 <= i <= 10 && b[k] == 0 && FilledBefore(b, k)
    ensures Increasing(TryFrom(b, k, i))
    decreases 81 - k, 1, 10 - i
  {
    if i < 10 {
      var first, rest := TryValue(b, k, i), TryFrom(b, k, i + 1);
      var b' := b[k := i];
      SearchIsIncreasing(b', k + 1);
      TryFromIsIncreasing(b, k, i + 1);
      forall s, t | s in first && t in rest
        ensures LexLess(s, t)
      {
        SearchKeepsPrefix(b', k + 1, s);
        assert s[k] == b'[..k + 1][k] by { assert s[k] == s[..k + 1][k]; }
        TryFromIsExact(b, k, i + 1, t);
        SearchIsExact(b[k := t[k]], k + 1, t);
        SearchKeepsPrefix(b[k := t[k]], k + 1, t);
        assert s[..k] == s[..k + 1][..k] == b[..k];
        assert t[..k] == t[..k + 1][..k] == b[..k];
        assert DiffersAt(s, t, k);
      }
      ConcatIncreasing(first, rest);
    }
  }

  lemma ConcatIncreasing(first: seq<Board>, rest: seq<Board>)
    requires Increasing(first) && Increasing(rest)
    requires forall s, t :: s in first && t in rest ==> LexLess(s, t)
    ensures Increasing(first + rest)
  {
    var all := first + rest;
    forall x: nat, y: nat | x < y < |all|
      ensures LexLess(all[x], all[y])
    {
      if y < |first| {
        assert LexLess(first[x], first[y]);
      } else if |first| <= x {
        assert LexLess(rest[x - |first|], rest[y - |first|]);
      } else {
        assert first[x] in first && rest[y - |first|] in rest;
      }
    }
  }

  lemma NoRepeats(b: Board)
    ensures forall x: nat, y: nat :: x < y < |Search(b, 0)| ==> Search(b, 0)[x] != Search(b, 0)[y]
  {
    SearchIsIncreasing(b, 0);
    var boards := Search(b, 0);
    forall x: nat, y: nat | x < y < |boards|
      ensures boards[x] != boards[y]
    {
      assert LexLess(boards[x], boards[y]);
      var m: nat :| DiffersAt(boards[x], boards[y], m);
    }
  }

  // ---------------------------------------------------------------------------------------
  // Sudoku solutions, defined by what a filled grid must contain
  // ---------------------------------------------------------------------------------------

  datatype Line = Row | Column | Box

  /** The n-th cell of the u-th row, column or box. */
  function Cell(line: Line, u: nat, n: nat): (k: nat)
    requires u < 9 && n < 9
    ensures k < 81
  {
    match line
    case Row => 9 * u + n
    case Column => 9 * n + u
    case Box => 27 * (u / 3) + 9 * (n / 3) + 3 * (u % 3) + n % 3
  }

  function Values(s: Board, line: Line, u: nat): (vs: seq<int>)
    requires u < 9
    ensures |vs| == 9
  {
    seq(9, n requires 0 <= n < 9 => s[Cell(line, u, n)])
  }

  /** The rule of the game: every row, column and box contains every digit. */
  ghost predicate IsSolved(s: Board) {
    forall line, u: nat, v: int :: u < 9 && 1 <= v <= 9 ==> v in Values(s, line, u)
  }

  ghost predicate Legal(s: Board) {
    forall j: nat :: j < 81 ==> 1 <= s[j] <= 9 && NoConflict(s, j)
  }

  ghost predicate Extends(b: Board, s: Board) {
    forall j: nat :: j < 81 && b[j] != 0 ==> s[j] == b[j]
  }

  /** The givens are digits, and no two givens that are peers agree. */
  ghost predicate ConsistentClues(b: Board) {
    forall j: nat :: j < 81 && b[j] != 0 ==> 1 <= b[j] <= 9 && NoConflict(b, j)
  }

  ghost predicate Distinct(vs: seq<int>) {
    forall n: nat, m: nat :: n < m < |vs| ==> vs[n] != vs[m]
  }

  ghost function Elements(vs: seq<int>): set<int> {
    set v | v in vs
  }

  lemma {:induction false} CountElements(vs: seq<int>)
    ensures |Elements(vs)| <= |vs|
    ensures |Elements(vs)| == |vs| <==> Distinct(vs)
  {
    if vs == [] {
    } else {
      var last := |vs| - 1;
      CountElements(vs[..last]);
      assert vs == vs[..last] + [vs[last]];
      assert Elements(vs) == Elements(vs[..last]) + {vs[last]};
      if Distinct(vs[..last]) && vs[last] !in vs[..last] {
        assert Distinct(vs);
      } else if vs[last] in vs[..last] {
        var n: nat :| n < last && vs[n] == vs[last];
        assert Elements(vs) == Elements(vs[..last]);
      } else {
        var n: nat, m: nat :| n < m < last && vs[..last][n] == vs[..last][m];
        assert vs[n] == vs[m];
      }
    }
  }

  ghost function Digits(n: nat): (ds: set<int>)
    ensures |ds| == n
    ensures forall v :: v in ds <==> 1 <= v <= n
  {
    if n == 0 then {} else Digits(n - 1) + {n}
  }

  lemma SubsetOfSameSize(small: set<int>, large: set<int>)
    requires small <= large && |small| >= |large|
    ensures small == large
  {
    assert large == small + (large - small);
    assert |large - small| == |large| - |small|;
  }

  /** n values contain all of 1..n exactly when they are distinct and among 1..n. */
  lemma AllDigits(vs: seq<int>)
    ensures (forall v :: 1 <= v <= |vs| ==> v in vs)
            <==> (Distinct(vs) && forall n: nat :: n < |vs| ==> 1 <= vs[n] <= |vs|)
  {
    CountElements(vs);
    var ds := Digits(|vs|);
    if forall v :: 1 <= v <= |vs| ==> v in vs {
      SubsetOfSameSize(ds, Elements(vs));
      forall n: nat | n < |vs|
        ensures 1 <= vs[n] <= |vs|
      {
        assert vs[n] in Elements(vs);
      }
    }
    if Distinct(vs) && forall n: nat :: n < |vs| ==> 1 <= vs[n] <= |vs| {
      SubsetOfSameSize(Elements(vs), ds);
      forall v | 1 <= v <= |vs|
        ensures v in vs
      {
        assert v in Elements(vs);
      }
    }
  }

  /** The u and n with Cell(line, u, n) == k. */
  function Place(line: Line, k: nat): (p: (nat, nat))
    requires k < 81
    ensures p.0 < 9 && p.1 < 9 && Cell(line, p.0, p.1) == k
  {
    match line
    case Row => (k / 9, k % 9)
    case Column => (k % 9, k / 9)
    case Box =>
      SplitCell(k);
      SplitByThree(k / 27, k % 9 / 3);
      SplitByThree(k / 9 % 3, k % 3);
      (3 * (k / 27) + k % 9 / 3, 3 * (k / 9 % 3) + k % 3)
  }

  lemma SplitByThree(a: nat, b: nat)
    requires b < 3
    ensures (3 * a + b) / 3 == a && (3 * a + b) % 3 == b
  {
  }

  lemma SplitCell(k: nat)
    ensures k == 27 * (k / 27) + 9 * (k / 9 % 3) + 3 * (k % 9 / 3) + k % 3
  {
    var row := k / 9;
    assert k / 27 == row / 3;
    assert row == 3 * (row / 3) + row % 3;
    assert k == 9 * row + k % 9;
    ColumnOfCell(k);
  }

  lemma ColumnOfCell(k: nat)
    ensures k % 9 == 3 * (k % 9 / 3) + k % 3
  {
    var q, r := k / 9, k % 9;
    SplitByThree(3 * q + r / 3, r % 3);
  }

  lemma BoxOfCell(u: nat, n: nat)
    requires u < 9 && n < 9
    ensures Cell(Box, u, n) / 27 == u / 3
    ensures Cell(Box, u, n) % 9 / 3 == u % 3
    ensures Cell(Box, u, n) / 9 % 3 == n / 3
    ensures Cell(Box, u, n) % 3 == n % 3
  {
    var low := 3 * (u % 3) + n % 3;
    assert low < 9;
    assert Cell(Box, u, n) == 9 * (3 * (u / 3) + n / 3) + low;
    assert Cell(Box, u, n) / 9 == 3 * (u / 3) + n / 3;
    assert Cell(Box, u, n) % 9 == low;
    assert Cell(Box, u, n) / 27 == (3 * (u / 3) + n / 3) / 3;
  }

  lemma CellsOfALineArePeers(line: Line, u: nat, n: nat, m: nat)
    requires u < 9 && n < 9 && m < 9 && n != m
    ensures Peers(Cell(line, u, n), Cell(line, u, m))
  {
    match line
    case Row =>
      assert (9 * u + n) / 9 == u && (9 * u + m) / 9 == u;
    case Column =>
      assert (9 * n + u) % 9 == u && (9 * m + u) % 9 == u;
    case Box =>
      BoxOfCell(u, n);
      BoxOfCell(u, m);
      assert n == 3 * (n / 3) + n % 3 && m == 3 * (m / 3) + m % 3;
      PeersInBox(Cell(Box, u, n), Cell(Box, u, m));
  }

  lemma PeersInBox(j: nat, k: nat)
    requires j != k && j / 27 == k / 27 && j % 9 / 3 == k % 9 / 3
    ensures Peers(j, k)
  {
  }

  lemma PeersShareALine(j: nat, k: nat)
    requires j < 81 && k < 81 && Peers(j, k)
    ensures exists line :: Place(line, j).0 == Place(line, k).0
  {
    if j / 9 == k / 9 {
      assert Place(Row, j).0 == Place(Row, k).0;
    } else if j % 9 == k % 9 {
      assert Place(Column, j).0 == Place(Column, k).0;
    } else {
      assert Place(Box, j).0 == Place(Box, k).0;
    }
  }

  /** Checking for conflicts cell by cell is the rule of the game. */
  lemma LegalIsSolved(s: Board)
    ensures Legal(s) <==> IsSolved(s)
  {
    if Legal(s) {
      forall line, u: nat, v: int | u < 9 && 1 <= v <= 9
        ensures v in Values(s, line, u)
      {
        forall n: nat, m: nat | n < m < 9
          ensures Values(s, line, u)[n] != Values(s, line, u)[m]
        {
          CellsOfALineArePeers(line, u, n, m);
          assert NoConflict(s, Cell(line, u, m));
        }
        AllDigits(Values(s, line, u));
      }
    }
    if IsSolved(s) {
      forall j: nat | j < 81
        ensures 1 <= s[j] <= 9 && NoConflict(s, j)
      {
        SolvedLine(s, Row, j);
        forall p: nat | p < 81 && Peers(p, j)
          ensures s[p] != s[j]
        {
          PeersShareALine(p, j);
          var line :| Place(line, p).0 == Place(line, j).0;
          SolvedLine(s, line, j);
          assert Values(s, line, Place(line, j).0)[Place(line, p).1] == s[p];
        }
      }
    }
  }

  lemma SolvedLine(s: Board, line: Line, j: nat)
    requires j < 81 && IsSolved(s)
    ensures 1 <= s[j] <= 9
    ensures Distinct(Values(s, line, Place(line, j).0))
    ensures Values(s, line, Place(line, j).0)[Place(line, j).1] == s[j]
  {
    var p := Place(line, j);
    assert forall v :: 1 <= v <= 9 ==> v in Values(s, line, p.0);
    AllDigits(Values(s, line, p.0));
    assert Values(s, line, p.0)[p.1] == s[j];
  }

  /** With consistent clues the search reaches exactly the solutions of the puzzle. */
  lemma SearchFindsTheSolutions(b: Board, s: Board)
    requires ConsistentClues(b)
    ensures s in Search(b, 0) <==> Extends(b, s) && IsSolved(s)
  {
    SearchIsExact(b, 0, s);
    LegalIsSolved(s);
    if Completes(b, s) {
      forall j: nat | j < 81
        ensures 1 <= s[j] <= 9 && NoConflict(s, j)
      {
        if b[j] != 0 {
          assert NoConflict(b, j);
          forall p: nat | p < 81 && Peers(p, j)
            ensures s[p] != s[j]
          {
            if b[p] == 0 {
              assert NoConflict(s, p) && Peers(j, p);
            }
          }
        }
      }
    }
  }

  /** The search never compares two givens: whatever it reaches is a solution exactly when
      the clues were consistent to begin with. */
  lemma ReachedIsSolvedIffCluesConsistent(b: Board, s: Board)
    requires s in Search(b, 0)
    ensures IsSolved(s) <==> ConsistentClues(b)
  {
    SearchIsExact(b, 0, s);
    LegalIsSolved(s);
    if ConsistentClues(b) {
      SearchFindsTheSolutions(b, s);
    }
    if Legal(s) {
      forall j: nat | j < 81 && b[j] != 0
        ensures 1 <= b[j] <= 9 && NoConflict(b, j)
      {
        assert NoConflict(s, j);
        forall p: nat | p < 81 && Peers(p, j)
          ensures b[p] != b[j]
        {
          assert s[p] != s[j];
        }
      }
    }
  }

  /** Two equal givens are never compared: this board is reached and is no solution. */
  lemma ConflictingCluesAreReached()
    ensures var b: Board := seq(81, _ => 1); b in Search(b, 0) && !IsSolved(b)
  {
    var b: Board := seq(81, _ => 1);
    SearchIsExact(b, 0, b);
    ReachedIsSolvedIffCluesConsistent(b, b);
    assert Peers(1, 0) && b[1] == b[0];
    assert !NoConflict(b, 0);
  }
}
