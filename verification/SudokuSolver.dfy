/**
The solver program of Lab 9: the in-place search over the shared 9x9 grid, the parsing of the
serialised board, and the commands written to the game server.  The server's answers carry no
information the program uses, so the socket is the sequence of commands sent.
*/
module SudokuSolver {
  import opened Sudoku
  import opened Sequences

  datatype Command = Serialize | Place(row: nat, col: nat, value: int) | Check

  type Flags = f: seq<bool> | |f| == 81 witness seq(81, _ => false)

  /** The V commands for the first n cells of a board: one for every flagged cell. */
  function Commands(flags: Flags, b: Board, n: nat): seq<Command>
    requires n <= 81
  {
    if n == 0 then []
    else Commands(flags, b, n - 1) + (if flags[n - 1] then [Place((n - 1) / 9, (n - 1) % 9, b[n - 1])] else [])
  }

  function AllCommands(flags: Flags, boards: seq<Board>): seq<Command> {
    if boards == [] then []
    else AllCommands(flags, boards[..|boards| - 1]) + Commands(flags, boards[|boards| - 1], |flags|)
  }

  lemma {:induction false} AllCommandsConcat(flags: Flags, first: seq<Board>, rest: seq<Board>)
    ensures AllCommands(flags, first + rest) == AllCommands(flags, first) + AllCommands(flags, rest)
  {
    if rest == [] {
      assert first + rest == first;
    } else {
      var n := |rest| - 1;
      var all := first + rest;
      assert all[..|all| - 1] == first + rest[..n] && all[|all| - 1] == rest[n];
      AllCommandsConcat(flags, first, rest[..n]);
      Assoc(AllCommands(flags, first), AllCommands(flags, rest[..n]), Commands(flags, rest[n], |flags|));
    }
  }

  lemma FoundMore(sent: seq<Command>, flags: Flags, found: seq<Board>, now: seq<Board>)
    ensures (sent + AllCommands(flags, found)) + AllCommands(flags, now) == sent + AllCommands(flags, found + now)
  {
    AllCommandsConcat(flags, found, now);
    Assoc(sent, AllCommands(flags, found), AllCommands(flags, now));
  }

  // The serialised board: four characters of preamble, then one character a cell.

  predicate IsBoardText(text: string) {
    |text| >= 85
  }

  function ParsedCell(c: char): int {
    if c == '.' then 0 else c as int - '0' as int
  }

  function Parsed(text: string): Board
    requires IsBoardText(text)
  {
    seq(81, k requires 0 <= k < 81 => ParsedCell(text[k + 4]))
  }

  function Dots(text: string): Flags
    requires IsBoardText(text)
  {
    seq(81, k requires 0 <= k < 81 => text[k + 4] == '.')
  }

  /** What the cells' characters mean: a dot or a zero is 0, a digit its value. */
  lemma CellOfCharacter(text: string, k: nat, v: nat)
    requires IsBoardText(text) && k < 81 && v < 10
    ensures 1 <= v ==> (Parsed(text)[k] == v <==> text[k + 4] == "0123456789"[v])
    ensures Parsed(text)[k] == 0 <==> text[k + 4] == '.' || text[k + 4] == '0'
    ensures Dots(text)[k] <==> text[k + 4] == '.'
  {
    CharacterOfDigit(v);
  }

  lemma CharacterOfDigit(v: nat)
    requires v < 10
    ensures "0123456789"[v] as int == 48 + v
  {
  }

  ghost predicate IsPuzzle(b: Board) {
    forall k :: 0 <= k < 81 ==> 0 <= b[k] <= 9
  }

  /** A board as the game server writes it, behind four characters: a dot for a blank. */
  function Serialized(front: string, b: Board): string
    requires forall k :: 0 <= k < 81 ==> 0 <= b[k] <= 9
  {
    front + seq(81, k requires 0 <= k < 81 => if b[k] == 0 then '.' else "0123456789"[b[k]])
  }

  /** Reading what was written gives the board, and the flags of its blanks. */
  lemma ParsedSerialized(front: string, b: Board)
    requires |front| == 4 && IsPuzzle(b)
    ensures var text := Serialized(front, b);
            IsBoardText(text) && Parsed(text) == b && '0' !in text[4..85]
            && forall k :: 0 <= k < 81 ==> (Dots(text)[k] <==> b[k] == 0)
  {
    var text := Serialized(front, b);
    forall k: nat | k < 81
      ensures Parsed(text)[k] == b[k] && (Dots(text)[k] <==> b[k] == 0) && text[4..85][k] != '0'
    {
      assert text[k + 4] == if b[k] == 0 then '.' else "0123456789"[b[k]];
      CharacterOfDigit(b[k]);
    }
  }

  class Solver {
    const grid: array2<int>
    const ifSend: array2<bool>
    var sent: seq<Command>
    ghost var reached: seq<Board>

    ghost predicate Valid() {
      grid.Length0 == grid.Length1 == ifSend.Length0 == ifSend.Length1 == 9
    }

    ghost function Cells(): Board
      requires Valid()
      reads grid
    {
      seq(81, k requires 0 <= k < 81 reads grid => grid[k / 9, k % 9])
    }

    ghost function Blanks(): Flags
      requires Valid()
      reads ifSend
    {
      seq(81, k requires 0 <= k < 81 reads ifSend => ifSend[k / 9, k % 9])
    }

    constructor ()
      ensures Valid() && fresh(grid) && fresh(ifSend)
      ensures sent == [] && reached == []
      ensures Blanks() == seq(81, _ => false)
    {
      grid := new int[9, 9]((i, j) => 0);
      ifSend := new bool[9, 9]((i, j) => false);
      sent, reached := [], [];
    }

    /** Whether some cell of the row, the column or the rest of the box repeats the value. */
    method IsPlace(count: nat) returns (ok: bool)
      requires Valid() && count < 81
      ensures ok <==> NoConflict(Cells(), count)
    {
      var row, col := count / 9, count % 9;
      for j := 0 to 9
        invariant forall c :: 0 <= c < j && c != col ==> grid[row, c] != grid[row, col]
      {
        if grid[row, j] == grid[row, col] && j != col {
          Clash(count, row, j);
          return false;
        }
      }
      for j := 0 to 9
        invariant forall r :: 0 <= r < j && r != row ==> grid[r, col] != grid[row, col]
      {
        if grid[j, col] == grid[row, col] && j != row {
          Clash(count, j, col);
          return false;
        }
      }
      var tempRow, tempCol := row / 3 * 3, col / 3 * 3;
      for j := tempRow to tempRow + 3
        invariant forall r, c :: tempRow <= r < j && tempCol <= c < tempCol + 3 && r != row && c != col ==>
                                   grid[r, c] != grid[row, col]
      {
        for k := tempCol to tempCol + 3
          invariant forall c :: tempCol <= c < k && j != row && c != col ==> grid[j, c] != grid[row, col]
        {
          if grid[j, k] == grid[row, col] && j != row && k != col {
            Clash(count, j, k);
            return false;
          }
        }
      }
      forall p: nat | p < 81 && Peers(p, count)
        ensures Cells()[p] != Cells()[count]
      {
        assert Cells()[p] == grid[p / 9, p % 9];
        PeerInGrid(p, count);
      }
      return true;
    }

    lemma Clash(count: nat, r: nat, c: nat)
      requires Valid() && count < 81 && r < 9 && c < 9
      requires r == count / 9 || c == count % 9 || (r / 3 == count / 9 / 3 && c / 3 == count % 9 / 3)
      requires !(r == count / 9 && c == count % 9)
      requires grid[r, c] == grid[count / 9, count % 9]
      ensures !NoConflict(Cells(), count)
    {
      var p := 9 * r + c;
      assert p / 9 == r && p % 9 == c && p / 27 == r / 3;
      assert Peers(p, count);
      assert Cells()[p] == Cells()[count];
    }

    /** The recursive search: it reports every completion of the grid and restores the grid. */
    method Backtrace(count: nat)
      requires Valid() && count <= 81
      modifies grid, this`sent, this`reached
      ensures Cells() == old(Cells())
      ensures reached == old(reached) + Search(old(Cells()), count)
      ensures sent == old(sent) + AllCommands(Blanks(), Search(old(Cells()), count))
      decreases 81 - count, 2, 0
    {
      if count == 81 {
        Report();
        return;
      }
      var row, col := count / 9, count % 9;
      if grid[row, col] == 0 {
        FillBlank(count);
      } else {
        Backtrace(count + 1);
      }
    }

    /** The blank branch of the search: the nine digits in turn, then the cell is blank again. */
    method FillBlank(count: nat)
      requires Valid() && count < 81 && Cells()[count] == 0
      modifies grid, this`sent, this`reached
      ensures Cells() == old(Cells())
      ensures reached == old(reached) + TryFrom(old(Cells()), count, 1)
      ensures sent == old(sent) + AllCommands(Blanks(), TryFrom(old(Cells()), count, 1))
      decreases 81 - count, 1, 0
    {
      ghost var before, flags, found := Cells(), Blanks(), [];
      var i := 1;
      while i <= 9
        invariant 1 <= i <= 10
        invariant Blanks() == flags && Cells() == before[count := Cells()[count]]
        invariant TryFrom(before, count, 1) == found + TryFrom(before, count, i)
        invariant reached == old(reached) + found
        invariant sent == old(sent) + AllCommands(flags, found)
      {
        ghost var now := TryValue(before, count, i);
        FoundMore(old(sent), flags, found, now);
        Assoc(found, now, TryFrom(before, count, i + 1));
        Assoc(old(reached), found, now);
        TryDigit(count, i, before);
        found := found + now;
        i := i + 1;
      }
      assert found == TryFrom(before, count, 1);
      SetCell(count, 0);
      assert Cells() == before;
    }

    /** One digit in the blank cell, and the search behind it if no peer has that digit. */
    method TryDigit(count: nat, i: int, ghost before: Board)
      requires Valid() && count < 81 && Cells() == before[count := Cells()[count]]
      modifies grid, this`sent, this`reached
      ensures Cells() == before[count := i]
      ensures reached == old(reached) + TryValue(before, count, i)
      ensures sent == old(sent) + AllCommands(Blanks(), TryValue(before, count, i))
      decreases 81 - count, 0, 0
    {
      SetCell(count, i);
      assert Cells() == before[count := i];
      var ok := IsPlace(count);
      if ok {
        Backtrace(count + 1);
      }
    }

    /** The grid is complete: send it. */
    method Report()
      requires Valid()
      modifies this`sent, this`reached
      ensures reached == old(reached) + [Cells()]
      ensures sent == old(sent) + AllCommands(Blanks(), [Cells()])
    {
      SendBoard();
      reached := reached + [Cells()];
      assert [Cells()][..0] == [];
    }

    method SetCell(k: nat, v: int)
      requires Valid() && k < 81
      modifies grid
      ensures Cells() == old(Cells())[k := v]
      ensures grid[k / 9, k % 9] == v
    {
      grid[k / 9, k % 9] := v;
      SameCell(k);
    }

    /** One V command for every cell that was blank when the board was read. */
    method SendBoard()
      requires Valid()
      modifies this`sent
      ensures sent == old(sent) + Commands(Blanks(), Cells(), |Cells()|)
    {
      ghost var flags, cells := Blanks(), Cells();
      for i := 0 to 9
        invariant sent == old(sent) + Commands(flags, cells, 9 * i)
      {
        for j := 0 to 9
          invariant sent == old(sent) + Commands(flags, cells, 9 * i + j)
        {
          ghost var k := 9 * i + j;
          assert k / 9 == i && k % 9 == j;
          assert flags[k] == ifSend[i, j] && cells[k] == grid[i, j];
          if ifSend[i, j] {
            sent := sent + [Place(i, j, grid[i, j])];
          }
        }
      }
    }

    method Load(text: string)
      requires Valid() && IsBoardText(text)
      requires Blanks() == seq(81, _ => false)
      modifies grid, ifSend
      ensures Cells() == Parsed(text) && Blanks() == Dots(text)
    {
      forall k | 0 <= k < 81
        ensures !ifSend[k / 9, k % 9]
      {
        assert !Blanks()[k];
      }
      for i := 0 to 81
        invariant forall k :: 0 <= k < i ==> grid[k / 9, k % 9] == ParsedCell(text[k + 4])
        invariant forall k :: 0 <= k < 81 ==> ifSend[k / 9, k % 9] == (k < i && text[k + 4] == '.')
      {
        SameCell(i);
        if text[i + 4] == '.' {
          grid[i / 9, i % 9] := 0;
          ifSend[i / 9, i % 9] := true;
        } else {
          grid[i / 9, i % 9] := text[i + 4] as int - '0' as int;
        }
      }
    }

    /** The whole session: ask for the board, fill in every completion, ask for the check. */
    method Play(text: string)
      requires Valid() && IsBoardText(text)
      requires Blanks() == seq(81, _ => false) && sent == [] && reached == []
      modifies this, grid, ifSend
      ensures reached == Search(Parsed(text), 0)
      ensures sent == Conversation(text, Search(Parsed(text), 0))
    {
      sent := [Serialize];
      Load(text);
      Backtrace(0);
      sent := sent + [Check];
    }
  }

  lemma SameCell(k: nat)
    ensures forall p: nat :: p / 9 == k / 9 && p % 9 == k % 9 ==> p == k
  {
    forall p: nat | p / 9 == k / 9 && p % 9 == k % 9
      ensures p == k
    {
      assert p == 9 * (p / 9) + p % 9 && k == 9 * (k / 9) + k % 9;
    }
  }

  lemma PeerInGrid(p: nat, k: nat)
    requires p < 81 && k < 81 && Peers(p, k)
    ensures p / 9 == k / 9 ==> p % 9 != k % 9
    ensures p / 9 != k / 9 && p % 9 != k % 9 ==>
              && k / 9 / 3 * 3 <= p / 9 < k / 9 / 3 * 3 + 3
              && k % 9 / 3 * 3 <= p % 9 < k % 9 / 3 * 3 + 3
  {
    assert p == 9 * (p / 9) + p % 9 && k == 9 * (k / 9) + k % 9;
    assert p / 27 == p / 9 / 3 && k / 27 == k / 9 / 3;
  }

  // ---------------------------------------------------------------------------------------
  // What the game server's board looks like after the commands
  // ---------------------------------------------------------------------------------------

  function Perform(b: Board, c: Command): Board {
    match c
    case Place(row, col, value) => if 9 * row + col < 81 then b[9 * row + col := value] else b
    case _ => b
  }

  function Replay(b: Board, commands: seq<Command>): Board {
    if commands == [] then b
    else Perform(Replay(b, commands[..|commands| - 1]), commands[|commands| - 1])
  }

  lemma ReplaySnoc(b: Board, commands: seq<Command>, c: Command)
    ensures Replay(b, commands + [c]) == Perform(Replay(b, commands), c)
  {
    assert (commands + [c])[..|commands|] == commands;
  }

  lemma {:induction false} ReplayConcat(b: Board, first: seq<Command>, rest: seq<Command>)
    ensures Replay(b, first + rest) == Replay(Replay(b, first), rest)
  {
    if rest == [] {
      assert first + rest == first;
    } else {
      var n := |rest| - 1;
      assert (first + rest)[..|first| + n] == first + rest[..n];
      ReplayConcat(b, first, rest[..n]);
    }
  }

  /** b with its first n cells taken from s where they are flagged. */
  function Overlay(b: Board, flags: Flags, s: Board, n: nat): Board {
    seq(81, j requires 0 <= j < 81 => if flags[j] && j < n then s[j] else b[j])
  }

  lemma OverlayStep(b: Board, flags: Flags, s: Board, k: nat)
    requires k < 81
    ensures Overlay(b, flags, s, k + 1)
            == if flags[k] then Overlay(b, flags, s, k)[k := s[k]] else Overlay(b, flags, s, k)
  {
  }

  lemma {:induction false} ReplayOneBoard(b: Board, flags: Flags, s: Board, n: nat)
    requires n <= 81
    ensures Replay(b, Commands(flags, s, n)) == Overlay(b, flags, s, n)
  {
    if n == 0 {
      assert Overlay(b, flags, s, n) == b;
    } else {
      var k := n - 1;
      var earlier, c := Commands(flags, s, k), Place(k / 9, k % 9, s[k]);
      ReplayOneBoard(b, flags, s, k);
      OverlayStep(b, flags, s, k);
      ReplaySnoc(b, earlier, c);
      assert Commands(flags, s, n) == if flags[k] then earlier + [c] else earlier;
    }
  }

  lemma {:induction false} ReplayAllBoards(b: Board, flags: Flags, boards: seq<Board>)
    ensures Replay(b, AllCommands(flags, boards))
            == if boards == [] then b else Overlay(b, flags, boards[|boards| - 1], |b|)
  {
    if boards != [] {
      var n := |boards| - 1;
      ReplayAllBoards(b, flags, boards[..n]);
      var before := Replay(b, AllCommands(flags, boards[..n]));
      ReplayConcat(b, AllCommands(flags, boards[..n]), Commands(flags, boards[n], |flags|));
      ReplayOneBoard(before, flags, boards[n], |flags|);
      assert Overlay(before, flags, boards[n], |b|) == Overlay(b, flags, boards[n], |b|);
    }
  }

  /** All the commands of a session that reached the given boards. */
  function Conversation(text: string, boards: seq<Board>): seq<Command>
    requires IsBoardText(text)
  {
    [Serialize] + AllCommands(Dots(text), boards) + [Check]
  }

  lemma ReplaySession(text: string, boards: seq<Board>)
    requires IsBoardText(text) && boards != []
    ensures Replay(Parsed(text), Conversation(text, boards))
            == Overlay(Parsed(text), Dots(text), boards[|boards| - 1], |Dots(text)|)
  {
    var b := Parsed(text);
    var all := AllCommands(Dots(text), boards);
    assert [] + [Serialize] == [Serialize];
    ReplaySnoc(b, [], Serialize);
    ReplayConcat(b, [Serialize], all);
    ReplayAllBoards(b, Dots(text), boards);
    ReplaySnoc(b, [Serialize] + all, Check);
  }

  /** Overlaying a completion gives the completion back exactly when no blank is a zero digit. */
  lemma OverlayOfCompletion(text: string, s: Board)
    requires IsBoardText(text) && Completes(Parsed(text), s)
    ensures Overlay(Parsed(text), Dots(text), s, |s|) == s <==> '0' !in text[4..85]
  {
    var b, cells := Parsed(text), text[4..85];
    var result := Overlay(b, Dots(text), s, |s|);
    assert forall k: nat :: k < 81 ==> cells[k] == text[k + 4];
    if '0' in cells {
      var k: nat :| k < 81 && cells[k] == '0';
      assert b[k] == 0 && result[k] == 0 && s[k] != 0;
    } else {
      forall k: nat | k < 81
        ensures result[k] == s[k]
      {
        assert cells[k] != '0';
      }
      assert result == s;
    }
  }

  /** The board the commands leave behind is the last one the search reached, exactly when the
      serialised board marks every blank with a dot (a zero digit is searched but never sent). */
  lemma ReplayLeavesTheLastBoard(text: string)
    requires IsBoardText(text) && Search(Parsed(text), 0) != []
    ensures var boards := Search(Parsed(text), 0);
            Replay(Parsed(text), Conversation(text, boards)) == boards[|boards| - 1] <==> '0' !in text[4..85]
  {
    var boards := Search(Parsed(text), 0);
    var last := boards[|boards| - 1];
    assert last in boards;
    SearchIsExact(Parsed(text), 0, last);
    ReplaySession(text, boards);
    OverlayOfCompletion(text, last);
  }

  /** A board with one cell given as the digit zero: it is completed, and the server never hears of
      that cell. */
  lemma ZeroDigitIsNotSent()
    ensures var text := seq(85, i => if i == 4 then '0' else '2');
            var boards := Search(Parsed(text), 0);
            boards != [] && Replay(Parsed(text), Conversation(text, boards)) != boards[|boards| - 1]
  {
    var text := seq(85, i => if i == 4 then '0' else '2');
    var b := Parsed(text);
    var s: Board := b[0 := 1];
    assert b[0] == 0 && forall k: nat :: 0 < k < 81 ==> b[k] == 2;
    assert NoConflict(s, 0) by {
      forall p: nat | p < 81 && Peers(p, 0)
        ensures s[p] != s[0]
      {
        assert p != 0;
      }
    }
    SearchIsExact(b, 0, s);
    assert text[4..85][0] == '0';
    ReplayLeavesTheLastBoard(text);
  }

  ghost predicate WritesBlank(text: string, c: Command)
    requires IsBoardText(text)
  {
    c.Place? ==> c.row < 9 && c.col < 9 && text[9 * c.row + c.col + 4] == '.' && 1 <= c.value <= 9
  }

  lemma {:induction false} CommandsWriteBlanks(text: string, s: Board, n: nat)
    requires IsBoardText(text) && n <= 81 && Completes(Parsed(text), s)
    ensures forall c :: c in Commands(Dots(text), s, n) ==> WritesBlank(text, c)
  {
    if n > 0 {
      CommandsWriteBlanks(text, s, n - 1);
      assert Parsed(text)[n - 1] == 0 ==> 1 <= s[n - 1] <= 9;
    }
  }

  lemma {:induction false} AllCommandsWriteBlanks(text: string, boards: seq<Board>)
    requires IsBoardText(text) && forall s :: s in boards ==> Completes(Parsed(text), s)
    ensures forall c :: c in AllCommands(Dots(text), boards) ==> WritesBlank(text, c)
  {
    if boards != [] {
      var n := |boards| - 1;
      AllCommandsWriteBlanks(text, boards[..n]);
      CommandsWriteBlanks(text, boards[n], |boards[n]|);
    }
  }

  /** No command of a session touches a given: each puts a digit into a cell marked blank. */
  lemma SessionWritesOnlyBlanks(text: string)
    requires IsBoardText(text)
    ensures forall c :: c in Conversation(text, Search(Parsed(text), 0)) ==> WritesBlank(text, c)
  {
    var boards := Search(Parsed(text), 0);
    forall s | s in boards
      ensures Completes(Parsed(text), s)
    {
      SearchIsExact(Parsed(text), 0, s);
    }
    AllCommandsWriteBlanks(text, boards);
  }

  lemma OnlyElement<T>(xs: seq<T>, x: T)
    requires x in xs && forall y :: y in xs ==> y == x
    requires forall i: nat, j: nat :: i < j < |xs| ==> xs[i] != xs[j]
    ensures xs == [x]
  {
    forall i: nat | i < |xs|
      ensures xs[i] == x && i == 0
    {
      assert xs[i] in xs && xs[0] in xs;
      assert !(0 < i < |xs|);
    }
    assert xs[|xs| - 1] == x;
  }

  /** A puzzle with exactly one solution, its blanks written as dots, is solved on the server. */
  lemma UniquePuzzleIsSolved(text: string, s: Board)
    requires IsBoardText(text) && '0' !in text[4..85]
    requires ConsistentClues(Parsed(text)) && Extends(Parsed(text), s) && IsSolved(s)
    requires forall t: Board :: Extends(Parsed(text), t) && IsSolved(t) ==> t == s
    ensures Search(Parsed(text), 0) == [s]
    ensures Replay(Parsed(text), Conversation(text, [s])) == s
  {
    var b := Parsed(text);
    forall t
      ensures t in Search(b, 0) <==> t == s
    {
      if t in Search(b, 0) {
        SearchFindsTheSolutions(b, t);
      } else {
        SearchFindsTheSolutions(b, s);
      }
    }
    NoRepeats(b);
    OnlyElement(Search(b, 0), s);
    ReplayLeavesTheLastBoard(text);
  }

  /** The same for the puzzle itself: a board of digits and blanks with one solution, as the game
      server writes it, is reached once, and its session leaves the solution on the server. */
  lemma PuzzleIsSolved(front: string, p: Board, s: Board)
    requires |front| == 4 && IsPuzzle(p) && ConsistentClues(p) && Extends(p, s) && IsSolved(s)
    requires forall t: Board :: Extends(p, t) && IsSolved(t) ==> t == s
    ensures var text := Serialized(front, p);
            IsBoardText(text) && Search(Parsed(text), 0) == [s] && Replay(p, Conversation(text, [s])) == s
  {
    ParsedSerialized(front, p);
    UniquePuzzleIsSolved(Serialized(front, p), s);
  }
}
