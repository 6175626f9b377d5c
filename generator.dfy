/** The generator's procedures, which work on the grid in place: placing one
    word, filling the empty cells and the selection loop. Each is proved
    against the functions of module Placement. */
module Generator {
  import opened Geometry
  import opened Placement

  /** The mutable grid: a list of rows of cells, "" marking an empty cell. */
  class Grid {
    var cells: Board

    /** A grid holding the given rows. */
    constructor (g: Board)
      ensures cells == g
    {
      cells := g;
    }

    /** `len(grid)`: the number of rows. */
    function Size(): nat
      reads this
    {
      |cells|
    }

    /** The grid is square. */
    ghost predicate Valid()
      reads this
    {
      IsSquare(cells, |cells|)
    }
  }

  /** Two boards of the same shape with the same cells are equal. */
  lemma BoardExt(g: Board, h: Board, n: nat)
    requires IsSquare(g, n) && IsSquare(h, n)
    requires forall r, c :: 0 <= r < n && 0 <= c < n ==> g[r][c] == h[r][c]
    ensures g == h
  {
    forall r | 0 <= r < n
      ensures g[r] == h[r]
    {
    }
  }

  /** The check of one attempt whose end cell is in range: every cell of
      the path is empty or already holds the matching letter. */
  method PathFits(grid: Grid, word: string, a: Attempt) returns (fits: bool)
    requires grid.Valid() && ValidAttempt(a, grid.Size())
    requires InSquare(grid.Size(), EndOf(a.start, a.dir, |word|))
    ensures fits == Fits(grid.cells, grid.Size(), word, a)
  {
    var size := grid.Size();
    fits := true;
    var i := 0;
    while i < |word|
      invariant 0 <= i <= |word|
      invariant fits ==> forall j :: 0 <= j < i ==> CellAccepts(grid.cells, Step(a.start, a.dir, j), word[j])
      invariant !fits ==> !Fits(grid.cells, size, word, a)
    {
      PathInBounds(size, |word|, a, i);
      var r := a.start.0 + a.dir.0 * i;
      var c := a.start.1 + a.dir.1 * i;
      assert (r, c) == Step(a.start, a.dir, i);
      if grid.cells[r][c] != "" && grid.cells[r][c] != [word[i]] {
        fits := false;
        break;
      }
      i := i + 1;
    }
  }

  /** Writes the letters of word along the path of an accepted attempt. */
  method WritePath(grid: Grid, word: string, a: Attempt)
    requires grid.Valid() && ValidAttempt(a, grid.Size())
    requires InSquare(grid.Size(), EndOf(a.start, a.dir, |word|))
    modifies grid
    ensures grid.cells == Write(old(grid.cells), word, a)
  {
    var size := grid.Size();
    ghost var g0 := grid.cells;
    var i := 0;
    while i < |word|
      invariant 0 <= i <= |word|
      invariant grid.cells == WritePrefix(g0, word, a, i)
    {
      PathInBounds(size, |word|, a, i);
      var r := a.start.0 + a.dir.0 * i;
      var c := a.start.1 + a.dir.1 * i;
      assert (r, c) == Step(a.start, a.dir, i);
      grid.cells := SetCell(grid.cells, (r, c), [word[i]]);
      i := i + 1;
    }
  }

  /** Places word with the batch of draws tries: attempts are taken in
      order, at most MaxAttempts of them; an attempt whose end cell is out
      of range is discarded; the first one that fits is written and true is
      returned, otherwise the grid is left untouched and false is returned. */
  method PlaceWord(grid: Grid, word: string, tries: seq<Attempt>) returns (placed: bool, ghost attempts: nat)
    requires grid.Valid()
    requires |tries| >= MaxAttempts
    requires forall k :: 0 <= k < |tries| ==> ValidAttempt(tries[k], grid.Size())
    modifies grid
    ensures grid.Valid()
    ensures attempts <= MaxAttempts
    ensures placed <==> Choose(old(grid.cells), |old(grid.cells)|, word, tries, 0).Some?
    ensures placed ==>
              1 <= attempts && Choose(old(grid.cells), |old(grid.cells)|, word, tries, 0) == Some(attempts - 1) &&
              grid.cells == Write(old(grid.cells), word, tries[attempts - 1])
    ensures !placed ==> attempts == MaxAttempts && grid.cells == old(grid.cells)
  {
    var size := grid.Size();
    ghost var g0 := grid.cells;
    var count := 0;
    while count < MaxAttempts
      invariant 0 <= count <= MaxAttempts
      invariant Choose(g0, size, word, tries, 0) == Choose(g0, size, word, tries, count)
      invariant grid.cells == g0
    {
      count := count + 1;
      var a := tries[count - 1];
      var endR := a.start.0 + a.dir.0 * (|word| - 1);
      var endC := a.start.1 + a.dir.1 * (|word| - 1);
      if !(0 <= endR < size && 0 <= endC < size) {
        continue;  // the word would leave the grid
      }
      var fits := PathFits(grid, word, a);
      if fits {
        WritePath(grid, word, a);
        placed, attempts := true, count;
        return;
      }
    }
    placed, attempts := false, count;
  }

  /** Writes the drawn letter into every still-empty cell. */
  method FillEmptySpaces(grid: Grid, letters: seq<seq<char>>)
    requires grid.Valid() && IsLetterTable(letters, grid.Size())
    modifies grid
    ensures grid.Valid()
    ensures grid.cells == Fill(old(grid.cells), |old(grid.cells)|, letters)
  {
    ghost var g0 := grid.cells;
    var n := grid.Size();
    var r := 0;
    while r < n
      invariant 0 <= r <= n
      invariant IsSquare(grid.cells, n)
      invariant forall i, j :: 0 <= i < n && 0 <= j < n ==>
                  grid.cells[i][j] == if i < r && g0[i][j] == "" then [letters[i][j]] else g0[i][j]
    {
      var c := 0;
      while c < n
        invariant 0 <= c <= n
        invariant IsSquare(grid.cells, n)
        invariant forall i, j :: 0 <= i < n && 0 <= j < n ==>
                    grid.cells[i][j] == if (i < r || (i == r && j < c)) && g0[i][j] == "" then [letters[i][j]] else g0[i][j]
      {
        if grid.cells[r][c] == "" {
          grid.cells := SetCell(grid.cells, (r, c), [letters[r][c]]);
        }
        c := c + 1;
      }
      r := r + 1;
    }
    BoardExt(grid.cells, Fill(g0, n, letters), n);
  }

  /** The selection loop of the generator: place the words of the (already
      shuffled) bank in order, each with its own batch of draws, until
      wordCount of them are placed or the bank runs out. */
  method SelectWords(grid: Grid, wordBank: seq<string>, tries: seq<seq<Attempt>>, wordCount: int)
    returns (words: seq<string>, ghost placements: seq<Attempt>)
    requires grid.Valid() && ValidTries(tries, |wordBank|, grid.Size())
    modifies grid
    ensures grid.Valid() && |grid.cells| == |old(grid.cells)|
    ensures Outcome(grid.cells, words, placements)
         == Greedy(|old(grid.cells)|, wordBank, tries, wordCount, Outcome(old(grid.cells), [], []))
  {
    var n := grid.Size();
    ghost var final := Greedy(n, wordBank, tries, wordCount, Outcome(grid.cells, [], []));
    words, placements := [], [];
    var i := 0;
    while i < |wordBank|
      invariant 0 <= i <= |wordBank|
      invariant IsSquare(grid.cells, n)
      invariant ValidTries(tries[i..], |wordBank| - i, n)
      invariant Greedy(n, wordBank[i..], tries[i..], wordCount, Outcome(grid.cells, words, placements)) == final
    {
      if |words| == wordCount {
        break;
      }
      ghost var before := Outcome(grid.cells, words, placements);
      GreedyStep(n, wordBank[i..], tries[i..], wordCount, before);
      assert tries[i..][1..] == tries[i + 1..] && wordBank[i..][1..] == wordBank[i + 1..];
      assert wordBank[i..][0] == wordBank[i] && tries[i..][0] == tries[i];
      ValidTriesTail(tries[i..], |wordBank| - i, n);
      ghost var attempts: nat;
      var placed;
      placed, attempts := PlaceWord(grid, wordBank[i], tries[i]);
      if placed {
        words := words + [wordBank[i]];
        placements := placements + [tries[i][attempts - 1]];
        assert Outcome(grid.cells, words, placements) == Advance(n, wordBank[i], tries[i], before) by {
          AdvancePlaced(n, wordBank[i], tries[i], before, attempts - 1);
        }
      } else {
        assert Outcome(grid.cells, words, placements) == Advance(n, wordBank[i], tries[i], before) by {
          AdvanceDropped(n, wordBank[i], tries[i], before);
        }
      }
      i := i + 1;
    }
  }

  /** Generates one puzzle: an empty gridSize by gridSize grid, the
      selection loop over the shuffled bank, then the fill; the record holds
      the id, the grid and the words placed, in placement order. */
  method GeneratePuzzle(id: int, gridSize: nat, wordCount: int, wordBank: seq<string>,
                        tries: seq<seq<Attempt>>, letters: seq<seq<char>>) returns (p: Puzzle)
    requires ValidTries(tries, |wordBank|, gridSize) && IsLetterTable(letters, gridSize)
    ensures p == Generate(id, gridSize, wordCount, wordBank, tries, letters)
    ensures p.id == id && IsSquare(p.grid, gridSize)
    ensures wordCount >= 0 ==> |p.words| <= wordCount
    ensures Subseq(p.words, wordBank)
    ensures (forall w :: w in wordBank ==> IsUpperWord(w)) ==> IsLetterBoard(p.grid)
  {
    var grid := new Grid(EmptyGrid(gridSize));
    var words, placements := SelectWords(grid, wordBank, tries, wordCount);
    FillEmptySpaces(grid, letters);
    p := Puzzle(id, grid.cells, words);
    GenerateProperties(id, gridSize, wordCount, wordBank, tries, letters);
  }
}
