/** The puzzle generator: the word filter, the empty grid, randomised
    placement with a bounded retry budget, the random fill and the greedy
    selection loop. Every random draw of the generator is an input here:
    one batch of (direction, start) attempts per word of the bank, a table
    of fill letters, and the word bank already shuffled. */
module Placement {
  import opened Geometry

  /** A grid under construction: "" is an empty cell, otherwise the cell
      holds a one-letter string. */
  type Board = seq<seq<string>>

  /** The retry budget of one placement. */
  const MaxAttempts: nat := 100

  /** One random draw of the placement loop: a direction and a start cell. */
  datatype Attempt = Attempt(dir: Direction, start: Pos)

  /** The generated puzzle record. */
  datatype Puzzle = Puzzle(id: int, grid: Board, words: seq<string>)

  /** The state of the selection loop: the board so far, the words placed so
      far, and (as a witness of each placement) the attempt that placed it. */
  datatype Outcome = Outcome(board: Board, words: seq<string>, placements: seq<Attempt>)

  predicate IsSquare(g: Board, n: nat) {
    |g| == n && forall r :: 0 <= r < n ==> |g[r]| == n
  }

  predicate InSquare(n: nat, p: Pos) {
    0 <= p.0 < n && 0 <= p.1 < n
  }

  /** What the random draws can produce: a table direction and a start cell
      drawn from 0..size-1 on both axes. */
  predicate ValidAttempt(a: Attempt, n: nat) {
    a.dir in DIRECTIONS && InSquare(n, a.start)
  }

  /** One batch of at least MaxAttempts valid draws for each of the first
      count words of the bank. */
  predicate ValidTries(tries: seq<seq<Attempt>>, count: nat, n: nat) {
    |tries| >= count &&
    forall i :: 0 <= i < |tries| ==>
      |tries[i]| >= MaxAttempts && forall k :: 0 <= k < |tries[i]| ==> ValidAttempt(tries[i][k], n)
  }

  /** At least MaxAttempts draws for each of the first count words. */
  predicate Batches(tries: seq<seq<Attempt>>, count: nat) {
    |tries| >= count && forall i :: 0 <= i < |tries| ==> |tries[i]| >= MaxAttempts
  }

  predicate IsUpper(ch: char) {
    'A' <= ch <= 'Z'
  }

  predicate IsUpperWord(w: string) {
    forall i :: 0 <= i < |w| ==> IsUpper(w[i])
  }

  /** A finished cell: exactly one letter A-Z. */
  predicate IsLetterCell(s: string) {
    |s| == 1 && IsUpper(s[0])
  }

  /** The letters random.choice(string.ascii_uppercase) would draw, one per cell. */
  predicate IsLetterTable(letters: seq<seq<char>>, n: nat) {
    |letters| == n &&
    forall r :: 0 <= r < n ==> |letters[r]| == n && forall c :: 0 <= c < n ==> IsUpper(letters[r][c])
  }

  /** Every cell is empty or holds one upper-case letter. */
  predicate CellsWellFormed(g: Board) {
    forall r, c :: 0 <= r < |g| && 0 <= c < |g[r]| ==> g[r][c] == "" || IsLetterCell(g[r][c])
  }

  /** Every cell holds one upper-case letter. */
  predicate IsLetterBoard(g: Board) {
    forall r, c :: 0 <= r < |g| && 0 <= c < |g[r]| ==> IsLetterCell(g[r][c])
  }

  /** The one-letter cell strings of a word. */
  function Cells(word: string): (r: seq<string>)
    ensures |r| == |word| && forall i :: 0 <= i < |word| ==> r[i] == [word[i]]
  {
    seq(|word|, i requires 0 <= i < |word| => [word[i]])
  }

  /** Reading |word| cells from the attempt's start along its direction
      yields the word. */
  predicate Spells(g: Board, word: string, a: Attempt) {
    MatchAt(g, Cells(word), a.start, a.dir)
  }

  // ---------------------------------------------------------------------
  // The word filter and the empty grid

  /** Python's str.isalpha on the ASCII letters: non-empty, letters only. */
  predicate IsAlpha(w: string) {
    |w| > 0 && forall i :: 0 <= i < |w| ==> IsUpper(w[i]) || 'a' <= w[i] <= 'z'
  }

  predicate Keep(w: string, minLen: int, maxLen: int) {
    minLen <= |w| <= maxLen && IsAlpha(w)
  }

  /** `a` is an in-order subsequence of `b`. */
  predicate Subseq<T(==)>(a: seq<T>, b: seq<T>)
    decreases |b|
  {
    a == [] ||
    (b != [] &&
     ((a[|a| - 1] == b[|b| - 1] && Subseq(a[..|a| - 1], b[..|b| - 1])) || Subseq(a, b[..|b| - 1])))
  }

  /** The comprehension that keeps the corpus entries of the allowed length
      that are all-alphabetic. */
  function FilterWords(words: seq<string>, minLen: int, maxLen: int): (r: seq<string>)
    ensures forall w :: w in r <==> w in words && Keep(w, minLen, maxLen)
    ensures forall i :: 0 <= i < |r| ==> Keep(r[i], minLen, maxLen)
    ensures Subseq(r, words)
    ensures forall w :: multiset(r)[w] == if Keep(w, minLen, maxLen) then multiset(words)[w] else 0
    decreases |words|
  {
    if words == [] then []
    else
      var init, last := words[..|words| - 1], words[|words| - 1];
      assert words == init + [last];
      assert multiset(words) == multiset(init) + multiset{last};
      var rest := FilterWords(init, minLen, maxLen);
      if Keep(last, minLen, maxLen) then
        assert (rest + [last])[..|rest|] == rest;
        rest + [last]
      else rest
  }

  /** Python's str.upper on one character, for the ASCII letters. */
  function UpperChar(ch: char): (u: char)
    ensures IsUpper(ch) || !('a' <= ch <= 'z') ==> u == ch
    ensures 'a' <= ch <= 'z' ==> IsUpper(u) && u as int == ch as int - 32
  {
    if 'a' <= ch <= 'z' then (ch as int - 32) as char else ch
  }

  /** `w.upper()`: every lower-case letter of the line is capitalised. */
  function UpperLine(w: string): (u: string)
    ensures |u| == |w| && forall i :: 0 <= i < |w| ==> u[i] == UpperChar(w[i])
  {
    seq(|w|, i requires 0 <= i < |w| => UpperChar(w[i]))
  }

  /** A corpus line of ASCII characters only. */
  predicate IsAsciiLine(l: string) {
    forall i :: 0 <= i < |l| ==> l[i] < 128 as char
  }

  /** The corpus lines, each upper-cased. */
  function UpperLines(lines: seq<string>): (u: seq<string>)
    ensures |u| == |lines| && forall i :: 0 <= i < |lines| ==> u[i] == UpperLine(lines[i])
  {
    seq(|lines|, i requires 0 <= i < |lines| => UpperLine(lines[i]))
  }

  /** `load_word_list` on a corpus of ASCII lines: the lines are upper-cased
      and then filtered; every word it returns is made of the letters A-Z
      only. */
  lemma LoadedWordsUpper(lines: seq<string>, minLen: int, maxLen: int)
    requires forall l :: l in lines ==> IsAsciiLine(l)
    ensures forall w :: w in FilterWords(UpperLines(lines), minLen, maxLen) ==> IsUpperWord(w)
  {
    var kept := FilterWords(UpperLines(lines), minLen, maxLen);
    forall w | w in kept
      ensures IsUpperWord(w)
    {
      var j :| 0 <= j < |lines| && UpperLines(lines)[j] == w;
      forall i | 0 <= i < |w|
        ensures IsUpper(w[i])
      {
        assert w[i] == UpperChar(lines[j][i]);
        assert IsAlpha(w);
      }
    }
  }

  /** A size-by-size grid of empty cells. */
  function EmptyGrid(size: nat): (g: Board)
    ensures IsSquare(g, size)
    ensures forall r, c :: 0 <= r < size && 0 <= c < size ==> g[r][c] == ""
  {
    seq(size, _ => seq(size, _ => ""))
  }

  // ---------------------------------------------------------------------
  // One placement

  /** Whether an attempt is accepted: its end cell is inside the grid and
      every cell of its path is empty or already holds the matching letter. */
  predicate CellAccepts(g: Board, p: Pos, ch: char) {
    InGrid(g, p) && (g[p.0][p.1] == "" || g[p.0][p.1] == [ch])
  }

  predicate Fits(g: Board, n: nat, word: string, a: Attempt) {
    InSquare(n, EndOf(a.start, a.dir, |word|)) &&
    forall i :: 0 <= i < |word| ==> CellAccepts(g, Step(a.start, a.dir, i), word[i])
  }

  /** Which of the attempts k..MaxAttempts-1 is taken: the first one that fits. */
  function Choose(g: Board, n: nat, word: string, tries: seq<Attempt>, k: nat): (r: Option<nat>)
    requires k <= MaxAttempts <= |tries|
    ensures r.Some? ==> k <= r.value < MaxAttempts && Fits(g, n, word, tries[r.value])
    ensures r.Some? ==> forall j :: k <= j < r.value ==> !Fits(g, n, word, tries[j])
    ensures r.None? ==> forall j :: k <= j < MaxAttempts ==> !Fits(g, n, word, tries[j])
    decreases MaxAttempts - k
  {
    if k == MaxAttempts then None
    else if Fits(g, n, word, tries[k]) then Some(k)
    else Choose(g, n, word, tries, k + 1)
  }

  /** The position along the attempt's path that a cell would have. */
  function PathIndex(a: Attempt, p: Pos): int {
    if a.dir.0 != 0 then (p.0 - a.start.0) * a.dir.0 else (p.1 - a.start.1) * a.dir.1
  }

  /** The cell is one of the first len cells of the attempt's path. */
  predicate OnPath(a: Attempt, len: int, p: Pos) {
    0 <= PathIndex(a, p) < len && Step(a.start, a.dir, PathIndex(a, p)) == p
  }

  /** The board with one cell replaced (a cell outside the board changes nothing). */
  function SetCell(g: Board, p: Pos, v: string): (r: Board)
    ensures |r| == |g| && forall row :: 0 <= row < |g| ==> |r[row]| == |g[row]|
  {
    if InGrid(g, p) then g[p.0 := g[p.0][p.1 := v]] else g
  }

  /** The board after writing the first i letters of the word along the
      attempt's path, one cell at a time. */
  function WritePrefix(g: Board, word: string, a: Attempt, i: nat): (r: Board)
    requires i <= |word|
    ensures |r| == |g| && forall row :: 0 <= row < |g| ==> |r[row]| == |g[row]|
  {
    if i == 0 then g
    else SetCell(WritePrefix(g, word, a, i - 1), Step(a.start, a.dir, i - 1), [word[i - 1]])
  }

  /** The board after writing the whole word along the attempt's path. */
  function Write(g: Board, word: string, a: Attempt): (r: Board)
    ensures |r| == |g| && forall row :: 0 <= row < |g| ==> |r[row]| == |g[row]|
  {
    WritePrefix(g, word, a, |word|)
  }

  lemma PathIndexOfStep(a: Attempt, i: int)
    requires a.dir in DIRECTIONS
    ensures PathIndex(a, Step(a.start, a.dir, i)) == i
  {
    DirectionIsUnit(a.dir);
  }

  /** Writing one more letter extends the written part of the path by the cell i. */
  lemma OnPathExtend(a: Attempt, i: nat, p: Pos)
    requires a.dir in DIRECTIONS
    ensures OnPath(a, i + 1, p) <==> OnPath(a, i, p) || p == Step(a.start, a.dir, i)
  {
    if p == Step(a.start, a.dir, i) {
      PathIndexOfStep(a, i);
    }
  }

  /** After writing i letters, a cell on the written part of the path holds
      its letter and every other cell is unchanged. */
  lemma {:induction false} WritePrefixAt(g: Board, word: string, a: Attempt, i: nat, p: Pos)
    requires i <= |word| && a.dir in DIRECTIONS && InGrid(g, p)
    ensures WritePrefix(g, word, a, i)[p.0][p.1] ==
            if OnPath(a, i, p) then [word[PathIndex(a, p)]] else g[p.0][p.1]
  {
    if i > 0 {
      var q := Step(a.start, a.dir, i - 1);
      WritePrefixAt(g, word, a, i - 1, p);
      OnPathExtend(a, i - 1, p);
      SetCellAt(WritePrefix(g, word, a, i - 1), q, [word[i - 1]], p);
      if p == q {
        PathIndexOfStep(a, i - 1);
      }
    }
  }

  /** Reading a cell of a board after SetCell. */
  lemma SetCellAt(g: Board, q: Pos, v: string, p: Pos)
    requires InGrid(g, p)
    ensures SetCell(g, q, v)[p.0][p.1] == if p == q then v else g[p.0][p.1]
  {
  }

  /** Only the end cell is bounds-checked; since the start is in range and
      the direction is a unit step, the whole path is then in range. */
  lemma PathInBounds(n: nat, len: int, a: Attempt, i: int)
    requires ValidAttempt(a, n) && InSquare(n, EndOf(a.start, a.dir, len)) && 0 <= i < len
    ensures InSquare(n, Step(a.start, a.dir, i))
  {
    DirectionIsUnit(a.dir);
    CoordinateBetween(a.start.0, a.dir.0, len, i, 0, n - 1);
    CoordinateBetween(a.start.1, a.dir.1, len, i, 0, n - 1);
  }

  /** An accepted attempt leaves the word readable along its path. */
  lemma WriteSpells(g: Board, n: nat, word: string, a: Attempt)
    requires IsSquare(g, n) && ValidAttempt(a, n) && Fits(g, n, word, a)
    ensures IsSquare(Write(g, word, a), n) && Spells(Write(g, word, a), word, a)
  {
    var w := Write(g, word, a);
    forall i | 0 <= i < |word|
      ensures CellIs(w, Step(a.start, a.dir, i), Cells(word)[i])
    {
      PathInBounds(n, |word|, a, i);
      PathIndexOfStep(a, i);
      WritePrefixAt(g, word, a, |word|, Step(a.start, a.dir, i));
    }
  }

  /** Crossing never corrupts a letter: an accepted write changes only empty
      cells on its path, and leaves every other cell as it was. */
  lemma WriteKeepsLetters(g: Board, n: nat, word: string, a: Attempt, p: Pos)
    requires IsSquare(g, n) && ValidAttempt(a, n) && Fits(g, n, word, a) && InSquare(n, p)
    ensures g[p.0][p.1] != "" ==> Write(g, word, a)[p.0][p.1] == g[p.0][p.1]
    ensures !OnPath(a, |word|, p) ==> Write(g, word, a)[p.0][p.1] == g[p.0][p.1]
  {
    WritePrefixAt(g, word, a, |word|, p);
    if OnPath(a, |word|, p) {
      var i := PathIndex(a, p);
      assert CellAccepts(g, Step(a.start, a.dir, i), word[i]);
    }
  }

  /** A word already readable stays readable after another accepted placement. */
  lemma WritePreservesSpells(g: Board, n: nat, word: string, a: Attempt, w: string, b: Attempt)
    requires IsSquare(g, n) && ValidAttempt(a, n) && Fits(g, n, word, a) && Spells(g, w, b)
    ensures Spells(Write(g, word, a), w, b)
  {
    forall j | 0 <= j < |w|
      ensures CellIs(Write(g, word, a), Step(b.start, b.dir, j), Cells(w)[j])
    {
      var p := Step(b.start, b.dir, j);
      assert CellIs(g, p, Cells(w)[j]);
      WriteKeepsLetters(g, n, word, a, p);
    }
  }

  /** An accepted write of an upper-case word keeps every cell empty or a letter. */
  lemma WriteKeepsWellFormed(g: Board, n: nat, word: string, a: Attempt)
    requires IsSquare(g, n) && ValidAttempt(a, n) && Fits(g, n, word, a)
    requires CellsWellFormed(g) && IsUpperWord(word)
    ensures CellsWellFormed(Write(g, word, a))
  {
    forall r, c | 0 <= r < |g| && 0 <= c < |g[r]|
      ensures Write(g, word, a)[r][c] == "" || IsLetterCell(Write(g, word, a)[r][c])
    {
      WritePrefixAt(g, word, a, |word|, (r, c));
    }
  }

  // ---------------------------------------------------------------------
  // The fill

  /** Every still-empty cell receives the letter drawn for it. */
  function Fill(g: Board, n: nat, letters: seq<seq<char>>): (r: Board)
    requires IsSquare(g, n) && IsLetterTable(letters, n)
    ensures IsSquare(r, n)
  {
    seq(n, row requires 0 <= row < n =>
      seq(n, col requires 0 <= col < n =>
        if g[row][col] == "" then [letters[row][col]] else g[row][col]))
  }

  /** After the fill no cell is empty, every cell that was empty holds the
      letter A-Z drawn for it, and every cell that was not empty is unchanged. */
  lemma FillCompletes(g: Board, n: nat, letters: seq<seq<char>>, r: int, c: int)
    requires IsSquare(g, n) && IsLetterTable(letters, n) && InSquare(n, (r, c))
    ensures Fill(g, n, letters)[r][c] != ""
    ensures g[r][c] == "" ==> Fill(g, n, letters)[r][c] == [letters[r][c]] && IsLetterCell(Fill(g, n, letters)[r][c])
    ensures g[r][c] != "" ==> Fill(g, n, letters)[r][c] == g[r][c]
  {
  }

  /** The fill turns a well-formed board into a board of letters. */
  lemma FillMakesLetterBoard(g: Board, n: nat, letters: seq<seq<char>>)
    requires IsSquare(g, n) && IsLetterTable(letters, n) && CellsWellFormed(g)
    ensures IsLetterBoard(Fill(g, n, letters))
  {
    forall r, c | 0 <= r < n && 0 <= c < n
      ensures IsLetterCell(Fill(g, n, letters)[r][c])
    {
      FillCompletes(g, n, letters, r, c);
    }
  }

  /** A word readable before the fill is readable after it. */
  lemma FillPreservesSpells(g: Board, n: nat, letters: seq<seq<char>>, w: string, b: Attempt)
    requires IsSquare(g, n) && IsLetterTable(letters, n) && Spells(g, w, b)
    ensures Spells(Fill(g, n, letters), w, b)
  {
    forall j | 0 <= j < |w|
      ensures CellIs(Fill(g, n, letters), Step(b.start, b.dir, j), Cells(w)[j])
    {
      var p := Step(b.start, b.dir, j);
      assert CellIs(g, p, Cells(w)[j]);
      FillCompletes(g, n, letters, p.0, p.1);
    }
  }

  // ---------------------------------------------------------------------
  // The selection loop

  /** One word of the selection loop: place it with its batch of attempts;
      on success record it and the attempt that placed it, on failure keep
      the outcome as it was. */
  function Advance(n: nat, word: string, batch: seq<Attempt>, o: Outcome): (r: Outcome)
    requires |batch| >= MaxAttempts
    ensures |r.board| == |o.board| && forall row :: 0 <= row < |o.board| ==> |r.board[row]| == |o.board[row]|
  {
    match Choose(o.board, n, word, batch, 0)
    case None => o
    case Some(k) => Outcome(Write(o.board, word, batch[k]), o.words + [word], o.placements + [batch[k]])
  }

  /** A word whose attempt k is chosen is written, recorded and placed by k. */
  lemma AdvancePlaced(n: nat, word: string, batch: seq<Attempt>, o: Outcome, k: nat)
    requires |batch| >= MaxAttempts && Choose(o.board, n, word, batch, 0) == Some(k)
    ensures Advance(n, word, batch, o) == Outcome(Write(o.board, word, batch[k]), o.words + [word], o.placements + [batch[k]])
  {
  }

  /** A word none of whose attempts fits leaves the outcome as it was. */
  lemma AdvanceDropped(n: nat, word: string, batch: seq<Attempt>, o: Outcome)
    requires |batch| >= MaxAttempts && Choose(o.board, n, word, batch, 0).None?
    ensures Advance(n, word, batch, o) == o
  {
  }

  /** Greedy, non-backtracking selection over the rest of the bank, whose
      words come with their batches of attempts: stop when wordCount words
      are placed or the bank is exhausted; a word whose attempts all fail is
      dropped and never retried. */
  function Greedy(n: nat, bank: seq<string>, tries: seq<seq<Attempt>>, wordCount: int, o: Outcome): (r: Outcome)
    requires Batches(tries, |bank|)
    decreases |bank|
  {
    if bank == [] || |o.words| == wordCount then o
    else Greedy(n, bank[1..], tries[1..], wordCount, Advance(n, bank[0], tries[0], o))
  }

  /** The selection loop run from the empty grid. */
  function Run(n: nat, bank: seq<string>, tries: seq<seq<Attempt>>, wordCount: int): Outcome
    requires Batches(tries, |bank|)
  {
    Greedy(n, bank, tries, wordCount, Outcome(EmptyGrid(n), [], []))
  }

  /** The whole generation: selection, then the fill. */
  function Generate(id: int, n: nat, wordCount: int, bank: seq<string>, tries: seq<seq<Attempt>>,
                    letters: seq<seq<char>>): (p: Puzzle)
    requires ValidTries(tries, |bank|, n) && IsLetterTable(letters, n)
    ensures IsSquare(p.grid, n) && p.id == id
  {
    var o := Run(n, bank, tries, wordCount);
    GreedyKeepsSquare(n, bank, tries, wordCount, Outcome(EmptyGrid(n), [], []));
    Puzzle(id, Fill(o.board, n, letters), o.words)
  }

  /** Every word placed so far is readable along its recorded placement. */
  predicate Placed(o: Outcome, n: nat) {
    |o.words| == |o.placements| &&
    forall j :: 0 <= j < |o.words| ==> ValidAttempt(o.placements[j], n) && Spells(o.board, o.words[j], o.placements[j])
  }

  /** The rest of a valid supply of attempts is valid. */
  lemma ValidTriesTail(tries: seq<seq<Attempt>>, count: nat, n: nat)
    requires ValidTries(tries, count, n) && count > 0
    ensures ValidTries(tries[1..], count - 1, n) && Batches(tries[1..], count - 1)
  {
  }

  /** One turn of the selection loop. */
  lemma GreedyStep(n: nat, bank: seq<string>, tries: seq<seq<Attempt>>, wordCount: int, o: Outcome)
    requires Batches(tries, |bank|) && bank != [] && |o.words| != wordCount
    ensures Greedy(n, bank, tries, wordCount, o) == Greedy(n, bank[1..], tries[1..], wordCount, Advance(n, bank[0], tries[0], o))
  {
  }

  /** The board stays n by n. */
  lemma {:induction false} GreedyKeepsSquare(n: nat, bank: seq<string>, tries: seq<seq<Attempt>>, wordCount: int, o: Outcome)
    requires Batches(tries, |bank|) && IsSquare(o.board, n)
    ensures IsSquare(Greedy(n, bank, tries, wordCount, o).board, n)
    decreases |bank|
  {
    if bank != [] && |o.words| != wordCount {
      GreedyKeepsSquare(n, bank[1..], tries[1..], wordCount, Advance(n, bank[0], tries[0], o));
    }
  }

  /** One step places at most one word. */
  lemma AdvanceGrows(n: nat, word: string, batch: seq<Attempt>, o: Outcome)
    requires |batch| >= MaxAttempts
    ensures var r := Advance(n, word, batch, o);
            r.words == o.words || r.words == o.words + [word]
  {
  }

  /** With a non-negative word count, the loop never places more words than asked. */
  lemma {:induction false} GreedyBound(n: nat, bank: seq<string>, tries: seq<seq<Attempt>>, wordCount: int, o: Outcome)
    requires Batches(tries, |bank|)
    requires 0 <= wordCount && |o.words| <= wordCount
    ensures |Greedy(n, bank, tries, wordCount, o).words| <= wordCount
    decreases |bank|
  {
    if bank != [] && |o.words| != wordCount {
      AdvanceGrows(n, bank[0], tries[0], o);
      GreedyBound(n, bank[1..], tries[1..], wordCount, Advance(n, bank[0], tries[0], o));
    }
  }

  lemma SubseqExtend<T>(a: seq<T>, b: seq<T>, x: T)
    requires Subseq(a, b)
    ensures Subseq(a, b + [x]) && Subseq(a + [x], b + [x])
  {
    assert (b + [x])[..|b|] == b;
    assert (a + [x])[..|a|] == a;
  }

  /** A subsequence of a prefix is a subsequence of the whole. */
  lemma {:induction false} SubseqAppend<T>(a: seq<T>, b: seq<T>, c: seq<T>)
    requires Subseq(a, b)
    ensures Subseq(a, b + c)
    decreases |c|
  {
    if c != [] {
      var init := c[..|c| - 1];
      SubseqAppend(a, b, init);
      SubseqExtend(a, b + init, c[|c| - 1]);
      assert b + init + [c[|c| - 1]] == b + c;
    } else {
      assert b + c == b;
    }
  }

  /** The placed words are an in-order subsequence of the words already
      considered followed by the rest of the bank. */
  lemma {:induction false} GreedySubseq(n: nat, done: seq<string>, bank: seq<string>, tries: seq<seq<Attempt>>, wordCount: int, o: Outcome)
    requires Batches(tries, |bank|)
    requires Subseq(o.words, done)
    ensures Subseq(Greedy(n, bank, tries, wordCount, o).words, done + bank)
    decreases |bank|
  {
    if bank == [] || |o.words| == wordCount {
      SubseqAppend(o.words, done, bank);
    } else {
      SubseqExtend(o.words, done, bank[0]);
      AdvanceGrows(n, bank[0], tries[0], o);
      assert done + bank == (done + [bank[0]]) + bank[1..];
      GreedySubseq(n, done + [bank[0]], bank[1..], tries[1..], wordCount, Advance(n, bank[0], tries[0], o));
    }
  }

  /** One step keeps every earlier word readable and makes the new one readable. */
  lemma AdvanceKeepsPlaced(n: nat, word: string, batch: seq<Attempt>, o: Outcome)
    requires |batch| >= MaxAttempts && forall k :: 0 <= k < |batch| ==> ValidAttempt(batch[k], n)
    requires IsSquare(o.board, n) && Placed(o, n)
    ensures IsSquare(Advance(n, word, batch, o).board, n) && Placed(Advance(n, word, batch, o), n)
  {
    match Choose(o.board, n, word, batch, 0)
    case None =>
    case Some(k) =>
      var a := batch[k];
      var r := Advance(n, word, batch, o);
      WriteSpells(o.board, n, word, a);
      forall j | 0 <= j < |r.words|
        ensures ValidAttempt(r.placements[j], n) && Spells(r.board, r.words[j], r.placements[j])
      {
        if j < |o.words| {
          WritePreservesSpells(o.board, n, word, a, o.words[j], o.placements[j]);
        }
      }
  }

  /** Later placements never make an earlier word unreadable. */
  lemma {:induction false} GreedyKeepsPlaced(n: nat, bank: seq<string>, tries: seq<seq<Attempt>>, wordCount: int, o: Outcome)
    requires ValidTries(tries, |bank|, n)
    requires IsSquare(o.board, n) && Placed(o, n)
    ensures Placed(Greedy(n, bank, tries, wordCount, o), n)
    decreases |bank|
  {
    if bank != [] && |o.words| != wordCount {
      AdvanceKeepsPlaced(n, bank[0], tries[0], o);
      ValidTriesTail(tries, |bank|, n);
      GreedyKeepsPlaced(n, bank[1..], tries[1..], wordCount, Advance(n, bank[0], tries[0], o));
    }
  }

  /** With an upper-case word, one step keeps every cell empty or a letter. */
  lemma AdvanceKeepsWellFormed(n: nat, word: string, batch: seq<Attempt>, o: Outcome)
    requires |batch| >= MaxAttempts && forall k :: 0 <= k < |batch| ==> ValidAttempt(batch[k], n)
    requires IsSquare(o.board, n) && CellsWellFormed(o.board) && IsUpperWord(word)
    ensures IsSquare(Advance(n, word, batch, o).board, n) && CellsWellFormed(Advance(n, word, batch, o).board)
  {
    match Choose(o.board, n, word, batch, 0)
    case None =>
    case Some(k) =>
      WriteKeepsWellFormed(o.board, n, word, batch[k]);
  }

  /** With an upper-case bank, the board keeps holding only empty cells and letters. */
  lemma {:induction false} GreedyKeepsWellFormed(n: nat, bank: seq<string>, tries: seq<seq<Attempt>>, wordCount: int, o: Outcome)
    requires ValidTries(tries, |bank|, n)
    requires IsSquare(o.board, n) && CellsWellFormed(o.board)
    requires forall w :: w in bank ==> IsUpperWord(w)
    ensures CellsWellFormed(Greedy(n, bank, tries, wordCount, o).board)
    decreases |bank|
  {
    if bank != [] && |o.words| != wordCount {
      AdvanceKeepsWellFormed(n, bank[0], tries[0], o);
      ValidTriesTail(tries, |bank|, n);
      GreedyKeepsWellFormed(n, bank[1..], tries[1..], wordCount, Advance(n, bank[0], tries[0], o));
    }
  }

  /** What generation promises of the record it returns: at most wordCount
      words, taken in order from the bank, each readable in the final grid
      along the attempt that placed it, and (for an upper-case bank) a grid
      of letters A-Z only. */
  lemma GenerateProperties(id: int, n: nat, wordCount: int, bank: seq<string>, tries: seq<seq<Attempt>>,
                           letters: seq<seq<char>>)
    requires ValidTries(tries, |bank|, n) && IsLetterTable(letters, n)
    ensures var p := Generate(id, n, wordCount, bank, tries, letters);
            var o := Run(n, bank, tries, wordCount);
            && (wordCount >= 0 ==> |p.words| <= wordCount)
            && Subseq(p.words, bank)
            && |o.placements| == |p.words|
            && (forall j :: 0 <= j < |p.words| ==>
                  ValidAttempt(o.placements[j], n) && Spells(p.grid, p.words[j], o.placements[j]))
            && ((forall w :: w in bank ==> IsUpperWord(w)) ==> IsLetterBoard(p.grid))
  {
    var start := Outcome(EmptyGrid(n), [], []);
    var o := Run(n, bank, tries, wordCount);
    if wordCount >= 0 {
      GreedyBound(n, bank, tries, wordCount, start);
    }
    GreedySubseq(n, [], bank, tries, wordCount, start);
    assert [] + bank == bank;
    GreedyKeepsSquare(n, bank, tries, wordCount, start);
    GreedyKeepsPlaced(n, bank, tries, wordCount, start);
    forall j | 0 <= j < |o.words|
      ensures Spells(Fill(o.board, n, letters), o.words[j], o.placements[j])
    {
      FillPreservesSpells(o.board, n, letters, o.words[j], o.placements[j]);
    }
    if forall w :: w in bank ==> IsUpperWord(w) {
      GreedyKeepsWellFormed(n, bank, tries, wordCount, start);
      FillMakesLetterBoard(o.board, n, letters);
    }
  }

  /** Grid completeness for a bank shuffled from a loaded corpus of ASCII
      lines: every cell of the generated grid is one capital letter. */
  lemma CorpusPuzzleIsLetterBoard(id: int, n: nat, wordCount: int, lines: seq<string>, minLen: int, maxLen: int,
                                  bank: seq<string>, tries: seq<seq<Attempt>>, letters: seq<seq<char>>)
    requires forall l :: l in lines ==> IsAsciiLine(l)
    requires multiset(bank) == multiset(FilterWords(UpperLines(lines), minLen, maxLen))
    requires ValidTries(tries, |bank|, n) && IsLetterTable(letters, n)
    ensures IsLetterBoard(Generate(id, n, wordCount, bank, tries, letters).grid)
  {
    LoadedWordsUpper(lines, minLen, maxLen);
    forall w | w in bank
      ensures IsUpperWord(w)
    {
      assert w in multiset(bank);
      assert w in FilterWords(UpperLines(lines), minLen, maxLen);
    }
    GenerateProperties(id, n, wordCount, bank, tries, letters);
  }
}
