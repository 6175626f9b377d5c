/** The eight-direction solver: a row-major scan of the start cells, trying
    the directions of the table in order, and a driver that solves the words
    rarest-first and counts what it did. */
module FrequencyHeuristic {
  import opened Geometry
  import opened Results

  // ---------------------------------------------------------------------
  // The search, as a reference definition

  /** The word can be read from q along some direction of the table. */
  predicate HasMatch(g: LetterGrid, word: string, q: Pos) {
    exists k :: 0 <= k < |DIRECTIONS| && MatchAt(g, word, q, DIRECTIONS[k])
  }

  /** The span the search reports: q, reached by the earliest direction
      of the table along which the word is read, is the first start cell
      in row-major order from which the word can be read at all. */
  ghost predicate IsFirstMatch(g: LetterGrid, word: string, s: Span) {
    FirstDirection(g, word, s) && forall q :: Before(q, s.start) ==> !HasMatch(g, word, q)
  }

  /** The span's end is reached along the earliest direction of the table
      that reads the word from its start. */
  ghost predicate FirstDirection(g: LetterGrid, word: string, s: Span) {
    exists k :: 0 <= k < |DIRECTIONS| && MatchAt(g, word, s.start, DIRECTIONS[k]) &&
                s.end == EndOf(s.start, DIRECTIONS[k], |word|) &&
                forall k' :: 0 <= k' < k ==> !MatchAt(g, word, s.start, DIRECTIONS[k'])
  }

  /** Letters i.. of the word are read along d from p, checked one by one. */
  predicate ReadsFrom(g: LetterGrid, word: string, p: Pos, d: Direction, i: nat)
    decreases |word| - i
  {
    i >= |word| || (CellIs(g, Step(p, d, i), word[i]) && ReadsFrom(g, word, p, d, i + 1))
  }

  /** Checking the letters one by one is reading the whole word. */
  lemma {:induction false} ReadsFromIff(g: LetterGrid, word: string, p: Pos, d: Direction, i: nat)
    ensures ReadsFrom(g, word, p, d, i) <==> forall j :: i <= j < |word| ==> CellIs(g, Step(p, d, j), word[j])
    decreases |word| - i
  {
    if i < |word| {
      ReadsFromIff(g, word, p, d, i + 1);
    }
  }

  /** The directions k.. tried in table order at one start cell. */
  function FindDir(g: LetterGrid, word: string, p: Pos, k: nat): Option<Span>
    requires k <= |DIRECTIONS|
    decreases |DIRECTIONS| - k
  {
    if k == |DIRECTIONS| then None
    else if ReadsFrom(g, word, p, DIRECTIONS[k], 0) then Some(Span(p, EndOf(p, DIRECTIONS[k], |word|)))
    else FindDir(g, word, p, k + 1)
  }

  /** One direction of the table is tried, then the ones after it. */
  lemma FindDirStep(g: LetterGrid, word: string, p: Pos, k: nat)
    requires k < |DIRECTIONS|
    ensures MatchAt(g, word, p, DIRECTIONS[k]) ==> FindDir(g, word, p, k) == Some(Span(p, EndOf(p, DIRECTIONS[k], |word|)))
    ensures !MatchAt(g, word, p, DIRECTIONS[k]) ==> FindDir(g, word, p, k) == FindDir(g, word, p, k + 1)
  {
    ReadsFromIff(g, word, p, DIRECTIONS[k], 0);
  }

  /** No direction matches at a cell that does not hold the word's first letter. */
  lemma {:induction false} FindDirFirstLetter(g: LetterGrid, word: string, p: Pos, k: nat)
    requires k <= |DIRECTIONS| && |word| > 0 && !CellIs(g, p, word[0])
    ensures FindDir(g, word, p, k).None?
    decreases |DIRECTIONS| - k
  {
    if k < |DIRECTIONS| {
      assert Step(p, DIRECTIONS[k], 0) == p;
      FindDirFirstLetter(g, word, p, k + 1);
    }
  }

  /** The cell q is (r, c) or after it in row-major order. */
  predicate AtOrAfter(q: Pos, r: int, c: int) {
    q.0 > r || (q.0 == r && q.1 >= c)
  }

  /** The row-major scan of the start cells from (r, c) on: the first
      result that `cell` gives, or None. */
  function ScanFrom(g: LetterGrid, cell: Pos -> Option<Span>, r: nat, c: nat): Option<Span>
    requires SolverGrid(g)
    decreases |g| - r, |g[0]| - c
  {
    if r >= |g| then None
    else if c >= |g[0]| then ScanFrom(g, cell, r + 1, 0)
    else match cell((r, c))
      case Some(s) => Some(s)
      case None => ScanFrom(g, cell, r, c + 1)
  }

  /** What a start cell yields: its directions tried in table order. */
  function Searcher(g: LetterGrid, word: string): Pos -> Option<Span> {
    p => FindDir(g, word, p, 0)
  }

  /** The search from (r, c) on. */
  function FindFrom(g: LetterGrid, word: string, r: nat, c: nat): Option<Span>
    requires SolverGrid(g)
  {
    ScanFrom(g, Searcher(g, word), r, c)
  }

  /** One step of the scan: the cell (r, c) is tried, then the cells after it. */
  lemma FindFromCell(g: LetterGrid, word: string, r: nat, c: nat)
    requires SolverGrid(g) && r < |g| && c < |g[0]|
    ensures FindDir(g, word, (r, c), 0).Some? ==> FindFrom(g, word, r, c) == FindDir(g, word, (r, c), 0)
    ensures FindDir(g, word, (r, c), 0).None? ==> FindFrom(g, word, r, c) == FindFrom(g, word, r, c + 1)
  {
    assert Searcher(g, word)((r, c)) == FindDir(g, word, (r, c), 0);
  }

  /** A cell without the word's first letter is skipped. */
  lemma FindFromSkip(g: LetterGrid, word: string, r: nat, c: nat)
    requires SolverGrid(g) && r < |g| && c < |g[0]| && |word| > 0 && g[r][c] != word[0]
    ensures FindFrom(g, word, r, c) == FindFrom(g, word, r, c + 1)
  {
    FindDirFirstLetter(g, word, (r, c), 0);
    FindFromCell(g, word, r, c);
  }

  /** What `find_word` returns. */
  function Find(g: LetterGrid, word: string): Option<Span>
    requires SolverGrid(g)
  {
    FindFrom(g, word, 0, 0)
  }

  // ---------------------------------------------------------------------
  // What the search promises

  /** The directions from k on: None exactly when none of them reads the
      word; otherwise the start is the cell and the end is reached along
      the first direction that does. */
  lemma {:induction false} FindDirSpec(g: LetterGrid, word: string, p: Pos, k: nat)
    requires k <= |DIRECTIONS|
    ensures FindDir(g, word, p, k).None? <==> forall j :: k <= j < |DIRECTIONS| ==> !MatchAt(g, word, p, DIRECTIONS[j])
    ensures FindDir(g, word, p, k).Some? ==>
              && FindDir(g, word, p, k).value.start == p
              && exists j :: k <= j < |DIRECTIONS| && MatchAt(g, word, p, DIRECTIONS[j]) &&
                             FindDir(g, word, p, k).value.end == EndOf(p, DIRECTIONS[j], |word|) &&
                             forall j' :: k <= j' < j ==> !MatchAt(g, word, p, DIRECTIONS[j'])
    decreases |DIRECTIONS| - k
  {
    if k < |DIRECTIONS| {
      FindDirStep(g, word, p, k);
    }
    if k < |DIRECTIONS| && !MatchAt(g, word, p, DIRECTIONS[k]) {
      FindDirSpec(g, word, p, k + 1);
      if FindDir(g, word, p, k + 1).Some? {
        var j :| k + 1 <= j < |DIRECTIONS| && MatchAt(g, word, p, DIRECTIONS[j]) &&
                 FindDir(g, word, p, k + 1).value.end == EndOf(p, DIRECTIONS[j], |word|) &&
                 forall j' :: k + 1 <= j' < j ==> !MatchAt(g, word, p, DIRECTIONS[j']);
        assert forall j' :: k <= j' < j ==> !MatchAt(g, word, p, DIRECTIONS[j']);
      }
    }
  }

  /** The directions of the table find something at q exactly when one of
      them reads the word from q. */
  lemma FindDirHit(g: LetterGrid, word: string, q: Pos)
    ensures FindDir(g, word, q, 0).Some? <==> HasMatch(g, word, q)
  {
    FindDirSpec(g, word, q, 0);
  }

  /** When the scan from (r, c) finds nothing, no start cell from there on
      yields a result. */
  lemma {:induction false} ScanNone(g: LetterGrid, cell: Pos -> Option<Span>, r: nat, c: nat)
    requires SolverGrid(g) && ScanFrom(g, cell, r, c).None?
    ensures forall q :: InGrid(g, q) && AtOrAfter(q, r, c) ==> cell(q).None?
    decreases |g| - r, |g[0]| - c
  {
    if r >= |g| {
    } else if c >= |g[0]| {
      ScanNone(g, cell, r + 1, 0);
    } else {
      ScanNone(g, cell, r, c + 1);
      forall q | InGrid(g, q) && AtOrAfter(q, r, c) && !AtOrAfter(q, r, c + 1)
        ensures q == (r, c)
      {
      }
    }
  }

  /** When the scan from (r, c) returns a result, it is the result of the
      first cell from there on that yields one. */
  lemma {:induction false} ScanSome(g: LetterGrid, cell: Pos -> Option<Span>, r: nat, c: nat)
    requires SolverGrid(g) && ScanFrom(g, cell, r, c).Some?
    ensures exists p :: InGrid(g, p) && AtOrAfter(p, r, c) && ScanFrom(g, cell, r, c) == cell(p) &&
                        forall q :: InGrid(g, q) && AtOrAfter(q, r, c) && Before(q, p) ==> cell(q).None?
    decreases |g| - r, |g[0]| - c
  {
    if c >= |g[0]| {
      ScanSome(g, cell, r + 1, 0);
      var p :| InGrid(g, p) && AtOrAfter(p, r + 1, 0) && ScanFrom(g, cell, r + 1, 0) == cell(p) &&
               forall q :: InGrid(g, q) && AtOrAfter(q, r + 1, 0) && Before(q, p) ==> cell(q).None?;
      assert InGrid(g, p) && AtOrAfter(p, r, c);
    } else if cell((r, c)).None? {
      ScanSome(g, cell, r, c + 1);
      var p :| InGrid(g, p) && AtOrAfter(p, r, c + 1) && ScanFrom(g, cell, r, c + 1) == cell(p) &&
               forall q :: InGrid(g, q) && AtOrAfter(q, r, c + 1) && Before(q, p) ==> cell(q).None?;
      forall q | InGrid(g, q) && AtOrAfter(q, r, c) && !AtOrAfter(q, r, c + 1)
        ensures q == (r, c)
      {
      }
      assert InGrid(g, p) && AtOrAfter(p, r, c);
    } else {
      var p := (r, c);
      assert InGrid(g, p) && AtOrAfter(p, r, c) && ScanFrom(g, cell, r, c) == cell(p);
    }
  }

  /** A match found somewhere is found by the search at its start cell. */
  lemma MatchFoundAtCell(g: LetterGrid, word: string, q: Pos)
    requires |word| > 0 && HasMatch(g, word, q)
    ensures InGrid(g, q) && Searcher(g, word)(q).Some?
  {
    MatchStartsInGrid(g, word, q);
    FindDirHit(g, word, q);
  }

  /** Completeness: `find_word` returns None exactly when no cell and
      direction of the table read the word. */
  lemma FindNone(g: LetterGrid, word: string)
    requires SolverGrid(g) && |word| > 0
    ensures Find(g, word).None? <==> forall q :: !HasMatch(g, word, q)
  {
    var cell := Searcher(g, word);
    if Find(g, word).None? {
      ScanNone(g, cell, 0, 0);
      forall q | HasMatch(g, word, q)
        ensures false
      {
        MatchFoundAtCell(g, word, q);
      }
    } else {
      ScanSome(g, cell, 0, 0);
      var p :| InGrid(g, p) && Find(g, word) == cell(p);
      FoundIsMatch(g, word, p);
    }
  }

  /** What the search finds at a start cell starts there and is reached
      along the earliest direction of the table that reads the word. */
  lemma CellFirstDirection(g: LetterGrid, word: string, p: Pos)
    requires Searcher(g, word)(p).Some?
    ensures Searcher(g, word)(p).value.start == p && FirstDirection(g, word, Searcher(g, word)(p).value)
  {
    FindDirSpec(g, word, p, 0);
  }

  /** A start cell where the search finds something has a match. */
  lemma FoundIsMatch(g: LetterGrid, word: string, p: Pos)
    requires Searcher(g, word)(p).Some?
    ensures HasMatch(g, word, p)
  {
    FindDirHit(g, word, p);
  }

  /** Soundness and the tie-break: a returned span is the first match in
      row-major order, reached by the earliest direction of the table. */
  lemma FindSome(g: LetterGrid, word: string)
    requires SolverGrid(g) && |word| > 0 && Find(g, word).Some?
    ensures IsFirstMatch(g, word, Find(g, word).value)
  {
    var cell := Searcher(g, word);
    ScanSome(g, cell, 0, 0);
    var p :| InGrid(g, p) && AtOrAfter(p, 0, 0) && Find(g, word) == cell(p) &&
             forall q :: InGrid(g, q) && AtOrAfter(q, 0, 0) && Before(q, p) ==> cell(q).None?;
    CellFirstDirection(g, word, p);
    NoMatchBefore(g, word, p);
  }

  /** No cell before p has a match when the search finds nothing at any
      cell of the grid before p. */
  lemma NoMatchBefore(g: LetterGrid, word: string, p: Pos)
    requires |word| > 0
    requires forall q :: InGrid(g, q) && AtOrAfter(q, 0, 0) && Before(q, p) ==> Searcher(g, word)(q).None?
    ensures forall q :: Before(q, p) ==> !HasMatch(g, word, q)
  {
    forall q | Before(q, p)
      ensures !HasMatch(g, word, q)
    {
      if HasMatch(g, word, q) {
        MatchFoundAtCell(g, word, q);
      }
    }
  }

  /** Soundness, completeness and the tie-break of `find_word` in one
      statement: it returns None exactly when no cell and direction of the
      table read the word, and it returns s exactly when s is the first
      match in row-major order, by the earliest direction of the table. */
  lemma FindCorrect(g: LetterGrid, word: string)
    requires SolverGrid(g) && |word| > 0
    ensures Find(g, word).None? <==> forall q :: !HasMatch(g, word, q)
    ensures forall s :: Find(g, word) == Some(s) <==> IsFirstMatch(g, word, s)
  {
    FindNone(g, word);
    if Find(g, word).Some? {
      FindSome(g, word);
      forall t | IsFirstMatch(g, word, t)
        ensures t == Find(g, word).value
      {
        FirstMatchUnique(g, word, Find(g, word).value, t);
      }
    } else {
      forall t | IsFirstMatch(g, word, t)
        ensures false
      {
        FirstMatchHas(g, word, t);
      }
    }
  }

  /** The first match is a match. */
  lemma FirstMatchHas(g: LetterGrid, word: string, s: Span)
    requires IsFirstMatch(g, word, s)
    ensures HasMatch(g, word, s.start)
  {
  }

  /** A non-empty word is read from a cell of the grid. */
  lemma MatchStartsInGrid(g: LetterGrid, word: string, q: Pos)
    requires |word| > 0 && HasMatch(g, word, q)
    ensures InGrid(g, q)
  {
    var k :| 0 <= k < |DIRECTIONS| && MatchAt(g, word, q, DIRECTIONS[k]);
    assert CellIs(g, Step(q, DIRECTIONS[k], 0), word[0]);
    assert Step(q, DIRECTIONS[k], 0) == q;
  }

  /** There is at most one first match. */
  lemma FirstMatchUnique(g: LetterGrid, word: string, s: Span, t: Span)
    requires IsFirstMatch(g, word, s) && IsFirstMatch(g, word, t)
    ensures s == t
  {
    var k :| 0 <= k < |DIRECTIONS| && MatchAt(g, word, s.start, DIRECTIONS[k]) &&
             s.end == EndOf(s.start, DIRECTIONS[k], |word|) &&
             forall k' :: 0 <= k' < k ==> !MatchAt(g, word, s.start, DIRECTIONS[k']);
    var m :| 0 <= m < |DIRECTIONS| && MatchAt(g, word, t.start, DIRECTIONS[m]) &&
             t.end == EndOf(t.start, DIRECTIONS[m], |word|) &&
             forall m' :: 0 <= m' < m ==> !MatchAt(g, word, t.start, DIRECTIONS[m']);
    assert HasMatch(g, word, s.start) && HasMatch(g, word, t.start);
    assert !Before(s.start, t.start) && !Before(t.start, s.start);
    assert s.start == t.start;
    assert k == m;
  }

  // ---------------------------------------------------------------------
  // The search as the source performs it

  /** The offset loop of one direction: the letters after the first are
      checked one by one, each against the grid's bounds first. */
  method MatchesFrom(grid: LetterGrid, word: string, r: nat, c: nat, d: Direction) returns (matched: bool)
    requires SolverGrid(grid) && r < |grid| && c < |grid[0]|
    requires |word| > 0 && grid[r][c] == word[0]
    ensures matched == MatchAt(grid, word, (r, c), d)
  {
    var rows, cols := |grid|, |grid[0]|;
    var (dr, dc) := d;
    assert CellIs(grid, Step((r, c), d, 0), word[0]);
    matched := true;
    var i := 1;
    while i < |word|
      invariant 1 <= i <= |word|
      invariant matched ==> forall j :: 0 <= j < i ==> CellIs(grid, Step((r, c), d, j), word[j])
      invariant !matched ==> !MatchAt(grid, word, (r, c), d)
    {
      var nr, nc := r + dr * i, c + dc * i;
      assert (nr, nc) == Step((r, c), d, i);
      if !(0 <= nr < rows && 0 <= nc < cols) || grid[nr][nc] != word[i] {
        matched := false;
        break;
      }
      i := i + 1;
    }
  }

  /** The direction loop at a start cell holding the word's first letter:
      the first direction of the table along which the word is read. */
  method MatchAtCell(grid: LetterGrid, word: string, r: nat, c: nat) returns (pos: Option<Span>)
    requires SolverGrid(grid) && r < |grid| && c < |grid[0]|
    requires |word| > 0 && grid[r][c] == word[0]
    ensures pos == FindDir(grid, word, (r, c), 0)
  {
    var k := 0;
    while k < |DIRECTIONS|
      invariant 0 <= k <= |DIRECTIONS|
      invariant FindDir(grid, word, (r, c), 0) == FindDir(grid, word, (r, c), k)
    {
      var d := DIRECTIONS[k];
      var matched := MatchesFrom(grid, word, r, c, d);
      FindDirStep(grid, word, (r, c), k);
      if matched {
        return Some(Span((r, c), EndOf((r, c), d, |word|)));
      }
      k := k + 1;
    }
    return None;
  }

  /** One iteration of the column loop: the cell (r, c) is tried only
      when it holds the word's first letter. */
  method TryCell(grid: LetterGrid, word: string, r: nat, c: nat) returns (pos: Option<Span>)
    requires SolverGrid(grid) && r < |grid| && c < |grid[0]| && |word| > 0
    ensures pos.Some? ==> FindFrom(grid, word, r, c) == pos
    ensures pos.None? ==> FindFrom(grid, word, r, c) == FindFrom(grid, word, r, c + 1)
  {
    if grid[r][c] == word[0] {
      pos := MatchAtCell(grid, word, r, c);
      FindFromCell(grid, word, r, c);
    } else {
      FindFromSkip(grid, word, r, c);
      pos := None;
    }
  }

  /** The column loop of one row: the first start cell of row r with a
      match, or None and the scan moves on to the next row. */
  method ScanRow(grid: LetterGrid, word: string, r: nat) returns (pos: Option<Span>)
    requires SolverGrid(grid) && r < |grid| && |word| > 0
    ensures pos.Some? ==> pos == FindFrom(grid, word, r, 0)
    ensures pos.None? ==> FindFrom(grid, word, r, 0) == FindFrom(grid, word, r + 1, 0)
  {
    var cols := |grid[0]|;
    ghost var target := FindFrom(grid, word, r, 0);
    var c := 0;
    while c < cols
      invariant 0 <= c <= cols
      invariant target == FindFrom(grid, word, r, c)
    {
      pos := TryCell(grid, word, r, c);
      if pos.Some? {
        return;
      }
      c := c + 1;
    }
    return None;
  }

  /** `find_word`: scans the cells row by row; at a cell holding the word's
      first letter, tries the directions of the table in order; returns the
      first full match as (start, end), or None. */
  method FindWord(grid: LetterGrid, word: string) returns (pos: Option<Span>)
    requires SolverGrid(grid) && |word| > 0
    ensures pos == Find(grid, word)
  {
    var rows := |grid|;
    var r := 0;
    while r < rows
      invariant 0 <= r <= rows
      invariant Find(grid, word) == FindFrom(grid, word, r, 0)
    {
      pos := ScanRow(grid, word, r);
      if pos.Some? {
        return;
      }
      r := r + 1;
    }
    return None;
  }

  // ---------------------------------------------------------------------
  // Rarity ordering

  /** All the letters of the grid, row by row. */
  function AllLetters(g: LetterGrid): (r: seq<char>)
    ensures IsRect(g) && |g| > 0 ==> |r| == |g| * |g[0]|
  {
    if g == [] then [] else AllLetters(g[..|g| - 1]) + g[|g| - 1]
  }

  /** How many cells hold ch: the letter count of the grid, 0 for a letter
      it does not contain. */
  function Freq(g: LetterGrid, ch: char): nat {
    multiset(AllLetters(g))[ch]
  }

  /** `rarity_score`: each letter of the word weighs 1 / (its count + 1),
      computed exactly rather than in floating point. */
  function Rarity(g: LetterGrid, word: string): (r: real)
    ensures 0.0 <= r <= |word| as real
    ensures |word| > 0 ==> r > 0.0
  {
    if word == [] then 0.0
    else
      var n := (Freq(g, word[0]) + 1) as real;
      assert 0.0 < 1.0 / n <= 1.0;
      1.0 / n + Rarity(g, word[1..])
  }

  /** `rarity_score` as a sort key. */
  function RarityKey(g: LetterGrid): string -> real {
    w => Rarity(g, w)
  }

  /** Largest key first. */
  ghost predicate NonIncreasing(key: string -> real, s: seq<string>) {
    forall i, j :: 0 <= i < j < |s| ==> key(s[i]) >= key(s[j])
  }

  /** Inserts w into an ordered list after every word whose key is at
      least as large. */
  function Insert(key: string -> real, w: string, s: seq<string>): (r: seq<string>)
    ensures multiset(r) == multiset(s) + multiset{w}
  {
    if s == [] then [w]
    else if key(s[0]) >= key(w) then
      assert s == [s[0]] + s[1..];
      [s[0]] + Insert(key, w, s[1..])
    else [w] + s
  }

  /** Inserting keeps the list ordered. */
  lemma {:induction false} InsertOrdered(key: string -> real, w: string, s: seq<string>)
    requires NonIncreasing(key, s)
    ensures NonIncreasing(key, Insert(key, w, s))
  {
    if s != [] && key(s[0]) >= key(w) {
      var rest := Insert(key, w, s[1..]);
      InsertOrdered(key, w, s[1..]);
      var r := [s[0]] + rest;
      forall j | 1 <= j < |r|
        ensures key(r[0]) >= key(r[j])
      {
        var y := rest[j - 1];
        assert y in multiset(rest);
        if y != w {
          assert y in multiset(s[1..]);
          var k :| 0 <= k < |s[1..]| && s[1..][k] == y;
          assert s[k + 1] == y;
        }
      }
    }
  }

  /** `sorted(..., key=..., reverse=True)`: a stable sort, largest key
      first, written as an insertion sort. */
  function SortBy(key: string -> real, words: seq<string>): (r: seq<string>)
    ensures multiset(r) == multiset(words)
  {
    if words == [] then []
    else
      assert words == words[..|words| - 1] + [words[|words| - 1]];
      Insert(key, words[|words| - 1], SortBy(key, words[..|words| - 1]))
  }

  /** `sorted(words, key=rarity_score, reverse=True)`: rarest word first. */
  function SortByRarity(g: LetterGrid, words: seq<string>): (r: seq<string>)
    ensures multiset(r) == multiset(words)
  {
    SortBy(RarityKey(g), words)
  }

  /** The sorted list is ordered by the key, largest first. */
  lemma {:induction false} SortOrdered(key: string -> real, words: seq<string>)
    ensures NonIncreasing(key, SortBy(key, words))
  {
    if words != [] {
      SortOrdered(key, words[..|words| - 1]);
      InsertOrdered(key, words[|words| - 1], SortBy(key, words[..|words| - 1]));
    }
  }

  /** The words whose key is k, in their order in the list. */
  function WithKey(key: string -> real, s: seq<string>, k: real): (r: seq<string>)
    ensures forall i :: 0 <= i < |r| ==> key(r[i]) == k
  {
    if s == [] then []
    else if key(s[0]) == k then [s[0]] + WithKey(key, s[1..], k)
    else WithKey(key, s[1..], k)
  }

  lemma {:induction false} WithKeyAppend(key: string -> real, a: seq<string>, b: seq<string>, k: real)
    ensures WithKey(key, a + b, k) == WithKey(key, a, k) + WithKey(key, b, k)
  {
    if a != [] {
      assert (a + b)[0] == a[0];
      assert (a + b)[1..] == a[1..] + b;
      WithKeyAppend(key, a[1..], b, k);
    } else {
      assert a + b == b;
    }
  }

  lemma {:induction false} NoneWithKey(key: string -> real, s: seq<string>, k: real)
    requires forall i :: 0 <= i < |s| ==> key(s[i]) < k
    ensures WithKey(key, s, k) == []
  {
    if s != [] {
      NoneWithKey(key, s[1..], k);
    }
  }

  /** Inserting w places it after every word with the same key. */
  lemma {:induction false} InsertStable(key: string -> real, w: string, s: seq<string>, k: real)
    requires NonIncreasing(key, s)
    ensures WithKey(key, Insert(key, w, s), k) == WithKey(key, s, k) + WithKey(key, [w], k)
  {
    if s == [] {
      assert [w] + s == [w];
    } else if key(s[0]) >= key(w) {
      NonIncreasingTail(key, s);
      InsertStable(key, w, s[1..], k);
      InsertPastStable(key, w, s, k);
    } else {
      InsertFrontStable(key, w, s, k);
    }
  }

  lemma NonIncreasingTail(key: string -> real, s: seq<string>)
    requires s != [] && NonIncreasing(key, s)
    ensures NonIncreasing(key, s[1..])
  {
    var tail := s[1..];
    forall i, j | 0 <= i < j < |tail|
      ensures key(tail[i]) >= key(tail[j])
    {
      assert tail[i] == s[i + 1] && tail[j] == s[j + 1];
    }
  }

  lemma AppendAssoc<T>(a: seq<T>, b: seq<T>, c: seq<T>)
    ensures a + (b + c) == (a + b) + c
  {
  }

  /** The step of InsertStable where w goes past the head of the list. */
  lemma InsertPastStable(key: string -> real, w: string, s: seq<string>, k: real)
    requires s != [] && key(s[0]) >= key(w)
    requires WithKey(key, Insert(key, w, s[1..]), k) == WithKey(key, s[1..], k) + WithKey(key, [w], k)
    ensures WithKey(key, Insert(key, w, s), k) == WithKey(key, s, k) + WithKey(key, [w], k)
  {
    var x := Insert(key, w, s[1..]);
    assert Insert(key, w, s) == [s[0]] + x;
    assert ([s[0]] + x)[1..] == x;
    assert ([s[0]] + x)[0] == s[0];
    if key(s[0]) == k {
      AppendAssoc([s[0]], WithKey(key, s[1..], k), WithKey(key, [w], k));
    }
  }

  /** The step of InsertStable where w goes in front of the list. */
  lemma InsertFrontStable(key: string -> real, w: string, s: seq<string>, k: real)
    requires s != [] && NonIncreasing(key, s) && key(s[0]) < key(w)
    ensures WithKey(key, Insert(key, w, s), k) == WithKey(key, s, k) + WithKey(key, [w], k)
  {
    assert Insert(key, w, s) == [w] + s;
    WithKeyAppend(key, [w], s, k);
    if key(w) == k {
      NoneWithKey(key, s, k);
    }
  }

  /** Stability: words with equal keys keep their relative order. */
  lemma {:induction false} SortStable(key: string -> real, words: seq<string>, k: real)
    ensures WithKey(key, SortBy(key, words), k) == WithKey(key, words, k)
  {
    if words != [] {
      var init, last := words[..|words| - 1], words[|words| - 1];
      assert WithKey(key, SortBy(key, words), k) == WithKey(key, SortBy(key, init), k) + WithKey(key, [last], k) by {
        SortOrdered(key, init);
        InsertStable(key, last, SortBy(key, init), k);
      }
      assert WithKey(key, words, k) == WithKey(key, init, k) + WithKey(key, [last], k) by {
        assert words == init + [last];
        WithKeyAppend(key, init, [last], k);
      }
      SortStable(key, init, k);
    }
  }

  // ---------------------------------------------------------------------
  // Solving a puzzle

  /** The counters reported with the results. */
  datatype Stats = Stats(numNodes: int, numEdges: int, numIterations: int, numSolutions: int)

  /** How many of the words (with repetitions) the search finds. */
  function CountFound(g: LetterGrid, words: seq<string>): (n: nat)
    requires SolverGrid(g)
    ensures n <= |words|
  {
    if words == [] then 0
    else CountFound(g, words[..|words| - 1]) + (if Find(g, words[|words| - 1]).Some? then 1 else 0)
  }

  lemma {:induction false} CountFoundAppend(g: LetterGrid, a: seq<string>, b: seq<string>)
    requires SolverGrid(g)
    ensures CountFound(g, a + b) == CountFound(g, a) + CountFound(g, b)
    decreases |b|
  {
    if b != [] {
      var init := b[..|b| - 1];
      assert (a + b)[..|a + b| - 1] == a + init;
      assert (a + b)[|a + b| - 1] == b[|b| - 1];
      CountFoundAppend(g, a, init);
    } else {
      assert a + b == a;
    }
  }

  /** Removing the word at index j takes away its contribution. */
  lemma CountFoundRemove(g: LetterGrid, b: seq<string>, j: nat)
    requires SolverGrid(g) && j < |b|
    ensures CountFound(g, b) == CountFound(g, b[..j] + b[j + 1..]) + (if Find(g, b[j]).Some? then 1 else 0)
  {
    assert b == (b[..j] + [b[j]]) + b[j + 1..];
    CountFoundAppend(g, b[..j] + [b[j]], b[j + 1..]);
    assert (b[..j] + [b[j]])[..j] == b[..j];
    CountFoundAppend(g, b[..j], b[j + 1..]);
  }

  lemma MultisetRemove<T>(b: seq<T>, j: nat)
    requires j < |b|
    ensures multiset(b) == multiset(b[..j] + b[j + 1..]) + multiset{b[j]}
  {
    assert b == b[..j] + [b[j]] + b[j + 1..];
  }

  /** Two lists with the same multiset have the same members. */
  lemma SameMembers<T>(a: seq<T>, b: seq<T>)
    requires multiset(a) == multiset(b)
    ensures |a| == |b|
    ensures forall w :: w in a <==> w in b
  {
    assert |a| == |multiset(a)|;
    forall w
      ensures w in a <==> w in b
    {
      assert w in a <==> w in multiset(a);
    }
  }

  /** The count does not depend on the order of the words. */
  lemma {:induction false} CountFoundPermutation(g: LetterGrid, a: seq<string>, b: seq<string>)
    requires SolverGrid(g) && multiset(a) == multiset(b)
    ensures CountFound(g, a) == CountFound(g, b)
    decreases |a|
  {
    if a != [] {
      var init, x := a[..|a| - 1], a[|a| - 1];
      assert x in multiset(b) by {
        assert x in a;
      }
      var j :| 0 <= j < |b| && b[j] == x;
      var rest := b[..j] + b[j + 1..];
      assert multiset(init) == multiset(rest) by {
        assert a == init + [x];
        MultisetRemove(b, j);
        assert multiset(a) == multiset(init) + multiset{x};
        assert multiset(init) == multiset(a) - multiset{x} == multiset(b) - multiset{x};
      }
      CountFoundPermutation(g, init, rest);
      CountFoundRemove(g, b, j);
    }
  }

  /** One more word of a prefix adds its own contribution to the count. */
  lemma CountFoundSnoc(g: LetterGrid, s: seq<string>, i: nat)
    requires SolverGrid(g) && i < |s|
    ensures CountFound(g, s[..i + 1]) == CountFound(g, s[..i]) + (if Find(g, s[i]).Some? then 1 else 0)
    ensures forall w :: w in s[..i + 1] <==> w in s[..i] || w == s[i]
  {
    assert s[..i + 1][..i] == s[..i];
    assert s[..i + 1] == s[..i] + [s[i]];
  }

  /** The loop of `solve_puzzle` over the words in the order given: each
      word is searched, recorded, and counted when found. */
  method SolveInOrder(grid: LetterGrid, order: seq<string>) returns (results: map<string, WordResult>, iterations: nat, solutions: nat)
    requires SolverGrid(grid) && forall i :: 0 <= i < |order| ==> |order[i]| > 0
    ensures iterations == |order|
    ensures solutions == CountFound(grid, order)
    ensures forall w :: w in results <==> w in order
    ensures forall w :: w in results ==> results[w] == Report(Find(grid, w))
  {
    iterations, solutions := 0, 0;
    results := map[];
    var i := 0;
    while i < |order|
      invariant 0 <= i <= |order|
      invariant iterations == i
      invariant solutions == CountFound(grid, order[..i])
      invariant forall w :: w in results <==> w in order[..i]
      invariant forall w :: w in results ==> results[w] == Report(Find(grid, w))
    {
      var word := order[i];
      iterations := iterations + 1;
      var position := FindWord(grid, word);
      results := results[word := Report(position)];
      if Truthy(position) {
        solutions := solutions + 1;
      }
      CountFoundSnoc(grid, order, i);
      i := i + 1;
    }
    assert order[..i] == order;
  }

  /** `solve_puzzle`: the words are solved rarest first; each gets an entry
      in the results map, and the counters record the grid's size, the
      words tried and the words found. */
  method SolvePuzzle(grid: LetterGrid, words: seq<string>) returns (results: map<string, WordResult>, stats: Stats)
    requires SolverGrid(grid) && forall w :: w in words ==> |w| > 0
    ensures stats.numNodes == |grid| * |grid[0]| == |AllLetters(grid)|
    ensures stats.numEdges == 8 * stats.numNodes
    ensures stats.numIterations == |words|
    ensures stats.numSolutions == CountFound(grid, words) <= stats.numIterations
    ensures results.Keys == set w | w in words
    ensures forall w :: w in results ==> results[w] == Report(Find(grid, w))
  {
    var numNodes := |grid| * |grid[0]|;
    var numEdges := numNodes * 8;
    var sorted := SortByRarity(grid, words);
    SameMembers(sorted, words);
    var numIterations, numSolutions;
    results, numIterations, numSolutions := SolveInOrder(grid, sorted);
    CountFoundPermutation(grid, sorted, words);
    stats := Stats(numNodes, numEdges, numIterations, numSolutions);
  }
}
