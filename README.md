# Word search: generator and two solvers, modelled in Dafny

This project models the core of a word-search puzzle toolkit:

- **The generator.** It keeps the words of a corpus that have the right length and contain only letters. It starts from an empty square grid. Each word of the shuffled bank gets up to 100 random (direction, start) attempts. An attempt is accepted when every cell on its path is empty or already holds the same letter, and the accepted attempt's letters are written in. The loop stops once the requested number of words is placed. The remaining empty cells are then filled with random capital letters.
- **The frequency-heuristic solver.** Its `find_word` scans the start cells row by row. At a cell holding the word's first letter, it tries the eight directions in table order. Its `solve_puzzle` solves the words rarest first and counts nodes, edges, iterations and solutions. A word's rarity is the sum, over its letters, of 1 / (count of that letter in the grid + 1).
- **The pattern-matching solver.** Its `find_word` joins each row, and then each column, into a string. It searches each one with `str.find`, first for the word and then for the word reversed, and reports the first hit.

The generator's in-place procedures are Dafny methods. They work on a `Grid` class whose `cells` field they update. Each method is proved against a pure function of module `Placement`. The solvers' loops are methods proved against reference functions. Lemmas prove what those functions promise: soundness, completeness, the tie-break order, a stable and permuting sort, and the results map. Module `CrossCheck` relates the two solvers. Every non-empty word the axis-only solver finds is also found by the eight-direction solver, and a concrete grid shows that the converse fails.

Randomness is an input. The shuffled bank, one batch of at least 100 valid attempts per word, and a table of fill letters are all passed as parameters.

## Model

| member | source | states |
|---|---|---|
| Geometry.DirectionIsUnit | generator/generate_puzzle.py:7-16 | each entry of the direction table is a non-zero unit step, and it is horizontal or vertical exactly when one of its deltas is 0 |
| Results.Report | solver/frequency_heuristic.py:54-57 | the results entry has `found` true exactly when a position was returned (the truthiness of the tuple), and it keeps that position unchanged |
| Placement.FilterWords | generator/generate_puzzle.py:23 | a word is kept exactly when it is in the corpus, its length is within the limits and it is alphabetic; every kept word qualifies; the corpus order is kept (subsequence); each qualifying word is kept as often as it occurs, and any other word never |
| Placement.UpperLine | generator/generate_puzzle.py:22 | `upper()` on an ASCII line keeps the length, capitalises each lower-case letter and leaves every other character as it is |
| Placement.UpperLines | generator/generate_puzzle.py:22 | each corpus line is replaced by its upper-cased form, in order |
| Placement.LoadedWordsUpper | generator/generate_puzzle.py:19-23 | for a corpus of ASCII lines, every word `load_word_list` returns is made of the letters A-Z only, which is the premise under which the finished grid holds only capital letters |
| Placement.EmptyGrid | generator/generate_puzzle.py:26-27 | a size by size board whose every cell is empty |
| Placement.Fits | generator/generate_puzzle.py:40-52 | reference definition of an accepted attempt: the end cell is in range and every path cell is empty or the matching letter; see Placement.Choose and Generator.PathFits |
| Placement.Choose | generator/generate_puzzle.py:34-52 | the attempt chosen is the first of the 100 whose path stays in the grid and fits; None means none of the 100 fits |
| Placement.Write | generator/generate_puzzle.py:54-58 | reference definition of the write loop (keeps the board's shape); see Placement.WriteSpells, Placement.WriteKeepsLetters and Generator.WritePath |
| Placement.WriteSpells | generator/generate_puzzle.py:54-59 | after an accepted write the board is still square and the word reads along the attempt's path |
| Placement.WriteKeepsLetters | generator/generate_puzzle.py:46-59 | a write never overwrites a filled cell with another letter, and it changes no cell off the path |
| Placement.WritePreservesSpells | generator/generate_puzzle.py:46-59 | a word that was readable stays readable after another accepted write |
| Placement.WriteKeepsWellFormed | generator/generate_puzzle.py:54-59 | writing an upper-case word keeps every cell empty or one capital letter |
| Placement.PathInBounds | generator/generate_puzzle.py:40-44 | checking only the end cell is enough: with the start cell in range, every cell of the path is in range |
| Placement.Fill | generator/generate_puzzle.py:64-68 | the fill keeps the board square |
| Placement.FillCompletes | generator/generate_puzzle.py:64-68 | after the fill no cell is empty; a cell that was empty holds exactly the capital letter drawn for it; any other cell is unchanged |
| Placement.FillMakesLetterBoard | generator/generate_puzzle.py:64-68 | a board of empty and letter cells becomes a board of capital letters only |
| Placement.FillPreservesSpells | generator/generate_puzzle.py:64-68 | a word readable before the fill stays readable after it |
| Placement.Advance | generator/generate_puzzle.py:80-82 | reference definition of one turn of the selection loop (keeps the board's shape); see Placement.AdvanceGrows and Generator.SelectWords |
| Placement.AdvanceGrows | generator/generate_puzzle.py:80-82 | one turn records at most one word, and only the word being placed, appended at the end |
| Placement.Greedy | generator/generate_puzzle.py:76-82 | reference definition of the selection loop; see Placement.GreedyBound, Placement.GreedySubseq, Placement.GreedyKeepsPlaced and Generator.SelectWords |
| Placement.GreedyBound | generator/generate_puzzle.py:76-82 | with a non-negative word count, the loop never places more words than asked |
| Placement.GreedySubseq | generator/generate_puzzle.py:74-82 | the placed words are an in-order subsequence of the shuffled bank |
| Placement.GreedyKeepsSquare | generator/generate_puzzle.py:76-82 | the board stays n by n through the selection loop |
| Placement.GreedyKeepsPlaced | generator/generate_puzzle.py:76-82 | every word placed so far stays readable along the attempt that placed it |
| Placement.GreedyKeepsWellFormed | generator/generate_puzzle.py:76-82 | with an upper-case bank, every cell stays empty or one capital letter |
| Placement.Generate | generator/generate_puzzle.py:71-90 | reference definition of a generated record: the id, a square grid; see Placement.GenerateProperties and Generator.GeneratePuzzle |
| Placement.GenerateProperties | generator/generate_puzzle.py:71-90 | the record holds at most word_count words, taken in order from the bank; each word reads in the final grid along its placement; with an upper-case bank the grid holds only capital letters |
| Placement.CorpusPuzzleIsLetterBoard | generator/generate_puzzle.py:71-90 | for a corpus of ASCII lines, when the bank is a shuffle of the loaded corpus, every cell of the generated grid is one capital letter |
| Generator.Grid.constructor | generator/generate_puzzle.py:72 | the grid object holds the given rows |
| Generator.PathFits | generator/generate_puzzle.py:46-52 | the fits loop returns true exactly when every path cell is empty or holds the matching letter |
| Generator.WritePath | generator/generate_puzzle.py:54-58 | the grid afterwards is the old grid with the word written along the path |
| Generator.PlaceWord | generator/generate_puzzle.py:30-61 | returns true exactly when one of the first 100 attempts fits, and then writes the word along the first one that does; on false the grid is untouched after 100 attempts |
| Generator.FillEmptySpaces | generator/generate_puzzle.py:64-68 | the grid afterwards is the fill of the old grid |
| Generator.SelectWords | generator/generate_puzzle.py:76-82 | the grid and word list afterwards are those of the greedy selection from the old grid |
| Generator.GeneratePuzzle | generator/generate_puzzle.py:71-90 | returns the generated record: a square grid, at most word_count words in bank order, a letter grid for an upper-case bank |
| FrequencyHeuristic.ReadsFromIff | solver/frequency_heuristic.py:22-27 | the letter-by-letter check succeeds exactly when every remaining letter is read in range along the direction |
| FrequencyHeuristic.FindDir | solver/frequency_heuristic.py:21-29 | reference definition of the direction loop at one start cell; see FrequencyHeuristic.FindDirSpec |
| FrequencyHeuristic.ScanFrom | solver/frequency_heuristic.py:18-20 | reference definition of the row-major scan of the start cells; see FrequencyHeuristic.FindNone and FrequencyHeuristic.FindSome |
| FrequencyHeuristic.Find | solver/frequency_heuristic.py:16-30 | reference definition of `find_word`; see FrequencyHeuristic.FindCorrect and FrequencyHeuristic.FindWord |
| FrequencyHeuristic.FindDirSpec | solver/frequency_heuristic.py:21-29 | the direction loop finds nothing exactly when no direction reads the word; otherwise it reports the start cell and the end reached by the earliest direction that does |
| FrequencyHeuristic.FindDirHit | solver/frequency_heuristic.py:21-29 | the direction loop finds something at a cell exactly when some direction of the table reads the word from it |
| FrequencyHeuristic.FindNone | solver/frequency_heuristic.py:16-30 | `find_word` returns None exactly when no cell and direction read the word |
| FrequencyHeuristic.FindSome | solver/frequency_heuristic.py:16-30 | a returned span is the first match in row-major order, reached by the earliest direction in the table |
| FrequencyHeuristic.FindCorrect | solver/frequency_heuristic.py:16-30 | None exactly when there is no match; a span s is returned exactly when s is the first match |
| FrequencyHeuristic.FirstMatchUnique | solver/frequency_heuristic.py:18-29 | the scan order makes the first match unique |
| FrequencyHeuristic.MatchStartsInGrid | solver/frequency_heuristic.py:20 | a non-empty word is read only from a cell inside the grid |
| FrequencyHeuristic.MatchesFrom | solver/frequency_heuristic.py:22-27 | the offset loop accepts exactly when the word reads from the cell along the direction |
| FrequencyHeuristic.MatchAtCell | solver/frequency_heuristic.py:21-29 | the direction loop at a cell returns the reference result for that cell |
| FrequencyHeuristic.TryCell | solver/frequency_heuristic.py:19-29 | one column step returns the search's result from that cell, or hands over to the next cell |
| FrequencyHeuristic.ScanRow | solver/frequency_heuristic.py:19-29 | one row returns the search's result from that row, or hands over to the next row |
| FrequencyHeuristic.FindWord | solver/frequency_heuristic.py:16-30 | the nested loops return exactly the reference search result |
| FrequencyHeuristic.AllLetters | solver/frequency_heuristic.py:43 | the flattened grid has rows times columns letters |
| FrequencyHeuristic.Freq | solver/frequency_heuristic.py:43-44 | reference definition of the letter counter: how many cells hold the letter, 0 for a letter not in the grid; see FrequencyHeuristic.Rarity |
| FrequencyHeuristic.Rarity | solver/frequency_heuristic.py:43-47 | the rarity of a word lies between 0 and its length, and is positive for a non-empty word |
| FrequencyHeuristic.Insert | solver/frequency_heuristic.py:49 | inserting adds exactly the one word (multiset); order by FrequencyHeuristic.InsertOrdered, stability by FrequencyHeuristic.InsertStable |
| FrequencyHeuristic.SortBy | solver/frequency_heuristic.py:49 | the sort is a permutation of its input; order by FrequencyHeuristic.SortOrdered, stability by FrequencyHeuristic.SortStable |
| FrequencyHeuristic.SortByRarity | solver/frequency_heuristic.py:49 | the sorted words are a permutation of the words |
| FrequencyHeuristic.InsertOrdered | solver/frequency_heuristic.py:49 | inserting into a list ordered largest key first keeps it ordered |
| FrequencyHeuristic.SortOrdered | solver/frequency_heuristic.py:49 | the sorted list is ordered by key, largest first (reverse=True) |
| FrequencyHeuristic.InsertStable | solver/frequency_heuristic.py:49 | an inserted word goes after every word with the same key |
| FrequencyHeuristic.SortStable | solver/frequency_heuristic.py:49 | stability: the words with any given key keep their relative order |
| FrequencyHeuristic.CountFound | solver/frequency_heuristic.py:58-59 | the number of words found is at most the number of words |
| FrequencyHeuristic.CountFoundPermutation | solver/frequency_heuristic.py:49-59 | the solutions count does not depend on the order the words are solved in |
| FrequencyHeuristic.SolveInOrder | solver/frequency_heuristic.py:51-59 | one iteration per word; the solutions count is the number of words found; each word has an entry, and that entry is the report of its search |
| FrequencyHeuristic.SolvePuzzle | solver/frequency_heuristic.py:32-70 | nodes equals rows times columns and the number of letters; edges is 8 times nodes; iterations is the number of words; solutions counts the words found and is at most iterations; the keys are the words, each entry the report of its search |
| PatternMatch.SliceOccurs | solver/pattern_match.py:27 | comparing a slice with the pattern is an occurrence at that index |
| PatternMatch.FindSub | solver/pattern_match.py:27 | `str.find` returns -1 exactly when the pattern occurs nowhere; otherwise the pattern occurs at the index and at no smaller one; an empty pattern gives 0 |
| PatternMatch.Reverse | solver/pattern_match.py:21 | the reversal has the word's length |
| PatternMatch.ReverseAt | solver/pattern_match.py:21 | letter i of the reversal is letter i from the end |
| PatternMatch.ReverseReverse | solver/pattern_match.py:21 | reversing twice gives the word back |
| PatternMatch.Column | solver/pattern_match.py:37 | the column string has one letter per row, the letter of that row in the column |
| PatternMatch.Columns | solver/pattern_match.py:36-37 | there is one column string per column, in order |
| PatternMatch.LineHit | solver/pattern_match.py:26-33 | a line gives no hit exactly when it contains neither the word nor its reversal; a forward hit is `find` of the word; a reversed hit happens only when the word is absent, and is `find` of the reversal |
| PatternMatch.RowWord | solver/pattern_match.py:24-30 | reading rightwards from a cell of row r is an occurrence in the row string at that column |
| PatternMatch.RowLeft | solver/pattern_match.py:24-33 | reading leftwards from a cell of row r is reading the row string backwards from that column |
| PatternMatch.ColWord | solver/pattern_match.py:36-42 | reading downwards in column c is an occurrence in the column string at that row |
| PatternMatch.ColUp | solver/pattern_match.py:36-45 | reading upwards in column c is reading the column string backwards from that row |
| PatternMatch.RowReversalReads | solver/pattern_match.py:26-32 | an occurrence of the reversed word at k in a row means the word reads leftwards from column k + len - 1 |
| PatternMatch.RowReadsReversal | solver/pattern_match.py:26-32 | a word reading leftwards from column e of a row is an occurrence of the reversal at e - len + 1 |
| PatternMatch.ColReversalReads | solver/pattern_match.py:38-44 | an occurrence of the reversed word at k in a column means the word reads upwards from row k + len - 1 |
| PatternMatch.ColReadsReversal | solver/pattern_match.py:38-44 | a word reading upwards from row e of a column is an occurrence of the reversal at e - len + 1 |
| PatternMatch.FirstHit | solver/pattern_match.py:24-33 | reference definition of the line loop; see PatternMatch.FirstHitNone and PatternMatch.FirstHitAt |
| PatternMatch.RowSpan | solver/pattern_match.py:29-32 | reference definition of a row hit's span, start and end swapped for a reversed hit; see PatternMatch.RowHitForward and PatternMatch.RowHitBackward |
| PatternMatch.ColSpan | solver/pattern_match.py:41-44 | reference definition of a column hit's span, start and end swapped for a reversed hit; see PatternMatch.ColHitForward and PatternMatch.ColHitBackward |
| PatternMatch.AxisFind | solver/pattern_match.py:18-47 | reference definition of `find_word`; see PatternMatch.AxisFindNone, PatternMatch.AxisFindSound and PatternMatch.AxisFindComplete |
| PatternMatch.FirstHitNone | solver/pattern_match.py:24-33 | the line loop finds nothing exactly when no line holds the word or its reversal |
| PatternMatch.FirstHitAt | solver/pattern_match.py:24-33 | the loop stops at the first line holding the word or its reversal |
| PatternMatch.AxisFindNone | solver/pattern_match.py:18-47 | `find_word` returns None exactly when no row and no column holds the word or its reversal |
| PatternMatch.AxisFindRowOrder | solver/pattern_match.py:24-33 | a hit in the first mentioning row is reported before any column |
| PatternMatch.AxisFindColumnOrder | solver/pattern_match.py:36-45 | with no mentioning row, the hit of the first mentioning column is reported |
| PatternMatch.RowHitForward | solver/pattern_match.py:29-30 | a forward row hit spans cells reading the word rightwards |
| PatternMatch.RowHitBackward | solver/pattern_match.py:29-32 | after the swap, a reversed row hit starts at the cell of the word's first letter and reads leftwards |
| PatternMatch.ColHitForward | solver/pattern_match.py:41-42 | a forward column hit spans cells reading the word downwards |
| PatternMatch.ColHitBackward | solver/pattern_match.py:41-44 | after the swap, a reversed column hit starts at the cell of the word's first letter and reads upwards |
| PatternMatch.AxisFindSound | solver/pattern_match.py:18-47 | a returned span starts where the word reads along some horizontal or vertical direction, and ends at the word's last letter |
| PatternMatch.AxisFindComplete | solver/pattern_match.py:18-47 | for a non-empty word, None is returned exactly when the word reads along no row or column in either direction |
| PatternMatch.ReversalFoundAlike | solver/pattern_match.py:21-47 | a word is found exactly when its reversal is found |
| PatternMatch.EmptyWordSpan | solver/pattern_match.py:27-33 | the empty word is reported at the start of the first row, with end (0, -1) |
| PatternMatch.SolvePuzzle | solver/pattern_match.py:65-77 | the keys are the words; each entry is the report of that word's search |
| CrossCheck.AxisInTable | solver/frequency_heuristic.py:6-9 | the four horizontal and vertical steps are entries of the direction table |
| CrossCheck.AxisFoundIsFound | solver/pattern_match.py:18-47 | every non-empty word the pattern-matching solver finds is also found by the eight-direction `find_word` |
| CrossCheck.DiagonalOnly | solver/pattern_match.py:17-47 | a word that reads only along a diagonal is found by the eight-direction search and reported missing by the pattern-matching search |
| CrossCheck.DiagonalExample | solver/pattern_match.py:17-47 | on the grid AB/CA, "AA" is found by the eight-direction search and not by the pattern-matching search |

## Left out

- File I/O is not modelled. This covers reading `Words.txt`, saving puzzles and results as JSON, loading puzzles, the `solve_all_puzzles` drivers and all printing.
- The random draws of `random.choice`, `random.randint` and `random.shuffle` are inputs. The bank arrives already shuffled, each word has its own batch of at least 100 draws, and the fill letters come as a table. Any valid draw is allowed; the draw distribution is not modelled.
- The stripping of whitespace from corpus lines (generate_puzzle.py:22) is not modelled; the lines are taken as already stripped. Their upper-casing is modelled for the ASCII letters only.
- Placement.FilterWords: `str.isalpha` is modelled on the ASCII letters only. Python also accepts other Unicode letters.
- Placement.UpperLine: modelled for ASCII characters only. Python's `upper()` also changes non-ASCII letters (é becomes É), and it changes the length of some strings (ß becomes SS).
- Placement.LoadedWordsUpper: holds only for a corpus of ASCII lines. For a corpus with non-ASCII letters, the source's filter keeps a word such as CAFÉ, so its words are not all made of A-Z.
- Placement.CorpusPuzzleIsLetterBoard: holds only for a corpus of ASCII lines. For a corpus with non-ASCII letters, the source writes letters outside A-Z into the grid (generate_puzzle.py:58), and its grid is then not made of A-Z only.
- Generator.GeneratePuzzle: the model demands a batch of valid draws for every word of the bank, and at size 0 no draw is valid, so size 0 is covered only with an empty bank. The source also finishes `grid_size=0`, `word_count=0` with a non-empty bank, because the loop stops at generate_puzzle.py:78-79 before any draw; that case is not covered. With a non-empty bank and a non-zero word count (a negative count never meets the test at line 78), the source fails in `random.randint(0, -1)`.
- Each generated grid cell is a one-letter string, and each solver grid cell is a character. Converting the generator's output into a solver grid is not modelled.
- FrequencyHeuristic.FindWord requires a non-empty word. The source reads `word[0]` at its first cell, so an empty word raises IndexError on a grid with a cell. On a grid whose rows are all empty, such as `[[]]`, it returns None; that case is not covered.
- Both solvers require a non-empty, rectangular grid (`grid[0]` and `len(grid[0])`). The pattern-matching `SolvePuzzle` demands this only when there is at least one word.
- The timing, the duration and the memory-usage estimate of `solve_puzzle` are not modelled. They depend on the clock and on floating point.
- FrequencyHeuristic.Rarity: the rarity score is an exact rational. Python sums binary floats, so two words that tie exactly here could differ in float rounding and sort the other way.
- FrequencyHeuristic.SortByRarity: `sorted` is modelled as a stable insertion sort. Its output is stated by the key order, permutation and stability lemmas, not by Timsort's steps.
- The results dictionary is a map. Its insertion order is not modelled, and a word listed twice keeps one entry.
- CrossCheck.AxisFoundIsFound: stated for non-empty words only. For the empty word, the pattern-matching solver reports the span ((0, 0), (0, -1)) on any grid. The eight-direction solver raises IndexError on a grid with a cell, and returns None on a grid whose rows are all empty.
- The second `find_word` body at pattern_match.py:49-62 comes after a `return`, can never run, and is not modelled.
- The comment at pattern_match.py:17 claims all eight directions are searched. The code searches rows and columns only, and the model follows the code; module `CrossCheck` shows the difference on a concrete grid.
