/** The axis-only solver: each row, then each column, is joined into a string
    and searched for the word and then for its reversal with Python's
    leftmost-occurrence `str.find`; the first hit is reported. */
module PatternMatch {
  import opened Geometry
  import opened Results

  // ---------------------------------------------------------------------
  // Substring search

  /** pat occurs in text at index k, letter by letter. */
  predicate Occurs(text: string, pat: string, k: int) {
    0 <= k && k + |pat| <= |text| && forall j :: 0 <= j < |pat| ==> text[k + j] == pat[j]
  }

  /** The slice comparison `str.find` performs is an occurrence. */
  lemma SliceOccurs(text: string, pat: string, k: nat)
    requires k + |pat| <= |text|
    ensures text[k..k + |pat|] == pat <==> Occurs(text, pat, k)
  {
    if Occurs(text, pat, k) {
      assert text[k..k + |pat|] == pat;
    }
  }

  /** pat occurs somewhere in text. */
  predicate Contains(text: string, pat: string) {
    exists k :: 0 <= k <= |text| && Occurs(text, pat, k)
  }

  /** The search of `str.find` from index k on. */
  function FindSubFrom(text: string, pat: string, k: nat): (r: int)
    requires k <= |text|
    decreases |text| - k
    ensures r == -1 || (k <= r && Occurs(text, pat, r))
    ensures r == -1 ==> forall j :: k <= j ==> !Occurs(text, pat, j)
    ensures r != -1 ==> forall j :: k <= j < r ==> !Occurs(text, pat, j)
  {
    if k + |pat| > |text| then -1
    else
      SliceOccurs(text, pat, k);
      if text[k..k + |pat|] == pat then k
      else if k == |text| then -1
      else FindSubFrom(text, pat, k + 1)
  }

  /** Python's `str.find`: the leftmost index at which pat occurs in text,
      or -1 when it occurs nowhere; an empty pattern is found at 0. */
  function FindSub(text: string, pat: string): (r: int)
    ensures r == -1 <==> !Contains(text, pat)
    ensures r != -1 ==> Occurs(text, pat, r) && forall j :: 0 <= j < r ==> !Occurs(text, pat, j)
    ensures |pat| == 0 ==> r == 0
  {
    FindSubFrom(text, pat, 0)
  }

  /** `word[::-1]`. */
  function Reverse(s: string): (r: string)
    ensures |r| == |s|
  {
    if s == [] then [] else Reverse(s[1..]) + [s[0]]
  }

  /** The i-th letter of the reversal is the i-th letter from the end. */
  lemma {:induction false} ReverseAt(s: string)
    ensures forall i :: 0 <= i < |s| ==> Reverse(s)[i] == s[|s| - 1 - i]
  {
    if s != [] {
      ReverseAt(s[1..]);
    }
  }

  /** Reversing twice gives the word back. */
  lemma {:induction false} ReverseReverse(s: string)
    ensures Reverse(Reverse(s)) == s
  {
    ReverseAt(s);
    ReverseAt(Reverse(s));
    var rr := Reverse(Reverse(s));
    assert forall i :: 0 <= i < |s| ==> rr[i] == Reverse(s)[|s| - 1 - i] == s[i];
  }

  // ---------------------------------------------------------------------
  // Lines of the grid

  /** Column c joined top to bottom. */
  function Column(g: LetterGrid, c: int): (col: string)
    requires SolverGrid(g) && 0 <= c < |g[0]|
    ensures |col| == |g| && forall r :: 0 <= r < |g| ==> col[r] == g[r][c]
  {
    ColumnFrom(g, c, 0)
  }

  /** Column c from row r down. */
  function ColumnFrom(g: LetterGrid, c: int, r: nat): (col: string)
    requires SolverGrid(g) && 0 <= c < |g[0]| && r <= |g|
    ensures |col| == |g| - r && forall i :: r <= i < |g| ==> col[i - r] == g[i][c]
    decreases |g| - r
  {
    if r == |g| then [] else [g[r][c]] + ColumnFrom(g, c, r + 1)
  }

  /** The column strings, left to right, from column c on. */
  function ColumnsFrom(g: LetterGrid, c: nat): (cols: seq<string>)
    requires SolverGrid(g) && c <= |g[0]|
    ensures |cols| == |g[0]| - c && forall i :: c <= i < |g[0]| ==> cols[i - c] == Column(g, i)
    decreases |g[0]| - c
  {
    if c == |g[0]| then [] else [Column(g, c)] + ColumnsFrom(g, c + 1)
  }

  /** The column strings of the grid, left to right. */
  function Columns(g: LetterGrid): (cols: seq<string>)
    requires SolverGrid(g)
    ensures |cols| == |g[0]| && forall c :: 0 <= c < |g[0]| ==> cols[c] == Column(g, c)
  {
    ColumnsFrom(g, 0)
  }

  /** A hit on one line: the index returned by `str.find`, and whether it
      was the reversed word that was found. */
  datatype Hit = Hit(index: int, reversed: bool)

  /** One line is searched for the word, then for its reversal. */
  function LineHit(line: string, word: string): (h: Option<Hit>)
    ensures h.None? <==> !Contains(line, word) && !Contains(line, Reverse(word))
    ensures h.Some? && !h.value.reversed ==> h.value.index == FindSub(line, word) != -1
    ensures h.Some? && h.value.reversed ==>
              !Contains(line, word) && h.value.index == FindSub(line, Reverse(word)) != -1
  {
    var i := FindSub(line, word);
    if i != -1 then Some(Hit(i, false))
    else
      var j := FindSub(line, Reverse(word));
      if j != -1 then Some(Hit(j, true)) else None
  }

  /** The loop over the lines from index i on: the first line with a hit,
      and the hit. */
  function FirstHit(lines: seq<string>, word: string, i: nat): Option<(int, Hit)>
    requires i <= |lines|
    decreases |lines| - i
  {
    if i == |lines| then None
    else match LineHit(lines[i], word)
      case Some(h) => Some((i, h))
      case None => FirstHit(lines, word, i + 1)
  }

  /** The span reported for a hit in row r; on a reversed hit the start and
      end are swapped, so the start is the cell of the word's first letter. */
  function RowSpan(r: int, h: Hit, len: int): Span {
    var first, last := (r, h.index), (r, h.index + len - 1);
    if h.reversed then Span(last, first) else Span(first, last)
  }

  /** The span reported for a hit in column c. */
  function ColSpan(c: int, h: Hit, len: int): Span {
    var first, last := (h.index, c), (h.index + len - 1, c);
    if h.reversed then Span(last, first) else Span(first, last)
  }

  /** `find_word`: the rows are searched first, then the columns. */
  function AxisFind(g: LetterGrid, word: string): Option<Span>
    requires SolverGrid(g)
  {
    match FirstHit(g, word, 0)
    case Some((r, h)) => Some(RowSpan(r, h, |word|))
    case None =>
      match FirstHit(Columns(g), word, 0)
      case Some((c, h)) => Some(ColSpan(c, h, |word|))
      case None => None
  }

  // ---------------------------------------------------------------------
  // Lines and directions

  /** w is read from text leftwards starting at index e. */
  predicate ReadsBackward(text: string, w: string, e: int) {
    e < |text| && 0 <= e - |w| + 1 && forall i :: 0 <= i < |w| ==> text[e - i] == w[i]
  }

  /** An occurrence of the reversal, read letter by letter from its far
      end, spells the word. */
  lemma {:induction false} ReversalReadsBackward(text: string, w: string, k: int)
    requires Occurs(text, Reverse(w), k)
    ensures ReadsBackward(text, w, k + |w| - 1)
  {
    var n, rev, e := |w|, Reverse(w), k + |w| - 1;
    ReverseAt(w);
    forall i | 0 <= i < n
      ensures text[e - i] == w[i]
    {
      assert text[k + (n - 1 - i)] == rev[n - 1 - i];
    }
  }

  /** Conversely, the word read backwards from e is an occurrence of its
      reversal that ends at e. */
  lemma {:induction false} ReadsBackwardReversal(text: string, w: string, e: int)
    requires ReadsBackward(text, w, e)
    ensures Occurs(text, Reverse(w), e - |w| + 1)
  {
    var n, rev, k := |w|, Reverse(w), e - |w| + 1;
    ReverseAt(w);
    forall j | 0 <= j < n
      ensures text[k + j] == rev[j]
    {
      assert text[e - (n - 1 - j)] == w[n - 1 - j];
    }
  }

  /** The word occurs in row r at x exactly when it reads rightwards from
      (r, x). */
  lemma {:induction false} RowWord(g: LetterGrid, w: string, r: int, x: int)
    requires 0 <= r < |g| && |w| > 0
    ensures MatchAt(g, w, (r, x), (0, 1)) <==> Occurs(g[r], w, x)
  {
    var n := |w|;
    if MatchAt(g, w, (r, x), (0, 1)) {
      assert CellIs(g, Step((r, x), (0, 1), 0), w[0]);
      assert CellIs(g, Step((r, x), (0, 1), n - 1), w[n - 1]);
      forall i | 0 <= i < n
        ensures g[r][x + i] == w[i]
      {
        assert CellIs(g, Step((r, x), (0, 1), i), w[i]);
      }
    }
    if Occurs(g[r], w, x) {
      forall i | 0 <= i < n
        ensures CellIs(g, Step((r, x), (0, 1), i), w[i])
      {
        assert Step((r, x), (0, 1), i) == (r, x + i);
      }
    }
  }

  /** Reading leftwards from (r, x) is reading row r backwards from x. */
  lemma {:induction false} RowLeft(g: LetterGrid, w: string, r: int, x: int)
    requires 0 <= r < |g| && |w| > 0
    ensures MatchAt(g, w, (r, x), (0, -1)) <==> ReadsBackward(g[r], w, x)
  {
    var n := |w|;
    if MatchAt(g, w, (r, x), (0, -1)) {
      assert CellIs(g, Step((r, x), (0, -1), 0), w[0]);
      assert CellIs(g, Step((r, x), (0, -1), n - 1), w[n - 1]);
      forall i | 0 <= i < n
        ensures g[r][x - i] == w[i]
      {
        assert CellIs(g, Step((r, x), (0, -1), i), w[i]);
      }
    }
    if ReadsBackward(g[r], w, x) {
      forall i | 0 <= i < n
        ensures CellIs(g, Step((r, x), (0, -1), i), w[i])
      {
        assert Step((r, x), (0, -1), i) == (r, x - i);
      }
    }
  }

  /** The word occurs in column c at x exactly when it reads downwards from
      (x, c). */
  lemma {:induction false} ColWord(g: LetterGrid, w: string, c: int, x: int)
    requires SolverGrid(g) && 0 <= c < |g[0]| && |w| > 0
    ensures MatchAt(g, w, (x, c), (1, 0)) <==> Occurs(Column(g, c), w, x)
  {
    var n := |w|;
    if MatchAt(g, w, (x, c), (1, 0)) {
      assert CellIs(g, Step((x, c), (1, 0), 0), w[0]);
      assert CellIs(g, Step((x, c), (1, 0), n - 1), w[n - 1]);
      forall i | 0 <= i < n
        ensures Column(g, c)[x + i] == w[i]
      {
        assert CellIs(g, Step((x, c), (1, 0), i), w[i]);
      }
    }
    if Occurs(Column(g, c), w, x) {
      forall i | 0 <= i < n
        ensures CellIs(g, Step((x, c), (1, 0), i), w[i])
      {
        assert Step((x, c), (1, 0), i) == (x + i, c);
      }
    }
  }

  /** Reading upwards from (x, c) is reading column c backwards from x. */
  lemma {:induction false} ColUp(g: LetterGrid, w: string, c: int, x: int)
    requires SolverGrid(g) && 0 <= c < |g[0]| && |w| > 0
    ensures MatchAt(g, w, (x, c), (-1, 0)) <==> ReadsBackward(Column(g, c), w, x)
  {
    var n := |w|;
    if MatchAt(g, w, (x, c), (-1, 0)) {
      assert CellIs(g, Step((x, c), (-1, 0), 0), w[0]);
      assert CellIs(g, Step((x, c), (-1, 0), n - 1), w[n - 1]);
      forall i | 0 <= i < n
        ensures Column(g, c)[x - i] == w[i]
      {
        assert CellIs(g, Step((x, c), (-1, 0), i), w[i]);
      }
    }
    if ReadsBackward(Column(g, c), w, x) {
      forall i | 0 <= i < n
        ensures CellIs(g, Step((x, c), (-1, 0), i), w[i])
      {
        assert Step((x, c), (-1, 0), i) == (x - i, c);
      }
    }
  }

  /** RowLeft for the far end of an occurrence that starts at k. */
  lemma RowLeftFrom(g: LetterGrid, w: string, r: int, k: int)
    requires 0 <= r < |g| && |w| > 0 && ReadsBackward(g[r], w, k + |w| - 1)
    ensures MatchAt(g, w, (r, k + |w| - 1), (0, -1))
  {
    RowLeft(g, w, r, k + |w| - 1);
  }

  /** ColUp for the far end of an occurrence that starts at k. */
  lemma ColUpFrom(g: LetterGrid, w: string, c: int, k: int)
    requires SolverGrid(g) && 0 <= c < |g[0]| && |w| > 0 && ReadsBackward(Column(g, c), w, k + |w| - 1)
    ensures MatchAt(g, w, (k + |w| - 1, c), (-1, 0))
  {
    ColUp(g, w, c, k + |w| - 1);
  }

  /** The reversal occurring in row r at k is the word read leftwards from
      the far end of that occurrence. */
  lemma RowReversalReads(g: LetterGrid, word: string, r: int, k: int)
    requires 0 <= r < |g| && |word| > 0 && Occurs(g[r], Reverse(word), k)
    ensures MatchAt(g, word, (r, k + |word| - 1), (0, -1))
  {
    ReversalReadsBackward(g[r], word, k);
    RowLeftFrom(g, word, r, k);
  }

  /** Conversely, the word read leftwards from (r, e) puts its reversal into
      row r, ending at e. */
  lemma RowReadsReversal(g: LetterGrid, word: string, r: int, e: int)
    requires 0 <= r < |g| && |word| > 0 && MatchAt(g, word, (r, e), (0, -1))
    ensures Occurs(g[r], Reverse(word), e - |word| + 1)
  {
    RowLeft(g, word, r, e);
    ReadsBackwardReversal(g[r], word, e);
  }

  /** The reversal occurring in column c at k is the word read upwards from
      the far end of that occurrence. */
  lemma ColReversalReads(g: LetterGrid, word: string, c: int, k: int)
    requires SolverGrid(g) && 0 <= c < |g[0]| && |word| > 0 && Occurs(Column(g, c), Reverse(word), k)
    ensures MatchAt(g, word, (k + |word| - 1, c), (-1, 0))
  {
    ReversalReadsBackward(Column(g, c), word, k);
    ColUpFrom(g, word, c, k);
  }

  /** Conversely, the word read upwards from (e, c) puts its reversal into
      column c, ending at e. */
  lemma ColReadsReversal(g: LetterGrid, word: string, c: int, e: int)
    requires SolverGrid(g) && 0 <= c < |g[0]| && |word| > 0 && MatchAt(g, word, (e, c), (-1, 0))
    ensures Occurs(Column(g, c), Reverse(word), e - |word| + 1)
  {
    ColUp(g, word, c, e);
    ReadsBackwardReversal(Column(g, c), word, e);
  }

  // ---------------------------------------------------------------------
  // What the scans find

  /** The line holds the word or its reversal. */
  predicate Mentions(line: string, word: string) {
    Contains(line, word) || Contains(line, Reverse(word))
  }

  lemma {:induction false} FirstHitNone(lines: seq<string>, word: string, i: nat)
    requires i <= |lines|
    ensures FirstHit(lines, word, i).None? <==> forall j :: i <= j < |lines| ==> !Mentions(lines[j], word)
    decreases |lines| - i
  {
    if i < |lines| {
      FirstHitNone(lines, word, i + 1);
    }
  }

  /** When line k is the first line from i on that holds the word or its
      reversal, the loop stops at line k with that line's hit. */
  lemma {:induction false} FirstHitAt(lines: seq<string>, word: string, i: nat, k: int)
    requires i <= k < |lines| && Mentions(lines[k], word)
    requires forall j :: i <= j < k ==> !Mentions(lines[j], word)
    ensures FirstHit(lines, word, i) == Some((k, LineHit(lines[k], word).value))
    decreases k - i
  {
    if i < k {
      FirstHitAt(lines, word, i + 1, k);
    }
  }

  /** A hit the loop returns is the hit of a line it visited. */
  lemma {:induction false} FirstHitSome(lines: seq<string>, word: string, i: nat)
    requires i <= |lines| && FirstHit(lines, word, i).Some?
    ensures var x := FirstHit(lines, word, i).value;
            i <= x.0 < |lines| && LineHit(lines[x.0], word) == Some(x.1)
    decreases |lines| - i
  {
    if LineHit(lines[i], word).None? {
      FirstHitSome(lines, word, i + 1);
    }
  }

  /** `find_word` returns None exactly when no row and no column holds the
      word or its reversal. */
  lemma AxisFindNone(g: LetterGrid, word: string)
    requires SolverGrid(g)
    ensures AxisFind(g, word).None? <==>
              (forall r :: 0 <= r < |g| ==> !Mentions(g[r], word)) &&
              (forall c :: 0 <= c < |g[0]| ==> !Mentions(Column(g, c), word))
  {
    FirstHitNone(g, word, 0);
    FirstHitNone(Columns(g), word, 0);
  }

  /** Search order in the rows: when row r is the first row holding the word
      or its reversal, the hit is in row r; the word read forwards wins over
      its reversal, and the leftmost occurrence is taken. */
  lemma AxisFindRowOrder(g: LetterGrid, word: string, r: int)
    requires SolverGrid(g) && 0 <= r < |g| && Mentions(g[r], word)
    requires forall j :: 0 <= j < r ==> !Mentions(g[j], word)
    ensures AxisFind(g, word).Some?
    ensures var s := AxisFind(g, word).value;
            s.start.0 == r && s.end.0 == r &&
            (Contains(g[r], word) ==>
               s.start.1 == FindSub(g[r], word) && s.end.1 == s.start.1 + |word| - 1) &&
            (!Contains(g[r], word) ==>
               s.end.1 == FindSub(g[r], Reverse(word)) && s.start.1 == s.end.1 + |word| - 1)
  {
    FirstHitAt(g, word, 0, r);
  }

  /** Search order in the columns, which are searched only when no row holds
      the word or its reversal: the first such column is reported, forwards
      before reversed, topmost occurrence first. */
  lemma AxisFindColumnOrder(g: LetterGrid, word: string, c: int)
    requires SolverGrid(g) && 0 <= c < |g[0]| && Mentions(Column(g, c), word)
    requires forall r :: 0 <= r < |g| ==> !Mentions(g[r], word)
    requires forall j :: 0 <= j < c ==> !Mentions(Column(g, j), word)
    ensures AxisFind(g, word).Some?
    ensures var s, col := AxisFind(g, word).value, Column(g, c);
            s.start.1 == c && s.end.1 == c &&
            (Contains(col, word) ==>
               s.start.0 == FindSub(col, word) && s.end.0 == s.start.0 + |word| - 1) &&
            (!Contains(col, word) ==>
               s.end.0 == FindSub(col, Reverse(word)) && s.start.0 == s.end.0 + |word| - 1)
  {
    FirstHitNone(g, word, 0);
    FirstHitAt(Columns(g), word, 0, c);
  }

  // ---------------------------------------------------------------------
  // Hits as cells of the grid

  /** A forward row hit is the word read rightwards from start to end. */
  lemma RowHitForward(g: LetterGrid, word: string, r: int, h: Hit)
    requires 0 <= r < |g| && |word| > 0 && !h.reversed && Occurs(g[r], word, h.index)
    ensures var s := RowSpan(r, h, |word|);
            MatchAt(g, word, s.start, (0, 1)) && s.end == EndOf(s.start, (0, 1), |word|)
  {
    RowWord(g, word, r, h.index);
  }

  /** The span of a reversed row hit starts at the far end and runs left. */
  lemma ReversedRowSpan(r: int, h: Hit, len: int)
    requires h.reversed
    ensures RowSpan(r, h, len) == Span((r, h.index + len - 1), (r, h.index))
    ensures RowSpan(r, h, len).end == EndOf(RowSpan(r, h, len).start, (0, -1), len)
  {
  }

  /** The span of a reversed column hit starts at the far end and runs up. */
  lemma ReversedColSpan(c: int, h: Hit, len: int)
    requires h.reversed
    ensures ColSpan(c, h, len) == Span((h.index + len - 1, c), (h.index, c))
    ensures ColSpan(c, h, len).end == EndOf(ColSpan(c, h, len).start, (-1, 0), len)
  {
  }

  /** A reversed row hit is the word read leftwards from start to end: the
      swap of start and end puts the start on the word's first letter. */
  lemma RowHitBackward(g: LetterGrid, word: string, r: int, h: Hit)
    requires 0 <= r < |g| && |word| > 0 && h.reversed && Occurs(g[r], Reverse(word), h.index)
    ensures var s := RowSpan(r, h, |word|);
            MatchAt(g, word, s.start, (0, -1)) && s.end == EndOf(s.start, (0, -1), |word|)
  {
    ReversedRowSpan(r, h, |word|);
    assert MatchAt(g, word, RowSpan(r, h, |word|).start, (0, -1)) by {
      RowReversalReads(g, word, r, h.index);
    }
  }

  /** A forward column hit is the word read downwards from start to end. */
  lemma ColHitForward(g: LetterGrid, word: string, c: int, h: Hit)
    requires SolverGrid(g) && 0 <= c < |g[0]| && |word| > 0
    requires !h.reversed && Occurs(Column(g, c), word, h.index)
    ensures var s := ColSpan(c, h, |word|);
            MatchAt(g, word, s.start, (1, 0)) && s.end == EndOf(s.start, (1, 0), |word|)
  {
    ColWord(g, word, c, h.index);
  }

  /** A reversed column hit is the word read upwards from start to end. */
  lemma ColHitBackward(g: LetterGrid, word: string, c: int, h: Hit)
    requires SolverGrid(g) && 0 <= c < |g[0]| && |word| > 0
    requires h.reversed && Occurs(Column(g, c), Reverse(word), h.index)
    ensures var s := ColSpan(c, h, |word|);
            MatchAt(g, word, s.start, (-1, 0)) && s.end == EndOf(s.start, (-1, 0), |word|)
  {
    ReversedColSpan(c, h, |word|);
    assert MatchAt(g, word, ColSpan(c, h, |word|).start, (-1, 0)) by {
      ColReversalReads(g, word, c, h.index);
    }
  }

  /** The index of a hit is where `str.find` found the word or its
      reversal. */
  lemma HitOccurs(line: string, word: string, h: Hit)
    requires LineHit(line, word) == Some(h)
    ensures !h.reversed ==> Occurs(line, word, h.index)
    ensures h.reversed ==> Occurs(line, Reverse(word), h.index)
  {
  }

  /** A word read along a horizontal or vertical direction lies inside the
      grid, in one row or one column. */
  lemma AxisSpanInGrid(g: LetterGrid, word: string, s: Span, d: Direction)
    requires |word| > 0 && IsAxis(d) && MatchAt(g, word, s.start, d) && s.end == EndOf(s.start, d, |word|)
    ensures InGrid(g, s.start) && InGrid(g, s.end)
    ensures s.start.0 == s.end.0 || s.start.1 == s.end.1
  {
    assert CellIs(g, Step(s.start, d, 0), word[0]);
    assert CellIs(g, Step(s.start, d, |word| - 1), word[|word| - 1]);
  }

  /** The span reported for the first row hit reads along the row. */
  lemma RowsSound(g: LetterGrid, word: string)
    requires SolverGrid(g) && |word| > 0 && FirstHit(g, word, 0).Some?
    ensures var x := FirstHit(g, word, 0).value;
            var s, d := RowSpan(x.0, x.1, |word|), if x.1.reversed then (0, -1) else (0, 1);
            MatchAt(g, word, s.start, d) && s.end == EndOf(s.start, d, |word|)
  {
    FirstHitSome(g, word, 0);
    var x := FirstHit(g, word, 0).value;
    HitOccurs(g[x.0], word, x.1);
    if x.1.reversed {
      RowHitBackward(g, word, x.0, x.1);
    } else {
      RowHitForward(g, word, x.0, x.1);
    }
  }

  /** The span reported for the first column hit reads along the column. */
  lemma ColsSound(g: LetterGrid, word: string)
    requires SolverGrid(g) && |word| > 0 && FirstHit(Columns(g), word, 0).Some?
    ensures var x := FirstHit(Columns(g), word, 0).value;
            var s, d := ColSpan(x.0, x.1, |word|), if x.1.reversed then (-1, 0) else (1, 0);
            MatchAt(g, word, s.start, d) && s.end == EndOf(s.start, d, |word|)
  {
    FirstHitSome(Columns(g), word, 0);
    var x := FirstHit(Columns(g), word, 0).value;
    HitOccurs(Columns(g)[x.0], word, x.1);
    if x.1.reversed {
      ColHitBackward(g, word, x.0, x.1);
    } else {
      ColHitForward(g, word, x.0, x.1);
    }
  }

  /** Soundness: a reported span holds the word along a horizontal or
      vertical direction, from the start to the end, inside the grid, and
      start and end share a row or a column. */
  lemma AxisFindSound(g: LetterGrid, word: string)
    requires SolverGrid(g) && |word| > 0 && AxisFind(g, word).Some?
    ensures var s := AxisFind(g, word).value;
            (exists d :: IsAxis(d) && MatchAt(g, word, s.start, d) && s.end == EndOf(s.start, d, |word|))
            && InGrid(g, s.start) && InGrid(g, s.end)
            && (s.start.0 == s.end.0 || s.start.1 == s.end.1)
  {
    var s := AxisFind(g, word).value;
    var d: Direction;
    if FirstHit(g, word, 0).Some? {
      RowsSound(g, word);
      d := if FirstHit(g, word, 0).value.1.reversed then (0, -1) else (0, 1);
    } else {
      ColsSound(g, word);
      d := if FirstHit(Columns(g), word, 0).value.1.reversed then (-1, 0) else (1, 0);
    }
    AxisSpanInGrid(g, word, s, d);
  }

  /** A word that reads along a horizontal or vertical direction puts the
      word or its reversal into the string of that row or column. */
  lemma AxisMatchMentioned(g: LetterGrid, word: string, p: Pos, d: Direction)
    requires SolverGrid(g) && |word| > 0 && IsAxis(d) && MatchAt(g, word, p, d)
    ensures 0 <= p.0 < |g| && 0 <= p.1 < |g[0]|
    ensures d.0 == 0 ==> Mentions(g[p.0], word)
    ensures d.1 == 0 ==> Mentions(Column(g, p.1), word)
  {
    var n := |word|;
    assert CellIs(g, Step(p, d, 0), word[0]);
    if d == (0, 1) {
      RowWord(g, word, p.0, p.1);
      assert Occurs(g[p.0], word, p.1);
    } else if d == (0, -1) {
      RowReadsReversal(g, word, p.0, p.1);
      assert Occurs(g[p.0], Reverse(word), p.1 - n + 1);
    } else if d == (1, 0) {
      ColWord(g, word, p.1, p.0);
      assert Occurs(Column(g, p.1), word, p.0);
    } else {
      ColReadsReversal(g, word, p.1, p.0);
      assert Occurs(Column(g, p.1), Reverse(word), p.0 - n + 1);
    }
  }

  /** Completeness for the four axis directions: for a non-empty word,
      `find_word` returns None exactly when the word reads along no
      horizontal or vertical direction from any cell; diagonal placements
      are never seen. */
  lemma AxisFindComplete(g: LetterGrid, word: string)
    requires SolverGrid(g) && |word| > 0
    ensures AxisFind(g, word).None? <==> forall p, d :: IsAxis(d) ==> !MatchAt(g, word, p, d)
  {
    if AxisFind(g, word).Some? {
      AxisFindSound(g, word);
    } else {
      AxisFindNone(g, word);
      forall p, d | IsAxis(d)
        ensures !MatchAt(g, word, p, d)
      {
        if MatchAt(g, word, p, d) {
          AxisMatchMentioned(g, word, p, d);
        }
      }
    }
  }

  /** A word and its reversal are found in the same grids. */
  lemma ReversalFoundAlike(g: LetterGrid, word: string)
    requires SolverGrid(g)
    ensures AxisFind(g, Reverse(word)).None? <==> AxisFind(g, word).None?
  {
    ReverseReverse(word);
    AxisFindNone(g, word);
    AxisFindNone(g, Reverse(word));
  }

  /** The empty word matches at index 0 of the first row, so the reported
      span runs from (0, 0) to (0, -1). */
  lemma EmptyWordSpan(g: LetterGrid)
    requires SolverGrid(g)
    ensures AxisFind(g, "") == Some(Span((0, 0), (0, -1)))
  {
    assert Occurs(g[0], "", 0);
  }

  // ---------------------------------------------------------------------
  // Solving a puzzle

  /** `solve_puzzle`: every word is searched, in the order given, and gets
      an entry in the results map. The grid is indexed only once a word is
      searched, so an empty word list needs no grid. */
  method SolvePuzzle(grid: LetterGrid, words: seq<string>) returns (results: map<string, WordResult>)
    requires |words| > 0 ==> SolverGrid(grid)
    ensures results.Keys == set w | w in words
    ensures forall w :: w in results ==> SolverGrid(grid) && results[w] == Report(AxisFind(grid, w))
  {
    results := map[];
    var i := 0;
    while i < |words|
      invariant 0 <= i <= |words|
      invariant forall w :: w in results <==> w in words[..i]
      invariant forall w :: w in results ==> SolverGrid(grid) && results[w] == Report(AxisFind(grid, w))
    {
      var word := words[i];
      var position := AxisFind(grid, word);
      results := results[word := Report(position)];
      assert words[..i + 1] == words[..i] + [word];
      i := i + 1;
    }
    assert words[..i] == words;
  }
}
