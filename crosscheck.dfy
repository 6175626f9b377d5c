/** How the two solvers compare: the eight-direction search of the
    frequency-heuristic solver sees every non-empty word the
    horizontal-and-vertical pattern-matching solver sees, and more. */
module CrossCheck {
  import opened Geometry
  import FrequencyHeuristic
  import PatternMatch

  /** The four axis directions are entries of the direction table. */
  lemma AxisInTable(d: Direction)
    requires IsAxis(d)
    ensures exists k :: 0 <= k < |DIRECTIONS| && DIRECTIONS[k] == d
  {
    if d == (0, 1) {
      assert DIRECTIONS[0] == d;
    } else if d == (1, 0) {
      assert DIRECTIONS[1] == d;
    } else if d == (0, -1) {
      assert DIRECTIONS[4] == d;
    } else {
      assert DIRECTIONS[5] == d;
    }
  }

  /** A non-empty word the pattern-matching solver finds is also found by
      the eight-direction search. */
  lemma AxisFoundIsFound(g: LetterGrid, word: string)
    requires SolverGrid(g) && |word| > 0 && PatternMatch.AxisFind(g, word).Some?
    ensures FrequencyHeuristic.Find(g, word).Some?
  {
    PatternMatch.AxisFindSound(g, word);
    var s := PatternMatch.AxisFind(g, word).value;
    var d :| IsAxis(d) && MatchAt(g, word, s.start, d) && s.end == EndOf(s.start, d, |word|);
    AxisInTable(d);
    var k :| 0 <= k < |DIRECTIONS| && DIRECTIONS[k] == d;
    assert FrequencyHeuristic.HasMatch(g, word, s.start);
    FrequencyHeuristic.FindCorrect(g, word);
  }

  /** A word that reads along a diagonal of the grid but along no row or
      column is found by the eight-direction search and reported missing by
      the pattern-matching search. */
  lemma DiagonalOnly(g: LetterGrid, word: string, q: Pos, k: int)
    requires SolverGrid(g) && |word| > 0
    requires 0 <= k < |DIRECTIONS| && MatchAt(g, word, q, DIRECTIONS[k])
    requires forall p, d :: IsAxis(d) ==> !MatchAt(g, word, p, d)
    ensures FrequencyHeuristic.Find(g, word).Some?
    ensures PatternMatch.AxisFind(g, word).None?
  {
    assert FrequencyHeuristic.HasMatch(g, word, q);
    FrequencyHeuristic.FindCorrect(g, word);
    PatternMatch.AxisFindComplete(g, word);
  }

  /** The only cells of the grid AB/CA holding an A are the two ends of
      its main diagonal. */
  lemma DiagonalCells(q: Pos)
    requires q != (0, 0) && q != (1, 1)
    ensures !CellIs(["AB", "CA"], q, 'A')
  {
    var g: LetterGrid := ["AB", "CA"];
    assert g[0][1] == 'B' && g[1][0] == 'C';
  }

  /** One horizontal or vertical step leaves the main diagonal of a 2 by 2
      grid. */
  lemma AxisStepLeaves(p: Pos, d: Direction)
    requires IsAxis(d) && (p == (0, 0) || p == (1, 1))
    ensures (p.0 + d.0, p.1 + d.1) != (0, 0) && (p.0 + d.0, p.1 + d.1) != (1, 1)
  {
  }

  /** "AA" reads along no row or column of the grid AB/CA. */
  lemma NoAxisDouble(p: Pos, d: Direction)
    requires IsAxis(d)
    ensures !MatchAt(["AB", "CA"], "AA", p, d)
  {
    var g: LetterGrid := ["AB", "CA"];
    var q := (p.0 + d.0, p.1 + d.1);
    if p != (0, 0) && p != (1, 1) {
      assert !CellIs(g, Step(p, d, 0), "AA"[0]) by {
        StepOne(p, d);
        DiagonalCells(p);
      }
    } else {
      assert !CellIs(g, Step(p, d, 1), "AA"[1]) by {
        StepOne(p, d);
        AxisStepLeaves(p, d);
        DiagonalCells(q);
      }
    }
  }

  /** The first two cells read along d from p. */
  lemma StepOne(p: Pos, d: Direction)
    ensures Step(p, d, 0) == p && Step(p, d, 1) == (p.0 + d.0, p.1 + d.1)
  {
  }

  /** "AA" reads down-right from the top-left cell of the grid AB/CA. */
  lemma DiagonalDouble()
    ensures MatchAt(["AB", "CA"], "AA", (0, 0), (1, 1))
  {
    var g: LetterGrid := ["AB", "CA"];
    forall i | 0 <= i < 2
      ensures CellIs(g, Step((0, 0), (1, 1), i), "AA"[i])
    {
      assert Step((0, 0), (1, 1), i) == (i, i);
      assert g[i][i] == 'A';
    }
  }

  /** A 2 by 2 grid with "AA" on its main diagonal only: the two solvers
      disagree on it. */
  lemma DiagonalExample()
    ensures FrequencyHeuristic.Find(["AB", "CA"], "AA").Some?
    ensures PatternMatch.AxisFind(["AB", "CA"], "AA").None?
  {
    var g: LetterGrid := ["AB", "CA"];
    DiagonalDouble();
    assert DIRECTIONS[2] == (1, 1);
    forall p, d | IsAxis(d)
      ensures !MatchAt(g, "AA", p, d)
    {
      NoAxisDouble(p, d);
    }
    DiagonalOnly(g, "AA", (0, 0), 2);
  }
}
