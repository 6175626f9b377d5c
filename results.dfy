/** The record both solvers store for each word of a puzzle. */
module Results {
  import opened Geometry

  /** One entry of a solver's results map: whether the word was found, and
      where. */
  datatype WordResult = WordResult(found: bool, position: Option<Span>)

  /** Python truthiness of what `find_word` returns: None is false, a pair
      of positions is a non-empty tuple and so true. */
  function Truthy(pos: Option<Span>): bool {
    match pos
    case None => false
    case Some(_) => true
  }

  /** The entry recorded for a search result: `found` holds exactly when a
      position was returned, and the position is kept as returned. */
  function Report(pos: Option<Span>): (r: WordResult)
    ensures r.found <==> pos.Some?
    ensures r.position == pos
  {
    WordResult(Truthy(pos), pos)
  }
}
