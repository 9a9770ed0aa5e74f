/** The search page: the query guard, how a search result fills the page,
    the save action with the movie it hands to the parent, and what each movie
    card shows (poster source, title, the Save button). */
module MoviePage {
  import opened JsValues
  import opened ClientMovies

  datatype PageState = PageState(query: string, movies: seq<ClientMovie>, loading: bool, error: string)

  /** The `data` of the search reply; `movies` may be absent. */
  datatype SearchData = SearchData(movies: Option<seq<ClientMovie>>)

  /** What a save click leads to: the parent is handed a movie, or the page shows an error. */
  datatype SaveEffect = Notify(movie: ClientMovie) | ShowError(message: string)

  /** The Save button of one card. */
  datatype Button = Button(disabled: bool, text: string)

  const NoResults: string := "No results found"
  const SearchUnreachable: string := "Search failed. Please check your connection and try again."
  const SaveFailed: string := "Failed to save movie"
  const SaveThrew: string := "Failed to save movie. Please try again."
  const Placeholder: string := "https://via.placeholder.com/300x450/cccccc/666666?text=No+Image"

  // ----- searching -----

  /** The synchronous start of `handleSearch`: a blank query does nothing;
      otherwise the page shows it is loading and clears the old error. */
  function StartSearch(p: PageState): (r: Option<PageState>)
    ensures r.None? <==> forall i | 0 <= i < |p.query| :: IsWhitespace(p.query[i])
    ensures r.Some? ==> r.value.loading && r.value.error == "" && r.value.query == p.query && r.value.movies == p.movies
  {
    TrimEmptyIffBlank(p.query);
    if Trim(p.query) == "" then None else Some(p.(loading := true, error := ""))
  }

  /** The rest of `handleSearch` once the request settles. A successful reply
      shows `data.movies || []`; a failed one empties the grid and shows its
      message or "No results found"; a thrown error (also a successful reply
      without `data`, whose `.movies` throws) shows the connection message.
      Loading ends in every case. */
  function FinishSearch(p: PageState, result: ApiResult<SearchData>): (r: PageState)
    ensures !r.loading && r.query == p.query
    ensures result.ApiResult? && result.success && result.data.Some? ==>
      && r.error == p.error
      && r.movies == (if result.data.value.movies.Some? then result.data.value.movies.value else [])
    ensures result.ApiResult? && !result.success ==>
      && r.movies == []
      && r.error != ""
      && (Truthy(result.message) ==> r.error == result.message.value)
      && (!Truthy(result.message) ==> r.error == NoResults)
    ensures result.Threw? || (result.success && result.data.None?) ==>
      r.movies == [] && r.error == SearchUnreachable
  {
    match result
    case Threw => p.(movies := [], error := SearchUnreachable, loading := false)
    case ApiResult(success, data, message) =>
      if success then
        match data
        case None => p.(movies := [], error := SearchUnreachable, loading := false)
        case Some(d) =>
          p.(movies := (match d.movies case Some(ms) => ms case None => []), loading := false)
      else
        p.(movies := [], error := Or(message, Some(NoResults)).value, loading := false)
  }

  /** `handleSearch` from start to end. */
  function HandleSearch(p: PageState, result: ApiResult<SearchData>): (r: PageState)
    ensures (forall i | 0 <= i < |p.query| :: IsWhitespace(p.query[i])) ==> r == p
    ensures (exists i | 0 <= i < |p.query| :: !IsWhitespace(p.query[i])) ==>
      !r.loading && (r.error == "" <==> result.ApiResult? && result.success && result.data.Some?)
  {
    match StartSearch(p)
    case None => p
    case Some(q) => FinishSearch(q, result)
  }

  // ----- saving -----

  /** The movie handed to the parent: the `imdbID`, the lower-case title and
      year when truthy (else the capitalised ones), and the first truthy
      poster, or the empty string. */
  function NormalizeForParent(m: ClientMovie): (r: ClientMovie)
    ensures r.imdbID == m.imdbID
    ensures r.title.None? && r.year.None? && r.poster.None?
    ensures Truthy(m.title) ==> r.Title == m.title
    ensures !Truthy(m.title) ==> r.Title == m.Title
    ensures Truthy(m.year) ==> r.Year == m.year
    ensures !Truthy(m.year) ==> r.Year == m.Year
    ensures r.Poster.Some?
    ensures Truthy(r.Poster) <==> Truthy(m.poster) || Truthy(m.Poster)
    // `poster || Poster || ""`: the lower-case poster first
    ensures Truthy(m.poster) ==> r.Poster == m.poster
    ensures !Truthy(m.poster) && Truthy(m.Poster) ==> r.Poster == m.Poster
    ensures !Truthy(m.poster) && !Truthy(m.Poster) ==> r.Poster == Some("")
  {
    ClientMovie(m.imdbID, None, Or(m.title, m.Title), None, Or(m.year, m.Year), None, Or(Or(m.poster, m.Poster), Some("")))
  }

  /** `handleSave` once the save request settles. */
  function HandleSave(movie: ClientMovie, result: ApiResult<()>): (r: SaveEffect)
    ensures r.Notify? <==> result.ApiResult? && result.success
    ensures r.Notify? ==> r.movie == NormalizeForParent(movie)
    ensures r.ShowError? ==> r.message != ""
    ensures result.ApiResult? && !result.success && Truthy(result.message) ==> r == ShowError(result.message.value)
    ensures result.ApiResult? && !result.success && !Truthy(result.message) ==> r == ShowError(SaveFailed)
    ensures result.Threw? ==> r == ShowError(SaveThrew)
  {
    match result
    case Threw => ShowError(SaveThrew)
    case ApiResult(success, _, message) =>
      if success then Notify(NormalizeForParent(movie))
      else ShowError(Or(message, Some(SaveFailed)).value)
  }

  // ----- one movie card -----

  /** The image source: the first truthy of `poster`, `Poster` unless it is
      "N/A", otherwise the placeholder. */
  function PosterSource(m: ClientMovie): (src: string)
    ensures src != ""
    ensures src != "N/A"
    ensures src == Placeholder || (Truthy(Or(m.poster, m.Poster)) && src == Or(m.poster, m.Poster).value)
    ensures src == Placeholder <==>
      !Truthy(Or(m.poster, m.Poster)) || Or(m.poster, m.Poster).value in {"N/A", Placeholder}
  {
    var p := Or(m.poster, m.Poster);
    if Truthy(p) && p.value != "N/A" then p.value else Placeholder
  }

  /** The card's heading (and the image's `alt`). */
  function DisplayTitle(m: ClientMovie): (t: Option<string>)
    ensures Truthy(m.title) ==> t == m.title
    ensures !Truthy(m.title) ==> t == m.Title
  {
    Or(m.title, m.Title)
  }

  function DisplayYear(m: ClientMovie): (y: Option<string>)
    ensures Truthy(m.year) ==> y == m.year
    ensures !Truthy(m.year) ==> y == m.Year
  {
    Or(m.year, m.Year)
  }

  /** The Save button: disabled, and reads "Saved", exactly when the movie is in the saved list. */
  function SaveButton(saved: seq<ClientMovie>, id: string): (b: Button)
    ensures b.disabled <==> exists i | 0 <= i < |saved| :: saved[i].imdbID == id
    ensures b.disabled <==> b.text == "Saved"
    ensures !b.disabled <==> b.text == "Save"
  {
    if IsSaved(saved, id) then Button(true, "Saved") else Button(false, "Save")
  }

  // ----- properties -----

  /** The movie handed to the parent renders the same card: same poster source,
      title and year. */
  lemma NormalizeKeepsCard(m: ClientMovie)
    ensures PosterSource(NormalizeForParent(m)) == PosterSource(m)
    ensures DisplayTitle(NormalizeForParent(m)) == DisplayTitle(m)
    ensures DisplayYear(NormalizeForParent(m)) == DisplayYear(m)
    ensures NormalizeForParent(m).imdbID == m.imdbID
  {
  }

  /** Normalising an already normalised movie changes nothing. */
  lemma NormalizeIdempotent(m: ClientMovie)
    ensures NormalizeForParent(NormalizeForParent(m)) == NormalizeForParent(m)
  {
  }

  /** Every query the page sends passes the search route's title check: a query
      with a non-blank character is a non-empty string. */
  lemma SentQueriesAreTruthy(p: PageState)
    requires StartSearch(p).Some?
    ensures Truthy(Some(p.query))
  {
    assert |Trim(p.query)| <= |p.query|;
  }
}
