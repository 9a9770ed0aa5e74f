/** How the client's view follows the server: the client helpers' reading of
    each route's answer, and properties that hold across the two sides. */
module ClientSync {
  import opened JsValues
  import opened MovieSchema
  import opened Ledger
  import opened LedgerProperties
  import MovieSearch
  import opened ClientMovies
  import App
  import MoviePage

  /** `moviesAPI.getSaved` over the list route: a 2xx answer hands over its
      `data`; an error answer hands over its message. */
  function ListReply(o: ListOutcome): (r: ApiResult<App.SavedList>)
    ensures r.ApiResult? && (r.success <==> o.Listed?)
    ensures o.Listed? ==> r.data == Some(App.SavedList(Some(FromRecords(o.movies))))
  {
    match o
    case Listed(movies, _) =>
      ApiResult(true, Some(App.SavedList(Some(FromRecords(movies)))), Some("Saved movies retrieved successfully"))
    case UserNotFound => ApiResult(false, None, Some("User not found"))
  }

  /** `moviesAPI.search` over the search route. */
  function SearchReply(o: MovieSearch.SearchOutcome): (r: ApiResult<MoviePage.SearchData>)
    ensures r.ApiResult? && (r.success <==> o.Found?)
    ensures o.Found? ==> r.data == Some(MoviePage.SearchData(Some(FromSearchResults(o.movies))))
    ensures !o.Found? ==> r.message == Some(MovieSearch.SearchResponse(o).message)
  {
    if o.Found? then
      ApiResult(true, Some(MoviePage.SearchData(Some(FromSearchResults(o.movies)))), Some(MovieSearch.SearchResponse(o).message))
    else
      ApiResult(false, None, Some(MovieSearch.SearchResponse(o).message))
  }

  /** The body `moviesAPI.save` posts for a list entry: capitalised fields
      first, then the lower-case ones. */
  function SaveRequestFor(m: ClientMovie): (req: SaveRequest)
    ensures req.imdbID == Some(m.imdbID)
    ensures Truthy(req.title) <==> Truthy(m.Title) || Truthy(m.title)
    ensures Truthy(req.year) <==> Truthy(m.Year) || Truthy(m.year)
    ensures Truthy(req.poster) <==> Truthy(m.Poster) || Truthy(m.poster)
    // the capitalised spelling wins when it is truthy
    ensures Truthy(m.Title) ==> req.title == m.Title
    ensures !Truthy(m.Title) ==> req.title == m.title
    ensures Truthy(m.Year) ==> req.year == m.Year
    ensures !Truthy(m.Year) ==> req.year == m.year
    ensures Truthy(m.Poster) ==> req.poster == m.Poster
    ensures !Truthy(m.Poster) ==> req.poster == m.poster
  {
    SaveRequest(Or(m.Title, m.title), Or(m.Year, m.year), Or(m.Poster, m.poster), Some(m.imdbID))
  }

  /** After the saved list arrives, the client marks a movie saved exactly when
      the server has the user among that Movie's savers. */
  lemma LoadedListMatchesLedger(schema: Schema, st: Store, uid: UserId, s: App.AppState, key: string)
    requires Valid(schema, st) && uid in st.users
    ensures IsSaved(App.LoadSaved(s, ListReply(List(st, uid))).savedMovies, key) <==> IsSaver(st, uid, key)
  {
    ListShowsSavedMovies(schema, st, uid);
    var listed := List(st, uid).movies;
    assert App.LoadSaved(s, ListReply(List(st, uid))).savedMovies == FromRecords(listed);
    ListedIdsAreSavedIds(st, uid, listed, key);
  }

  /** The step of `LoadedListMatchesLedger` from what the list route promises. */
  lemma ListedIdsAreSavedIds(st: Store, uid: UserId, listed: seq<Record>, key: string)
    requires UniqueImdbIDs(st.movies)
    requires forall k | 0 <= k < |listed| :: exists i | 0 <= i < |st.movies| :: listed[k] == ToRecord(st.movies[i])
    requires forall i | 0 <= i < |st.movies| :: uid in st.movies[i].savedBy <==> ToRecord(st.movies[i]) in listed
    ensures IsSaved(FromRecords(listed), key) <==> IsSaver(st, uid, key)
  {
    var c := st.movies;
    var shown := FromRecords(listed);
    if IsSaved(shown, key) {
      var k :| 0 <= k < |shown| && shown[k].imdbID == key;
      var i :| 0 <= i < |c| && listed[k] == ToRecord(c[i]);
      assert ToRecord(c[i]) in listed;
      assert c[i].imdbID == key;
      assert FindMovie(c, key) == Some(i);
    }
    if IsSaver(st, uid, key) {
      var i := FindMovie(c, key).value;
      assert ToRecord(c[i]) in listed;
      var k :| 0 <= k < |listed| && listed[k] == ToRecord(c[i]);
      assert shown[k].imdbID == key;
    }
  }

  /** A non-blank query whose provider answer has hits fills the page with
      those hits, normalised, in the provider's order, and shows no error. */
  lemma PageShowsProviderHits(p: MoviePage.PageState, hits: seq<MovieSearch.OmdbMovie>, reply: MovieSearch.OmdbReply)
    requires MoviePage.StartSearch(p).Some?
    requires reply.response != "False" && reply.search == Some(hits)
    ensures
      var q := MoviePage.HandleSearch(p, SearchReply(MovieSearch.HandleSearch(Some(p.query), MovieSearch.Answered(reply))));
      && q.movies == FromSearchResults(MovieSearch.NormalizeAll(hits))
      && q.error == "" && !q.loading
  {
    MoviePage.SentQueriesAreTruthy(p);
  }

  /** When the provider finds nothing, the page empties its grid and shows the
      provider's error, or the route's default message. */
  lemma PageShowsNoMovies(p: MoviePage.PageState, reply: MovieSearch.OmdbReply)
    requires MoviePage.StartSearch(p).Some?
    requires reply.response == "False"
    ensures
      var q := MoviePage.HandleSearch(p, SearchReply(MovieSearch.HandleSearch(Some(p.query), MovieSearch.Answered(reply))));
      && q.movies == []
      && q.error == (if Truthy(reply.error) then reply.error.value else MovieSearch.NoMoviesFound)
  {
    MoviePage.SentQueriesAreTruthy(p);
  }

  /** Once a save from the page succeeds, the card's button for that movie is disabled. */
  lemma SavedMovieDisablesButton(app: App.AppState, movie: ClientMovie, result: ApiResult<()>)
    requires result.ApiResult? && result.success
    ensures
      var handed := MoviePage.HandleSave(movie, result).movie;
      MoviePage.SaveButton(App.HandleSaveMovie(app, handed).savedMovies, movie.imdbID).disabled
  {
    var handed := MoviePage.HandleSave(movie, result).movie;
    var saved := App.HandleSaveMovie(app, handed).savedMovies;
    if !IsSaved(app.savedMovies, handed.imdbID) {
      assert saved[|app.savedMovies|] == handed;
    }
  }

  /** A search hit whose provider poster is "N/A", saved first by anyone,
      is refused with the poster message under the schema as written, and
      nothing is stored. */
  lemma PosterlessHitCannotBeSaved(st: Store, uid: UserId, hit: MovieSearch.OmdbMovie)
    requires hit.poster == MovieSearch.NotAvailable
    requires Trim(hit.title) != "" && hit.year != "" && hit.imdbID != ""
    requires FindMovie(st.movies, hit.imdbID).None?
    ensures
      var req := SaveRequestFor(FromSearchResult(MovieSearch.Normalize(hit)));
      Save(AsWritten, st, uid, req) == Step(st, Rejected([PosterRequired]))
  {
    var req := SaveRequestFor(FromSearchResult(MovieSearch.Normalize(hit)));
    assert req.title == Some(hit.title) && req.year == Some(hit.year) && req.poster == None;
    PosterlessFirstSaveRejected(st, uid, req);
  }
}
