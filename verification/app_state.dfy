/** The top-level client state: whether someone is logged in, who, and the
    local copy of their saved movies, with the handlers that change it. */
module App {
  import opened JsValues
  import opened ClientMovies

  /** The stored user object; the client only keeps and clears it. */
  datatype Account = Account(id: nat, email: string)

  datatype AppState = AppState(isLoggedIn: bool, user: Option<Account>, savedMovies: seq<ClientMovie>)

  /** The `data` of the saved-movies reply; `movies` may be absent. */
  datatype SavedList = SavedList(movies: Option<seq<ClientMovie>>)

  /** The state before anyone logs in. */
  const Initial: AppState := AppState(false, None, [])

  /** `loadSavedMovies` once the request settles: a successful reply replaces
      the list by `data.movies || []`; a failed reply leaves it; a successful
      reply without `data` throws on `.movies`, which the catch swallows. */
  function LoadSaved(s: AppState, result: ApiResult<SavedList>): (r: AppState)
    ensures r.isLoggedIn == s.isLoggedIn && r.user == s.user
    ensures result.ApiResult? && result.success && result.data.Some? ==>
      r.savedMovies == (if result.data.value.movies.Some? then result.data.value.movies.value else [])
    ensures !(result.ApiResult? && result.success && result.data.Some?) ==> r == s
  {
    match result
    case Threw => s
    case ApiResult(success, data, _) =>
      if !success then s
      else match data
        case None => s
        case Some(list) =>
          s.(savedMovies := match list.movies case Some(ms) => ms case None => [])
  }

  /** `handleLogin`: keeps the user and marks the session logged in; the list
      is refreshed by the `loadSavedMovies` it starts, see `LoadSaved`. */
  function HandleLogin(s: AppState, account: Account): (r: AppState)
    ensures r.isLoggedIn && r.user == Some(account)
    ensures r.savedMovies == s.savedMovies
  {
    s.(isLoggedIn := true, user := Some(account))
  }

  /** `handleLogout`: forgets the user and empties the saved list. */
  function HandleLogout(s: AppState): (r: AppState)
    ensures !r.isLoggedIn && r.user.None?
    ensures forall id :: !IsSaved(r.savedMovies, id)
  {
    Initial
  }

  /** `handleSaveMovie`: append the movie unless an entry already has its `imdbID`. */
  function HandleSaveMovie(s: AppState, movie: ClientMovie): (r: AppState)
    ensures r.isLoggedIn == s.isLoggedIn && r.user == s.user
    ensures s.savedMovies <= r.savedMovies
    ensures IsSaved(s.savedMovies, movie.imdbID) ==> r == s
    ensures !IsSaved(s.savedMovies, movie.imdbID) ==> r.savedMovies == s.savedMovies + [movie]
  {
    if IsSaved(s.savedMovies, movie.imdbID) then s
    else s.(savedMovies := s.savedMovies + [movie])
  }

  /** `handleDeleteMovie` once the remove request settles: on success every
      entry with that `imdbID` goes and the others stay in order; otherwise
      nothing changes. */
  function HandleDeleteMovie<D>(s: AppState, id: string, result: ApiResult<D>): (r: AppState)
    ensures r.isLoggedIn == s.isLoggedIn && r.user == s.user
    ensures result.ApiResult? && result.success ==> !IsSaved(r.savedMovies, id)
    ensures result.ApiResult? && result.success ==>
      forall i | 0 <= i < |s.savedMovies| && s.savedMovies[i].imdbID != id :: s.savedMovies[i] in r.savedMovies
    ensures !(result.ApiResult? && result.success) ==> r == s
  {
    if result.ApiResult? && result.success then s.(savedMovies := WithoutId(s.savedMovies, id))
    else s
  }

  // ----- properties -----

  /** After a save the list holds the movie's id together with every id it held before. */
  lemma SaveMovieIds(s: AppState, movie: ClientMovie)
    ensures SavedIds(HandleSaveMovie(s, movie).savedMovies) == SavedIds(s.savedMovies) + {movie.imdbID}
  {
    var r := HandleSaveMovie(s, movie).savedMovies;
    if IsSaved(s.savedMovies, movie.imdbID) {
      IsSavedIffInIds(s.savedMovies, movie.imdbID);
    } else {
      assert r[|s.savedMovies|] == movie;
      forall x | x in SavedIds(r) ensures x in SavedIds(s.savedMovies) + {movie.imdbID} {
        var k :| 0 <= k < |r| && r[k].imdbID == x;
        if k < |s.savedMovies| {
          assert r[k] == s.savedMovies[k];
        }
      }
      forall x | x in SavedIds(s.savedMovies) ensures x in SavedIds(r) {
        var k :| 0 <= k < |s.savedMovies| && s.savedMovies[k].imdbID == x;
        assert r[k] == s.savedMovies[k];
      }
    }
  }

  /** Saving the same movie twice is the same as saving it once. */
  lemma SaveMovieIdempotent(s: AppState, movie: ClientMovie)
    ensures HandleSaveMovie(HandleSaveMovie(s, movie), movie) == HandleSaveMovie(s, movie)
  {
    var r := HandleSaveMovie(s, movie);
    if !IsSaved(s.savedMovies, movie.imdbID) {
      assert r.savedMovies[|s.savedMovies|].imdbID == movie.imdbID;
    }
  }

  /** A list without repeated ids keeps that property across a save. */
  lemma SaveMovieKeepsDistinct(s: AppState, movie: ClientMovie)
    requires DistinctIds(s.savedMovies)
    ensures DistinctIds(HandleSaveMovie(s, movie).savedMovies)
  {
    var r := HandleSaveMovie(s, movie).savedMovies;
    if !IsSaved(s.savedMovies, movie.imdbID) {
      forall i, j | 0 <= i < j < |r| ensures r[i].imdbID != r[j].imdbID {
        if j == |s.savedMovies| {
          assert r[i] == s.savedMovies[i];
        }
      }
    }
  }

  /** A successful delete takes exactly that id out of the set of saved ids. */
  lemma DeleteMovieIds<D>(s: AppState, id: string, result: ApiResult<D>)
    requires result.ApiResult? && result.success
    ensures SavedIds(HandleDeleteMovie(s, id, result).savedMovies) == SavedIds(s.savedMovies) - {id}
  {
    WithoutIdIds(s.savedMovies, id);
  }

  /** Deleting a movie that was just saved, when it was not saved before,
      restores the list exactly. */
  lemma DeleteUndoesSave<D>(s: AppState, movie: ClientMovie, result: ApiResult<D>)
    requires !IsSaved(s.savedMovies, movie.imdbID)
    requires result.ApiResult? && result.success
    ensures HandleDeleteMovie(HandleSaveMovie(s, movie), movie.imdbID, result) == s
  {
    WithoutIdAppend(s.savedMovies, [movie], movie.imdbID);
    assert WithoutId([movie], movie.imdbID) == [];
    assert s.savedMovies + [] == s.savedMovies;
  }

  /** A delete keeps the remaining entries in their relative order: deleting
      from a concatenation deletes from each part. */
  lemma DeleteKeepsOrder<D>(s: AppState, prefix: seq<ClientMovie>, suffix: seq<ClientMovie>, id: string, result: ApiResult<D>)
    requires s.savedMovies == prefix + suffix
    requires result.ApiResult? && result.success
    ensures HandleDeleteMovie(s, id, result).savedMovies == WithoutId(prefix, id) + WithoutId(suffix, id)
  {
    WithoutIdAppend(prefix, suffix, id);
  }

  /** A login right after a logout starts with an empty list; what fills it
      next is whichever list load settles, see `LateLoadCrossesSessions`. */
  lemma LogoutIsolatesSessions(s: AppState, account: Account)
    ensures
      var r := HandleLogin(HandleLogout(s), account);
      r.isLoggedIn && r.user == Some(account) && r.savedMovies == []
  {
  }

  /** Loads are not tied to the session that started them: a list load begun
      before a logout that settles after it puts the previous user's movies in
      front of the next user, and a failed load of the next user keeps them. */
  lemma LateLoadCrossesSessions(s: AppState, stale: seq<ClientMovie>, account: Account, next: ApiResult<SavedList>)
    requires !(next.ApiResult? && next.success && next.data.Some?)
    ensures
      var late := ApiResult(true, Some(SavedList(Some(stale))), None);
      var r := LoadSaved(HandleLogin(LoadSaved(HandleLogout(s), late), account), next);
      r.user == Some(account) && r.savedMovies == stale
  {
  }
}
