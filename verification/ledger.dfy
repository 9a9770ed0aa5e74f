/** The saved-movie ledger of the movie routes: the Movie collection (a shared
    catalog keyed by `imdbID`, each Movie listing the users who saved it) and
    every User's `savedMovies` array, with the save, remove and list handlers
    as atomic transitions. */
module Ledger {
  import opened JsValues
  import opened Sequences
  import opened MovieSchema

  /** The persisted state: the Movie collection in natural order, each User's
      `savedMovies` array keyed by the User's `_id`, and the next fresh Movie `_id`. */
  datatype Store = Store(movies: seq<Movie>, users: map<UserId, seq<MovieId>>, nextId: MovieId)

  /** The body of a save request; any field may be missing. */
  datatype SaveRequest = SaveRequest(title: Option<string>, year: Option<string>, poster: Option<string>, imdbID: Option<string>)

  /** The projection of a Movie that the save and list responses carry. */
  datatype Record = Record(id: MovieId, title: string, year: string, poster: Option<string>, imdbID: string)

  datatype SaveOutcome =
    | Saved(record: Record)
    | MissingFields
    | AlreadySaved
    | Rejected(messages: seq<string>)

  datatype RemoveOutcome = Removed | MovieNotFound | NotSaved | ServerError

  datatype ListOutcome = Listed(movies: seq<Record>, count: nat) | UserNotFound

  /** One handler call: the state afterwards and what the caller is told. */
  datatype Step<O> = Step(store: Store, outcome: O)

  /** A response status with its message. */
  datatype Response = Response(status: int, message: string)

  function ToRecord(m: Movie): Record {
    Record(m.id, m.title, m.year, m.poster, m.imdbID)
  }

  /** `Movie.findOne({ imdbID })`: the position of the first Movie with that `imdbID`. */
  function FindMovie(c: seq<Movie>, key: string): (r: Option<nat>)
    ensures r.Some? ==> r.value < |c| && c[r.value].imdbID == key
    ensures r.Some? ==> forall j | 0 <= j < r.value :: c[j].imdbID != key
    ensures r.None? <==> forall i | 0 <= i < |c| :: c[i].imdbID != key
    ensures UniqueImdbIDs(c) ==> forall i | 0 <= i < |c| && c[i].imdbID == key :: r == Some(i)
  {
    FindFirst(c, (m: Movie) => m.imdbID == key)
  }

  /** The first Movie carrying `key` is the one `findOne` returns. */
  lemma FindMovieFirst(c: seq<Movie>, key: string, i: nat)
    requires i < |c| && c[i].imdbID == key
    requires forall j | 0 <= j < i :: c[j].imdbID != key
    ensures FindMovie(c, key) == Some(i)
  {
    var r := FindMovie(c, key);
    if r.value < i {
    } else if r.value > i {
    }
  }

  /** The user is listed in the `savedBy` of the Movie `findOne` returns for `key`. */
  predicate IsSaver(st: Store, uid: UserId, key: string) {
    var i := FindMovie(st.movies, key);
    i.Some? && uid in st.movies[i.value].savedBy
  }

  /** The save handler's first check: title, year and imdbID are all truthy. */
  predicate HasRequiredFields(req: SaveRequest) {
    Truthy(req.title) && Truthy(req.year) && Truthy(req.imdbID)
  }

  /** `User.findByIdAndUpdate(uid, { $addToSet: { savedMovies: id } })`; no upsert, so an unknown id changes nothing. */
  function LinkUser(users: map<UserId, seq<MovieId>>, uid: UserId, id: MovieId): (r: map<UserId, seq<MovieId>>)
    ensures r.Keys == users.Keys
    ensures forall u | u in users && u != uid :: r[u] == users[u]
    ensures uid in users ==> id in r[uid] && r[uid] == AddToSet(users[uid], id)
  {
    if uid in users then users[uid := AddToSet(users[uid], id)] else users
  }

  /** `User.findByIdAndUpdate(uid, { $pull: { savedMovies: id } })`. */
  function UnlinkUser(users: map<UserId, seq<MovieId>>, uid: UserId, id: MovieId): (r: map<UserId, seq<MovieId>>)
    ensures r.Keys == users.Keys
    ensures forall u | u in users && u != uid :: r[u] == users[u]
    ensures uid in users ==> id !in r[uid] && r[uid] == Pull(users[uid], id)
  {
    if uid in users then users[uid := Pull(users[uid], id)] else users
  }

  /** `movie.save()` on the updated or created Movie, then the user-side `$addToSet`.
      A failed validation persists nothing. */
  function CommitSave(schema: Schema, st: Store, movies: seq<Movie>, nextId: MovieId, uid: UserId, m: Movie): (r: Step<SaveOutcome>)
    ensures !IsValid(schema, m) ==> r == Step(st, Rejected(ValidationErrors(schema, m)))
    ensures IsValid(schema, m) ==> r == Step(Store(movies, LinkUser(st.users, uid, m.id), nextId), Saved(ToRecord(m)))
  {
    var errs := ValidationErrors(schema, m);
    if errs != [] then Step(st, Rejected(errs))
    else Step(Store(movies, LinkUser(st.users, uid, m.id), nextId), Saved(ToRecord(m)))
  }

  /** The found branch of save for a user not yet among the savers: push the
      user, re-validate the Movie, link it from the user. */
  function SaveToExisting(schema: Schema, st: Store, uid: UserId, key: string, i: nat): (r: Step<SaveOutcome>)
    requires FindMovie(st.movies, key) == Some(i)
    ensures !r.outcome.Saved? ==> r.store == st && r.outcome.Rejected? && r.outcome.messages != []
    // refused exactly when the Movie with the new saver fails re-validation, with its messages
    ensures r.outcome.Rejected? <==> !IsValid(schema, st.movies[i].(savedBy := st.movies[i].savedBy + [uid]))
    ensures r.outcome.Rejected? ==>
      r.outcome.messages == ValidationErrors(schema, st.movies[i].(savedBy := st.movies[i].savedBy + [uid]))
    ensures r.outcome.Saved? ==>
      && r.store.movies == st.movies[i := st.movies[i].(savedBy := st.movies[i].savedBy + [uid])]
      && r.store.nextId == st.nextId
      && r.store.users == LinkUser(st.users, uid, st.movies[i].id)
      && r.outcome.record == ToRecord(r.store.movies[i])
      && FindMovie(r.store.movies, key) == Some(i)
  {
    var m := st.movies[i];
    var m' := m.(savedBy := m.savedBy + [uid]);
    FindMovieFirst(st.movies[i := m'], key, i);
    CommitSave(schema, st, st.movies[i := m'], st.nextId, uid, m')
  }

  /** The create branch of save: a new Movie saved by the user alone, with the
      trimmed title and `poster || null`, validated, stored last and linked. */
  function SaveAsNew(schema: Schema, st: Store, uid: UserId, req: SaveRequest): (r: Step<SaveOutcome>)
    requires HasRequiredFields(req) && FindMovie(st.movies, req.imdbID.value).None?
    ensures !r.outcome.Saved? ==> r.store == st && r.outcome.Rejected? && r.outcome.messages != []
    // refused exactly when the new Movie fails validation, with its messages
    ensures r.outcome.Rejected? <==>
      !IsValid(schema, NewMovie(st.nextId, req.title.value, req.year.value, Or(req.poster, None), req.imdbID.value, [uid]))
    ensures r.outcome.Rejected? ==>
      r.outcome.messages == ValidationErrors(schema, NewMovie(st.nextId, req.title.value, req.year.value, Or(req.poster, None), req.imdbID.value, [uid]))
    ensures r.outcome.Saved? ==>
      && r.store.movies == st.movies + [NewMovie(st.nextId, req.title.value, req.year.value, Or(req.poster, None), req.imdbID.value, [uid])]
      && r.store.nextId == st.nextId + 1
      && r.store.users == LinkUser(st.users, uid, st.nextId)
      && r.outcome.record == ToRecord(r.store.movies[|st.movies|])
      && FindMovie(r.store.movies, req.imdbID.value) == Some(|st.movies|)
  {
    var key := req.imdbID.value;
    var m' := NewMovie(st.nextId, req.title.value, req.year.value, Or(req.poster, None), key, [uid]);
    FindMovieFirst(st.movies + [m'], key, |st.movies|);
    CommitSave(schema, st, st.movies + [m'], st.nextId + 1, uid, m')
  }

  /** POST /save on behalf of `uid`. */
  function Save(schema: Schema, st: Store, uid: UserId, req: SaveRequest): (r: Step<SaveOutcome>)
    // only a successful save changes anything
    ensures !r.outcome.Saved? ==> r.store == st
    ensures r.outcome.MissingFields? <==> !HasRequiredFields(req)
    ensures r.outcome.AlreadySaved? <==> HasRequiredFields(req) && IsSaver(st, uid, req.imdbID.value)
    ensures r.outcome.Rejected? ==> r.outcome.messages != []
    // a first save is refused exactly when the created Movie fails validation, with its messages
    ensures HasRequiredFields(req) && FindMovie(st.movies, req.imdbID.value).None? ==>
      var m := NewMovie(st.nextId, req.title.value, req.year.value, Or(req.poster, None), req.imdbID.value, [uid]);
      && (r.outcome.Rejected? <==> !IsValid(schema, m))
      && (r.outcome.Rejected? ==> r.outcome.messages == ValidationErrors(schema, m))
    // an existing Movie gains exactly this user at the end of savedBy; no second Movie appears
    ensures r.outcome.Saved? && FindMovie(st.movies, req.imdbID.value).Some? ==>
      var i := FindMovie(st.movies, req.imdbID.value).value;
      && r.store.movies == st.movies[i := st.movies[i].(savedBy := st.movies[i].savedBy + [uid])]
      && r.store.nextId == st.nextId
    // otherwise one Movie is created, saved by this user alone, with the trimmed title and `poster || null`
    ensures r.outcome.Saved? && FindMovie(st.movies, req.imdbID.value).None? ==>
      && r.store.movies == st.movies + [NewMovie(st.nextId, req.title.value, req.year.value, Or(req.poster, None), req.imdbID.value, [uid])]
      && r.store.nextId == st.nextId + 1
    // the reply describes the Movie now holding the user, and the user's array links it
    ensures r.outcome.Saved? ==>
      && IsSaver(r.store, uid, req.imdbID.value)
      && r.outcome.record == ToRecord(r.store.movies[FindMovie(r.store.movies, req.imdbID.value).value])
      && r.store.users == LinkUser(st.users, uid, r.outcome.record.id)
  {
    if !HasRequiredFields(req) then Step(st, MissingFields)
    else
      var key := req.imdbID.value;
      match FindMovie(st.movies, key)
      case Some(i) =>
        if uid in st.movies[i].savedBy then Step(st, AlreadySaved)
        else SaveToExisting(schema, st, uid, key, i)
      case None =>
        SaveAsNew(schema, st, uid, req)
  }

  /** The found branch of remove for a saver: pull the user, then delete the
      Movie when no saver remains, or re-validate and keep it. */
  function RemoveFrom(schema: Schema, st: Store, uid: UserId, key: string, i: nat): (r: Step<RemoveOutcome>)
    requires FindMovie(st.movies, key) == Some(i)
    ensures r.outcome.Removed? || r == Step(st, ServerError)
    ensures r.outcome.Removed? ==>
      var m := st.movies[i];
      && r.store.nextId == st.nextId
      && r.store.users == UnlinkUser(st.users, uid, m.id)
      && (Pull(m.savedBy, uid) == [] ==> r.store.movies == RemoveAt(st.movies, i))
      && (Pull(m.savedBy, uid) != [] ==> r.store.movies == st.movies[i := m.(savedBy := Pull(m.savedBy, uid))])
    ensures r.outcome.Removed? && UniqueImdbIDs(st.movies) ==> FindMovie(r.store.movies, key) != Some(i) || uid !in r.store.movies[i].savedBy
  {
    var m := st.movies[i];
    var m' := m.(savedBy := Pull(m.savedBy, uid));
    var users := UnlinkUser(st.users, uid, m.id);
    if m'.savedBy == [] then
      var movies := RemoveAt(st.movies, i);
      assert UniqueImdbIDs(st.movies) ==> FindMovie(movies, key).None? by {
        if UniqueImdbIDs(st.movies) {
          forall j | 0 <= j < |movies| ensures movies[j].imdbID != key {
            if j < i { assert movies[j] == st.movies[j]; }
            else { assert movies[j] == st.movies[j + 1]; }
          }
        }
      }
      Step(Store(movies, users, st.nextId), Removed)
    else if ValidationErrors(schema, m') != [] then
      // `movie.save()` threw, and the handler answers 500
      Step(st, ServerError)
    else
      var movies := st.movies[i := m'];
      FindMovieFirst(movies, key, i);
      Step(Store(movies, users, st.nextId), Removed)
  }

  /** The kept-Movie path of remove answers 500 exactly when savers remain and
      the Movie without the user fails re-validation. */
  lemma RemoveFromFailsIff(schema: Schema, st: Store, uid: UserId, key: string, i: nat)
    requires FindMovie(st.movies, key) == Some(i)
    ensures RemoveFrom(schema, st, uid, key, i).outcome.ServerError? <==>
      && Pull(st.movies[i].savedBy, uid) != []
      && !IsValid(schema, st.movies[i].(savedBy := Pull(st.movies[i].savedBy, uid)))
  {
  }

  /** DELETE /remove/:imdbID on behalf of `uid`. */
  function Remove(schema: Schema, st: Store, uid: UserId, key: string): (r: Step<RemoveOutcome>)
    ensures !r.outcome.Removed? ==> r.store == st
    ensures r.outcome.MovieNotFound? <==> FindMovie(st.movies, key).None?
    ensures r.outcome.NotSaved? <==> FindMovie(st.movies, key).Some? && !IsSaver(st, uid, key)
    ensures r.outcome.Removed? ==> IsSaver(st, uid, key)
    ensures r.outcome.Removed? ==>
      var i := FindMovie(st.movies, key).value;
      var m := st.movies[i];
      && r.store.nextId == st.nextId
      && r.store.users == UnlinkUser(st.users, uid, m.id)
      // the last saver leaving deletes the Movie; otherwise the other savers stay, in order
      && (Pull(m.savedBy, uid) == [] ==> r.store.movies == RemoveAt(st.movies, i))
      && (Pull(m.savedBy, uid) != [] ==> r.store.movies == st.movies[i := m.(savedBy := Pull(m.savedBy, uid))])
    ensures r.outcome.Removed? && UniqueImdbIDs(st.movies) ==> !IsSaver(r.store, uid, key)
  {
    match FindMovie(st.movies, key)
    case None => Step(st, MovieNotFound)
    case Some(i) =>
      if uid !in st.movies[i].savedBy then Step(st, NotSaved)
      else RemoveFrom(schema, st, uid, key, i)
  }

  /** `User.findById(uid).populate('savedMovies')`: each referenced Movie in
      array order; references to missing Movies are dropped. */
  function Populate(c: seq<Movie>, ids: seq<MovieId>): (r: seq<Movie>)
    ensures |r| <= |ids|
    ensures forall k | 0 <= k < |r| :: r[k] in c && r[k].id in ids
    ensures (forall k | 0 <= k < |ids| :: HasId(c, ids[k])) ==>
      |r| == |ids| && forall k | 0 <= k < |r| :: r[k].id == ids[k]
  {
    if |ids| == 0 then []
    else
      match FindFirst(c, (m: Movie) => m.id == ids[0])
      case None => Populate(c, ids[1..])
      case Some(i) => [c[i]] + Populate(c, ids[1..])
  }

  predicate HasId(c: seq<Movie>, id: MovieId) {
    exists i | 0 <= i < |c| :: c[i].id == id
  }

  /** GET /list for `uid`; `count` is the length of the populated array. */
  function List(st: Store, uid: UserId): (r: ListOutcome)
    ensures r.UserNotFound? <==> uid !in st.users
    ensures r.Listed? ==> r.count == |r.movies| <= |st.users[uid]|
    ensures r.Listed? ==> forall k | 0 <= k < |r.movies| ::
      exists i | 0 <= i < |st.movies| :: r.movies[k] == ToRecord(st.movies[i])
  {
    if uid !in st.users then UserNotFound
    else
      var found := Populate(st.movies, st.users[uid]);
      var records := seq(|found|, k requires 0 <= k < |found| => ToRecord(found[k]));
      assert forall k | 0 <= k < |records| :: found[k] in st.movies;
      Listed(records, |records|)
  }

  /** The status and message each save outcome is answered with. */
  function SaveResponse(o: SaveOutcome): (r: Response)
    ensures r.status == 201 <==> o.Saved?
    ensures !o.Saved? ==> r.status == 400
    ensures o.Rejected? ==> r.message == Join(o.messages, ". ")
  {
    match o
    case Saved(_) => Response(201, "Movie saved successfully")
    case MissingFields => Response(400, "Title, year, and imdbID are required")
    case AlreadySaved => Response(400, "Movie already saved to your list")
    case Rejected(messages) => Response(400, Join(messages, ". "))
  }

  /** The status and message each remove outcome is answered with. */
  function RemoveResponse(o: RemoveOutcome): (r: Response)
    ensures r.status == 200 <==> o.Removed?
    ensures r.status == 404 <==> o.MovieNotFound?
    ensures r.status == 400 <==> o.NotSaved?
  {
    match o
    case Removed => Response(200, "Movie removed from your saved list successfully")
    case MovieNotFound => Response(404, "Movie not found")
    case NotSaved => Response(400, "Movie not in your saved list")
    case ServerError => Response(500, "Server error while removing movie")
  }

  // ----- The ledger invariant -----

  /** No Movie with an empty `savedBy` persists. */
  predicate NoOrphans(c: seq<Movie>) {
    forall i | 0 <= i < |c| :: c[i].savedBy != []
  }

  predicate UniqueMovieIds(c: seq<Movie>) {
    forall i, j | 0 <= i < |c| && 0 <= j < |c| && i != j :: c[i].id != c[j].id
  }

  /** Every `_id` in use is below the next fresh one. */
  predicate IdsBelow(c: seq<Movie>, n: MovieId) {
    forall i | 0 <= i < |c| :: c[i].id < n
  }

  /** `$addToSet` keeps every user's array free of repeats. */
  predicate UserListsUnique(st: Store) {
    forall u | u in st.users :: NoDuplicates(st.users[u])
  }

  /** `savedBy` and `savedMovies` are mutual inverses. */
  predicate Inverse(st: Store) {
    forall i, u | 0 <= i < |st.movies| && u in st.users ::
      u in st.movies[i].savedBy <==> st.movies[i].id in st.users[u]
  }

  /** Only existing users save movies. */
  predicate SaversRegistered(st: Store) {
    forall i, u | 0 <= i < |st.movies| && u in st.movies[i].savedBy :: u in st.users
  }

  /** Every `savedMovies` entry refers to an existing Movie. */
  predicate NoDangling(st: Store) {
    forall u, id | u in st.users && id in st.users[u] :: HasId(st.movies, id)
  }

  predicate Valid(schema: Schema, st: Store) {
    && CollectionValid(schema, st.movies)
    && NoOrphans(st.movies)
    && UniqueMovieIds(st.movies)
    && IdsBelow(st.movies, st.nextId)
    && UserListsUnique(st)
    && Inverse(st)
    && SaversRegistered(st)
    && NoDangling(st)
  }
}
