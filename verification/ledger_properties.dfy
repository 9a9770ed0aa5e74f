/** Properties that relate several ledger calls: a repeated save is refused, a
    remove undoes a save, the list shows exactly the movies a user saved, the
    shared-record walk-through, and the fate of posterless movies. */
module LedgerProperties {
  import opened JsValues
  import opened Sequences
  import opened MovieSchema
  import opened Ledger

  /** A second save of the same movie by the same user is refused with
      AlreadySaved and changes nothing, so `savedBy` keeps its length. */
  lemma SaveTwiceIsAlreadySaved(schema: Schema, st: Store, uid: UserId, req: SaveRequest)
    requires Save(schema, st, uid, req).outcome.Saved?
    ensures
      var s1 := Save(schema, st, uid, req).store;
      Save(schema, s1, uid, req) == Step(s1, AlreadySaved)
  {
  }

  /** Under the invariant, the existing-Movie branch of save never fails validation:
      only creating a Movie can be rejected. */
  lemma SaveRejectsOnlyOnCreate(schema: Schema, st: Store, uid: UserId, req: SaveRequest)
    requires Valid(schema, st)
    ensures Save(schema, st, uid, req).outcome.Rejected? ==> FindMovie(st.movies, req.imdbID.value).None?
  {
    if HasRequiredFields(req) && FindMovie(st.movies, req.imdbID.value).Some? {
      var i := FindMovie(st.movies, req.imdbID.value).value;
      assert IsValid(schema, st.movies[i]);
    }
  }

  /** Under the invariant, remove never reaches its 500 answer. */
  lemma RemoveNeverFailsValidation(schema: Schema, st: Store, uid: UserId, key: string)
    requires Valid(schema, st)
    ensures !Remove(schema, st, uid, key).outcome.ServerError?
  {
    if FindMovie(st.movies, key).Some? {
      var i := FindMovie(st.movies, key).value;
      assert IsValid(schema, st.movies[i]);
    }
  }

  /** Save, existing-Movie branch: the Movie at `i` gains the user at the end
      of `savedBy`, no Movie is added, and `findOne` still finds it at `i`. */
  lemma SaveAppendStep(schema: Schema, st: Store, uid: UserId, req: SaveRequest, i: nat)
    requires HasRequiredFields(req)
    requires FindMovie(st.movies, req.imdbID.value) == Some(i)
    requires uid !in st.movies[i].savedBy && IsValid(schema, st.movies[i])
    ensures
      var r := Save(schema, st, uid, req);
      && r.outcome.Saved?
      && r.store.movies == st.movies[i := st.movies[i].(savedBy := st.movies[i].savedBy + [uid])]
      && r.store.users == LinkUser(st.users, uid, st.movies[i].id)
      && r.store.nextId == st.nextId
      && FindMovie(r.store.movies, req.imdbID.value) == Some(i)
  {
    var m := st.movies[i];
    assert IsValid(schema, m.(savedBy := m.savedBy + [uid]));
  }

  /** Save, create branch: the new Movie goes last, saved by the user alone,
      and takes the next `_id`. */
  lemma SaveCreateStep(schema: Schema, st: Store, uid: UserId, req: SaveRequest)
    requires Creatable(schema, req)
    requires FindMovie(st.movies, req.imdbID.value).None?
    ensures
      var r := Save(schema, st, uid, req);
      var m := NewMovie(st.nextId, req.title.value, req.year.value, Or(req.poster, None), req.imdbID.value, [uid]);
      && r.outcome.Saved?
      && r.store.movies == st.movies + [m]
      && r.store.users == LinkUser(st.users, uid, st.nextId)
      && r.store.nextId == st.nextId + 1
      && FindMovie(r.store.movies, req.imdbID.value) == Some(|st.movies|)
  {
    var m := NewMovie(st.nextId, req.title.value, req.year.value, Or(req.poster, None), req.imdbID.value, [uid]);
    assert IsValid(schema, m);
  }

  /** Remove of one of several savers: the Movie stays at `i` with the other savers. */
  lemma RemoveKeepStep(schema: Schema, st: Store, uid: UserId, key: string, i: nat)
    requires FindMovie(st.movies, key) == Some(i) && uid in st.movies[i].savedBy
    requires Pull(st.movies[i].savedBy, uid) != [] && IsValid(schema, st.movies[i])
    ensures
      var r := Remove(schema, st, uid, key);
      && r.outcome.Removed?
      && r.store.movies == st.movies[i := st.movies[i].(savedBy := Pull(st.movies[i].savedBy, uid))]
      && r.store.users == UnlinkUser(st.users, uid, st.movies[i].id)
      && r.store.nextId == st.nextId
      && FindMovie(r.store.movies, key) == Some(i)
  {
    var m := st.movies[i];
    assert IsValid(schema, m.(savedBy := Pull(m.savedBy, uid)));
    FindMovieFirst(st.movies[i := m.(savedBy := Pull(m.savedBy, uid))], key, i);
  }

  /** Remove of the last saver: the Movie is deleted and `findOne` no longer finds the `imdbID`. */
  lemma RemoveLastStep(schema: Schema, st: Store, uid: UserId, key: string, i: nat)
    requires UniqueImdbIDs(st.movies)
    requires FindMovie(st.movies, key) == Some(i) && uid in st.movies[i].savedBy
    requires Pull(st.movies[i].savedBy, uid) == []
    ensures
      var r := Remove(schema, st, uid, key);
      && r.outcome.Removed?
      && r.store.movies == RemoveAt(st.movies, i)
      && r.store.users == UnlinkUser(st.users, uid, st.movies[i].id)
      && r.store.nextId == st.nextId
      && FindMovie(r.store.movies, key).None?
  {
  }

  lemma ReplaceLast(c: seq<Movie>, m: Movie, m': Movie)
    ensures (c + [m])[|c| := m'] == c + [m']
  {
  }

  /** Appending a Movie with a new `imdbID` keeps the `imdbID`s unique. */
  lemma AppendKeepsUniqueImdbIDs(c: seq<Movie>, m: Movie)
    requires UniqueImdbIDs(c)
    requires forall j | 0 <= j < |c| :: c[j].imdbID != m.imdbID
    ensures UniqueImdbIDs(c + [m])
  {
  }

  /** Remove undoes a successful save by the same registered user: the ledger
      returns to where it was, except that a created Movie used up one `_id`. */
  lemma RemoveUndoesSave(schema: Schema, st: Store, uid: UserId, req: SaveRequest)
    requires Valid(schema, st) && uid in st.users
    requires Save(schema, st, uid, req).outcome.Saved?
    ensures
      var s1 := Save(schema, st, uid, req).store;
      Remove(schema, s1, uid, req.imdbID.value) == Step(st.(nextId := s1.nextId), Removed)
  {
    var key := req.imdbID.value;
    match FindMovie(st.movies, key)
    case Some(i) =>
      RemoveUndoesAppend(schema, st, uid, req, i);
    case None =>
      RemoveUndoesCreate(schema, st, uid, req);
  }

  lemma RemoveUndoesAppend(schema: Schema, st: Store, uid: UserId, req: SaveRequest, i: nat)
    requires Valid(schema, st) && uid in st.users && HasRequiredFields(req)
    requires FindMovie(st.movies, req.imdbID.value) == Some(i)
    requires uid !in st.movies[i].savedBy
    ensures
      var s1 := Save(schema, st, uid, req).store;
      Remove(schema, s1, uid, req.imdbID.value) == Step(st, Removed)
  {
    var m := st.movies[i];
    assert IsValid(schema, m) && m.savedBy != [];
    assert m.id !in st.users[uid];
    UndoAppend(schema, st, uid, req, i);
  }

  /** Unlinking a Movie the user has just linked, and did not link before, restores the users. */
  lemma UnlinkUndoesLink(users: map<UserId, seq<MovieId>>, uid: UserId, id: MovieId)
    requires uid in users && id !in users[uid]
    ensures UnlinkUser(LinkUser(users, uid, id), uid, id) == users
  {
    PullUndoesAddToSet(users[uid], id);
  }

  /** Pulling a saver just pushed onto a list without it restores the list. */
  lemma PullLastAdded(s: seq<UserId>, x: UserId)
    requires x !in s
    ensures Pull(s + [x], x) == s
  {
    PullAppend(s, [x], x);
    assert Pull([x], x) == [];
  }

  /** The existing-Movie case of `RemoveUndoesSave`, from the facts it uses. */
  lemma UndoAppend(schema: Schema, st: Store, uid: UserId, req: SaveRequest, i: nat)
    requires HasRequiredFields(req) && FindMovie(st.movies, req.imdbID.value) == Some(i)
    requires uid !in st.movies[i].savedBy && st.movies[i].savedBy != [] && IsValid(schema, st.movies[i])
    requires uid in st.users && st.movies[i].id !in st.users[uid]
    ensures
      var s1 := Save(schema, st, uid, req).store;
      Remove(schema, s1, uid, req.imdbID.value) == Step(st, Removed)
  {
    SaveAppendStep(schema, st, uid, req, i);
    UndoAppendFrom(schema, st, Save(schema, st, uid, req).store, uid, req.imdbID.value, i);
  }

  /** The remove half of `UndoAppend`: from the store the save left behind. */
  lemma UndoAppendFrom(schema: Schema, st: Store, s1: Store, uid: UserId, key: string, i: nat)
    requires i < |st.movies| && uid !in st.movies[i].savedBy && st.movies[i].savedBy != []
    requires uid in st.users && st.movies[i].id !in st.users[uid]
    requires s1.movies == st.movies[i := st.movies[i].(savedBy := st.movies[i].savedBy + [uid])]
    requires IsValid(schema, s1.movies[i]) && FindMovie(s1.movies, key) == Some(i)
    requires s1.users == LinkUser(st.users, uid, st.movies[i].id) && s1.nextId == st.nextId
    ensures Remove(schema, s1, uid, key) == Step(st, Removed)
  {
    var m := st.movies[i];
    PullLastAdded(m.savedBy, uid);
    assert s1.movies[i].savedBy == m.savedBy + [uid];
    RemoveKeepStep(schema, s1, uid, key, i);
    PullRestoresStore(st, s1, Remove(schema, s1, uid, key).store, uid, i);
  }

  /** Pulling the saver and unlinking the Movie from the store an append left
      behind gives back the store before the append. */
  lemma PullRestoresStore(st: Store, s1: Store, s2: Store, uid: UserId, i: nat)
    requires i < |st.movies| && uid !in st.movies[i].savedBy
    requires uid in st.users && st.movies[i].id !in st.users[uid]
    requires s1.movies == st.movies[i := st.movies[i].(savedBy := st.movies[i].savedBy + [uid])]
    requires s1.users == LinkUser(st.users, uid, st.movies[i].id) && s1.nextId == st.nextId
    requires s2.movies == s1.movies[i := s1.movies[i].(savedBy := Pull(s1.movies[i].savedBy, uid))]
    requires s2.users == UnlinkUser(s1.users, uid, s1.movies[i].id) && s2.nextId == s1.nextId
    ensures s2 == st
  {
    var m := st.movies[i];
    PullLastAdded(m.savedBy, uid);
    assert s1.movies[i] == m.(savedBy := m.savedBy + [uid]);
    assert s2.movies == st.movies;
    UnlinkUndoesLink(st.users, uid, m.id);
  }

  lemma RemoveUndoesCreate(schema: Schema, st: Store, uid: UserId, req: SaveRequest)
    requires Valid(schema, st) && uid in st.users && HasRequiredFields(req)
    requires FindMovie(st.movies, req.imdbID.value).None?
    requires Save(schema, st, uid, req).outcome.Saved?
    ensures
      var s1 := Save(schema, st, uid, req).store;
      Remove(schema, s1, uid, req.imdbID.value) == Step(st.(nextId := s1.nextId), Removed)
  {
    assert !HasId(st.movies, st.nextId);
    assert st.nextId !in st.users[uid];
    UndoCreate(schema, st, uid, req);
  }

  /** The create case of `RemoveUndoesSave`, from the facts it uses. */
  lemma UndoCreate(schema: Schema, st: Store, uid: UserId, req: SaveRequest)
    requires HasRequiredFields(req) && FindMovie(st.movies, req.imdbID.value).None?
    requires Save(schema, st, uid, req).outcome.Saved?
    requires UniqueImdbIDs(st.movies) && uid in st.users && st.nextId !in st.users[uid]
    ensures
      var s1 := Save(schema, st, uid, req).store;
      Remove(schema, s1, uid, req.imdbID.value) == Step(st.(nextId := s1.nextId), Removed)
  {
    var key := req.imdbID.value;
    var n := |st.movies|;
    var m := NewMovie(st.nextId, req.title.value, req.year.value, Or(req.poster, None), key, [uid]);
    var s1 := Save(schema, st, uid, req).store;
    assert s1.movies == st.movies + [m];
    AppendKeepsUniqueImdbIDs(st.movies, m);
    FindMovieFirst(s1.movies, key, n);
    assert Pull([uid], uid) == [];
    RemoveLastStep(schema, s1, uid, key, n);
    var s2 := Remove(schema, s1, uid, key).store;
    assert s2.movies == st.movies;
    UnlinkUndoesLink(st.users, uid, st.nextId);
  }

  /** After a successful remove, removing again is refused and changes nothing. */
  lemma RemoveTwiceIsRefused(schema: Schema, st: Store, uid: UserId, key: string)
    requires Valid(schema, st)
    requires Remove(schema, st, uid, key).outcome.Removed?
    ensures
      var s1 := Remove(schema, st, uid, key).store;
      var r := Remove(schema, s1, uid, key);
      (r.outcome == MovieNotFound || r.outcome == NotSaved) && r.store == s1
  {
  }

  /** The list answer for a registered user holds exactly the Movies whose
      `savedBy` contains that user, and its count is the length of the user's
      `savedMovies` array. */
  lemma ListShowsSavedMovies(schema: Schema, st: Store, uid: UserId)
    requires Valid(schema, st) && uid in st.users
    ensures List(st, uid).Listed?
    ensures List(st, uid).count == |st.users[uid]|
    ensures forall i | 0 <= i < |st.movies| ::
      uid in st.movies[i].savedBy <==> ToRecord(st.movies[i]) in List(st, uid).movies
  {
    var c := st.movies;
    assert forall k | 0 <= k < |st.users[uid]| :: HasId(c, st.users[uid][k]);
    ListedIffLinked(st, uid);
    assert forall i | 0 <= i < |c| :: uid in c[i].savedBy <==> c[i].id in st.users[uid];
  }

  /** With unique Movie ids and no dangling reference, a Movie's record is
      listed iff the user's array references the Movie. */
  lemma ListedIffLinked(st: Store, uid: UserId)
    requires uid in st.users && UniqueMovieIds(st.movies)
    requires forall k | 0 <= k < |st.users[uid]| :: HasId(st.movies, st.users[uid][k])
    ensures List(st, uid).Listed?
    ensures List(st, uid).count == |st.users[uid]|
    ensures forall i | 0 <= i < |st.movies| ::
      st.movies[i].id in st.users[uid] <==> ToRecord(st.movies[i]) in List(st, uid).movies
  {
    var found := Populate(st.movies, st.users[uid]);
    var listed := List(st, uid).movies;
    assert |listed| == |found|;
    assert forall k | 0 <= k < |listed| :: listed[k] == ToRecord(found[k]);
    RecordsOfPopulated(st.movies, st.users[uid], found, listed);
  }

  /** The core of `ListedIffLinked`, over the populated array and its records. */
  lemma RecordsOfPopulated(c: seq<Movie>, ids: seq<MovieId>, found: seq<Movie>, listed: seq<Record>)
    requires UniqueMovieIds(c)
    requires |found| == |ids| && forall k | 0 <= k < |found| :: found[k] in c && found[k].id == ids[k]
    requires |listed| == |found| && forall k | 0 <= k < |listed| :: listed[k] == ToRecord(found[k])
    ensures forall i | 0 <= i < |c| :: c[i].id in ids <==> ToRecord(c[i]) in listed
  {
    forall i | 0 <= i < |c|
      ensures c[i].id in ids <==> ToRecord(c[i]) in listed
    {
      if c[i].id in ids {
        var k :| 0 <= k < |ids| && ids[k] == c[i].id;
        var j :| 0 <= j < |c| && c[j] == found[k];
        assert c[j].id == c[i].id;
        assert listed[k] == ToRecord(c[i]);
      }
      if ToRecord(c[i]) in listed {
        var k :| 0 <= k < |listed| && listed[k] == ToRecord(c[i]);
        assert c[i].id == found[k].id == ids[k];
      }
    }
  }


  /** A request the create path accepts under `schema`. */
  predicate Creatable(schema: Schema, req: SaveRequest) {
    && HasRequiredFields(req)
    && Trim(req.title.value) != ""
    && (schema.posterRequired ==> Truthy(req.poster))
  }

  /** The shared-record walk-through: user A saves a movie nobody has saved,
      user B saves it too (one Movie, two savers), A removes it (the Movie stays
      with B alone), B removes it (the Movie is deleted and the collection is as
      it was). */
  lemma SharedMovieWalkthrough(schema: Schema, st: Store, a: UserId, b: UserId, req: SaveRequest)
    requires UniqueImdbIDs(st.movies) && a != b
    requires Creatable(schema, req)
    requires FindMovie(st.movies, req.imdbID.value).None?
    ensures
      var key := req.imdbID.value;
      var s1 := Save(schema, st, a, req);
      var s2 := Save(schema, s1.store, b, req);
      var s3 := Remove(schema, s2.store, a, key);
      var s4 := Remove(schema, s3.store, b, key);
      && s1.outcome.Saved? && s2.outcome.Saved? && s3.outcome.Removed? && s4.outcome.Removed?
      && |s2.store.movies| == |st.movies| + 1
      && s2.store.movies[|st.movies|].savedBy == [a, b]
      && FindMovie(s3.store.movies, key) == Some(|st.movies|)
      && s3.store.movies[|st.movies|].savedBy == [b]
      && FindMovie(s4.store.movies, key).None?
      && s4.store.movies == st.movies
  {
    var key := req.imdbID.value;
    var s1 := Save(schema, st, a, req);
    var s2 := Save(schema, s1.store, b, req);
    var m := SharedMovie(st, a, b, req);
    TwoSavesShareOneMovie(schema, st, a, b, req);
    SharedMovieFacts(schema, st, a, b, req);
    TwoRemovesDeleteIt(schema, s2.store, st.movies, m, key, a, b);
  }

  /** The Movie the walk-through's two saves leave behind. */
  function SharedMovie(st: Store, a: UserId, b: UserId, req: SaveRequest): Movie
    requires HasRequiredFields(req)
  {
    NewMovie(st.nextId, req.title.value, req.year.value, Or(req.poster, None), req.imdbID.value, [a]).(savedBy := [a, b])
  }

  /** The shared Movie is valid, carries the request's key, is saved by both
      users in order, and no earlier Movie has its key. */
  lemma SharedMovieFacts(schema: Schema, st: Store, a: UserId, b: UserId, req: SaveRequest)
    requires Creatable(schema, req)
    requires FindMovie(st.movies, req.imdbID.value).None?
    ensures var m := SharedMovie(st, a, b, req);
      && IsValid(schema, m) && m.imdbID == req.imdbID.value && m.savedBy == [a, b]
      && forall j | 0 <= j < |st.movies| :: st.movies[j].imdbID != req.imdbID.value
  {
  }

  /** The first half of the walk-through: two saves leave one new Movie, last,
      with both savers in order. */
  lemma TwoSavesShareOneMovie(schema: Schema, st: Store, a: UserId, b: UserId, req: SaveRequest)
    requires a != b && Creatable(schema, req)
    requires FindMovie(st.movies, req.imdbID.value).None?
    ensures
      var s1 := Save(schema, st, a, req);
      var s2 := Save(schema, s1.store, b, req);
      && s1.outcome.Saved? && s2.outcome.Saved?
      && s2.store.movies == st.movies + [SharedMovie(st, a, b, req)]
      && |s2.store.movies| == |st.movies| + 1
      && s2.store.movies[|st.movies|].savedBy == [a, b]
  {
    var m := NewMovie(st.nextId, req.title.value, req.year.value, Or(req.poster, None), req.imdbID.value, [a]);
    assert IsValid(schema, m) && m.savedBy == [a];
    SaveCreateStep(schema, st, a, req);
    var s1 := Save(schema, st, a, req).store;
    assert s1.movies == st.movies + [m];
    assert m.savedBy + [b] == [a, b];
    SecondSaverAppends(schema, s1, st.movies, m, b, req);
  }

  /** A second user saving a Movie that only one other user holds, stored last, is appended after them. */
  lemma SecondSaverAppends(schema: Schema, st: Store, base: seq<Movie>, m: Movie, b: UserId, req: SaveRequest)
    requires st.movies == base + [m] && |m.savedBy| == 1 && m.savedBy[0] != b && IsValid(schema, m)
    requires HasRequiredFields(req) && m.imdbID == req.imdbID.value
    requires forall j | 0 <= j < |base| :: base[j].imdbID != m.imdbID
    ensures
      var r := Save(schema, st, b, req);
      r.outcome.Saved? && r.store.movies == base + [m.(savedBy := m.savedBy + [b])]
  {
    var n := |base|;
    FindMovieFirst(st.movies, m.imdbID, n);
    assert b !in m.savedBy;
    SaveAppendStep(schema, st, b, req, n);
    ReplaceLast(base, m, m.(savedBy := m.savedBy + [b]));
  }

  /** The second half of the walk-through: the first saver's remove keeps the
      Movie with the second saver; the second saver's remove deletes it. */
  lemma TwoRemovesDeleteIt(schema: Schema, st: Store, base: seq<Movie>, m: Movie, key: string, a: UserId, b: UserId)
    requires st.movies == base + [m] && m.imdbID == key && m.savedBy == [a, b] && a != b
    requires IsValid(schema, m) && UniqueImdbIDs(base)
    requires forall j | 0 <= j < |base| :: base[j].imdbID != key
    ensures
      var s3 := Remove(schema, st, a, key);
      var s4 := Remove(schema, s3.store, b, key);
      && s3.outcome.Removed? && s4.outcome.Removed?
      && FindMovie(s3.store.movies, key) == Some(|base|)
      && s3.store.movies[|base|].savedBy == [b]
      && FindMovie(s4.store.movies, key).None?
      && s4.store.movies == base
  {
    var n := |base|;
    FirstOfTwoRemoves(schema, st, base, m, key, a, b);
    var s3 := Remove(schema, st, a, key).store;
    AppendKeepsUniqueImdbIDs(base, m.(savedBy := [b]));
    assert Pull([b], b) == [];
    RemoveLastStep(schema, s3, b, key, n);
    assert RemoveAt(s3.movies, n) == base;
  }

  /** The first of the two removes in `TwoRemovesDeleteIt` leaves the Movie last,
      saved by the other user only. */
  lemma FirstOfTwoRemoves(schema: Schema, st: Store, base: seq<Movie>, m: Movie, key: string, a: UserId, b: UserId)
    requires st.movies == base + [m] && m.imdbID == key && m.savedBy == [a, b] && a != b
    requires IsValid(schema, m)
    requires forall j | 0 <= j < |base| :: base[j].imdbID != key
    ensures
      var s3 := Remove(schema, st, a, key);
      && s3.outcome.Removed?
      && s3.store.movies == base + [m.(savedBy := [b])]
      && FindMovie(s3.store.movies, key) == Some(|base|)
  {
    var n := |base|;
    FindMovieFirst(st.movies, key, n);
    assert Pull([a, b], a) == [b] by {
      assert Pull([b], a) == [b] + Pull([], a);
    }
    RemoveKeepStep(schema, st, a, key, n);
    ReplaceLast(base, m, m.(savedBy := [b]));
  }

  // ----- movies without a poster -----

  /** As written, the first save of a movie without a poster is refused with the
      schema's poster message, and nothing is stored. */
  lemma PosterlessFirstSaveRejected(st: Store, uid: UserId, req: SaveRequest)
    requires HasRequiredFields(req) && Trim(req.title.value) != ""
    requires !Truthy(req.poster)
    requires FindMovie(st.movies, req.imdbID.value).None?
    ensures Save(AsWritten, st, uid, req) == Step(st, Rejected([PosterRequired]))
  {
    var m := NewMovie(st.nextId, req.title.value, req.year.value, Or(req.poster, None), req.imdbID.value, [uid]);
    assert !Truthy(m.poster) && m.title != "" && m.year != "" && m.imdbID != "";
    assert ValidationErrors(AsWritten, m) == [PosterRequired];
  }

  /** A title of whitespace only passes the handler's truthiness check but
      trims to the empty string, and the create path is refused with the
      schema's title message. */
  lemma BlankTitleRejected(schema: Schema, st: Store, uid: UserId, req: SaveRequest)
    requires HasRequiredFields(req)
    requires forall i | 0 <= i < |req.title.value| :: IsWhitespace(req.title.value[i])
    requires FindMovie(st.movies, req.imdbID.value).None?
    ensures Save(schema, st, uid, req).outcome.Rejected?
    ensures TitleRequired in Save(schema, st, uid, req).outcome.messages
    ensures Save(schema, st, uid, req).store == st
  {
    TrimEmptyIffBlank(req.title.value);
  }

  /** With the poster optional and the ledger invariant holding, every request
      whose title has a non-whitespace character and whose year and imdbID are
      present, from a registered user who has not saved that movie yet,
      succeeds, and the user then holds the movie. A blank title is still
      refused, see `BlankTitleRejected`. */
  lemma PosterOptionalSaveSucceeds(st: Store, uid: UserId, req: SaveRequest)
    requires Valid(PosterOptional, st) && uid in st.users
    requires Creatable(PosterOptional, req)
    requires !IsSaver(st, uid, req.imdbID.value)
    ensures Save(PosterOptional, st, uid, req).outcome.Saved?
    ensures IsSaver(Save(PosterOptional, st, uid, req).store, uid, req.imdbID.value)
  {
    if Save(PosterOptional, st, uid, req).outcome.Rejected? {
      SaveRejectsOnlyOnCreate(PosterOptional, st, uid, req);
    }
  }
}
