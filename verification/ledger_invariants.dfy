/** The ledger invariant survives every handler: save (for a registered user)
    and remove keep one Movie per `imdbID`, keep `savedBy` and `savedMovies`
    mutual inverses, and leave no Movie without savers. */
module LedgerInvariants {
  import opened JsValues
  import opened Sequences
  import opened MovieSchema
  import opened Ledger

  /** The per-movie reading of the pair index, for collections with unique `imdbID`s. */
  predicate SaverListsUnique(c: seq<Movie>) {
    forall i | 0 <= i < |c| :: NoDuplicates(c[i].savedBy)
  }

  lemma CollectionValidIntro(schema: Schema, c: seq<Movie>)
    requires forall i | 0 <= i < |c| :: IsValid(schema, c[i])
    requires UniqueImdbIDs(c)
    requires SaverListsUnique(c)
    ensures CollectionValid(schema, c)
  {
    SaverPairsArePerMovie(c);
  }

  lemma CollectionValidElim(schema: Schema, c: seq<Movie>)
    requires CollectionValid(schema, c)
    ensures SaverListsUnique(c)
  {
    SaverPairsArePerMovie(c);
  }

  // ----- save, existing Movie -----

  /** Appending a new saver to an existing Movie, and linking it from that saver, keeps the invariant. */
  lemma AppendSaverKeepsValid(schema: Schema, st: Store, uid: UserId, i: nat)
    requires Valid(schema, st) && uid in st.users
    requires i < |st.movies| && uid !in st.movies[i].savedBy
    requires IsValid(schema, st.movies[i].(savedBy := st.movies[i].savedBy + [uid]))
    ensures
      var m := st.movies[i];
      Valid(schema, Store(st.movies[i := m.(savedBy := m.savedBy + [uid])], LinkUser(st.users, uid, m.id), st.nextId))
  {
    var m := st.movies[i];
    CollectionValidElim(schema, st.movies);
    assert NoDuplicates(m.savedBy);
    assert AddToSet(m.savedBy, uid) == m.savedBy + [uid];
    ReplaceSaversKeepsCollection(schema, st.movies, st.nextId, i, m.savedBy + [uid]);
    AppendSaverKeepsInverse(st, uid, i);
    AppendSaverKeepsNoDangling(st, uid, i);
  }

  lemma AppendSaverKeepsInverse(st: Store, uid: UserId, i: nat)
    requires Inverse(st) && UniqueMovieIds(st.movies)
    requires i < |st.movies| && uid !in st.movies[i].savedBy
    ensures
      var m := st.movies[i];
      Inverse(Store(st.movies[i := m.(savedBy := m.savedBy + [uid])], LinkUser(st.users, uid, m.id), st.nextId))
  {
    var c := st.movies;
    var m := c[i];
    var c' := c[i := m.(savedBy := m.savedBy + [uid])];
    var users' := LinkUser(st.users, uid, m.id);
    forall j, u | 0 <= j < |c'| && u in users'
      ensures u in c'[j].savedBy <==> c'[j].id in users'[u]
    {
      if u == uid && j != i {
        assert c[j].id != m.id;
        assert c'[j].id in users'[u] <==> c[j].id in st.users[u];
      }
    }
  }

  lemma AppendSaverKeepsNoDangling(st: Store, uid: UserId, i: nat)
    requires NoDangling(st) && i < |st.movies|
    ensures
      var m := st.movies[i];
      NoDangling(Store(st.movies[i := m.(savedBy := m.savedBy + [uid])], LinkUser(st.users, uid, m.id), st.nextId))
  {
    var c := st.movies;
    var m := c[i];
    var c' := c[i := m.(savedBy := m.savedBy + [uid])];
    var users' := LinkUser(st.users, uid, m.id);
    forall u, id | u in users' && id in users'[u] ensures HasId(c', id) {
      if id == m.id {
        assert c'[i].id == id;
      } else {
        assert id in st.users[u];
        assert HasId(c, id);
        var j :| 0 <= j < |c| && c[j].id == id;
        assert c'[j].id == id;
      }
    }
  }

  // ----- save, new Movie -----

  /** Creating a Movie for a fresh `imdbID`, saved by one registered user, keeps the invariant. */
  lemma CreateMovieKeepsValid(schema: Schema, st: Store, uid: UserId, m: Movie)
    requires Valid(schema, st) && uid in st.users
    requires forall j | 0 <= j < |st.movies| :: st.movies[j].imdbID != m.imdbID
    requires m.id == st.nextId && m.savedBy == [uid] && IsValid(schema, m)
    ensures Valid(schema, Store(st.movies + [m], LinkUser(st.users, uid, m.id), st.nextId + 1))
  {
    AppendMovieKeepsCollection(schema, st.movies, st.nextId, m);
    CreateMovieKeepsInverse(st, uid, m);
    CreateMovieKeepsNoDangling(st, uid, m);
  }

  /** Appending a valid Movie with a fresh `imdbID`, the next `_id` and one saver keeps the collection constraints. */
  lemma AppendMovieKeepsCollection(schema: Schema, c: seq<Movie>, n: MovieId, m: Movie)
    requires CollectionValid(schema, c) && NoOrphans(c) && UniqueMovieIds(c) && IdsBelow(c, n)
    requires forall j | 0 <= j < |c| :: c[j].imdbID != m.imdbID
    requires m.id == n && |m.savedBy| == 1 && IsValid(schema, m)
    ensures
      var c' := c + [m];
      CollectionValid(schema, c') && NoOrphans(c') && UniqueMovieIds(c') && IdsBelow(c', n + 1)
  {
    var c' := c + [m];
    assert forall j | 0 <= j < |c| :: c'[j] == c[j];
    assert c'[|c|] == m;
    CollectionValidElim(schema, c);
    assert SaverListsUnique(c');
    CollectionValidIntro(schema, c');
  }

  lemma CreateMovieKeepsInverse(st: Store, uid: UserId, m: Movie)
    requires Inverse(st) && NoDangling(st) && IdsBelow(st.movies, st.nextId)
    requires m.id == st.nextId && m.savedBy == [uid]
    ensures Inverse(Store(st.movies + [m], LinkUser(st.users, uid, m.id), st.nextId + 1))
  {
    var c := st.movies;
    var c' := c + [m];
    var users' := LinkUser(st.users, uid, m.id);
    var n := |c|;
    // the fresh id is referenced by nobody yet
    assert !HasId(c, m.id);
    forall u | u in st.users ensures m.id !in st.users[u] {
    }
    forall j, u | 0 <= j < |c'| && u in users'
      ensures u in c'[j].savedBy <==> c'[j].id in users'[u]
    {
      if j < n && u == uid {
        assert c'[j].id in users'[u] <==> c[j].id in st.users[u];
      }
    }
  }

  lemma CreateMovieKeepsNoDangling(st: Store, uid: UserId, m: Movie)
    requires NoDangling(st)
    ensures NoDangling(Store(st.movies + [m], LinkUser(st.users, uid, m.id), st.nextId + 1))
  {
    var c := st.movies;
    var c' := c + [m];
    var users' := LinkUser(st.users, uid, m.id);
    var n := |c|;
    forall u, id | u in users' && id in users'[u] ensures HasId(c', id) {
      if id == m.id {
        assert c'[n].id == id;
      } else {
        assert id in st.users[u];
        assert HasId(c, id);
        var j :| 0 <= j < |c| && c[j].id == id;
        assert c'[j].id == id;
      }
    }
  }

  /** Every save by a registered user keeps the invariant. */
  lemma SavePreservesValid(schema: Schema, st: Store, uid: UserId, req: SaveRequest)
    requires Valid(schema, st)
    requires uid in st.users
    ensures Valid(schema, Save(schema, st, uid, req).store)
  {
    var r := Save(schema, st, uid, req);
    if r.outcome.Saved? {
      var key := req.imdbID.value;
      match FindMovie(st.movies, key)
      case Some(i) =>
        var m := st.movies[i];
        assert r.store.movies == st.movies[i := m.(savedBy := m.savedBy + [uid])];
        AppendSaverKeepsValid(schema, st, uid, i);
      case None =>
        var m := NewMovie(st.nextId, req.title.value, req.year.value, Or(req.poster, None), key, [uid]);
        assert r.store.movies == st.movies + [m];
        CreateMovieKeepsValid(schema, st, uid, m);
    }
  }

  // ----- remove -----

  /** Deleting one Movie keeps the collection constraints and the id bookkeeping. */
  lemma DeleteKeepsCollection(schema: Schema, c: seq<Movie>, n: MovieId, i: nat)
    requires i < |c|
    requires CollectionValid(schema, c) && NoOrphans(c) && UniqueMovieIds(c) && IdsBelow(c, n)
    ensures
      var c' := RemoveAt(c, i);
      CollectionValid(schema, c') && NoOrphans(c') && UniqueMovieIds(c') && IdsBelow(c', n)
  {
    var c' := RemoveAt(c, i);
    CollectionValidElim(schema, c);
    assert UniqueImdbIDs(c') && UniqueMovieIds(c') by {
      forall j, k | 0 <= j < |c'| && 0 <= k < |c'| && j != k
        ensures c'[j].imdbID != c'[k].imdbID && c'[j].id != c'[k].id
      {
        assert c'[j] == c[if j < i then j else j + 1];
        assert c'[k] == c[if k < i then k else k + 1];
      }
    }
    CollectionValidIntro(schema, c');
  }

  /** Pulling the only saver deletes the Movie, and unlinking it keeps the invariant. */
  lemma DeleteMovieKeepsValid(schema: Schema, st: Store, uid: UserId, i: nat)
    requires Valid(schema, st)
    requires i < |st.movies| && uid in st.movies[i].savedBy
    requires Pull(st.movies[i].savedBy, uid) == []
    ensures Valid(schema, Store(RemoveAt(st.movies, i), UnlinkUser(st.users, uid, st.movies[i].id), st.nextId))
  {
    var c := st.movies;
    var m := c[i];
    var c' := RemoveAt(c, i);
    var users' := UnlinkUser(st.users, uid, m.id);
    DeleteKeepsCollection(schema, c, st.nextId, i);
    // the only saver was `uid`, so nobody else links the deleted Movie
    forall u | u in st.users && u != uid ensures m.id !in st.users[u] {
      assert u !in m.savedBy;
    }
    DeleteMovieKeepsInverse(st, uid, i);
    DeleteMovieKeepsNoDangling(st, uid, i);
    assert SaversRegistered(Store(c', users', st.nextId)) by {
      forall j, u | 0 <= j < |c'| && u in c'[j].savedBy ensures u in users' {
        assert c'[j] == c[if j < i then j else j + 1];
      }
    }
  }

  lemma DeleteMovieKeepsInverse(st: Store, uid: UserId, i: nat)
    requires Inverse(st) && UniqueMovieIds(st.movies)
    requires i < |st.movies|
    ensures Inverse(Store(RemoveAt(st.movies, i), UnlinkUser(st.users, uid, st.movies[i].id), st.nextId))
  {
    var c := st.movies;
    var m := c[i];
    var c' := RemoveAt(c, i);
    var users' := UnlinkUser(st.users, uid, m.id);
    forall j, u | 0 <= j < |c'| && u in users'
      ensures u in c'[j].savedBy <==> c'[j].id in users'[u]
    {
      var o := if j < i then j else j + 1;
      assert c'[j] == c[o] && o != i;
      assert c[o].id != m.id;
      if u == uid {
        assert c[o].id in users'[u] <==> c[o].id in st.users[u];
      }
    }
  }

  /** Every link that survives the unlink points at a Movie that survives the delete. */
  lemma DeleteMovieKeepsNoDangling(st: Store, uid: UserId, i: nat)
    requires NoDangling(st) && i < |st.movies|
    requires forall u | u in st.users && u != uid :: st.movies[i].id !in st.users[u]
    ensures NoDangling(Store(RemoveAt(st.movies, i), UnlinkUser(st.users, uid, st.movies[i].id), st.nextId))
  {
    var c := st.movies;
    var m := c[i];
    var c' := RemoveAt(c, i);
    var users' := UnlinkUser(st.users, uid, m.id);
    forall u, id | u in users' && id in users'[u] ensures HasId(c', id) {
      assert id in st.users[u] && id != m.id;
      assert HasId(c, id);
      var o :| 0 <= o < |c| && c[o].id == id;
      var j := if o < i then o else o - 1;
      assert c'[j] == c[o];
    }
  }

  /** Replacing one Movie's saver list by a non-empty sub-list keeps the collection constraints. */
  lemma DropSaverKeepsCollection(schema: Schema, c: seq<Movie>, n: MovieId, i: nat, uid: UserId)
    requires i < |c| && Pull(c[i].savedBy, uid) != []
    requires CollectionValid(schema, c) && NoOrphans(c) && UniqueMovieIds(c) && IdsBelow(c, n)
    ensures
      var c' := c[i := c[i].(savedBy := Pull(c[i].savedBy, uid))];
      CollectionValid(schema, c') && NoOrphans(c') && UniqueMovieIds(c') && IdsBelow(c', n)
  {
    CollectionValidElim(schema, c);
    assert NoDuplicates(c[i].savedBy);
    ReplaceSaversKeepsCollection(schema, c, n, i, Pull(c[i].savedBy, uid));
  }

  /** Giving one Movie another non-empty, repeat-free saver list keeps the collection constraints. */
  lemma ReplaceSaversKeepsCollection(schema: Schema, c: seq<Movie>, n: MovieId, i: nat, savers: seq<UserId>)
    requires i < |c| && savers != [] && NoDuplicates(savers)
    requires CollectionValid(schema, c) && NoOrphans(c) && UniqueMovieIds(c) && IdsBelow(c, n)
    ensures
      var c' := c[i := c[i].(savedBy := savers)];
      CollectionValid(schema, c') && NoOrphans(c') && UniqueMovieIds(c') && IdsBelow(c', n)
  {
    var c' := c[i := c[i].(savedBy := savers)];
    assert forall j | 0 <= j < |c| :: c'[j].id == c[j].id && c'[j].imdbID == c[j].imdbID;
    CollectionValidElim(schema, c);
    assert SaverListsUnique(c');
    CollectionValidIntro(schema, c');
  }

  /** Pulling one of several savers keeps the Movie and the invariant. */
  lemma DropSaverKeepsValid(schema: Schema, st: Store, uid: UserId, i: nat)
    requires Valid(schema, st)
    requires i < |st.movies| && uid in st.movies[i].savedBy
    requires Pull(st.movies[i].savedBy, uid) != []
    ensures
      var m := st.movies[i];
      Valid(schema, Store(st.movies[i := m.(savedBy := Pull(m.savedBy, uid))], UnlinkUser(st.users, uid, m.id), st.nextId))
  {
    DropSaverKeepsCollection(schema, st.movies, st.nextId, i, uid);
    DropSaverKeepsInverse(st, uid, i);
    DropSaverKeepsNoDangling(st, uid, i);
  }

  lemma DropSaverKeepsInverse(st: Store, uid: UserId, i: nat)
    requires Inverse(st) && UniqueMovieIds(st.movies)
    requires i < |st.movies|
    ensures
      var m := st.movies[i];
      Inverse(Store(st.movies[i := m.(savedBy := Pull(m.savedBy, uid))], UnlinkUser(st.users, uid, m.id), st.nextId))
  {
    var c := st.movies;
    var m := c[i];
    var m' := m.(savedBy := Pull(m.savedBy, uid));
    var c' := c[i := m'];
    var users' := UnlinkUser(st.users, uid, m.id);
    // the other savers of this Movie stay
    assert forall u | u != uid :: u in m'.savedBy <==> u in m.savedBy by {
      forall u | u != uid && u in m.savedBy ensures u in m'.savedBy {
        var a :| 0 <= a < |m.savedBy| && m.savedBy[a] == u;
      }
    }
    forall j, u | 0 <= j < |c'| && u in users'
      ensures u in c'[j].savedBy <==> c'[j].id in users'[u]
    {
      if j != i && u == uid {
        assert c[j].id != m.id;
        assert c'[j].id in users'[u] <==> c[j].id in st.users[u];
      }
    }
  }

  lemma DropSaverKeepsNoDangling(st: Store, uid: UserId, i: nat)
    requires NoDangling(st) && i < |st.movies|
    ensures
      var m := st.movies[i];
      NoDangling(Store(st.movies[i := m.(savedBy := Pull(m.savedBy, uid))], UnlinkUser(st.users, uid, m.id), st.nextId))
  {
    var c := st.movies;
    var m := c[i];
    var c' := c[i := m.(savedBy := Pull(m.savedBy, uid))];
    var users' := UnlinkUser(st.users, uid, m.id);
    forall u, id | u in users' && id in users'[u] ensures HasId(c', id) {
      assert id in st.users[u];
      assert HasId(c, id);
      var j :| 0 <= j < |c| && c[j].id == id;
      assert c'[j].id == id;
    }
  }

  /** Every remove keeps the invariant, whoever asks. */
  lemma RemovePreservesValid(schema: Schema, st: Store, uid: UserId, key: string)
    requires Valid(schema, st)
    ensures Valid(schema, Remove(schema, st, uid, key).store)
  {
    var r := Remove(schema, st, uid, key);
    if r.outcome.Removed? {
      var i := FindMovie(st.movies, key).value;
      if Pull(st.movies[i].savedBy, uid) == [] {
        DeleteMovieKeepsValid(schema, st, uid, i);
      } else {
        DropSaverKeepsValid(schema, st, uid, i);
      }
    }
  }
}
