/** The movie objects the client keeps in its lists, and the results of the
    client's API helpers. A list entry may carry the lower-case fields of a
    backend reply (`title`, `year`, `poster`) or the capitalised ones of a
    normalised entry (`Title`, `Year`, `Poster`); every entry has an `imdbID`. */
module ClientMovies {
  import opened JsValues
  import MovieSearch
  import Ledger

  datatype ClientMovie = ClientMovie(
    imdbID: string,
    title: Option<string>,
    Title: Option<string>,
    year: Option<string>,
    Year: Option<string>,
    poster: Option<string>,
    Poster: Option<string>)

  /** What an API helper resolves to: `{success, data, message}`, or a thrown error. */
  datatype ApiResult<D> = ApiResult(success: bool, data: Option<D>, message: Option<string>) | Threw

  /** `movies.some(m => m.imdbID === id)`. */
  function IsSaved(movies: seq<ClientMovie>, id: string): (r: bool)
    ensures r <==> exists i | 0 <= i < |movies| :: movies[i].imdbID == id
  {
    if |movies| == 0 then false
    else movies[0].imdbID == id || IsSaved(movies[1..], id)
  }

  /** The set of ids a list holds, the reference reading of `IsSaved`. */
  function SavedIds(movies: seq<ClientMovie>): set<string> {
    set i | 0 <= i < |movies| :: movies[i].imdbID
  }

  lemma IsSavedIffInIds(movies: seq<ClientMovie>, id: string)
    ensures IsSaved(movies, id) <==> id in SavedIds(movies)
  {
    if id in SavedIds(movies) {
      var i :| 0 <= i < |movies| && movies[i].imdbID == id;
    }
  }

  /** No two entries of the list share an `imdbID`. */
  predicate DistinctIds(movies: seq<ClientMovie>) {
    forall i, j | 0 <= i < j < |movies| :: movies[i].imdbID != movies[j].imdbID
  }

  /** `movies.filter(m => m.imdbID !== id)`. */
  function WithoutId(movies: seq<ClientMovie>, id: string): (r: seq<ClientMovie>)
    ensures |r| <= |movies|
    ensures forall i | 0 <= i < |r| :: r[i] in movies && r[i].imdbID != id
    ensures forall i | 0 <= i < |movies| && movies[i].imdbID != id :: movies[i] in r
    ensures !IsSaved(movies, id) ==> r == movies
  {
    if |movies| == 0 then []
    else
      var tail := movies[1..];
      assert forall i | 0 <= i < |tail| :: tail[i] == movies[i + 1];
      var rest := WithoutId(tail, id);
      if movies[0].imdbID == id then rest
      else
        [movies[0]] + rest
  }

  /** The filter distributes over concatenation, so the kept entries keep their order. */
  lemma {:induction false} WithoutIdAppend(a: seq<ClientMovie>, b: seq<ClientMovie>, id: string)
    ensures WithoutId(a + b, id) == WithoutId(a, id) + WithoutId(b, id)
  {
    if |a| > 0 {
      var ab := a + b;
      assert ab[0] == a[0] && ab[1..] == a[1..] + b;
      WithoutIdAppend(a[1..], b, id);
      if a[0].imdbID == id {
        assert WithoutId(ab, id) == WithoutId(ab[1..], id);
      } else {
        assert WithoutId(ab, id) == [a[0]] + WithoutId(ab[1..], id);
        assert WithoutId(a, id) == [a[0]] + WithoutId(a[1..], id);
      }
    } else {
      assert a + b == b;
    }
  }

  /** Filtering removes exactly the one id from the set of ids. */
  lemma WithoutIdIds(movies: seq<ClientMovie>, id: string)
    ensures SavedIds(WithoutId(movies, id)) == SavedIds(movies) - {id}
  {
    var r := WithoutId(movies, id);
    forall x | x in SavedIds(movies) - {id} ensures x in SavedIds(r) {
      var i :| 0 <= i < |movies| && movies[i].imdbID == x;
      assert movies[i] in r;
      var k :| 0 <= k < |r| && r[k] == movies[i];
    }
    forall x | x in SavedIds(r) ensures x in SavedIds(movies) - {id} {
      var k :| 0 <= k < |r| && r[k].imdbID == x;
      assert r[k] in movies;
      var i :| 0 <= i < |movies| && movies[i] == r[k];
    }
  }

  /** Filtering keeps the ids distinct. */
  lemma {:induction false} WithoutIdKeepsDistinct(movies: seq<ClientMovie>, id: string)
    requires DistinctIds(movies)
    ensures DistinctIds(WithoutId(movies, id))
  {
    if |movies| > 0 {
      var tail := movies[1..];
      assert DistinctIds(tail) by {
        assert forall i | 0 <= i < |tail| :: tail[i] == movies[i + 1];
      }
      WithoutIdKeepsDistinct(tail, id);
      if movies[0].imdbID != id {
        HeadNotKept(movies, id);
        ConsKeepsDistinct(movies[0], WithoutId(tail, id));
      }
    }
  }

  /** With distinct ids, the first entry's id is not among the entries the filter keeps from the rest. */
  lemma HeadNotKept(movies: seq<ClientMovie>, id: string)
    requires |movies| > 0 && DistinctIds(movies)
    ensures forall k | 0 <= k < |WithoutId(movies[1..], id)| :: WithoutId(movies[1..], id)[k].imdbID != movies[0].imdbID
  {
    var tail := movies[1..];
    var rest := WithoutId(tail, id);
    forall k | 0 <= k < |rest| ensures rest[k].imdbID != movies[0].imdbID {
      var i :| 0 <= i < |tail| && tail[i] == rest[k];
      assert movies[i + 1] == rest[k];
    }
  }

  lemma ConsKeepsDistinct(x: ClientMovie, rest: seq<ClientMovie>)
    requires DistinctIds(rest)
    requires forall k | 0 <= k < |rest| :: rest[k].imdbID != x.imdbID
    ensures DistinctIds([x] + rest)
  {
    var r := [x] + rest;
    forall i, j | 0 <= i < j < |r| ensures r[i].imdbID != r[j].imdbID {
      assert r[j] == rest[j - 1];
      if i > 0 {
        assert r[i] == rest[i - 1];
      }
    }
  }

  /** A search hit as the client receives it. */
  function FromSearchResult(r: MovieSearch.SearchResult): ClientMovie {
    ClientMovie(r.imdbID, Some(r.title), None, Some(r.year), None, r.poster, None)
  }

  /** A saved Movie as the list reply carries it. */
  function FromRecord(r: Ledger.Record): ClientMovie {
    ClientMovie(r.imdbID, Some(r.title), None, Some(r.year), None, r.poster, None)
  }

  function FromSearchResults(rs: seq<MovieSearch.SearchResult>): (ms: seq<ClientMovie>)
    ensures |ms| == |rs|
    ensures forall i | 0 <= i < |rs| :: ms[i] == FromSearchResult(rs[i])
  {
    if |rs| == 0 then [] else [FromSearchResult(rs[0])] + FromSearchResults(rs[1..])
  }

  function FromRecords(rs: seq<Ledger.Record>): (ms: seq<ClientMovie>)
    ensures |ms| == |rs|
    ensures forall i | 0 <= i < |rs| :: ms[i] == FromRecord(rs[i])
  {
    if |rs| == 0 then [] else [FromRecord(rs[0])] + FromRecords(rs[1..])
  }
}
