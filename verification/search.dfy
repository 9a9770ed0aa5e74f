/** The movie search route: the title check made before the movie database
    (OMDb) is asked, the reading of its answer, and the normalisation of each
    hit to the `{title, year, poster, imdbID}` shape the client receives. */
module MovieSearch {
  import opened JsValues
  import Ledger

  /** One hit of the provider's `Search` array, with its capitalised fields. */
  datatype OmdbMovie = OmdbMovie(title: string, year: string, poster: string, imdbID: string)

  /** The provider's answer body: `Response` is "True" or "False"; `Error`,
      `Search` and `totalResults` may be absent. */
  datatype OmdbReply = OmdbReply(
    response: string,
    error: Option<string>,
    search: Option<seq<OmdbMovie>>,
    totalResults: Option<string>)

  /** What the provider call gives the handler: an answer, an HTTP error status
      (the HTTP client rejects every non-2xx answer), or a failure without a response. */
  datatype ProviderCall = Answered(reply: OmdbReply) | HttpError(status: int) | TransportError

  /** One normalised hit; a missing poster is `null`. */
  datatype SearchResult = SearchResult(title: string, year: string, poster: Option<string>, imdbID: string)

  datatype SearchOutcome =
    | Found(movies: seq<SearchResult>, totalResults: Option<string>)
    | MissingTitle
    | NoMovies(message: string)
    | InvalidApiKey
    | SearchFailed

  /** The provider's marker for an absent poster. */
  const NotAvailable: string := "N/A"
  const NoMoviesFound: string := "No movies found"

  /** `Poster !== 'N/A' ? Poster : null`. */
  function NormalizePoster(p: string): (r: Option<string>)
    ensures r.None? <==> p == NotAvailable
    ensures r.Some? ==> r.value == p
  {
    if p != NotAvailable then Some(p) else None
  }

  /** The provider's poster field for a normalised poster: `null` stands for "N/A". */
  function DenormalizePoster(p: Option<string>): (r: string)
    ensures p.Some? ==> r == p.value
    ensures p.None? ==> r == NotAvailable
  {
    match p
    case Some(v) => v
    case None => NotAvailable
  }

  /** The mapping applied to each hit. */
  function Normalize(m: OmdbMovie): (r: SearchResult)
    ensures r.title == m.title && r.year == m.year && r.imdbID == m.imdbID
    ensures r.poster != Some(NotAvailable)
  {
    SearchResult(m.title, m.year, NormalizePoster(m.poster), m.imdbID)
  }

  /** The provider hit a normalised result came from. */
  function Denormalize(r: SearchResult): (m: OmdbMovie)
    ensures m.title == r.title && m.year == r.year && m.imdbID == r.imdbID
  {
    OmdbMovie(r.title, r.year, DenormalizePoster(r.poster), r.imdbID)
  }

  /** `Search.map(...)`: one result per hit, in the provider's order. */
  function NormalizeAll(ms: seq<OmdbMovie>): (r: seq<SearchResult>)
    ensures |r| == |ms|
    ensures forall i | 0 <= i < |ms| :: r[i] == Normalize(ms[i])
  {
    if |ms| == 0 then [] else [Normalize(ms[0])] + NormalizeAll(ms[1..])
  }

  function DenormalizeAll(rs: seq<SearchResult>): (r: seq<OmdbMovie>)
    ensures |r| == |rs|
    ensures forall i | 0 <= i < |rs| :: r[i] == Denormalize(rs[i])
  {
    if |rs| == 0 then [] else [Denormalize(rs[0])] + DenormalizeAll(rs[1..])
  }

  /** Normalisation loses nothing: the provider's hit is recovered from its result. */
  lemma DenormalizeNormalize(m: OmdbMovie)
    ensures Denormalize(Normalize(m)) == m
  {
    if m.poster == NotAvailable {
      assert Normalize(m).poster == None;
    }
  }

  /** A result is the normalisation of some hit exactly when its poster is not
      the literal "N/A", and then of its denormalisation. */
  lemma NormalizeDenormalize(r: SearchResult)
    ensures Normalize(Denormalize(r)) == r <==> r.poster != Some(NotAvailable)
  {
    if r.poster.None? {
      assert Denormalize(r).poster == NotAvailable;
    }
  }

  /** Two hits with the same result are the same hit. */
  lemma NormalizeInjective(a: OmdbMovie, b: OmdbMovie)
    ensures Normalize(a) == Normalize(b) <==> a == b
  {
    if Normalize(a) == Normalize(b) {
      DenormalizeNormalize(a);
      DenormalizeNormalize(b);
    }
  }

  /** The whole array round-trips. */
  lemma {:induction false} DenormalizeAllNormalizeAll(ms: seq<OmdbMovie>)
    ensures DenormalizeAll(NormalizeAll(ms)) == ms
  {
    if |ms| > 0 {
      DenormalizeNormalize(ms[0]);
      DenormalizeAllNormalizeAll(ms[1..]);
      assert NormalizeAll(ms) == [Normalize(ms[0])] + NormalizeAll(ms[1..]);
      assert DenormalizeAll(NormalizeAll(ms)) == [ms[0]] + ms[1..];
    }
  }

  /** GET /search?title=…: a falsy title is refused whatever the provider would
      say; a "False" answer is a 404 with the provider's error; a 401 from the
      provider is reported as a bad key; any other failure, including an answer
      without a `Search` array, is a server error. */
  function HandleSearch(title: Option<string>, call: ProviderCall): (r: SearchOutcome)
    ensures r.MissingTitle? <==> !Truthy(title)
    ensures r.Found? <==>
      Truthy(title) && call.Answered? && call.reply.response != "False" && call.reply.search.Some?
    ensures r.Found? ==>
      && |r.movies| == |call.reply.search.value|
      && (forall i | 0 <= i < |r.movies| :: r.movies[i] == Normalize(call.reply.search.value[i]))
      && r.totalResults == call.reply.totalResults
    ensures r.NoMovies? <==> Truthy(title) && call.Answered? && call.reply.response == "False"
    ensures r.NoMovies? ==>
      r.message != "" && (Truthy(call.reply.error) ==> r.message == call.reply.error.value)
    ensures r.InvalidApiKey? <==> Truthy(title) && call == HttpError(401)
  {
    if !Truthy(title) then MissingTitle
    else
      match call
      case Answered(reply) =>
        if reply.response == "False" then
          NoMovies(Or(reply.error, Some(NoMoviesFound)).value)
        else if reply.search.None? then
          // `undefined.map` throws, and the handler answers 500
          SearchFailed
        else
          Found(NormalizeAll(reply.search.value), reply.totalResults)
      case HttpError(status) =>
        if status == 401 then InvalidApiKey else SearchFailed
      case TransportError => SearchFailed
  }

  /** The status and message each search outcome is answered with. */
  function SearchResponse(o: SearchOutcome): (r: Ledger.Response)
    ensures r.status == 200 <==> o.Found?
    ensures r.status == 404 <==> o.NoMovies?
    ensures r.status == 400 <==> o.MissingTitle? || o.InvalidApiKey?
    ensures r.status == 500 <==> o.SearchFailed?
    ensures o.NoMovies? ==> r.message == o.message
  {
    match o
    case Found(_, _) => Ledger.Response(200, "Movies retrieved successfully")
    case MissingTitle => Ledger.Response(400, "Movie title is required")
    case NoMovies(message) => Ledger.Response(404, message)
    case InvalidApiKey => Ledger.Response(400, "Invalid OMDb API key")
    case SearchFailed => Ledger.Response(500, "Server error during movie search")
  }
}
