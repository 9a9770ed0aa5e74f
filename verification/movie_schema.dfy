/** The Movie document and the constraints its schema imposes: four required
    string paths (the title trimmed on assignment), a unique `imdbID`, and a
    unique (`imdbID`, saver) pair. */
module MovieSchema {
  import opened JsValues
  import opened Sequences

  /** The `_id` of a User document; the model only compares them. */
  type UserId = nat
  /** The `_id` of a Movie document; a fresh one is drawn for every created Movie. */
  type MovieId = nat

  /** A Movie document. `poster` may hold `null` before validation. */
  datatype Movie = Movie(
    id: MovieId,
    title: string,
    year: string,
    poster: Option<string>,
    imdbID: string,
    savedBy: seq<UserId>)

  /** Which paths the schema marks required. The repository's schema requires
      the poster; `PosterOptional` is the schema the save handler evidently
      expects, since it stores `poster || null`. */
  datatype Schema = Schema(posterRequired: bool)

  const AsWritten: Schema := Schema(true)
  const PosterOptional: Schema := Schema(false)

  const TitleRequired: string := "Movie title is required"
  const YearRequired: string := "Movie year is required"
  const PosterRequired: string := "Movie poster URL is required"
  const ImdbIDRequired: string := "IMDb ID is required"

  /** The messages of the schema's required paths. */
  const SchemaMessages: seq<string> := [TitleRequired, YearRequired, PosterRequired, ImdbIDRequired]

  /** A `required` String path accepts a present, non-empty string. */
  predicate IsValid(schema: Schema, m: Movie) {
    && m.title != ""
    && m.year != ""
    && (schema.posterRequired ==> Truthy(m.poster))
    && m.imdbID != ""
  }

  /** The messages of a failed validation, one per missing path. */
  function ValidationErrors(schema: Schema, m: Movie): (errs: seq<string>)
    ensures errs == [] <==> IsValid(schema, m)
    ensures TitleRequired in errs <==> m.title == ""
    ensures YearRequired in errs <==> m.year == ""
    ensures PosterRequired in errs <==> schema.posterRequired && !Truthy(m.poster)
    ensures ImdbIDRequired in errs <==> m.imdbID == ""
    // no other message, and none twice
    ensures forall e | e in errs :: e in SchemaMessages
    ensures NoDuplicates(errs)
  {
    MissingMessagesNamePaths(schema, m);
    MissingMessagesDistinct(schema, m);
    MissingMessages(schema, m)
  }

  /** One message per missing path, in the schema's path order. */
  function MissingMessages(schema: Schema, m: Movie): seq<string> {
    (if m.title == "" then [TitleRequired] else [])
    + (if m.year == "" then [YearRequired] else [])
    + (if schema.posterRequired && !Truthy(m.poster) then [PosterRequired] else [])
    + (if m.imdbID == "" then [ImdbIDRequired] else [])
  }

  lemma MissingMessagesNamePaths(schema: Schema, m: Movie)
    ensures MissingMessages(schema, m) == [] <==> IsValid(schema, m)
    ensures TitleRequired in MissingMessages(schema, m) <==> m.title == ""
    ensures YearRequired in MissingMessages(schema, m) <==> m.year == ""
    ensures PosterRequired in MissingMessages(schema, m) <==> schema.posterRequired && !Truthy(m.poster)
    ensures ImdbIDRequired in MissingMessages(schema, m) <==> m.imdbID == ""
    ensures forall e | e in MissingMessages(schema, m) :: e in SchemaMessages
  {
  }

  lemma MissingMessagesDistinct(schema: Schema, m: Movie)
    ensures NoDuplicates(MissingMessages(schema, m))
  {
  }

  /** The `Movie` constructor: the `trim` setter applies to the title. */
  function NewMovie(id: MovieId, title: string, year: string, poster: Option<string>, imdbID: string, savedBy: seq<UserId>): Movie {
    Movie(id, Trim(title), year, poster, imdbID, savedBy)
  }

  /** A created Movie fails on its title exactly when the given title is blank:
      the `trim` setter runs before the required check. */
  lemma NewMovieTitleCheck(schema: Schema, id: MovieId, title: string, year: string, poster: Option<string>, imdbID: string, savedBy: seq<UserId>)
    ensures TitleRequired in ValidationErrors(schema, NewMovie(id, title, year, poster, imdbID, savedBy)) <==>
      forall k | 0 <= k < |title| :: IsWhitespace(title[k])
  {
    TrimEmptyIffBlank(title);
  }

  /** A created Movie is valid iff its title is not blank and the year, the
      imdbID and, when the schema requires it, the poster are present. */
  lemma NewMovieValidIff(schema: Schema, id: MovieId, title: string, year: string, poster: Option<string>, imdbID: string, savedBy: seq<UserId>)
    ensures IsValid(schema, NewMovie(id, title, year, poster, imdbID, savedBy)) <==>
      && (exists k | 0 <= k < |title| :: !IsWhitespace(title[k]))
      && year != "" && imdbID != ""
      && (schema.posterRequired ==> Truthy(poster))
  {
    TrimEmptyIffBlank(title);
  }

  /** The unique index on `imdbID`. */
  predicate UniqueImdbIDs(c: seq<Movie>) {
    forall i, j | 0 <= i < |c| && 0 <= j < |c| && i != j :: c[i].imdbID != c[j].imdbID
  }

  /** The compound unique index on (`imdbID`, `savedBy`): no (imdbID, user) key
      occurs at two positions of the collection. */
  predicate UniqueSaverPairs(c: seq<Movie>) {
    forall i, a, j, b |
      && 0 <= i < |c| && 0 <= a < |c[i].savedBy|
      && 0 <= j < |c| && 0 <= b < |c[j].savedBy|
      && (i != j || a != b)
      :: c[i].imdbID != c[j].imdbID || c[i].savedBy[a] != c[j].savedBy[b]
  }

  /** Every document of the collection passes validation, and both unique indexes hold. */
  predicate CollectionValid(schema: Schema, c: seq<Movie>) {
    && (forall i | 0 <= i < |c| :: IsValid(schema, c[i]))
    && UniqueImdbIDs(c)
    && UniqueSaverPairs(c)
  }

  /** Given a unique `imdbID`, the pair index says no more than "no user occurs
      twice in one Movie's `savedBy`". */
  lemma SaverPairsArePerMovie(c: seq<Movie>)
    requires UniqueImdbIDs(c)
    ensures UniqueSaverPairs(c) <==> forall i | 0 <= i < |c| :: NoDuplicates(c[i].savedBy)
  {
    if UniqueSaverPairs(c) {
      forall i | 0 <= i < |c| ensures NoDuplicates(c[i].savedBy) {
        forall a, b | 0 <= a < b < |c[i].savedBy| ensures c[i].savedBy[a] != c[i].savedBy[b] {
          assert i != i || a != b;
        }
      }
    }
    if forall i | 0 <= i < |c| :: NoDuplicates(c[i].savedBy) {
      forall i, a, j, b |
        && 0 <= i < |c| && 0 <= a < |c[i].savedBy|
        && 0 <= j < |c| && 0 <= b < |c[j].savedBy|
        && (i != j || a != b)
        ensures c[i].imdbID != c[j].imdbID || c[i].savedBy[a] != c[j].savedBy[b]
      {
        if i == j {
          assert NoDuplicates(c[i].savedBy);
          if a < b { } else { }
        }
      }
    }
  }
}
