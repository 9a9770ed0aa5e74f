# Saved-movie ledger of a movie-search app, in Dafny

This project models the core of a small movie-search application. The
backend offers four routes to a logged-in user:

- search finds movies through the OMDb movie database;
- save adds a movie to the user's list;
- list returns the user's saved movies;
- remove takes a movie off the user's list.

The saved movies live in a shared catalog. There is one Movie document per
IMDb id, and each document lists the users who saved it in `savedBy`. Each
User keeps the ids of their Movies in `savedMovies`. The React client keeps
a local copy of the list, searches, saves and deletes through the routes,
and shows each movie as a card with a Save button.

The model uses pure functions throughout. Each route handler is an atomic
transition `Step(store, outcome)` over an in-memory store:

- the Movie collection is a sequence in natural order, so `findOne` is the
  first match;
- every User's `savedMovies` is an entry of a map;
- a counter supplies fresh Movie ids.

The client handlers map a client state, plus the settled result of their
request, to the next state.

Modules:

- `JsValues`: optional fields, truthiness, `||`, and `String.prototype.trim`.
- `Sequences`: `$addToSet`, `$pull`, deletion at an index, first-match search.
- `MovieSchema`: the Movie document, its validation messages, its unique indexes.
- `Ledger`: the save, remove and list handlers, their response codes, and the ledger invariant.
- `LedgerInvariants`: every handler preserves the invariant.
- `LedgerProperties`: properties that span several calls.
- `MovieSearch`: the search route and its normalisation of provider hits.
- `ClientMovies`: client list entries, `isSaved`, and the filter.
- `App`: login, logout, loading, saving and deleting on the client's list.
- `MoviePage`: the search page, its save action, and the card it renders.
- `ClientSync`: the client helpers' reading of the routes' answers, and properties that span client and server.

The ledger invariant `Ledger.Valid` has these parts:

- every stored Movie passes the schema;
- `imdbID`s are unique;
- no user appears twice in one `savedBy`;
- no Movie has an empty `savedBy`;
- Movie ids are unique and below the counter;
- each `savedMovies` array has no repeats;
- `savedBy` and `savedMovies` are mutual inverses;
- every saver is a registered user;
- no `savedMovies` entry points to a missing Movie.

The schema is a parameter. `AsWritten` requires the poster, as the
repository's schema does. `PosterOptional` is the corrected schema; see
Findings.

## Model

| member | source | states |
|---|---|---|
| JsValues.Or | backend/src/routes/movies.js:112 | `a \|\| b` on string fields: the left operand when it is truthy, otherwise the right one, so `"" \|\| null` is null; the result is truthy iff either operand is |
| JsValues.Trim | backend/src/models/Movie.js:7 | the trimmed title is no longer than the input and neither starts nor ends with whitespace |
| JsValues.TrimIsTheCut | backend/src/models/Movie.js:7 | trim removes exactly the maximal whitespace prefix and suffix: the result is the input cut at the first and last non-whitespace character |
| JsValues.TrimIdempotent | backend/src/models/Movie.js:7 | trimming a trimmed title changes nothing |
| JsValues.TrimEmptyIffBlank | frontend/src/Components/Moviepage.jsx:14 | a string trims to the empty string iff every character is whitespace |
| Sequences.AddToSet | backend/src/routes/movies.js:120-124 | `$addToSet` leaves the element in the array and keeps every old element and their order as a prefix; adding an element already present is a no-op, so at most one is added and an array free of repeats stays so |
| Sequences.Pull | backend/src/routes/movies.js:224 | `pull` removes every occurrence and nothing else; with no repeats it shortens the array by one exactly when the element was there; the result is empty iff every element was the pulled one |
| Sequences.PullAppend | backend/src/routes/movies.js:224 | pulling distributes over concatenation, so the remaining savers keep their order |
| Sequences.PullUndoesAddToSet | backend/src/routes/movies.js:234-238 | `$pull` of an id just added by `$addToSet`, when it was absent before, restores the array |
| Sequences.RemoveAt | backend/src/routes/movies.js:227-228 | deleting one document closes up the others in order |
| Sequences.FindFirst | backend/src/routes/movies.js:93 | the first index whose element matches, or none iff no element matches |
| MovieSchema.ValidationErrors | backend/src/models/Movie.js:4-21 | one message per missing required path and no other message, with no repeats; the list is empty iff the document is valid |
| MovieSchema.NewMovieTitleCheck | backend/src/models/Movie.js:4-8 | a created Movie fails with the title message iff the given title is all whitespace, because the `trim` setter runs before the required check |
| MovieSchema.NewMovieValidIff | backend/src/models/Movie.js:4-21 | a created Movie is valid iff its title has a non-whitespace character, year and imdbID are non-empty, and the poster is present when the schema requires it |
| MovieSchema.SaverPairsArePerMovie | backend/src/models/Movie.js:30-31 | with unique imdbIDs, the (imdbID, user) index holds iff no Movie lists a user twice |
| Ledger.FindMovie | backend/src/routes/movies.js:93 | `findOne({ imdbID })` returns the first Movie with that id, none iff no Movie has it, and with unique ids it returns the only one |
| Ledger.LinkUser | backend/src/routes/movies.js:120-124 | only the saving user's array changes, and for a registered user it gains the Movie id with set semantics; the set of users is unchanged |
| Ledger.UnlinkUser | backend/src/routes/movies.js:234-238 | only the removing user's array changes: the Movie id is pulled from it |
| Ledger.CommitSave | backend/src/routes/movies.js:140-150 | a document that fails validation leaves the store as it was and reports the validation messages; a valid one is stored and linked from the user |
| Ledger.SaveToExisting | backend/src/routes/movies.js:104-124 | on an existing Movie the user has not saved, the user is appended as the last saver and the Movie stays where `findOne` finds it; the save is refused iff the Movie with the new saver fails re-validation, with exactly the validation messages and no change to the store |
| Ledger.SaveAsNew | backend/src/routes/movies.js:107-124 | a new Movie takes the next id, goes last, and is the one `findOne` now returns; the save is refused iff the created Movie fails validation, with exactly the validation messages and no change to the store |
| Ledger.Save | backend/src/routes/movies.js:79-157 | error paths change nothing; a missing title, year or imdbID is refused iff one is falsy; the answer is AlreadySaved iff the user is already a saver; an existing Movie gains exactly this user at the end of `savedBy` and no second Movie appears; otherwise one Movie is appended with `savedBy = [user]`, the trimmed title and `poster \|\| null`; on success the user is a saver and their array links the Movie; a first save is refused iff the created Movie fails validation, with exactly its validation messages |
| Ledger.Remove | backend/src/routes/movies.js:200-252 | error paths change nothing; Movie not found iff no Movie has the imdbID; not saved iff the user is not a saver; on success the user leaves `savedBy`, the Movie is deleted iff no saver remains (else the others stay in order), the id leaves only that user's array, and with unique ids the user is no longer a saver |
| Ledger.RemoveFrom | backend/src/routes/movies.js:223-238 | after the pull the Movie is deleted iff no saver is left, otherwise kept with the remaining savers in order; the user's array loses the Movie id; any other answer is a 500 that changes nothing |
| Ledger.RemoveFromFailsIff | backend/src/routes/movies.js:229-236 | the kept-Movie path answers 500 exactly when savers remain and the Movie without the user fails re-validation |
| Ledger.Populate | backend/src/routes/movies.js:167-170 | populate returns referenced Movies only, and when every reference resolves it returns one Movie per id in array order |
| Ledger.List | backend/src/routes/movies.js:162-195 | user not found iff the user is unregistered; `count` is the number of movies returned, at most the length of `savedMovies`; every returned record is a stored Movie's |
| Ledger.SaveResponse | backend/src/routes/movies.js:85-150 | status 201 iff saved, 400 otherwise, and a validation failure is reported with its messages joined by ". " |
| Ledger.RemoveResponse | backend/src/routes/movies.js:208-251 | 200 iff removed, 404 iff the Movie is not found, 400 iff the user had not saved it |
| LedgerInvariants.AppendSaverKeepsValid | backend/src/routes/movies.js:104-124 | appending a new saver and linking the Movie from that saver keeps the ledger invariant |
| LedgerInvariants.CreateMovieKeepsValid | backend/src/routes/movies.js:108-124 | creating a Movie for a fresh imdbID, saved by one registered user, keeps the ledger invariant |
| LedgerInvariants.SavePreservesValid | backend/src/routes/movies.js:79-157 | every save by a registered user keeps the ledger invariant: unique imdbIDs, no repeated saver, `savedBy` and `savedMovies` mutual inverses, no orphans |
| LedgerInvariants.DeleteKeepsCollection | backend/src/routes/movies.js:227-228 | deleting a Movie keeps the schema, the unique indexes and the id bookkeeping of the rest |
| LedgerInvariants.DeleteMovieKeepsValid | backend/src/routes/movies.js:224-238 | pulling the last saver, deleting the Movie and unlinking it keeps the ledger invariant |
| LedgerInvariants.DropSaverKeepsCollection | backend/src/routes/movies.js:224-231 | replacing one Movie's savers by a non-empty pulled list keeps the collection constraints |
| LedgerInvariants.DropSaverKeepsValid | backend/src/routes/movies.js:224-238 | pulling one of several savers and unlinking the Movie keeps the ledger invariant |
| LedgerInvariants.RemovePreservesValid | backend/src/routes/movies.js:200-252 | every remove, by anyone, keeps the ledger invariant |
| LedgerProperties.SaveTwiceIsAlreadySaved | backend/src/routes/movies.js:95-102 | repeating a successful save is refused as AlreadySaved and changes nothing, so `savedBy` keeps its length |
| LedgerProperties.SaveRejectsOnlyOnCreate | backend/src/routes/movies.js:104-106 | under the invariant, re-validating an existing Movie never fails: only creation can be rejected |
| LedgerProperties.RemoveNeverFailsValidation | backend/src/routes/movies.js:229-231 | under the invariant, remove never reaches its 500 answer |
| LedgerProperties.SaveAppendStep | backend/src/routes/movies.js:104-124 | on an existing Movie not yet saved by the user, save succeeds, appends the user, links the Movie, draws no new id, and `findOne` still finds the Movie at the same place |
| LedgerProperties.SaveCreateStep | backend/src/routes/movies.js:108-124 | for a new imdbID with a valid body, save appends the created Movie, links it, and draws the next id |
| LedgerProperties.RemoveKeepStep | backend/src/routes/movies.js:224-238 | removing one of several savers keeps the Movie in place with the others |
| LedgerProperties.RemoveLastStep | backend/src/routes/movies.js:224-238 | removing the last saver deletes the Movie, and `findOne` no longer finds its imdbID |
| LedgerProperties.RemoveUndoesSave | backend/src/routes/movies.js:79-252 | a remove right after a successful save by the same registered user returns the ledger to its previous state, apart from a used-up id |
| LedgerProperties.RemoveTwiceIsRefused | backend/src/routes/movies.js:206-221 | after a successful remove, removing again is refused and changes nothing |
| LedgerProperties.ListShowsSavedMovies | backend/src/routes/movies.js:162-195 | under the invariant, a registered user's list holds a Movie's record iff the user is among its savers, and the count equals the length of `savedMovies` |
| LedgerProperties.ListedIffLinked | backend/src/routes/movies.js:166-184 | with unique Movie ids and no dangling reference, a Movie's record is listed iff the user's array references it, and `count` is the length of that array |
| LedgerProperties.SharedMovieWalkthrough | backend/src/routes/movies.js:79-252 | A saves a new movie, then B saves it (`savedBy = [A, B]`, still one Movie); A removes it (`[B]`, kept in place); B removes it (deleted, and the collection is as before) |
| LedgerProperties.PosterlessFirstSaveRejected | backend/src/routes/movies.js:112 | with the schema as written, the first save of a movie without a poster is refused with exactly the poster message and stores nothing |
| LedgerProperties.BlankTitleRejected | backend/src/models/Movie.js:4-8 | a whitespace-only title passes the handler's check but is trimmed to empty, so creation is refused with the title message and nothing changes |
| LedgerProperties.PosterOptionalSaveSucceeds | backend/src/routes/movies.js:108-124 | with the poster optional and under the ledger invariant, every save whose title has a non-whitespace character and whose year and imdbID are present, by a registered user who has not saved that movie, succeeds, and the user then holds the movie |
| MovieSearch.NormalizePoster | backend/src/routes/movies.js:46 | the poster is null iff the provider says "N/A", and is otherwise copied verbatim |
| MovieSearch.Normalize | backend/src/routes/movies.js:43-48 | title, year and imdbID are copied, and no result carries an "N/A" poster |
| MovieSearch.NormalizeAll | backend/src/routes/movies.js:43-48 | one result per hit, in the provider's order |
| MovieSearch.DenormalizeNormalize | backend/src/routes/movies.js:43-48 | normalisation loses nothing: the provider's hit is recovered from its result |
| MovieSearch.NormalizeDenormalize | backend/src/routes/movies.js:46 | a result is a normalised hit iff its poster is not the literal "N/A" |
| MovieSearch.NormalizeInjective | backend/src/routes/movies.js:43-48 | two hits have the same result iff they are the same hit |
| MovieSearch.DenormalizeAllNormalizeAll | backend/src/routes/movies.js:43-48 | the whole hit array round-trips |
| MovieSearch.HandleSearch | backend/src/routes/movies.js:15-74 | missing title iff the title is falsy, whatever the provider would answer; found iff the provider answers with a `Search` array and not `Response: "False"`, giving its hits normalised in order plus `totalResults`; no movies iff `Response` is "False", with the provider's error or a non-empty default; a bad key iff the provider answers 401 |
| MovieSearch.SearchResponse | backend/src/routes/movies.js:19-73 | 200 iff found, 404 iff no movies (with that message), 400 iff the title is missing or the key is bad, 500 iff any other failure |
| ClientMovies.IsSaved | frontend/src/Components/Moviepage.jsx:58 | `some(m => m.imdbID === id)` holds iff some entry has that id |
| ClientMovies.IsSavedIffInIds | frontend/src/App.jsx:55 | the same test read as membership in the set of saved ids |
| ClientMovies.WithoutId | frontend/src/App.jsx:70-72 | the filter keeps only entries of the list, none with the id, every entry with another id, and the list itself when the id is absent |
| ClientMovies.WithoutIdAppend | frontend/src/App.jsx:71 | the filter distributes over concatenation, so the kept entries keep their order |
| ClientMovies.WithoutIdIds | frontend/src/App.jsx:70-72 | the filter removes exactly that id from the set of ids |
| ClientMovies.WithoutIdKeepsDistinct | frontend/src/App.jsx:70-72 | a list without repeated ids keeps that property across the filter |
| App.LoadSaved | frontend/src/App.jsx:27-36 | a successful reply replaces the list by `data.movies \|\| []`; a failed reply, or one whose missing `data` makes `.movies` throw, leaves the state as it was |
| App.HandleLogin | frontend/src/App.jsx:38-42 | the session is logged in as the given user and the list stays until it is reloaded |
| App.HandleLogout | frontend/src/App.jsx:44-49 | the user is cleared, the session is logged out, and no movie counts as saved |
| App.HandleSaveMovie | frontend/src/App.jsx:51-61 | existing entries keep their order as a prefix; the movie is appended iff no entry has its imdbID, else nothing changes |
| App.HandleDeleteMovie | frontend/src/App.jsx:63-79 | on a successful remove no entry keeps the id and every other entry stays; otherwise the state is unchanged |
| App.SaveMovieIds | frontend/src/App.jsx:54-60 | after a save the set of saved ids is the old set plus the movie's id |
| App.SaveMovieIdempotent | frontend/src/App.jsx:54-60 | saving the same movie twice equals saving it once |
| App.SaveMovieKeepsDistinct | frontend/src/App.jsx:54-60 | a list without repeated imdbIDs keeps that property across a save |
| App.DeleteMovieIds | frontend/src/App.jsx:68-72 | a successful delete removes exactly that id from the set of saved ids |
| App.DeleteUndoesSave | frontend/src/App.jsx:51-72 | deleting a just-saved movie that was not saved before restores the list exactly |
| App.DeleteKeepsOrder | frontend/src/App.jsx:70-72 | deleting from a list made of two parts deletes from each part and keeps their order |
| App.LogoutIsolatesSessions | frontend/src/App.jsx:38-49 | a login right after a logout starts with an empty list; what fills it next is whichever list load settles |
| App.LateLoadCrossesSessions | frontend/src/App.jsx:27-49 | a list load begun before a logout and settling after it shows the previous user's movies to the next user, and a failed load of the next user leaves them there |
| MoviePage.StartSearch | frontend/src/Components/Moviepage.jsx:13-16 | a whitespace-only query does nothing; any other query sets loading and clears the error |
| MoviePage.FinishSearch | frontend/src/Components/Moviepage.jsx:18-33 | loading ends; success shows `data.movies \|\| []`; failure empties the grid and shows the message or "No results found"; a throw empties it and shows the connection message |
| MoviePage.HandleSearch | frontend/src/Components/Moviepage.jsx:13-34 | a blank query leaves the page unchanged; otherwise loading ends and no error shows iff the search succeeded with data |
| MoviePage.NormalizeForParent | frontend/src/Components/Moviepage.jsx:43-48 | keeps the imdbID, prefers the lower-case title and year when truthy, and sets `Poster` to the lower-case poster when truthy, else the capitalised one when truthy, else "" |
| MoviePage.HandleSave | frontend/src/Components/Moviepage.jsx:36-56 | the parent is handed the normalised movie iff the save succeeded; a refused save shows the reply's message when truthy, else "Failed to save movie"; a thrown error shows the retry message |
| MoviePage.PosterSource | frontend/src/Components/Moviepage.jsx:86-90 | the first truthy poster field when it is not "N/A", otherwise the placeholder URL; never empty and never "N/A" |
| MoviePage.DisplayTitle | frontend/src/Components/Moviepage.jsx:102 | the lower-case title when truthy, otherwise the capitalised one |
| MoviePage.DisplayYear | frontend/src/Components/Moviepage.jsx:103 | the lower-case year when truthy, otherwise the capitalised one |
| MoviePage.SaveButton | frontend/src/Components/Moviepage.jsx:104-110 | the button is disabled iff some saved entry has the movie's imdbID, and reads "Saved" iff disabled, "Save" otherwise |
| MoviePage.NormalizeKeepsCard | frontend/src/Components/Moviepage.jsx:43-48 | the movie handed to the parent renders the same poster, title and year as the original |
| MoviePage.NormalizeIdempotent | frontend/src/Components/Moviepage.jsx:43-48 | normalising twice equals normalising once |
| MoviePage.SentQueriesAreTruthy | frontend/src/Components/Moviepage.jsx:14 | every query the page sends is non-empty, so it passes the search route's title check |
| ClientSync.ListReply | frontend/src/services/api.js:143-157 | the client sees success iff the list route answered with movies, and then those records |
| ClientSync.SearchReply | frontend/src/services/api.js:104-118 | the client sees success iff the search found movies, and then those results; otherwise the route's message |
| ClientSync.SaveRequestFor | frontend/src/services/api.js:121-128 | the posted title, year and poster are the capitalised field when it is truthy, else the lower-case one, and the imdbID is passed on |
| ClientSync.LoadedListMatchesLedger | frontend/src/App.jsx:29-31 | once the saved list arrives, the client shows a movie as saved iff the server lists the user among that Movie's savers |
| ClientSync.PageShowsProviderHits | frontend/src/Components/Moviepage.jsx:20-23 | a non-blank query answered with hits shows exactly those hits, normalised and in order, with no error |
| ClientSync.PageShowsNoMovies | frontend/src/Components/Moviepage.jsx:24-27 | when the provider finds nothing, the grid is emptied and shows the provider's error or "No movies found" |
| ClientSync.SavedMovieDisablesButton | frontend/src/Components/Moviepage.jsx:41-49 | after a successful save from the page, that movie's Save button is disabled |
| ClientSync.PosterlessHitCannotBeSaved | backend/src/routes/movies.js:112 | a search hit whose provider poster is "N/A", saved by the first user, is refused with the poster message under the schema as written |

## Left out

- I/O is out of scope: HTTP, Express routing, MongoDB persistence and the OMDb request itself. The provider's answer is a parameter of `MovieSearch.HandleSearch`. Every client handler takes the settled result of its request as a parameter.
- Concurrency is out of scope. Each handler is one atomic step. The model does not cover the race between two first saves of one imdbID, or the gap between the Movie write and the User write. The repository's code has no retry for a lost create race, so none is modelled.
- App.LogoutIsolatesSessions: holds only when no list load started before the logout settles after it. The client does not tie a load to the session that started it, so such a late reply refills the next session's list; `App.LateLoadCrossesSessions` states this. Interleavings of client requests are otherwise not modelled.
- MovieSchema.ValidationErrors: the model lists the messages in the schema's path order, but its contract does not promise an order. The order of `error.errors` comes from Mongoose, not from the repository's code.
- Authentication, the User model and `authAPI` are out of scope; a user is an abstract id. The auth middleware is not part of this model.
- `LedgerInvariants.SavePreservesValid` requires a registered user. `findByIdAndUpdate` without upsert does nothing for an unknown id, so a save by an unregistered user would break the inverse property. The middleware that rules this out is not part of this model.
- `_id` generation is modelled by a counter. The `createdAt`/`updatedAt` timestamps are not modelled.
- The 500 answers of list, and those of save other than a validation failure, come from exceptions the model does not raise. These are storage failures, and for save also a malformed body (see the next line). So the model has no such outcome. Remove's 500 after a failed re-validation is modelled; `LedgerProperties.RemoveNeverFailsValidation` shows it cannot happen under the invariant.
- The save body's `title`, `year`, `poster` and `imdbID` are modelled as strings or absent (`null` is absent). A JSON body can carry other values, and none of these cases is modelled. `0` and `false` are falsy, so the required-fields check answers them with 400 like an absent field. Mongoose casts a number or a boolean `imdbID` to its string, so `findOne` looks that string up and a created Movie stores it. An array becomes an `$in` query and an operator object such as `{"$ne": ""}` is passed through, so `findOne` can match an unrelated Movie, which the user is then added to. A plain object without operator keys fails the cast, so `findOne` throws and the handler answers 500.
- `MovieSchema.UniqueSaverPairs`: MongoDB's unique multikey index does not itself forbid one document from repeating a user in `savedBy`. The model reads the index per position. The save handler's `includes` check keeps the stronger form either way.
- The search route answers an OMDb 401 with 400 "Invalid OMDb API key", and any other provider failure with 500. The model follows the code.
- The client's mount effect, which restores a stored session, is not modelled separately. It is `App.HandleLogin` with the stored user followed by `App.LoadSaved`.
- The api.js 401 interceptor, which clears storage and redirects, is left out. So are the `localStorage` token handling and the console logging.
- UI rendering is left out: the Navbar, the ErrorBoundary, the saved-movies page and the image `onError` fallback. The saved-movies page's poster rule is the same as `MoviePage.PosterSource`.
- JavaScript values are modelled in a simplified way. `undefined` and `null` are both `None`. A query parameter is a string or absent; Express can also deliver arrays, which are not modelled. Client entries always carry an `imdbID`.

## Findings

| source | as written | input that shows it | evidently intended | confidence | as-written member | corrected member |
|---|---|---|---|---|---|---|
| backend/src/models/Movie.js:13-16 with backend/src/routes/movies.js:112 | the save handler stores `poster: poster \|\| null`, but the schema marks `poster` required, so creation fails with "Movie poster URL is required" | a first save of a movie whose OMDb poster is "N/A": search turns it into `null`, and the save request then has no poster | a movie without a poster can be saved, with a null poster | medium, not executed | LedgerProperties.PosterlessFirstSaveRejected | LedgerProperties.PosterOptionalSaveSucceeds |
