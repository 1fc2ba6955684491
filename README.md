# OMDb movie search: API client and favourites store

A model in Dafny of the two non-UI parts of a browser movie-search application:

- **The OMDb client** (`OmdbApi`). It has five endpoints: `searchMovies`, `getMovieDetails`, `advancedSearch`, `searchByTitleAndYear` and `validateApiKey`. The model covers, for each endpoint:
  - the guards it checks before making any request (a missing API key; for `searchMovies`, a blank search term);
  - the exact ordered query parameters it sends, including which optional parameters JavaScript truthiness lets through;
  - the fixed failure records it answers with when the request throws.

  Each endpoint is a method. It takes the decoded reply the service would give (`Outcome`: a body, or a thrown error) as a parameter. It returns its result together with the request it issued, or `None` when it answered without asking the service.
- **The favourites store** (`FavoriteUtils`). This is one browser-storage slot holding an ordered list of movie summaries. `FavoritesStore` is a class whose `stored` field is that slot:
  - `getFavorites` and `isFavorite` are reads;
  - `addFavorite` and `removeFavorite` are methods that read the list and overwrite it.

  The pure slot transitions behind them (`AddToSlot`, `RemoveFromSlot`) carry the lemmas: idempotence, uniqueness of ids, the filter's exact contents and order, and what any sequence of calls leaves behind.
- **Two pieces of JavaScript semantics** (`JsText`):
  - `String.prototype.trim`, over the ECMAScript white-space and line-terminator set;
  - `Number.prototype.toString` for integers of magnitude up to 2^53 (the ones a JavaScript number prints digit for digit), with a parser proved to invert it.

`Wrappers` holds the `Option` type. An omitted argument (JavaScript `undefined`) is `None`. Defaults (`page = 1`, `type = 'movie'`, `plot = 'full'`) are applied with `GetOr`.

## Model

| member | source | states |
|---|---|---|
| OmdbApi.SearchMovies | src/services/omdbApi.ts:83-126 | The key is checked first, then the term. A missing key or a term that is blank after trimming gives the matching fixed failure, and no request is made. Otherwise the request is `SearchMoviesQuery` with the defaults applied. A reply is passed on unchanged, and a thrown error becomes the fixed search failure. |
| OmdbApi.SearchMoviesParams | src/services/omdbApi.ts:105-113 | The request starts with apikey, s and page. The term is sent untrimmed. The page is always sent, even 0. `type` is sent unless it is `''`. `y` is sent only for a non-empty year. No name repeats, and `type` comes before `y`. |
| OmdbApi.FailedSearch | src/services/omdbApi.ts:91-94 | The fixed failure record of a search endpoint has Response "False", the message as Error, and no hits and no result count. The same shape is returned at lines 98-101, 121-124, 220-223, 246-249, 262-265 and 283-286. |
| OmdbApi.Truthy | src/services/omdbApi.ts:112-113 | `if (x)` on an optional string passes exactly when the string is defined and non-empty, and then passes it unchanged. |
| OmdbApi.GetMovieDetails | src/services/omdbApi.ts:134-210 | Without a key there is no request, and the answer is the detail record whose Plot is the no-key message. Otherwise the request is apikey, i, plot (default full). The reply is passed on unchanged, or replaced by the record whose Plot is the fetch-failure message. |
| OmdbApi.FailedDetail | src/services/omdbApi.ts:139-166 | The fixed detail record has Response "False", the message in Plot, no ratings, and every other string field empty. |
| OmdbApi.MovieDetailsParams | src/services/omdbApi.ts:170-174 | A details request reads back the key, the id and the plot length. Names do not repeat, and the two plot lengths are sent as different words. |
| OmdbApi.AppendWhen | src/services/omdbApi.ts:232-238 | A conditional `append` adds exactly one pair at the end when the value passes, and nothing otherwise. The pairs already present are kept. |
| OmdbApi.TypeParam | src/services/omdbApi.ts:234 | `if (options.type)` passes exactly when a type other than `''` is given, and then sends its non-empty name. |
| OmdbApi.PlotParam | src/services/omdbApi.ts:236 | `if (options.plot)` passes exactly when a plot length is given, and then sends its non-empty name. |
| OmdbApi.PageParam | src/services/omdbApi.ts:237 | `if (options.page)` passes exactly when a page other than 0 is given. The text it sends reads back as that page. |
| OmdbApi.PresentContains | src/services/omdbApi.ts:232-238 | A name/value pair is sent exactly when it is one of the conditional parameters and its condition held. |
| OmdbApi.AdvancedParams | src/services/omdbApi.ts:227-238 | The seven conditional appends build exactly `AdvancedSearchQuery`: apikey, then each truthy option in the source's order. |
| OmdbApi.AdvancedSearchCandidates | src/services/omdbApi.ts:227-238 | The advanced query is the key followed by exactly those of the seven candidate parameters that carry a value, in candidate order. |
| OmdbApi.AdvancedSearch | src/services/omdbApi.ts:217-251 | Only the key is checked. With a key, a request is always made, even with no options. A thrown error becomes the fixed advanced-search failure. |
| OmdbApi.AdvancedSearchParams | src/services/omdbApi.ts:227-238 | The request starts with apikey. Each option is read back exactly when it is truthy: an undefined or empty string, the `''` type and page 0 are not sent. No name repeats. |
| OmdbApi.AdvancedSearchOrder | src/services/omdbApi.ts:232-238 | Any two options that are both sent appear in the order s, i, type, y, plot, page, callback, after apikey. |
| OmdbApi.SearchByTitleAndYear | src/services/omdbApi.ts:259-288 | Only the key is checked, so a blank title is still sent. The request is apikey, t, then y when truthy. A thrown error becomes the fixed title/year failure. |
| OmdbApi.TitleAndYearParams | src/services/omdbApi.ts:269-275 | The title is sent untrimmed. The request has 3 pairs when a non-empty year is given and 2 otherwise, with no repeated name. |
| OmdbApi.ValidateApiKey | src/services/omdbApi.ts:294-306 | No key means false and no request. Otherwise the probe apikey + s=test is sent, and the result is true exactly when the probe succeeded and its reply accepts the key. |
| OmdbApi.KeyAcceptedExactly | src/services/omdbApi.ts:301 | A reply rejects the key only in two cases: it is the "Invalid API key!" failure, or its Response is neither "True" nor "False". |
| JsText.BlankIffAllTrimmable | src/services/omdbApi.ts:97 | Trimming leaves nothing exactly when every character is ECMAScript white space or a line terminator. `""`, `"   "` and a term of tabs and line breaks are therefore blank. |
| JsText.TrimStartIsSuffix | src/services/omdbApi.ts:97 | Trimming the start drops only leading white space and keeps a suffix of the text. |
| JsText.Trim | src/services/omdbApi.ts:97 | `trim()` returns the slice of the term between a prefix and a suffix made only of white space and line terminators. Unless the result is empty, it begins and ends with a character that is neither. |
| JsText.IsBlank | src/services/omdbApi.ts:97 | `!searchTerm.trim()` holds exactly when every character of the term is ECMAScript white space or a line terminator. |
| JsText.IntToDecimalRoundTrip | src/services/omdbApi.ts:108 | The decimal text of an integer page reads back as that integer, so different pages are sent as different text. |
| FavoriteUtils.ReadSlot | src/utils/favoriteUtils.ts:16-17 | Reading the slot gives the list last written, or no favourites when nothing is stored. |
| FavoriteUtils.RemoveFromSlot | src/utils/favoriteUtils.ts:38-41 | `removeFavorite` always writes the slot. The written list holds exactly the stored entries whose id differs, and it is no longer than before. |
| FavoriteUtils.FavoritesStore.GetFavorites | src/utils/favoriteUtils.ts:15-18 | An empty slot reads as no favourites. |
| FavoriteUtils.FavoritesStore.IsFavorite | src/utils/favoriteUtils.ts:49-52 | True exactly when some stored entry has the id. |
| FavoriteUtils.FavoritesStore.AddFavorite | src/utils/favoriteUtils.ts:24-32 | The new slot is `AddToSlot` of the old one. Afterwards the id is a favourite. If the id was already stored, nothing is written. Otherwise the list is the old list with the movie appended. Distinct ids stay distinct. |
| FavoriteUtils.FavoritesStore.RemoveFavorite | src/utils/favoriteUtils.ts:38-42 | The slot is always written with the old list filtered by id. Afterwards the id is not a favourite, the list is no longer than before, and distinct ids stay distinct. |
| FavoriteUtils.HasId | src/utils/favoriteUtils.ts:51 | `some` by id holds exactly when an entry at some position has that id. |
| FavoriteUtils.WithoutId | src/utils/favoriteUtils.ts:40 | `filter` by id keeps exactly the entries whose id differs and never lengthens the list. |
| FavoriteUtils.WithoutIdAppend | src/utils/favoriteUtils.ts:40 | Filtering a concatenation is filtering each part, in order. |
| FavoriteUtils.WithoutIdSingle | src/utils/favoriteUtils.ts:40 | A single entry is kept exactly when its id differs. Together with `WithoutIdAppend`, this fixes the filter's result and its relative order. |
| FavoriteUtils.WithoutIdLength | src/utils/favoriteUtils.ts:40 | The filter keeps the list's length exactly when the id is not stored, and then it returns the list unchanged. |
| FavoriteUtils.WithoutIdIdempotent | src/utils/favoriteUtils.ts:40 | Filtering twice by one id is the same as filtering once. |
| FavoriteUtils.WithoutIdDistinct | src/utils/favoriteUtils.ts:40 | Filtering keeps ids pairwise distinct. |
| FavoriteUtils.WithoutIdOthers | src/utils/favoriteUtils.ts:40 | Filtering by one id does not change membership of any other id. |
| FavoriteUtils.AddMakesFavorite | src/utils/favoriteUtils.ts:28-30 | After an add, the movie's id is stored, whether or not it was appended. |
| FavoriteUtils.AddAppends | src/utils/favoriteUtils.ts:28-30 | An add keeps earlier entries in place. It grows the list by one, with the movie last, exactly when the id was absent, and changes nothing otherwise. |
| FavoriteUtils.AddIdempotent | src/utils/favoriteUtils.ts:28 | Adding the same movie twice is the same as adding it once. |
| FavoriteUtils.AddDistinct | src/utils/favoriteUtils.ts:28-30 | An add keeps ids pairwise distinct. |
| FavoriteUtils.AddOthers | src/utils/favoriteUtils.ts:28-30 | An add does not change membership of any other id. |
| FavoriteUtils.RemoveFiltered | src/utils/favoriteUtils.ts:38-41 | After a remove, the id is absent and the list is no longer. It is shorter exactly when the id was stored. An absent or empty slot reads back as empty. |
| FavoriteUtils.RemoveIdempotent | src/utils/favoriteUtils.ts:38-41 | Removing an id twice is the same as removing it once. |
| FavoriteUtils.RemoveDistinct | src/utils/favoriteUtils.ts:40 | A remove keeps ids pairwise distinct. |
| FavoriteUtils.AddThenRemove | src/utils/favoriteUtils.ts:24-41 | Adding a movie and then removing its id is the same as only removing the id. |
| FavoriteUtils.ApplyDecides | src/utils/favoriteUtils.ts:24-41 | An add of an id makes it a favourite. A remove of it makes it not one. A call for another id leaves it as it was. |
| FavoriteUtils.ReplayDistinct | src/utils/favoriteUtils.ts:24-41 | From distinct ids (for instance an empty slot), any sequence of adds and removes keeps the ids distinct. |
| FavoriteUtils.ReplayUntouched | src/utils/favoriteUtils.ts:24-52 | Calls that never name an id leave its `isFavorite` answer unchanged. |
| FavoriteUtils.ReplayLastTouch | src/utils/favoriteUtils.ts:24-52 | After any sequence of calls, `isFavorite(id)` is true exactly when the last call naming the id was an add. |

`addFavorite` never replaces a stored entry that has the same id. After `addFavorite(m)`, the list need not contain `m` itself: if an entry with `m.imdbID` but different other fields is already stored, that entry stays and `m` is not added (`AddAppends`, `AddToSlot`).

## Left out

- Network I/O: `fetch`, `response.json()`, the base URL and the query string's percent-encoding. A request is modelled as its ordered name/value pairs, and the service's decoded answer (or a thrown error) is a parameter.
- Runtime shapes of replies: TypeScript types are not checked at run time, so a reply is passed on in whatever shape the service sent. The model types it as the declared record.
- The API key comes from the build environment (`import.meta.env`). It is a parameter, and the empty string stands for an unset key.
- `console.error` logging in the error paths has no effect on results and is not modelled.
- Browser storage and JSON encoding. The slot is modelled as the list last written, assuming encoding round-trips exactly. A slot holding the empty string reads as empty, the same as an absent slot. A `setItem` failure (storage quota) is not modelled.
- Stored entries are modelled by their `MovieBasic` fields only. A caller may pass a full detail record, and `JSON.stringify` would then store its extra fields too. No property of the store depends on those extra fields.
- `getFavorites` has no handler for a slot that is not valid JSON, so reading such a slot throws. The model covers only well-formed slots.
- Concurrency and ordering: calls are modelled one at a time. Replies that arrive out of order and writes from another browser tab are not modelled.
- The user interface: pages, components, routing, theming, notifications and search debouncing are not part of this model.
- IntToDecimal: covers only integer pages of magnitude up to 2^53, which JavaScript numbers hold exactly and print digit for digit. Above 2^53 an integer either has no JavaScript number, or `toString` prints its shortest round-tripping digits padded with zeros (2^60 prints as `1152921504606847000`), while the model prints the exact digits. Exponent notation for magnitudes of 10^21 and above, fractional pages, `NaN`, the infinities and `-0` are also not covered.
- OmdbApi.ValidateApiKey: the probe URL is built by string interpolation without encoding. It is modelled as the pairs apikey and s, which matches the wire only when the key contains no character with meaning in a query string (`&`, `=`, `#`, `+`, `%`).
- OmdbApi.ProbeReply: models only the two fields validateApiKey reads. A non-string or missing field is `None`. A `null` body makes the property read throw, and that error is caught; the model treats this as the `Failure` outcome.
