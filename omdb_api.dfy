/**
 * The OMDb client: for each endpoint, the guards it checks before any
 * request, the ordered query parameters it sends, and the fixed records it
 * answers with when it cannot ask the service.
 *
 * The network is abstracted: an endpoint method takes as a parameter the
 * `Outcome` the service would produce for its request (`fetch` followed by
 * `response.json()`), and returns, beside its result, the request it issued
 * (`None` when it answered without contacting the service).
 */
module OmdbApi {
  import opened Wrappers
  import opened JsText

  /** A search hit. The field names are the service's JSON keys. */
  datatype MovieBasic = MovieBasic(imdbID: string, Title: string, Year: string, Type: string, Poster: string)

  datatype Rating = Rating(Source: string, Value: string)

  /** The record the service returns for a lookup by id. */
  datatype MovieDetailed = MovieDetailed(
    imdbID: string, Title: string, Year: string, Type: string, Poster: string,
    Rated: string, Released: string, Runtime: string, Genre: string, Director: string,
    Writer: string, Actors: string, Plot: string, Language: string, Country: string,
    Awards: string, Ratings: seq<Rating>, Metascore: string, imdbRating: string,
    imdbVotes: string, DVD: string, BoxOffice: string, Production: string,
    Website: string, Response: string)

  /** The reply to a search; `Search`, `totalResults` and `Error` may be missing. */
  datatype SearchResult = SearchResult(
    Search: Option<seq<MovieBasic>>, totalResults: Option<string>, Response: string, Error: Option<string>)

  /** advancedSearch and searchByTitleAndYear pass on whichever shape the service sent. */
  datatype Reply = SearchReply(result: SearchResult) | DetailReply(detail: MovieDetailed)

  /**
   * The two fields validateApiKey reads from the probe's JSON body;
   * `None` stands for a missing field or one that is not a string.
   */
  datatype ProbeReply = ProbeReply(Response: Option<string>, Error: Option<string>)

  /** The `type` filter: 'movie', 'series', 'episode' or '' (no filter). */
  datatype SearchType = Movie | Series | Episode | AnyType

  datatype PlotLength = Short | Full

  /** The options of advancedSearch; `None` is a property left undefined. */
  datatype SearchOptions = SearchOptions(
    title: Option<string>, imdbID: Option<string>, searchType: Option<SearchType>,
    year: Option<string>, plot: Option<PlotLength>, page: Option<int>, callback: Option<string>)

  /** What `fetch` then `response.json()` yield: a decoded body, or a thrown error. */
  datatype Outcome<T> = Success(body: T) | Failure

  /** Query parameters as the ordered name/value pairs of a `URLSearchParams`. */
  type Query = seq<(string, string)>

  const NoApiKeyMessage := "No API key provided. Please add your OMDB API key."
  const EmptyTermMessage := "Please enter a search term"
  const SearchFailedMessage := "Failed to fetch movies. Please try again later."
  const DetailsFailedMessage := "Failed to fetch movie details. Please try again later."
  const AdvancedFailedMessage := "Failed to perform search. Please try again later."
  const TitleAndYearFailedMessage := "Failed to fetch movie. Please try again later."
  const InvalidKeyError := "Invalid API key!"

  const DefaultPage := 1
  const DefaultSearchType := Movie
  const DefaultPlot := Full

  function SearchTypeName(t: SearchType): string {
    match t
    case Movie => "movie"
    case Series => "series"
    case Episode => "episode"
    case AnyType => ""
  }

  function PlotName(p: PlotLength): string {
    match p
    case Short => "short"
    case Full => "full"
  }

  /** `if (x)` on an optional string: defined and non-empty. */
  function Truthy(x: Option<string>): (r: Option<string>)
    ensures r.Some? <==> x.Some? && x.value != ""
    ensures r.Some? ==> r == x
  {
    if x.Some? && x.value != "" then x else None
  }

  // ---------------------------------------------------------------------------
  // Fixed answers

  /** The failure record a search endpoint answers with: no hits, no count, and the message as the error. */
  function FailedSearch(message: string): (r: SearchResult)
    ensures r.Response == "False" && r.Error == Some(message)
    ensures r.Search == None && r.totalResults == None
  {
    SearchResult(None, None, "False", Some(message))
  }

  /** The string fields of a detail record other than `Response` and `Plot`. */
  function InformationalFields(d: MovieDetailed): seq<string> {
    [d.imdbID, d.Title, d.Year, d.Type, d.Poster, d.Rated, d.Released, d.Runtime,
     d.Genre, d.Director, d.Writer, d.Actors, d.Language, d.Country, d.Awards,
     d.Metascore, d.imdbRating, d.imdbVotes, d.DVD, d.BoxOffice, d.Production, d.Website]
  }

  /** The detail record getMovieDetails answers with when it cannot ask the service. */
  function FailedDetail(message: string): (r: MovieDetailed)
    ensures r.Response == "False" && r.Plot == message && r.Ratings == []
    ensures forall k :: 0 <= k < |InformationalFields(r)| ==> InformationalFields(r)[k] == ""
  {
    MovieDetailed("", "", "", "", "", "", "", "", "", "", "", "", message, "", "", "",
                  [], "", "", "", "", "", "", "", "False")
  }

  // ---------------------------------------------------------------------------
  // Conditional parameters

  /**
   * The optional parameters of an endpoint, in the order its code appends them,
   * each with the value it appends or `None` when its condition is falsy.
   */
  type Candidates = seq<(string, Option<string>)>

  /** The parameters actually appended: the candidates that carry a value, in order. */
  function Present(c: Candidates): Query
    decreases |c|
  {
    if c == [] then []
    else (if c[0].1.Some? then [(c[0].0, c[0].1.value)] else []) + Present(c[1..])
  }

  /** One conditional `append`: the pair when its condition held, nothing otherwise. */
  function Opt(name: string, value: Option<string>): Query {
    if value.Some? then [(name, value.value)] else []
  }

  /**
   * `if (value) params.append(name, value)`: the pair is added at the end when
   * the (already truthiness-tested) value is present, and nothing otherwise.
   */
  method AppendWhen(params: Query, name: string, value: Option<string>) returns (r: Query)
    ensures r == params + Opt(name, value)
    ensures |r| == |params| + (if value.Some? then 1 else 0) && r[..|params|] == params
  {
    r := params;
    if value.Some? {
      r := r + [(name, value.value)];
    }
  }

  /** `params.get(name)`: the value of the first pair with that name. */
  function Lookup(q: Query, name: string): Option<string>
    decreases |q|
  {
    if q == [] then None else if q[0].0 == name then Some(q[0].1) else Lookup(q[1..], name)
  }

  /** Position of the first pair with that name; `|q|` when there is none. */
  function IndexOfName(q: Query, name: string): (i: nat)
    ensures i <= |q|
    decreases |q|
  {
    if q == [] then 0 else if q[0].0 == name then 0 else 1 + IndexOfName(q[1..], name)
  }

  predicate DistinctNames(q: Query) {
    forall i, j :: 0 <= i < j < |q| ==> q[i].0 != q[j].0
  }

  predicate DistinctCandidates(c: Candidates) {
    forall i, j :: 0 <= i < j < |c| ==> c[i].0 != c[j].0
  }

  /** A pair is sent exactly when it is a candidate whose condition held. */
  lemma {:induction false} PresentContains(c: Candidates, name: string, value: string)
    ensures (name, value) in Present(c) <==> (name, Some(value)) in c
    decreases |c|
  {
    if c != [] {
      PresentContains(c[1..], name, value);
      var first: Query := if c[0].1.Some? then [(c[0].0, c[0].1.value)] else [];
      assert Present(c) == first + Present(c[1..]);
      assert (name, value) in Present(c) <==> (name, value) in first || (name, value) in Present(c[1..]);
      assert c == [c[0]] + c[1..];
      assert (name, Some(value)) in c <==> c[0] == (name, Some(value)) || (name, Some(value)) in c[1..];
    }
  }

  /** The parameters after the first candidate's are those of the remaining candidates. */
  lemma PresentUnfold(c: Candidates)
    requires c != []
    ensures c[0].1.Some? ==> Present(c) == [(c[0].0, c[0].1.value)] + Present(c[1..])
    ensures c[0].1.None? ==> Present(c) == Present(c[1..])
  {
  }

  /** Appending candidates appends their parameters. */
  lemma {:induction false} PresentAppend(a: Candidates, b: Candidates)
    ensures Present(a + b) == Present(a) + Present(b)
    decreases |a|
  {
    if a != [] {
      assert (a + b)[0] == a[0] && (a + b)[1..] == a[1..] + b;
      PresentAppend(a[1..], b);
    } else {
      assert a + b == b;
    }
  }

  /** `PresentAppend` behind a fixed prefix, grouped as successive appends are. */
  lemma HeadPresentAppend(head: Query, a: Candidates, b: Candidates)
    ensures head + Present(a + b) == head + Present(a) + Present(b)
  {
    PresentAppend(a, b);
  }

  /** A single candidate sends its parameter exactly when it carries a value. */
  lemma PresentOne(x: (string, Option<string>))
    ensures Present([x]) == Opt(x.0, x.1)
  {
  }

  /** Each sent pair comes from a candidate: its name is that candidate's and its value the one the candidate carries. */
  lemma {:induction false} PresentNames(c: Candidates, k: nat)
    requires k < |Present(c)|
    ensures exists i :: 0 <= i < |c| && c[i] == (Present(c)[k].0, Some(Present(c)[k].1))
    decreases |c|
  {
    var p := Present(c);
    assert c != [];
    PresentUnfold(c);
    if c[0].1.Some? && k == 0 {
      assert c[0] == (p[0].0, Some(p[0].1));
    } else {
      var k' := if c[0].1.Some? then k - 1 else k;
      assert p[k] == Present(c[1..])[k'];
      PresentNames(c[1..], k');
      var i :| 0 <= i < |c[1..]| && c[1..][i] == (p[k].0, Some(p[k].1));
      assert c[i + 1] == c[1..][i];
    }
  }

  /** Dropping the first candidate keeps the remaining names distinct. */
  lemma DistinctTail(c: Candidates)
    requires c != [] && DistinctCandidates(c)
    ensures DistinctCandidates(c[1..])
    ensures forall i :: 0 <= i < |c[1..]| ==> c[1..][i].0 != c[0].0
  {
  }

  /** Distinct candidate names give distinct parameter names. */
  lemma {:induction false} PresentDistinct(c: Candidates)
    requires DistinctCandidates(c)
    ensures DistinctNames(Present(c))
    decreases |c|
  {
    if c != [] {
      var rest := Present(c[1..]);
      DistinctTail(c);
      PresentDistinct(c[1..]);
      PresentUnfold(c);
      if c[0].1.Some? {
        var p := Present(c);
        forall i, j | 0 <= i < j < |p| ensures p[i].0 != p[j].0 {
          if i == 0 {
            PresentNames(c[1..], j - 1);
            var m :| 0 <= m < |c[1..]| && c[1..][m] == (rest[j - 1].0, Some(rest[j - 1].1));
            assert p[j] == rest[j - 1];
          } else {
            assert p[i] == rest[i - 1] && p[j] == rest[j - 1];
          }
        }
      }
    }
  }

  /** With distinct candidate names, the value read back for a candidate's name is the candidate's value. */
  lemma {:induction false} PresentLookup(c: Candidates, k: nat)
    requires DistinctCandidates(c) && k < |c|
    ensures Lookup(Present(c), c[k].0) == c[k].1
    decreases |c|
  {
    var rest := c[1..];
    DistinctTail(c);
    PresentUnfold(c);
    if k == 0 {
      if c[0].1.None? {
        LookupAbsent(rest, c[0].0);
      }
    } else {
      assert c[k] == rest[k - 1];
      PresentLookup(rest, k - 1);
    }
  }

  /** A name that no candidate carries is never read back. */
  lemma {:induction false} LookupAbsent(c: Candidates, name: string)
    requires forall i :: 0 <= i < |c| ==> c[i].0 != name
    ensures Lookup(Present(c), name) == None
    decreases |c|
  {
    if c != [] {
      PresentUnfold(c);
      assert forall i :: 0 <= i < |c[1..]| ==> c[1..][i] == c[i + 1];
      LookupAbsent(c[1..], name);
    }
  }

  /** Parameters are appended in candidate order: an earlier candidate precedes a later one. */
  lemma {:induction false} PresentOrder(c: Candidates, i: nat, j: nat)
    requires DistinctCandidates(c) && i < j < |c|
    requires c[i].1.Some? && c[j].1.Some?
    ensures IndexOfName(Present(c), c[i].0) < IndexOfName(Present(c), c[j].0) < |Present(c)|
    decreases |c|
  {
    var rest := c[1..];
    DistinctTail(c);
    PresentUnfold(c);
    assert c[j] == rest[j - 1];
    IndexFound(rest, j - 1);
    if i > 0 {
      assert c[i] == rest[i - 1];
      PresentOrder(rest, i - 1, j - 1);
    }
  }

  /** A candidate that carries a value is found among the parameters. */
  lemma {:induction false} IndexFound(c: Candidates, k: nat)
    requires k < |c| && c[k].1.Some?
    ensures IndexOfName(Present(c), c[k].0) < |Present(c)|
    decreases |c|
  {
    PresentUnfold(c);
    if k > 0 && !(c[0].1.Some? && c[0].0 == c[k].0) {
      assert c[k] == c[1..][k - 1];
      IndexFound(c[1..], k - 1);
    }
  }

  /** With distinct names, reading a name back gives the value of the one pair carrying it. */
  lemma {:induction false} LookupUnique(q: Query, k: nat)
    requires DistinctNames(q) && k < |q|
    ensures Lookup(q, q[k].0) == Some(q[k].1)
    decreases |q|
  {
    if k > 0 {
      assert q[0].0 != q[k].0;
      assert q[k] == q[1..][k - 1];
      LookupUnique(q[1..], k - 1);
    }
  }

  /**
   * A query made of fixed leading parameters followed by conditional ones: when
   * all names differ, every name is read back as the value it was given (a
   * conditional one as `None` when its condition failed), and conditional
   * parameters come after the fixed ones in candidate order.
   */
  lemma PrefixedQuery(head: Query, c: Candidates)
    requires DistinctNames(head) && DistinctCandidates(c)
    requires forall i, k :: 0 <= i < |head| && 0 <= k < |c| ==> head[i].0 != c[k].0
    ensures DistinctNames(head + Present(c))
    ensures forall i :: 0 <= i < |head| ==> (head + Present(c))[i] == head[i]
    ensures forall i :: 0 <= i < |head| ==> Lookup(head + Present(c), head[i].0) == Some(head[i].1)
    ensures forall k :: 0 <= k < |c| ==> Lookup(head + Present(c), c[k].0) == c[k].1
  {
    var rest := Present(c);
    var q := head + rest;
    PresentDistinct(c);
    forall i, j | 0 <= i < |head| && 0 <= j < |rest| ensures head[i].0 != rest[j].0 {
      PresentNames(c, j);
    }
    DistinctAfterPrefix(head, rest);
    forall i | 0 <= i < |head| ensures Lookup(q, head[i].0) == Some(head[i].1) {
      assert q[i] == head[i];
      LookupUnique(q, i);
    }
    forall k | 0 <= k < |c| ensures Lookup(q, c[k].0) == c[k].1 {
      LookupAfterPrefix(head, rest, c[k].0);
      PresentLookup(c, k);
    }
  }

  /** In a prefixed query, a conditional parameter sent earlier in candidate order precedes a later one. */
  lemma PrefixedOrder(head: Query, c: Candidates, i: nat, j: nat)
    requires DistinctCandidates(c) && i < j < |c|
    requires forall h, k :: 0 <= h < |head| && 0 <= k < |c| ==> head[h].0 != c[k].0
    requires c[i].1.Some? && c[j].1.Some?
    ensures |head| <= IndexOfName(head + Present(c), c[i].0)
    ensures IndexOfName(head + Present(c), c[i].0) < IndexOfName(head + Present(c), c[j].0) < |head + Present(c)|
  {
    PresentOrder(c, i, j);
    IndexAfterPrefix(head, Present(c), c[i].0);
    IndexAfterPrefix(head, Present(c), c[j].0);
  }

  // ---------------------------------------------------------------------------
  // searchMovies

  function SearchMoviesCandidates(searchType: SearchType, year: Option<string>): Candidates {
    [("type", Truthy(Some(SearchTypeName(searchType)))), ("y", Truthy(year))]
  }

  /** apikey, s, page always; then type and y when truthy. */
  function SearchMoviesQuery(apiKey: string, searchTerm: string, page: int, searchType: SearchType, year: Option<string>): Query {
    [("apikey", apiKey), ("s", searchTerm), ("page", IntToDecimal(page))]
      + Opt("type", Truthy(Some(SearchTypeName(searchType)))) + Opt("y", Truthy(year))
  }

  /**
   * searchMovies: the key is checked before the term; either failing answers
   * without a request. Otherwise the service's reply is passed on unchanged, or
   * a fixed failure record replaces a transport or decoding failure.
   */
  method SearchMovies(apiKey: string, searchTerm: string, page: Option<int>, searchType: Option<SearchType>,
                      year: Option<string>, network: Outcome<SearchResult>)
    returns (result: SearchResult, request: Option<Query>)
    ensures apiKey == "" ==> request == None && result == FailedSearch(NoApiKeyMessage)
    ensures apiKey != "" && IsBlank(searchTerm) ==> request == None && result == FailedSearch(EmptyTermMessage)
    ensures apiKey != "" && !IsBlank(searchTerm) ==>
              request == Some(SearchMoviesQuery(apiKey, searchTerm, page.GetOr(DefaultPage),
                                                searchType.GetOr(DefaultSearchType), year))
    ensures request.Some? ==> result == if network.Success? then network.body else FailedSearch(SearchFailedMessage)
  {
    if apiKey == "" {
      return FailedSearch(NoApiKeyMessage), None;
    }
    if Trim(searchTerm) == "" {
      return FailedSearch(EmptyTermMessage), None;
    }
    var t := searchType.GetOr(DefaultSearchType);
    var params: Query := [("apikey", apiKey), ("s", searchTerm), ("page", IntToDecimal(page.GetOr(DefaultPage)))];
    params := AppendWhen(params, "type", Truthy(Some(SearchTypeName(t))));
    params := AppendWhen(params, "y", Truthy(year));
    request := Some(params);
    if network.Success? {
      result := network.body;
    } else {
      result := FailedSearch(SearchFailedMessage);
    }
  }

  /**
   * What the service reads from a searchMovies request: the untrimmed term,
   * the page (always sent, even 0), `type` unless it is '' and `y` when a
   * non-empty year is given; no name repeats and `type` precedes `y`.
   */
  lemma SearchMoviesParams(apiKey: string, searchTerm: string, page: int, searchType: SearchType, year: Option<string>)
    ensures var q := SearchMoviesQuery(apiKey, searchTerm, page, searchType, year);
      && q[..3] == [("apikey", apiKey), ("s", searchTerm), ("page", IntToDecimal(page))]
      && DistinctNames(q)
      && Lookup(q, "s") == Some(searchTerm)
      && Lookup(q, "page") == Some(IntToDecimal(page))
      && Lookup(q, "type") == (if searchType == AnyType then None else Some(SearchTypeName(searchType)))
      && Lookup(q, "y") == Truthy(year)
      && (searchType != AnyType && Truthy(year).Some? ==> 3 <= IndexOfName(q, "type") < IndexOfName(q, "y") < |q|)
  {
    var c := SearchMoviesCandidates(searchType, year);
    var head: Query := [("apikey", apiKey), ("s", searchTerm), ("page", IntToDecimal(page))];
    assert c == [c[0]] + [c[1]];
    PresentOne(c[0]);
    PresentOne(c[1]);
    HeadPresentAppend(head, [c[0]], [c[1]]);
    PrefixedQuery(head, c);
    assert Lookup(head + Present(c), head[1].0) == Some(head[1].1);
    assert Lookup(head + Present(c), head[2].0) == Some(head[2].1);
    assert Lookup(head + Present(c), c[0].0) == c[0].1;
    assert Lookup(head + Present(c), c[1].0) == c[1].1;
    if searchType != AnyType && Truthy(year).Some? {
      PrefixedOrder(head, c, 0, 1);
    }
  }

  /** A fixed prefix whose names are distinct and absent from the rest keeps the names distinct. */
  lemma DistinctAfterPrefix(head: Query, rest: Query)
    requires DistinctNames(head) && DistinctNames(rest)
    requires forall i, j :: 0 <= i < |head| && 0 <= j < |rest| ==> head[i].0 != rest[j].0
    ensures DistinctNames(head + rest)
  {
  }

  lemma {:induction false} LookupAfterPrefix(head: Query, rest: Query, name: string)
    requires forall i :: 0 <= i < |head| ==> head[i].0 != name
    ensures Lookup(head + rest, name) == Lookup(rest, name)
    decreases |head|
  {
    if head != [] {
      assert (head + rest)[0] == head[0];
      assert (head + rest)[1..] == head[1..] + rest;
      assert forall i :: 0 <= i < |head[1..]| ==> head[1..][i] == head[i + 1];
      LookupAfterPrefix(head[1..], rest, name);
    } else {
      assert head + rest == rest;
    }
  }

  lemma {:induction false} IndexAfterPrefix(head: Query, rest: Query, name: string)
    requires forall i :: 0 <= i < |head| ==> head[i].0 != name
    ensures IndexOfName(head + rest, name) == |head| + IndexOfName(rest, name)
    decreases |head|
  {
    if head != [] {
      assert (head + rest)[0] == head[0];
      assert (head + rest)[1..] == head[1..] + rest;
      assert forall i :: 0 <= i < |head[1..]| ==> head[1..][i] == head[i + 1];
      IndexAfterPrefix(head[1..], rest, name);
    } else {
      assert head + rest == rest;
    }
  }

  // ---------------------------------------------------------------------------
  // getMovieDetails

  function MovieDetailsQuery(apiKey: string, imdbID: string, plot: PlotLength): Query {
    [("apikey", apiKey), ("i", imdbID), ("plot", PlotName(plot))]
  }

  /**
   * getMovieDetails: without a key, answers the fixed no-key record without a
   * request; otherwise asks for apikey, i, plot (default 'full') and passes the
   * reply on unchanged, or the fixed failure record when the transport fails.
   */
  method GetMovieDetails(apiKey: string, imdbID: string, plot: Option<PlotLength>, network: Outcome<MovieDetailed>)
    returns (result: MovieDetailed, request: Option<Query>)
    ensures apiKey == "" ==> request == None && result == FailedDetail(NoApiKeyMessage)
    ensures apiKey != "" ==> request == Some(MovieDetailsQuery(apiKey, imdbID, plot.GetOr(DefaultPlot)))
    ensures request.Some? ==> result == if network.Success? then network.body else FailedDetail(DetailsFailedMessage)
  {
    if apiKey == "" {
      return FailedDetail(NoApiKeyMessage), None;
    }
    var params: Query := [("apikey", apiKey), ("i", imdbID), ("plot", PlotName(plot.GetOr(DefaultPlot)))];
    request := Some(params);
    if network.Success? {
      result := network.body;
    } else {
      result := FailedDetail(DetailsFailedMessage);
    }
  }

  /**
   * A getMovieDetails request names the id and a plot length, always; the
   * two plot lengths are sent as different words.
   */
  lemma MovieDetailsParams(apiKey: string, imdbID: string, plot: PlotLength)
    ensures var q := MovieDetailsQuery(apiKey, imdbID, plot);
      && DistinctNames(q)
      && Lookup(q, "apikey") == Some(apiKey)
      && Lookup(q, "i") == Some(imdbID)
      && Lookup(q, "plot") == Some(PlotName(plot))
    ensures forall p: PlotLength :: PlotName(p) == PlotName(plot) ==> p == plot
  {
    var q := MovieDetailsQuery(apiKey, imdbID, plot);
    assert q[1..] == [("i", imdbID), ("plot", PlotName(plot))];
    assert q[1..][1..] == [("plot", PlotName(plot))];
    assert Lookup(q[1..][1..], "plot") == Some(PlotName(plot));
    assert Lookup(q[1..], "plot") == Some(PlotName(plot));
  }

  // ---------------------------------------------------------------------------
  // advancedSearch

  /** `if (options.type)`: the filter is sent unless it is undefined or ''. */
  function TypeParam(t: Option<SearchType>): (r: Option<string>)
    ensures r.Some? <==> t.Some? && t.value != AnyType
    ensures r.Some? ==> r.value == SearchTypeName(t.value) && r.value != ""
  {
    if t.Some? && SearchTypeName(t.value) != "" then Some(SearchTypeName(t.value)) else None
  }

  /** `if (options.plot)`: both plot lengths are non-empty strings, so only undefined is falsy. */
  function PlotParam(p: Option<PlotLength>): (r: Option<string>)
    ensures r.Some? <==> p.Some?
    ensures r.Some? ==> r.value == PlotName(p.value) && r.value != ""
  {
    if p.Some? then Some(PlotName(p.value)) else None
  }

  /** `if (options.page)`: a page number is falsy when it is undefined or 0. */
  function PageParam(page: Option<int>): (r: Option<string>)
    ensures r.Some? <==> page.Some? && page.value != 0
    ensures r.Some? ==> ParseDecimal(r.value) == Some(page.value)
  {
    if page.Some? && page.value != 0 then
      IntToDecimalRoundTrip(page.value);
      Some(IntToDecimal(page.value))
    else None
  }

  const AdvancedOrder := ["s", "i", "type", "y", "plot", "page", "callback"]

  function AdvancedCandidates(o: SearchOptions): (c: Candidates)
  {
    [("s", Truthy(o.title)), ("i", Truthy(o.imdbID)), ("type", TypeParam(o.searchType)),
     ("y", Truthy(o.year)), ("plot", PlotParam(o.plot)), ("page", PageParam(o.page)),
     ("callback", Truthy(o.callback))]
  }

  /** apikey, then s, i, type, y, plot, page, callback, each only when truthy. */
  function AdvancedSearchQuery(apiKey: string, o: SearchOptions): Query {
    [("apikey", apiKey)] + Opt("s", Truthy(o.title)) + Opt("i", Truthy(o.imdbID))
      + Opt("type", TypeParam(o.searchType)) + Opt("y", Truthy(o.year)) + Opt("plot", PlotParam(o.plot))
      + Opt("page", PageParam(o.page)) + Opt("callback", Truthy(o.callback))
  }

  /** The candidates carry the names of AdvancedOrder, position by position: all distinct, none of them apikey. */
  lemma AdvancedCandidateNames(o: SearchOptions)
    ensures var c := AdvancedCandidates(o);
      && |c| == |AdvancedOrder|
      && (forall k :: 0 <= k < |c| ==> c[k].0 == AdvancedOrder[k] && c[k].0 != "apikey")
      && DistinctCandidates(c)
  {
  }

  /** The same query, as the fixed apikey followed by the candidates that carry a value. */
  lemma AdvancedSearchCandidates(apiKey: string, o: SearchOptions)
    ensures AdvancedSearchQuery(apiKey, o) == [("apikey", apiKey)] + Present(AdvancedCandidates(o))
  {
    var c0, c1, c2, c3 := ("s", Truthy(o.title)), ("i", Truthy(o.imdbID)), ("type", TypeParam(o.searchType)), ("y", Truthy(o.year));
    var c4, c5, c6 := ("plot", PlotParam(o.plot)), ("page", PageParam(o.page)), ("callback", Truthy(o.callback));
    assert AdvancedCandidates(o) == [c0] + [c1] + [c2] + [c3] + [c4] + [c5] + [c6];
    PresentOne(c0);
    PresentOne(c1);
    PresentOne(c2);
    PresentOne(c3);
    PresentOne(c4);
    PresentOne(c5);
    PresentOne(c6);
    var head: Query := [("apikey", apiKey)];
    HeadPresentAppend(head, [c0], [c1]);
    HeadPresentAppend(head, [c0] + [c1], [c2]);
    HeadPresentAppend(head, [c0] + [c1] + [c2], [c3]);
    HeadPresentAppend(head, [c0] + [c1] + [c2] + [c3], [c4]);
    HeadPresentAppend(head, [c0] + [c1] + [c2] + [c3] + [c4], [c5]);
    HeadPresentAppend(head, [c0] + [c1] + [c2] + [c3] + [c4] + [c5], [c6]);
  }

  /**
   * The parameters advancedSearch sends: apikey, then one conditional `append`
   * per option.
   */
  method AdvancedParams(apiKey: string, options: SearchOptions) returns (params: Query)
    ensures params == AdvancedSearchQuery(apiKey, options)
  {
    params := [("apikey", apiKey)];
    params := AppendWhen(params, "s", Truthy(options.title));
    params := AppendWhen(params, "i", Truthy(options.imdbID));
    params := AppendWhen(params, "type", TypeParam(options.searchType));
    params := AppendWhen(params, "y", Truthy(options.year));
    params := AppendWhen(params, "plot", PlotParam(options.plot));
    params := AppendWhen(params, "page", PageParam(options.page));
    params := AppendWhen(params, "callback", Truthy(options.callback));
  }

  /**
   * advancedSearch: only the key is checked; with a key a request is always
   * made, even when every option is undefined or blank.
   */
  method AdvancedSearch(apiKey: string, options: SearchOptions, network: Outcome<Reply>)
    returns (result: Reply, request: Option<Query>)
    ensures apiKey == "" ==> request == None && result == SearchReply(FailedSearch(NoApiKeyMessage))
    ensures apiKey != "" ==> request == Some(AdvancedSearchQuery(apiKey, options))
    ensures request.Some? ==>
              result == if network.Success? then network.body else SearchReply(FailedSearch(AdvancedFailedMessage))
  {
    if apiKey == "" {
      return SearchReply(FailedSearch(NoApiKeyMessage)), None;
    }
    var params := AdvancedParams(apiKey, options);
    request := Some(params);
    if network.Success? {
      result := network.body;
    } else {
      result := SearchReply(FailedSearch(AdvancedFailedMessage));
    }
  }

  /**
   * What the service reads from an advancedSearch request: apikey first, then
   * each option exactly when it is truthy, with no name repeated; in particular
   * page 0 and the '' type are not sent.
   */
  lemma AdvancedSearchParams(apiKey: string, options: SearchOptions)
    ensures var q := AdvancedSearchQuery(apiKey, options);
      && q[0] == ("apikey", apiKey)
      && DistinctNames(q)
      && Lookup(q, "apikey") == Some(apiKey)
      && Lookup(q, "s") == Truthy(options.title)
      && Lookup(q, "i") == Truthy(options.imdbID)
      && Lookup(q, "type") == TypeParam(options.searchType)
      && Lookup(q, "y") == Truthy(options.year)
      && Lookup(q, "plot") == PlotParam(options.plot)
      && Lookup(q, "page") == PageParam(options.page)
      && Lookup(q, "callback") == Truthy(options.callback)
      && (options.page == Some(0) ==> Lookup(q, "page") == None)
  {
    var c := AdvancedCandidates(options);
    var head: Query := [("apikey", apiKey)];
    AdvancedCandidateNames(options);
    AdvancedSearchCandidates(apiKey, options);
    PrefixedQuery(head, c);
    assert Lookup(head + Present(c), head[0].0) == Some(head[0].1);
    assert Lookup(head + Present(c), c[0].0) == c[0].1;
    assert Lookup(head + Present(c), c[1].0) == c[1].1;
    assert Lookup(head + Present(c), c[2].0) == c[2].1;
    assert Lookup(head + Present(c), c[3].0) == c[3].1;
    assert Lookup(head + Present(c), c[4].0) == c[4].1;
    assert Lookup(head + Present(c), c[5].0) == c[5].1;
    assert Lookup(head + Present(c), c[6].0) == c[6].1;
  }

  /** advancedSearch appends s, i, type, y, plot, page, callback in that order, after apikey. */
  lemma AdvancedSearchOrder(apiKey: string, options: SearchOptions, i: nat, j: nat)
    requires i < j < |AdvancedOrder|
    requires AdvancedCandidates(options)[i].1.Some? && AdvancedCandidates(options)[j].1.Some?
    ensures var q := AdvancedSearchQuery(apiKey, options);
      0 < IndexOfName(q, AdvancedOrder[i]) < IndexOfName(q, AdvancedOrder[j]) < |q|
  {
    var c := AdvancedCandidates(options);
    var head: Query := [("apikey", apiKey)];
    AdvancedCandidateNames(options);
    AdvancedSearchCandidates(apiKey, options);
    PrefixedOrder(head, c, i, j);
  }

  // ---------------------------------------------------------------------------
  // searchByTitleAndYear

  function TitleAndYearQuery(apiKey: string, title: string, year: Option<string>): Query {
    [("apikey", apiKey), ("t", title)] + Opt("y", Truthy(year))
  }

  /**
   * searchByTitleAndYear: only the key is checked (a blank title is still
   * sent); asks for apikey, t, then y when a non-empty year is given.
   */
  method SearchByTitleAndYear(apiKey: string, title: string, year: Option<string>, network: Outcome<Reply>)
    returns (result: Reply, request: Option<Query>)
    ensures apiKey == "" ==> request == None && result == SearchReply(FailedSearch(NoApiKeyMessage))
    ensures apiKey != "" ==> request == Some(TitleAndYearQuery(apiKey, title, year))
    ensures request.Some? ==>
              result == if network.Success? then network.body else SearchReply(FailedSearch(TitleAndYearFailedMessage))
  {
    if apiKey == "" {
      return SearchReply(FailedSearch(NoApiKeyMessage)), None;
    }
    var params: Query := [("apikey", apiKey), ("t", title)];
    params := AppendWhen(params, "y", Truthy(year));
    request := Some(params);
    if network.Success? {
      result := network.body;
    } else {
      result := SearchReply(FailedSearch(TitleAndYearFailedMessage));
    }
  }

  /** A searchByTitleAndYear request carries the title untrimmed, and a year only when one is given. */
  lemma TitleAndYearParams(apiKey: string, title: string, year: Option<string>)
    ensures var q := TitleAndYearQuery(apiKey, title, year);
      && q[..2] == [("apikey", apiKey), ("t", title)]
      && |q| == (if Truthy(year).Some? then 3 else 2)
      && DistinctNames(q)
      && Lookup(q, "t") == Some(title)
      && Lookup(q, "y") == Truthy(year)
  {
    var c := [("y", Truthy(year))];
    var head: Query := [("apikey", apiKey), ("t", title)];
    PresentOne(c[0]);
    PrefixedQuery(head, c);
    assert Lookup(head + Present(c), head[1].0) == Some(head[1].1);
    assert Lookup(head + Present(c), c[0].0) == c[0].1;
  }

  // ---------------------------------------------------------------------------
  // validateApiKey

  /** The probe validateApiKey sends: the key and the fixed search term "test". */
  function ProbeQuery(apiKey: string): Query {
    [("apikey", apiKey), ("s", "test")]
  }

  /** The reply accepts the key when it is a success, or a failure for any reason other than the key. */
  predicate KeyAccepted(reply: ProbeReply) {
    reply.Response == Some("True") || (reply.Response == Some("False") && reply.Error != Some(InvalidKeyError))
  }

  /**
   * validateApiKey: false without a key (no request) or when the probe fails;
   * otherwise the reply's verdict.
   */
  method ValidateApiKey(apiKey: string, network: Outcome<ProbeReply>) returns (valid: bool, request: Option<Query>)
    ensures apiKey == "" ==> request == None
    ensures apiKey != "" ==> request == Some(ProbeQuery(apiKey))
    ensures valid <==> apiKey != "" && network.Success? && KeyAccepted(network.body)
  {
    if apiKey == "" {
      return false, None;
    }
    request := Some(ProbeQuery(apiKey));
    if network.Failure? {
      return false, request;
    }
    var data := network.body;
    valid := KeyAccepted(data);
  }

  /**
   * The only replies that reject a key are the "Invalid API key!" failure and
   * replies whose Response is neither "True" nor "False"; a failure with no
   * Error field, or any other Error, still accepts it.
   */
  lemma KeyAcceptedExactly(reply: ProbeReply)
    ensures !KeyAccepted(reply) <==>
              (reply.Response == Some("False") && reply.Error == Some(InvalidKeyError))
              || (reply.Response != Some("True") && reply.Response != Some("False"))
  {
  }
}
