/** The `/films`, `/filmr` and `/film` handlers: what they fetch and what they reply. The movie
    API is not called; its answers are given as inputs, one per request, `None` standing for a
    request that `fetch_movie_data` turned into `None` (an HTTP error, a non-JSON or an empty body). */
module FilmCommands {
  import opened Text
  import opened Json
  import opened FilterParser
  import opened QueryUrl
  import opened Formatter

  const QuotaReply := "Ошибка: вы израсходовали лимит запросов. Обновите тариф в @kinopoiskdev_bot 😢"
  const FilmsNotFound := "Фильмы не найдены 😢"
  const RandomNotFound := "Не удалось найти фильм 😢"
  const TitleNotFound := "Фильм не найден 😢"
  const FormatFailed := "Ошибка при форматировании фильма 😢"
  /** The reply of the command dispatcher when a handler raises. */
  const CommandFailed := "Произошла ошибка 😢"

  /** The object `fetch_movie_data` returns for an HTTP 403. */
  const QuotaMarker := JObj(map["statusCode" := JInt(403), "message" := JStr("Вы израсходовали лимит запросов. Обновите тариф.")])

  const SearchBase := "https://api.kinopoisk.dev/v1.4/movie/search?query="

  /** A plain reply, or a Markdown reply with a keyboard. */
  datatype Reply = Plain(text: string) | Markdown(text: string, keyboard: Keyboard)

  /** An object whose `statusCode` is 403: the answer that marks an exhausted quota. */
  predicate IsQuotaMarker(v: Json) {
    v.JObj? && Get(v.fields, "statusCode", JNull) == JInt(403)
  }

  /** The answer is truthy. */
  predicate Present(r: Option<Json>) {
    r.Some? && Truthy(r.value)
  }

  // ---------------------------------------------------------------- /films: three attempts

  /** Where the attempts stand: stopped with a reply, or still collecting movies. */
  datatype Collected = Stopped(reply: Reply) | Collecting(movies: seq<map<string, Json>>)

  function IdOf(movie: map<string, Json>): Json {
    Get(movie, "id", JNull)
  }

  /** The ids of the collected movies, in order. */
  function Ids(movies: seq<map<string, Json>>): seq<Json> {
    if movies == [] then [] else Ids(movies[..|movies| - 1]) + [IdOf(movies[|movies| - 1])]
  }

  /** One attempt with answer `r`: a quota marker stops with the quota reply, an empty answer stops
      with "not found" on the first attempt and is skipped later, a movie with a truthy id not seen
      before is kept. An answer that is not an object, or an unhashable id, raises. */
  function Attempt(st: Collected, r: Option<Json>, attempt: nat): Collected {
    match st
    case Stopped(_) => st
    case Collecting(movies) =>
      if r.Some? && IsQuotaMarker(r.value) then Stopped(Plain(QuotaReply))
      else if !Present(r) then (if attempt == 0 then Stopped(Plain(FilmsNotFound)) else st)
      else if !r.value.JObj? then Stopped(Plain(CommandFailed))
      else
        var id := IdOf(r.value.fields);
        if !Truthy(id) then st
        else if !Hashable(id) then Stopped(Plain(CommandFailed))
        else if id in Ids(movies) then st
        else Collecting(movies + [r.value.fields])
  }

  /** The state after the first `n` attempts. */
  function Attempts(results: seq<Option<Json>>, n: nat): Collected
    requires n <= |results|
  {
    if n == 0 then Collecting([]) else Attempt(Attempts(results, n - 1), results[n - 1], n - 1)
  }

  /** The `/films` reply: the stop reply, or the formatted movies, "not found" when there are none. */
  function FilmsReply(mediaTypes: seq<(string, string)>, results: seq<Option<Json>>): Reply
    requires |results| == 3
  {
    match Attempts(results, 3)
    case Stopped(reply) => reply
    case Collecting(movies) =>
      match FilmsResponse(mediaTypes, movies)
      case None => Plain(FilmsNotFound)
      case Some((text, keyboard)) => if text != "" then Markdown(text, keyboard) else Plain(FilmsNotFound)
  }

  lemma {:induction false} StoppedStays(results: seq<Option<Json>>, k: nat, n: nat)
    requires k <= n <= |results| && Attempts(results, k).Stopped?
    ensures Attempts(results, n) == Attempts(results, k)
    decreases n - k
  {
    if k < n {
      StoppedStays(results, k + 1, n);
    }
  }

  /** `handle_films_command`'s loop: at most three requests to the same URL, keeping each movie whose
      id is truthy and new. */
  method CollectMovies(results: seq<Option<Json>>) returns (c: Collected)
    requires |results| == 3
    ensures c == Attempts(results, 3)
  {
    var data: seq<map<string, Json>> := [];
    var seenIds: set<Json> := {};
    for attempt := 0 to 3
      invariant Attempts(results, attempt) == Collecting(data)
      invariant forall x :: x in seenIds <==> x in Ids(data)
    {
      var movieData := results[attempt];
      if movieData.Some? && IsQuotaMarker(movieData.value) {
        StoppedStays(results, attempt + 1, 3);
        return Stopped(Plain(QuotaReply));
      }
      if !Present(movieData) {
        if attempt == 0 {
          StoppedStays(results, attempt + 1, 3);
          return Stopped(Plain(FilmsNotFound));
        }
        continue;
      }
      if !movieData.value.JObj? {
        StoppedStays(results, attempt + 1, 3);
        return Stopped(Plain(CommandFailed));
      }
      var movieId := IdOf(movieData.value.fields);
      if Truthy(movieId) {
        if !Hashable(movieId) {
          StoppedStays(results, attempt + 1, 3);
          return Stopped(Plain(CommandFailed));
        }
        if movieId !in seenIds {
          assert Ids(data + [movieData.value.fields]) == Ids(data) + [movieId] by {
            assert (data + [movieData.value.fields])[..|data|] == data;
          }
          data := data + [movieData.value.fields];
          seenIds := seenIds + {movieId};
        }
      }
    }
    c := Collecting(data);
  }

  /** `handle_films_command`: parse the words, build the URL, collect, format and reply. */
  method HandleFilms(cfg: Config, text: string, results: seq<Option<Json>>) returns (reply: Reply, url: string)
    requires |results| == 3
    ensures url == MakeUrl(RandomBase, Parse(cfg, text), cfg.currentYear)
    ensures reply == FilmsReply(cfg.mediaTypes, results)
  {
    var f := ParseFilters(cfg, text);
    url := MakeUrl(RandomBase, f, cfg.currentYear);
    var c := CollectMovies(results);
    if c.Stopped? {
      return c.reply, url;
    }
    var formatted := FormatFilmsResponse(cfg.mediaTypes, c.movies);
    if formatted.Some? && formatted.value.0 != "" {
      reply := Markdown(formatted.value.0, formatted.value.1);
    } else {
      reply := Plain(FilmsNotFound);
    }
  }

  lemma IdsSnoc(movies: seq<map<string, Json>>, m: map<string, Json>)
    ensures Ids(movies + [m]) == Ids(movies) + [IdOf(m)]
  {
    assert (movies + [m])[..|movies|] == movies;
  }

  /** One attempt either keeps the movies as they are or appends the answered movie, whose id is
      then truthy, hashable and new. */
  lemma AttemptKeeps(movies: seq<map<string, Json>>, r: Option<Json>, attempt: nat)
    requires Attempt(Collecting(movies), r, attempt).Collecting?
    ensures var after := Attempt(Collecting(movies), r, attempt).movies;
      || after == movies
      || (CarriesId(r) && Hashable(IdOf(r.value.fields)) && IdOf(r.value.fields) !in Ids(movies)
          && after == movies + [r.value.fields])
    ensures CarriesId(r) ==> IdOf(r.value.fields) in Ids(Attempt(Collecting(movies), r, attempt).movies)
  {
    if CarriesId(r) {
      var after := Attempt(Collecting(movies), r, attempt).movies;
      if after != movies {
        IdsSnoc(movies, r.value.fields);
      }
    }
  }

  /** The movies kept after `n` attempts are at most `n`, each with a truthy hashable id, and no id
      is kept twice. */
  lemma {:induction false} KeptDistinct(results: seq<Option<Json>>, n: nat)
    requires n <= |results| && Attempts(results, n).Collecting?
    ensures var movies := Attempts(results, n).movies;
      && |movies| <= n
      && (forall k :: 0 <= k < |movies| ==> Truthy(IdOf(movies[k])) && Hashable(IdOf(movies[k])))
      && (forall i, j :: 0 <= i < j < |movies| ==> IdOf(movies[i]) != IdOf(movies[j]))
  {
    if n > 0 {
      KeptDistinct(results, n - 1);
      var before := Attempts(results, n - 1).movies;
      AttemptKeeps(before, results[n - 1], n - 1);
      IdsSpec(before);
    }
  }

  /** Each kept movie is the first answer, among the first `n`, that carries its id. */
  lemma {:induction false} KeptFirstSeen(results: seq<Option<Json>>, n: nat)
    requires n <= |results| && Attempts(results, n).Collecting?
    ensures var movies := Attempts(results, n).movies;
      forall k :: 0 <= k < |movies| ==>
        (FirstWithId(results, n, IdOf(movies[k])) < n
         && results[FirstWithId(results, n, IdOf(movies[k]))] == Some(JObj(movies[k])))
  {
    if n > 0 {
      KeptFirstSeen(results, n - 1);
      KeptComplete(results, n - 1);
      var before := Attempts(results, n - 1).movies;
      AttemptKeeps(before, results[n - 1], n - 1);
      IdsSpec(before);
      FirstWithIdSnoc(results, n - 1);
    }
  }

  /** Every answer among the first `n` that is a movie with a truthy id has its id kept. */
  lemma {:induction false} KeptComplete(results: seq<Option<Json>>, n: nat)
    requires n <= |results| && Attempts(results, n).Collecting?
    ensures forall j :: 0 <= j < n && CarriesId(results[j]) ==> IdOf(results[j].value.fields) in Ids(Attempts(results, n).movies)
  {
    if n > 0 {
      KeptComplete(results, n - 1);
      var before := Attempts(results, n - 1).movies;
      AttemptKeeps(before, results[n - 1], n - 1);
      var after := Attempts(results, n).movies;
      if after != before {
        IdsSnoc(before, results[n - 1].value.fields);
      }
    }
  }

  /** An answer that is a movie with a truthy id. */
  predicate CarriesId(r: Option<Json>) {
    Present(r) && r.value.JObj? && Truthy(IdOf(r.value.fields))
  }

  /** The first of the first `n` answers that is a movie with the given id, or `n` when none is. */
  function FirstWithId(results: seq<Option<Json>>, n: nat, id: Json): (j: nat)
    requires n <= |results|
    ensures j <= n
    ensures j < n ==> CarriesId(results[j]) && IdOf(results[j].value.fields) == id
    ensures forall i :: 0 <= i < j ==> !(CarriesId(results[i]) && IdOf(results[i].value.fields) == id)
  {
    if n == 0 then 0
    else
      var j := FirstWithId(results, n - 1, id);
      if j < n - 1 then j
      else if CarriesId(results[n - 1]) && IdOf(results[n - 1].value.fields) == id then n - 1
      else n
  }

  lemma FirstWithIdSnoc(results: seq<Option<Json>>, n: nat)
    requires n < |results|
    ensures forall id :: FirstWithId(results, n, id) < n ==> FirstWithId(results, n + 1, id) == FirstWithId(results, n, id)
  {
  }

  lemma {:induction false} IdsSpec(movies: seq<map<string, Json>>)
    ensures |Ids(movies)| == |movies|
    ensures forall k :: 0 <= k < |movies| ==> Ids(movies)[k] == IdOf(movies[k])
  {
    if movies != [] {
      IdsSpec(movies[..|movies| - 1]);
    }
  }

  /** A quota marker on any attempt reached stops everything with the quota reply. */
  lemma QuotaStops(mediaTypes: seq<(string, string)>, results: seq<Option<Json>>, j: nat)
    requires j < |results| == 3
    requires Attempts(results, j).Collecting? && results[j].Some? && IsQuotaMarker(results[j].value)
    ensures FilmsReply(mediaTypes, results) == Plain(QuotaReply)
  {
    StoppedStays(results, j + 1, 3);
  }

  /** An empty first answer gives "not found" at once; an empty later answer is skipped. */
  lemma EmptyAnswers(results: seq<Option<Json>>, j: nat)
    requires j < |results| && !Present(results[j]) && Attempts(results, j).Collecting?
    ensures j == 0 ==> Attempts(results, j + 1) == Stopped(Plain(FilmsNotFound))
    ensures j > 0 ==> Attempts(results, j + 1) == Attempts(results, j)
  {
  }

  // ---------------------------------------------------------------- /filmr

  /** `handle_film_random_command` as written: a failed format hands back a bare `None`, whose
      unpacking raises, so the dispatcher's generic error is sent. */
  function FilmRandomReplyAsWritten(mediaTypes: seq<(string, string)>, result: Option<Json>): Reply {
    if result.Some? && IsQuotaMarker(result.value) then Plain(QuotaReply)
    else if !Present(result) then Plain(RandomNotFound)
    else
      match FormatFilmrResponseAsWritten(mediaTypes, result.value)
      case BareNone => Plain(CommandFailed)
      case Pair(text, keyboard) =>
        if text.Some? && text.value != "" && keyboard.Some? then Markdown(text.value, keyboard.value) else Plain(FormatFailed)
  }

  /** The `/filmr` reply when the formatter hands back `(None, None)` like the `/film` one: a failed
      format gets the format-error reply. */
  function FilmRandomReply(mediaTypes: seq<(string, string)>, result: Option<Json>): (reply: Reply)
    ensures reply == Plain(FormatFailed) <==>
      result.Some? && !IsQuotaMarker(result.value) && Present(result) && FormatFilm(mediaTypes, result.value).None?
    ensures reply.Markdown? <==>
      result.Some? && !IsQuotaMarker(result.value) && Present(result) && FormatFilm(mediaTypes, result.value).Some?
  {
    if result.Some? && IsQuotaMarker(result.value) then Plain(QuotaReply)
    else if !Present(result) then Plain(RandomNotFound)
    else
      match FormatFilmResponse(mediaTypes, result.value)
      case BareNone => Plain(CommandFailed)
      case Pair(text, keyboard) =>
        if text.Some? && text.value != "" && keyboard.Some? then Markdown(text.value, keyboard.value) else Plain(FormatFailed)
  }

  /** As written, `/filmr` never sends its format-error reply: an answer that cannot be formatted
      gets the generic error instead. */
  lemma FilmrFormatErrorUnreachable(mediaTypes: seq<(string, string)>, result: Option<Json>)
    ensures FilmRandomReplyAsWritten(mediaTypes, result) != Plain(FormatFailed)
    ensures (result.Some? && !IsQuotaMarker(result.value) && Present(result) && FormatFilm(mediaTypes, result.value).None?)
              ==> FilmRandomReplyAsWritten(mediaTypes, result) == Plain(CommandFailed)
  {
    if result.Some? && !IsQuotaMarker(result.value) && Present(result) && FormatFilm(mediaTypes, result.value).Some? {
      SingleFilmShape(mediaTypes, result.value);
    }
  }

  /** A concrete answer that shows it: a non-empty list is truthy but not a movie object. */
  lemma FilmrListAnswer(mediaTypes: seq<(string, string)>)
    ensures FilmRandomReplyAsWritten(mediaTypes, Some(JArr([JInt(1)]))) == Plain(CommandFailed)
    ensures FilmRandomReply(mediaTypes, Some(JArr([JInt(1)]))) == Plain(FormatFailed)
  {
    assert Truthy(JArr([JInt(1)]));
  }

  /** `/filmr` sends exactly one request, to the URL `/films` builds for the same text: the random
      endpoint, the rating and year ranges, then the type, the encoded countries and the encoded
      genres, each only when set. */
  function FilmRandomUrl(cfg: Config, text: string): (url: string)
    ensures var f := Parse(cfg, text);
      url == RandomBase + "rating.kp=" + RatingParam(f.rating) + "&year=" + YearParam(f.year, cfg.currentYear)
        + (if Filled(f.mediaType) then "&type=" + f.mediaType.value else "")
        + (if Filled(f.country) then "&countries.name=" + Encode(f.country.value) else "")
        + (if Filled(f.genre) then "&genres.name=" + Encode(f.genre.value) else "")
  {
    UrlLayout(RandomBase, Parse(cfg, text), cfg.currentYear);
    MakeUrl(RandomBase, Parse(cfg, text), cfg.currentYear)
  }

  // ---------------------------------------------------------------- /film

  /** The search URL: the text after `/film`, the bot name and the whitespace, sent as it is. */
  function FilmTitleUrl(botName: string, text: string): (url: string)
    ensures StartsWith(url, SearchBase)
    ensures StartsWith(text, "/film") ==> var query := url[|SearchBase|..]; query == "" || !IsSpace(query[0])
    ensures !StartsWith(text, "/film") ==> url == SearchBase + text
  {
    var names := ["film"];
    assert "/" + names[0] == "/film";
    var query := StripCommand(text, names, botName);
    PrefixCut(SearchBase, query);
    SearchBase + query
  }

  /** The query typed after `/film` and one space is sent exactly as typed, whenever the bot name
      cannot start with whitespace. */
  lemma FilmTitleQuery(botName: string, query: string)
    requires botName == "" || !IsSpace(botName[0])
    requires query == "" || !IsSpace(query[0])
    ensures FilmTitleUrl(botName, "/film " + query) == SearchBase + query
  {
    var names := ["film"];
    assert "/" + names[0] + " " + query == "/film " + query;
    StripCommandMatch(names, 0, botName, query);
    assert StripCommand("/film " + query, names, botName) == query;
  }

  /** The group-chat form `/film@bot query`: the bot name is cut off with the command and the
      whitespace, and the query is sent as typed. */
  lemma FilmTitleBotQuery(botName: string, query: string)
    requires query == "" || !IsSpace(query[0])
    ensures FilmTitleUrl(botName, "/film" + botName + " " + query) == SearchBase + query
  {
    var names := ["film"];
    assert "/" + names[0] + botName + " " + query == "/film" + botName + " " + query;
    StripCommandBotMatch(names, 0, botName, query);
    assert DropSpace(query) == query;
  }

  /** `handle_film_title_command`: an empty answer or a `total` equal to zero is "not found"; an
      answer without `total`, or one that cannot be indexed by a key, raises. */
  function FilmTitleReply(mediaTypes: seq<(string, string)>, result: Option<Json>): Reply {
    if !Present(result) then Plain(TitleNotFound)
    else if !result.value.JObj? then Plain(CommandFailed)
    else if "total" !in result.value.fields then Plain(CommandFailed)
    else if EqualsZero(result.value.fields["total"]) then Plain(TitleNotFound)
    else
      match FormatFilmResponse(mediaTypes, result.value)
      case BareNone => Plain(CommandFailed)
      case Pair(text, keyboard) =>
        if text.Some? && text.value != "" && keyboard.Some? then Markdown(text.value, keyboard.value) else Plain(FormatFailed)
  }

  /** `/film` has no quota check of its own: the quota marker has no `total`, so it gets the generic
      error; a formattable answer with a non-zero `total` gets the film and its two buttons. */
  lemma FilmTitleOutcomes(mediaTypes: seq<(string, string)>, result: Option<Json>)
    ensures result == Some(QuotaMarker) ==> FilmTitleReply(mediaTypes, result) == Plain(CommandFailed)
    ensures FilmTitleReply(mediaTypes, result).Markdown? <==>
      Present(result) && result.value.JObj? && "total" in result.value.fields
      && !EqualsZero(result.value.fields["total"]) && FormatFilm(mediaTypes, result.value).Some?
  {
    if result == Some(QuotaMarker) {
      assert "statusCode" in QuotaMarker.fields && Truthy(QuotaMarker);
      assert "total" !in QuotaMarker.fields;
    }
    if Present(result) && result.value.JObj? && FormatFilm(mediaTypes, result.value).Some? {
      SingleFilmShape(mediaTypes, result.value);
    }
  }
}
