/** The `/films` and `/filmr` argument parser (`variables_films_logic`): the words after the
    command are classified one by one into a rating range, a release-year range, a media type,
    genres and countries, against fixed vocabularies. */
module FilterParser {
  import opened Text
  import opened Folds

  /** What the parser reads besides the message: the media-type table as (code, label) pairs in
      the table's order, the genre and country vocabularies, the case fold used for `str.lower()`,
      the current year, the bot's username and the media type assumed when no word names one. */
  datatype Config = Config(
    mediaTypes: seq<(string, string)>,
    genres: seq<string>,
    countries: seq<string>,
    lower: string -> string,
    currentYear: int,
    botName: string,
    defaultType: Option<string>)

  /** The media-type default of main.py. */
  const MainDefaultType: Option<string> := None
  /** The media-type default of algorithm.py. */
  const AlgorithmDefaultType: Option<string> := Some("movie")

  const DefaultRating := "1-10"

  function DefaultYear(currentYear: int): string {
    "1890-" + IntToString(currentYear)
  }

  /** The parser's variables while it walks the words. */
  datatype ParseState = ParseState(
    rating: string, year: string, mediaType: Option<string>, genres: seq<string>, countries: seq<string>)

  /** The tuple `(rating, year, media_type, genre, country)` the parser returns. */
  datatype Filters = Filters(
    rating: string, year: string, mediaType: Option<string>, genre: Option<string>, country: Option<string>)

  // ---------------------------------------------------------------- words

  /** The command and bot name are cut off, commas become spaces, and the rest is split on whitespace. */
  function Tokens(botName: string, text: string): seq<string> {
    Words(Strip(Replace(StripCommand(text, ["filmr", "films"], botName), ',', " ")))
  }

  /** Every word is non-empty and holds neither whitespace nor a comma. */
  lemma TokensAreClean(botName: string, text: string)
    ensures forall i :: 0 <= i < |Tokens(botName, text)| ==>
      Tokens(botName, text)[i] != [] && NoSpace(Tokens(botName, text)[i]) && ',' !in Tokens(botName, text)[i]
  {
    var args := StripCommand(text, ["filmr", "films"], botName);
    var spaced := Replace(args, ',', " ");
    var stripped := Strip(spaced);
    ReplaceRemoves(args, ',', " ", ',');
    assert ',' !in stripped by {
      assert forall k :: 0 <= k < |stripped| ==> stripped[k] in spaced;
    }
    WordsAvoid(stripped, ',');
    WordsAreClean(stripped);
  }

  /** The words typed after the command come back as they were: the command, one space and
      clean words joined by spaces give exactly those words, whenever the bot name cannot start
      with whitespace. */
  lemma TokensOfCommand(botName: string, name: string, ws: seq<string>)
    requires name == "films" || name == "filmr"
    requires botName == "" || !IsSpace(botName[0])
    requires forall i :: 0 <= i < |ws| ==> ws[i] != [] && NoSpace(ws[i]) && ',' !in ws[i]
    ensures Tokens(botName, "/" + name + " " + Join(ws, " ")) == ws
  {
    var q := Join(ws, " ");
    var text := "/" + name + " " + q;
    JoinClean(ws);
    CommandStripped(botName, name, q);
    assert StripCommand(text, ["filmr", "films"], botName) == q;
    JoinAvoids(ws, " ", ',');
    CleanArguments(q);
    assert Tokens(botName, text) == Words(q);
    WordsOfJoin(ws);
  }

  /** The group-chat form `/films@bot words`: the bot name is cut off with the command, and the
      words come back as they were. */
  lemma TokensOfBotCommand(botName: string, name: string, ws: seq<string>)
    requires name == "films" || name == "filmr"
    requires forall i :: 0 <= i < |ws| ==> ws[i] != [] && NoSpace(ws[i]) && ',' !in ws[i]
    ensures Tokens(botName, "/" + name + botName + " " + Join(ws, " ")) == ws
  {
    var q := Join(ws, " ");
    var text := "/" + name + botName + " " + q;
    JoinClean(ws);
    BotCommandStripped(botName, name, q);
    assert StripCommand(text, ["filmr", "films"], botName) == q;
    JoinAvoids(ws, " ", ',');
    CleanArguments(q);
    assert Tokens(botName, text) == Words(q);
    WordsOfJoin(ws);
  }

  lemma BotCommandStripped(botName: string, name: string, q: string)
    requires name == "films" || name == "filmr"
    requires q == "" || !IsSpace(q[0])
    ensures StripCommand("/" + name + botName + " " + q, ["filmr", "films"], botName) == q
  {
    var names := ["filmr", "films"];
    if name == "films" {
      var text := "/" + names[1] + botName + " " + q;
      assert text[5] != ("/" + names[0])[5];
      StripCommandBotMatch(names, 1, botName, q);
    } else {
      StripCommandBotMatch(names, 0, botName, q);
    }
    assert DropSpace(q) == q;
  }

  lemma CommandStripped(botName: string, name: string, q: string)
    requires name == "films" || name == "filmr"
    requires botName == "" || !IsSpace(botName[0])
    requires q == "" || !IsSpace(q[0])
    ensures StripCommand("/" + name + " " + q, ["filmr", "films"], botName) == q
  {
    var names := ["filmr", "films"];
    if name == "films" {
      var text := "/" + names[1] + " " + q;
      assert text[5] != ("/" + names[0])[5];
      StripCommandMatch(names, 1, botName, q);
    } else {
      StripCommandMatch(names, 0, botName, q);
    }
  }

  /** Arguments without a comma and without whitespace at either end pass the comma replacement
      and the stripping unchanged. */
  lemma CleanArguments(q: string)
    requires q == "" || (!IsSpace(q[0]) && !IsSpace(q[|q| - 1]))
    requires ',' !in q
    ensures Strip(Replace(q, ',', " ")) == q
  {
    ReplaceAbsent(q, ',', " ");
    assert DropSpace(q) == q;
    assert TrimEnd(q) == q;
  }

  // ---------------------------------------------------------------- word classes

  predicate InBounds(s: string, lo: int, hi: int) {
    IsDigits(s) && lo <= DigitsValue(s) <= hi
  }

  /** A word `a-b` with exactly one dash and both ends in `[lo, hi]`. */
  predicate IsBoundedRange(v: string, lo: int, hi: int) {
    var parts := SplitOn(v, '-');
    '-' in v && |parts| == 2 && InBounds(parts[0], lo, hi) && InBounds(parts[1], lo, hi)
  }

  /** A rating from 1 to 10, or a range of two such ratings. */
  predicate IsRatingToken(v: string) {
    InBounds(v, 1, 10) || IsBoundedRange(v, 1, 10)
  }

  /** A four-digit year from 1890 to the current year, or a range of two such years. */
  predicate IsYearToken(v: string, currentYear: int) {
    (|v| == 4 && InBounds(v, 1890, currentYear)) || IsBoundedRange(v, 1890, currentYear)
  }

  /** Whether a media-type table entry's label folds to `key`. */
  function LabelIs(cfg: Config, key: string): ((string, string)) -> bool {
    (e: (string, string)) => cfg.lower(e.1) == key
  }

  /** Whether a vocabulary genre folds to `key`. */
  function GenreIs(cfg: Config, key: string): string -> bool {
    (g: string) => cfg.lower(g) == key
  }

  /** The code of the first media type whose label folds to the folded word. */
  function MediaTypeFor(cfg: Config, v: string): Option<string> {
    var k := FirstIndex(cfg.mediaTypes, LabelIs(cfg, cfg.lower(v)));
    if k < |cfg.mediaTypes| then Some(cfg.mediaTypes[k].0) else None
  }

  /** The vocabulary spelling of the first genre that folds to `key`. */
  function CanonicalGenre(cfg: Config, key: string): Option<string> {
    var k := FirstIndex(cfg.genres, GenreIs(cfg, key));
    if k < |cfg.genres| then Some(cfg.genres[k]) else None
  }

  /** The folded words longer than two characters. */
  function LongWordKeys(lower: string -> string, ws: seq<string>): seq<string> {
    if ws == [] then [] else (if |ws[0]| > 2 then [lower(ws[0])] else []) + LongWordKeys(lower, ws[1..])
  }

  /** A country is named by any of its words longer than two characters, case-insensitively. */
  predicate CountryMatches(cfg: Config, country: string, key: string) {
    key in LongWordKeys(cfg.lower, Words(country))
  }

  function Names(cfg: Config, key: string): string -> bool {
    (c: string) => CountryMatches(cfg, c, key)
  }

  function Prefixed(sign: char): string -> string {
    (c: string) => [sign] + c
  }

  predicate Signed(v: string) {
    |v| > 0 && (v[0] == '+' || v[0] == '-')
  }

  /** The sign a genre or country entry carries: the word's own, or `+` for an unsigned word. */
  function SignOf(v: string): char {
    if Signed(v) then v[0] else '+'
  }

  /** The folded word without its sign. */
  function KeyOf(cfg: Config, v: string): string {
    cfg.lower(if Signed(v) then v[1..] else v)
  }

  /** The genre entry a word adds: its sign and the vocabulary spelling, if it names a genre. */
  function GenreEntries(cfg: Config, v: string): seq<string> {
    if Signed(v) then
      match CanonicalGenre(cfg, cfg.lower(v[1..]))
      case Some(g) => [[v[0]] + g]
      case None => []
    else
      match CanonicalGenre(cfg, cfg.lower(v))
      case Some(g) => ["+" + g]
      case None => []
  }

  /** The country entries a word adds: a signed word adds every country it names, an unsigned
      word only the first one. */
  function CountryEntries(cfg: Config, v: string): seq<string> {
    if Signed(v) then
      Select(cfg.countries, Names(cfg, cfg.lower(v[1..])), Prefixed(v[0]))
    else
      var k := FirstIndex(cfg.countries, Names(cfg, cfg.lower(v)));
      if k < |cfg.countries| then ["+" + cfg.countries[k]] else []
  }

  function GenreEntriesOf(cfg: Config): string -> seq<string> {
    (v: string) => GenreEntries(cfg, v)
  }

  function CountryEntriesOf(cfg: Config): string -> seq<string> {
    (v: string) => CountryEntries(cfg, v)
  }

  // ---------------------------------------------------------------- the walk over the words

  function Initial(cfg: Config): ParseState {
    ParseState(DefaultRating, DefaultYear(cfg.currentYear), cfg.defaultType, [], [])
  }

  /** One word: the first of rating, year and media type it matches sets that field; independently
      of that, it may add genre and country entries. */
  function Step(cfg: Config, st: ParseState, v: string): ParseState {
    var st1 :=
      if IsRatingToken(v) then st.(rating := v)
      else if IsYearToken(v, cfg.currentYear) then st.(year := v)
      else if MediaTypeFor(cfg, v).Some? then st.(mediaType := MediaTypeFor(cfg, v))
      else st;
    st1.(genres := st1.genres + GenreEntries(cfg, v), countries := st1.countries + CountryEntries(cfg, v))
  }

  function StepOf(cfg: Config): (ParseState, string) -> ParseState {
    (st: ParseState, v: string) => Step(cfg, st, v)
  }

  /** The parser's variables after all the words. */
  function Classify(cfg: Config, ts: seq<string>): ParseState {
    Walk(Initial(cfg), ts, StepOf(cfg))
  }

  /** A word that reads as a year but not as a rating. */
  predicate SetsYear(cfg: Config, v: string) {
    !IsRatingToken(v) && IsYearToken(v, cfg.currentYear)
  }

  /** A word that names a media type and reads as neither a rating nor a year. */
  predicate SetsType(cfg: Config, v: string) {
    !IsRatingToken(v) && !IsYearToken(v, cfg.currentYear) && MediaTypeFor(cfg, v).Some?
  }

  /** What one word does: the rating, the year and the media type are each overwritten or kept,
      and the genre and country entries are appended. */
  lemma StepFields(cfg: Config, st: ParseState, v: string)
    ensures Step(cfg, st, v).rating == if IsRatingToken(v) then v else st.rating
    ensures Step(cfg, st, v).year == if SetsYear(cfg, v) then v else st.year
    ensures Step(cfg, st, v).mediaType == if SetsType(cfg, v) then MediaTypeFor(cfg, v) else st.mediaType
    ensures Step(cfg, st, v).genres == st.genres + GenreEntries(cfg, v)
    ensures Step(cfg, st, v).countries == st.countries + CountryEntries(cfg, v)
  {
  }

  lemma ClassifySnoc(cfg: Config, ts: seq<string>, i: nat)
    requires i < |ts|
    ensures Classify(cfg, ts[..i + 1]) == Step(cfg, Classify(cfg, ts[..i]), ts[i])
  {
    assert ts[..i + 1][..i] == ts[..i];
  }

  function Finish(st: ParseState): Filters {
    Filters(st.rating, st.year, st.mediaType,
      if st.genres == [] then None else Some(Join(st.genres, "&genres.name=")),
      if st.countries == [] then None else Some(Join(st.countries, "&countries.name=")))
  }

  function Parse(cfg: Config, text: string): Filters {
    Finish(Classify(cfg, Tokens(cfg.botName, text)))
  }

  /** The country entries of one word, found the way the bot finds them: a signed word is checked
      against every country in turn, an unsigned one stops at the first country it names. */
  method CountriesOfWord(cfg: Config, value: string) returns (added: seq<string>)
    ensures added == CountryEntries(cfg, value)
  {
    added := [];
    if Signed(value) {
      var cleanCountry := cfg.lower(value[1..]);
      var j := 0;
      while j < |cfg.countries|
        invariant j <= |cfg.countries|
        invariant added == Select(cfg.countries[..j], Names(cfg, cleanCountry), Prefixed(value[0]))
      {
        SelectStep(cfg.countries, Names(cfg, cleanCountry), Prefixed(value[0]), j);
        assert Names(cfg, cleanCountry)(cfg.countries[j]) == CountryMatches(cfg, cfg.countries[j], cleanCountry);
        assert Prefixed(value[0])(cfg.countries[j]) == [value[0]] + cfg.countries[j];
        if CountryMatches(cfg, cfg.countries[j], cleanCountry) {
          added := added + [[value[0]] + cfg.countries[j]];
        }
        j := j + 1;
      }
      assert cfg.countries[..j] == cfg.countries;
    } else {
      var valueLower := cfg.lower(value);
      var k := FirstIndex(cfg.countries, Names(cfg, valueLower));
      if k < |cfg.countries| {
        added := ["+" + cfg.countries[k]];
      }
    }
  }

  /** The rating, year and media-type checks for one word: the first that matches sets its field. */
  method ClassifyScalar(cfg: Config, st: ParseState, value: string) returns (rating: string, year: string, mediaType: Option<string>)
    ensures rating == Step(cfg, st, value).rating
    ensures year == Step(cfg, st, value).year
    ensures mediaType == Step(cfg, st, value).mediaType
  {
    rating, year, mediaType := st.rating, st.year, st.mediaType;
    if IsRatingToken(value) {
      rating := value;
    } else if IsYearToken(value, cfg.currentYear) {
      year := value;
    } else {
      var code := MediaTypeFor(cfg, value);
      if code.Some? {
        mediaType := code;
      }
    }
  }

  /** The genre check for one word. */
  method GenresOfWord(cfg: Config, value: string) returns (added: seq<string>)
    ensures added == GenreEntries(cfg, value)
  {
    added := [];
    if Signed(value) {
      var cleanGenre := cfg.lower(value[1..]);
      var genre := CanonicalGenre(cfg, cleanGenre);
      if genre.Some? {
        added := [[value[0]] + genre.value];
      }
    } else {
      var genre := CanonicalGenre(cfg, cfg.lower(value));
      if genre.Some? {
        added := ["+" + genre.value];
      }
    }
  }

  /** The parser as the bot runs it: one pass over the words. */
  method ParseFilters(cfg: Config, text: string) returns (f: Filters)
    ensures f == Parse(cfg, text)
  {
    var tokens := Tokens(cfg.botName, text);
    var rating := DefaultRating;
    var year := DefaultYear(cfg.currentYear);
    var mediaType := cfg.defaultType;
    var genres: seq<string> := [];
    var countries: seq<string> := [];
    var i := 0;
    while i < |tokens|
      invariant i <= |tokens|
      invariant ParseState(rating, year, mediaType, genres, countries) == Classify(cfg, tokens[..i])
    {
      var prev := ParseState(rating, year, mediaType, genres, countries);
      var value := tokens[i];
      rating, year, mediaType := ClassifyScalar(cfg, prev, value);
      var genresAdded := GenresOfWord(cfg, value);
      genres := genres + genresAdded;
      var countriesAdded := CountriesOfWord(cfg, value);
      countries := countries + countriesAdded;
      StepFields(cfg, prev, value);
      ClassifySnoc(cfg, tokens, i);
      i := i + 1;
    }
    assert tokens[..i] == tokens;
    var genre := if genres != [] then Some(Join(genres, "&genres.name=")) else None;
    var country := if countries != [] then Some(Join(countries, "&countries.name=")) else None;
    f := Filters(rating, year, mediaType, genre, country);
  }

  // ---------------------------------------------------------------- properties of the walk

  /** The rating is the last word that reads as a rating. */
  lemma LastRatingWordWins(cfg: Config, ts: seq<string>, i: nat)
    requires i < |ts| && IsRatingToken(ts[i])
    requires forall j :: i < j < |ts| ==> !IsRatingToken(ts[j])
    ensures Classify(cfg, ts).rating == ts[i]
  {
    forall st: ParseState, v: string ensures Step(cfg, st, v).rating == if IsRatingToken(v) then v else st.rating {
      StepFields(cfg, st, v);
    }
    LastWriteWins(Initial(cfg), ts, StepOf(cfg), (st: ParseState) => st.rating, IsRatingToken, (v: string) => v, i);
  }

  /** The year is the last word that reads as a year and not as a rating. */
  lemma LastYearWordWins(cfg: Config, ts: seq<string>, i: nat)
    requires i < |ts| && SetsYear(cfg, ts[i])
    requires forall j :: i < j < |ts| ==> !SetsYear(cfg, ts[j])
    ensures Classify(cfg, ts).year == ts[i]
  {
    forall st: ParseState, v: string ensures Step(cfg, st, v).year == if SetsYear(cfg, v) then v else st.year {
      StepFields(cfg, st, v);
    }
    LastWriteWins(Initial(cfg), ts, StepOf(cfg), (st: ParseState) => st.year, (v: string) => SetsYear(cfg, v), (v: string) => v, i);
  }

  /** The media type is the code named by the last word that sets one. */
  lemma LastTypeWordWins(cfg: Config, ts: seq<string>, i: nat)
    requires i < |ts| && SetsType(cfg, ts[i])
    requires forall j :: i < j < |ts| ==> !SetsType(cfg, ts[j])
    ensures Classify(cfg, ts).mediaType == MediaTypeFor(cfg, ts[i])
  {
    forall st: ParseState, v: string
      ensures Step(cfg, st, v).mediaType == if SetsType(cfg, v) then MediaTypeFor(cfg, v) else st.mediaType
    {
      StepFields(cfg, st, v);
    }
    LastWriteWins(Initial(cfg), ts, StepOf(cfg), (st: ParseState) => st.mediaType,
                  (v: string) => SetsType(cfg, v), (v: string) => MediaTypeFor(cfg, v), i);
  }

  /** A field no word sets keeps its default: `1-10`, `1890-<current year>`, the copy's media type. */
  lemma UnsetFieldsKeepDefaults(cfg: Config, ts: seq<string>)
    ensures (forall i :: 0 <= i < |ts| ==> !IsRatingToken(ts[i])) ==> Classify(cfg, ts).rating == DefaultRating
    ensures (forall i :: 0 <= i < |ts| ==> !SetsYear(cfg, ts[i])) ==> Classify(cfg, ts).year == DefaultYear(cfg.currentYear)
    ensures (forall i :: 0 <= i < |ts| ==> !SetsType(cfg, ts[i])) ==> Classify(cfg, ts).mediaType == cfg.defaultType
  {
    forall st: ParseState, v: string
      ensures Step(cfg, st, v).rating == if IsRatingToken(v) then v else st.rating
      ensures Step(cfg, st, v).year == if SetsYear(cfg, v) then v else st.year
      ensures Step(cfg, st, v).mediaType == if SetsType(cfg, v) then MediaTypeFor(cfg, v) else st.mediaType
    {
      StepFields(cfg, st, v);
    }
    if forall i :: 0 <= i < |ts| ==> !IsRatingToken(ts[i]) {
      NoWriteKeeps(Initial(cfg), ts, StepOf(cfg), (st: ParseState) => st.rating, IsRatingToken, (v: string) => v);
    }
    if forall i :: 0 <= i < |ts| ==> !SetsYear(cfg, ts[i]) {
      NoWriteKeeps(Initial(cfg), ts, StepOf(cfg), (st: ParseState) => st.year, (v: string) => SetsYear(cfg, v), (v: string) => v);
    }
    if forall i :: 0 <= i < |ts| ==> !SetsType(cfg, ts[i]) {
      NoWriteKeeps(Initial(cfg), ts, StepOf(cfg), (st: ParseState) => st.mediaType,
                   (v: string) => SetsType(cfg, v), (v: string) => MediaTypeFor(cfg, v));
    }
  }

  /** With the default of algorithm.py and a table of non-empty codes, a media type is always sent. */
  lemma AlgorithmTypeAlwaysSet(cfg: Config, ts: seq<string>)
    requires cfg.defaultType == AlgorithmDefaultType
    requires forall k :: 0 <= k < |cfg.mediaTypes| ==> cfg.mediaTypes[k].0 != ""
    ensures Filled(Classify(cfg, ts).mediaType)
  {
    UnsetFieldsKeepDefaults(cfg, ts);
    if exists i :: 0 <= i < |ts| && SetsType(cfg, ts[i]) {
      var k :| 0 <= k < |ts| && SetsType(cfg, ts[k]);
      var i := LastPassing(ts, (v: string) => SetsType(cfg, v), k);
      LastTypeWordWins(cfg, ts, i);
    }
  }

  /** Every word is checked for genres and countries, whatever it did to the rating, year or type:
      the lists are the entries of all words, in word order. */
  lemma EntriesFromEveryWord(cfg: Config, ts: seq<string>)
    ensures Classify(cfg, ts).genres == Gather(ts, GenreEntriesOf(cfg))
    ensures Classify(cfg, ts).countries == Gather(ts, CountryEntriesOf(cfg))
  {
    forall st: ParseState, v: string
      ensures Step(cfg, st, v).genres == st.genres + GenreEntries(cfg, v)
      ensures Step(cfg, st, v).countries == st.countries + CountryEntries(cfg, v)
    {
      StepFields(cfg, st, v);
    }
    AppendsGather(Initial(cfg), ts, StepOf(cfg), (st: ParseState) => st.genres, GenreEntriesOf(cfg));
    AppendsGather(Initial(cfg), ts, StepOf(cfg), (st: ParseState) => st.countries, CountryEntriesOf(cfg));
  }

  /** The genre and country parameters are the entries of every word, in word order, joined with
      their separators; each is `None` exactly when no word contributes an entry. */
  lemma JoinedEntries(cfg: Config, text: string)
    ensures var ts := Tokens(cfg.botName, text);
      var genres := Gather(ts, GenreEntriesOf(cfg));
      var countries := Gather(ts, CountryEntriesOf(cfg));
      && Parse(cfg, text).genre == (if genres == [] then None else Some(Join(genres, "&genres.name=")))
      && Parse(cfg, text).country == (if countries == [] then None else Some(Join(countries, "&countries.name=")))
  {
    EntriesFromEveryWord(cfg, Tokens(cfg.botName, text));
  }

  /** A word naming a genre adds one entry: its sign (`+` when it has none) and the spelling of the
      first vocabulary genre with the same case fold; a word naming none adds nothing. */
  lemma GenreSpelling(cfg: Config, v: string)
    ensures (forall k :: 0 <= k < |cfg.genres| ==> cfg.lower(cfg.genres[k]) != KeyOf(cfg, v)) ==> GenreEntries(cfg, v) == []
    ensures forall k :: 0 <= k < |cfg.genres| && cfg.lower(cfg.genres[k]) == KeyOf(cfg, v)
              && (forall m :: 0 <= m < k ==> cfg.lower(cfg.genres[m]) != KeyOf(cfg, v))
              ==> GenreEntries(cfg, v) == [[SignOf(v)] + cfg.genres[k]]
  {
  }

  /** A signed word adds its sign before every country it names, and nothing else. */
  lemma SignedWordNamesEveryCountry(cfg: Config, v: string)
    requires Signed(v)
    ensures forall k :: 0 <= k < |cfg.countries| && CountryMatches(cfg, cfg.countries[k], KeyOf(cfg, v))
              ==> [v[0]] + cfg.countries[k] in CountryEntries(cfg, v)
    ensures forall e :: e in CountryEntries(cfg, v) ==>
              exists k :: 0 <= k < |cfg.countries| && CountryMatches(cfg, cfg.countries[k], KeyOf(cfg, v)) && e == [v[0]] + cfg.countries[k]
  {
    SelectKeeps(cfg.countries, Names(cfg, KeyOf(cfg, v)), Prefixed(v[0]));
  }

  /** An unsigned word adds `+` before the first country it names, or nothing when it names none. */
  lemma UnsignedWordNamesFirstCountry(cfg: Config, v: string)
    requires !Signed(v)
    ensures (forall k :: 0 <= k < |cfg.countries| ==> !CountryMatches(cfg, cfg.countries[k], KeyOf(cfg, v))) ==> CountryEntries(cfg, v) == []
    ensures forall k :: 0 <= k < |cfg.countries| && CountryMatches(cfg, cfg.countries[k], KeyOf(cfg, v))
              && (forall m :: 0 <= m < k ==> !CountryMatches(cfg, cfg.countries[m], KeyOf(cfg, v)))
              ==> CountryEntries(cfg, v) == ["+" + cfg.countries[k]]
  {
    var key := KeyOf(cfg, v);
    var names := Names(cfg, key);
    var i := FirstIndex(cfg.countries, names);
    assert CountryEntries(cfg, v) == if i < |cfg.countries| then ["+" + cfg.countries[i]] else [];
    forall k | 0 <= k < |cfg.countries| && CountryMatches(cfg, cfg.countries[k], key)
               && (forall m :: 0 <= m < k ==> !CountryMatches(cfg, cfg.countries[m], key))
      ensures CountryEntries(cfg, v) == ["+" + cfg.countries[k]]
    {
      assert names(cfg.countries[k]);
      assert i <= k;
      assert i < |cfg.countries| && names(cfg.countries[i]);
      assert i == k;
    }
  }

  /** When a word names two countries, `+word` adds both but the bare word adds only the first. */
  lemma CountrySignAsymmetry(cfg: Config, w: string, i: nat, j: nat)
    requires !Signed(w)
    requires i < j < |cfg.countries|
    requires CountryMatches(cfg, cfg.countries[i], cfg.lower(w)) && CountryMatches(cfg, cfg.countries[j], cfg.lower(w))
    ensures |CountryEntries(cfg, "+" + w)| >= 2
    ensures |CountryEntries(cfg, w)| == 1
  {
    assert Signed("+" + w) && ("+" + w)[1..] == w;
    SelectTwo(cfg.countries, Names(cfg, cfg.lower(w)), Prefixed('+'), i, j);
  }

  /** The bare command gives the defaults: every rating, every year from 1890, the default type. */
  lemma BareCommandDefaults(cfg: Config, name: string)
    requires name == "films" || name == "filmr"
    ensures Parse(cfg, "/" + name) == Filters(DefaultRating, DefaultYear(cfg.currentYear), cfg.defaultType, None, None)
  {
    BareCommandHasNoWords(cfg.botName, name);
    assert Classify(cfg, []) == Initial(cfg);
  }

  lemma BareCommandHasNoWords(botName: string, name: string)
    requires name == "films" || name == "filmr"
    ensures Tokens(botName, "/" + name) == []
  {
    BareCommandStripped(botName, name);
    NothingHasNoWords();
  }

  lemma BareCommandStripped(botName: string, name: string)
    requires name == "films" || name == "filmr"
    ensures StripCommand("/" + name, ["filmr", "films"], botName) == ""
  {
    var text := "/" + name;
    assert |text| == 6 && text[6..] == "";
    if name == "films" {
      assert text[5] != "/filmr"[5];
      assert ["filmr", "films"][1..] == ["films"];
      assert StartsWith(text, "/" + "films");
    } else {
      assert StartsWith(text, "/" + "filmr");
    }
  }

  lemma NothingHasNoWords()
    ensures Words(Strip(Replace("", ',', " "))) == []
  {
    assert Replace("", ',', " ") == "";
    assert Strip("") == "";
  }
}
