/** The reply formatting shared by `/films`, `/film` and `/filmr`: `format_movie_common` reads a
    movie record, and the three `format_*_response` functions turn records into Markdown text and
    a keyboard of link buttons. */
module Formatter {
  import opened Text
  import opened Json
  import opened Folds

  /** An inline keyboard button: its label and the link it opens. */
  datatype Button = Button(text: string, url: string)

  type Keyboard = seq<seq<Button>>

  /** The fields `format_movie_common` returns. */
  datatype MovieInfo = MovieInfo(
    title: Json,
    titleLine: string,
    titleAlt: Json,
    titleId: Json,
    titleTypeRus: string,
    year: Json,
    description: Json,
    shortDescription: Json,
    ratingKp: Json,
    ratingImdb: Json,
    link: string,
    linkImdb: string,
    linkWatch: string,
    imdbId: Json,
    posterUrl: Json,
    movieLength: Json)

  const Untitled := "У фильма нет названия"
  const NoDescription := JStr("Описание отсутствует.")
  const CatalogBase := "https://www.kinopoisk.ru/"
  const ImdbHome := "https://www.imdb.com/"
  const ImdbTitle := "https://www.imdb.com/title/"
  const WatchBase := "https://reyohoho.github.io/reyohoho/#"

  // ---------------------------------------------------------------- reading a record

  /** The field `sub` of the object under `key` (its default when absent), or `None` when `key` is
      falsy; the outer `None` means the nested value was truthy but not an object, so the lookup raised. */
  function SubField(movie: map<string, Json>, key: string, sub: string, default: Json): Option<Json> {
    var outer := Get(movie, key, JNull);
    if !Truthy(outer) then Some(JNull)
    else if outer.JObj? then Some(Get(outer.fields, sub, default))
    else None
  }

  /** The Russian label of a media-type code, `""` for an unknown code; `None` when the code is
      unhashable and the dictionary lookup raises. */
  function TypeLabel(mediaTypes: seq<(string, string)>, code: Json): Option<string> {
    if !Hashable(code) then None
    else if code.JStr? then
      var k := FirstIndex(mediaTypes, CodeIs(code.s));
      Some(if k < |mediaTypes| then mediaTypes[k].1 else "")
    else Some("")
  }

  function CodeIs(code: string): ((string, string)) -> bool {
    (e: (string, string)) => e.0 == code
  }

  /** The title line as the source writes it: its third branch tests `not title and title`, which
      never holds, so a movie with only an alternative name gets the placeholder. */
  function TitleLineAsWritten(title: Json, alt: Json): string {
    if Truthy(title) && Truthy(alt) then "*" + Render(title) + "* / *" + Render(alt) + "*"
    else if Truthy(title) && !Truthy(alt) then "*" + Render(title) + "*"
    else if !Truthy(title) && Truthy(title) then "*" + Render(alt) + "*"
    else Untitled
  }

  /** The title line with the third branch testing `not title and title_alt`, as evidently meant. */
  function TitleLine(title: Json, alt: Json): (r: string)
    ensures r == Untitled <==> !Truthy(title) && !Truthy(alt)
    ensures Truthy(title) ==> StartsWith(r, "*" + Render(title) + "*")
    ensures !Truthy(title) && Truthy(alt) ==> r == "*" + Render(alt) + "*"
  {
    var r :=
      if Truthy(title) && Truthy(alt) then "*" + Render(title) + "* / *" + Render(alt) + "*"
      else if Truthy(title) && !Truthy(alt) then "*" + Render(title) + "*"
      else if !Truthy(title) && Truthy(alt) then "*" + Render(alt) + "*"
      else Untitled;
    assert r != Untitled ==> r[0] == '*';
    assert Untitled[0] != '*';
    assert Truthy(title) && Truthy(alt) ==> r == ("*" + Render(title) + "*") + (" / *" + Render(alt) + "*");
    r
  }

  /** A movie with a name but no alternative name, or with neither, is shown the same by both
      versions; one with only an alternative name loses it in the version as written. */
  lemma TitleLineDiffers(title: Json, alt: Json)
    ensures TitleLineAsWritten(title, alt) == TitleLine(title, alt) <==> Truthy(title) || !Truthy(alt)
  {
    if !Truthy(title) && Truthy(alt) {
      assert TitleLine(title, alt)[0] == '*';
      assert Untitled[0] != '*';
    }
  }

  /** `format_movie_common`, or `None` when it raises: the type code is unhashable, or `rating`,
      `externalId` or `backdrop` is truthy but not an object. */
  function MovieCommon(mediaTypes: seq<(string, string)>, movie: map<string, Json>): Option<MovieInfo> {
    var title := Get(movie, "name", JStr(""));
    var alt := Get(movie, "alternativeName", JStr(""));
    var id := Get(movie, "id", JStr(""));
    var code := Get(movie, "type", JStr(""));
    var typeLabel := TypeLabel(mediaTypes, code);
    var kp := SubField(movie, "rating", "kp", JStr(""));
    var imdb := SubField(movie, "rating", "imdb", JStr(""));
    var imdbId := SubField(movie, "externalId", "imdb", JNull);
    var poster := SubField(movie, "backdrop", "url", JNull);
    if typeLabel.None? || kp.None? || imdb.None? || imdbId.None? || poster.None? then None
    else
      Some(MovieInfo(
        title, TitleLineAsWritten(title, alt), alt, id, typeLabel.value,
        Get(movie, "year", JStr("")),
        Get(movie, "description", NoDescription),
        Get(movie, "shortDescription", NoDescription),
        kp.value, imdb.value,
        CatalogBase + (if code == JStr("tv-series") then "series" else "film") + "/" + Render(id),
        if Truthy(imdbId.value) then ImdbTitle + Render(imdbId.value) else ImdbHome,
        WatchBase + Render(id),
        imdbId.value, poster.value,
        Get(movie, "movieLength", JNull)))
  }

  /** A nested field that can be read: absent, falsy or an object. */
  predicate Readable(movie: map<string, Json>, key: string) {
    !Truthy(Get(movie, key, JNull)) || Get(movie, key, JNull).JObj?
  }

  /** The record can be formatted exactly when its type code is hashable and its `rating`,
      `externalId` and `backdrop` can be read. */
  lemma MovieCommonSucceeds(mediaTypes: seq<(string, string)>, movie: map<string, Json>)
    ensures MovieCommon(mediaTypes, movie).Some? <==>
      Hashable(Get(movie, "type", JStr(""))) && Readable(movie, "rating") && Readable(movie, "externalId") && Readable(movie, "backdrop")
  {
  }

  /** The catalog link is a `series` link exactly for the type `tv-series`, the IMDB link is the
      bare site exactly when there is no IMDB id, and both the catalog and the watch link end with
      the movie id. */
  lemma LinkTemplates(mediaTypes: seq<(string, string)>, movie: map<string, Json>)
    requires MovieCommon(mediaTypes, movie).Some?
    ensures var info := MovieCommon(mediaTypes, movie).value;
      && (StartsWith(info.link, CatalogBase + "series/") <==> Get(movie, "type", JStr("")) == JStr("tv-series"))
      && (info.linkImdb == ImdbHome <==> !Truthy(info.imdbId))
      && info.link[|info.link| - |Render(info.titleId)|..] == Render(info.titleId)
      && info.linkWatch == WatchBase + Render(info.titleId)
  {
    var info := MovieCommon(mediaTypes, movie).value;
    var id := Render(info.titleId);
    if Get(movie, "type", JStr("")) != JStr("tv-series") {
      assert info.link == CatalogBase + "film" + "/" + id;
      assert info.link[|CatalogBase| + 1] != (CatalogBase + "series/")[|CatalogBase| + 1];
    } else {
      assert info.link == CatalogBase + "series/" + id;
    }
    if Truthy(info.imdbId) {
      assert |info.linkImdb| > |ImdbHome|;
    }
  }

  // ---------------------------------------------------------------- text blocks

  /** The Markdown block for one movie, ending with `closing` in backquotes. */
  function Block(info: MovieInfo, closing: string): string {
    info.titleLine + ", " + info.titleTypeRus + ", " + Render(info.year) + "\n"
    + (if Truthy(info.movieLength) then "Продолжительность фильма *" + Render(info.movieLength) + "* мин.\n" else "")
    + "[Кинопоиск](" + info.link + ") *" + Render(info.ratingKp) + "*, [IMDB](" + info.linkImdb + ") *"
    + Render(info.ratingImdb) + "*\n"
    + "`" + closing + "`"
  }

  /** A list entry closes with the short description, or nothing when it is falsy. */
  function ListBlock(info: MovieInfo): string {
    Block(info, if Truthy(info.shortDescription) then Render(info.shortDescription) else "")
  }

  /** A single film closes with its description. */
  function FilmBlock(info: MovieInfo): string {
    Block(info, Render(info.description))
  }

  /** The list button: `title (year)`, opening the watch link. */
  function ListButton(info: MovieInfo): Button {
    Button(Render(info.title) + " (" + Render(info.year) + ")", info.linkWatch)
  }

  // ---------------------------------------------------------------- rows of three

  /** Consecutive slices of three, the last one possibly shorter. */
  function Rows<T>(bs: seq<T>): seq<seq<T>> {
    if bs == [] then []
    else if |bs| <= 3 then [bs]
    else [bs[..3]] + Rows(bs[3..])
  }

  function Flatten<T>(rows: seq<seq<T>>): seq<T> {
    if rows == [] then [] else rows[0] + Flatten(rows[1..])
  }

  /** There are `ceil(n / 3)` rows, each of one to three buttons, and reading them in order gives
      the buttons back. */
  lemma {:induction false} RowsShape<T>(bs: seq<T>)
    ensures |Rows(bs)| == (|bs| + 2) / 3
    ensures forall r :: 0 <= r < |Rows(bs)| ==> 1 <= |Rows(bs)[r]| <= 3
    ensures Flatten(Rows(bs)) == bs
  {
    if |bs| > 3 {
      var tail := Rows(bs[3..]);
      RowsShape(bs[3..]);
      assert Rows(bs) == [bs[..3]] + tail;
      FlattenCons(bs[..3], tail);
      assert forall r :: 0 < r < |Rows(bs)| ==> Rows(bs)[r] == tail[r - 1];
      assert bs[..3] + bs[3..] == bs;
    } else if bs != [] {
      assert Rows(bs) == [bs];
      FlattenCons(bs, []);
    }
  }

  lemma FlattenCons<T>(row: seq<T>, rows: seq<seq<T>>)
    ensures Flatten([row] + rows) == row + Flatten(rows)
  {
    assert ([row] + rows)[1..] == rows;
  }

  // ---------------------------------------------------------------- /films

  /** The text block and button of one movie, or `None` when it cannot be formatted. */
  function Entry(mediaTypes: seq<(string, string)>, movie: map<string, Json>): Option<(string, Button)> {
    match MovieCommon(mediaTypes, movie)
    case None => None
    case Some(info) => Some((ListBlock(info), ListButton(info)))
  }

  function EntryOf(mediaTypes: seq<(string, string)>): map<string, Json> -> Option<(string, Button)> {
    (movie: map<string, Json>) => Entry(mediaTypes, movie)
  }

  /** The entries of every movie, or `None` when one of them cannot be formatted. */
  function FilmsEntries(mediaTypes: seq<(string, string)>, data: seq<map<string, Json>>): Option<seq<(string, Button)>> {
    AllOf(data, EntryOf(mediaTypes))
  }

  function Texts(es: seq<(string, Button)>): seq<string> {
    if es == [] then [] else Texts(es[..|es| - 1]) + [es[|es| - 1].0]
  }

  function Buttons(es: seq<(string, Button)>): seq<Button> {
    if es == [] then [] else Buttons(es[..|es| - 1]) + [es[|es| - 1].1]
  }

  /** `format_films_response`: the blocks joined by blank lines and the buttons in rows of three,
      or `None` for its `(None, None)`. */
  function FilmsResponse(mediaTypes: seq<(string, string)>, data: seq<map<string, Json>>): Option<(string, Keyboard)> {
    match FilmsEntries(mediaTypes, data)
    case None => None
    case Some(es) => Some((Join(Texts(es), "\n\n"), Rows(Buttons(es))))
  }

  lemma {:induction false} TextsButtons(es: seq<(string, Button)>)
    ensures |Texts(es)| == |es| && |Buttons(es)| == |es|
    ensures forall k :: 0 <= k < |es| ==> Texts(es)[k] == es[k].0 && Buttons(es)[k] == es[k].1
  {
    if es != [] {
      TextsButtons(es[..|es| - 1]);
    }
  }

  lemma TextsButtonsSnoc(es: seq<(string, Button)>, e: (string, Button))
    ensures Texts(es + [e]) == Texts(es) + [e.0] && Buttons(es + [e]) == Buttons(es) + [e.1]
  {
    assert (es + [e])[..|es|] == es;
  }

  /** Every block is non-empty, so the text is empty exactly when there are no movies. */
  lemma {:induction false} JoinEmpty(parts: seq<string>, sep: string)
    requires forall k :: 0 <= k < |parts| ==> parts[k] != ""
    ensures Join(parts, sep) == "" <==> parts == []
  {
    if |parts| > 1 {
      assert |Join(parts, sep)| >= |parts[0]|;
    }
  }

  /** The `/films` text is empty exactly when there is no movie, and the keyboard has `ceil(n / 3)`
      rows whose buttons, read in order, are the movies' buttons in movie order. */
  lemma FilmsResponseShape(mediaTypes: seq<(string, string)>, data: seq<map<string, Json>>)
    requires FilmsResponse(mediaTypes, data).Some?
    ensures var (text, rows) := FilmsResponse(mediaTypes, data).value;
      && (text == "" <==> data == [])
      && |rows| == (|data| + 2) / 3
      && (forall r :: 0 <= r < |rows| ==> 1 <= |rows[r]| <= 3)
      && |Flatten(rows)| == |data|
      && forall k :: 0 <= k < |data| ==> Some(Flatten(rows)[k]) == ButtonOf(mediaTypes, data[k])
  {
    var es := FilmsEntries(mediaTypes, data).value;
    AllOfSpec(data, EntryOf(mediaTypes));
    TextsButtons(es);
    RowsShape(Buttons(es));
    forall k | 0 <= k < |data| ensures Texts(es)[k] != "" && Some(Buttons(es)[k]) == ButtonOf(mediaTypes, data[k]) {
      EntryParts(mediaTypes, data[k], es[k]);
    }
    JoinEmpty(Texts(es), "\n\n");
  }

  /** A formatted entry has a non-empty block, and its button is the movie's list button. */
  lemma EntryParts(mediaTypes: seq<(string, string)>, movie: map<string, Json>, e: (string, Button))
    requires Some(e) == Entry(mediaTypes, movie)
    ensures e.0 != "" && ButtonOf(mediaTypes, movie) == Some(e.1)
  {
    var info := MovieCommon(mediaTypes, movie).value;
    assert e.0 == ListBlock(info);
    assert |ListBlock(info)| >= |", "|;
  }

  /** The list button of one movie, when it can be formatted. */
  function ButtonOf(mediaTypes: seq<(string, string)>, movie: map<string, Json>): Option<Button> {
    match MovieCommon(mediaTypes, movie)
    case None => None
    case Some(info) => Some(ListButton(info))
  }

  /** `format_films_response` as the bot runs it: one pass building the blocks and buttons, then a
      pass cutting the buttons into rows of three. */
  method FormatFilmsResponse(mediaTypes: seq<(string, string)>, data: seq<map<string, Json>>)
    returns (r: Option<(string, Keyboard)>)
    ensures r == FilmsResponse(mediaTypes, data)
  {
    var entries := CollectEntries(mediaTypes, data);
    if entries.None? {
      return None;
    }
    var (response, buttons) := entries.value;
    var keyboard := ChunkRows(buttons);
    r := Some((Join(response, "\n\n"), keyboard));
  }

  /** The loop over the movies: the text blocks and the buttons, in movie order. */
  method CollectEntries(mediaTypes: seq<(string, string)>, data: seq<map<string, Json>>)
    returns (r: Option<(seq<string>, seq<Button>)>)
    ensures FilmsEntries(mediaTypes, data).None? ==> r.None?
    ensures FilmsEntries(mediaTypes, data).Some? ==>
      r == Some((Texts(FilmsEntries(mediaTypes, data).value), Buttons(FilmsEntries(mediaTypes, data).value)))
  {
    var response: seq<string> := [];
    var buttons: seq<Button> := [];
    var i := 0;
    while i < |data|
      invariant i <= |data|
      invariant AllOf(data[..i], EntryOf(mediaTypes)).Some?
      invariant response == Texts(AllOf(data[..i], EntryOf(mediaTypes)).value)
      invariant buttons == Buttons(AllOf(data[..i], EntryOf(mediaTypes)).value)
    {
      var entry := Entry(mediaTypes, data[i]);
      assert entry == EntryOf(mediaTypes)(data[i]);
      if entry.None? {
        assert data[..i + 1][..i] == data[..i];
        AllOfFails(data, EntryOf(mediaTypes), i + 1);
        return None;
      }
      ghost var es := AllOf(data[..i], EntryOf(mediaTypes)).value;
      AllOfStep(data, EntryOf(mediaTypes), i);
      TextsButtonsSnoc(es, entry.value);
      response := response + [entry.value.0];
      buttons := buttons + [entry.value.1];
      i := i + 1;
    }
    assert data[..i] == data;
    r := Some((response, buttons));
  }

  /** Cutting from `j` takes the next three buttons, or all that are left, as one row. */
  lemma RowsStep<T>(bs: seq<T>, j: nat, end: nat)
    requires j < |bs| && end == (if j + 3 <= |bs| then j + 3 else |bs|)
    ensures Rows(bs[j..]) == [bs[j..end]] + Rows(bs[end..])
  {
    var rest := bs[j..];
    if |rest| > 3 {
      assert rest[..3] == bs[j..end] && rest[3..] == bs[end..];
    } else {
      assert rest == bs[j..end] && bs[end..] == [];
    }
  }

  /** The loop cutting the buttons into rows of three. */
  method ChunkRows(buttons: seq<Button>) returns (keyboard: Keyboard)
    ensures keyboard == Rows(buttons)
  {
    keyboard := [];
    var j := 0;
    while j < |buttons|
      invariant 0 <= j <= |buttons|
      invariant keyboard + Rows(buttons[j..]) == Rows(buttons)
      decreases |buttons| - j
    {
      var end := if j + 3 <= |buttons| then j + 3 else |buttons|;
      RowsStep(buttons, j, end);
      ghost var before := keyboard;
      keyboard := keyboard + [buttons[j..end]];
      assert before + ([buttons[j..end]] + Rows(buttons[end..])) == keyboard + Rows(buttons[end..]);
      j := end;
    }
  }

  // ---------------------------------------------------------------- /film and /filmr

  /** The first element of `docs` when the answer has that key, the answer itself otherwise, when
      that is an object; `None` when the lookup raises or the record is not an object. */
  function FilmRecord(data: Json): Option<map<string, Json>> {
    match data
    case JObj(fields) =>
      if "docs" in fields then
        match fields["docs"]
        case JArr(items) => if items != [] && items[0].JObj? then Some(items[0].fields) else None
        case _ => None
      else Some(fields)
    case _ => None
  }

  /** The single-film text and its one row of two buttons, or `None` when formatting raises. */
  function FormatFilm(mediaTypes: seq<(string, string)>, data: Json): Option<(string, Keyboard)> {
    match FilmRecord(data)
    case None => None
    case Some(movie) =>
      match MovieCommon(mediaTypes, movie)
      case None => None
      case Some(info) => Some((FilmBlock(info), [[Button("Кинопоиск", info.link), Button("Смотреть", info.linkWatch)]]))
  }

  /** What a single-film formatter hands back to its caller: a pair, or a bare `None`. */
  datatype Handed = Pair(text: Option<string>, keyboard: Option<Keyboard>) | BareNone

  /** `format_film_response`: `(None, None)` on failure. */
  function FormatFilmResponse(mediaTypes: seq<(string, string)>, data: Json): (h: Handed)
    ensures h.Pair?
    ensures h.text.Some? <==> FormatFilm(mediaTypes, data).Some?
    ensures h.keyboard.Some? <==> FormatFilm(mediaTypes, data).Some?
  {
    match FormatFilm(mediaTypes, data)
    case None => Pair(None, None)
    case Some((text, kb)) => Pair(Some(text), Some(kb))
  }

  /** `format_filmr_response` as written: a bare `None` on failure. */
  function FormatFilmrResponseAsWritten(mediaTypes: seq<(string, string)>, data: Json): (h: Handed)
    ensures h.BareNone? <==> FormatFilm(mediaTypes, data).None?
    ensures h.Pair? ==> h.text.Some? && h.keyboard.Some?
  {
    match FormatFilm(mediaTypes, data)
    case None => BareNone
    case Some((text, kb)) => Pair(Some(text), Some(kb))
  }

  /** A film's record is the first of its `docs` when it has them, itself otherwise; its reply has
      a non-empty text and exactly one row: the catalog button, then the watch button. */
  lemma SingleFilmShape(mediaTypes: seq<(string, string)>, data: Json)
    requires FormatFilm(mediaTypes, data).Some?
    ensures data.JObj?
    ensures "docs" in data.fields ==>
              (data.fields["docs"].JArr? && data.fields["docs"].items != []
               && FilmRecord(data) == Some(data.fields["docs"].items[0].fields))
    ensures "docs" !in data.fields ==> FilmRecord(data) == Some(data.fields)
    ensures var (text, kb) := FormatFilm(mediaTypes, data).value;
      var info := MovieCommon(mediaTypes, FilmRecord(data).value).value;
      && text != ""
      && kb == [[Button("Кинопоиск", info.link), Button("Смотреть", info.linkWatch)]]
  {
  }
}
