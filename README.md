# tg-kino-bot core in Dafny

This project models the logic of a Telegram bot that suggests films. It proves properties about that model.

- **`/films` and `/filmr`** read filter words after the command: a rating, a release year, a media type, genres and countries. The bot builds a query URL for a movie API from them, fetches random movies (up to three for `/films`, one for `/filmr`) and replies with Markdown text and an inline keyboard.
- **`/film`** searches by title.
- **`/vote` and `/poll`** turn a comma-separated list into poll options.
- **`/setname`, `/removename` and `/myname`** manage a user's custom display name.
- **The users table** is a SQLite table keyed by Telegram user id. It holds a username, an optional custom name and a "watching" flag, and feeds the mention listings.

The filter pipeline exists twice in the repository: `main.py` and the refactored `algorithm.py`. They differ only in the media type assumed when no word names one: `None` in `main.py`, `'movie'` in `algorithm.py`. The model defines the pipeline once, with that default in `FilterParser.Config.defaultType`. The constants `FilterParser.MainDefaultType` and `FilterParser.AlgorithmDefaultType` give the two values.

Modules:

| file | module | what it holds |
|---|---|---|
| `text.dfy` | `Text` | Python string operations the bot uses: `strip`, `split`, `join`, `replace`, `str(int)`, removing a leading command |
| `json.dfy` | `Json` | decoded API answers, with Python truthiness, `str()`, `dict.get`, hashability and `== 0` |
| `folds.dfy` | `Folds` | left folds, filters and fallible traversals, with the facts the loops rely on |
| `filters.dfy` | `FilterParser` | `variables_films_logic`: the word classifier, as a fold (`Parse`) and as the loop the bot runs (`ParseFilters`) |
| `url.dfy` | `QueryUrl` | `make_url` and `encode_param` |
| `formatter.dfy` | `Formatter` | `format_movie_common`, `format_films_response`, `format_film_response`, `format_filmr_response` |
| `commands.dfy` | `FilmCommands` | the `/films` attempt loop and the `/filmr` and `/film` replies |
| `polls.dfy` | `Polls` | `vote_msg`: option parsing, case-insensitive de-duplication, the 2..10 bound |
| `users.dfy` | `Users` | the `Database` class over a map from user id to row |
| `names.dfy` | `Names` | `setname_remove` and `get_user_name` |

What the model takes as parameters:

- **Fetch results.** The movie API's answers are inputs: `Option<Json>` per request, where `None` stands for the `None` that `fetch_movie_data` returns on a failed request.
- **Vocabularies and year.** The media-type table, the genre and country vocabularies and the current year are fields of `FilterParser.Config`.
- **Case folding.** `str.lower()` is a given function `lower: string -> string`.
- **Bot name.** The bot's username is a literal string.

## Model

| member | source | states |
|---|---|---|
| `FilterParser.TokensAreClean` | main.py:69-72 | every word left after removing the command and bot name, replacing commas and splitting is non-empty and holds no whitespace and no comma |
| `FilterParser.Tokens` | main.py:69-72 | the words after the command and bot name, with commas read as spaces; `TokensAreClean`, `TokensOfCommand`, `TokensOfBotCommand` and `BareCommandHasNoWords` state what they are |
| `FilterParser.TokensOfCommand` | main.py:69-72 | `/films` or `/filmr`, one space and clean words joined by spaces give back exactly those words, whenever the bot name cannot start with whitespace |
| `FilterParser.TokensOfBotCommand` | main.py:69-72 | `/films` or `/filmr`, the bot name, one space and clean words joined by spaces give back exactly those words: the bot name is cut off with the command |
| `FilterParser.Step` | main.py:83-129 | one pass of the loop body on a word; `StepFields` states its effect field by field |
| `FilterParser.Classify` | main.py:83-129 | the loop over all the words from the defaults; `ClassifySnoc` and the `Last...WordWins` lemmas state its result |
| `FilterParser.Parse` | main.py:68-136 | the tuple `(rating, year, media_type, genre, country)`; `ParseFilters` is the loop that computes it, and the lemmas below state each field |
| `FilterParser.StepFields` | main.py:83-129 | one word overwrites or keeps each of rating, year and media type according to the rating, then year, then type chain, and appends its genre and country entries |
| `FilterParser.ClassifyScalar` | algorithm.py:52-71 | the loop body's `if/elif` chain computes the same rating, year and media type as the word step |
| `FilterParser.GenresOfWord` | algorithm.py:74-82 | the genre branch appends exactly the word's genre entries |
| `FilterParser.CountriesOfWord` | algorithm.py:85-97 | the country loop (every country for a signed word, the first one for an unsigned word) appends exactly the word's country entries |
| `FilterParser.ParseFilters` | algorithm.py:33-105 | the parser's loop over the words, with its defaults and final joins, yields `Parse(cfg, text)` |
| `FilterParser.ClassifySnoc` | main.py:83 | the parser state after one more word is one step from the state before it |
| `FilterParser.LastRatingWordWins` | main.py:87-92 | the rating is the last word that reads as a rating (1..10 or a range of two such) |
| `FilterParser.LastYearWordWins` | main.py:95-100 | the year is the last word that reads as a year (1890..current year, or a range) and not as a rating |
| `FilterParser.LastTypeWordWins` | main.py:103-105 | the media type is the code of the first table entry whose label folds like the last word that names a type and is neither rating nor year |
| `FilterParser.UnsetFieldsKeepDefaults` | main.py:77-79 | a field no word sets keeps `1-10`, `1890-<current year>` or the default media type |
| `FilterParser.AlgorithmTypeAlwaysSet` | algorithm.py:45 | with the default `'movie'` and non-empty table codes, the parsed media type is always set |
| `FilterParser.EntriesFromEveryWord` | main.py:108-129 | the genre and country lists are the entries of every word in order, including words consumed as rating, year or type |
| `FilterParser.JoinedEntries` | main.py:132-133 | the genre and country parameters are those entries joined by `&genres.name=` and `&countries.name=`, and `None` exactly when there are none |
| `FilterParser.GenreSpelling` | main.py:108-116 | a word naming no genre adds nothing; a word naming one adds its sign (`+` when unsigned) and the vocabulary's first matching spelling |
| `FilterParser.SignedWordNamesEveryCountry` | main.py:119-124 | a signed word adds its sign before every country one of whose long words it folds to, and nothing else |
| `FilterParser.UnsignedWordNamesFirstCountry` | main.py:126-129 | an unsigned word adds `+` before the first country it names, or nothing |
| `FilterParser.CountrySignAsymmetry` | main.py:119-129 | a word naming two countries adds both when signed with `+`, but only one when bare |
| `FilterParser.BareCommandDefaults` | main.py:77-81 | the bare `/films` or `/filmr` parses to `("1-10", "1890-<current year>", default type, None, None)` |
| `FilterParser.BareCommandHasNoWords` | main.py:69-72 | the bare command leaves no words |
| `QueryUrl.EncodeRemovesSigns` | algorithm.py:114-117 | the encoded value holds no `+` and no `-` |
| `QueryUrl.Encode` | algorithm.py:114-117 | `encode_param`; `EncodeCons`, `EncodeRemovesSigns` and `DecodeEncode` state what it does |
| `QueryUrl.MakeUrl` | algorithm.py:111-131 | `make_url`; `UrlLayout` gives the URL it builds in closed form |
| `QueryUrl.EncodeCons` | algorithm.py:116 | encoding maps `+` to `%2B`, `-` to `%21` and keeps every other character |
| `QueryUrl.DecodeEncode` | algorithm.py:114-117 | reading `%2B` and `%21` back undoes the encoding of any value without `%` |
| `QueryUrl.UrlLayout` | algorithm.py:120-128 | the URL is the base, `rating.kp=` and `year=`, then `&type=`, `&countries.name=` (encoded) and `&genres.name=` (encoded), each only when set |
| `QueryUrl.JoinNonEmpty5` | algorithm.py:128 | joining the non-empty ones among five parameters, the first two non-empty, puts the separator only before the present ones |
| `QueryUrl.NonEmptyKeeps` | algorithm.py:128 | dropping the empty parameters keeps every non-empty one |
| `QueryUrl.RangesPassThrough` | algorithm.py:121-122 | a rating or year range the parser accepted is sent unchanged |
| `QueryUrl.SingleRatingExpands` | algorithm.py:121 | a one-character rating `N` is sent as `N-10`, itself a valid rating range |
| `QueryUrl.SingleYearExpands` | algorithm.py:122 | a four-digit year `Y` is sent as `Y-<current year>`, itself a valid year range |
| `QueryUrl.TypeParamSent` | algorithm.py:123 | a set media type is always among the parameters sent |
| `QueryUrl.AlgorithmUrlHasType` | algorithm.py:45 | with the parser of `algorithm.py`, every URL carries a `type=` parameter |
| `Formatter.TitleLineAsWritten` | algorithm.py:190-193 | the title line as written; `TitleLineDiffers` states where it departs from the intended one |
| `Formatter.TitleLine` | algorithm.py:190-193 | corrected, see Findings: the placeholder exactly when neither name is truthy; otherwise the line starts with the bold name, or is the bold alternative name when there is no name |
| `Formatter.TitleLineDiffers` | algorithm.py:190-193 | the title line as written and as intended agree exactly when the name is truthy or the alternative name is falsy |
| `Formatter.MovieCommon` | algorithm.py:171-212 | the fields of `format_movie_common`, with the title line as written, or `None` where it raises; `MovieCommonSucceeds` and `LinkTemplates` state when it succeeds and what the links are |
| `Formatter.MovieCommonSucceeds` | algorithm.py:171-212 | the common formatting succeeds exactly when the type code is hashable and `rating`, `externalId` and `backdrop` are falsy or objects |
| `Formatter.LinkTemplates` | algorithm.py:186-188 | the catalog link uses `series/` exactly for `tv-series` and ends with the id; the IMDB link is the home page exactly when there is no IMDB id; the watch link is the base plus the id |
| `Formatter.RowsShape` | algorithm.py:242-243 | cutting `n` buttons gives `ceil(n/3)` rows of one to three buttons, which flatten back to the buttons in order |
| `Formatter.ChunkRows` | main.py:272-273 | the row loop builds exactly the rows of three |
| `Formatter.CollectEntries` | main.py:252-269 | the loop over the movies yields every block and button in movie order, or fails when one movie fails |
| `Formatter.FormatFilmsResponse` | main.py:245-278 | the list formatter yields the blocks joined by blank lines with the rows of three, or `(None, None)` when formatting raises |
| `Formatter.FilmsResponseShape` | algorithm.py:215-245 | the list text is empty exactly when there are no movies; there are `ceil(n/3)` rows of one to three buttons, holding each movie's `title (year)` button in movie order |
| `Formatter.EntryParts` | main.py:256-269 | a formatted movie has a non-empty block and its list button |
| `Formatter.JoinEmpty` | algorithm.py:245 | joining non-empty blocks gives the empty text exactly when there are none |
| `Formatter.FilmsResponse` | algorithm.py:215-248 | the list text and keyboard, or `None` where formatting raises; `FilmsResponseShape` states their shape |
| `Formatter.FormatFilm` | main.py:281-311 | the single-film text and its one row of two buttons, from `docs[0]` or the answer itself; `SingleFilmShape` states it |
| `Formatter.FormatFilmResponse` | main.py:281-315 | always a pair: both text and keyboard when the film can be formatted, `(None, None)` otherwise |
| `Formatter.FormatFilmrResponseAsWritten` | main.py:318-350 | the pair when the film can be formatted; a bare `None` exactly when it cannot |
| `Formatter.SingleFilmShape` | algorithm.py:251-285 | a formatted single film comes from `docs[0]` when `docs` is present and from the answer itself otherwise; it has non-empty text and one row: the catalog button, then the watch button |
| `FilmCommands.CollectMovies` | algorithm.py:331-352 | the attempt loop ends in the state the attempt fold gives after three attempts |
| `FilmCommands.Attempt` | main.py:380-399 | one pass of the attempt loop; `AttemptKeeps`, `QuotaStops` and `EmptyAnswers` state its cases |
| `FilmCommands.Attempts` | main.py:379-399 | the loop state after `n` attempts; `KeptDistinct`, `KeptFirstSeen` and `KeptComplete` state what it keeps |
| `FilmCommands.FilmsReply` | main.py:379-406 | the reply of `/films` given its three answers; `HandleFilms` computes it and `QuotaStops` states the quota case |
| `FilmCommands.HandleFilms` | algorithm.py:323-359 | `/films` requests the parser's URL and replies with the quota message, "not found" or the formatted list, as the attempts decide |
| `FilmCommands.StoppedStays` | algorithm.py:338-345 | once an attempt has stopped the loop with a reply, later attempts change nothing |
| `FilmCommands.AttemptKeeps` | algorithm.py:349-352 | an attempt keeps the list, or appends a movie whose id is truthy, hashable and new; a movie with a truthy id always has its id in the list afterwards |
| `FilmCommands.KeptDistinct` | main.py:379-399 | after `n` attempts at most `n` movies are kept, each with a truthy hashable id, no id twice |
| `FilmCommands.KeptFirstSeen` | main.py:395-399 | each kept movie is the first answer carrying its id |
| `FilmCommands.KeptComplete` | main.py:395-399 | every answer that is a movie with a truthy id has its id kept |
| `FilmCommands.IdsSpec` | algorithm.py:349 | the id list has one id per kept movie, in order |
| `FilmCommands.FirstWithId` | main.py:397 | the index of the first answer carrying an id, or `n` when none does |
| `FilmCommands.QuotaStops` | algorithm.py:337-339 | a quota marker on any attempt that is reached ends `/films` with the quota reply, whatever the media-type table |
| `FilmCommands.EmptyAnswers` | algorithm.py:342-346 | an empty first answer gives "not found" at once; an empty later answer is skipped |
| `FilmCommands.FilmRandomUrl` | main.py:411-413 | `/filmr` asks the random endpoint with `rating.kp=` and `year=`, then `&type=`, `&countries.name=` (encoded) and `&genres.name=` (encoded) each only when set: the URL `/films` asks for the same text |
| `FilmCommands.FilmRandomReplyAsWritten` | main.py:409-430 | the `/filmr` reply as written; `FilmrFormatErrorUnreachable` states that its format-error branch is never taken |
| `FilmCommands.FilmRandomReply` | main.py:409-430 | corrected, see Findings: `/filmr` replies with the format-error message exactly when a present, non-quota answer cannot be formatted, and with Markdown exactly when it can |
| `FilmCommands.FilmrFormatErrorUnreachable` | main.py:426 | as written, `/filmr` never sends its format-error reply: an answer that cannot be formatted gets the generic error |
| `FilmCommands.FilmrListAnswer` | algorithm.py:379 | the answer `[1]` gets the generic error as written and the format-error reply as intended |
| `FilmCommands.FilmTitleUrl` | main.py:435-436 | the search URL: after `/film` the query starts with no whitespace; a text not starting with `/film` is sent whole |
| `FilmCommands.FilmTitleQuery` | main.py:435-436 | `/film`, one space and a query not starting with whitespace send exactly that query, whenever the bot name cannot start with whitespace |
| `FilmCommands.FilmTitleBotQuery` | main.py:435-436 | `/film`, the bot name, one space and a query not starting with whitespace send exactly that query |
| `FilmCommands.FilmTitleReply` | main.py:433-446 | the `/film` reply; `FilmTitleOutcomes` states its cases |
| `FilmCommands.FilmTitleOutcomes` | algorithm.py:386-401 | `/film` gives the quota marker the generic error (it has no `total`), and replies with Markdown exactly when the answer is an object with a non-zero `total` that formats |
| `Polls.OptionsClean` | main.py:612-613 | every option is non-empty, has no comma and no whitespace at either end |
| `Polls.Options` | main.py:612-613 | the stripped non-empty pieces between commas; `OptionsClean` states what they are |
| `Polls.Vote` | main.py:614-624 | the reply on the options text; `PollBounds` states it |
| `Polls.VoteMessage` | main.py:611-624 | `vote_msg` on the whole text: the command and bot name are removed, then `Vote`; `VoteCommand` and `VoteBotCommand` state it |
| `Polls.VoteCommand` | main.py:611 | `/vote` or `/poll`, one space and an options text not starting with whitespace are answered as that text, whenever the bot name cannot start with whitespace |
| `Polls.VoteBotCommand` | main.py:611 | `/vote` or `/poll`, the bot name, one space and any options text are answered as that text |
| `Polls.BuildDictSpec` | main.py:614 | the de-duplicating dictionary holds each fold once, in order of first occurrence, with the last option of that fold |
| `Polls.DedupSpec` | main.py:614 | the merged options have pairwise distinct folds, in first-occurrence order, each spelled as the last option with that fold |
| `Polls.DedupCovers` | main.py:614 | every option's fold is represented among the merged options |
| `Polls.PollBounds` | main.py:615-624 | a poll is sent only with 2..10 options of distinct folds; fewer than 2 gives the first refusal, more than 10 the second |
| `Polls.PutFound` | main.py:614 | assigning an existing key replaces its value in place |
| `Polls.PutNew` | main.py:614 | assigning a new key appends it |
| `Polls.DistinctSpec` | main.py:614 | the reference list of distinct folds has no duplicates and the same members |
| `Polls.LastWithSpec` | main.py:614 | the last option with a fold has that fold and no later option does |
| `Names.ValidateSpec` | main.py:553-570 | a name is stored exactly when it is non-empty and has none of the 24 forbidden characters; otherwise the reply names the emptiness or the leftmost forbidden character |
| `Names.Validate` | main.py:553-568 | the `/setname` checks; `ValidateSpec` states them |
| `Names.Answer` | main.py:549-581 | the reply per command; `Dispatch` and `SaveThenRead` state it |
| `Names.Updated` | main.py:569-575 | the table after a command: only a valid `/setname` and a `/removename` write; `Dispatch` and `SaveThenRead` state it |
| `Names.ValidateExamples` | main.py:561-570 | `Ян!` is refused on `!`, `Ян` is saved |
| `Names.FirstLine` | main.py:545 | the text up to the first line break |
| `Names.NamePart` | main.py:545-551 | the name holds no line break and no whitespace at either end |
| `Names.MatchCommand` | main.py:545-551 | `None` exactly when the text, after an optional `/`, starts with none of the three commands (case-folded); otherwise the name holds no line break and no whitespace at either end |
| `Names.SetNameLine` | main.py:545-551 | `/setname` followed by a one-line name yields that name, stripped |
| `Names.Dispatch` | main.py:549-581 | the reply and the new table after a matched command follow the handler's branches |
| `Names.SetNameRemove` | main.py:544-586 | the handler replies per its branches and writes the table only for a valid `/setname` or a `/removename` |
| `Names.SaveThenRead` | main.py:569-579 | a registered user who saves a name reads it back with `/myname`; after `/removename` they read none |
| `Names.UnmatchedGetsHelp` | main.py:582-586 | a text the handler's pattern does not match gets the help text and changes nothing |
| `Names.GetUserName` | main.py:50-53 | the display name (custom name, else username, else the id), or `None` where the source raises because the user has no row |
| `Users.DisplayName` | database.py:44 | the custom name if non-empty, else the username if non-empty, else the id in decimal; never empty |
| `Users.Handle` | database.py:48 | the username if non-empty, else the id in decimal; never empty |
| `Users.CustomNameOf` | database.py:114-118 | a name exactly when the row exists and holds a non-empty custom name, and then that name |
| `Users.Database.constructor` | database.py:68-76 | the table holds the given rows, one per user id |
| `Users.Database.UpdateNotifyWatchingStatus` | database.py:30-35 | sets the flag to 1 or 0 on that user's row only and always answers `True` |
| `Users.Database.Format` | database.py:43-49 | the listing holds one entry per given id, with the display-name and username fallbacks, and nothing else |
| `Users.Database.GetAllUsersExcept` | database.py:38-50 | lists every user except the excluded one, each once |
| `Users.Database.GetAllUsersWatching` | database.py:53-65 | lists exactly the users with flag 1 except the excluded one, each once |
| `Users.Database.AddUser` | database.py:79-86 | inserts the row only when the id has none |
| `Users.Database.GetUserData` | database.py:89-92 | the user's row exactly when one exists |
| `Users.Database.SetCustomName` | database.py:95-98 | sets that user's custom name, leaving everything else |
| `Users.Database.RemoveCustomName` | database.py:101-104 | clears that user's custom name, leaving everything else |
| `Users.Database.CheckAndAddUser` | database.py:107-111 | registers an unknown user with the given custom name (`None` from the middleware) and flag 0; a known user is left unchanged |
| `Users.Database.GetCustomName` | database.py:114-118 | reads the custom name, `None` for no row, `NULL` or `""` |
| `Users.AddIfAbsentSpec` | database.py:107-111 | adding keeps an existing row untouched and is idempotent; a new id gets exactly the new row; other rows are unchanged |
| `Users.WithCustomNameSpec` | database.py:95-104 | a name update changes only that user's custom name; an unknown id changes nothing |
| `Users.WithWatchingSpec` | database.py:30-35 | a flag update changes only that user's flag; an unknown id changes nothing |
| `Users.NameReadBack` | database.py:95-118 | a stored non-empty name reads back as itself; an empty or removed name reads back as none |
| `Users.SubscribeListing` | database.py:53-65 | subscribing puts a registered user on every watching listing but their own; unsubscribing takes them off |
| `Users.WatchingWithinAll` | database.py:38-65 | the watching listing is exactly the part of the full listing with flag 1 |
| `Users.ListsExactlySnoc` | database.py:43-49 | formatting one more row keeps the listing exact |
| `Text.SplitOnJoin` | main.py:612 | joining the pieces of a split with the separator gives the text back, with one more piece than separators |
| `Text.WordsOfJoin` | main.py:72 | splitting a space-joined list of clean words gives the words back |
| `Text.StripCommand` | main.py:69 | a text that starts with none of the commands is unchanged; `StripCommandMatch` and `StripCommandBotMatch` state the matching case without and with the bot name |
| `Text.StripCommandNoSpace` | main.py:69 | after a matching command, what is left does not start with whitespace |
| `Text.StripCommandMatch` | main.py:69 | a listed command that no earlier one prefixes, one space and a query not starting with whitespace leave exactly the query, whenever the bot name cannot start with whitespace |
| `Text.StripCommandBotMatch` | main.py:69 | a listed command that no earlier one prefixes, the bot name, one space and any query leave the query without its leading whitespace |
| `Text.NatToString` | algorithm.py:44 | `str(n)`: decimal digits whose value is `n`, with no leading zero |

## Left out

- Sending, replying, deleting and timing out messages, polls and keyboards, and the middleware are left out: they are I/O. The handlers' replies are values.
- `fetch_movie_data` (HTTP session, headers, SSL) and `get_random_gif` are left out: each answer is an input.
- `datetime.now()` is left out: the current year is a parameter.
- `coin_flip`, `send_random_gif`, the help texts, `all_users_mention`, `get_mentions` (its emoji check), `watching_command`, `watch_unwatch` and `delete_replied_message` are not part of this model. They are framework plumbing, randomness or text output around the modelled operations.
- `send_filtered_movie` is left out: it routes on the first word after removing the bot name. Each handler is modelled on the text it receives, and `FilmCommands.CommandFailed` is the reply this router sends when a handler raises.
- `Database.connect`, `execute_query` and the printing of SQLite errors are left out: the table is a map and every statement succeeds. `create_table` is left out: the table is taken to exist, and the constructor receives its rows.
- `Users.Database.GetAllUsersExcept`, `Users.Database.GetAllUsersWatching`: the order of the rows is not modelled. The queries have no `ORDER BY`, so a listing is specified as exactly one entry per selected id, in any order.
- `Users.Database.UpdateNotifyWatchingStatus`: a SQL error, which also answers `True`, is not modelled.
- `FilterParser.IsRatingToken`, `FilterParser.IsYearToken`: a digit is an ASCII digit. Python's `isdigit` also accepts other Unicode digits. Some of those (such as `²`) make `int()` raise, so the source's parser returns `None`; a model word with such a character is simply not a number.
- Case folding is a given function, not Python's Unicode `str.lower()`. The regular expressions' `(?i)` flag is modelled with the same function.
- `Text.StripCommand`: the bot name is matched as a literal string. A name with regular-expression metacharacters would behave differently in the source.
- `Json.Render`: `str()` of lists and objects is rendered as the empty string, and floats carry the text Python prints for them. Python's equality across `1`, `1.0` and `True` is modelled only through `Json.EqualsZero` for `total`; ids compare as distinct values.
- `Polls.Vote`: the poll question text and the username in the refusals are left out. The reply is `TooFew`, `TooMany` or the options.
- `Names.SetNameRemove`: a database error caught by the handler (`Произошла ошибка: ...`) is not modelled, because the table operations cannot fail here.
- Logging calls and `env_config.py` are left out.
- `Formatter.FilmsResponseShape`: the text of each block is built by `Formatter.Block` with the source's layout, but only its non-emptiness is proved about it; the buttons are proved in full.

## Findings

| source | as written | input that shows it | evidently intended | confidence | as-written member | corrected member |
|---|---|---|---|---|---|---|
| algorithm.py:190-193 | the third branch of the title line tests `not title and title`, which never holds, so a movie with only an alternative name gets the "no title" placeholder (same in main.py:220-223) | `name = ""`, `alternativeName = "Alien"` | `not title and title_alt`: show `*Alien*` | not executed | `Formatter.TitleLineDiffers` | `Formatter.TitleLine` |
| algorithm.py:320 | `format_filmr_response` returns a bare `None` on failure, so the caller's two-name unpacking (algorithm.py:379, main.py:426) raises and `/filmr` never sends its own format-error reply (same in main.py:350) | an answer that is the non-empty list `[1]`: truthy, not a quota marker, not a movie | return `(None, None)` like `format_film_response`, so that the reply is "Ошибка при форматировании фильма 😢" | not executed | `FilmCommands.FilmrFormatErrorUnreachable` | `FilmCommands.FilmRandomReply` |

The formatter (`Formatter.MovieCommon`) builds its title line with `Formatter.TitleLineAsWritten`, so the list and single-film texts the model computes are the ones the code as written sends; `Formatter.TitleLine` is the intended line, and its properties are proved beside it.
