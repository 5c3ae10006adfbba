/** `make_url` and its `encode_param`: the query string sent to the movie API for `/films` and
    `/filmr`, built from the parser's five values. */
module QueryUrl {
  import opened Text
  import opened FilterParser

  /** The endpoint both commands ask for random movies at. */
  const RandomBase := "https://api.kinopoisk.dev/v1.4/movie/random?"

  // ---------------------------------------------------------------- encoding

  /** `encode_param`: every `+` becomes `%2B`, then every `-` becomes `%21`. */
  function Encode(s: string): string {
    Replace(Replace(s, '+', "%2B"), '-', "%21")
  }

  /** Reading `%2B` back as `+` and `%21` back as `-`. */
  function Decode(s: string): string {
    if |s| >= 3 && s[..3] == "%2B" then "+" + Decode(s[3..])
    else if |s| >= 3 && s[..3] == "%21" then "-" + Decode(s[3..])
    else if s == [] then []
    else [s[0]] + Decode(s[1..])
  }

  /** The encoded value holds no sign characters. */
  lemma EncodeRemovesSigns(s: string)
    ensures '+' !in Encode(s) && '-' !in Encode(s)
  {
    var plusFree := Replace(s, '+', "%2B");
    ReplaceRemoves(s, '+', "%2B", '+');
    ReplaceRemoves(plusFree, '-', "%21", '+');
    ReplaceRemoves(plusFree, '-', "%21", '-');
  }

  lemma {:induction false} ReplaceAppend(a: string, b: string, c: char, rep: string)
    ensures Replace(a + b, c, rep) == Replace(a, c, rep) + Replace(b, c, rep)
  {
    if a == [] {
      assert a + b == b;
    } else {
      var head := if a[0] == c then rep else [a[0]];
      assert (a + b)[0] == a[0] && (a + b)[1..] == a[1..] + b;
      assert Replace(a + b, c, rep) == head + Replace(a[1..] + b, c, rep);
      ReplaceAppend(a[1..], b, c, rep);
      assert Replace(a, c, rep) == head + Replace(a[1..], c, rep);
    }
  }

  /** Encoding works character by character. */
  lemma EncodeCons(x: char, t: string)
    ensures Encode([x] + t) == (if x == '+' then "%2B" else if x == '-' then "%21" else [x]) + Encode(t)
  {
    assert ([x] + t)[1..] == t;
    var head := if x == '+' then "%2B" else [x];
    assert Replace([x] + t, '+', "%2B") == head + Replace(t, '+', "%2B");
    ReplaceAppend(head, Replace(t, '+', "%2B"), '-', "%21");
    if x == '+' {
      assert Replace("%2B", '-', "%21") == "%2B";
    } else {
      assert Replace([x], '-', "%21") == (if x == '-' then "%21" else [x]);
    }
  }

  /** Decoding undoes the encoding of any value that holds no `%` of its own. */
  lemma {:induction false} DecodeEncode(s: string)
    requires '%' !in s
    ensures Decode(Encode(s)) == s
  {
    if s == [] {
      assert Encode(s) == [];
    } else {
      var t := s[1..];
      assert s == [s[0]] + t;
      EncodeCons(s[0], t);
      DecodeEncode(t);
      var e := Encode(t);
      if s[0] == '+' {
        assert ("%2B" + e)[..3] == "%2B" && ("%2B" + e)[3..] == e;
      } else if s[0] == '-' {
        assert ("%21" + e)[..3] == "%21" && ("%21" + e)[3..] == e;
      } else {
        assert ([s[0]] + e)[1..] == e;
      }
    }
  }

  // ---------------------------------------------------------------- parameters

  /** A one-character rating `N` asks for `N-10`; every other rating is sent as it is. */
  function RatingParam(rating: string): string {
    if |rating| != 1 then rating else rating + "-10"
  }

  /** A four-character year `Y` asks for `Y-<current year>`; every other year is sent as it is. */
  function YearParam(year: string, currentYear: int): string {
    if |year| != 4 then year else year + "-" + IntToString(currentYear)
  }

  /** The five parameters in their fixed order; an absent type, country or genre is `""`. */
  function UrlParams(f: Filters, currentYear: int): seq<string> {
    ["rating.kp=" + RatingParam(f.rating),
     "year=" + YearParam(f.year, currentYear),
     if Filled(f.mediaType) then "type=" + f.mediaType.value else "",
     if Filled(f.country) then "countries.name=" + Encode(f.country.value) else "",
     if Filled(f.genre) then "genres.name=" + Encode(f.genre.value) else ""]
  }

  /** `filter(None, xs)`: the non-empty strings, in order. */
  function NonEmpty(xs: seq<string>): seq<string> {
    if xs == [] then [] else (if xs[0] != "" then [xs[0]] else []) + NonEmpty(xs[1..])
  }

  /** The base followed by the non-empty parameters, joined by `&`. */
  function MakeUrl(base: string, f: Filters, currentYear: int): string {
    base + Join(NonEmpty(UrlParams(f, currentYear)), "&")
  }

  /** `sep` followed by each element, concatenated. */
  function Prefixed(sep: string, xs: seq<string>): string {
    if xs == [] then "" else sep + xs[0] + Prefixed(sep, xs[1..])
  }

  lemma {:induction false} JoinPrefixed(a: string, xs: seq<string>, sep: string)
    ensures Join([a] + xs, sep) == a + Prefixed(sep, xs)
    decreases |xs|
  {
    if xs != [] {
      assert ([a] + xs)[1..] == xs;
      assert [xs[0]] + xs[1..] == xs;
      JoinPrefixed(xs[0], xs[1..], sep);
    }
  }

  /** `sep + x` when `x` is non-empty, nothing otherwise. */
  function Opt(sep: string, x: string): string {
    if x != "" then sep + x else ""
  }

  /** The one-element list of `x`, or nothing when `x` is empty. */
  function Kept(x: string): seq<string> {
    if x != "" then [x] else []
  }

  lemma {:induction false} NonEmptyAppend(xs: seq<string>, ys: seq<string>)
    ensures NonEmpty(xs + ys) == NonEmpty(xs) + NonEmpty(ys)
  {
    if xs == [] {
      assert xs + ys == ys;
    } else {
      assert (xs + ys)[0] == xs[0] && (xs + ys)[1..] == xs[1..] + ys;
      NonEmptyAppend(xs[1..], ys);
    }
  }

  lemma NonEmptyOne(x: string)
    ensures NonEmpty([x]) == Kept(x)
  {
    assert [x][1..] == [];
  }

  /** `filter(None, ...)` keeps every non-empty element. */
  lemma {:induction false} NonEmptyKeeps(xs: seq<string>, i: nat)
    requires i < |xs| && xs[i] != ""
    ensures xs[i] in NonEmpty(xs)
  {
    if i > 0 {
      NonEmptyKeeps(xs[1..], i - 1);
    }
  }

  lemma {:induction false} PrefixedAppend(sep: string, xs: seq<string>, ys: seq<string>)
    ensures Prefixed(sep, xs + ys) == Prefixed(sep, xs) + Prefixed(sep, ys)
  {
    if xs == [] {
      assert xs + ys == ys;
    } else {
      assert (xs + ys)[0] == xs[0] && (xs + ys)[1..] == xs[1..] + ys;
      PrefixedAppend(sep, xs[1..], ys);
    }
  }

  lemma PrefixedKept(sep: string, x: string)
    ensures Prefixed(sep, Kept(x)) == Opt(sep, x)
  {
    if x != "" {
      assert [x][1..] == [];
    }
  }

  lemma NonEmptyCons(x: string, xs: seq<string>)
    ensures NonEmpty([x] + xs) == Kept(x) + NonEmpty(xs)
  {
    assert ([x] + xs)[0] == x && ([x] + xs)[1..] == xs;
  }

  /** The non-empty ones among five strings, the first two of which are non-empty. */
  lemma NonEmpty5(p0: string, p1: string, p2: string, p3: string, p4: string)
    requires p0 != "" && p1 != ""
    ensures NonEmpty([p0, p1, p2, p3, p4]) == [p0] + ([p1] + (Kept(p2) + (Kept(p3) + Kept(p4))))
  {
    var l3 := [p3] + [p4];
    var l2 := [p2] + l3;
    var l1 := [p1] + l2;
    assert [p0, p1, p2, p3, p4] == [p0] + l1;
    NonEmptyCons(p0, l1);
    NonEmptyCons(p1, l2);
    NonEmptyCons(p2, l3);
    NonEmptyCons(p3, [p4]);
    NonEmptyOne(p4);
  }

  /** Joining the non-empty ones among five strings, the first two of which are non-empty. */
  lemma JoinNonEmpty5(p0: string, p1: string, p2: string, p3: string, p4: string, sep: string)
    requires p0 != "" && p1 != ""
    ensures Join(NonEmpty([p0, p1, p2, p3, p4]), sep) == p0 + sep + p1 + Opt(sep, p2) + Opt(sep, p3) + Opt(sep, p4)
  {
    var tail := Kept(p2) + (Kept(p3) + Kept(p4));
    NonEmpty5(p0, p1, p2, p3, p4);
    JoinPrefixed(p0, [p1] + tail, sep);
    assert ([p1] + tail)[0] == p1 && ([p1] + tail)[1..] == tail;
    var o2, o3, o4 := Opt(sep, p2), Opt(sep, p3), Opt(sep, p4);
    assert Prefixed(sep, tail) == o2 + (o3 + o4) by {
      PrefixedAppend(sep, Kept(p2), Kept(p3) + Kept(p4));
      PrefixedAppend(sep, Kept(p3), Kept(p4));
      PrefixedKept(sep, p2);
      PrefixedKept(sep, p3);
      PrefixedKept(sep, p4);
    }
    assert Join(NonEmpty([p0, p1, p2, p3, p4]), sep) == p0 + (sep + p1 + (o2 + (o3 + o4)));
    Regroup(p0, sep, p1, o2, o3, o4);
  }

  /** Flattens the nested concatenation that joining the five parameters produces. */
  lemma Regroup(a: string, b: string, c: string, d: string, e: string, f: string)
    ensures a + (b + c + (d + (e + f))) == a + b + c + d + e + f
  {
  }

  /** The URL is the base, the rating and year parameters, then `type`, `countries.name` and
      `genres.name` each only when set, separated by `&`; only the country and genre values are
      encoded. */
  lemma UrlLayout(base: string, f: Filters, currentYear: int)
    ensures MakeUrl(base, f, currentYear) ==
      base + "rating.kp=" + RatingParam(f.rating) + "&year=" + YearParam(f.year, currentYear)
      + (if Filled(f.mediaType) then "&type=" + f.mediaType.value else "")
      + (if Filled(f.country) then "&countries.name=" + Encode(f.country.value) else "")
      + (if Filled(f.genre) then "&genres.name=" + Encode(f.genre.value) else "")
  {
    var ps := UrlParams(f, currentYear);
    JoinNonEmpty5(ps[0], ps[1], ps[2], ps[3], ps[4], "&");
    assert ps == [ps[0], ps[1], ps[2], ps[3], ps[4]];
    var r, y := RatingParam(f.rating), YearParam(f.year, currentYear);
    var t := if Filled(f.mediaType) then "&type=" + f.mediaType.value else "";
    var c := if Filled(f.country) then "&countries.name=" + Encode(f.country.value) else "";
    var g := if Filled(f.genre) then "&genres.name=" + Encode(f.genre.value) else "";
    OptPieces(f, currentYear);
    Regroup2(base, "rating.kp=", r, "&", "year=", y, t, c, g);
  }

  /** Each optional parameter, with its separator, reads `&name=value` or is absent. */
  lemma OptPieces(f: Filters, currentYear: int)
    ensures var ps := UrlParams(f, currentYear);
      && Opt("&", ps[2]) == (if Filled(f.mediaType) then "&type=" + f.mediaType.value else "")
      && Opt("&", ps[3]) == (if Filled(f.country) then "&countries.name=" + Encode(f.country.value) else "")
      && Opt("&", ps[4]) == (if Filled(f.genre) then "&genres.name=" + Encode(f.genre.value) else "")
      && "&" + "year=" == "&year="
  {
    OptPiece("type=", "&type=", f.mediaType, (v: string) => v);
    OptPiece("countries.name=", "&countries.name=", f.country, Encode);
    OptPiece("genres.name=", "&genres.name=", f.genre, Encode);
  }

  lemma OptPiece(name: string, full: string, v: Option<string>, enc: string -> string)
    requires "&" + name == full && name != ""
    ensures Opt("&", if Filled(v) then name + enc(v.value) else "") == (if Filled(v) then full + enc(v.value) else "")
  {
  }

  /** Rebrackets the URL so that the separator and `year=` read as the single piece `&year=`. */
  lemma Regroup2(base: string, a: string, r: string, amp: string, b: string, y: string, t: string, c: string, g: string)
    ensures base + ((a + r) + amp + (b + y) + t + c + g) == base + a + r + (amp + b) + y + t + c + g
  {
  }

  // ---------------------------------------------------------------- the parser's values in the URL

  /** A range the parser accepted is never expanded again: a rating range has at least three
      characters and a year range at least nine. */
  lemma RangesPassThrough(v: string, currentYear: int)
    ensures IsBoundedRange(v, 1, 10) ==> RatingParam(v) == v
    ensures IsBoundedRange(v, 1890, currentYear) ==> YearParam(v, currentYear) == v
  {
    var parts := SplitOn(v, '-');
    if |parts| == 2 {
      SplitOnJoin(v, '-');
      assert v == parts[0] + "-" + parts[1];
      if IsBoundedRange(v, 1890, currentYear) {
        FourDigitsAtLeast(parts[0]);
        FourDigitsAtLeast(parts[1]);
      }
    }
  }

  /** A single-digit rating becomes the range from it to 10. */
  lemma SingleRatingExpands(v: string)
    requires IsRatingToken(v) && |v| == 1
    ensures RatingParam(v) == v + "-10"
    ensures IsBoundedRange(RatingParam(v), 1, 10)
  {
    RangesPassThrough(v, 0);
    assert IsDigits(v) && '-' !in v;
    assert v + "-10" == v + ['-'] + "10";
    SplitOnPair(v, "10", '-');
    assert DigitsValue("1") == 1;
    assert DigitsValue("10") == 10;
  }

  /** A four-digit year becomes the range from it to the current year. */
  lemma SingleYearExpands(v: string, currentYear: int)
    requires |v| == 4 && IsYearToken(v, currentYear)
    ensures YearParam(v, currentYear) == v + "-" + IntToString(currentYear)
    ensures IsBoundedRange(YearParam(v, currentYear), 1890, currentYear)
  {
    RangesPassThrough(v, currentYear);
    if IsBoundedRange(v, 1890, currentYear) {
      assert false;
    }
    var y := IntToString(currentYear);
    assert IsDigits(y) && DigitsValue(y) == currentYear;
    assert '-' !in v && '-' !in y;
    assert v + "-" + y == v + ['-'] + y;
    SplitOnPair(v, y, '-');
  }

  /** With the parser of algorithm.py and a media-type table of non-empty codes, the URL always
      carries a `type=` parameter. */
  lemma AlgorithmUrlHasType(cfg: Config, text: string)
    requires cfg.defaultType == AlgorithmDefaultType
    requires forall k :: 0 <= k < |cfg.mediaTypes| ==> cfg.mediaTypes[k].0 != ""
    ensures Filled(Parse(cfg, text).mediaType)
    ensures "type=" + Parse(cfg, text).mediaType.value in NonEmpty(UrlParams(Parse(cfg, text), cfg.currentYear))
  {
    AlgorithmTypeAlwaysSet(cfg, Tokens(cfg.botName, text));
    TypeParamSent(Parse(cfg, text), cfg.currentYear);
  }

  /** A set media type is always among the parameters sent. */
  lemma TypeParamSent(f: Filters, currentYear: int)
    requires Filled(f.mediaType)
    ensures "type=" + f.mediaType.value in NonEmpty(UrlParams(f, currentYear))
  {
    NonEmptyKeeps(UrlParams(f, currentYear), 2);
  }
}
