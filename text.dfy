/** Python `str` operations the bot relies on, over Dafny strings (sequences of Unicode scalar
    values, so `|s|` is Python's `len(s)`). Digits are the ASCII digits only. */
module Text {

  datatype Option<+T> = None | Some(value: T)

  /** Python truthiness of an optional text: `None` and `""` are falsy. */
  predicate Filled(o: Option<string>) {
    o.Some? && o.value != ""
  }

  // ---------------------------------------------------------------- whitespace

  /** `c.isspace()`: the characters `str.split()`, `str.strip()` and the regex class `\s` treat as whitespace. */
  predicate IsSpace(c: char) {
    ('\U{0009}' <= c <= '\U{000D}') || ('\U{001C}' <= c <= '\U{001F}') || c == ' '
    || c == '\U{0085}' || c == '\U{00A0}' || c == '\U{1680}' || ('\U{2000}' <= c <= '\U{200A}')
    || c == '\U{2028}' || c == '\U{2029}' || c == '\U{202F}' || c == '\U{205F}' || c == '\U{3000}'
  }

  predicate NoSpace(s: string) {
    forall i :: 0 <= i < |s| ==> !IsSpace(s[i])
  }

  /** `s.lstrip()` */
  function DropSpace(s: string): (r: string)
    ensures |r| <= |s| && r == s[|s| - |r|..]
    ensures r != [] ==> !IsSpace(r[0])
    ensures forall i :: 0 <= i < |s| - |r| ==> IsSpace(s[i])
  {
    if s != [] && IsSpace(s[0]) then DropSpace(s[1..]) else s
  }

  /** `s.rstrip()` */
  function TrimEnd(s: string): (r: string)
    ensures |r| <= |s| && r == s[..|r|]
    ensures r != [] ==> !IsSpace(r[|r| - 1])
    ensures forall i :: |r| <= i < |s| ==> IsSpace(s[i])
  {
    if s != [] && IsSpace(s[|s| - 1]) then TrimEnd(s[..|s| - 1]) else s
  }

  /** `s.strip()` */
  function Strip(s: string): string {
    TrimEnd(DropSpace(s))
  }

  /** The stripped text has no whitespace at either end. */
  lemma StripEnds(s: string)
    ensures var r := Strip(s); r != "" ==> !IsSpace(r[0]) && !IsSpace(r[|r| - 1])
  {
    var dropped := DropSpace(s);
    var r := TrimEnd(dropped);
    if r != "" {
      assert r[0] == dropped[0];
    }
  }

  /** Stripping adds no character. */
  lemma StripAvoids(s: string, c: char)
    requires c !in s
    ensures c !in Strip(s)
  {
    var dropped := DropSpace(s);
    SuffixAvoids(s, dropped, c);
    PrefixAvoids(dropped, TrimEnd(dropped), c);
  }

  /** A character absent from a text is absent from its end. */
  lemma SuffixAvoids(s: string, r: string, c: char)
    requires c !in s && |r| <= |s| && r == s[|s| - |r|..]
    ensures c !in r
  {
    forall m | 0 <= m < |r|
      ensures r[m] != c
    {
      assert r[m] == s[|s| - |r| + m];
    }
  }

  /** A character absent from a text is absent from its start. */
  lemma PrefixAvoids(s: string, r: string, c: char)
    requires c !in s && |r| <= |s| && r == s[..|r|]
    ensures c !in r
  {
    forall m | 0 <= m < |r|
      ensures r[m] != c
    {
      assert r[m] == s[m];
    }
  }

  /** The longest prefix of `s` without whitespace. */
  function WordAt(s: string): (w: string)
    ensures |w| <= |s| && w == s[..|w|] && NoSpace(w)
    ensures |w| < |s| ==> IsSpace(s[|w|])
  {
    if s == [] || IsSpace(s[0]) then [] else [s[0]] + WordAt(s[1..])
  }

  /** `s.split()` with no separator: the maximal runs of non-whitespace characters, in order. */
  function Words(s: string): seq<string>
    decreases |s|
  {
    var t := DropSpace(s);
    if t == [] then []
    else
      var w := WordAt(t);
      assert w[0] == t[0];
      [w] + Words(t[|w|..])
  }

  /** Every word is non-empty and free of whitespace. */
  lemma {:induction false} WordsAreClean(s: string)
    ensures forall i :: 0 <= i < |Words(s)| ==> Words(s)[i] != [] && NoSpace(Words(s)[i])
    decreases |s|
  {
    var t := DropSpace(s);
    if t != [] {
      var w := WordAt(t);
      assert w[0] == t[0];
      WordsAreClean(t[|w|..]);
    }
  }

  /** A character that does not occur in `s` occurs in none of its words. */
  lemma {:induction false} WordsAvoid(s: string, d: char)
    requires d !in s
    ensures forall i :: 0 <= i < |Words(s)| ==> d !in Words(s)[i]
    decreases |s|
  {
    var t := DropSpace(s);
    if t != [] {
      var w := WordAt(t);
      assert d !in t by {
        assert forall k :: 0 <= k < |t| ==> t[k] == s[|s| - |t| + k];
      }
      assert d !in t[|w|..] && d !in w;
      WordsAvoid(t[|w|..], d);
    }
  }

  /** `sep.join(parts)` */
  function Join(parts: seq<string>, sep: string): string {
    if parts == [] then ""
    else if |parts| == 1 then parts[0]
    else parts[0] + (sep + Join(parts[1..], sep))
  }

  lemma JoinSnoc(parts: seq<string>, x: string, sep: string)
    requires parts != []
    ensures Join(parts + [x], sep) == Join(parts, sep) + sep + x
  {
    if |parts| == 1 {
      assert (parts + [x])[1..] == [x];
    } else {
      assert (parts + [x])[1..] == parts[1..] + [x];
      JoinSnoc(parts[1..], x, sep);
    }
  }

  lemma WordAtOfJoin(w: string, tail: string)
    requires NoSpace(w)
    requires tail == [] || IsSpace(tail[0])
    ensures WordAt(w + tail) == w
  {
    if w != [] {
      assert (w + tail)[1..] == w[1..] + tail;
      WordAtOfJoin(w[1..], tail);
    }
  }

  lemma WordsCons(w: string, tail: string)
    requires w != [] && NoSpace(w)
    requires tail == [] || IsSpace(tail[0])
    ensures Words(w + tail) == [w] + Words(tail)
  {
    var s := w + tail;
    assert DropSpace(s) == s;
    WordAtOfJoin(w, tail);
    assert s[|w|..] == tail;
  }

  lemma WordsAfterSpace(t: string)
    ensures Words(" " + t) == Words(t)
  {
    assert (" " + t)[1..] == t;
    assert DropSpace(" " + t) == DropSpace(t);
  }

  /** Lets a recursive proof over a list rebuild the list from its head and tail. */
  lemma HeadTail<T>(s: seq<T>)
    requires s != []
    ensures s == [s[0]] + s[1..]
  {
  }

  lemma WordsConsSpace(w: string, rest: string)
    requires w != [] && NoSpace(w)
    ensures Words(w + (" " + rest)) == [w] + Words(rest)
  {
    var tail := " " + rest;
    assert tail[0] == ' ';
    WordsCons(w, tail);
    WordsAfterSpace(rest);
  }

  /** A space-joined list of clean words starts and ends with a character that is not
      whitespace, and is empty only for the empty list. */
  lemma {:induction false} JoinClean(ws: seq<string>)
    requires forall i :: 0 <= i < |ws| ==> ws[i] != [] && NoSpace(ws[i])
    ensures var j := Join(ws, " "); ws != [] ==> j != "" && !IsSpace(j[0]) && !IsSpace(j[|j| - 1])
    ensures ws == [] ==> Join(ws, " ") == ""
  {
    if |ws| > 1 {
      JoinClean(ws[1..]);
      var rest := Join(ws[1..], " ");
      var j := ws[0] + (" " + rest);
      assert j[0] == ws[0][0];
      assert j[|j| - 1] == rest[|rest| - 1];
    } else if |ws| == 1 {
      assert ws[0][0] == Join(ws, " ")[0];
    }
  }

  /** A character in neither the parts nor the separator is not in their join. */
  lemma {:induction false} JoinAvoids(ws: seq<string>, sep: string, c: char)
    requires c !in sep
    requires forall i :: 0 <= i < |ws| ==> c !in ws[i]
    ensures c !in Join(ws, sep)
  {
    if |ws| > 1 {
      JoinAvoids(ws[1..], sep, c);
    }
  }

  /** Splitting a space-joined list of clean words gives the words back. */
  lemma {:induction false} WordsOfJoin(ws: seq<string>)
    requires forall i :: 0 <= i < |ws| ==> ws[i] != [] && NoSpace(ws[i])
    ensures Words(Join(ws, " ")) == ws
  {
    if ws == [] {
      assert Words("") == [];
    } else if |ws| == 1 {
      WordsOfJoinOne(ws[0]);
      assert ws == [ws[0]];
    } else {
      WordsOfJoin(ws[1..]);
      WordsOfJoinStep(ws[0], ws[1..]);
      HeadTail(ws);
    }
  }

  lemma WordsOfJoinOne(w: string)
    requires w != [] && NoSpace(w)
    ensures Words(Join([w], " ")) == [w]
  {
    WordsCons(w, "");
    assert w + "" == w;
    assert Words("") == [];
  }

  lemma WordsOfJoinStep(w: string, ws: seq<string>)
    requires w != [] && NoSpace(w) && ws != []
    requires Words(Join(ws, " ")) == ws
    ensures Words(Join([w] + ws, " ")) == [w] + ws
  {
    var rest := Join(ws, " ");
    assert ([w] + ws)[1..] == ws;
    assert Join([w] + ws, " ") == w + (" " + rest);
    WordsConsSpace(w, rest);
  }

  // ---------------------------------------------------------------- splitting on one character

  function Count(s: string, c: char): nat {
    if s == [] then 0 else (if s[0] == c then 1 else 0) + Count(s[1..], c)
  }

  /** `s.split(c)` for a one-character separator: every piece, empty ones included. */
  function SplitOn(s: string, c: char): (parts: seq<string>)
    ensures |parts| >= 1
    ensures forall i :: 0 <= i < |parts| ==> c !in parts[i]
  {
    if s == [] then [""]
    else
      var rest := SplitOn(s[1..], c);
      if s[0] == c then [""] + rest
      else [[s[0]] + rest[0]] + rest[1..]
  }

  /** `c.join(s.split(c)) == s`, and there is one more piece than separators. */
  lemma {:induction false} SplitOnJoin(s: string, c: char)
    ensures Join(SplitOn(s, c), [c]) == s
    ensures |SplitOn(s, c)| == Count(s, c) + 1
  {
    if s != [] {
      var rest := SplitOn(s[1..], c);
      SplitOnJoin(s[1..], c);
      if s[0] == c {
        assert Join([""] + rest, [c]) == "" + [c] + Join(rest, [c]);
      } else {
        var parts := [[s[0]] + rest[0]] + rest[1..];
        if |rest| > 1 {
          assert parts[1..] == rest[1..];
          assert Join(rest, [c]) == rest[0] + [c] + Join(rest[1..], [c]);
        }
      }
    }
  }

  /** A string without the separator is one piece. */
  lemma {:induction false} SplitOnNone(s: string, c: char)
    requires c !in s
    ensures SplitOn(s, c) == [s]
  {
    if s != [] {
      SplitOnNone(s[1..], c);
      assert [s[0]] + s[1..] == s;
    }
  }

  /** Two pieces joined by the separator split back into those two pieces. */
  lemma {:induction false} SplitOnPair(a: string, b: string, c: char)
    requires c !in a && c !in b
    ensures SplitOn(a + [c] + b, c) == [a, b]
  {
    if a == [] {
      assert a + [c] + b == [c] + b;
      SplitOnNone(b, c);
    } else {
      assert (a + [c] + b)[1..] == a[1..] + [c] + b;
      SplitOnPair(a[1..], b, c);
      assert [a[0]] + a[1..] == a;
    }
  }

  // ---------------------------------------------------------------- replacing one character

  /** `s.replace(c, rep)` for a one-character `c`. */
  function Replace(s: string, c: char, rep: string): string {
    if s == [] then [] else (if s[0] == c then rep else [s[0]]) + Replace(s[1..], c, rep)
  }

  lemma {:induction false} ReplaceRemoves(s: string, c: char, rep: string, d: char)
    requires d !in rep
    requires d == c || d !in s
    ensures d !in Replace(s, c, rep)
  {
    if s != [] {
      ReplaceRemoves(s[1..], c, rep, d);
    }
  }

  lemma {:induction false} ReplaceAbsent(s: string, c: char, rep: string)
    requires c !in s
    ensures Replace(s, c, rep) == s
  {
    if s != [] {
      ReplaceAbsent(s[1..], c, rep);
    }
  }

  lemma {:induction false} ReplaceKeeps(s: string, c: char, rep: string, d: char)
    requires d in Replace(s, c, rep)
    ensures d in s || d in rep
  {
    if s != [] {
      var head := if s[0] == c then rep else [s[0]];
      if d !in head {
        ReplaceKeeps(s[1..], c, rep, d);
      }
    }
  }

  // ---------------------------------------------------------------- prefixes

  predicate StartsWith(s: string, p: string) {
    |p| <= |s| && s[..|p|] == p
  }

  /** A text put in front is a prefix, and cutting it off again gives the rest back. */
  lemma PrefixCut(a: string, b: string)
    ensures StartsWith(a + b, a) && (a + b)[|a|..] == b
  {
    assert (a + b)[..|a|] == a;
  }

  /** Removing a leading command, with a bot name free of regex metacharacters: the first listed
      command that prefixes `text`, then the bot name if it follows, then the whitespace after them, are removed;
      a text that starts with none of the commands is unchanged. */
  function StripCommand(text: string, names: seq<string>, bot: string): (r: string)
    ensures (forall i :: 0 <= i < |names| ==> !StartsWith(text, "/" + names[i])) ==> r == text
  {
    if names == [] then text
    else
      var p := "/" + names[0];
      if StartsWith(text, p) then
        var rest := text[|p|..];
        DropSpace(if StartsWith(rest, bot) then rest[|bot|..] else rest)
      else
        StripCommand(text, names[1..], bot)
  }

  /** After a matching command, what is left does not start with whitespace. */
  lemma {:induction false} StripCommandNoSpace(text: string, names: seq<string>, bot: string)
    requires exists i :: 0 <= i < |names| && StartsWith(text, "/" + names[i])
    ensures var r := StripCommand(text, names, bot); r == "" || !IsSpace(r[0])
  {
    var p := "/" + names[0];
    if StartsWith(text, p) {
      var rest := text[|p|..];
      var after := if StartsWith(rest, bot) then rest[|bot|..] else rest;
      assert StripCommand(text, names, bot) == DropSpace(after);
    } else {
      assert StripCommand(text, names, bot) == StripCommand(text, names[1..], bot);
      LaterCommand(text, names);
      StripCommandNoSpace(text, names[1..], bot);
    }
  }

  /** A command that prefixes the text, when the first one does not, is among the others. */
  lemma LaterCommand(text: string, names: seq<string>)
    requires names != [] && !StartsWith(text, "/" + names[0])
    ensures (exists i :: 0 <= i < |names| && StartsWith(text, "/" + names[i])) ==>
      exists i :: 0 <= i < |names[1..]| && StartsWith(text, "/" + names[1..][i])
  {
    if i :| 0 <= i < |names| && StartsWith(text, "/" + names[i]) {
      assert names[1..][i - 1] == names[i];
    }
  }

  /** The matching case: a text made of a listed command that no earlier command prefixes, one
      space and a query not starting with whitespace loses exactly the command and the space,
      whenever the bot name cannot start with whitespace. */
  lemma {:induction false} StripCommandMatch(names: seq<string>, i: nat, bot: string, q: string)
    requires i < |names|
    requires forall j :: 0 <= j < i ==> !StartsWith("/" + names[i] + " " + q, "/" + names[j])
    requires bot == "" || !IsSpace(bot[0])
    requires q == "" || !IsSpace(q[0])
    ensures StripCommand("/" + names[i] + " " + q, names, bot) == q
  {
    var text := "/" + names[i] + " " + q;
    if i == 0 {
      var p := "/" + names[0];
      assert text[..|p|] == p;
      var rest := text[|p|..];
      assert rest == " " + q;
      if bot == "" {
        assert rest[|bot|..] == rest;
      } else if |bot| <= |rest| {
        assert rest[..|bot|][0] == ' ' != bot[0];
      }
      assert rest[1..] == q;
    } else {
      var tail := names[1..];
      assert tail[i - 1] == names[i];
      forall j | 0 <= j < i - 1
        ensures !StartsWith(text, "/" + tail[j])
      {
        assert tail[j] == names[j + 1];
      }
      assert !StartsWith(text, "/" + names[0]);
      StripCommandMatch(tail, i - 1, bot, q);
    }
  }

  /** The group-chat form: a listed command that no earlier command prefixes, the bot name, one
      space and any query lose the command, the bot name and all the whitespace before the query. */
  lemma {:induction false} StripCommandBotMatch(names: seq<string>, i: nat, bot: string, q: string)
    requires i < |names|
    requires forall j :: 0 <= j < i ==> !StartsWith("/" + names[i] + bot + " " + q, "/" + names[j])
    ensures StripCommand("/" + names[i] + bot + " " + q, names, bot) == DropSpace(q)
  {
    var text := "/" + names[i] + bot + " " + q;
    if i == 0 {
      StripFirstBot(names, bot, q);
    } else {
      var tail := names[1..];
      assert tail[i - 1] == names[i];
      forall j | 0 <= j < i - 1
        ensures !StartsWith(text, "/" + tail[j])
      {
        assert tail[j] == names[j + 1];
      }
      assert !StartsWith(text, "/" + names[0]);
      StripCommandBotMatch(tail, i - 1, bot, q);
    }
  }

  lemma StripFirstBot(names: seq<string>, bot: string, q: string)
    requires names != []
    ensures StripCommand("/" + names[0] + bot + " " + q, names, bot) == DropSpace(q)
  {
    var p := "/" + names[0];
    var rest := bot + (" " + q);
    var text := p + rest;
    assert text == "/" + names[0] + bot + " " + q;
    PrefixCut(p, rest);
    PrefixCut(bot, " " + q);
    DropSpaceAfterSpace(q);
  }

  lemma DropSpaceAfterSpace(s: string)
    ensures DropSpace(" " + s) == DropSpace(s)
  {
    assert (" " + s)[0] == ' ';
    assert (" " + s)[1..] == s;
  }

  /** Dropping the leading whitespace twice drops no more than once. */
  lemma DropSpaceTwice(s: string)
    ensures DropSpace(DropSpace(s)) == DropSpace(s)
  {
    var d := DropSpace(s);
    assert d == [] || !IsSpace(d[0]);
  }

  // ---------------------------------------------------------------- digits and numbers

  predicate IsDigit(c: char) {
    '0' <= c <= '9'
  }

  /** `s.isdigit()`, restricted to ASCII digits. */
  predicate IsDigits(s: string) {
    |s| > 0 && forall i :: 0 <= i < |s| ==> IsDigit(s[i])
  }

  /** `int(s)` for a string of digits. */
  function DigitsValue(s: string): nat
    requires forall i :: 0 <= i < |s| ==> IsDigit(s[i])
  {
    if s == [] then 0 else DigitsValue(s[..|s| - 1]) * 10 + DigitOf(s[|s| - 1])
  }

  function DigitOf(c: char): nat
    requires IsDigit(c)
  {
    c as int - '0' as int
  }

  function Pow10(n: nat): nat {
    if n == 0 then 1 else 10 * Pow10(n - 1)
  }

  /** A number written with `n` digits is below `10^n`. */
  lemma {:induction false} DigitsValueBound(s: string)
    requires forall i :: 0 <= i < |s| ==> IsDigit(s[i])
    ensures DigitsValue(s) < Pow10(|s|)
  {
    if s != [] {
      DigitsValueBound(s[..|s| - 1]);
    }
  }

  lemma {:induction false} Pow10Monotone(m: nat, n: nat)
    requires m <= n
    ensures Pow10(m) <= Pow10(n)
  {
    if m < n {
      Pow10Monotone(m, n - 1);
    }
  }

  /** A number of at least 1000 needs at least four digits. */
  lemma FourDigitsAtLeast(s: string)
    requires IsDigits(s) && DigitsValue(s) >= 1000
    ensures |s| >= 4
  {
    DigitsValueBound(s);
    assert Pow10(3) == 1000;
    if |s| <= 3 {
      Pow10Monotone(|s|, 3);
    }
  }

  function DigitChar(d: nat): char
    requires d < 10
  {
    ('0' as int + d) as char
  }

  /** `str(n)` for a natural number: its decimal digits, with no leading zero. */
  function NatToString(n: nat): (s: string)
    ensures IsDigits(s) && DigitsValue(s) == n
    ensures |s| > 1 ==> s[0] != '0'
  {
    if n < 10 then [DigitChar(n)]
    else
      var prefix := NatToString(n / 10);
      var s := prefix + [DigitChar(n % 10)];
      assert s[..|s| - 1] == prefix;
      s
  }

  /** `str(i)` for an integer. */
  function IntToString(i: int): (s: string)
    ensures s != []
  {
    if i < 0 then "-" + NatToString(-i) else NatToString(i)
  }

  // ---------------------------------------------------------------- searching

  /** The index of the first element satisfying `p`, or `|xs|` when there is none; this is what
      Python's `next(x for x in xs if p(x))` picks after a membership test has succeeded. */
  function FirstIndex<T>(xs: seq<T>, p: T -> bool): (i: nat)
    ensures i <= |xs|
    ensures i < |xs| ==> p(xs[i])
    ensures forall j :: 0 <= j < i ==> !p(xs[j])
  {
    if xs == [] then 0 else if p(xs[0]) then 0 else 1 + FirstIndex(xs[1..], p)
  }

  lemma {:induction false} FirstIndexSnoc<T>(xs: seq<T>, x: T, p: T -> bool)
    ensures FirstIndex(xs + [x], p) == (if FirstIndex(xs, p) < |xs| then FirstIndex(xs, p)
                                        else if p(x) then |xs| else |xs| + 1)
  {
    if xs != [] {
      assert (xs + [x])[1..] == xs[1..] + [x];
      FirstIndexSnoc(xs[1..], x, p);
    }
  }
}
