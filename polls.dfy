/** `/vote` and `/poll`: the options are the comma-separated pieces of the text after the command,
    stripped, with empty ones dropped and case-insensitive duplicates merged; a poll is sent only
    for two to ten options. */
module Polls {
  import opened Text
  import opened Folds

  /** What the handler answers with: one of its two refusals, or the poll's options. */
  datatype VoteReply = TooFew | TooMany | Poll(options: seq<string>)

  const HasText: string -> bool := (p: string) => Strip(p) != ""
  const Stripped: string -> string := (p: string) => Strip(p)

  /** The comma-separated pieces of the text, stripped, the empty ones dropped. */
  function Options(text: string): seq<string> {
    Select(SplitOn(text, ','), HasText, Stripped)
  }

  /** An option as the handler sends it: non-empty, without a comma, with no whitespace at
      either end. */
  predicate IsClean(o: string) {
    o != "" && ',' !in o && !IsSpace(o[0]) && !IsSpace(o[|o| - 1])
  }

  const Clean: string -> bool := (o: string) => IsClean(o)

  /** Every option is non-empty, has no comma and no whitespace at either end. */
  lemma OptionsClean(text: string)
    ensures forall k :: 0 <= k < |Options(text)| ==> IsClean(Options(text)[k])
  {
    var parts := SplitOn(text, ',');
    forall k | 0 <= k < |parts| && HasText(parts[k]) ensures Clean(Stripped(parts[k])) {
      StripEnds(parts[k]);
      StripAvoids(parts[k], ',');
    }
    SelectAll(parts, HasText, Stripped, Clean);
  }

  // ---------------------------------------------------------------- the dictionary

  /** A dictionary as its (key, value) pairs in insertion order. */
  type Dict = seq<(string, string)>

  /** `d[k] = v`: an existing key keeps its place and takes the new value, a new key goes last. */
  function Put(d: Dict, k: string, v: string): Dict {
    if d == [] then [(k, v)]
    else if d[0].0 == k then [(k, v)] + d[1..]
    else [d[0]] + Put(d[1..], k, v)
  }

  /** The dictionary from each option's fold to the option, built left to right. */
  function BuildDict(lower: string -> string, opts: seq<string>): Dict {
    if opts == [] then [] else Put(BuildDict(lower, opts[..|opts| - 1]), lower(opts[|opts| - 1]), opts[|opts| - 1])
  }

  function Values(d: Dict): seq<string> {
    seq(|d|, i requires 0 <= i < |d| => d[i].1)
  }

  /** The values of that dictionary, in its order. */
  function Dedup(lower: string -> string, opts: seq<string>): seq<string> {
    Values(BuildDict(lower, opts))
  }

  /** The `/vote` reply for the text after the command and bot name have been cut off. */
  function Vote(lower: string -> string, rest: string): VoteReply {
    var options := Dedup(lower, Options(Strip(rest)));
    if |options| < 2 then TooFew else if |options| > 10 then TooMany else Poll(options)
  }

  /** `vote_msg` on the whole message text. */
  function VoteMessage(lower: string -> string, botName: string, text: string): VoteReply {
    Vote(lower, StripCommand(text, ["poll", "vote"], botName))
  }

  /** `/vote` or `/poll`, then the bot name as in a group chat, one space and the options text,
      is answered as that options text. */
  lemma VoteBotCommand(lower: string -> string, botName: string, name: string, q: string)
    requires name == "poll" || name == "vote"
    ensures VoteMessage(lower, botName, "/" + name + botName + " " + q) == Vote(lower, q)
  {
    var names := ["poll", "vote"];
    if name == "vote" {
      var text := "/" + names[1] + botName + " " + q;
      assert text[1] != ("/" + names[0])[1];
      StripCommandBotMatch(names, 1, botName, q);
    } else {
      StripCommandBotMatch(names, 0, botName, q);
    }
    DropSpaceTwice(q);
  }

  /** `/vote` or `/poll`, one space and an options text not starting with whitespace is answered
      as that options text, whenever the bot name cannot start with whitespace. */
  lemma VoteCommand(lower: string -> string, botName: string, name: string, q: string)
    requires name == "poll" || name == "vote"
    requires botName == "" || !IsSpace(botName[0])
    requires q == "" || !IsSpace(q[0])
    ensures VoteMessage(lower, botName, "/" + name + " " + q) == Vote(lower, q)
  {
    var names := ["poll", "vote"];
    if name == "vote" {
      var text := "/" + names[1] + " " + q;
      assert text[1] != ("/" + names[0])[1];
      StripCommandMatch(names, 1, botName, q);
    } else {
      StripCommandMatch(names, 0, botName, q);
    }
  }

  // ---------------------------------------------------------------- a reference for the dictionary

  function Folded(lower: string -> string, opts: seq<string>): seq<string> {
    if opts == [] then [] else Folded(lower, opts[..|opts| - 1]) + [lower(opts[|opts| - 1])]
  }

  /** The distinct elements in order of first occurrence. */
  function Distinct(xs: seq<string>): seq<string> {
    if xs == [] then []
    else
      var d := Distinct(xs[..|xs| - 1]);
      if xs[|xs| - 1] in d then d else d + [xs[|xs| - 1]]
  }

  /** The last option whose fold is `key`, or `""` when there is none. */
  function LastWith(lower: string -> string, opts: seq<string>, key: string): string {
    if opts == [] then ""
    else if lower(opts[|opts| - 1]) == key then opts[|opts| - 1]
    else LastWith(lower, opts[..|opts| - 1], key)
  }

  /** Each key with the last option that folds to it. */
  function Pairs(lower: string -> string, opts: seq<string>, keys: seq<string>): Dict {
    seq(|keys|, i requires 0 <= i < |keys| => (keys[i], LastWith(lower, opts, keys[i])))
  }

  predicate NoDuplicates(xs: seq<string>) {
    forall i, j :: 0 <= i < j < |xs| ==> xs[i] != xs[j]
  }

  lemma {:induction false} DistinctSpec(xs: seq<string>)
    ensures NoDuplicates(Distinct(xs))
    ensures forall x :: x in Distinct(xs) <==> x in xs
  {
    if xs != [] {
      var n := |xs| - 1;
      DistinctSpec(xs[..n]);
      assert xs == xs[..n] + [xs[n]];
    }
  }

  lemma {:induction false} FoldedSpec(lower: string -> string, opts: seq<string>)
    ensures |Folded(lower, opts)| == |opts|
    ensures forall k :: 0 <= k < |opts| ==> Folded(lower, opts)[k] == lower(opts[k])
  {
    if opts != [] {
      FoldedSpec(lower, opts[..|opts| - 1]);
    }
  }

  /** The last option folding to a key that occurs is an option with that fold, and no later option
      has it. */
  lemma {:induction false} LastWithSpec(lower: string -> string, opts: seq<string>, key: string) returns (j: nat)
    requires key in Folded(lower, opts)
    ensures j < |opts| && opts[j] == LastWith(lower, opts, key) && lower(opts[j]) == key
    ensures forall m :: j < m < |opts| ==> lower(opts[m]) != key
  {
    var n := |opts| - 1;
    var prefix := opts[..n];
    if lower(opts[n]) == key {
      j := n;
    } else {
      assert Folded(lower, opts) == Folded(lower, prefix) + [lower(opts[n])];
      j := LastWithSpec(lower, prefix, key);
      assert opts[j] == prefix[j];
      assert forall m :: j < m < n ==> opts[m] == prefix[m];
    }
  }

  lemma {:induction false} PutFound(d: Dict, k: string, v: string, i: nat)
    requires i < |d| && d[i].0 == k && forall m :: 0 <= m < i ==> d[m].0 != k
    ensures Put(d, k, v) == d[i := (k, v)]
  {
    if i > 0 {
      PutFound(d[1..], k, v, i - 1);
    }
  }

  lemma {:induction false} PutNew(d: Dict, k: string, v: string)
    requires forall m :: 0 <= m < |d| ==> d[m].0 != k
    ensures Put(d, k, v) == d + [(k, v)]
  {
    if d != [] {
      PutNew(d[1..], k, v);
    }
  }

  /** The dictionary holds each fold once, in order of first occurrence, with the last option that
      has that fold. */
  lemma {:induction false} BuildDictSpec(lower: string -> string, opts: seq<string>)
    ensures BuildDict(lower, opts) == Pairs(lower, opts, Distinct(Folded(lower, opts)))
  {
    if opts != [] {
      var n := |opts| - 1;
      var prefix := opts[..n];
      BuildDictSpec(lower, prefix);
      assert opts == prefix + [opts[n]];
      PairsSnoc(lower, prefix, opts[n]);
    }
  }

  /** One more option: the pairs of the longer list are the old ones with that option put. */
  lemma PairsSnoc(lower: string -> string, prefix: seq<string>, o: string)
    ensures Put(Pairs(lower, prefix, Distinct(Folded(lower, prefix))), lower(o), o)
            == Pairs(lower, prefix + [o], Distinct(Folded(lower, prefix + [o])))
  {
    var keys := Distinct(Folded(lower, prefix));
    var c := lower(o);
    FoldedSnoc(lower, prefix, o);
    DistinctSnoc(Folded(lower, prefix), c);
    if c in keys {
      KnownSnoc(lower, prefix, o, keys);
    } else {
      PutNew(Pairs(lower, prefix, keys), c, o);
      PairsNew(lower, prefix, o, keys);
    }
  }

  lemma KnownSnoc(lower: string -> string, prefix: seq<string>, o: string, keys: seq<string>)
    requires keys == Distinct(Folded(lower, prefix)) && lower(o) in keys
    ensures Put(Pairs(lower, prefix, keys), lower(o), o) == Pairs(lower, prefix + [o], keys)
  {
    DistinctSpec(Folded(lower, prefix));
    var i :| 0 <= i < |keys| && keys[i] == lower(o);
    PutFound(Pairs(lower, prefix, keys), lower(o), o, i);
    PairsKnown(lower, prefix, o, keys, i);
  }

  lemma FoldedSnoc(lower: string -> string, prefix: seq<string>, o: string)
    ensures Folded(lower, prefix + [o]) == Folded(lower, prefix) + [lower(o)]
  {
    assert (prefix + [o])[..|prefix|] == prefix;
  }

  lemma DistinctSnoc(xs: seq<string>, x: string)
    ensures Distinct(xs + [x]) == if x in Distinct(xs) then Distinct(xs) else Distinct(xs) + [x]
  {
    assert (xs + [x])[..|xs|] == xs;
  }

  lemma LastWithSnoc(lower: string -> string, prefix: seq<string>, o: string, key: string)
    ensures LastWith(lower, prefix + [o], key) == if lower(o) == key then o else LastWith(lower, prefix, key)
  {
    assert (prefix + [o])[..|prefix|] == prefix;
  }

  /** An option whose fold is already a key replaces that key's value only. */
  lemma PairsKnown(lower: string -> string, prefix: seq<string>, o: string, keys: seq<string>, i: nat)
    requires NoDuplicates(keys) && i < |keys| && keys[i] == lower(o)
    ensures Pairs(lower, prefix, keys)[i := (lower(o), o)] == Pairs(lower, prefix + [o], keys)
  {
    forall j | 0 <= j < |keys|
      ensures Pairs(lower, prefix, keys)[i := (lower(o), o)][j] == Pairs(lower, prefix + [o], keys)[j]
    {
      LastWithSnoc(lower, prefix, o, keys[j]);
    }
  }

  /** An option with a new fold adds that key at the end. */
  lemma PairsNew(lower: string -> string, prefix: seq<string>, o: string, keys: seq<string>)
    requires lower(o) !in keys
    ensures Pairs(lower, prefix, keys) + [(lower(o), o)] == Pairs(lower, prefix + [o], keys + [lower(o)])
  {
    var keys' := keys + [lower(o)];
    forall j | 0 <= j < |keys'|
      ensures (Pairs(lower, prefix, keys) + [(lower(o), o)])[j] == Pairs(lower, prefix + [o], keys')[j]
    {
      LastWithSnoc(lower, prefix, o, keys'[j]);
      if j < |keys| {
        assert keys'[j] == keys[j];
      }
    }
  }

  /** After merging, the options have pairwise distinct folds, in the order their folds first
      occur, each spelled as the last option with that fold. */
  lemma DedupSpec(lower: string -> string, opts: seq<string>)
    ensures var r := Dedup(lower, opts);
      && |r| == |Distinct(Folded(lower, opts))|
      && (forall k :: 0 <= k < |r| ==> lower(r[k]) == Distinct(Folded(lower, opts))[k])
      && (forall k :: 0 <= k < |r| ==> r[k] == LastWith(lower, opts, lower(r[k])))
      && (forall i, j :: 0 <= i < j < |r| ==> lower(r[i]) != lower(r[j]))
  {
    var keys := Distinct(Folded(lower, opts));
    BuildDictSpec(lower, opts);
    DistinctSpec(Folded(lower, opts));
    var r := Dedup(lower, opts);
    forall k | 0 <= k < |r| ensures lower(r[k]) == keys[k] {
      assert keys[k] in Folded(lower, opts);
      var j := LastWithSpec(lower, opts, keys[k]);
    }
  }

  /** No option is lost: every option's fold is the fold of some merged option. */
  lemma DedupCovers(lower: string -> string, opts: seq<string>)
    ensures forall k :: 0 <= k < |opts| ==>
      exists m :: 0 <= m < |Dedup(lower, opts)| && lower(Dedup(lower, opts)[m]) == lower(opts[k])
  {
    var keys := Distinct(Folded(lower, opts));
    var r := Dedup(lower, opts);
    DedupSpec(lower, opts);
    DistinctSpec(Folded(lower, opts));
    FoldedSpec(lower, opts);
    forall k | 0 <= k < |opts| ensures exists m :: 0 <= m < |r| && lower(r[m]) == lower(opts[k]) {
      assert Folded(lower, opts)[k] in Folded(lower, opts);
      var m :| 0 <= m < |keys| && keys[m] == lower(opts[k]);
      assert lower(r[m]) == keys[m];
    }
  }

  /** A poll is sent only with two to ten options, no two of which fold to the same text. */
  lemma PollBounds(lower: string -> string, rest: string)
    ensures Vote(lower, rest).Poll? ==>
      var o := Vote(lower, rest).options;
      2 <= |o| <= 10 && forall i, j :: 0 <= i < j < |o| ==> lower(o[i]) != lower(o[j])
    ensures Vote(lower, rest).TooFew? <==> |Dedup(lower, Options(Strip(rest)))| < 2
    ensures Vote(lower, rest).TooMany? <==> |Dedup(lower, Options(Strip(rest)))| > 10
  {
    DedupSpec(lower, Options(Strip(rest)));
  }
}
