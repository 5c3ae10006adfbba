/** `/setname`, `/removename` and `/myname`: a user's custom display name is stored only when it
    is non-empty and free of the characters the bot forbids; and `get_user_name`, which reads a
    user's display name back with the same fallback as the listings. */
module Names {
  import opened Text
  import opened Users

  /** The characters of the validator's character class. */
  const Forbidden: set<char> :=
    {'\\', ';', ':', ',', '?', '/', '=', '@', '&', '<', '>', '+', '$', '%', '|', '[', ']', '(', ')',
     '\'', '"', '!', '{', '}'}

  const IsForbidden: char -> bool := (c: char) => c in Forbidden

  datatype NameCommand = SetName | RemoveName | MyName

  /** The handler's answers. */
  datatype NameReply =
    | EmptyName
    | BadChar(c: char)
    | Saved(name: string)
    | Removed
    | Current(name: string)
    | NoName
    | Help

  function ReplyText(r: NameReply): string {
    match r
    case EmptyName => "Ошибка: пустое сообщение, пример команды:\n/setname Ваше имя"
    case BadChar(c) =>
      "Ошибка: найден недопустимый символ: " + [c] + "\n" + "Запрещено использовать: \\;:,<>?/=@&+$%|[]()'\"!{}"
    case Saved(name) => "Ваше имя *" + name + "* сохранено"
    case Removed => "Ваше имя удалено"
    case Current(name) => "Ваше текущее имя: *" + name + "*"
    case NoName => "Вы ещё не установили кастомное имя."
    case Help => "Хотите удалить имя? Нажмите: /removename\nХотите установить имя? Напишите:\n/setname Ваше имя"
  }

  /** `s` begins with `word` ignoring case, case being folded by `lower`. */
  predicate StartsWithFolded(lower: string -> string, s: string, word: string) {
    |word| <= |s| && lower(s[..|word|]) == lower(word)
  }

  /** The text up to the first line break: what the regex `.*` matches. */
  function FirstLine(s: string): (r: string)
    ensures '\n' !in r && StartsWith(s, r)
    ensures |r| < |s| ==> s[|r|] == '\n'
  {
    s[..FirstIndex(s, (c: char) => c == '\n')]
  }

  /** The handler's pattern, matched case-insensitively at the start of the text: an optional `/`,
      one of the three commands, an optional bot name and whitespace. The result is the command
      and the stripped rest of its line, or `None` when the text does not start with a command. */
  function MatchCommand(lower: string -> string, bot: string, text: string): (m: Option<(NameCommand, string)>)
    ensures var body := if text != [] && text[0] == '/' then text[1..] else text;
      m.None? <==> !StartsWithFolded(lower, body, "setname") && !StartsWithFolded(lower, body, "removename")
                   && !StartsWithFolded(lower, body, "myname")
    ensures m.Some? ==> var name := m.value.1; '\n' !in name && (name != "" ==> !IsSpace(name[0]) && !IsSpace(name[|name| - 1]))
  {
    var body := if text != [] && text[0] == '/' then text[1..] else text;
    if StartsWithFolded(lower, body, "setname") then Some((SetName, NameAfter(lower, bot, body[7..])))
    else if StartsWithFolded(lower, body, "removename") then Some((RemoveName, NameAfter(lower, bot, body[10..])))
    else if StartsWithFolded(lower, body, "myname") then Some((MyName, NameAfter(lower, bot, body[6..])))
    else None
  }

  /** The rest after the command: the bot name, when it follows, is skipped, then the name is read. */
  function NameAfter(lower: string -> string, bot: string, rest: string): (r: string)
    ensures '\n' !in r
    ensures r != "" ==> !IsSpace(r[0]) && !IsSpace(r[|r| - 1])
  {
    NamePart(if StartsWithFolded(lower, rest, bot) then rest[|bot|..] else rest)
  }

  /** The rest of the first line after the whitespace, stripped. */
  function NamePart(s: string): (r: string)
    ensures '\n' !in r
    ensures r != "" ==> !IsSpace(r[0]) && !IsSpace(r[|r| - 1])
  {
    var line := FirstLine(DropSpace(s));
    StripEnds(line);
    StripAvoids(line, '\n');
    Strip(line)
  }

  /** The `/setname` checks, in the handler's order: empty, then the leftmost forbidden character. */
  function Validate(name: string): NameReply {
    if name == "" then EmptyName
    else
      var i := FirstIndex(name, IsForbidden);
      if i < |name| then BadChar(name[i]) else Saved(name)
  }

  /** The reply, given what the database holds as the user's custom name. */
  function Answer(matched: Option<(NameCommand, string)>, stored: Option<string>): NameReply {
    match matched
    case None => Help
    case Some((SetName, after)) => Validate(after)
    case Some((RemoveName, _)) => Removed
    case Some((MyName, _)) => if stored.Some? then Current(stored.value) else NoName
  }

  /** The table afterwards: only a valid `/setname` and a `/removename` write. */
  function Updated(matched: Option<(NameCommand, string)>, users: map<int, UserRow>, userId: int): map<int, UserRow> {
    match matched
    case None => users
    case Some((SetName, after)) => if Validate(after).Saved? then WithCustomName(users, userId, Some(after)) else users
    case Some((RemoveName, _)) => WithCustomName(users, userId, None)
    case Some((MyName, _)) => users
  }

  /** `setname_remove` */
  method SetNameRemove(db: Database, lower: string -> string, bot: string, userId: int, text: string)
    returns (reply: NameReply)
    modifies db
    ensures reply == Answer(MatchCommand(lower, bot, text), CustomNameOf(old(db.users), userId))
    ensures db.users == Updated(MatchCommand(lower, bot, text), old(db.users), userId)
  {
    reply := Dispatch(db, userId, MatchCommand(lower, bot, text));
  }

  /** The handler's body once the regular expression has been matched. */
  method Dispatch(db: Database, userId: int, matched: Option<(NameCommand, string)>) returns (reply: NameReply)
    modifies db
    ensures reply == Answer(matched, CustomNameOf(old(db.users), userId))
    ensures db.users == Updated(matched, old(db.users), userId)
  {
    match matched
    case None =>
      reply := Help;
    case Some((SetName, after)) =>
      reply := Validate(after);
      if reply.Saved? {
        db.SetCustomName(userId, after);
      }
    case Some((RemoveName, _)) =>
      db.RemoveCustomName(userId);
      reply := Removed;
    case Some((MyName, _)) =>
      var current := db.GetCustomName(userId);
      reply := if current.Some? then Current(current.value) else NoName;
  }

  /** A name is stored exactly when it is non-empty and has no forbidden character; otherwise the
      reply names the emptiness or the leftmost forbidden character. */
  lemma ValidateSpec(name: string)
    ensures Validate(name) == EmptyName <==> name == ""
    ensures Validate(name).Saved? <==> name != "" && forall k :: 0 <= k < |name| ==> name[k] !in Forbidden
    ensures Validate(name).Saved? ==> Validate(name).name == name
    ensures Validate(name).BadChar? ==>
      exists i :: 0 <= i < |name| && name[i] == Validate(name).c && name[i] in Forbidden
                  && forall j :: 0 <= j < i ==> name[j] !in Forbidden
    ensures !Validate(name).Removed? && !Validate(name).Current? && !Validate(name).NoName? && !Validate(name).Help?
  {
    if name != "" {
      var i := FirstIndex(name, IsForbidden);
      if i == |name| {
        assert forall k :: 0 <= k < |name| ==> !IsForbidden(name[k]);
      }
    }
  }

  /** Two typical inputs: a name with an exclamation mark is refused on it, a plain one is kept. */
  lemma ValidateExamples()
    ensures Validate("Ян!") == BadChar('!')
    ensures Validate("Ян") == Saved("Ян")
  {
    assert 'Я' !in Forbidden && 'н' !in Forbidden && '!' in Forbidden;
    ValidateSpec("Ян");
    ValidateSpec("Ян!");
  }

  /** A registered user who saves a name then reads it back gets that name; after a removal the
      bot reports that no name is set. */
  lemma SaveThenRead(users: map<int, UserRow>, userId: int, after: string)
    requires userId in users && Validate(after).Saved?
    ensures Answer(Some((MyName, "")), CustomNameOf(Updated(Some((SetName, after)), users, userId), userId)) == Current(after)
    ensures Answer(Some((MyName, "")), CustomNameOf(Updated(Some((RemoveName, "")), users, userId), userId)) == NoName
  {
    ValidateSpec(after);
    NameReadBack(users, userId, after);
  }

  /** A text that does not start with one of the three commands (after an optional `/`) gets the
      help reply and changes nothing, such as one that begins with the bot's name. */
  lemma UnmatchedGetsHelp(lower: string -> string, bot: string, users: map<int, UserRow>, userId: int, text: string)
    requires MatchCommand(lower, bot, text).None?
    ensures Answer(MatchCommand(lower, bot, text), CustomNameOf(users, userId)) == Help
    ensures Updated(MatchCommand(lower, bot, text), users, userId) == users
  {
  }

  /** A one-line `/setname` whose name does not begin with the bot's name gets that name, stripped
      of the whitespace around it. */
  lemma SetNameLine(lower: string -> string, bot: string, name: string)
    requires '\n' !in name
    requires !StartsWithFolded(lower, " " + name, bot)
    ensures MatchCommand(lower, bot, "/setname " + name) == Some((SetName, Strip(name)))
  {
    var text := "/setname " + name;
    var body := text[1..];
    assert body == "setname " + name;
    assert body[..7] == "setname";
    assert body[7..] == " " + name;
    NamePartAfterSpace(name);
  }

  /** The rest of a line that starts with a space is the stripped remainder. */
  lemma NamePartAfterSpace(name: string)
    requires '\n' !in name
    ensures NamePart(" " + name) == Strip(name)
  {
    var d := DropSpace(name);
    DropSpaceAfterSpace(name);
    NoBreakAfterDrop(name);
    FirstLineWhole(d);
    DropSpaceSettled(d);
  }

  lemma NoBreakAfterDrop(name: string)
    requires '\n' !in name
    ensures '\n' !in DropSpace(name)
  {
    SuffixAvoids(name, DropSpace(name), '\n');
  }

  lemma FirstLineWhole(s: string)
    requires '\n' !in s
    ensures FirstLine(s) == s
  {
    assert forall k :: 0 <= k < |s| ==> s[k] != '\n';
  }

  lemma DropSpaceSettled(d: string)
    requires d != [] ==> !IsSpace(d[0])
    ensures DropSpace(d) == d
  {
  }

  /** `get_user_name`: the user's display name, or `None` where the source raises because the
      user has no row. */
  function GetUserName(db: Database, userId: int): (name: Option<string>)
    reads db
    ensures name.None? <==> userId !in db.users
    ensures name.Some? ==> name.value != "" && name.value == DisplayName(userId, db.users[userId])
  {
    if userId in db.users then Some(DisplayName(userId, db.users[userId])) else None
  }
}
