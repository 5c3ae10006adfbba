/** The users table: one row per Telegram user id holding the username, an optional custom name
    and the "watching" notification flag. Rows are only ever inserted when absent and updated
    field by field; the two listings turn rows into mentions with a display-name fallback. */
module Users {
  import opened Text

  /** A row of the `users` table; `None` is SQL `NULL`. */
  datatype UserRow = UserRow(username: Option<string>, customName: Option<string>, notifyWatching: int)

  /** One entry of a listing: `{"user_id": ..., "display_name": ..., "username": ...}`. */
  datatype Mention = Mention(userId: int, displayName: string, username: string)

  /** The custom name if non-empty, else the username if non-empty, else the id in decimal. */
  function DisplayName(id: int, row: UserRow): (name: string)
    ensures name != ""
    ensures Filled(row.customName) ==> name == row.customName.value
    ensures !Filled(row.customName) && Filled(row.username) ==> name == row.username.value
    ensures !Filled(row.customName) && !Filled(row.username) ==> name == IntToString(id)
  {
    if Filled(row.customName) then row.customName.value
    else if Filled(row.username) then row.username.value
    else IntToString(id)
  }

  /** The username if non-empty, else the id in decimal. */
  function Handle(id: int, row: UserRow): (name: string)
    ensures name != ""
    ensures Filled(row.username) ==> name == row.username.value
    ensures !Filled(row.username) ==> name == IntToString(id)
  {
    if Filled(row.username) then row.username.value else IntToString(id)
  }

  function MentionOf(id: int, row: UserRow): Mention {
    Mention(id, DisplayName(id, row), Handle(id, row))
  }

  // ---------------------------------------------------------------- the table as a value

  /** `INSERT` only when there is no row for the id. */
  function AddIfAbsent(users: map<int, UserRow>, id: int, row: UserRow): map<int, UserRow> {
    if id in users then users else users[id := row]
  }

  /** The custom-name update: the row of the id, if any, takes the new name. */
  function WithCustomName(users: map<int, UserRow>, id: int, name: Option<string>): map<int, UserRow> {
    if id in users then users[id := users[id].(customName := name)] else users
  }

  /** The flag update: the row of the id, if any, takes the new flag. */
  function WithWatching(users: map<int, UserRow>, id: int, flag: int): map<int, UserRow> {
    if id in users then users[id := users[id].(notifyWatching := flag)] else users
  }

  /** The stored custom name of the id, with `NULL`, `""` and a missing row all read as `None`. */
  function CustomNameOf(users: map<int, UserRow>, id: int): (name: Option<string>)
    ensures name.Some? <==> id in users && Filled(users[id].customName)
    ensures name.Some? ==> name == users[id].customName && name.value != ""
  {
    if id in users && Filled(users[id].customName) then users[id].customName else None
  }

  /** The ids the listing for `excluded` selects: every other user, or only those watching. */
  function Selected(users: map<int, UserRow>, excluded: int, watchingOnly: bool): set<int> {
    set id | id in users && id != excluded && (!watchingOnly || users[id].notifyWatching == 1)
  }

  /** A listing holds one mention for each selected id, and nothing else. */
  predicate ListsExactly(users: map<int, UserRow>, list: seq<Mention>, ids: set<int>)
    requires ids <= users.Keys
  {
    && (forall k :: 0 <= k < |list| ==> list[k].userId in ids && list[k] == MentionOf(list[k].userId, users[list[k].userId]))
    && (forall id :: id in ids ==> exists k :: 0 <= k < |list| && list[k].userId == id)
    && (forall i, j :: 0 <= i < j < |list| ==> list[i].userId != list[j].userId)
  }

  /** Formatting one more row keeps the listing exact for the ids formatted so far. */
  lemma ListsExactlySnoc(users: map<int, UserRow>, list: seq<Mention>, done: set<int>, id: int)
    requires done <= users.Keys && id in users && id !in done && ListsExactly(users, list, done)
    ensures ListsExactly(users, list + [MentionOf(id, users[id])], done + {id})
  {
    var list' := list + [MentionOf(id, users[id])];
    forall x | x in done + {id} ensures exists k :: 0 <= k < |list'| && list'[k].userId == x {
      if x == id {
        assert list'[|list|].userId == id;
      } else {
        var k :| 0 <= k < |list| && list[k].userId == x;
        assert list'[k] == list[k];
      }
    }
  }

  class Database {
    /** The rows keyed by `user_id`, the table's primary key. */
    var users: map<int, UserRow>

    /** Opens the table with the rows already stored in it. */
    constructor (rows: map<int, UserRow>)
      ensures users == rows
    {
      users := rows;
    }

    /** Sets the user's flag to 1 or 0; the answer is `True` whether or not a row was changed,
        because the query helper returns `None` both on success and on a database error. */
    method UpdateNotifyWatchingStatus(userId: int, subscribe: bool) returns (ok: bool)
      modifies this
      ensures ok
      ensures users == WithWatching(old(users), userId, if subscribe then 1 else 0)
    {
      var status := if subscribe then 1 else 0;
      if userId in users {
        users := users[userId := users[userId].(notifyWatching := status)];
      }
      ok := true;
    }

    /** Formats the rows of the given ids, in no particular order, as the listings do. */
    method Format(ids: set<int>) returns (list: seq<Mention>)
      requires ids <= users.Keys
      ensures ListsExactly(users, list, ids)
      ensures |list| == |ids|
    {
      list := [];
      var remaining := ids;
      ghost var done: set<int> := {};
      while remaining != {}
        invariant done <= ids && remaining == ids - done
        invariant |list| + |remaining| == |ids|
        invariant ListsExactly(users, list, done)
        decreases |remaining|
      {
        if forall other :: other !in remaining {
          assert false;
        }
        var id :| id in remaining;
        ListsExactlySnoc(users, list, done, id);
        list := list + [MentionOf(id, users[id])];
        done := done + {id};
        remaining := remaining - {id};
      }
      assert done == ids;
    }

    /** Every user but `excludedUserId`, each once. */
    method GetAllUsersExcept(excludedUserId: int) returns (list: seq<Mention>)
      ensures ListsExactly(users, list, Selected(users, excludedUserId, false))
      ensures forall k :: 0 <= k < |list| ==> list[k].userId != excludedUserId
    {
      list := Format(Selected(users, excludedUserId, false));
    }

    /** Every user with `notify_watching = 1` but `excludedUserId`, each once. */
    method GetAllUsersWatching(excludedUserId: int) returns (list: seq<Mention>)
      ensures ListsExactly(users, list, Selected(users, excludedUserId, true))
      ensures forall k :: 0 <= k < |list| ==>
        list[k].userId != excludedUserId && users[list[k].userId].notifyWatching == 1
    {
      list := Format(Selected(users, excludedUserId, true));
    }

    /** Inserts the row unless the id already has one. */
    method AddUser(userId: int, username: Option<string>, customName: Option<string>, notifyWatching: int)
      modifies this
      ensures users == AddIfAbsent(old(users), userId, UserRow(username, customName, notifyWatching))
    {
      var user := GetUserData(userId);
      if user.None? {
        users := users[userId := UserRow(username, customName, notifyWatching)];
      }
    }

    /** The user's row, if there is one. */
    method GetUserData(userId: int) returns (user: Option<UserRow>)
      ensures user.Some? <==> userId in users
      ensures user.Some? ==> user.value == users[userId]
    {
      user := if userId in users then Some(users[userId]) else None;
    }

    method SetCustomName(userId: int, customName: string)
      modifies this
      ensures users == WithCustomName(old(users), userId, Some(customName))
    {
      if userId in users {
        users := users[userId := users[userId].(customName := Some(customName))];
      }
    }

    method RemoveCustomName(userId: int)
      modifies this
      ensures users == WithCustomName(old(users), userId, None)
    {
      if userId in users {
        users := users[userId := users[userId].(customName := None)];
      }
    }

    /** The middleware's registration: a new user gets the given custom name (none from the
        middleware) and the flag 0; a known user is left as it is. */
    method CheckAndAddUser(userId: int, username: Option<string>, customName: Option<string>)
      modifies this
      ensures users == AddIfAbsent(old(users), userId, UserRow(username, customName, 0))
    {
      var user := GetUserData(userId);
      if user.None? {
        AddUser(userId, username, customName, 0);
      }
    }

    method GetCustomName(userId: int) returns (name: Option<string>)
      ensures name == CustomNameOf(users, userId)
    {
      var user := GetUserData(userId);
      name := if user.Some? && Filled(user.value.customName) then user.value.customName else None;
    }
  }

  // ---------------------------------------------------------------- what the updates promise

  /** Adding keeps an existing row untouched, so registering twice is the same as once; a new
      row is exactly the one given. */
  lemma AddIfAbsentSpec(users: map<int, UserRow>, id: int, row: UserRow, again: UserRow)
    ensures AddIfAbsent(users, id, row).Keys == users.Keys + {id}
    ensures id in users ==> AddIfAbsent(users, id, row) == users
    ensures id !in users ==> AddIfAbsent(users, id, row)[id] == row
    ensures forall other :: other in users ==> AddIfAbsent(users, id, row)[other] == users[other]
    ensures AddIfAbsent(AddIfAbsent(users, id, row), id, again) == AddIfAbsent(users, id, row)
  {
  }

  /** A name update touches only that user's custom name; an unknown id changes nothing. */
  lemma WithCustomNameSpec(users: map<int, UserRow>, id: int, name: Option<string>)
    ensures WithCustomName(users, id, name).Keys == users.Keys
    ensures forall other :: other in users && other != id ==> WithCustomName(users, id, name)[other] == users[other]
    ensures id in users ==>
      var row := WithCustomName(users, id, name)[id];
      row.customName == name && row.username == users[id].username && row.notifyWatching == users[id].notifyWatching
  {
  }

  /** A flag update touches only that user's flag; an unknown id changes nothing. */
  lemma WithWatchingSpec(users: map<int, UserRow>, id: int, flag: int)
    ensures WithWatching(users, id, flag).Keys == users.Keys
    ensures forall other :: other in users && other != id ==> WithWatching(users, id, flag)[other] == users[other]
    ensures id in users ==>
      var row := WithWatching(users, id, flag)[id];
      row.notifyWatching == flag && row.username == users[id].username && row.customName == users[id].customName
  {
  }

  /** Reading back: a stored non-empty name is read as itself, a removed or empty one as none. */
  lemma NameReadBack(users: map<int, UserRow>, id: int, name: string)
    requires id in users
    ensures CustomNameOf(WithCustomName(users, id, Some(name)), id) == (if name != "" then Some(name) else None)
    ensures CustomNameOf(WithCustomName(users, id, None), id) == None
  {
  }

  /** Subscribing puts a registered user on every watching listing but their own; unsubscribing
      takes them off all of them. */
  lemma SubscribeListing(users: map<int, UserRow>, id: int, excluded: int)
    requires id in users && id != excluded
    ensures id in Selected(WithWatching(users, id, 1), excluded, true)
    ensures id !in Selected(WithWatching(users, id, 0), excluded, true)
  {
  }

  /** The watching listing is the part of the full listing whose flag is 1. */
  lemma WatchingWithinAll(users: map<int, UserRow>, excluded: int)
    ensures Selected(users, excluded, true) <= Selected(users, excluded, false)
    ensures forall id :: id in Selected(users, excluded, false) ==>
      (id in Selected(users, excluded, true) <==> users[id].notifyWatching == 1)
  {
  }
}
