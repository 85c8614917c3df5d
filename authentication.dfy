/**
 * The user credential store (authentication.py): an in-memory account
 * document, loaded once, searched by exact username and changed in place
 * by create, update and delete.
 *
 * bcrypt stays outside the model: a freshly salted hash is handed to the
 * store as a string, and `checkpw` is a parameter standing for bcrypt's
 * verifier. What `File.write` reports is a parameter too.
 */
module Authentication {
  import opened Wrappers

  /** One entry of the `users` list: `{"username": ..., "password": <hash>}`. */
  datatype Record = Record(username: string, password: string)

  /** The auth file's document: `AUTH_V` and an optional `users` list. */
  datatype Document = Document(version: string, users: Option<seq<Record>>)

  /** `File.default`, written out when no auth file exists: a version and no `users` key. */
  const DefaultDocument := Document(" 1.0", None)

  /** The account list, empty when the document has no `users` key. */
  function UsersOf(d: Document): seq<Record>
  {
    if d.users.Some? then d.users.value else []
  }

  /** Position of the first record whose username is exactly `username`. */
  function FirstMatch(users: seq<Record>, username: string): (r: Option<nat>)
    ensures r.Some? ==> r.value < |users| && users[r.value].username == username
    ensures r.Some? ==> forall j | 0 <= j < r.value :: users[j].username != username
    ensures r.None? <==> forall j | 0 <= j < |users| :: users[j].username != username
  {
    if users == [] then None
    else if users[0].username == username then Some(0)
    else match FirstMatch(users[1..], username)
      case None => None
      case Some(i) => Some(i + 1)
  }

  /** The invariant the store keeps: no username occurs twice. */
  ghost predicate DistinctUsernames(users: seq<Record>)
  {
    forall i, j | 0 <= i < j < |users| :: users[i].username != users[j].username
  }

  /** What `login` decides: the user exists and bcrypt accepts the password for its first record. */
  function Authenticates(users: seq<Record>, username: string, password: string,
                         checkpw: (string, string) -> bool): bool
  {
    match FirstMatch(users, username)
    case None => false
    case Some(i) => checkpw(password, users[i].password)
  }

  // ---------------------------------------------------------------------
  // How the list operations move lookups, logins and the invariant.
  // ---------------------------------------------------------------------

  /** Two positions that both meet `FirstMatch`'s description are the same. */
  lemma FirstMatchIs(users: seq<Record>, username: string, r: Option<nat>)
    requires r.Some? ==> r.value < |users| && users[r.value].username == username
    requires r.Some? ==> forall j | 0 <= j < r.value :: users[j].username != username
    requires r.None? ==> forall j | 0 <= j < |users| :: users[j].username != username
    ensures FirstMatch(users, username) == r
  {
  }

  /** Appending a record moves no existing lookup; the appended name is found at the end if it was new. */
  lemma {:induction false} AppendedLookup(users: seq<Record>, added: Record, v: string)
    ensures FirstMatch(users + [added], v)
            == if FirstMatch(users, v).Some? then FirstMatch(users, v)
               else if added.username == v then Some(|users|)
               else None
  {
    var all := users + [added];
    var before := FirstMatch(users, v);
    if before.Some? {
      assert all[before.value] == users[before.value];
      forall j | 0 <= j < before.value ensures all[j].username != v {
        assert all[j] == users[j];
      }
      FirstMatchIs(all, v, before);
    } else {
      forall j | 0 <= j < |users| ensures all[j].username != v {
        assert all[j] == users[j];
      }
      FirstMatchIs(all, v, if added.username == v then Some(|users|) else None);
    }
  }

  lemma AppendKeepsDistinct(users: seq<Record>, added: Record)
    requires DistinctUsernames(users)
    requires FirstMatch(users, added.username).None?
    ensures DistinctUsernames(users + [added])
  {
  }

  /** Replacing the password of a record changes no lookup. */
  lemma {:induction false} ReplacedPasswordLookup(users: seq<Record>, i: nat, hash: string, v: string)
    requires i < |users|
    ensures FirstMatch(users[i := users[i].(password := hash)], v) == FirstMatch(users, v)
  {
    var updated := users[i := users[i].(password := hash)];
    assert forall j | 0 <= j < |users| :: updated[j].username == users[j].username;
    FirstMatchIs(updated, v, FirstMatch(users, v));
  }

  lemma ReplaceKeepsDistinct(users: seq<Record>, i: nat, hash: string)
    requires DistinctUsernames(users) && i < |users|
    ensures DistinctUsernames(users[i := users[i].(password := hash)])
  {
  }

  lemma RemoveKeepsDistinct(users: seq<Record>, i: nat)
    requires DistinctUsernames(users) && i < |users|
    ensures DistinctUsernames(users[..i] + users[i + 1..])
  {
  }

  /**
   * Removing record `i` moves the first match of any other name one place
   * to the left when it stood after `i`, and leaves it in place otherwise.
   */
  lemma {:induction false} RemovedLookup(users: seq<Record>, i: nat, v: string)
    requires i < |users| && users[i].username != v
    ensures var rest := users[..i] + users[i + 1..];
            match FirstMatch(users, v)
            case None => FirstMatch(rest, v).None?
            case Some(k) => FirstMatch(rest, v) == Some(if k < i then k else k - 1)
                            && rest[FirstMatch(rest, v).value] == users[k]
  {
    var rest := users[..i] + users[i + 1..];
    var before := FirstMatch(users, v);
    if before.Some? {
      var k := before.value;
      var dst := if k < i then k else k - 1;
      assert rest[dst] == users[k];
      forall j | 0 <= j < dst ensures rest[j].username != v {
        if j < i { assert rest[j] == users[j]; } else { assert rest[j] == users[j + 1]; }
      }
      FirstMatchIs(rest, v, Some(dst));
    } else {
      forall j | 0 <= j < |rest| ensures rest[j].username != v {
        if j < i { assert rest[j] == users[j]; } else { assert rest[j] == users[j + 1]; }
      }
      FirstMatchIs(rest, v, None);
    }
  }

  /** With distinct names, removing the first match of a name leaves no record of it. */
  lemma RemovedUserIsGone(users: seq<Record>, i: nat)
    requires DistinctUsernames(users) && i < |users|
    ensures FirstMatch(users[..i] + users[i + 1..], users[i].username).None?
  {
  }

  /** Logging in after a successful create checks the password against the new hash. */
  lemma LoginAfterCreate(users: seq<Record>, username: string, hash: string, password: string,
                         checkpw: (string, string) -> bool)
    requires FirstMatch(users, username).None?
    ensures Authenticates(users + [Record(username, hash)], username, password, checkpw)
            == checkpw(password, hash)
  {
    AppendedLookup(users, Record(username, hash), username);
  }

  /** Logging in after an update checks against the replacement hash; other users are unaffected. */
  lemma LoginAfterUpdate(users: seq<Record>, username: string, hash: string, other: string,
                         password: string, checkpw: (string, string) -> bool)
    requires FirstMatch(users, username).Some?
    requires other != username
    ensures var i := FirstMatch(users, username).value;
            var updated := users[i := users[i].(password := hash)];
            && Authenticates(updated, username, password, checkpw) == checkpw(password, hash)
            && Authenticates(updated, other, password, checkpw) == Authenticates(users, other, password, checkpw)
  {
    var i := FirstMatch(users, username).value;
    ReplacedPasswordLookup(users, i, hash, username);
    ReplacedPasswordLookup(users, i, hash, other);
  }

  /**
   * After a delete (names distinct) nobody can log in under the removed
   * name, whatever the password, and every other user logs in as before.
   */
  lemma LoginAfterDelete(users: seq<Record>, username: string, other: string,
                         password: string, checkpw: (string, string) -> bool)
    requires DistinctUsernames(users)
    requires FirstMatch(users, username).Some?
    requires other != username
    ensures var i := FirstMatch(users, username).value;
            var rest := users[..i] + users[i + 1..];
            && !Authenticates(rest, username, password, checkpw)
            && Authenticates(rest, other, password, checkpw) == Authenticates(users, other, password, checkpw)
  {
    var i := FirstMatch(users, username).value;
    RemovedUserIsGone(users, i);
    RemovedLookup(users, i, other);
  }

  // ---------------------------------------------------------------------
  // The store.
  // ---------------------------------------------------------------------

  class Auth {
    /** `self.data`: the document as loaded and changed since. */
    var data: Document
    /** Every document handed to the auth file, oldest first, whether or not the write succeeded. */
    var saves: seq<Document>

    /**
     * `Auth()` after a successful load: `existing` is the document in the
     * auth file, or `None` when there is no file, in which case the
     * default document is written and used.
     */
    constructor (existing: Option<Document>)
      ensures existing.None? ==> data == DefaultDocument && saves == [DefaultDocument]
      ensures existing.None? ==> forall u :: FirstMatch(UsersOf(data), u).None?
      ensures existing.Some? ==> data == existing.value && saves == []
    {
      if existing.None? {
        data := DefaultDocument;
        saves := [DefaultDocument];
      } else {
        data := existing.value;
        saves := [];
      }
    }

    /** get_user: the first record with exactly this username, if any. */
    method GetUser(username: string) returns (user: Option<Record>)
      ensures user.None? <==> forall j | 0 <= j < |UsersOf(data)| :: UsersOf(data)[j].username != username
      ensures user.Some? ==> user.value == UsersOf(data)[FirstMatch(UsersOf(data), username).value]
    {
      if data.users.None? {
        return None;
      }
      var users := data.users.value;
      var i := 0;
      while i < |users|
        invariant i <= |users|
        invariant forall j | 0 <= j < i :: users[j].username != username
      {
        if users[i].username == username {
          assert UsersOf(data)[i].username == username;
          FirstMatchIs(users, username, Some(i));
          return Some(users[i]);
        }
        i := i + 1;
      }
      return None;
    }

    /** get_users: the account list, or `[]` when there is none. */
    method GetUsers() returns (users: seq<Record>)
      ensures data.users.None? ==> users == []
      ensures data.users.Some? ==> users == data.users.value
    {
      if data.users.Some? && data.users.value != [] {
        users := data.users.value;
      } else {
        users := [];
      }
    }

    /**
     * create_user: refuse a name that exists; otherwise append the record
     * (creating the list if absent), hand the document to the file and
     * report what the write reported. The append stays even if the write failed.
     */
    method CreateUser(username: string, passwordHash: string, written: bool) returns (created: bool)
      modifies this
      ensures FirstMatch(old(UsersOf(data)), username).Some? ==>
                !created && data == old(data) && saves == old(saves)
      ensures FirstMatch(old(UsersOf(data)), username).None? ==>
                && data == old(data).(users := Some(old(UsersOf(data)) + [Record(username, passwordHash)]))
                && saves == old(saves) + [data]
                && created == written
      ensures DistinctUsernames(old(UsersOf(data))) ==> DistinctUsernames(UsersOf(data))
    {
      var existing := GetUser(username);
      if existing.Some? {
        return false;
      }
      // the list is created when the document has no `users` key
      var users := if data.users.None? then [] else data.users.value;
      assert users == UsersOf(data);
      assert FirstMatch(users, username).None?;
      if DistinctUsernames(users) {
        AppendKeepsDistinct(users, Record(username, passwordHash));
      }
      data := data.(users := Some(users + [Record(username, passwordHash)]));
      saves := saves + [data];
      created := written;
    }

    /**
     * update: replace the password hash of the first record with this
     * name. Nothing is written to the file.
     */
    method Update(username: string, passwordHash: string) returns (updated: bool)
      modifies this
      ensures saves == old(saves)
      ensures FirstMatch(old(UsersOf(data)), username).None? ==> !updated && data == old(data)
      ensures var m := FirstMatch(old(UsersOf(data)), username);
              m.Some? ==>
                && updated
                && data == old(data).(users := Some(old(UsersOf(data))[m.value := Record(username, passwordHash)]))
      ensures DistinctUsernames(old(UsersOf(data))) ==> DistinctUsernames(UsersOf(data))
    {
      var existing := GetUser(username);
      if existing.None? {
        return false;
      }
      var users := data.users.value;
      var index := 0;
      while index < |users| && users[index].username != username
        invariant index <= |users|
        invariant forall j | 0 <= j < index :: users[j].username != username
      {
        index := index + 1;
      }
      if DistinctUsernames(users) {
        ReplaceKeepsDistinct(users, index, passwordHash);
      }
      data := data.(users := Some(users[index := users[index].(password := passwordHash)]));
      updated := true;
    }

    /**
     * delete_user: remove the first record with this name, hand the
     * document to the file and report success whatever the write reported.
     */
    method DeleteUser(username: string) returns (deleted: bool)
      modifies this
      ensures FirstMatch(old(UsersOf(data)), username).None? ==>
                !deleted && data == old(data) && saves == old(saves)
      ensures var m := FirstMatch(old(UsersOf(data)), username);
              m.Some? ==>
                && deleted
                && data == old(data).(users := Some(old(UsersOf(data))[..m.value] + old(UsersOf(data))[m.value + 1..]))
                && saves == old(saves) + [data]
      ensures DistinctUsernames(old(UsersOf(data))) ==> DistinctUsernames(UsersOf(data))
    {
      var existing := GetUser(username);
      if existing.None? {
        return false;
      }
      var users := data.users.value;
      var index := 0;
      while index < |users|
        invariant index <= |users|
        invariant forall j | 0 <= j < index :: users[j].username != username
        invariant data == old(data) && saves == old(saves)
      {
        if users[index].username == username {
          if DistinctUsernames(users) {
            RemoveKeepsDistinct(users, index);
          }
          data := data.(users := Some(users[..index] + users[index + 1..]));
          saves := saves + [data];
          return true;
        }
        index := index + 1;
      }
      assert false;
      deleted := false;
    }

    /** login: false for an unknown name, otherwise bcrypt's verdict on the first record's hash. */
    method Login(username: string, password: string, checkpw: (string, string) -> bool) returns (ok: bool)
      ensures ok == Authenticates(UsersOf(data), username, password, checkpw)
      ensures FirstMatch(UsersOf(data), username).None? ==> !ok
    {
      var user := GetUser(username);
      if user.None? {
        return false;
      }
      var again := GetUser(username);
      ok := checkpw(password, again.value.password);
    }
  }

  /**
   * An example run of the store's contracts: create, log in, create again,
   * update, log in and delete, on a store that started without an auth file.
   * `first` and `second` are the hashes bcrypt produced for the two passwords.
   */
  method AccountLifecycle(checkpw: (string, string) -> bool, first: string, second: string, written: bool)
    requires checkpw("s3cret", first) && !checkpw("wrong", first)
    requires !checkpw("s3cret", second) && checkpw("newpass", second)
  {
    var auth := new Auth(None);
    var created := auth.CreateUser("alice", first, written);
    assert created == written && UsersOf(auth.data) == [Record("alice", first)];
    var ok := auth.Login("alice", "s3cret", checkpw);
    assert ok;
    ok := auth.Login("alice", "wrong", checkpw);
    assert !ok;
    ok := auth.Login("bob", "anything", checkpw);
    assert !ok;
    var again := auth.CreateUser("alice", second, written);
    assert !again && UsersOf(auth.data) == [Record("alice", first)];
    var updated := auth.Update("alice", second);
    assert updated && UsersOf(auth.data) == [Record("alice", second)];
    ok := auth.Login("alice", "s3cret", checkpw);
    assert !ok;
    ok := auth.Login("alice", "newpass", checkpw);
    assert ok;
    var deleted := auth.DeleteUser("alice");
    assert deleted && UsersOf(auth.data) == [];
    var user := auth.GetUser("alice");
    assert user.None?;
  }
}
