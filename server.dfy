/**
 * The FTP server glue (server.py): the authorizer that turns the credential
 * store's login check into an accept/refuse decision, and the server object
 * that loads every stored user into that authorizer before handing it to
 * the FTP library.
 */
module Server {
  import Wrappers
  import opened Values
  import opened Authentication

  /** The one username the authorizer answers with its own message when unknown. */
  const Anonymous := "anonymous"
  /** The permission string every loaded user receives. */
  const Permissions := "elradfmwMT"

  const DefaultPort := 2121
  const DefaultMaxCon := 20
  const DefaultMaxConPerIp := 5

  /** A row of the authorizer's user table, as `add_user` stores it. */
  datatype Entry = Entry(password: string, home: Value, perm: string)

  /** The three ways `validate_authentication` can end. */
  datatype Outcome =
    | Accepted            // returns normally
    | AnonymousRefused    // AuthenticationFailed('anonymous login is not allowed.')
    | Refused             // AuthenticationFailed with no message

  /** `if username and password`: both fields non-empty. */
  predicate Loadable(r: Record)
  {
    r.username != "" && r.password != ""
  }

  /** The user table after `add_user` has been called, in order, for each loadable record. */
  function Table(users: seq<Record>, home: Value): map<string, Entry>
  {
    if users == [] then map[]
    else
      var table := Table(users[..|users| - 1], home);
      var last := users[|users| - 1];
      if Loadable(last) then table[last.username := Entry(last.password, home, Permissions)]
      else table
  }

  /**
   * A name is in the table exactly when some loadable record carries it,
   * and every row has the shared home directory and permission string.
   */
  lemma {:induction false} TableEntry(users: seq<Record>, home: Value, username: string)
    ensures username in Table(users, home)
            <==> exists i | 0 <= i < |users| :: users[i].username == username && Loadable(users[i])
    ensures username in Table(users, home) ==>
              Table(users, home)[username].home == home && Table(users, home)[username].perm == Permissions
  {
    if users != [] {
      var prefix := users[..|users| - 1];
      TableEntry(prefix, home, username);
      assert forall i | 0 <= i < |prefix| :: prefix[i] == users[i];
      if exists i | 0 <= i < |users| :: users[i].username == username && Loadable(users[i]) {
        var i :| 0 <= i < |users| && users[i].username == username && Loadable(users[i]);
        if i < |prefix| {
          assert prefix[i].username == username && Loadable(prefix[i]);
        }
      }
    }
  }

  /** With distinct names, the row of a loaded user holds that user's stored hash. */
  lemma {:induction false} TablePassword(users: seq<Record>, home: Value, username: string)
    requires DistinctUsernames(users)
    requires username in Table(users, home)
    ensures FirstMatch(users, username).Some?
    ensures Table(users, home)[username].password == users[FirstMatch(users, username).value].password
  {
    var prefix := users[..|users| - 1];
    var last := users[|users| - 1];
    assert forall i | 0 <= i < |prefix| :: prefix[i] == users[i];
    assert DistinctUsernames(prefix);
    if Loadable(last) && last.username == username {
      FirstMatchIs(users, username, Wrappers.Some(|users| - 1));
    } else {
      TablePassword(prefix, home, username);
      var k := FirstMatch(prefix, username).value;
      FirstMatchIs(users, username, Wrappers.Some(k));
    }
  }

  /**
   * The whole login decision on a freshly loaded table, when names are
   * distinct: a user gets in exactly when a loadable record of that name
   * exists and either the name is `anonymous` or bcrypt accepts the
   * password for that record's hash.
   */
  lemma LoginDecision(users: seq<Record>, home: Value, username: string, password: string,
                      checkpw: (string, string) -> bool)
    requires DistinctUsernames(users)
    ensures (username in Table(users, home)
             && (username == Anonymous || Authenticates(users, username, password, checkpw)))
            <==> exists i | 0 <= i < |users| ::
                   && users[i].username == username && Loadable(users[i])
                   && (username == Anonymous || checkpw(password, users[i].password))
  {
    TableEntry(users, home, username);
    if exists i | 0 <= i < |users| :: users[i].username == username && Loadable(users[i]) {
      var i :| 0 <= i < |users| && users[i].username == username && Loadable(users[i]);
      FirstMatchIs(users, username, Wrappers.Some(i));
    }
  }

  /** Login_authorizer: a table of loaded users and the store whose `login` it consults. */
  class LoginAuthorizer {
    /** The store behind `self.login`. */
    const store: Auth
    /** `user_table` of the library's authorizer. */
    var userTable: map<string, Entry>

    constructor (store: Auth)
      ensures this.store == store && userTable == map[]
    {
      this.store := store;
      userTable := map[];
    }

    /** add_user, as far as the model needs it: one more row in the table. */
    method AddUser(username: string, password: string, home: Value, perm: string)
      modifies this
      ensures userTable == old(userTable)[username := Entry(password, home, perm)]
    {
      userTable := userTable[username := Entry(password, home, perm)];
    }

    predicate HasUser(username: string)
      reads this
    {
      username in userTable
    }

    /**
     * validate_authentication: unknown names are refused (with their own
     * message when the name is `anonymous`); a known `anonymous` gets in
     * without a password check; any other known name gets in exactly when
     * the store's login accepts the password.
     */
    method ValidateAuthentication(username: string, password: string, checkpw: (string, string) -> bool)
      returns (outcome: Outcome)
      ensures !HasUser(username) ==> outcome == if username == Anonymous then AnonymousRefused else Refused
      ensures HasUser(username) && username == Anonymous ==> outcome == Accepted
      ensures HasUser(username) && username != Anonymous ==>
                && (outcome == Accepted <==> Authenticates(UsersOf(store.data), username, password, checkpw))
                && outcome != AnonymousRefused
    {
      if !HasUser(username) {
        if username == Anonymous {
          return AnonymousRefused;
        }
        return Refused;
      }
      if username != Anonymous {
        var ok := store.Login(username, password, checkpw);
        if !ok {
          return Refused;
        }
      }
      return Accepted;
    }
  }

  /** What `run` hands to the FTP library: the listening address and limits, and the authorizer. */
  datatype Listening = Listening(host: string, port: Value, maxCon: Value, maxConPerIp: Value,
                                 authorizer: LoginAuthorizer)

  /** The `server` class: its settings and the credential store it loaded. */
  class Server {
    var target: Value
    var port: Value
    var maxCon: Value
    var maxConPerIp: Value
    /** `self.auth`, the store loaded by `Auth()`. */
    const auth: Auth

    /** `server(target, port=2121, max_con=20, max_con_per_ip=5)`: keeps each argument as given. */
    constructor (auth: Auth, target: Value, port: Value := Int(DefaultPort),
                 maxCon: Value := Int(DefaultMaxCon), maxConPerIp: Value := Int(DefaultMaxConPerIp))
      ensures this.auth == auth && this.target == target && this.port == port
      ensures this.maxCon == maxCon && this.maxConPerIp == maxConPerIp
    {
      this.auth := auth;
      this.target := target;
      this.port := port;
      this.maxCon := maxCon;
      this.maxConPerIp := maxConPerIp;
    }

    /**
     * run, up to the point where the library starts serving: a new
     * authorizer over this store, with every loadable stored user added
     * under the target directory and the fixed permissions.
     */
    method Run() returns (listening: Listening)
      ensures fresh(listening.authorizer) && listening.authorizer.store == auth
      ensures listening.authorizer.userTable == Table(UsersOf(auth.data), target)
      ensures listening == Listening("", port, maxCon, maxConPerIp, listening.authorizer)
    {
      var authorizer := new LoginAuthorizer(auth);
      var users := auth.GetUsers();
      var i := 0;
      while i < |users|
        invariant i <= |users|
        invariant fresh(authorizer) && authorizer.store == auth
        invariant authorizer.userTable == Table(users[..i], target)
      {
        var user := users[i];
        if user.username != "" && user.password != "" {
          authorizer.AddUser(user.username, user.password, target, Permissions);
        }
        assert users[..i + 1][..i] == users[..i];
        i := i + 1;
      }
      assert users[..|users|] == users;
      listening := Listening("", port, maxCon, maxConPerIp, authorizer);
    }
  }
}
