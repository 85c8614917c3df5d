# ftp-serv: credential store and login decision, modelled in Dafny

ftp-serv is a small FTP server. In front of it sit a user credential store
and a command line. This project models the part that decides who may log in:

- **`Auth`** (authentication.py). It keeps the auth file's document in
  memory: an `AUTH_V` version string and an optional `users` list of
  `{username, password-hash}` records. It supports lookup by first exact
  match, create (which refuses duplicates), password update, delete, listing
  and the login check. In `authentication.dfy` it is a class whose `data`
  field the methods reassign. A second field, `saves`, records every
  document handed to the auth file. That field makes the write behaviour
  provable: `update` never writes, and `delete_user` writes but ignores
  the result.
- **`Login_authorizer` and `server`** (server.py). `run` fills the
  authorizer's user table from the store, keeping only records whose name
  and hash are both non-empty. Every entry gets the server's target
  directory and the permission string `elradfmwMT`.
  `validate_authentication` then makes a three-way decision: accepted,
  refused as anonymous, or refused. These live in `server.dfy`.
- **The argument validators** (validators.py), as pure functions over the
  argument text, in `validators.dfy`. They use a small decimal parser and
  printer. Those two make the port's "at least 4 digits" rule provably
  equal to `port >= 1000`.
- **`args_cleaner` and `run_server`** (ftpsrv.py), in `ftpsrv.dfy`. These
  turn the parsed `run` namespace into keyword arguments for `server`.
  Python values and their truthiness are modelled in `values.dfy`.

Some things are outside the model and become parameters:

- bcrypt. The salted hash of a new password is passed to `CreateUser` and
  `Update` as a string. bcrypt's `checkpw` is a function-valued parameter,
  `checkpw(plain, hash)`, with no properties assumed.
- The auth file's contents. The constructor is given the loaded document,
  or `None` when the file is absent.
- The result of `File.write`, passed as `written`.
- The working directory, which is the default target.
- The credential store of a `server`. Python's `server.__init__` loads
  its own store with `Auth()` (server.py:59). The model's constructor is
  given an already loaded `Auth` instead.

Where the design description of this system and the code disagree, the
model follows the code:

- A *known* user literally named `anonymous` is accepted with any
  password (server.py:39). The design says anonymous access is always
  refused.
- `create_user` keeps the appended record even when the write fails, and
  returns the write's result. The design says it rolls back.
- `update` changes the record in memory only and never writes the file.
  The design says every change is persisted.
- `delete_user` returns true whatever the write reports.
- There are no distinct error kinds. Every failure is a `false`.

## Model

| member | source | states |
|---|---|---|
| `Validators.IntValidator` | validators.py:25-41 | accepts exactly the texts that parse (optional sign, at most 4300 digits) to a non-negative integer, returns that integer, and refuses the rest with "invalid number" |
| `Validators.IntValidatorAcceptsDecimal` | validators.py:33-41 | every decimal rendering of a non-negative number with at most 4300 digits is accepted as that number; a longer one is refused as an invalid number |
| `Validators.IntValidatorRefusesLongText` | validators.py:33-36 | digit text longer than 4300 characters, leading zeros included, is refused as an invalid number |
| `Validators.ZeroPaddedPortRefused` | validators.py:50 | 2121 padded with zeros to 4301 digits is refused by the port check as an invalid number |
| `Validators.IntValidatorRefusesNegative` | validators.py:38-39 | a minus sign before a positive number is always refused |
| `Validators.DecimalString` | validators.py:51 | `str(n)` is a non-empty digit string with no leading zero whose value is `n` |
| `Validators.ParseDecimalString` | validators.py:34 | parsing what `str(n)` printed gives back `n` when it has at most 4300 digits, and fails otherwise |
| `Validators.DecimalStringLength` | validators.py:51 | `str(n)` has at most `k` digits exactly when `n < 10^k` |
| `Validators.FewerThanFourDigits` | validators.py:51-52 | the port's "fewer than 4 digits" test is exactly `port < 1000` |
| `Validators.PortValidator` | validators.py:44-56 | accepts exactly the integers 1000..35550 and returns them unchanged; a parsed port below 1000 is refused as too short |
| `Validators.MaxCon` | validators.py:59-72 | accepts exactly 1..255 and returns the number unchanged |
| `Validators.MaxConPerIp` | validators.py:74-86 | accepts exactly 1..10 and returns the number unchanged |
| `Validators.AllLettersOrDigits` | validators.py:94 | the `all([...])` scan holds exactly when every character is an ASCII letter or digit (so it holds of `""`) |
| `Validators.UsernameValidator` | validators.py:88-96 | accepts exactly the strings of ASCII letters and digits, the empty string included, and returns them unchanged |
| `Authentication.FirstMatch` | authentication.py:106-110 | the lookup index is the first record with exactly that username; there is none only when no record has it |
| `Authentication.FirstMatchIs` | authentication.py:106-108 | a position that is a match with no earlier match is the lookup's answer (the first match is unique) |
| `Authentication.AppendedLookup` | authentication.py:146 | appending a record moves no existing lookup, and a new name is then found at the end |
| `Authentication.AppendKeepsDistinct` | authentication.py:133-146 | appending a name not yet present keeps usernames pairwise distinct |
| `Authentication.ReplacedPasswordLookup` | authentication.py:180 | replacing a record's password changes no lookup |
| `Authentication.ReplaceKeepsDistinct` | authentication.py:180 | replacing a password keeps usernames distinct |
| `Authentication.RemoveKeepsDistinct` | authentication.py:199 | deleting one record keeps usernames distinct |
| `Authentication.RemovedLookup` | authentication.py:199 | after deleting record `i`, another name's first match is the same record, one place to the left if it stood after `i` |
| `Authentication.RemovedUserIsGone` | authentication.py:196-199 | with distinct names, the deleted name is no longer found |
| `Authentication.LoginAfterCreate` | authentication.py:144-146 | after creating a new user, login for that name checks the password against the new hash |
| `Authentication.LoginAfterUpdate` | authentication.py:174-180 | after an update, login for that name checks against the new hash, and other users log in as before |
| `Authentication.LoginAfterDelete` | authentication.py:196-199 | after a delete (names distinct), login for that name fails for every password, and other users log in as before |
| `Authentication.Auth.constructor` | authentication.py:82-93 | with no auth file the store holds the default document `{"AUTH_V": " 1.0"}`, writes it, and finds no user; otherwise it holds the loaded document |
| `Authentication.Auth.GetUser` | authentication.py:95-110 | returns the first record whose username equals the name exactly, or nothing when there is no `users` list or no match |
| `Authentication.Auth.GetUsers` | authentication.py:151-158 | returns the `users` list, or `[]` when there is none |
| `Authentication.Auth.CreateUser` | authentication.py:124-149 | an existing name gives false and nothing changes; otherwise exactly one record is appended at the end (the list is created if absent) and the document is written; the result equals the write's result and the append stays either way; distinct names stay distinct |
| `Authentication.Auth.Update` | authentication.py:160-181 | never writes; a missing name gives false and nothing changes; otherwise only the first match's hash is replaced, and it returns true; distinct names stay distinct |
| `Authentication.Auth.DeleteUser` | authentication.py:183-204 | a missing name gives false and nothing changes; otherwise exactly the first match is removed, the rest keep their order, the document is written, and it returns true whatever the write reported; distinct names stay distinct |
| `Authentication.Auth.Login` | authentication.py:207-213 | false for an unknown name; otherwise bcrypt's verdict on the password and the first matching record's hash |
| `Server.TableEntry` | server.py:65-70 | the loaded table holds a name exactly when some record of that name has a non-empty name and hash, and every entry has the target as home and `elradfmwMT` as permissions |
| `Server.TablePassword` | server.py:66-70 | with distinct names, a loaded user's entry holds that user's stored hash |
| `Server.LoginDecision` | server.py:34-41 | on a freshly loaded table with distinct names, a user is let in exactly when a loadable record of that name exists and either the name is `anonymous` or bcrypt accepts the password for that record |
| `Server.LoginAuthorizer.constructor` | server.py:20-27 | the authorizer starts with an empty user table and consults the given store |
| `Server.LoginAuthorizer.AddUser` | server.py:70 | adding a user sets that name's row and leaves the other rows alone |
| `Server.LoginAuthorizer.ValidateAuthentication` | server.py:29-41 | an unknown name is refused, with the anonymous message exactly when the name is `anonymous`; a known `anonymous` is accepted without a password check; any other known name is accepted exactly when the store's login accepts |
| `Server.Server.constructor` | server.py:48-59 | the settings default to port 2121, 20 connections and 5 per address, and each given argument is stored unchanged |
| `Server.Server.Run` | server.py:61-79 | the new authorizer's table is exactly the loaded table of the store's users under the target, and the port and limits are passed on unchanged |
| `Cli.ArgsCleaner` | ftpsrv.py:38-57 | the result has no `handler` key, holds only truthy values, each copied unchanged from the input, and keeps every non-`handler` key whose value is truthy |
| `Cli.RunServer` | ftpsrv.py:60-75 | with no namespace the server gets every default; otherwise each setting is the command line's value when it was given and truthy, and the default when not |

## Left out

- `File` (authentication.py:13-72) is not modelled. It does the JSON
  reading and writing and the existence check. The loaded document is a
  constructor argument, and a write's success is a `bool` argument.
- The failure path of `Auth.__init__` (authentication.py:89-92) is not
  modelled: a corrupt or unreadable file, or one holding an empty (falsy)
  object. The model starts from a successfully loaded document.
- The document's other keys, and records with missing or non-string
  fields, are not modelled. `Auth` never reads `AUTH_V`, and every record
  it writes has both fields.
- bcrypt's `hashpw`, `gensalt` and `checkpw` are not modelled. They are a
  foreign library with random salts: the hash is a parameter and `checkpw`
  is uninterpreted.
- `path_validator` (validators.py:14-22) is not modelled, because it asks
  the filesystem.
- Validators.ParseInt: does not model the leniency of Python's `int()`
  (surrounding whitespace, `_` between digits, non-ASCII digits). Those
  texts are refused in the model but accepted by Python.
- Server.LoginAuthorizer.AddUser: does not model the library's own checks.
  pyftpdlib refuses a name that is already in the table, and a home
  that is not a directory. `path_validator` only checks that the target
  exists, so a target naming a regular file passes validation and then
  makes `add_user` raise. The store's operations keep names
  distinct, but a loaded file may already repeat a name. If two such
  records both have a non-empty name and hash, Python's `run` raises at
  the second `add_user`. The model's table keeps the last such record
  instead (`Server.Server.Run` and `Server.Table`).
- The limit on decimal text in Python's `int()` is modelled at CPython's
  default of 4300 digits. Leading zeros count toward it and the sign does
  not. Python 3.11 and later enforce it, as do the 3.7.14, 3.8.14, 3.9.14
  and 3.10.7 releases; older interpreters have no limit. A limit changed
  with `sys.set_int_max_str_digits` is not modelled.
- pyftpdlib's `FTPHandler`, `FTPServer`, `serve_forever` and connection
  limits are not modelled (server.py:74-80). They are library code,
  networking and concurrency. `Run` stops at what it hands to the library.
- The unused `handler` argument of `validate_authentication` is left out.
- Cli.RunServer: requires the namespace to come from the `run`
  sub-command. Any other keyword would make Python's `server(**args)`
  raise, which is not modelled.
- argparse wiring, the interactive prompts (`input_`, `getpass`),
  `print`, `exit`, the top-level dispatch, and the `create_user`,
  `update_user`, `show_user` and `delete_user` command handlers of
  ftpsrv.py are not modelled. They are interactive I/O around the store
  operations modelled above. `Authentication.AccountLifecycle` is an
  example run of the store's contracts, not a model of any handler.
