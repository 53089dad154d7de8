# streamlit-starter: the auth server, the admin tool, the port reaper and the launcher

This project models, in Dafny, the operational core of the streamlit-starter
repository: a Flask authentication server in front of a Streamlit dashboard.
It covers four Python files.

- `app_flask.py`, the auth server. Users live in one table of records (id,
  username, email, password hash, admin flag). The handlers are login, signup,
  the `@login_required` / `@admin_required` guard, and the admin list, add,
  edit and delete routes. The table is a class, `UserStore.UserTable`, whose
  `records` field the handlers update in place. Each handler states the new
  table as a pure function of the old one (`Inserted`, `Edited`, `Removed`).
  Lemmas then prove what those functions keep: all three keep ids distinct
  and change nothing else, and `Inserted` and `Removed` keep usernames and
  emails unique, which `Edited` can break.
- `scripts/manage_admin.py`, the admin command-line tool. `create` promotes or
  inserts an admin by username, `list` prints the table, and the argument
  dispatch chooses one or prints usage (module `AdminCli`).
- `scripts/kill_ports.py`, the port reaper. It reads the two service ports
  from `.env.ports`, falling back to defaults. Then it sends SIGTERM to every
  process that `lsof` lists on each port. An error on one port is reported
  and the next port still runs (module `PortReaper`).
- `run.py`, the launcher. It detects the mode, builds the dashboard command
  line and the auth server environment, starts both children, and
  terminates them on Ctrl+C (module `Launcher`).

The parts of Python's string handling these scripts depend on are modelled in
`PyText`:

- `str.strip()`, which removes every `str.isspace()` character, the
  separators U+001C..U+001F included;
- `str.split(sep)`;
- `int(text)` in base 10: an optional sign, then digits with single
  underscores between them. The surrounding whitespace it skips is a
  different set from `strip()`'s: ASCII space and `\t\n\v\f\r`, and the
  non-ASCII `str.isspace()` characters, but not U+001C..U+001F;
- `str(n)`.

The properties proved about them are: `strip()` leaves the slice between a
whitespace prefix and a whitespace suffix; `sep.join(s.split(sep)) == s`;
`int()` accepts exactly a signed digit string with its own whitespace around
it; and `int(str(n)) == n`. `Common` holds the `Option` and `Result` types.

Some behaviour of the code worth knowing, all of it modelled as written:

- An unknown `manage_admin` subcommand prints `Unknown command: ...` and the
  script ends normally, with exit status 0 (scripts/manage_admin.py:51-52).
- `run.py` passes the fixed dashboard port 8501 (run.py:15). It neither reads
  `.env.ports` nor runs the reaper before starting the children.
- In the reaper, a config line that `get_config_ports` cannot read raises
  ValueError out of it (scripts/kill_ports.py:16-18), before any port is
  touched. The model returns that as an error (`PortReaper.ReaperMain`).

## Model

| member | source | states |
|---|---|---|
| PyText.Strip | scripts/kill_ports.py:16 | `str.strip()`: the result is no longer than the input and neither starts nor ends with whitespace |
| PyText.StripSlice | scripts/kill_ports.py:16 | `str.strip()` removes only surrounding whitespace: the result is the slice of the input between a whitespace prefix and a whitespace suffix |
| PyText.CountStrip | scripts/kill_ports.py:16 | stripping keeps every non-whitespace character, so the number of `=` in a line is the same before and after `strip()` |
| PyText.Split | scripts/kill_ports.py:28 | `str.split(sep)`: one more piece than there are separators, and no piece holds the separator |
| PyText.JoinSplit | scripts/kill_ports.py:28 | joining the pieces of `split(sep)` with `sep` gives back the original text |
| PyText.SplitAtFirst | scripts/kill_ports.py:16 | splitting `a + sep + b`, where `a` has no separator, gives `a` followed by the pieces of `b` |
| PyText.NatToStringDigits | scripts/manage_admin.py:31 | `str(n)` for n >= 0 is a non-empty string of decimal digits whose value is n |
| PyText.ParseIntDigits | scripts/kill_ports.py:31 | `int()` reads a digit string (single underscores allowed) as its decimal value |
| PyText.ParseIntNegative | scripts/kill_ports.py:31 | `int()` reads `-` followed by a digit string as the negated value |
| PyText.ParseIntToString | scripts/kill_ports.py:17 | `int(str(n)) == n` for every integer n |
| PyText.ParseIntAccepts | scripts/kill_ports.py:17-18 | `int(text)` succeeds if and only if the text is an optionally signed digit string with only `int()`'s whitespace around it |
| PyText.SeparatorBeforeDigits | scripts/kill_ports.py:16-17 | a U+001C..U+001F character in front of digits is removed by `strip()` but makes `int()` fail |
| PyText.IntToStringChars | scripts/manage_admin.py:31 | `str(n)` is non-empty, ends in a digit and holds only digits and a minus sign |
| UserStore.CheckSetPassword | app_flask.py:39 | the hash that `set_password` stores accepts that password and no other |
| UserStore.Lookup | app_flask.py:37 | `filter(...).first()`: the first row in table order that matches the filter, and None exactly when no row matches |
| UserStore.NextId | app_flask.py:61-64 | the id of a new row is at least 1 and larger than every id in use |
| UserStore.LoadUser | app_flask.py:17-19 | `load_user`: a row of the table carrying that id, and None exactly when no row has it |
| UserStore.CurrentUser | app_flask.py:17-19 | `current_user`: a row of the table whose id is the session's, and anonymous exactly when there is no session or no row has its id |
| UserStore.FormFlag | app_flask.py:121-124 | truthiness of a form field: a missing field is false, a present one is true exactly when it is non-empty |
| UserStore.Authenticate | app_flask.py:37-39 | a login succeeds only for a row with that username whose hash accepts the password, and the row it returns is the first row with that username; it fails exactly when no row has the username or the first one's hash rejects the password |
| UserStore.AuthenticateUnique | app_flask.py:37-39 | with unique usernames, a login succeeds if and only if some row has that username and password |
| UserStore.AuthenticateShadowed | app_flask.py:37 | when two rows share a username, the second row's own password can be refused: login checks only the first row |
| UserStore.InsertedAppendsOne | app_flask.py:61-64 | an insert appends exactly one row with the given fields and an id no old row has, after the untouched old rows |
| UserStore.InsertedDistinctIds | app_flask.py:61-64 | inserting keeps ids distinct |
| UserStore.InsertedUnique | app_flask.py:57-66 | an insert made after the username-or-email check finds nothing keeps usernames and emails unique |
| UserStore.EditedTouchesOnlyTarget | app_flask.py:118-127 | an edit changes only the target row; it keeps its id, sets username, email and the admin flag from the form, sets the password hash from the form's password when that is non-empty, and otherwise keeps the old hash |
| UserStore.EditedDistinctIds | app_flask.py:118-127 | an edit keeps ids distinct |
| UserStore.EditedMayBreakUnique | app_flask.py:118-121 | an edit does no collision check: it can give a row another row's username |
| UserStore.RemovedKeepsOthers | app_flask.py:139-141 | deleting keeps ids distinct and leaves exactly the rows whose id differs from the deleted one |
| UserStore.RemovedUnique | app_flask.py:139-141 | deleting keeps usernames and emails unique |
| UserStore.AdminGate | app_flask.py:77-89 | only an admin row named by the session is admitted; an anonymous request (no session, or a session whose id has no row) goes to the login page, a non-admin goes to the index with the admins-only notice, and every refusal is a redirect away from the admin page |
| UserStore.AdminGateAdmitsExactlyAdmins | app_flask.py:77-85 | with distinct ids, a request is admitted if and only if its session names an admin row |
| UserStore.UserTable.constructor | app_flask.py:21-22 | a fresh database starts with an empty table, which has distinct ids |
| UserStore.UserTable.Login | app_flask.py:29-45 | a logged-in user goes to the index; a GET renders the form; a POST logs in exactly the user `Authenticate` finds, else re-renders with an error; the table is not changed |
| UserStore.UserTable.Signup | app_flask.py:47-68 | a taken username or email changes nothing; otherwise exactly one non-admin row is appended and the user is sent to the login page; ids stay distinct |
| UserStore.UserTable.AdminPanel | app_flask.py:87-92 | a refused request gets the guard's redirect; an admin sees every row in table order |
| UserStore.UserTable.AdminAdd | app_flask.py:94-112 | same collision rule as signup; the new row is an admin exactly when the `is_admin` field is present and non-empty; ids stay distinct |
| UserStore.UserTable.AdminEdit | app_flask.py:114-129 | an unknown id is a 404; otherwise the row with that id is rewritten as `Edited` says; ids stay distinct |
| UserStore.UserTable.AdminDelete | app_flask.py:131-143 | an admin's own id is refused before anything else; an unknown id is a 404; otherwise exactly the row with that id is removed and its name reported |
| AdminCli.Promoted | scripts/manage_admin.py:12-20 | `create` adds at most one row, leaves every row with another username as it was, and leaves a row with that username that is an admin and accepts the new password |
| AdminCli.CreateAdminAbsent | scripts/manage_admin.py:17-20 | an unknown username gets exactly one new admin row with that username, email and password, after the untouched old rows |
| AdminCli.CreateAdminExisting | scripts/manage_admin.py:12-16 | an existing username adds no row; its first row becomes an admin with the new password and keeps its id, username and email; other rows stay |
| AdminCli.CreateAdminGrantsLogin | scripts/manage_admin.py:10-23 | after `create`, logging in with that username and password succeeds, as an admin |
| AdminCli.CreateAdminIdempotent | scripts/manage_admin.py:10-23 | running `create` twice with the same arguments gives the same table as running it once |
| AdminCli.CreateAdminIgnoresEmailClash | scripts/manage_admin.py:12 | the lookup is by username only, so an email already in use can be inserted a second time |
| AdminCli.PromotedDistinctIds | scripts/manage_admin.py:10-23 | `create` keeps ids distinct |
| AdminCli.CreateAdmin | scripts/manage_admin.py:10-23 | the table becomes `Promoted` of the old one, the promotion notice is printed exactly when the username existed, and ids stay distinct |
| AdminCli.UserLineTag | scripts/manage_admin.py:30-31 | a listed line ends in `[ADMIN]` exactly for admins and in `[USER]` exactly for the others |
| AdminCli.ListingLines | scripts/manage_admin.py:27-32 | the listing is the header, one line per row in table order, then the footer |
| AdminCli.ListUsers | scripts/manage_admin.py:25-32 | the loop prints exactly the listing of the current table |
| AdminCli.Dispatch | scripts/manage_admin.py:34-52 | fewer than two arguments print usage and exit 1; `create` without exactly three operands prints its usage and exits 1; both leave the table unchanged; `create` and `list` run their operation; an unknown command is reported and exits 0 |
| PortReaper.GetConfigPorts | scripts/kill_ports.py:6-19 | the loop over the file's lines returns what `ConfigPorts` says: the defaults without a file, else the lines applied in order up to the first error |
| PortReaper.ConfigWithoutFile | scripts/kill_ports.py:8-12 | without a file the ports are FLASK 5001 and STREAMLIT 8501 |
| PortReaper.ApplyLine | scripts/kill_ports.py:15-18 | one line: a line without `=` changes nothing, and a line that reads without error changes at most one of the two ports |
| PortReaper.LineWithoutEquals | scripts/kill_ports.py:15 | a line without `=` changes nothing |
| PortReaper.LineWithUnknownKey | scripts/kill_ports.py:15-18 | a line with one `=` and an unrecognised stripped key changes nothing |
| PortReaper.UnknownKeyValue | scripts/kill_ports.py:16-18 | `key=value` with a key other than FLASK_PORT and STREAMLIT_PORT changes nothing |
| PortReaper.KeyWithTrailingSpace | scripts/kill_ports.py:16-17 | keys match exactly: `KEY =value`, with a space before `=`, changes nothing |
| PortReaper.LineWithSeveralEquals | scripts/kill_ports.py:16 | a line with more than one `=` raises the unpacking error, whatever its key |
| PortReaper.SettingLineParts | scripts/kill_ports.py:16 | a `key=value` line with no inner `=` and no surrounding whitespace splits into exactly that key and value |
| PortReaper.RecognisedKeyBadValue | scripts/kill_ports.py:17-18 | a recognised key with a value `int()` rejects raises; there is no fallback to the default |
| PortReaper.SeparatorValueRaises | scripts/kill_ports.py:16-18 | a recognised key whose value is a U+001C..U+001F character followed by digits raises, since `strip()` keeps it and `int()` rejects it |
| PortReaper.RecognisedKeyValue | scripts/kill_ports.py:17-18 | a recognised key with a value `int()` reads as n sets that port to n and leaves the other |
| PortReaper.SettingLineSets | scripts/kill_ports.py:17-18 | `FLASK_PORT=<n>` sets the FLASK port to n, and `STREAMLIT_PORT=<n>` sets the STREAMLIT port |
| PortReaper.ConfigBothSettings | scripts/kill_ports.py:12-19 | a file holding both settings gives exactly those two ports |
| PortReaper.LastSettingWins | scripts/kill_ports.py:14-18 | when a file reads without error, each port is the value of the last line that sets it, or the default when none does |
| PortReaper.LineResolves | scripts/kill_ports.py:15-18 | a line that reads without error sets each port to the value of its own setting for that port, if it has one, and such a value is one `int()` accepts |
| PortReaper.ErrorStopsReading | scripts/kill_ports.py:14-18 | once a line raises, the rest of the file is not read |
| PortReaper.ReapPids | scripts/kill_ports.py:28-33 | the events of the loop over lsof's lines: notices and reports name the port, only pids `os.kill` accepts are signalled, and a report comes last if at all |
| PortReaper.ReapOutput | scripts/kill_ports.py:26-28 | lsof's output: empty once stripped gives nothing, otherwise the port's events keep the same shape |
| PortReaper.ReapPort | scripts/kill_ports.py:24-38 | one port with its try / except: no process gives nothing, a failed lsof call gives exactly one report for the port, and the events keep the same shape |
| PortReaper.ReapOnePort | scripts/kill_ports.py:24-38 | one port: lsof's answer and the loop over its lines, as `ReapPort` specifies |
| PortReaper.ReapLines | scripts/kill_ports.py:28-33 | the loop over lsof's lines: empty lines skipped, a busy notice and SIGTERM per pid, and the first bad pid or refused kill ends the port with one report |
| PortReaper.KillProcessesOnPorts | scripts/kill_ports.py:21-38 | the trace is the traces of the ports one after the other, in the given order |
| PortReaper.ReapAllAppend | scripts/kill_ports.py:23-38 | ports are independent: the trace for a list is the traces for its parts, one after the other |
| PortReaper.NoProcessNoEvents | scripts/kill_ports.py:34-35 | a port that no process holds gives neither a signal nor a report |
| PortReaper.AllPidsSignalled | scripts/kill_ports.py:28-33 | when every non-empty line is a pid and every kill succeeds, exactly those pids are signalled, in lsof's order, and nothing is reported |
| PortReaper.BadPidStopsPort | scripts/kill_ports.py:31-38 | a line that is not an integer ends the port: the kills before it stand, one report follows, and later lines are not read |
| PortReaper.ReaperMain | scripts/kill_ports.py:40-46 | the config is read first and an error there ends the script before any port is touched; otherwise FLASK's port is reaped, then STREAMLIT's |
| Launcher.RunApp | run.py:6-50 | production mode holds exactly when `--prod` occurs anywhere in argv; the steps are those of `Session` for that mode |
| Launcher.DashboardOptions | run.py:13-22 | the dashboard command runs `streamlit run dashboard_app.py` under the interpreter with port 8501, address 127.0.0.1 and headless true, plus base path `/dashboard-app/` exactly in production |
| Launcher.DashboardCommand | run.py:13-22 | development runs exactly the 11-element fixed command; production appends exactly `--server.baseUrlPath /dashboard-app/` |
| Launcher.AuthEnv | run.py:28-29 | the auth server gets the inherited environment with only FLASK_DEBUG changed: "False" in production, "True" otherwise |
| Launcher.SessionWellSupervised | run.py:25-49 | each child is started once and terminated once, never before it was started; the dashboard is started first and terminated first |

## Left out

- Password hashing is opaque. `models.py` is not part of this model, so a
  hash is modelled as accepting exactly the password it was set from.
  Salting and the hash algorithm are not modelled.
- UserStore.NextId: assumes a new row's id is one past the largest id in
  use. That is SQLite's rowid rule for an integer primary key; `models.py`
  is not part of this model.
- UserStore.Lookup: takes `.first()` and `.all()` in table (insertion)
  order. SQL gives no order without `ORDER BY`.
- Form fields are strings. An absent `username`, `email` or `password` field
  (`request.form.get` returning None) is not modelled, except for `is_admin`
  in add and edit and `password` in edit, where absence matters. The
  database constraints such an absent value would trip are not modelled
  either.
- Sessions are an optional user id, and `current_user` is `load_user` of
  it. Cookies, the random secret key, `login_user` and `logout_user` and
  the `index` and `logout` routes are not modelled. Templates are reduced to
  a page tag, and flashed messages to a notice tag.
- UserStore.UserTable.Signup: writes `false` for the new row's admin flag.
  The code leaves it to the column default in `models.py`, which is not
  part of this model.
- UserStore.EditedMayBreakUnique: `models.py` is not part of this model. If
  it declares username and email unique, the commit at app_flask.py:127
  raises instead of storing the duplicate; the model stores it.
- AdminCli.CreateAdminIgnoresEmailClash: likewise, a unique email column
  would make the commit at scripts/manage_admin.py:22 raise; the model
  stores the second row.
- UserStore.UserTable.Signup: does not model a concurrent insert racing the
  collision check. Requests are taken one at a time, here and in
  `UserStore.UserTable.AdminAdd`.
- PyText.ParseIntDigits: `int()` also accepts non-ASCII Unicode decimal
  digits. The model accepts ASCII digits only.
- PyText.ParseIntToString: Python 3.11 and later refuse, by default, to
  convert between `int` and decimal text of more than 4300 digits. The model
  has no such limit, so the round trip is stated for every integer.
- Printed output is reduced. `manage_admin`'s printed lines are modelled.
  The reaper's and the launcher's printed lines are not; the reaper's
  busy notices, signals and error reports become trace events.
- The reaper's `lsof` answers are given as a parameter, one per port. Any
  failure other than lsof's non-zero exit is modelled as one answer. A
  refused `os.kill` is modelled by a set of refused pids, fixed for the
  whole run: a pid whose process exits after its first SIGTERM, so that a
  second kill on the other port would raise, is not modelled. Reading
  `.env.ports` is modelled as the file's lines, or None when it does not
  exist.
- The launcher's `subprocess.Popen` calls and `terminate()` calls are trace
  steps. A child that fails to launch is not modelled. The sleep loop is
  modelled as ending when the interrupt arrives, and a second interrupt is
  not modelled.
- Launcher.RunApp: a Ctrl+C that arrives while the children are being
  started (run.py:25-41, before the `try` at run.py:43) is not caught. The
  script then ends with a traceback and leaves the started children
  running. The model lets the interrupt arrive only in the idle loop.
