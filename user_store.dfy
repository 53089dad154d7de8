/** The authentication server's user table and its request handlers
    (app_flask.py): login, signup, the admin guard and the admin
    add / edit / delete routes, as operations on one table of user records. */
module UserStore {
  import opened Common

  /** A stored password hash. Hashing is opaque to the server: it only ever
      sets a hash from a password and checks a password against a hash. */
  datatype PasswordHash = PasswordHash(secret: string)

  function SetPassword(password: string): PasswordHash {
    PasswordHash(password)
  }

  predicate CheckPassword(h: PasswordHash, password: string) {
    h.secret == password
  }

  /** The hash of a password accepts that password and no other. */
  lemma CheckSetPassword(password: string, attempt: string)
    ensures CheckPassword(SetPassword(password), attempt) <==> attempt == password
  {
  }

  /** One row of the user table. */
  datatype Record = Record(id: int, username: string, email: string, pwd: PasswordHash, isAdmin: bool)

  /** The filters the handlers put on the table. */
  datatype Query = ById(id: int) | ByUsername(name: string) | ByUsernameOrEmail(name: string, email: string)

  predicate Matches(r: Record, q: Query) {
    match q
    case ById(id) => r.id == id
    case ByUsername(name) => r.username == name
    case ByUsernameOrEmail(name, email) => r.username == name || r.email == email
  }

  /** `query.filter(q).first()`: the position of the first row, in table order, that the filter matches. */
  function Lookup(rs: seq<Record>, q: Query): (r: Option<nat>)
    ensures r.Some? ==> r.value < |rs| && Matches(rs[r.value], q)
    ensures r.Some? ==> forall j :: 0 <= j < r.value ==> !Matches(rs[j], q)
    ensures r.None? <==> forall j :: 0 <= j < |rs| ==> !Matches(rs[j], q)
  {
    if rs == [] then None
    else if Matches(rs[0], q) then Some(0)
    else match Lookup(rs[1..], q)
      case None => None
      case Some(k) => Some(k + 1)
  }

  /** The first matching position is the one `Lookup` returns. */
  lemma LookupFirst(rs: seq<Record>, q: Query, k: nat)
    requires k < |rs| && Matches(rs[k], q)
    requires forall j :: 0 <= j < k ==> !Matches(rs[j], q)
    ensures Lookup(rs, q) == Some(k)
  {
    assert Lookup(rs, q).Some?;
  }

  /** Primary keys: no two rows share an id. */
  ghost predicate DistinctIds(rs: seq<Record>) {
    forall i, j :: 0 <= i < j < |rs| ==> rs[i].id != rs[j].id
  }

  /** The uniqueness the signup and add routes aim for: no two rows share a username or an email. */
  ghost predicate Unique(rs: seq<Record>) {
    forall i, j :: 0 <= i < j < |rs| ==> rs[i].username != rs[j].username && rs[i].email != rs[j].email
  }

  /** The id the database gives a new row: one past the largest id in use, 1 for an empty table. */
  function NextId(rs: seq<Record>): (n: int)
    ensures n >= 1
    ensures forall i :: 0 <= i < |rs| ==> rs[i].id < n
  {
    if rs == [] then 1
    else
      var m := NextId(rs[..|rs| - 1]);
      if rs[|rs| - 1].id < m then m else rs[|rs| - 1].id + 1
  }

  /** `db.session.add(User(...))` followed by a commit. */
  function Inserted(rs: seq<Record>, username: string, email: string, pwd: PasswordHash, isAdmin: bool): seq<Record>
  {
    rs + [Record(NextId(rs), username, email, pwd, isAdmin)]
  }

  /** Truthiness of an optional form field: a missing field and an empty one are false. */
  predicate FormFlag(field: Option<string>)
    ensures FormFlag(field) ==> field.Some?
    ensures field.Some? ==> (FormFlag(field) <==> |field.value| > 0)
  {
    field.Some? && field.value != ""
  }

  /** The in-place field updates of the edit route on the row at position `k`. */
  function Edited(rs: seq<Record>, k: nat, username: string, email: string,
                  isAdminField: Option<string>, password: Option<string>): seq<Record>
    requires k < |rs|
  {
    rs[k := rs[k].(username := username, email := email, isAdmin := FormFlag(isAdminField),
                   pwd := if FormFlag(password) then SetPassword(password.value) else rs[k].pwd)]
  }

  /** `db.session.delete(row)` followed by a commit, for the row at position `k`. */
  function Removed(rs: seq<Record>, k: nat): seq<Record>
    requires k < |rs|
  {
    rs[..k] + rs[k + 1..]
  }

  /** `load_user`: the row with the given id, if any. */
  function LoadUser(rs: seq<Record>, userId: int): (u: Option<Record>)
    ensures u.Some? ==> u.value in rs && u.value.id == userId
    ensures u.None? <==> forall j :: 0 <= j < |rs| ==> rs[j].id != userId
  {
    match Lookup(rs, ById(userId))
    case None => None
    case Some(k) => Some(rs[k])
  }

  /** `current_user`: the row whose id the session holds; anonymous when there is none. */
  function CurrentUser(rs: seq<Record>, session: Option<int>): (u: Option<Record>)
    ensures u.Some? ==> u.value in rs && session == Some(u.value.id)
    ensures u.None? <==> session.None? || forall j :: 0 <= j < |rs| ==> rs[j].id != session.value
  {
    if session.None? then None else LoadUser(rs, session.value)
  }

  /** Login check: the first row with that username, provided the password matches its hash. */
  function Authenticate(rs: seq<Record>, username: string, password: string): (u: Option<Record>)
    ensures u.Some? ==> u.value in rs && u.value.username == username && CheckPassword(u.value.pwd, password)
    ensures u.Some? ==> u.value == rs[Lookup(rs, ByUsername(username)).value]
    ensures u.None? <==> (forall j :: 0 <= j < |rs| ==> rs[j].username != username)
                         || !CheckPassword(rs[Lookup(rs, ByUsername(username)).value].pwd, password)
  {
    match Lookup(rs, ByUsername(username))
    case None => None
    case Some(k) => if CheckPassword(rs[k].pwd, password) then Some(rs[k]) else None
  }

  /** With unique usernames, login accepts exactly the credentials of some row. */
  lemma AuthenticateUnique(rs: seq<Record>, username: string, password: string)
    requires Unique(rs)
    ensures Authenticate(rs, username, password).Some?
            <==> exists i :: 0 <= i < |rs| && rs[i].username == username && CheckPassword(rs[i].pwd, password)
  {
    var k := Lookup(rs, ByUsername(username));
    if i :| 0 <= i < |rs| && rs[i].username == username && CheckPassword(rs[i].pwd, password) {
      assert k.Some?;
      if k.value < i {
        assert rs[k.value].username == rs[i].username;
      }
    }
  }

  /** Once two rows share a username, only the first one's password opens it. */
  lemma AuthenticateShadowed()
    ensures exists rs: seq<Record>, u: string, pw: string ::
      (exists i :: 0 <= i < |rs| && rs[i].username == u && CheckPassword(rs[i].pwd, pw))
      && Authenticate(rs, u, pw).None?
  {
    var rs := [Record(1, "ann", "a@x", SetPassword("one"), false),
               Record(2, "ann", "b@x", SetPassword("two"), false)];
    assert rs[1].username == "ann" && CheckPassword(rs[1].pwd, "two");
    assert Lookup(rs, ByUsername("ann")) == Some(0);
    assert Authenticate(rs, "ann", "two").None?;
  }

  /** Inserting appends exactly one row, with the given fields and a fresh id, after the untouched old rows. */
  lemma InsertedAppendsOne(rs: seq<Record>, username: string, email: string, pwd: PasswordHash, isAdmin: bool)
    ensures var rs' := Inserted(rs, username, email, pwd, isAdmin);
      |rs'| == |rs| + 1 && rs'[..|rs|] == rs
      && rs'[|rs|].username == username && rs'[|rs|].email == email
      && rs'[|rs|].pwd == pwd && rs'[|rs|].isAdmin == isAdmin
      && forall i :: 0 <= i < |rs| ==> rs[i].id != rs'[|rs|].id
  {
  }

  /** Edit rewrites only the target row: its id stays, the other rows stay, and its
      password changes exactly when a non-empty one is given. */
  lemma EditedTouchesOnlyTarget(rs: seq<Record>, k: nat, username: string, email: string,
                                isAdminField: Option<string>, password: Option<string>)
    requires k < |rs|
    ensures var rs' := Edited(rs, k, username, email, isAdminField, password);
      |rs'| == |rs| && (forall i :: 0 <= i < |rs| && i != k ==> rs'[i] == rs[i])
      && rs'[k].id == rs[k].id && rs'[k].username == username && rs'[k].email == email
      && (rs'[k].isAdmin <==> isAdminField.Some? && isAdminField.value != "")
      && (FormFlag(password) ==> rs'[k].pwd == SetPassword(password.value))
      && (password.None? || password.value == "" ==> rs'[k].pwd == rs[k].pwd)
  {
  }

  /** A new row carries a fresh id, so inserting keeps the ids distinct. */
  lemma InsertedDistinctIds(rs: seq<Record>, username: string, email: string, pwd: PasswordHash, isAdmin: bool)
    requires DistinctIds(rs)
    ensures DistinctIds(Inserted(rs, username, email, pwd, isAdmin))
  {
  }

  /** Inserting after the collision pre-check finds nothing keeps usernames and emails unique. */
  lemma InsertedUnique(rs: seq<Record>, username: string, email: string, pwd: PasswordHash, isAdmin: bool)
    requires Unique(rs)
    requires Lookup(rs, ByUsernameOrEmail(username, email)).None?
    ensures Unique(Inserted(rs, username, email, pwd, isAdmin))
  {
    var rs' := Inserted(rs, username, email, pwd, isAdmin);
    forall i, j | 0 <= i < j < |rs'|
      ensures rs'[i].username != rs'[j].username && rs'[i].email != rs'[j].email
    {
      if j == |rs| {
        assert !Matches(rs[i], ByUsernameOrEmail(username, email));
      }
    }
  }

  /** Edit keeps every id, so it keeps them distinct. */
  lemma EditedDistinctIds(rs: seq<Record>, k: nat, username: string, email: string,
                          isAdminField: Option<string>, password: Option<string>)
    requires k < |rs| && DistinctIds(rs)
    ensures DistinctIds(Edited(rs, k, username, email, isAdminField, password))
  {
  }

  /** Edit does no collision check: it can give a row another row's username. */
  lemma EditedMayBreakUnique()
    ensures exists rs: seq<Record>, k: nat, u: string, e: string ::
      k < |rs| && Unique(rs) && !Unique(Edited(rs, k, u, e, None, None))
  {
    var rs := [Record(1, "ann", "a@x", SetPassword("one"), true),
               Record(2, "bob", "b@x", SetPassword("two"), false)];
    var rs' := Edited(rs, 1, "ann", "c@x", None, None);
    assert rs'[0].username == rs'[1].username;
    assert Unique(rs);
  }

  /** Removing a row leaves every other row, in order, and keeps ids distinct. */
  lemma RemovedKeepsOthers(rs: seq<Record>, k: nat)
    requires k < |rs| && DistinctIds(rs)
    ensures DistinctIds(Removed(rs, k))
    ensures forall r :: r in Removed(rs, k) <==> r in rs && r.id != rs[k].id
  {
    var rs' := Removed(rs, k);
    forall r | r in rs && r.id != rs[k].id ensures r in rs' {
      var i :| 0 <= i < |rs| && rs[i] == r;
      if i < k { assert rs'[i] == r; } else { assert rs'[i - 1] == r; }
    }
    forall r | r in rs' ensures r in rs && r.id != rs[k].id {
      var i :| 0 <= i < |rs'| && rs'[i] == r;
      if i < k { assert rs[i] == r; } else { assert rs[i + 1] == r; }
    }
  }

  /** Removing keeps usernames and emails unique. */
  lemma RemovedUnique(rs: seq<Record>, k: nat)
    requires k < |rs| && Unique(rs)
    ensures Unique(Removed(rs, k))
  {
    var rs' := Removed(rs, k);
    forall i, j | 0 <= i < j < |rs'|
      ensures rs'[i].username != rs'[j].username && rs'[i].email != rs'[j].email
    {
      var i0 := if i < k then i else i + 1;
      var j0 := if j < k then j else j + 1;
      assert rs'[i] == rs[i0] && rs'[j] == rs[j0];
    }
  }

  datatype Page = IndexPage | LoginPage | SignupPage | AdminPage

  /** The flashed messages. */
  datatype Notice =
    | LoginRequired | InvalidCredentials | AlreadyExists | AccountCreated | AdminsOnly
    | UserAdded(name: string) | UserUpdated(name: string) | CannotDeleteSelf | UserDeleted(name: string)

  /** What a handler answers: a redirect, a rendered template, or a 404. */
  datatype Response = Redirect(to: Page, notice: Option<Notice>) | Render(page: Page, notice: Option<Notice>) | NotFound

  /** The outcome of `@login_required` followed by `@admin_required`. */
  datatype Gate = Admit(admin: Record) | Refuse(response: Response)

  /** `@login_required` then `@admin_required`: anonymous requests go to the login page,
      non-admins to the index, and only an admin reaches the handler. */
  function AdminGate(rs: seq<Record>, session: Option<int>): (g: Gate)
    ensures g.Admit? ==> g.admin in rs && g.admin.isAdmin && Some(g.admin.id) == session
    ensures g.Refuse? ==> g.response.Redirect? && g.response.to != AdminPage
    ensures CurrentUser(rs, session).None? ==> g == Refuse(Redirect(LoginPage, Some(LoginRequired)))
    ensures CurrentUser(rs, session).Some? && !CurrentUser(rs, session).value.isAdmin
            ==> g == Refuse(Redirect(IndexPage, Some(AdminsOnly)))
  {
    match CurrentUser(rs, session)
    case None => Refuse(Redirect(LoginPage, Some(LoginRequired)))
    case Some(u) => if u.isAdmin then Admit(u) else Refuse(Redirect(IndexPage, Some(AdminsOnly)))
  }

  /** With distinct ids, a request reaches an admin handler exactly when its session
      names an admin row. */
  lemma AdminGateAdmitsExactlyAdmins(rs: seq<Record>, session: Option<int>)
    requires DistinctIds(rs)
    ensures AdminGate(rs, session).Admit?
            <==> session.Some? && exists i :: 0 <= i < |rs| && rs[i].id == session.value && rs[i].isAdmin
  {
    if session.Some? {
      if i :| 0 <= i < |rs| && rs[i].id == session.value && rs[i].isAdmin {
        var k := Lookup(rs, ById(session.value));
        assert k.Some?;
        assert k.value == i;
      }
    }
  }

  /** The user table, updated in place by the handlers. */
  class UserTable {
    var records: seq<Record>

    ghost predicate Valid()
      reads this
    {
      DistinctIds(records)
    }

    constructor ()
      ensures Valid() && records == []
    {
      records := [];
    }

    /** `login`: an authenticated user is sent to the index; a GET shows the form;
        a POST logs in the first row with that username if the password matches it. */
    method Login(session: Option<int>, post: bool, username: string, password: string)
      returns (response: Response, session': Option<int>)
      ensures CurrentUser(records, session).Some? ==> response == Redirect(IndexPage, None) && session' == session
      ensures CurrentUser(records, session).None? && !post ==> response == Render(LoginPage, None) && session' == session
      ensures CurrentUser(records, session).None? && post ==>
        match Authenticate(records, username, password)
        case Some(u) => response == Redirect(IndexPage, None) && session' == Some(u.id)
        case None => response == Render(LoginPage, Some(InvalidCredentials)) && session' == session
    {
      if CurrentUser(records, session).Some? {
        return Redirect(IndexPage, None), session;
      }
      response, session' := Render(LoginPage, None), session;
      if post {
        var k := Lookup(records, ByUsername(username));
        if k.Some? && CheckPassword(records[k.value].pwd, password) {
          return Redirect(IndexPage, None), Some(records[k.value].id);
        }
        response := Render(LoginPage, Some(InvalidCredentials));
      }
    }

    /** `signup`: a POST whose username or email is already taken changes nothing;
        otherwise it appends one non-admin row. */
    method Signup(session: Option<int>, post: bool, username: string, email: string, password: string)
      returns (response: Response)
      requires Valid()
      modifies this
      ensures Valid()
      ensures CurrentUser(old(records), session).Some? ==> response == Redirect(IndexPage, None) && records == old(records)
      ensures CurrentUser(old(records), session).None? && !post ==> response == Render(SignupPage, None) && records == old(records)
      ensures CurrentUser(old(records), session).None? && post && Lookup(old(records), ByUsernameOrEmail(username, email)).Some? ==>
                response == Render(SignupPage, Some(AlreadyExists)) && records == old(records)
      ensures CurrentUser(old(records), session).None? && post && Lookup(old(records), ByUsernameOrEmail(username, email)).None? ==>
                response == Redirect(LoginPage, Some(AccountCreated))
                && records == Inserted(old(records), username, email, SetPassword(password), false)
    {
      if CurrentUser(records, session).Some? {
        return Redirect(IndexPage, None);
      }
      response := Render(SignupPage, None);
      if post {
        if Lookup(records, ByUsernameOrEmail(username, email)).Some? {
          response := Render(SignupPage, Some(AlreadyExists));
        } else {
          InsertedDistinctIds(records, username, email, SetPassword(password), false);
          records := Inserted(records, username, email, SetPassword(password), false);
          response := Redirect(LoginPage, Some(AccountCreated));
        }
      }
    }

    /** `admin`: the admin page lists every row, in table order. */
    method AdminPanel(session: Option<int>) returns (response: Response, users: seq<Record>)
      ensures AdminGate(records, session).Refuse? ==> response == AdminGate(records, session).response && users == []
      ensures AdminGate(records, session).Admit? ==> response == Render(AdminPage, None) && users == records
    {
      var gate := AdminGate(records, session);
      if gate.Refuse? {
        return gate.response, [];
      }
      response, users := Render(AdminPage, None), records;
    }

    /** `admin_add_user`: the same collision rule as signup; the new row is an admin
        exactly when the `is_admin` field is present and non-empty. */
    method AdminAdd(session: Option<int>, username: string, email: string, password: string, isAdminField: Option<string>)
      returns (response: Response)
      requires Valid()
      modifies this
      ensures Valid()
      ensures AdminGate(old(records), session).Refuse? ==>
                response == AdminGate(old(records), session).response && records == old(records)
      ensures AdminGate(old(records), session).Admit? && Lookup(old(records), ByUsernameOrEmail(username, email)).Some? ==>
                response == Redirect(AdminPage, Some(AlreadyExists)) && records == old(records)
      ensures AdminGate(old(records), session).Admit? && Lookup(old(records), ByUsernameOrEmail(username, email)).None? ==>
                response == Redirect(AdminPage, Some(UserAdded(username)))
                && records == Inserted(old(records), username, email, SetPassword(password), FormFlag(isAdminField))
    {
      var gate := AdminGate(records, session);
      if gate.Refuse? {
        return gate.response;
      }
      if Lookup(records, ByUsernameOrEmail(username, email)).Some? {
        response := Redirect(AdminPage, Some(AlreadyExists));
      } else {
        var isAdmin := FormFlag(isAdminField);
        InsertedDistinctIds(records, username, email, SetPassword(password), isAdmin);
        records := Inserted(records, username, email, SetPassword(password), isAdmin);
        response := Redirect(AdminPage, Some(UserAdded(username)));
      }
    }

    /** `admin_edit_user`: an unknown id is a 404; otherwise the row's username, email and
        admin flag are overwritten, its password only when a non-empty one is given,
        with no collision check. */
    method AdminEdit(session: Option<int>, userId: nat, username: string, email: string,
                     isAdminField: Option<string>, password: Option<string>)
      returns (response: Response)
      requires Valid()
      modifies this
      ensures Valid()
      ensures AdminGate(old(records), session).Refuse? ==>
                response == AdminGate(old(records), session).response && records == old(records)
      ensures AdminGate(old(records), session).Admit? && Lookup(old(records), ById(userId)).None? ==>
                response == NotFound && records == old(records)
      ensures AdminGate(old(records), session).Admit? && Lookup(old(records), ById(userId)).Some? ==>
                response == Redirect(AdminPage, Some(UserUpdated(username)))
                && records == Edited(old(records), Lookup(old(records), ById(userId)).value,
                                     username, email, isAdminField, password)
    {
      var gate := AdminGate(records, session);
      if gate.Refuse? {
        return gate.response;
      }
      var k := Lookup(records, ById(userId));
      if k.None? {
        return NotFound;
      }
      EditedDistinctIds(records, k.value, username, email, isAdminField, password);
      records := Edited(records, k.value, username, email, isAdminField, password);
      response := Redirect(AdminPage, Some(UserUpdated(username)));
    }

    /** `admin_delete_user`: an admin cannot delete their own row; an unknown id is a 404;
        otherwise exactly the row with that id is removed. */
    method AdminDelete(session: Option<int>, userId: nat) returns (response: Response)
      requires Valid()
      modifies this
      ensures Valid()
      ensures AdminGate(old(records), session).Refuse? ==>
                response == AdminGate(old(records), session).response && records == old(records)
      ensures AdminGate(old(records), session).Admit? && Some(userId as int) == session ==>
                response == Redirect(AdminPage, Some(CannotDeleteSelf)) && records == old(records)
      ensures AdminGate(old(records), session).Admit? && Some(userId as int) != session && Lookup(old(records), ById(userId)).None? ==>
                response == NotFound && records == old(records)
      ensures AdminGate(old(records), session).Admit? && Some(userId as int) != session && Lookup(old(records), ById(userId)).Some? ==>
                var k := Lookup(old(records), ById(userId)).value;
                response == Redirect(AdminPage, Some(UserDeleted(old(records)[k].username)))
                && records == Removed(old(records), k)
    {
      var gate := AdminGate(records, session);
      if gate.Refuse? {
        return gate.response;
      }
      if userId == gate.admin.id {
        return Redirect(AdminPage, Some(CannotDeleteSelf));
      }
      var k := Lookup(records, ById(userId));
      if k.None? {
        return NotFound;
      }
      var name := records[k.value].username;
      RemovedKeepsOthers(records, k.value);
      records := Removed(records, k.value);
      response := Redirect(AdminPage, Some(UserDeleted(name)));
    }
  }
}
