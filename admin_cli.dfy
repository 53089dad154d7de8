/** The out-of-band admin tool (scripts/manage_admin.py): `create` promotes or
    inserts an admin by username, `list` prints the table, and the argument
    dispatch picks one or prints usage. */
module AdminCli {
  import opened Common
  import opened PyText
  import opened UserStore

  /** The table after `create_admin`: the first row with that username is made an admin
      and given the new password; without one, a new admin row is appended. */
  function Promoted(rs: seq<Record>, username: string, email: string, password: string): (r: seq<Record>)
    ensures |r| == |rs| || |r| == |rs| + 1
    ensures forall i :: 0 <= i < |rs| && rs[i].username != username ==> r[i] == rs[i]
    ensures exists i :: 0 <= i < |r| && r[i].username == username && r[i].isAdmin && CheckPassword(r[i].pwd, password)
  {
    match Lookup(rs, ByUsername(username))
    case Some(k) =>
      var r := rs[k := rs[k].(isAdmin := true, pwd := SetPassword(password))];
      assert r[k].username == username;
      r
    case None =>
      var r := Inserted(rs, username, email, SetPassword(password), true);
      assert r[|rs|].username == username;
      r
  }

  /** An absent username gets exactly one new admin row with the given username and email. */
  lemma CreateAdminAbsent(rs: seq<Record>, username: string, email: string, password: string)
    requires forall i :: 0 <= i < |rs| ==> rs[i].username != username
    ensures var rs' := Promoted(rs, username, email, password);
      |rs'| == |rs| + 1 && rs'[..|rs|] == rs
      && rs'[|rs|].username == username && rs'[|rs|].email == email && rs'[|rs|].isAdmin
      && CheckPassword(rs'[|rs|].pwd, password)
  {
  }

  /** An existing username adds no row: its first row becomes an admin with the new password
      and keeps its id, username and email, whatever email was passed; other rows stay. */
  lemma CreateAdminExisting(rs: seq<Record>, k: nat, username: string, email: string, password: string)
    requires k < |rs| && rs[k].username == username
    requires forall j :: 0 <= j < k ==> rs[j].username != username
    ensures var rs' := Promoted(rs, username, email, password);
      |rs'| == |rs| && (forall i :: 0 <= i < |rs| && i != k ==> rs'[i] == rs[i])
      && rs'[k].id == rs[k].id && rs'[k].username == username && rs'[k].email == rs[k].email
      && rs'[k].isAdmin && CheckPassword(rs'[k].pwd, password)
  {
    assert Lookup(rs, ByUsername(username)) == Some(k);
  }

  /** After `create`, logging in with that username and password succeeds, as an admin. */
  lemma CreateAdminGrantsLogin(rs: seq<Record>, username: string, email: string, password: string)
    ensures var u := Authenticate(Promoted(rs, username, email, password), username, password);
      u.Some? && u.value.isAdmin && u.value.username == username
  {
    var rs' := Promoted(rs, username, email, password);
    match Lookup(rs, ByUsername(username))
    case Some(k) =>
      forall j | 0 <= j < k ensures !Matches(rs'[j], ByUsername(username)) {
        assert rs'[j] == rs[j];
      }
      LookupFirst(rs', ByUsername(username), k);
    case None =>
      forall j | 0 <= j < |rs| ensures !Matches(rs'[j], ByUsername(username)) {
        assert rs'[j] == rs[j];
      }
      LookupFirst(rs', ByUsername(username), |rs|);
  }

  /** Running `create` twice with the same arguments leaves the same table as running it once. */
  lemma CreateAdminIdempotent(rs: seq<Record>, username: string, email: string, password: string)
    ensures Promoted(Promoted(rs, username, email, password), username, email, password)
            == Promoted(rs, username, email, password)
  {
    var rs' := Promoted(rs, username, email, password);
    match Lookup(rs, ByUsername(username))
    case Some(k) =>
      forall j | 0 <= j < k ensures !Matches(rs'[j], ByUsername(username)) {
        assert rs'[j] == rs[j];
      }
      LookupFirst(rs', ByUsername(username), k);
    case None =>
      forall j | 0 <= j < |rs| ensures !Matches(rs'[j], ByUsername(username)) {
        assert rs'[j] == rs[j];
      }
      LookupFirst(rs', ByUsername(username), |rs|);
  }

  /** The lookup is by username only: an email already in use is inserted again. */
  lemma CreateAdminIgnoresEmailClash()
    ensures exists rs: seq<Record>, u: string, e: string, pw: string ::
      Unique(rs) && !Unique(Promoted(rs, u, e, pw))
  {
    var rs := [Record(1, "ann", "a@x", SetPassword("one"), false)];
    var rs' := Promoted(rs, "bob", "a@x", "two");
    assert Lookup(rs, ByUsername("bob")).None?;
    assert rs'[0].email == rs'[1].email;
    assert Unique(rs);
  }

  /** A new row, like an existing one, keeps the ids distinct. */
  lemma PromotedDistinctIds(rs: seq<Record>, username: string, email: string, password: string)
    requires DistinctIds(rs)
    ensures DistinctIds(Promoted(rs, username, email, password))
  {
    if Lookup(rs, ByUsername(username)).None? {
      InsertedDistinctIds(rs, username, email, SetPassword(password), true);
    }
  }

  /** The lines `create_admin` prints. */
  function CreateMessages(rs: seq<Record>, username: string): seq<string>
  {
    (if Lookup(rs, ByUsername(username)).Some?
     then ["User " + username + " already exists. Promoting to admin and resetting password..."]
     else [])
    + ["Successfully set " + username + " as Admin."]
  }

  /** `create_admin(username, email, password)`. */
  method CreateAdmin(t: UserTable, username: string, email: string, password: string) returns (out: seq<string>)
    requires t.Valid()
    modifies t
    ensures t.Valid()
    ensures t.records == Promoted(old(t.records), username, email, password)
    ensures out == CreateMessages(old(t.records), username)
  {
    PromotedDistinctIds(t.records, username, email, password);
    var k := Lookup(t.records, ByUsername(username));
    if k.Some? {
      out := ["User " + username + " already exists. Promoting to admin and resetting password..."];
      t.records := t.records[k.value := t.records[k.value].(isAdmin := true, pwd := SetPassword(password))];
    } else {
      out := [];
      t.records := Inserted(t.records, username, email, SetPassword(password), true);
    }
    out := out + ["Successfully set " + username + " as Admin."];
  }

  function StatusTag(isAdmin: bool): string {
    if isAdmin then "[ADMIN]" else "[USER]"
  }

  /** One line of the listing. */
  function UserLine(r: Record): string {
    "ID: " + IntToString(r.id) + " | Username: " + r.username + " | Email: " + r.email
    + " | Status: " + StatusTag(r.isAdmin)
  }

  predicate EndsWith(s: string, suffix: string) {
    |suffix| <= |s| && s[|s| - |suffix|..] == suffix
  }

  /** A listed row is tagged `[ADMIN]` exactly when it is an admin, and `[USER]` otherwise. */
  lemma UserLineTag(r: Record)
    ensures EndsWith(UserLine(r), "[ADMIN]") <==> r.isAdmin
    ensures EndsWith(UserLine(r), "[USER]") <==> !r.isAdmin
  {
    var s := UserLine(r);
    var prefix := "ID: " + IntToString(r.id) + " | Username: " + r.username + " | Email: " + r.email + " | Status: ";
    assert s == prefix + StatusTag(r.isAdmin);
    assert |prefix| >= 7;
    if r.isAdmin {
      assert s[|s| - 7..] == "[ADMIN]";
      assert s[|s| - 2] == 'N';
    } else {
      assert s[|s| - 6..] == "[USER]";
      assert s[|s| - 2] == 'R';
    }
  }

  /** The row lines, in table order. */
  function Lines(rs: seq<Record>): seq<string>
  {
    if rs == [] then [] else [UserLine(rs[0])] + Lines(rs[1..])
  }

  const Header := "\n--- User List ---"
  const Footer := "-----------------\n"

  /** Everything `list_users` prints. */
  function Listing(rs: seq<Record>): seq<string>
  {
    [Header] + Lines(rs) + [Footer]
  }

  /** The listing is the header, one line per row in table order, then the footer. */
  lemma {:induction false} ListingLines(rs: seq<Record>)
    ensures |Listing(rs)| == |rs| + 2
    ensures Listing(rs)[0] == Header && Listing(rs)[|rs| + 1] == Footer
    ensures forall k :: 0 <= k < |rs| ==> Listing(rs)[k + 1] == UserLine(rs[k])
  {
    LinesAt(rs);
  }

  lemma {:induction false} LinesAt(rs: seq<Record>)
    ensures |Lines(rs)| == |rs|
    ensures forall k :: 0 <= k < |rs| ==> Lines(rs)[k] == UserLine(rs[k])
  {
    if rs != [] {
      LinesAt(rs[1..]);
      assert Lines(rs) == [UserLine(rs[0])] + Lines(rs[1..]);
    }
  }

  /** `list_users()`. */
  method ListUsers(t: UserTable) returns (out: seq<string>)
    ensures out == Listing(t.records)
  {
    var rs := t.records;
    out := [Header];
    for k := 0 to |rs|
      invariant |out| == k + 1 && out[0] == Header
      invariant forall j :: 0 <= j < k ==> out[j + 1] == UserLine(rs[j])
    {
      out := out + [UserLine(rs[k])];
    }
    out := out + [Footer];
    ListingLines(rs);
    forall i | 0 <= i < |out| ensures out[i] == Listing(rs)[i] {
      if 0 < i <= |rs| {
        assert out[i] == UserLine(rs[i - 1]);
      }
    }
  }

  const Usage := ["Usage:", "  python manage_admin.py create <username> <email> <password>", "  python manage_admin.py list"]
  const CreateUsage := ["Error: Missing arguments for create.", "Usage: python manage_admin.py create <username> <email> <password>"]

  /** The script's entry point on `sys.argv` (`argv[0]` is the script path): the printed lines
      and the exit status. Usage errors exit 1 and change nothing; an unknown command is
      reported but exits 0. */
  method Dispatch(t: UserTable, argv: seq<string>) returns (out: seq<string>, status: int)
    requires t.Valid()
    modifies t
    ensures t.Valid()
    ensures |argv| < 2 ==> out == Usage && status == 1 && t.records == old(t.records)
    ensures |argv| >= 2 && argv[1] == "create" && |argv| != 5 ==>
              out == CreateUsage && status == 1 && t.records == old(t.records)
    ensures |argv| == 5 && argv[1] == "create" ==>
              out == CreateMessages(old(t.records), argv[2]) && status == 0
              && t.records == Promoted(old(t.records), argv[2], argv[3], argv[4])
    ensures |argv| >= 2 && argv[1] == "list" ==>
              out == Listing(old(t.records)) && status == 0 && t.records == old(t.records)
    ensures |argv| >= 2 && argv[1] != "create" && argv[1] != "list" ==>
              out == ["Unknown command: " + argv[1]] && status == 0 && t.records == old(t.records)
  {
    if |argv| < 2 {
      return Usage, 1;
    }
    var command := argv[1];
    status := 0;
    if command == "create" {
      if |argv| != 5 {
        return CreateUsage, 1;
      }
      out := CreateAdmin(t, argv[2], argv[3], argv[4]);
    } else if command == "list" {
      out := ListUsers(t);
    } else {
      out := ["Unknown command: " + command];
    }
  }
}
