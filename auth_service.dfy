/**
 * The administrator session: a flag and the last username in the preferences, and the shared
 * `Admin` object that login, logout and auto-login fill in or clear.
 */
module Auth {
  import opened Wrappers
  import opened JavaText
  import opened Model
  import opened Prefs
  import opened Password
  import opened StoreSpec
  import opened DB

  const LOGGED_IN_KEY: string := "isAdminLoggedIn"
  const LAST_USER_KEY: string := "lastAdminUser"

  /** The preferences after `setLoggedIn(loggedIn)` while the shared admin's username is `userName`. */
  function AfterSetLoggedIn(entries: map<string, string>, loggedIn: bool, userName: Option<string>): (r: map<string, string>)
    ensures BooleanEntry(r, LOGGED_IN_KEY, false) == loggedIn
    ensures !loggedIn ==> LAST_USER_KEY !in r
    ensures loggedIn && userName.Some? ==> LAST_USER_KEY in r && r[LAST_USER_KEY] == userName.value
    ensures loggedIn && userName.None? ==>
              (LAST_USER_KEY in r <==> LAST_USER_KEY in entries) &&
              (LAST_USER_KEY in entries ==> r[LAST_USER_KEY] == entries[LAST_USER_KEY])
    ensures forall k :: k in entries && k != LOGGED_IN_KEY && k != LAST_USER_KEY ==> k in r && r[k] == entries[k]
    ensures forall k :: k in r ==> k in entries || k == LOGGED_IN_KEY || k == LAST_USER_KEY
  {
    var flagged := entries[LOGGED_IN_KEY := BooleanText(loggedIn)];
    BooleanTextReadsBack(flagged, LOGGED_IN_KEY, loggedIn, false);
    if !loggedIn then
      var cleared := flagged - {LAST_USER_KEY};
      assert cleared[LOGGED_IN_KEY] == flagged[LOGGED_IN_KEY];
      BooleanTextReadsBack(cleared, LOGGED_IN_KEY, loggedIn, false);
      cleared
    else if userName.Some? then
      var remembered := flagged[LAST_USER_KEY := userName.value];
      BooleanTextReadsBack(remembered, LOGGED_IN_KEY, loggedIn, false);
      remembered
    else flagged
  }

  /**
   * The row `attemptAutoLogin` restores: when the flag is set and a non-blank username is
   * remembered, the first listed admin with that username, if any.
   */
  function AutoLoginMatch(entries: map<string, string>, admins: seq<AdminRow>): (r: Option<AdminRow>)
    ensures r.Some? ==> BooleanEntry(entries, LOGGED_IN_KEY, false) && LAST_USER_KEY in entries &&
                        r.value in admins && r.value.userName == entries[LAST_USER_KEY]
    ensures !BooleanEntry(entries, LOGGED_IN_KEY, false) || LAST_USER_KEY !in entries ==> r.None?
  {
    if !BooleanEntry(entries, LOGGED_IN_KEY, false) || LAST_USER_KEY !in entries || IsBlank(entries[LAST_USER_KEY]) then None
    else
      match FirstWithUserName(admins, entries[LAST_USER_KEY])
      case None => None
      case Some(i) => Some(admins[i])
  }

  /** After a logout nothing is restored at the next start. */
  lemma LogoutDisablesAutoLogin(entries: map<string, string>, userName: Option<string>, admins: seq<AdminRow>)
    ensures AutoLoginMatch(AfterSetLoggedIn(entries, false, userName), admins) == None
  {
  }

  /** The preferences a login as `userName` leaves behind, marked logged in once more, stay as they are. */
  lemma RememberedLoginIsStable(entries: map<string, string>, userName: string)
    ensures var e := AfterSetLoggedIn(entries, true, Some(userName));
            AfterSetLoggedIn(e, true, Some(userName)) == e
  {
  }

  /** Only one admin row carries that username. */
  predicate UniqueUserName(rows: seq<AdminRow>, userName: string) {
    forall i, j :: 0 <= i < |rows| && 0 <= j < |rows| && rows[i].userName == userName && rows[j].userName == userName ==> i == j
  }

  /**
   * A successful login under a non-blank username that no other admin shares is restored at the
   * next start: whatever order `fetchAllAdmins` lists the admins in (`listing` is any arrangement
   * of them without passwords), auto-login finds the very row whose password was checked and keeps
   * remembering the same username.
   */
  lemma RestartRestoresLoggedInAdmin(entries: map<string, string>, rows: seq<AdminRow>, userName: string, password: string,
                                     listing: seq<AdminRow>)
    requires LoginResult(rows, Some(userName), Some(password)) == Ok(true)
    requires !IsBlank(userName)
    requires UniqueUserName(rows, userName)
    requires multiset(listing) == multiset(WithoutPasswords(rows))
    ensures FirstWithUserName(rows, userName).Some?
    ensures var e := AfterSetLoggedIn(entries, true, Some(userName));
            var row := rows[FirstWithUserName(rows, userName).value];
            AutoLoginMatch(e, listing) == Some(row.(password := None)) &&
            AfterSetLoggedIn(e, true, Some(row.userName)) == e
  {
    var k := FirstWithUserName(rows, userName).value;
    var target := rows[k].(password := None);
    assert target == WithoutPasswords(rows)[k];
    assert target in multiset(listing);
    var j :| 0 <= j < |listing| && listing[j] == target;
    var found := FirstWithUserName(listing, userName);
    assert listing[j].userName == userName;
    var x := listing[found.value];
    assert x in multiset(WithoutPasswords(rows));
    var m :| 0 <= m < |rows| && WithoutPasswords(rows)[m] == x;
    assert m == k;
    RememberedLoginIsStable(entries, userName);
  }

  /**
   * With a shared username the restart can restore another account: the login as "x" with "p1"
   * checks Zed's row (id 1), but `fetchAllAdmins` lists the admins by name, Amy first, and
   * auto-login takes Amy (id 2) without her password.
   */
  lemma SharedUserNameRestoresOtherAdmin(entries: map<string, string>)
    ensures var rows := [AdminRow(1, "Zed", "x", Some(Hash("p1"))), AdminRow(2, "Amy", "x", Some(Hash("p2")))];
            var byName := [WithoutPasswords(rows)[1], WithoutPasswords(rows)[0]];
            LoginResult(rows, Some("x"), Some("p1")) == Ok(true) &&
            rows[FirstWithUserName(rows, "x").value].id == 1 &&
            multiset(byName) == multiset(WithoutPasswords(rows)) &&
            AutoLoginMatch(AfterSetLoggedIn(entries, true, Some("x")), byName) == Some(AdminRow(2, "Amy", "x", None))
  {
    var rows := [AdminRow(1, "Zed", "x", Some(Hash("p1"))), AdminRow(2, "Amy", "x", Some(Hash("p2")))];
    assert FirstWithUserName(rows, "x") == Some(0);
    CheckHash("p1", "p1");
    assert HashHeader(Hash("p1"));
    assert LoginResult(rows, Some("x"), Some("p1")) == CheckPassword(Some("p1"), Some(Hash("p1")));
    var listed := WithoutPasswords(rows);
    assert listed[0] == AdminRow(1, "Zed", "x", None) && listed[1] == AdminRow(2, "Amy", "x", None);
    var byName := [listed[1], listed[0]];
    assert listed == [listed[0], listed[1]];
    assert multiset(byName) == multiset(listed);
    assert FirstWithUserName(byName, "x") == Some(0);
    var e := AfterSetLoggedIn(entries, true, Some("x"));
    assert !IsBlank("x") by { BlankIffAllSpace("x"); }
    assert BooleanEntry(e, LOGGED_IN_KEY, false) && LAST_USER_KEY in e && e[LAST_USER_KEY] == "x";
  }

  class AuthService {
    const prefs: Preferences
    const db: Database
    const admin: Admin

    constructor (prefs: Preferences, db: Database, admin: Admin)
      ensures this.prefs == prefs && this.db == db && this.admin == admin
    {
      this.prefs := prefs;
      this.db := db;
      this.admin := admin;
    }

    /** `isLoggedIn`: the flag, false when it was never written. */
    function IsLoggedIn(): (r: bool)
      reads prefs
      ensures LOGGED_IN_KEY !in prefs.entries ==> !r
      ensures r == BooleanEntry(prefs.entries, LOGGED_IN_KEY, false)
    {
      prefs.GetBoolean(LOGGED_IN_KEY, false)
    }

    /** `setLoggedIn`: writes the flag; logging in remembers the username, logging out forgets it. */
    method SetLoggedIn(loggedIn: bool)
      modifies prefs
      ensures prefs.entries == AfterSetLoggedIn(old(prefs.entries), loggedIn, admin.userName)
      ensures IsLoggedIn() == loggedIn
    {
      prefs.PutBoolean(LOGGED_IN_KEY, loggedIn);
      if loggedIn {
        if admin.userName.Some? {
          prefs.Put(LAST_USER_KEY, admin.userName.value);
        }
      } else {
        prefs.Remove(LAST_USER_KEY);
      }
    }

    /** The `done` callback of `login`; `validation` is what `get()` returned, or the exception it threw. */
    method LoginDone(validation: Result<bool>)
      modifies prefs
      ensures prefs.entries == AfterSetLoggedIn(old(prefs.entries), validation == Ok(true), admin.userName)
      ensures IsLoggedIn() <==> validation == Ok(true)
    {
      if validation.Ok? && validation.value {
        SetLoggedIn(true);
      } else {
        SetLoggedIn(false);
      }
    }

    /**
     * `login`: the session is open exactly when the credentials of the shared admin are valid; then
     * the admin carries the id and name of the first row with its username, otherwise it is as it was.
     */
    method Login()
      modifies prefs, admin
      ensures var valid := LoginResult(db.store.admins, old(admin.userName), old(admin.password)) == Ok(true);
              prefs.entries == AfterSetLoggedIn(old(prefs.entries), valid, old(admin.userName)) &&
              (IsLoggedIn() <==> valid)
      ensures LoginResult(db.store.admins, old(admin.userName), old(admin.password)) == Ok(true) ==>
                old(admin.userName).Some? && FirstWithUserName(db.store.admins, old(admin.userName).value).Some? &&
                var row := db.store.admins[FirstWithUserName(db.store.admins, old(admin.userName).value).value];
                admin.id == row.id && admin.name == Some(row.name) &&
                admin.userName == old(admin.userName) && admin.password == old(admin.password)
      ensures LoginResult(db.store.admins, old(admin.userName), old(admin.password)) != Ok(true) ==> unchanged(admin)
    {
      var validation := db.ValidateLogin(admin);
      LoginDone(validation);
    }

    /** `logout`, once the user has confirmed (`confirmed`) or cancelled the dialog. */
    method Logout(confirmed: bool)
      modifies prefs, admin
      ensures !confirmed ==> prefs.entries == old(prefs.entries) && unchanged(admin)
      ensures confirmed ==>
                prefs.entries == AfterSetLoggedIn(old(prefs.entries), false, old(admin.userName)) &&
                !IsLoggedIn() && LAST_USER_KEY !in prefs.entries &&
                admin.id == 0 && admin.name.None? && admin.userName.None? && admin.password.None?
    {
      if confirmed {
        SetLoggedIn(false);
        admin.userName := None;
        admin.password := None;
        admin.name := None;
        admin.id := 0;
      }
    }

    /**
     * `attemptAutoLogin`; `lookupFails` stands for an exception from `fetchAllAdmins`. With the flag
     * set, the remembered admin's id, name and username are copied in when found, and the session
     * is marked open whether or not it was.
     */
    method AttemptAutoLogin(lookupFails: bool)
      modifies prefs, admin
      ensures !old(IsLoggedIn()) ==> prefs.entries == old(prefs.entries) && unchanged(admin)
      ensures old(IsLoggedIn()) ==>
                var found := if lookupFails then None else AutoLoginMatch(old(prefs.entries), WithoutPasswords(db.store.admins));
                (found.Some? ==> admin.id == found.value.id && admin.name == Some(found.value.name) &&
                                 admin.userName == Some(found.value.userName)) &&
                (found.None? ==> admin.id == old(admin.id) && admin.name == old(admin.name) &&
                                 admin.userName == old(admin.userName)) &&
                admin.password == old(admin.password) &&
                prefs.entries == AfterSetLoggedIn(old(prefs.entries), true, admin.userName) &&
                IsLoggedIn()
    {
      if IsLoggedIn() {
        var lastUser := prefs.Get(LAST_USER_KEY, None);
        if lastUser.Some? && !IsBlank(lastUser.value) && !lookupFails {
          RestoreAdmin(lastUser.value);
        }
        SetLoggedIn(true);
      }
    }

    /** The lookup of `attemptAutoLogin`: the first listed admin with the remembered username, if any, is copied in. */
    method RestoreAdmin(userName: string)
      modifies admin
      ensures var found := FirstWithUserName(WithoutPasswords(db.store.admins), userName);
              (found.Some? ==> var a := WithoutPasswords(db.store.admins)[found.value];
                               admin.id == a.id && admin.name == Some(a.name) && admin.userName == Some(a.userName)) &&
              (found.None? ==> admin.id == old(admin.id) && admin.name == old(admin.name) &&
                               admin.userName == old(admin.userName)) &&
              admin.password == old(admin.password)
    {
      var admins := db.FetchAllAdmins();
      var first := FirstWithUserName(admins, userName);
      if first.Some? {
        var a := admins[first.value];
        admin.id := a.id;
        admin.name := Some(a.name);
        admin.userName := Some(a.userName);
      }
    }
  }
}
