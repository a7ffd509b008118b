/**
 * The dialog that adds an administrator or edits one: the checks of its OK button, the update of
 * the shared `Admin` object and the hand-off to the database.
 */
module AdminForm {
  import opened Wrappers
  import opened JavaText
  import opened Tables
  import opened Model
  import opened Password
  import opened StoreSpec
  import opened DB

  /** What the four text boxes hold when OK is pressed. */
  datatype Form = Form(name: string, userName: string, password: string, confirmation: string)

  const EMPTY_FIELDS: string := "Name and Username cannot be empty."
  const PASSWORDS_DIFFER: string := "Passwords do not match."
  const PASSWORD_REQUIRED: string := "Password cannot be empty for a new admin."

  /**
   * The error the dialog shows, or `None` when the form is accepted. The checks run in order:
   * blank name or username, then the confirmation, then the password a new admin needs.
   */
  function Rejection(form: Form, isEditMode: bool): (r: Option<string>)
    ensures r.None? <==> !IsBlank(form.name) && !IsBlank(form.userName) && form.password == form.confirmation &&
                         (isEditMode || form.password != "")
    ensures IsBlank(form.name) || IsBlank(form.userName) ==> r == Some(EMPTY_FIELDS)
    ensures !IsBlank(form.name) && !IsBlank(form.userName) && form.password != form.confirmation ==>
              r == Some(PASSWORDS_DIFFER)
    ensures r == Some(PASSWORD_REQUIRED) ==> !isEditMode && form.password == "" && form.confirmation == ""
  {
    if IsBlank(form.name) || IsBlank(form.userName) then Some(EMPTY_FIELDS)
    else if form.password != form.confirmation then Some(PASSWORDS_DIFFER)
    else if !isEditMode && form.password == "" then Some(PASSWORD_REQUIRED)
    else None
  }

  /** An accepted form has a name and a username holding more than white space. */
  lemma AcceptedFieldsHaveText(form: Form, isEditMode: bool)
    requires Rejection(form, isEditMode).None?
    ensures exists i :: 0 <= i < |form.name| && form.name[i] > ' '
    ensures exists i :: 0 <= i < |form.userName| && form.userName[i] > ' '
  {
    BlankIffAllSpace(form.name);
    BlankIffAllSpace(form.userName);
  }

  /**
   * The password of the shared admin after an accepted form: the one typed, or the one it held
   * when the password box is left empty.
   */
  function PasswordAfter(form: Form, current: Option<string>): (r: Option<string>)
    ensures form.password != "" ==> r == Some(form.password)
    ensures form.password == "" ==> r == current
  {
    if form.password != "" then Some(form.password) else current
  }

  /**
   * The store after the accepted form reaches the database: `signUp` appends a row with a fresh
   * id and the hash of the password; `updateAdmin` rewrites the row whose id is the admin's, if any.
   */
  function StoreAfterSubmit(store: Store, isEditMode: bool, id: int, name: string, userName: string, password: Option<string>): Store
    requires !isEditMode ==> password.Some?
  {
    if !isEditMode then
      store.(admins := store.admins + [AdminRow(NextKey(Keys(store.admins, AdminKey)), name, userName, Some(Hash(password.value)))])
    else if FindKey(store.admins, AdminKey, id).None? then store
    else store.(admins := AdminsUpdated(store.admins, id, name, userName, password))
  }

  /**
   * A new admin added under a username no account has yet logs in with the confirmation typed
   * into the form, and with no other password.
   */
  lemma NewAdminLogsIn(store: Store, id: int, current: Option<string>, form: Form, attempt: string)
    requires Rejection(form, false).None?
    requires forall j :: 0 <= j < |store.admins| ==> store.admins[j].userName != form.userName
    ensures var admins := StoreAfterSubmit(store, false, id, form.name, form.userName, PasswordAfter(form, current)).admins;
            LoginResult(admins, Some(form.userName), Some(form.confirmation)) == Ok(true) &&
            LoginResult(admins, Some(form.userName), Some(attempt)) == Ok(attempt == form.password)
  {
    var key := NextKey(Keys(store.admins, AdminKey));
    LoginAfterSignUp(store.admins, key, form.name, form.userName, form.password, form.confirmation);
    LoginAfterSignUp(store.admins, key, form.name, form.userName, form.password, attempt);
  }

  /**
   * Editing an admin without typing a password keeps the stored hash: the admin objects the
   * dialog edits come from `fetchAllAdmins`, whose password is left unset.
   */
  lemma EditWithoutPasswordKeepsHash(admins: seq<AdminRow>, id: int, form: Form, i: nat)
    requires Rejection(form, true).None? && form.password == ""
    requires i < |admins|
    ensures AdminsUpdated(admins, id, form.name, form.userName, PasswordAfter(form, None))[i].password == admins[i].password
  {
  }

  /** What pressing OK leads to: an error message, or the database call and its outcome. */
  datatype FormOutcome = Rejected(message: string) | Submitted(outcome: Outcome)

  class AdminDialog {
    const db: Database
    const admin: Admin
    const isEditMode: bool

    constructor (db: Database, admin: Admin, isEditMode: bool)
      ensures this.db == db && this.admin == admin && this.isEditMode == isEditMode
    {
      this.db := db;
      this.admin := admin;
      this.isEditMode := isEditMode;
    }

    /**
     * `onOK`: a rejected form changes nothing; an accepted one stores the raw name and username
     * in the shared admin, its password only when one was typed, and then updates the admin in
     * edit mode or adds it otherwise. Neither database call can fail on an accepted form.
     */
    method OnOK(form: Form) returns (r: FormOutcome)
      requires db.Valid()
      modifies admin, db
      ensures db.Valid()
      ensures Rejection(form, isEditMode).Some? ==>
                r == Rejected(Rejection(form, isEditMode).value) && unchanged(admin) && db.store == old(db.store)
      ensures Rejection(form, isEditMode).None? ==>
                r == Submitted(Done) && admin.id == old(admin.id) &&
                admin.name == Some(form.name) && admin.userName == Some(form.userName) &&
                admin.password == PasswordAfter(form, old(admin.password)) &&
                db.store == StoreAfterSubmit(old(db.store), isEditMode, old(admin.id), form.name, form.userName,
                                             PasswordAfter(form, old(admin.password)))
    {
      var rejection := Rejection(form, isEditMode);
      if rejection.Some? {
        return Rejected(rejection.value);
      }
      Accept(form);
      var o := Submit();
      r := Submitted(o);
    }

    /** The fields of an accepted form copied into the shared admin. */
    method Accept(form: Form)
      modifies admin
      ensures admin.id == old(admin.id) && admin.name == Some(form.name) && admin.userName == Some(form.userName)
      ensures admin.password == PasswordAfter(form, old(admin.password))
    {
      admin.name := Some(form.name);
      admin.userName := Some(form.userName);
      if form.password != "" {
        admin.password := Some(form.password);
      }
    }

    /** The background work of an accepted form: `updateAdmin` in edit mode, `signUp` otherwise. */
    method Submit() returns (o: Outcome)
      requires db.Valid()
      requires admin.name.Some? && admin.userName.Some? && (!isEditMode ==> admin.password.Some?)
      modifies db
      ensures db.Valid()
      ensures o == Done
      ensures db.store == StoreAfterSubmit(old(db.store), isEditMode, admin.id, admin.name.value, admin.userName.value, admin.password)
    {
      if isEditMode {
        o := db.UpdateAdmin(admin);
      } else {
        o := db.SignUp(admin);
      }
    }
  }
}
