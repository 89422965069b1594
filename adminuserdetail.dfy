/**
 * The admin page of one user (frontend/src/pages/AdminUserDetail.jsx),
 * reached at `/admin/user/<phone>`: loading the user and its history, the
 * edit form for the name and the phone, and deleting one history entry from
 * the list.
 */
module AdminUserDetailPage {
  import opened Wrappers
  import opened Text
  import opened Sequences
  import Tables
  import ApiClient

  /** The phone field's `onChange`: `value.replace(/\D/g, '').slice(0, 15)`. */
  function SanitizeEditPhone(input: string): (phone: string)
    ensures AllDigits(phone) && |phone| <= 15
    ensures phone <= Digits(input)
    ensures |Digits(input)| <= 15 ==> phone == Digits(input)
    ensures |Digits(input)| >= 15 ==> |phone| == 15
  {
    KeepDigits(input, 15)
  }

  const NameEmpty := "Name cannot be empty."
  const PhoneEmpty := "Phone cannot be empty."
  const LoadFailed := "Failed to load user."
  const UpdateFailed := "Failed to update."
  const DeleteFailed := "Failed to delete."

  /** What `adminApi.updateUser(phone, name, newPhone)` posts to admin-user-update. */
  datatype UpdateRequest = UpdateRequest(phone: string, fullName: string, newPhone: string)

  /**
   * The checks of `handleSaveUser`, in their order: a blank name, then a
   * blank phone; otherwise the route's phone with the trimmed name and the
   * trimmed new phone.
   */
  function SaveCheck(routePhone: string, editName: string, editPhone: string): (r: Result<UpdateRequest, string>)
    ensures JsTrim(editName) == "" ==> r == Err(NameEmpty)
    ensures JsTrim(editName) != "" && JsTrim(editPhone) == "" ==> r == Err(PhoneEmpty)
    ensures r.Ok? <==> JsTrim(editName) != "" && JsTrim(editPhone) != ""
    ensures r.Ok? ==> r.value.phone == routePhone && r.value.fullName == JsTrim(editName) &&
                      r.value.newPhone == JsTrim(editPhone)
  {
    if JsTrim(editName) == "" then Err(NameEmpty)
    else if JsTrim(editPhone) == "" then Err(PhoneEmpty)
    else Ok(UpdateRequest(routePhone, JsTrim(editName), JsTrim(editPhone)))
  }

  /** Where the page goes after a successful save. */
  datatype NextView = GoTo(phone: string) | Reload

  /** A changed phone moves to that phone's page; an unchanged one reloads this page. */
  function AfterSave(routePhone: string, editPhone: string): (v: NextView)
    ensures v.GoTo? <==> JsTrim(editPhone) != routePhone
    ensures v.GoTo? ==> v.phone == JsTrim(editPhone)
  {
    if JsTrim(editPhone) != routePhone then GoTo(JsTrim(editPhone)) else Reload
  }

  /**
   * After a phone change the user's page is under the new phone, and the old
   * phone's page is a 404. The page under the new phone shows the edited
   * user: its id and creation time, and the new name when one was given.
   */
  lemma MovedUserPages(db: Tables.Db, phone: string, name: string, newPhone: string)
    requires Tables.UniquePhones(db.users)
    requires PhpTrim(phone) == phone && PhpTrim(newPhone) == newPhone && newPhone != "" && newPhone != phone
    requires Tables.UpdateUser(db, phone, name, newPhone).Ok?
    ensures var after := Tables.UpdateUser(db, phone, name, newPhone).value;
      Tables.UserDetailOf(after.users, after.history, newPhone).Ok? &&
      Tables.UserDetailOf(after.users, after.history, phone) == Err(Tables.UserNotFound) &&
      forall k :: 0 <= k < |db.users| && db.users[k].phone == phone ==>
        var u := Tables.UserDetailOf(after.users, after.history, newPhone).value.user;
        u.id == db.users[k].id && u.createdAt == db.users[k].createdAt &&
        (PhpTrim(name) != "" ==> u.fullName == PhpTrim(name))
  {
    var after := Tables.UpdateUser(db, phone, name, newPhone).value;
    Tables.UpdateUserMovesHistory(db, phone, name, newPhone);
    Tables.UpdateUserKeepsRows(db, phone, name, newPhone);
    var u := Tables.UserDetailOf(after.users, after.history, newPhone).value.user;
    var j :| 0 <= j < |after.users| && after.users[j] == u;
    forall k | 0 <= k < |db.users| && db.users[k].phone == phone
      ensures u.id == db.users[k].id && u.createdAt == db.users[k].createdAt
    {
      assert after.users[k].phone == newPhone;
      assert j == k;
    }
  }

  /**
   * With the phone unchanged, the reloaded page shows the same user, renamed
   * when a name was given.
   */
  lemma SamePhonePage(db: Tables.Db, phone: string, name: string)
    requires Tables.UniquePhones(db.users)
    requires PhpTrim(phone) == phone
    requires Tables.UpdateUser(db, phone, name, phone).Ok?
    ensures var after := Tables.UpdateUser(db, phone, name, phone).value;
      Tables.UserDetailOf(after.users, after.history, phone).Ok? &&
      forall k :: 0 <= k < |db.users| && db.users[k].phone == phone ==>
        Tables.UserDetailOf(after.users, after.history, phone).value.user ==
          if PhpTrim(name) != "" then db.users[k].(fullName := PhpTrim(name)) else db.users[k]
  {
    var after := Tables.UpdateUser(db, phone, name, phone).value;
    Tables.RenameKeepsPhones(db.users, phone, PhpTrim(name));
    Tables.UpdateUserRenames(db, phone, name, phone);
    var u := Tables.UserDetailOf(after.users, after.history, phone).value.user;
    var j :| 0 <= j < |after.users| && after.users[j] == u;
    assert db.users[j].phone == phone;
    forall k | 0 <= k < |db.users| && db.users[k].phone == phone
      ensures u == if PhpTrim(name) != "" then db.users[k].(fullName := PhpTrim(name)) else db.users[k]
    {
      assert j == k;
    }
  }

  /** The phone the page shows after a successful save. */
  function Landing(routePhone: string, view: NextView): string {
    match view
    case GoTo(p) => p
    case Reload => routePhone
  }

  /**
   * A save the server accepts always lands on the edited user: after a phone
   * change, the new phone's page finds it and the old phone's page answers
   * 404; with the phone unchanged, the reloaded page finds it. Either way the
   * page shows the same user row (its id and creation time) under the name
   * the server stored.
   */
  lemma SaveLandsOnTheUser(db: Tables.Db, routePhone: string, editName: string, typed: string)
    requires AllDigits(routePhone)
    requires SaveCheck(routePhone, editName, SanitizeEditPhone(typed)).Ok?
    requires Tables.UniquePhones(db.users)
    requires var req := SaveCheck(routePhone, editName, SanitizeEditPhone(typed)).value;
      Tables.UpdateUser(db, req.phone, req.fullName, req.newPhone).Ok?
    ensures var req := SaveCheck(routePhone, editName, SanitizeEditPhone(typed)).value;
      var after := Tables.UpdateUser(db, req.phone, req.fullName, req.newPhone).value;
      var view := AfterSave(routePhone, SanitizeEditPhone(typed));
      var page := Tables.UserDetailOf(after.users, after.history, Landing(routePhone, view));
      page.Ok? &&
      (view.GoTo? ==> Tables.UserDetailOf(after.users, after.history, routePhone) == Err(Tables.UserNotFound)) &&
      forall k :: 0 <= k < |db.users| && db.users[k].phone == routePhone ==>
        page.value.user.id == db.users[k].id && page.value.user.createdAt == db.users[k].createdAt &&
        (PhpTrim(req.fullName) != "" ==> page.value.user.fullName == PhpTrim(req.fullName))
  {
    var phone := SanitizeEditPhone(typed);
    DigitsAreNotTrimmed(routePhone);
    DigitsAreNotTrimmed(phone);
    var req := SaveCheck(routePhone, editName, phone).value;
    assert req.phone == routePhone && req.newPhone == phone;
    if phone != routePhone {
      MovedUserPages(db, routePhone, req.fullName, phone);
    } else {
      SamePhonePage(db, routePhone, req.fullName);
    }
  }

  /** `prev.filter((h) => h.id !== id)`. */
  function IdIsNot(id: nat): Tables.HistoryRow -> bool {
    (h: Tables.HistoryRow) => h.id != id
  }

  function IdIs(id: nat): Tables.HistoryRow -> bool {
    (h: Tables.HistoryRow) => h.id == id
  }

  function AnyRow(h: Tables.HistoryRow): bool {
    true
  }

  /** The history list without entry `id`: exactly those rows go, and a newest-first list stays newest first. */
  function WithoutEntry(history: seq<Tables.HistoryRow>, id: nat): (r: seq<Tables.HistoryRow>)
    ensures forall x :: x in r <==> x in history && x.id != id
    ensures SortedDesc(history, Tables.RowTime) ==> SortedDesc(r, Tables.RowTime)
  {
    FilterMembers(history, IdIsNot(id));
    var r := Filter(history, IdIsNot(id));
    assert SortedDesc(history, Tables.RowTime) ==> SortedDesc(r, Tables.RowTime) by {
      if SortedDesc(history, Tables.RowTime) {
        FilterKeepsSorted(history, IdIsNot(id), Tables.RowTime);
      }
    }
    r
  }

  /** The rows that stay keep their order, and exactly as many go as carry that id. */
  lemma WithoutEntryKeepsOrder(history: seq<Tables.HistoryRow>, id: nat)
    ensures Subsequence(WithoutEntry(history, id), history)
    ensures |WithoutEntry(history, id)| == |history| - |Filter(history, IdIs(id))|
  {
    FilterIsSubsequence(history, IdIsNot(id));
    FilterSplitCount(history, AnyRow, IdIs(id), IdIsNot(id));
    FilterKeepsAll(history, AnyRow);
  }

  /** The page's state for the user at `/admin/user/<routePhone>`. */
  class UserDetailPage {
    const routePhone: string
    var user: Option<Tables.User>
    var history: seq<Tables.HistoryRow>
    var editing: bool
    var editName: string
    var editPhone: string
    var error: string
    var saving: bool

    constructor (phone: string)
      ensures routePhone == phone && user == None && history == []
      ensures !editing && editName == "" && editPhone == "" && error == "" && !saving
    {
      routePhone := phone;
      user, history := None, [];
      editing, editName, editPhone, error, saving := false, "", "", "", false;
    }

    /**
     * `loadDetail`. `reply` is admin-user-detail's answer or the message of
     * the error thrown. The edit fields start from the loaded user; an error
     * mentioning "Unauthorized" drops the stored token and `toLogin` says the
     * page went back to the login form.
     */
    method Load(storage: ApiClient.BrowserStorage, reply: Result<Tables.UserDetail, string>)
      returns (toLogin: bool)
      modifies this, storage
      ensures editing == old(editing) && saving == old(saving)
      ensures reply.Ok? ==>
        user == Some(reply.value.user) && history == reply.value.history &&
        editName == reply.value.user.fullName && editPhone == reply.value.user.phone &&
        error == "" && !toLogin && storage.items == old(storage.items)
      ensures reply.Err? ==>
        user == old(user) && history == old(history) &&
        editName == old(editName) && editPhone == old(editPhone)
      ensures reply.Err? && Contains(reply.error, "Unauthorized") ==>
        toLogin && error == "" && !storage.IsAdminLoggedIn() && storage.UserPhone() == old(storage.UserPhone()) &&
        storage.items == old(storage.items) - {ApiClient.AdminTokenKey}
      ensures reply.Err? && !Contains(reply.error, "Unauthorized") ==>
        !toLogin && storage.items == old(storage.items) &&
        error == (if reply.error != "" then reply.error else LoadFailed)
    {
      error := "";
      toLogin := false;
      match reply
      case Ok(d) =>
        user := Some(d.user);
        history := d.history;
        editName := d.user.fullName;
        editPhone := d.user.phone;
      case Err(m) =>
        if Contains(m, "Unauthorized") {
          storage.ClearAdminToken();
          toLogin := true;
        } else {
          error := if m != "" then m else LoadFailed;
        }
    }

    /** The "Edit" button. */
    method StartEditing()
      modifies this
      ensures editing
      ensures user == old(user) && history == old(history) && error == old(error) && saving == old(saving)
      ensures editName == old(editName) && editPhone == old(editPhone)
    {
      editing := true;
    }

    /** The name field's `onChange`. */
    method NameChanged(value: string)
      modifies this
      ensures editName == value
      ensures user == old(user) && history == old(history) && editing == old(editing)
      ensures editPhone == old(editPhone) && error == old(error) && saving == old(saving)
    {
      editName := value;
    }

    /** The phone field's `onChange`. */
    method PhoneChanged(value: string)
      modifies this
      ensures editPhone == SanitizeEditPhone(value)
      ensures user == old(user) && history == old(history) && editing == old(editing)
      ensures editName == old(editName) && error == old(error) && saving == old(saving)
    {
      editPhone := SanitizeEditPhone(value);
    }

    /**
     * `handleSaveUser`. `reply` is how the admin-user-update request ends.
     * Returns the request sent, if any, and where the page goes next.
     */
    method SaveUser(reply: Result<(), string>) returns (sent: Option<UpdateRequest>, next: Option<NextView>)
      modifies this
      ensures user == old(user) && history == old(history)
      ensures editName == old(editName) && editPhone == old(editPhone)
      ensures var check := SaveCheck(routePhone, old(editName), old(editPhone));
        // a failed check shows its message and sends nothing
        (check.Err? ==> sent == None && next == None && error == check.error &&
                        editing == old(editing) && saving == old(saving)) &&
        (check.Ok? ==> sent == Some(check.value) && !saving) &&
        // an accepted update closes the form and moves on
        (check.Ok? && reply.Ok? ==> !editing && error == "" &&
                                    next == Some(AfterSave(routePhone, old(editPhone)))) &&
        // a refused one keeps the form open with the server's message
        (check.Ok? && reply.Err? ==> next == None && editing == old(editing) &&
                                     error == (if reply.error != "" then reply.error else UpdateFailed))
    {
      var check := SaveCheck(routePhone, editName, editPhone);
      var view := AfterSave(routePhone, editPhone);
      if check.Err? {
        error := check.error;
        return None, None;
      }
      saving := true;
      error := "";
      sent := Some(check.value);
      if reply.Ok? {
        editing := false;
        next := Some(view);
      } else {
        error := if reply.error != "" then reply.error else UpdateFailed;
        next := None;
      }
      saving := false;
    }

    /**
     * `handleDeleteHistory(id)`: nothing happens unless the admin confirms; a
     * successful admin-history-delete request takes the entry off the list.
     */
    method DeleteHistory(id: nat, confirmed: bool, reply: Result<(), string>)
      modifies this
      ensures user == old(user) && editing == old(editing) && saving == old(saving)
      ensures editName == old(editName) && editPhone == old(editPhone)
      ensures !confirmed ==> history == old(history) && error == old(error)
      ensures confirmed && reply.Ok? ==> history == WithoutEntry(old(history), id) && error == old(error)
      ensures confirmed && reply.Err? ==>
        history == old(history) && error == (if reply.error != "" then reply.error else DeleteFailed)
    {
      if confirmed && reply.Ok? {
        history := WithoutEntry(history, id);
      } else if confirmed {
        error := if reply.error != "" then reply.error else DeleteFailed;
      }
    }

    /** The "Cancel" button, shown only once the user is loaded: the form closes and its fields go back. */
    method Cancel()
      requires user.Some?
      modifies this
      ensures user == old(user) && history == old(history) && error == old(error) && saving == old(saving)
      ensures !editing && editName == user.value.fullName && editPhone == user.value.phone
    {
      editing := false;
      editName := user.value.fullName;
      editPhone := user.value.phone;
    }
  }
}
