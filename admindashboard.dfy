/**
 * The admin dashboard (frontend/src/pages/AdminDashboard.jsx): the list of
 * users admin-users returns, the search box that narrows what is shown, the
 * "Total Calculations" figure, and deleting a user from the list.
 */
module AdminDashboardPage {
  import opened Wrappers
  import opened Json
  import opened Text
  import opened Sequences
  import Tables
  import ApiClient

  /** A user as the page holds it: the JSON admin-users sends for one row. */
  datatype UserRow = UserRow(fullName: string, phoneNumber: string, calculationCount: Option<Json>)

  // -------------------------------------------------------------- search

  /** The test of the `filtered` list for the search text `search`. */
  function MatchesSearch(search: string): UserRow -> bool {
    (u: UserRow) => Contains(ToLower(u.fullName), ToLower(search)) || Contains(u.phoneNumber, ToLower(search))
  }

  lemma EmptyIsContained(s: string)
    ensures Contains(s, "")
  {
  }

  /**
   * `filtered`: the users whose lower-cased name, or whose phone, contains the
   * lower-cased search text, in the order of the list. An empty search shows
   * everyone.
   */
  function Filtered(users: seq<UserRow>, search: string): (shown: seq<UserRow>)
    ensures Subsequence(shown, users)
    ensures forall u :: u in shown <==>
      (u in users && (Contains(ToLower(u.fullName), ToLower(search)) || Contains(u.phoneNumber, ToLower(search))))
    ensures search == "" ==> shown == users
  {
    var keep := MatchesSearch(search);
    FilterIsSubsequence(users, keep);
    FilterMembers(users, keep);
    if search == "" then
      assert forall i :: 0 <= i < |users| ==> keep(users[i]) by {
        forall i | 0 <= i < |users| ensures keep(users[i]) {
          EmptyIsContained(users[i].phoneNumber);
        }
      }
      FilterKeepsAll(users, keep);
      Filter(users, keep)
    else
      Filter(users, keep)
  }

  /** A user's phone, typed in full, always finds that user. */
  lemma SearchByPhoneFindsUser(users: seq<UserRow>, u: UserRow)
    requires u in users
    requires ToLower(u.phoneNumber) == u.phoneNumber
    ensures u in Filtered(users, u.phoneNumber)
  {
    assert u.phoneNumber <= u.phoneNumber;
  }

  // ---------------------------------------------------------------- total

  /**
   * `Number(u.calculation_count || 0)`; `None` is NaN. A falsy count is 0, a
   * number is itself, `true` is 1, a string is read by `Number`, and an
   * array or object is taken as NaN.
   */
  function CountNumber(c: Option<Json>): (n: Option<real>)
    ensures !JsTruthy(c) ==> n == Some(0.0)
    ensures c.Some? && c.value.JNum? ==> n == Some(c.value.n)
    ensures forall k: nat :: c == Some(JStr(NatToString(k))) ==> n == Some(k as real)
  {
    if !JsTruthy(c) then Some(0.0)
    else
      match c.value
      case JNum(x) => Some(x)
      case JBool(_) => Some(1.0)
      case JStr(s) =>
        assert forall k: nat :: s == NatToString(k) ==> JsNumber(s) == Some(k) by {
          forall k: nat | s == NatToString(k) ensures JsNumber(s) == Some(k) {
            NumberOfNatToString(k);
          }
        }
        (match JsNumber(s) case None => None case Some(v) => Some(v as real))
      case _ => None
  }

  /**
   * `users.reduce((s, u) => s + Number(u.calculation_count || 0), 0)`, a
   * left fold. NaN is `None`, and once a term is NaN the total is NaN.
   */
  function TotalCalculations(users: seq<UserRow>): (total: Option<real>)
    ensures total.None? <==> exists i :: 0 <= i < |users| && CountNumber(users[i].calculationCount).None?
    decreases |users|
  {
    if users == [] then Some(0.0)
    else
      var front, last := users[..|users| - 1], users[|users| - 1];
      var sofar := TotalCalculations(front);
      var n := CountNumber(last.calculationCount);
      assert forall i :: 0 <= i < |front| ==> front[i] == users[i];
      if sofar.Some? && n.Some? then Some(sofar.value + n.value) else None
  }

  /** The row admin-users sends for a summary; `asText` when the driver returns `COUNT` as a string. */
  function RowOf(asText: bool): Tables.UserSummary -> UserRow {
    (s: Tables.UserSummary) => UserRow(s.user.fullName, s.user.phone,
      Some(if asText then JStr(NatToString(s.calculationCount)) else JNum(s.calculationCount as real)))
  }

  lemma {:induction false} TotalOfRows(ss: seq<Tables.UserSummary>, asText: bool)
    ensures TotalCalculations(Map(ss, RowOf(asText))) == Some(SumOf(ss, Tables.CountOf) as real)
    decreases |ss|
  {
    if ss != [] {
      var n := |ss| - 1;
      var rows := Map(ss, RowOf(asText));
      assert rows[..n] == Map(ss[..n], RowOf(asText));
      assert rows[n] == RowOf(asText)(ss[n]);
      TotalOfRows(ss[..n], asText);
      RowCountReads(ss[n], asText);
      CountsSumLast(ss);
    }
  }

  /** The sum of the counts is the sum of all but the last one, plus the last one. */
  lemma CountsSumLast(ss: seq<Tables.UserSummary>)
    requires ss != []
    ensures SumOf(ss, Tables.CountOf) == SumOf(ss[..|ss| - 1], Tables.CountOf) + ss[|ss| - 1].calculationCount
  {
    var n := |ss| - 1;
    assert ss == ss[..n] + [ss[n]];
    SumAppend(ss[..n], [ss[n]], Tables.CountOf);
    assert SumOf([ss[n]], Tables.CountOf) == ss[n].calculationCount;
  }

  /** A count admin-users sends, as a number or as its decimal text, reads back as itself. */
  lemma RowCountReads(s: Tables.UserSummary, asText: bool)
    ensures CountNumber(RowOf(asText)(s).calculationCount) == Some(s.calculationCount as real)
  {
    var c := RowOf(asText)(s).calculationCount;
    if asText {
      assert c == Some(JStr(NatToString(s.calculationCount)));
    } else {
      assert c == Some(JNum(s.calculationCount as real));
    }
  }

  /**
   * Whichever way the driver returns the counts, the figure the dashboard
   * shows is the number of history entries filed under some user's phone,
   * and so never more than the history table holds.
   */
  lemma TotalMatchesServer(users: seq<Tables.User>, h: seq<Tables.Entry>, asText: bool)
    requires Tables.UniquePhones(users)
    ensures TotalCalculations(Map(Tables.UserList(users, h), RowOf(asText)))
         == Some(|Filter(h, Tables.PhoneIn(Tables.PhonesOf(users)))| as real)
    ensures TotalCalculations(Map(Tables.UserList(users, h), RowOf(asText))).value <= |h| as real
  {
    TotalOfRows(Tables.UserList(users, h), asText);
    Tables.UserListCountsAddUp(users, h);
  }

  // --------------------------------------------------------------- delete

  /** `prev.filter((u) => u.phone_number !== phone)`. */
  function PhoneIsNot(phone: string): UserRow -> bool {
    (u: UserRow) => u.phoneNumber != phone
  }

  /** The list without the deleted user: every other row stays, in order. */
  function WithoutUser(users: seq<UserRow>, phone: string): (r: seq<UserRow>)
    ensures Subsequence(r, users)
    ensures forall u :: u in r <==> u in users && u.phoneNumber != phone
  {
    FilterIsSubsequence(users, PhoneIsNot(phone));
    FilterMembers(users, PhoneIsNot(phone));
    Filter(users, PhoneIsNot(phone))
  }

  const LoadFailed := "Failed to load users."
  const DeleteFailed := "Failed to delete."

  /** The page's state: the list, the search text and the error line. */
  class Dashboard {
    var users: seq<UserRow>
    var search: string
    var error: string

    constructor ()
      ensures users == [] && search == "" && error == ""
    {
      users, search, error := [], "", "";
    }

    /** The rows on screen. */
    function Shown(): seq<UserRow>
      reads this
    {
      Filtered(users, search)
    }

    /** The search box's `onChange`. */
    method SearchChanged(value: string)
      modifies this
      ensures search == value && users == old(users) && error == old(error)
    {
      search := value;
    }

    /**
     * `loadUsers`. `reply` is the `users` field of the answer (`None` when it
     * is absent) or the message of the error thrown. An error mentioning
     * "Unauthorized" drops the stored token; `toLogin` says the page went
     * back to the login form.
     */
    method LoadUsers(storage: ApiClient.BrowserStorage, reply: Result<Option<seq<UserRow>>, string>)
      returns (toLogin: bool)
      modifies this, storage
      ensures search == old(search)
      ensures reply.Ok? ==> users == reply.value.GetOr([]) && error == "" && !toLogin &&
                            storage.items == old(storage.items)
      ensures reply.Err? && Contains(reply.error, "Unauthorized") ==>
                toLogin && !storage.IsAdminLoggedIn() && users == old(users) && error == "" &&
                storage.UserPhone() == old(storage.UserPhone()) &&
                storage.items == old(storage.items) - {ApiClient.AdminTokenKey}
      ensures reply.Err? && !Contains(reply.error, "Unauthorized") ==>
                !toLogin && users == old(users) && storage.items == old(storage.items) &&
                error == (if reply.error != "" then reply.error else LoadFailed)
    {
      error := "";
      toLogin := false;
      match reply
      case Ok(list) =>
        users := list.GetOr([]);
      case Err(m) =>
        if Contains(m, "Unauthorized") {
          storage.ClearAdminToken();
          toLogin := true;
        } else {
          error := if m != "" then m else LoadFailed;
        }
    }

    /**
     * `handleDeleteUser(phone)`: nothing happens unless the admin confirms; a
     * successful delete-user request takes that phone's row off the list and
     * leaves the others as they were; a failed one shows its message.
     */
    method DeleteUser(phone: string, confirmed: bool, reply: Result<(), string>)
      modifies this
      ensures search == old(search)
      ensures !confirmed ==> users == old(users) && error == old(error)
      ensures confirmed && reply.Ok? ==> users == WithoutUser(old(users), phone) && error == old(error)
      ensures confirmed && reply.Err? ==>
                users == old(users) && error == (if reply.error != "" then reply.error else DeleteFailed)
    {
      if !confirmed {
        return;
      }
      if reply.Ok? {
        users := WithoutUser(users, phone);
      } else {
        error := if reply.error != "" then reply.error else DeleteFailed;
      }
    }
  }
}
