/**
 * The API's MySQL database as one object whose two tables the endpoints
 * change, and one method per endpoint that reads or writes them. Each
 * method runs the endpoint's checks and statements in the source's order
 * and is proved against the table function of the same name in `Tables`.
 *
 * Where the source runs several statements in one transaction
 * (admin-user-update, admin-user-delete), the method takes `fault`: the
 * position of the statement that throws, counting the connection as 0, or
 * `None` when none does. The method then restores what it had changed, as
 * the `catch` block's `rollBack()` does.
 */
module Endpoints {
  import opened Wrappers
  import opened Json
  import opened Http
  import opened Text
  import opened Sequences
  import opened Tables
  import opened AdminAuth

  class Database {
    var users: seq<User>
    var history: seq<Entry>
    /** The next AUTO_INCREMENT value of each table. */
    var nextUserId: nat
    var nextEntryId: nat

    predicate Valid()
      reads this
    {
      UniquePhones(users) && UniqueEntryIds(history) &&
      (forall i :: 0 <= i < |users| ==> users[i].id < nextUserId) &&
      (forall i :: 0 <= i < |history| ==> history[i].id < nextEntryId)
    }

    /** An empty database; AUTO_INCREMENT starts at 1. */
    constructor ()
      ensures Valid()
      ensures users == [] && history == [] && nextUserId == 1 && nextEntryId == 1
    {
      users := [];
      history := [];
      nextUserId := 1;
      nextEntryId := 1;
    }

    // ------------------------------------------------------ public endpoints

    /** POST verify-user. Returns the trimmed phone. */
    method VerifyUser(rawName: string, rawPhone: string, now: int) returns (r: Result<string, ApiError>)
      requires Valid()
      modifies this
      ensures Valid()
      ensures history == old(history) && nextEntryId == old(nextEntryId)
      ensures var s := Tables.VerifyUser(old(users), rawName, rawPhone, now, old(nextUserId));
        (r.Ok? <==> s.Ok?) &&
        (s.Err? ==> r == Err(s.error) && users == old(users) && nextUserId == old(nextUserId)) &&
        (s.Ok? ==> users == s.value && r.value == PhpTrim(rawPhone))
      ensures nextUserId == if r.Ok? && !HasUser(old(users), PhpTrim(rawPhone)) then old(nextUserId) + 1 else old(nextUserId)
    {
      var name := PhpTrim(rawName);
      var phone := PhpTrim(rawPhone);
      if name == "" {
        return Err(NameRequired);
      }
      TrimmedPhoneCheck(rawPhone);
      if !PregElevenDigits(phone) {
        return Err(InvalidPhone);
      }
      VerifyUserRecordsTheUser(users, rawName, rawPhone, now, nextUserId);
      if HasUser(users, phone) {
        users := Upsert(users, name, phone, now, nextUserId);
      } else {
        users := users + [User(nextUserId, name, phone, now, now)];
        nextUserId := nextUserId + 1;
      }
      r := Ok(phone);
    }

    /** POST history-save. Returns the new entry's id (`lastInsertId`). */
    method HistorySave(rawPhone: string, rawFeature: string, input: Option<Json>, output: Option<Json>, now: int)
      returns (r: Result<nat, ApiError>)
      requires Valid()
      modifies this
      ensures Valid()
      ensures users == old(users) && nextUserId == old(nextUserId)
      ensures var s := Tables.HistorySave(old(history), rawPhone, rawFeature, input, output, now, old(nextEntryId));
        (r.Ok? <==> s.Ok?) &&
        (s.Err? ==> r == Err(s.error) && history == old(history) && nextEntryId == old(nextEntryId)) &&
        (s.Ok? ==> history == s.value && r.value == old(nextEntryId) && nextEntryId == old(nextEntryId) + 1)
      // the id returned is the id of the row just appended
      ensures r.Ok? ==> |history| == |old(history)| + 1 && history[|old(history)|].id == r.value
    {
      var phone := PhpTrim(rawPhone);
      var feature := ParseFeature(PhpTrim(rawFeature));
      if phone == "" || feature.None? {
        return Err(InvalidSave);
      }
      var id := nextEntryId;
      history := history + [NewEntry(phone, feature.value, input, output, now, id)];
      nextEntryId := nextEntryId + 1;
      r := Ok(id);
    }

    /** GET history-list: the `foreach` that decodes each queried row. */
    method HistoryList(rawPhone: string) returns (r: Result<seq<HistoryRow>, ApiError>)
      ensures r == HistoryListing(history, rawPhone)
    {
      var phone := PhpTrim(rawPhone);
      TrimmedPhoneCheck(rawPhone);
      if phone == "" || !PregElevenDigits(phone) {
        return Err(InvalidUserPhone);
      }
      var rows := HistoryQuery(history, phone);
      var list: seq<HistoryRow> := [];
      var i := 0;
      while i < |rows|
        invariant 0 <= i <= |rows|
        invariant |list| == i
        invariant forall k :: 0 <= k < i ==> list[k] == ListRow(rows[k])
      {
        list := list + [ListRow(rows[i])];
        i := i + 1;
      }
      assert list == Map(rows, ListRow);
      r := Ok(list);
    }

    /** POST history-delete. */
    method HistoryDelete(rawPhone: string, id: Option<int>) returns (r: Result<(), ApiError>)
      requires Valid()
      modifies this
      ensures Valid()
      ensures users == old(users) && nextUserId == old(nextUserId) && nextEntryId == old(nextEntryId)
      ensures var s := Tables.HistoryDelete(old(history), rawPhone, id);
        (r.Ok? <==> s.Ok?) &&
        (s.Err? ==> r == Err(s.error) && history == old(history)) &&
        (s.Ok? ==> history == s.value)
    {
      var phone := PhpTrim(rawPhone);
      TrimmedPhoneCheck(rawPhone);
      if phone == "" || !PregElevenDigits(phone) {
        return Err(InvalidUserPhone);
      }
      var keep := if id.Some? && id.value > 0 then NotEntryOf(phone, id.value) else PhoneIsNot(phone);
      FilterKeepsEntryIds(history, keep, nextEntryId);
      history := Filter(history, keep);
      r := Ok(());
    }

    // ------------------------------------------------------- admin endpoints

    /** POST admin-user-update, with the connection and each statement able to throw. */
    method AdminUserUpdate(cfg: Config, auth: AuthRequest, rawPhone: string, rawName: string, rawNewPhone: string,
                           fault: Option<nat>)
      returns (r: Result<(), ApiError>)
      requires Valid()
      modifies this
      ensures Valid()
      ensures nextUserId == old(nextUserId) && nextEntryId == old(nextEntryId)
      ensures !Authorized(cfg, auth) ==> r == Err(UnauthorizedError)
      ensures r.Err? ==> users == old(users) && history == old(history)
      ensures r.Ok? ==> UpdateUser(old(Db(users, history)), rawPhone, rawName, rawNewPhone) == Ok(Db(users, history))
      ensures Authorized(cfg, auth) && fault.None? ==>
        var s := UpdateUser(old(Db(users, history)), rawPhone, rawName, rawNewPhone);
        (r.Ok? <==> s.Ok?) && (s.Err? ==> r == Err(s.error))
      ensures r.Err? && r.error.ServerError? ==> fault.Some?
    {
      if !Authorized(cfg, auth) {
        return Err(UnauthorizedError);
      }
      var phone := PhpTrim(rawPhone);
      var name := PhpTrim(rawName);
      var newPhone := PhpTrim(rawNewPhone);
      if phone == "" {
        return Err(CurrentPhoneRequired);
      }
      var step := 0;
      if fault == Some(step) {           // biztools_db()
        return Err(ConnectionFailed);
      }
      step := step + 1;
      if fault == Some(step) {           // SELECT id FROM users WHERE phone_number = ?
        return Err(ServerFailure);
      }
      step := step + 1;
      if !HasUser(users, phone) {
        return Err(UserNotFound);
      }
      r := UpdateTransaction(phone, name, newPhone, fault, step);
    }

    /** From `beginTransaction()` to `commit()` of admin-user-update; statement `step` is the first here. */
    method UpdateTransaction(phone: string, name: string, newPhone: string, fault: Option<nat>, step0: nat)
      returns (r: Result<(), ApiError>)
      requires Valid() && HasUser(users, phone)
      modifies this
      ensures Valid()
      ensures nextUserId == old(nextUserId) && nextEntryId == old(nextEntryId)
      ensures r.Err? ==> users == old(users) && history == old(history)
      ensures r.Ok? ==> UpdateFound(old(Db(users, history)), phone, name, newPhone) == Ok(Db(users, history))
      ensures fault.None? ==>
        var s := UpdateFound(old(Db(users, history)), phone, name, newPhone);
        (r.Ok? <==> s.Ok?) && (s.Err? ==> r == Err(s.error))
      ensures r.Err? && r.error.ServerError? ==> fault.Some?
    {
      var step := step0;
      if fault == Some(step) {           // beginTransaction()
        return Err(ServerFailure);
      }
      step := step + 1;
      var savedUsers, savedHistory := users, history;
      var db := Db(users, history);
      RenameKeepsPhones(users, phone, name);
      if name != "" {
        if fault == Some(step) {         // UPDATE users SET full_name = ?
          users, history := savedUsers, savedHistory;
          return Err(ServerFailure);
        }
        step := step + 1;
        users := RenameUsers(users, phone, name);
      }
      if newPhone != "" && newPhone != phone {
        if fault == Some(step) {         // SELECT id FROM users WHERE phone_number = ? AND phone_number != ?
          users, history := savedUsers, savedHistory;
          return Err(ServerFailure);
        }
        step := step + 1;
        if HasUser(users, newPhone) {
          users, history := savedUsers, savedHistory;
          return Err(PhoneInUse);
        }
        if fault == Some(step) {         // UPDATE users SET phone_number = ?
          users, history := savedUsers, savedHistory;
          return Err(ServerFailure);
        }
        step := step + 1;
        users := RephoneUsers(users, phone, newPhone);
        if fault == Some(step) {         // UPDATE calculation_history SET user_phone = ?
          users, history := savedUsers, savedHistory;
          return Err(ServerFailure);
        }
        step := step + 1;
        history := RephoneEntries(history, phone, newPhone);
      }
      if fault == Some(step) {           // commit()
        users, history := savedUsers, savedHistory;
        return Err(ServerFailure);
      }
      UpdateFoundKeepsRows(db, phone, name, newPhone);
      r := Ok(());
    }

    /** POST admin-user-delete: the user's history, then the user, in one transaction. */
    method AdminUserDelete(cfg: Config, auth: AuthRequest, rawPhone: string, fault: Option<nat>)
      returns (r: Result<(), ApiError>)
      requires Valid()
      modifies this
      ensures Valid()
      ensures nextUserId == old(nextUserId) && nextEntryId == old(nextEntryId)
      ensures !Authorized(cfg, auth) ==> r == Err(UnauthorizedError)
      ensures r.Err? ==> users == old(users) && history == old(history)
      ensures r.Ok? ==> DeleteUser(old(Db(users, history)), rawPhone) == Ok(Db(users, history))
      ensures Authorized(cfg, auth) && fault.None? ==>
        var s := DeleteUser(old(Db(users, history)), rawPhone);
        (r.Ok? <==> s.Ok?) && (s.Err? ==> r == Err(s.error))
      ensures r.Err? && r.error.ServerError? ==> fault.Some?
    {
      if !Authorized(cfg, auth) {
        return Err(UnauthorizedError);
      }
      var phone := PhpTrim(rawPhone);
      if phone == "" {
        return Err(PhoneRequired);
      }
      var step := 0;
      if fault == Some(step) {           // biztools_db()
        return Err(ConnectionFailed);
      }
      step := step + 1;
      if fault == Some(step) {           // beginTransaction()
        return Err(ServerFailure);
      }
      step := step + 1;
      var savedUsers, savedHistory := users, history;
      if fault == Some(step) {           // DELETE FROM calculation_history WHERE user_phone = ?
        users, history := savedUsers, savedHistory;
        return Err(ServerFailure);
      }
      step := step + 1;
      FilterKeepsEntryIds(history, PhoneIsNot(phone), nextEntryId);
      history := EntriesNotOf(history, phone);
      if fault == Some(step) {           // DELETE FROM users WHERE phone_number = ?
        users, history := savedUsers, savedHistory;
        return Err(ServerFailure);
      }
      step := step + 1;
      FilterKeepsUniquePhones(users, UserPhoneIsNot(phone));
      FilterMembers(users, UserPhoneIsNot(phone));
      users := UsersWithout(users, phone);
      if fault == Some(step) {           // commit()
        users, history := savedUsers, savedHistory;
        return Err(ServerFailure);
      }
      r := Ok(());
    }

    /** POST admin-history-update. */
    method AdminHistoryUpdate(cfg: Config, auth: AuthRequest, id: int, input: Option<Json>, output: Option<Json>)
      returns (r: Result<(), ApiError>)
      requires Valid()
      modifies this
      ensures Valid()
      ensures users == old(users) && nextUserId == old(nextUserId) && nextEntryId == old(nextEntryId)
      ensures !Authorized(cfg, auth) ==> r == Err(UnauthorizedError) && history == old(history)
      ensures Authorized(cfg, auth) ==>
        var s := HistoryUpdate(old(history), id, input, output);
        (r.Ok? <==> s.Ok?) &&
        (s.Err? ==> r == Err(s.error) && history == old(history)) &&
        (s.Ok? ==> history == s.value)
    {
      if !Authorized(cfg, auth) {
        return Err(UnauthorizedError);
      }
      var s := HistoryUpdate(history, id, input, output);
      if s.Err? {
        return Err(s.error);
      }
      HistoryUpdateScope(history, id, input, output);
      history := s.value;
      r := Ok(());
    }

    /** POST admin-history-delete. */
    method AdminHistoryDelete(cfg: Config, auth: AuthRequest, id: int) returns (r: Result<(), ApiError>)
      requires Valid()
      modifies this
      ensures Valid()
      ensures users == old(users) && nextUserId == old(nextUserId) && nextEntryId == old(nextEntryId)
      ensures !Authorized(cfg, auth) ==> r == Err(UnauthorizedError) && history == old(history)
      ensures Authorized(cfg, auth) ==>
        var s := HistoryDeleteById(old(history), id);
        (r.Ok? <==> s.Ok?) &&
        (s.Err? ==> r == Err(s.error) && history == old(history)) &&
        (s.Ok? ==> history == s.value)
    {
      if !Authorized(cfg, auth) {
        return Err(UnauthorizedError);
      }
      if id <= 0 {
        return Err(HistoryIdRequired);
      }
      FilterKeepsEntryIds(history, IdIsNot(id), nextEntryId);
      history := Filter(history, IdIsNot(id));
      r := Ok(());
    }

    /** GET admin-users. */
    method AdminUsers(cfg: Config, auth: AuthRequest) returns (r: Result<seq<UserSummary>, ApiError>)
      ensures !Authorized(cfg, auth) ==> r == Err(UnauthorizedError)
      ensures Authorized(cfg, auth) ==> r == Ok(UserList(users, history))
    {
      if !Authorized(cfg, auth) {
        return Err(UnauthorizedError);
      }
      r := Ok(UserList(users, history));
    }

    /** GET admin-user-detail: the user, then the `foreach` that decodes each history row. */
    method AdminUserDetail(cfg: Config, auth: AuthRequest, phone: string) returns (r: Result<UserDetail, ApiError>)
      ensures !Authorized(cfg, auth) ==> r == Err(UnauthorizedError)
      ensures Authorized(cfg, auth) ==> r == UserDetailOf(users, history, phone)
    {
      if !Authorized(cfg, auth) {
        return Err(UnauthorizedError);
      }
      if phone == "" {
        return Err(PhoneParameterRequired);
      }
      var user := FindUser(users, phone);
      if user.None? {
        return Err(UserNotFound);
      }
      var rows := HistoryQuery(history, phone);
      var decoded: seq<HistoryRow> := [];
      var i := 0;
      while i < |rows|
        invariant 0 <= i <= |rows|
        invariant |decoded| == i
        invariant forall k :: 0 <= k < i ==> decoded[k] == DetailRow(rows[k])
      {
        decoded := decoded + [DetailRow(rows[i])];
        i := i + 1;
      }
      assert decoded == Map(rows, DetailRow);
      r := Ok(UserDetail(user.value, decoded));
    }
  }
}
