/**
 * The two tables behind the API (`users` and `calculation_history`) and what
 * each endpoint's SQL does to them, as functions of the table contents. The
 * `Database` class of module `Endpoints` performs these changes statement by statement;
 * this module states and proves what they amount to.
 */
module Tables {
  import opened Wrappers
  import opened Json
  import opened Http
  import opened Text
  import opened Sequences

  // ------------------------------------------------------------------ rows

  /** The calculators whose results history-save accepts. */
  datatype FeatureType = BudgetToBid | BidToTotal | Profit

  function FeatureName(f: FeatureType): string {
    match f
    case BudgetToBid => "budget_to_bid"
    case BidToTotal => "bid_to_total"
    case Profit => "profit"
  }

  /** `in_array($s, ['budget_to_bid', 'bid_to_total', 'profit'], true)`, telling which one. */
  function ParseFeature(s: string): (r: Option<FeatureType>)
    ensures r.Some? ==> FeatureName(r.value) == s
    ensures forall f: FeatureType :: FeatureName(f) == s ==> r == Some(f)
  {
    if s == "budget_to_bid" then Some(BudgetToBid)
    else if s == "bid_to_total" then Some(BidToTotal)
    else if s == "profit" then Some(Profit)
    else None
  }

  /** A row of `users`. Times are the server clock's readings. */
  datatype User = User(id: nat, fullName: string, phone: string, createdAt: int, lastVerifiedAt: int)

  /** A row of `calculation_history`; the two blobs are JSON text columns. */
  datatype Entry = Entry(
    id: nat, userPhone: string, feature: FeatureType,
    inputData: Blob, outputData: Blob, createdAt: int)

  datatype Db = Db(users: seq<User>, history: seq<Entry>)

  /** One entry of a history response, with its blobs decoded. */
  datatype HistoryRow = HistoryRow(id: nat, featureType: string, inputData: Json, outputData: Json, createdAt: int)

  /** One row of admin-users: the user's columns and `COUNT(ch.id)`. */
  datatype UserSummary = UserSummary(user: User, calculationCount: nat)

  datatype UserDetail = UserDetail(user: User, history: seq<HistoryRow>)

  /** Phone numbers identify users: every endpoint looks users up by phone. */
  predicate UniquePhones(users: seq<User>) {
    forall i, j :: 0 <= i < j < |users| ==> users[i].phone != users[j].phone
  }

  predicate UniqueEntryIds(h: seq<Entry>) {
    forall i, j :: 0 <= i < j < |h| ==> h[i].id != h[j].id
  }

  /** `SELECT id FROM users WHERE phone_number = ?` finds a row. */
  predicate HasUser(users: seq<User>, phone: string) {
    exists i :: 0 <= i < |users| && users[i].phone == phone
  }

  function EntryTime(e: Entry): int { e.createdAt }
  function RowTime(r: HistoryRow): int { r.createdAt }
  function SummaryTime(s: UserSummary): int { s.user.createdAt }
  function CountOf(s: UserSummary): nat { s.calculationCount }

  // ------------------------------------------------------------- messages

  const NameRequired := BadRequest("Full name is required")
  const InvalidPhone := BadRequest("Invalid phone number. Use 11 digits (e.g. 08012345678).")
  const InvalidSave := BadRequest("Missing or invalid user_phone / feature_type")
  const InvalidUserPhone := BadRequest("Valid user_phone (11 digits) required")
  const CurrentPhoneRequired := BadRequest("Current phone is required")
  const UserNotFound := NotFound("User not found")
  const PhoneInUse := Conflict("Phone number already in use by another user")
  const PhoneRequired := BadRequest("Phone is required")
  const HistoryIdRequired := BadRequest("History ID is required")
  const NothingToUpdate := BadRequest("Nothing to update")
  const PhoneParameterRequired := BadRequest("Phone parameter is required")
  const ServerFailure := ServerError("Server error")
  const ConnectionFailed := ServerError("Database connection failed")

  // ------------------------------------------------------- WHERE clauses

  function PhoneIs(p: string): Entry -> bool { (e: Entry) => e.userPhone == p }
  function PhoneIsNot(p: string): Entry -> bool { (e: Entry) => e.userPhone != p }
  function PhoneIn(ps: set<string>): Entry -> bool { (e: Entry) => e.userPhone in ps }
  function NotEntryOf(p: string, id: nat): Entry -> bool { (e: Entry) => !(e.userPhone == p && e.id == id) }
  function IdIsNot(id: int): Entry -> bool { (e: Entry) => e.id != id }
  function UserPhoneIsNot(p: string): User -> bool { (u: User) => u.phone != p }

  /** `SELECT … FROM calculation_history WHERE user_phone = ?`, in table order. */
  function EntriesOf(h: seq<Entry>, phone: string): (r: seq<Entry>)
    ensures forall i :: 0 <= i < |r| ==> r[i].userPhone == phone && r[i] in h
    ensures forall i :: 0 <= i < |h| && h[i].userPhone == phone ==> h[i] in r
  {
    Filter(h, PhoneIs(phone))
  }

  /** What `DELETE FROM calculation_history WHERE user_phone = ?` leaves. */
  function EntriesNotOf(h: seq<Entry>, phone: string): (r: seq<Entry>)
    ensures forall i :: 0 <= i < |r| ==> r[i].userPhone != phone && r[i] in h
    ensures forall i :: 0 <= i < |h| && h[i].userPhone != phone ==> h[i] in r
  {
    Filter(h, PhoneIsNot(phone))
  }

  /** What `DELETE FROM users WHERE phone_number = ?` leaves. */
  function UsersWithout(users: seq<User>, phone: string): (r: seq<User>)
    ensures forall i :: 0 <= i < |r| ==> r[i].phone != phone && r[i] in users
    ensures forall i :: 0 <= i < |users| && users[i].phone != phone ==> users[i] in r
  {
    Filter(users, UserPhoneIsNot(phone))
  }

  /** A phone is found among the rows exactly when it is one of theirs. */
  function PhonesOf(users: seq<User>): (ps: set<string>)
    ensures forall p :: p in ps <==> HasUser(users, p)
  {
    if users == [] then {}
    else
      var rest := PhonesOf(users[1..]);
      assert forall p :: HasUser(users, p) <==> p == users[0].phone || HasUser(users[1..], p) by {
        forall p ensures HasUser(users, p) <==> p == users[0].phone || HasUser(users[1..], p) {
          if HasUser(users, p) && p != users[0].phone {
            var i :| 0 <= i < |users| && users[i].phone == p;
            assert users[1..][i - 1].phone == p;
          }
          if HasUser(users[1..], p) {
            var i :| 0 <= i < |users[1..]| && users[1..][i].phone == p;
            assert users[i + 1].phone == p;
          }
        }
      }
      {users[0].phone} + rest
  }

  function UserPhoneOf(u: User): string { u.phone }
  function EntryIdOf(e: Entry): nat { e.id }

  /** Deleting users keeps phones unique. */
  lemma FilterKeepsUniquePhones(users: seq<User>, keep: User -> bool)
    requires UniquePhones(users)
    ensures UniquePhones(Filter(users, keep))
  {
    assert UniqueBy(users, UserPhoneOf);
    FilterKeepsUnique(users, keep, UserPhoneOf);
    var f := Filter(users, keep);
    assert forall i, j :: 0 <= i < j < |f| ==> UserPhoneOf(f[i]) != UserPhoneOf(f[j]);
  }

  /** Deleting entries keeps entry ids unique, and below any bound they were below. */
  lemma FilterKeepsEntryIds(h: seq<Entry>, keep: Entry -> bool, bound: nat)
    requires UniqueEntryIds(h)
    requires forall i :: 0 <= i < |h| ==> h[i].id < bound
    ensures UniqueEntryIds(Filter(h, keep))
    ensures forall i :: 0 <= i < |Filter(h, keep)| ==> Filter(h, keep)[i].id < bound
  {
    var f := Filter(h, keep);
    assert UniqueBy(h, EntryIdOf) by {
      forall i, j | 0 <= i < j < |h| ensures EntryIdOf(h[i]) != EntryIdOf(h[j]) {
      }
    }
    FilterKeepsUnique(h, keep, EntryIdOf);
    forall i, j | 0 <= i < j < |f| ensures f[i].id != f[j].id {
      assert EntryIdOf(f[i]) != EntryIdOf(f[j]);
    }
    forall i | 0 <= i < |f| ensures f[i].id < bound {
      assert f[i] in h;
      var j :| 0 <= j < |h| && h[j] == f[i];
    }
  }

  // ----------------------------------------------------------- verify-user

  /**
   * The branch of verify-user after validation: an existing phone gets the
   * new name and `last_verified_at = NOW()`; an unknown phone is inserted
   * with both timestamps set to now.
   */
  function Upsert(users: seq<User>, name: string, phone: string, now: int, nextId: nat): (r: seq<User>)
    ensures HasUser(users, phone) ==> |r| == |users|
    ensures !HasUser(users, phone) ==> r == users + [User(nextId, name, phone, now, now)]
  {
    if HasUser(users, phone) then
      seq(|users|, i requires 0 <= i < |users| =>
        if users[i].phone == phone then users[i].(fullName := name, lastVerifiedAt := now) else users[i])
    else users + [User(nextId, name, phone, now, now)]
  }

  /** POST verify-user: both fields trimmed, the name must be non-empty, the phone 11 digits. */
  function VerifyUser(users: seq<User>, rawName: string, rawPhone: string, now: int, nextId: nat)
    : (r: Result<seq<User>, ApiError>)
    ensures r.Err? <==> PhpTrim(rawName) == "" || !IsElevenDigits(PhpTrim(rawPhone))
    ensures PhpTrim(rawName) == "" ==> r == Err(NameRequired)
    ensures PhpTrim(rawName) != "" && !IsElevenDigits(PhpTrim(rawPhone)) ==> r == Err(InvalidPhone)
  {
    var name := PhpTrim(rawName);
    var phone := PhpTrim(rawPhone);
    TrimmedPhoneCheck(rawPhone);
    if name == "" then Err(NameRequired)
    else if !PregElevenDigits(phone) then Err(InvalidPhone)
    else Ok(Upsert(users, name, phone, now, nextId))
  }

  /**
   * A successful verification leaves exactly one user with the phone, under
   * the submitted name and verified now; an existing user keeps its id and
   * creation time; every other user is untouched and no other user appears.
   */
  lemma VerifyUserRecordsTheUser(users: seq<User>, rawName: string, rawPhone: string, now: int, nextId: nat)
    requires UniquePhones(users)
    requires VerifyUser(users, rawName, rawPhone, now, nextId).Ok?
    ensures var r := VerifyUser(users, rawName, rawPhone, now, nextId).value;
      var phone := PhpTrim(rawPhone);
      UniquePhones(r) && IsElevenDigits(phone) &&
      (exists k :: 0 <= k < |r| && r[k].phone == phone && r[k].fullName == PhpTrim(rawName) && r[k].lastVerifiedAt == now) &&
      (HasUser(users, phone) ==> |r| == |users|) &&
      (HasUser(users, phone) ==> forall i :: 0 <= i < |users| ==>
         r[i].id == users[i].id && r[i].phone == users[i].phone && r[i].createdAt == users[i].createdAt) &&
      (!HasUser(users, phone) ==> r == users + [User(nextId, PhpTrim(rawName), phone, now, now)]) &&
      (forall u :: u in users && u.phone != phone ==> u in r) &&
      (forall u :: u in r && u.phone != phone ==> u in users)
  {
    var name := PhpTrim(rawName);
    var phone := PhpTrim(rawPhone);
    TrimmedPhoneCheck(rawPhone);
    assert VerifyUser(users, rawName, rawPhone, now, nextId).value == Upsert(users, name, phone, now, nextId);
    UpsertRecords(users, name, phone, now, nextId);
  }

  /** What `Upsert` does to the table, for a phone that is or is not there yet. */
  lemma UpsertRecords(users: seq<User>, name: string, phone: string, now: int, nextId: nat)
    requires UniquePhones(users)
    ensures var r := Upsert(users, name, phone, now, nextId);
      UniquePhones(r) &&
      (exists k :: 0 <= k < |r| && r[k].phone == phone && r[k].fullName == name && r[k].lastVerifiedAt == now) &&
      (HasUser(users, phone) ==> forall i :: 0 <= i < |users| ==>
         r[i].id == users[i].id && r[i].phone == users[i].phone && r[i].createdAt == users[i].createdAt) &&
      (forall u :: u in users && u.phone != phone ==> u in r) &&
      (forall u :: u in r && u.phone != phone ==> u in users)
  {
    var r := Upsert(users, name, phone, now, nextId);
    if HasUser(users, phone) {
      var k :| 0 <= k < |users| && users[k].phone == phone;
      assert r[k].phone == phone;
      forall u | u in users && u.phone != phone ensures u in r {
        var i :| 0 <= i < |users| && users[i] == u;
        assert r[i] == u;
      }
      forall u | u in r && u.phone != phone ensures u in users {
        var i :| 0 <= i < |r| && r[i] == u;
        assert users[i] == u;
      }
    } else {
      assert r[|users|].phone == phone;
      forall i, j | 0 <= i < j < |r| ensures r[i].phone != r[j].phone {
        if j == |users| {
          assert r[i] == users[i];
        }
      }
    }
  }

  // ---------------------------------------------------------- history-save

  /** What history-save writes for `input_data` / `output_data`: an array as sent, anything else as `[]`. */
  function SavedBlob(v: Option<Json>): (b: Blob)
    ensures b.Stored? && IsPhpArray(b.value)
    ensures v.Some? && IsPhpArray(v.value) ==> b == Stored(v.value)
    ensures v.None? || !IsPhpArray(v.value) ==> b == Stored(EmptyArray)
  {
    if v.Some? && IsPhpArray(v.value) then Stored(v.value) else Stored(EmptyArray)
  }

  /** The row history-save inserts (`id` from AUTO_INCREMENT, `created_at` the clock). */
  function NewEntry(phone: string, f: FeatureType, input: Option<Json>, output: Option<Json>, now: int, id: nat): Entry {
    Entry(id, phone, f, SavedBlob(input), SavedBlob(output), now)
  }

  /**
   * POST history-save: phone and feature trimmed; an empty phone or an unknown
   * feature type is rejected. The phone's format is not checked and no user
   * row is required.
   */
  function HistorySave(h: seq<Entry>, rawPhone: string, rawFeature: string,
                       input: Option<Json>, output: Option<Json>, now: int, nextId: nat)
    : (r: Result<seq<Entry>, ApiError>)
    ensures r.Err? <==> PhpTrim(rawPhone) == "" || ParseFeature(PhpTrim(rawFeature)).None?
    ensures r.Err? ==> r.error == InvalidSave
    ensures r.Ok? ==> |r.value| == |h| + 1 && r.value[..|h|] == h
    // the new row: trimmed phone, parsed feature, normalised blobs, the clock and the fresh id
    ensures r.Ok? ==> var e := r.value[|h|];
      e.id == nextId && e.userPhone == PhpTrim(rawPhone) &&
      Some(e.feature) == ParseFeature(PhpTrim(rawFeature)) &&
      e.inputData == SavedBlob(input) && e.outputData == SavedBlob(output) && e.createdAt == now
  {
    var phone := PhpTrim(rawPhone);
    var feature := ParseFeature(PhpTrim(rawFeature));
    if phone == "" || feature.None? then Err(InvalidSave)
    else Ok(h + [NewEntry(phone, feature.value, input, output, now, nextId)])
  }

  // ------------------------------------------------ history-list and detail

  /** `ORDER BY created_at DESC` over the phone's entries. */
  function HistoryQuery(h: seq<Entry>, phone: string): (q: seq<Entry>)
    ensures SortedDesc(q, EntryTime)
    ensures multiset(q) == multiset(EntriesOf(h, phone))
  {
    SortDesc(EntriesOf(h, phone), EntryTime)
  }

  /** A history-list row: blobs decoded with `?? []`. */
  function ListRow(e: Entry): HistoryRow {
    HistoryRow(e.id, FeatureName(e.feature), DecodeOrEmpty(e.inputData), DecodeOrEmpty(e.outputData), e.createdAt)
  }

  /** An admin-user-detail row: blobs decoded without a fallback. */
  function DetailRow(e: Entry): HistoryRow {
    HistoryRow(e.id, FeatureName(e.feature), JsonDecode(e.inputData), JsonDecode(e.outputData), e.createdAt)
  }

  /** GET history-list: the trimmed phone must be 11 digits. */
  function HistoryListing(h: seq<Entry>, rawPhone: string): (r: Result<seq<HistoryRow>, ApiError>)
    ensures r.Err? <==> !IsElevenDigits(PhpTrim(rawPhone))
    ensures r.Err? ==> r.error == InvalidUserPhone
  {
    var phone := PhpTrim(rawPhone);
    TrimmedPhoneCheck(rawPhone);
    if phone == "" || !PregElevenDigits(phone) then Err(InvalidUserPhone)
    else Ok(Map(HistoryQuery(h, phone), ListRow))
  }

  lemma QueryMembers(h: seq<Entry>, phone: string)
    ensures forall e :: e in HistoryQuery(h, phone) <==> e in h && e.userPhone == phone
  {
    var q := HistoryQuery(h, phone);
    FilterMembers(h, PhoneIs(phone));
    forall e ensures e in q <==> e in EntriesOf(h, phone) {
      assert e in q <==> e in multiset(q);
      assert e in EntriesOf(h, phone) <==> e in multiset(EntriesOf(h, phone));
    }
  }

  /** Rows built one per queried entry keep the query's order. */
  lemma RowsKeepOrder(q: seq<Entry>, f: Entry -> HistoryRow)
    requires SortedDesc(q, EntryTime)
    requires forall e :: f(e).createdAt == e.createdAt
    ensures SortedDesc(Map(q, f), RowTime)
  {
    var rows := Map(q, f);
    forall i, j | 0 <= i < j < |rows| ensures RowTime(rows[i]) >= RowTime(rows[j]) {
      assert rows[i] == f(q[i]) && rows[j] == f(q[j]);
    }
  }

  /** The rows built from a phone's query: one per entry of that phone, and no other. */
  lemma RowsOfQuery(h: seq<Entry>, phone: string, f: Entry -> HistoryRow)
    ensures var rows := Map(HistoryQuery(h, phone), f);
      |rows| == |EntriesOf(h, phone)| &&
      (forall k :: 0 <= k < |rows| ==> rows[k] in Map(EntriesOf(h, phone), f)) &&
      (forall e :: e in h && e.userPhone == phone ==> f(e) in rows)
  {
    var q := HistoryQuery(h, phone);
    var mine := EntriesOf(h, phone);
    QueryMembers(h, phone);
    QueryLength(h, phone);
    forall k | 0 <= k < |q| ensures Map(q, f)[k] in Map(mine, f) {
      assert q[k] in q;
      EntryOfPhone(h, phone, q[k]);
      EntryHasRow(mine, f, q[k]);
    }
    forall e | e in h && e.userPhone == phone ensures f(e) in Map(q, f) {
      EntryHasRow(q, f, e);
    }
  }

  lemma EntryOfPhone(h: seq<Entry>, phone: string, e: Entry)
    requires e in h && e.userPhone == phone
    ensures e in EntriesOf(h, phone)
  {
    var j :| 0 <= j < |h| && h[j] == e;
  }

  lemma EntryHasRow(q: seq<Entry>, f: Entry -> HistoryRow, e: Entry)
    requires e in q
    ensures f(e) in Map(q, f)
  {
    var k :| 0 <= k < |q| && q[k] == e;
    assert Map(q, f)[k] == f(e);
  }

  lemma QueryLength(h: seq<Entry>, phone: string)
    ensures |HistoryQuery(h, phone)| == |EntriesOf(h, phone)|
  {
    var q := HistoryQuery(h, phone);
    assert |q| == |multiset(q)|;
    assert |EntriesOf(h, phone)| == |multiset(EntriesOf(h, phone))|;
  }

  /**
   * history-list returns the user's whole history and nothing else: one row
   * per entry of that phone, newest first, with no blob left null.
   */
  lemma HistoryListIsTheUsersHistory(h: seq<Entry>, rawPhone: string)
    requires HistoryListing(h, rawPhone).Ok?
    ensures var rows := HistoryListing(h, rawPhone).value;
      var phone := PhpTrim(rawPhone);
      |rows| == |EntriesOf(h, phone)| &&
      SortedDesc(rows, RowTime) &&
      (forall k :: 0 <= k < |rows| ==> rows[k] in Map(EntriesOf(h, phone), ListRow)) &&
      (forall e :: e in h && e.userPhone == phone ==> ListRow(e) in rows) &&
      (forall k :: 0 <= k < |rows| ==> rows[k].inputData != JNull && rows[k].outputData != JNull)
  {
    var phone := PhpTrim(rawPhone);
    assert HistoryListing(h, rawPhone).value == Map(HistoryQuery(h, phone), ListRow);
    RowsKeepOrder(HistoryQuery(h, phone), ListRow);
    RowsOfQuery(h, phone, ListRow);
  }

  /** A saved entry is listed back under its phone, with what was sent when that was an array. */
  lemma SaveThenList(h: seq<Entry>, rawPhone: string, rawFeature: string,
                     input: Option<Json>, output: Option<Json>, now: int, nextId: nat)
    requires HistorySave(h, rawPhone, rawFeature, input, output, now, nextId).Ok?
    requires IsElevenDigits(PhpTrim(rawPhone))
    requires input.Some? && IsPhpArray(input.value) && output.Some? && IsPhpArray(output.value)
    ensures var h2 := HistorySave(h, rawPhone, rawFeature, input, output, now, nextId).value;
      HistoryListing(h2, rawPhone).Ok? &&
      HistoryRow(nextId, PhpTrim(rawFeature), input.value, output.value, now) in HistoryListing(h2, rawPhone).value
  {
    var h2 := HistorySave(h, rawPhone, rawFeature, input, output, now, nextId).value;
    var e := h2[|h|];
    assert e in h2 && e.userPhone == PhpTrim(rawPhone);
    HistoryListIsTheUsersHistory(h2, rawPhone);
  }

  /** GET admin-user-detail: the phone is used exactly as given (not trimmed). */
  function FindUser(users: seq<User>, phone: string): (r: Option<User>)
    ensures r.Some? <==> HasUser(users, phone)
    ensures r.Some? ==> r.value in users && r.value.phone == phone
  {
    if users == [] then None
    else if users[0].phone == phone then Some(users[0])
    else
      var r := FindUser(users[1..], phone);
      assert HasUser(users[1..], phone) ==> HasUser(users, phone) by {
        if HasUser(users[1..], phone) {
          var i :| 0 <= i < |users[1..]| && users[1..][i].phone == phone;
          assert users[i + 1].phone == phone;
        }
      }
      assert HasUser(users, phone) ==> HasUser(users[1..], phone) by {
        if HasUser(users, phone) {
          var i :| 0 <= i < |users| && users[i].phone == phone;
          assert users[1..][i - 1].phone == phone;
        }
      }
      r
  }

  function UserDetailOf(users: seq<User>, h: seq<Entry>, phone: string): (r: Result<UserDetail, ApiError>)
    ensures r.Err? <==> phone == "" || !HasUser(users, phone)
    ensures phone == "" ==> r == Err(PhoneParameterRequired)
    ensures phone != "" && !HasUser(users, phone) ==> r == Err(UserNotFound)
    ensures r.Ok? ==> r.value.user in users && r.value.user.phone == phone
  {
    if phone == "" then Err(PhoneParameterRequired)
    else
      match FindUser(users, phone)
      case None => Err(UserNotFound)
      case Some(u) => Ok(UserDetail(u, Map(HistoryQuery(h, phone), DetailRow)))
  }

  /** Every blob history-save writes is a stored array; such blobs decode the same either way. */
  predicate BlobsReadable(h: seq<Entry>) {
    forall i :: 0 <= i < |h| ==>
      h[i].inputData.Stored? && h[i].inputData.value != JNull &&
      h[i].outputData.Stored? && h[i].outputData.value != JNull
  }

  /**
   * For a registered 11-digit phone, the admin detail page shows the same
   * history as history-list once the blobs are readable; the two endpoints
   * differ only in how they decode unreadable text.
   */
  lemma DetailMatchesListing(users: seq<User>, h: seq<Entry>, phone: string)
    requires IsElevenDigits(phone) && HasUser(users, phone)
    requires BlobsReadable(h)
    ensures UserDetailOf(users, h, phone).Ok?
    ensures HistoryListing(h, phone).Ok?
    ensures UserDetailOf(users, h, phone).value.history == HistoryListing(h, phone).value
  {
    var q := HistoryQuery(h, phone);
    assert PhpTrim(phone) == phone by {
      assert !IsPhpTrimChar(phone[0]) && !IsPhpTrimChar(phone[|phone| - 1]);
    }
    QueryMembers(h, phone);
    assert BlobsReadable(q) by {
      forall k | 0 <= k < |q| ensures q[k].inputData.Stored? && q[k].inputData.value != JNull &&
                                      q[k].outputData.Stored? && q[k].outputData.value != JNull {
        assert q[k] in h;
      }
    }
    ReadableRowsAgree(q);
  }

  /** On readable blobs the two decodings agree row by row. */
  lemma ReadableRowsAgree(q: seq<Entry>)
    requires BlobsReadable(q)
    ensures Map(q, DetailRow) == Map(q, ListRow)
  {
    assert forall k :: 0 <= k < |q| ==> DetailRow(q[k]) == ListRow(q[k]);
  }

  // ------------------------------------------------------------ admin-users

  /** The user rows joined with their history counts, in table order. */
  function Summaries(users: seq<User>, h: seq<Entry>): (r: seq<UserSummary>)
    ensures |r| == |users|
    ensures forall i :: 0 <= i < |users| ==> r[i] == UserSummary(users[i], |EntriesOf(h, users[i].phone)|)
  {
    if users == [] then []
    else [UserSummary(users[0], |EntriesOf(h, users[0].phone)|)] + Summaries(users[1..], h)
  }

  /** GET admin-users: every user with `COUNT(ch.id)` over a LEFT JOIN on the phone, newest first. */
  function UserList(users: seq<User>, h: seq<Entry>): (r: seq<UserSummary>)
    ensures |r| == |users|
    ensures SortedDesc(r, SummaryTime)
    ensures multiset(r) == multiset(Summaries(users, h))
  {
    SortDesc(Summaries(users, h), SummaryTime)
  }

  /** admin-users lists each user once, with the number of entries filed under its phone. */
  lemma UserListCounts(users: seq<User>, h: seq<Entry>)
    ensures forall s :: s in UserList(users, h) ==> s.user in users && s.calculationCount == |EntriesOf(h, s.user.phone)|
    ensures forall u :: u in users ==> UserSummary(u, |EntriesOf(h, u.phone)|) in UserList(users, h)
  {
    var sm := Summaries(users, h);
    var r := UserList(users, h);
    forall s | s in r ensures s.user in users && s.calculationCount == |EntriesOf(h, s.user.phone)| {
      assert s in multiset(r);
      assert s in sm;
      var i :| 0 <= i < |sm| && sm[i] == s;
    }
    forall u | u in users ensures UserSummary(u, |EntriesOf(h, u.phone)|) in r {
      var i :| 0 <= i < |users| && users[i] == u;
      assert sm[i] in multiset(sm);
    }
  }

  lemma {:induction false} SummariesSum(users: seq<User>, h: seq<Entry>)
    requires UniquePhones(users)
    ensures SumOf(Summaries(users, h), CountOf) == |Filter(h, PhoneIn(PhonesOf(users)))|
  {
    if users == [] {
      FilterKeepsNone(h, PhoneIn({}));
    } else {
      var rest := users[1..];
      assert UniquePhones(rest) by {
        forall i, j | 0 <= i < j < |rest| ensures rest[i].phone != rest[j].phone {
          assert rest[i] == users[i + 1] && rest[j] == users[j + 1];
        }
      }
      SummariesSum(rest, h);
      assert users[0].phone !in PhonesOf(rest) by {
        forall i | 0 <= i < |rest| ensures rest[i].phone != users[0].phone {
          assert rest[i] == users[i + 1];
        }
      }
      assert PhonesOf(users) == {users[0].phone} + PhonesOf(rest);
      FilterSplitCount(h, PhoneIn(PhonesOf(users)), PhoneIs(users[0].phone), PhoneIn(PhonesOf(rest)));
      var sm := Summaries(users, h);
      assert sm[1..] == Summaries(rest, h);
    }
  }

  /**
   * The counts admin-users reports add up to the number of history entries
   * filed under some user's phone, so never to more than the history table
   * holds: each entry is counted at most once.
   */
  lemma UserListCountsAddUp(users: seq<User>, h: seq<Entry>)
    requires UniquePhones(users)
    ensures SumOf(UserList(users, h), CountOf) == |Filter(h, PhoneIn(PhonesOf(users)))|
    ensures SumOf(UserList(users, h), CountOf) <= |h|
  {
    SumPermutation(UserList(users, h), Summaries(users, h), CountOf);
    SummariesSum(users, h);
  }

  // ------------------------------------------------------- history-delete

  /** POST history-delete: one entry of the phone when `id > 0`, else all of the phone's entries. */
  function HistoryDelete(h: seq<Entry>, rawPhone: string, id: Option<int>): (r: Result<seq<Entry>, ApiError>)
    ensures r.Err? <==> !IsElevenDigits(PhpTrim(rawPhone))
    ensures r.Err? ==> r.error == InvalidUserPhone
    ensures r.Ok? ==> |r.value| <= |h|
  {
    var phone := PhpTrim(rawPhone);
    TrimmedPhoneCheck(rawPhone);
    if phone == "" || !PregElevenDigits(phone) then Err(InvalidUserPhone)
    else if id.Some? && id.value > 0 then Ok(Filter(h, NotEntryOf(phone, id.value)))
    else Ok(EntriesNotOf(h, phone))
  }

  /**
   * history-delete removes exactly the entries it names (one id, or all, of
   * the caller's phone); another phone's entries survive even when their id
   * is the one given, and deleting again changes nothing.
   */
  lemma HistoryDeleteScope(h: seq<Entry>, rawPhone: string, id: Option<int>)
    requires HistoryDelete(h, rawPhone, id).Ok?
    ensures var r := HistoryDelete(h, rawPhone, id).value; var phone := PhpTrim(rawPhone);
      (forall e :: e in r <==> e in h && !(e.userPhone == phone && (id.Some? && id.value > 0 ==> e.id == id.value))) &&
      (forall p :: p != phone ==> EntriesOf(r, p) == EntriesOf(h, p)) &&
      HistoryDelete(r, rawPhone, id) == Ok(r)
  {
    var phone := PhpTrim(rawPhone);
    if id.Some? && id.value > 0 {
      var keep := NotEntryOf(phone, id.value);
      FilterMembers(h, keep);
      forall p | p != phone ensures EntriesOf(Filter(h, keep), p) == EntriesOf(h, p) {
        FilterNarrows(h, keep, PhoneIs(p));
      }
      FilterNarrows(h, keep, keep);
    } else {
      FilterMembers(h, PhoneIsNot(phone));
      forall p | p != phone ensures EntriesOf(EntriesNotOf(h, phone), p) == EntriesOf(h, p) {
        FilterNarrows(h, PhoneIsNot(phone), PhoneIs(p));
      }
      FilterNarrows(h, PhoneIsNot(phone), PhoneIsNot(phone));
    }
  }

  // ------------------------------------------------------ admin-user-update

  function RenameUsers(users: seq<User>, phone: string, name: string): (r: seq<User>)
    ensures |r| == |users|
    ensures forall i :: 0 <= i < |users| ==>
      r[i] == if users[i].phone == phone then users[i].(fullName := name) else users[i]
  {
    seq(|users|, i requires 0 <= i < |users| =>
      if users[i].phone == phone then users[i].(fullName := name) else users[i])
  }

  function RephoneUsers(users: seq<User>, phone: string, newPhone: string): (r: seq<User>)
    ensures |r| == |users|
    ensures forall i :: 0 <= i < |users| ==>
      r[i] == if users[i].phone == phone then users[i].(phone := newPhone) else users[i]
  {
    seq(|users|, i requires 0 <= i < |users| =>
      if users[i].phone == phone then users[i].(phone := newPhone) else users[i])
  }

  /** `UPDATE calculation_history SET user_phone = ? WHERE user_phone = ?`. */
  function RephoneEntries(h: seq<Entry>, phone: string, newPhone: string): (r: seq<Entry>)
    ensures |r| == |h|
    ensures forall i :: 0 <= i < |h| ==>
      r[i] == if h[i].userPhone == phone then h[i].(userPhone := newPhone) else h[i]
  {
    if h == [] then []
    else [if h[0].userPhone == phone then h[0].(userPhone := newPhone) else h[0]] + RephoneEntries(h[1..], phone, newPhone)
  }

  /**
   * POST admin-user-update, when no statement fails: a trimmed current phone
   * is required and must exist; a non-empty name renames; a non-empty new
   * phone that differs moves the user and its history, unless another user
   * already has it (409, and the rename is rolled back with it).
   */
  function UpdateUser(db: Db, rawPhone: string, rawName: string, rawNewPhone: string): (r: Result<Db, ApiError>)
    ensures var phone := PhpTrim(rawPhone); var newPhone := PhpTrim(rawNewPhone);
      r.Err? <==> phone == "" || !HasUser(db.users, phone) ||
                  (newPhone != "" && newPhone != phone && HasUser(db.users, newPhone))
    ensures PhpTrim(rawPhone) == "" ==> r == Err(CurrentPhoneRequired)
    ensures PhpTrim(rawPhone) != "" && !HasUser(db.users, PhpTrim(rawPhone)) ==> r == Err(UserNotFound)
    ensures r.Err? && PhpTrim(rawPhone) != "" && HasUser(db.users, PhpTrim(rawPhone)) ==> r == Err(PhoneInUse)
  {
    var phone := PhpTrim(rawPhone);
    var name := PhpTrim(rawName);
    var newPhone := PhpTrim(rawNewPhone);
    if phone == "" then Err(CurrentPhoneRequired)
    else if !HasUser(db.users, phone) then Err(UserNotFound)
    else
      RenameKeepsPhones(db.users, phone, name);
      UpdateFound(db, phone, name, newPhone)
  }

  /** The transaction of admin-user-update, once the user has been found. */
  function UpdateFound(db: Db, phone: string, name: string, newPhone: string): (r: Result<Db, ApiError>)
    ensures r.Err? ==> r == Err(PhoneInUse)
  {
    var renamed := if name != "" then RenameUsers(db.users, phone, name) else db.users;
    if newPhone != "" && newPhone != phone then
      if HasUser(renamed, newPhone) then Err(PhoneInUse)
      else Ok(Db(RephoneUsers(renamed, phone, newPhone), RephoneEntries(db.history, phone, newPhone)))
    else Ok(Db(renamed, db.history))
  }

  lemma RenameKeepsPhones(users: seq<User>, phone: string, name: string)
    ensures forall p :: HasUser(RenameUsers(users, phone, name), p) <==> HasUser(users, p)
  {
    var r := RenameUsers(users, phone, name);
    forall p ensures HasUser(r, p) <==> HasUser(users, p) {
      if HasUser(r, p) {
        var i :| 0 <= i < |r| && r[i].phone == p;
        assert users[i].phone == p;
      }
      if HasUser(users, p) {
        var i :| 0 <= i < |users| && users[i].phone == p;
        assert r[i].phone == p;
      }
    }
  }

  lemma {:induction false} RephoneCounts(h: seq<Entry>, phone: string, newPhone: string)
    requires phone != newPhone
    ensures var r := RephoneEntries(h, phone, newPhone);
      EntriesOf(r, phone) == [] &&
      |EntriesOf(r, newPhone)| == |EntriesOf(h, phone)| + |EntriesOf(h, newPhone)|
  {
    if h != [] {
      RephoneCounts(h[1..], phone, newPhone);
      var r := RephoneEntries(h, phone, newPhone);
      assert r[1..] == RephoneEntries(h[1..], phone, newPhone);
    }
  }

  lemma {:induction false} RephoneLeavesOthers(h: seq<Entry>, phone: string, newPhone: string, p: string)
    requires p != phone && p != newPhone
    ensures EntriesOf(RephoneEntries(h, phone, newPhone), p) == EntriesOf(h, p)
  {
    if h != [] {
      RephoneLeavesOthers(h[1..], phone, newPhone, p);
      var r := RephoneEntries(h, phone, newPhone);
      assert r[1..] == RephoneEntries(h[1..], phone, newPhone);
    }
  }

  /** Phones stay unique through an update, and no row is added or removed. */
  lemma UpdateUserKeepsRows(db: Db, rawPhone: string, rawName: string, rawNewPhone: string)
    requires UniquePhones(db.users)
    requires UpdateUser(db, rawPhone, rawName, rawNewPhone).Ok?
    ensures var r := UpdateUser(db, rawPhone, rawName, rawNewPhone).value;
      UniquePhones(r.users) && |r.users| == |db.users| && |r.history| == |db.history| &&
      (forall i :: 0 <= i < |r.users| ==> r.users[i].id == db.users[i].id && r.users[i].createdAt == db.users[i].createdAt) &&
      (forall i :: 0 <= i < |r.history| ==> r.history[i].id == db.history[i].id)
  {
    UpdateFoundKeepsRows(db, PhpTrim(rawPhone), PhpTrim(rawName), PhpTrim(rawNewPhone));
  }

  lemma UpdateFoundKeepsRows(db: Db, phone: string, name: string, newPhone: string)
    requires UniquePhones(db.users)
    requires UpdateFound(db, phone, name, newPhone).Ok?
    ensures var r := UpdateFound(db, phone, name, newPhone).value;
      UniquePhones(r.users) && |r.users| == |db.users| && |r.history| == |db.history| &&
      (forall i :: 0 <= i < |r.users| ==> r.users[i].id == db.users[i].id && r.users[i].createdAt == db.users[i].createdAt) &&
      (forall i :: 0 <= i < |r.history| ==> r.history[i].id == db.history[i].id)
  {
    var renamed := if name != "" then RenameUsers(db.users, phone, name) else db.users;
    assert forall i :: 0 <= i < |renamed| ==> renamed[i].phone == db.users[i].phone;
    assert UniquePhones(renamed);
    if newPhone != "" && newPhone != phone {
      RephoneKeepsUnique(renamed, phone, newPhone);
    }
  }

  /** Moving users to a phone nobody has keeps phones unique. */
  lemma RephoneKeepsUnique(users: seq<User>, phone: string, newPhone: string)
    requires UniquePhones(users) && !HasUser(users, newPhone)
    ensures UniquePhones(RephoneUsers(users, phone, newPhone))
  {
    var r := RephoneUsers(users, phone, newPhone);
    forall i, j | 0 <= i < j < |r| ensures r[i].phone != r[j].phone {
      assert users[i].phone != newPhone && users[j].phone != newPhone;
      assert users[i].phone != users[j].phone;
    }
  }

  /**
   * After a phone change the user is found only under the new phone, keeps
   * its id, carries the new name if one was given, and its history follows
   * it: nothing stays filed under the old phone, the new phone's count is the
   * old count plus whatever was already filed under the new phone, and
   * every other phone's history is as it was.
   */
  lemma UpdateUserMovesHistory(db: Db, rawPhone: string, rawName: string, rawNewPhone: string)
    requires UniquePhones(db.users)
    requires UpdateUser(db, rawPhone, rawName, rawNewPhone).Ok?
    requires PhpTrim(rawNewPhone) != "" && PhpTrim(rawNewPhone) != PhpTrim(rawPhone)
    ensures var r := UpdateUser(db, rawPhone, rawName, rawNewPhone).value;
      var phone := PhpTrim(rawPhone); var newPhone := PhpTrim(rawNewPhone);
      !HasUser(r.users, phone) && HasUser(r.users, newPhone) &&
      EntriesOf(r.history, phone) == [] &&
      |EntriesOf(r.history, newPhone)| == |EntriesOf(db.history, phone)| + |EntriesOf(db.history, newPhone)| &&
      (forall p :: p != phone && p != newPhone ==> EntriesOf(r.history, p) == EntriesOf(db.history, p)) &&
      (forall i :: 0 <= i < |db.users| && db.users[i].phone == phone ==>
         r.users[i].phone == newPhone && r.users[i].id == db.users[i].id &&
         (PhpTrim(rawName) != "" ==> r.users[i].fullName == PhpTrim(rawName))) &&
      (forall i :: 0 <= i < |db.users| && db.users[i].phone != phone ==> r.users[i] == db.users[i])
  {
    var phone := PhpTrim(rawPhone);
    var name := PhpTrim(rawName);
    var newPhone := PhpTrim(rawNewPhone);
    var renamed := if name != "" then RenameUsers(db.users, phone, name) else db.users;
    RenameKeepsPhones(db.users, phone, name);
    var r := UpdateUser(db, rawPhone, rawName, rawNewPhone).value;
    assert r == Db(RephoneUsers(renamed, phone, newPhone), RephoneEntries(db.history, phone, newPhone));
    RephoneMovesUser(db.users, phone, name, newPhone);
    RephoneCounts(db.history, phone, newPhone);
    forall p | p != phone && p != newPhone ensures EntriesOf(r.history, p) == EntriesOf(db.history, p) {
      RephoneLeavesOthers(db.history, phone, newPhone, p);
    }
  }

  /**
   * Without a phone change only the name moves: the user with that phone
   * takes the trimmed name when one was given, every other user and the
   * whole history stay as they were, and no phone changes.
   */
  lemma UpdateUserRenames(db: Db, rawPhone: string, rawName: string, rawNewPhone: string)
    requires UpdateUser(db, rawPhone, rawName, rawNewPhone).Ok?
    requires PhpTrim(rawNewPhone) == "" || PhpTrim(rawNewPhone) == PhpTrim(rawPhone)
    ensures var r := UpdateUser(db, rawPhone, rawName, rawNewPhone).value;
      var phone := PhpTrim(rawPhone); var name := PhpTrim(rawName);
      r.history == db.history && |r.users| == |db.users| &&
      (forall i :: 0 <= i < |db.users| ==>
         r.users[i] == if db.users[i].phone == phone && name != "" then db.users[i].(fullName := name) else db.users[i]) &&
      (forall i :: 0 <= i < |db.users| ==> r.users[i].phone == db.users[i].phone && r.users[i].id == db.users[i].id)
  {
  }

  /** The users' side of a phone change: the user moves, keeping its id, and nobody keeps the old phone. */
  lemma RephoneMovesUser(users: seq<User>, phone: string, name: string, newPhone: string)
    requires HasUser(users, phone) && phone != newPhone
    ensures var renamed := if name != "" then RenameUsers(users, phone, name) else users;
      var r := RephoneUsers(renamed, phone, newPhone);
      !HasUser(r, phone) && HasUser(r, newPhone) &&
      (forall i :: 0 <= i < |users| && users[i].phone == phone ==>
         r[i].phone == newPhone && r[i].id == users[i].id && (name != "" ==> r[i].fullName == name)) &&
      (forall i :: 0 <= i < |users| && users[i].phone != phone ==> r[i] == users[i])
  {
    var renamed := if name != "" then RenameUsers(users, phone, name) else users;
    var r := RephoneUsers(renamed, phone, newPhone);
    assert forall i :: 0 <= i < |renamed| ==> renamed[i].phone == users[i].phone;
    var k :| 0 <= k < |users| && users[k].phone == phone;
    assert r[k].phone == newPhone;
  }

  // ------------------------------------------------------ admin-user-delete

  /** POST admin-user-delete, when no statement fails: the user's history, then the user. */
  function DeleteUser(db: Db, rawPhone: string): (r: Result<Db, ApiError>)
    ensures r.Err? <==> PhpTrim(rawPhone) == ""
    ensures r.Err? ==> r.error == PhoneRequired
  {
    var phone := PhpTrim(rawPhone);
    if phone == "" then Err(PhoneRequired)
    else Ok(Db(UsersWithout(db.users, phone), EntriesNotOf(db.history, phone)))
  }

  /**
   * Deleting a user removes it and everything filed under its phone (even
   * entries of a phone with no user row), leaves every other user and
   * every other phone's history as it was, keeps phones unique, and is
   * idempotent.
   */
  lemma DeleteUserCascades(db: Db, rawPhone: string)
    requires DeleteUser(db, rawPhone).Ok?
    ensures var r := DeleteUser(db, rawPhone).value; var phone := PhpTrim(rawPhone);
      !HasUser(r.users, phone) && EntriesOf(r.history, phone) == [] &&
      (forall u :: u in db.users && u.phone != phone ==> u in r.users) &&
      (forall p :: p != phone ==> EntriesOf(r.history, p) == EntriesOf(db.history, p)) &&
      (UniquePhones(db.users) ==> UniquePhones(r.users)) &&
      DeleteUser(r, rawPhone) == Ok(r)
  {
    var phone := PhpTrim(rawPhone);
    var r := DeleteUser(db, rawPhone).value;
    FilterKeepsNone(r.history, PhoneIs(phone));
    forall p | p != phone ensures EntriesOf(r.history, p) == EntriesOf(db.history, p) {
      FilterNarrows(db.history, PhoneIsNot(phone), PhoneIs(p));
    }
    FilterMembers(db.users, UserPhoneIsNot(phone));
    if UniquePhones(db.users) {
      FilterKeepsUniquePhones(db.users, UserPhoneIsNot(phone));
    }
    FilterNarrows(db.history, PhoneIsNot(phone), PhoneIsNot(phone));
    FilterNarrows(db.users, UserPhoneIsNot(phone), UserPhoneIsNot(phone));
  }

  // --------------------------------------------------- admin-history-update

  /** `SET input_data = ?, output_data = ?` with only the columns that were sent (non-null). */
  function SetBlobs(e: Entry, input: Option<Json>, output: Option<Json>): Entry {
    e.(inputData := if IsNullish(input) then e.inputData else Stored(input.value),
       outputData := if IsNullish(output) then e.outputData else Stored(output.value))
  }

  /**
   * POST admin-history-update: `(int) id` must be positive and at least one of
   * the blobs non-null; the entry with that id (if any) gets them. An id that
   * matches nothing still reports success.
   */
  function HistoryUpdate(h: seq<Entry>, id: int, input: Option<Json>, output: Option<Json>)
    : (r: Result<seq<Entry>, ApiError>)
    ensures r.Err? <==> id <= 0 || (IsNullish(input) && IsNullish(output))
    ensures id <= 0 ==> r == Err(HistoryIdRequired)
    ensures id > 0 && IsNullish(input) && IsNullish(output) ==> r == Err(NothingToUpdate)
  {
    if id <= 0 then Err(HistoryIdRequired)
    else if IsNullish(input) && IsNullish(output) then Err(NothingToUpdate)
    else Ok(Map(h, (e: Entry) => if e.id == id then SetBlobs(e, input, output) else e))
  }

  /**
   * Only the entry with the given id changes, and only in the blobs that were
   * sent; its owner, type, id and time stay, so the history of every phone
   * keeps its length and order.
   */
  lemma HistoryUpdateScope(h: seq<Entry>, id: int, input: Option<Json>, output: Option<Json>)
    requires HistoryUpdate(h, id, input, output).Ok?
    ensures var r := HistoryUpdate(h, id, input, output).value;
      |r| == |h| &&
      (forall i :: 0 <= i < |h| && h[i].id != id ==> r[i] == h[i]) &&
      (forall i :: 0 <= i < |h| ==>
         r[i].id == h[i].id && r[i].userPhone == h[i].userPhone &&
         r[i].feature == h[i].feature && r[i].createdAt == h[i].createdAt) &&
      (forall i :: 0 <= i < |h| && h[i].id == id ==>
         (input.Some? && input.value != JNull ==> r[i].inputData == Stored(input.value)) &&
         (IsNullish(input) ==> r[i].inputData == h[i].inputData) &&
         (output.Some? && output.value != JNull ==> r[i].outputData == Stored(output.value)) &&
         (IsNullish(output) ==> r[i].outputData == h[i].outputData)) &&
      ((forall i :: 0 <= i < |h| ==> h[i].id != id) ==> r == h)
  {
  }

  // --------------------------------------------------- admin-history-delete

  /** POST admin-history-delete: the entry with that id, whoever it belongs to. */
  function HistoryDeleteById(h: seq<Entry>, id: int): (r: Result<seq<Entry>, ApiError>)
    ensures r.Err? <==> id <= 0
    ensures r.Err? ==> r.error == HistoryIdRequired
  {
    if id <= 0 then Err(HistoryIdRequired) else Ok(Filter(h, IdIsNot(id)))
  }

  /** Exactly the entry with the id goes; deleting it again changes nothing. */
  lemma HistoryDeleteByIdScope(h: seq<Entry>, id: int)
    requires HistoryDeleteById(h, id).Ok?
    ensures var r := HistoryDeleteById(h, id).value;
      (forall e :: e in r <==> e in h && e.id != id) &&
      HistoryDeleteById(r, id) == Ok(r)
  {
    FilterMembers(h, IdIsNot(id));
    FilterNarrows(h, IdIsNot(id), IdIsNot(id));
  }
}
