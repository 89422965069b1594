/**
 * The welcome dialog (frontend/src/components/UserModal.jsx): the phone field
 * keeps at most eleven digits, and submitting checks the name, then the
 * phone's length, before it asks verify-user to record the user and starts a
 * session in the browser's storage.
 */
module UserModalForm {
  import opened Wrappers
  import opened Text
  import ApiClient
  import Tables

  /** `e.target.value.replace(/\D/g, '').slice(0, 11)`. */
  function SanitizePhone(input: string): (phone: string)
    ensures AllDigits(phone) && |phone| <= 11
    // the digits typed, in order, cut at eleven
    ensures phone <= Digits(input)
    ensures |Digits(input)| <= 11 ==> phone == Digits(input)
    ensures |Digits(input)| >= 11 ==> |phone| == 11
  {
    KeepDigits(input, 11)
  }

  const NameMessage := "Please enter your full name."
  const PhoneMessage := "Phone must be 11 digits (e.g. 08012345678)."
  const FallbackMessage := "Something went wrong. Try again."

  /** The body `api.verifyUser` posts: `{full_name, phone_number}`. */
  datatype VerifyRequest = VerifyRequest(fullName: string, phoneNumber: string)

  /**
   * The checks of `handleSubmit`, in their order: a blank name is reported
   * whatever the phone; then a phone that is not eleven characters long;
   * otherwise the trimmed name and the phone as held are sent.
   */
  function SubmitCheck(fullName: string, phone: string): (r: Result<VerifyRequest, string>)
    ensures JsTrim(fullName) == "" ==> r == Err(NameMessage)
    ensures JsTrim(fullName) != "" && |phone| != 11 ==> r == Err(PhoneMessage)
    ensures r.Ok? <==> JsTrim(fullName) != "" && |phone| == 11
    ensures r.Ok? ==> r.value.fullName == JsTrim(fullName) && r.value.phoneNumber == phone
  {
    if JsTrim(fullName) == "" then Err(NameMessage)
    else if |phone| != 11 then Err(PhoneMessage)
    else Ok(VerifyRequest(JsTrim(fullName), phone))
  }

  /**
   * Whatever was typed, a phone the dialog lets through passes verify-user's
   * 11-digit check, so the server's answer depends on the name alone.
   */
  lemma SubmittedPhonePassesServer(users: seq<Tables.User>, name: string, typed: string, now: int, nextId: nat)
    requires SubmitCheck(name, SanitizePhone(typed)).Ok?
    ensures var req := SubmitCheck(name, SanitizePhone(typed)).value;
      IsElevenDigits(PhpTrim(req.phoneNumber)) &&
      (Tables.VerifyUser(users, req.fullName, req.phoneNumber, now, nextId).Ok? <==> PhpTrim(req.fullName) != "")
  {
    DigitsAreNotTrimmed(SanitizePhone(typed));
  }

  /**
   * The two trims differ: a name made of a NUL character is not blank to the
   * dialog (JavaScript does not trim it) but is blank to verify-user (PHP
   * does), which answers "Full name is required".
   */
  lemma NulNameIsRefusedByServer(users: seq<Tables.User>, now: int, nextId: nat)
    ensures SubmitCheck("\0", "08012345678").Ok?
    ensures Tables.VerifyUser(users, "\0", "08012345678", now, nextId) == Err(Tables.NameRequired)
  {
    assert !IsJsWhitespace('\0');
    assert JsTrim("\0") == "\0";
    assert IsPhpTrimChar("\0"[0]);
    assert PhpTrim("\0") == "" by {
      assert forall i :: 0 <= i < |"\0"| ==> IsPhpTrimChar("\0"[i]);
    }
  }

  /** The dialog's state: the two fields, the error line and the busy flag. */
  class UserModal {
    var fullName: string
    var phone: string
    var error: string
    var loading: bool

    constructor ()
      ensures fullName == "" && phone == "" && error == "" && !loading
    {
      fullName, phone, error, loading := "", "", "", false;
    }

    /** The name field's `onChange`. */
    method NameChanged(value: string)
      modifies this
      ensures fullName == value
      ensures phone == old(phone) && error == old(error) && loading == old(loading)
    {
      fullName := value;
    }

    /** `handlePhoneChange`: keeps the sanitised value and clears the error line. */
    method PhoneChanged(value: string)
      modifies this
      ensures phone == SanitizePhone(value) && error == ""
      ensures fullName == old(fullName) && loading == old(loading)
    {
      phone := SanitizePhone(value);
      error := "";
    }

    /**
     * `handleSubmit` at clock reading `now`. `reply` is how the verify-user
     * request ends: `Ok`, or the message of the error it throws. Returns the
     * request sent, if any, and whether `onVerified` was called.
     */
    method Submit(storage: ApiClient.BrowserStorage, now: nat, reply: Result<(), string>)
      returns (sent: Option<VerifyRequest>, verified: bool)
      modifies this, storage
      ensures fullName == old(fullName) && phone == old(phone)
      ensures var check := SubmitCheck(old(fullName), old(phone));
        // nothing is sent unless both checks pass, and then exactly the checked request
        (sent.Some? <==> check.Ok?) && (check.Ok? ==> sent == Some(check.value)) &&
        // a failed check shows its message and changes nothing else
        (check.Err? ==> error == check.error && loading == old(loading) && !verified &&
                        storage.items == old(storage.items)) &&
        // a verified user gets a session for this phone, valid from now
        (check.Ok? && reply.Ok? ==> verified && error == "" && !loading &&
                                    storage.UserPhone() == phone && storage.IsSessionValid(now) &&
                                    storage.AdminToken() == old(storage.AdminToken()) &&
                                    storage.items == old(storage.items)[ApiClient.PhoneKey := phone]
                                                       [ApiClient.VerifiedAtKey := NatToString(now)]) &&
        // a refusal shows the server's message and starts no session
        (check.Ok? && reply.Err? ==> !verified && !loading && storage.items == old(storage.items) &&
                                     error == (if reply.error != "" then reply.error else FallbackMessage))
    {
      error := "";
      var check := SubmitCheck(fullName, phone);
      if check.Err? {
        error := check.error;
        return None, false;
      }
      loading := true;
      sent := Some(check.value);
      if reply.Ok? {
        storage.SetUserSession(phone, now);
        verified := true;
      } else {
        error := if reply.error != "" then reply.error else FallbackMessage;
        verified := false;
      }
      loading := false;
    }
  }
}
