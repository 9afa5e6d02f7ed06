/** The sign-up form (src/app/register/page.js): the password checks made
    before the account provider is called, and the form's state afterwards.
    `password.length` counts UTF-16 code units, so a character outside the
    Basic Multilingual Plane counts twice. The provider's `signUp` is a
    parameter answering with an error message or with none. */
module Register {
  import opened Common

  const MIN_PASSWORD := 6
  const PASSWORDS_DIFFER := "Passwords do not match"
  const PASSWORD_TOO_SHORT := "Password must be at least 6 characters"

  /** The number of UTF-16 code units that encode `s`. */
  function Utf16Length(s: string): (n: nat)
    ensures |s| <= n <= 2 * |s|
  {
    if s == [] then 0
    else (if s[0] as int >= 0x1_0000 then 2 else 1) + Utf16Length(s[1..])
  }

  /** The checks in order: a mismatch is reported first, then a password
      shorter than six code units; None lets the sign-up go ahead. */
  function ValidatePassword(password: string, confirm: string): (error: Option<string>)
    ensures error.None? <==> password == confirm && Utf16Length(password) >= MIN_PASSWORD
    ensures password != confirm ==> error == Some(PASSWORDS_DIFFER)
    ensures password == confirm && Utf16Length(password) < MIN_PASSWORD ==> error == Some(PASSWORD_TOO_SHORT)
  {
    if password != confirm then Some(PASSWORDS_DIFFER)
    else if Utf16Length(password) < MIN_PASSWORD then Some(PASSWORD_TOO_SHORT)
    else None
  }

  /** Six characters always pass the length check, and five or fewer
      characters pass it only when some of them lie outside the Basic
      Multilingual Plane. */
  lemma {:induction false} LengthCheckByCharacters(password: string)
    ensures |password| >= MIN_PASSWORD ==> ValidatePassword(password, password).None?
    ensures |password| < MIN_PASSWORD && ValidatePassword(password, password).None? ==>
              exists i :: 0 <= i < |password| && password[i] as int >= 0x1_0000
  {
    if |password| < MIN_PASSWORD && ValidatePassword(password, password).None? {
      AllBmpCountsOnce(password);
    }
  }

  /** A string with no character outside the Basic Multilingual Plane is as
      long in code units as in characters. */
  lemma {:induction false} AllBmpCountsOnce(s: string)
    ensures (forall i :: 0 <= i < |s| ==> s[i] as int < 0x1_0000) ==> Utf16Length(s) == |s|
  {
    if s != [] {
      AllBmpCountsOnce(s[1..]);
      if forall i :: 0 <= i < |s| ==> s[i] as int < 0x1_0000 {
        assert forall i :: 0 <= i < |s[1..]| ==> s[1..][i] == s[i + 1];
      }
    }
  }

  /** The form's state. */
  class RegisterForm {
    var error: string
    var loading: bool
    var success: bool

    constructor ()
      ensures error == "" && !loading && !success
    {
      error, loading, success := "", false, false;
    }

    /** `handleSubmit`: a failed check shows its message and calls nothing;
        otherwise the provider is called, and its error is shown with the
        form re-enabled, or the form switches to the confirmation view
        (leaving `loading` set). Returns whether the provider was called. */
    method HandleSubmit(email: string, password: string, confirm: string, signUp: (string, string) -> Option<string>)
      returns (called: bool)
      modifies this
      ensures called <==> ValidatePassword(password, confirm).None?
      ensures !called ==> error == ValidatePassword(password, confirm).value
                          && loading == old(loading) && success == old(success)
      ensures called && signUp(email, password).Some? ==>
                error == signUp(email, password).value && !loading && success == old(success)
      ensures called && signUp(email, password).None? ==> error == "" && loading && success
    {
      error := "";
      var check := ValidatePassword(password, confirm);
      if check.Some? {
        error := check.value;
        return false;
      }
      loading := true;
      called := true;
      var answer := signUp(email, password);
      if answer.Some? {
        error := answer.value;
        loading := false;
      } else {
        success := true;
      }
    }
  }
}
