/**
 * `RegisterBody` in `RegisterActivity`: the form's state holders, the full-name field,
 * the ordered checks of the Kickstart button, and the register-then-save-profile sequence.
 */
module Register {
  import opened Wrappers
  import opened Models
  import opened Text
  import opened Validation

  const MsgFirstName := "Please enter your first name"
  const MsgLastName := "Please enter your last name"
  const MsgEmail := "Please enter your email"
  const MsgEmailInvalid := "Please enter a valid email address"
  const MsgPassword := "Please enter a password"
  const MsgPasswordShort := "Password must be at least 6 characters"
  const MsgConfirm := "Please confirm your password"
  const MsgMismatch := "Passwords do not match"
  const MsgGender := "Please select your gender"
  const MsgTerms := "Please accept the Terms of Service"

  const MinPasswordLength := 6

  /** The values the checks read. */
  datatype Registration = Registration(
    firstName: string,
    lastName: string,
    email: string,
    password: string,
    confirmPassword: string,
    gender: string,
    acceptedTerms: bool)

  /** The checks of the Kickstart button, in the order they run. */
  function RegistrationChecks(f: Registration, emailMatches: string -> bool): (cs: seq<Check>)
    ensures |cs| == 10
  {
    [ Check(IsBlank(f.firstName), MsgFirstName),
      Check(IsBlank(f.lastName), MsgLastName),
      Check(IsBlank(f.email), MsgEmail),
      Check(!emailMatches(f.email), MsgEmailInvalid),
      Check(IsBlank(f.password), MsgPassword),
      Check(|f.password| < MinPasswordLength, MsgPasswordShort),
      Check(IsBlank(f.confirmPassword), MsgConfirm),
      Check(f.password != f.confirmPassword, MsgMismatch),
      Check(IsBlank(f.gender), MsgGender),
      Check(!f.acceptedTerms, MsgTerms) ]
  }

  /**
   * Everything a registration needs: the conditions under which no message is shown. A
   * password of six spaces is long enough but blank, and is refused.
   */
  predicate Acceptable(f: Registration, emailMatches: string -> bool) {
    && !IsBlank(f.firstName) && !IsBlank(f.lastName)
    && !IsBlank(f.email) && emailMatches(f.email)
    && !IsBlank(f.password) && |f.password| >= MinPasswordLength && f.password == f.confirmPassword
    && !IsBlank(f.gender) && f.acceptedTerms
  }

  /** The message of the first failing check, or nothing. */
  function ValidateRegistration(f: Registration, emailMatches: string -> bool): (r: Option<string>)
    ensures r.None? <==> Acceptable(f, emailMatches)
  {
    var cs := RegistrationChecks(f, emailMatches);
    assert (forall j :: 0 <= j < |cs| ==> !cs[j].fails) <==> Acceptable(f, emailMatches) by {
      if forall j :: 0 <= j < |cs| ==> !cs[j].fails {
        assert !cs[0].fails && !cs[1].fails && !cs[2].fails && !cs[3].fails && !cs[4].fails;
        assert !cs[5].fails && !cs[7].fails && !cs[8].fails && !cs[9].fails;
      }
      if Acceptable(f, emailMatches) {
        forall j | 0 <= j < |cs| ensures !cs[j].fails {
        }
      }
    }
    FirstFailure(cs)
  }

  /** Whatever message is shown belongs to a failing check that every earlier check passed. */
  lemma ReportedCheckIsFirstFailing(f: Registration, emailMatches: string -> bool)
    requires ValidateRegistration(f, emailMatches).Some?
    ensures var cs := RegistrationChecks(f, emailMatches);
      exists i :: 0 <= i < |cs| && cs[i].fails && cs[i].message == ValidateRegistration(f, emailMatches).value
        && forall j :: 0 <= j < i ==> !cs[j].fails
  {
    var cs := RegistrationChecks(f, emailMatches);
    var i := FirstFailing(cs).value;
    assert cs[i].message == ValidateRegistration(f, emailMatches).value;
  }

  /** Every check before the password length passes. */
  predicate PassesUpToPassword(f: Registration, emailMatches: string -> bool) {
    !IsBlank(f.firstName) && !IsBlank(f.lastName) && !IsBlank(f.email) && emailMatches(f.email)
      && !IsBlank(f.password)
  }

  /** A short password, with everything before it in order, gets the length message. */
  lemma ShortPasswordRejected(f: Registration, emailMatches: string -> bool)
    requires PassesUpToPassword(f, emailMatches) && |f.password| < MinPasswordLength
    ensures ValidateRegistration(f, emailMatches) == Some(MsgPasswordShort)
  {
    FirstFailureAt(RegistrationChecks(f, emailMatches), 5);
  }

  /** A confirmation that differs, with everything before it in order, gets the mismatch message. */
  lemma MismatchRejected(f: Registration, emailMatches: string -> bool)
    requires PassesUpToPassword(f, emailMatches) && |f.password| >= MinPasswordLength
    requires !IsBlank(f.confirmPassword) && f.password != f.confirmPassword
    ensures ValidateRegistration(f, emailMatches) == Some(MsgMismatch)
  {
    FirstFailureAt(RegistrationChecks(f, emailMatches), 7);
  }

  /** A blank first name is reported before anything else, whatever the other fields hold. */
  lemma BlankFirstNameFirst(f: Registration, emailMatches: string -> bool)
    requires IsBlank(f.firstName)
    ensures ValidateRegistration(f, emailMatches) == Some(MsgFirstName)
  {
    FirstFailureAt(RegistrationChecks(f, emailMatches), 0);
  }

  /**
   * The name field as written: it shows `"$firstName $lastName".trim()`, recomputed from
   * the split after every keystroke.
   */
  function DisplayedName(firstName: string, lastName: string): (r: string)
    ensures |r| <= |firstName| + 1 + |lastName|
  {
    Trim(firstName + " " + lastName)
  }

  /**
   * As written, a space typed after a one-word name disappears at once: the field goes
   * back to the word, so a last name cannot be typed after it.
   */
  lemma TypedSpaceIsLost(w: string)
    requires ' ' !in w
    ensures var (first, last) := SplitAtFirstSpace(w + " ");
      DisplayedName(first, last) == Trim(w) && DisplayedName(first, last) != w + " "
  {
    var (first, last) := SplitAtFirstSpace(w + " ");
    assert first == w && last == "" by {
      assert (w + " ")[|w|] == ' ';
      assert first + " " + last == w + " ";
      assert forall j :: 0 <= j < |w| ==> (w + " ")[j] == w[j];
    }
    assert first + " " + last == w + [' '];
    TrimDropsTrailingWhitespace(w, ' ');
  }

  /** The outcome of the authentication call (`register`), supplied by the backend. */
  datatype AuthResult = AuthOk(userID: string) | AuthError(message: string)

  /** What a press of Kickstart leads to. */
  datatype Outcome =
    | Rejected(message: string)
    | AuthFailed(message: string)
    | ProfileSaved(profile: UserProfile, message: string)
    | ProfileFailed(profile: UserProfile, message: string)
  {
    /** The screen goes to login only after the profile is saved. */
    predicate GoesToLogin() {
      ProfileSaved?
    }
  }

  /** The profile written after registration: dob and country keep their empty defaults. */
  function NewProfile(userID: string, f: Registration): (u: UserProfile)
    ensures u.userID == userID && u.email == f.email && u.gender == f.gender
    ensures u.firstName == f.firstName && u.lastName == f.lastName
    ensures u.dob == "" && u.country == ""
  {
    UserProfile(userID, f.email, f.firstName, f.lastName, f.gender, "", "")
  }

  /**
   * The form's state holders, in the corrected variant listed under Findings in the
   * README: the full-name field keeps the text the user typed in `nameText`, and splits
   * it into first and last name. `DisplayedName` is the field as the screen computes it.
   */
  class RegisterForm {
    var nameText: string
    var firstName: string
    var lastName: string
    var email: string
    var password: string
    var confirmPassword: string
    var gender: string
    var acceptedTerms: bool

    /** The name field never holds a space in the first name, and the two halves rebuild the text. */
    ghost predicate Valid()
      reads this
    {
      ' ' !in firstName && NameSplits(nameText, firstName, lastName)
    }

    constructor ()
      ensures Valid() && Fields() == Registration("", "", "", "", "", "", false) && nameText == ""
    {
      nameText, firstName, lastName := "", "", "";
      email, password, confirmPassword, gender := "", "", "", "";
      acceptedTerms := false;
    }

    function Fields(): Registration
      reads this
    {
      Registration(firstName, lastName, email, password, confirmPassword, gender, acceptedTerms)
    }

    /** What the name field shows. */
    function NameField(): string
      reads this
    {
      nameText
    }

    /** An edit of the name field: first name up to the first space, the rest as last name. */
    method OnNameChange(text: string)
      requires Valid()
      modifies this
      ensures Valid()
      ensures NameField() == text
      ensures (firstName, lastName) == SplitAtFirstSpace(text)
      ensures Fields() == old(Fields()).(firstName := firstName, lastName := lastName)
    {
      var names := SplitAtFirstSpace(text);
      nameText := text;
      firstName, lastName := names.0, names.1;
    }

    /**
     * The Kickstart button: the checks first, and `register` only when all pass; on
     * success the profile is written, and the screen moves on only if that write succeeds.
     */
    method Kickstart(emailMatches: string -> bool, auth: AuthResult, profileWrite: (bool, string))
      returns (outcome: Outcome)
      ensures var check := ValidateRegistration(Fields(), emailMatches);
        && (check.Some? ==> outcome == Rejected(check.value))
        && (check.None? && auth.AuthError? ==> outcome == AuthFailed(auth.message))
        && (check.None? && auth.AuthOk? ==>
              outcome == (if profileWrite.0 then ProfileSaved(NewProfile(auth.userID, Fields()), profileWrite.1)
                          else ProfileFailed(NewProfile(auth.userID, Fields()), profileWrite.1)))
      ensures outcome.GoesToLogin() ==> Acceptable(Fields(), emailMatches) && auth.AuthOk? && profileWrite.0
    {
      var check := ValidateRegistration(Fields(), emailMatches);
      if check.Some? {
        return Rejected(check.value);
      }
      match auth
      case AuthError(message) =>
        outcome := AuthFailed(message);
      case AuthOk(userID) =>
        var profile := NewProfile(userID, Fields());
        if profileWrite.0 {
          outcome := ProfileSaved(profile, profileWrite.1);
        } else {
          outcome := ProfileFailed(profile, profileWrite.1);
        }
    }
  }

  /** The text is the first name, then, if it had a space, that space and the last name. */
  ghost predicate NameSplits(text: string, firstName: string, lastName: string) {
    if ' ' in text then text == firstName + " " + lastName else text == firstName && lastName == ""
  }

  /** With the typed text kept, nothing typed is lost: a trailing space stays in the field. */
  lemma TypedSpaceIsKept(w: string)
    requires ' ' !in w
    ensures var (first, last) := SplitAtFirstSpace(w + " ");
      first == w && last == "" && NameSplits(w + " ", first, last)
  {
    var (first, last) := SplitAtFirstSpace(w + " ");
    assert (w + " ")[|w|] == ' ';
    assert first + " " + last == w + " ";
    assert forall j :: 0 <= j < |w| ==> (w + " ")[j] == w[j];
  }
}
