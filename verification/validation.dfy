/** Field validators of server/utils/ValidationUtil.js. */
module Validation {
  import opened Common
  import opened StringUtil

  /** The field names of a registration request body, which are also the keys
      an `errors` object can carry (plus `general`, used by the data-access layer). */
  datatype Field =
    | FirstName | LastName | Email | Password
    | AddressLine1 | AddressLine2 | City | State | PostalCode | Country
    | General

  /** An `errors` object: at most one message per field. */
  type Errors = map<Field, string>

  /** The JSON body of a registration request (`req.body`); both validators read
      it. A field is `None` when it is absent or `null`. */
  datatype Payload = Payload(
    first_name: Option<string>,
    last_name: Option<string>,
    email: Option<string>,
    password: Option<string>,
    address_line1: Option<string>,
    address_line2: Option<string>,
    city: Option<string>,
    state: Option<string>,
    postal_code: Option<string>,
    country: Option<string>)

  const FirstNameRequired := "First name is required"
  const EmailRequired := "Email is required"
  const EmailInvalid := "Please enter a valid email address"
  const PasswordRequired := "Password is required"
  const PasswordTooWeak :=
    "Password must contain at least 8 characters, one uppercase, one lowercase, one number and one special character"
  const AddressLine1Required := "Address line 1 is required"
  const CityRequired := "City is required"
  const StateRequired := "State is required"
  const PostalCodeRequired := "Postal code is required"
  const CountryRequired := "Country is required"

  // ---------------------------------------------------------------------------
  // The password pattern /^(?=.*[a-z])(?=.*[A-Z])(?=.*\d)(?=.*[@$!%*?&])[A-Za-z\d@$!%*?&]{8,}$/

  predicate IsLower(c: char) { 'a' <= c <= 'z' }
  predicate IsUpper(c: char) { 'A' <= c <= 'Z' }
  predicate IsDigit(c: char) { '0' <= c <= '9' }
  predicate IsPasswordSymbol(c: char) { c in "@$!%*?&" }
  predicate IsPasswordChar(c: char) { IsLower(c) || IsUpper(c) || IsDigit(c) || IsPasswordSymbol(c) }

  /** The password pattern read literally: eight or more characters of the class
      `[A-Za-z\d@$!%*?&]`, with each of the four lookaheads finding its character.
      (The lookaheads' `.` does not match line terminators, but the class already
      rules those out.) */
  predicate MatchesPasswordPattern(p: string)
  {
    && |p| >= 8
    && (forall i | 0 <= i < |p| :: IsPasswordChar(p[i]))
    && (exists i | 0 <= i < |p| :: IsLower(p[i]))
    && (exists i | 0 <= i < |p| :: IsUpper(p[i]))
    && (exists i | 0 <= i < |p| :: IsDigit(p[i]))
    && (exists i | 0 <= i < |p| :: IsPasswordSymbol(p[i]))
  }

  // ---------------------------------------------------------------------------
  // The email pattern /^[^\s@]+@[^\s@]+\.[^\s@]+$/

  /** `s` is a run of the class `[^\s@]`. */
  predicate NoSpaceOrAt(s: string)
  {
    forall i | 0 <= i < |s| :: !IsWhitespace(s[i]) && s[i] != '@'
  }

  /** The email pattern read as the regular expression does: some split of `s`
      into a non-empty local part, `@`, a non-empty run, `.`, and a non-empty run,
      none of the three runs holding whitespace or `@`. */
  ghost predicate MatchesEmailPattern(s: string)
  {
    exists at, dot | 0 < at && at + 1 < dot && dot + 1 < |s| ::
      && s[at] == '@' && s[dot] == '.'
      && NoSpaceOrAt(s[..at]) && NoSpaceOrAt(s[at + 1..dot]) && NoSpaceOrAt(s[dot + 1..])
  }

  /** Position of the first `@` in `s`, or `|s|` when there is none. */
  function FirstAt(s: string): (k: nat)
    ensures k <= |s|
    ensures k < |s| ==> s[k] == '@'
    ensures forall i | 0 <= i < k :: s[i] != '@'
  {
    if s == [] || s[0] == '@' then 0 else 1 + FirstAt(s[1..])
  }

  /** A single-pass reading of the email pattern: no whitespace anywhere, exactly
      one `@`, not in first place, and a `.` strictly inside the text after it. */
  predicate EmailOk(s: string)
  {
    && (forall i | 0 <= i < |s| :: !IsWhitespace(s[i]))
    && var at := FirstAt(s);
       && 0 < at < |s|
       && (forall i | at < i < |s| :: s[i] != '@')
       && (exists d | at + 1 < d < |s| - 1 :: s[d] == '.')
  }

  /** The scan and the regular expression accept the same strings. */
  lemma EmailOkIffPattern(s: string)
    ensures EmailOk(s) <==> MatchesEmailPattern(s)
  {
    if EmailOk(s) {
      var at := FirstAt(s);
      var dot :| at + 1 < dot < |s| - 1 && s[dot] == '.';
      assert NoSpaceOrAt(s[..at]);
      assert NoSpaceOrAt(s[at + 1..dot]);
      assert NoSpaceOrAt(s[dot + 1..]);
    }
    if MatchesEmailPattern(s) {
      var at, dot :| 0 < at && at + 1 < dot && dot + 1 < |s|
        && s[at] == '@' && s[dot] == '.'
        && NoSpaceOrAt(s[..at]) && NoSpaceOrAt(s[at + 1..dot]) && NoSpaceOrAt(s[dot + 1..]);
      forall i | 0 <= i < |s| ensures !IsWhitespace(s[i]) && (i != at ==> s[i] != '@') {
        if i < at { assert s[i] == s[..at][i]; }
        else if at < i < dot { assert s[i] == s[at + 1..dot][i - at - 1]; }
        else if dot < i { assert s[i] == s[dot + 1..][i - dot - 1]; }
      }
      assert FirstAt(s) == at;
    }
  }

  // ---------------------------------------------------------------------------
  // validateUserData

  /** The fields `validateUserData` checks; `last_name` is not among them. */
  const UserDataFields: set<Field> := {FirstName, Email, Password}

  /** A one-entry `errors` object for `f` when `msg` is present, else `{}`. */
  function Entry(f: Field, msg: Option<string>): (errors: Errors)
    ensures f in errors <==> msg.Some?
    ensures errors.Keys <= {f}
    ensures f in errors ==> errors[f] == msg.value
  {
    if msg.Some? then map[f := msg.value] else map[]
  }

  /** The message the first-name check records, if any. */
  function FirstNameError(u: Payload): Option<string>
  {
    if IsEmptyOrNull(u.first_name) then Some(FirstNameRequired) else None
  }

  /** The message the email check records, if any. */
  function EmailError(u: Payload): Option<string>
  {
    if IsEmptyOrNull(u.email) then Some(EmailRequired)
    else if !EmailOk(u.email.value) then Some(EmailInvalid)
    else None
  }

  /** The message the password check records, if any. */
  function PasswordError(u: Payload): Option<string>
  {
    if IsEmptyOrNull(u.password) then Some(PasswordRequired)
    else if !MatchesPasswordPattern(u.password.value) then Some(PasswordTooWeak)
    else None
  }

  /** The `errors` object `validateUserData` returns: one entry for every checked
      field that fails its check, and nothing else. */
  function UserDataErrors(u: Payload): (errors: Errors)
    ensures errors.Keys <= UserDataFields
    ensures LastName !in errors
    ensures FirstName in errors <==> IsEmptyOrNull(u.first_name)
    ensures FirstName in errors ==> errors[FirstName] == FirstNameRequired
    ensures Email in errors <==> IsEmptyOrNull(u.email) || !EmailOk(u.email.value)
    ensures Password in errors <==> IsEmptyOrNull(u.password) || !MatchesPasswordPattern(u.password.value)
  {
    Entry(FirstName, FirstNameError(u)) + Entry(Email, EmailError(u)) + Entry(Password, PasswordError(u))
  }

  /** The payload passes `validateUserData`. */
  predicate IsValidUserData(u: Payload)
  {
    UserDataErrors(u) == map[]
  }

  /** A valid payload has a first name, a well-formed email and a password
      meeting the complexity rule; in particular none of the three is absent. */
  lemma ValidUserDataFields(u: Payload)
    requires IsValidUserData(u)
    ensures u.first_name.Some? && u.email.Some? && u.password.Some?
    ensures !IsEmptyOrNull(u.first_name)
    ensures MatchesEmailPattern(u.email.value)
    ensures MatchesPasswordPattern(u.password.value)
  {
    assert FirstName !in UserDataErrors(u) && Email !in UserDataErrors(u) && Password !in UserDataErrors(u);
    EmailOkIffPattern(u.email.value);
  }

  /** `errors` agrees with `validateUserData` on field `f`, whose check records
      `msg`: an entry exactly when `msg` is present, holding that message. */
  ghost predicate Records(errors: Errors, f: Field, msg: Option<string>)
  {
    && (f in errors <==> msg.Some?)
    && (f in errors ==> errors[f] == msg.value)
  }

  /** Agreement on each checked field, and no other key, is the whole result. */
  lemma RecordsAllUserData(errors: Errors, u: Payload)
    requires errors.Keys <= UserDataFields
    requires Records(errors, FirstName, FirstNameError(u))
    requires Records(errors, Email, EmailError(u))
    requires Records(errors, Password, PasswordError(u))
    ensures errors == UserDataErrors(u)
  {
    var expected := UserDataErrors(u);
    assert errors.Keys == expected.Keys;
  }

  /** `validateUserData`: runs the three checks one after another, each adding its
      message to `errors` and clearing `isOk` when it fails. */
  method ValidateUserData(u: Payload) returns (isValid: bool, errors: Errors)
    ensures errors == UserDataErrors(u)
    ensures isValid <==> errors == map[]
  {
    errors := map[];
    var isOk := true;

    if IsEmptyOrNull(u.first_name) {
      errors := errors[FirstName := FirstNameRequired];
      isOk := false;
    }
    assert Records(errors, FirstName, FirstNameError(u)) && errors.Keys <= {FirstName};
    assert isOk <==> errors == map[] by {
      if !isOk { assert FirstName in errors; }
    }

    if IsEmptyOrNull(u.email) {
      errors := errors[Email := EmailRequired];
      isOk := false;
    } else if !EmailOk(u.email.value) {
      errors := errors[Email := EmailInvalid];
      isOk := false;
    }
    assert Records(errors, FirstName, FirstNameError(u)) && Records(errors, Email, EmailError(u));
    assert errors.Keys <= {FirstName, Email};
    assert isOk <==> errors == map[] by {
      if !isOk { assert FirstName in errors || Email in errors; }
    }

    if IsEmptyOrNull(u.password) {
      errors := errors[Password := PasswordRequired];
      isOk := false;
    } else if !MatchesPasswordPattern(u.password.value) {
      errors := errors[Password := PasswordTooWeak];
      isOk := false;
    }
    assert Records(errors, FirstName, FirstNameError(u)) && Records(errors, Email, EmailError(u));
    assert Records(errors, Password, PasswordError(u));
    assert errors.Keys <= UserDataFields;
    assert isOk <==> errors == map[] by {
      if !isOk { assert FirstName in errors || Email in errors || Password in errors; }
    }

    RecordsAllUserData(errors, u);
    isValid := isOk;
  }

  /** `errors.email`: "Email is required" for an empty email; otherwise the
      invalid-address message exactly when the email does not have the
      `local@domain.tld` shape of the pattern, and no entry when it does. */
  lemma EmailErrorCases(u: Payload)
    ensures IsEmptyOrNull(u.email) ==> Email in UserDataErrors(u) && UserDataErrors(u)[Email] == EmailRequired
    ensures !IsEmptyOrNull(u.email) ==>
      && (Email in UserDataErrors(u) <==> !MatchesEmailPattern(u.email.value))
      && (Email in UserDataErrors(u) ==> UserDataErrors(u)[Email] == EmailInvalid)
  {
    if !IsEmptyOrNull(u.email) {
      EmailOkIffPattern(u.email.value);
    }
  }

  /** `errors.password`: "Password is required" for an empty password; a
      non-empty password is accepted exactly when it meets the complexity rule,
      and otherwise gets the complexity message. */
  lemma PasswordErrorCases(u: Payload)
    ensures IsEmptyOrNull(u.password) ==> Password in UserDataErrors(u) && UserDataErrors(u)[Password] == PasswordRequired
    ensures !IsEmptyOrNull(u.password) ==>
      && (Password in UserDataErrors(u) <==> !MatchesPasswordPattern(u.password.value))
      && (Password in UserDataErrors(u) ==> UserDataErrors(u)[Password] == PasswordTooWeak)
  {
  }

  /** The rule alone decides: a password meeting the pattern is never blank, so
      it never draws "Password is required" either. */
  lemma {:induction false} PatternPasswordIsNotEmpty(p: string)
    requires MatchesPasswordPattern(p)
    ensures !IsEmptyOrNull(Some(p))
  {
    var i :| 0 <= i < |p| && IsLower(p[i]);
    assert !IsWhitespace(p[i]);
  }

  /** Likewise an email of the right shape is never blank. */
  lemma PatternEmailIsNotEmpty(s: string)
    requires MatchesEmailPattern(s)
    ensures !IsEmptyOrNull(Some(s))
  {
    var at, dot :| 0 < at && at + 1 < dot && dot + 1 < |s|
      && s[at] == '@' && s[dot] == '.'
      && NoSpaceOrAt(s[..at]) && NoSpaceOrAt(s[at + 1..dot]) && NoSpaceOrAt(s[dot + 1..]);
    assert !IsWhitespace(s[at]);
  }

  // ---------------------------------------------------------------------------
  // validateUserAddress

  /** The address fields `validateUserAddress` requires; `address_line2` is not
      among them. */
  const AddressFields: set<Field> := {AddressLine1, City, State, PostalCode, Country}

  /** The value of address field `f` in `a`. */
  function AddressValue(a: Payload, f: Field): Option<string>
    requires f in AddressFields
  {
    match f
    case AddressLine1 => a.address_line1
    case City => a.city
    case State => a.state
    case PostalCode => a.postal_code
    case Country => a.country
  }

  /** The "is required" message of address field `f`. */
  function AddressMessage(f: Field): string
    requires f in AddressFields
  {
    match f
    case AddressLine1 => AddressLine1Required
    case City => CityRequired
    case State => StateRequired
    case PostalCode => PostalCodeRequired
    case Country => CountryRequired
  }

  /** The `errors` object `validateUserAddress` returns: its keys are exactly the
      required address fields that are empty, each with its own message. */
  function AddressErrors(a: Payload): (errors: Errors)
    ensures errors.Keys <= AddressFields
    ensures AddressLine2 !in errors
    ensures forall f | f in AddressFields ::
      (f in errors <==> IsEmptyOrNull(AddressValue(a, f)))
      && (f in errors ==> errors[f] == AddressMessage(f))
  {
    map f | f in AddressFields && IsEmptyOrNull(AddressValue(a, f)) :: AddressMessage(f)
  }

  /** The payload passes `validateUserAddress`. */
  predicate IsValidAddress(a: Payload)
  {
    AddressErrors(a) == map[]
  }

  /** `errors` agrees with `validateUserAddress` on required field `f`. */
  ghost predicate RecordsAddress(errors: Errors, a: Payload, f: Field)
    requires f in AddressFields
  {
    && (f in errors <==> IsEmptyOrNull(AddressValue(a, f)))
    && (f in errors ==> errors[f] == AddressMessage(f))
  }

  /** Agreement on each required field, and no other key, is the whole result. */
  lemma RecordsAllAddress(errors: Errors, a: Payload)
    requires errors.Keys <= AddressFields
    requires forall f | f in AddressFields :: RecordsAddress(errors, a, f)
    ensures errors == AddressErrors(a)
  {
    var expected := AddressErrors(a);
    assert errors.Keys == expected.Keys;
  }

  /** `validateUserAddress`: five presence checks, run one after another, each
      adding its message and clearing `isOk` when it fails. */
  method ValidateUserAddress(a: Payload) returns (isValid: bool, errors: Errors)
    ensures errors == AddressErrors(a)
    ensures isValid <==> errors == map[]
    ensures isValid <==> forall f | f in AddressFields :: !IsEmptyOrNull(AddressValue(a, f))
  {
    errors := map[];
    var isOk := true;

    if IsEmptyOrNull(a.address_line1) {
      errors := errors[AddressLine1 := AddressLine1Required];
      isOk := false;
    }
    assert RecordsAddress(errors, a, AddressLine1);
    assert errors.Keys <= {AddressLine1};
    assert isOk <==> errors == map[] by {
      if !isOk { assert AddressLine1 in errors; }
    }
    if IsEmptyOrNull(a.city) {
      errors := errors[City := CityRequired];
      isOk := false;
    }
    assert RecordsAddress(errors, a, AddressLine1) && RecordsAddress(errors, a, City);
    assert errors.Keys <= {AddressLine1, City};
    assert isOk <==> errors == map[] by {
      if !isOk { assert AddressLine1 in errors || City in errors; }
    }
    if IsEmptyOrNull(a.state) {
      errors := errors[State := StateRequired];
      isOk := false;
    }
    assert RecordsAddress(errors, a, AddressLine1) && RecordsAddress(errors, a, City);
    assert RecordsAddress(errors, a, State);
    assert errors.Keys <= {AddressLine1, City, State};
    assert isOk <==> errors == map[] by {
      if !isOk { assert AddressLine1 in errors || City in errors || State in errors; }
    }
    if IsEmptyOrNull(a.postal_code) {
      errors := errors[PostalCode := PostalCodeRequired];
      isOk := false;
    }
    assert RecordsAddress(errors, a, AddressLine1) && RecordsAddress(errors, a, City);
    assert RecordsAddress(errors, a, State) && RecordsAddress(errors, a, PostalCode);
    assert errors.Keys <= {AddressLine1, City, State, PostalCode};
    assert isOk <==> errors == map[] by {
      if !isOk { assert AddressLine1 in errors || City in errors || State in errors || PostalCode in errors; }
    }
    if IsEmptyOrNull(a.country) {
      errors := errors[Country := CountryRequired];
      isOk := false;
    }
    assert RecordsAddress(errors, a, AddressLine1) && RecordsAddress(errors, a, City);
    assert RecordsAddress(errors, a, State) && RecordsAddress(errors, a, PostalCode);
    assert RecordsAddress(errors, a, Country);
    assert errors.Keys <= AddressFields;
    assert isOk <==> errors == map[] by {
      if !isOk {
        assert AddressLine1 in errors || City in errors || State in errors || PostalCode in errors || Country in errors;
      }
    }

    assert forall f | f in AddressFields :: RecordsAddress(errors, a, f);
    RecordsAllAddress(errors, a);
    isValid := isOk;
  }
}
