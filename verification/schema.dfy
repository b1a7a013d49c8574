/** The registration validators of `UserCreate` (app/schema.py): each is a
    chain of checks that returns its input unchanged or fails with the
    message of the first check that does not hold. */
module Schema {

  datatype Validation = Accepted(value: string) | Rejected(message: string)

  const UsernameTooShort := "Username must be at least 3 characters"
  const UsernameNotAlphanumeric := "Username must be alphanumeric"
  const PasswordTooShort := "Password must be at least 8 characters"
  const PasswordNoUpper := "Password must contain uppercase letter"
  const PasswordNoLower := "Password must contain lowercase letter"
  const PasswordNoDigit := "Password must contain a number"

  const MinUsernameLength := 3
  const MinPasswordLength := 8

  // ASCII character classes: the `[A-Z]` and `[a-z]` of the password checks are
  // exactly these; `str.isalnum` and `\d` also accept other Unicode letters and
  // digits, which the model does not.
  predicate IsUpper(ch: char) { 'A' <= ch <= 'Z' }
  predicate IsLower(ch: char) { 'a' <= ch <= 'z' }
  predicate IsDigit(ch: char) { '0' <= ch <= '9' }
  predicate IsAlnum(ch: char) { IsUpper(ch) || IsLower(ch) || IsDigit(ch) }

  /** `re.search` of a one-character class: scans `s` for a character of the class. */
  function Search(s: string, charClass: char -> bool): (found: bool)
    ensures found <==> exists i :: 0 <= i < |s| && charClass(s[i])
  {
    if s == [] then false
    else if charClass(s[0]) then true
    else
      var found := Search(s[1..], charClass);
      assert forall i :: 1 <= i < |s| ==> s[i] == s[1..][i - 1];
      found
  }

  /** `str.isalnum`: non-empty and every character alphanumeric. */
  predicate AllAlnum(s: string) {
    |s| > 0 && forall i :: 0 <= i < |s| ==> IsAlnum(s[i])
  }

  function ValidateUsername(v: string): (r: Validation)
    ensures r.Accepted? <==> |v| >= MinUsernameLength && AllAlnum(v)
    ensures r.Accepted? ==> r.value == v
    ensures |v| < MinUsernameLength ==> r == Rejected(UsernameTooShort)
    ensures |v| >= MinUsernameLength && !AllAlnum(v) ==> r == Rejected(UsernameNotAlphanumeric)
  {
    if |v| < MinUsernameLength then Rejected(UsernameTooShort)
    else if !AllAlnum(v) then Rejected(UsernameNotAlphanumeric)
    else Accepted(v)
  }

  function ValidatePassword(v: string): (r: Validation)
    ensures r.Accepted? <==>
      |v| >= MinPasswordLength && Search(v, IsUpper) && Search(v, IsLower) && Search(v, IsDigit)
    ensures r.Accepted? ==> r.value == v
    ensures |v| < MinPasswordLength ==> r == Rejected(PasswordTooShort)
    ensures |v| >= MinPasswordLength && !Search(v, IsUpper) ==> r == Rejected(PasswordNoUpper)
    ensures |v| >= MinPasswordLength && Search(v, IsUpper) && !Search(v, IsLower) ==>
      r == Rejected(PasswordNoLower)
    ensures |v| >= MinPasswordLength && Search(v, IsUpper) && Search(v, IsLower) && !Search(v, IsDigit) ==>
      r == Rejected(PasswordNoDigit)
  {
    if |v| < MinPasswordLength then Rejected(PasswordTooShort)
    else if !Search(v, IsUpper) then Rejected(PasswordNoUpper)
    else if !Search(v, IsLower) then Rejected(PasswordNoLower)
    else if !Search(v, IsDigit) then Rejected(PasswordNoDigit)
    else Accepted(v)
  }

  /** Validating an accepted username again accepts it again, unchanged. */
  lemma UsernameRevalidates(v: string)
    requires ValidateUsername(v).Accepted?
    ensures ValidateUsername(ValidateUsername(v).value) == Accepted(v)
  {
  }

  lemma PasswordRevalidates(v: string)
    requires ValidatePassword(v).Accepted?
    ensures ValidatePassword(ValidatePassword(v).value) == Accepted(v)
  {
  }

  /** The length check comes first: a name gets the length error exactly
      when it is short, whatever its characters, and the alphanumeric error
      exactly when it is long enough but not alphanumeric. */
  lemma ShortNameReportsLength(v: string)
    ensures ValidateUsername(v) == Rejected(UsernameTooShort) <==> |v| < MinUsernameLength
    ensures ValidateUsername(v) == Rejected(UsernameNotAlphanumeric) <==>
      |v| >= MinUsernameLength && !AllAlnum(v)
  {
  }

  /** Only the first failing password check is reported, and each message
      names exactly one situation: the length for every short password,
      whatever else it lacks; for a long one, the first missing class in the
      order upper, lower, digit. */
  lemma PasswordLengthFirst(v: string)
    ensures ValidatePassword(v) == Rejected(PasswordTooShort) <==> |v| < MinPasswordLength
  {
  }

  lemma PasswordUpperBeforeLower(v: string)
    ensures ValidatePassword(v) == Rejected(PasswordNoUpper) <==>
      |v| >= MinPasswordLength && !Search(v, IsUpper)
  {
  }

  lemma PasswordLowerBeforeDigit(v: string)
    ensures ValidatePassword(v) == Rejected(PasswordNoLower) <==>
      |v| >= MinPasswordLength && Search(v, IsUpper) && !Search(v, IsLower)
  {
  }

  lemma PasswordDigitLast(v: string)
    ensures ValidatePassword(v) == Rejected(PasswordNoDigit) <==>
      |v| >= MinPasswordLength && Search(v, IsUpper) && Search(v, IsLower) && !Search(v, IsDigit)
  {
  }

  /** A password is accepted, unchanged, exactly when all four checks hold. */
  lemma PasswordAccepted(v: string)
    ensures ValidatePassword(v) == Accepted(v) <==>
      |v| >= MinPasswordLength && Search(v, IsUpper) && Search(v, IsLower) && Search(v, IsDigit)
  {
  }
}
