/** The pure parts of the authentication utilities: the password-strength
    validator, the failed-login counter with its lockout, and the
    clearance comparison. */
module Auth {
  import opened Types
  import Text
  import Mac

  /** The four character classes the validator searches for. */
  datatype CharClass = Upper | Lower | Digit | Special

  /** The characters of the special-character class `[!@#$%^&*(),.?":{}|<>]`. */
  const SPECIALS: string := "!@#$%^&*(),.?\":{}|<>"

  predicate InClass(c: char, k: CharClass)
  {
    match k
    case Upper => 'A' <= c <= 'Z'
    case Lower => 'a' <= c <= 'z'
    case Digit => '0' <= c <= '9'
    case Special => c in SPECIALS
  }

  /** Some character of `s` is in the class. */
  predicate Has(s: string, k: CharClass)
  {
    exists i :: 0 <= i < |s| && InClass(s[i], k)
  }

  /** `/[class]/.test(s)`: a left-to-right scan for a character of the class. */
  function Test(s: string, k: CharClass): (r: bool)
    ensures r <==> Has(s, k)
    decreases |s|
  {
    if |s| == 0 then false
    else if InClass(s[0], k) then true
    else
      var r := Test(s[1..], k);
      assert forall i :: 1 <= i < |s| ==> s[i] == s[1..][i - 1];
      r
  }

  const TOO_SHORT: string := "Password must be at least 8 characters long"
  const NO_UPPER: string := "Password must contain at least one uppercase letter"
  const NO_LOWER: string := "Password must contain at least one lowercase letter"
  const NO_DIGIT: string := "Password must contain at least one number"
  const NO_SPECIAL: string := "Password must contain at least one special character"

  /** `password.length >= 8`, where JavaScript counts UTF-16 code units. */
  predicate LongEnough(password: string)
  {
    Text.Utf16Length(password) >= 8
  }

  datatype PasswordCheck = PasswordCheck(valid: bool, error: Option<string>)

  /** validatePassword: valid exactly when the password is at least 8 UTF-16
      code units long and has an upper-case letter, a lower-case letter, a
      digit and a special character; otherwise the error is the one for the
      first failing check in that order. */
  function ValidatePassword(password: string): (r: PasswordCheck)
    ensures r.valid <==> LongEnough(password) && Has(password, Upper) && Has(password, Lower)
                         && Has(password, Digit) && Has(password, Special)
    ensures r.valid <==> r.error.None?
    ensures !LongEnough(password) ==> r.error == Some(TOO_SHORT)
    ensures LongEnough(password) && !Has(password, Upper) ==> r.error == Some(NO_UPPER)
    ensures LongEnough(password) && Has(password, Upper) && !Has(password, Lower) ==>
              r.error == Some(NO_LOWER)
    ensures LongEnough(password) && Has(password, Upper) && Has(password, Lower) && !Has(password, Digit) ==>
              r.error == Some(NO_DIGIT)
    ensures LongEnough(password) && Has(password, Upper) && Has(password, Lower) && Has(password, Digit)
            && !Has(password, Special) ==>
              r.error == Some(NO_SPECIAL)
  {
    if Text.Utf16Length(password) < 8 then PasswordCheck(false, Some(TOO_SHORT))
    else if !Test(password, Upper) then PasswordCheck(false, Some(NO_UPPER))
    else if !Test(password, Lower) then PasswordCheck(false, Some(NO_LOWER))
    else if !Test(password, Digit) then PasswordCheck(false, Some(NO_DIGIT))
    else if !Test(password, Special) then PasswordCheck(false, Some(NO_SPECIAL))
    else PasswordCheck(true, None)
  }

  /** Length is counted in UTF-16 code units: four ASCII characters and
      one emoji measure six, and four ASCII characters (one of each class)
      with three emoji reach the minimum of eight and pass. */
  lemma LengthCountsCodeUnits()
    ensures Text.Utf16Length("Aa1!\U{1F600}") == 6
    ensures ValidatePassword("Aa1!\U{1F600}\U{1F600}\U{1F600}").valid
  {
    var head, smiley := "Aa1!", "\U{1F600}";
    assert Text.Utf16Length(smiley) == 2;
    Text.Utf16LengthConcat(head, smiley);
    assert head + smiley == "Aa1!\U{1F600}";
    var p := head + smiley + smiley + smiley;
    assert p == "Aa1!\U{1F600}\U{1F600}\U{1F600}";
    Text.Utf16LengthConcat(head + smiley, smiley);
    Text.Utf16LengthConcat(head + smiley + smiley, smiley);
    assert LongEnough(p);
    assert InClass(p[0], Upper) && InClass(p[1], Lower) && InClass(p[2], Digit) && InClass(p[3], Special);
    assert Has(p, Upper) && Has(p, Lower) && Has(p, Digit) && Has(p, Special);
    assert ValidatePassword(p).valid;
  }

  /** The number of consecutive failures at which an account locks. */
  const LOCKOUT_THRESHOLD: nat := 5

  /** checkAccountLockout: the stored lock flag; an unknown user is not locked. */
  function CheckAccountLockout(users: map<string, User>, userId: string): (locked: bool)
    ensures userId !in users ==> !locked
    ensures userId in users ==> locked == users[userId].isLocked
  {
    if userId in users then users[userId].isLocked else false
  }

  /** An audit-log row written by the lockout logic. */
  datatype AuditEntry = AuditEntry(userId: string, action: string, status: LogStatus, reason: string)

  const LOCK_EVENT: string := "account_locked"

  /** The store after a failed login, and the audit row written, if any. */
  datatype IncrementOutcome = IncrementOutcome(users: map<string, User>, audit: Option<AuditEntry>)

  /** incrementFailedAttempts: raise the counter by one and recompute the
      lock flag as `count >= 5`; a DENIED audit row is written exactly when
      the flag is set. Updating an unknown user raises the store's error
      and writes nothing. */
  function IncrementFailedAttempts(users: map<string, User>, userId: string): (r: Result<IncrementOutcome, string>)
    ensures r.Failure? <==> userId !in users
    ensures r.Failure? ==> r.error == UPDATE_NOT_FOUND
    ensures r.Success? ==>
              var u := users[userId];
              && r.value.users.Keys == users.Keys
              && r.value.users[userId].failedLoginAttempts == u.failedLoginAttempts + 1
              && (r.value.users[userId].isLocked <==> u.failedLoginAttempts + 1 >= LOCKOUT_THRESHOLD)
              && r.value.users[userId] == u.(failedLoginAttempts := r.value.users[userId].failedLoginAttempts,
                                             isLocked := r.value.users[userId].isLocked)
              && (forall other :: other in users && other != userId ==> r.value.users[other] == users[other])
              && (r.value.audit.Some? <==> r.value.users[userId].isLocked)
              && (r.value.audit.Some? ==>
                    r.value.audit.value == AuditEntry(userId, LOCK_EVENT, DENIED, "Too many failed login attempts"))
  {
    var attempts := (if userId in users then users[userId].failedLoginAttempts else 0) + 1;
    var shouldLock := attempts >= LOCKOUT_THRESHOLD;
    if userId !in users then Failure(UPDATE_NOT_FOUND)
    else
      var users' := users[userId := users[userId].(failedLoginAttempts := attempts, isLocked := shouldLock)];
      var audit := if shouldLock then Some(AuditEntry(userId, LOCK_EVENT, DENIED, "Too many failed login attempts"))
                   else None;
      Success(IncrementOutcome(users', audit))
  }

  /** resetFailedAttempts: zero the counter and clear the lock. */
  function ResetFailedAttempts(users: map<string, User>, userId: string): (r: Result<map<string, User>, string>)
    ensures r.Failure? <==> userId !in users
    ensures r.Failure? ==> r.error == UPDATE_NOT_FOUND
    ensures r.Success? ==>
              && r.value.Keys == users.Keys
              && r.value[userId] == users[userId].(failedLoginAttempts := 0, isLocked := false)
              && !CheckAccountLockout(r.value, userId)
              && forall other :: other in users && other != userId ==> r.value[other] == users[other]
  {
    if userId in users then Success(users[userId := users[userId].(failedLoginAttempts := 0, isLocked := false)])
    else Failure(UPDATE_NOT_FOUND)
  }

  /** `n` failed logins in a row. */
  function FailTimes(users: map<string, User>, userId: string, n: nat): Result<map<string, User>, string>
    decreases n
  {
    if n == 0 then Success(users)
    else
      match IncrementFailedAttempts(users, userId)
      case Failure(e) => Failure(e)
      case Success(o) => FailTimes(o.users, userId, n - 1)
  }

  /** After `n > 0` failures in a row the counter has grown by `n` and the
      account is locked exactly when the counter has reached the threshold,
      so it locks on the fifth failure and stays locked on later ones. */
  lemma {:induction false} FailuresLockAtThreshold(users: map<string, User>, userId: string, n: nat)
    requires userId in users
    ensures var r := FailTimes(users, userId, n);
            && r.Success? && userId in r.value && r.value.Keys == users.Keys
            && r.value[userId].failedLoginAttempts == users[userId].failedLoginAttempts + n
            && (n > 0 ==> (r.value[userId].isLocked <==> users[userId].failedLoginAttempts + n >= LOCKOUT_THRESHOLD))
    decreases n
  {
    if n > 0 {
      var o := IncrementFailedAttempts(users, userId).value;
      FailuresLockAtThreshold(o.users, userId, n - 1);
    }
  }

  /** From a freshly reset account, `n` failures lock it exactly when `n >= 5`. */
  lemma ResetThenFailures(users: map<string, User>, userId: string, n: nat)
    requires userId in users && n > 0
    ensures var reset := ResetFailedAttempts(users, userId).value;
            var r := FailTimes(reset, userId, n);
            r.Success? && (CheckAccountLockout(r.value, userId) <==> n >= 5)
  {
    var reset := ResetFailedAttempts(users, userId).value;
    FailuresLockAtThreshold(reset, userId, n);
  }

  /** hasClearance: its own copy of the ordinal table. */
  function HasClearance(userLevel: SecurityLevel, resourceLevel: SecurityLevel): (r: bool)
    ensures r == Mac.CheckMac(userLevel, resourceLevel).allowed
  {
    var rank := (l: SecurityLevel) => match l case PUBLIC => 1 case INTERNAL => 2 case CONFIDENTIAL => 3;
    rank(userLevel) >= rank(resourceLevel)
  }
}
