/** The account and verification-token lifecycle of the user routes: signup with its
    input checks, one-time codes (OTP) that expire after an hour, verification links that
    expire after six hours, sign-in, password change and account deletion.

    The user collection is a map from `_id` to User; each token collection is a map from
    user id to that user's records in insertion order, so `find({userId})[0]` is the head
    of the sequence and `deleteOne({userId})` drops it. bcrypt is the Hash datatype below;
    the clock, the random code, the uuid and the salts are parameters. */
module Credentials {
  import opened Common

  /** One hour, the lifetime of an OTP record. */
  const OtpLifetimeMs := 3600000
  /** Six hours, the lifetime of a verification-link record. */
  const LinkLifetimeMs := 21600000
  const MinPasswordLength := 8

  /** A bcrypt hash: it remembers what was hashed; the salt stands for bcrypt's random salt,
      so two hashes of one string may differ while both compare equal to it. */
  datatype Hash = Hashed(source: string, salt: nat)

  /** `bcrypt.compare(plain, h)`, idealised: true exactly for the string that was hashed. */
  predicate Compare(plain: string, h: Hash)
  {
    h.source == plain
  }

  /** `bcrypt.hash(plain, saltRounds)`. */
  function HashOf(plain: string, salt: nat): (h: Hash)
    ensures forall q :: Compare(q, h) <==> q == plain
  {
    Hashed(plain, salt)
  }

  datatype User = User(name: string, email: string, password: Hash, verified: bool)

  /** A UserOTPVerification or UserVerification document, minus its `userId` (the map key). */
  datatype Token = Token(secret: Hash, createdAt: int, expiresAt: int)

  /** The record `sendOTPVerificationEmail` saves for the four-digit code `otp`. */
  function OtpToken(otp: nat, salt: nat, now: int): (t: Token)
    requires 1000 <= otp <= 9999
    ensures t.createdAt == now && t.expiresAt == now + OtpLifetimeMs
    ensures forall c :: Compare(c, t.secret) <==> c == DecimalString(otp)
    ensures |DecimalString(otp)| == 4 && DecimalValue(DecimalString(otp)) == otp
  {
    FourDigitRendering(otp);
    DecimalRoundTrip(otp);
    Token(HashOf(DecimalString(otp), salt), now, now + OtpLifetimeMs)
  }

  /** The record `sendVerificationEmail` saves; the emailed string is `uuid + userId`. */
  function LinkToken(uuid: string, userId: UserId, salt: nat, now: int): (t: Token)
    ensures t.createdAt == now && t.expiresAt == now + LinkLifetimeMs
    ensures forall c :: Compare(c, t.secret) <==> c == uuid + userId
  {
    Token(HashOf(uuid + userId, salt), now, now + LinkLifetimeMs)
  }

  /** The records stored for `id`, oldest first. */
  function Pending(m: map<UserId, seq<Token>>, id: UserId): seq<Token>
  {
    if id in m then m[id] else []
  }

  // ---------------------------------------------------------------------------
  // Signup input checks (`/^[a-zA-Z ]*$/` and `/^[\w-\.]+@([\w-]+\.)+[\w-]{2,4}$/`)

  predicate IsNameChar(c: char)
  {
    'a' <= c <= 'z' || 'A' <= c <= 'Z' || c == ' '
  }

  predicate IsName(s: string)
  {
    forall k :: 0 <= k < |s| ==> IsNameChar(s[k])
  }

  /** `\w` without the `u` flag. */
  predicate IsWordChar(c: char)
  {
    'a' <= c <= 'z' || 'A' <= c <= 'Z' || '0' <= c <= '9' || c == '_'
  }

  /** `[\w-\.]`: word characters, hyphen and dot. */
  predicate IsLocalChar(c: char)
  {
    IsWordChar(c) || c == '-' || c == '.'
  }

  /** `[\w-]`. */
  predicate IsLabelChar(c: char)
  {
    IsWordChar(c) || c == '-'
  }

  /** `[\w-]+`. */
  predicate IsLabel(s: string)
  {
    |s| > 0 && forall k :: 0 <= k < |s| ==> IsLabelChar(s[k])
  }

  /** `([\w-]+\.)+`: one or more labels, each followed by a dot. */
  predicate IsDottedLabels(s: string)
    decreases |s|
  {
    exists j :: 0 < j < |s| && s[j] == '.' && IsLabel(s[..j])
                && (j == |s| - 1 || IsDottedLabels(s[j + 1..]))
  }

  /** `([\w-]+\.)+[\w-]{2,4}`. */
  predicate IsDomain(d: string)
  {
    exists j :: 0 < j <= |d| - 2 && IsDottedLabels(d[..j]) && IsLabel(d[j..]) && |d| - j <= 4
  }

  /** The whole signup email pattern, anchored at both ends. */
  predicate IsEmail(s: string)
  {
    exists i :: 0 < i < |s| && s[i] == '@'
                && (forall k :: 0 <= k < i ==> IsLocalChar(s[k]))
                && IsDomain(s[i + 1..])
  }

  lemma {:induction false} DottedLabelsHaveNoAt(s: string)
    requires IsDottedLabels(s)
    ensures forall k :: 0 <= k < |s| ==> s[k] != '@'
    decreases |s|
  {
    var j :| 0 < j < |s| && s[j] == '.' && IsLabel(s[..j])
             && (j == |s| - 1 || IsDottedLabels(s[j + 1..]));
    if j < |s| - 1 {
      DottedLabelsHaveNoAt(s[j + 1..]);
      assert forall k :: j < k < |s| ==> s[k] == s[j + 1..][k - j - 1];
    }
    assert forall k :: 0 <= k < j ==> s[k] == s[..j][k];
  }

  lemma DomainHasNoAt(d: string)
    requires IsDomain(d)
    ensures forall k :: 0 <= k < |d| ==> d[k] != '@'
  {
    var j :| 0 < j <= |d| - 2 && IsDottedLabels(d[..j]) && IsLabel(d[j..]) && |d| - j <= 4;
    DottedLabelsHaveNoAt(d[..j]);
    forall k | 0 <= k < |d|
      ensures d[k] != '@'
    {
      if k < j {
        assert d[k] == d[..j][k];
      } else {
        assert d[k] == d[j..][k - j];
      }
    }
  }

  /** An accepted address has exactly one `@`, so it splits into one local part and one domain. */
  lemma EmailHasOneAt(s: string, i: int)
    requires IsEmail(s)
    requires 0 <= i < |s| && s[i] == '@'
    ensures forall k :: 0 <= k < |s| && k != i ==> s[k] != '@'
  {
    var i0 :| 0 < i0 < |s| && s[i0] == '@'
              && (forall k :: 0 <= k < i0 ==> IsLocalChar(s[k]))
              && IsDomain(s[i0 + 1..]);
    var d := s[i0 + 1..];
    DomainHasNoAt(d);
    forall k | 0 <= k < |s| && k != i0
      ensures s[k] != '@'
    {
      if k > i0 {
        assert s[k] == d[k - i0 - 1];
      }
    }
  }

  datatype SignupError = EmptyInputFields | InvalidName | InvalidEmail | PasswordTooShort | EmailTaken

  /** The signup checks on the trimmed fields, in the handler's order; the first that fails
      names the rejection. */
  function CheckSignupInput(name: string, email: string, password: string): (r: Option<SignupError>)
    ensures r.None? <==> name != "" && email != "" && password != "" && IsName(name)
                         && IsEmail(email) && Utf16Length(password) >= MinPasswordLength
    ensures r == Some(EmptyInputFields) <==> name == "" || email == "" || password == ""
    ensures r == Some(InvalidName) <==> name != "" && email != "" && password != "" && !IsName(name)
    ensures r == Some(InvalidEmail) <==> name != "" && email != "" && password != "" && IsName(name)
                                         && !IsEmail(email)
    ensures r == Some(PasswordTooShort) <==> name != "" && email != "" && password != ""
                                             && IsName(name) && IsEmail(email)
                                             && Utf16Length(password) < MinPasswordLength
  {
    if name == "" || email == "" || password == "" then Some(EmptyInputFields)
    else if !IsName(name) then Some(InvalidName)
    else if !IsEmail(email) then Some(InvalidEmail)
    else if Utf16Length(password) < MinPasswordLength then Some(PasswordTooShort)
    else None
  }

  /** `User.find({email})` is non-empty. */
  predicate EmailInUse(users: map<UserId, User>, email: string)
  {
    exists id :: id in users && users[id].email == email
  }

  /** No two accounts share an email address: signup refuses a taken address. */
  ghost predicate EmailsUnique(users: map<UserId, User>)
  {
    forall a, b :: a in users && b in users && users[a].email == users[b].email ==> a == b
  }

  /** Every record of a token collection expires `lifetime` after it was created. */
  ghost predicate ExpiresAfter(m: map<UserId, seq<Token>>, lifetime: int)
  {
    forall id, k :: id in m && 0 <= k < |m[id]| ==> m[id][k].expiresAt == m[id][k].createdAt + lifetime
  }

  // ---------------------------------------------------------------------------
  // Sign-in and password change decisions

  datatype SignInOutcome = EmptyCredentials | UnknownEmail | NotVerified | WrongPassword | SignedIn(userId: UserId)

  /** The `/signin` decision over the user collection: unverified accounts are refused
      whatever the password; a verified account signs in exactly when the password matches.
      Unique emails are what the modelled routes keep; `/updateProfile`, which is not part of
      this model, can store a taken email, and the handler then uses the first match. */
  function SignIn(users: map<UserId, User>, email: string, password: string): (r: SignInOutcome)
    requires EmailsUnique(users)
    ensures r == EmptyCredentials <==> Trim(email) == "" || Trim(password) == ""
    ensures r == UnknownEmail <==> Trim(email) != "" && Trim(password) != ""
                                   && !EmailInUse(users, Trim(email))
    ensures r == NotVerified <==> Trim(email) != "" && Trim(password) != ""
                                  && exists id :: id in users && users[id].email == Trim(email)
                                                  && !users[id].verified
    ensures r.SignedIn? <==> Trim(email) != "" && Trim(password) != ""
                             && exists id :: id in users && users[id].email == Trim(email)
                                             && users[id].verified
                                             && Compare(Trim(password), users[id].password)
    ensures r.SignedIn? ==> r.userId in users && users[r.userId].email == Trim(email)
  {
    var e, p := Trim(email), Trim(password);
    if e == "" || p == "" then EmptyCredentials
    else if !EmailInUse(users, e) then UnknownEmail
    else
      var id :| id in users && users[id].email == e;
      if !users[id].verified then NotVerified
      else if Compare(p, users[id].password) then SignedIn(id)
      else WrongPassword
  }

  datatype PasswordError = EmptyPasswordFields | NewPasswordTooShort | UserNotFound | OldPasswordIncorrect

  /** The `/updatePassword` checks, in order; None means the change goes ahead. */
  function CheckPasswordChange(users: map<UserId, User>, userId: UserId, oldPassword: string,
                               newPassword: string): (r: Option<PasswordError>)
    ensures r.None? <==> userId != "" && oldPassword != "" && Utf16Length(newPassword) >= MinPasswordLength
                         && userId in users && Compare(oldPassword, users[userId].password)
    ensures r == Some(EmptyPasswordFields) <==> userId == "" || oldPassword == "" || newPassword == ""
    ensures r == Some(NewPasswordTooShort) <==> userId != "" && oldPassword != "" && newPassword != ""
                                                && Utf16Length(newPassword) < MinPasswordLength
    ensures r == Some(OldPasswordIncorrect) ==> userId in users && !Compare(oldPassword, users[userId].password)
    ensures r == Some(UserNotFound) <==> userId != "" && oldPassword != "" && Utf16Length(newPassword) >= MinPasswordLength
                                         && userId !in users
  {
    if userId == "" || oldPassword == "" || newPassword == "" then Some(EmptyPasswordFields)
    else if Utf16Length(newPassword) < MinPasswordLength then Some(NewPasswordTooShort)
    else if userId !in users then Some(UserNotFound)
    else if !Compare(oldPassword, users[userId].password) then Some(OldPasswordIncorrect)
    else None
  }

  /** The length rule counts UTF-16 code units: four characters outside the Basic Multilingual
      Plane make a long enough new password, four ASCII letters do not. */
  lemma PasswordLengthInCodeUnits(users: map<UserId, User>, userId: UserId, oldPassword: string)
    requires userId != "" && oldPassword != ""
    requires userId in users && Compare(oldPassword, users[userId].password)
    ensures CheckPasswordChange(users, userId, oldPassword, "\U{1F600}\U{1F600}\U{1F600}\U{1F600}").None?
    ensures CheckPasswordChange(users, userId, oldPassword, "abcd") == Some(NewPasswordTooShort)
  {
    var wide: string := "\U{1F600}\U{1F600}\U{1F600}\U{1F600}";
    var c := '\U{1F600}';
    assert wide[..3] == [c, c, c] && [c, c, c][..2] == [c, c] && [c, c][..1] == [c] && [c][..0] == [];
    assert Utf16Length([c]) == 2;
    assert Utf16Length([c, c]) == 4;
    assert Utf16Length([c, c, c]) == 6;
    assert Utf16Length(wide) == 8;
    Utf16LengthOfBmp("abcd");
  }

  /** `User.updateOne({_id: userId}, {verified: true})`: a missing id matches nothing. */
  function MarkVerified(users: map<UserId, User>, userId: UserId): (r: map<UserId, User>)
    ensures r.Keys == users.Keys
    ensures forall id :: id in users && id != userId ==> r[id] == users[id]
    ensures userId in users ==> r[userId] == users[userId].(verified := true)
  {
    if userId in users then users[userId := users[userId].(verified := true)] else users
  }

  // ---------------------------------------------------------------------------
  // Handler outcomes

  /** Whether the mail collaborator accepted the message: "PENDING" or a FAILED reply. */
  datatype Delivery = Delivered | DeliveryFailed

  datatype SignupOutcome = SignupRejected(reason: SignupError) | SignedUp(userId: UserId, delivery: Delivery)

  datatype OtpOutcome = EmptyOtpDetails | NoOtpRecord | OtpExpired | InvalidOtp | OtpVerified

  datatype ResendOutcome = EmptyUserDetails | Resent(delivery: Delivery)

  datatype LinkOutcome = NoLinkRecord | LinkExpired | InvalidLink | LinkVerified

  datatype PasswordOutcome = PasswordRejected(reason: PasswordError) | PasswordUpdated

  datatype DeleteOutcome = UserRecordNotFound | UserDeleted(user: User)

  class AccountStore {
    var users: map<UserId, User>
    var otpRecords: map<UserId, seq<Token>>
    var linkRecords: map<UserId, seq<Token>>

    ghost predicate Valid()
      reads this
    {
      && EmailsUnique(users)
      && ExpiresAfter(otpRecords, OtpLifetimeMs)
      && ExpiresAfter(linkRecords, LinkLifetimeMs)
    }

    constructor ()
      ensures Valid()
      ensures users == map[] && otpRecords == map[] && linkRecords == map[]
    {
      users, otpRecords, linkRecords := map[], map[], map[];
    }

    /** `sendOTPVerificationEmail`: saves one more OTP record for `userId`, then mails the code. */
    method IssueOtp(userId: UserId, now: int, otp: nat, salt: nat, mailSent: bool) returns (d: Delivery)
      requires Valid()
      requires 1000 <= otp <= 9999
      modifies this
      ensures Valid()
      ensures users == old(users) && linkRecords == old(linkRecords)
      ensures otpRecords == old(otpRecords)[userId := old(Pending(otpRecords, userId)) + [OtpToken(otp, salt, now)]]
      ensures d == Delivered <==> mailSent
    {
      var t := OtpToken(otp, salt, now);
      otpRecords := otpRecords[userId := Pending(otpRecords, userId) + [t]];
      d := if mailSent then Delivered else DeliveryFailed;
    }

    /** `/signup`: trims the fields, checks them in order, refuses a taken email, stores the
        new unverified user with the hashed password and issues an OTP for it. The store
        picks the fresh `_id`; the date of birth in the request is not stored. */
    method Signup(name: string, email: string, password: string, newId: UserId, passwordSalt: nat,
                  now: int, otp: nat, otpSalt: nat, mailSent: bool) returns (r: SignupOutcome)
      requires Valid()
      requires newId != "" && newId !in users
      requires 1000 <= otp <= 9999
      modifies this
      ensures Valid()
      ensures linkRecords == old(linkRecords)
      ensures CheckSignupInput(Trim(name), Trim(email), Trim(password)).Some? ==>
                r == SignupRejected(CheckSignupInput(Trim(name), Trim(email), Trim(password)).value)
      ensures r == SignupRejected(EmailTaken) <==>
                CheckSignupInput(Trim(name), Trim(email), Trim(password)).None? && EmailInUse(old(users), Trim(email))
      ensures r.SignupRejected? <==>
                CheckSignupInput(Trim(name), Trim(email), Trim(password)).Some? || EmailInUse(old(users), Trim(email))
      ensures r.SignupRejected? ==> users == old(users) && otpRecords == old(otpRecords)
      ensures r.SignedUp? ==>
                && r.userId == newId
                && users == old(users)[newId := User(Trim(name), Trim(email), HashOf(Trim(password), passwordSalt), false)]
                && otpRecords == old(otpRecords)[newId := old(Pending(otpRecords, newId)) + [OtpToken(otp, otpSalt, now)]]
                && (r.delivery == Delivered <==> mailSent)
    {
      var n, e, p := Trim(name), Trim(email), Trim(password);
      var check := CheckSignupInput(n, e, p);
      if check.Some? {
        return SignupRejected(check.value);
      }
      if EmailInUse(users, e) {
        return SignupRejected(EmailTaken);
      }
      users := users[newId := User(n, e, HashOf(p, passwordSalt), false)];
      var d := IssueOtp(newId, now, otp, otpSalt, mailSent);
      r := SignedUp(newId, d);
    }

    /** `/verifyOTP`: only the oldest record of the user is examined. An expired record
        (strictly before `now`) removes all of the user's OTP records; a wrong code changes
        nothing; the right code marks the user verified and removes all OTP records. */
    method VerifyOtp(userId: UserId, otp: string, now: int) returns (r: OtpOutcome)
      requires Valid()
      modifies this
      ensures Valid()
      ensures linkRecords == old(linkRecords)
      ensures r == EmptyOtpDetails <==> userId == "" || otp == ""
      ensures r == NoOtpRecord <==> userId != "" && otp != "" && old(Pending(otpRecords, userId)) == []
      ensures r == OtpExpired <==> userId != "" && otp != "" && old(Pending(otpRecords, userId)) != []
                                   && old(Pending(otpRecords, userId))[0].expiresAt < now
      ensures r == InvalidOtp <==> userId != "" && otp != "" && old(Pending(otpRecords, userId)) != []
                                   && old(Pending(otpRecords, userId))[0].expiresAt >= now
                                   && !Compare(otp, old(Pending(otpRecords, userId))[0].secret)
      ensures r == OtpVerified <==> userId != "" && otp != "" && old(Pending(otpRecords, userId)) != []
                                    && old(Pending(otpRecords, userId))[0].expiresAt >= now
                                    && Compare(otp, old(Pending(otpRecords, userId))[0].secret)
      ensures r in {EmptyOtpDetails, NoOtpRecord, InvalidOtp} ==>
                users == old(users) && otpRecords == old(otpRecords)
      ensures r == OtpExpired ==> users == old(users) && otpRecords == old(otpRecords) - {userId}
      ensures r == OtpVerified ==> users == MarkVerified(old(users), userId)
                                   && otpRecords == old(otpRecords) - {userId}
    {
      if userId == "" || otp == "" {
        return EmptyOtpDetails;
      }
      var records := Pending(otpRecords, userId);
      if |records| == 0 {
        return NoOtpRecord;
      }
      if records[0].expiresAt < now {
        otpRecords := otpRecords - {userId};
        return OtpExpired;
      }
      if !Compare(otp, records[0].secret) {
        return InvalidOtp;
      }
      users := MarkVerified(users, userId);
      otpRecords := otpRecords - {userId};
      r := OtpVerified;
    }

    /** `/resendOTPVerificationCode`: deletes every OTP record of the user, then issues one.
        The user id is not looked up in the user collection. */
    method ResendOtp(userId: UserId, email: string, now: int, otp: nat, salt: nat, mailSent: bool)
      returns (r: ResendOutcome)
      requires Valid()
      requires 1000 <= otp <= 9999
      modifies this
      ensures Valid()
      ensures users == old(users) && linkRecords == old(linkRecords)
      ensures r == EmptyUserDetails <==> userId == "" || email == ""
      ensures r == EmptyUserDetails ==> otpRecords == old(otpRecords)
      ensures r.Resent? ==> otpRecords == old(otpRecords)[userId := [OtpToken(otp, salt, now)]]
                            && (r.delivery == Delivered <==> mailSent)
    {
      if userId == "" || email == "" {
        return EmptyUserDetails;
      }
      var cleared := otpRecords - {userId};
      otpRecords := cleared;
      var d := IssueOtp(userId, now, otp, salt, mailSent);
      assert Pending(cleared, userId) + [OtpToken(otp, salt, now)] == [OtpToken(otp, salt, now)];
      assert cleared[userId := [OtpToken(otp, salt, now)]] == old(otpRecords)[userId := [OtpToken(otp, salt, now)]];
      r := Resent(d);
    }

    /** `sendVerificationEmail`: saves one more link record for `userId`, then mails the link. */
    method IssueLink(userId: UserId, uuid: string, now: int, salt: nat, mailSent: bool) returns (d: Delivery)
      requires Valid()
      modifies this
      ensures Valid()
      ensures users == old(users) && otpRecords == old(otpRecords)
      ensures linkRecords == old(linkRecords)[userId := old(Pending(linkRecords, userId)) + [LinkToken(uuid, userId, salt, now)]]
      ensures d == Delivered <==> mailSent
    {
      var t := LinkToken(uuid, userId, salt, now);
      linkRecords := linkRecords[userId := Pending(linkRecords, userId) + [t]];
      d := if mailSent then Delivered else DeliveryFailed;
    }

    /** `/resendVerificationLink`: deletes every link record of the user, then issues one. */
    method ResendLink(userId: UserId, email: string, uuid: string, now: int, salt: nat, mailSent: bool)
      returns (r: ResendOutcome)
      requires Valid()
      modifies this
      ensures Valid()
      ensures users == old(users) && otpRecords == old(otpRecords)
      ensures r == EmptyUserDetails <==> userId == "" || email == ""
      ensures r == EmptyUserDetails ==> linkRecords == old(linkRecords)
      ensures r.Resent? ==> linkRecords == old(linkRecords)[userId := [LinkToken(uuid, userId, salt, now)]]
                            && (r.delivery == Delivered <==> mailSent)
    {
      if userId == "" || email == "" {
        return EmptyUserDetails;
      }
      var cleared := linkRecords - {userId};
      linkRecords := cleared;
      var d := IssueLink(userId, uuid, now, salt, mailSent);
      assert Pending(cleared, userId) + [LinkToken(uuid, userId, salt, now)] == [LinkToken(uuid, userId, salt, now)];
      assert cleared[userId := [LinkToken(uuid, userId, salt, now)]] == old(linkRecords)[userId := [LinkToken(uuid, userId, salt, now)]];
      r := Resent(d);
    }

    /** `/verify/:userId/:uniqueString`: only the oldest link record is examined. An expired
        one is deleted together with the (unverified) user; a matching string marks the user
        verified and deletes that one record; a mismatch changes nothing. */
    method VerifyLink(userId: UserId, uniqueString: string, now: int) returns (r: LinkOutcome)
      requires Valid()
      modifies this
      ensures Valid()
      ensures otpRecords == old(otpRecords)
      ensures r == NoLinkRecord <==> old(Pending(linkRecords, userId)) == []
      ensures r == LinkExpired <==> old(Pending(linkRecords, userId)) != []
                                    && old(Pending(linkRecords, userId))[0].expiresAt < now
      ensures r == InvalidLink <==> old(Pending(linkRecords, userId)) != []
                                    && old(Pending(linkRecords, userId))[0].expiresAt >= now
                                    && !Compare(uniqueString, old(Pending(linkRecords, userId))[0].secret)
      ensures r == LinkVerified <==> old(Pending(linkRecords, userId)) != []
                                     && old(Pending(linkRecords, userId))[0].expiresAt >= now
                                     && Compare(uniqueString, old(Pending(linkRecords, userId))[0].secret)
      ensures r in {NoLinkRecord, InvalidLink} ==> users == old(users) && linkRecords == old(linkRecords)
      ensures r == LinkExpired ==> users == old(users) - {userId}
                                   && linkRecords == old(linkRecords)[userId := old(Pending(linkRecords, userId))[1..]]
      ensures r == LinkVerified ==> users == MarkVerified(old(users), userId)
                                    && linkRecords == old(linkRecords)[userId := old(Pending(linkRecords, userId))[1..]]
    {
      var records := Pending(linkRecords, userId);
      if |records| == 0 {
        return NoLinkRecord;
      }
      if records[0].expiresAt < now {
        linkRecords := linkRecords[userId := records[1..]];
        users := users - {userId};
        return LinkExpired;
      }
      if !Compare(uniqueString, records[0].secret) {
        return InvalidLink;
      }
      users := MarkVerified(users, userId);
      linkRecords := linkRecords[userId := records[1..]];
      r := LinkVerified;
    }

    /** `/updatePassword`: on success only the user's password hash changes. */
    method UpdatePassword(userId: UserId, oldPassword: string, newPassword: string, salt: nat)
      returns (r: PasswordOutcome)
      requires Valid()
      modifies this
      ensures Valid()
      ensures otpRecords == old(otpRecords) && linkRecords == old(linkRecords)
      ensures CheckPasswordChange(old(users), userId, oldPassword, newPassword).Some? ==>
                r == PasswordRejected(CheckPasswordChange(old(users), userId, oldPassword, newPassword).value)
                && users == old(users)
      ensures r == PasswordUpdated <==> CheckPasswordChange(old(users), userId, oldPassword, newPassword).None?
      ensures r == PasswordUpdated ==>
                users == old(users)[userId := old(users)[userId].(password := HashOf(newPassword, salt))]
    {
      var check := CheckPasswordChange(users, userId, oldPassword, newPassword);
      if check.Some? {
        return PasswordRejected(check.value);
      }
      users := users[userId := users[userId].(password := HashOf(newPassword, salt))];
      r := PasswordUpdated;
    }

    /** `/delete/:userId`: removes the user document only; its token records stay. */
    method DeleteUser(userId: UserId) returns (r: DeleteOutcome)
      requires Valid()
      modifies this
      ensures Valid()
      ensures otpRecords == old(otpRecords) && linkRecords == old(linkRecords)
      ensures r == UserRecordNotFound <==> userId !in old(users)
      ensures r == UserRecordNotFound ==> users == old(users)
      ensures r.UserDeleted? ==> r.user == old(users)[userId] && users == old(users) - {userId}
    {
      if userId !in users {
        return UserRecordNotFound;
      }
      r := UserDeleted(users[userId]);
      users := users - {userId};
    }
  }

  /** In any store with unique emails, a verified account signs in with the password it was
      hashed from, and with no other. */
  lemma SignInAfterVerification(users: map<UserId, User>, id: UserId, email: string, password: string,
                                salt: nat, otherPassword: string)
    requires EmailsUnique(users) && id in users
    requires users[id].email == Trim(email) && users[id].verified
    requires users[id].password == HashOf(Trim(password), salt)
    requires Trim(email) != "" && Trim(password) != ""
    requires Trim(otherPassword) != "" && Trim(otherPassword) != Trim(password)
    ensures SignIn(users, email, password) == SignedIn(id)
    ensures SignIn(users, email, otherPassword) == WrongPassword
  {
    var r := SignIn(users, email, password);
    assert r.SignedIn?;
    var r' := SignIn(users, email, otherPassword);
    assert !Compare(Trim(otherPassword), users[id].password);
    assert r' != EmptyCredentials && r' != UnknownEmail && r' != NotVerified && !r'.SignedIn?;
  }

  /** The code lifecycle end to end on a fresh store: signup issues a code, the right code
      verifies the account within the hour, and a second redemption finds no record. */
  method OtpLifecycle(name: string, email: string, password: string, id: UserId, now: int, otp: nat)
    returns (signup: SignupOutcome, first: OtpOutcome, second: OtpOutcome, account: User)
    requires id != "" && 1000 <= otp <= 9999
    requires CheckSignupInput(Trim(name), Trim(email), Trim(password)).None?
    ensures signup == SignedUp(id, Delivered)
    ensures first == OtpVerified && second == NoOtpRecord
    ensures account == User(Trim(name), Trim(email), HashOf(Trim(password), 0), true)
  {
    var store := new AccountStore();
    assert !EmailInUse(store.users, Trim(email));
    assert Pending(store.otpRecords, id) == [];
    signup := store.Signup(name, email, password, id, 0, now, otp, 0, true);
    var token := OtpToken(otp, 0, now);
    assert signup.SignedUp?;
    assert [] + [token] == [token];
    assert store.otpRecords == map[id := [token]];
    first := store.VerifyOtp(id, DecimalString(otp), now + OtpLifetimeMs);
    assert store.otpRecords == map[];
    second := store.VerifyOtp(id, DecimalString(otp), now + OtpLifetimeMs);
    account := store.users[id];
  }
}
