/** app/api/auth/reset-password/route.ts: redeem a reset code for a new password. */
module ResetPasswordRoute {
  import opened Wrappers
  import opened Seqs
  import opened Records
  import opened Store
  import ForgotPasswordRoute

  const AllRequired: string := "모든 필드를 입력해주세요"
  const TooShort: string := "비밀번호는 최소 6자 이상이어야 합니다"
  const InvalidCode: string := "유효하지 않거나 만료된 재설정 코드입니다"
  const PasswordReset: string := "비밀번호가 성공적으로 재설정되었습니다"
  /** The shortest new password accepted. */
  const MinPasswordLength: nat := 6

  /** The user has this email and this pending code, and the code has not expired at `now`. */
  predicate CodeValid(u: User, email: string, token: string, now: int) {
    u.email == email && u.resetToken == Some(token)
    && u.resetTokenExpiry.Some? && u.resetTokenExpiry.value > now
  }

  /** `findOne({ email, resetToken, resetTokenExpiry: { $gt: now } })` on `users`. */
  function ResetMatchIndex(users: seq<Doc<User>>, email: string, token: string, now: int): (r: Option<nat>)
    ensures r.Some? ==> r.value < |users| && CodeValid(users[r.value].val, email, token, now)
    ensures r.None? <==> forall j :: 0 <= j < |users| ==> !CodeValid(users[j].val, email, token, now)
  {
    FirstIndex(users, (d: Doc<User>) => CodeValid(d.val, email, token, now))
  }

  /** The user after the reset: the new hash, and no code pending any more. */
  function Redeemed(u: User, hashed: string, now: int): User {
    u.(password := hashed, updatedAt := Some(now), resetToken := None, resetTokenExpiry := None)
  }

  /** POST. `hash` is bcrypt with cost 10. */
  method Post(db: Db, email: string, resetToken: string, newPassword: string, hash: string -> string, now: int)
    returns (r: Response)
    requires db.Valid()
    modifies db`users
    ensures db.Valid()
    ensures email == "" || resetToken == "" || newPassword == ""
      ==> r == Response(400, Error(AllRequired)) && unchanged(db)
    ensures email != "" && resetToken != "" && 0 < |newPassword| < MinPasswordLength
      ==> r == Response(400, Error(TooShort)) && unchanged(db)
    ensures email != "" && resetToken != "" && |newPassword| >= MinPasswordLength
      && ResetMatchIndex(old(db.users), email, resetToken, now).None?
      ==> r == Response(400, Error(InvalidCode)) && unchanged(db)
    ensures email != "" && resetToken != "" && |newPassword| >= MinPasswordLength
      && ResetMatchIndex(old(db.users), email, resetToken, now).Some?
      ==> var k := ResetMatchIndex(old(db.users), email, resetToken, now).value;
          r == Response(200, Note(PasswordReset))
          && db.users == old(db.users)[k := Doc(old(db.users)[k].id,
                                               Redeemed(old(db.users)[k].val, hash(newPassword), now))]
  {
    if email == "" || resetToken == "" || newPassword == "" {
      return Response(400, Error(AllRequired));
    }
    if |newPassword| < MinPasswordLength {
      return Response(400, Error(TooShort));
    }
    var found := ResetMatchIndex(db.users, email, resetToken, now);
    if found.None? {
      return Response(400, Error(InvalidCode));
    }
    // `updateOne({ email })`: emails are unique, so this is the user whose code matched.
    EmailIndexUnique(db.users, found.value);
    var k := UserIndexByEmail(db.users, email).value;
    db.SetUser(k, Redeemed(db.users[k].val, hash(newPassword), now));
    r := Response(200, Note(PasswordReset));
  }

  /** A code works once: after the reset no code is valid for that email, at any time. */
  lemma CodeSingleUse(users: seq<Doc<User>>, k: nat, hashed: string, token: string, now: int, later: int)
    requires EmailsUnique(users) && k < |users|
    ensures ResetMatchIndex(users[k := Doc(users[k].id, Redeemed(users[k].val, hashed, now))],
                            users[k].val.email, token, later).None?
  {
    var after := users[k := Doc(users[k].id, Redeemed(users[k].val, hashed, now))];
    forall j | 0 <= j < |after|
      ensures !CodeValid(after[j].val, users[k].val.email, token, later)
    {
      if j != k {
        if j < k {
          assert users[j].val.email != users[k].val.email;
        } else {
          assert users[k].val.email != users[j].val.email;
        }
      }
    }
  }

  /** A code issued by forgot-password is accepted with the same email until it expires:
      every request made before the ten minutes are over finds the user. */
  lemma IssuedCodeRedeemable(users: seq<Doc<User>>, k: nat, random: real, issuedAt: int, now: int)
    requires k < |users| && 0.0 <= random < 1.0
    requires now < issuedAt + ForgotPasswordRoute.ResetLifetime
    ensures
      var token := ForgotPasswordRoute.ResetToken(random);
      var u := ForgotPasswordRoute.Issued(users[k].val, token, issuedAt + ForgotPasswordRoute.ResetLifetime, issuedAt);
      ResetMatchIndex(users[k := Doc(users[k].id, u)], users[k].val.email, token, now).Some?
  {
    var token := ForgotPasswordRoute.ResetToken(random);
    var u := ForgotPasswordRoute.Issued(users[k].val, token, issuedAt + ForgotPasswordRoute.ResetLifetime, issuedAt);
    var after := users[k := Doc(users[k].id, u)];
    assert CodeValid(after[k].val, users[k].val.email, token, now);
  }

  /** Once the ten minutes are over, the issued code is refused. */
  lemma IssuedCodeExpires(users: seq<Doc<User>>, k: nat, random: real, issuedAt: int, now: int)
    requires EmailsUnique(users) && k < |users| && 0.0 <= random < 1.0
    requires now >= issuedAt + ForgotPasswordRoute.ResetLifetime
    ensures
      var token := ForgotPasswordRoute.ResetToken(random);
      var u := ForgotPasswordRoute.Issued(users[k].val, token, issuedAt + ForgotPasswordRoute.ResetLifetime, issuedAt);
      ResetMatchIndex(users[k := Doc(users[k].id, u)], users[k].val.email, token, now).None?
  {
    var token := ForgotPasswordRoute.ResetToken(random);
    var u := ForgotPasswordRoute.Issued(users[k].val, token, issuedAt + ForgotPasswordRoute.ResetLifetime, issuedAt);
    var after := users[k := Doc(users[k].id, u)];
    forall j | 0 <= j < |after|
      ensures !CodeValid(after[j].val, users[k].val.email, token, now)
    {
      if j != k {
        if j < k {
          assert users[j].val.email != users[k].val.email;
        } else {
          assert users[k].val.email != users[j].val.email;
        }
      }
    }
  }

  /** The forgot-password answer carries the code, and that code resets exactly the account
      of the email asked about until it expires: whoever asks for a registered email can set
      that account's password. */
  lemma AnsweredCodeResetsAccount(users: seq<Doc<User>>, email: string, random: real, issuedAt: int, now: int)
    requires EmailsUnique(users) && UserIndexByEmail(users, email).Some? && 0.0 <= random < 1.0
    requires now < issuedAt + ForgotPasswordRoute.ResetLifetime
    ensures
      var k := UserIndexByEmail(users, email).value;
      var token := ForgotPasswordRoute.ResetToken(random);
      var u := ForgotPasswordRoute.Issued(users[k].val, token, issuedAt + ForgotPasswordRoute.ResetLifetime, issuedAt);
      ResetMatchIndex(users[k := Doc(users[k].id, u)], email, token, now) == Some(k)
  {
    var k := UserIndexByEmail(users, email).value;
    var token := ForgotPasswordRoute.ResetToken(random);
    var u := ForgotPasswordRoute.Issued(users[k].val, token, issuedAt + ForgotPasswordRoute.ResetLifetime, issuedAt);
    var after := users[k := Doc(users[k].id, u)];
    IssuedCodeRedeemable(users, k, random, issuedAt, now);
    EmailIndexUnique(users, ResetMatchIndex(after, email, token, now).value);
  }
}
