/** app/api/auth/forgot-password/route.ts: issue a six-digit reset code, valid for ten
    minutes, to the user with the given email. */
module ForgotPasswordRoute {
  import opened Wrappers
  import opened Text
  import opened Records
  import opened Store

  const EmailRequired: string := "이메일을 입력해주세요"
  /** The answer for an unknown email. A registered email gets `CodeIssued` instead, together
      with the code itself, so the answer does tell which emails are registered. */
  const LinkSent: string := "비밀번호 재설정 링크가 이메일로 전송되었습니다."
  const CodeIssued: string := "비밀번호 재설정 코드가 생성되었습니다."
  /** Ten minutes, in milliseconds. */
  const ResetLifetime: int := 10 * 60 * 1000

  /** `Math.floor(100000 + Math.random() * 900000)`, for `random` in [0, 1). */
  function ResetCode(random: real): (code: nat)
    requires 0.0 <= random < 1.0
    ensures 100000 <= code <= 999999
  {
    var x := 100000.0 + random * 900000.0;
    assert 100000.0 <= x < 1000000.0;
    x.Floor
  }

  /** The code as the user sees it. */
  function ResetToken(random: real): (token: string)
    requires 0.0 <= random < 1.0
  {
    DecimalString(ResetCode(random))
  }

  /** Every reset token is exactly six digits. */
  lemma ResetTokenSixDigits(random: real)
    requires 0.0 <= random < 1.0
    ensures |ResetToken(random)| == 6
    ensures forall i :: 0 <= i < 6 ==> IsDigit(ResetToken(random)[i])
  {
    assert Pow10(5) == 100000 && Pow10(6) == 1000000;
    DecimalLength(ResetCode(random), 5);
  }

  /** The user with the reset pending: `$set: { resetToken, resetTokenExpiry, updatedAt }`. */
  function Issued(u: User, token: string, expiry: int, now: int): User {
    u.(resetToken := Some(token), resetTokenExpiry := Some(expiry), updatedAt := Some(now))
  }

  /** POST. `random` is the value Math.random returned. */
  method Post(db: Db, email: string, random: real, now: int) returns (r: Response)
    requires db.Valid() && 0.0 <= random < 1.0
    modifies db`users
    ensures db.Valid()
    ensures email == "" ==> r == Response(400, Error(EmailRequired)) && unchanged(db)
    ensures email != "" && UserIndexByEmail(old(db.users), email).None?
      ==> r == Response(200, Note(LinkSent)) && unchanged(db)
    ensures email != "" && UserIndexByEmail(old(db.users), email).Some?
      ==> var k := UserIndexByEmail(old(db.users), email).value;
          r == Response(200, ResetIssued(CodeIssued, email, ResetToken(random), now + ResetLifetime))
          && db.users == old(db.users)[k := Doc(old(db.users)[k].id,
                                               Issued(old(db.users)[k].val, ResetToken(random), now + ResetLifetime, now))]
  {
    if email == "" {
      return Response(400, Error(EmailRequired));
    }
    var found := UserIndexByEmail(db.users, email);
    if found.None? {
      return Response(200, Note(LinkSent));
    }
    var token := ResetToken(random);
    var expiry := now + ResetLifetime;
    // `updateOne({ email })` updates the user found by the same filter.
    var k := found.value;
    db.SetUser(k, Issued(db.users[k].val, token, expiry, now));
    r := Response(200, ResetIssued(CodeIssued, email, token, expiry));
  }
}
