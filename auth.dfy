/** lib/auth.ts: email and password sign-in, and the two callbacks that carry the user's role
    and id from the sign-in into the token and from the token into every session. */
module Auth {
  import opened Wrappers
  import opened Text
  import opened Records
  import opened Store

  /** The signed token's claims the callbacks manage; the provider's own claims are not modelled. */
  datatype Token = Token(role: Option<string>, id: Option<string>)

  /** `session.user` as the session callback receives it: the provider fills name and email. */
  datatype SessionUser = SessionUser(name: Option<string>, email: Option<string>,
                                     role: Option<string>, id: Option<string>)

  datatype Session = Session(user: Option<SessionUser>)

  /** `authorize`: the user's identity when the email is registered and `verify` (bcrypt's
      compare) accepts the password against the stored hash. */
  function Authorize(users: seq<Doc<User>>, email: string, password: string,
                     verify: (string, string) -> bool): (r: Option<Identity>)
    ensures r.Some? <==>
      (email != "" && password != "" && UserIndexByEmail(users, email).Some?
       && verify(password, users[UserIndexByEmail(users, email).value].val.password))
    ensures r.Some? ==>
      var d := users[UserIndexByEmail(users, email).value];
      r.value == Identity(DecimalString(d.id), d.val.email, d.val.name, d.val.role)
  {
    if email == "" || password == "" then None
    else match UserIndexByEmail(users, email)
      case None => None
      case Some(k) =>
        if !verify(password, users[k].val.password) then None
        else Some(Identity(DecimalString(users[k].id), users[k].val.email, users[k].val.name, users[k].val.role))
  }

  /** The jwt callback: on sign-in it copies the user's role and id into the token; on every
      later call (no user) it keeps the token as it is. */
  function Jwt(token: Token, user: Option<Identity>): (t: Token)
    ensures user.None? ==> t == token
    ensures user.Some? ==> t.role == Some(user.value.role) && t.id == Some(user.value.id)
  {
    if user.Some? then Token(Some(user.value.role), Some(user.value.id)) else token
  }

  /** The session callback: it sets the session user's role and id from the token. */
  function SessionCallback(session: Session, token: Token): (s: Session)
    ensures s.user.Some? <==> session.user.Some?
    ensures s.user.Some? ==> s.user.value == session.user.value.(role := token.role, id := token.id)
  {
    if session.user.Some? then Session(Some(session.user.value.(role := token.role, id := token.id)))
    else session
  }

  /** After a successful sign-in, every session built from the token carries the user's role
      and the decimal form of the user's id, however many times the token is refreshed. */
  lemma SignInReachesSession(users: seq<Doc<User>>, email: string, password: string,
                             verify: (string, string) -> bool, initial: Token, refreshes: nat,
                             session: Session)
    requires Authorize(users, email, password, verify).Some? && session.user.Some?
    ensures
      var d := users[UserIndexByEmail(users, email).value];
      var s := SessionCallback(session, Refreshed(Jwt(initial, Authorize(users, email, password, verify)), refreshes));
      s.user.value.role == Some(d.val.role) && s.user.value.id == Some(DecimalString(d.id))
  {
    RefreshedKeeps(Jwt(initial, Authorize(users, email, password, verify)), refreshes);
  }

  /** The token after `n` later calls of the jwt callback, which pass no user. */
  function Refreshed(token: Token, n: nat): Token {
    if n == 0 then token else Jwt(Refreshed(token, n - 1), None)
  }

  lemma {:induction false} RefreshedKeeps(token: Token, n: nat)
    ensures Refreshed(token, n) == token
  {
    if n > 0 {
      RefreshedKeeps(token, n - 1);
    }
  }

  /** The session id names one account: two sign-ins that yield the same id signed in the
      same user. */
  lemma SessionIdIdentifiesUser(users: seq<Doc<User>>, verify: (string, string) -> bool,
                                email: string, password: string, email': string, password': string)
    requires IdsIncreasing(users)
    requires Authorize(users, email, password, verify).Some?
    requires Authorize(users, email', password', verify).Some?
    requires Authorize(users, email, password, verify).value.id == Authorize(users, email', password', verify).value.id
    ensures Authorize(users, email, password, verify) == Authorize(users, email', password', verify)
  {
    var k := UserIndexByEmail(users, email).value;
    var k' := UserIndexByEmail(users, email').value;
    DecimalStringInjective(users[k].id, users[k'].id);
  }
}
