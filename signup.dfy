/** app/api/auth/signup/route.ts: register a user. The configured admin email registers
    with the admin role. */
module SignupRoute {
  import opened Wrappers
  import opened Records
  import opened Store

  const AllRequired: string := "모든 필드를 입력해주세요"
  const EmailTaken: string := "이미 존재하는 이메일입니다"

  /** The role of a new account: admin exactly for the configured ADMIN_EMAIL, if one is set. */
  function RoleFor(email: string, adminEmail: Option<string>): (role: string)
    ensures role == "admin" <==> adminEmail == Some(email)
    ensures role == "admin" || role == "user"
  {
    if adminEmail == Some(email) then "admin" else "user"
  }

  /** POST. `hash` is bcrypt with cost 10; the new user has no reset pending and no `updatedAt`. */
  method Post(db: Db, email: string, password: string, name: string, adminEmail: Option<string>,
              hash: string -> string, now: int)
    returns (r: Response)
    requires db.Valid()
    modifies db`users, db`nextId
    ensures db.Valid()
    ensures email == "" || password == "" || name == ""
      ==> r == Response(400, Error(AllRequired)) && unchanged(db)
    ensures email != "" && password != "" && name != "" && UserIndexByEmail(old(db.users), email).Some?
      ==> r == Response(400, Error(EmailTaken)) && unchanged(db)
    ensures email != "" && password != "" && name != "" && UserIndexByEmail(old(db.users), email).None?
      ==> r == Response(200, SignedUp(old(db.nextId)))
          && db.users == old(db.users)
               + [Doc(old(db.nextId), User(email, hash(password), name, RoleFor(email, adminEmail), now, None, None, None))]
          && db.nextId == old(db.nextId) + 1
  {
    if email == "" || password == "" || name == "" {
      return Response(400, Error(AllRequired));
    }
    if UserIndexByEmail(db.users, email).Some? {
      return Response(400, Error(EmailTaken));
    }
    var id := db.InsertUser(User(email, hash(password), name, RoleFor(email, adminEmail), now, None, None, None));
    r := Response(200, SignedUp(id));
  }

  /** Once registered, an email is found by every later lookup, so it cannot register again. */
  lemma RegisteredEmailTaken(users: seq<Doc<User>>, d: Doc<User>)
    ensures UserIndexByEmail(users + [d], d.val.email).Some?
  {
    assert (users + [d])[|users|] == d;
  }
}
