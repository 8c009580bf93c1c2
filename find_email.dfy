/** app/api/auth/find-email/route.ts: list the masked emails of the non-admin accounts whose
    name matches the query. Queries that look for an admin are refused outright. */
module FindEmailRoute {
  import opened Wrappers
  import opened Seqs
  import opened Text
  import opened Records
  import opened Store

  const NameRequired: string := "이름을 입력해주세요"
  const NoneFound: string := "해당 이름으로 가입된 계정을 찾을 수 없습니다."
  const Found: string := "개의 계정을 찾았습니다."

  /** The query mentions an admin, in Korean or in any letter case. */
  predicate IsBlockedQuery(name: string) {
    Contains(ToLower(name), "관리자") || Contains(ToLower(name), "admin")
  }

  /** The local part with all but its first two characters starred; a part of at most two
      characters keeps only its first one and gets one star. */
  function MaskLocal(local: string): (m: string)
    ensures |local| > 2 ==> |m| == |local| && m[..2] == local[..2]
    ensures |local| > 2 ==> forall i :: 2 <= i < |m| ==> m[i] == '*'
    ensures |local| <= 2 ==> m == local[..if local == "" then 0 else 1] + "*"
  {
    if |local| > 2 then local[..2] + Repeat('*', |local| - 2)
    else local[..if local == "" then 0 else 1] + "*"
  }

  /** `${maskedLocal}@${domain}` after `email.split('@')`: the domain is the second piece, or
      the text "undefined" when the email has no '@'. */
  function MaskEmail(email: string): string {
    var parts := Split(email, '@');
    var domain := if |parts| > 1 then parts[1] else "undefined";
    MaskLocal(parts[0]) + "@" + domain
  }

  /** An ordinary address keeps its domain and masks its local part. */
  lemma MaskEmailShape(local: string, domain: string)
    requires '@' !in local && '@' !in domain
    ensures MaskEmail(local + "@" + domain) == MaskLocal(local) + "@" + domain
  {
    SplitAtFirst(local, '@', domain);
    SplitWithout(domain, '@');
  }

  /** "abcdef@example.com" is shown as "ab****@example.com" and "ab@example.com" as
      "a*@example.com" (with `MaskEmailShape`, which keeps the domain). */
  lemma MaskLocalExamples()
    ensures MaskLocal("abcdef") == "ab****"
    ensures MaskLocal("ab") == "a*"
  {
    assert Repeat('*', 4) == "****";
  }

  /** The accounts the regex search returns: name matches and role is not admin. `matches`
      stands for `new RegExp(name, 'i').test(userName)`. */
  function Candidates(users: seq<Doc<User>>, name: string, matches: (string, string) -> bool): (r: seq<Doc<User>>)
    ensures forall d :: d in r <==> d in users && matches(name, d.val.name) && d.val.role != "admin"
    ensures forall d ::
      multiset(r)[d] == if matches(name, d.val.name) && d.val.role != "admin" then multiset(users)[d] else 0
  {
    var r := Filter(users, (d: Doc<User>) => matches(name, d.val.name) && d.val.role != "admin");
    forall d ensures d in r <==> d in users && matches(name, d.val.name) && d.val.role != "admin" {
      FilterMembership(users, (d: Doc<User>) => matches(name, d.val.name) && d.val.role != "admin", d);
    }
    r
  }

  function Masked(d: Doc<User>): MaskedEmail {
    MaskedEmail(MaskEmail(d.val.email), d.val.email, d.val.createdAt)
  }

  function MaskAll(found: seq<Doc<User>>): (r: seq<MaskedEmail>)
    ensures |r| == |found|
    ensures forall i :: 0 <= i < |r| ==> r[i] == Masked(found[i])
    ensures forall e :: e in r ==> exists d :: d in found && e == Masked(d)
  {
    if found == [] then [] else [Masked(found[0])] + MaskAll(found[1..])
  }

  /** POST. Nothing is written; the answer lists one masked entry per candidate account. */
  function Post(db: Db, name: string, matches: (string, string) -> bool): (r: Response)
    reads db
    ensures name == "" ==> r == Response(400, Error(NameRequired))
    ensures name != "" && IsBlockedQuery(name) ==> r == Response(200, EmailsFound(NoneFound, []))
    ensures name != "" ==> r.status == 200 && r.body.EmailsFound?
    ensures name != "" ==>
      forall e :: e in r.body.emails ==>
        exists d :: d in db.users && d.val.role != "admin" && matches(name, d.val.name) && e == Masked(d)
    ensures name != "" && !IsBlockedQuery(name) ==>
      var found := Candidates(db.users, name, matches);
      |r.body.emails| == |found| && forall i :: 0 <= i < |found| ==> r.body.emails[i] == Masked(found[i])
    ensures name != "" && !IsBlockedQuery(name) && Candidates(db.users, name, matches) != [] ==>
      r.body.message == DecimalString(|Candidates(db.users, name, matches)|) + Found
    ensures name != "" && !IsBlockedQuery(name) && Candidates(db.users, name, matches) == [] ==>
      r == Response(200, EmailsFound(NoneFound, []))
  {
    if name == "" then Response(400, Error(NameRequired))
    else if IsBlockedQuery(name) then Response(200, EmailsFound(NoneFound, []))
    else
      var found := Candidates(db.users, name, matches);
      if found == [] then Response(200, EmailsFound(NoneFound, []))
      else Response(200, EmailsFound(DecimalString(|found|) + Found, MaskAll(found)))
  }

  /** A query naming "Admin" in any letter case is refused, whoever matches it. */
  lemma AdminQueryBlocked(lead: string, trail: string)
    ensures IsBlockedQuery(lead + "Admin" + trail) && IsBlockedQuery(lead + "ADMIN" + trail)
  {
    AdminAt(lead, "Admin", trail);
    AdminAt(lead, "ADMIN", trail);
  }

  lemma AdminAt(lead: string, w: string, trail: string)
    requires ToLower(w) == "admin"
    ensures Contains(ToLower(lead + w + trail), "admin")
  {
    var s := lead + w + trail;
    var t := ToLower(s);
    assert t[|lead|..|lead| + 5] == "admin" by {
      forall i | 0 <= i < 5
        ensures t[|lead| + i] == ToLower(w)[i]
      {
        assert s[|lead| + i] == w[i];
      }
    }
    assert OccursAt(t, "admin", |lead|);
    ContainsAt(t, "admin");
  }
}
