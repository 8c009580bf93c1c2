/** app/api/portfolio/questions/route.ts: the admin's portfolio questions. */
module PortfolioQuestionsRoute {
  import opened Wrappers
  import opened Seqs
  import opened Records
  import opened Store
  import opened AuthCheck

  const BothRequired: string := "질문과 답변을 모두 입력해주세요"
  /** The category every portfolio question carries. */
  const Category: string := "portfolio"

  function QuestionCreatedAt(d: Doc<PortfolioQuestion>): int {
    d.val.createdAt
  }

  /** `find({ userId }).sort({ createdAt: -1 })` on `portfolio_questions`. */
  function QuestionsNewestFirst(qs: seq<Doc<PortfolioQuestion>>, userId: string): (r: seq<Doc<PortfolioQuestion>>)
    ensures NonIncreasing(r, QuestionCreatedAt)
    ensures forall d :: d in r <==> d in qs && d.val.userId == userId
    ensures forall d :: multiset(r)[d] == if d.val.userId == userId then multiset(qs)[d] else 0
  {
    var mine := Filter(qs, (d: Doc<PortfolioQuestion>) => d.val.userId == userId);
    var r := SortDesc(mine, QuestionCreatedAt);
    forall d ensures d in r <==> d in qs && d.val.userId == userId {
      FilterMembership(qs, (d: Doc<PortfolioQuestion>) => d.val.userId == userId, d);
      assert d in r <==> multiset(r)[d] > 0;
      assert d in mine <==> multiset(mine)[d] > 0;
    }
    r
  }

  /** GET: the gate's refusal, or exactly the admin's questions, newest first. */
  function Get(db: Db, session: Option<Identity>): (r: Response)
    reads db
    ensures !CheckAdminAuth(session).isAdmin ==> r == Refusal(CheckAdminAuth(session))
    ensures CheckAdminAuth(session).isAdmin ==>
      r.status == 200 && r.body.QuestionList? && NonIncreasing(r.body.questions, QuestionCreatedAt)
      && forall d :: d in r.body.questions <==> d in db.portfolioQuestions && d.val.userId == session.value.id
    ensures CheckAdminAuth(session).isAdmin ==>
      forall d :: multiset(r.body.questions)[d] == if d.val.userId == session.value.id then multiset(db.portfolioQuestions)[d] else 0
  {
    var auth := CheckAdminAuth(session);
    if !auth.isAdmin then Refusal(auth)
    else Response(200, QuestionList(QuestionsNewestFirst(db.portfolioQuestions, auth.userId.value)))
  }

  /** POST: a question written by hand, in no portfolio and no folder. */
  method Post(db: Db, session: Option<Identity>, question: string, suggestedAnswer: string, now: int)
    returns (r: Response)
    requires db.Valid()
    modifies db`portfolioQuestions, db`nextId
    ensures db.Valid()
    ensures !CheckAdminAuth(session).isAdmin ==> r == Refusal(CheckAdminAuth(session)) && unchanged(db)
    ensures CheckAdminAuth(session).isAdmin && (question == "" || suggestedAnswer == "")
      ==> r == Response(400, Error(BothRequired)) && unchanged(db)
    ensures CheckAdminAuth(session).isAdmin && question != "" && suggestedAnswer != ""
      ==> r == Response(200, QuestionAdded(old(db.nextId)))
          && db.portfolioQuestions == old(db.portfolioQuestions)
               + [Doc(old(db.nextId), PortfolioQuestion(session.value.id, None, None, question, suggestedAnswer,
                                                         Category, false, now, now))]
          && db.nextId == old(db.nextId) + 1
  {
    var auth := CheckAdminAuth(session);
    if !auth.isAdmin {
      return Refusal(auth);
    }
    if question == "" || suggestedAnswer == "" {
      return Response(400, Error(BothRequired));
    }
    var id := db.InsertPortfolioQuestion(
      PortfolioQuestion(auth.userId.value, None, None, question, suggestedAnswer, Category, false, now, now));
    r := Response(200, QuestionAdded(id));
  }
}
