/** app/api/portfolio/analyze/route.ts: generate interview questions from one of the admin's
    portfolios and store them in `portfolio_questions`. */
module PortfolioAnalyzeRoute {
  import opened Wrappers
  import opened Seqs
  import opened Text
  import opened Records
  import opened Store
  import opened AuthCheck

  /** One question the analyzer proposes, with its suggested answer. */
  datatype Suggestion = Suggestion(question: string, suggestedAnswer: string)

  const IdRequired: string := "포트폴리오 ID가 필요합니다"
  const NotFound: string := "포트폴리오를 찾을 수 없습니다"
  const AnalyzeFailed: string := "분석 중 오류가 발생했습니다"
  const Generated: string := "개의 질문이 생성되었습니다"

  /** `findOne({ _id: portfolioId, userId })` on `portfolios`. */
  function OwnedPortfolioIndex(ps: seq<Doc<Portfolio>>, portfolioId: Oid, userId: string): (r: Option<nat>)
    ensures r.Some? ==> r.value < |ps| && ps[r.value].id == portfolioId && ps[r.value].val.userId == userId
    ensures r.None? <==> forall j :: 0 <= j < |ps| ==> !(ps[j].id == portfolioId && ps[j].val.userId == userId)
  {
    FirstIndex(ps, (d: Doc<Portfolio>) => d.id == portfolioId && d.val.userId == userId)
  }

  /** The documents stored for the suggestions: the analyzer's fields plus the portfolio id. */
  function Generate(userId: string, portfolioId: Oid, sug: seq<Suggestion>, now: int): (qs: seq<PortfolioQuestion>)
    ensures |qs| == |sug|
    ensures forall i :: 0 <= i < |qs| ==>
      qs[i].question == sug[i].question && qs[i].suggestedAnswer == sug[i].suggestedAnswer
    ensures forall i :: 0 <= i < |qs| ==>
      qs[i].userId == userId && qs[i].portfolioId == Some(portfolioId) && qs[i].folderId.None?
      && qs[i].category == "portfolio" && qs[i].isAIGenerated
      && qs[i].createdAt == now && qs[i].updatedAt == now
  {
    seq(|sug|, i requires 0 <= i < |sug| =>
      PortfolioQuestion(userId, Some(portfolioId), None, sug[i].question, sug[i].suggestedAnswer,
                        "portfolio", true, now, now))
  }

  /** The state the request starts from decides its answer before anything is written. */
  predicate Analyzable(db: Db, session: Option<Identity>, portfolioId: Option<Oid>)
    reads db
  {
    CheckAdminAuth(session).isAdmin && portfolioId.Some?
    && OwnedPortfolioIndex(db.portfolios, portfolioId.value, session.value.id).Some?
  }

  /** POST. `analyze` is the language-model call on the portfolio text: None when it fails.
      An empty list fails too, since the store refuses to insert no documents. On success the
      questions are inserted and the portfolio's `analyzedAt` is set. */
  method Post(db: Db, session: Option<Identity>, portfolioId: Option<Oid>,
              analyze: string -> Option<seq<Suggestion>>, now: int)
    returns (r: Response)
    requires db.Valid()
    modifies db`portfolioQuestions, db`portfolios, db`nextId
    ensures db.Valid()
    ensures !CheckAdminAuth(session).isAdmin ==> r == Refusal(CheckAdminAuth(session)) && unchanged(db)
    ensures CheckAdminAuth(session).isAdmin && portfolioId.None?
      ==> r == Response(400, Error(IdRequired)) && unchanged(db)
    ensures CheckAdminAuth(session).isAdmin && portfolioId.Some?
      && OwnedPortfolioIndex(old(db.portfolios), portfolioId.value, session.value.id).None?
      ==> r == Response(404, Error(NotFound)) && unchanged(db)
    ensures old(Analyzable(db, session, portfolioId))
      ==> var k := OwnedPortfolioIndex(old(db.portfolios), portfolioId.value, session.value.id).value;
          var found := analyze(old(db.portfolios)[k].val.content);
          if found.None? || found.value == [] then
            r == Response(500, Error(AnalyzeFailed)) && unchanged(db)
          else
            r == Response(200, Analyzed(|found.value|, DecimalString(|found.value|) + Generated))
            && db.portfolioQuestions == old(db.portfolioQuestions)
                 + Minted(old(db.nextId), Generate(session.value.id, portfolioId.value, found.value, now))
            && db.portfolios == old(db.portfolios)[k := Doc(old(db.portfolios)[k].id,
                                                           old(db.portfolios)[k].val.(analyzedAt := Some(now)))]
            && db.nextId == old(db.nextId) + |found.value|
  {
    var auth := CheckAdminAuth(session);
    if !auth.isAdmin {
      return Refusal(auth);
    }
    var userId := auth.userId.value;
    if portfolioId.None? {
      return Response(400, Error(IdRequired));
    }
    var pid := portfolioId.value;
    var owned := OwnedPortfolioIndex(db.portfolios, pid, userId);
    if owned.None? {
      return Response(404, Error(NotFound));
    }
    var found := analyze(db.portfolios[owned.value].val.content);
    if found.None? || found.value == [] {
      return Response(500, Error(AnalyzeFailed));
    }
    db.InsertPortfolioQuestions(Generate(userId, pid, found.value, now));
    // `updateOne({ _id })`: the first portfolio with that id, which is the one analyzed.
    IndexOfIdUnique(db.portfolios, owned.value);
    var k := IndexOfId(db.portfolios, pid).value;
    db.SetPortfolio(k, db.portfolios[k].val.(analyzedAt := Some(now)));
    var n := |found.value|;
    r := Response(200, Analyzed(n, DecimalString(n) + Generated));
  }
}
