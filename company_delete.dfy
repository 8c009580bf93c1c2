/** app/api/company/delete/route.ts: delete a company's question file. */
module CompanyDeleteRoute {
  import opened Wrappers
  import opened Records
  import opened Store
  import opened Text
  import CompanyCreateRoute

  const NameRequired: string := "기업명이 필요합니다"
  const NotFound: string := "기업 파일을 찾을 수 없습니다"
  const Deleted: string := " 폴더가 삭제되었습니다"

  /** DELETE. */
  method Delete(dir: CompanyDir, session: Option<Identity>, companyName: string) returns (r: Response)
    modifies dir
    ensures session.None? ==> r == Unauthorized && unchanged(dir)
    ensures session.Some? && companyName == "" ==> r == Response(400, Error(NameRequired)) && unchanged(dir)
    ensures session.Some? && companyName != "" && companyName !in old(dir.files)
      ==> r == Response(404, Error(NotFound)) && unchanged(dir)
    ensures session.Some? && companyName != "" && companyName in old(dir.files)
      ==> r == Response(200, Note(companyName + Deleted)) && dir.files == old(dir.files) - {companyName}
  {
    if session.None? {
      return Unauthorized;
    }
    if companyName == "" {
      return Response(400, Error(NameRequired));
    }
    if companyName !in dir.files {
      return Response(404, Error(NotFound));
    }
    dir.files := dir.files - {companyName};
    r := Response(200, Note(companyName + Deleted));
  }

  /** Creating a company and then deleting it restores the directory; the create succeeds
      exactly for a signed-in caller, a name that is not all whitespace and a new company. */
  method CreateThenDelete(dir: CompanyDir, session: Option<Identity>, companyName: string)
    returns (created: Response, deleted: Response)
    modifies dir
    ensures created.status == 200
      <==> session.Some? && !AllWhitespace(companyName) && companyName !in old(dir.files)
    ensures created.status == 200 ==>
      deleted == Response(200, Note(companyName + Deleted)) && dir.files == old(dir.files)
  {
    created := CompanyCreateRoute.Post(dir, session, companyName);
    deleted := Delete(dir, session, companyName);
  }
}
