/** app/api/company/create/route.ts: create a company's question file from a template. */
module CompanyCreateRoute {
  import opened Wrappers
  import opened Text
  import opened Records
  import opened Store

  const NameRequired: string := "기업명을 입력해주세요"
  const Exists: string := "이미 존재하는 기업입니다"
  const Created: string := " 폴더가 생성되었습니다"

  /** The front matter of a new company file: its question and short answer mention the company. */
  function FrontMatter(name: string): string {
    "---\nquestion: \"" + name + " 인프라 엔지니어 예상 질문\"\nshortAnswer: \"" + name
    + "에서 물어볼 만한 질문들을 정리합니다.\"\n---\n"
  }

  /** The body of a new company file: a heading with the company's name and placeholder sections. */
  function TemplateBody(name: string): string {
    "\n## " + name + " 면접 예상 질문\n\n### 1. 기술 스택\n\n#### Q1: 질문을 추가해주세요\n\n"
    + "**답변 포인트**:\n- 답변 내용을 작성하세요\n\n### 면접 준비 팁\n\n"
    + "1. **회사 조사**\n   - 기술 블로그 확인\n   - 사용하는 기술 스택 파악\n\n"
    + "2. **실무 경험 준비**\n   - STAR 기법으로 답변 준비\n   - 구체적인 수치와 결과\n"
  }

  /** The text written for a new company. */
  function Template(name: string): (t: string)
    ensures FrontMatter(name) <= t
    ensures EndsWith(t, TemplateBody(name))
  {
    FrontMatter(name) + TemplateBody(name)
  }

  /** POST. A name that is empty or only whitespace is refused, but an accepted name is used as
      given, untrimmed, as the file's name and in its text. */
  method Post(dir: CompanyDir, session: Option<Identity>, companyName: string) returns (r: Response)
    modifies dir
    ensures session.None? ==> r == Unauthorized && unchanged(dir)
    ensures session.Some? && AllWhitespace(companyName)
      ==> r == Response(400, Error(NameRequired)) && unchanged(dir)
    ensures session.Some? && !AllWhitespace(companyName) && companyName in old(dir.files)
      ==> r == Response(400, Error(Exists)) && unchanged(dir)
    ensures session.Some? && !AllWhitespace(companyName) && companyName !in old(dir.files)
      ==> r == Response(200, Note(companyName + Created))
          && dir.files == old(dir.files)[companyName := Template(companyName)]
  {
    if session.None? {
      return Unauthorized;
    }
    if companyName == "" || Trim(companyName) == "" {
      return Response(400, Error(NameRequired));
    }
    if companyName in dir.files {
      return Response(400, Error(Exists));
    }
    dir.files := dir.files[companyName := Template(companyName)];
    r := Response(200, Note(companyName + Created));
  }
}
