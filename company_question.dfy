/** app/api/company/question/route.ts: append a question to a company's file, keeping its
    front matter. */
module CompanyQuestionRoute {
  import opened Wrappers
  import opened Text
  import opened Records
  import opened Store

  const FieldsRequired: string := "필수 항목을 입력해주세요"
  const NotFound: string := "기업 파일을 찾을 수 없습니다"
  const Added: string := "질문이 추가되었습니다"

  /** The markdown appended for one question; the detailed answer's block appears only when
      one is given. */
  function Section(question: string, shortAnswer: string, detailedAnswer: string): (s: string)
    ensures "\n\n### " + question + "\n\n**답변**:\n" + shortAnswer + "\n\n" <= s
    ensures EndsWith(s, "\n")
    ensures detailedAnswer == "" ==>
      s == "\n\n### " + question + "\n\n**답변**:\n" + shortAnswer + "\n\n" + "\n"
    ensures detailedAnswer != "" ==>
      s == "\n\n### " + question + "\n\n**답변**:\n" + shortAnswer + "\n\n"
           + "\n**상세 답변**:\n" + detailedAnswer + "\n" + "\n"
  {
    var detailed := if detailedAnswer != "" then "\n**상세 답변**:\n" + detailedAnswer + "\n" else "";
    "\n\n### " + question + "\n\n**답변**:\n" + shortAnswer + "\n\n" + detailed + "\n"
  }

  /** The new text of a company file: `parse` is gray-matter's reading into front matter and
      body, `stringify` its writing back. */
  function Appended(text: string, parse: string -> MdFile, stringify: MdFile -> string,
                    question: string, shortAnswer: string, detailedAnswer: string): string
  {
    var m := parse(text);
    stringify(MdFile(m.data, m.content + Section(question, shortAnswer, detailedAnswer)))
  }

  /** POST. */
  method Post(dir: CompanyDir, session: Option<Identity>, companyName: string, question: string,
              shortAnswer: string, detailedAnswer: string,
              parse: string -> MdFile, stringify: MdFile -> string)
    returns (r: Response)
    modifies dir
    ensures session.None? ==> r == Unauthorized && unchanged(dir)
    ensures session.Some? && (companyName == "" || question == "" || shortAnswer == "")
      ==> r == Response(400, Error(FieldsRequired)) && unchanged(dir)
    ensures session.Some? && companyName != "" && question != "" && shortAnswer != ""
      && companyName !in old(dir.files)
      ==> r == Response(404, Error(NotFound)) && unchanged(dir)
    ensures session.Some? && companyName != "" && question != "" && shortAnswer != ""
      && companyName in old(dir.files)
      ==> r == Response(200, Note(Added))
          && dir.files == old(dir.files)[companyName :=
               Appended(old(dir.files)[companyName], parse, stringify, question, shortAnswer, detailedAnswer)]
  {
    if session.None? {
      return Unauthorized;
    }
    if companyName == "" || question == "" || shortAnswer == "" {
      return Response(400, Error(FieldsRequired));
    }
    if companyName !in dir.files {
      return Response(404, Error(NotFound));
    }
    var text := Appended(dir.files[companyName], parse, stringify, question, shortAnswer, detailedAnswer);
    dir.files := dir.files[companyName := text];
    r := Response(200, Note(Added));
  }

  /** gray-matter reads back what it wrote for `m`. This is not true of every file (a body
      that itself starts with a front-matter fence is one exception), so it is asked only of
      the files these routes write. */
  predicate RoundTrips(parse: string -> MdFile, stringify: MdFile -> string, m: MdFile) {
    parse(stringify(m)) == m
  }

  /** The file the append writes, before gray-matter turns it into text. */
  function AppendedFile(text: string, parse: string -> MdFile,
                        question: string, shortAnswer: string, detailedAnswer: string): MdFile
  {
    MdFile(parse(text).data, parse(text).content + Section(question, shortAnswer, detailedAnswer))
  }

  /** When gray-matter reads back the file it wrote, the file after the append has the same
      front matter and its body ends with the new section. */
  lemma AppendKeepsFrontMatter(text: string, parse: string -> MdFile, stringify: MdFile -> string,
                               question: string, shortAnswer: string, detailedAnswer: string)
    requires RoundTrips(parse, stringify, AppendedFile(text, parse, question, shortAnswer, detailedAnswer))
    ensures var after := parse(Appended(text, parse, stringify, question, shortAnswer, detailedAnswer));
      after.data == parse(text).data
      && after.content == parse(text).content + Section(question, shortAnswer, detailedAnswer)
  {
  }

  /** Two appends leave both sections, the first one first. */
  lemma AppendsInOrder(text: string, parse: string -> MdFile, stringify: MdFile -> string,
                       q1: string, a1: string, d1: string, q2: string, a2: string, d2: string)
    requires RoundTrips(parse, stringify, AppendedFile(text, parse, q1, a1, d1))
    requires RoundTrips(parse, stringify,
               AppendedFile(Appended(text, parse, stringify, q1, a1, d1), parse, q2, a2, d2))
    ensures var once := Appended(text, parse, stringify, q1, a1, d1);
      parse(Appended(once, parse, stringify, q2, a2, d2)).content
        == parse(text).content + Section(q1, a1, d1) + Section(q2, a2, d2)
  {
    var once := Appended(text, parse, stringify, q1, a1, d1);
    AppendKeepsFrontMatter(text, parse, stringify, q1, a1, d1);
    AppendKeepsFrontMatter(once, parse, stringify, q2, a2, d2);
  }
}
