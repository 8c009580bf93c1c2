/** lib/questions.ts: the question catalog, read from the markdown files of one directory per
    category. The directories are given as a listing: each existing directory's name to its
    entries, each entry with its file text. */
module Questions {
  import opened Wrappers
  import opened Seqs
  import opened Text
  import opened Records

  /** A directory entry and the text of the file. */
  datatype Entry = Entry(name: string, text: string)

  /** The catalog's directories: a category id to its entries; ids absent have no directory. */
  type Listing = map<string, seq<Entry>>

  datatype CategoryMeta = CategoryMeta(id: string, name: string, description: string)

  /** A category as the home page lists it, with the number of its question files. */
  datatype Category = Category(id: string, name: string, description: string, count: nat)

  /** A catalog question. Front-matter fields that are missing are None. */
  datatype Question = Question(id: string, category: string, question: Option<string>,
                               shortAnswer: Option<string>, detailedAnswer: string)

  /** What getCategoryInfo returns: the id, and the name and description when registered. */
  datatype CategoryInfo = CategoryInfo(id: string, name: Option<string>, description: Option<string>)

  /** Why a catalog read throws: the file is missing, or the category has no registry entry
      (reading `.name` of undefined). */
  datatype CatalogError = FileMissing | UnknownCategory

  /** The registered categories, in the registry's order. */
  const Registry: seq<CategoryMeta> := [
    CategoryMeta("network", "네트워크", "OSI 모델, TCP/IP, DNS 등"),
    CategoryMeta("linux", "Linux", "리눅스 시스템 관리 및 명령어"),
    CategoryMeta("cloud", "클라우드", "AWS, Azure, GCP 등 클라우드 서비스"),
    CategoryMeta("container", "컨테이너", "Docker, Kubernetes 등"),
    CategoryMeta("cicd", "CI/CD", "지속적 통합 및 배포"),
    CategoryMeta("java", "Java", "Java 기초, JVM, Spring Framework 등"),
    CategoryMeta("company", "기업별 질문", "카카오, 네이버, 쿠팡 등 기업별 예상 질문")
  ]

  const MdSuffix: string := ".md"

  /** `categories[id]`. */
  function Lookup(id: string): (r: Option<CategoryMeta>)
    ensures r.Some? <==> exists i :: 0 <= i < |Registry| && Registry[i].id == id
    ensures r.Some? ==> r.value in Registry && r.value.id == id
  {
    match FirstIndex(Registry, (m: CategoryMeta) => m.id == id)
      case None => None
      case Some(i) => Some(Registry[i])
  }

  predicate IsMd(e: Entry) {
    EndsWith(e.name, MdSuffix)
  }

  /** `.filter(f => f.endsWith('.md'))`. */
  function MdEntries(entries: seq<Entry>): (r: seq<Entry>)
    ensures |r| <= |entries|
    ensures forall e :: e in r <==> e in entries && IsMd(e)
    ensures forall e :: multiset(r)[e] == if IsMd(e) then multiset(entries)[e] else 0
  {
    var r := Filter(entries, IsMd);
    forall e ensures e in r <==> e in entries && IsMd(e) {
      FilterMembership(entries, IsMd, e);
    }
    r
  }

  /** The number of question files of a category: 0 without a directory. */
  function Count(listing: Listing, id: string): nat {
    if id in listing then |MdEntries(listing[id])| else 0
  }

  /** getCategories: every registered category, in order, with its file count. */
  function GetCategories(listing: Listing): (r: seq<Category>)
    ensures |r| == |Registry|
    ensures forall i :: 0 <= i < |r| ==>
      r[i].id == Registry[i].id && r[i].name == Registry[i].name
      && r[i].description == Registry[i].description && r[i].count == Count(listing, Registry[i].id)
  {
    seq(|Registry|, i requires 0 <= i < |Registry| =>
      Category(Registry[i].id, Registry[i].name, Registry[i].description, Count(listing, Registry[i].id)))
  }

  /** getCategoryInfo. */
  function GetCategoryInfo(id: string): (r: CategoryInfo)
    ensures r.id == id
    ensures r.name.Some? <==> Lookup(id).Some?
    ensures Lookup(id).Some? ==> r.name == Some(Lookup(id).value.name) && r.description == Some(Lookup(id).value.description)
    ensures Lookup(id).None? ==> r.description.None?
  {
    match Lookup(id)
      case None => CategoryInfo(id, None, None)
      case Some(m) => CategoryInfo(id, Some(m.name), Some(m.description))
  }

  /** `replace(/\.md$/, '')` on a name that ends in ".md". */
  function IdOf(name: string): (id: string)
    requires EndsWith(name, MdSuffix)
    ensures id + MdSuffix == name
  {
    name[..|name| - |MdSuffix|]
  }

  /** One front-matter field, when present. */
  function Field(data: map<string, string>, key: string): Option<string> {
    if key in data then Some(data[key]) else None
  }

  /** The question a markdown file holds: `parse` is gray-matter's reading of the file into
      front matter and body. */
  function ToQuestion(e: Entry, categoryName: string, parse: string -> MdFile): Question
    requires IsMd(e)
  {
    var m := parse(e.text);
    Question(IdOf(e.name), categoryName, Field(m.data, "question"), Field(m.data, "shortAnswer"), m.content)
  }

  /** getQuestionsByCategory: no directory gives no questions; a directory with question files
      but no registry entry throws. */
  function GetQuestionsByCategory(listing: Listing, id: string, parse: string -> MdFile)
    : (r: Result<seq<Question>, CatalogError>)
    ensures r.Err? <==> id in listing && MdEntries(listing[id]) != [] && Lookup(id).None?
    ensures r.Ok? ==> |r.value| == Count(listing, id)
    ensures r.Ok? ==> forall q :: q in r.value ==>
      exists e :: e in listing[id] && e.name == q.id + MdSuffix
    ensures r.Ok? && r.value != [] ==>
      Lookup(id).Some? && forall q :: q in r.value ==> q.category == Lookup(id).value.name
    ensures r.Ok? && id in listing && MdEntries(listing[id]) != [] ==>
      Lookup(id).Some? && r.value == ToQuestions(MdEntries(listing[id]), Lookup(id).value.name, parse)
  {
    if id !in listing then Ok([])
    else
      var md := MdEntries(listing[id]);
      if md == [] then Ok([])
      else match Lookup(id)
        case None => Err(UnknownCategory)
        case Some(meta) =>
          Ok(ToQuestions(md, meta.name, parse))
  }

  /** `.map(...)` over the question files: one question per file, in the listing's order. */
  function ToQuestions(md: seq<Entry>, categoryName: string, parse: string -> MdFile): (r: seq<Question>)
    requires forall i :: 0 <= i < |md| ==> IsMd(md[i])
    ensures |r| == |md|
    ensures forall i :: 0 <= i < |md| ==> r[i] == ToQuestion(md[i], categoryName, parse)
    ensures forall q :: q in r ==> exists i :: 0 <= i < |md| && q == ToQuestion(md[i], categoryName, parse)
  {
    if md == [] then []
    else
      var rest := ToQuestions(md[1..], categoryName, parse);
      assert forall i :: 0 <= i < |rest| ==> rest[i] == ToQuestion(md[i + 1], categoryName, parse) by {
        forall i | 0 <= i < |rest|
          ensures rest[i] == ToQuestion(md[i + 1], categoryName, parse)
        {
          assert md[1..][i] == md[i + 1];
        }
      }
      var r := [ToQuestion(md[0], categoryName, parse)] + rest;
      assert forall i :: 0 <= i < |md| ==> r[i] == ToQuestion(md[i], categoryName, parse);
      r
  }

  /** The entry of a directory with this name, if there is one. */
  function EntryNamed(entries: seq<Entry>, name: string): (r: Option<nat>)
    ensures r.Some? ==> r.value < |entries| && entries[r.value].name == name
    ensures r.None? <==> forall j :: 0 <= j < |entries| ==> entries[j].name != name
  {
    FirstIndex(entries, (e: Entry) => e.name == name)
  }

  /** getQuestionDetail: reading a missing file throws first; an unregistered category
      throws after. */
  function GetQuestionDetail(listing: Listing, id: string, questionId: string, parse: string -> MdFile)
    : (r: Result<Question, CatalogError>)
    ensures r == Err(FileMissing) <==>
      id !in listing || EntryNamed(listing[id], questionId + MdSuffix).None?
    ensures r.Ok? ==> Lookup(id).Some? && r.value.id == questionId && r.value.category == Lookup(id).value.name
  {
    if id !in listing then Err(FileMissing)
    else match EntryNamed(listing[id], questionId + MdSuffix)
      case None => Err(FileMissing)
      case Some(k) =>
        var e := listing[id][k];
        assert EndsWith(e.name, MdSuffix) by {
          assert e.name == questionId + MdSuffix;
          assert e.name[|e.name| - |MdSuffix|..] == MdSuffix;
        }
        match Lookup(id)
          case None => Err(UnknownCategory)
          case Some(meta) => Ok(ToQuestion(e, meta.name, parse))
  }

  /** No two entries of a directory share a name. */
  predicate DistinctNames(entries: seq<Entry>) {
    forall i, j :: 0 <= i < j < |entries| ==> entries[i].name != entries[j].name
  }

  /** The home page's count of a registered category is the length of its question list. */
  lemma CountMatchesList(listing: Listing, i: nat, parse: string -> MdFile)
    requires i < |Registry|
    ensures GetQuestionsByCategory(listing, Registry[i].id, parse).Ok?
    ensures |GetQuestionsByCategory(listing, Registry[i].id, parse).value| == GetCategories(listing)[i].count
  {
    assert Lookup(Registry[i].id).Some?;
  }

  /** Every question listed for a registered category opens, on its own page, as listed. */
  lemma DetailAgreesWithList(listing: Listing, id: string, parse: string -> MdFile, q: Question)
    requires GetQuestionsByCategory(listing, id, parse).Ok? && q in GetQuestionsByCategory(listing, id, parse).value
    requires id in listing && DistinctNames(listing[id])
    ensures GetQuestionDetail(listing, id, q.id, parse) == Ok(q)
  {
    var md := MdEntries(listing[id]);
    var meta := Lookup(id).value;
    assert GetQuestionsByCategory(listing, id, parse).value == ToQuestions(md, meta.name, parse);
    var i :| 0 <= i < |md| && q == ToQuestion(md[i], meta.name, parse);
    assert md[i] in md;
    DetailOfEntry(listing, id, md[i], meta, parse);
  }

  /** The detail page of a question file shows what the file holds. */
  lemma DetailOfEntry(listing: Listing, id: string, e: Entry, meta: CategoryMeta, parse: string -> MdFile)
    requires id in listing && DistinctNames(listing[id]) && e in listing[id] && IsMd(e)
    requires Lookup(id) == Some(meta)
    ensures GetQuestionDetail(listing, id, IdOf(e.name), parse) == Ok(ToQuestion(e, meta.name, parse))
  {
    var j :| 0 <= j < |listing[id]| && listing[id][j] == e;
    var k := EntryNamed(listing[id], IdOf(e.name) + MdSuffix).value;
    assert k == j;
  }

}
